# Kairos Muse recorder: a verified model of its session protocol

`kairos.js` drives a Muse EEG headband over Bluetooth LE. It frames commands
for the headband's control characteristic, runs the stream-initialisation
handshake (`h`, `v`, `i`, preset, `s`, `d`, then a `k` keepalive every nine
seconds), decodes the signed 16-bit samples of five EEG channels, and records
ten-second windows of them to CSV files. Key presses mark an "intuitive"
moment, toggle recording and send commands.

This project models that core in Dafny and proves properties of the model:

- `Framing`: `encodeCommand` and the `send` guard.
- `Samples`: the decode loop of the per-channel `data` handler. It is an
  imperative method proved against a closed-form specification.
- `Csv`: the header and the row template literal, with a parser proving that
  every row reads back as the record it was written from.
- `Keys`: the keypress dispatch, including JavaScript's string comparison
  for the digit keys.
- `Recording`: the module-level state (`isRecording`, `isIntuitive`, the open
  write stream, the `setTimeout` stop timers and the control writes) as a
  class `Session`. Its methods are the handlers. Time is an abstract clock:
  `AdvanceTo(t)` fires every stop timer due by `t`, in deadline order, and
  every other event happens at the current time.
- `Handshake`: `initStream` as a pure trace of writes, delays and the
  keepalive start. This includes the preset choice, a write the transport
  rejects, and the case where no control characteristic was found.
- `Bytes` and `Text`: `readInt16LE`, number rendering, `join`/split,
  ASCII `toLowerCase` and `includes`. `Wrappers` holds `Option` and `Result`.

Four behaviours of the code are easy to misread, and the model keeps them
as written:

- `encodeCommand` builds its buffer from `'X' + cmd + '\n'` and then
  overwrites byte 0, the `'X'`, with the length, so the `'X'` never reaches
  the wire: a frame is `[len+1] ++ cmd ++ ['\n']`
  (`Framing.EncodeCommandIsFrame`).
- The decode loop's guard is `off < data.length`, so an odd payload of 3 to
  11 bytes ends in a `readInt16LE` of the one remaining byte, which throws.
  The model returns an `OutOfRange` error there and writes no row
  (`Samples.DecodeShape`, `Recording.Session.OnData`).
- The 10 s stop timer set by `startRecording` is never cancelled. After a
  manual stop and a restart within ten seconds, the first window's timer
  ends the second window early (`Recording.StaleTimerScenario`).
- A key readline has no name for (such as `.`) arrives without a key
  object, and `key.ctrl` then throws, ending the process with any open file
  left unended (`Keys.ControlKeys`, `Recording.CrashScenario`).

## Model

| member | source | states |
|---|---|---|
| Bytes.Int16LE | kairos.js:148 | `readInt16LE` gives a value in -32768..32767 congruent to `lo + 256*hi` modulo 2^16 |
| Bytes.Int16RoundTrip | kairos.js:148 | storing a 16-bit value and reading it back gives the value; reading two bytes and storing the result gives the same bytes |
| Framing.Latin1 | kairos.js:28 | the 'ascii' buffer has one byte per character, the code's low eight bits, and a string of characters below U+0100 reads back unchanged from it |
| Framing.EncodeCommand | kairos.js:27-31 | the frame is two bytes longer than the command: byte 0 is `(len+1) mod 256`, then the command bytes, then a newline |
| Framing.EncodeCommandIsFrame | kairos.js:27-31 | overwriting the 'X' leaves exactly the length-prefixed frame of the command bytes |
| Framing.FrameRoundTrip | kairos.js:26-31 | decoding a frame gives its payload back, and a frame decodes to a payload only if it is that payload's frame |
| Framing.CommandRoundTrip | kairos.js:27-31 | a command of characters below U+0100 is recovered unchanged from its frame |
| Framing.Transmit | kairos.js:34-36 | `send` writes nothing without a control characteristic, and otherwise exactly one frame that decodes to the command |
| Samples.Iterations | kairos.js:147 | the loop body runs at most five times, each time at an offset inside the payload, and stops only at five samples or the payload's end |
| Samples.DecodeSamples | kairos.js:146-149 | the loop yields exactly the closed-form decode: the samples at offsets 2, 4, ... or the out-of-range fault of its last read |
| Samples.DecodeShape | kairos.js:147-148 | decoding faults exactly for odd lengths 3 to 11; otherwise it gives min(5, (L-2)/2) samples (none below 3 bytes) and exactly 5 from 12 bytes on |
| Samples.DecodedSample | kairos.js:148 | sample j is the signed little-endian value of bytes 2+2j and 3+2j |
| Text.NatToString | kairos.js:150 | a number renders as a nonempty digit string with no leading zero |
| Text.NatToStringRoundTrip | kairos.js:150 | a rendered natural number parses back to itself |
| Text.NatToStringInjective | kairos.js:73 | different numbers render differently |
| Text.IntToStringRoundTrip | kairos.js:150 | a rendered integer parses back to itself and contains no comma |
| Text.SplitJoin | kairos.js:150 | the comma join of the row is invertible: splitting comma-free fields joined by a comma gives the fields back (the split is the model's own inverse, not part of the program) |
| Text.LowerIdempotent | kairos.js:171 | no upper-case ASCII letter survives lower-casing, and lower-casing twice is lower-casing once |
| Text.LowerChar | kairos.js:171 | an upper-case ASCII letter becomes the lower-case letter 32 code points on; any other character is left unchanged |
| Text.IncludesIff | kairos.js:171 | `includes` holds exactly when the pattern occurs at some index |
| Csv.RowFields | kairos.js:150 | a row ends in a newline, its fields are timestamp, electrode, the sample fields and the flag, and a row of five samples has eight fields like the header at line 75 |
| Csv.ParseIntsRoundTrip | kairos.js:150 | the joined sample fields parse back to the samples |
| Csv.FormatRowRoundTrip | kairos.js:150 | every data row reads back as the record it was written from |
| Keys.InDigitRangeIff | kairos.js:68 | `name >= '1' && name <= '9'` holds exactly for names starting with 1 to 8 and for "9" itself |
| Keys.SingleKeySends | kairos.js:67-68 | of one-character keys, digits 1-9 send `p` plus the digit, s/d/h send themselves, and nothing else sends |
| Keys.ControlKeys | kairos.js:60-66 | only Ctrl+C quits, only space marks, r toggles whatever the modifier, and exactly a key without a key object crashes the handler |
| Handshake.PresetChoice | kairos.js:171 | the preset is p21 exactly when "muses" occurs in the lower-cased name, and p20 otherwise |
| Handshake.PresetMuseS | kairos.js:171 | a name "MuseS" selects p21 |
| Handshake.PresetMuse2016 | kairos.js:171 | a name "Muse-2016" selects p20 |
| Handshake.AcceptedAt | kairos.js:164-178 | in the accepted trace, command k's write is followed by its settle delay |
| Handshake.AcceptedFrom | kairos.js:164-181 | with every write accepted, the handshake from command k on is the tail of the accepted trace |
| Handshake.SentIsTransmitted | kairos.js:34-36 | a write in the handshake trace is exactly the one frame `send` hands to the control channel, and there is none without it |
| Handshake.InitStreamAccepted | kairos.js:163-181 | with every write accepted, the trace is h, 50, v, 50, i, 200, preset, 50, s, 50, d, then the keepalive start |
| Handshake.RejectedFrom | kairos.js:163-178 | a rejected write cuts the trace just after that write and ends the run with that rejection |
| Handshake.InitStreamRejected | kairos.js:163-178 | a rejected write at command j ends the run: the trace is the accepted one up to that write, and the keepalive never starts |
| Handshake.SilentFrom | kairos.js:35 | without a control characteristic, the handshake from command k on is only the remaining delays and the keepalive start |
| Handshake.InitStreamWithoutControl | kairos.js:163-181 | without a control characteristic nothing is written, but the delays run and the keepalive still starts |
| Handshake.KeepalivePeriodic | kairos.js:181 | each further 9 s adds one `k` frame with a control characteristic; without one, nothing is written |
| Recording.FileNamesDistinct | kairos.js:73 | windows started at different milliseconds write different files |
| Recording.OpenOk | kairos.js:71-75 | opening a file with just the header while idle keeps the session invariant |
| Recording.CloseOk | kairos.js:80-83 | ending the open file keeps the session invariant, now idle |
| Recording.AppendOk | kairos.js:150 | appending a well-formed row to the open file keeps the session invariant |
| Recording.PopOk | kairos.js:77 | dropping the earliest timer keeps the timers sorted and within the window |
| Recording.PushOk | kairos.js:77 | a new timer ten seconds from now keeps the timers sorted and within the window |
| Recording.AdvanceOk | kairos.js:77 | once no timer is due, the clock may advance, and every pending timer lies after the new time |
| Recording.PendingSpec | kairos.js:77 | the timers pending at t are the sorted list with every due deadline removed from its front, and none of them is due |
| Recording.Session.constructor | kairos.js:17-24 | a session starts idle with intuitive 0, no files, no timers and nothing written |
| Recording.Session.Start | kairos.js:71-78 | starting opens a new file named by the clock with the header and schedules a stop ten seconds later |
| Recording.Session.Stop | kairos.js:80-85 | stopping does nothing when idle; otherwise it ends the open file exactly once and goes idle |
| Recording.Session.Toggle | kairos.js:66 | r stops when recording and starts otherwise |
| Recording.Session.Send | kairos.js:34-36 | a key's command adds its frame to the wire only with a control characteristic |
| Recording.Session.Press | kairos.js:60-69 | each key does exactly its dispatched action and nothing else; the process ends exactly on Ctrl+C or a key without a key object; the intuitive flag never goes back from 1 |
| Recording.Session.OnData | kairos.js:142-151 | while recording, a payload appends one row with the current time, the channel, its samples and the flag, and the row reads back as that record; a payload whose decode faults writes nothing; while idle nothing happens |
| Recording.Session.AdvanceTo | kairos.js:77 | advancing the clock fires exactly the due timers in order; a recording survives exactly when its earliest deadline is later |
| Recording.OpenWindow | kairos.js:71-78 | a window started at t0 is still open with its single timer at every time before t0 + 10 s |
| Recording.CrashScenario | kairos.js:60-61 | a key without a key object while recording ends the process with the file not ended |
| Recording.StartStop | kairos.js:77-85 | after a manual stop the window's timer is still pending |
| Recording.StaleTimerScenario | kairos.js:71-85 | a stop timer from a window stopped by hand closes a window restarted within ten seconds at the first window's deadline, and each file is ended once |
| Recording.FeedOne | kairos.js:142-151 | one payload while recording appends exactly its row to the open file |
| Recording.FeedChannels | kairos.js:142-151 | one payload per channel appends one row per channel, in channel order |
| Recording.CloseWindow | kairos.js:142-151 | after a manual stop, a payload arriving later writes nothing and the file is ended once |
| Recording.FullPayloads | kairos.js:147-148 | 14-byte payloads decode to five samples each |
| Recording.CaptureScenario | kairos.js:142-151 | start, one 14-byte payload per channel, stop, then one more payload: the file holds the header and five rows of five samples with flag 0, and is ended |
| Recording.StopThenTimerScenario | kairos.js:80-85 | after a manual stop, later data writes nothing and the window's own timer does not end the file again |

## Left out

- Bluetooth discovery, connection, service and characteristic discovery and subscription (kairos.js:87-141, 156): the model starts from whether a control characteristic was found, and channel indices are 0 to 4.
- File I/O: a write stream is modelled by the chunks written to it and the number of `end()` calls. Write errors and flushing are not modelled.
- `Date.now()` is the session's abstract clock. The real event loop, and the order of a timer and another event due in the same millisecond, are not modelled: events happen at the current time, and timers fire only in `AdvanceTo`.
- Console output (`console.log`, `console.error`) and the README written at startup (kairos.js:43-56).
- Terminal setup (kairos.js:58-59). Key events are modelled by their `ctrl` flag and `name`.
- `process.exit` and the TypeError of a key without a key object: `Recording.Session.Press` only reports that the process ends; what the runtime does with an open file at exit is not modelled. Disconnect handling (kairos.js:106) is left out with the rest of Bluetooth.
- The `dataBuffer` packet counter and its 2-second debug interval (kairos.js:143, 183-186): they only feed console output.
- Recording.Session.OnData: reports the decode fault as a result. In the program the RangeError escapes the event handler and brings the process down; that is not modelled.
- Recording.Session.Press: a key's `send` is fire-and-forget in the program, so a rejected write there is an unhandled promise rejection. The model assumes the write is accepted. The same holds for the keepalive writes (`Handshake.KeepalivePeriodic`).
- Handshake.InitStreamRejected: models a rejected handshake write as ending the run. The rejection of `initStream`'s promise itself, which nothing handles, is not modelled further.
- Text.Lower: lower-cases ASCII letters only; `toLowerCase` on other Unicode letters is not modelled.
- Framing.Latin1: takes each UTF-16 code unit's low byte. Characters outside the Basic Multilingual Plane, which JavaScript stores as two code units, are not modelled.
- Handshake.KeepalivePeriodic: counts the frames written after a given elapsed time rather than simulating the interval timer, and the interval is never cleared in the program.

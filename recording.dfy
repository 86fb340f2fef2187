/** The session state the recorder keeps in module-level variables
    (kairos.js): the recording flag, the open file, the never-cancelled
    10-second stop timers, the sticky intuitive flag, and the frames the
    keypress handler sends. Time is an abstract millisecond clock: timers
    fire only when the clock is advanced past their deadline, and every
    other event happens at the current time. */
module Recording {
  import opened Wrappers
  import opened Bytes
  import Text
  import Framing
  import Samples
  import Csv
  import Keys

  /** The length of a recording window, in milliseconds. */
  const WindowMs: nat := 10000

  /** The number of EEG data channels. */
  const Channels: nat := 5

  /** One recording file: its name, the chunks written to it in order, and
      how many times `end()` was called on its stream. */
  datatype Sink = Sink(name: string, chunks: seq<string>, ends: nat)

  /** `muse_data_${Date.now()}.csv` */
  function FileName(t: nat): string
  {
    "muse_data_" + Text.NatToString(t) + ".csv"
  }

  /** Windows started at different milliseconds write different files. */
  lemma FileNamesDistinct(a: nat, b: nat)
    requires a != b
    ensures FileName(a) != FileName(b)
  {
    if FileName(a) == FileName(b) {
      var fa, fb := FileName(a), FileName(b);
      assert fa[10..|fa| - 4] == Text.NatToString(a);
      assert fb[10..|fb| - 4] == Text.NatToString(b);
      Text.NatToStringInjective(a, b);
    }
  }

  /** A file holds the header first and only well-formed data rows after it. */
  ghost predicate WellFormed(s: Sink)
  {
    1 <= |s.chunks| && s.chunks[0] == Csv.Header
    && forall j :: 1 <= j < |s.chunks| ==> Csv.ParseRow(s.chunks[j]).Some?
  }

  /** The files after `end()` is called on the newest one. */
  function EndLast(sinks: seq<Sink>): (r: seq<Sink>)
    requires 0 < |sinks|
    ensures |r| == |sinks| && r[..|r| - 1] == sinks[..|sinks| - 1]
    ensures r[|r| - 1] == sinks[|sinks| - 1].(ends := sinks[|sinks| - 1].ends + 1)
  {
    sinks[|sinks| - 1 := sinks[|sinks| - 1].(ends := sinks[|sinks| - 1].ends + 1)]
  }

  /** The files after `chunk` is written to the newest one. */
  function AppendLast(sinks: seq<Sink>, chunk: string): (r: seq<Sink>)
    requires 0 < |sinks|
    ensures |r| == |sinks| && r[..|r| - 1] == sinks[..|sinks| - 1]
    ensures r[|r| - 1] == sinks[|sinks| - 1].(chunks := sinks[|sinks| - 1].chunks + [chunk])
  {
    sinks[|sinks| - 1 := sinks[|sinks| - 1].(chunks := sinks[|sinks| - 1].chunks + [chunk])]
  }

  /** The files of a session: while recording the newest one is open; every
      other file has been ended exactly once, and each is well formed. */
  ghost predicate SinksOk(sinks: seq<Sink>, recording: bool)
  {
    (recording ==> 0 < |sinks|)
    && (forall k :: 0 <= k < |sinks| ==>
          sinks[k].ends == (if recording && k == |sinks| - 1 then 0 else 1))
    && (forall k :: 0 <= k < |sinks| ==> WellFormed(sinks[k]))
  }

  /** Pending stop timers lie in the next ten seconds, in deadline order. */
  predicate TimersOk(timers: seq<int>, now: int)
  {
    (forall j :: 0 <= j < |timers| ==> now < timers[j] <= now + WindowMs)
    && (forall i, j :: 0 <= i < j < |timers| ==> timers[i] <= timers[j])
  }

  /** Opening a new file with just the header while idle. */
  lemma OpenOk(sinks: seq<Sink>, name: string)
    requires SinksOk(sinks, false)
    ensures SinksOk(sinks + [Sink(name, [Csv.Header], 0)], true)
  {
    var r := sinks + [Sink(name, [Csv.Header], 0)];
    assert forall k :: 0 <= k < |sinks| ==> r[k] == sinks[k];
  }

  /** Ending the open file. */
  lemma CloseOk(sinks: seq<Sink>)
    requires SinksOk(sinks, true)
    ensures SinksOk(EndLast(sinks), false)
  {
    var r := EndLast(sinks);
    assert forall k :: 0 <= k < |sinks| - 1 ==> r[k] == r[..|r| - 1][k] == sinks[k];
  }

  /** Writing a well-formed row to the open file. */
  lemma AppendOk(sinks: seq<Sink>, row: string)
    requires SinksOk(sinks, true) && Csv.ParseRow(row).Some?
    ensures SinksOk(AppendLast(sinks, row), true)
  {
    var r := AppendLast(sinks, row);
    assert forall k :: 0 <= k < |sinks| - 1 ==> r[k] == r[..|r| - 1][k] == sinks[k];
    var last := r[|r| - 1];
    assert forall j :: 1 <= j < |last.chunks| - 1 ==> last.chunks[j] == sinks[|sinks| - 1].chunks[j];
  }

  /** The timers left once the earliest one has fired. */
  lemma PopOk(timers: seq<int>, now: int)
    requires TimersOk(timers, now) && timers != []
    ensures TimersOk(timers[1..], now)
  {
  }

  /** A new timer ten seconds from now goes last. */
  lemma PushOk(timers: seq<int>, now: int)
    requires TimersOk(timers, now)
    ensures TimersOk(timers + [now + WindowMs], now)
  {
  }

  /** Once no timer is due by `t`, the clock may move to `t`. */
  lemma AdvanceOk(timers: seq<int>, now: int, t: int)
    requires TimersOk(timers, now) && now <= t && (timers == [] || t < timers[0])
    ensures TimersOk(timers, t)
    ensures forall j :: 0 <= j < |timers| ==> t < timers[j]
  {
  }

  /** The deadlines of a sorted timer list still pending at time `t`. */
  function Pending(timers: seq<int>, t: int): seq<int>
  {
    if timers != [] && timers[0] <= t then Pending(timers[1..], t) else timers
  }

  class Session {
    var control: bool              // the control characteristic was found
    var wire: seq<Framing.Frame>   // frames the keypress handler has written
    var isRecording: bool
    var isIntuitive: nat
    var sinks: seq<Sink>           // every file opened so far, the newest last
    var timers: seq<int>           // deadlines of the pending stop timers
    var now: nat                   // the clock, in epoch milliseconds

    /** A file is open exactly while recording and it is the newest one;
        every other file has been ended exactly once. Pending timers lie in
        the next ten seconds and fire in deadline order. */
    ghost predicate Valid()
      reads this
    {
      isIntuitive <= 1 && SinksOk(sinks, isRecording) && TimersOk(timers, now)
    }

    constructor (start: nat, hasControl: bool)
      ensures Valid()
      ensures control == hasControl && wire == [] && now == start
      ensures !isRecording && isIntuitive == 0 && sinks == [] && timers == []
    {
      control, wire, now := hasControl, [], start;
      isRecording, isIntuitive, sinks, timers := false, 0, [], [];
    }

    /** startRecording: open a new file with the header and schedule a stop
        ten seconds from now. Only reached from the idle state. */
    method Start()
      requires Valid() && !isRecording
      modifies this`isRecording, this`sinks, this`timers
      ensures Valid()
      ensures isRecording
      ensures sinks == old(sinks) + [Sink(FileName(now), [Csv.Header], 0)]
      ensures timers == old(timers) + [now + WindowMs]
    {
      OpenOk(sinks, FileName(now));
      PushOk(timers, now);
      isRecording := true;
      sinks := sinks + [Sink(FileName(now), [Csv.Header], 0)];
      timers := timers + [now + WindowMs];
    }

    /** stopRecording: nothing when idle; otherwise end the open file. */
    method Stop()
      requires Valid()
      modifies this`isRecording, this`sinks
      ensures Valid()
      ensures !isRecording
      ensures sinks == if old(isRecording) then EndLast(old(sinks)) else old(sinks)
    {
      if !isRecording {
        return;
      }
      CloseOk(sinks);
      isRecording := false;
      sinks := EndLast(sinks);
    }

    /** The `r` key: stop when recording, start otherwise. */
    method Toggle()
      requires Valid()
      modifies this`isRecording, this`sinks, this`timers
      ensures Valid()
      ensures isRecording == !old(isRecording)
      ensures sinks == if old(isRecording) then EndLast(old(sinks))
                       else old(sinks) + [Sink(FileName(now), [Csv.Header], 0)]
      ensures timers == if old(isRecording) then old(timers) else old(timers) + [now + WindowMs]
    {
      if isRecording {
        Stop();
      } else {
        Start();
      }
    }

    /** `send(cmd)` from the keypress handler: one frame when the control
        channel exists, nothing otherwise. */
    method Send(cmd: string)
      requires Valid()
      modifies this`wire
      ensures Valid()
      ensures wire == old(wire) + Framing.Transmit(control, cmd)
    {
      wire := wire + Framing.Transmit(control, cmd);
    }

    /** The keypress handler. `ended` reports that the process ends after
        this key: Ctrl+C exits, and a key without a key object throws before
        anything else happens, leaving an open file open. */
    method Press(ctrl: bool, name: Option<string>) returns (ended: bool)
      requires Valid()
      modifies this`isIntuitive, this`isRecording, this`sinks, this`timers, this`wire
      ensures Valid()
      ensures ended <==> Keys.Dispatch(ctrl, name) == Keys.Quit || Keys.Dispatch(ctrl, name) == Keys.Crash
      ensures isIntuitive == if Keys.Dispatch(ctrl, name) == Keys.MarkIntuitive then 1 else old(isIntuitive)
      ensures old(isIntuitive) <= isIntuitive
      ensures isRecording == if Keys.Dispatch(ctrl, name) == Keys.ToggleRecording then !old(isRecording) else old(isRecording)
      ensures Keys.Dispatch(ctrl, name) != Keys.ToggleRecording ==> sinks == old(sinks) && timers == old(timers)
      ensures Keys.Dispatch(ctrl, name) == Keys.ToggleRecording ==>
                sinks == (if old(isRecording) then EndLast(old(sinks))
                          else old(sinks) + [Sink(FileName(now), [Csv.Header], 0)]) &&
                timers == (if old(isRecording) then old(timers) else old(timers) + [now + WindowMs])
      ensures wire == if Keys.Dispatch(ctrl, name).SendCommand?
                      then old(wire) + Framing.Transmit(control, Keys.Dispatch(ctrl, name).cmd)
                      else old(wire)
    {
      ended := false;
      match Keys.Dispatch(ctrl, name)
      case Quit =>
        ended := true;
      case Crash =>
        ended := true;
      case MarkIntuitive =>
        isIntuitive := 1;
      case ToggleRecording =>
        Toggle();
      case SendCommand(cmd) =>
        Send(cmd);
      case Ignore =>
    }

    /** The 'data' handler of channel `channel`: while recording, decode the
        payload and append its row to the open file. A payload whose last
        read runs past its end faults before anything is written. */
    method OnData(channel: nat, data: seq<Byte>) returns (fault: Option<Samples.DecodeError>)
      requires Valid() && channel < Channels
      modifies this`sinks
      ensures Valid()
      ensures fault == if old(isRecording) && Samples.Decode(data).Err? then Some(Samples.Decode(data).error) else None
      ensures sinks == if isRecording && Samples.Decode(data).Ok?
                       then AppendLast(old(sinks), Csv.FormatRow(Csv.Record(now, channel, Samples.Decode(data).value, isIntuitive)))
                       else old(sinks)
    {
      if !isRecording {
        return None;
      }
      var decoded := Samples.DecodeSamples(data);
      match decoded
      case Err(e) =>
        fault := Some(e);
      case Ok(samples) =>
        var row := Csv.FormatRow(Csv.Record(now, channel, samples, isIntuitive));
        Csv.FormatRowRoundTrip(Csv.Record(now, channel, samples, isIntuitive));
        AppendOk(sinks, row);
        sinks := AppendLast(sinks, row);
        fault := None;
    }

    /** Let the clock run to `t`: every stop timer due by then fires, in
        deadline order, each calling stopRecording. A timer left over from an
        earlier window fires like any other. As the timers are sorted, a
        recording survives exactly when the earliest deadline is after `t`. */
    method AdvanceTo(t: nat)
      requires Valid() && now <= t
      modifies this`timers, this`isRecording, this`sinks, this`now
      ensures Valid()
      ensures now == t
      ensures timers == Pending(old(timers), t)
      ensures isRecording == (old(isRecording) && (old(timers) == [] || t < old(timers)[0]))
      ensures sinks == if old(isRecording) && old(timers) != [] && old(timers)[0] <= t
                       then EndLast(old(sinks)) else old(sinks)
    {
      ghost var before := timers;
      while timers != [] && timers[0] <= t
        invariant Valid() && now == old(now)
        invariant Pending(timers, t) == Pending(before, t)
        invariant |timers| <= |before| && (|timers| < |before| ==> before[0] <= t)
        invariant |timers| == |before| ==> timers == before
        invariant isRecording == (old(isRecording) && |timers| == |before|)
        invariant sinks == if old(isRecording) && |timers| < |before| then EndLast(old(sinks)) else old(sinks)
        decreases |timers|
      {
        PopOk(timers, now);
        timers := timers[1..];
        Stop();
      }
      AdvanceOk(timers, now, t);
      now := t;
    }
  }

  /** The timers still pending at `t` are what is left of the list once
      every deadline up to `t` has been dropped from its front: all the
      dropped deadlines are due, none of the kept ones is. */
  lemma {:induction false} PendingSpec(timers: seq<int>, t: int)
    requires forall i, j :: 0 <= i < j < |timers| ==> timers[i] <= timers[j]
    ensures |Pending(timers, t)| <= |timers|
    ensures Pending(timers, t) == timers[|timers| - |Pending(timers, t)|..]
    ensures forall j :: 0 <= j < |timers| - |Pending(timers, t)| ==> timers[j] <= t
    ensures forall j :: 0 <= j < |Pending(timers, t)| ==> t < Pending(timers, t)[j]
  {
    if timers != [] && timers[0] <= t {
      PendingSpec(timers[1..], t);
    }
  }

  /** A fresh session started at t0 and left to run to t, within the window. */
  method OpenWindow(t0: nat, t: nat, hasControl: bool) returns (s: Session)
    requires t0 <= t < t0 + WindowMs
    ensures fresh(s) && s.Valid() && s.isRecording && s.now == t && s.isIntuitive == 0
    ensures s.timers == [t0 + WindowMs] && s.sinks == [Sink(FileName(t0), [Csv.Header], 0)]
  {
    s := new Session(t0, hasControl);
    s.Toggle();
    s.AdvanceTo(t);
  }

  /** A key without a key object while recording ends the process with the
      file still open: it has not been ended. */
  method CrashScenario(t0: nat, t: nat) returns (ended: bool, ends: nat)
    requires t0 <= t < t0 + WindowMs
    ensures ended && ends == 0
  {
    var s := OpenWindow(t0, t, true);
    ended := s.Press(false, None);
    ends := s.sinks[0].ends;
  }

  /** Start at t0, stop by hand at t1, and let the clock run to t2, all
      within the first window: the window's timer is still pending. */
  method StartStop(t0: nat, t1: nat, t2: nat) returns (s: Session)
    requires t0 <= t1 <= t2 < t0 + WindowMs
    ensures fresh(s) && s.Valid() && !s.isRecording && s.now == t2
    ensures s.timers == [t0 + WindowMs] && s.sinks == [Sink(FileName(t0), [Csv.Header], 1)]
  {
    s := OpenWindow(t0, t1, false);
    s.Toggle();
    s.AdvanceTo(t2);
  }

  /** A stop timer from a window that was stopped by hand still fires: start
      at t0, stop at t1, start again at t2 within ten seconds of t0, and the
      second window is closed at t0 + 10 s instead of t2 + 10 s. Both files
      are ended exactly once. */
  method StaleTimerScenario(t0: nat, t1: nat, t2: nat) returns (justBefore: bool, atFirstDeadline: bool, ends: seq<nat>)
    requires t0 <= t1 <= t2 < t0 + WindowMs
    ensures justBefore && !atFirstDeadline
    ensures ends == [1, 1]
  {
    var s := StartStop(t0, t1, t2);
    s.Toggle();
    s.AdvanceTo(t0 + WindowMs - 1);
    justBefore := s.isRecording;
    s.AdvanceTo(t0 + WindowMs);
    atFirstDeadline := s.isRecording;
    ends := [s.sinks[0].ends, s.sinks[1].ends];
  }

  /** The rows the data handler writes for one payload per channel, in
      channel order, at time `t` with intuitive flag `flag`. */
  function Rows(t: nat, flag: nat, payloads: seq<seq<Byte>>): seq<string>
    requires forall i :: 0 <= i < |payloads| ==> Samples.Decode(payloads[i]).Ok?
  {
    seq(|payloads|, k requires 0 <= k < |payloads| =>
      Csv.FormatRow(Csv.Record(t, k, Samples.Decode(payloads[k]).value, flag)))
  }

  /** The data handler of one channel, while the only file is open. */
  method FeedOne(s: Session, channel: nat, payload: seq<Byte>)
    requires s.Valid() && s.isRecording && |s.sinks| == 1 && channel < Channels
    requires Samples.Decode(payload).Ok?
    modifies s`sinks
    ensures s.Valid() && s.isRecording
    ensures s.sinks == [old(s.sinks[0]).(chunks := old(s.sinks[0].chunks)
                          + [Csv.FormatRow(Csv.Record(s.now, channel, Samples.Decode(payload).value, s.isIntuitive))])]
  {
    var fault := s.OnData(channel, payload);
  }

  /** One payload per channel, in channel order, while recording: the open
      file gains one row per channel and nothing else changes. */
  method FeedChannels(s: Session, payloads: seq<seq<Byte>>)
    requires s.Valid() && s.isRecording && |s.sinks| == 1
    requires |payloads| == Channels
    requires forall i :: 0 <= i < |payloads| ==> Samples.Decode(payloads[i]).Ok?
    modifies s`sinks
    ensures s.Valid()
    ensures s.sinks == [old(s.sinks[0]).(chunks := old(s.sinks[0].chunks) + Rows(s.now, s.isIntuitive, payloads))]
  {
    ghost var first := s.sinks[0];
    ghost var rows := Rows(s.now, s.isIntuitive, payloads);
    assert first.chunks + rows[..0] == first.chunks;
    var i := 0;
    while i < Channels
      invariant 0 <= i <= Channels
      invariant s.Valid() && s.isRecording
      invariant s.sinks == [first.(chunks := first.chunks + rows[..i])]
    {
      FeedOne(s, i, payloads[i]);
      assert first.chunks + rows[..i + 1] == first.chunks + rows[..i] + [rows[i]];
      i := i + 1;
    }
    assert rows[..i] == rows;
  }

  /** Let the clock run to `stop` before the only window's deadline and stop
      by hand, then let a payload arrive at `late`, still before that
      deadline: the file is ended once and keeps its contents. */
  method CloseWindow(s: Session, stop: nat, late: nat, payload: seq<Byte>)
    requires s.Valid() && s.isRecording && |s.sinks| == 1
    requires |s.timers| == 1 && s.now <= stop <= late < s.timers[0]
    modifies s`timers, s`isRecording, s`sinks, s`now
    ensures s.Valid() && !s.isRecording
    ensures s.sinks == [old(s.sinks[0]).(ends := 1)]
  {
    s.AdvanceTo(stop);
    s.Toggle();
    s.AdvanceTo(late);
    var fault := s.OnData(0, payload);
  }

  /** Payloads of 14 bytes each decode to five samples. */
  lemma FullPayloads(payloads: seq<seq<Byte>>)
    requires forall i :: 0 <= i < |payloads| ==> |payloads[i]| == 14
    ensures forall i :: 0 <= i < |payloads| ==>
              Samples.Decode(payloads[i]).Ok? && |Samples.Decode(payloads[i]).value| == 5
  {
    forall i | 0 <= i < |payloads|
      ensures Samples.Decode(payloads[i]).Ok? && |Samples.Decode(payloads[i]).value| == 5
    {
      Samples.DecodeShape(payloads[i]);
    }
  }

  /** One window end to end: start at t0, one 14-byte payload per channel at
      t0 + 100 ms, a manual stop at t0 + 200 ms, and one more payload at
      t0 + 300 ms. The file holds the header and five rows of five samples
      each with flag 0 and nothing more, and has been ended. */
  method CaptureScenario(t0: nat, payloads: seq<seq<Byte>>) returns (chunks: seq<string>, ends: nat)
    requires |payloads| == Channels
    requires forall i :: 0 <= i < |payloads| ==> |payloads[i]| == 14
    ensures |chunks| == 1 + Channels && chunks[0] == Csv.Header
    ensures forall i :: 0 <= i < Channels ==>
              Samples.Decode(payloads[i]).Ok? && |Samples.Decode(payloads[i]).value| == 5 &&
              chunks[i + 1] == Csv.FormatRow(Csv.Record(t0 + 100, i, Samples.Decode(payloads[i]).value, 0))
    ensures ends == 1
  {
    FullPayloads(payloads);
    var s := OpenWindow(t0, t0 + 100, true);
    FeedChannels(s, payloads);
    ghost var written := [Csv.Header] + Rows(t0 + 100, 0, payloads);
    assert s.sinks == [Sink(FileName(t0), written, 0)];
    assert forall i :: 0 <= i < Channels ==>
             written[i + 1] == Csv.FormatRow(Csv.Record(t0 + 100, i, Samples.Decode(payloads[i]).value, 0));
    CloseWindow(s, t0 + 200, t0 + 300, payloads[0]);
    chunks, ends := s.sinks[0].chunks, s.sinks[0].ends;
  }

  /** Once a window is stopped by hand, data arriving later writes nothing,
      and the window's own timer firing afterwards does not end the file a
      second time. */
  method StopThenTimerScenario(t0: nat, t1: nat, t2: nat, payload: seq<Byte>)
    returns (written: seq<string>, ends: nat, fault: Option<Samples.DecodeError>)
    requires t0 <= t1 <= t2
    ensures written == [Csv.Header] && ends == 1 && fault == None
  {
    var s := new Session(t0, true);
    s.Toggle();
    s.AdvanceTo(t1);
    if s.isRecording {
      s.Toggle();
    }
    s.AdvanceTo(t2);
    fault := s.OnData(0, payload);
    s.AdvanceTo(t2 + WindowMs);
    written, ends := s.sinks[0].chunks, s.sinks[0].ends;
  }
}

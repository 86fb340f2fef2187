/** Command framing for the device's control channel (kairos.js, encodeCommand
    and send). The frame is built from the string 'X' + cmd + '\n' and its
    first byte is then overwritten with the frame length minus one, so the
    'X' never reaches the wire: a frame is one length byte, the command
    bytes and a trailing newline. */
module Framing {
  import opened Wrappers
  import opened Bytes

  type Frame = seq<Byte>

  const Newline: Byte := 10

  /** The characters a byte sequence stands for, one per byte. */
  function Chars(b: seq<Byte>): (s: string)
    ensures |s| == |b|
    ensures forall k :: 0 <= k < |b| ==> s[k] as int == b[k]
  {
    seq(|b|, k requires 0 <= k < |b| => b[k] as char)
  }

  /** `Buffer.from(s, 'ascii')`: one byte per character, its code truncated to
      the low eight bits. A string of characters below U+0100 loses nothing:
      its bytes read back as the same string. */
  function Latin1(s: string): (b: seq<Byte>)
    ensures |b| == |s|
    ensures forall k :: 0 <= k < |s| ==> b[k] == (s[k] as int) % 0x100
    ensures (forall k :: 0 <= k < |s| ==> s[k] as int < 0x100) ==> Chars(b) == s
  {
    seq(|s|, k requires 0 <= k < |s| => (s[k] as int) % 0x100)
  }

  /** The length-prefixed frame around a payload. */
  function EncodeFrame(payload: seq<Byte>): Frame
  {
    [(|payload| + 1) % 0x100] + payload + [Newline]
  }

  /** `encodeCommand(cmd)`: the buffer for 'X' + cmd + '\n' whose byte 0 is
      overwritten with `length - 1` (a Buffer stores that value modulo 256). */
  function EncodeCommand(cmd: string): (f: Frame)
    ensures |f| == |cmd| + 2
    ensures f[0] == (|cmd| + 1) % 0x100
    ensures f[1..|f| - 1] == Latin1(cmd)
    ensures f[|f| - 1] == Newline
  {
    var buf := Latin1("X" + cmd + "\n");
    buf[0 := (|buf| - 1) % 0x100]
  }

  /** Strips a frame's length byte and trailing newline; `None` when the
      length byte does not count the bytes after it or the newline is missing. */
  function DecodeFrame(f: Frame): Option<seq<Byte>>
  {
    if 2 <= |f| && f[0] == (|f| - 1) % 0x100 && f[|f| - 1] == Newline
    then Some(f[1..|f| - 1])
    else None
  }

  /** The overwritten 'X' leaves exactly the length-prefixed frame of the command bytes. */
  lemma EncodeCommandIsFrame(cmd: string)
    ensures EncodeCommand(cmd) == EncodeFrame(Latin1(cmd))
  {
    var f, g := EncodeCommand(cmd), EncodeFrame(Latin1(cmd));
    assert |f| == |g|;
    forall k | 0 <= k < |f| ensures f[k] == g[k] {
      if 1 <= k < |f| - 1 {
        assert f[k] == f[1..|f| - 1][k - 1];
      }
    }
  }

  /** Decoding inverts framing, and a frame decodes to a payload only if it
      is that payload's frame. */
  lemma FrameRoundTrip(payload: seq<Byte>, f: Frame)
    ensures DecodeFrame(EncodeFrame(payload)) == Some(payload)
    ensures DecodeFrame(f) == Some(payload) ==> f == EncodeFrame(payload)
  {
    var e := EncodeFrame(payload);
    assert e[1..|e| - 1] == payload;
    if DecodeFrame(f) == Some(payload) {
      assert f == [f[0]] + f[1..|f| - 1] + [f[|f| - 1]];
    }
  }

  /** A command of characters below U+0100 comes back from its frame unchanged. */
  lemma {:induction false} CommandRoundTrip(cmd: string)
    requires forall k :: 0 <= k < |cmd| ==> cmd[k] as int < 0x100
    ensures DecodeFrame(EncodeCommand(cmd)).Some?
    ensures Chars(DecodeFrame(EncodeCommand(cmd)).value) == cmd
  {
    EncodeCommandIsFrame(cmd);
    FrameRoundTrip(Latin1(cmd), EncodeCommand(cmd));
  }

  /** `send(cmd)`: nothing is written when there is no control channel;
      otherwise the one frame for `cmd`. */
  function Transmit(control: bool, cmd: string): (frames: seq<Frame>)
    ensures control <==> |frames| == 1
    ensures !control <==> frames == []
    ensures forall k :: 0 <= k < |frames| ==> DecodeFrame(frames[k]) == Some(Latin1(cmd))
  {
    EncodeCommandIsFrame(cmd);
    FrameRoundTrip(Latin1(cmd), EncodeCommand(cmd));
    if control then [EncodeCommand(cmd)] else []
  }
}

/** The stream initialisation (kairos.js, initStream): six commands, each
    awaited and followed by a settle delay except the last, then the
    keepalive interval. A write the transport rejects ends the await chain. */
module Handshake {
  import opened Wrappers
  import Text
  import Framing

  /** The delays after the first five commands, in milliseconds. */
  const SettleMs: seq<nat> := [50, 50, 200, 50, 50]
  const KeepaliveCommand: string := "k"
  const KeepalivePeriodMs: nat := 9000

  /** The channel-layout preset: "p21" when the lower-cased model name contains "muses". */
  function Preset(modelName: string): string
  {
    if Text.Includes(Text.Lower(modelName), "muses") then "p21" else "p20"
  }

  /** The commands in the order initStream sends them. */
  function Commands(modelName: string): seq<string>
  {
    ["h", "v", "i", Preset(modelName), "s", "d"]
  }

  datatype Step =
    | Write(cmd: string)                          // the frame of cmd handed to the control channel
    | Settle(ms: nat)                             // await delay(ms)
    | StartKeepalive(cmd: string, periodMs: nat)  // setInterval sending cmd every periodMs

  datatype Outcome = Streaming | Rejected(cmd: string)

  datatype Run = Run(steps: seq<Step>, outcome: Outcome)

  /** `send(cmd)`: a write only when the control channel was found. */
  function Sent(control: bool, cmd: string): seq<Step>
  {
    if control then [Write(cmd)] else []
  }

  /** The rest of initStream from command `k` on. `rejectAt` is the index of
      the first command whose write the transport rejects, if any. */
  function RunFrom(cmds: seq<string>, k: nat, control: bool, rejectAt: Option<nat>): Run
    requires k <= |cmds|
    decreases |cmds| - k
  {
    if k == |cmds| then Run([StartKeepalive(KeepaliveCommand, KeepalivePeriodMs)], Streaming)
    else if control && rejectAt == Some(k) then Run([Write(cmds[k])], Rejected(cmds[k]))
    else
      var rest := RunFrom(cmds, k + 1, control, rejectAt);
      var settle := if k < |SettleMs| then [Settle(SettleMs[k])] else [];
      Run(Sent(control, cmds[k]) + settle + rest.steps, rest.outcome)
  }

  /** A handshake write is the frame `send` hands to the control channel:
      both happen exactly when there is one. */
  lemma SentIsTransmitted(control: bool, cmd: string)
    ensures |Sent(control, cmd)| == |Framing.Transmit(control, cmd)|
    ensures forall k :: 0 <= k < |Sent(control, cmd)| ==>
              Sent(control, cmd)[k] == Write(cmd) && Framing.Transmit(control, cmd)[k] == Framing.EncodeCommand(cmd)
  {
  }

  function InitStream(modelName: string, control: bool, rejectAt: Option<nat>): Run
  {
    RunFrom(Commands(modelName), 0, control, rejectAt)
  }

  /** The steps of a handshake in which every write is accepted. */
  function Accepted(preset: string): seq<Step>
  {
    [Write("h"), Settle(50), Write("v"), Settle(50), Write("i"), Settle(200),
     Write(preset), Settle(50), Write("s"), Settle(50), Write("d"),
     StartKeepalive("k", 9000)]
  }

  // ---------------------------------------------------------------------
  // Preset choice

  /** The preset is "p21" exactly when "muses" occurs in the lower-cased
      model name, and "p20" otherwise. */
  lemma PresetChoice(modelName: string)
    ensures Preset(modelName) == "p21" <==> exists k: nat :: Text.OccursAt(Text.Lower(modelName), "muses", k)
    ensures Preset(modelName) == "p20" <==> !exists k: nat :: Text.OccursAt(Text.Lower(modelName), "muses", k)
  {
    Text.IncludesIff(Text.Lower(modelName), "muses");
  }

  /** A Muse S advertises a name containing "MuseS": preset p21. */
  lemma PresetMuseS()
    ensures Preset("MuseS") == "p21"
  {
    assert Text.Lower("MuseS") == "muses";
  }

  /** A Muse 2016 does not: preset p20. */
  lemma PresetMuse2016()
    ensures Preset("Muse-2016") == "p20"
  {
    var name := "Muse-2016";
    var s := Text.Lower(name);
    PresetChoice(name);
    forall k: nat ensures !Text.OccursAt(s, "muses", k) {
      if k + 5 <= |s| {
        assert name[k + 4] in {'-', '2', '0', '1', '6'};
        assert s[k..k + 5][4] == s[k + 4] != 's';
      }
    }
  }

  // ---------------------------------------------------------------------
  // The command trace

  /** Where the steps for command k begin in the accepted run. */
  function AcceptedPos(k: nat): nat
  {
    if k < 6 then 2 * k else 11
  }

  /** The steps of command k in the accepted run: its write, then its settle delay if it has one. */
  lemma AcceptedAt(modelName: string, k: nat)
    requires k < 6
    ensures Accepted(Preset(modelName))[AcceptedPos(k)..]
            == [Write(Commands(modelName)[k])] + (if k < |SettleMs| then [Settle(SettleMs[k])] else [])
               + Accepted(Preset(modelName))[AcceptedPos(k + 1)..]
  {
    var a := Accepted(Preset(modelName));
    if k < 5 {
      assert a[AcceptedPos(k)..] == [a[2 * k], a[2 * k + 1]] + a[AcceptedPos(k + 1)..];
    } else {
      assert a[AcceptedPos(k)..] == [a[2 * k]] + a[AcceptedPos(k + 1)..];
    }
  }

  lemma {:induction false} AcceptedFrom(modelName: string, k: nat, rejectAt: Option<nat>)
    requires k <= 6 && (rejectAt.None? || rejectAt.value >= 6)
    ensures RunFrom(Commands(modelName), k, true, rejectAt) == Run(Accepted(Preset(modelName))[AcceptedPos(k)..], Streaming)
    decreases 6 - k
  {
    if k < 6 {
      AcceptedFrom(modelName, k + 1, rejectAt);
      AcceptedAt(modelName, k);
    }
  }

  /** With a control channel and no rejected write, the commands go out as
      h, v, i, preset, s, d with settle delays 50, 50, 200, 50, 50 between
      them, and the keepalive starts only after d. */
  lemma InitStreamAccepted(modelName: string, rejectAt: Option<nat>)
    requires rejectAt.None? || rejectAt.value >= 6
    ensures InitStream(modelName, true, rejectAt) == Run(Accepted(Preset(modelName)), Streaming)
  {
    AcceptedFrom(modelName, 0, rejectAt);
  }

  /** A rejected write at index j, from position i on: the run is the
      accepted run cut just after that write, and ends in the rejection. */
  lemma {:induction false} RejectedFrom(cmds: seq<string>, i: nat, j: nat)
    requires |cmds| == |SettleMs| + 1 && i <= j < |cmds|
    ensures RunFrom(cmds, i, true, Some(j)).outcome == Rejected(cmds[j])
    ensures 2 * (j - i) + 1 <= |RunFrom(cmds, i, true, None).steps|
    ensures RunFrom(cmds, i, true, Some(j)).steps == RunFrom(cmds, i, true, None).steps[..2 * (j - i) + 1]
    decreases j - i
  {
    if i < j {
      RejectedFrom(cmds, i + 1, j);
    }
  }

  /** A rejected write stops the handshake there: every command before it
      and the rejected one were written, nothing after it was, and the
      keepalive never starts. */
  lemma InitStreamRejected(modelName: string, j: nat)
    requires j < 6
    ensures InitStream(modelName, true, Some(j)).outcome == Rejected(Commands(modelName)[j])
    ensures InitStream(modelName, true, Some(j)).steps == Accepted(Preset(modelName))[..2 * j + 1]
    ensures forall s :: s in InitStream(modelName, true, Some(j)).steps ==> !s.StartKeepalive?
  {
    RejectedFrom(Commands(modelName), 0, j);
    InitStreamAccepted(modelName, None);
  }

  /** The steps of a handshake without a control channel from command k on:
      the remaining settle delays, then the keepalive. */
  function Silent(k: nat): seq<Step>
    requires k <= |SettleMs|
    decreases |SettleMs| - k
  {
    if k == |SettleMs| then [StartKeepalive(KeepaliveCommand, KeepalivePeriodMs)]
    else [Settle(SettleMs[k])] + Silent(k + 1)
  }

  lemma {:induction false} SilentFrom(cmds: seq<string>, k: nat, rejectAt: Option<nat>)
    requires |cmds| == |SettleMs| + 1 && k <= |SettleMs|
    ensures RunFrom(cmds, k, false, rejectAt) == Run(Silent(k), Streaming)
    decreases |SettleMs| - k
  {
    if k < |SettleMs| {
      SilentFrom(cmds, k + 1, rejectAt);
    } else {
      assert RunFrom(cmds, k + 1, false, rejectAt).steps == Silent(k);
    }
  }

  /** Without a control channel every send is a no-op: no write happens, the
      delays still run and the keepalive interval still starts. */
  lemma InitStreamWithoutControl(modelName: string, rejectAt: Option<nat>)
    ensures InitStream(modelName, false, rejectAt)
            == Run([Settle(50), Settle(50), Settle(200), Settle(50), Settle(50), StartKeepalive("k", 9000)], Streaming)
  {
    SilentFrom(Commands(modelName), 0, rejectAt);
    assert Silent(0) == [Settle(50), Settle(50), Settle(200), Settle(50), Settle(50), StartKeepalive("k", 9000)];
  }

  // ---------------------------------------------------------------------
  // Keepalive

  /** The frames the keepalive interval has written `elapsedMs` after it started. */
  function KeepaliveFrames(control: bool, elapsedMs: nat): seq<Framing.Frame>
  {
    if control then seq(elapsedMs / KeepalivePeriodMs, _ => Framing.EncodeCommand(KeepaliveCommand)) else []
  }

  /** Each further period adds exactly one "k" frame when there is a control
      channel, and none is ever written without one. */
  lemma KeepalivePeriodic(control: bool, elapsedMs: nat)
    ensures control ==> |KeepaliveFrames(control, elapsedMs + KeepalivePeriodMs)| == |KeepaliveFrames(control, elapsedMs)| + 1
    ensures !control ==> KeepaliveFrames(control, elapsedMs) == []
    ensures forall f :: f in KeepaliveFrames(control, elapsedMs) ==> Framing.DecodeFrame(f) == Some(Framing.Latin1("k"))
  {
    Framing.EncodeCommandIsFrame(KeepaliveCommand);
    Framing.FrameRoundTrip(Framing.Latin1(KeepaliveCommand), Framing.EncodeCommand(KeepaliveCommand));
  }
}

/** The keypress handler's dispatch (kairos.js, the 'keypress' listener):
    which action a key selects. Key names are the ones Node's readline
    reports. For a single character readline has no name for (".", ",",
    "/" and the like) it passes no key object at all; that key is `None`,
    and reading `key.ctrl` from it throws. */
module Keys {
  import opened Wrappers

  datatype Action =
    | Quit                    // Ctrl+C: the process exits
    | Crash                   // no key object: `key.ctrl` throws a TypeError and the process ends
    | MarkIntuitive           // space: set the sticky intuitive flag
    | ToggleRecording         // r: stop when recording, start otherwise
    | SendCommand(cmd: string)
    | Ignore

  /** JavaScript's `a < b` on strings: lexicographic order on characters. */
  function LexLess(a: string, b: string): bool
    decreases |a|
  {
    if |a| == 0 then 0 < |b|
    else if |b| == 0 then false
    else a[0] < b[0] || (a[0] == b[0] && LexLess(a[1..], b[1..]))
  }

  /** `key.name >= '1' && key.name <= '9'`, the string comparison of the source. */
  predicate InDigitRange(name: string)
  {
    !LexLess(name, "1") && !LexLess("9", name)
  }

  function Dispatch(ctrl: bool, name: Option<string>): Action
  {
    match name
    case None => Crash
    case Some(n) =>
      if ctrl && n == "c" then Quit
      else if n == "space" then MarkIntuitive
      else if n == "r" then ToggleRecording
      else if n in ["s", "d", "h"] then SendCommand(n)
      else if InDigitRange(n) then SendCommand("p" + n)
      else Ignore
  }

  /** The string comparison admits a name exactly when it starts with a
      digit 1 to 8, or is "9" itself. */
  lemma InDigitRangeIff(name: string)
    ensures InDigitRange(name) <==> 1 <= |name| && ('1' <= name[0] <= '8' || name == "9")
  {
    if |name| == 0 {
      assert LexLess(name, "1");
    } else if name[0] == '9' {
      assert !LexLess(name, "1");
      assert LexLess("9", name) <==> LexLess("9"[1..], name[1..]);
      assert name == "9" <==> |name| == 1;
    } else if '1' <= name[0] <= '8' {
      assert !LexLess(name, "1") && !LexLess("9", name);
    } else if name[0] < '1' {
      assert LexLess(name, "1");
    } else {
      assert LexLess("9", name);
    }
  }

  /** For a one-character key name: a digit 1 to 9 sends `p` and the digit,
      s, d and h send themselves, and no other key sends anything. */
  lemma SingleKeySends(ctrl: bool, c: char)
    ensures Dispatch(ctrl, Some([c])).SendCommand? <==> c in "sdh" || '1' <= c <= '9'
    ensures '1' <= c <= '9' ==> Dispatch(ctrl, Some([c])) == SendCommand(['p', c])
    ensures c in "sdh" ==> Dispatch(ctrl, Some([c])) == SendCommand([c])
  {
    InDigitRangeIff([c]);
    if c in "sdh" {
      assert [c] in ["s", "d", "h"];
    } else {
      assert [c] !in ["s", "d", "h"];
    }
  }

  /** Space marks, r toggles whatever the modifier, only Ctrl+C quits, and
      exactly the keys without a key object crash the handler. */
  lemma ControlKeys(ctrl: bool, name: Option<string>)
    ensures Dispatch(ctrl, Some("space")) == MarkIntuitive
    ensures Dispatch(ctrl, Some("r")) == ToggleRecording
    ensures Dispatch(ctrl, name) == Quit <==> ctrl && name == Some("c")
    ensures Dispatch(ctrl, name) == Crash <==> name.None?
    ensures Dispatch(ctrl, name) == MarkIntuitive <==> name == Some("space")
  {
  }
}

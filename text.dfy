/** Strings as JavaScript renders, joins and compares them, restricted to
    what the recorder needs: decimal integers, comma-joined fields, ASCII
    lower-casing and substring search. */
module Text {
  import opened Wrappers

  predicate IsDigit(c: char) { '0' <= c <= '9' }

  predicate AllDigits(s: string) { forall k :: 0 <= k < |s| ==> IsDigit(s[k]) }

  function DigitValue(c: char): (d: nat)
    requires IsDigit(c)
    ensures d < 10
  {
    c as int - '0' as int
  }

  function DigitChar(d: nat): (c: char)
    requires d < 10
    ensures IsDigit(c) && DigitValue(c) == d
  {
    ('0' as int + d) as char
  }

  // ---------------------------------------------------------------------
  // Decimal rendering (what a template literal makes of a number)

  /** Decimal digits of `n`, most significant first, without leading zeros. */
  function NatToString(n: nat): (s: string)
    ensures 1 <= |s| && AllDigits(s)
    ensures s[0] == '0' <==> n == 0
    ensures n == 0 ==> s == "0"
    decreases n
  {
    if n < 10 then [DigitChar(n)] else NatToString(n / 10) + [DigitChar(n % 10)]
  }

  /** Decimal rendering of an integer: a minus sign before the digits of a negative one. */
  function IntToString(x: int): (s: string)
  {
    if x < 0 then "-" + NatToString(-x) else NatToString(x)
  }

  /** The value of a string of decimal digits (the empty string is 0). */
  function DigitsValue(s: string): nat
    requires AllDigits(s)
    decreases |s|
  {
    if s == [] then 0 else 10 * DigitsValue(s[..|s| - 1]) + DigitValue(s[|s| - 1])
  }

  /** Reads a non-negative decimal field; anything but one or more digits is rejected. */
  function ParseNat(s: string): Option<nat>
  {
    if 1 <= |s| && AllDigits(s) then Some(DigitsValue(s)) else None
  }

  /** Reads an optionally negative decimal field. */
  function ParseInt(s: string): Option<int>
  {
    if 1 <= |s| && s[0] == '-' then
      match ParseNat(s[1..])
      case Some(n) => Some(0 - n as int)
      case None => None
    else
      match ParseNat(s)
      case Some(n) => Some(n)
      case None => None
  }

  lemma {:induction false} NatToStringRoundTrip(n: nat)
    ensures ParseNat(NatToString(n)) == Some(n)
    decreases n
  {
    var s := NatToString(n);
    if n >= 10 {
      assert s[..|s| - 1] == NatToString(n / 10);
      NatToStringRoundTrip(n / 10);
    } else {
      assert s[..|s| - 1] == [];
      assert DigitsValue(s) == 10 * DigitsValue(s[..|s| - 1]) + DigitValue(s[0]);
    }
  }

  /** Different numbers never render the same. */
  lemma NatToStringInjective(a: nat, b: nat)
    requires NatToString(a) == NatToString(b)
    ensures a == b
  {
    NatToStringRoundTrip(a);
    NatToStringRoundTrip(b);
  }

  lemma IntToStringRoundTrip(x: int)
    ensures ParseInt(IntToString(x)) == Some(x)
    ensures 1 <= |IntToString(x)| && ',' !in IntToString(x)
  {
    if x < 0 {
      NatToStringRoundTrip(-x);
      assert IntToString(x)[1..] == NatToString(-x);
    } else {
      NatToStringRoundTrip(x);
    }
  }

  // ---------------------------------------------------------------------
  // Array.prototype.join and its inverse, splitting on a separator

  /** `xs.join(sep)`: the empty list joins to the empty string. */
  function Join(xs: seq<string>, sep: char): string
  {
    if |xs| == 0 then ""
    else if |xs| == 1 then xs[0]
    else xs[0] + [sep] + Join(xs[1..], sep)
  }

  /** The fields of `s` between occurrences of `sep`; always at least one. */
  function Split(s: string, sep: char): (r: seq<string>)
    ensures 1 <= |r|
    decreases |s|
  {
    if |s| == 0 then [""]
    else
      var rest := Split(s[1..], sep);
      if s[0] == sep then [""] + rest else [[s[0]] + rest[0]] + rest[1..]
  }

  lemma {:induction false} SplitNoSeparator(a: string, sep: char)
    requires sep !in a
    ensures Split(a, sep) == [a]
    decreases |a|
  {
    if |a| > 0 {
      SplitNoSeparator(a[1..], sep);
      assert [a[0]] + a[1..] == a;
    }
  }

  lemma {:induction false} SplitAfterField(a: string, b: string, sep: char)
    requires sep !in a
    ensures Split(a + [sep] + b, sep) == [a] + Split(b, sep)
    decreases |a|
  {
    var s := a + [sep] + b;
    if |a| == 0 {
      assert s[1..] == b;
    } else {
      assert s[1..] == a[1..] + [sep] + b;
      SplitAfterField(a[1..], b, sep);
      assert [a[0]] + a[1..] == a;
    }
  }

  /** Splitting a join of separator-free fields, followed by one more field,
      gives back the fields. */
  lemma {:induction false} SplitJoinThen(xs: seq<string>, last: string, sep: char)
    requires 1 <= |xs|
    requires forall k :: 0 <= k < |xs| ==> sep !in xs[k]
    requires sep !in last
    ensures Split(Join(xs, sep) + [sep] + last, sep) == xs + [last]
    decreases |xs|
  {
    if |xs| == 1 {
      SplitAfterField(xs[0], last, sep);
      SplitNoSeparator(last, sep);
    } else {
      var tail := Join(xs[1..], sep) + [sep] + last;
      assert Join(xs, sep) + [sep] + last == xs[0] + [sep] + tail;
      SplitAfterField(xs[0], tail, sep);
      SplitJoinThen(xs[1..], last, sep);
      assert [xs[0]] + (xs[1..] + [last]) == xs + [last];
    }
  }

  /** The fields of two separator-free fields, a join of separator-free
      fields and one more separator-free field. */
  lemma SplitFourParts(a: string, b: string, mid: seq<string>, last: string, sep: char)
    requires sep !in a && sep !in b && sep !in last && 1 <= |mid|
    requires forall k :: 0 <= k < |mid| ==> sep !in mid[k]
    ensures Split(a + [sep] + b + [sep] + Join(mid, sep) + [sep] + last, sep) == [a, b] + mid + [last]
  {
    var rest := Join(mid, sep) + [sep] + last;
    ConcatAssoc(a, [sep], b, [sep], Join(mid, sep), [sep], last);
    SplitAfterField(a, b + [sep] + rest, sep);
    SplitAfterField(b, rest, sep);
    SplitJoinThen(mid, last, sep);
  }

  lemma ConcatAssoc(a: string, s1: string, b: string, s2: string, c: string, s3: string, d: string)
    ensures a + s1 + b + s2 + c + s3 + d == a + s1 + (b + s2 + (c + s3 + d))
  {
  }

  /** Splitting a join of at least one separator-free field gives back the fields. */
  lemma SplitJoin(xs: seq<string>, sep: char)
    requires 1 <= |xs|
    requires forall k :: 0 <= k < |xs| ==> sep !in xs[k]
    ensures Split(Join(xs, sep), sep) == xs
  {
    if |xs| == 1 {
      SplitNoSeparator(xs[0], sep);
    } else {
      var init := xs[..|xs| - 1];
      JoinSnoc(init, xs[|xs| - 1], sep);
      SplitJoinThen(init, xs[|xs| - 1], sep);
      assert init + [xs[|xs| - 1]] == xs;
    }
  }

  lemma {:induction false} JoinSnoc(xs: seq<string>, last: string, sep: char)
    requires 1 <= |xs|
    ensures Join(xs + [last], sep) == Join(xs, sep) + [sep] + last
    decreases |xs|
  {
    if |xs| > 1 {
      assert (xs + [last])[1..] == xs[1..] + [last];
      JoinSnoc(xs[1..], last, sep);
    }
  }

  // ---------------------------------------------------------------------
  // String.prototype.toLowerCase (ASCII letters only) and includes

  /** An upper-case ASCII letter becomes its lower-case counterpart, 32
      code points further on; every other character is left as it is. */
  function LowerChar(c: char): (l: char)
    ensures !('A' <= l <= 'Z')
    ensures 'A' <= c <= 'Z' ==> l as int == c as int + 32 && 'a' <= l <= 'z'
    ensures !('A' <= c <= 'Z') ==> l == c
  {
    if 'A' <= c <= 'Z' then (c as int + 32) as char else c
  }

  function Lower(s: string): (l: string)
    ensures |l| == |s|
    ensures forall k :: 0 <= k < |s| ==> l[k] == LowerChar(s[k])
  {
    seq(|s|, k requires 0 <= k < |s| => LowerChar(s[k]))
  }

  /** No upper-case ASCII letter survives lower-casing, and lower-casing
      a second time changes nothing. */
  lemma LowerIdempotent(s: string)
    ensures forall k :: 0 <= k < |s| ==> !('A' <= Lower(s)[k] <= 'Z')
    ensures Lower(Lower(s)) == Lower(s)
  {
    var l := Lower(s);
    assert forall k :: 0 <= k < |l| ==> Lower(l)[k] == LowerChar(l[k]) == l[k];
  }

  /** `pat` occurs in `s` starting at index `k`. */
  ghost predicate OccursAt(s: string, pat: string, k: nat)
  {
    k + |pat| <= |s| && s[k..k + |pat|] == pat
  }

  /** `s.includes(pat)`, scanning from the left. */
  function Includes(s: string, pat: string): bool
    decreases |s|
  {
    if |pat| <= |s| && s[..|pat|] == pat then true
    else if |s| == 0 then false
    else Includes(s[1..], pat)
  }

  lemma {:induction false} IncludesIff(s: string, pat: string)
    ensures Includes(s, pat) <==> exists k: nat :: OccursAt(s, pat, k)
    decreases |s|
  {
    if |pat| <= |s| && s[..|pat|] == pat {
      assert OccursAt(s, pat, 0);
    } else if |s| == 0 {
      assert 0 < |pat|;
    } else {
      IncludesIff(s[1..], pat);
      if Includes(s[1..], pat) {
        var k: nat :| OccursAt(s[1..], pat, k);
        assert s[k + 1..k + 1 + |pat|] == s[1..][k..k + |pat|];
        assert OccursAt(s, pat, k + 1);
      } else {
        forall k: nat | OccursAt(s, pat, k) ensures false {
          assert k != 0;
          assert s[1..][k - 1..k - 1 + |pat|] == s[k..k + |pat|];
          assert OccursAt(s[1..], pat, k - 1);
        }
      }
    }
  }
}

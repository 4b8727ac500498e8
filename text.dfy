/// The java.lang.String and Integer operations the database code relies on:
/// decimal text of numbers, zero padding, trim, split, replace and join.
module Text {

  import opened Wrappers

  predicate IsDigit(c: char) { '0' <= c <= '9' }

  predicate AllDigits(s: string) { forall i :: 0 <= i < |s| ==> IsDigit(s[i]) }

  function DigitChar(d: nat): (c: char)
    requires d < 10
    ensures IsDigit(c) && c as int - '0' as int == d
  {
    (d + '0' as int) as char
  }

  function DigitValue(c: char): (d: nat)
    requires IsDigit(c)
    ensures d < 10 && DigitChar(d) == c
  {
    c as int - '0' as int
  }

  function Pow10(n: nat): (p: nat)
    ensures p >= 1
  {
    if n == 0 then 1 else 10 * Pow10(n - 1)
  }

  /** Integer.toString of a non-negative number: no sign, no leading zeros. */
  function NatToDecimal(n: nat): (s: string)
    ensures |s| >= 1 && AllDigits(s)
    ensures |s| > 1 ==> s[0] != '0'
    decreases n
  {
    if n < 10 then [DigitChar(n)] else NatToDecimal(n / 10) + [DigitChar(n % 10)]
  }

  /** Integer.toString of any int: a '-' sign for negative numbers. */
  function IntToDecimal(i: int): (s: string)
    ensures |s| >= 1
    ensures i < 0 <==> s[0] == '-'
  {
    if i < 0 then "-" + NatToDecimal(-i) else NatToDecimal(i)
  }

  /** The number a string of decimal digits denotes (leading zeros allowed). */
  function DecimalValue(s: string): nat
    requires AllDigits(s)
    decreases |s|
  {
    if s == [] then 0 else DecimalValue(s[..|s| - 1]) * 10 + DigitValue(s[|s| - 1])
  }

  lemma {:induction false} DecimalRoundTrip(n: nat)
    ensures DecimalValue(NatToDecimal(n)) == n
    decreases n
  {
    if n >= 10 {
      var d := NatToDecimal(n / 10) + [DigitChar(n % 10)];
      assert d[..|d| - 1] == NatToDecimal(n / 10);
      DecimalRoundTrip(n / 10);
    }
  }

  lemma {:induction false} DecimalValueBound(s: string)
    requires AllDigits(s)
    ensures DecimalValue(s) < Pow10(|s|)
    decreases |s|
  {
    if s != [] {
      DecimalValueBound(s[..|s| - 1]);
    }
  }

  lemma {:induction false} DecimalLength(n: nat, w: nat)
    requires w >= 1 && n < Pow10(w)
    ensures |NatToDecimal(n)| <= w
    decreases n
  {
    if n >= 10 {
      assert w >= 2;
      DecimalLength(n / 10, w - 1);
    }
  }

  function Zeros(k: nat): (s: string)
    ensures |s| == k && AllDigits(s)
  {
    seq(k, _ => '0')
  }

  /** String.format("%0<w>d") of a non-negative number: pad with '0' up to width w. */
  function ZeroPad(n: nat, w: nat): (r: string)
    ensures |r| >= 1 && |r| >= w
  {
    var d := NatToDecimal(n);
    if |d| >= w then d else Zeros(w - |d|) + d
  }

  lemma {:induction false} DecimalValueZeros(k: nat, s: string)
    requires AllDigits(s)
    ensures AllDigits(Zeros(k) + s) && DecimalValue(Zeros(k) + s) == DecimalValue(s)
    decreases |s|
  {
    if s == [] {
      assert Zeros(k) + s == Zeros(k);
      ZerosValue(k);
    } else {
      var t := Zeros(k) + s;
      assert t[..|t| - 1] == Zeros(k) + s[..|s| - 1];
      DecimalValueZeros(k, s[..|s| - 1]);
    }
  }

  lemma {:induction false} ZerosValue(k: nat)
    ensures DecimalValue(Zeros(k)) == 0
    decreases k
  {
    if k > 0 {
      assert Zeros(k)[..k - 1] == Zeros(k - 1);
      ZerosValue(k - 1);
    }
  }

  /** Padding keeps the value; a number below 10^w pads to exactly w digits. */
  lemma ZeroPadValue(n: nat, w: nat)
    ensures AllDigits(ZeroPad(n, w)) && DecimalValue(ZeroPad(n, w)) == n
    ensures w >= 1 && n < Pow10(w) ==> |ZeroPad(n, w)| == w
  {
    var d := NatToDecimal(n);
    DecimalRoundTrip(n);
    if |d| < w {
      DecimalValueZeros(w - |d|, d);
    }
    if w >= 1 && n < Pow10(w) {
      DecimalLength(n, w);
    }
  }

  lemma ZeroPadStep(v: nat, dg: nat, w: nat)
    requires dg < 10 && w >= 1
    ensures ZeroPad(v * 10 + dg, w + 1) == ZeroPad(v, w) + [DigitChar(dg)]
  {
    var n := v * 10 + dg;
    assert n / 10 == v && n % 10 == dg;
    if v == 0 {
      assert NatToDecimal(n) == [DigitChar(dg)];
      assert ZeroPad(0, w) == Zeros(w - 1) + "0";
      assert Zeros(w - 1) + "0" == Zeros(w);
      assert Zeros(w) + [DigitChar(dg)] == Zeros(w + 1 - 1) + [DigitChar(dg)];
    } else {
      assert n >= 10;
      assert NatToDecimal(n) == NatToDecimal(v) + [DigitChar(dg)];
      var d := NatToDecimal(v);
      if |d| < w {
        assert Zeros(w + 1 - (|d| + 1)) == Zeros(w - |d|);
      }
    }
  }

  /** A digit string is exactly the padded text of its own value. */
  lemma {:induction false} PadOfValue(s: string)
    requires AllDigits(s) && |s| >= 1
    ensures ZeroPad(DecimalValue(s), |s|) == s
    decreases |s|
  {
    if |s| == 1 {
      assert DecimalValue(s) == DigitValue(s[0]);
      assert NatToDecimal(DigitValue(s[0])) == [s[0]];
    } else {
      var init, last := s[..|s| - 1], s[|s| - 1];
      var v, dg := DecimalValue(init), DigitValue(last);
      assert DecimalValue(s) == v * 10 + dg;
      PadOfValue(init);
      ZeroPadStep(v, dg, |init|);
      assert DigitChar(dg) == last;
      assert init + [last] == s;
    }
  }

  function Spaces(k: nat): (s: string)
    ensures |s| == k && forall i :: 0 <= i < k ==> s[i] == ' '
  {
    seq(k, _ => ' ')
  }

  predicate StartsWith(s: string, prefix: string)
  {
    |prefix| <= |s| && s[..|prefix|] == prefix
  }

  predicate ContainsChar(s: string, c: char)
  {
    exists i :: 0 <= i < |s| && s[i] == c
  }

  /** String.equalsIgnoreCase("NULL"). */
  predicate EqualsIgnoreCaseNull(s: string)
  {
    |s| == 4 && s[0] in "Nn" && s[1] in "Uu" && s[2] in "Ll" && s[3] in "Ll"
  }

  /** Character.isWhitespace is not what String.trim uses: it strips every char up to U+0020. */
  predicate IsTrimmable(c: char) { c <= ' ' }

  function TrimStart(s: string): (r: string)
    ensures |r| <= |s| && r == s[|s| - |r|..]
    ensures r != [] ==> !IsTrimmable(r[0])
  {
    if |s| > 0 && IsTrimmable(s[0]) then TrimStart(s[1..]) else s
  }

  function TrimEnd(s: string): (r: string)
    ensures |r| <= |s| && r == s[..|r|]
    ensures r != [] ==> !IsTrimmable(r[|r| - 1])
  {
    if |s| > 0 && IsTrimmable(s[|s| - 1]) then TrimEnd(s[..|s| - 1]) else s
  }

  /** String.trim: drop the chars up to U+0020 at both ends. */
  function Trim(s: string): (r: string)
    ensures |r| <= |s|
    ensures r != [] ==> !IsTrimmable(r[0]) && !IsTrimmable(r[|r| - 1])
    ensures (s == [] || (!IsTrimmable(s[0]) && !IsTrimmable(s[|s| - 1]))) ==> r == s
  {
    TrimEnd(TrimStart(s))
  }

  predicate OccursAt(s: string, pat: string, k: nat)
  {
    k + |pat| <= |s| && s[k..k + |pat|] == pat
  }

  /** The first position at or after `from` where `pat` occurs in `s`. */
  function IndexOf(s: string, pat: string, from: nat): (r: Option<nat>)
    requires |pat| > 0
    ensures r.Some? ==> from <= r.value && OccursAt(s, pat, r.value)
    ensures forall k :: from <= k && (r.None? || k < r.value) ==> !OccursAt(s, pat, k)
    decreases |s| - from
  {
    if from + |pat| > |s| then None
    else if s[from..from + |pat|] == pat then Some(from)
    else IndexOf(s, pat, from + 1)
  }

  /** The pieces of `s` between the occurrences of `sep`, empty pieces included. */
  function SplitAll(s: string, sep: string): (parts: seq<string>)
    requires |sep| > 0
    ensures |parts| >= 1
    decreases |s|
  {
    match IndexOf(s, sep, 0)
    case None => [s]
    case Some(k) => [s[..k]] + SplitAll(s[k + |sep|..], sep)
  }

  function DropTrailingEmpty(parts: seq<string>): (r: seq<string>)
    ensures |r| <= |parts| && r == parts[..|r|]
    ensures r != [] ==> r[|r| - 1] != []
    ensures forall i :: |r| <= i < |parts| ==> parts[i] == []
  {
    if |parts| > 0 && parts[|parts| - 1] == [] then DropTrailingEmpty(parts[..|parts| - 1]) else parts
  }

  /** String.split with a literal pattern and no limit: trailing empty pieces are dropped
    * unless the pattern does not occur at all. */
  function Split(s: string, sep: string): seq<string>
    requires |sep| > 0
  {
    var parts := SplitAll(s, sep);
    if |parts| == 1 then parts else DropTrailingEmpty(parts)
  }

  function Join(parts: seq<string>, sep: string): string
  {
    if |parts| == 0 then []
    else if |parts| == 1 then parts[0]
    else Join(parts[..|parts| - 1], sep) + sep + parts[|parts| - 1]
  }

  lemma {:induction false} JoinFront(head: string, rest: seq<string>, sep: string)
    requires |rest| >= 1
    ensures Join([head] + rest, sep) == head + sep + Join(rest, sep)
    decreases |rest|
  {
    var all := [head] + rest;
    if |rest| == 1 {
      assert all[..|all| - 1] == [head];
    } else {
      assert all[..|all| - 1] == [head] + rest[..|rest| - 1];
      JoinFront(head, rest[..|rest| - 1], sep);
    }
  }

  /** Text around an occurrence of a pattern is the part before, the pattern and the part after. */
  lemma AroundOccurrence(s: string, pat: string, k: nat)
    requires OccursAt(s, pat, k)
    ensures s == s[..k] + pat + s[k + |pat|..]
  {
    assert s == s[..k] + s[k..k + |pat|] + s[k + |pat|..];
  }

  /** Splitting and joining again gives back the original text. */
  lemma {:induction false} JoinSplitAll(s: string, sep: string)
    requires |sep| > 0
    ensures Join(SplitAll(s, sep), sep) == s
    decreases |s|
  {
    match IndexOf(s, sep, 0)
    case None =>
    case Some(k) =>
      var head, rest := s[..k], s[k + |sep|..];
      var parts := SplitAll(rest, sep);
      assert SplitAll(s, sep) == [head] + parts;
      JoinSplitAll(rest, sep);
      JoinFront(head, parts, sep);
      AroundOccurrence(s, sep, k);
  }

  /** String.replace: every non-overlapping occurrence of `target`, left to right. */
  function ReplaceAll(s: string, target: string, replacement: string): (r: string)
    requires |target| > 0
    ensures IndexOf(s, target, 0).None? ==> r == s
    decreases |s|
  {
    match IndexOf(s, target, 0)
    case None => s
    case Some(k) => s[..k] + replacement + ReplaceAll(s[k + |target|..], target, replacement)
  }

  /** Text that starts with the target starts with the replacement once replaced. */
  lemma ReplaceAllPrefix(s: string, target: string, replacement: string)
    requires |target| > 0 && StartsWith(s, target)
    ensures StartsWith(ReplaceAll(s, target, replacement), replacement)
  {
    assert OccursAt(s, target, 0);
    assert IndexOf(s, target, 0) == Some(0);
  }

  /** Replacing is cutting the text at the same left-to-right, non-overlapping occurrences
    * that `SplitAll` cuts at, and joining the pieces with the replacement. */
  lemma {:induction false} ReplaceAllIsSplitJoin(s: string, target: string, replacement: string)
    requires |target| > 0
    ensures ReplaceAll(s, target, replacement) == Join(SplitAll(s, target), replacement)
    decreases |s|
  {
    match IndexOf(s, target, 0)
    case None =>
    case Some(k) =>
      var rest := s[k + |target|..];
      ReplaceAllIsSplitJoin(rest, target, replacement);
      JoinFront(s[..k], SplitAll(rest, target), replacement);
  }

  /** Replacing the target by itself gives back the original text. */
  lemma ReplaceAllBySelf(s: string, target: string)
    requires |target| > 0
    ensures ReplaceAll(s, target, target) == s
  {
    ReplaceAllIsSplitJoin(s, target, target);
    JoinSplitAll(s, target);
  }

  /** Replacing keeps text non-empty, and its last character is the original's or the
    * replacement's. */
  lemma {:induction false} ReplaceAllLast(s: string, target: string, replacement: string)
    requires |target| > 0 && |replacement| > 0 && |s| > 0
    ensures var r := ReplaceAll(s, target, replacement);
            |r| > 0 && (r[|r| - 1] == s[|s| - 1] || r[|r| - 1] == replacement[|replacement| - 1])
    decreases |s|
  {
    match IndexOf(s, target, 0)
    case None =>
    case Some(k) =>
      var rest := s[k + |target|..];
      if rest == [] {
        assert ReplaceAll(rest, target, replacement) == [];
      } else {
        ReplaceAllLast(rest, target, replacement);
      }
  }

  /** A character the text before it lacks occurs first right after that text. */
  lemma FirstOccurrence(before: string, c: char, after: string)
    requires c !in before
    ensures IndexOf(before + [c] + after, [c], 0) == Some(|before|)
  {
    var s := before + [c] + after;
    assert OccursAt(s, [c], |before|);
    forall k | 0 <= k < |before| ensures !OccursAt(s, [c], k) {
      assert s[k..k + 1][0] == before[k];
    }
  }

  /** A character the text lacks does not occur in it. */
  lemma NoOccurrence(s: string, c: char)
    requires c !in s
    ensures IndexOf(s, [c], 0) == None
  {
    forall k | 0 <= k ensures !OccursAt(s, [c], k) {
      if k + 1 <= |s| {
        assert s[k..k + 1][0] == s[k];
      }
    }
  }

  /** Pieces without the separator character are split back out of their join. */
  lemma {:induction false} SplitAllJoin(parts: seq<string>, c: char)
    requires |parts| >= 1 && forall i :: 0 <= i < |parts| ==> c !in parts[i]
    ensures SplitAll(Join(parts, [c]), [c]) == parts
    decreases |parts|
  {
    if |parts| == 1 {
      NoOccurrence(parts[0], c);
    } else {
      var head, rest := parts[0], parts[1..];
      assert parts == [head] + rest;
      JoinFront(head, rest, [c]);
      var s := Join(parts, [c]);
      FirstOccurrence(head, c, Join(rest, [c]));
      assert s[..|head|] == head;
      assert s[|head| + 1..] == Join(rest, [c]);
      SplitAllJoin(rest, c);
    }
  }
}

/**
 * The string helpers the two core files lean on, with Python's meaning:
 * str(int), int(str) on decimal digits, str.zfill, ASCII str.upper/str.lower,
 * str.join, str.replace (defined as a split at the pattern followed by a join),
 * format(n, ",") on an int, and `<` on str.
 */
module Strings {
  import opened Wrappers

  predicate IsDigit(c: char) {
    '0' <= c <= '9'
  }

  predicate AllDigits(s: string) {
    forall i :: 0 <= i < |s| ==> IsDigit(s[i])
  }

  function DigitValue(c: char): nat
    requires IsDigit(c)
  {
    c as int - '0' as int
  }

  function DigitChar(d: nat): (c: char)
    requires d < 10
    ensures IsDigit(c) && DigitValue(c) == d
  {
    ('0' as int + d) as char
  }

  /** str(n) for n >= 0: the decimal digits of n, without a leading zero. */
  function NatToString(n: nat): (s: string)
    ensures |s| > 0 && AllDigits(s)
    ensures s[0] == '0' ==> n == 0
  {
    if n < 10 then [DigitChar(n)] else NatToString(n / 10) + [DigitChar(n % 10)]
  }

  /** str(n) for any integer n. */
  function IntToString(n: int): string {
    if n < 0 then "-" + NatToString(-n) else NatToString(n)
  }

  /** int(s) for a string of decimal digits; leading zeros are allowed. */
  function ParseDigits(s: string): nat
    requires AllDigits(s)
  {
    if s == [] then 0 else 10 * ParseDigits(s[..|s| - 1]) + DigitValue(s[|s| - 1])
  }

  /** int(str(n)) == n. */
  lemma {:induction false} ParseNatToString(n: nat)
    ensures ParseDigits(NatToString(n)) == n
  {
    if n >= 10 {
      var s := NatToString(n);
      assert s[..|s| - 1] == NatToString(n / 10);
      ParseNatToString(n / 10);
    }
  }

  function Zeros(k: nat): (z: string)
    ensures |z| == k && AllDigits(z)
  {
    seq(k, _ => '0')
  }

  lemma {:induction false} ParseAllZeros(k: nat)
    ensures ParseDigits(Zeros(k)) == 0
  {
    if k > 0 {
      assert Zeros(k)[..k - 1] == Zeros(k - 1);
      ParseAllZeros(k - 1);
    }
  }

  /** Leading zeros do not change the value of a digit string. */
  lemma {:induction false} ParseLeadingZeros(k: nat, s: string)
    requires AllDigits(s)
    ensures AllDigits(Zeros(k) + s) && ParseDigits(Zeros(k) + s) == ParseDigits(s)
  {
    var z := Zeros(k) + s;
    if s == [] {
      assert z == Zeros(k);
      ParseAllZeros(k);
    } else {
      assert z[..|z| - 1] == Zeros(k) + s[..|s| - 1];
      ParseLeadingZeros(k, s[..|s| - 1]);
    }
  }

  /** str.zfill(width): left-pads with '0' to `width` characters, after a leading sign. */
  function ZFill(s: string, width: int): (r: string)
    ensures |r| == if width > |s| then width else |s|
  {
    if width <= |s| then s
    else if |s| > 0 && (s[0] == '+' || s[0] == '-') then [s[0]] + Zeros(width - |s|) + s[1..]
    else Zeros(width - |s|) + s
  }

  /** Zero-padding a digit string keeps it a digit string with the same value, ending in the original. */
  lemma ZFillDigits(s: string, width: int)
    requires AllDigits(s)
    ensures var r := ZFill(s, width);
      AllDigits(r) && ParseDigits(r) == ParseDigits(s) && r[|r| - |s|..] == s
  {
    if width > |s| {
      ParseLeadingZeros(width - |s|, s);
    }
  }

  function UpperChar(c: char): char {
    if 'a' <= c <= 'z' then (c as int - 32) as char else c
  }

  function LowerChar(c: char): char {
    if 'A' <= c <= 'Z' then (c as int + 32) as char else c
  }

  /** str.upper() on ASCII letters. */
  function Upper(s: string): string {
    seq(|s|, i requires 0 <= i < |s| => UpperChar(s[i]))
  }

  /** str.lower() on ASCII letters. */
  function Lower(s: string): string {
    seq(|s|, i requires 0 <= i < |s| => LowerChar(s[i]))
  }

  /** sep.join(parts). */
  function Join(parts: seq<string>, sep: string): string {
    if |parts| == 0 then ""
    else if |parts| == 1 then parts[0]
    else parts[0] + sep + Join(parts[1..], sep)
  }

  predicate OccursAt(s: string, pat: string, i: nat) {
    i + |pat| <= |s| && s[i..i + |pat|] == pat
  }

  predicate NoOccurrence(s: string, pat: string) {
    forall j :: 0 <= j <= |s| ==> !OccursAt(s, pat, j)
  }

  /** The first index at or after `from` where `pat` occurs in `s`. */
  function FindFrom(s: string, pat: string, from: nat): (r: Option<nat>)
    requires |pat| > 0
    ensures r.Some? ==> from <= r.value && OccursAt(s, pat, r.value)
    ensures r.Some? ==> forall j: nat :: from <= j < r.value ==> !OccursAt(s, pat, j)
    ensures r.None? ==> forall j: nat :: from <= j ==> !OccursAt(s, pat, j)
    decreases |s| - from
  {
    if from + |pat| > |s| then None
    else if s[from..from + |pat|] == pat then Some(from)
    else FindFrom(s, pat, from + 1)
  }

  /** An occurrence inside a prefix is an occurrence in the whole string. */
  lemma OccursInPrefix(s: string, pat: string, i: nat, j: nat)
    requires i <= |s| && OccursAt(s[..i], pat, j)
    ensures OccursAt(s, pat, j)
  {
    assert s[..i][j..j + |pat|] == s[j..j + |pat|];
  }

  /** Splits `s` at the non-overlapping occurrences of `pat`, left to right; the helper that defines `ReplaceAll`. */
  function Split(s: string, pat: string): (parts: seq<string>)
    requires |pat| > 0
    ensures |parts| > 0
    ensures forall k :: 0 <= k < |parts| ==> NoOccurrence(parts[k], pat)
    decreases |s|
  {
    match FindFrom(s, pat, 0)
    case None => [s]
    case Some(i) =>
      var head := s[..i];
      assert NoOccurrence(head, pat) by {
        forall j | 0 <= j <= |head| && OccursAt(head, pat, j) ensures false {
          OccursInPrefix(s, pat, i, j);
        }
      }
      [head] + Split(s[i + |pat|..], pat)
  }

  /** Splitting at `pat` and joining with `pat` gives back the text: no other text is touched. */
  lemma {:induction false} JoinSplit(s: string, pat: string)
    requires |pat| > 0
    ensures Join(Split(s, pat), pat) == s
    decreases |s|
  {
    var f := FindFrom(s, pat, 0);
    if f.Some? {
      var i := f.value;
      var rest := s[i + |pat|..];
      var parts := Split(s, pat);
      assert parts == [s[..i]] + Split(rest, pat);
      JoinSplit(rest, pat);
      calc {
        Join(parts, pat);
        s[..i] + pat + Join(Split(rest, pat), pat);
        s[..i] + pat + rest;
        s;
      }
    }
  }

  /** str.replace(pat, rep): every non-overlapping occurrence of `pat`, left to right, becomes `rep`. */
  function ReplaceAll(s: string, pat: string, rep: string): string
    requires |pat| > 0
  {
    Join(Split(s, pat), rep)
  }

  /** Text without an occurrence of the pattern is left as it is. */
  lemma ReplaceAbsent(s: string, pat: string, rep: string)
    requires |pat| > 0 && NoOccurrence(s, pat)
    ensures ReplaceAll(s, pat, rep) == s
  {
  }

  /** format(n, ",") for n >= 0: the digits of n in groups of three, separated by commas. */
  function GroupNat(n: nat): string
    decreases n
  {
    if n < 1000 then NatToString(n)
    else GroupNat(n / 1000) + "," + ZFill(NatToString(n % 1000), 3)
  }

  /** format(n, ",") for any integer n. */
  function GroupThousands(n: int): string {
    if n < 0 then "-" + GroupNat(-n) else GroupNat(n)
  }

  function RemoveCommas(s: string): string {
    if s == [] then []
    else (if s[0] == ',' then [] else [s[0]]) + RemoveCommas(s[1..])
  }

  lemma {:induction false} RemoveCommasAppend(a: string, b: string)
    ensures RemoveCommas(a + b) == RemoveCommas(a) + RemoveCommas(b)
    decreases |a|
  {
    if a == [] {
      assert a + b == b;
    } else {
      assert (a + b)[0] == a[0];
      assert (a + b)[1..] == a[1..] + b;
      RemoveCommasAppend(a[1..], b);
    }
  }

  lemma {:induction false} RemoveCommasDigits(s: string)
    requires AllDigits(s)
    ensures RemoveCommas(s) == s
    decreases |s|
  {
    if s != [] {
      RemoveCommasDigits(s[1..]);
    }
  }

  /**
   * format(n, ",") is str(n) with a comma before every group of three digits counted from
   * the right: without the commas it is exactly str(n), position i holds a comma
   * exactly when i > 0 and a multiple of four characters starts there, and the
   * length is never a multiple of four, so the leading group has one to three digits.
   */
  lemma {:induction false} GroupNatDenotes(n: nat)
    ensures AllDigits(RemoveCommas(GroupNat(n)))
    ensures ParseDigits(RemoveCommas(GroupNat(n))) == n
    ensures RemoveCommas(GroupNat(n)) == NatToString(n)
    ensures var g := GroupNat(n);
      forall i :: 0 <= i < |g| ==> (g[i] == ',' <==> i > 0 && (|g| - i) % 4 == 0)
    ensures |GroupNat(n)| % 4 != 0
    decreases n
  {
    GroupNatDigits(n);
    GroupNatCommas(n);
    GroupNatLength(n);
    ParseNatToString(n);
  }

  /** The leading group of format(n, ",") has one to three digits: the length is never a multiple of four. */
  lemma {:induction false} GroupNatLength(n: nat)
    ensures |GroupNat(n)| % 4 != 0
    decreases n
  {
    if n < 1000 {
      NatToStringShort(n);
    } else {
      GroupNatLength(n / 1000);
      NatToStringShort(n % 1000);
    }
  }

  /** Without its commas, format(n, ",") is str(n). */
  lemma {:induction false} GroupNatDigits(n: nat)
    ensures RemoveCommas(GroupNat(n)) == NatToString(n)
    decreases n
  {
    if n < 1000 {
      RemoveCommasDigits(NatToString(n));
    } else {
      var q, r := n / 1000, n % 1000;
      var tail := ZFill(NatToString(r), 3);
      NatToStringShort(r);
      ZFillDigits(NatToString(r), 3);
      GroupNatDigits(q);
      RemoveSeparator(GroupNat(q), tail);
      NatToStringAppend3(q, r);
    }
  }

  /** The commas of format(n, ",") stand exactly every fourth place from the right. */
  lemma {:induction false} GroupNatCommas(n: nat)
    ensures var g := GroupNat(n);
      forall i :: 0 <= i < |g| ==> (g[i] == ',' <==> i > 0 && (|g| - i) % 4 == 0)
    decreases n
  {
    var g := GroupNat(n);
    if n < 1000 {
      NatToStringShort(n);
    } else {
      var q, r := n / 1000, n % 1000;
      var head := GroupNat(q);
      var tail := ZFill(NatToString(r), 3);
      NatToStringShort(r);
      ZFillDigits(NatToString(r), 3);
      GroupNatCommas(q);
      GroupNatDigits(q);
      assert head != [];
      assert g == head + "," + tail;
      CommaPositions(head, tail);
    }
  }

  /** One more group of three digits after a comma keeps the commas every fourth place from the right. */
  lemma CommaPositions(head: string, tail: string)
    requires head != [] && |tail| == 3 && AllDigits(tail)
    requires forall i :: 0 <= i < |head| ==> (head[i] == ',' <==> i > 0 && (|head| - i) % 4 == 0)
    ensures var g := head + "," + tail;
      forall i :: 0 <= i < |g| ==> (g[i] == ',' <==> i > 0 && (|g| - i) % 4 == 0)
  {
    var g := head + "," + tail;
    forall i | 0 <= i < |g| ensures g[i] == ',' <==> i > 0 && (|g| - i) % 4 == 0 {
      if i < |head| {
        assert g[i] == head[i];
        assert |g| - i == (|head| - i) + 4;
      } else if i > |head| {
        assert g[i] == tail[i - |head| - 1];
      }
    }
  }

  /** The last three digits of r < 1000, zero-padded. */
  lemma ThreeDigits(r: nat)
    requires r < 1000
    ensures ZFill(NatToString(r), 3) == [DigitChar(r / 100), DigitChar(r / 10 % 10), DigitChar(r % 10)]
  {
    if r >= 100 {
      assert NatToString(r / 10) == NatToString(r / 100) + [DigitChar(r / 10 % 10)];
    }
  }

  /** str(1000 * q + r) for q >= 1 is str(q) followed by r in three digits. */
  lemma NatToStringAppend3(q: nat, r: nat)
    requires q >= 1 && r < 1000
    ensures NatToString(1000 * q + r) == NatToString(q) + ZFill(NatToString(r), 3)
  {
    var n := 1000 * q + r;
    assert n / 10 == 100 * q + r / 10 && n % 10 == r % 10;
    assert n / 10 / 10 == 10 * q + r / 100 && n / 10 % 10 == r / 10 % 10;
    assert n / 10 / 10 / 10 == q && n / 10 / 10 % 10 == r / 100;
    assert NatToString(n) == NatToString(n / 10) + [DigitChar(n % 10)];
    assert NatToString(n / 10) == NatToString(n / 10 / 10) + [DigitChar(n / 10 % 10)];
    assert NatToString(n / 10 / 10) == NatToString(q) + [DigitChar(r / 100)];
    ThreeDigits(r);
  }

  lemma RemoveSeparator(head: string, tail: string)
    requires AllDigits(tail)
    ensures RemoveCommas(head + "," + tail) == RemoveCommas(head) + tail
  {
    var t := "," + tail;
    assert t[0] == ',' && t[1..] == tail;
    assert RemoveCommas(t) == RemoveCommas(tail);
    RemoveCommasDigits(tail);
    RemoveCommasAppend(head, t);
    assert head + "," + tail == head + t;
  }

  lemma NatToStringShort(n: nat)
    requires n < 1000
    ensures |NatToString(n)| <= 3
  {
    if n >= 10 {
      assert |NatToString(n / 10)| <= 2 by {
        if n / 10 >= 10 {
          assert n / 100 < 10;
        }
      }
    }
  }

  /** Python's `<` on str: lexicographic by code point, a proper prefix first. */
  predicate StrLess(a: string, b: string) {
    |b| > 0 && (|a| == 0 || a[0] < b[0] || (a[0] == b[0] && StrLess(a[1..], b[1..])))
  }

  lemma {:induction false} StrLessIrreflexive(a: string)
    ensures !StrLess(a, a)
  {
    if |a| > 0 {
      StrLessIrreflexive(a[1..]);
    }
  }

  lemma {:induction false} StrLessTransitive(a: string, b: string, c: string)
    requires StrLess(a, b) && StrLess(b, c)
    ensures StrLess(a, c)
  {
    if |a| > 0 && a[0] == b[0] && b[0] == c[0] {
      StrLessTransitive(a[1..], b[1..], c[1..]);
    }
  }

  lemma {:induction false} StrLessTotal(a: string, b: string)
    requires a != b
    ensures StrLess(a, b) || StrLess(b, a)
  {
    if |a| > 0 && |b| > 0 && a[0] == b[0] {
      assert a == [a[0]] + a[1..] && b == [b[0]] + b[1..];
      StrLessTotal(a[1..], b[1..]);
    }
  }
}

/**
 * Character and string helpers with Python's semantics: `str.isspace`,
 * `str.strip`, `str.splitlines` boundaries, `in` on strings, and case
 * mapping restricted to ASCII letters.
 */
module Text {

  /** Python's `str.isspace` (and the `\s` class of a `str` regex), by code point. */
  predicate IsSpace(c: char)
  {
    var n := c as int;
    (9 <= n <= 13) || (28 <= n <= 32) || n == 0x85 || n == 0xA0 || n == 0x1680
    || (0x2000 <= n <= 0x200A) || n == 0x2028 || n == 0x2029 || n == 0x202F
    || n == 0x205F || n == 0x3000
  }

  /** The boundaries at which Python's `str.splitlines` cuts a string, by code point. */
  predicate IsLineBreak(c: char)
  {
    var n := c as int;
    (10 <= n <= 13) || (28 <= n <= 30) || n == 0x85 || n == 0x2028 || n == 0x2029
  }

  predicate IsDigit(c: char) { '0' <= c <= '9' }

  predicate IsUpperAscii(c: char) { 'A' <= c <= 'Z' }

  predicate IsLowerAscii(c: char) { 'a' <= c <= 'z' }

  predicate NoSpace(s: string) { forall i :: 0 <= i < |s| ==> !IsSpace(s[i]) }

  /** `s.lstrip()` */
  function TrimLeft(s: string): (r: string)
    ensures |r| <= |s| && r == s[|s| - |r|..]
    ensures r == [] || !IsSpace(r[0])
  {
    if s != [] && IsSpace(s[0]) then
      var r := TrimLeft(s[1..]);
      assert s[1..][|s| - 1 - |r|..] == s[|s| - |r|..];
      r
    else s
  }

  /** `s.rstrip()` */
  function TrimRight(s: string): (r: string)
    ensures |r| <= |s| && r == s[..|r|]
    ensures r == [] || !IsSpace(r[|r| - 1])
  {
    if s != [] && IsSpace(s[|s| - 1]) then
      var r := TrimRight(s[..|s| - 1]);
      assert s[..|s| - 1][..|r|] == s[..|r|];
      r
    else s
  }

  /** `lstrip()` drops only whitespace. */
  lemma {:induction false} TrimLeftDrops(s: string)
    ensures forall i :: 0 <= i < |s| - |TrimLeft(s)| ==> IsSpace(s[i])
  {
    if s != [] && IsSpace(s[0]) {
      TrimLeftDrops(s[1..]);
      assert forall i :: 1 <= i < |s| ==> s[i] == s[1..][i - 1];
    }
  }

  /** `rstrip()` drops only whitespace. */
  lemma {:induction false} TrimRightDrops(s: string)
    ensures forall i :: |TrimRight(s)| <= i < |s| ==> IsSpace(s[i])
  {
    if s != [] && IsSpace(s[|s| - 1]) {
      TrimRightDrops(s[..|s| - 1]);
      assert forall i :: 0 <= i < |s| - 1 ==> s[i] == s[..|s| - 1][i];
    }
  }

  /** `s.strip()`: the slice of `s` left after dropping whitespace at both ends. */
  function Strip(s: string): (r: string)
  {
    TrimRight(TrimLeft(s))
  }

  /** Where the slice `strip()` keeps begins in `s`. */
  function StripStart(s: string): nat
  {
    |s| - |TrimLeft(s)|
  }

  /** Where the slice `strip()` keeps ends in `s`. */
  function StripEnd(s: string): nat
  {
    StripStart(s) + |Strip(s)|
  }

  /** `strip()` returns a slice of `s` with only whitespace cut away at either end, and none left at its ends. */
  lemma StripIsSlice(s: string)
    ensures StripStart(s) <= StripEnd(s) <= |s| && Strip(s) == s[StripStart(s)..StripEnd(s)]
    ensures forall k :: 0 <= k < StripStart(s) ==> IsSpace(s[k])
    ensures forall k :: StripEnd(s) <= k < |s| ==> IsSpace(s[k])
    ensures Trimmed(Strip(s))
  {
    StripSliceAt(s);
    TrimLeftDrops(s);
    StripRightBlank(s);
    StripTrimmed(s);
  }

  lemma StripSliceAt(s: string)
    ensures StripStart(s) <= StripEnd(s) <= |s| && Strip(s) == s[StripStart(s)..StripEnd(s)]
  {
    var l := TrimLeft(s);
    assert Strip(s) == l[..|Strip(s)|];
  }

  lemma StripRightBlank(s: string)
    ensures forall k :: StripEnd(s) <= k < |s| ==> IsSpace(s[k])
  {
    var l := TrimLeft(s);
    TrimRightDrops(l);
    TailOfSuffix(s, l, TrimRight(l), IsSpace);
  }

  /** When `l` is a suffix of `s` and `p` holds past its first `|r|` characters, `p` holds on the same tail of `s`. */
  lemma TailOfSuffix(s: string, l: string, r: string, p: char -> bool)
    requires |l| <= |s| && l == s[|s| - |l|..] && |r| <= |l|
    requires forall k :: |r| <= k < |l| ==> p(l[k])
    ensures forall k :: |s| - |l| + |r| <= k < |s| ==> p(s[k])
  {
    forall k | |s| - |l| + |r| <= k < |s| ensures p(s[k]) {
      assert s[k] == l[k - (|s| - |l|)];
    }
  }

  lemma StripTrimmed(s: string)
    ensures Trimmed(Strip(s))
  {
    var l := TrimLeft(s);
    if Strip(s) != [] {
      assert Strip(s)[0] == l[0];
    }
  }

  /** A string that is all whitespace strips to the empty string, and only such a string does. */
  lemma {:induction false} StripEmptyIff(s: string)
    ensures Strip(s) == [] <==> forall k :: 0 <= k < |s| ==> IsSpace(s[k])
  {
    StripIsSlice(s);
    if Strip(s) != [] {
      assert s[StripStart(s)] == Strip(s)[0];
    }
  }

  /** No whitespace at either end: what `strip()` returns. */
  predicate Trimmed(s: string)
  {
    s == [] || (!IsSpace(s[0]) && !IsSpace(s[|s| - 1]))
  }

  /** A string with no whitespace at either end is its own `strip()`. */
  lemma StripFixed(s: string)
    requires Trimmed(s)
    ensures Strip(s) == s
  {
    var l := TrimLeft(s);
    assert |l| == |s|;
    var r := TrimRight(l);
    assert |r| == |l|;
  }

  /** A string that is its own `strip()` has no whitespace at either end. */
  lemma StripEnds(s: string)
    requires Strip(s) == s
    ensures Trimmed(s)
  {
    StripIsSlice(s);
  }

  /** `strip()` is idempotent. */
  lemma StripTwice(s: string)
    ensures Strip(Strip(s)) == Strip(s)
  {
    StripIsSlice(s);
    StripFixed(Strip(s));
  }

  /** `strip()` keeps every character that is not whitespace. */
  lemma InStrip(s: string, c: char)
    requires !IsSpace(c)
    ensures c in Strip(s) <==> c in s
  {
    var l := TrimLeft(s);
    TrimLeftDrops(s);
    TrimRightDrops(l);
    KeptByTrims(s, l, TrimRight(l), IsSpace, c);
  }

  /** A two-sided trim, for any notion `sp` of blank, keeps every character that is not blank. */
  lemma KeptByTrims(s: string, l: string, r: string, sp: char -> bool, c: char)
    requires |l| <= |s| && l == s[|s| - |l|..] && forall k :: 0 <= k < |s| - |l| ==> sp(s[k])
    requires |r| <= |l| && r == l[..|r|] && forall k :: |r| <= k < |l| ==> sp(l[k])
    requires !sp(c)
    ensures c in r <==> c in s
  {
    var i := |s| - |l|;
    if c in s {
      var m :| 0 <= m < |s| && s[m] == c;
      assert i <= m;
      assert l[m - i] == c;
      assert m - i < |r|;
      assert r[m - i] == c;
    }
    if c in r {
      var m :| 0 <= m < |r| && r[m] == c;
      assert s[i + m] == c;
    }
  }

  function LowerChar(c: char): (d: char)
  {
    if IsUpperAscii(c) then (c as int - 'A' as int + 'a' as int) as char else c
  }

  function UpperChar(c: char): (d: char)
  {
    if IsLowerAscii(c) then (c as int - 'a' as int + 'A' as int) as char else c
  }

  /** `s.lower()` on ASCII letters; every other character is kept. */
  function Lower(s: string): string
  {
    seq(|s|, i requires 0 <= i < |s| => LowerChar(s[i]))
  }

  /** `s.upper()` on ASCII letters; every other character is kept. */
  function Upper(s: string): string
  {
    seq(|s|, i requires 0 <= i < |s| => UpperChar(s[i]))
  }

  /** `re.sub(r"\s+", "", s)`: every whitespace character removed, the rest kept in order. */
  function RemoveSpaces(s: string): (r: string)
    ensures |r| <= |s|
    ensures NoSpace(r)
  {
    if s == [] then []
    else if IsSpace(s[0]) then RemoveSpaces(s[1..])
    else [s[0]] + RemoveSpaces(s[1..])
  }

  lemma {:induction false} RemoveSpacesKeepsFree(s: string)
    requires NoSpace(s)
    ensures RemoveSpaces(s) == s
  {
    if s != [] {
      RemoveSpacesKeepsFree(s[1..]);
    }
  }

  predicate IsPrefix(p: string, s: string)
  {
    |p| <= |s| && s[..|p|] == p
  }

  /** Python's `sub in s`. */
  predicate Contains(s: string, sub: string)
    decreases |s|
  {
    IsPrefix(sub, s) || (s != [] && Contains(s[1..], sub))
  }

  /** `sub` occurs in `s` at offset `i`. */
  predicate OccursAt(s: string, sub: string, i: int)
  {
    0 <= i <= |s| - |sub| && s[i..i + |sub|] == sub
  }

  /** `Contains` holds exactly when `sub` occurs at some offset of `s`. */
  lemma {:induction false} ContainsIff(s: string, sub: string)
    ensures Contains(s, sub) <==> exists i :: OccursAt(s, sub, i)
    decreases |s|
  {
    if IsPrefix(sub, s) {
      assert OccursAt(s, sub, 0);
    }
    if s != [] {
      ContainsIff(s[1..], sub);
      if Contains(s[1..], sub) {
        var i :| OccursAt(s[1..], sub, i);
        assert s[i + 1..i + 1 + |sub|] == s[1..][i..i + |sub|];
        assert OccursAt(s, sub, i + 1);
      }
      if exists i :: OccursAt(s, sub, i) {
        var i :| OccursAt(s, sub, i);
        if i > 0 {
          assert s[1..][i - 1..i - 1 + |sub|] == s[i..i + |sub|];
          assert OccursAt(s[1..], sub, i - 1);
        } else {
          assert IsPrefix(sub, s);
        }
      }
    } else {
      if exists i :: OccursAt(s, sub, i) {
        var i :| OccursAt(s, sub, i);
        assert IsPrefix(sub, s);
      }
    }
  }

  /** A string lacking one of the characters of `sub` does not contain `sub`. */
  lemma MissingCharNotContained(s: string, sub: string, k: int)
    requires 0 <= k < |sub| && sub[k] !in s
    ensures !Contains(s, sub)
  {
    ContainsIff(s, sub);
    forall i | 0 <= i <= |s| - |sub| ensures !OccursAt(s, sub, i) {
      assert s[i..i + |sub|][k] == s[i + k];
    }
  }

  /** A string containing `a + b` contains `a` and `b` on their own. */
  lemma ContainsConcat(s: string, a: string, b: string)
    requires Contains(s, a + b)
    ensures Contains(s, a) && Contains(s, b)
  {
    ContainsIff(s, a + b);
    var i :| OccursAt(s, a + b, i);
    assert s[i..i + |a|] == (a + b)[..|a|] == a;
    assert s[i + |a|..i + |a| + |b|] == (a + b)[|a|..] == b;
    assert OccursAt(s, a, i);
    assert OccursAt(s, b, i + |a|);
    ContainsIff(s, a);
    ContainsIff(s, b);
  }
}

/** Decimal digit strings: reading and writing natural numbers in base 10. */
module Decimal {
  import opened Text

  predicate AllDigits(s: string) { forall i :: 0 <= i < |s| ==> IsDigit(s[i]) }

  function DigitValue(c: char): (v: nat)
    requires IsDigit(c)
    ensures v < 10
  {
    c as int - '0' as int
  }

  function DigitChar(v: nat): (c: char)
    requires v < 10
    ensures IsDigit(c) && DigitValue(c) == v
  {
    ('0' as int + v) as char
  }

  /** The number a string of decimal digits denotes (Python's `int(s)`). */
  function DigitsValue(s: string): (n: nat)
    requires AllDigits(s)
  {
    if s == [] then 0 else DigitsValue(s[..|s| - 1]) * 10 + DigitValue(s[|s| - 1])
  }

  /** Python's `str(n)` for a natural number: shortest decimal form. */
  function DecimalText(n: nat): (s: string)
    ensures AllDigits(s) && 1 <= |s|
    ensures |s| > 1 ==> s[0] != '0'
  {
    if n < 10 then [DigitChar(n)] else DecimalText(n / 10) + [DigitChar(n % 10)]
  }

  lemma {:induction false} DecimalTextValue(n: nat)
    ensures DigitsValue(DecimalText(n)) == n
  {
    if n >= 10 {
      DecimalTextValue(n / 10);
      assert DecimalText(n)[..|DecimalText(n)| - 1] == DecimalText(n / 10);
    } else {
      assert DecimalText(n)[..0] == [];
    }
  }

  lemma {:induction false} DecimalTextLength(n: nat, k: nat)
    requires k >= 1
    requires Pow10(k - 1) <= n < Pow10(k) || (k == 1 && n < 10)
    ensures |DecimalText(n)| == k
  {
    if n >= 10 {
      assert k >= 2;
      DecimalTextLength(n / 10, k - 1);
    }
  }

  function Pow10(k: nat): (p: nat)
    ensures p >= 1
  {
    if k == 0 then 1 else 10 * Pow10(k - 1)
  }

  /** `f"{n:02d}"`: at least two digits, zero-padded. */
  function Pad2(n: nat): (s: string)
    ensures AllDigits(s) && |s| >= 2
  {
    if n < 10 then ['0', DigitChar(n)] else DecimalText(n)
  }

  lemma Pad2Value(n: nat)
    ensures DigitsValue(Pad2(n)) == n
    ensures n < 100 ==> |Pad2(n)| == 2
  {
    if n < 10 {
      var s := Pad2(n);
      assert s[..1] == ['0'] && s[..1][..0] == [];
      assert DigitsValue(s[..1]) == 0;
    } else {
      DecimalTextValue(n);
      if n < 100 { DecimalTextLength(n, 2); }
    }
  }
}

/**
 * Spreadsheet column lettering (`col_to_a1`, main.py:453-459): column 1 is
 * "A", 26 is "Z", 27 is "AA" -- bijective base 26 over the letters A to Z.
 */
module Columns {

  predicate IsLetter(c: char) { 'A' <= c <= 'Z' }

  predicate AllLetters(s: string) { forall i :: 0 <= i < |s| ==> IsLetter(s[i]) }

  /** The letter for digit `d` (0 is "A"). */
  function Letter(d: int): (c: char)
    requires 0 <= d < 26
    ensures IsLetter(c) && c as int - 'A' as int == d
  {
    ('A' as int + d) as char
  }

  /** Name of column `n`: empty for `n <= 0`, otherwise a non-empty word of capital letters. */
  function ColName(n: int): (r: string)
    ensures AllLetters(r)
    ensures r != [] <==> n >= 1
    decreases if n <= 0 then 0 else n
  {
    if n <= 0 then [] else ColName((n - 1) / 26) + [Letter((n - 1) % 26)]
  }

  /** Reading a word of capital letters back as a column number. */
  function A1ToCol(s: string): (n: int)
    requires AllLetters(s)
    ensures n >= 0 && (n == 0 <==> s == [])
  {
    if s == [] then 0
    else A1ToCol(s[..|s| - 1]) * 26 + (s[|s| - 1] as int - 'A' as int + 1)
  }

  function Reversed(s: string): (r: string)
    ensures |r| == |s|
  {
    if s == [] then [] else [s[|s| - 1]] + Reversed(s[..|s| - 1])
  }

  /** `col_to_a1`: collects the digits least significant first, then reverses them. */
  method ColToA1(colIdx: int) returns (name: string)
    ensures name == ColName(colIdx)
    ensures colIdx >= 1 ==> name != [] && AllLetters(name)
  {
    var chars: string := [];
    var n := colIdx;
    while n > 0
      invariant ColName(n) + Reversed(chars) == ColName(colIdx)
      decreases n
    {
      var rem := (n - 1) % 26;
      ghost var prev := n;
      n := (n - 1) / 26;
      assert Reversed(chars + [Letter(rem)]) == [Letter(rem)] + Reversed(chars) by {
        assert (chars + [Letter(rem)])[..|chars|] == chars;
      }
      chars := chars + [Letter(rem)];
      assert ColName(prev) == ColName(n) + [Letter(rem)];
    }
    assert ColName(n) == [];
    name := Reversed(chars);
  }

  /** Decoding the name of a column gives the column back. */
  lemma {:induction false} DecodeColName(n: int)
    requires n >= 0
    ensures A1ToCol(ColName(n)) == n
    decreases n
  {
    if n > 0 {
      var q, m := (n - 1) / 26, (n - 1) % 26;
      DecodeColName(q);
      assert ColName(n)[..|ColName(n)| - 1] == ColName(q);
    }
  }

  /** Every word of capital letters is the name of exactly the column it decodes to. */
  lemma {:induction false} ColNameOfDecode(s: string)
    requires AllLetters(s)
    ensures ColName(A1ToCol(s)) == s
    decreases |s|
  {
    if s != [] {
      var p := s[..|s| - 1];
      var d := s[|s| - 1] as int - 'A' as int;
      var n := A1ToCol(s);
      ColNameOfDecode(p);
      assert n - 1 == A1ToCol(p) * 26 + d;
      assert (n - 1) / 26 == A1ToCol(p) && (n - 1) % 26 == d;
      assert Letter(d) == s[|s| - 1];
      assert s == p + [s[|s| - 1]];
    }
  }

  /** Distinct columns get distinct names. */
  lemma ColNameInjective(a: int, b: int)
    requires a >= 1 && b >= 1 && a != b
    ensures ColName(a) != ColName(b)
  {
    DecodeColName(a);
    DecodeColName(b);
  }
}

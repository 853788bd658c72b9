/**
 * Header-label matching (main.py:480-503): a cell is normalised by trimming,
 * lower-casing and deleting all whitespace, and is then tested for a few
 * Korean/ASCII substrings per label class.
 */
module Labels {
  import opened Text

  /** The four label classes the ledger layout is searched for. */
  datatype LabelKind = DateLabel | LocAvgLabel | LocHighLabel | TotalQtyLabel

  /** `_norm_label`: strip, lower-case, then remove every whitespace character. */
  function NormLabel(text: string): (n: string)
    ensures NoSpace(n)
  {
    RemoveSpaces(Lower(Strip(text)))
  }

  /** `_is_date_label`: "날짜" (date) or "체결일자" (execution date). */
  predicate IsDateLabel(text: string)
  {
    var n := NormLabel(text);
    Contains(n, "날짜") || Contains(n, "체결일자")
  }

  /** `_is_loc_avg_label`: "loc평단", or "loc" and "평단" (average price) anywhere. */
  predicate IsLocAvgLabel(text: string)
  {
    var n := NormLabel(text);
    Contains(n, "loc평단") || (Contains(n, "loc") && Contains(n, "평단"))
  }

  /** `_is_loc_high_label`: "loc고가", or "loc" and "고가" (high price) anywhere. */
  predicate IsLocHighLabel(text: string)
  {
    var n := NormLabel(text);
    Contains(n, "loc고가") || (Contains(n, "loc") && Contains(n, "고가"))
  }

  /** `_is_total_qty_label`: "총수량" (total quantity). */
  predicate IsTotalQtyLabel(text: string)
  {
    Contains(NormLabel(text), "총수량")
  }

  predicate Matches(kind: LabelKind, text: string)
  {
    match kind
    case DateLabel => IsDateLabel(text)
    case LocAvgLabel => IsLocAvgLabel(text)
    case LocHighLabel => IsLocHighLabel(text)
    case TotalQtyLabel => IsTotalQtyLabel(text)
  }

  lemma {:induction false} StripKeepsFree(s: string)
    requires NoSpace(s)
    ensures Strip(s) == s
  {
    assert TrimLeft(s) == s;
  }

  lemma LowerKeepsLower(s: string)
    requires forall i :: 0 <= i < |s| ==> !IsUpperAscii(s[i])
    ensures Lower(s) == s
  {
  }

  lemma {:induction false} NoUpperAfterRemove(s: string)
    requires forall i :: 0 <= i < |s| ==> !IsUpperAscii(s[i])
    ensures forall i :: 0 <= i < |RemoveSpaces(s)| ==> !IsUpperAscii(RemoveSpaces(s)[i])
  {
    if s != [] {
      NoUpperAfterRemove(s[1..]);
    }
  }

  /** A normalised label has no capital ASCII letter. */
  lemma NormLabelNoUpper(text: string)
    ensures forall i :: 0 <= i < |NormLabel(text)| ==> !IsUpperAscii(NormLabel(text)[i])
  {
    var t := Strip(text);
    LowerHasNoUpper(t);
    NoUpperAfterRemove(Lower(t));
  }

  lemma LowerHasNoUpper(s: string)
    ensures forall i :: 0 <= i < |Lower(s)| ==> !IsUpperAscii(Lower(s)[i])
  {
  }

  /** Text without whitespace or capital letters is its own normal form. */
  lemma NormLabelFixed(n: string)
    requires NoSpace(n)
    requires forall i :: 0 <= i < |n| ==> !IsUpperAscii(n[i])
    ensures NormLabel(n) == n
  {
    StripKeepsFree(n);
    LowerKeepsLower(n);
    RemoveSpacesKeepsFree(n);
  }

  /** Lower-case ASCII letters and Hangul syllables: the characters of the ledger's own labels. */
  predicate PlainLabelChar(c: char) { ('a' <= c <= 'z') || ('\U{AC00}' <= c <= '\U{D7A3}') }

  /** Every character is a `PlainLabelChar`, written so that it evaluates on a literal. */
  predicate PlainLabel(n: string)
  {
    n == [] || (PlainLabelChar(n[0]) && PlainLabel(n[1..]))
  }

  lemma {:induction false} PlainLabelChars(n: string)
    requires PlainLabel(n)
    ensures NoSpace(n) && forall i :: 0 <= i < |n| ==> !IsUpperAscii(n[i])
  {
    if n != [] {
      PlainLabelChars(n[1..]);
      PlainCharFixed(n[0]);
      assert forall i :: 1 <= i < |n| ==> n[i] == n[1..][i - 1];
    }
  }

  lemma PlainCharFixed(c: char)
    requires PlainLabelChar(c)
    ensures !IsSpace(c) && !IsUpperAscii(c)
  {
  }

  /** A label written in lower-case ASCII and Hangul is already normalised. */
  lemma PlainLabelFixed(n: string)
    requires PlainLabel(n)
    ensures NormLabel(n) == n
  {
    PlainLabelChars(n);
    NormLabelFixed(n);
  }

  /** Normalising a label twice is the same as normalising it once. */
  lemma NormLabelIdempotent(text: string)
    ensures NormLabel(NormLabel(text)) == NormLabel(text)
  {
    NormLabelNoUpper(text);
    NormLabelFixed(NormLabel(text));
  }

  /** Label tests read only the normalised text: spacing and ASCII case in a cell never change the verdict. */
  lemma MatchesNormalised(kind: LabelKind, text: string)
    ensures Matches(kind, text) <==> Matches(kind, NormLabel(text))
  {
    NormLabelIdempotent(text);
  }

  /** The "loc평단" alternative is subsumed by the "loc" and "평단" test, and likewise for "loc고가". */
  lemma LocLabelsBySubstrings(text: string)
    ensures IsLocAvgLabel(text) <==> Contains(NormLabel(text), "loc") && Contains(NormLabel(text), "평단")
    ensures IsLocHighLabel(text) <==> Contains(NormLabel(text), "loc") && Contains(NormLabel(text), "고가")
  {
    var n := NormLabel(text);
    if Contains(n, "loc평단") {
      assert "loc평단" == "loc" + "평단";
      ContainsConcat(n, "loc", "평단");
    }
    if Contains(n, "loc고가") {
      assert "loc고가" == "loc" + "고가";
      ContainsConcat(n, "loc", "고가");
    }
  }

  /** An empty or all-blank cell matches no label class. */
  lemma BlankMatchesNothing(kind: LabelKind, text: string)
    requires forall i :: 0 <= i < |text| ==> IsSpace(text[i])
    ensures !Matches(kind, text)
  {
    StripEmptyIff(text);
    assert NormLabel(text) == [];
  }

  /** One cell can carry both LOC labels, so the two zone columns found for a sheet may coincide. */
  lemma OneCellBothZones()
    ensures IsLocAvgLabel("loc평단고가") && IsLocHighLabel("loc평단고가")
  {
    var s := "loc평단고가";
    PlainLabelFixed(s);
    BothZonesText(s);
    BothZonesOf(s);
  }

  lemma BothZonesOf(n: string)
    requires NormLabel(n) == n
    requires Contains(n, "loc평단") && Contains(n, "loc") && Contains(n, "고가")
    ensures IsLocAvgLabel(n) && IsLocHighLabel(n)
  {
  }

  lemma BothZonesText(s: string)
    requires s == "loc평단고가"
    ensures Contains(s, "loc평단") && Contains(s, "loc") && Contains(s, "고가")
  {
    assert OccursAt(s, "loc평단", 0);
    assert OccursAt(s, "loc", 0);
    assert OccursAt(s, "고가", 5);
    ContainsIff(s, "loc평단");
    ContainsIff(s, "loc");
    ContainsIff(s, "고가");
  }

  /** "날짜" is a date label. */
  lemma DateLabelSample()
    ensures IsDateLabel("날짜")
  {
    var d := "날짜";
    PlainLabelFixed(d);
    assert IsPrefix(d, d);
  }

  /** A cell whose normal form lacks '평' is no LOC-average label. */
  lemma NotLocAvgWithout(text: string)
    requires '평' !in NormLabel(text)
    ensures !IsLocAvgLabel(text)
  {
    var n := NormLabel(text);
    MissingCharNotContained(n, "평단", 0);
    MissingCharNotContained(n, "loc평단", 3);
  }

  /** A cell whose normal form lacks '고' is no LOC-high label. */
  lemma NotLocHighWithout(text: string)
    requires '고' !in NormLabel(text)
    ensures !IsLocHighLabel(text)
  {
    var n := NormLabel(text);
    MissingCharNotContained(n, "고가", 0);
    MissingCharNotContained(n, "loc고가", 3);
  }

  /** "loc평단" is a LOC-average label and not a LOC-high label. */
  lemma LocAvgSample()
    ensures IsLocAvgLabel("loc평단") && !IsLocHighLabel("loc평단")
  {
    var a := "loc평단";
    PlainLabelFixed(a);
    assert IsPrefix(a, a);
    assert '고' !in a;
    NotLocHighWithout(a);
  }

  /** "loc고가" is a LOC-high label and not a LOC-average label. */
  lemma LocHighSample()
    ensures IsLocHighLabel("loc고가") && !IsLocAvgLabel("loc고가")
  {
    var h := "loc고가";
    PlainLabelFixed(h);
    assert IsPrefix(h, h);
    assert '평' !in h;
    NotLocAvgWithout(h);
  }
}

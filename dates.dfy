/**
 * Calendar dates in ledger cells: `normalize_date_value` (main.py:462-477) and
 * the "YYYY-MM-DD" text the ledger writes for a new row (main.py:634, 687).
 */
module Dates {
  import opened Wrappers
  import opened Text
  import opened Decimal

  datatype Date = Date(year: int, month: int, day: int)

  predicate IsLeapYear(y: int) { y % 4 == 0 && (y % 100 != 0 || y % 400 == 0) }

  function DaysInMonth(y: int, m: int): int
    requires 1 <= m <= 12
  {
    if m == 2 then (if IsLeapYear(y) then 29 else 28)
    else if m == 4 || m == 6 || m == 9 || m == 11 then 30
    else 31
  }

  /** A date Python's `datetime.date` accepts. */
  predicate ValidDate(d: Date)
  {
    1 <= d.year <= 9999 && 1 <= d.month <= 12 && 1 <= d.day <= DaysInMonth(d.year, d.month)
  }

  /**
   * What reading a date cell yields: no date, a date, or the `ValueError`
   * that escapes when text shaped like "YYYY-M-D" names no calendar day.
   */
  datatype DateCell = NoDate | IsDate(date: Date) | BadDate

  /** The end of the run of decimal digits starting at `i`. */
  function DigitRunEnd(s: string, i: nat): (j: nat)
    requires i <= |s|
    ensures i <= j <= |s| && AllDigits(s[i..j]) && (j == |s| || !IsDigit(s[j]))
    decreases |s| - i
  {
    if i < |s| && IsDigit(s[i]) then DigitRunEnd(s, i + 1) else i
  }

  /** The end of the run of whitespace starting at `i`. */
  function SpaceRunEnd(s: string, i: nat): (j: nat)
    requires i <= |s|
    ensures i <= j <= |s|
    decreases |s| - i
  {
    if i < |s| && IsSpace(s[i]) then SpaceRunEnd(s, i + 1) else i
  }

  datatype DateHeadParse = DateHeadParse(date: Date, rest: string)

  /**
   * "YYYY<sep>M<sep>D" at the start of `s`: a four-digit year and a one- or
   * two-digit month and day, as `strptime`'s `%Y`, `%m`, `%d` read them; the
   * text after the day is returned for the caller to check.
   */
  function DateHead(s: string, sep: char): Option<DateHeadParse>
  {
    if |s| < 5 || !AllDigits(s[..4]) || s[4] != sep then None
    else
      var j := DigitRunEnd(s, 5);
      if !(6 <= j <= 7) || j >= |s| || s[j] != sep then None
      else
        var k := DigitRunEnd(s, j + 1);
        if !(j + 2 <= k <= j + 3) then None
        else Some(DateHeadParse(Date(DigitsValue(s[..4]), DigitsValue(s[5..j]), DigitsValue(s[j + 1..k])), s[k..]))
  }

  /** " %H:%M:%S" after the date: whitespace, then hour, minute and second of one or two digits each. */
  predicate ClockTail(s: string)
  {
    var a := SpaceRunEnd(s, 0);
    var b := DigitRunEnd(s, a);
    a >= 1 && a + 1 <= b <= a + 2 && b < |s| && s[b] == ':' &&
    var c := DigitRunEnd(s, b + 1);
    b + 2 <= c <= b + 3 && c < |s| && s[c] == ':' &&
    var e := DigitRunEnd(s, c + 1);
    e == |s| && c + 2 <= e <= c + 3 &&
    DigitsValue(s[a..b]) <= 23 && DigitsValue(s[b + 1..c]) <= 59 && DigitsValue(s[c + 1..e]) <= 59
  }

  /** A date in "YYYY<sep>M<sep>D" form with nothing after it, when it names a calendar day. */
  function PlainDate(v: string, sep: char): Option<Date>
  {
    match DateHead(v, sep)
    case Some(h) => if h.rest == [] && ValidDate(h.date) then Some(h.date) else None
    case None => None
  }

  /**
   * `normalize_date_value`: strip the text; try "%Y-%m-%d", "%Y-%m-%d %H:%M:%S",
   * "%Y/%m/%d" and "%Y.%m.%d"; finally the pattern `^\d{4}-\d{1,2}-\d{1,2}$`,
   * whose `datetime(...)` call raises when the numbers name no calendar day.
   */
  function NormalizeDateValue(value: string): (r: DateCell)
    ensures r.IsDate? ==> ValidDate(r.date)
  {
    var v := Strip(value);
    if v == [] then NoDate
    else
      match DateHead(v, '-')
      case Some(h) =>
        if h.rest == [] then (if ValidDate(h.date) then IsDate(h.date) else BadDate)
        else if ClockTail(h.rest) && ValidDate(h.date) then IsDate(h.date)
        else NoDate
      case None =>
        match PlainDate(v, '/')
        case Some(d) => IsDate(d)
        case None =>
          match PlainDate(v, '.')
          case Some(d) => IsDate(d)
          case None => NoDate
  }

  /** `f"{year}-{month:02d}-{day:02d}"`, the text written into a new date cell. */
  function IsoDateText(d: Date): (s: string)
    requires ValidDate(d)
  {
    DecimalText(d.year) + "-" + Pad2(d.month) + "-" + Pad2(d.day)
  }

  lemma {:induction false} DigitRunEndAt(s: string, i: nat, j: nat)
    requires i <= j <= |s| && AllDigits(s[i..j]) && (j == |s| || !IsDigit(s[j]))
    ensures DigitRunEnd(s, i) == j
    decreases j - i
  {
    if i < j {
      assert IsDigit(s[i..j][0]);
      DigitRunEndAt(s, i + 1, j);
    }
  }

  /** The text written for a date with a four-digit year reads back as that same date. */
  /** The written date text: ten characters, the year, month and day digits at fixed places, no whitespace. */
  lemma IsoDateTextParts(d: Date)
    requires ValidDate(d) && d.year >= 1000
    ensures var s := IsoDateText(d);
      && |s| == 10 && s[4] == '-' && s[7] == '-'
      && s[..4] == DecimalText(d.year) && s[5..7] == Pad2(d.month) && s[8..10] == Pad2(d.day)
      && NoSpace(s)
  {
    var y, m, dd := DecimalText(d.year), Pad2(d.month), Pad2(d.day);
    DecimalTextLength(d.year, 4);
    DecimalTextValue(d.year);
    Pad2Value(d.month);
    Pad2Value(d.day);
    var s := IsoDateText(d);
    assert s == y + "-" + m + "-" + dd;
    assert s[..4] == y && s[5..7] == m && s[8..10] == dd;
    forall i | 0 <= i < |s| ensures !IsSpace(s[i]) {
      if i < 4 { assert s[i] == y[i]; }
      else if 5 <= i < 7 { assert s[i] == m[i - 5]; }
      else if 8 <= i { assert s[i] == dd[i - 8]; }
    }
  }

  lemma IsoDateTextReadsBack(d: Date)
    requires ValidDate(d) && d.year >= 1000
    ensures NormalizeDateValue(IsoDateText(d)) == IsDate(d)
  {
    IsoDateTextParts(d);
    DecimalTextValue(d.year);
    Pad2Value(d.month);
    Pad2Value(d.day);
    var s := IsoDateText(d);
    StripFixed(s);
    DigitRunEndAt(s, 5, 7);
    DigitRunEndAt(s, 8, 10);
    assert s[10..] == [];
  }
}

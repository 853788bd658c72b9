/**
 * The date-row resolver (main.py:584-607). The worksheet is a finite map from
 * (row, column) to cell text; a cell outside the map reads as empty, as an
 * unset cell of a spreadsheet does. The snapshot `values` is the grid read
 * before the call and may differ from the live cells.
 */
module Sheet {
  import opened Wrappers
  import opened Text
  import opened Dates
  import opened Anchor

  type Cells = map<(int, int), string>

  /**
   * Error tag of the snapshot scan for a date cell that names no calendar day.
   * It stands for the `ValueError` that `date()` raises; the wording of that
   * message, which depends on whether the day, month or year is out of range,
   * is not modelled.
   */
  const InvalidDateCell := "date out of range"

  /** Text of the live cell at `(r, c)`, empty when unset. */
  function CellText(cells: Cells, r: int, c: int): string
  {
    if (r, c) in cells then cells[(r, c)] else ""
  }

  /** The cell holds nothing but whitespace; `BlankIsStripEmpty` ties this to `not str(raw or "").strip()`. */
  predicate IsBlank(s: string) { forall k :: 0 <= k < |s| ==> IsSpace(s[k]) }

  lemma BlankIsStripEmpty(s: string)
    ensures IsBlank(s) <==> Strip(s) == ""
  {
    StripEmptyIff(s);
  }

  /** The live worksheet, updated one cell at a time. */
  class Worksheet {
    var cells: Cells

    constructor (initial: Cells)
      ensures cells == initial
    {
      cells := initial;
    }

    /** `ws.acell(...).value`. */
    function Read(r: int, c: int): string
      reads this
    {
      CellText(cells, r, c)
    }

    /** `ws.update(...)` of a single cell. */
    method Update(r: int, c: int, text: string)
      modifies this
      ensures cells == old(cells)[(r, c) := text]
    {
      cells := cells[(r, c) := text];
    }
  }

  /** A row number above every row the map holds a cell in. */
  ghost function RowBound(keys: set<(int, int)>): (b: int)
    ensures forall k :: k in keys ==> k.0 < b
    decreases |keys|
  {
    if keys == {} then 0
    else
      var k :| k in keys;
      var b := RowBound(keys - {k});
      if k.0 < b then b else k.0 + 1
  }

  /** A non-blank cell lies in the map, hence above `RowBound`. */
  lemma NonBlankBelowBound(cells: Cells, r: int, c: int)
    requires !IsBlank(CellText(cells, r, c))
    ensures r < RowBound(cells.Keys)
  {
    assert (r, c) in cells.Keys;
  }

  /** The first row at or after `r` whose cell in column `c` is blank. */
  ghost function FirstBlankRow(cells: Cells, c: int, r: int): (b: int)
    ensures b >= r && IsBlank(CellText(cells, b, c))
    ensures forall y :: r <= y < b ==> !IsBlank(CellText(cells, y, c))
    decreases RowBound(cells.Keys) - r
  {
    if IsBlank(CellText(cells, r, c)) then r
    else
      NonBlankBelowBound(cells, r, c);
      FirstBlankRow(cells, c, r + 1)
  }

  /**
   * The snapshot scan from row `r` on, with date parser `parse`: the first row
   * whose date cell parses to `target`, nothing when no row does, and the
   * parse error when a malformed date is met first.
   */
  function SnapshotDateRow(values: Grid, dateCol: int, target: Date, r: int, parse: string -> DateCell): Result<Option<int>>
    decreases |values| + 1 - r
  {
    if r > |values| then Ok(None)
    else
      match parse(Cell(values, r, dateCol))
      case BadDate => Err(InvalidDateCell)
      case IsDate(d) => if d == target then Ok(Some(r)) else SnapshotDateRow(values, dateCol, target, r + 1, parse)
      case NoDate => SnapshotDateRow(values, dateCol, target, r + 1, parse)
  }

  /** The date cell of row `y` neither matches `target` nor raises. */
  predicate PassesOver(values: Grid, dateCol: int, target: Date, y: int, parse: string -> DateCell)
  {
    var v := parse(Cell(values, y, dateCol));
    v != IsDate(target) && v != BadDate
  }

  /**
   * A found row is the first from `r` whose cell parses to `target`; an error
   * comes from the first malformed cell before any match; and nothing is found
   * exactly when every row from `r` on passes over.
   */
  lemma {:induction false} SnapshotDateRowSpec(values: Grid, dateCol: int, target: Date, r: int, parse: string -> DateCell)
    ensures var res := SnapshotDateRow(values, dateCol, target, r, parse);
      && (res.Ok? && res.value.Some? ==>
            (r <= res.value.value <= |values|
             && parse(Cell(values, res.value.value, dateCol)) == IsDate(target)
             && forall y :: r <= y < res.value.value ==> PassesOver(values, dateCol, target, y, parse)))
      && (res.Err? ==>
            exists b :: (r <= b <= |values|
                         && parse(Cell(values, b, dateCol)) == BadDate
                         && forall y :: r <= y < b ==> PassesOver(values, dateCol, target, y, parse)))
      && (res == Ok(None) <==> forall y :: r <= y <= |values| ==> PassesOver(values, dateCol, target, y, parse))
    decreases |values| + 1 - r
  {
    if r <= |values| {
      var v := parse(Cell(values, r, dateCol));
      if v != BadDate && v != IsDate(target) {
        SnapshotDateRowSpec(values, dateCol, target, r + 1, parse);
        var res := SnapshotDateRow(values, dateCol, target, r + 1, parse);
        if res.Err? {
          var b :| r + 1 <= b <= |values|
                   && parse(Cell(values, b, dateCol)) == BadDate
                   && forall y :: r + 1 <= y < b ==> PassesOver(values, dateCol, target, y, parse);
          assert forall y :: r <= y < b ==> PassesOver(values, dateCol, target, y, parse);
        }
      } else {
        assert !PassesOver(values, dateCol, target, r, parse);
      }
    }
  }

  /** A row parsing to `target` at or below `r` stops the scan there or earlier. */
  lemma MatchStopsScan(values: Grid, dateCol: int, target: Date, r: int, hit: int, parse: string -> DateCell)
    requires r <= hit <= |values| && parse(Cell(values, hit, dateCol)) == IsDate(target)
    ensures var res := SnapshotDateRow(values, dateCol, target, r, parse);
      res != Ok(None) && (res.Ok? ==> r <= res.value.value <= hit)
  {
    SnapshotDateRowSpec(values, dateCol, target, r, parse);
    assert !PassesOver(values, dateCol, target, hit, parse);
  }

  /**
   * Once the row written for `target` is in the snapshot, the resolver never
   * creates a second row for it: it finds that row or an earlier one with the
   * same date, unless a malformed date cell above it raises first.
   */
  lemma WrittenDateIsFound(values: Grid, headerRow: int, dateCol: int, target: Date, r: int)
    requires ValidDate(target) && target.year >= 1000
    requires headerRow < r <= |values| && Cell(values, r, dateCol) == IsoDateText(target)
    ensures var res := SnapshotDateRow(values, dateCol, target, headerRow + 1, NormalizeDateValue);
      res != Ok(None) && (res.Ok? ==> headerRow < res.value.value <= r)
  {
    IsoDateTextReadsBack(target);
    MatchStopsScan(values, dateCol, target, headerRow + 1, r, NormalizeDateValue);
  }

  /** The first blank row below the header, in the cells as they are before the write. */
  ghost predicate FirstBlankBelow(cells: Cells, headerRow: int, dateCol: int, r: int)
  {
    r == FirstBlankRow(cells, dateCol, headerRow + 1)
  }

  /** The snapshot loop of `find_or_create_date_row`: rows below the header, in order, each date cell read by `parse`. */
  method ScanSnapshot(values: Grid, headerRow: int, dateCol: int, target: Date, parse: string -> DateCell)
    returns (res: Result<Option<int>>)
    requires headerRow >= 1 && dateCol >= 1
    ensures res == SnapshotDateRow(values, dateCol, target, headerRow + 1, parse)
  {
    var r := headerRow + 1;
    while r <= |values|
      invariant headerRow + 1 <= r
      invariant SnapshotDateRow(values, dateCol, target, headerRow + 1, parse)
             == SnapshotDateRow(values, dateCol, target, r, parse)
      decreases |values| + 1 - r
    {
      var row := values[r - 1];
      var raw := if |row| >= dateCol then row[dateCol - 1] else "";
      assert raw == Cell(values, r, dateCol);
      var parsed := parse(raw);
      if parsed == BadDate {
        return Err(InvalidDateCell);
      }
      if parsed.IsDate? && parsed.date == target {
        return Ok(Some(r));
      }
      r := r + 1;
    }
    return Ok(None);
  }

  /** The create loop: walk down from below the header to the first blank date cell and write the date there. */
  method WriteFirstBlank(ws: Worksheet, headerRow: int, dateCol: int, targetText: string) returns (r: int)
    modifies ws
    ensures FirstBlankBelow(old(ws.cells), headerRow, dateCol, r)
    ensures ws.cells == old(ws.cells)[(r, dateCol) := targetText]
  {
    r := headerRow + 1;
    ghost var bound := RowBound(ws.cells.Keys);
    while true
      invariant headerRow + 1 <= r
      invariant FirstBlankRow(ws.cells, dateCol, headerRow + 1) == FirstBlankRow(ws.cells, dateCol, r)
      invariant ws.cells == old(ws.cells)
      decreases bound - r
    {
      var raw := ws.Read(r, dateCol);
      if IsBlank(raw) {
        ws.Update(r, dateCol, targetText);
        return;
      }
      NonBlankBelowBound(ws.cells, r, dateCol);
      r := r + 1;
    }
  }

  /**
   * `find_or_create_date_row`: the snapshot row holding `target`, with no write;
   * otherwise the first live row below the header whose date cell is blank,
   * after writing `targetText` into that one cell.
   */
  method FindOrCreateDateRow(ws: Worksheet, values: Grid, headerRow: int, dateCol: int, target: Date, targetText: string)
    returns (res: Result<int>)
    requires headerRow >= 1 && dateCol >= 1
    modifies ws
    ensures match SnapshotDateRow(values, dateCol, target, headerRow + 1, NormalizeDateValue)
      case Err(e) => res == Err(e) && ws.cells == old(ws.cells)
      case Ok(Some(r)) => res == Ok(r) && ws.cells == old(ws.cells)
      case Ok(None) =>
        && res.Ok? && FirstBlankBelow(old(ws.cells), headerRow, dateCol, res.value)
        && ws.cells == old(ws.cells)[(res.value, dateCol) := targetText]
  {
    var found := ScanSnapshot(values, headerRow, dateCol, target, NormalizeDateValue);
    match found
    case Err(e) => return Err(e);
    case Ok(Some(r)) => return Ok(r);
    case Ok(None) =>
      var r := WriteFirstBlank(ws, headerRow, dateCol, targetText);
      return Ok(r);
  }
}

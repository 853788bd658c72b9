/**
 * Locating the ledger layout in a sheet snapshot: `find_header_row_and_columns`
 * (main.py:506-568) and `find_total_qty_column` (main.py:571-581).
 *
 * A snapshot is the list of rows `get_all_values()` returns; rows may be
 * ragged, and a cell past the end of its row reads as "". Rows and columns
 * are 1-based, as in the sheet.
 */
module Anchor {
  import opened Wrappers
  import opened Labels

  type Grid = seq<seq<string>>

  datatype Pos = Pos(row: int, col: int)

  /** The layout found: header row, date column and the LOC-average / LOC-high price columns. */
  datatype Anchor = Anchor(headerRow: int, dateCol: int, locAvgCol: int, locHighCol: int)

  const EmptySheet: string := "시트가 비어 있습니다"
  const NoHeader: string := "헤더 행(날짜/LOC평단/LOC고가)을 찾을 수 없습니다"

  /** The text at 1-based `(r, c)`; "" outside the snapshot or past the end of a short row. */
  function Cell(g: Grid, r: int, c: int): string
  {
    if 1 <= r <= |g| && 1 <= c <= |g[r - 1]| then g[r - 1][c - 1] else ""
  }

  function CellAt(g: Grid, p: Pos): string { Cell(g, p.row, p.col) }

  /** `p` is an actual cell of the snapshot. */
  predicate InGrid(g: Grid, p: Pos) { 1 <= p.row <= |g| && 1 <= p.col <= |g[p.row - 1]| }

  /** Row-major order: `p` is scanned before `q`. */
  predicate Before(p: Pos, q: Pos) { p.row < q.row || (p.row == q.row && p.col < q.col) }

  function Min(a: int, b: int): int { if a <= b then a else b }

  function Max3(a: int, b: int, c: int): (m: int)
    ensures m >= a && m >= b && m >= c && (m == a || m == b || m == c)
  {
    if a >= b && a >= c then a else if b >= c then b else c
  }

  /** `max(len(r) for r in values)`, 0 for an empty snapshot. */
  function MaxCol(g: Grid): (m: nat)
    ensures forall r :: 0 <= r < |g| ==> |g[r]| <= m
  {
    if g == [] then 0 else
    var rest := MaxCol(g[1..]);
    if |g[0]| >= rest then |g[0]| else rest
  }

  // ---------------------------------------------------------------------
  // Date-first pass

  /** Last row of the label window next to a date label in row `r`. */
  function WinLastRow(g: Grid, r: int): int { Min(r + 2, |g|) }

  /** Last column of the label window next to a date label in column `c`. */
  function WinLastCol(g: Grid, c: int): int { Min(c + 14, MaxCol(g)) }

  /** `p` lies in the window scanned for a date label at `(r, c)`: rows r..r+2, columns c+1..c+14. */
  predicate InWindow(g: Grid, r: int, c: int, p: Pos)
  {
    r <= p.row <= WinLastRow(g, r) && c + 1 <= p.col <= WinLastCol(g, c)
  }

  /** First cell accepted by `isLabel` in the window of `(r, c)`, scanning row-major from `(rr, cc)`. */
  function WinFirstFrom(g: Grid, isLabel: string -> bool, r: int, c: int, rr: int, cc: int): Option<Pos>
    requires cc >= c + 1
    decreases WinLastRow(g, r) + 1 - rr, WinLastCol(g, c) + 1 - cc
  {
    if rr > WinLastRow(g, r) then None
    else if cc > WinLastCol(g, c) then WinFirstFrom(g, isLabel, r, c, rr + 1, c + 1)
    else if isLabel(Cell(g, rr, cc)) then Some(Pos(rr, cc))
    else WinFirstFrom(g, isLabel, r, c, rr, cc + 1)
  }

  function WinFirst(g: Grid, isLabel: string -> bool, r: int, c: int): Option<Pos>
  {
    WinFirstFrom(g, isLabel, r, c, r, c + 1)
  }

  /** The three label tests the resolver uses; `LedgerLabels` holds the ledger's own. */
  datatype Matcher = Matcher(date: string -> bool, locAvg: string -> bool, locHigh: string -> bool)

  const LedgerLabels: Matcher := Matcher(IsDateLabel, IsLocAvgLabel, IsLocHighLabel)

  /** No test of the matcher accepts an empty cell. */
  predicate BlankFree(m: Matcher) { !m.date("") && !m.locAvg("") && !m.locHigh("") }

  /** The anchor a date label at `(r, c)` yields, when its window holds both LOC labels. */
  function WindowHit(g: Grid, m: Matcher, r: int, c: int): Option<Anchor>
  {
    var a := WinFirst(g, m.locAvg, r, c);
    var h := WinFirst(g, m.locHigh, r, c);
    if a.Some? && h.Some? then Some(Anchor(Max3(r, a.value.row, h.value.row), c, a.value.col, h.value.col))
    else None
  }

  /** Row length of row `r`, 0 outside the snapshot. */
  function RowLen(g: Grid, r: int): nat { if 1 <= r <= |g| then |g[r - 1]| else 0 }

  /** The date-first pass, continued from cell `(r, c)` in row-major order. */
  function DateFirstFrom(g: Grid, m: Matcher, r: int, c: int): Option<Anchor>
    requires r >= 1 && c >= 1
    decreases |g| + 1 - r, RowLen(g, r) + 1 - c
  {
    if r > |g| then None
    else if c > |g[r - 1]| then DateFirstFrom(g, m, r + 1, 1)
    else if m.date(g[r - 1][c - 1]) && WindowHit(g, m, r, c).Some? then WindowHit(g, m, r, c)
    else DateFirstFrom(g, m, r, c + 1)
  }

  // ---------------------------------------------------------------------
  // Label-first fallback

  /** First cell accepted by `isLabel` in the whole snapshot, scanning row-major from `(r, c)`. */
  function GridFirstFrom(g: Grid, isLabel: string -> bool, r: int, c: int): Option<Pos>
    requires r >= 1 && c >= 1
    decreases |g| + 1 - r, RowLen(g, r) + 1 - c
  {
    if r > |g| then None
    else if c > |g[r - 1]| then GridFirstFrom(g, isLabel, r + 1, 1)
    else if isLabel(g[r - 1][c - 1]) then Some(Pos(r, c))
    else GridFirstFrom(g, isLabel, r, c + 1)
  }

  /** First column at or after `c` in `row` whose cell `isLabel` accepts. */
  function RowFirst(row: seq<string>, isLabel: string -> bool, c: int): Option<int>
    requires c >= 1
    decreases |row| + 1 - c
  {
    if c > |row| then None
    else if isLabel(row[c - 1]) then Some(c)
    else RowFirst(row, isLabel, c + 1)
  }

  /** The first of `rows` (skipping those outside the snapshot) holding a cell `isLabel` accepts, and its first such column. */
  function FirstInRows(g: Grid, rows: seq<int>, isLabel: string -> bool): Option<Pos>
  {
    if rows == [] then None
    else
      var rr := rows[0];
      if 1 <= rr <= |g| && RowFirst(g[rr - 1], isLabel, 1).Some? then Some(Pos(rr, RowFirst(g[rr - 1], isLabel, 1).value))
      else FirstInRows(g, rows[1..], isLabel)
  }

  /** The rows searched for a date label: each LOC label's row, the row above and the row below. */
  function NearRows(a: Pos, h: Pos): seq<int>
  {
    [a.row, a.row - 1, a.row + 1, h.row, h.row - 1, h.row + 1]
  }

  /** The fallback pass. */
  function Fallback(g: Grid, m: Matcher): Option<Anchor>
  {
    var a := GridFirstFrom(g, m.locAvg, 1, 1);
    var h := GridFirstFrom(g, m.locHigh, 1, 1);
    if a.None? || h.None? then None
    else
      match FirstInRows(g, NearRows(a.value, h.value), m.date)
      case None => None
      case Some(d) => Some(Anchor(Max3(d.row, a.value.row, h.value.row), d.col, a.value.col, h.value.col))
  }

  /** The resolver with label tests `m`: the date-first pass, then the fallback, else an error. */
  function ResolveWith(g: Grid, m: Matcher): Result<Anchor>
  {
    if g == [] then Err(EmptySheet)
    else
      match DateFirstFrom(g, m, 1, 1)
      case Some(x) => Ok(x)
      case None =>
        match Fallback(g, m)
        case Some(x) => Ok(x)
        case None => Err(NoHeader)
  }

  /** `find_header_row_and_columns` as a function. */
  function ResolveAnchor(g: Grid): Result<Anchor>
  {
    ResolveWith(g, LedgerLabels)
  }

  /** `find_total_qty_column` as a function. */
  function TotalQtyColumn(g: Grid, headerRow: int, locHighCol: int): int
  {
    match FirstInRows(g, [headerRow, headerRow - 1, headerRow + 1], IsTotalQtyLabel)
    case Some(p) => p.col
    case None => locHighCol + 4
  }

  // ---------------------------------------------------------------------
  // What the searches find

  /** `RowFirst` is the first matching column at or after `c`, and finds nothing only when no such column matches. */
  lemma {:induction false} RowFirstSpec(g: Grid, r: int, isLabel: string -> bool, c: int)
    requires 1 <= r <= |g| && c >= 1
    requires !isLabel("")
    ensures var res := RowFirst(g[r - 1], isLabel, c);
      && (res.Some? ==> c <= res.value <= |g[r - 1]| && isLabel(Cell(g, r, res.value))
                        && forall y :: c <= y < res.value ==> !isLabel(Cell(g, r, y)))
      && (res.None? ==> forall y :: c <= y ==> !isLabel(Cell(g, r, y)))
    decreases |g[r - 1]| + 1 - c
  {
    if c <= |g[r - 1]| && !isLabel(g[r - 1][c - 1]) {
      RowFirstSpec(g, r, isLabel, c + 1);
    }
  }

  /** `WinFirstFrom` is the row-major first match in the window at or after `(rr, cc)`, and `None` only when there is none. */
  lemma {:induction false} WinFirstSpec(g: Grid, isLabel: string -> bool, r: int, c: int, rr: int, cc: int)
    requires cc >= c + 1 && rr >= r
    ensures var res := WinFirstFrom(g, isLabel, r, c, rr, cc);
      && (res.Some? ==> InWindow(g, r, c, res.value) && !Before(res.value, Pos(rr, cc))
                        && isLabel(CellAt(g, res.value))
                        && forall q :: InWindow(g, r, c, q) && !Before(q, Pos(rr, cc)) && Before(q, res.value)
                             ==> !isLabel(CellAt(g, q)))
      && (res.None? ==> forall q :: InWindow(g, r, c, q) && !Before(q, Pos(rr, cc)) ==> !isLabel(CellAt(g, q)))
    decreases WinLastRow(g, r) + 1 - rr, WinLastCol(g, c) + 1 - cc
  {
    if rr > WinLastRow(g, r) {
    } else if cc > WinLastCol(g, c) {
      WinFirstSpec(g, isLabel, r, c, rr + 1, c + 1);
    } else if !isLabel(Cell(g, rr, cc)) {
      WinFirstSpec(g, isLabel, r, c, rr, cc + 1);
    }
  }

  /** `GridFirstFrom` is the row-major first match in the snapshot at or after `(r, c)`, and `None` only when there is none. */
  lemma {:induction false} GridFirstSpec(g: Grid, isLabel: string -> bool, r: int, c: int)
    requires r >= 1 && c >= 1
    ensures var res := GridFirstFrom(g, isLabel, r, c);
      && (res.Some? ==> InGrid(g, res.value) && !Before(res.value, Pos(r, c))
                        && isLabel(CellAt(g, res.value))
                        && forall q :: InGrid(g, q) && !Before(q, Pos(r, c)) && Before(q, res.value)
                             ==> !isLabel(CellAt(g, q)))
      && (res.None? ==> forall q :: InGrid(g, q) && !Before(q, Pos(r, c)) ==> !isLabel(CellAt(g, q)))
    decreases |g| + 1 - r, RowLen(g, r) + 1 - c
  {
    if r > |g| {
    } else if c > |g[r - 1]| {
      GridFirstSpec(g, isLabel, r + 1, 1);
    } else if !isLabel(g[r - 1][c - 1]) {
      GridFirstSpec(g, isLabel, r, c + 1);
    }
  }

  /** A date label whose window holds both LOC labels. */
  predicate DateAnchorAt(g: Grid, m: Matcher, p: Pos)
  {
    InGrid(g, p) && m.date(CellAt(g, p)) && WindowHit(g, m, p.row, p.col).Some?
  }

  /** The date-first pass stops at the row-major first date label whose window holds both LOC labels. */
  lemma {:induction false} DateFirstSpec(g: Grid, m: Matcher, r: int, c: int)
    requires r >= 1 && c >= 1
    ensures var res := DateFirstFrom(g, m, r, c);
      && (res.Some? ==> exists p :: DateAnchorAt(g, m, p) && !Before(p, Pos(r, c))
                          && WindowHit(g, m, p.row, p.col) == res
                          && forall q :: DateAnchorAt(g, m, q) && !Before(q, Pos(r, c)) ==> !Before(q, p))
      && (res.None? ==> forall q :: DateAnchorAt(g, m, q) ==> Before(q, Pos(r, c)))
    decreases |g| + 1 - r, RowLen(g, r) + 1 - c
  {
    if r > |g| {
    } else if c > |g[r - 1]| {
      DateFirstSpec(g, m, r + 1, 1);
      DateFirstSkip(g, m, r, c, Pos(r + 1, 1));
    } else if m.date(g[r - 1][c - 1]) && WindowHit(g, m, r, c).Some? {
      assert DateAnchorAt(g, m, Pos(r, c));
    } else {
      assert !DateAnchorAt(g, m, Pos(r, c));
      DateFirstSpec(g, m, r, c + 1);
      DateFirstSkip(g, m, r, c, Pos(r, c + 1));
    }
  }

  /** Moving the scan start from `(r, c)` to `next` passes over no date anchor. */
  lemma DateFirstSkip(g: Grid, m: Matcher, r: int, c: int, next: Pos)
    requires forall q :: DateAnchorAt(g, m, q) && !Before(q, Pos(r, c)) ==> !Before(q, next)
    requires !Before(next, Pos(r, c))
    ensures forall q :: DateAnchorAt(g, m, q) && !Before(q, next) ==> !Before(q, Pos(r, c))
    ensures forall q :: DateAnchorAt(g, m, q) && Before(q, next) ==> Before(q, Pos(r, c))
  {
  }

  /** Row `rr` lies in the snapshot and holds a cell `isLabel` accepts. */
  predicate RowHit(g: Grid, rr: int, isLabel: string -> bool)
  {
    1 <= rr <= |g| && RowFirst(g[rr - 1], isLabel, 1).Some?
  }

  /** `FirstInRows` returns the first listed row inside the snapshot that holds a label, with its first such column. */
  lemma {:induction false} FirstInRowsSpec(g: Grid, rows: seq<int>, isLabel: string -> bool)
    ensures var res := FirstInRows(g, rows, isLabel);
      && (res.Some? ==> exists i :: 0 <= i < |rows| && rows[i] == res.value.row && RowHit(g, rows[i], isLabel)
                          && RowFirst(g[rows[i] - 1], isLabel, 1) == Some(res.value.col)
                          && forall j :: 0 <= j < i ==> !RowHit(g, rows[j], isLabel))
      && (res.None? ==> forall j :: 0 <= j < |rows| ==> !RowHit(g, rows[j], isLabel))
  {
    if rows != [] && !RowHit(g, rows[0], isLabel) {
      var tail := rows[1..];
      FirstInRowsSpec(g, tail, isLabel);
      assert FirstInRows(g, rows, isLabel) == FirstInRows(g, tail, isLabel);
      assert forall j :: 0 < j < |rows| ==> rows[j] == tail[j - 1];
      var res := FirstInRows(g, tail, isLabel);
      if res.Some? {
        var i :| 0 <= i < |tail| && tail[i] == res.value.row && RowHit(g, tail[i], isLabel)
                  && RowFirst(g[tail[i] - 1], isLabel, 1) == Some(res.value.col)
                  && forall j :: 0 <= j < i ==> !RowHit(g, tail[j], isLabel);
        assert rows[i + 1] == tail[i];
      }
    }
  }

  // ---------------------------------------------------------------------
  // What the resolver returns

  lemma LedgerLabelsBlankFree()
    ensures BlankFree(LedgerLabels)
  {
    BlankMatchesNothing(DateLabel, "");
    BlankMatchesNothing(LocAvgLabel, "");
    BlankMatchesNothing(LocHighLabel, "");
  }

  /**
   * A date label at `(r, c)` yields an anchor whose LOC columns lie in c+1..c+14
   * and whose LOC rows lie in r..r+2; each LOC label is the first of its class in
   * the window, and the header row is the lowest of the three label rows.
   */
  lemma WindowHitShape(g: Grid, m: Matcher, r: int, c: int)
    requires WindowHit(g, m, r, c).Some?
    ensures var x := WindowHit(g, m, r, c).value;
      var a := WinFirst(g, m.locAvg, r, c).value;
      var h := WinFirst(g, m.locHigh, r, c).value;
      && x.dateCol == c && x.locAvgCol == a.col && x.locHighCol == h.col
      && c + 1 <= a.col <= c + 14 && c + 1 <= h.col <= c + 14
      && r <= a.row <= r + 2 && r <= h.row <= r + 2
      && m.locAvg(CellAt(g, a)) && m.locHigh(CellAt(g, h))
      && x.headerRow == Max3(r, a.row, h.row) && r <= x.headerRow <= r + 2
      && (forall q :: InWindow(g, r, c, q) && Before(q, a) ==> !m.locAvg(CellAt(g, q)))
      && (forall q :: InWindow(g, r, c, q) && Before(q, h) ==> !m.locHigh(CellAt(g, q)))
  {
    WinFirstSpec(g, m.locAvg, r, c, r, c + 1);
    WinFirstSpec(g, m.locHigh, r, c, r, c + 1);
  }

  /** When the date-first pass succeeds, its anchor comes from the row-major first date label whose window holds both LOC labels. */
  lemma ResolveByDateFirst(g: Grid, m: Matcher)
    requires DateFirstFrom(g, m, 1, 1).Some?
    ensures g != [] && ResolveWith(g, m) == Ok(DateFirstFrom(g, m, 1, 1).value)
    ensures exists p :: DateAnchorAt(g, m, p) && WindowHit(g, m, p.row, p.col) == DateFirstFrom(g, m, 1, 1)
                        && forall q :: DateAnchorAt(g, m, q) ==> !Before(q, p)
  {
    DateFirstSpec(g, m, 1, 1);
    var p :| DateAnchorAt(g, m, p) && !Before(p, Pos(1, 1))
             && WindowHit(g, m, p.row, p.col) == DateFirstFrom(g, m, 1, 1)
             && forall q :: DateAnchorAt(g, m, q) && !Before(q, Pos(1, 1)) ==> !Before(q, p);
    forall q | DateAnchorAt(g, m, q) ensures !Before(q, p) {
      assert !Before(q, Pos(1, 1));
    }
  }

  /** Some listed row inside the snapshot holds a label. */
  ghost predicate LabelNear(g: Grid, isLabel: string -> bool, rows: seq<int>)
  {
    exists i :: 0 <= i < |rows| && 1 <= rows[i] <= |g| && exists y :: isLabel(Cell(g, rows[i], y))
  }

  /** A row where `RowFirst` finds nothing holds no label at any column. */
  lemma RowMiss(g: Grid, r: int, isLabel: string -> bool)
    requires 1 <= r <= |g| && !isLabel("") && RowFirst(g[r - 1], isLabel, 1).None?
    ensures forall y :: !isLabel(Cell(g, r, y))
  {
    RowFirstSpec(g, r, isLabel, 1);
  }

  /** Rows where `RowFirst` finds nothing hold no label. */
  lemma RowsMiss(g: Grid, rows: seq<int>, isLabel: string -> bool)
    requires !isLabel("")
    requires forall j :: 0 <= j < |rows| ==> !RowHit(g, rows[j], isLabel)
    ensures !LabelNear(g, isLabel, rows)
  {
    forall j | 0 <= j < |rows| && 1 <= rows[j] <= |g| ensures forall y :: !isLabel(Cell(g, rows[j], y)) {
      RowMiss(g, rows[j], isLabel);
    }
  }

  /** The position in `rows` of the row a hit of `FirstInRows` comes from. */
  lemma {:induction false} FirstInRowsIndex(g: Grid, rows: seq<int>, isLabel: string -> bool) returns (i: nat)
    requires FirstInRows(g, rows, isLabel).Some?
    ensures i < |rows| && rows[i] == FirstInRows(g, rows, isLabel).value.row && RowHit(g, rows[i], isLabel)
    ensures RowFirst(g[rows[i] - 1], isLabel, 1) == Some(FirstInRows(g, rows, isLabel).value.col)
    ensures forall j :: 0 <= j < i ==> !RowHit(g, rows[j], isLabel)
  {
    if RowHit(g, rows[0], isLabel) {
      i := 0;
    } else {
      var tail := rows[1..];
      assert FirstInRows(g, rows, isLabel) == FirstInRows(g, tail, isLabel);
      var t := FirstInRowsIndex(g, tail, isLabel);
      i := t + 1;
      assert rows[i] == tail[t];
      forall j | 0 <= j < i ensures !RowHit(g, rows[j], isLabel) {
        if j > 0 { assert rows[j] == tail[j - 1]; }
      }
    }
  }

  /** A hit of `FirstInRows` is the first label of the first listed row that has one. */
  lemma FirstInRowsHit(g: Grid, rows: seq<int>, isLabel: string -> bool)
    requires !isLabel("") && FirstInRows(g, rows, isLabel).Some?
    ensures var d := FirstInRows(g, rows, isLabel).value;
      exists i :: 0 <= i < |rows| && rows[i] == d.row && 1 <= d.row <= |g|
        && isLabel(Cell(g, d.row, d.col))
        && (forall y :: 1 <= y < d.col ==> !isLabel(Cell(g, d.row, y)))
        && !LabelNear(g, isLabel, rows[..i])
  {
    var d := FirstInRows(g, rows, isLabel).value;
    var i := FirstInRowsIndex(g, rows, isLabel);
    RowFirstSpec(g, rows[i], isLabel, 1);
    var before := rows[..i];
    assert forall j :: 0 <= j < |before| ==> before[j] == rows[j];
    RowsMiss(g, before, isLabel);
    assert isLabel(Cell(g, d.row, d.col));
  }

  /** A miss of `FirstInRows` means no listed row inside the snapshot holds a label. */
  lemma FirstInRowsMiss(g: Grid, rows: seq<int>, isLabel: string -> bool)
    requires !isLabel("") && FirstInRows(g, rows, isLabel).None?
    ensures !LabelNear(g, isLabel, rows)
  {
    FirstInRowsSpec(g, rows, isLabel);
    RowsMiss(g, rows, isLabel);
  }

  /**
   * When only the fallback succeeds, the LOC columns are those of the row-major
   * first LOC-average and first LOC-high labels of the whole sheet, the date
   * column is the first date label in the first of the rows around them that
   * has one, and the header row is the lowest of the three rows.
   */
  lemma ResolveByFallback(g: Grid, m: Matcher)
    requires BlankFree(m)
    requires DateFirstFrom(g, m, 1, 1).None? && Fallback(g, m).Some?
    ensures var x := Fallback(g, m).value;
      var a := GridFirstFrom(g, m.locAvg, 1, 1).value;
      var h := GridFirstFrom(g, m.locHigh, 1, 1).value;
      && g != [] && ResolveWith(g, m) == Ok(x)
      && x.locAvgCol == a.col && x.locHighCol == h.col
      && m.locAvg(CellAt(g, a)) && m.locHigh(CellAt(g, h))
      && (forall q :: InGrid(g, q) && Before(q, a) ==> !m.locAvg(CellAt(g, q)))
      && (forall q :: InGrid(g, q) && Before(q, h) ==> !m.locHigh(CellAt(g, q)))
      && exists i :: 0 <= i < 6 && 1 <= NearRows(a, h)[i] <= |g|
           && m.date(Cell(g, NearRows(a, h)[i], x.dateCol))
           && (forall y :: 1 <= y < x.dateCol ==> !m.date(Cell(g, NearRows(a, h)[i], y)))
           && x.headerRow == Max3(NearRows(a, h)[i], a.row, h.row)
           && !LabelNear(g, m.date, NearRows(a, h)[..i])
  {
    var a := GridFirstFrom(g, m.locAvg, 1, 1).value;
    var h := GridFirstFrom(g, m.locHigh, 1, 1).value;
    GridFirstSpec(g, m.locAvg, 1, 1);
    GridFirstSpec(g, m.locHigh, 1, 1);
    assert a.row >= 1;
    FirstInRowsHit(g, NearRows(a, h), m.date);
  }

  /**
   * The resolver raises for an empty sheet, and otherwise exactly when no date
   * label has both LOC labels in its window and either a LOC label class is
   * missing from the sheet or no row around the first LOC labels has a date label.
   */
  lemma ResolveFails(g: Grid, m: Matcher)
    requires BlankFree(m)
    ensures ResolveWith(g, m) == Err(EmptySheet) <==> g == []
    ensures ResolveWith(g, m) == Err(NoHeader) <==>
      && g != []
      && (forall q :: !DateAnchorAt(g, m, q))
      && ((forall q :: InGrid(g, q) ==> !m.locAvg(CellAt(g, q)))
          || (forall q :: InGrid(g, q) ==> !m.locHigh(CellAt(g, q)))
          || (GridFirstFrom(g, m.locAvg, 1, 1).Some? && GridFirstFrom(g, m.locHigh, 1, 1).Some?
              && !LabelNear(g, m.date, NearRows(GridFirstFrom(g, m.locAvg, 1, 1).value, GridFirstFrom(g, m.locHigh, 1, 1).value))))
  {
    assert EmptySheet != NoHeader;
    DateFirstSpec(g, m, 1, 1);
    GridFirstSpec(g, m.locAvg, 1, 1);
    GridFirstSpec(g, m.locHigh, 1, 1);
    if DateFirstFrom(g, m, 1, 1).Some? {
      var p :| DateAnchorAt(g, m, p) && !Before(p, Pos(1, 1))
               && WindowHit(g, m, p.row, p.col) == DateFirstFrom(g, m, 1, 1)
               && forall q :: DateAnchorAt(g, m, q) && !Before(q, Pos(1, 1)) ==> !Before(q, p);
    } else {
      var a := GridFirstFrom(g, m.locAvg, 1, 1);
      var h := GridFirstFrom(g, m.locHigh, 1, 1);
      if a.Some? && h.Some? {
        var rows := NearRows(a.value, h.value);
        if FirstInRows(g, rows, m.date).Some? {
          FirstInRowsHit(g, rows, m.date);
        } else {
          FirstInRowsMiss(g, rows, m.date);
        }
      } else if a.None? {
        forall q | InGrid(g, q) ensures !m.locAvg(CellAt(g, q)) {
          assert !Before(q, Pos(1, 1));
        }
      } else {
        forall q | InGrid(g, q) ensures !m.locHigh(CellAt(g, q)) {
          assert !Before(q, Pos(1, 1));
        }
      }
    }
  }

  /**
   * The total-quantity column is the first "총수량" column of the first of the
   * header row, the row above and the row below that has one; without one it
   * is four columns right of the LOC-high column.
   */
  lemma TotalQtyColumnSpec(g: Grid, headerRow: int, locHighCol: int)
    ensures var rows := [headerRow, headerRow - 1, headerRow + 1];
      var col := TotalQtyColumn(g, headerRow, locHighCol);
      && (LabelNear(g, IsTotalQtyLabel, rows) ==>
            exists i :: 0 <= i < 3 && 1 <= rows[i] <= |g|
              && IsTotalQtyLabel(Cell(g, rows[i], col))
              && (forall y :: 1 <= y < col ==> !IsTotalQtyLabel(Cell(g, rows[i], y)))
              && !LabelNear(g, IsTotalQtyLabel, rows[..i]))
      && (!LabelNear(g, IsTotalQtyLabel, rows) ==> col == locHighCol + 4)
  {
    BlankMatchesNothing(TotalQtyLabel, "");
    FirstInRowsOutcome(g, [headerRow, headerRow - 1, headerRow + 1], IsTotalQtyLabel);
  }

  /** `FirstInRows` finds the first label of the first listed row holding one, and finds nothing exactly when no listed row holds one. */
  lemma FirstInRowsOutcome(g: Grid, rows: seq<int>, isLabel: string -> bool)
    requires !isLabel("")
    ensures var res := FirstInRows(g, rows, isLabel);
      && (LabelNear(g, isLabel, rows) ==>
            res.Some? &&
            exists i :: 0 <= i < |rows| && 1 <= rows[i] <= |g| && rows[i] == res.value.row
              && isLabel(Cell(g, rows[i], res.value.col))
              && (forall y :: 1 <= y < res.value.col ==> !isLabel(Cell(g, rows[i], y)))
              && !LabelNear(g, isLabel, rows[..i]))
      && (!LabelNear(g, isLabel, rows) ==> res.None?)
  {
    var res := FirstInRows(g, rows, isLabel);
    if res.Some? {
      FirstInRowsHit(g, rows, isLabel);
      var d := res.value;
      var i :| 0 <= i < |rows| && rows[i] == d.row && 1 <= d.row <= |g|
               && isLabel(Cell(g, d.row, d.col))
               && (forall y :: 1 <= y < d.col ==> !isLabel(Cell(g, d.row, y)))
               && !LabelNear(g, isLabel, rows[..i]);
      assert LabelNear(g, isLabel, rows) by {
        assert isLabel(Cell(g, rows[i], d.col));
      }
    } else {
      FirstInRowsMiss(g, rows, isLabel);
    }
  }

  /**
   * The resolver does not require the two LOC columns to differ: with the date
   * label at (5, 2), "LOC평단" at (5, 4) and "LOC고가" right below it at (6, 4),
   * it accepts header row 6 with both LOC columns equal to 4.
   */
  lemma StackedLocLabelsShareColumn()
    ensures ResolveAnchor(StackedSheet()) == Ok(Anchor(6, 2, 4, 4))
  {
    LedgerLabelsBlankFree();
    DateLabelSample();
    LocAvgSample();
    LocHighSample();
    StackedSheetWith(LedgerLabels);
  }

  function StackedSheet(): Grid
  {
    [[], [], [], [], ["", "날짜", "", "loc평단"], ["", "", "", "loc고가"]]
  }

  lemma StackedSheetWith(m: Matcher)
    requires BlankFree(m) && m.date("날짜")
    requires m.locAvg("loc평단") && !m.locHigh("loc평단") && m.locHigh("loc고가")
    ensures ResolveWith(StackedSheet(), m) == Ok(Anchor(6, 2, 4, 4))
  {
    var g := StackedSheet();
    assert MaxCol(g) == 4;
    assert WinLastRow(g, 5) == 6 && WinLastCol(g, 2) == 4;
    assert WinFirst(g, m.locAvg, 5, 2) == Some(Pos(5, 4)) by {
      assert WinFirstFrom(g, m.locAvg, 5, 2, 5, 3) == WinFirstFrom(g, m.locAvg, 5, 2, 5, 4);
    }
    assert WinFirst(g, m.locHigh, 5, 2) == Some(Pos(6, 4)) by {
      assert WinFirstFrom(g, m.locHigh, 5, 2, 5, 3) == WinFirstFrom(g, m.locHigh, 5, 2, 5, 4);
      assert WinFirstFrom(g, m.locHigh, 5, 2, 5, 4) == WinFirstFrom(g, m.locHigh, 5, 2, 5, 5);
      assert WinFirstFrom(g, m.locHigh, 5, 2, 5, 5) == WinFirstFrom(g, m.locHigh, 5, 2, 6, 3);
      assert WinFirstFrom(g, m.locHigh, 5, 2, 6, 3) == WinFirstFrom(g, m.locHigh, 5, 2, 6, 4);
    }
    assert DateFirstFrom(g, m, 5, 2) == Some(Anchor(6, 2, 4, 4));
    assert DateFirstFrom(g, m, 1, 1) == DateFirstFrom(g, m, 5, 2) by {
      assert DateFirstFrom(g, m, 1, 1) == DateFirstFrom(g, m, 2, 1);
      assert DateFirstFrom(g, m, 2, 1) == DateFirstFrom(g, m, 3, 1);
      assert DateFirstFrom(g, m, 3, 1) == DateFirstFrom(g, m, 4, 1);
      assert DateFirstFrom(g, m, 4, 1) == DateFirstFrom(g, m, 5, 1);
      assert DateFirstFrom(g, m, 5, 1) == DateFirstFrom(g, m, 5, 2);
    }
  }

  // ---------------------------------------------------------------------
  // The resolver as the source writes it

  /** Scans the snapshot as `find_header_row_and_columns` does and returns what `ResolveAnchor` describes. */
  method FindHeaderRowAndColumns(values: Grid) returns (res: Result<Anchor>)
    ensures res == ResolveAnchor(values)
  {
    res := ScanForHeader(values, LedgerLabels);
  }

  /** The scan of `find_header_row_and_columns`, with its three label tests taken from `m`. */
  method ScanForHeader(values: Grid, m: Matcher) returns (res: Result<Anchor>)
    ensures res == ResolveWith(values, m)
  {
    if |values| == 0 {
      return Err(EmptySheet);
    }
    var hit := ScanDateFirst(values, m);
    if hit.Some? {
      return Ok(hit.value);
    }
    hit := ScanFallback(values, m);
    if hit.Some? {
      return Ok(hit.value);
    }
    return Err(NoHeader);
  }

  /** Pass 1: every date label in row-major order, until one has both LOC labels in its window. */
  method ScanDateFirst(values: Grid, m: Matcher) returns (hit: Option<Anchor>)
    ensures hit == DateFirstFrom(values, m, 1, 1)
  {
    var maxCol := MaxCol(values);
    var rowCount := |values|;
    var r := 1;
    while r <= rowCount
      invariant 1 <= r <= rowCount + 1
      invariant DateFirstFrom(values, m, 1, 1) == DateFirstFrom(values, m, r, 1)
    {
      var row := values[r - 1];
      var c := 1;
      while c <= |row|
        invariant 1 <= c <= |row| + 1
        invariant DateFirstFrom(values, m, 1, 1) == DateFirstFrom(values, m, r, c)
      {
        if !m.date(row[c - 1]) {
          c := c + 1;
          continue;
        }
        hit := ScanWindow(values, m, r, c, maxCol);
        if hit.Some? {
          return;
        }
        c := c + 1;
      }
      r := r + 1;
    }
    return None;
  }

  /** The window next to the date label at `(r, c)`: rows r..r+2, columns c+1..c+14, stopping after the row where both LOC labels have been seen. */
  method ScanWindow(values: Grid, m: Matcher, r: int, c: int, maxCol: int) returns (hit: Option<Anchor>)
    requires 1 <= r <= |values| && c >= 1 && maxCol == MaxCol(values)
    ensures hit == WindowHit(values, m, r, c)
  {
    var rowCount := |values|;
    var locAvg: Option<int> := None;
    var locHigh: Option<int> := None;
    var locAvgRow := r;
    var locHighRow := r;
    var lastRow := Min(r + 2, rowCount);
    var lastCol := Min(c + 14, maxCol);
    var rr := r;
    while rr <= lastRow
      invariant r <= rr <= lastRow + 1
      invariant Tracks(values, m.locAvg, r, c, locAvg, locAvgRow, rr, c + 1)
      invariant Tracks(values, m.locHigh, r, c, locHigh, locHighRow, rr, c + 1)
      invariant !(locAvg.Some? && locHigh.Some?)
    {
      var scanRow := values[rr - 1];
      var cc := c + 1;
      while cc <= lastCol
        invariant c + 1 <= cc
        invariant cc <= lastCol + 1 || cc == c + 1
        invariant Tracks(values, m.locAvg, r, c, locAvg, locAvgRow, rr, cc)
        invariant Tracks(values, m.locHigh, r, c, locHigh, locHighRow, rr, cc)
      {
        var cell := if cc - 1 < |scanRow| then scanRow[cc - 1] else "";
        assert cell == Cell(values, rr, cc);
        if locAvg.None? && m.locAvg(cell) {
          locAvg, locAvgRow := Some(cc), rr;
        }
        if locHigh.None? && m.locHigh(cell) {
          locHigh, locHighRow := Some(cc), rr;
        }
        cc := cc + 1;
      }
      if locAvg.Some? && locHigh.Some? {
        return Some(Anchor(Max3(r, locAvgRow, locHighRow), c, locAvg.value, locHigh.value));
      }
      rr := rr + 1;
    }
    return None;
  }

  /** Pass 2: the first LOC labels of the whole sheet, then a date label in the rows around them. */
  method ScanFallback(values: Grid, m: Matcher) returns (hit: Option<Anchor>)
    ensures hit == Fallback(values, m)
  {
    var rowCount := |values|;
    var locAvgCol: Option<int> := None;
    var locHighCol: Option<int> := None;
    var locAvgRow := 0;
    var locHighRow := 0;
    var r := 1;
    while r <= rowCount
      invariant 1 <= r <= rowCount + 1
      invariant GridTracks(values, m.locAvg, locAvgCol, locAvgRow, r, 1)
      invariant GridTracks(values, m.locHigh, locHighCol, locHighRow, r, 1)
    {
      var row := values[r - 1];
      var c := 1;
      while c <= |row|
        invariant 1 <= c <= |row| + 1
        invariant GridTracks(values, m.locAvg, locAvgCol, locAvgRow, r, c)
        invariant GridTracks(values, m.locHigh, locHighCol, locHighRow, r, c)
      {
        var cell := row[c - 1];
        if locAvgCol.None? && m.locAvg(cell) {
          locAvgCol, locAvgRow := Some(c), r;
        }
        if locHighCol.None? && m.locHigh(cell) {
          locHighCol, locHighRow := Some(c), r;
        }
        c := c + 1;
      }
      if locAvgCol.Some? && locHighCol.Some? {
        break;
      }
      r := r + 1;
    }
    if locAvgCol.None? || locHighCol.None? {
      return None;
    }

    var d := ScanNearRows(values, m.date, locAvgRow, locHighRow);
    assert NearRows(Pos(locAvgRow, locAvgCol.value), Pos(locHighRow, locHighCol.value))
        == [locAvgRow, locAvgRow - 1, locAvgRow + 1, locHighRow, locHighRow - 1, locHighRow + 1];
    if d.Some? {
      return Some(Anchor(Max3(d.value.row, locAvgRow, locHighRow), d.value.col, locAvgCol.value, locHighCol.value));
    }
    return None;
  }

  /** The date search of pass 2: each LOC label's row, the row above and the row below, in that order. */
  method ScanNearRows(values: Grid, isDate: string -> bool, locAvgRow: int, locHighRow: int) returns (d: Option<Pos>)
    ensures d == FirstInRows(values, [locAvgRow, locAvgRow - 1, locAvgRow + 1, locHighRow, locHighRow - 1, locHighRow + 1], isDate)
  {
    var rowCount := |values|;
    ghost var near := [locAvgRow, locAvgRow - 1, locAvgRow + 1, locHighRow, locHighRow - 1, locHighRow + 1];
    var candidateRows := [locAvgRow, locHighRow];
    var i := 0;
    while i < |candidateRows|
      invariant 0 <= i <= 2
      invariant FirstInRows(values, near, isDate) == FirstInRows(values, near[3 * i..], isDate)
    {
      var baseRow := candidateRows[i];
      var rows := [baseRow, baseRow - 1, baseRow + 1];
      var j := 0;
      while j < |rows|
        invariant 0 <= j <= 3
        invariant FirstInRows(values, near, isDate) == FirstInRows(values, near[3 * i + j..], isDate)
      {
        var rr := rows[j];
        assert near[3 * i + j] == rr;
        FirstInRowsStep(values, near, 3 * i + j, isDate);
        if rr < 1 || rr > rowCount {
          j := j + 1;
          continue;
        }
        var scanRow := values[rr - 1];
        var c := 1;
        while c <= |scanRow|
          invariant 1 <= c <= |scanRow| + 1
          invariant RowFirst(scanRow, isDate, 1) == RowFirst(scanRow, isDate, c)
        {
          if isDate(scanRow[c - 1]) {
            return Some(Pos(rr, c));
          }
          c := c + 1;
        }
        j := j + 1;
      }
      i := i + 1;
    }
    return None;
  }

  /** One step of `FirstInRows` along a suffix of its row list. */
  lemma FirstInRowsStep(g: Grid, rows: seq<int>, k: int, isLabel: string -> bool)
    requires 0 <= k < |rows|
    ensures FirstInRows(g, rows[k..], isLabel)
         == if 1 <= rows[k] <= |g| && RowFirst(g[rows[k] - 1], isLabel, 1).Some?
            then Some(Pos(rows[k], RowFirst(g[rows[k] - 1], isLabel, 1).value))
            else FirstInRows(g, rows[k + 1..], isLabel)
  {
    assert rows[k..][0] == rows[k];
    assert rows[k..][1..] == rows[k + 1..];
  }

  /** Loop invariant of the window scan: a recorded hit is the window's first, otherwise the first is still ahead of `(rr, cc)`. */
  ghost predicate Tracks(g: Grid, isLabel: string -> bool, r: int, c: int, found: Option<int>, foundRow: int, rr: int, cc: int)
    requires cc >= c + 1
  {
    WinFirst(g, isLabel, r, c) == (if found.Some? then Some(Pos(foundRow, found.value)) else WinFirstFrom(g, isLabel, r, c, rr, cc))
  }

  /** Loop invariant of the fallback scan: a recorded hit is the sheet's first, otherwise the first is still ahead of `(r, c)`. */
  ghost predicate GridTracks(g: Grid, isLabel: string -> bool, found: Option<int>, foundRow: int, r: int, c: int)
    requires r >= 1 && c >= 1
  {
    GridFirstFrom(g, isLabel, 1, 1) == (if found.Some? then Some(Pos(foundRow, found.value)) else GridFirstFrom(g, isLabel, r, c))
  }

  /** Scans the three rows around the header as `find_total_qty_column` does. */
  method FindTotalQtyColumn(values: Grid, headerRow: int, locHighCol: int) returns (col: int)
    ensures col == TotalQtyColumn(values, headerRow, locHighCol)
  {
    col := ScanForTotalQty(values, headerRow, locHighCol, IsTotalQtyLabel);
  }

  /** The scan of `find_total_qty_column`, with its label test `isLabel`. */
  method ScanForTotalQty(values: Grid, headerRow: int, locHighCol: int, isLabel: string -> bool) returns (col: int)
    ensures col == match FirstInRows(values, [headerRow, headerRow - 1, headerRow + 1], isLabel)
                   case Some(p) => p.col
                   case None => locHighCol + 4
  {
    var rowCount := |values|;
    var rows := [headerRow, headerRow - 1, headerRow + 1];
    var j := 0;
    while j < |rows|
      invariant 0 <= j <= 3
      invariant FirstInRows(values, rows, isLabel) == FirstInRows(values, rows[j..], isLabel)
    {
      var rr := rows[j];
      FirstInRowsStep(values, rows, j, isLabel);
      if rr < 1 || rr > rowCount {
        j := j + 1;
        continue;
      }
      var row := values[rr - 1];
      var c := 1;
      while c <= |row|
        invariant 1 <= c <= |row| + 1
        invariant RowFirst(row, isLabel, 1) == RowFirst(row, isLabel, c)
      {
        if isLabel(row[c - 1]) {
          return c;
        }
        c := c + 1;
      }
      j := j + 1;
    }
    return locHighCol + 4;
  }
}

/**
 * Ordering of id strings as Python compares them: lexicographically by code
 * point, a proper prefix first. `sorted` of a set of ids is the unique
 * strictly increasing listing of it.
 */
module StringOrder {

  /** `a < b` on Python strings. */
  predicate Below(a: string, b: string)
    decreases |a|
  {
    if a == [] then b != []
    else if b == [] then false
    else if a[0] != b[0] then a[0] < b[0]
    else Below(a[1..], b[1..])
  }

  lemma {:induction false} BelowIrreflexive(a: string)
    ensures !Below(a, a)
    decreases |a|
  {
    if a != [] {
      BelowIrreflexive(a[1..]);
    }
  }

  lemma {:induction false} BelowTransitive(a: string, b: string, c: string)
    requires Below(a, b) && Below(b, c)
    ensures Below(a, c)
    decreases |a|
  {
    if a != [] && a[0] == b[0] && b[0] == c[0] {
      BelowTransitive(a[1..], b[1..], c[1..]);
    }
  }

  lemma {:induction false} BelowTotal(a: string, b: string)
    ensures a == b || Below(a, b) || Below(b, a)
    decreases |a|
  {
    if a != [] && b != [] && a[0] == b[0] {
      BelowTotal(a[1..], b[1..]);
      if a[1..] == b[1..] {
        assert a == [a[0]] + a[1..] && b == [b[0]] + b[1..];
      }
    }
  }

  lemma BelowAsymmetric(a: string, b: string)
    requires Below(a, b)
    ensures !Below(b, a)
  {
    if Below(b, a) {
      BelowTransitive(a, b, a);
      BelowIrreflexive(a);
    }
  }

  predicate StrictlySorted(s: seq<string>)
  {
    forall i, j :: 0 <= i < j < |s| ==> Below(s[i], s[j])
  }

  function Elems(s: seq<string>): set<string>
  {
    set x | x in s
  }

  /** `s` with `x` added in its place, unless it is already there. */
  function InsertSorted(s: seq<string>, x: string): (r: seq<string>)
    ensures Elems(r) == Elems(s) + {x}
  {
    if s == [] then [x]
    else if x == s[0] then s
    else if Below(x, s[0]) then [x] + s
    else
      var t := InsertSorted(s[1..], x);
      assert Elems(s) == {s[0]} + Elems(s[1..]);
      assert Elems([s[0]] + t) == {s[0]} + Elems(t);
      [s[0]] + t
  }

  lemma {:induction false} InsertSortedSorted(s: seq<string>, x: string)
    requires StrictlySorted(s)
    ensures StrictlySorted(InsertSorted(s, x))
  {
    if s != [] && x != s[0] {
      if Below(x, s[0]) {
        var r := [x] + s;
        forall i, j | 0 <= i < j < |r| ensures Below(r[i], r[j]) {
          if i == 0 && j > 1 {
            BelowTransitive(x, s[0], s[j - 1]);
          }
        }
      } else {
        BelowTotal(x, s[0]);
        InsertSortedSorted(s[1..], x);
        var t := InsertSorted(s[1..], x);
        var r := [s[0]] + t;
        forall j | 0 <= j < |t| ensures Below(s[0], t[j]) {
          assert t[j] in Elems(t);
          if t[j] != x {
            var k :| 0 <= k < |s[1..]| && s[1..][k] == t[j];
          }
        }
        forall i, j | 0 <= i < j < |r| ensures Below(r[i], r[j]) {
          if i > 0 {
            assert r[i] == t[i - 1] && r[j] == t[j - 1];
          }
        }
      }
    }
  }

  /** `sorted(set(xs))`: the distinct strings of `xs` in increasing order. */
  function SortedUnique(xs: seq<string>): seq<string>
  {
    if xs == [] then [] else InsertSorted(SortedUnique(xs[..|xs| - 1]), xs[|xs| - 1])
  }

  lemma {:induction false} SortedUniqueSpec(xs: seq<string>)
    ensures StrictlySorted(SortedUnique(xs)) && Elems(SortedUnique(xs)) == Elems(xs)
  {
    if xs != [] {
      var init := xs[..|xs| - 1];
      SortedUniqueSpec(init);
      InsertSortedSorted(SortedUnique(init), xs[|xs| - 1]);
      assert xs == init + [xs[|xs| - 1]];
      assert Elems(xs) == Elems(init) + {xs[|xs| - 1]};
    }
  }

  /** A strictly increasing listing of a set is unique. */
  lemma {:induction false} SortedListingUnique(a: seq<string>, b: seq<string>)
    requires StrictlySorted(a) && StrictlySorted(b) && Elems(a) == Elems(b)
    ensures a == b
    decreases |a|
  {
    assert b != [] ==> b[0] in Elems(b);
    if a != [] {
      assert a[0] in Elems(b);
      assert b != [];
      assert b[0] in Elems(a);
      if a[0] != b[0] {
        var k :| 0 <= k < |b| && b[k] == a[0];
        var m :| 0 <= m < |a| && a[m] == b[0];
        assert Below(b[0], a[0]) && Below(a[0], b[0]);
        BelowAsymmetric(a[0], b[0]);
      }
      DropMin(a);
      DropMin(b);
      SortedListingUnique(a[1..], b[1..]);
      assert a == [a[0]] + a[1..] && b == [b[0]] + b[1..];
    }
  }

  /** Dropping the first element of a strictly increasing listing drops exactly that element from its set. */
  lemma DropMin(s: seq<string>)
    requires StrictlySorted(s) && s != []
    ensures StrictlySorted(s[1..]) && Elems(s[1..]) == Elems(s) - {s[0]}
  {
    forall j | 0 < j < |s| ensures s[j] != s[0] {
      assert Below(s[0], s[j]);
      BelowIrreflexive(s[0]);
    }
    assert s == [s[0]] + s[1..];
  }

  /** A strictly increasing listing has no repeats. */
  lemma {:induction false} SortedSize(s: seq<string>)
    requires StrictlySorted(s)
    ensures |Elems(s)| == |s|
  {
    if s != [] {
      DropMin(s);
      SortedSize(s[1..]);
    }
  }

  /** `s[-n:]`: the last `n` elements, all of `s` when it is shorter. */
  function KeepLast(s: seq<string>, n: nat): (r: seq<string>)
  {
    if |s| <= n then s else s[|s| - n..]
  }
}

/**
 * `run_upbit_sync_once` (main.py:724-778): the fills of the day not seen
 * before (all of them when the date was given explicitly) are booked in
 * order of trade time, their ids are added to the seen-set, and the set is
 * stored back as its largest 1000 ids in sorted order.
 */
module Sync {
  import opened Wrappers
  import opened Upbit
  import opened StringOrder

  /** Ids kept in the stored seen-set. */
  const SeenCapacity: nat := 1000

  /** The fills to process: all of them for an explicit date, else those whose id is not yet seen. */
  function NewFills(fills: seq<UpbitFill>, seen: set<string>, explicitDate: bool): seq<UpbitFill>
  {
    if explicitDate || fills == [] then fills
    else
      var rest := NewFills(fills[1..], seen, explicitDate);
      if fills[0].fillId in seen then rest else [fills[0]] + rest
  }

  /** Puts `f` before the first fill that is not earlier than it, keeping equal times in their old order. */
  function InsertByTime(f: UpbitFill, s: seq<UpbitFill>): (r: seq<UpbitFill>)
    ensures multiset(r) == multiset(s) + multiset{f}
  {
    if s == [] || f.tradeTime.instant <= s[0].tradeTime.instant then [f] + s
    else
      assert s == [s[0]] + s[1..];
      [s[0]] + InsertByTime(f, s[1..])
  }

  /** `sorted(fills, key=lambda x: x.trade_time)`, a stable insertion sort. */
  function ByTradeTime(fills: seq<UpbitFill>): (r: seq<UpbitFill>)
    ensures multiset(r) == multiset(fills)
  {
    if fills == [] then []
    else
      assert fills == [fills[0]] + fills[1..];
      InsertByTime(fills[0], ByTradeTime(fills[1..]))
  }

  predicate TimeOrdered(s: seq<UpbitFill>)
  {
    forall i, j :: 0 <= i < j < |s| ==> s[i].tradeTime.instant <= s[j].tradeTime.instant
  }

  lemma {:induction false} InsertByTimeOrdered(f: UpbitFill, s: seq<UpbitFill>)
    requires TimeOrdered(s)
    ensures TimeOrdered(InsertByTime(f, s))
  {
    if s != [] && f.tradeTime.instant > s[0].tradeTime.instant {
      InsertByTimeOrdered(f, s[1..]);
      var t := InsertByTime(f, s[1..]);
      forall j | 0 <= j < |t| ensures s[0].tradeTime.instant <= t[j].tradeTime.instant {
        assert t[j] in multiset(t);
        if t[j] != f {
          assert t[j] in multiset(s[1..]);
          var k :| 0 <= k < |s[1..]| && s[1..][k] == t[j];
          assert s[k + 1] == t[j];
        }
      }
    }
  }

  /** Fills are processed in non-decreasing trade time, and each fill is processed exactly as often as it was fetched. */
  lemma {:induction false} ByTradeTimeOrdered(fills: seq<UpbitFill>)
    ensures TimeOrdered(ByTradeTime(fills)) && multiset(ByTradeTime(fills)) == multiset(fills)
  {
    if fills != [] {
      ByTradeTimeOrdered(fills[1..]);
      InsertByTimeOrdered(fills[0], ByTradeTime(fills[1..]));
    }
  }

  function IdsOf(fills: seq<UpbitFill>): (ids: seq<string>)
    ensures |ids| == |fills| && forall i :: 0 <= i < |fills| ==> ids[i] == fills[i].fillId
  {
    seq(|fills|, i requires 0 <= i < |fills| => fills[i].fillId)
  }

  lemma IdsOfSnoc(s: seq<UpbitFill>, f: UpbitFill)
    ensures IdsOf(s + [f]) == IdsOf(s) + [f.fillId]
  {
  }

  lemma IdsOfConcat(a: seq<UpbitFill>, b: seq<UpbitFill>)
    ensures IdsOf(a + b) == IdsOf(a) + IdsOf(b)
  {
  }

  /** The ids recorded do not depend on the order the fills are processed in. */
  lemma {:induction false} IdsOfPermutation(a: seq<UpbitFill>, b: seq<UpbitFill>)
    requires multiset(a) == multiset(b)
    ensures multiset(IdsOf(a)) == multiset(IdsOf(b))
  {
    if a != [] {
      assert a[0] in multiset(b);
      var k :| 0 <= k < |b| && b[k] == a[0];
      var rest := Without(b, k);
      WithoutMultiset(b, k);
      WithoutMultiset(a, 0);
      assert Without(a, 0) == a[1..];
      IdsOfPermutation(a[1..], rest);
      IdsOfWithout(a, 0);
      IdsOfWithout(b, k);
    }
  }

  /** `s` with its `k`-th element taken out. */
  function Without<T>(s: seq<T>, k: nat): (r: seq<T>)
    requires k < |s|
    ensures |r| == |s| - 1
  {
    s[..k] + s[k + 1..]
  }

  lemma WithoutMultiset<T>(s: seq<T>, k: nat)
    requires k < |s|
    ensures multiset(Without(s, k)) == multiset(s) - multiset{s[k]}
  {
    assert s == s[..k] + [s[k]] + s[k + 1..];
  }

  lemma IdsOfWithout(s: seq<UpbitFill>, k: nat)
    requires k < |s|
    ensures multiset(IdsOf(s)) == multiset(IdsOf(Without(s, k))) + multiset{s[k].fillId}
  {
    var front, back := s[..k], s[k + 1..];
    assert s == front + [s[k]] + back;
    IdsOfConcat(front + [s[k]], back);
    IdsOfConcat(front, [s[k]]);
    IdsOfConcat(front, back);
  }

  /** An id is recorded exactly when some processed fill carries it. */
  lemma IdsOfElems(fills: seq<UpbitFill>)
    ensures forall id :: id in Elems(IdsOf(fills)) <==> exists f :: f in fills && f.fillId == id
  {
    forall id | id in Elems(IdsOf(fills)) ensures exists f :: f in fills && f.fillId == id {
      var i :| 0 <= i < |IdsOf(fills)| && IdsOf(fills)[i] == id;
      assert fills[i] in fills;
    }
    forall id | exists f :: f in fills && f.fillId == id ensures id in Elems(IdsOf(fills)) {
      var f :| f in fills && f.fillId == id;
      var i :| 0 <= i < |fills| && fills[i] == f;
      assert IdsOf(fills)[i] == id;
    }
  }

  /** How many of `fills` the sheet step booked. */
  function CountBooked(fills: seq<UpbitFill>, booked: UpbitFill -> bool): (n: nat)
    ensures n <= |fills|
  {
    if fills == [] then 0
    else CountBooked(fills[..|fills| - 1], booked) + (if booked(fills[|fills| - 1]) then 1 else 0)
  }

  /** The last of `fills` the sheet step booked. */
  function LastBooked(fills: seq<UpbitFill>, booked: UpbitFill -> bool): (r: Option<UpbitFill>)
    ensures r.Some? ==> r.value in fills && booked(r.value)
    ensures r.None? ==> forall f :: f in fills ==> !booked(f)
  {
    if fills == [] then None
    else if booked(fills[|fills| - 1]) then Some(fills[|fills| - 1])
    else
      var r := LastBooked(fills[..|fills| - 1], booked);
      assert forall f :: f in fills ==> f in fills[..|fills| - 1] || f == fills[|fills| - 1];
      r
  }

  /** The reported fill is the last booked one: it is booked, and no fill after it is. */
  lemma {:induction false} LastBookedIsLast(fills: seq<UpbitFill>, booked: UpbitFill -> bool)
    ensures LastBooked(fills, booked).Some? ==>
      exists i :: 0 <= i < |fills| && fills[i] == LastBooked(fills, booked).value && booked(fills[i])
        && forall j :: i < j < |fills| ==> !booked(fills[j])
  {
    if fills != [] {
      var n := |fills| - 1;
      if booked(fills[n]) {
        assert fills[n] == LastBooked(fills, booked).value;
      } else {
        var p := fills[..n];
        LastBookedIsLast(p, booked);
        if LastBooked(p, booked).Some? {
          var i :| 0 <= i < |p| && p[i] == LastBooked(p, booked).value && booked(p[i])
                   && forall j :: i < j < |p| ==> !booked(p[j]);
          assert fills[i] == p[i];
          forall j | i < j < |fills| ensures !booked(fills[j]) {
            if j < n { assert fills[j] == p[j]; }
          }
        }
      }
    }
  }

  /** Processing one more fill moves the counters by that fill alone. */
  lemma BookedSnoc(s: seq<UpbitFill>, f: UpbitFill, booked: UpbitFill -> bool)
    ensures CountBooked(s + [f], booked) == CountBooked(s, booked) + (if booked(f) then 1 else 0)
    ensures LastBooked(s + [f], booked) == if booked(f) then Some(f) else LastBooked(s, booked)
  {
    assert (s + [f])[..|s|] == s;
  }

  /** `list(sorted(ids))[-1000:]`. */
  function StoredIds(ids: seq<string>): seq<string>
  {
    KeepLast(SortedUnique(ids), SeenCapacity)
  }

  /**
   * The stored seen-set is strictly increasing, holds `min(1000, #distinct ids)`
   * of the ids, and every id it drops is smaller than every id it keeps; with
   * at most 1000 distinct ids nothing is dropped.
   */
  lemma StoredIdsSpec(ids: seq<string>)
    ensures var r := StoredIds(ids);
      && StrictlySorted(r)
      && |r| == (if |Elems(ids)| <= SeenCapacity then |Elems(ids)| else SeenCapacity)
      && Elems(r) <= Elems(ids)
      && (forall x, y :: x in Elems(ids) && x !in Elems(r) && y in r ==> Below(x, y))
      && (|Elems(ids)| <= SeenCapacity ==> Elems(r) == Elems(ids))
  {
    var s := SortedUnique(ids);
    SortedUniqueSpec(ids);
    SortedSize(s);
    var r := StoredIds(ids);
    if |s| > SeenCapacity {
      var d := |s| - SeenCapacity;
      assert r == s[d..];
      forall x, y | x in Elems(ids) && x !in Elems(r) && y in r ensures Below(x, y) {
        assert x in Elems(s);
        var i :| 0 <= i < |s| && s[i] == x;
        var j :| 0 <= j < |r| && r[j] == y;
        assert s[d + j] == y;
      }
    }
  }

  /**
   * The per-fill loop of a run: hand each fill to the sheet step in turn,
   * count the booked ones, remember the last booked one and collect the ids.
   */
  method ProcessFills(order: seq<UpbitFill>, booked: UpbitFill -> bool)
    returns (writtenCount: nat, lastBooked: Option<UpbitFill>, ids: seq<string>)
    ensures writtenCount == CountBooked(order, booked)
    ensures lastBooked == LastBooked(order, booked)
    ensures ids == IdsOf(order)
  {
    writtenCount, lastBooked, ids := 0, None, [];
    var i := 0;
    while i < |order|
      invariant 0 <= i <= |order|
      invariant writtenCount == CountBooked(order[..i], booked)
      invariant lastBooked == LastBooked(order[..i], booked)
      invariant ids == IdsOf(order[..i])
    {
      var fill := order[i];
      assert order[..i + 1] == order[..i] + [fill];
      IdsOfSnoc(order[..i], fill);
      BookedSnoc(order[..i], fill, booked);
      ids := ids + [fill.fillId];
      if booked(fill) {
        writtenCount := writtenCount + 1;
        lastBooked := Some(fill);
      }
      i := i + 1;
    }
    assert order[..i] == order;
  }

  /** The ledger's sync state: the stored seen-set. */
  class SyncState {
    var processedIds: seq<string>

    constructor (ids: seq<string>)
      ensures processedIds == ids
    {
      processedIds := ids;
    }

    /**
     * One sync run over the day's fetched `fills`; `booked` tells whether the
     * sheet step booked a fill. Returns the processed and written counts and
     * the last booked fill.
     */
    method RunUpbitSyncOnce(fills: seq<UpbitFill>, explicitDate: bool, booked: UpbitFill -> bool)
      returns (processedCount: nat, writtenCount: nat, lastBooked: Option<UpbitFill>)
      modifies this
      ensures var order := ByTradeTime(NewFills(fills, Elems(old(processedIds)), explicitDate));
        && processedCount == |order|
        && writtenCount == CountBooked(order, booked)
        && lastBooked == LastBooked(order, booked)
        && processedIds == StoredIds(old(processedIds) + IdsOf(order))
    {
      var order := ByTradeTime(NewFills(fills, Elems(processedIds), explicitDate));
      var ids;
      processedCount := |order|;
      writtenCount, lastBooked, ids := ProcessFills(order, booked);
      processedIds := StoredIds(processedIds + ids);
    }
  }

  // ---------------------------------------------------------------------
  // Properties of a run

  /** Without an explicit date, no fill whose id was already seen is processed again. */
  lemma {:induction false} NoReplay(fills: seq<UpbitFill>, seen: set<string>)
    ensures forall f :: f in ByTradeTime(NewFills(fills, seen, false)) ==> f.fillId !in seen && f in fills
  {
    NewFillsSpec(fills, seen);
    forall f | f in ByTradeTime(NewFills(fills, seen, false)) ensures f.fillId !in seen && f in fills {
      assert f in multiset(ByTradeTime(NewFills(fills, seen, false)));
    }
  }

  /** Without an explicit date, the fills to process are exactly the fetched fills with an unseen id, in fetch order. */
  lemma {:induction false} NewFillsSpec(fills: seq<UpbitFill>, seen: set<string>)
    ensures forall f :: f in NewFills(fills, seen, false) <==> f in fills && f.fillId !in seen
  {
    if fills != [] {
      NewFillsSpec(fills[1..], seen);
      assert fills == [fills[0]] + fills[1..];
    }
  }

  /** Every fetched fill's id is in the seen-set a run hands on, before it is cut to capacity. */
  lemma AllIdsRecorded(oldIds: seq<string>, fills: seq<UpbitFill>)
    ensures var order := ByTradeTime(NewFills(fills, Elems(oldIds), false));
      forall f :: f in fills ==> f.fillId in Elems(oldIds + IdsOf(order))
  {
    var order := ByTradeTime(NewFills(fills, Elems(oldIds), false));
    var all := oldIds + IdsOf(order);
    NewFillsSpec(fills, Elems(oldIds));
    forall f | f in fills ensures f.fillId in Elems(all) {
      if f.fillId !in Elems(oldIds) {
        assert f in multiset(NewFills(fills, Elems(oldIds), false));
        assert f in multiset(order);
        var k :| 0 <= k < |order| && order[k] == f;
        assert all[|oldIds| + k] == f.fillId;
      } else {
        var k :| 0 <= k < |oldIds| && oldIds[k] == f.fillId;
        assert all[k] == f.fillId;
      }
    }
  }

  /**
   * A second run over the same fills, after a first run whose ids fitted in
   * the stored seen-set, processes nothing.
   */
  lemma RerunProcessesNothing(oldIds: seq<string>, fills: seq<UpbitFill>)
    requires var order := ByTradeTime(NewFills(fills, Elems(oldIds), false));
      |Elems(oldIds + IdsOf(order))| <= SeenCapacity
    ensures var order := ByTradeTime(NewFills(fills, Elems(oldIds), false));
      NewFills(fills, Elems(StoredIds(oldIds + IdsOf(order))), false) == []
  {
    var order := ByTradeTime(NewFills(fills, Elems(oldIds), false));
    var all := oldIds + IdsOf(order);
    var stored := Elems(StoredIds(all));
    var rest := NewFills(fills, stored, false);
    assert rest != [] ==> rest[0] in rest;
    StoredIdsSpec(all);
    AllIdsRecorded(oldIds, fills);
    NewFillsSpec(fills, stored);
  }
}

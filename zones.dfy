/**
 * Which ledger cells a fill writes (main.py:619-622, 640-653 for a brokerage
 * fill; main.py:665-719 for an Upbit fill). A decision is a list of zone
 * writes; each puts the fill price in a zone's price column and a quantity in
 * the column right of it, on the fill's date row. Prices, quantities and
 * amounts are exact reals.
 */
module Zones {
  import opened Wrappers
  import opened Upbit

  /** One zone write: `price` into column `priceCol` and `qty` into column `priceCol + 1`. */
  datatype ZoneWrite = ZoneWrite(priceCol: int, price: real, qty: real)

  /** One cell write of the date row. */
  datatype CellWrite = CellWrite(col: int, value: real)

  /** The cell writes of a decision, in the order the source issues them. */
  function CellWrites(zs: seq<ZoneWrite>): (cs: seq<CellWrite>)
    ensures |cs| == 2 * |zs|
    ensures forall i :: 0 <= i < |zs| ==>
      cs[2 * i] == CellWrite(zs[i].priceCol, zs[i].price) && cs[2 * i + 1] == CellWrite(zs[i].priceCol + 1, zs[i].qty)
  {
    if zs == [] then []
    else [CellWrite(zs[0].priceCol, zs[0].price), CellWrite(zs[0].priceCol + 1, zs[0].qty)] + CellWrites(zs[1..])
  }

  /** The quantity a decision books in total. */
  function QtyBooked(zs: seq<ZoneWrite>): real
  {
    if zs == [] then 0.0 else zs[0].qty + QtyBooked(zs[1..])
  }

  /** Price at or below the sheet's average goes to the LOC-average zone, anything above to the LOC-high zone. */
  function PriceColumn(price: real, avgPrice: real, locAvgCol: int, locHighCol: int): int
  {
    if price <= avgPrice then locAvgCol else locHighCol
  }

  /** Trade side of a brokerage buy ("매수"). */
  const BuySide := "매수"

  /** A brokerage fill: only buys with a non-negative quantity are booked, in the zone `PriceColumn` picks. */
  function BrokerageDecision(side: string, price: real, qty: real, avgPrice: real, locAvgCol: int, locHighCol: int)
    : Option<seq<ZoneWrite>>
  {
    if side != BuySide then None
    else if qty < 0.0 then None
    else Some([ZoneWrite(PriceColumn(price, avgPrice, locAvgCol, locHighCol), price, qty)])
  }

  /** How an Upbit fill is booked. */
  datatype UpbitMode = Dual | Single | Skip

  /** `fill.amount / half_round_usd`, 0 when the half-round budget (cell B3) is not positive. */
  function RatioHalf(amount: real, b3: real): real { if b3 > 0.0 then amount / b3 else 0.0 }

  /** `fill.amount / (half_round_usd * 2)`, 0 when the budget is not positive. */
  function RatioFull(amount: real, b3: real): real { if b3 > 0.0 then amount / (b3 * 2.0) else 0.0 }

  predicate InBand(ratio: real) { 0.8 <= ratio <= 1.2 }

  /** The full-round band is tried first, then the half-round band. */
  function ModeOf(amount: real, b3: real): UpbitMode
  {
    if InBand(RatioFull(amount, b3)) then Dual
    else if InBand(RatioHalf(amount, b3)) then Single
    else Skip
  }

  /**
   * An Upbit fill: asks are ignored; a full-round amount books the price and
   * half the quantity in both zones; a half-round amount books the full
   * quantity in the zone `PriceColumn` picks; any other amount is skipped.
   */
  function UpbitDecision(fill: UpbitFill, b3: real, avgPrice: real, locAvgCol: int, locHighCol: int)
    : Option<seq<ZoneWrite>>
  {
    if fill.side != BidSide then None
    else
      match ModeOf(fill.amount, b3)
      case Dual => Some([ZoneWrite(locAvgCol, fill.price, fill.qty / 2.0), ZoneWrite(locHighCol, fill.price, fill.qty / 2.0)])
      case Single => Some([ZoneWrite(PriceColumn(fill.price, avgPrice, locAvgCol, locHighCol), fill.price, fill.qty)])
      case Skip => None
  }

  // ---------------------------------------------------------------------
  // Properties

  /** The zone rule: the LOC-average column exactly when the price is at most the average (the columns being distinct). */
  lemma PriceColumnRule(price: real, avgPrice: real, locAvgCol: int, locHighCol: int)
    requires locAvgCol != locHighCol
    ensures PriceColumn(price, avgPrice, locAvgCol, locHighCol) == locAvgCol <==> price <= avgPrice
    ensures PriceColumn(price, avgPrice, locAvgCol, locHighCol) == locHighCol <==> price > avgPrice
  {
  }

  /** Scaling by a positive divisor: `x / k` is in the band exactly when `x` lies between 0.8 and 1.2 times `k`. */
  lemma ScaledBand(x: real, k: real)
    requires k > 0.0
    ensures InBand(x / k) <==> 0.8 * k <= x <= 1.2 * k
  {
    var q := x / k;
    assert q * k == x;
    assert (q - 0.8) * k == x - 0.8 * k;
    assert (1.2 - q) * k == 1.2 * k - x;
    assert q >= 0.8 <==> (q - 0.8) * k >= 0.0;
    assert q <= 1.2 <==> (1.2 - q) * k >= 0.0;
  }

  /** Each ratio band restated on the amount, for a positive budget. */
  lemma RatioBands(amount: real, b3: real)
    requires b3 > 0.0
    ensures InBand(RatioFull(amount, b3)) <==> 1.6 * b3 <= amount <= 2.4 * b3
    ensures InBand(RatioHalf(amount, b3)) <==> 0.8 * b3 <= amount <= 1.2 * b3
  {
    ScaledBand(amount, b3 * 2.0);
    ScaledBand(amount, b3);
  }

  /** With a positive budget the two bands never overlap, so the order they are tried in does not matter. */
  lemma BandsDisjoint(amount: real, b3: real)
    requires b3 > 0.0
    ensures !(InBand(RatioFull(amount, b3)) && InBand(RatioHalf(amount, b3)))
  {
    RatioBands(amount, b3);
  }

  /** The modes restated on the amount: `Dual` is an amount of 1.6 to 2.4 budgets, `Single` one of 0.8 to 1.2, and a budget that is not positive skips. */
  lemma ModeByAmount(amount: real, b3: real)
    ensures ModeOf(amount, b3) == Dual <==> b3 > 0.0 && 1.6 * b3 <= amount <= 2.4 * b3
    ensures ModeOf(amount, b3) == Single <==> b3 > 0.0 && 0.8 * b3 <= amount <= 1.2 * b3
    ensures b3 <= 0.0 ==> ModeOf(amount, b3) == Skip
  {
    if b3 > 0.0 {
      RatioBands(amount, b3);
    }
  }

  /**
   * Every booked write carries the fill price into one of the two LOC columns,
   * and the quantities booked add up to the fill quantity.
   */
  lemma BrokerageBooksFill(side: string, price: real, qty: real, avgPrice: real, locAvgCol: int, locHighCol: int)
    ensures var d := BrokerageDecision(side, price, qty, avgPrice, locAvgCol, locHighCol);
      && (d.Some? <==> side == BuySide && qty >= 0.0)
      && (d.Some? ==> |d.value| == 1 && QtyBooked(d.value) == qty
                      && d.value[0].price == price
                      && d.value[0].priceCol == (if price <= avgPrice then locAvgCol else locHighCol))
  {
    var d := BrokerageDecision(side, price, qty, avgPrice, locAvgCol, locHighCol);
    if d.Some? {
      assert QtyBooked(d.value[1..]) == 0.0;
    }
  }

  /**
   * An Upbit bid is booked exactly when its amount is in a band; the writes
   * carry its price into LOC columns and book its whole quantity, split over
   * both zones in dual mode.
   */
  lemma UpbitBooksFill(fill: UpbitFill, b3: real, avgPrice: real, locAvgCol: int, locHighCol: int)
    ensures var d := UpbitDecision(fill, b3, avgPrice, locAvgCol, locHighCol);
      && (d.Some? <==> fill.side == BidSide && ModeOf(fill.amount, b3) != Skip)
      && (d.Some? ==> QtyBooked(d.value) == fill.qty
                      && forall i :: 0 <= i < |d.value| ==>
                           d.value[i].price == fill.price && d.value[i].priceCol in {locAvgCol, locHighCol})
      && (d.Some? && ModeOf(fill.amount, b3) == Dual ==>
            |d.value| == 2 && d.value[0].priceCol == locAvgCol && d.value[1].priceCol == locHighCol
            && d.value[0].qty == d.value[1].qty)
  {
    var d := UpbitDecision(fill, b3, avgPrice, locAvgCol, locHighCol);
    if d.Some? {
      var zs := d.value;
      if ModeOf(fill.amount, b3) == Dual {
        assert zs[1..][1..] == [];
        assert QtyBooked(zs[1..]) == fill.qty / 2.0 + QtyBooked(zs[1..][1..]);
      } else {
        assert zs[1..] == [];
      }
    }
  }

  /** A half-round Upbit bid goes where a brokerage buy at the same price would. */
  lemma SingleModeMatchesBrokerage(fill: UpbitFill, b3: real, avgPrice: real, locAvgCol: int, locHighCol: int)
    requires fill.side == BidSide && ModeOf(fill.amount, b3) == Single && fill.qty >= 0.0
    ensures UpbitDecision(fill, b3, avgPrice, locAvgCol, locHighCol)
         == BrokerageDecision(BuySide, fill.price, fill.qty, avgPrice, locAvgCol, locHighCol)
  {
  }

  /** The worked examples for a budget of 100: amount 180 is dual, 90 single, 50 skipped. */
  lemma BandExamples()
    ensures ModeOf(180.0, 100.0) == Dual
    ensures ModeOf(90.0, 100.0) == Single
    ensures ModeOf(50.0, 100.0) == Skip
  {
    ModeByAmount(180.0, 100.0);
    ModeByAmount(90.0, 100.0);
    ModeByAmount(50.0, 100.0);
  }
}

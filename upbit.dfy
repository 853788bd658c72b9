/**
 * The per-order body of `fetch_upbit_fills_for_date` (main.py:355-427): which
 * closed Upbit orders become fills, and the amount, price and id a fill gets.
 * The order record is taken as already decoded: timestamps come as an instant
 * and the local calendar date it falls on, numeric fields as exact reals
 * (absent or empty fields as 0), absent text fields as "".
 */
module Upbit {
  import opened Wrappers
  import opened Text
  import opened Dates

  /** A timestamp converted to the configured time zone: a point in time, and its local date. */
  datatype Stamp = Stamp(instant: int, date: Date)

  /** One row of the closed-orders listing. */
  datatype RawOrder = RawOrder(
    doneAt: Option<Stamp>,
    createdAt: Option<Stamp>,
    market: string,
    side: string,
    ordType: string,
    executedVolume: real,
    executedFunds: real,
    price: real,
    uuid: string,
    /** The time, volume and price of the fallback id, as text: `"<iso time>:<qty>:<price>"`. */
    fallbackTail: string)

  /** A fill handed on to the ledger. */
  datatype UpbitFill = UpbitFill(fillId: string, market: string, tradeTime: Stamp, side: string,
                                 price: real, qty: real, amount: real)

  /** Why an order was passed over, or the fill it became. */
  datatype RowOutcome = NoStamp | SkipDate | SkipMarket | SkipSide | SkipQty | SkipAmount | Forward(fill: UpbitFill)

  /** The market and asset filters of the sync configuration. */
  datatype MarketFilter = MarketFilter(market: string, asset: string)

  /** The part of `s` after its last '-', all of `s` when it has none. */
  function AfterLastDash(s: string): (r: string)
    ensures |r| <= |s| && r == s[|s| - |r|..]
    ensures forall i :: 0 <= i < |r| ==> r[i] != '-'
    ensures |r| < |s| ==> s[|s| - |r| - 1] == '-'
  {
    if s == [] then []
    else if s[|s| - 1] == '-' then []
    else AfterLastDash(s[..|s| - 1]) + [s[|s| - 1]]
  }

  /** `market.split("-")[-1].upper()`, or `market.upper()` when there is no '-'. */
  function BaseAsset(market: string): string
  {
    Upper(AfterLastDash(market))
  }

  /** Only BTC is handled, whatever the configuration says. */
  const HandledAsset := "BTC"

  /** The configured market filter lets a BTC order through. */
  predicate MarketAllowed(market: string, filter: MarketFilter)
  {
    filter.market == "" || market == filter.market
    || (filter.asset != "" && BaseAsset(market) == Upper(filter.asset))
  }

  /** Market-price buys (`ord_type == "price"`) carry their total spend in the price field. */
  const MarketBuy := "price"

  /** The amount spent: the price field of a market-price buy, else the executed funds, else price times volume. */
  function DerivedAmount(o: RawOrder): real
  {
    if o.ordType == MarketBuy && o.price > 0.0 then o.price
    else if o.executedFunds > 0.0 then o.executedFunds
    else if o.price > 0.0 then o.price * o.executedVolume
    else 0.0
  }

  /** The unit price: amount over volume for a market-price buy or when the price field is empty, else the price field. */
  function DerivedPrice(o: RawOrder, amount: real): real
    requires o.executedVolume > 0.0
  {
    if o.ordType == MarketBuy then amount / o.executedVolume
    else if o.price > 0.0 then o.price
    else amount / o.executedVolume
  }

  /** The order's uuid, or `"<market>:<iso time>:<qty>:<price>"` when it has none. */
  function FillId(o: RawOrder): string
  {
    if o.uuid != "" then o.uuid else o.market + ":" + o.fallbackTail
  }

  /** The tests of the loop body, in the order the source makes them. */
  function ClassifyOrder(o: RawOrder, target: Date, filter: MarketFilter): RowOutcome
  {
    if o.doneAt.None? && o.createdAt.None? then NoStamp
    else if !((o.doneAt.Some? && o.doneAt.value.date == target) || (o.createdAt.Some? && o.createdAt.value.date == target)) then SkipDate
    else if BaseAsset(o.market) != HandledAsset then SkipMarket
    else if !MarketAllowed(o.market, filter) then SkipMarket
    else if o.side != BidSide then SkipSide
    else if o.executedVolume <= 0.0 then SkipQty
    else
      var amount := DerivedAmount(o);
      if amount <= 0.0 then SkipAmount
      else
        var trade := if o.doneAt.Some? then o.doneAt.value else o.createdAt.value;
        Forward(UpbitFill(FillId(o), o.market, trade, o.side, DerivedPrice(o, amount), o.executedVolume, amount))
  }

  /** Side of a buy order. */
  const BidSide := "bid"

  /** The per-order decision for one sync date and filter. */
  function Classifier(target: Date, filter: MarketFilter): RawOrder -> RowOutcome
  {
    o => ClassifyOrder(o, target, filter)
  }

  /** The fills `classify` forwards from `rows`, in listing order. */
  function Forwarded(rows: seq<RawOrder>, classify: RawOrder -> RowOutcome): seq<UpbitFill>
  {
    if rows == [] then []
    else
      var rest := Forwarded(rows[1..], classify);
      match classify(rows[0])
      case Forward(f) => [f] + rest
      case _ => rest
  }

  /** The fills of one listing, in listing order. */
  function FillsOf(rows: seq<RawOrder>, target: Date, filter: MarketFilter): seq<UpbitFill>
  {
    Forwarded(rows, Classifier(target, filter))
  }

  // ---------------------------------------------------------------------
  // Properties

  /** A fill's trade time is its completion stamp when it has one, else its creation stamp. */
  predicate TradeStampOf(o: RawOrder, s: Stamp)
  {
    if o.doneAt.Some? then s == o.doneAt.value else o.createdAt == Some(s)
  }

  /** Everything an order must satisfy to be forwarded. */
  predicate Forwardable(o: RawOrder, target: Date, filter: MarketFilter)
  {
    && ((o.doneAt.Some? && o.doneAt.value.date == target) || (o.createdAt.Some? && o.createdAt.value.date == target))
    && BaseAsset(o.market) == HandledAsset
    && MarketAllowed(o.market, filter)
    && o.side == BidSide
    && o.executedVolume > 0.0
    && DerivedAmount(o) > 0.0
  }

  /**
   * An order is forwarded exactly when it is `Forwardable`; the fill then
   * carries the order's volume, a positive amount and price, the target date
   * on one of its stamps, and the trade time the source picks.
   */
  lemma ForwardedFill(o: RawOrder, target: Date, filter: MarketFilter)
    ensures ClassifyOrder(o, target, filter).Forward? <==> Forwardable(o, target, filter)
    ensures ClassifyOrder(o, target, filter).Forward? ==>
      var f := ClassifyOrder(o, target, filter).fill;
      && f.side == BidSide && f.qty == o.executedVolume && f.qty > 0.0
      && f.amount > 0.0 && f.price > 0.0
      && BaseAsset(f.market) == HandledAsset
      && TradeStampOf(o, f.tradeTime)
      && f.fillId == (if o.uuid != "" then o.uuid else o.market + ":" + o.fallbackTail)
  {
    if ClassifyOrder(o, target, filter).Forward? {
      var f := ClassifyOrder(o, target, filter).fill;
      var a := DerivedAmount(o);
      assert a / o.executedVolume > 0.0;
    }
  }

  /**
   * How a fill's amount and price follow from the order: a market-price buy
   * spends its price field and pays amount / volume per unit; otherwise the
   * executed funds are spent (price times volume when there are none), and the
   * unit price is the price field (amount / volume when it is empty).
   */
  lemma FillAmountAndPrice(o: RawOrder, target: Date, filter: MarketFilter)
    requires ClassifyOrder(o, target, filter).Forward?
    ensures var f := ClassifyOrder(o, target, filter).fill;
      && (o.ordType == MarketBuy && o.price > 0.0 ==> f.amount == o.price && f.price * f.qty == f.amount)
      && (o.ordType != MarketBuy && o.executedFunds > 0.0 ==> f.amount == o.executedFunds)
      && (o.ordType != MarketBuy && o.executedFunds <= 0.0 ==> f.amount == o.price * o.executedVolume && f.price == o.price)
      && (o.ordType != MarketBuy && o.price > 0.0 ==> f.price == o.price)
      && (o.price <= 0.0 ==> f.amount == o.executedFunds && f.price * f.qty == f.amount)
  {
    var f := ClassifyOrder(o, target, filter).fill;
    var q := o.executedVolume;
    assert f.qty == q && q > 0.0;
    if o.ordType == MarketBuy || o.price <= 0.0 {
      assert f.price == f.amount / q;
      assert f.price * q == f.amount;
    }
  }

  /** Every forwarded fill comes from an order of the listing, and every order forwarded yields its fill. */
  lemma {:induction false} ForwardedSpec(rows: seq<RawOrder>, classify: RawOrder -> RowOutcome)
    ensures |Forwarded(rows, classify)| <= |rows|
    ensures forall f :: f in Forwarded(rows, classify) ==> exists o :: o in rows && classify(o) == Forward(f)
    ensures forall o :: o in rows && classify(o).Forward? ==> classify(o).fill in Forwarded(rows, classify)
  {
    if rows != [] {
      ForwardedSpec(rows[1..], classify);
      forall f | f in Forwarded(rows, classify) ensures exists o :: o in rows && classify(o) == Forward(f) {
        if !(classify(rows[0]).Forward? && f == classify(rows[0]).fill) {
          var o :| o in rows[1..] && classify(o) == Forward(f);
          assert o in rows;
        }
      }
      forall o | o in rows && classify(o).Forward? ensures classify(o).fill in Forwarded(rows, classify) {
        if o != rows[0] {
          assert o in rows[1..];
        }
      }
    }
  }

  /** The fills keep the listing's order: the fills of two listings joined are the fills of each, joined. */
  lemma {:induction false} ForwardedConcat(a: seq<RawOrder>, b: seq<RawOrder>, classify: RawOrder -> RowOutcome)
    ensures Forwarded(a + b, classify) == Forwarded(a, classify) + Forwarded(b, classify)
  {
    if a != [] {
      assert (a + b)[0] == a[0];
      assert (a + b)[1..] == a[1..] + b;
      ForwardedConcat(a[1..], b, classify);
    } else {
      assert a + b == b;
    }
  }

  /**
   * The fills of a listing are exactly those of its forwardable orders: every
   * fill comes from a forwardable order, and every forwardable order yields
   * its fill.
   */
  lemma FillsOfSpec(rows: seq<RawOrder>, target: Date, filter: MarketFilter)
    ensures |FillsOf(rows, target, filter)| <= |rows|
    ensures forall f :: f in FillsOf(rows, target, filter) ==>
      exists o :: o in rows && Forwardable(o, target, filter) && ClassifyOrder(o, target, filter) == Forward(f)
    ensures forall o :: o in rows && Forwardable(o, target, filter) ==>
      exists f :: ClassifyOrder(o, target, filter) == Forward(f) && f in FillsOf(rows, target, filter)
  {
    var c := Classifier(target, filter);
    ForwardedSpec(rows, c);
    forall f | f in FillsOf(rows, target, filter)
      ensures exists o :: o in rows && Forwardable(o, target, filter) && ClassifyOrder(o, target, filter) == Forward(f)
    {
      var o :| o in rows && c(o) == Forward(f);
      ForwardedFill(o, target, filter);
    }
    forall o | o in rows && Forwardable(o, target, filter)
      ensures exists f :: ClassifyOrder(o, target, filter) == Forward(f) && f in FillsOf(rows, target, filter)
    {
      ForwardedFill(o, target, filter);
      assert c(o).fill in Forwarded(rows, c);
    }
  }

  /** The fills of two listings joined are the fills of each, joined. */
  lemma FillsOfConcat(a: seq<RawOrder>, b: seq<RawOrder>, target: Date, filter: MarketFilter)
    ensures FillsOf(a + b, target, filter) == FillsOf(a, target, filter) + FillsOf(b, target, filter)
  {
    ForwardedConcat(a, b, Classifier(target, filter));
  }

  /** The loop of `fetch_upbit_fills_for_date` over one listing, appending each forwarded fill. */
  method CollectFills(rows: seq<RawOrder>, target: Date, filter: MarketFilter) returns (out: seq<UpbitFill>)
    ensures out == FillsOf(rows, target, filter)
  {
    out := [];
    var i := 0;
    while i < |rows|
      invariant 0 <= i <= |rows|
      invariant out + FillsOf(rows[i..], target, filter) == FillsOf(rows, target, filter)
    {
      assert rows[i..][1..] == rows[i + 1..];
      var outcome := ClassifyOrder(rows[i], target, filter);
      if outcome.Forward? {
        out := out + [outcome.fill];
      }
      i := i + 1;
    }
    assert rows[i..] == [];
  }
}

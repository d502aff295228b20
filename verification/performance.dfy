/**
 * The execution performance of one instruction: the snapshots of its child
 * orders, the counters derived from them, and the policies the scheduler
 * asks it (may it still place passive orders, should it cross the spread,
 * how much must it cancel and which orders).
 */
module Performance {
  import opened Wrappers
  import opened Status
  import opened AcctKeys
  import opened Orders
  import opened Depth
  import opened Security
  import Seqs

  datatype Perf = Perf(
    algoOrderId: nat,
    symbol: string,
    qtyTarget: int,
    isBuy: bool,
    qty: int,
    qtyFilled: int,
    qtyCanceled: int,
    qtyRejected: int,
    orderCntContinueRejected: int,
    orderCnt: int,
    orderCntFilled: int,
    orderCntCanceled: int,
    orderCntRejected: int,
    amt: real,
    amtFilled: real,
    avgPrice: real,
    qtyMaker: int,
    qtyMakerFilled: int,
    orderCntMakerCanceled: int,
    orders: map<nat, Order>,
    makerFilled: map<nat, int>,
    timeProgress: real,
    filledRate: real,
    makerRate: real,
    makerFilledRate: real,
    cancelRate: real,
    arrivePrice: real,
    lastFilledTime: int,
    algoStatus: int,
    errMsg: string)

  /** A fresh record for an instruction: nothing placed, status Creating. */
  function NewPerf(algoOrderId: nat, symbol: string, qtyTarget: int, tradeSide: int): (p: Perf)
    ensures p.isBuy <==> IsBuy(tradeSide)
    ensures p.orders == map[] && p.makerFilled == map[] && p.algoStatus == Creating
    ensures p.qty == 0 && p.qtyFilled == 0 && p.orderCnt == 0 && p.orderCntContinueRejected == 0
  {
    Perf(algoOrderId, symbol, qtyTarget, IsBuy(tradeSide), 0, 0, 0, 0, 0, 0, 0, 0, 0, 0.0, 0.0, 0.0,
         0, 0, 0, map[], map[], 0.0, 0.0, 0.0, 0.0, 0.0, 0.0, 0, Creating, "")
  }

  /**
   * A request is passive (a maker order) when it does not cross the book: a
   * buy below the best ask, or a sell above a positive best bid.
   */
  predicate IsMakerRequest(o: Order, md: MarketDepth)
  {
    (o.IsBuyOrder() && o.orderPrice < Ask1(md)) || (!o.IsBuyOrder() && o.orderPrice > Bid1(md) && Bid1(md) > 0.0)
  }

  /** Records a request: the order is stored and counted; passive ones are tracked as makers. */
  function OnOrderRequest(p: Perf, o: Order, md: MarketDepth): (r: Perf)
    ensures r.orders == p.orders[o.orderId := o]
    ensures r.orderCnt == p.orderCnt + 1 && r.qty == p.qty + o.orderQty
    ensures r.amt == p.amt + o.orderQty as real * o.orderPrice
    ensures IsMakerRequest(o, md) ==> r.qtyMaker == p.qtyMaker + o.orderQty && r.makerFilled == p.makerFilled[o.orderId := 0]
    ensures !IsMakerRequest(o, md) ==> r.qtyMaker == p.qtyMaker && r.makerFilled == p.makerFilled
    ensures r.qtyFilled == p.qtyFilled && r.orderCntFilled == p.orderCntFilled && r.qtyCanceled == p.qtyCanceled
  {
    var q := p.(orders := p.orders[o.orderId := o], orderCnt := p.orderCnt + 1, qty := p.qty + o.orderQty,
                amt := p.amt + o.orderQty as real * o.orderPrice);
    if IsMakerRequest(o, md) then q.(qtyMaker := p.qtyMaker + o.orderQty, makerFilled := p.makerFilled[o.orderId := 0])
    else q
  }

  /** The stand-in for an order never seen before: nothing filled, status REPORTING. */
  function Placeholder(o: Order): (r: Order)
    ensures r.status == Reporting && r.filledQty == 0 && r.filledAmt == 0.0 && r.orderId == 0
    ensures IsNewerThan(o, r)
  {
    DefaultOrder().(acctType := o.acctType, acct := o.acct, symbol := o.symbol, tradeSide := -1, status := Reporting)
  }

  /** The snapshot an update is compared with. */
  function PreviousOf(p: Perf, o: Order): Order
  {
    if o.orderId in p.orders then p.orders[o.orderId] else Placeholder(o)
  }

  /** The derived rates, in percent of qty + qtyCanceled (maker fill rate: of qtyMaker). */
  function WithRates(p: Perf): (r: Perf)
    ensures p.qty + p.qtyCanceled > 0 ==>
              r.filledRate == p.qtyFilled as real * 100.0 / (p.qty + p.qtyCanceled) as real
              && r.cancelRate == p.qtyCanceled as real * 100.0 / (p.qty + p.qtyCanceled) as real
              && r.makerRate == p.qtyMaker as real * 100.0 / (p.qty + p.qtyCanceled) as real
    ensures p.qty + p.qtyCanceled <= 0 ==> r.filledRate == 0.0 && r.cancelRate == 0.0 && r.makerRate == 0.0
    ensures p.qtyMaker > 0 ==> r.makerFilledRate == p.qtyMakerFilled as real * 100.0 / p.qtyMaker as real
    ensures p.qtyMaker <= 0 ==> r.makerFilledRate == 0.0
    ensures r == p.(filledRate := r.filledRate, cancelRate := r.cancelRate, makerRate := r.makerRate,
                    makerFilledRate := r.makerFilledRate)
  {
    var total := (p.qty + p.qtyCanceled) as real;
    p.(filledRate := if p.qty + p.qtyCanceled > 0 then p.qtyFilled as real * 100.0 / total else 0.0,
       cancelRate := if p.qty + p.qtyCanceled > 0 then p.qtyCanceled as real * 100.0 / total else 0.0,
       makerRate := if p.qty + p.qtyCanceled > 0 then p.qtyMaker as real * 100.0 / total else 0.0,
       makerFilledRate := if p.qtyMaker > 0 then p.qtyMakerFilled as real * 100.0 / p.qtyMaker as real else 0.0)
  }

  /** The fill-side effect of an accepted update. */
  function ApplyFill(p: Perf, o: Order, prev: Order): (r: Perf)
    ensures r.qtyFilled == p.qtyFilled + (o.filledQty - prev.filledQty)
    ensures r.qtyMakerFilled == (if o.orderId in p.makerFilled then p.qtyMakerFilled + (o.filledQty - prev.filledQty)
                                 else p.qtyMakerFilled)
    ensures r.orders == p.orders && r.orderCnt == p.orderCnt && r.qtyMaker == p.qtyMaker && r.qty == p.qty
    ensures r.orderCntFilled == p.orderCntFilled && r.orderCntCanceled == p.orderCntCanceled && r.qtyCanceled == p.qtyCanceled
    ensures r.orderCntRejected == p.orderCntRejected && r.orderCntContinueRejected == p.orderCntContinueRejected
  {
    var filled := p.qtyFilled + (o.filledQty - prev.filledQty);
    var amtFilled := p.amtFilled + (o.filledAmt - prev.filledAmt);
    var q := p.(qtyFilled := filled, amtFilled := amtFilled,
                avgPrice := if filled > 0 then amtFilled / filled as real else 0.0,
                lastFilledTime := if o.filledQty - prev.filledQty > 0 then o.updTime else p.lastFilledTime);
    if o.orderId in p.makerFilled then
      q.(makerFilled := p.makerFilled[o.orderId := o.filledQty], qtyMakerFilled := p.qtyMakerFilled + (o.filledQty - prev.filledQty))
    else q
  }

  /** The terminal-state accounting of an accepted final update. */
  function ApplyTerminal(p: Perf, o: Order): (r: Perf)
    ensures !o.IsFinal() ==> r == p
    ensures r.orders == p.orders && r.orderCnt == p.orderCnt && r.qtyMaker == p.qtyMaker
    ensures r.qtyFilled == p.qtyFilled && r.qtyMakerFilled == p.qtyMakerFilled
    ensures o.IsFinal() ==>
              (o.orderQty == o.filledQty ==> r.orderCntFilled == p.orderCntFilled + 1 && r.qtyCanceled == p.qtyCanceled)
              && (o.orderQty != o.filledQty && o.cancelQty > 0 ==>
                    r.orderCntCanceled == p.orderCntCanceled + 1 && r.qtyCanceled == p.qtyCanceled + o.cancelQty)
              && (o.status in {PartialCancel, Canceled, Rejected} ==> r.qty == p.qty - (o.orderQty - o.filledQty))
              && (o.status == Filled ==> r.qty == p.qty)
              && (o.status == Rejected ==> r.orderCntRejected == p.orderCntRejected + 1
                                           && r.orderCntContinueRejected == p.orderCntContinueRejected + 1)
              && (o.status != Rejected ==> r.orderCntContinueRejected == 0 && r.orderCntRejected == p.orderCntRejected)
  {
    if !o.IsFinal() then p
    else
      var a :=
        if o.orderQty == o.filledQty then p.(orderCntFilled := p.orderCntFilled + 1)
        else if o.cancelQty > 0 then
          p.(orderCntCanceled := p.orderCntCanceled + 1, qtyCanceled := p.qtyCanceled + o.cancelQty,
             orderCntMakerCanceled := if o.orderId in p.makerFilled then p.orderCntMakerCanceled + 1 else p.orderCntMakerCanceled)
        else p;
      var b :=
        if o.status in {PartialCancel, Canceled, Rejected} then
          a.(qty := a.qty - (o.orderQty - o.filledQty), amt := a.amt - (o.orderQty - o.filledQty) as real * o.orderPrice)
        else a;
      if o.status == Rejected then
        b.(orderCntRejected := b.orderCntRejected + 1, qtyRejected := b.qtyRejected + o.orderQty,
           orderCntContinueRejected := b.orderCntContinueRejected + 1)
      else b.(orderCntContinueRejected := 0)
  }

  /**
   * An order update. It is applied only when it is newer than the stored
   * snapshot (or than a REPORTING stand-in for an unknown order); the time
   * progress comes from the clock and is an input.
   */
  function OnOrderRecUpdate(p: Perf, o: Order, progress: real): (r: Perf)
    ensures !IsNewerThan(o, PreviousOf(p, o)) ==> r == p
    ensures IsNewerThan(o, PreviousOf(p, o)) ==>
              var prev := PreviousOf(p, o);
              && r.orders == p.orders[o.orderId := o]
              && r.qtyFilled == p.qtyFilled + (o.filledQty - prev.filledQty)
              && r.qtyMakerFilled == (if o.orderId in p.makerFilled then p.qtyMakerFilled + (o.filledQty - prev.filledQty)
                                      else p.qtyMakerFilled)
              && r.timeProgress == progress
              && r.orderCnt == p.orderCnt && r.qtyMaker == p.qtyMaker
    ensures IsNewerThan(o, PreviousOf(p, o)) && !o.IsFinal() ==>
              r.orderCntFilled == p.orderCntFilled && r.orderCntCanceled == p.orderCntCanceled
              && r.qtyCanceled == p.qtyCanceled && r.qty == p.qty && r.orderCntRejected == p.orderCntRejected
              && r.orderCntContinueRejected == p.orderCntContinueRejected
    ensures IsNewerThan(o, PreviousOf(p, o)) && o.IsFinal() ==>
              (o.orderQty == o.filledQty ==> r.orderCntFilled == p.orderCntFilled + 1 && r.qtyCanceled == p.qtyCanceled)
              && (o.orderQty != o.filledQty && o.cancelQty > 0 ==>
                    r.orderCntCanceled == p.orderCntCanceled + 1 && r.qtyCanceled == p.qtyCanceled + o.cancelQty)
              && (o.status in {PartialCancel, Canceled, Rejected} ==> r.qty == p.qty - (o.orderQty - o.filledQty))
              && (o.status == Filled ==> r.qty == p.qty)
              && (o.status == Rejected ==> r.orderCntRejected == p.orderCntRejected + 1
                                           && r.orderCntContinueRejected == p.orderCntContinueRejected + 1)
              && (o.status != Rejected ==> r.orderCntContinueRejected == 0 && r.orderCntRejected == p.orderCntRejected)
  {
    var prev := PreviousOf(p, o);
    if IsNewerThan(o, prev) then
      var a := ApplyFill(p.(orders := p.orders[o.orderId := o]), o, prev);
      WithRates(ApplyTerminal(a, o).(timeProgress := progress))
    else p
  }

  /**
   * Delivering the same update twice has the effect of delivering it once:
   * the second copy is either rejected by the staleness gate or carries no
   * new fill and no terminal transition.
   */
  lemma UpdateIdempotent(p: Perf, o: Order, progress: real)
    ensures OnOrderRecUpdate(OnOrderRecUpdate(p, o, progress), o, progress) == OnOrderRecUpdate(p, o, progress)
  {
    var p1 := OnOrderRecUpdate(p, o, progress);
    if IsNewerThan(o, PreviousOf(p, o)) {
      assert PreviousOf(p1, o) == o;
      if IsNewerThan(o, o) {
        assert !o.IsFinal();
        var a := ApplyFill(p1.(orders := p1.orders[o.orderId := o]), o, o);
        assert p1.orders[o.orderId := o] == p1.orders;
        assert a.qtyFilled == p1.qtyFilled && a.amtFilled == p1.amtFilled;
        assert a.makerFilled == p1.makerFilled;
      }
    }
  }

  /** Slippage in basis points against a benchmark; positive means better than the benchmark. */
  function Slippage(isBuy: bool, avg: real, bench: real): (r: real)
    ensures bench <= 0.0 || avg <= 0.0 ==> r == 0.0
    ensures bench > 0.0 && avg > 0.0 && isBuy ==> r == (bench - avg) / bench * 10000.0 && (r > 0.0 <==> avg < bench)
    ensures bench > 0.0 && avg > 0.0 && !isBuy ==> r == (avg - bench) / bench * 10000.0 && (r > 0.0 <==> avg > bench)
  {
    if bench <= 0.0 || avg <= 0.0 then 0.0
    else if isBuy then (bench - avg) / bench * 10000.0
    else (avg - bench) / bench * 10000.0
  }

  /** The same fill measured from the two sides has opposite slippage. */
  lemma SlippageSidesOpposite(avg: real, bench: real)
    ensures Slippage(false, avg, bench) == -Slippage(true, avg, bench)
  {
  }

  predicate IsLowPrice(p: Perf)
  {
    0.0 < p.arrivePrice < 6.0
  }

  /** Drops the stored snapshots; every counter is kept. */
  function Release(p: Perf): (r: Perf)
    ensures r.orders == map[]
    ensures r.(orders := p.orders) == p
  {
    p.(orders := map[])
  }

  /** The cancel rate if every order not filled so far were cancelled, counting the next order. */
  function WorstCancelRate(p: Perf): real
  {
    var e := p.orderCnt - p.orderCntRejected + 1;
    if e > 0 then (e - p.orderCntFilled) as real * 100.0 / e as real else 0.0
  }

  /**
   * Passive orders are allowed unless, after more than ten orders, the
   * worst-case cancel rate is above its threshold while the fill rate is
   * below its threshold (40/60 percent, 50/30 for low-priced stocks).
   */
  function AllowMake(p: Perf): (r: bool)
    ensures p.orderCnt <= 10 ==> r
    ensures !IsLowPrice(p) ==> (!r <==> p.orderCnt > 10 && WorstCancelRate(p) > 40.0 && p.filledRate < 60.0)
    ensures IsLowPrice(p) ==> (!r <==> p.orderCnt > 10 && WorstCancelRate(p) > 50.0 && p.filledRate < 30.0)
  {
    var thrFilled := if IsLowPrice(p) then 30.0 else 60.0;
    var thrCancel := if IsLowPrice(p) then 50.0 else 40.0;
    !(p.orderCnt > 10 && WorstCancelRate(p) > thrCancel && p.filledRate < thrFilled)
  }

  /**
   * Crossing the spread is advised once more than six orders were placed or
   * enough time has passed, while the fill rate is still low.
   */
  function ShouldTake(p: Perf): (r: bool)
    ensures p.filledRate >= 50.0 ==> !r
    ensures !IsLowPrice(p) ==> (r <==> (p.orderCnt > 6 || p.timeProgress > 0.15) && p.filledRate < 50.0)
    ensures IsLowPrice(p) ==> (r <==> (p.orderCnt > 6 || p.timeProgress > 0.2) && p.filledRate < 30.0)
  {
    var thrFilled := if IsLowPrice(p) then 30.0 else 50.0;
    var thrProgress := if IsLowPrice(p) then 0.2 else 0.15;
    (p.orderCnt > 6 || p.timeProgress > thrProgress) && p.filledRate < thrFilled
  }

  /** The pending part of order id. */
  function PendingQty(orders: map<nat, Order>, id: nat): int
    requires id in orders
  {
    orders[id].orderQty - orders[id].filledQty
  }

  /** The pending quantity at and out of the best price: a stub that always answers (0, 0). */
  function QtyPendingAtBestPrice(p: Perf, md: MarketDepth): (r: (int, int))
    ensures r.0 == 0 && r.1 == 0
  {
    (0, 0)
  }

  /**
   * The quantity to cancel when placed quantity exceeds maxCumQty, fitted to
   * the lot. Restricting to orders away from the best price goes through
   * the stub above, so it always yields 0.
   */
  function ShouldCancel(p: Perf, maxCumQty: int, md: MarketDepth, excludeBestPrice: bool, info: SecurityInfo): (r: int)
    ensures p.qty <= maxCumQty ==> r == 0
    ensures excludeBestPrice ==> r == 0
    ensures p.qty > maxCumQty && !excludeBestPrice ==> r == Floor2FitLotSize(info, p.qty - maxCumQty)
    ensures r <= (if p.qty > maxCumQty then p.qty - maxCumQty else 0)
  {
    var target :=
      if p.qty > maxCumQty then
        (var t := p.qty - maxCumQty;
         if excludeBestPrice then (var (_, outOfBest) := QtyPendingAtBestPrice(p, md); if t <= outOfBest then t else outOfBest)
         else t)
      else 0;
    Floor2FitLotSize(info, target)
  }

  /** Whether id names a stored order that is not final. */
  predicate IsPending(orders: map<nat, Order>, id: nat)
  {
    id in orders && !orders[id].IsFinal()
  }

  /** The pending orders in iteration order; iter enumerates the stored ids. */
  function AllPendingOrderIds(p: Perf, iter: seq<nat>): (r: seq<nat>)
    requires Seqs.IsEnumeration(iter, p.orders.Keys)
    ensures Seqs.NoDup(r)
    ensures forall id :: id in r <==> IsPending(p.orders, id)
    ensures (forall id :: id in p.orders ==> p.orders[id].IsFinal()) ==> r == []
  {
    Seqs.Filter(iter, id => IsPending(p.orders, id))
  }

  /** The total pending quantity of the ids satisfying keep. */
  function SumPendingWhere(ids: seq<nat>, orders: map<nat, Order>, keep: Order -> bool): int
    requires forall id :: id in ids ==> id in orders
  {
    if ids == [] then 0
    else (if keep(orders[ids[0]]) then PendingQty(orders, ids[0]) else 0) + SumPendingWhere(ids[1..], orders, keep)
  }

  /** Two disjoint filters that together cover a third split its sum. */
  lemma {:induction false} SumPendingSplit(ids: seq<nat>, orders: map<nat, Order>, a: Order -> bool, b: Order -> bool, c: Order -> bool)
    requires forall id :: id in ids ==> id in orders
    requires forall id :: id in ids ==> (c(orders[id]) <==> a(orders[id]) || b(orders[id])) && !(a(orders[id]) && b(orders[id]))
    ensures SumPendingWhere(ids, orders, a) + SumPendingWhere(ids, orders, b) == SumPendingWhere(ids, orders, c)
  {
    if ids != [] {
      SumPendingSplit(ids[1..], orders, a, b, c);
    }
  }

  /** The ids of s naming non-final orders priced exactly at price, in order. */
  function PendingAtPrice(s: seq<nat>, orders: map<nat, Order>, price: real): (r: seq<nat>)
    requires forall id :: id in s ==> id in orders
    ensures forall id :: id in r <==> id in s && orders[id].orderPrice == price && !orders[id].IsFinal()
  {
    if s == [] then []
    else
      var rest := PendingAtPrice(s[1..], orders, price);
      assert forall id :: id in s <==> id == s[0] || id in s[1..];
      if orders[s[0]].orderPrice == price && !orders[s[0]].IsFinal() then [s[0]] + rest else rest
  }

  /** The pending quantity of non-final orders priced exactly at limitPrice. */
  function QtyAtLimitPrice(p: Perf, iter: seq<nat>, limitPrice: real): (r: int)
    requires Seqs.IsEnumeration(iter, p.orders.Keys)
    ensures r == PendingSum(PendingAtPrice(iter, p.orders, limitPrice), p.orders)
    ensures (forall id :: id in iter ==> !(p.orders[id].orderPrice == limitPrice && !p.orders[id].IsFinal())) ==> r == 0
  {
    var keep := (o: Order) => o.orderPrice == limitPrice && !o.IsFinal();
    SumPendingWhereZero(iter, p.orders, keep);
    SumPendingAtPrice(iter, p.orders, limitPrice);
    SumPendingWhere(iter, p.orders, keep)
  }

  /** Summing the pending quantities of the orders at a price is summing over their ids. */
  lemma {:induction false} SumPendingAtPrice(ids: seq<nat>, orders: map<nat, Order>, price: real)
    requires forall id :: id in ids ==> id in orders
    ensures SumPendingWhere(ids, orders, (o: Order) => o.orderPrice == price && !o.IsFinal())
            == PendingSum(PendingAtPrice(ids, orders, price), orders)
  {
    if ids != [] {
      SumPendingAtPrice(ids[1..], orders, price);
      var rest := PendingAtPrice(ids[1..], orders, price);
      if orders[ids[0]].orderPrice == price && !orders[ids[0]].IsFinal() {
        PendingSumCons([ids[0]] + rest, orders);
        assert ([ids[0]] + rest)[1..] == rest;
      }
    }
  }

  lemma {:induction false} SumPendingWhereZero(ids: seq<nat>, orders: map<nat, Order>, keep: Order -> bool)
    requires forall id :: id in ids ==> id in orders
    ensures (forall id :: id in ids ==> !keep(orders[id])) ==> SumPendingWhere(ids, orders, keep) == 0
  {
    if ids != [] {
      SumPendingWhereZero(ids[1..], orders, keep);
    }
  }

  /** An order of the instruction's side is at or better than the best price (buy: at or above bid 1). */
  predicate AtBest(isBuy: bool, md: MarketDepth, o: Order)
  {
    !o.IsFinal() && (if isBuy then o.orderPrice >= Bid1(md) else o.orderPrice <= Ask1(md))
  }

  /** An order of the instruction's side is behind the best price (buy: below bid 1). */
  predicate OutOfBest(isBuy: bool, md: MarketDepth, o: Order)
  {
    !o.IsFinal() && (if isBuy then o.orderPrice < Bid1(md) else o.orderPrice > Ask1(md))
  }

  /**
   * The pending quantity at the best price, the pending quantity behind it,
   * and the ids of the orders behind it in iteration order.
   */
  function OrderDataXXBestPrice(p: Perf, iter: seq<nat>, md: MarketDepth): (r: (int, int, seq<nat>))
    requires Seqs.IsEnumeration(iter, p.orders.Keys)
    ensures forall id :: id in r.2 <==> id in p.orders && OutOfBest(p.isBuy, md, p.orders[id])
    ensures Seqs.NoDup(r.2)
    ensures r.0 + r.1 == SumPendingWhere(iter, p.orders, (o: Order) => !o.IsFinal())
  {
    var at := (o: Order) => AtBest(p.isBuy, md, o);
    var out := (o: Order) => OutOfBest(p.isBuy, md, o);
    SumPendingSplit(iter, p.orders, at, out, (o: Order) => !o.IsFinal());
    (SumPendingWhere(iter, p.orders, at), SumPendingWhere(iter, p.orders, out),
     Seqs.Filter(iter, id => id in p.orders && OutOfBest(p.isBuy, md, p.orders[id])))
  }

  /** Each entry's price is at most the next one's. */
  predicate SortedByPrice(s: seq<(nat, real)>)
  {
    forall i :: 0 <= i < |s| - 1 ==> s[i].1 <= s[i + 1].1
  }

  /** (id, price) entries sorted by ascending price (a stable insertion sort; ties keep their input order). */
  function SortByPrice(s: seq<(nat, real)>): (r: seq<(nat, real)>)
    ensures multiset(r) == multiset(s)
    ensures SortedByPrice(r)
  {
    if s == [] then []
    else
      assert s == [s[0]] + s[1..];
      InsertByPrice(s[0], SortByPrice(s[1..]))
  }

  function InsertByPrice(e: (nat, real), s: seq<(nat, real)>): (r: seq<(nat, real)>)
    requires SortedByPrice(s)
    ensures multiset(r) == multiset(s) + multiset{e}
    ensures SortedByPrice(r)
    ensures |r| == |s| + 1 && (r[0] == e || (s != [] && r[0] == s[0]))
  {
    if s == [] || e.1 <= s[0].1 then [e] + s
    else
      assert s == [s[0]] + s[1..];
      [s[0]] + InsertByPrice(e, s[1..])
  }

  /** The (id, price) entries of ids. */
  function PricedIds(ids: seq<nat>, orders: map<nat, Order>): (r: seq<(nat, real)>)
    requires forall id :: id in ids ==> id in orders
    ensures |r| == |ids|
    ensures forall i :: 0 <= i < |r| ==> r[i] == (ids[i], orders[ids[i]].orderPrice)
  {
    seq(|ids|, i requires 0 <= i < |ids| => (ids[i], orders[ids[i]].orderPrice))
  }

  function Ids(s: seq<(nat, real)>): (r: seq<nat>)
    ensures |r| == |s|
    ensures forall i :: 0 <= i < |r| ==> r[i] == s[i].0
  {
    seq(|s|, i requires 0 <= i < |s| => s[i].0)
  }

  /** The total pending quantity of ids, summed from the back. */
  function PendingSum(ids: seq<nat>, orders: map<nat, Order>): int
    requires forall id :: id in ids ==> id in orders
  {
    if ids == [] then 0 else PendingSum(ids[..|ids| - 1], orders) + PendingQty(orders, ids[|ids| - 1])
  }

  /** Summing from the back agrees with taking the first id off the front. */
  lemma {:induction false} PendingSumCons(ids: seq<nat>, orders: map<nat, Order>)
    requires ids != [] && forall id :: id in ids ==> id in orders
    ensures PendingSum(ids, orders) == PendingQty(orders, ids[0]) + PendingSum(ids[1..], orders)
    decreases |ids|
  {
    if |ids| > 1 {
      var init := ids[..|ids| - 1];
      assert init[1..] == ids[1..][..|ids[1..]| - 1];
      PendingSumCons(init, orders);
    }
  }

  /**
   * How many ids the cancel scan visits: the longest prefix whose running
   * pending total, started at cum, stays within target; the next id, if
   * any, takes the total past it.
   */
  function ScanLength(s: seq<nat>, orders: map<nat, Order>, target: int, cum: int): (k: nat)
    requires forall id :: id in s ==> id in orders
    ensures k <= |s|
    ensures forall j :: 0 < j <= k ==> cum + PendingSum(s[..j], orders) <= target
    ensures k < |s| ==> cum + PendingSum(s[..k + 1], orders) > target
    decreases |s|
  {
    if s == [] then 0
    else
      var q := PendingQty(orders, s[0]);
      assert forall j :: 0 < j <= |s| ==> PendingSum(s[..j], orders) == q + PendingSum(s[1..][..j - 1], orders) by {
        forall j | 0 < j <= |s| ensures PendingSum(s[..j], orders) == q + PendingSum(s[1..][..j - 1], orders) {
          PendingSumCons(s[..j], orders);
          assert s[..j][1..] == s[1..][..j - 1];
        }
      }
      if cum + q > target then 0
      else
        var k := ScanLength(s[1..], orders, target, cum + q);
        k + 1
  }

  /** Whether the scan may cancel an order: with skipResidual only a lot-fitted pending quantity qualifies. */
  predicate Cancelable(orders: map<nat, Order>, id: nat, skipResidual: bool, info: SecurityInfo)
    requires id in orders
  {
    !skipResidual || PendingQty(orders, id) == Floor2FitLotSize(info, PendingQty(orders, id))
  }

  /** The cancelable ids of s, in order. */
  function CancelableOf(s: seq<nat>, orders: map<nat, Order>, skipResidual: bool, info: SecurityInfo): (r: seq<nat>)
    requires forall id :: id in s ==> id in orders
    ensures forall id :: id in r <==> id in s && Cancelable(orders, id, skipResidual, info)
  {
    if s == [] then []
    else
      var rest := CancelableOf(s[1..], orders, skipResidual, info);
      assert forall id :: id in s <==> id == s[0] || id in s[1..];
      if Cancelable(orders, s[0], skipResidual, info) then [s[0]] + rest else rest
  }

  /**
   * The cancel selection over price-sorted pending ids: quantities accumulate
   * in order and the scan stops at the first order that would take the
   * total past the target; with skipResidualFill an order whose pending
   * part is not lot-fitted is passed over (its quantity still counts).
   */
  function CancelScan(s: seq<nat>, orders: map<nat, Order>, target: int, skipResidual: bool,
                      info: SecurityInfo, cum: int): (r: seq<nat>)
    requires forall id :: id in s ==> id in orders
    ensures r == CancelableOf(s[..ScanLength(s, orders, target, cum)], orders, skipResidual, info)
    ensures forall id :: id in r ==> id in s
    decreases |s|
  {
    if s == [] then []
    else
      var q := PendingQty(orders, s[0]);
      if cum + q > target then []
      else
        var rest := CancelScan(s[1..], orders, target, skipResidual, info, cum + q);
        var k := ScanLength(s[1..], orders, target, cum + q);
        assert ScanLength(s, orders, target, cum) == k + 1;
        var visited := s[..k + 1];
        assert visited[0] == s[0] && visited[1..] == s[1..][..k];
        assert CancelableOf(visited, orders, skipResidual, info)
            == (if Cancelable(orders, s[0], skipResidual, info) then [s[0]] else []) + CancelableOf(s[1..][..k], orders, skipResidual, info);
        if !skipResidual || q == Floor2FitLotSize(info, q) then [s[0]] + rest else rest
  }

  /** The scan never selects more pending quantity than the target leaves room for. */
  lemma {:induction false} CancelScanWithinTarget(s: seq<nat>, orders: map<nat, Order>, target: int, skipResidual: bool,
                                                  info: SecurityInfo, cum: int)
    requires forall id :: id in s ==> id in orders
    requires forall id :: id in s ==> PendingQty(orders, id) >= 0
    requires cum <= target
    ensures cum + SumPendingWhere(CancelScan(s, orders, target, skipResidual, info, cum), orders, (o: Order) => true) <= target
    decreases |s|
  {
    if s != [] {
      var q := PendingQty(orders, s[0]);
      if cum + q <= target {
        CancelScanWithinTarget(s[1..], orders, target, skipResidual, info, cum + q);
      }
    }
  }

  /**
   * The orders to cancel to free cancelQtyTarget: the pending orders sorted
   * by ascending price, visited until the running pending total would pass
   * the target, keeping the cancelable ones; never more pending quantity
   * than the target.
   */
  function CancelOrderIds(p: Perf, iter: seq<nat>, cancelQtyTarget: int, skipResidual: bool, info: SecurityInfo): (r: seq<nat>)
    requires Seqs.IsEnumeration(iter, p.orders.Keys)
    ensures var sorted := Ids(SortByPrice(PricedIds(AllPendingOrderIds(p, iter), p.orders)));
            (forall id :: id in sorted ==> id in p.orders) &&
            r == CancelableOf(sorted[..ScanLength(sorted, p.orders, cancelQtyTarget, 0)], p.orders, skipResidual, info)
    ensures forall id :: id in r ==> IsPending(p.orders, id)
    ensures forall id :: id in r ==> id in p.orders
    ensures (forall id :: id in p.orders ==> p.orders[id].filledQty <= p.orders[id].orderQty) && cancelQtyTarget >= 0 ==>
              SumPendingWhere(r, p.orders, (o: Order) => true) <= cancelQtyTarget
  {
    var pending := AllPendingOrderIds(p, iter);
    SortedIdsPending(pending, p.orders);
    var sorted := Ids(SortByPrice(PricedIds(pending, p.orders)));
    assert (forall id :: id in p.orders ==> p.orders[id].filledQty <= p.orders[id].orderQty) && cancelQtyTarget >= 0 ==>
           SumPendingWhere(CancelScan(sorted, p.orders, cancelQtyTarget, skipResidual, info, 0), p.orders, (o: Order) => true)
             <= cancelQtyTarget by {
      if (forall id :: id in p.orders ==> p.orders[id].filledQty <= p.orders[id].orderQty) && cancelQtyTarget >= 0 {
        CancelScanWithinTarget(sorted, p.orders, cancelQtyTarget, skipResidual, info, 0);
      }
    }
    CancelScan(Ids(SortByPrice(PricedIds(pending, p.orders))), p.orders, cancelQtyTarget, skipResidual, info, 0)
  }

  /** Sorting the pending ids by price brings in no other id. */
  lemma SortedIdsPending(pending: seq<nat>, orders: map<nat, Order>)
    requires forall id :: id in pending ==> id in orders
    ensures forall id :: id in Ids(SortByPrice(PricedIds(pending, orders))) ==> id in pending
  {
    var priced := PricedIds(pending, orders);
    var sortedPairs := SortByPrice(priced);
    var sorted := Ids(sortedPairs);
    forall id | id in sorted ensures id in pending {
      var i :| 0 <= i < |sorted| && sorted[i] == id;
      assert sortedPairs[i] in multiset(priced);
    }
  }
}

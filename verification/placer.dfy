/**
 * The placer that turns one child order into an algorithmic instruction:
 * the immediate fill of a backtest order at the replay VWAP, the wrapper
 * instruction for a live order, the mapping of the instruction's progress
 * back onto the order, and the table of running wrappers.
 */
module Placer {
  import opened Wrappers
  import opened Status
  import opened Orders
  import opened AlgoOrders
  import opened Performance
  import MarketTime
  import FeedReplay
  import Numbers

  /** The end of the replay window: execDuration seconds of market time after the cursor. */
  function WindowEnd(cursor: int, execDuration: real): int
  {
    MarketTime.AddMarketDuration(cursor, execDuration)
  }

  /**
   * What the as-written VWAP needs of the recording: the window's bounds in
   * order, and a frame after a non-empty window, which its backward scan
   * reads first (otherwise it dereferences the end of the map).
   */
  predicate ReplayDefined(frames: seq<FeedReplay.Frame>, cursor: int, execDuration: real)
    requires FeedReplay.Ordered(frames)
  {
    var lo := FeedReplay.LowerBound(frames, cursor);
    var up := FeedReplay.UpperBound(frames, WindowEnd(cursor, execDuration));
    lo <= up && (lo == up || up < |frames|)
  }

  /** A full fill at one price: every share filled, the amount being the quantity at that price. */
  function FillAt(o: Order, price: real): (r: Order)
    ensures r.status == Filled && r.filledQty == r.orderQty && r.avgPrice == price
    ensures r.filledAmt == r.orderQty as real * r.avgPrice
    ensures r == o.(status := r.status, avgPrice := r.avgPrice, filledQty := r.filledQty, filledAmt := r.filledAmt)
  {
    o.(status := Filled, avgPrice := price, filledQty := o.orderQty, filledAmt := o.orderQty as real * price)
  }

  /**
   * A backtest order is answered at once: rejected when its replay feed is
   * missing, otherwise filled in full at the feed's VWAP over the market
   * time from the replay cursor to execDuration seconds later. The feed is
   * given as its recorded ticks and its cursor; the VWAP is the feed's as
   * written.
   */
  function BacktestFill(o: Order, feed: Option<(seq<FeedReplay.Frame>, int)>, execDuration: real): (r: Order)
    requires feed.Some? ==> FeedReplay.Ordered(feed.value.0) && ReplayDefined(feed.value.0, feed.value.1, execDuration)
    ensures feed.None? ==> r == o.(status := Rejected, text := "quoteFeed is nullptr.")
    ensures feed.Some? ==>
              r == FillAt(o, FeedReplay.GetVwapAsWritten(feed.value.0, o.symbol, feed.value.1, WindowEnd(feed.value.1, execDuration)))
  {
    if feed.None? then o.(status := Rejected, text := "quoteFeed is nullptr.")
    else FillAt(o, FeedReplay.GetVwapAsWritten(feed.value.0, o.symbol, feed.value.1, WindowEnd(feed.value.1, execDuration)))
  }

  /** The backtest fill as intended: at the VWAP between the first and last quotes inside the window. */
  function BacktestFillCorrected(o: Order, feed: Option<(seq<FeedReplay.Frame>, int)>, execDuration: real): (r: Order)
    requires feed.Some? ==> FeedReplay.Ordered(feed.value.0)
    ensures feed.None? ==> r == o.(status := Rejected, text := "quoteFeed is nullptr.")
    ensures feed.Some? ==>
              r == FillAt(o, FeedReplay.WindowVwap(FeedReplay.Window(feed.value.0, feed.value.1, WindowEnd(feed.value.1, execDuration)), o.symbol))
  {
    if feed.None? then o.(status := Rejected, text := "quoteFeed is nullptr.")
    else FillAt(o, FeedReplay.GetVwap(feed.value.0, o.symbol, feed.value.1, WindowEnd(feed.value.1, execDuration)))
  }

  /** The intended backtest fill trades exactly the replayed ticks of its window: feeds agreeing there fill alike. */
  lemma BacktestFillIsLocal(o: Order, f1: seq<FeedReplay.Frame>, f2: seq<FeedReplay.Frame>, cursor: int, execDuration: real)
    requires FeedReplay.Ordered(f1) && FeedReplay.Ordered(f2)
    requires FeedReplay.Window(f1, cursor, WindowEnd(cursor, execDuration)) == FeedReplay.Window(f2, cursor, WindowEnd(cursor, execDuration))
    ensures BacktestFillCorrected(o, Some((f1, cursor)), execDuration) == BacktestFillCorrected(o, Some((f2, cursor)), execDuration)
  {
  }

  /** The target of the wrapper: the order quantity converted to an unsigned 32-bit count. */
  function QtyTarget32(qty: int): (r: nat)
    ensures r < 0x1_0000_0000
    ensures 0 <= qty < 0x1_0000_0000 ==> r == qty
  {
    qty % 0x1_0000_0000
  }

  /**
   * The wrapper instruction of a live order: a VWAP instruction of the
   * algo category for the order's account, broker, symbol, side and
   * quantity over execDuration seconds, carrying the order's instruction id
   * as its client id; a price limit only when asked for, and both
   * limit-price guards on. The new id, the broker looked up from the
   * account and the creation time are inputs.
   */
  function WrapperInstruction(o: Order, execDuration: real, isPriceLimit: bool, newId: nat, brokerId: nat, now: int): (a: AlgoOrder)
    ensures a.strategy == VWAP && a.category == CatAlgo
    ensures a.algoOrderId == newId && a.brokerId == brokerId
    ensures a.acct == o.acct && a.acctType == o.acctType && a.symbol == o.symbol && a.tradeSide == o.tradeSide
    ensures a.qtyTarget == QtyTarget32(o.orderQty) && a.execDuration == execDuration
    ensures a.clientAlgoOrderId == Numbers.DecimalString(o.algoOrderId)
    ensures a.priceLimit == (if isPriceLimit then o.orderPrice else 0.0)
    ensures a.notBuyOnLLOrSellOnHL && a.notPegOrderAtLimitPrice
    ensures a.params == map[] && a.createTime == now
  {
    DefaultAlgoOrder(now).(
      algoOrderId := newId,
      acct := o.acct,
      acctType := o.acctType,
      brokerId := brokerId,
      strategy := VWAP,
      category := CatAlgo,
      execDuration := execDuration,
      symbol := o.symbol,
      tradeSide := o.tradeSide,
      qtyTarget := QtyTarget32(o.orderQty),
      clientAlgoOrderId := Numbers.DecimalString(o.algoOrderId),
      priceLimit := if isPriceLimit then o.orderPrice else 0.0,
      notBuyOnLLOrSellOnHL := true,
      notPegOrderAtLimitPrice := true)
  }

  /**
   * The order as the wrapper's progress reports it: fills are copied from
   * the performance record; a terminated or expired instruction cancels
   * the rest (partially when anything filled), an error rejects with its
   * message, a finished one fills, anything else is NEW.
   */
  function OnProgress(o: Order, p: Perf): (r: Order)
    ensures r.filledQty == p.qtyFilled && r.avgPrice == p.avgPrice && r.filledAmt == p.amtFilled
    ensures p.algoStatus in {Terminated, Expired} ==>
              r.cancelQty == o.orderQty - p.qtyFilled && r.status == (if p.qtyFilled > 0 then PartialCancel else Canceled)
    ensures p.algoStatus == Error ==> r.status == Rejected && r.text == p.errMsg
    ensures p.algoStatus == Finished ==> r.status == Filled
    ensures !IsFinalAlgo(p.algoStatus) ==> r.status == New
    ensures !(p.algoStatus in {Terminated, Expired}) ==> r.cancelQty == o.cancelQty
    ensures p.algoStatus != Error ==> r.text == o.text
    ensures r.orderQty == o.orderQty && r.orderId == o.orderId
  {
    var o1 := o.(filledQty := p.qtyFilled, avgPrice := p.avgPrice, filledAmt := p.amtFilled);
    if p.algoStatus == Terminated || p.algoStatus == Expired then
      o1.(cancelQty := o1.orderQty - o1.filledQty, status := if o1.filledQty > 0 then PartialCancel else Canceled)
    else if p.algoStatus == Error then o1.(status := Rejected, text := p.errMsg)
    else if p.algoStatus == Finished then o1.(status := Filled)
    else o1.(status := New)
  }

  /** The order reaches a final status exactly when the instruction does; a cancelling instruction's order stays NEW. */
  lemma OnProgressFinalIffFinal(o: Order, p: Perf)
    ensures OnProgress(o, p).IsFinal() <==> IsFinalAlgo(p.algoStatus)
    ensures p.algoStatus == Canceling ==> OnProgress(o, p).status == New
  {
  }

  /** The running wrappers: order id to the id of its wrapper instruction. */
  type Registry = map<nat, nat>

  /** Tracks a new wrapper; an order id already tracked keeps its first wrapper (map emplace). */
  function Track(reg: Registry, orderId: nat, algoOrderId: nat): (r: Registry)
    ensures orderId in reg ==> r == reg
    ensures orderId !in reg ==> r == reg[orderId := algoOrderId]
    ensures r.Keys == reg.Keys + {orderId}
  {
    if orderId in reg then reg else reg[orderId := algoOrderId]
  }

  /** Cancelling one order signals its wrapper, if it is tracked. */
  function CancelOne(reg: Registry, orderId: nat): (r: Option<nat>)
    ensures r.Some? <==> orderId in reg
    ensures r.Some? ==> r.value == reg[orderId]
  {
    if orderId in reg then Some(reg[orderId]) else None
  }

  /** Cancelling everything signals every tracked wrapper and returns how many were signalled. */
  function CancelAll(reg: Registry): (r: (set<nat>, nat))
    ensures r.0 == reg.Values
    ensures r.1 == |reg.Keys|
  {
    (reg.Values, |reg.Keys|)
  }

  /** The count cancelAll returns is the number hasPendingOrders reports. */
  function PendingCount(reg: Registry): (n: nat)
    ensures n == CancelAll(reg).1
  {
    |reg|
  }

  /**
   * A second wrapper for an already tracked order id is not tracked, so
   * cancelling that order never reaches it.
   */
  lemma DuplicateOrderIdUntracked(reg: Registry, orderId: nat, first: nat, second: nat)
    requires first != second
    ensures CancelOne(Track(Track(reg - {orderId}, orderId, first), orderId, second), orderId) == Some(first)
  {
  }
}

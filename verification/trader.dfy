/**
 * The decisions of one instruction's trader outside the slicing loop: the
 * start check that fixes the execution window, the terminal-status rules of
 * stop and cancel, the price rules applied to every child order, and the
 * replay clock that paces a backtest against the quote feed. The wall clock
 * and the security lookup are inputs.
 */
module Trader {
  import opened Wrappers
  import opened Status
  import opened MarketTime
  import opened AlgoOrders
  import opened Security
  import opened Orders
  import opened Depth
  import opened Performance
  import opened AcctKeys
  import Arith
  import Seqs

  /** Why the start check refuses an instruction. */
  datatype StartError =
    | EmptyParams
    | NoSecurityInfo
    | Suspended
    | InvalidSide
    | BelowMinQty
    | StartNotBeforeEnd
    | StartAfterClosingAuction
    | NotToday
    | EndNotAfterNow

  /**
   * What the start check fixes: the window, its market duration in seconds,
   * the smallest order worth placing, and (in a backtest) the initial
   * replay cursor.
   */
  datatype StartPlan = StartPlan(start: int, end: int, duration: real, minQtyPerOrder: int, replayCursor: Option<int>)

  /** The date whose security record is used: the start's date in a backtest, today's otherwise. */
  function TradeDay(o: AlgoOrder, now: int): int
  {
    if IsBackTestOrder(o) then DayStart(o.startTime) else DayStart(now)
  }

  /** The window before the live-only adjustments. */
  function RequestedWindow(o: AlgoOrder, now: int): (w: (int, int))
  {
    if !IsBackTestOrder(o) && o.execDuration > 0.0 then
      (AvailableStart(now), AddMarketDuration(AvailableStart(now), o.execDuration))
    else (AvailableStart(o.startTime), o.endTime)
  }

  /** The end is cut at the closing auction of the start's day and moved out of the lunch break. */
  function FitEnd(start: int, end: int): (e: int)
    ensures e <= ClosingAuction(start)
    ensures !IsAfternoonBreak(e)
    ensures end <= ClosingAuction(start) && !IsAfternoonBreak(end) ==> e == end
  {
    var e1 := if end > ClosingAuction(start) then ClosingAuction(start) else end;
    if IsAfternoonBreak(e1) then MorningClose(start) else e1
  }

  /** The minimum order size implied by the minimum order amount at the lower daily limit. */
  function MinQtyPerOrder(o: AlgoOrder, info: SecurityInfo): (q: int)
    ensures info.lowLimitPrice <= 0.0 ==> q == 0
    ensures info.lowLimitPrice > 0.0 && o.minAmountPerOrder >= 0.0 ==>
              q >= 0 && q as real * info.lowLimitPrice <= o.minAmountPerOrder
              && o.minAmountPerOrder < (q + 1) as real * info.lowLimitPrice
  {
    if info.lowLimitPrice > 0.0 then
      Arith.TruncQuotient(o.minAmountPerOrder, info.lowLimitPrice);
      Arith.Trunc(o.minAmountPerOrder / info.lowLimitPrice)
    else 0
  }

  /** The checks made against the parameters and the security record, before any window is computed. */
  predicate RecordChecksPass(o: AlgoOrder, now: int, infoByDay: map<int, SecurityInfo>)
  {
    o.qtyTarget != 0 && o.acct != [] && TradeDay(o, now) in infoByDay
    && !infoByDay[TradeDay(o, now)].isSuspended && IsValidSide(o.tradeSide)
    && !(IsBuy(o.tradeSide) && o.qtyTarget < infoByDay[TradeDay(o, now)].orderInitQtySize)
  }

  /** The record checks and the two checks on the requested start. */
  predicate StartChecksPass(o: AlgoOrder, now: int, infoByDay: map<int, SecurityInfo>)
  {
    RecordChecksPass(o, now, infoByDay)
    && !(o.execDuration <= 0.0 && o.startTime >= o.endTime)
    && AvailableStart(o.startTime) <= ClosingAuction(AvailableStart(o.startTime))
  }

  /** The start a window begins at: a live start more than 3 s in the past is moved to now. */
  function PlannedStart(o: AlgoOrder, now: int): int
  {
    var s1 := RequestedWindow(o, now).0;
    if !IsBackTestOrder(o) && s1 < now - 3 * SecondMs then now else s1
  }

  /**
   * The start check. Parameters are validated in the source's order; the
   * window starts at the next tradable time, a live instruction with an
   * execution duration starts now, a late live start is moved to now, and
   * the end is fitted into the start's day. The comparison of the end's date
   * is made against itself, so the end's date is never checked.
   */
  function PreStartCheck(o: AlgoOrder, now: int, infoByDay: map<int, SecurityInfo>): (r: Result<StartPlan, StartError>)
    ensures r == Err(EmptyParams) <==> o.qtyTarget == 0 || o.acct == []
    ensures o.qtyTarget != 0 && o.acct != [] && TradeDay(o, now) !in infoByDay ==> r == Err(NoSecurityInfo)
    ensures o.qtyTarget != 0 && o.acct != [] && TradeDay(o, now) in infoByDay ==>
              var info := infoByDay[TradeDay(o, now)];
              (info.isSuspended ==> r == Err(Suspended))
              && (!info.isSuspended && !IsValidSide(o.tradeSide) ==> r == Err(InvalidSide))
              && (!info.isSuspended && IsValidSide(o.tradeSide) && IsBuy(o.tradeSide) && o.qtyTarget < info.orderInitQtySize
                  ==> r == Err(BelowMinQty))
    ensures RecordChecksPass(o, now, infoByDay) && o.execDuration <= 0.0 && o.startTime >= o.endTime ==> r == Err(StartNotBeforeEnd)
    ensures (RecordChecksPass(o, now, infoByDay) && !(o.execDuration <= 0.0 && o.startTime >= o.endTime)
             && AvailableStart(o.startTime) > ClosingAuction(AvailableStart(o.startTime))) ==> r == Err(StartAfterClosingAuction)
    ensures (StartChecksPass(o, now, infoByDay) && !IsBackTestOrder(o) && DayStart(RequestedWindow(o, now).0) != DayStart(now))
            ==> r == Err(NotToday)
    ensures (StartChecksPass(o, now, infoByDay) && !IsBackTestOrder(o) && DayStart(RequestedWindow(o, now).0) == DayStart(now)
             && RequestedWindow(o, now).1 <= now) ==> r == Err(EndNotAfterNow)
    ensures r.Ok? <==> StartChecksPass(o, now, infoByDay)
                       && (IsBackTestOrder(o) || (DayStart(RequestedWindow(o, now).0) == DayStart(now) && RequestedWindow(o, now).1 > now))
    ensures r.Ok? ==>
              var start := PlannedStart(o, now);
              var end := FitEnd(start, RequestedWindow(o, now).1);
              r.value == StartPlan(start, end, MarketDuration(start, end), MinQtyPerOrder(o, infoByDay[TradeDay(o, now)]),
                                   if IsBackTestOrder(o) then Some(start) else None)
    ensures r.Ok? ==> TradeDay(o, now) in infoByDay && !infoByDay[TradeDay(o, now)].isSuspended
                      && IsValidSide(o.tradeSide)
                      && (IsBuy(o.tradeSide) ==> o.qtyTarget >= infoByDay[TradeDay(o, now)].orderInitQtySize)
                      && (o.execDuration <= 0.0 ==> o.startTime < o.endTime)
    ensures r.Ok? ==> r.value.end <= ClosingAuction(r.value.start) && !IsAfternoonBreak(r.value.end)
    ensures r.Ok? ==> r.value.duration == MarketDuration(r.value.start, r.value.end)
    ensures r.Ok? ==> r.value.minQtyPerOrder == MinQtyPerOrder(o, infoByDay[TradeDay(o, now)])
    ensures r.Ok? && IsBackTestOrder(o) ==>
              r.value.start == AvailableStart(o.startTime) && r.value.start <= ClosingAuction(r.value.start)
              && r.value.end == FitEnd(r.value.start, o.endTime)
              && r.value.replayCursor == Some(r.value.start)
    ensures r.Ok? && !IsBackTestOrder(o) ==>
              DayStart(r.value.start) == DayStart(now) && r.value.start >= now - 3 * SecondMs
              && r.value.replayCursor.None?
    ensures r.Ok? && !IsBackTestOrder(o) && o.execDuration > 0.0 ==> r.value.start == AvailableStart(now)
    ensures r.Ok? && !IsBackTestOrder(o) ==> RequestedWindow(o, now).1 > now
  {
    var backtest := IsBackTestOrder(o);
    var day := TradeDay(o, now);
    if o.qtyTarget == 0 || o.acct == [] then Err(EmptyParams)
    else if day !in infoByDay then Err(NoSecurityInfo)
    else
      var info := infoByDay[day];
      if info.isSuspended then Err(Suspended)
      else if !IsValidSide(o.tradeSide) then Err(InvalidSide)
      else if IsBuy(o.tradeSide) && o.qtyTarget < info.orderInitQtySize then Err(BelowMinQty)
      else if o.execDuration <= 0.0 && o.startTime >= o.endTime then Err(StartNotBeforeEnd)
      else if AvailableStart(o.startTime) > ClosingAuction(AvailableStart(o.startTime)) then Err(StartAfterClosingAuction)
      else
        var (s1, e1) := RequestedWindow(o, now);
        if !backtest && (DayStart(s1) != DayStart(now) || DayStart(e1) != DayStart(e1)) then Err(NotToday)
        else if !backtest && e1 <= now then Err(EndNotAfterNow)
        else
          var s2 := if !backtest && s1 < now - 3 * SecondMs then now else s1;
          var e2 := FitEnd(s2, e1);
          Ok(StartPlan(s2, e2, MarketDuration(s2, e2), MinQtyPerOrder(o, info), if backtest then Some(s2) else None))
  }

  /**
   * Only the start's date is compared with today: a live instruction whose
   * start is today is never refused as "not today", whatever its end.
   */
  lemma EndDateNeverChecked(o: AlgoOrder, now: int, infoByDay: map<int, SecurityInfo>)
    requires !IsBackTestOrder(o)
    requires DayStart(RequestedWindow(o, now).0) == DayStart(now)
    ensures PreStartCheck(o, now, infoByDay) != Err(NotToday)
  {
  }

  /**
   * A live instruction for 10:00 today to 10:00 tomorrow is accepted, its
   * end cut to today's closing auction, instead of being refused.
   */
  lemma NextDayEndAccepted()
    ensures
      var o := DefaultAlgoOrder(0).(acctType := AcctType(1, "STOCK"), acct := "a", tradeSide := Buy,
                                    qtyTarget := 1000, startTime := 10 * HourMs, endTime := DayMs + 10 * HourMs);
      PreStartCheck(o, 10 * HourMs, map[0 := NewSecurityInfo("600000.SH")])
        == Ok(StartPlan(10 * HourMs, ClosingAuctionOffset,
                        MarketDuration(10 * HourMs, ClosingAuctionOffset), 0, None))
  {
    var o := DefaultAlgoOrder(0).(acctType := AcctType(1, "STOCK"), acct := "a", tradeSide := Buy,
                                  qtyTarget := 1000, startTime := 10 * HourMs, endTime := DayMs + 10 * HourMs);
    assert "STOCK"[..2] == "ST";
    assert !IsBackTestOrder(o);
    assert NewSecurityInfo("600000.SH").orderInitQtySize == 100 by {
      assert "600000.SH"[..2] == "60";
    }
    DayStartOffset(0, 10 * HourMs);
    DayStartOffset(0, ClosingAuctionOffset);
  }

  /**
   * Stop: nothing changes once the status is final. Otherwise the status
   * becomes Finished when the target is filled, Terminated when a cancel was
   * under way, Error with the reason when one is given, and Expired
   * otherwise; then the order snapshots are released.
   */
  function Stop(p: Perf, reason: string): (r: Perf)
    ensures IsFinalAlgo(p.algoStatus) ==> r == p
    ensures !IsFinalAlgo(p.algoStatus) ==>
              IsFinalAlgo(r.algoStatus) && r.orders == map[]
              && r == Release(p).(algoStatus := r.algoStatus, errMsg := r.errMsg)
    ensures !IsFinalAlgo(p.algoStatus) && p.qtyFilled >= p.qtyTarget ==> r.algoStatus == Finished && r.errMsg == ""
    ensures !IsFinalAlgo(p.algoStatus) && p.qtyFilled < p.qtyTarget && p.algoStatus == Canceling ==>
              r.algoStatus == Terminated && r.errMsg == "USER CANCEL."
    ensures !IsFinalAlgo(p.algoStatus) && p.qtyFilled < p.qtyTarget && p.algoStatus != Canceling && reason != "" ==>
              r.algoStatus == Error && r.errMsg == reason
    ensures !IsFinalAlgo(p.algoStatus) && p.qtyFilled < p.qtyTarget && p.algoStatus != Canceling && reason == "" ==>
              r.algoStatus == Expired && r.errMsg == p.errMsg
  {
    if IsFinalAlgo(p.algoStatus) then p
    else
      var q :=
        if p.qtyFilled >= p.qtyTarget then p.(algoStatus := Finished, errMsg := "")
        else if p.algoStatus == Canceling then p.(algoStatus := Terminated, errMsg := "USER CANCEL.")
        else if reason != "" then p.(algoStatus := Error, errMsg := reason)
        else p.(algoStatus := Expired);
      Release(q)
  }

  /** A second stop, with any reason, changes nothing. */
  lemma StopIdempotent(p: Perf, first: string, second: string)
    ensures Stop(Stop(p, first), second) == Stop(p, first)
  {
  }

  /**
   * Cancel acts only when the status is NOT running (the test is inverted):
   * it then marks the instruction Canceling and returns the pending orders
   * to cancel, or, with none pending, terminates it at once. Running,
   * Routing and Creating instructions are left as they are.
   */
  function Cancel(p: Perf, iter: seq<nat>): (r: (Perf, seq<nat>))
    requires Seqs.IsEnumeration(iter, p.orders.Keys)
    ensures IsRunningAlgo(p.algoStatus) ==> r == (p, [])
    ensures !IsRunningAlgo(p.algoStatus) ==>
              (forall id :: id in r.1 <==> IsPending(p.orders, id))
              && r.0 == p.(algoStatus := r.0.algoStatus, errMsg := r.0.errMsg)
    ensures !IsRunningAlgo(p.algoStatus) && r.1 != [] ==> r.0.algoStatus == Canceling && r.0.errMsg == "USER CANCELING"
    ensures !IsRunningAlgo(p.algoStatus) && r.1 == [] ==> r.0.algoStatus == Terminated && r.0.errMsg == "USER CANCEL."
  {
    if IsRunningAlgo(p.algoStatus) then (p, [])
    else
      var ids := AllPendingOrderIds(p, iter);
      if ids != [] then (p.(algoStatus := Canceling, errMsg := "USER CANCELING"), ids)
      else (p.(algoStatus := Terminated, errMsg := "USER CANCEL."), [])
  }

  /** Because of the inverted test, a running instruction cannot be cancelled. */
  lemma CancelIgnoresRunning(p: Perf, iter: seq<nat>)
    requires Seqs.IsEnumeration(iter, p.orders.Keys)
    requires p.algoStatus == Running
    ensures Cancel(p, iter).0 == p && Cancel(p, iter).1 == []
  {
  }

  /** ... while a finished instruction with nothing pending is turned into a terminated one. */
  lemma CancelRewritesFinished(p: Perf, iter: seq<nat>)
    requires Seqs.IsEnumeration(iter, p.orders.Keys)
    requires p.algoStatus == Finished
    requires forall id :: id in p.orders ==> p.orders[id].IsFinal()
    ensures Cancel(p, iter).0.algoStatus == Terminated
  {
  }

  /**
   * A cancel that left orders pending ends, when stop is called before the
   * target is filled, in Terminated with the user-cancel message.
   */
  lemma CancelThenStop(p: Perf, iter: seq<nat>, reason: string)
    requires Seqs.IsEnumeration(iter, p.orders.Keys)
    requires !IsRunningAlgo(p.algoStatus) && p.qtyFilled < p.qtyTarget
    requires Cancel(p, iter).1 != []
    ensures Stop(Cancel(p, iter).0, reason).algoStatus == Terminated
    ensures Stop(Cancel(p, iter).0, reason).errMsg == "USER CANCEL."
  {
  }

  /** The outcome of the price rules for one child order. */
  datatype Placement =
    | NotPlaced(why: SkipReason)
    | Place(price: real)

  datatype SkipReason = NotPositive | PegLimit | BuyOnLowLimit | SellOnHighLimit | BelowMinAmount

  /**
   * The price actually sent: first held at the instruction's limit (a cap
   * for a buy, a floor for a sell), then capped at the upper daily limit and
   * floored at the lower one, each bound only when positive.
   */
  function ClampPrice(o: AlgoOrder, isBuy: bool, info: SecurityInfo, price: real): (r: real)
    ensures r == price || r == o.priceLimit || r == info.highLimitPrice || r == info.lowLimitPrice
    ensures info.lowLimitPrice > 0.0 ==> r >= info.lowLimitPrice
    ensures info.highLimitPrice > 0.0 && (info.lowLimitPrice <= 0.0 || info.lowLimitPrice <= info.highLimitPrice) ==>
              r <= info.highLimitPrice
    ensures isBuy && o.priceLimit > 0.0 && (info.lowLimitPrice <= 0.0 || info.lowLimitPrice <= o.priceLimit) ==>
              r <= o.priceLimit
    ensures !isBuy && o.priceLimit > 0.0 && (info.highLimitPrice <= 0.0 || o.priceLimit <= info.highLimitPrice) ==>
              r >= o.priceLimit
    ensures o.priceLimit <= 0.0 && info.highLimitPrice <= 0.0 && info.lowLimitPrice <= 0.0 ==> r == price
  {
    var p1 := if o.priceLimit > 0.0 then (if isBuy then RMin(price, o.priceLimit) else RMax(price, o.priceLimit)) else price;
    var p2 := if info.highLimitPrice > 0.0 then RMin(p1, info.highLimitPrice) else p1;
    if info.lowLimitPrice > 0.0 then RMax(p2, info.lowLimitPrice) else p2
  }

  function RMin(a: real, b: real): real { if a <= b then a else b }
  function RMax(a: real, b: real): real { if a >= b then a else b }

  /**
   * The placement rules: nothing is placed unless qty and price are
   * positive; the clamped price is refused at the instruction limit or the
   * adverse daily limit when pegging there is disallowed, at the favourable
   * daily limit when buying at the low (selling at the high) is disallowed,
   * and the order is refused when the REQUESTED, unclamped price times qty
   * is below the minimum amount.
   */
  function PlaceDecision(o: AlgoOrder, isBuy: bool, info: SecurityInfo, qty: int, price: real, checkMin: bool): (r: Placement)
    ensures qty <= 0 || price <= 0.0 ==> r == NotPlaced(NotPositive)
    ensures r.Place? ==> qty > 0 && price > 0.0 && r.price == ClampPrice(o, isBuy, info, price)
    ensures r.Place? && o.notPegOrderAtLimitPrice ==>
              r.price != o.priceLimit && r.price != (if isBuy then info.highLimitPrice else info.lowLimitPrice)
    ensures r.Place? && o.notBuyOnLLOrSellOnHL ==>
              r.price != (if isBuy then info.lowLimitPrice else info.highLimitPrice)
    ensures r.Place? && checkMin && o.minAmountPerOrder > 0.0 ==> price * qty as real >= o.minAmountPerOrder
    ensures qty > 0 && price > 0.0 ==>
              var c := ClampPrice(o, isBuy, info, price);
              (r.Place? <==>
                 !(o.notPegOrderAtLimitPrice && (c == o.priceLimit || c == (if isBuy then info.highLimitPrice else info.lowLimitPrice)))
                 && !(o.notBuyOnLLOrSellOnHL && c == (if isBuy then info.lowLimitPrice else info.highLimitPrice))
                 && !(checkMin && o.minAmountPerOrder > 0.0 && price * qty as real < o.minAmountPerOrder))
  {
    if !(qty > 0 && price > 0.0) then NotPlaced(NotPositive)
    else
      var c := ClampPrice(o, isBuy, info, price);
      if isBuy && (c == o.priceLimit || c == info.highLimitPrice) && o.notPegOrderAtLimitPrice then NotPlaced(PegLimit)
      else if isBuy && c == info.lowLimitPrice && o.notBuyOnLLOrSellOnHL then NotPlaced(BuyOnLowLimit)
      else if !isBuy && (c == o.priceLimit || c == info.lowLimitPrice) && o.notPegOrderAtLimitPrice then NotPlaced(PegLimit)
      else if !isBuy && c == info.highLimitPrice && o.notBuyOnLLOrSellOnHL then NotPlaced(SellOnHighLimit)
      else if checkMin && o.minAmountPerOrder > 0.0 && price * qty as real < o.minAmountPerOrder then NotPlaced(BelowMinAmount)
      else Place(c)
  }

  /**
   * The minimum amount is checked on the requested price: a buy requested
   * at 20 and capped at a limit of 10 is placed for 100 shares although
   * 100 x 10 is below the minimum amount of 1500.
   */
  lemma MinAmountUsesRequestedPrice()
    ensures
      var o := DefaultAlgoOrder(0).(priceLimit := 10.0, minAmountPerOrder := 1500.0,
                                    notPegOrderAtLimitPrice := false, notBuyOnLLOrSellOnHL := false);
      var info := NewSecurityInfo("600000.SH");
      PlaceDecision(o, true, info, 100, 20.0, true) == Place(10.0) && 10.0 * 100.0 < o.minAmountPerOrder
  {
  }

  /** The child order a placement creates; its id and the clock are inputs. */
  function ChildOrder(o: AlgoOrder, qty: int, price: real, id: nat, now: int, md: MarketDepth): (c: Order)
    ensures c.orderId == id && c.orderQty == qty && c.orderPrice == price && c.algoOrderId == o.algoOrderId
    ensures c.status == Unsent && c.filledQty == 0 && c.cancelQty == 0
    ensures c.acct == o.acct && c.acctType == o.acctType && c.symbol == o.symbol && c.tradeSide == o.tradeSide
    ensures c.orderTime == now && c.updTime == now && c.quoteTime == md.quoteTime
  {
    DefaultOrder().(orderId := id, acct := o.acct, acctType := o.acctType, symbol := o.symbol,
                    tradeSide := o.tradeSide, orderQty := qty, orderPrice := price, algoOrderId := o.algoOrderId,
                    orderTime := now, updTime := now, quoteTime := md.quoteTime)
  }

  /**
   * placeOrder on the performance record: a placed order is recorded as
   * requested; if the book refuses it, it comes back as REJECTED, which
   * takes its quantity out again and counts a rejection.
   */
  function PlaceOrder(p: Perf, o: AlgoOrder, info: SecurityInfo, qty: int, price: real, checkMin: bool,
                      id: nat, now: int, md: MarketDepth, accepted: bool, progress: real): (r: Perf)
    requires id !in p.orders
    ensures PlaceDecision(o, p.isBuy, info, qty, price, checkMin).NotPlaced? ==> r == p
    ensures PlaceDecision(o, p.isBuy, info, qty, price, checkMin).Place? ==>
              id in r.orders && r.orders[id].orderQty == qty
              && r.orders[id].orderPrice == PlaceDecision(o, p.isBuy, info, qty, price, checkMin).price
              && r.orderCnt == p.orderCnt + 1
    ensures PlaceDecision(o, p.isBuy, info, qty, price, checkMin).Place? && accepted ==>
              r.qty == p.qty + qty && r.orders[id].status == Unsent
    ensures PlaceDecision(o, p.isBuy, info, qty, price, checkMin).Place? && !accepted ==>
              r.qty == p.qty && r.orders[id].status == Rejected
              && r.orderCntRejected == p.orderCntRejected + 1 && r.qtyFilled == p.qtyFilled
  {
    match PlaceDecision(o, p.isBuy, info, qty, price, checkMin)
    case NotPlaced(_) => p
    case Place(c) =>
      var child := ChildOrder(o, qty, c, id, now, md);
      var q := OnOrderRequest(p, child, md);
      if accepted then q
      else
        var rej := child.(status := Rejected);
        assert PreviousOf(q, rej) == child;
        OnOrderRecUpdate(q, rej, progress)
  }

  /**
   * placeOrder as written: the performance record stores a shared handle to
   * the child order, so marking a refused order REJECTED rewrites the stored
   * snapshot too, and the update that follows compares the order with
   * itself. A final snapshot is never older than anything, so the update is
   * dropped: the rejection is not counted and its quantity stays requested.
   */
  function PlaceOrderAsWritten(p: Perf, o: AlgoOrder, info: SecurityInfo, qty: int, price: real, checkMin: bool,
                               id: nat, now: int, md: MarketDepth, accepted: bool, progress: real): (r: Perf)
    requires id !in p.orders
    ensures PlaceDecision(o, p.isBuy, info, qty, price, checkMin).NotPlaced? ==> r == p
    ensures PlaceDecision(o, p.isBuy, info, qty, price, checkMin).Place? ==>
              id in r.orders && r.qty == p.qty + qty && r.orderCnt == p.orderCnt + 1
              && r.orderCntRejected == p.orderCntRejected
              && r.orders[id].status == (if accepted then Unsent else Rejected)
  {
    match PlaceDecision(o, p.isBuy, info, qty, price, checkMin)
    case NotPlaced(_) => p
    case Place(c) =>
      var child := ChildOrder(o, qty, c, id, now, md);
      var q := OnOrderRequest(p, child, md);
      if accepted then q
      else
        var rej := child.(status := Rejected);
        var aliased := q.(orders := q.orders[id := rej]);
        assert PreviousOf(aliased, rej) == rej;
        OnOrderRecUpdate(aliased, rej, progress)
  }

  /**
   * For every placement the book refuses, the as-written record keeps the
   * refused quantity as requested and counts no rejection, where the
   * corrected one gives the quantity back and counts one.
   */
  lemma AsWrittenRejectionUncounted(p: Perf, o: AlgoOrder, info: SecurityInfo, qty: int, price: real, checkMin: bool,
                                    id: nat, now: int, md: MarketDepth, progress: real)
    requires id !in p.orders
    requires PlaceDecision(o, p.isBuy, info, qty, price, checkMin).Place?
    ensures qty > 0
    ensures PlaceOrderAsWritten(p, o, info, qty, price, checkMin, id, now, md, false, progress).qty
            == PlaceOrder(p, o, info, qty, price, checkMin, id, now, md, false, progress).qty + qty
    ensures PlaceOrderAsWritten(p, o, info, qty, price, checkMin, id, now, md, false, progress).orderCntRejected + 1
            == PlaceOrder(p, o, info, qty, price, checkMin, id, now, md, false, progress).orderCntRejected
  {
  }

  /** What a quote delivered to a backtest trader does. */
  datatype FeedAction = Deliver | Wake | Hold

  /**
   * A tick for a backtest trader: a trader no longer running is woken so it
   * can finish; a running one holds the feed while the tick is within 3 s
   * of the trader's replay cursor or past it. Live traders never hold it.
   */
  function OnMarketDepth(backtest: bool, status: int, quoteTime: int, cursor: int): (a: FeedAction)
    ensures !backtest ==> a == Deliver
    ensures backtest && !IsRunningAlgo(status) ==> a == Wake
    ensures backtest && IsRunningAlgo(status) ==> (a == Hold <==> quoteTime + 3 * SecondMs >= cursor)
  {
    if !backtest then Deliver
    else if !IsRunningAlgo(status) then Wake
    else if quoteTime + 3 * SecondMs >= cursor then Hold
    else Deliver
  }

  /** Advancing the replay cursor by a market duration; the trader then waits iff the cursor passed the last quote. */
  function AwaitReplay(cursor: int, secs: real, status: int, lastQuoteTime: int): (r: (int, bool))
    ensures r.0 == AddMarketDuration(cursor, secs)
    ensures r.1 <==> !IsFinalAlgo(status) && AddMarketDuration(cursor, secs) > lastQuoteTime
  {
    var next := AddMarketDuration(cursor, secs);
    (next, !IsFinalAlgo(status) && next > lastQuoteTime)
  }

  /**
   * Outside the lunch break the cursor never moves backwards: advancing a
   * time inside the trading day by a non-negative duration gives a time at
   * or after it.
   */
  lemma CursorMonotone(cursor: int, secs: real)
    requires secs >= 0.0
    requires Open(cursor) <= cursor <= Close(cursor)
    requires !IsAfternoonBreak(cursor)
    ensures AddMarketDuration(cursor, secs) >= cursor
  {
  }

  /**
   * Inside the break, sub-second steps are measured from 11:30, so the
   * cursor can move backwards: from 11:30:00.5, a step of 0.2 s gives
   * 11:30:00.2.
   */
  lemma CursorStepsBackInBreak()
    ensures AddMarketDuration(MorningCloseOffset + 500, 0.2) == MorningCloseOffset + 200
  {
    DayStartOffset(0, MorningCloseOffset + 500);
    assert (0.2).Floor == 0;
    assert DeltaMs(0.2) == 200;
  }
}

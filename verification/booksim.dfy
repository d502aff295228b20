/**
 * The simulated order book used for backtests and simulated accounts:
 * placing and cancelling child orders, matching them against each quote
 * tick (crossing orders against the opposite levels, resting orders
 * through an estimated queue position), and the frozen cash and shares of
 * the accounts. Notices stand for the order and trade callbacks.
 */
module BookSim {
  import opened Wrappers
  import opened Status
  import opened Orders
  import opened Depth
  import opened AcctKeys
  import MarketTime
  import Arith
  import Seqs

  /**
   * A position of one account in one symbol. The symbol field is the
   * position record's own, not the table key: a preloaded position carries
   * its symbol, one created by a refresh keeps it empty.
   */
  datatype Position = Position(symbol: string, currentQty: int, enabledQty: int, lastPrice: real, mktValue: real)

  /** The value-initialised record a refresh creates for a missing key. */
  const NoPosition: Position := Position("", 0, 0, 0.0, 0.0)

  /** The starting cash of an account the book first sees through a preloaded position. */
  const DefaultCapital: real := 5000000.0

  /** One fill: quantity, amount and price. */
  datatype Trade = Trade(orderId: nat, qty: int, amount: real, price: real)

  /** What the book reports to its subscribers. */
  datatype Notice = OrderUpdate(order: Order) | TradeReport(trade: Trade)

  /**
   * The book: every order ever accepted; the unfinished ones with their
   * estimated queue volume (-1 while unknown); the last tick per symbol;
   * the enabled cash per account and the positions per account and symbol.
   */
  datatype Book = Book(
    stopped: bool,
    backtest: bool,
    orders: map<nat, Order>,
    queue: map<nat, int>,
    mds: map<string, MarketDepth>,
    balances: map<AcctKey, real>,
    positions: map<(AcctKey, string), Position>)

  /** Every queued order is known and not final. */
  predicate QueueHoldsUnfinished(b: Book)
  {
    forall id :: id in b.queue ==> id in b.orders && !b.orders[id].IsFinal()
  }

  /** Marks a position to a price: the last price is set and the value follows the current quantity. */
  function MarkTo(p: Position, price: real): (r: Position)
    ensures r.lastPrice == price && r.mktValue == p.currentQty as real * price
    ensures r.symbol == p.symbol && r.currentQty == p.currentQty && r.enabledQty == p.enabledQty
  {
    p.(lastPrice := price, mktValue := p.currentQty as real * price)
  }

  function MaxReal3(a: real, b: real, c: real): (r: real)
    ensures r >= a && r >= b && r >= c && (r == a || r == b || r == c)
  {
    MaxReal(MaxReal(a, b), c)
  }

  /**
   * Refreshes cash and position after an order changes from pre to o. When
   * pre is a different order (a new placement), a buy freezes the order
   * price (or the highest of bid 1, ask 1 and last price for a zero price)
   * times the quantity and a sell freezes the quantity, provided the symbol
   * has a tick. For the same order: a rejection releases the whole
   * frozen amount or quantity; otherwise a buy books the filled shares and
   * releases cancelled cash at the order price, a sell books the filled
   * amount and releases cancelled shares. The position is then marked to
   * the last price. Both entries are created when missing.
   */
  function Refresh(b: Book, o: Order, pre: Order): (r: Book)
    ensures r == b.(balances := r.balances, positions := r.positions)
    ensures OrderAcctKey(o) in r.balances && (OrderAcctKey(o), o.symbol) in r.positions
    ensures forall k :: k in b.balances && k != OrderAcctKey(o) ==> k in r.balances && r.balances[k] == b.balances[k]
    ensures forall k :: k in b.positions && k != (OrderAcctKey(o), o.symbol) ==> k in r.positions && r.positions[k] == b.positions[k]
    ensures r.balances.Keys == b.balances.Keys + {OrderAcctKey(o)}
    ensures r.positions.Keys == b.positions.Keys + {(OrderAcctKey(o), o.symbol)}
    ensures r.positions[(OrderAcctKey(o), o.symbol)].symbol ==
              if (OrderAcctKey(o), o.symbol) in b.positions then b.positions[(OrderAcctKey(o), o.symbol)].symbol else ""
  {
    var key := OrderAcctKey(o);
    var sk := (key, o.symbol);
    var bal := if key in b.balances then b.balances[key] else 0.0;
    var pos := if sk in b.positions then b.positions[sk] else NoPosition;
    var (bal1, pos1) :=
      if pre.orderId == o.orderId then
        var dq := o.filledQty - pre.filledQty;
        var damt := o.filledAmt - pre.filledAmt;
        var cq := o.cancelQty - pre.cancelQty;
        if o.status == Rejected then
          if IsBuy(o.tradeSide) then (bal + o.orderQty as real * o.orderPrice, pos)
          else (bal, pos.(enabledQty := pos.enabledQty + o.orderQty))
        else if IsBuy(o.tradeSide) then
          (bal + cq as real * o.orderPrice, pos.(enabledQty := pos.enabledQty + dq, currentQty := pos.currentQty + dq))
        else
          (bal + damt, pos.(enabledQty := pos.enabledQty + cq, currentQty := pos.currentQty - dq))
      else if o.symbol in b.mds then
        var md := b.mds[o.symbol];
        var frozenPrice := if o.orderPrice != 0.0 then o.orderPrice else MaxReal3(Bid1(md), Ask1(md), md.price);
        if IsBuy(o.tradeSide) then (bal - frozenPrice * o.orderQty as real, pos)
        else (bal, pos.(enabledQty := pos.enabledQty - o.orderQty))
      else (bal, pos);
    var pos2 := if o.symbol in b.mds then MarkTo(pos1, b.mds[o.symbol].price) else pos1;
    b.(balances := b.balances[key := bal1], positions := b.positions[sk := pos2])
  }

  /**
   * Freezing at placement and releasing at rejection cancel out: a priced
   * buy gets its cash back, a sell its shares.
   */
  lemma RejectReleasesFreeze(b: Book, o: Order)
    requires o.symbol in b.mds && o.orderId != 0 && o.orderPrice != 0.0
    ensures var placed := Refresh(b, o, DefaultOrder());
            var rejected := Refresh(placed, o.(status := Rejected), o);
            var key := OrderAcctKey(o);
            var sk := (key, o.symbol);
            (IsBuy(o.tradeSide) ==> rejected.balances[key] == (if key in b.balances then b.balances[key] else 0.0))
            && (!IsBuy(o.tradeSide) ==> rejected.positions[sk].enabledQty == (if sk in b.positions then b.positions[sk].enabledQty else 0))
  {
  }

  /**
   * Freezing at placement and cancelling before any fill cancel out too:
   * the cancelled quantity releases the frozen cash or shares.
   */
  lemma CancelReleasesFreeze(b: Book, o: Order)
    requires o.symbol in b.mds && o.orderId != 0 && o.orderPrice != 0.0 && o.filledQty == 0 && o.cancelQty == 0
    ensures var placed := Refresh(b, o, DefaultOrder());
            var cancelled := Refresh(placed, o.(status := Canceled, cancelQty := o.orderQty), o);
            var key := OrderAcctKey(o);
            var sk := (key, o.symbol);
            (IsBuy(o.tradeSide) ==> cancelled.balances[key] == (if key in b.balances then b.balances[key] else 0.0))
            && (!IsBuy(o.tradeSide) ==> cancelled.positions[sk].enabledQty == (if sk in b.positions then b.positions[sk].enabledQty else 0))
  {
  }

  /**
   * Preloads a position: keyed by the account and the position's own
   * symbol, an existing entry is kept, and an account seen for the first
   * time gets the default capital as its enabled cash.
   */
  function AddPosition(b: Book, acct: AcctKey, pos: Position): (r: Book)
    ensures r == b.(balances := r.balances, positions := r.positions)
    ensures (acct, pos.symbol) in r.positions
    ensures (acct, pos.symbol) !in b.positions ==> r.positions == b.positions[(acct, pos.symbol) := pos]
    ensures (acct, pos.symbol) in b.positions ==> r.positions == b.positions
    ensures acct !in b.balances ==> r.balances == b.balances[acct := DefaultCapital]
    ensures acct in b.balances ==> r.balances == b.balances
  {
    var sk := (acct, pos.symbol);
    var bal := if acct in b.balances then b.balances else b.balances[acct := DefaultCapital];
    var ps := if sk in b.positions then b.positions else b.positions[sk := pos];
    b.(balances := bal, positions := ps)
  }

  /** Statuses of orders still being sent or reported are promoted to NEW at matching; a zero price rejects. */
  function Promote(o: Order): (r: Order)
    ensures o.orderPrice == 0.0 ==> r.status == Rejected
    ensures o.orderPrice != 0.0 && o.status in {Unsent, SentUnknown, SentOk, Reporting} ==> r.status == New
    ensures o.orderPrice != 0.0 && o.status !in {Unsent, SentUnknown, SentOk, Reporting} ==> r.status == o.status
    ensures r == o.(status := r.status)
  {
    var o1 := if o.status in {Unsent, SentUnknown, SentOk, Reporting} then o.(status := New) else o;
    if o.orderPrice == 0.0 then o1.(status := Rejected) else o1
  }

  /** A buy crosses when it reaches a quoted ask 1; a sell when it is priced and reaches bid 1. */
  predicate Aggressive(o: Order, md: MarketDepth)
  {
    if IsBuy(o.tradeSide) then o.orderPrice >= Ask1(md) && Ask1(md) > 0.0
    else o.orderPrice <= Bid1(md) && o.orderPrice > 0.0
  }

  /**
   * A resting order that can be reached by trades: a buy below ask 1, at or
   * above a quoted bid 1 and not below the last price; a sell above bid 1,
   * at or below ask 1 and strictly above the last price (tolerance 0.00001).
   */
  predicate Pegged(o: Order, md: MarketDepth)
  {
    if IsBuy(o.tradeSide) then
      o.orderPrice < Ask1(md) && Bid1(md) > 0.0 && o.orderPrice - Bid1(md) > -0.00001 && -0.00001 <= o.orderPrice - md.price
    else
      o.orderPrice > Bid1(md) && o.orderPrice <= Ask1(md) && md.price - o.orderPrice >= 0.00001
  }

  /** The outcome of matching one order against one tick. */
  datatype Match = Match(order: Order, queueVol: int, trade: Trade)

  function Abs(x: int): nat { if x < 0 then -x else x }

  /** The queue volume once known: the volume quoted at the order price, or still unknown (-1). */
  function KnownQueue(queueVol: int, o: Order, md: MarketDepth): (q: int)
    ensures queueVol != -1 ==> q == queueVol
    ensures queueVol == -1 ==> q == (if VolAtPrice(md, o.orderPrice) > 0 then VolAtPrice(md, o.orderPrice) else -1)
  {
    if queueVol == -1 then (if VolAtPrice(md, o.orderPrice) > 0 then VolAtPrice(md, o.orderPrice) else -1) else queueVol
  }

  /** The crossing fill: what the opposite side yields within the price, up to the unfilled quantity. */
  function CrossFill(o: Order, md: MarketDepth): (r: (Order, Trade))
    ensures var side := if IsBuy(o.tradeSide) then AskSide else BidSide;
            var m := TryMatchWithinPrice(md, side, o.orderPrice, o.orderQty - o.filledQty);
            r.1.qty == m.0 && r.1.amount == m.1 && r.0.filledQty == o.filledQty + m.0
    ensures r.0.filledQty == r.0.orderQty ==> r.0.status == Filled
    ensures r.0.filledQty != r.0.orderQty ==> r.0.status == o.status
    ensures 0 <= o.filledQty <= o.orderQty ==> r.0.filledQty <= o.orderQty
    ensures r.0 == o.(filledQty := r.0.filledQty, status := r.0.status)
  {
    var side := if IsBuy(o.tradeSide) then AskSide else BidSide;
    var m := TryMatchWithinPrice(md, side, o.orderPrice, o.orderQty - o.filledQty);
    var filled := o.filledQty + m.0;
    var price := if m.0 != 0 then m.1 / m.0 as real else 0.0;
    (o.(filledQty := filled, status := if filled == o.orderQty then Filled else o.status), Trade(o.orderId, m.0, m.1, price))
  }

  /**
   * The queue fill of a resting order: the traded volume advances the
   * queue; once it is more than 100 past the order, the order fills that
   * overshoot (at most what is unfilled) at its own price and the queue
   * restarts at 0.
   */
  function QueueFill(o: Order, queueVol: int, tradeVol: int): (r: (Order, int, Trade))
    ensures queueVol - tradeVol >= -100 ==> r == (o, queueVol - tradeVol, Trade(o.orderId, 0, 0.0, 0.0))
    ensures queueVol - tradeVol < -100 ==>
              var q := Arith.Min(Abs(queueVol - tradeVol), o.orderQty - o.filledQty);
              r.1 == 0 && r.2.qty == q && r.2.price == o.orderPrice && r.2.amount == o.orderPrice * q as real
              && (o.filledQty + q >= o.orderQty ==> r.0.filledQty == o.orderQty && r.0.status == Filled)
              && (o.filledQty + q < o.orderQty ==>
                    r.0.filledQty == o.filledQty + q && r.0.status == (if o.filledQty + q > 0 then PartialFilled else o.status))
    ensures o.filledQty <= o.orderQty ==> o.filledQty <= r.0.filledQty <= o.orderQty
    ensures r.0 == o.(filledQty := r.0.filledQty, status := r.0.status)
  {
    var qv := queueVol - tradeVol;
    if qv < -100 then
      var q := Arith.Min(Abs(qv), o.orderQty - o.filledQty);
      var filled := o.filledQty + q;
      var o1 := if filled >= o.orderQty then o.(status := Filled, filledQty := o.orderQty)
                else if filled > 0 then o.(filledQty := filled, status := PartialFilled)
                else o.(filledQty := filled);
      (o1, 0, Trade(o.orderId, q, o.orderPrice * q as real, o.orderPrice))
    else (o, qv, Trade(o.orderId, 0, 0.0, 0.0))
  }

  /** The fill phase of matching: cross, fill from the queue, or nothing, after promoting the status. */
  function Fill(o: Order, qv: int, md: MarketDepth): (r: (Order, int, Trade))
    ensures Aggressive(o, md) ==> r == (CrossFill(Promote(o), md).0, qv, CrossFill(Promote(o), md).1)
    ensures !Aggressive(o, md) && Pegged(o, md) ==> r == QueueFill(Promote(o), qv, md.deltaVolume)
    ensures !Aggressive(o, md) && !Pegged(o, md) ==> r == (Promote(o), qv, Trade(o.orderId, 0, 0.0, 0.0))
    ensures 0 <= o.filledQty <= o.orderQty ==> r.0.filledQty <= o.orderQty
    ensures r.0 == o.(filledQty := r.0.filledQty, status := r.0.status)
  {
    var p := Promote(o);
    if Aggressive(o, md) then
      var (c, tr) := CrossFill(p, md);
      (c, qv, tr)
    else if Pegged(o, md) then QueueFill(p, qv, md.deltaVolume)
    else (p, qv, Trade(o.orderId, 0, 0.0, 0.0))
  }

  /**
   * Matches one order against one tick: promote the status, learn the
   * queue volume, then either cross, or fill from the queue, or nothing;
   * accumulate the amount and average price; finally a positive queue
   * volume is capped by what the tick now quotes at the order price.
   */
  function MatchStep(o: Order, queueVol: int, md: MarketDepth): (m: Match)
    ensures Aggressive(o, md) ==>
              m.trade == CrossFill(Promote(o), md).1 && m.order.filledQty == CrossFill(Promote(o), md).0.filledQty
    ensures !Aggressive(o, md) && Pegged(o, md) ==>
              m.trade == QueueFill(Promote(o), KnownQueue(queueVol, o, md), md.deltaVolume).2
    ensures !Aggressive(o, md) && !Pegged(o, md) ==>
              m.trade.qty == 0 && m.order.filledQty == o.filledQty && m.order.status == Promote(o).status
    ensures o.orderPrice == 0.0 ==> !Aggressive(o, md)
    ensures o.orderPrice == 0.0 && !Pegged(o, md) ==> m.order.status == Rejected && m.trade.qty == 0
    ensures 0 <= o.filledQty <= o.orderQty ==> m.order.filledQty <= o.orderQty
    ensures m.order.filledAmt == o.filledAmt + m.trade.amount
    ensures m.order.filledQty > 0 ==> m.order.avgPrice == m.order.filledAmt / m.order.filledQty as real
    ensures m.order.orderId == o.orderId && m.order.orderQty == o.orderQty && m.order.orderPrice == o.orderPrice
    ensures m.order.symbol == o.symbol && m.order.tradeSide == o.tradeSide && m.order.acct == o.acct
  {
    var (o1, qv1, t) := Fill(o, KnownQueue(queueVol, o, md), md);
    var amt := o1.filledAmt + t.amount;
    var o2 := o1.(filledAmt := amt, avgPrice := if o1.filledQty > 0 then amt / o1.filledQty as real else o1.avgPrice);
    var pegVol := VolAtPrice(md, o.orderPrice);
    var qv2 := if qv1 > 0 && pegVol > 0 then Arith.Min(pegVol, qv1) else qv1;
    Match(o2, qv2, t)
  }

  /** A crossing order's queue volume is never used: a peg fill needs a non-crossing order. */
  lemma PegFillOnlyPastQueue(o: Order, queueVol: int, md: MarketDepth)
    requires MatchStep(o, queueVol, md).trade.qty != 0 && !Aggressive(o, md)
    ensures Pegged(o, md)
    ensures KnownQueue(queueVol, o, md) - md.deltaVolume < -100
    ensures MatchStep(o, queueVol, md).queueVol == 0
  {
  }

  /**
   * Matches the queued order id against md and publishes the result only
   * if it is newer than the stored snapshot; the queue volume is kept
   * either way. A published snapshot gets the tick time in a backtest and
   * now otherwise, and a trade is published with it when it filled
   * something.
   */
  function MatchOrder(b: Book, id: nat, md: MarketDepth, now: int): (r: (Book, seq<Notice>))
    requires id in b.queue && id in b.orders
    ensures var m := MatchStep(b.orders[id], b.queue[id], md);
            r.0.queue == b.queue[id := m.queueVol]
            && (IsNewerThan(m.order, b.orders[id]) ==>
                  var o2 := m.order.(updTime := if b.backtest then md.quoteTime else now);
                  r.0.orders == b.orders[id := o2]
                  && r.1 == [OrderUpdate(o2)] + (if m.trade.qty > 0 then [TradeReport(m.trade)] else []))
            && (!IsNewerThan(m.order, b.orders[id]) ==> r.0.orders == b.orders && r.1 == [] && r.0.balances == b.balances)
    ensures r.0.stopped == b.stopped && r.0.backtest == b.backtest && r.0.mds == b.mds
    ensures r.0.queue.Keys == b.queue.Keys && r.0.orders.Keys == b.orders.Keys
    ensures forall k :: k in b.orders && k != id ==> r.0.orders[k] == b.orders[k]
  {
    var pre := b.orders[id];
    var m := MatchStep(pre, b.queue[id], md);
    var b1 := b.(queue := b.queue[id := m.queueVol]);
    if IsNewerThan(m.order, pre) then
      var o2 := m.order.(updTime := if b.backtest then md.quoteTime else now);
      (Publish(b1, id, o2, pre), [OrderUpdate(o2)] + (if m.trade.qty > 0 then [TradeReport(m.trade)] else []))
    else (b1, [])
  }

  /** Stores the new snapshot of order id and refreshes cash and position from the old one. */
  function Publish(b: Book, id: nat, o: Order, pre: Order): (r: Book)
    ensures r.orders == b.orders[id := o] && r.queue == b.queue && r.mds == b.mds
    ensures r.stopped == b.stopped && r.backtest == b.backtest
  {
    Refresh(b.(orders := b.orders[id := o]), o, pre)
  }

  /** Drops id from the queue when its stored snapshot is final. */
  function Sweep(b: Book, id: nat): (r: Book)
    requires id in b.orders
    ensures r == b.(queue := r.queue)
    ensures b.orders[id].IsFinal() ==> r.queue == b.queue - {id}
    ensures !b.orders[id].IsFinal() ==> r.queue == b.queue
  {
    if b.orders[id].IsFinal() then b.(queue := b.queue - {id}) else b
  }

  /**
   * Places an order. A stopped book refuses it. A known order id is
   * reported back as REJECTED and refused, storing nothing. Otherwise the
   * order is stored and queued with an unknown queue volume; when its
   * symbol has a tick it takes that tick's time (all times in a backtest),
   * freezes cash or shares, and is matched at once, leaving the queue if it
   * ends final.
   */
  function PlaceOrder(b: Book, o: Order, now: int): (r: (Book, bool, seq<Notice>))
    ensures b.stopped ==> r == (b, false, [])
    ensures !b.stopped && o.orderId in b.orders ==> r == (b, false, [OrderUpdate(o.(status := Rejected))])
    ensures !b.stopped && o.orderId !in b.orders ==> r.1 && (r.0, r.2) == PlaceNew(b, o, now)
  {
    if b.stopped then (b, false, [])
    else if o.orderId in b.orders then (b, false, [OrderUpdate(o.(status := Rejected))])
    else
      var (b1, notices) := PlaceNew(b, o, now);
      (b1, true, notices)
  }

  /**
   * Accepts an order with a new id: it is stored and queued with an
   * unknown queue volume, and matched at once when its symbol has a tick.
   * The other orders are untouched.
   */
  function PlaceNew(b: Book, o: Order, now: int): (r: (Book, seq<Notice>))
    requires o.orderId !in b.orders
    ensures o.orderId in r.0.orders && r.0.orders.Keys == b.orders.Keys + {o.orderId}
    ensures forall id :: id in b.orders ==> r.0.orders[id] == b.orders[id]
    ensures r.0.queue.Keys - {o.orderId} == b.queue.Keys - {o.orderId}
    ensures o.symbol !in b.mds ==> r.0.orders[o.orderId] == o && r.0.queue == b.queue[o.orderId := -1] && r.1 == []
  {
    if o.symbol !in b.mds then
      (b.(orders := b.orders[o.orderId := o], queue := b.queue[o.orderId := -1]), [])
    else
      var a := Admit(b, o);
      assert a.orders.Keys == b.orders.Keys + {o.orderId};
      assert forall id :: id in b.orders ==> id != o.orderId && a.orders[id] == b.orders[id];
      MatchAndSweep(a, o.orderId, b.mds[o.symbol], now)
  }

  /**
   * Stores and queues a new order on a symbol with a tick: it takes the
   * tick's time (all times in a backtest) and freezes cash or shares.
   */
  function Admit(b: Book, o: Order): (r: Book)
    requires o.symbol in b.mds
    ensures o.orderId in r.orders && r.orders == b.orders[o.orderId := r.orders[o.orderId]] && r.queue == b.queue[o.orderId := -1]
    ensures r.orders[o.orderId] == o.(quoteTime := b.mds[o.symbol].quoteTime, updTime := r.orders[o.orderId].updTime,
                                      orderTime := r.orders[o.orderId].orderTime)
    ensures r.orders[o.orderId].updTime == if b.backtest then b.mds[o.symbol].quoteTime else o.updTime
    ensures r.orders[o.orderId].orderTime == if b.backtest then b.mds[o.symbol].quoteTime else o.orderTime
    ensures r.mds == b.mds && r.stopped == b.stopped && r.backtest == b.backtest
  {
    var md := b.mds[o.symbol];
    var o1 := if b.backtest then o.(orderTime := md.quoteTime, updTime := md.quoteTime, quoteTime := md.quoteTime)
              else o.(quoteTime := md.quoteTime);
    Refresh(b.(orders := b.orders[o.orderId := o1], queue := b.queue[o.orderId := -1]), o1, DefaultOrder())
  }

  /** Placement keeps only unfinished orders in the queue. */
  lemma PlaceKeepsQueueUnfinished(b: Book, o: Order, now: int)
    requires QueueHoldsUnfinished(b)
    requires !o.IsFinal()
    ensures QueueHoldsUnfinished(PlaceOrder(b, o, now).0)
  {
    if !b.stopped && o.orderId !in b.orders && o.symbol in b.mds {
      assert QueueHoldsUnfinished(Admit(b, o));
    }
  }

  /**
   * Cancels an order. A stopped book, an unknown id or a final order
   * refuses with nothing changed. Otherwise the order becomes CANCELED
   * when nothing filled and PARTIALCANCEL (with its average price
   * recomputed) otherwise, the unfilled rest is its cancelled quantity, the
   * update is published and the order leaves the queue.
   */
  function CancelOrder(b: Book, id: nat): (r: (Book, bool, seq<Notice>))
    ensures b.stopped || id !in b.orders || b.orders[id].IsFinal() ==> r == (b, false, [])
    ensures !b.stopped && id in b.orders && !b.orders[id].IsFinal() ==>
              var o := b.orders[id];
              r.1 && id in r.0.orders && id !in r.0.queue && r.0.queue == b.queue - {id}
              && r.0.orders[id].status == (if o.filledQty == 0 then Canceled else PartialCancel)
              && r.0.orders[id].cancelQty == o.orderQty - o.filledQty
              && r.0.orders[id].filledQty == o.filledQty
              && r.0.orders == b.orders[id := r.0.orders[id]]
              && r.2 == [OrderUpdate(r.0.orders[id])]
  {
    if b.stopped || id !in b.orders || b.orders[id].IsFinal() then (b, false, [])
    else
      var o := b.orders[id];
      var o1 := if o.filledQty == 0 then o.(status := Canceled)
                else o.(status := PartialCancel, avgPrice := o.filledAmt / o.filledQty as real);
      var o2 := o1.(cancelQty := o.orderQty - o.filledQty);
      var o3 := if o.symbol in b.mds && b.backtest then o2.(updTime := b.mds[o.symbol].quoteTime) else o2;
      var b1 := Refresh(b.(orders := b.orders[id := o3]), o3, o);
      (b1.(queue := b.queue - {id}), true, [OrderUpdate(o3)])
  }

  lemma CancelKeepsQueueUnfinished(b: Book, id: nat)
    requires QueueHoldsUnfinished(b)
    ensures QueueHoldsUnfinished(CancelOrder(b, id).0)
  {
  }

  /** A successful cancel is final, so a second cancel of the same order is refused. */
  lemma CancelTwiceRefused(b: Book, id: nat)
    requires CancelOrder(b, id).1
    ensures CancelOrder(CancelOrder(b, id).0, id) == (CancelOrder(b, id).0, false, [])
  {
  }

  /** The queued orders of one symbol. */
  function QueuedOf(b: Book, sym: string): set<nat>
  {
    set id | id in b.queue && id in b.orders && b.orders[id].symbol == sym
  }

  /** Matches one queued order and sweeps it if it ended final. */
  function MatchAndSweep(b: Book, id: nat, md: MarketDepth, now: int): (r: (Book, seq<Notice>))
    requires id in b.queue && id in b.orders
    ensures r.0.stopped == b.stopped && r.0.backtest == b.backtest && r.0.mds == b.mds
    ensures r.0.queue.Keys <= b.queue.Keys && r.0.orders.Keys == b.orders.Keys
    ensures r.0.queue.Keys - {id} == b.queue.Keys - {id}
    ensures forall k :: k in b.orders && k != id ==> r.0.orders[k] == b.orders[k]
    ensures QueueHoldsUnfinished(b) ==> QueueHoldsUnfinished(r.0)
    ensures r.1 == MatchOrder(b, id, md, now).1
  {
    var m := MatchOrder(b, id, md, now);
    (Sweep(m.0, id), m.1)
  }

  /** Matches and sweeps each listed order in turn. */
  function MatchAll(b: Book, ids: seq<nat>, md: MarketDepth, now: int): (r: (Book, seq<Notice>))
    ensures r.0.stopped == b.stopped && r.0.backtest == b.backtest && r.0.mds == b.mds
    ensures r.0.queue.Keys <= b.queue.Keys
    ensures r.0.orders.Keys == b.orders.Keys
    ensures QueueHoldsUnfinished(b) ==> QueueHoldsUnfinished(r.0)
    decreases |ids|
  {
    if ids == [] then (b, [])
    else if ids[0] in b.queue && ids[0] in b.orders then
      var m1 := MatchAndSweep(b, ids[0], md, now);
      var m2 := MatchAll(m1.0, ids[1..], md, now);
      (m2.0, m1.1 + m2.1)
    else
      MatchAll(b, ids[1..], md, now)
  }

  /**
   * A tick: it is recorded for its symbol; outside continuous trading
   * nothing is matched; with no order queued for the symbol the positions
   * whose own symbol field is the tick's are marked to its price (a
   * position a refresh created has an empty symbol field and is skipped);
   * otherwise each queued order of
   * the symbol is matched, in the order ids lists them. A stopped book
   * ignores ticks.
   */
  function OnMarketDepth(b: Book, md: MarketDepth, ids: seq<nat>, now: int): (r: (Book, seq<Notice>))
    requires Seqs.IsEnumeration(ids, QueuedOf(b, md.symbol))
    ensures b.stopped ==> r == (b, [])
    ensures !b.stopped ==> r.0.mds == b.mds[md.symbol := md]
    ensures !b.stopped && !MarketTime.IsInContinuousTrading(md.quoteTime) ==>
              r == (b.(mds := b.mds[md.symbol := md]), [])
    ensures !b.stopped && QueuedOf(b, md.symbol) == {} ==>
              r.1 == [] && r.0.orders == b.orders && r.0.queue == b.queue
    ensures !b.stopped && MarketTime.IsInContinuousTrading(md.quoteTime) && QueuedOf(b, md.symbol) == {} ==>
              r.0 == b.(mds := r.0.mds, positions := r.0.positions)
              && r.0.positions.Keys == b.positions.Keys
              && (forall k :: k in b.positions && b.positions[k].symbol == md.symbol ==>
                    r.0.positions[k] == MarkTo(b.positions[k], md.price))
              && (forall k :: k in b.positions && b.positions[k].symbol != md.symbol ==>
                    r.0.positions[k] == b.positions[k])
    ensures r.0.queue.Keys <= b.queue.Keys && r.0.orders.Keys == b.orders.Keys
  {
    if b.stopped then (b, [])
    else
      var b1 := b.(mds := b.mds[md.symbol := md]);
      if !MarketTime.IsInContinuousTrading(md.quoteTime) then (b1, [])
      else if QueuedOf(b, md.symbol) == {} then
        var ps := map k | k in b1.positions ::
                    if b1.positions[k].symbol == md.symbol then MarkTo(b1.positions[k], md.price) else b1.positions[k];
        (b1.(positions := ps), [])
      else
        assert QueuedOf(b1, md.symbol) == QueuedOf(b, md.symbol);
        MatchAll(b1, ids, md, now)
  }

  /** Ticks keep only unfinished orders in the queue. */
  lemma TickKeepsQueueUnfinished(b: Book, md: MarketDepth, ids: seq<nat>, now: int)
    requires Seqs.IsEnumeration(ids, QueuedOf(b, md.symbol))
    requires QueueHoldsUnfinished(b)
    ensures QueueHoldsUnfinished(OnMarketDepth(b, md, ids, now).0)
  {
    if !b.stopped && MarketTime.IsInContinuousTrading(md.quoteTime) && QueuedOf(b, md.symbol) != {} {
      var b1 := b.(mds := b.mds[md.symbol := md]);
      assert forall id :: id in ids && id in b1.queue ==> id in b1.orders;
    }
  }

  /**
   * A position that a refresh created keeps its empty symbol field, so a
   * later tick for its symbol with no order queued leaves its last price and
   * value as the refresh wrote them.
   */
  lemma RefreshedPositionNotMarked(b: Book, o: Order, pre: Order, md: MarketDepth, now: int)
    requires (OrderAcctKey(o), o.symbol) !in b.positions
    requires !b.stopped && md.symbol == o.symbol && o.symbol != ""
    requires MarketTime.IsInContinuousTrading(md.quoteTime) && QueuedOf(b, md.symbol) == {}
    ensures var b1 := Refresh(b, o, pre);
            var r := OnMarketDepth(b1, md, [], now).0;
            r.positions[(OrderAcctKey(o), o.symbol)] == b1.positions[(OrderAcctKey(o), o.symbol)]
  {
    var b1 := Refresh(b, o, pre);
    assert QueuedOf(b1, md.symbol) == QueuedOf(b, md.symbol);
    assert b1.positions[(OrderAcctKey(o), o.symbol)].symbol == "";
  }

  /**
   * A preloaded position carries its symbol, so such a tick marks it to the
   * tick's price.
   */
  lemma PreloadedPositionMarked(b: Book, acct: AcctKey, pos: Position, md: MarketDepth, now: int)
    requires (acct, pos.symbol) !in b.positions
    requires !b.stopped && md.symbol == pos.symbol
    requires MarketTime.IsInContinuousTrading(md.quoteTime) && QueuedOf(b, md.symbol) == {}
    ensures var b1 := AddPosition(b, acct, pos);
            OnMarketDepth(b1, md, [], now).0.positions[(acct, pos.symbol)] == MarkTo(pos, md.price)
  {
    var b1 := AddPosition(b, acct, pos);
    assert QueuedOf(b1, md.symbol) == QueuedOf(b, md.symbol);
  }
}

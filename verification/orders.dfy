/**
 * Child order snapshots and the staleness gate every consumer applies
 * before replacing a stored snapshot by a newer one.
 */
module Orders {
  import opened Wrappers
  import opened Status
  import opened AcctKeys

  datatype Order = Order(
    orderId: nat,
    brokerId: nat,
    acctType: AcctType,
    acct: string,
    symbol: string,
    tradeSide: int,
    status: int,
    orderQty: int,
    orderPrice: real,
    filledQty: int,
    avgPrice: real,
    filledAmt: real,
    cancelQty: int,
    algoOrderId: nat,
    orderTime: int,
    updTime: int,
    quoteTime: int,
    text: string)
  {
    predicate IsFinal() { IsFinalOrder(status) }
    predicate IsBuyOrder() { IsBuy(tradeSide) }
  }

  /** A fresh order record: every field at its default, status UNSENT. */
  function DefaultOrder(): (o: Order)
    ensures o.status == Unsent && !o.IsFinal()
    ensures o.orderQty == 0 && o.filledQty == 0 && o.cancelQty == 0
  {
    Order(0, 0, AcctType(0, ""), "", "", 0, Unsent, 0, 0.0, 0, 0.0, 0.0, 0, 0, 0, 0, 0, "")
  }

  /**
   * Whether o should replace the previously stored snapshot prev: never
   * once prev is final; always when o is final, has filled more, or prev
   * was still being sent or reported.
   */
  function IsNewerThan(o: Order, prev: Order): (r: bool)
    ensures IsFinalOrder(prev.status) ==> !r
    ensures !IsFinalOrder(prev.status) && IsFinalOrder(o.status) ==> r
    ensures !IsFinalOrder(prev.status) && o.filledQty > prev.filledQty ==> r
    ensures prev.status in {Unsent, SentFailed, SentUnknown, SentOk, Reporting} ==> r
    ensures (!IsFinalOrder(o.status) && o.filledQty <= prev.filledQty
             && prev.status >= New && prev.status != Reporting) ==> !r
  {
    if prev.IsFinal() then false
    else if o.IsFinal() || o.filledQty > prev.filledQty
            || (prev.status == Reporting || prev.status <= SentOk) then true
    else false
  }

  /** The overload whose previous snapshot may be missing (a null previous order): a missing one is always older. */
  function IsNewerThanOpt(o: Order, prev: Option<Order>): (r: bool)
    ensures prev.None? ==> r
    ensures prev.Some? ==> r == IsNewerThan(o, prev.value)
  {
    match prev
    case None => true
    case Some(p) => IsNewerThan(o, p)
  }

  /** An identical non-final duplicate of a NEW or PARTIALFILLED snapshot is not newer. */
  lemma DuplicateIsNotNewer(o: Order)
    requires o.status in {New, PartialFilled}
    ensures !IsNewerThan(o, o)
  {
  }

  /**
   * The gate is monotone along an accepted chain: once a final snapshot is
   * accepted, no later snapshot passes the gate.
   */
  lemma FinalSnapshotIsSticky(prev: Order, o: Order, later: Order)
    requires IsNewerThan(o, prev) && o.IsFinal()
    ensures !IsNewerThan(later, o)
  {
  }

  /** The account key: type code, account and broker, unchanged. */
  function OrderAcctKey(o: Order): (k: AcctKey)
    ensures k.acctType == o.acctType.code && k.acct == o.acct && k.broker == o.brokerId
  {
    AcctKey(o.acctType.code, o.acct, o.brokerId)
  }

  /**
   * The key of the order book the order belongs to: in replay every
   * instruction has its own book, so its id takes the broker's place.
   */
  function OrderBookKey(o: Order): (k: AcctKey)
    ensures QuoteModeOf(o.acctType.name) == Replay ==> k == AcctKey(o.acctType.code, o.acct, o.algoOrderId)
    ensures QuoteModeOf(o.acctType.name) != Replay ==> k == OrderAcctKey(o)
  {
    if QuoteModeOf(o.acctType.name) == Replay then AcctKey(o.acctType.code, o.acct, o.algoOrderId)
    else AcctKey(o.acctType.code, o.acct, o.brokerId)
  }
}

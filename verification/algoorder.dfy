/**
 * The algorithmic instruction: what to trade, within which window and
 * under which limits, plus its free-form parameter map.
 */
module AlgoOrders {
  import opened Wrappers
  import opened Status
  import opened AcctKeys
  import Numbers

  datatype Strategy = TWAP | VWAP | T0 | Spread | Shot | Hit | OtherStrategy(code: int)

  datatype Category = CatAlgo | CatT0 | CatSpread | CatShot | CatHit

  /** One slice of the schedule and the execution state inside it. */
  datatype Slicer = Slicer(
    index: nat,
    cumQty: int,
    bias: real,
    isLast: bool,
    duration: real,
    qty2make: int,
    qty2take: int,
    durationRemain: real,
    roundsRemain: int,
    qty2makeRemain: int,
    qty2takeRemain: int)

  /** A slice as default-constructed. */
  function DefaultSlicer(): (s: Slicer)
    ensures s.bias == 0.05 && s.roundsRemain == 1 && !s.isLast
    ensures s.index == 0 && s.cumQty == 0 && s.qty2make == 0 && s.qty2take == 0
    ensures s.qty2makeRemain == 0 && s.qty2takeRemain == 0
    ensures s.duration == 0.0 && s.durationRemain == 0.0
  {
    Slicer(0, 0, 0.05, false, 0.0, 0, 0, 0.0, 1, 0, 0)
  }

  datatype AlgoOrder = AlgoOrder(
    algoOrderId: nat,
    clientAlgoOrderId: string,
    acctType: AcctType,
    acct: string,
    brokerId: nat,
    symbol: string,
    category: Category,
    strategy: Strategy,
    tradeSide: int,
    qtyTarget: nat,
    amtTarget: real,
    startTime: int,
    endTime: int,
    execDuration: real,
    priceLimit: real,
    participateRate: real,
    minAmountPerOrder: real,
    notPegOrderAtLimitPrice: bool,
    notBuyOnLLOrSellOnHL: bool,
    isParentOrder: bool,
    parentAlgoOrderId: nat,
    createTime: int,
    params: map<string, string>)

  /** A default-constructed instruction; its creation time is an input. */
  function DefaultAlgoOrder(createTime: int): (o: AlgoOrder)
    ensures o.category == CatAlgo && o.strategy == TWAP && o.tradeSide == -1
    ensures o.notPegOrderAtLimitPrice && o.notBuyOnLLOrSellOnHL && o.isParentOrder
    ensures o.qtyTarget == 0 && o.brokerId == 0 && o.parentAlgoOrderId == 0 && o.params == map[]
  {
    AlgoOrder(0, "", AcctType(0, ""), "", 0, "", CatAlgo, TWAP, -1, 0, 0.0, 0, 0,
              0.0, 0.0, 0.0, 0.0, true, true, true, 0, createTime, map[])
  }

  /** The string parameter, or the default when the key is absent. */
  function GetOrDefaultStr(o: AlgoOrder, key: string, default: string): (r: string)
    ensures key in o.params ==> r == o.params[key]
    ensures key !in o.params ==> r == default
  {
    if key in o.params then o.params[key] else default
  }

  /**
   * The integer parameter: the default when the key is absent or when the
   * stored text is not a number (get_int swallows the parse error).
   */
  function GetOrDefaultInt(o: AlgoOrder, key: string, default: int): (r: int)
    ensures key !in o.params ==> r == default
    ensures key in o.params && Numbers.Stol(o.params[key]).None? ==> r == default
    ensures key in o.params && Numbers.Stol(o.params[key]).Some?
            && -Numbers.Pow31 <= Numbers.Stol(o.params[key]).value < Numbers.Pow31
            ==> r == Numbers.Stol(o.params[key]).value
  {
    if key in o.params then Numbers.GetInt(o.params[key], default) else default
  }

  /**
   * The real parameter. Decimal-to-double parsing is not modelled: the
   * parser is an input that answers None where std::stod throws.
   */
  function GetOrDefaultReal(o: AlgoOrder, key: string, default: real, parse: string -> Option<real>): (r: real)
    ensures key !in o.params ==> r == default
    ensures key in o.params && parse(o.params[key]).None? ==> r == default
    ensures key in o.params && parse(o.params[key]).Some? ==> r == parse(o.params[key]).value
  {
    if key in o.params then parse(o.params[key]).GetOr(default) else default
  }

  function QuoteModeOfOrder(o: AlgoOrder): (m: QuoteMode)
    ensures forall p: AlgoOrder :: p.acctType == o.acctType ==> m == QuoteModeOf(p.acctType.name)
  {
    QuoteModeOf(o.acctType.name)
  }

  /** Backtest instructions are exactly the replay-mode ones. */
  predicate IsBackTestOrder(o: AlgoOrder)
    ensures IsBackTestOrder(o) <==> QuoteModeOf(o.acctType.name) == Replay
  {
    IsBackTestAcctType(o.acctType.name)
  }

  function AlgoAcctKey(o: AlgoOrder): (k: AcctKey)
    ensures k.acctType == o.acctType.code && k.acct == o.acct && k.broker == o.brokerId
  {
    AcctKey(o.acctType.code, o.acct, o.brokerId)
  }

  /** The book key: a backtest instruction has its own book, keyed by its id. */
  function AlgoBookKey(o: AlgoOrder): (k: AcctKey)
    ensures IsBackTestOrder(o) ==> k == AcctKey(o.acctType.code, o.acct, o.algoOrderId)
    ensures !IsBackTestOrder(o) ==> k == AlgoAcctKey(o)
  {
    if QuoteModeOfOrder(o) == Replay then AcctKey(o.acctType.code, o.acct, o.algoOrderId)
    else AcctKey(o.acctType.code, o.acct, o.brokerId)
  }
}

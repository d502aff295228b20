/**
 * Status codes and side codes of the engine (the integer constants of
 * AlgoStatus, OrderStatus and TradeSide), and the quote mode chosen from the
 * name of an account type.
 */
module Status {
  import Text

  // Instruction (algo) status codes.
  const Routing: int := 0
  const Creating: int := 1
  const Running: int := 2
  const Canceling: int := 4
  const Finished: int := 6
  const Expired: int := 8
  const Terminated: int := 10
  const Error: int := 12

  // Child order status codes.
  const Unsent: int := -4
  const SentFailed: int := -3
  const SentUnknown: int := -2
  const SentOk: int := -1
  const New: int := 0
  const PartialFilled: int := 1
  const Filled: int := 2
  const PartialCancel: int := 3
  const Canceled: int := 4
  const Rejected: int := 5
  const Reporting: int := 7
  const CancelingOrder: int := 8

  // Trade side codes.
  const Buy: int := 1
  const Sell: int := 2
  const MarginBuy: int := 3
  const MarginSell: int := 4
  const DebitBuy: int := 5
  const DebitSell: int := 6

  /** The four terminal instruction states. */
  function IsFinalAlgo(s: int): (r: bool)
    ensures r <==> s in {6, 8, 10, 12}
  {
    s == Finished || s == Expired || s == Terminated || s == Error
  }

  /** Running means neither terminal nor being cancelled. */
  function IsRunningAlgo(s: int): (r: bool)
    ensures r <==> s !in {4, 6, 8, 10, 12}
    ensures s == Routing || s == Creating || s == Running ==> r
  {
    if IsFinalAlgo(s) then false else s != Canceling
  }

  /** The four terminal order states. */
  function IsFinalOrder(s: int): (r: bool)
    ensures r <==> s in {2, 3, 4, 5}
  {
    s == Filled || s == Rejected || s == Canceled || s == PartialCancel
  }

  function IsUnfinishedOrder(s: int): (r: bool)
    ensures r <==> !(s in {2, 3, 4, 5})
  {
    !IsFinalOrder(s)
  }

  function IsCanceledOrder(s: int): (r: bool)
    ensures r ==> IsFinalOrder(s)
    ensures r <==> s in {3, 4}
  {
    s == Canceled || s == PartialCancel
  }

  /** The side names, in code order. */
  const SideNames: seq<string> := ["BUY", "SELL", "MARGINBUY", "MARGINSELL", "DEBITBUY", "DEBITSELL"]

  /**
   * A side code is valid when 1 <= ts < |SideNames|: the upper bound is
   * strict, so DEBITSELL (6) is refused although it has a name.
   */
  function IsValidSide(ts: int): (r: bool)
    ensures r <==> ts in {1, 2, 3, 4, 5}
    ensures ts == DebitSell ==> !r
  {
    1 <= ts < |SideNames|
  }

  function SideName(ts: int): (r: string)
    ensures IsValidSide(ts) ==> r == SideNames[ts - 1]
    ensures !IsValidSide(ts) ==> r == "unKnonw"
    ensures ts == DebitSell ==> r == "unKnonw"
  {
    if IsValidSide(ts) then SideNames[ts - 1] else "unKnonw"
  }

  function IsBuy(ts: int): (r: bool)
    ensures r <==> ts in {1, 3, 5}
  {
    ts == Buy || ts == MarginBuy || ts == DebitBuy
  }

  function IsSell(ts: int): (r: bool)
    ensures r <==> ts in {2, 4, 6}
  {
    ts == Sell || ts == MarginSell || ts == DebitSell
  }

  /** Buy and sell are disjoint and together cover exactly the six side codes. */
  lemma BuySellPartition(ts: int)
    ensures !(IsBuy(ts) && IsSell(ts))
    ensures IsBuy(ts) || IsSell(ts) <==> 1 <= ts <= 6
  {
  }

  datatype QuoteMode = Live | SimLive | Replay | SimCust

  /** Quote mode from the account type's name: first matching prefix wins. */
  function QuoteModeOf(acctTypeName: string): (m: QuoteMode)
    ensures Text.StartsWith(acctTypeName, "BT") <==> m == Replay
    ensures m == SimLive <==> !Text.StartsWith(acctTypeName, "BT") && Text.StartsWith(acctTypeName, "SIMLIVE")
    ensures m == SimCust <==> !Text.StartsWith(acctTypeName, "BT") && !Text.StartsWith(acctTypeName, "SIMLIVE")
                               && Text.StartsWith(acctTypeName, "SIMCUST")
    ensures m == Live <==> !Text.StartsWith(acctTypeName, "BT") && !Text.StartsWith(acctTypeName, "SIMLIVE")
                            && !Text.StartsWith(acctTypeName, "SIMCUST")
  {
    if Text.StartsWith(acctTypeName, "BT") then Replay
    else if Text.StartsWith(acctTypeName, "SIMLIVE") then SimLive
    else if Text.StartsWith(acctTypeName, "SIMCUST") then SimCust
    else Live
  }

  function IsBackTestAcctType(acctTypeName: string): (r: bool)
    ensures r <==> QuoteModeOf(acctTypeName) == Replay
  {
    Text.StartsWith(acctTypeName, "BT")
  }
}

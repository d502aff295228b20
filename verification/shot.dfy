/**
 * The shot strategy's own rules: splitting a parent instruction's symbol
 * pool into sub-instructions, its stop and cancel statuses, the win/loss
 * summary, the order size of a signal, and the signal id and update.
 */
module Shot {
  import opened Wrappers
  import opened Status
  import opened AlgoOrders
  import Security
  import Arith
  import Numbers
  import MarketTime
  import FeedReplay

  /** The number of sub-instructions: the pool size divided by the chunk size, rounded up. */
  function SubTaskCount(n: nat, perTask: nat): (c: nat)
    requires perTask > 0
    ensures (c - 1) * perTask < n <= c * perTask || (n == 0 && c == 0)
  {
    var q := n / perTask;
    if n - perTask * q > 0 then q + 1 else q
  }

  /** A sub-instruction: a copy of the parent under a fresh id, pointing at the parent and not itself a parent. */
  function SubOrder(parent: AlgoOrder, newId: nat): (s: AlgoOrder)
    ensures s == parent.(algoOrderId := newId, parentAlgoOrderId := parent.algoOrderId, isParentOrder := false)
    ensures !s.isParentOrder && s.parentAlgoOrderId == parent.algoOrderId && s.algoOrderId == newId
  {
    parent.(algoOrderId := newId, parentAlgoOrderId := parent.algoOrderId, isParentOrder := false)
  }

  /** The symbols of chunk i: pool positions i * perTask up to the next chunk or the end of the pool. */
  function Chunk(pool: seq<string>, perTask: nat, i: nat): (c: set<string>)
    ensures forall j :: i * perTask <= j < |pool| && j < i * perTask + perTask ==> pool[j] in c
    ensures forall x :: x in c ==> exists j :: i * perTask <= j < Arith.Min(i * perTask + perTask, |pool|) && pool[j] == x
  {
    set j | i * perTask <= j < Arith.Min(i * perTask + perTask, |pool|) :: pool[j]
  }

  /**
   * Splits the symbol pool (in the iteration order of the parent's symbol
   * set) into chunks of perTask symbols, one sub-instruction each, with
   * the fresh ids taken in order from newIds.
   */
  method CreateSubTasks(parent: AlgoOrder, pool: seq<string>, perTask: nat, newIds: seq<nat>)
    returns (subs: seq<(AlgoOrder, set<string>)>)
    requires perTask > 0
    requires |newIds| >= SubTaskCount(|pool|, perTask)
    ensures |subs| == SubTaskCount(|pool|, perTask)
    ensures forall i :: 0 <= i < |subs| ==> subs[i].0 == SubOrder(parent, newIds[i]) && subs[i].1 == Chunk(pool, perTask, i)
    ensures forall j :: 0 <= j < |pool| ==> j / perTask < |subs| && pool[j] in subs[j / perTask].1
  {
    var count := SubTaskCount(|pool|, perTask);
    subs := [];
    var i := 0;
    while i < count
      invariant 0 <= i <= count
      invariant |subs| == i
      invariant forall k :: 0 <= k < i ==> subs[k].0 == SubOrder(parent, newIds[k]) && subs[k].1 == Chunk(pool, perTask, k)
    {
      subs := subs + [(SubOrder(parent, newIds[i]), Chunk(pool, perTask, i))];
      i := i + 1;
    }
    forall j | 0 <= j < |pool|
      ensures j / perTask < |subs| && pool[j] in subs[j / perTask].1
    {
      ChunkOf(j, perTask, |pool|);
    }
  }

  /** Index j lies in chunk j / perTask, which exists. */
  lemma ChunkOf(j: nat, perTask: nat, n: nat)
    requires perTask > 0 && j < n
    ensures j / perTask < SubTaskCount(n, perTask)
    ensures (j / perTask) * perTask <= j < (j / perTask) * perTask + perTask
  {
    var q := j / perTask;
    var r := j % perTask;
    assert j == q * perTask + r && 0 <= r < perTask;
    var c := SubTaskCount(n, perTask);
    if q >= c {
      Arith.MulMonotone(q, c, perTask);
      assert false;
    }
  }

  /** Chunks of distinct indexes never overlap: an index lies in only one chunk. */
  lemma ChunksDisjoint(j: nat, perTask: nat, i: nat)
    requires perTask > 0
    requires i * perTask <= j < i * perTask + perTask
    ensures i == j / perTask
  {
    var q := j / perTask;
    var r := j % perTask;
    assert j == q * perTask + r && 0 <= r < perTask;
    Arith.DivModUnique(j, perTask, i, j - i * perTask);
  }

  /**
   * Hands the sub-instructions to the worker contexts: each worker takes
   * the last one still waiting, and it is started only when its pre-start
   * check passes. Returns the ids started and the sub-instructions left
   * waiting once every worker has taken one.
   */
  function SpawnSubTasks(subs: seq<(AlgoOrder, set<string>)>, workers: nat, passes: AlgoOrder -> bool)
    : (r: (seq<nat>, seq<(AlgoOrder, set<string>)>))
    ensures r.1 == subs[..|subs| - Arith.Min(workers, |subs|)]
    ensures forall id :: id in r.0 <==>
              exists i :: |r.1| <= i < |subs| && subs[i].0.algoOrderId == id && passes(subs[i].0)
    decreases workers
  {
    if workers == 0 || subs == [] then ([], subs)
    else
      var last := subs[|subs| - 1];
      var rest := SpawnSubTasks(subs[..|subs| - 1], workers - 1, passes);
      assert forall i :: 0 <= i < |subs| - 1 ==> subs[..|subs| - 1][i] == subs[i];
      ((if passes(last.0) then [last.0.algoOrderId] else []) + rest.0, rest.1)
  }

  /** Every sub-instruction is handed out exactly when there are at least as many workers as sub-instructions. */
  lemma AllSpawnedIffEnoughWorkers(subs: seq<(AlgoOrder, set<string>)>, workers: nat, passes: AlgoOrder -> bool)
    ensures SpawnSubTasks(subs, workers, passes).1 == [] <==> |subs| <= workers
  {
  }

  /** The status and message of a shot instruction. */
  datatype ShotState = ShotState(status: int, errMsg: string)

  /**
   * Stops the instruction: nothing changes once final; an empty reason
   * finishes it; "user stop" terminates it; any other reason is an error,
   * the reason kept as its message.
   */
  function Stop(s: ShotState, reason: string): (r: ShotState)
    ensures IsFinalAlgo(s.status) ==> r == s
    ensures !IsFinalAlgo(s.status) ==> IsFinalAlgo(r.status)
    ensures !IsFinalAlgo(s.status) && reason == "" ==> r == s.(status := Finished)
    ensures !IsFinalAlgo(s.status) && reason == "user stop" ==> r == ShotState(Terminated, reason)
    ensures !IsFinalAlgo(s.status) && reason != "" && reason != "user stop" ==> r == ShotState(Error, reason)
  {
    if IsFinalAlgo(s.status) then s
    else if reason != "" then
      ShotState(if reason == "user stop" then Terminated else Error, reason)
    else s.(status := Finished)
  }

  /** Stopping twice is stopping once. */
  lemma StopIdempotent(s: ShotState, a: string, b: string)
    ensures Stop(Stop(s, a), b) == Stop(s, a)
  {
  }

  /**
   * Cancels the instruction: nothing once stopped; CANCELING while the
   * placer signalled pending work (pending > 0); otherwise a user stop.
   */
  function Cancel(s: ShotState, pending: nat): (r: ShotState)
    ensures IsFinalAlgo(s.status) ==> r == s
    ensures !IsFinalAlgo(s.status) && pending > 0 ==> r == s.(status := Canceling)
    ensures !IsFinalAlgo(s.status) && pending == 0 ==> r == ShotState(Terminated, "user stop")
  {
    if IsFinalAlgo(s.status) then s
    else if pending > 0 then s.(status := Canceling)
    else Stop(s, "user stop")
  }

  /** The win rate in percent of the decided signals; 0 with none. */
  function WinRate(wins: nat, losses: nat): (r: real)
    ensures wins + losses == 0 ==> r == 0.0
    ensures wins + losses > 0 ==> r * (wins + losses) as real == wins as real * 100.0 && 0.0 <= r <= 100.0
  {
    if wins + losses > 0 then wins as real * 100.0 / (wins + losses) as real else 0.0
  }

  /**
   * The average win over the average loss, sign flipped; 0 unless there
   * are both wins and losses. Losses add up negative returns, so their sum
   * is negative once there is one.
   */
  function ProfitToLoss(wins: nat, losses: nat, pnlWin: real, pnlLoss: real): (r: real)
    requires losses > 0 ==> pnlLoss < 0.0
    ensures !(wins > 0 && losses > 0) ==> r == 0.0
    ensures wins > 0 && losses > 0 ==> r * (pnlLoss / losses as real) == -(pnlWin / wins as real)
    ensures wins > 0 && losses > 0 && pnlWin > 0.0 ==> r > 0.0
  {
    if losses > 0 && wins > 0 then (pnlWin / wins as real) / (pnlLoss / losses as real) * -1.0 else 0.0
  }

  /**
   * The order quantity of a fired signal: none unless the buy price is
   * positive, the instruction has no share target (0) and the security is
   * known; then the amount target over the buy price, truncated and
   * fitted to the lot size.
   */
  function SignalQty(qtyTarget: nat, amtTarget: real, buyPrice: real, info: Option<Security.SecurityInfo>): (r: Option<int>)
    ensures r.Some? <==> buyPrice > 0.0 && qtyTarget == 0 && info.Some?
    ensures r.Some? ==> r.value == Security.Floor2FitLotSize(info.value, Arith.Trunc(amtTarget / buyPrice))
    ensures r.Some? && r.value > 0 ==> r.value as real <= amtTarget / buyPrice
  {
    if buyPrice > 0.0 && qtyTarget == 0 && info.Some? then
      var q := Arith.Trunc(amtTarget / buyPrice);
      var f := Security.Floor2FitLotSize(info.value, q);
      Some(f)
    else None
  }

  /** The time of day of t as the number hhmmss. */
  function TimeInt(t: int): (r: nat)
    ensures r < 240000
  {
    var off := t - MarketTime.DayStart(t);
    MarketTime.DayStartOffset(t, 0);
    var h := off / MarketTime.HourMs;
    var m := off % MarketTime.HourMs / MarketTime.MinuteMs;
    var s := off % MarketTime.MinuteMs / MarketTime.SecondMs;
    h * 10000 + m * 100 + s
  }

  /**
   * The id of a signal: its time as hhmmss times 10^6 plus the number in
   * the symbol's first six characters (64-bit); a symbol that does not
   * start with a number is an error (None).
   */
  function ShotId(quoteTime: int, symbol: string): (r: Option<nat>)
    ensures Numbers.Stoull(symbol[..Arith.Min(6, |symbol|)]).None? <==> r.None?
    ensures r.Some? ==>
              r.value == FeedReplay.Wrap64(TimeInt(quoteTime) * 1_000_000 + Numbers.Stoull(symbol[..Arith.Min(6, |symbol|)]).value)
  {
    match Numbers.Stoull(symbol[..Arith.Min(6, |symbol|)])
    case None => None
    case Some(code) => Some(FeedReplay.Wrap64(TimeInt(quoteTime) * 1_000_000 + code))
  }

  /** A six-digit code and the time are recovered from the id. */
  lemma ShotIdDecodes(quoteTime: int, symbol: string)
    requires ShotId(quoteTime, symbol).Some?
    requires Numbers.Stoull(symbol[..Arith.Min(6, |symbol|)]).value < 1_000_000
    ensures ShotId(quoteTime, symbol).value / 1_000_000 == TimeInt(quoteTime)
    ensures ShotId(quoteTime, symbol).value % 1_000_000 == Numbers.Stoull(symbol[..Arith.Min(6, |symbol|)]).value
  {
    var code := Numbers.Stoull(symbol[..Arith.Min(6, |symbol|)]).value;
    var x := TimeInt(quoteTime) * 1_000_000 + code;
    assert x < FeedReplay.U64;
  }

  /** The parts of a signal that follow the ticks. */
  datatype Signal = Signal(lastPrice: real, avgBuyPrice: real, sigPnlReturn: real, isClosed: bool)

  /** A tick always moves the last price; the return is recomputed only while open and bought. */
  function Update(s: Signal, price: real): (r: Signal)
    ensures r.lastPrice == price && r.avgBuyPrice == s.avgBuyPrice && r.isClosed == s.isClosed
    ensures !s.isClosed && s.avgBuyPrice > 0.0 ==> r.sigPnlReturn * s.avgBuyPrice == (price - s.avgBuyPrice) * 100.0
    ensures s.isClosed || s.avgBuyPrice <= 0.0 ==> r.sigPnlReturn == s.sigPnlReturn
  {
    var r := s.(lastPrice := price);
    if !s.isClosed && s.avgBuyPrice > 0.0 then r.(sigPnlReturn := (price - s.avgBuyPrice) / s.avgBuyPrice * 100.0) else r
  }
}

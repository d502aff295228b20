/**
 * The algorithm service: expanding a creation request into one instruction
 * per trade date and symbol, admitting instructions (live ones start at
 * once, backtests go through a bounded FIFO), releasing the next queued
 * backtest when one finishes, and answering stop requests.
 */
module Service {
  import opened Wrappers
  import opened Status
  import opened AcctKeys
  import opened AlgoOrders
  import Text
  import Seqs
  import Arith
  import DataManager
  import Security

  const U32: nat := 0x1_0000_0000
  const U64: nat := 0x1_0000_0000_0000_0000

  /** The service's error codes and their wire values. */
  datatype ErrorCode = AlgoOk | QuoteError | DuplicateError | OrderServiceAbnormal | OrderCheckFailed
                     | AcctNotLogin | AcctAlreadyLogin | OrderRouterError | NotExists | AlgoError

  function CodeValue(c: ErrorCode): int
  {
    match c
    case AlgoOk => 0
    case QuoteError => 101
    case DuplicateError => 103
    case OrderServiceAbnormal => 105
    case OrderCheckFailed => 107
    case AcctNotLogin => 109
    case AcctAlreadyLogin => 110
    case OrderRouterError => 111
    case NotExists => 113
    case AlgoError => 199
  }

  // ---------------------------------------------------------------------
  // Creation: one instruction per trade date and symbol
  // ---------------------------------------------------------------------

  /** The category a strategy runs under: T0, spread, shot and hit have their own, everything else is ALGO. */
  function CategoryOf(s: Strategy): (c: Category)
    ensures c == CatT0 <==> s == T0
    ensures c == CatSpread <==> s == Spread
    ensures c == CatShot <==> s == Shot
    ensures c == CatHit <==> s == Hit
    ensures c == CatAlgo <==> s !in {T0, Spread, Shot, Hit}
  {
    match s
    case T0 => CatT0
    case Spread => CatSpread
    case Shot => CatShot
    case Hit => CatHit
    case _ => CatAlgo
  }

  /** The instruction's category determines the strategy unless it is ALGO. */
  lemma CategoryDeterminesStrategy(a: Strategy, b: Strategy)
    requires CategoryOf(a) == CategoryOf(b) && CategoryOf(a) != CatAlgo
    ensures a == b
  {
  }

  /** The fields of a creation request. */
  datatype CreateRequest = CreateRequest(
    acctType: AcctType,
    acct: string,
    strategy: Strategy,
    startTime: nat,
    endTime: nat,
    execDuration: real,
    symbol: string,
    orderSide: int,
    orderQty: nat,
    orderAmount: real,
    clientAlgoOrderId: string,
    minSuborderAmount: real,
    maxPov: real,
    orderPrice: real,
    algoParams: string)

  /** The date part yyyymmdd of a yyyymmddhhmmss value, as an unsigned 32-bit number. */
  function DatePart(t: nat): (d: nat)
    ensures d < U32
    ensures t / 1_000_000 < U32 ==> d == t / 1_000_000
  {
    (t / 1_000_000) % U32
  }

  /** The requested time of day t placed on date d. */
  function OnDate(d: int, t: nat): (r: int)
  {
    d * 1_000_000 + t % 1_000_000
  }

  /** A date-time placed on a date keeps the requested time of day and carries the new date. */
  lemma OnDateKeepsTimeOfDay(d: int, t: nat)
    ensures OnDate(d, t) % 1_000_000 == t % 1_000_000
    ensures OnDate(d, t) / 1_000_000 == d
  {
    Arith.DivModUnique(OnDate(d, t), 1_000_000, d, t % 1_000_000);
  }

  /** The trade dates the request covers: the calendar's between the two dates, or the end date alone when there are none. */
  function RequestDates(req: CreateRequest, cal: seq<DataManager.CalendarDay>): (r: seq<int>)
    requires DataManager.Sorted(cal)
    ensures |r| >= 1
    ensures DataManager.TradeDateInts(cal, DatePart(req.startTime), DatePart(req.endTime)) == [] ==> r == [DatePart(req.endTime)]
    ensures DataManager.TradeDateInts(cal, DatePart(req.startTime), DatePart(req.endTime)) != [] ==>
              forall x :: x in r <==> DatePart(req.startTime) <= x <= DatePart(req.endTime) && DataManager.HasTradingDay(cal, x)
  {
    var dates := DataManager.TradeDateInts(cal, DatePart(req.startTime), DatePart(req.endTime));
    if dates == [] then [DatePart(req.endTime)] else dates
  }

  /**
   * The symbols each date's instructions cover: an index pool name under
   * the ALGO category expands to the pool's members on the start date,
   * anything else is the requested symbol alone.
   */
  function RequestSymbols(req: CreateRequest, infos: map<string, Option<Security.SecurityInfo>>): (r: set<string>)
    ensures req.symbol in {"hs300", "zz500", "zz1000", "other"} && CategoryOf(req.strategy) == CatAlgo ==>
              r == DataManager.IndexConstituents(infos, req.symbol)
    ensures !(req.symbol in {"hs300", "zz500", "zz1000", "other"} && CategoryOf(req.strategy) == CatAlgo) ==>
              r == {req.symbol}
  {
    if req.symbol in {"hs300", "zz500", "zz1000", "other"} && CategoryOf(req.strategy) == CatAlgo
    then DataManager.IndexConstituents(infos, req.symbol)
    else {req.symbol}
  }

  /** The request's parameters over the configured defaults: a key the request sets keeps the request's value. */
  function MergeParams(req: map<string, string>, defaults: map<string, string>): (m: map<string, string>)
    ensures m.Keys == req.Keys + defaults.Keys
    ensures forall k :: k in req ==> m[k] == req[k]
    ensures forall k :: k in defaults && k !in req ==> m[k] == defaults[k]
  {
    map k | k in req.Keys + defaults.Keys :: if k in req then req[k] else defaults[k]
  }

  /** Merging the same defaults again changes nothing, and with no defaults the request is kept as is. */
  lemma MergeParamsIdempotent(req: map<string, string>, defaults: map<string, string>)
    ensures MergeParams(MergeParams(req, defaults), defaults) == MergeParams(req, defaults)
    ensures MergeParams(req, map[]) == req
  {
    var once := MergeParams(req, defaults);
    assert MergeParams(once, defaults).Keys == once.Keys;
    assert MergeParams(req, map[]).Keys == req.Keys;
  }

  /** A limit flag: true exactly when the key is present with a value that lower-cases to "true"; unchanged when absent. */
  function Flag(params: map<string, string>, key: string, current: bool): (b: bool)
    ensures key in params ==> (b <==> Text.ToLower(params[key]) == "true")
    ensures key !in params ==> b == current
  {
    if key in params then Text.ToLower(params[key]) == "true" else current
  }

  /** A flag value is read regardless of its letter case. */
  lemma FlagIgnoresCase(params: map<string, string>, key: string, v: string, current: bool)
    ensures Flag(params[key := Text.ToUpper(v)], key, current) == Flag(params[key := v], key, current)
    ensures Flag(params[key := Text.ToLower(v)], key, current) == Flag(params[key := v], key, current)
  {
    Text.CaseRoundTrip(v);
  }

  /**
   * What every instruction of a request shares: the request's fields, the
   * account's broker, the creation time, the parameters (the request's
   * own over the strategy's defaults) and the two flags read from them.
   */
  function Template(req: CreateRequest, broker: nat, defaults: map<string, string>, now: int): (a: AlgoOrder)
    ensures a.acct == req.acct && a.acctType == req.acctType && a.brokerId == broker
    ensures a.strategy == req.strategy && a.category == CategoryOf(req.strategy)
    ensures a.tradeSide == req.orderSide && a.qtyTarget == req.orderQty && a.amtTarget == req.orderAmount
    ensures a.priceLimit == req.orderPrice && a.participateRate == req.maxPov
    ensures a.minAmountPerOrder == req.minSuborderAmount && a.clientAlgoOrderId == req.clientAlgoOrderId
    ensures forall k :: k in a.params <==> k in Text.ParseStringToMap(req.algoParams) || k in defaults
    ensures forall k :: k in Text.ParseStringToMap(req.algoParams) ==>
              a.params[k] == Text.ParseStringToMap(req.algoParams)[k]
    ensures forall k :: k in defaults && k !in Text.ParseStringToMap(req.algoParams) ==> a.params[k] == defaults[k]
    ensures a.notBuyOnLLOrSellOnHL == Flag(a.params, "notBuyOnLLOrSellOnHL", true)
    ensures a.notPegOrderAtLimitPrice == Flag(a.params, "notPegOrderAtLimitPrice", true)
    ensures a.isParentOrder && a.createTime == now
  {
    var params := MergeParams(Text.ParseStringToMap(req.algoParams), defaults);
    AlgoOrder(0, req.clientAlgoOrderId, req.acctType, req.acct, broker, req.symbol,
              CategoryOf(req.strategy), req.strategy, req.orderSide, req.orderQty, req.orderAmount,
              0, 0, req.execDuration, req.orderPrice, req.maxPov, req.minSuborderAmount,
              Flag(params, "notPegOrderAtLimitPrice", true), Flag(params, "notBuyOnLLOrSellOnHL", true),
              true, 0, now, params)
  }

  /**
   * One instruction of a request for one trade date and symbol: the
   * template under its own id and symbol, its start and end the request's
   * times of day on that date, through the date-time parser parse.
   */
  function Instruction(t: AlgoOrder, req: CreateRequest, parse: int -> Option<int>, date: int, symbol: string, id: nat)
    : (a: AlgoOrder)
    requires parse(OnDate(date, req.startTime)).Some? && parse(OnDate(date, req.endTime)).Some?
    ensures a.algoOrderId == id && a.symbol == symbol
    ensures a.startTime == parse(OnDate(date, req.startTime)).value
    ensures a.endTime == parse(OnDate(date, req.endTime)).value
    ensures a.(algoOrderId := t.algoOrderId, symbol := t.symbol, startTime := t.startTime, endTime := t.endTime) == t
  {
    t.(algoOrderId := id, symbol := symbol,
       startTime := parse(OnDate(date, req.startTime)).value, endTime := parse(OnDate(date, req.endTime)).value)
  }

  /** Every date-time the request expands to can be parsed. */
  predicate DatesParse(req: CreateRequest, parse: int -> Option<int>, dates: seq<int>)
  {
    forall d :: d in dates ==> parse(OnDate(d, req.startTime)).Some? && parse(OnDate(d, req.endTime)).Some?
  }

  /** One date's row of (date, symbol) pairs, the symbols in the given order. */
  function Row(d: int, order: seq<string>): (r: seq<(int, string)>)
    ensures |r| == |order|
    ensures forall m :: 0 <= m < |order| ==> r[m] == (d, order[m])
  {
    if order == [] then [] else Row(d, order[..|order| - 1]) + [(d, order[|order| - 1])]
  }

  /** The (date, symbol) pairs in creation order: date by date, each date's symbols in the given order. */
  function Layout(dates: seq<int>, order: seq<string>): (r: seq<(int, string)>)
    ensures |r| == |dates| * |order|
    ensures |order| == 0 ==> r == []
    ensures forall p :: p in r ==> p.0 in dates && p.1 in order
  {
    if dates == [] then []
    else
      var init := Layout(dates[..|dates| - 1], order);
      var row := Row(dates[|dates| - 1], order);
      assert |init| + |row| == |dates| * |order| by {
        assert (|dates| - 1) * |order| + |order| == |dates| * |order|;
      }
      assert forall p :: p in row ==> p.0 in dates && p.1 in order by {
        forall p | p in row ensures p.0 in dates && p.1 in order {
          var m :| 0 <= m < |row| && row[m] == p;
        }
      }
      init + row
  }

  /** Position i of the layout holds date i div w and symbol i mod w, w being the number of symbols. */
  lemma {:induction false} LayoutAt(dates: seq<int>, order: seq<string>, i: nat)
    requires i < |Layout(dates, order)|
    ensures |order| > 0 && i / |order| < |dates|
    ensures Layout(dates, order)[i] == (dates[i / |order|], order[i % |order|])
  {
    var w := |order|;
    var n := |dates|;
    var init := dates[..n - 1];
    var front := Layout(init, order);
    var row := Row(dates[n - 1], order);
    assert Layout(dates, order) == front + row;
    if i < |front| {
      LayoutAt(init, order, i);
      LayoutFront(dates, order, front, row, i);
    } else {
      LastRowPosition(n, w, i);
      assert (front + row)[i] == row[i - |front|];
    }
  }

  /** A position in the last row of an n-by-w layout: row n - 1, column i - (n - 1) * w. */
  lemma LastRowPosition(n: nat, w: nat, i: nat)
    requires n >= 1 && (n - 1) * w <= i < n * w
    ensures w > 0 && i / w == n - 1 && i % w == i - (n - 1) * w
  {
    assert n * w == (n - 1) * w + w;
    Arith.DivModUnique(i, w, n - 1, i - (n - 1) * w);
  }

  /** A position inside the earlier dates' part of the layout keeps its pair when the last row is appended. */
  lemma LayoutFront(dates: seq<int>, order: seq<string>, front: seq<(int, string)>, row: seq<(int, string)>, i: nat)
    requires |dates| >= 1 && |order| > 0
    requires i < |front| && i / |order| < |dates| - 1
    requires front[i] == (dates[..|dates| - 1][i / |order|], order[i % |order|])
    ensures (front + row)[i] == (dates[i / |order|], order[i % |order|])
  {
  }

  /** Every date of the layout can be parsed at the requested times of day. */
  predicate LayoutParses(req: CreateRequest, parse: int -> Option<int>, layout: seq<(int, string)>)
  {
    forall j :: 0 <= j < |layout| ==>
      parse(OnDate(layout[j].0, req.startTime)).Some? && parse(OnDate(layout[j].0, req.endTime)).Some?
  }

  /** One instruction per layout position, in layout order, the j-th taking the j-th id. */
  method Expand(req: CreateRequest, parse: int -> Option<int>, layout: seq<(int, string)>, ids: seq<nat>,
                t: AlgoOrder)
    returns (out: seq<AlgoOrder>)
    requires |ids| >= |layout|
    requires LayoutParses(req, parse, layout)
    ensures |out| == |layout|
    ensures forall j :: 0 <= j < |out| ==>
              out[j] == Instruction(t, req, parse, layout[j].0, layout[j].1, ids[j])
  {
    out := [];
    var i := 0;
    while i < |layout|
      invariant 0 <= i <= |layout|
      invariant |out| == i
      invariant forall j :: 0 <= j < i ==>
                  out[j] == Instruction(t, req, parse, layout[j].0, layout[j].1, ids[j])
    {
      out := out + [Instruction(t, req, parse, layout[i].0, layout[i].1, ids[i])];
      i := i + 1;
    }
  }

  /**
   * Expands a creation request: an unparsable start or end time is an
   * error and creates nothing; otherwise every trade date (ascending)
   * gets one instruction per symbol, the symbols visited in the order
   * order (the hash set's iteration order), the fresh ids taken in turn
   * from ids.
   */
  method CreateAlgoOrders(req: CreateRequest, parse: int -> Option<int>, cal: seq<DataManager.CalendarDay>,
                          infos: map<string, Option<Security.SecurityInfo>>, order: seq<string>, ids: seq<nat>,
                          broker: nat, defaults: map<string, string>, now: int)
    returns (r: Result<seq<AlgoOrder>, string>)
    requires DataManager.Sorted(cal)
    requires Seqs.IsEnumeration(order, RequestSymbols(req, infos))
    requires |ids| >= |RequestDates(req, cal)| * |order|
    requires DatesParse(req, parse, RequestDates(req, cal))
    ensures r.Err? <==> parse(req.startTime).None? || parse(req.endTime).None?
    ensures r.Ok? ==> |r.value| == |RequestDates(req, cal)| * |order|
    ensures r.Ok? ==> forall i :: 0 <= i < |r.value| ==>
              var p := Layout(RequestDates(req, cal), order)[i];
              p.1 in RequestSymbols(req, infos) && p.0 in RequestDates(req, cal)
              && r.value[i] == Instruction(Template(req, broker, defaults, now), req, parse, p.0, p.1, ids[i])
  {
    if parse(req.startTime).None? || parse(req.endTime).None? {
      return Err("invalid date format");
    }
    var dates := RequestDates(req, cal);
    var layout := Layout(dates, order);
    forall j | 0 <= j < |layout|
      ensures layout[j].0 in dates && layout[j].1 in RequestSymbols(req, infos)
    {
      assert layout[j] in layout;
    }
    var out := Expand(req, parse, layout, ids, Template(req, broker, defaults, now));
    r := Ok(out);
  }

  // ---------------------------------------------------------------------
  // Admission: live instructions start at once, backtests through a FIFO
  // ---------------------------------------------------------------------

  /** A registered trader: its instruction and whether it has stopped. */
  datatype Trader = Trader(order: AlgoOrder, stopped: bool)

  /**
   * The admission state: the registered traders by instruction id, the
   * total admitted, the running counter (64-bit), the running-backtest and
   * multi-context counters (32-bit), the backtest queue, the ids whose
   * traders are running, and the number of workers.
   */
  datatype Admission = Admission(
    traders: map<nat, Trader>,
    total: nat,
    running: nat,
    runningBt: nat,
    multiCtx: nat,
    queue: seq<nat>,
    active: set<nat>,
    workers: nat)

  /** The running backtests among ids. */
  function BtOf(traders: map<nat, Trader>, ids: set<nat>): set<nat>
  {
    set id | id in ids && id in traders && IsBackTestOrder(traders[id].order)
  }

  /** The running backtests among ids that need a context of their own (a category other than ALGO). */
  function MultiOf(traders: map<nat, Trader>, ids: set<nat>): set<nat>
  {
    set id | id in BtOf(traders, ids) && traders[id].order.category != CatAlgo
  }

  /** Each counter counts its running traders modulo its width. */
  predicate Counted(s: Admission)
  {
    s.running == |s.active| % U64
    && s.runningBt == |BtOf(s.traders, s.active)| % U32
    && s.multiCtx == |MultiOf(s.traders, s.active)| % U32
  }

  /** The queue holds registered, waiting, distinct backtests. */
  predicate Waiting(s: Admission)
  {
    (forall i :: 0 <= i < |s.queue| ==>
       s.queue[i] in s.traders && s.queue[i] !in s.active && IsBackTestOrder(s.traders[s.queue[i]].order))
    && Seqs.NoDup(s.queue)
  }

  /**
   * What the admission state means: running traders are registered, the
   * counters and the queue mean what they say, and with at least one
   * worker the queue is never left waiting while no backtest runs.
   */
  predicate Valid(s: Admission)
  {
    (forall id :: id in s.active ==> id in s.traders)
    && Waiting(s)
    && Counted(s)
    && (s.workers > 0 && s.queue != [] ==> BtOf(s.traders, s.active) != {})
  }

  /** A service with no traders. */
  function NewAdmission(workers: nat): (s: Admission)
    ensures Valid(s) && s.active == {} && s.queue == [] && s.workers == workers
  {
    Admission(map[], 0, 0, 0, 0, [], {}, workers)
  }

  /** Registering a trader under a fresh id does not change which running ids count. */
  lemma RegisterFrame(traders: map<nat, Trader>, ids: set<nat>, id: nat, t: Trader)
    requires id !in ids
    ensures BtOf(traders[id := t], ids) == BtOf(traders, ids)
    ensures MultiOf(traders[id := t], ids) == MultiOf(traders, ids)
  {
  }

  /** Starting one more trader adds it to the counts it belongs to. */
  lemma StartCounts(traders: map<nat, Trader>, ids: set<nat>, id: nat)
    requires id !in ids && id in traders
    ensures |ids + {id}| == |ids| + 1
    ensures |BtOf(traders, ids + {id})| == |BtOf(traders, ids)| + (if IsBackTestOrder(traders[id].order) then 1 else 0)
    ensures |MultiOf(traders, ids + {id})| == |MultiOf(traders, ids)|
              + (if IsBackTestOrder(traders[id].order) && traders[id].order.category != CatAlgo then 1 else 0)
  {
    var o := traders[id].order;
    if IsBackTestOrder(o) {
      assert BtOf(traders, ids + {id}) == BtOf(traders, ids) + {id};
      if o.category != CatAlgo {
        assert MultiOf(traders, ids + {id}) == MultiOf(traders, ids) + {id};
      } else {
        assert MultiOf(traders, ids + {id}) == MultiOf(traders, ids);
      }
    } else {
      assert BtOf(traders, ids + {id}) == BtOf(traders, ids);
      assert MultiOf(traders, ids + {id}) == MultiOf(traders, ids);
    }
  }

  /** Finishing a trader removes it from the counts it belonged to. */
  lemma StopCounts(traders: map<nat, Trader>, ids: set<nat>, id: nat)
    requires id in ids && id in traders
    ensures |ids - {id}| == |ids| - 1
    ensures |BtOf(traders, ids - {id})| == |BtOf(traders, ids)| - (if IsBackTestOrder(traders[id].order) then 1 else 0)
    ensures |MultiOf(traders, ids - {id})| == |MultiOf(traders, ids)|
              - (if IsBackTestOrder(traders[id].order) && traders[id].order.category != CatAlgo then 1 else 0)
  {
    StartCounts(traders, ids - {id}, id);
    assert ids - {id} + {id} == ids;
  }

  /** An unsigned counter stepped up by one, with wrap-around. */
  lemma ModInc(a: nat, m: nat)
    requires m > 0
    ensures (a % m + 1) % m == (a + 1) % m
  {
    var q := a / m;
    var r := a % m;
    if r + 1 == m {
      Arith.DivModUnique(r + 1, m, 1, 0);
      Arith.DivModUnique(a + 1, m, q + 1, 0);
    } else {
      Arith.DivModUnique(r + 1, m, 0, r + 1);
      Arith.DivModUnique(a + 1, m, q, r + 1);
    }
  }

  /** An unsigned counter stepped down by one, with wrap-around. */
  lemma ModDec(a: nat, m: nat)
    requires m > 0 && a >= 1
    ensures (a % m - 1) % m == (a - 1) % m
  {
    var q := a / m;
    var r := a % m;
    if r == 0 {
      Arith.DivModUnique(r - 1, m, -1, m - 1);
      Arith.DivModUnique(a - 1, m, q - 1, m - 1);
    } else {
      Arith.DivModUnique(r - 1, m, 0, r - 1);
      Arith.DivModUnique(a - 1, m, q, r - 1);
    }
  }

  /** Starts trader id: it runs, and the counters it belongs to go up by one. */
  function Launch(s: Admission, id: nat): (r: Admission)
    requires id in s.traders
    ensures r.active == s.active + {id} && r.traders == s.traders && r.queue == s.queue
    ensures r.total == s.total && r.workers == s.workers
  {
    var o := s.traders[id].order;
    var bt := IsBackTestOrder(o);
    s.(active := s.active + {id},
       running := (s.running + 1) % U64,
       runningBt := if bt then (s.runningBt + 1) % U32 else s.runningBt,
       multiCtx := if bt && o.category != CatAlgo then (s.multiCtx + 1) % U32 else s.multiCtx)
  }

  /** Starting a trader that was not running keeps every counter exact. */
  lemma LaunchCounted(s: Admission, id: nat)
    requires Counted(s) && id in s.traders && id !in s.active
    ensures Counted(Launch(s, id))
  {
    StartCounts(s.traders, s.active, id);
    ModInc(|s.active|, U64);
    ModInc(|BtOf(s.traders, s.active)|, U32);
    ModInc(|MultiOf(s.traders, s.active)|, U32);
  }

  /** Trader id stops running, and the counters it belonged to go down by one. */
  function Retire(s: Admission, id: nat): (r: Admission)
    requires id in s.traders
    ensures r.active == s.active - {id} && r.traders == s.traders && r.queue == s.queue
    ensures r.total == s.total && r.workers == s.workers
  {
    var o := s.traders[id].order;
    var bt := IsBackTestOrder(o);
    s.(active := s.active - {id},
       running := (s.running - 1) % U64,
       runningBt := if bt then (s.runningBt - 1) % U32 else s.runningBt,
       multiCtx := if bt && o.category != CatAlgo then (s.multiCtx - 1) % U32 else s.multiCtx)
  }

  /** Stopping a running trader keeps every counter exact. */
  lemma RetireCounted(s: Admission, id: nat)
    requires Counted(s) && id in s.traders && id in s.active
    ensures Counted(Retire(s, id))
  {
    StopCounts(s.traders, s.active, id);
    var nb := |BtOf(s.traders, s.active)|;
    var nm := |MultiOf(s.traders, s.active)|;
    ModDec(|s.active|, U64);
    if IsBackTestOrder(s.traders[id].order) {
      ModDec(nb, U32);
      if s.traders[id].order.category != CatAlgo {
        ModDec(nm, U32);
      }
    }
  }

  /**
   * Admits an instruction. A category other than ALGO or SHOT is refused
   * with ALGO_ERROR and nothing is recorded. A known id or a failed
   * pre-start check (a non-empty message) is ORDERCHECK_FAILED: the new
   * trader is stopped and registered under its id unless the id is taken,
   * whose first trader stays. Otherwise the trader is counted and
   * registered; a live one starts, a backtest waits at the back of the
   * queue when a multi-context backtest runs or every worker is busy, and
   * starts otherwise.
   */
  function Dispatch(s: Admission, o: AlgoOrder, errMsg: string): (res: (Admission, ErrorCode))
    ensures res.1 == AlgoError <==> o.category !in {CatAlgo, CatShot}
    ensures res.1 == AlgoError ==> res.0 == s
    ensures res.1 == AlgoOk <==> o.category in {CatAlgo, CatShot} && o.algoOrderId !in s.traders && errMsg == ""
    ensures res.1 in {AlgoOk, AlgoError, OrderCheckFailed}
    ensures res.1 == OrderCheckFailed ==> res.0.active == s.active && res.0.queue == s.queue
    ensures res.1 == OrderCheckFailed && o.algoOrderId in s.traders ==> res.0 == s
    ensures res.1 == OrderCheckFailed && o.algoOrderId !in s.traders ==>
              res.0.traders == s.traders[o.algoOrderId := Trader(o, true)]
    ensures res.1 == AlgoOk ==> res.0.traders == s.traders[o.algoOrderId := Trader(o, false)] && res.0.total == s.total + 1
    ensures res.1 == AlgoOk && !IsBackTestOrder(o) ==> res.0.queue == s.queue && o.algoOrderId in res.0.active
    ensures res.1 == AlgoOk && IsBackTestOrder(o) ==>
              (res.0.queue == s.queue + [o.algoOrderId] <==> s.multiCtx != 0 || s.runningBt >= s.workers)
    ensures res.1 == AlgoOk && IsBackTestOrder(o) && !(s.multiCtx != 0 || s.runningBt >= s.workers) ==>
              o.algoOrderId in res.0.active
    ensures res.1 == AlgoOk && IsBackTestOrder(o) && (s.multiCtx != 0 || s.runningBt >= s.workers) ==>
              res.0.active == s.active
  {
    var id := o.algoOrderId;
    if o.category !in {CatAlgo, CatShot} then (s, AlgoError)
    else if id !in s.traders && errMsg == "" then
      var s1 := s.(traders := s.traders[id := Trader(o, false)], total := s.total + 1);
      if IsBackTestOrder(o) && (s.multiCtx != 0 || s.runningBt >= s.workers) then
        (s1.(queue := s.queue + [id]), AlgoOk)
      else (Launch(s1, id), AlgoOk)
    else if id in s.traders then (s, OrderCheckFailed)
    else (s.(traders := s.traders[id := Trader(o, true)]), OrderCheckFailed)
  }

  /** A known id is answered ORDERCHECK_FAILED, never with the duplicate code, and the registered trader stays. */
  lemma DuplicateReportedAsCheckFailure(s: Admission, o: AlgoOrder, errMsg: string)
    requires o.category in {CatAlgo, CatShot} && o.algoOrderId in s.traders
    ensures Dispatch(s, o, errMsg).1 == OrderCheckFailed
    ensures Dispatch(s, o, errMsg).0.traders[o.algoOrderId] == s.traders[o.algoOrderId]
  {
  }

  /** Admission keeps the counters' meaning. */
  lemma DispatchKeepsValid(s: Admission, o: AlgoOrder, errMsg: string)
    requires Valid(s)
    ensures Valid(Dispatch(s, o, errMsg).0)
  {
    var id := o.algoOrderId;
    var r := Dispatch(s, o, errMsg).0;
    if o.category in {CatAlgo, CatShot} && id !in s.traders {
      if errMsg == "" {
        var s1 := s.(traders := s.traders[id := Trader(o, false)], total := s.total + 1);
        RegisterKeepsValid(s, id, Trader(o, false));
        if IsBackTestOrder(o) && (s.multiCtx != 0 || s.runningBt >= s.workers) {
          assert r == s1.(queue := s.queue + [id]);
          EnqueueKeepsValid(s, s1, id);
        } else {
          assert r == Launch(s1, id);
          LaunchCounted(s1, id);
          LaunchKeepsWaiting(s1, id);
        }
      } else {
        assert r == s.(traders := s.traders[id := Trader(o, true)]);
        RegisterKeepsValid(s, id, Trader(o, true));
      }
    } else {
      assert r == s;
    }
  }

  /** Registering a trader under a fresh id keeps the state valid. */
  lemma RegisterKeepsValid(s: Admission, id: nat, t: Trader)
    requires Valid(s) && id !in s.traders
    ensures Valid(s.(traders := s.traders[id := t])) && Valid(s.(traders := s.traders[id := t], total := s.total + 1))
  {
    RegisterFrame(s.traders, s.active, id, t);
  }

  /** Starting a registered trader that is not queued keeps the queue's meaning and releases a waiting queue. */
  lemma LaunchKeepsWaiting(s: Admission, id: nat)
    requires Valid(s) && id in s.traders && id !in s.active && id !in s.queue
    requires Counted(Launch(s, id))
    requires s.workers > 0 && s.queue != [] ==> BtOf(s.traders, s.active) != {}
    ensures Valid(Launch(s, id))
  {
    var r := Launch(s, id);
    if s.queue != [] && s.workers > 0 {
      var x :| x in BtOf(s.traders, s.active);
      assert x in BtOf(r.traders, r.active);
    }
  }

  /** Queuing a fresh backtest while a multi-context backtest runs or the workers are busy keeps the state valid. */
  lemma EnqueueKeepsValid(s: Admission, s1: Admission, id: nat)
    requires Valid(s) && Valid(s1) && s1.active == s.active && s1.queue == s.queue && id in s1.traders && id !in s.traders
    requires s1.workers == s.workers && BtOf(s1.traders, s1.active) == BtOf(s.traders, s.active)
    requires s1.multiCtx == s.multiCtx && s1.runningBt == s.runningBt
    requires IsBackTestOrder(s1.traders[id].order) && (s.multiCtx != 0 || s.runningBt >= s.workers)
    ensures Valid(s1.(queue := s.queue + [id]))
  {
    assert id !in s.queue;
    EnqueueWaiting(s1, id);
    if s.multiCtx != 0 || s.workers > 0 {
      SomeBacktestRuns(s);
    }
  }

  /** Appending a registered, waiting backtest that is not queued yet keeps the queue well formed. */
  lemma EnqueueWaiting(s: Admission, id: nat)
    requires Waiting(s) && id in s.traders && id !in s.active && id !in s.queue && IsBackTestOrder(s.traders[id].order)
    ensures Waiting(s.(queue := s.queue + [id]))
  {
    var q := s.queue + [id];
    forall i | 0 <= i < |q|
      ensures q[i] in s.traders && q[i] !in s.active && IsBackTestOrder(s.traders[q[i]].order)
    {
      if i < |s.queue| {
        assert q[i] == s.queue[i];
      }
    }
  }

  /** A nonzero multi-context counter, or running backtests filling the workers, means some backtest runs. */
  lemma SomeBacktestRuns(s: Admission)
    requires Counted(s) && (s.multiCtx != 0 || (s.workers > 0 && s.runningBt >= s.workers))
    ensures BtOf(s.traders, s.active) != {}
  {
    if s.multiCtx != 0 {
      var x :| x in MultiOf(s.traders, s.active);
      assert x in BtOf(s.traders, s.active);
    }
  }

  /** With nothing running, a backtest admitted to a service with a worker starts at once. */
  lemma IdleServiceStartsBacktest(s: Admission, o: AlgoOrder)
    requires Valid(s) && s.active == {} && s.workers > 0
    requires o.category in {CatAlgo, CatShot} && o.algoOrderId !in s.traders && IsBackTestOrder(o)
    ensures Dispatch(s, o, "").1 == AlgoOk
    ensures o.algoOrderId in Dispatch(s, o, "").0.active
  {
    assert BtOf(s.traders, s.active) == {};
    assert MultiOf(s.traders, s.active) == {};
  }

  /**
   * A trader finishes: it no longer runs and its counters go down; a
   * finished backtest then starts the front of the queue, if any, counted
   * by that trader's own category.
   */
  function Finish(s: Admission, id: nat): (r: Admission)
    requires id in s.active && id in s.traders
    ensures s.queue == [] || s.queue[0] != id ==> id !in r.active
    ensures !IsBackTestOrder(s.traders[id].order) ==> r.queue == s.queue && r.active == s.active - {id}
    ensures IsBackTestOrder(s.traders[id].order) && s.queue == [] ==> r.queue == [] && r.active == s.active - {id}
    ensures IsBackTestOrder(s.traders[id].order) && s.queue != [] && s.queue[0] in s.traders ==>
              r.queue == s.queue[1..] && r.active == s.active - {id} + {s.queue[0]}
    ensures r.traders == s.traders && r.total == s.total && r.workers == s.workers
  {
    var s1 := Retire(s, id);
    if IsBackTestOrder(s.traders[id].order) && s.queue != [] && s.queue[0] in s.traders then
      Launch(s1.(queue := s.queue[1..]), s.queue[0])
    else s1
  }

  /** Completion keeps the counters' meaning and never strands the queue. */
  lemma FinishKeepsValid(s: Admission, id: nat)
    requires Valid(s) && id in s.active
    ensures Valid(Finish(s, id))
  {
    var s1 := Retire(s, id);
    RetireCounted(s, id);
    if IsBackTestOrder(s.traders[id].order) && s.queue != [] {
      PopKeepsValid(s, s1);
    } else if s.queue != [] && s.workers > 0 {
      var x :| x in BtOf(s.traders, s.active);
      assert x != id;
      assert x in BtOf(s1.traders, s1.active);
    }
  }

  /** Starting the front of the queue after a trader has retired keeps the state valid. */
  lemma PopKeepsValid(s: Admission, s1: Admission)
    requires Valid(s) && Counted(s1) && s.queue != []
    requires s1.traders == s.traders && s1.queue == s.queue && s1.workers == s.workers && s1.active <= s.active
    ensures Valid(Launch(s1.(queue := s.queue[1..]), s.queue[0]))
  {
    var n := s.queue[0];
    var s2 := s1.(queue := s.queue[1..]);
    var r := Launch(s2, n);
    assert n !in s1.active;
    LaunchCounted(s2, n);
    assert n in BtOf(r.traders, r.active);
    forall i | 0 <= i < |r.queue|
      ensures r.queue[i] in r.traders && r.queue[i] !in r.active && IsBackTestOrder(r.traders[r.queue[i]].order)
    {
      assert r.queue[i] == s.queue[i + 1];
    }
    assert Seqs.NoDup(r.queue) by {
      forall i, j | 0 <= i < j < |r.queue| ensures r.queue[i] != r.queue[j] {
        assert r.queue[i] == s.queue[i + 1] && r.queue[j] == s.queue[j + 1];
      }
    }
  }

  /**
   * The completion step as the service performs it: the started trader is
   * counted as multi-context when the FINISHED trader was, not when the
   * started one is.
   */
  function FinishAsWritten(s: Admission, id: nat): (r: Admission)
    requires id in s.active && id in s.traders
    ensures r.queue == Finish(s, id).queue && r.active == Finish(s, id).active && r.traders == s.traders
    ensures r.running == Finish(s, id).running && r.total == s.total && r.workers == s.workers
  {
    var o := s.traders[id].order;
    var s1 := Retire(s, id);
    if IsBackTestOrder(o) && s.queue != [] && s.queue[0] in s.traders then
      var n := s.queue[0];
      s1.(queue := s.queue[1..],
          active := s1.active + {n},
          running := (s1.running + 1) % U64,
          runningBt := (s1.runningBt + 1) % U32,
          multiCtx := if o.category != CatAlgo then (s1.multiCtx + 1) % U32 else s1.multiCtx)
    else s1
  }

  /** The service miscounts exactly when the finished backtest and the started one disagree on needing their own context. */
  lemma AsWrittenMiscounts(s: Admission, id: nat)
    requires Valid(s) && id in s.active && IsBackTestOrder(s.traders[id].order) && s.queue != []
    ensures FinishAsWritten(s, id).multiCtx == Finish(s, id).multiCtx <==>
              (s.traders[id].order.category == CatAlgo) == (s.traders[s.queue[0]].order.category == CatAlgo)
  {
    var m := Retire(s, id).multiCtx;
    assert m < U32;
    assert (m + 1) % U32 != m by {
      if m + 1 < U32 {
        assert (m + 1) % U32 == m + 1;
      } else {
        assert (m + 1) % U32 == 0;
      }
    }
  }

  /** A backtest instruction of the given category under id. */
  function BtOrder(id: nat, c: Category): (o: AlgoOrder)
    ensures IsBackTestOrder(o) && o.category == c && o.algoOrderId == id
  {
    assert Text.StartsWith("BT", "BT");
    DefaultAlgoOrder(0).(algoOrderId := id, category := c, acctType := AcctType(0, "BT"))
  }

  /** A SHOT backtest running and an ALGO backtest queued behind it, with four workers. */
  function StrandStart(): (s: Admission)
    ensures Valid(s) && s.queue == [2] && s.active == {1}
  {
    var t := map[1 := Trader(BtOrder(1, CatShot), false), 2 := Trader(BtOrder(2, CatAlgo), false)];
    assert BtOf(t, {1}) == {1};
    assert MultiOf(t, {1}) == {1};
    Admission(t, 2, 1, 1, 1, [2], {1}, 4)
  }

  /** As written, finishing the SHOT backtest starts the queued one and leaves the counter at 1. */
  lemma StrandFirstFinish()
    ensures var s1 := FinishAsWritten(StrandStart(), 1);
            s1.active == {2} && s1.queue == [] && s1.multiCtx == 1 && 2 in s1.traders
            && s1.traders[2].order.category == CatAlgo
  {
  }

  /** As written, finishing the ALGO backtest then leaves nothing running and the counter still at 1. */
  lemma StrandSecondFinish()
    ensures var s2 := FinishAsWritten(FinishAsWritten(StrandStart(), 1), 2);
            s2.active == {} && s2.multiCtx == 1 && s2.queue == []
  {
    StrandFirstFinish();
  }

  /**
   * The queue stalls as the service is written: a SHOT backtest finishing
   * with an ALGO backtest queued leaves the multi-context counter at 1
   * after both have finished, so the next backtest waits in the queue
   * with nothing running to release it.
   */
  lemma AsWrittenStrandsQueue()
    ensures var s2 := FinishAsWritten(FinishAsWritten(StrandStart(), 1), 2);
            var s3 := Dispatch(s2, BtOrder(3, CatAlgo), "").0;
            s2.multiCtx == 1 && MultiOf(s2.traders, s2.active) == {}
            && s3.active == {} && s3.queue == [3]
  {
    StrandSecondFinish();
  }

  // ---------------------------------------------------------------------
  // Stop requests
  // ---------------------------------------------------------------------

  datatype Action = ActionStop | OtherAction(code: int)

  /**
   * Cancels instruction id: unknown ids are NOT_EXISTS, stopped traders
   * ALGO_ERROR; otherwise OK, and the trader is asked to cancel (second
   * component).
   */
  function CancelAlgoOrder(s: Admission, id: nat): (r: (ErrorCode, bool))
    ensures r.1 <==> r.0 == AlgoOk
    ensures r.0 == AlgoOk <==> id in s.traders && !s.traders[id].stopped
    ensures id !in s.traders ==> r.0 == NotExists
    ensures id in s.traders && s.traders[id].stopped ==> r.0 == AlgoError
  {
    if id !in s.traders then (NotExists, false)
    else if s.traders[id].stopped then (AlgoError, false)
    else (AlgoOk, true)
  }

  /**
   * A client's update request: the account must be logged in; only STOP
   * is supported; the instruction must exist, belong to the requesting
   * account and type, and not be stopped; then the trader is asked to
   * cancel (second component).
   */
  function UpdateRequest(s: Admission, loggedIn: bool, action: Action, id: nat, acct: string, acctType: AcctType): (r: (ErrorCode, bool))
    ensures r.1 <==> r.0 == AlgoOk
    ensures r.0 == AlgoOk <==>
              loggedIn && action == ActionStop && id in s.traders && s.traders[id].order.acct == acct
              && s.traders[id].order.acctType == acctType && !s.traders[id].stopped
    ensures !loggedIn ==> r.0 == AcctNotLogin
    ensures loggedIn && action != ActionStop ==> r.0 == AlgoError
    ensures loggedIn && action == ActionStop && id !in s.traders ==> r.0 == NotExists
  {
    if !loggedIn then (AcctNotLogin, false)
    else if action != ActionStop then (AlgoError, false)
    else if id !in s.traders then (NotExists, false)
    else if s.traders[id].order.acct != acct || s.traders[id].order.acctType != acctType then (AlgoError, false)
    else if s.traders[id].stopped then (AlgoError, false)
    else (AlgoOk, true)
  }

  /** A logged-in owner's stop request is answered as the service's own cancel. */
  lemma StopRequestIsCancel(s: Admission, id: nat, acct: string, acctType: AcctType)
    requires id in s.traders ==> s.traders[id].order.acct == acct && s.traders[id].order.acctType == acctType
    ensures UpdateRequest(s, true, ActionStop, id, acct, acctType) == CancelAlgoOrder(s, id)
  {
  }
}

/**
 * The sliding tick window of the shot strategy: a short "shot" window of
 * the latest ticks, a longer "refer" window of the ticks that left it,
 * the period aggregates both keep, and the low/high markers that detect a
 * rise from a recent low.
 */
module LimitedQueues {
  import opened Wrappers
  import opened Depth
  import MarketTime
  import FeedReplay

  /** Aggregates over the span between the tick that left a window and the newest tick. */
  datatype Period = Period(amount: real, interval: real, vol: int, avgPrice: real, flow: real)

  const NoPeriod: Period := Period(0.0, 0.0, 0, 0.0, 0.0)

  datatype Queue = Queue(
    shotWindow: nat,
    referWindow: nat,
    shot: seq<MarketDepth>,
    refer: seq<MarketDepth>,
    low: Option<MarketDepth>,
    high: Option<MarketDepth>,
    shotPeriod: Period,
    referPeriod: Period)

  function NewQueue(shotWindow: nat, referWindow: nat): (q: Queue)
    ensures q.shot == [] && q.refer == [] && q.low.None? && q.high.None?
    ensures Valid(q)
  {
    Queue(shotWindow, referWindow, [], [], None, None, NoPeriod, NoPeriod)
  }

  /** The flows of a run of ticks added up. */
  function SumFlow(s: seq<MarketDepth>): real
  {
    if s == [] then 0.0 else s[0].flow + SumFlow(s[1..])
  }

  lemma {:induction false} SumFlowAppend(s: seq<MarketDepth>, x: MarketDepth)
    ensures SumFlow(s + [x]) == SumFlow(s) + x.flow
  {
    if s != [] {
      assert (s + [x])[1..] == s[1..] + [x];
      SumFlowAppend(s[1..], x);
    }
  }

  /**
   * The invariant the queue keeps: both windows within their sizes (the
   * refer window empty when it has size 0) and the shot flow equal to
   * the flow of the ticks in the shot window.
   */
  predicate Valid(q: Queue)
  {
    |q.shot| <= q.shotWindow
    && (q.referWindow == 0 ==> q.refer == [])
    && |q.refer| <= q.referWindow
    && q.shotPeriod.flow == SumFlow(q.shot)
  }

  /** The signed 64-bit value of an unsigned 64-bit difference, as stored into int64. */
  function Signed64(x: nat): (r: int)
    requires x < FeedReplay.U64
    ensures -0x8000_0000_0000_0000 <= r < 0x8000_0000_0000_0000
    ensures r == x || r == x - FeedReplay.U64
  {
    if x >= 0x8000_0000_0000_0000 then x - FeedReplay.U64 else x
  }

  /** The aggregates of the span from the tick drop to the newest tick item. */
  function Span(item: MarketDepth, drop: MarketDepth, flow: real): (p: Period)
    ensures p.amount == item.amount - drop.amount
    ensures p.vol == Signed64(FeedReplay.Wrap64(item.volume - drop.volume))
    ensures p.avgPrice == (if p.vol > 0 then p.amount / p.vol as real else item.price)
    ensures p.interval == MarketTime.MarketDuration(drop.quoteTime, item.quoteTime)
    ensures p.flow == flow
  {
    var amount := item.amount - drop.amount;
    var vol := Signed64(FeedReplay.Wrap64(item.volume - drop.volume));
    Period(amount, MarketTime.MarketDuration(drop.quoteTime, item.quoteTime), vol,
           if vol > 0 then amount / vol as real else item.price, flow)
  }

  /** A volume rise below 2^63 is stored as the plain difference. */
  lemma SpanVolume(item: MarketDepth, drop: MarketDepth)
    requires drop.volume <= item.volume < drop.volume + 0x8000_0000_0000_0000
    ensures Span(item, drop, 0.0).vol == item.volume - drop.volume
  {
  }

  /**
   * Appends a tick. Its flow joins the shot flow. When the shot window
   * overflows, its oldest tick leaves, the shot aggregates span from that
   * tick to the new one, the refer flow gains the new tick's flow, and the
   * leaving tick enters the refer window (when it has a size), which
   * likewise drops its oldest tick and recomputes its aggregates when it
   * overflows.
   */
  function Append(q: Queue, item: MarketDepth): (r: Queue)
    ensures r.shotWindow == q.shotWindow && r.referWindow == q.referWindow
    ensures r.low == q.low && r.high == q.high
    ensures |q.shot| < q.shotWindow ==> r.shot == q.shot + [item] && r.refer == q.refer
    ensures |q.shot| == q.shotWindow ==> r.shot == (q.shot + [item])[1..]
    ensures Valid(q) ==> Valid(r)
  {
    var shotFlow := q.shotPeriod.flow + item.flow;
    var s := q.shot + [item];
    SumFlowAppend(q.shot, item);
    if |s| > q.shotWindow then
      var drop := s[0];
      assert SumFlow(s) == drop.flow + SumFlow(s[1..]);
      var shotPeriod := Span(item, drop, shotFlow - drop.flow);
      var referFlow := q.referPeriod.flow + item.flow;
      if q.referWindow > 0 then
        var rf := q.refer + [drop];
        if |rf| > q.referWindow then
          var rdrop := rf[0];
          q.(shot := s[1..], refer := rf[1..], shotPeriod := shotPeriod,
             referPeriod := Span(item, rdrop, referFlow - rdrop.flow))
        else
          q.(shot := s[1..], refer := rf, shotPeriod := shotPeriod, referPeriod := q.referPeriod.(flow := referFlow))
      else
        q.(shot := s[1..], shotPeriod := shotPeriod, referPeriod := q.referPeriod.(flow := referFlow))
    else
      q.(shot := s, shotPeriod := q.shotPeriod.(flow := shotFlow))
  }

  /** The refer flow gains the entering tick's flow but loses the leaving one's, so it is not the refer window's flow. */
  lemma ReferFlowCountsNewTick(item: MarketDepth, t0: MarketDepth)
    requires item.flow == 1.0 && t0.flow == 0.0
    ensures var q := Append(NewQueue(1, 5).(shot := [t0]), item);
            q.refer == [t0] && q.referPeriod.flow == 1.0 && SumFlow(q.refer) == 0.0
  {
    var q := NewQueue(1, 5).(shot := [t0]);
    assert (q.shot + [item])[0] == t0;
    assert ([] + [t0]) == [t0];
  }

  /** Empties both windows and clears both markers; the period aggregates stay. */
  function Release(q: Queue): (r: Queue)
    ensures r.shot == [] && r.refer == [] && r.low.None? && r.high.None?
    ensures r.shotPeriod == q.shotPeriod && r.referPeriod == q.referPeriod
    ensures r.shotWindow == q.shotWindow && r.referWindow == q.referWindow
  {
    q.(shot := [], refer := [], low := None, high := None)
  }

  /** The number of ticks in the shot window. */
  function Size(q: Queue): (n: nat)
    ensures n == |q.shot|
  {
    |q.shot|
  }

  /** Ready once the refer window is full, or, without one, the shot window. */
  predicate IsReady(q: Queue)
  {
    if q.referWindow > 0 then |q.refer| >= q.referWindow else |q.shot| >= q.shotWindow
  }

  /** The shot amount and its average per second of market time (0 for no time). */
  function ShotAmount(q: Queue): (r: (real, real))
    ensures r.0 == q.shotPeriod.amount
    ensures q.shotPeriod.interval <= 0.0 ==> r.1 == 0.0
    ensures q.shotPeriod.interval > 0.0 ==> r.1 * q.shotPeriod.interval == q.shotPeriod.amount
  {
    (q.shotPeriod.amount, if q.shotPeriod.interval > 0.0 then q.shotPeriod.amount / q.shotPeriod.interval else 0.0)
  }

  /** The refer amount and its average per second of market time (0 for no time). */
  function ReferAmount(q: Queue): (r: (real, real))
    ensures r.0 == q.referPeriod.amount
    ensures q.referPeriod.interval <= 0.0 ==> r.1 == 0.0
    ensures q.referPeriod.interval > 0.0 ==> r.1 * q.referPeriod.interval == q.referPeriod.amount
  {
    (q.referPeriod.amount, if q.referPeriod.interval > 0.0 then q.referPeriod.amount / q.referPeriod.interval else 0.0)
  }

  /** The tick at index i of the shot window; an index past the end is an error. */
  function GetItem(q: Queue, i: nat): (r: Result<MarketDepth, string>)
    ensures r.Ok? <==> i < |q.shot|
    ensures r.Ok? ==> r.value == q.shot[i]
  {
    if i >= |q.shot| then Err("Index out of range") else Ok(q.shot[i])
  }

  /**
   * The change in percent from the mid price of the oldest tick to the
   * last price of the newest; 0 until the shot window is full or when the
   * mid price is not positive. A full window of size 0 has no tick to
   * read (None).
   */
  function ShotChangeRate(q: Queue): (r: Option<real>)
    ensures |q.shot| < q.shotWindow ==> r == Some(0.0)
    ensures |q.shot| >= q.shotWindow && q.shot == [] ==> r.None?
    ensures |q.shot| >= q.shotWindow && q.shot != [] ==>
              var mid := MidPrice(q.shot[0]);
              r == Some(if mid > 0.0 then (q.shot[|q.shot| - 1].price - mid) / mid * 100.0 else 0.0)
  {
    if |q.shot| < q.shotWindow then Some(0.0)
    else if q.shot == [] then None
    else
      var mid := MidPrice(q.shot[0]);
      Some(if mid > 0.0 then (q.shot[|q.shot| - 1].price - mid) / mid * 100.0 else 0.0)
  }

  /**
   * The tick the low marker is reset to: despite the name, the first tick
   * of the shot window with the HIGHEST price; the new tick when the window
   * is empty.
   */
  method ResetLow(shot: seq<MarketDepth>, newMd: MarketDepth) returns (low: MarketDepth)
    ensures shot == [] ==> low == newMd
    ensures shot != [] ==> low in shot && forall i :: 0 <= i < |shot| ==> shot[i].price <= low.price
    ensures shot != [] ==> exists k :: 0 <= k < |shot| && low == shot[k] && forall i :: 0 <= i < k ==> shot[i].price < low.price
  {
    if shot == [] {
      return newMd;
    }
    low := shot[0];
    var k := 0;
    var i := 1;
    while i < |shot|
      invariant 1 <= i <= |shot|
      invariant 0 <= k < i && low == shot[k]
      invariant forall j :: 0 <= j < i ==> shot[j].price <= low.price
      invariant forall j :: 0 <= j < k ==> shot[j].price < low.price
    {
      if low.price < shot[i].price {
        low := shot[i];
        k := i;
      }
      i := i + 1;
    }
  }

  /** The reference definition of ResetLow: the first tick of maximal price. */
  function FirstMax(shot: seq<MarketDepth>): (r: nat)
    requires shot != []
    ensures r < |shot|
    ensures forall i :: 0 <= i < |shot| ==> shot[i].price <= shot[r].price
    ensures forall i :: 0 <= i < r ==> shot[i].price < shot[r].price
  {
    if |shot| == 1 then 0
    else
      var t := FirstMax(shot[1..]);
      if shot[0].price >= shot[1..][t].price then 0 else t + 1
  }

  /** What ResetLow returns is the first maximum. */
  method ResetLowIsFirstMax(shot: seq<MarketDepth>, newMd: MarketDepth) returns (low: MarketDepth)
    requires shot != []
    ensures low == shot[FirstMax(shot)]
  {
    low := ResetLow(shot, newMd);
    var m := FirstMax(shot);
    var k :| 0 <= k < |shot| && low == shot[k] && forall i :: 0 <= i < k ==> shot[i].price < low.price;
  }

  /**
   * One tick through the low/high detector. Without a low marker it is
   * reset (to the window's highest tick, see ResetLow); a low marker older
   * than the whole window is reset too while no high marker is set. A tick
   * at or below the low and later than it becomes the new low and clears
   * the high. A rise above the low by more than rangeRatePercent sets the
   * high marker. A tick above the high and later than the low fires when
   * more than durationConfig seconds of market time passed since the high,
   * clearing both markers; otherwise it becomes the high.
   */
  method TriggerShotMinMax(q: Queue, newMd: MarketDepth, rangeRatePercent: real, durationConfig: real)
    returns (r: Queue, fired: bool)
    ensures fired ==> r.low.None? && r.high.None?
    ensures !fired ==> r.low.Some?
    ensures r.shot == q.shot && r.refer == q.refer && r.shotPeriod == q.shotPeriod && r.referPeriod == q.referPeriod
    ensures fired ==> q.high.Some? && newMd.price > q.high.value.price
                      && MarketTime.MarketDuration(q.high.value.quoteTime, newMd.quoteTime) > durationConfig
    ensures (q.low.Some? && q.high.Some? && newMd.price > q.high.value.price && newMd.price > q.low.value.price
             && newMd.quoteTime > q.low.value.quoteTime
             && MarketTime.MarketDuration(q.high.value.quoteTime, newMd.quoteTime) > durationConfig) ==> fired
  {
    var low: MarketDepth;
    var high := q.high;
    if q.low.None? {
      low := ResetLow(q.shot, newMd);
    } else {
      low := q.low.value;
      if |q.shot| > 0 && q.shot[0].quoteTime > low.quoteTime && high.None? {
        low := ResetLow(q.shot, newMd);
      }
      if newMd.price <= low.price && newMd.quoteTime > low.quoteTime {
        low := newMd;
        high := None;
      }
    }
    var rangeRate := if low.price > 0.0 then (newMd.price - low.price) / low.price * 100.0 else 0.0;
    if rangeRate > rangeRatePercent && high.None? {
      high := Some(newMd);
    }
    fired := false;
    if high.Some? && newMd.price > high.value.price && newMd.quoteTime > low.quoteTime {
      var duration := MarketTime.MarketDuration(high.value.quoteTime, newMd.quoteTime);
      if duration > durationConfig {
        fired := true;
        return q.(low := None, high := None), fired;
      } else {
        high := Some(newMd);
      }
    }
    r := q.(low := Some(low), high := high);
  }
}

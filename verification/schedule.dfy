/**
 * The scheduler's decisions: how the window is cut into slices, how much a
 * non-final slice may place and in how many rounds, how each round is
 * split between passive (make) and crossing (take) orders, what the final
 * round sends, and the prices and sizes of those orders. The random jitter
 * and the two tuning constants are inputs.
 */
module Schedule {
  import opened Wrappers
  import opened Status
  import opened AlgoOrders
  import opened Security
  import opened Depth
  import opened Performance
  import Allocation
  import Arith
  import Seqs
  import MarketTime

  /** Seconds per slice, rounds per slice and the allowed progress bias. */
  datatype Shape = Shape(secondsPerSlice: int, rounds: int, bias: real)

  /**
   * Short windows (under five minutes) use 40 s slices of 2 rounds, longer
   * ones 60 s slices of 3 rounds; a low-priced security (previous close
   * under 6) always uses 60 s slices of 2 rounds and a 10% bias instead of 5%.
   */
  function ShapeFor(algoDuration: real, preClose: real): (s: Shape)
    ensures s.secondsPerSlice in {40, 60} && s.rounds in {2, 3}
    ensures preClose < 6.0 ==> s == Shape(60, 2, 0.10)
    ensures preClose >= 6.0 && algoDuration < 300.0 ==> s == Shape(40, 2, 0.05)
    ensures preClose >= 6.0 && algoDuration >= 300.0 ==> s == Shape(60, 3, 0.05)
  {
    if preClose < 6.0 then Shape(60, 2, 0.10)
    else if algoDuration < 300.0 then Shape(40, 2, 0.05)
    else Shape(60, 3, 0.05)
  }

  /** Rounding half away from zero (std::round). */
  function RoundHalfAway(y: real): (r: int)
    ensures y - 0.5 <= r as real <= y + 0.5
  {
    if y >= 0.0 then (y + 0.5).Floor else -((-y + 0.5).Floor)
  }

  /** The smallest integer at or above x (std::ceil). */
  function Ceil(x: real): (r: int)
    ensures x <= r as real < x + 1.0
  {
    -((-x).Floor)
  }

  /**
   * The duration actually scheduled: the window's duration less the jitter
   * (jitter hundredths of a second, jitter < 500), rounded to the millisecond.
   */
  function JitteredDuration(algoDuration: real, jitter: nat): (d: real)
    requires jitter < 500
    ensures algoDuration - jitter as real / 100.0 - 0.0005 <= d <= algoDuration - jitter as real / 100.0 + 0.0005
  {
    RoundHalfAway((algoDuration - jitter as real * 0.01) * 1000.0) as real / 1000.0
  }

  /** The number of slices: the duration over the slice length, rounded up. */
  function SliceCount(duration: real, secondsPerSlice: int): (n: int)
    requires secondsPerSlice > 0
    ensures (n - 1) as real * secondsPerSlice as real < duration <= n as real * secondsPerSlice as real
  {
    var x := duration / secondsPerSlice as real;
    var n := Ceil(x);
    assert x * secondsPerSlice as real == duration;
    Arith.RealScale((n - 1) as real, x, secondsPerSlice as real);
    Arith.RealScale(x, n as real, secondsPerSlice as real);
    n
  }

  /**
   * The cumulative curve of the strategy: the TWAP curve, or for VWAP the
   * corrected profile curve (the interpolated profile of length n is an
   * input). A VWAP instruction with no slice is not scheduled (None).
   */
  function Curve(strategy: Strategy, target: int, n: int, info: SecurityInfo, profile: seq<int>): (c: Option<seq<int>>)
    requires strategy == VWAP && n >= 2 ==> |profile| == n
    ensures strategy != VWAP ==> c == Some(Allocation.TwapAllocate(target, n, info.orderInitQtySize))
    ensures strategy == VWAP && n <= 0 ==> c.None?
    ensures strategy == VWAP && n >= 1 ==> c == Some(Allocation.VwapAllocate(target, n, info.orderInitQtySize, profile))
    ensures c.Some? ==> |c.value| >= 1
  {
    if strategy != VWAP then Some(Allocation.TwapAllocate(target, n, info.orderInitQtySize))
    else if n <= 0 then None
    else Some(Allocation.VwapAllocate(target, n, info.orderInitQtySize, profile))
  }

  /**
   * One slicer per curve entry: every slice but the last lasts one slice
   * length; the last gets what remains of the duration.
   */
  function BuildSlicers(curve: seq<int>, shape: Shape, duration: real): (r: seq<Slicer>)
    requires |curve| >= 1
    ensures |r| == |curve|
    ensures forall i :: 0 <= i < |r| ==>
              r[i].index == i && r[i].cumQty == curve[i] && r[i].bias == shape.bias
              && r[i].roundsRemain == shape.rounds && r[i].qty2make == 0 && r[i].qty2take == 0
              && r[i].qty2makeRemain == 0 && r[i].qty2takeRemain == 0
              && r[i].durationRemain == r[i].duration
              && (r[i].isLast <==> i == |r| - 1)
    ensures forall i :: 0 <= i < |r| - 1 ==> r[i].duration == shape.secondsPerSlice as real
  {
    var n := |curve|;
    var remain := duration - shape.secondsPerSlice as real * (n - 1) as real;
    seq(n, i requires 0 <= i < n =>
      var last := i == n - 1;
      var d := if last then remain else shape.secondsPerSlice as real;
      Slicer(i, curve[i], shape.bias, last, d, 0, 0, d, shape.rounds, 0, 0))
  }

  /** The total duration of a sequence of slicers. */
  function SumDurations(s: seq<Slicer>): real
  {
    if s == [] then 0.0 else s[0].duration + SumDurations(s[1..])
  }

  lemma {:induction false} SumDurationsAppend(a: seq<Slicer>, b: seq<Slicer>)
    ensures SumDurations(a + b) == SumDurations(a) + SumDurations(b)
  {
    if a != [] {
      assert (a + b)[0] == a[0];
      assert (a + b)[1..] == a[1..] + b;
      SumDurationsAppend(a[1..], b);
    } else {
      assert a + b == b;
    }
  }

  lemma {:induction false} SumDurationsConstant(s: seq<Slicer>, d: real)
    requires forall i :: 0 <= i < |s| ==> s[i].duration == d
    ensures SumDurations(s) == |s| as real * d
  {
    if s != [] {
      SumDurationsConstant(s[1..], d);
    }
  }

  /** The slices together last exactly the scheduled duration. */
  lemma SlicersCoverDuration(curve: seq<int>, shape: Shape, duration: real)
    requires |curve| >= 1
    ensures SumDurations(BuildSlicers(curve, shape, duration)) == duration
  {
    var r := BuildSlicers(curve, shape, duration);
    var n := |r|;
    assert r == r[..n - 1] + [r[n - 1]];
    SumDurationsAppend(r[..n - 1], [r[n - 1]]);
    SumDurationsConstant(r[..n - 1], shape.secondsPerSlice as real);
    assert SumDurations([r[n - 1]]) == r[n - 1].duration;
  }

  /**
   * The whole schedule: the shape, the jittered duration, the slice count,
   * the curve and the slicers. None when the strategy cannot be scheduled.
   */
  function Plan(o: AlgoOrder, info: SecurityInfo, algoDuration: real, jitter: nat, profile: seq<int>): (r: Option<seq<Slicer>>)
    requires jitter < 500
    requires o.strategy == VWAP ==> |profile| == SliceCount(JitteredDuration(algoDuration, jitter), ShapeFor(algoDuration, info.preClosePrice).secondsPerSlice)
    ensures o.strategy != VWAP ==> r.Some?
    ensures r.Some? ==> |r.value| >= 1 && r.value[|r.value| - 1].isLast
    ensures r.Some? ==> SumDurations(r.value) == JitteredDuration(algoDuration, jitter)
    ensures r.Some? && o.strategy != VWAP ==> r.value[|r.value| - 1].cumQty == o.qtyTarget
    ensures r.Some? && o.strategy == VWAP && |profile| >= 2 ==>
              |r.value| == |profile| && r.value[|profile| - 1].cumQty == profile[|profile| - 1]
  {
    var shape := ShapeFor(algoDuration, info.preClosePrice);
    var d := JitteredDuration(algoDuration, jitter);
    var n := SliceCount(d, shape.secondsPerSlice);
    match Curve(o.strategy, o.qtyTarget, n, info, profile)
    case None => None
    case Some(c) =>
      SlicersCoverDuration(c, shape, d);
      Some(BuildSlicers(c, shape, d))
  }

  /** The participation cap: the rate's share of the volume traded since arrival, when both are positive. */
  function PovCap(o: AlgoOrder, volume: int, arriveVolume: int): (c: Option<int>)
    ensures c.Some? <==> o.participateRate > 0.0 && volume - arriveVolume > 0
    ensures c.Some? ==> c.value >= 0
    ensures c.Some? ==> c.value as real <= o.participateRate / 100.0 * (volume - arriveVolume) as real
  {
    if o.participateRate > 0.0 && volume - arriveVolume > 0 then
      Some(Arith.Trunc(o.participateRate / 100.0 * (volume - arriveVolume) as real))
    else None
  }

  function CapBy(x: int, c: Option<int>): (r: int)
    ensures r <= x
    ensures c.Some? ==> r <= c.value && (r == x || r == c.value)
    ensures c.None? ==> r == x
  {
    if c.Some? && c.value < x then c.value else x
  }

  /** C++ integer division by a positive divisor, or x itself when the divisor is not positive. */
  function PerRound(x: int, rounds: int): (r: int)
    ensures rounds <= 0 ==> r == x
    ensures rounds > 0 && x >= 0 ==> 0 <= r * rounds <= x && r <= x
  {
    if rounds <= 0 then x
    else if x < 0 then Allocation.TruncDiv(x, rounds)
    else Arith.DivAtMost(x, rounds); Allocation.TruncDiv(x, rounds)
  }

  /** The band and the make/take quantities of a non-final slice, and its round count. */
  datatype Band = Band(upper: int, lower: int, qty2make: int, qty2take: int, rounds: int)

  /** The quantity pending at the best price: the stub's 0, raised to the pending quantity at the instruction's limit. */
  function QtyAtBest(p: Perf, iter: seq<nat>, o: AlgoOrder, md: MarketDepth): (q: int)
    requires Seqs.IsEnumeration(iter, p.orders.Keys)
    ensures o.priceLimit <= 0.0 ==> q == 0
    ensures q >= QtyPendingAtBestPrice(p, md).0
  {
    var atBest := QtyPendingAtBestPrice(p, md).0;
    if o.priceLimit > 0.0 then Arith.Max(atBest, QtyAtLimitPrice(p, iter, o.priceLimit)) else atBest
  }

  /** The order size used to bound the rounds: the minimum order, raised to the minimum amount at the lower limit. */
  function RoundLot(o: AlgoOrder, info: SecurityInfo): (l: int)
    ensures l >= MinOrderQty(info).0 && l > 0
  {
    var init := MinOrderQty(info).0;
    if o.minAmountPerOrder > 0.0 && info.lowLimitPrice > 0.0 then
      Arith.Max(init, Arith.Trunc(o.minAmountPerOrder / info.lowLimitPrice))
    else init
  }

  /**
   * A non-final slice. The band around the slice's cumulative target is
   * capped at target - orderInitQty (so at least one minimum order is left
   * for the last slice) and by the participation cap. The make quantity
   * fills up to the upper bound counting fills and what is pending at the
   * best price; the take quantity catches up to the lower bound. The round
   * count shrinks to the number of round lots, but not below 1.
   */
  function SliceBand(s: Slicer, p: Perf, o: AlgoOrder, info: SecurityInfo, volume: int, arriveVolume: int,
                     atBest: int): (b: Band)
    ensures var beforeLast := o.qtyTarget - info.orderInitQtySize;
            b.upper <= beforeLast && b.lower <= beforeLast
    ensures PovCap(o, volume, arriveVolume).Some? ==>
              b.upper <= PovCap(o, volume, arriveVolume).value && b.lower <= PovCap(o, volume, arriveVolume).value
    ensures b.upper <= Arith.Trunc(s.cumQty as real * (1.0 + s.bias))
    ensures b.lower <= Arith.Trunc(s.cumQty as real * (1.0 - s.bias))
    ensures b.qty2take >= 0
    ensures b.qty2take > 0 ==>
              p.qty + b.qty2take <= o.qtyTarget - info.orderInitQtySize && p.qtyFilled + b.qty2take <= b.lower
    ensures p.qtyFilled >= b.lower ==> b.qty2take == 0
    ensures b.qty2make != 0 ==> p.qtyFilled + atBest < b.upper
    ensures b.qty2make > 0 ==> p.qty + b.qty2make <= b.upper && p.qtyFilled + atBest + b.qty2make <= b.upper
    ensures 1 <= b.rounds <= Arith.Max(s.roundsRemain, 1)
  {
    var beforeLast := o.qtyTarget - info.orderInitQtySize;
    var cap := PovCap(o, volume, arriveVolume);
    var upper := CapBy(Arith.Min(Arith.Trunc(s.cumQty as real * (1.0 + s.bias)), beforeLast), cap);
    var lower := CapBy(Arith.Min(Arith.Trunc(s.cumQty as real * (1.0 - s.bias)), beforeLast), cap);
    var make := if p.qtyFilled + atBest < upper
                then Arith.Min(upper - p.qtyFilled - atBest, Arith.Min(upper, beforeLast) - p.qty)
                else 0;
    var take := if p.qtyFilled < lower then Arith.Max(0, Arith.Min(lower - p.qtyFilled, beforeLast - p.qty)) else 0;
    var lot := RoundLot(o, info);
    var perLot := Arith.Max(Allocation.TruncDiv(make, lot), Allocation.TruncDiv(take, lot));
    Band(upper, lower, make, take, Arith.Max(Arith.Min(s.roundsRemain, perLot), 1))
  }

  /**
   * The excess-cancel step of a non-final slice asks for the lot-fitted
   * excess with the best price excluded, which the stubbed best-price query
   * turns into 0: the step never cancels anything.
   */
  lemma NonFinalSliceNeverCancels(p: Perf, s: Slicer, md: MarketDepth, info: SecurityInfo)
    ensures Floor2FitLotSize(info, ShouldCancel(p, Arith.Trunc(s.cumQty as real * (1.0 + s.bias)), md, true, info)) == 0
  {
  }

  /** The quantities and time of one round, and whether making and taking are allowed. */
  datatype RoundPlan = RoundPlan(make: int, take: int, duration: real, allowMake: bool, allowTake: bool)

  /** The time of one round: an equal share of the slice's remaining time. */
  function RoundDuration(remain: real, rounds: int): real
  {
    if rounds > 0 then remain / rounds as real else remain
  }

  /** A share no larger than the per-round quantity still fits the remainder over all rounds. */
  lemma ShareFits(share: int, perRound: int, remain: int, rounds: int)
    ensures rounds >= 0 && share <= perRound && perRound * rounds <= remain ==> share * rounds <= remain
  {
    if rounds >= 0 && share <= perRound {
      Arith.MulMonotone(perRound, share, rounds);
    }
  }

  /**
   * A round of a non-final slice: the remaining make and take quantities
   * are shared equally over the remaining rounds and capped at what is
   * left of the target; the make quantity is lot-fitted. Taking follows the
   * take policy. Making is allowed while fills are below the slice target
   * less the take still to come, and, when taking too, only while both fit
   * within the target.
   */
  function SplitRound(s: Slicer, p: Perf, qtyTarget: int, info: SecurityInfo): (r: RoundPlan)
    ensures r.take <= qtyTarget - p.qty
    ensures r.make <= Arith.Max(qtyTarget - p.qty, 0)
    ensures r.make == 0 || (r.make >= MinOrderQty(info).0 && (r.make - MinOrderQty(info).0) % MinOrderQty(info).1 == 0)
    ensures s.roundsRemain > 0 && s.qty2takeRemain >= 0 ==> r.take * s.roundsRemain <= s.qty2takeRemain
    ensures s.roundsRemain > 0 && s.qty2makeRemain >= 0 ==> r.make * s.roundsRemain <= s.qty2makeRemain
    ensures r.duration == RoundDuration(s.durationRemain, s.roundsRemain)
    ensures r.allowTake == ShouldTake(p)
    ensures r.allowMake ==> p.qtyFilled < s.cumQty - s.qty2takeRemain
    ensures r.allowMake && r.allowTake && r.make > 0 ==> p.qty + r.take + r.make < qtyTarget
  {
    var remain := qtyTarget - p.qty;
    var makeRaw := Arith.Min(PerRound(s.qty2makeRemain, s.roundsRemain), remain);
    var take := Arith.Min(PerRound(s.qty2takeRemain, s.roundsRemain), remain);
    var allowTake := ShouldTake(p);
    var allowMake := p.qtyFilled < s.cumQty - s.qty2takeRemain && (!allowTake || p.qty + take + makeRaw < qtyTarget);
    var make := Floor2FitLotSize(info, makeRaw);
    ShareFits(make, PerRound(s.qty2makeRemain, s.roundsRemain), s.qty2makeRemain, s.roundsRemain);
    ShareFits(take, PerRound(s.qty2takeRemain, s.roundsRemain), s.qty2takeRemain, s.roundsRemain);
    RoundPlan(make, take, RoundDuration(s.durationRemain, s.roundsRemain), allowMake, allowTake)
  }

  /**
   * The slicer after a round: the placed make and take quantities (the take
   * after the impact cap) leave the remainders, and the round's time leaves
   * the remaining time.
   */
  function AfterRound(s: Slicer, r: RoundPlan, takePlaced: int): (t: Slicer)
    ensures t.qty2makeRemain == s.qty2makeRemain - (if r.allowMake && r.make > 0 then r.make else 0)
    ensures t.qty2takeRemain == s.qty2takeRemain - (if r.allowTake && takePlaced > 0 then takePlaced else 0)
    ensures t.durationRemain == s.durationRemain - r.duration
    ensures t == s.(qty2makeRemain := t.qty2makeRemain, qty2takeRemain := t.qty2takeRemain, durationRemain := t.durationRemain)
  {
    s.(qty2makeRemain := s.qty2makeRemain - (if r.allowMake && r.make > 0 then r.make else 0),
       qty2takeRemain := s.qty2takeRemain - (if r.allowTake && takePlaced > 0 then takePlaced else 0),
       durationRemain := s.durationRemain - r.duration)
  }

  /** The times of the rounds counted down from rounds to 1, starting with the remaining time d. */
  function RoundDurations(d: real, rounds: int): (r: seq<real>)
    ensures |r| == (if rounds > 0 then rounds else 0)
    decreases rounds
  {
    if rounds <= 0 then []
    else [RoundDuration(d, rounds)] + RoundDurations(d - RoundDuration(d, rounds), rounds - 1)
  }

  /** Counting the rounds down shares the slice's time equally: every round gets d / rounds. */
  lemma {:induction false} RoundsShareTimeEqually(d: real, rounds: int)
    requires rounds >= 1
    ensures forall i :: 0 <= i < rounds ==> RoundDurations(d, rounds)[i] == d / rounds as real
    decreases rounds
  {
    var k := rounds as real;
    var rest := RoundDurations(d - d / k, rounds - 1);
    if rounds >= 2 {
      RoundsShareTimeEqually(d - d / k, rounds - 1);
      assert (d - d / k) / (k - 1.0) == d / k by {
        assert d - d / k == d * (k - 1.0) / k;
      }
      assert (rounds - 1) as real == k - 1.0;
      assert forall i :: 0 <= i < rounds - 1 ==> rest[i] == d / k;
    }
    assert RoundDurations(d, rounds) == [d / k] + rest;
  }

  /** The first setting of a final slice: its make and take quantities and round count. */
  function LastSliceBand(s: Slicer, p: Perf, o: AlgoOrder, info: SecurityInfo, volume: int, arriveVolume: int,
                         atBest: int): (b: Band)
    ensures var cum := CapBy(s.cumQty, PovCap(o, volume, arriveVolume));
            b.qty2take == cum - p.qty
            && (p.makerFilledRate > 80.0 ==> b.qty2make == cum - p.qtyFilled - atBest)
            && (p.makerFilledRate <= 80.0 ==> b.qty2make == 0)
            && b.upper == cum && b.lower == cum
    ensures 1 <= b.rounds <= Arith.Max(s.roundsRemain, 1)
  {
    var cum := CapBy(s.cumQty, PovCap(o, volume, arriveVolume));
    var make := if p.makerFilledRate > 80.0 then cum - p.qtyFilled - atBest else 0;
    var take := cum - p.qty;
    var lot := MinOrderQty(info).0;
    var perLot := Arith.Max(Allocation.TruncDiv(make, lot), Allocation.TruncDiv(take, lot));
    Band(cum, cum, make, take, Arith.Max(Arith.Min(s.roundsRemain, perLot), 1))
  }

  /** What one non-final round of the last slice sends. */
  datatype LastRoundOrder = MakeOrder(qty: int) | TakeOrder(qty: int) | NoOrder

  /**
   * A round of the last slice before its final round: a passive order when
   * the make policy allows it and the lot-fitted share is positive,
   * otherwise a crossing order of the impact-capped share. The take policy
   * is evaluated but not consulted.
   */
  function LastSliceRound(s: Slicer, p: Perf, qtyTarget: int, info: SecurityInfo, md: MarketDepth, impactRate: real): (a: LastRoundOrder)
    ensures a.MakeOrder? <==> AllowMake(p) && Floor2FitLotSize(info, Arith.Min(PerRound(s.qty2makeRemain, s.roundsRemain), qtyTarget - p.qty)) > 0
    ensures a.MakeOrder? ==> a.qty == Floor2FitLotSize(info, Arith.Min(PerRound(s.qty2makeRemain, s.roundsRemain), qtyTarget - p.qty))
    ensures a.TakeOrder? ==> a.qty > 0 && a.qty <= Arith.Max(Arith.Min(PerRound(s.qty2takeRemain, s.roundsRemain), qtyTarget - p.qty), 0)
    ensures !a.MakeOrder? ==>
              (a.TakeOrder? <==> QtyShrinkImpact(p.isBuy, md, Arith.Min(PerRound(s.qty2takeRemain, s.roundsRemain), qtyTarget - p.qty), info, impactRate) > 0)
  {
    var remain := qtyTarget - p.qty;
    var make := Floor2FitLotSize(info, Arith.Min(PerRound(s.qty2makeRemain, s.roundsRemain), remain));
    var take := QtyShrinkImpact(p.isBuy, md, Arith.Min(PerRound(s.qty2takeRemain, s.roundsRemain), remain), info, impactRate);
    if AllowMake(p) && make > 0 then MakeOrder(make)
    else if take > 0 then TakeOrder(take)
    else NoOrder
  }

  /** What the final round sends: the quantity left and the price that covers it. */
  datatype Cleanup = Cleanup(qty: int, price: real)

  /**
   * The final round of the last slice: whatever is still unplaced of the
   * target (capped at 200 over the participation cap) is sent at a price
   * covering it ten times over; a buy is lot-fitted, a sell is not.
   */
  function LastSliceCleanup(p: Perf, o: AlgoOrder, info: SecurityInfo, volume: int, arriveVolume: int,
                            md: MarketDepth, defaultCoverRate: real): (c: Cleanup)
    ensures c.qty <= Arith.Max(o.qtyTarget - p.qty, 0)
    ensures PovCap(o, volume, arriveVolume).Some? ==> c.qty <= Arith.Max(PovCap(o, volume, arriveVolume).value + 200 - p.qty, 0)
    ensures !p.isBuy ==> c.qty == CapBy(o.qtyTarget, if PovCap(o, volume, arriveVolume).Some? then Some(PovCap(o, volume, arriveVolume).value + 200) else None) - p.qty
    ensures p.isBuy ==> c.qty == Floor2FitLotSize(info, CapBy(o.qtyTarget, if PovCap(o, volume, arriveVolume).Some? then Some(PovCap(o, volume, arriveVolume).value + 200) else None) - p.qty)
    ensures p.isBuy ==> c.qty == 0 || (c.qty >= MinOrderQty(info).0 && (c.qty - MinOrderQty(info).0) % MinOrderQty(info).1 == 0)
    ensures c.price == PriceCover4Take(p.isBuy, md, c.qty, 0.1, defaultCoverRate)
  {
    var cap := PovCap(o, volume, arriveVolume);
    var target := CapBy(o.qtyTarget, if cap.Some? then Some(cap.value + 200) else None);
    var remain := target - p.qty;
    var qty := if p.isBuy then Floor2FitLotSize(info, remain) else remain;
    Cleanup(qty, PriceCover4Take(p.isBuy, md, qty, 0.1, defaultCoverRate))
  }

  /** The total volume of the positive-price levels before index k. */
  function PosVolBefore(levels: seq<Level>, k: nat): int
    requires k <= |levels|
  {
    if k == 0 then 0
    else PosVolBefore(levels, k - 1) + (if levels[k - 1].price > 0.0 then levels[k - 1].vol else 0)
  }

  /** Level k covers qty: it is quoted, and the volume up to and including it, scaled by the rate, exceeds qty. */
  predicate Covers(levels: seq<Level>, k: nat, qty: int, rate: real)
    requires k < |levels|
  {
    levels[k].price > 0.0 && (PosVolBefore(levels, k) + levels[k].vol) as real * rate > qty as real
  }

  /** The first covering level at or after k. */
  function FirstCoverFrom(levels: seq<Level>, k: nat, qty: int, rate: real): (r: Option<nat>)
    requires k <= |levels|
    ensures r.Some? ==> k <= r.value < |levels| && Covers(levels, r.value, qty, rate)
    ensures r.Some? ==> forall j :: k <= j < r.value ==> !Covers(levels, j, qty, rate)
    ensures r.None? ==> forall j :: k <= j < |levels| ==> !Covers(levels, j, qty, rate)
    decreases |levels| - k
  {
    if k == |levels| then None
    else if Covers(levels, k, qty, rate) then Some(k)
    else FirstCoverFrom(levels, k + 1, qty, rate)
  }

  /** The last quoted (positive-price) level before index k. */
  function LastQuotedBefore(levels: seq<Level>, k: nat): (r: Option<nat>)
    requires k <= |levels|
    ensures r.Some? ==> r.value < k && levels[r.value].price > 0.0
    ensures r.Some? ==> forall j :: r.value < j < k ==> levels[j].price <= 0.0
    ensures r.None? ==> forall j :: 0 <= j < k ==> levels[j].price <= 0.0
  {
    if k == 0 then None
    else if levels[k - 1].price > 0.0 then Some(k - 1)
    else LastQuotedBefore(levels, k - 1)
  }

  /** The fallback price: the last quoted level before k, or level 1 when there is none. */
  function FallbackPrice(levels: seq<Level>, k: nat): real
    requires 1 <= |levels| && k <= |levels|
  {
    match LastQuotedBefore(levels, k)
    case Some(j) => levels[j].price
    case None => levels[0].price
  }

  /** The walk over the levels as the source performs it, carrying the running volume and price. */
  function CoverWalk(levels: seq<Level>, volsum: int, price: real, qty: int, rate: real): real
    decreases |levels|
  {
    if levels == [] then price
    else if levels[0].price > 0.0 then
      if (volsum + levels[0].vol) as real * rate > qty as real then levels[0].price
      else CoverWalk(levels[1..], volsum + levels[0].vol, levels[0].price, qty, rate)
    else CoverWalk(levels[1..], volsum, price, qty, rate)
  }

  /** The price the reference definition picks from level k on: the first covering level's, or else the fallback. */
  function CoverPriceFrom(levels: seq<Level>, k: nat, qty: int, rate: real): real
    requires 1 <= |levels| && k <= |levels|
  {
    match FirstCoverFrom(levels, k, qty, rate)
    case Some(i) => levels[i].price
    case None => FallbackPrice(levels, |levels|)
  }

  /** The walk from level k on agrees with the reference definition. */
  lemma {:induction false} CoverWalkFrom(levels: seq<Level>, k: nat, qty: int, rate: real)
    requires 1 <= |levels| && k <= |levels|
    ensures CoverWalk(levels[k..], PosVolBefore(levels, k), FallbackPrice(levels, k), qty, rate)
            == CoverPriceFrom(levels, k, qty, rate)
    decreases |levels| - k
  {
    if k == |levels| {
      assert levels[k..] == [];
    } else {
      CoverWalkFrom(levels, k + 1, qty, rate);
      WalkStep(levels, k, qty, rate);
    }
  }

  /** One step of the walk: level k either covers, or the walk goes on from k + 1 with the volume and price carried. */
  lemma WalkStep(levels: seq<Level>, k: nat, qty: int, rate: real)
    requires 1 <= |levels| && k < |levels|
    ensures CoverWalk(levels[k..], PosVolBefore(levels, k), FallbackPrice(levels, k), qty, rate)
            == if Covers(levels, k, qty, rate) then levels[k].price
               else CoverWalk(levels[k + 1..], PosVolBefore(levels, k + 1), FallbackPrice(levels, k + 1), qty, rate)
  {
    var l := levels[k];
    assert levels[k..][0] == l;
    assert levels[k..][1..] == levels[k + 1..];
    if l.price > 0.0 {
      assert FallbackPrice(levels, k + 1) == l.price;
    } else {
      assert LastQuotedBefore(levels, k + 1) == LastQuotedBefore(levels, k);
    }
  }

  /** The cover rate, with 0 standing for the default. */
  function EffectiveCoverRate(coverRate: real, defaultCoverRate: real): (r: real)
    ensures coverRate != 0.0 ==> r == coverRate
    ensures coverRate == 0.0 ==> r == defaultCoverRate
  {
    if coverRate != 0.0 then coverRate else defaultCoverRate
  }

  /**
   * The price that covers qty on the opposite side: the first quoted level
   * (skipping non-positive prices) where the volume so far times the cover
   * rate exceeds qty; failing that the last quoted level, or the level-1
   * price when none is quoted.
   */
  function PriceCover4Take(isBuy: bool, md: MarketDepth, qty: int, coverRate: real, defaultCoverRate: real): (r: real)
    ensures var levels := if isBuy then AskQuotes(md) else BidQuotes(md);
            var rate := EffectiveCoverRate(coverRate, defaultCoverRate);
            r == CoverPriceFrom(levels, 0, qty, rate)
  {
    var levels := if isBuy then AskQuotes(md) else BidQuotes(md);
    var rate := EffectiveCoverRate(coverRate, defaultCoverRate);
    CoverWalkFrom(levels, 0, qty, rate);
    assert levels[0..] == levels;
    CoverWalk(levels, 0, levels[0].price, qty, rate)
  }

  /** The impact limit: the rate's share of the volume at the two best opposite levels, truncated. */
  function MaxImpact(isBuy: bool, md: MarketDepth, impactRate: real): (m: int)
    ensures var l := if isBuy then md.asks else md.bids;
            m == Arith.Trunc((l.l1.vol + l.l2.vol) as real * impactRate)
  {
    var l := if isBuy then md.asks else md.bids;
    Arith.Trunc((l.l1.vol + l.l2.vol) as real * impactRate)
  }

  /**
   * The take size after the market-impact cap: a take exceeding the impact
   * limit (the rate's share of the two best opposite levels) by at least a
   * minimum order is cut to the limit; then it is lot-fitted.
   */
  function QtyShrinkImpact(isBuy: bool, md: MarketDepth, qty: int, info: SecurityInfo, impactRate: real): (r: int)
    ensures var maxImpact := MaxImpact(isBuy, md, impactRate);
            (qty - maxImpact >= info.orderInitQtySize ==> r == Floor2FitLotSize(info, Arith.Min(qty, maxImpact)))
            && (qty - maxImpact < info.orderInitQtySize ==> r == Floor2FitLotSize(info, qty))
    ensures r <= Arith.Max(qty, 0)
    ensures Floor2FitLotSize(info, r) == r
  {
    var maxImpact := MaxImpact(isBuy, md, impactRate);
    var q := if qty - maxImpact >= info.orderInitQtySize then Arith.Min(qty, maxImpact) else qty;
    Floor2FitIdempotent(info, q);
    Floor2FitMonotone(info, q, Arith.Max(qty, 0));
    Floor2FitLotSize(info, q)
  }

  /** The passive price: level 2 of one's own side when passive orders fill well (over 80%), level 1 otherwise. */
  function Price4Make(tradeSide: int, md: MarketDepth, makerFilledRate: real): (r: real)
    ensures IsBuy(tradeSide) ==> r == (if makerFilledRate > 80.0 then md.bids.l2.price else md.bids.l1.price)
    ensures !IsBuy(tradeSide) ==> r == (if makerFilledRate > 80.0 then md.asks.l2.price else md.asks.l1.price)
  {
    if makerFilledRate > 80.0 then (if IsBuy(tradeSide) then md.bids.l2.price else md.asks.l2.price)
    else if IsBuy(tradeSide) then md.bids.l1.price else md.asks.l1.price
  }

  /**
   * On an uncrossed book with ordered ladders, the passive price does not
   * cross the spread, so the performance record counts the order as a
   * maker order.
   */
  lemma MakePriceIsPassive(o: Orders.Order, md: MarketDepth, makerFilledRate: real)
    requires 0.0 < Bid1(md) < Ask1(md)
    requires md.bids.l2.price <= md.bids.l1.price && md.asks.l2.price >= md.asks.l1.price
    requires o.orderPrice == Price4Make(o.tradeSide, md, makerFilledRate)
    ensures IsMakerRequest(o, md)
  {
  }
}

/**
 * A level-5 quote snapshot: last price, cumulative volume and amount, five
 * bid and five ask levels, and the per-tick deltas derived from the
 * previous snapshot of the same symbol.
 */
module Depth {
  import opened Wrappers
  import Numbers

  datatype Level = Level(price: real, vol: int)

  /** Five levels, best first. */
  datatype Ladder = Ladder(l1: Level, l2: Level, l3: Level, l4: Level, l5: Level)

  datatype QuoteSide = AskSide | BidSide | BothSides

  datatype MarketDepth = MarketDepth(
    symbol: string,
    price: real,
    preClose: real,
    volume: nat,
    amount: real,
    bids: Ladder,
    asks: Ladder,
    quoteTime: int,
    bsType: int,
    deltaVolume: int,
    deltaAmount: real,
    flow: real)

  function Ask1(md: MarketDepth): real { md.asks.l1.price }
  function Bid1(md: MarketDepth): real { md.bids.l1.price }

  /** The five levels of a ladder as (price, volume) pairs, level 1 first. */
  function Levels(l: Ladder): (r: seq<Level>)
    ensures |r| == 5
    ensures r[0] == l.l1 && r[1] == l.l2 && r[2] == l.l3 && r[3] == l.l4 && r[4] == l.l5
  {
    [l.l1, l.l2, l.l3, l.l4, l.l5]
  }

  function AskQuotes(md: MarketDepth): (r: seq<Level>)
    ensures |r| == 5 && r[0].price == Ask1(md)
    ensures r == Levels(md.asks)
  {
    Levels(md.asks)
  }

  function BidQuotes(md: MarketDepth): (r: seq<Level>)
    ensures |r| == 5 && r[0].price == Bid1(md)
    ensures r == Levels(md.bids)
  {
    Levels(md.bids)
  }

  function MaxReal(a: real, b: real): real { if a >= b then a else b }

  /** The mid price: the average of both best prices, or the one that is positive. */
  function MidPrice(md: MarketDepth): (r: real)
    ensures Ask1(md) > 0.0 && Bid1(md) > 0.0 ==> r == (Ask1(md) + Bid1(md)) / 2.0
    ensures !(Ask1(md) > 0.0 && Bid1(md) > 0.0) ==> r == MaxReal(Ask1(md), Bid1(md))
    ensures Bid1(md) > 0.0 && Bid1(md) <= Ask1(md) ==> Bid1(md) <= r <= Ask1(md)
  {
    if Ask1(md) > 0.0 && Bid1(md) > 0.0 then (Ask1(md) + Bid1(md)) / 2.0
    else MaxReal(Ask1(md), Bid1(md))
  }

  /** The index of the first level quoted at price p. */
  function FirstAt(levels: seq<Level>, p: real): (r: Option<nat>)
    ensures r.None? <==> forall i :: 0 <= i < |levels| ==> levels[i].price != p
    ensures r.Some? ==> r.value < |levels| && levels[r.value].price == p
    ensures r.Some? ==> forall i :: 0 <= i < r.value ==> levels[i].price != p
  {
    if levels == [] then None
    else if levels[0].price == p then Some(0)
    else match FirstAt(levels[1..], p)
      case None => None
      case Some(i) => Some(i + 1)
  }

  /**
   * A price-to-volume map built from an initializer list: a repeated price
   * keeps the volume of its first occurrence.
   */
  function PriceToVol(levels: seq<Level>): (m: map<real, int>)
    ensures forall p :: p in m <==> FirstAt(levels, p).Some?
    ensures forall p :: p in m ==> m[p] == levels[FirstAt(levels, p).value].vol
  {
    if levels == [] then map[]
    else
      var rest := PriceToVol(levels[1..]);
      rest[levels[0].price := levels[0].vol]
  }

  function SideLevels(md: MarketDepth, qs: QuoteSide): (r: seq<Level>)
    ensures qs == AskSide ==> r == AskQuotes(md)
    ensures qs == BidSide ==> r == BidQuotes(md)
    ensures qs == BothSides ==> r == BidQuotes(md) + AskQuotes(md)
  {
    match qs
    case AskSide => AskQuotes(md)
    case BidSide => BidQuotes(md)
    case BothSides => BidQuotes(md) + AskQuotes(md)
  }

  function PriceToVolMap(md: MarketDepth, qs: QuoteSide): (m: map<real, int>)
    ensures forall p :: p in m <==> FirstAt(SideLevels(md, qs), p).Some?
  {
    PriceToVol(SideLevels(md, qs))
  }

  /**
   * The volume quoted at a price on either side: 0 when no level has it,
   * otherwise the first listed level, bids before asks.
   */
  function VolAtPrice(md: MarketDepth, p: real): (v: int)
    ensures FirstAt(BidQuotes(md) + AskQuotes(md), p).None? ==> v == 0
    ensures FirstAt(BidQuotes(md) + AskQuotes(md), p).Some? ==>
              v == (BidQuotes(md) + AskQuotes(md))[FirstAt(BidQuotes(md) + AskQuotes(md), p).value].vol
    ensures FirstAt(BidQuotes(md), p).Some? ==> v == BidQuotes(md)[FirstAt(BidQuotes(md), p).value].vol
  {
    var m := PriceToVolMap(md, BothSides);
    var all := BidQuotes(md) + AskQuotes(md);
    FirstAtAppend(BidQuotes(md), AskQuotes(md), p);
    if p in m then m[p] else 0
  }

  lemma FirstAtAppend(a: seq<Level>, b: seq<Level>, p: real)
    ensures FirstAt(a, p).Some? ==> FirstAt(a + b, p) == FirstAt(a, p)
  {
    if a != [] && a[0].price != p {
      FirstAtAppend(a[1..], b, p);
      assert (a + b)[1..] == a[1..] + b;
    }
  }

  /** The quantity taken at one level: a fifth of its volume, truncated. */
  function Take(vol: int): int
  {
    if vol >= 0 then vol / 5 else -((-vol) / 5)
  }

  /** Whether a level can trade against a limit price on the given side. */
  predicate Crosses(qs: QuoteSide, p: real, price: real)
  {
    if qs == AskSide then p > 0.0 && p <= price else p >= price && price > 0.0
  }

  /** How many leading levels cross the limit. */
  function CrossingRun(levels: seq<Level>, qs: QuoteSide, price: real): (k: nat)
    ensures k <= |levels|
    ensures forall i :: 0 <= i < k ==> Crosses(qs, levels[i].price, price)
    ensures k < |levels| ==> !Crosses(qs, levels[k].price, price)
  {
    if levels != [] && Crosses(qs, levels[0].price, price) then 1 + CrossingRun(levels[1..], qs, price) else 0
  }

  /** The running take after level i: takes accumulate and are not reset per level. */
  function CumTake(levels: seq<Level>, i: nat): int
    requires i < |levels|
  {
    if i == 0 then Take(levels[0].vol) else CumTake(levels, i - 1) + Take(levels[i].vol)
  }

  /** The quantity counted as filled after consuming the first k levels. */
  function FilledAfter(levels: seq<Level>, k: nat): int
    requires k <= |levels|
  {
    if k == 0 then 0 else FilledAfter(levels, k - 1) + CumTake(levels, k - 1)
  }

  /** The loop of the matching estimate, from level i with its running state. */
  function MatchFrom(levels: seq<Level>, qs: QuoteSide, price: real, qty: int,
                     i: nat, mathQty: int, filled: int, amount: real): (r: (int, real))
    requires i <= |levels|
    decreases |levels| - i
  {
    if i == |levels| || !Crosses(qs, levels[i].price, price) then (filled, amount)
    else
      var p := levels[i].price;
      var m := mathQty + Take(levels[i].vol);
      var f := filled + m;
      var a := amount + p * m as real;
      if f >= qty then (qty, a - p * (f - qty) as real)
      else MatchFrom(levels, qs, price, qty, i + 1, m, f, a)
  }

  /** The first k in 1..n at which the filled count reaches qty. */
  function FirstReach(levels: seq<Level>, qty: int, from: nat, n: nat): (r: Option<nat>)
    requires 1 <= from && n <= |levels|
    ensures r.Some? ==> from <= r.value <= n && FilledAfter(levels, r.value) >= qty
    ensures r.None? ==> forall k :: from <= k <= n ==> FilledAfter(levels, k) < qty
    decreases n - from + 1
  {
    if from > n then None
    else if FilledAfter(levels, from) >= qty then Some(from)
    else FirstReach(levels, qty, from + 1, n)
  }

  /** One step of the matching loop that does not reach qty. */
  lemma MatchFromStep(levels: seq<Level>, qs: QuoteSide, price: real, qty: int,
                      i: nat, mathQty: int, filled: int, amount: real)
    requires i < |levels| && Crosses(qs, levels[i].price, price)
    requires filled + mathQty + Take(levels[i].vol) < qty
    ensures MatchFrom(levels, qs, price, qty, i, mathQty, filled, amount)
            == MatchFrom(levels, qs, price, qty, i + 1, mathQty + Take(levels[i].vol),
                         filled + (mathQty + Take(levels[i].vol)),
                         amount + levels[i].price * (mathQty + Take(levels[i].vol)) as real)
  {
  }

  /** The running take before level i. */
  function MathBefore(levels: seq<Level>, i: nat): int
    requires i <= |levels|
  {
    if i == 0 then 0 else CumTake(levels, i - 1)
  }

  /** The matching loop entered at level i with the state it has after i levels. */
  function MatchAt(levels: seq<Level>, qs: QuoteSide, price: real, qty: int, i: nat): (int, real)
    requires i <= |levels|
  {
    MatchFrom(levels, qs, price, qty, i, MathBefore(levels, i), FilledAfter(levels, i), AmountAfter(levels, i))
  }

  /** A crossing level that leaves the count below qty hands the loop its state after i + 1 levels. */
  lemma MatchAtContinue(levels: seq<Level>, qs: QuoteSide, price: real, qty: int, i: nat)
    requires i < |levels| && Crosses(qs, levels[i].price, price)
    requires FilledAfter(levels, i + 1) < qty
    ensures MatchAt(levels, qs, price, qty, i) == MatchAt(levels, qs, price, qty, i + 1)
  {
    var mq, fl, am := MathBefore(levels, i), FilledAfter(levels, i), AmountAfter(levels, i);
    assert mq + Take(levels[i].vol) == CumTake(levels, i);
    assert MathBefore(levels, i + 1) == mq + Take(levels[i].vol);
    assert FilledAfter(levels, i + 1) == fl + (mq + Take(levels[i].vol));
    assert AmountAfter(levels, i + 1) == am + levels[i].price * (mq + Take(levels[i].vol)) as real;
    MatchFromStep(levels, qs, price, qty, i, mq, fl, am);
  }

  /** A crossing level that brings the count to qty ends the loop with qty. */
  lemma MatchAtReach(levels: seq<Level>, qs: QuoteSide, price: real, qty: int, i: nat)
    requires i < |levels| && Crosses(qs, levels[i].price, price)
    requires FilledAfter(levels, i + 1) >= qty
    ensures MatchAt(levels, qs, price, qty, i).0 == qty
  {
    var m := MathBefore(levels, i) + Take(levels[i].vol);
    assert m == CumTake(levels, i);
    assert FilledAfter(levels, i + 1) == FilledAfter(levels, i) + m;
  }

  lemma {:induction false} MatchFromFilled(levels: seq<Level>, qs: QuoteSide, price: real, qty: int, i: nat)
    requires i <= |levels|
    requires i == 0 || FilledAfter(levels, i) < qty
    ensures MatchAt(levels, qs, price, qty, i).0
            == if FirstReach(levels, qty, i + 1, CrossingRunFrom(levels, qs, price, i)).Some? then qty
               else FilledAfter(levels, CrossingRunFrom(levels, qs, price, i))
    decreases |levels| - i
  {
    var k := CrossingRunFrom(levels, qs, price, i);
    if i < |levels| && Crosses(qs, levels[i].price, price) {
      assert k == CrossingRunFrom(levels, qs, price, i + 1);
      if FilledAfter(levels, i + 1) < qty {
        MatchAtContinue(levels, qs, price, qty, i);
        MatchFromFilled(levels, qs, price, qty, i + 1);
        assert FirstReach(levels, qty, i + 1, k) == FirstReach(levels, qty, i + 2, k);
      } else {
        MatchAtReach(levels, qs, price, qty, i);
        assert FirstReach(levels, qty, i + 1, k) == Some(i + 1);
      }
    } else {
      assert k == i;
    }
  }

  /** The index of the first level at or after i that does not cross. */
  function CrossingRunFrom(levels: seq<Level>, qs: QuoteSide, price: real, i: nat): (k: nat)
    requires i <= |levels|
    ensures i <= k <= |levels|
    ensures forall j :: i <= j < k ==> Crosses(qs, levels[j].price, price)
    ensures k < |levels| ==> !Crosses(qs, levels[k].price, price)
    decreases |levels| - i
  {
    if i < |levels| && Crosses(qs, levels[i].price, price) then CrossingRunFrom(levels, qs, price, i + 1) else i
  }

  /** The amount counted after consuming the first k levels. */
  function AmountAfter(levels: seq<Level>, k: nat): real
    requires k <= |levels|
  {
    if k == 0 then 0.0 else AmountAfter(levels, k - 1) + levels[k - 1].price * CumTake(levels, k - 1) as real
  }

  /**
   * The fill estimate of a limit order of qty against one side: levels are
   * consumed while they cross the limit; the count stops at qty.
   */
  function TryMatchWithinPrice(md: MarketDepth, qs: QuoteSide, price: real, qty: int): (r: (int, real))
    ensures qs == BothSides ==> r == (0, 0.0)
    ensures qs != BothSides ==>
              var levels := SideLevels(md, qs);
              var k := CrossingRunFrom(levels, qs, price, 0);
              r.0 == (if FirstReach(levels, qty, 1, k).Some? then qty else FilledAfter(levels, k))
    ensures qs != BothSides && !Crosses(qs, SideLevels(md, qs)[0].price, price) ==> r == (0, 0.0)
    ensures qs != BothSides && qty >= 0 ==> r.0 <= qty
  {
    if qs == BothSides then (0, 0.0)
    else
      var levels := SideLevels(md, qs);
      MatchFromFilled(levels, qs, price, qty, 0);
      MatchAt(levels, qs, price, qty, 0)
  }

  /**
   * Takes are cumulative: two asks of 100 at acceptable prices count as
   * 20 + 40 = 60 filled, not 40.
   */
  lemma TryMatchCountsTakesTwice(md: MarketDepth)
    requires md.asks == Ladder(Level(10.0, 100), Level(10.01, 100), Level(0.0, 0), Level(0.0, 0), Level(0.0, 0))
    ensures TryMatchWithinPrice(md, AskSide, 10.01, 1000).0 == 60
  {
    var levels := SideLevels(md, AskSide);
    assert CrossingRunFrom(levels, AskSide, 10.01, 2) == 2;
    assert CrossingRunFrom(levels, AskSide, 10.01, 0) == 2;
    assert FilledAfter(levels, 2) == 60;
  }

  /** The index of the last level quoted at price p. */
  function LastAt(levels: seq<Level>, p: real): (r: Option<nat>)
    ensures r.None? <==> FirstAt(levels, p).None?
    ensures r.Some? ==> r.value < |levels| && levels[r.value].price == p
    ensures r.Some? ==> forall i :: r.value < i < |levels| ==> levels[i].price != p
    decreases |levels|
  {
    if levels == [] then None
    else if levels[|levels| - 1].price == p then Some(|levels| - 1)
    else LastAt(levels[..|levels| - 1], p)
  }

  /** Dropping the first level moves the last position of a price one place down, unless that level was the only one. */
  lemma {:induction false} LastAtTail(levels: seq<Level>, p: real)
    requires levels != []
    ensures LastAt(levels[1..], p).Some? ==> LastAt(levels, p) == Some(LastAt(levels[1..], p).value + 1)
    ensures LastAt(levels[1..], p).None? && levels[0].price == p ==> LastAt(levels, p) == Some(0)
    decreases |levels|
  {
    var n := |levels|;
    if n > 1 && levels[n - 1].price != p {
      assert levels[..n - 1][1..] == levels[1..][..n - 2];
      LastAtTail(levels[..n - 1], p);
    }
  }

  /**
   * The depth changes of one side: for each level quoted before, its
   * volume minus the previous volume at that price. The levels are
   * visited in order, so for a price quoted twice the last level wins.
   */
  function DeltaSide(levels: seq<Level>, prev: map<real, int>, acc: map<real, int>): (m: map<real, int>)
    ensures forall p :: p in m <==> p in acc || (p in prev && FirstAt(levels, p).Some?)
    ensures forall p :: p in prev && LastAt(levels, p).Some? ==> m[p] == levels[LastAt(levels, p).value].vol - prev[p]
    ensures forall p :: p in acc && !(p in prev && LastAt(levels, p).Some?) ==> m[p] == acc[p]
    decreases |levels|
  {
    if levels == [] then acc
    else
      var acc' := if levels[0].price in prev then acc[levels[0].price := levels[0].vol - prev[levels[0].price]] else acc;
      var m := DeltaSide(levels[1..], prev, acc');
      forall p | p in prev && LastAt(levels, p).Some?
        ensures m[p] == levels[LastAt(levels, p).value].vol - prev[p]
      {
        LastAtTail(levels, p);
        var t := LastAt(levels[1..], p);
        if t.Some? {
          assert levels[1..][t.value] == levels[t.value + 1];
        }
      }
      forall p | p in acc && !(p in prev && LastAt(levels, p).Some?)
        ensures m[p] == acc[p]
      {
        LastAtTail(levels, p);
      }
      m
  }

  /**
   * The depth change by price: a price counts when the previous snapshot
   * quoted it on the same side, with the volume now quoted there minus the
   * volume quoted then; bid entries are written after ask entries, so a
   * price on both sides takes the bid change.
   */
  function DepthDelta(md: MarketDepth, last: MarketDepth): (m: map<real, int>)
    ensures forall p :: p in m <==> ((p in PriceToVol(Levels(last.asks)) && FirstAt(AskQuotes(md), p).Some?)
                                    || (p in PriceToVol(Levels(last.bids)) && FirstAt(BidQuotes(md), p).Some?))
    ensures forall p :: p in PriceToVol(Levels(last.bids)) && LastAt(BidQuotes(md), p).Some? ==>
              m[p] == BidQuotes(md)[LastAt(BidQuotes(md), p).value].vol - PriceToVol(Levels(last.bids))[p]
    ensures forall p :: p in PriceToVol(Levels(last.asks)) && LastAt(AskQuotes(md), p).Some?
                        && !(p in PriceToVol(Levels(last.bids)) && LastAt(BidQuotes(md), p).Some?) ==>
              m[p] == AskQuotes(md)[LastAt(AskQuotes(md), p).value].vol - PriceToVol(Levels(last.asks))[p]
  {
    var askDelta := DeltaSide(AskQuotes(md), PriceToVol(Levels(last.asks)), map[]);
    DeltaSide(BidQuotes(md), PriceToVol(Levels(last.bids)), askDelta)
  }

  /** The trade direction of an average price against a mid price: 1 above, -1 below, 0 at it. */
  function Direction(avg: real, mid: real): (bs: int)
    ensures bs == 1 <==> avg > mid
    ensures bs == -1 <==> avg < mid
    ensures bs == 0 <==> avg == mid
  {
    if avg > mid then 1 else if avg < mid then -1 else 0
  }

  /**
   * The per-tick deltas against the previous snapshot. On a newer tick the
   * vendor's deltas are kept when non-zero, otherwise derived from the
   * cumulative counters (the volume difference narrowed to 32 bits); the
   * trade direction compares the average trade price with the previous
   * mid; flow is signed amount. A tick that is not newer has its direction,
   * deltas and flow reset to 0. The second component is the depth change by
   * price, bids written after asks.
   */
  function CalDelta(md: MarketDepth, last: MarketDepth): (r: (MarketDepth, map<real, int>))
    ensures md.quoteTime <= last.quoteTime ==>
              r.0 == md.(bsType := 0, deltaVolume := 0, deltaAmount := 0.0, flow := 0.0) && r.1 == map[]
    ensures md.quoteTime > last.quoteTime ==> r == (TickDeltas(md, last), DepthDelta(md, last))
    ensures r.0.symbol == md.symbol && r.0.quoteTime == md.quoteTime && r.0.asks == md.asks && r.0.bids == md.bids
  {
    if md.quoteTime > last.quoteTime then (TickDeltas(md, last), DepthDelta(md, last))
    else (md.(bsType := 0, deltaVolume := 0, deltaAmount := 0.0, flow := 0.0), map[])
  }

  /**
   * The deltas of a newer tick: the vendor's when non-zero, else the
   * differences of the cumulative counters; with a positive volume and
   * amount the direction compares the average price with the previous
   * mid and the flow is the signed amount, otherwise the direction is 0
   * and the flow is kept.
   */
  function TickDeltas(md: MarketDepth, last: MarketDepth): (r: MarketDepth)
    ensures r.deltaVolume == (if md.deltaVolume == 0 then Numbers.Wrap32(md.volume - last.volume) else md.deltaVolume)
    ensures r.deltaAmount == (if md.deltaAmount == 0.0 then md.amount - last.amount else md.deltaAmount)
    ensures r.deltaVolume > 0 && r.deltaAmount > 0.0 ==>
              r.bsType == Direction(r.deltaAmount / r.deltaVolume as real, 0.5 * (Ask1(last) + Bid1(last)))
              && r.flow == r.bsType as real * r.deltaAmount
    ensures !(r.deltaVolume > 0 && r.deltaAmount > 0.0) ==> r.bsType == 0 && r.flow == md.flow
    ensures r == md.(deltaVolume := r.deltaVolume, deltaAmount := r.deltaAmount, bsType := r.bsType, flow := r.flow)
  {
    var dv := if md.deltaVolume == 0 then Numbers.Wrap32(md.volume - last.volume) else md.deltaVolume;
    var da := if md.deltaAmount == 0.0 then md.amount - last.amount else md.deltaAmount;
    if dv > 0 && da > 0.0 then
      var bs := Direction(da / dv as real, 0.5 * (Ask1(last) + Bid1(last)));
      md.(deltaVolume := dv, deltaAmount := da, bsType := bs, flow := bs as real * da)
    else md.(deltaVolume := dv, deltaAmount := da, bsType := 0)
  }
}

/**
 * Cumulative quantity curves. Entry i of a curve is the quantity that
 * should have been traded by the end of slice i. TWAP splits the target
 * evenly; VWAP follows a volume profile (its interpolation is an input
 * here). Both then apply the same correction so that the last slice is at
 * least one minimum order.
 */
module Allocation {
  import opened Wrappers
  import Arith

  /** Integer division truncating toward zero, as a C++ cast of a quotient does. */
  function TruncDiv(a: int, d: int): (q: int)
    requires d > 0
    ensures a >= 0 ==> q == a / d && 0 <= q * d <= a < q * d + d
    ensures a < 0 ==> q == -((-a) / d)
  {
    if a >= 0 then Arith.FloorMultiple(a, d); a / d else -((-a) / d)
  }

  /**
   * The even TWAP curve in exact arithmetic: entry i is (i+1)/n of the
   * target, truncated toward zero.
   */
  function TwapRaw(target: int, n: nat): (c: seq<int>)
    requires n > 0
    ensures |c| == n
    ensures c[n - 1] == target
    ensures forall i :: 0 <= i < n ==> c[i] == TruncDiv((i + 1) * target, n)
  {
    var c := seq(n, i requires 0 <= i < n => TruncDiv((i + 1) * target, n));
    assert c[n - 1] == target by {
      if target >= 0 {
        Arith.DivModUnique(n * target, n, target, 0);
      } else {
        Arith.DivModUnique(n * -target, n, -target, 0);
      }
    }
    c
  }

  /** Without the correction a non-negative TWAP curve is non-decreasing. */
  lemma TwapRawMonotone(target: int, n: nat, i: nat, j: nat)
    requires n > 0 && target >= 0
    requires i <= j < n
    ensures TwapRaw(target, n)[i] <= TwapRaw(target, n)[j]
  {
    Arith.MulMonotone(j + 1, i + 1, target);
    Arith.MulNonneg(i + 1, target);
    Arith.DivMonotone((i + 1) * target, (j + 1) * target, n);
  }

  /** The highest index k <= j whose entry exceeds v. */
  function HighestAbove(c: seq<int>, j: int, v: int): (r: Option<nat>)
    requires j < |c|
    ensures r.Some? ==> r.value <= j && c[r.value] > v
    ensures r.Some? ==> forall k :: r.value < k <= j ==> c[k] <= v
    ensures r.None? ==> forall k :: 0 <= k <= j ==> c[k] <= v
    decreases j + 1
  {
    if j < 0 then None
    else if c[j] > v then Some(j)
    else HighestAbove(c, j - 1, v)
  }

  /**
   * The backward pass: from index j down, the first entry above v is
   * lowered to v and the pass stops.
   */
  function ClampBack(c: seq<int>, j: int, v: int): (r: seq<int>)
    requires j < |c|
    ensures |r| == |c|
    ensures HighestAbove(c, j, v).None? ==> r == c
    ensures HighestAbove(c, j, v).Some? ==> r == c[HighestAbove(c, j, v).value := v]
    decreases j + 1
  {
    if j < 0 then c
    else if c[j] > v then c[j := v]
    else ClampBack(c, j - 1, v)
  }

  /** The correction fires when the last slice is below the minimum order size. */
  predicate CorrectionFires(raw: seq<int>, init: int)
  {
    |raw| >= 2 && raw[|raw| - 1] - raw[|raw| - 2] < init
  }

  /**
   * The last-slice correction: the second-to-last entry becomes
   * target - init, and at most one earlier entry (the highest one above
   * that value) is lowered to it. The last entry is never touched.
   */
  function CorrectLastSlice(raw: seq<int>, target: int, init: int): (r: seq<int>)
    ensures |r| == |raw|
    ensures |raw| > 0 ==> r[|r| - 1] == raw[|raw| - 1]
    ensures !CorrectionFires(raw, init) ==> r == raw
    ensures CorrectionFires(raw, init) ==> r[|r| - 2] == target - init
    ensures CorrectionFires(raw, init) ==>
              var h := HighestAbove(raw, |raw| - 3, target - init);
              (h.Some? ==> r[h.value] == target - init)
              && forall k :: 0 <= k < |raw| - 2 && (h.None? || k != h.value) ==> r[k] == raw[k]
  {
    if CorrectionFires(raw, init) then
      var n := |raw|;
      var v := target - init;
      var c := raw[n - 2 := v];
      assert forall k :: 0 <= k < n - 2 ==> c[k] == raw[k];
      HighestAboveAgree(c, raw, n - 3, v);
      ClampBack(c, n - 3, v)
    else raw
  }

  lemma {:induction false} HighestAboveAgree(c: seq<int>, d: seq<int>, j: int, v: int)
    requires j < |c| && j < |d|
    requires forall k :: 0 <= k <= j ==> c[k] == d[k]
    ensures HighestAbove(c, j, v) == HighestAbove(d, j, v)
    decreases j + 1
  {
    if j >= 0 && c[j] <= v {
      HighestAboveAgree(c, d, j - 1, v);
    }
  }

  /** TWAP: one slice for n <= 0, otherwise the corrected even curve. */
  function TwapAllocate(target: int, n: int, init: int): (c: seq<int>)
    ensures n <= 0 ==> c == [target]
    ensures n > 0 ==> |c| == n && c[n - 1] == target
    ensures n >= 2 && TwapRaw(target, n)[n - 1] - TwapRaw(target, n)[n - 2] < init ==> c[n - 2] == target - init
    ensures n > 0 && !CorrectionFires(TwapRaw(target, n), init) ==> c == TwapRaw(target, n)
  {
    if n <= 0 then [target] else CorrectLastSlice(TwapRaw(target, n), target, init)
  }

  /**
   * VWAP: one slice when n == 1, otherwise the corrected profile curve.
   * The profile curve (interpolated from the volume profile) is an input of
   * length n.
   */
  function VwapAllocate(target: int, n: nat, init: int, profile: seq<int>): (c: seq<int>)
    requires n != 1 ==> |profile| == n
    ensures n == 1 ==> c == [target]
    ensures n != 1 ==> |c| == n
    ensures n >= 2 ==> c[n - 1] == profile[n - 1]
    ensures CorrectionFires(profile, init) && n >= 2 ==> c[n - 2] == target - init
  {
    if n == 1 then [target] else CorrectLastSlice(profile, target, init)
  }

  /**
   * The backward pass stops after one clamp, so the corrected curve need
   * not be non-decreasing: target 150 over 5 slices with minimum order 100
   * gives [30, 60, 50, 50, 150].
   */
  lemma CorrectedCurveNotMonotone()
    ensures TwapAllocate(150, 5, 100) == [30, 60, 50, 50, 150]
  {
    var raw := TwapRaw(150, 5);
    assert raw[0] == 30 && raw[1] == 60 && raw[2] == 90 && raw[3] == 120;
    assert raw == [30, 60, 90, 120, 150];
  }
}

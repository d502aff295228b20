/** Integer and real arithmetic facts the rest of the model relies on. */
module Arith {

  function Min(a: int, b: int): int { if a <= b then a else b }
  function Max(a: int, b: int): int { if a >= b then a else b }

  lemma MulNonneg(a: int, b: int)
    requires a >= 0 && b >= 0
    ensures a * b >= 0
  {
  }

  lemma MulAtLeast(k: int, d: int)
    requires k >= 1 && d > 0
    ensures k * d >= d
  {
    MulNonneg(k - 1, d);
    assert k * d == (k - 1) * d + d;
  }

  /** Euclidean division is determined by quotient and remainder. */
  lemma DivModUnique(x: int, d: int, q: int, r: int)
    requires d > 0 && 0 <= r < d && x == q * d + r
    ensures x / d == q && x % d == r
  {
    var q' := x / d;
    var r' := x % d;
    assert x == q' * d + r';
    if q' > q {
      assert (q' - q) * d == r - r';
      MulAtLeast(q' - q, d);
    } else if q' < q {
      assert (q - q') * d == r' - r;
      MulAtLeast(q - q', d);
    }
  }

  /** Rounding a non-negative x down to a multiple of d. */
  lemma FloorMultiple(x: int, d: int)
    requires x >= 0 && d > 0
    ensures 0 <= x / d * d <= x
    ensures x - x / d * d < d
    ensures (x / d * d) % d == 0
    ensures (x / d * d) / d == x / d
  {
    assert x == x / d * d + x % d;
    MulNonneg(x / d, d);
    DivModUnique(x / d * d, d, x / d, 0);
  }

  lemma MulMonotone(x: int, y: int, d: int)
    requires x >= y && d >= 0
    ensures x * d >= y * d
  {
    MulNonneg(x - y, d);
    assert x * d == (x - y) * d + y * d;
  }

  lemma DivMonotone(a: int, b: int, d: int)
    requires 0 <= a <= b && d > 0
    ensures a / d <= b / d
  {
    var qa := a / d;
    var qb := b / d;
    assert a == qa * d + a % d;
    assert b == qb * d + b % d;
    if qa > qb {
      MulMonotone(qa, qb + 1, d);
      assert false;
    }
  }

  lemma DivAtMost(x: int, d: int)
    requires x >= 0 && d > 0
    ensures x / d <= x
  {
    assert x == x / d * d + x % d;
    if x / d >= 1 {
      MulAtLeast(x / d, d);
      MulMonotone(d, 1, x / d);
    }
  }

  /** A C++ cast of a double to int: truncation toward zero. */
  function Trunc(x: real): (r: int)
    ensures x >= 0.0 ==> r >= 0 && r as real <= x < r as real + 1.0
    ensures x < 0.0 ==> r <= 0 && r as real - 1.0 < x <= r as real
  {
    if x >= 0.0 then x.Floor else -((-x).Floor)
  }

  /** Scaling by a positive factor keeps a non-strict order. */
  lemma RealScale(a: real, b: real, k: real)
    requires a <= b && k > 0.0
    ensures a * k <= b * k
    ensures a < b ==> a * k < b * k
  {
  }

  /** The truncated quotient of non-negative reals is the largest whole multiple of d not above m. */
  lemma TruncQuotient(m: real, d: real)
    requires d > 0.0
    ensures m >= 0.0 ==> Trunc(m / d) as real * d <= m < (Trunc(m / d) + 1) as real * d
  {
    if m >= 0.0 {
      var x := m / d;
      assert x * d == m;
      assert (Trunc(x) + 1) as real == Trunc(x) as real + 1.0;
      RealScale(Trunc(x) as real, x, d);
      var t := (Trunc(x) + 1) as real;
      assert x < t;
      RealScale(x, t, d);
      assert x * d < t * d;
      assert m < t * d;
      assert Trunc(x) as real * d <= m;
    }
  }
}

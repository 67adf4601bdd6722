/** The four general-purpose helpers of the learner's `Global` object:
    blending toward a target, uniform perturbation, clamping, and the linear
    decreasing schedule used to damp a child's learning speed. */
module Global {
  import opened Num

  /** Pushes `x` towards `target`; `attractiveness` is a percentage. */
  function Closer(x: real, target: real, attractiveness: real): (r: real)
    ensures 0.0 <= attractiveness <= 100.0 ==> Between(r, x, target)
    ensures attractiveness == 0.0 ==> r == x
    ensures attractiveness == 100.0 ==> r == target
    ensures x == target ==> r == x
  {
    var w := attractiveness / 100.0;
    assert ((100.0 - attractiveness) * x + attractiveness * target) / 100.0 == x + w * (target - x);
    CloserBetween(x, target, w);
    ((100.0 - attractiveness) * x + attractiveness * target) / 100.0
  }

  lemma CloserBetween(x: real, target: real, w: real)
    ensures 0.0 <= w <= 1.0 ==> Between(x + w * (target - x), x, target)
  {
    if 0.0 <= w <= 1.0 {
      UnitFraction(w, target - x);
      Shift(x, target - x, w * (target - x));
    }
  }

  lemma Shift(x: real, d: real, m: real)
    requires Between(m, 0.0, d)
    ensures Between(x + m, x, x + d)
  {
  }

  /** A fraction in [0, 1] of an amount lies between 0 and the amount. */
  lemma UnitFraction(w: real, d: real)
    requires 0.0 <= w <= 1.0
    ensures Between(w * d, 0.0, d)
  {
    var m := w * d;
    if d >= 0.0 {
      ProductNonNegative(w, d);
      ProductNonNegative(1.0 - w, d);
      assert (1.0 - w) * d == d - m;
    } else {
      ProductNonNegative(w, -d);
      ProductNonNegative(1.0 - w, -d);
      assert w * (-d) == -m;
      assert (1.0 - w) * (-d) == m - d;
    }
  }

  /** Mutation: `x` moved by `(2u - 1) * amplitude`, where `u` is the
      uniform draw `random()` in [0, 1). */
  function Perturbate(x: real, amplitude: real, u: real): (r: real)
    requires 0.0 <= u < 1.0
    ensures x - Abs(amplitude) <= r <= x + Abs(amplitude)
    ensures amplitude == 0.0 ==> r == x
  {
    var c := 2.0 * u - 1.0;
    ScaledUnit(c, amplitude);
    x + c * amplitude
  }

  lemma ScaledUnit(c: real, a: real)
    requires -1.0 <= c <= 1.0
    ensures -Abs(a) <= c * a <= Abs(a)
  {
    if a >= 0.0 {
      ProductNonNegative(1.0 - c, a);
      ProductNonNegative(1.0 + c, a);
      assert Abs(a) == a;
    } else {
      ProductNonNegative(1.0 - c, -a);
      ProductNonNegative(1.0 + c, -a);
      assert Abs(a) == -a;
    }
  }

  /** `min(max(x, lo), hi)`. */
  function Limitate(x: real, lo: real, hi: real): (r: real)
    ensures lo <= hi ==> lo <= r <= hi
    ensures lo <= x <= hi ==> r == x
    ensures r == x || r == lo || r == hi
  {
    Min(Max(x, lo), hi)
  }

  /** Linear decreasing function: 100 at `x = 0`, `minY` at `x = maxX`, never below `minY`. */
  function Decrease(x: real, maxX: real, minY: real): (r: real)
    requires maxX != 0.0
    ensures r >= minY
    ensures x == 0.0 ==> r == Max(minY, 100.0)
    ensures x == maxX ==> r == minY
    ensures maxX > 0.0 && 0.0 <= x && minY <= 100.0 ==> r <= 100.0
  {
    var slope := (100.0 - minY) / maxX;
    assert x == maxX ==> x * slope == 100.0 - minY;
    SlopeNonNegative(x, maxX, minY);
    Max(minY, 100.0 - x * slope)
  }

  lemma SlopeNonNegative(x: real, maxX: real, minY: real)
    requires maxX != 0.0
    ensures maxX > 0.0 && 0.0 <= x && minY <= 100.0 ==> x * ((100.0 - minY) / maxX) >= 0.0
  {
    if maxX > 0.0 && 0.0 <= x && minY <= 100.0 {
      DivNonNegative(100.0 - minY, maxX);
      MulMonotone(0.0, x, (100.0 - minY) / maxX);
    }
  }

  lemma DivNonNegative(a: real, b: real)
    requires a >= 0.0 && b > 0.0
    ensures a / b >= 0.0
  {
    var q := a / b;
    assert q * b == a;
    if q < 0.0 {
      MulStrict(q, 0.0, b);
    }
  }

  /** The schedule never increases with `x` when it runs downhill from 100 to `minY`. */
  lemma DecreaseMonotone(x: real, x': real, maxX: real, minY: real)
    requires maxX > 0.0 && minY <= 100.0
    requires x <= x'
    ensures Decrease(x', maxX, minY) <= Decrease(x, maxX, minY)
  {
    var slope := (100.0 - minY) / maxX;
    DivNonNegative(100.0 - minY, maxX);
    MulMonotone(x, x', slope);
  }
}

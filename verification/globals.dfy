/** The arithmetic helpers of `src/Globals.py`: clamping a value to a
    range, and linear and quadratic (ease in, ease out) interpolation
    between two values. Python floats are modelled as exact reals. */
module Globals {

  /** `clamp(value, lower_bound, upper_bound)`; the source asserts that
      the bounds are ordered. */
  function Clamp(value: real, lower: real, upper: real): (r: real)
    requires lower <= upper
    ensures lower <= r <= upper
    ensures lower <= value <= upper ==> r == value
    ensures value < lower ==> r == lower
    ensures upper < value ==> r == upper
  {
    if value < lower then lower else if value > upper then upper else value
  }

  /** `clamp` on integer arguments, as the animation uses it. */
  function ClampInt(value: int, lower: int, upper: int): (r: int)
    requires lower <= upper
    ensures lower <= r <= upper
    ensures lower <= value <= upper ==> r == value
  {
    if value < lower then lower else if value > upper then upper else value
  }

  /** On integers the two agree: clamping is the same operation whatever
      the numeric type of its arguments. */
  lemma ClampIntAgrees(value: int, lower: int, upper: int)
    requires lower <= upper
    ensures ClampInt(value, lower, upper) as real == Clamp(value as real, lower as real, upper as real)
  {
  }

  /** Clamping twice is clamping once, and clamping keeps the order of
      values. */
  lemma ClampIdempotentMonotone(v: real, w: real, lower: real, upper: real)
    requires lower <= upper
    ensures Clamp(Clamp(v, lower, upper), lower, upper) == Clamp(v, lower, upper)
    ensures v <= w ==> Clamp(v, lower, upper) <= Clamp(w, lower, upper)
  {
  }

  /** The three cases of the globals tests. */
  lemma ClampExamples()
    ensures Clamp(1.5, 1.0, 2.0) == 1.5
    ensures Clamp(0.0, 1.0, 2.0) == 1.0
    ensures Clamp(3.0, 1.0, 2.0) == 2.0
  {
  }

  /** Whether `r` lies between `a` and `b`, in either order. */
  predicate Between(a: real, b: real, r: real)
  {
    (a <= b ==> a <= r <= b) && (b <= a ==> b <= r <= a)
  }

  /** `lerp(initial, final, delta)`; the source asserts `delta` lies in
      [0, 1]. */
  function Lerp(initial: real, final: real, delta: real): (r: real)
    requires 0.0 <= delta <= 1.0
    ensures Between(initial, final, r)
    ensures delta == 0.0 ==> r == initial
    ensures delta == 1.0 ==> r == final
  {
    LerpBetween(initial, final, delta);
    initial * (1.0 - delta) + final * delta
  }

  lemma LerpBetween(a: real, b: real, d: real)
    requires 0.0 <= d <= 1.0
    ensures Between(a, b, a * (1.0 - d) + b * d)
  {
    var r := a * (1.0 - d) + b * d;
    var c := b - a;
    ScaleBetween(c, d);
    assert r == a + c * d;
    if a <= b {
      assert 0.0 <= c * d <= c;
    } else {
      assert c <= c * d <= 0.0;
    }
  }

  /** A fraction of a quantity lies between zero and the quantity. */
  lemma ScaleBetween(c: real, t: real)
    requires 0.0 <= t <= 1.0
    ensures c >= 0.0 ==> 0.0 <= c * t <= c
    ensures c <= 0.0 ==> c <= c * t <= 0.0
  {
    assert c - c * t == c * (1.0 - t);
    if c >= 0.0 {
      NonNegativeProduct(c, t);
      NonNegativeProduct(c, 1.0 - t);
    } else {
      NonNegativeProduct(-c, t);
      NonNegativeProduct(-c, 1.0 - t);
    }
  }

  lemma NonNegativeProduct(x: real, y: real)
    requires x >= 0.0 && y >= 0.0
    ensures x * y >= 0.0
  {
  }

  /** Interpolating backwards is interpolating forwards from the other end,
      and a later delta is never behind an earlier one. */
  lemma LerpReverseMonotone(a: real, b: real, d: real, e: real)
    requires 0.0 <= d <= e <= 1.0
    ensures Lerp(a, b, d) == Lerp(b, a, 1.0 - d)
    ensures a <= b ==> Lerp(a, b, d) <= Lerp(a, b, e)
  {
    if a <= b {
      ScaleBetween(b - a, e - d);
      assert (b - a) * e - (b - a) * d == (b - a) * (e - d);
    }
  }

  /** The interpolation cases of the globals tests. */
  lemma LerpExamples()
    ensures Lerp(0.0, 1.0, 0.5) == 0.5
    ensures Lerp(0.0, 1.0, 0.75) == 0.75
    ensures Lerp(0.0, 1.0, 0.0) == 0.0
  {
  }

  /** `ease(initial, final, delta)`: quadratic acceleration over the first
      half of the range and deceleration over the second. */
  function Ease(initial: real, final: real, delta: real): (r: real)
    requires 0.0 <= delta <= 1.0
    ensures Between(initial, final, r)
    ensures delta == 0.0 ==> r == initial
    ensures delta == 1.0 ==> r == final
    ensures delta == 0.5 ==> r == (initial + final) / 2.0
  {
    var d := delta * 2.0;
    var change := final - initial;
    if d < 1.0 then
      EaseFirstHalf(change, d);
      change / 2.0 * d * d + initial
    else
      EaseSecondHalf(change, d - 1.0);
      -change / 2.0 * ((d - 1.0) * (d - 1.0 - 2.0) - 1.0) + initial
  }

  lemma EaseFirstHalf(change: real, d: real)
    requires 0.0 <= d < 1.0
    ensures change >= 0.0 ==> 0.0 <= change / 2.0 * d * d <= change
    ensures change <= 0.0 ==> change <= change / 2.0 * d * d <= 0.0
  {
    ScaleBetween(d, d);
    ScaleBetween(change / 2.0, d * d);
  }

  lemma EaseSecondHalf(change: real, d: real)
    requires 0.0 <= d <= 1.0
    ensures change >= 0.0 ==> 0.0 <= -change / 2.0 * (d * (d - 2.0) - 1.0) <= change
    ensures change <= 0.0 ==> change <= -change / 2.0 * (d * (d - 2.0) - 1.0) <= 0.0
  {
    assert -2.0 <= d * (d - 2.0) - 1.0 <= -1.0 by {
      assert d * (d - 2.0) == (d - 1.0) * (d - 1.0) - 1.0;
      ScaleBetween(1.0 - d, 1.0 - d);
      assert (d - 1.0) * (d - 1.0) == (1.0 - d) * (1.0 - d);
    }
    ScaleBetween(change, -(d * (d - 2.0) - 1.0) / 2.0);
    assert -change / 2.0 * (d * (d - 2.0) - 1.0) == change * (-(d * (d - 2.0) - 1.0) / 2.0);
  }

  /** The easing curve as a fraction of the way from `initial` to
      `final`: twice the square of the delta up to the middle, and the
      mirror image of that after it. */
  function EaseFraction(delta: real): real
  {
    if delta < 0.5 then 2.0 * delta * delta else 1.0 - 2.0 * (1.0 - delta) * (1.0 - delta)
  }

  /** Easing is linear interpolation along the easing curve. */
  lemma EaseIsLerpOfFraction(a: real, b: real, delta: real)
    requires 0.0 <= delta <= 1.0
    ensures 0.0 <= EaseFraction(delta) <= 1.0
    ensures Ease(a, b, delta) == Lerp(a, b, EaseFraction(delta))
  {
    var f := EaseFraction(delta);
    if delta < 0.5 {
      ScaleBetween(delta, delta);
      assert (b - a) / 2.0 * (delta * 2.0) * (delta * 2.0) == (b - a) * f;
    } else {
      var d := delta * 2.0 - 1.0;
      ScaleBetween(1.0 - delta, 1.0 - delta);
      assert -(b - a) / 2.0 * (d * (d - 2.0) - 1.0) == (b - a) * f;
    }
  }

  /** The curve is point-symmetric about its middle: the way covered by
      `delta` and the way left at `1 - delta` are equal. */
  lemma EaseSymmetric(a: real, b: real, delta: real)
    requires 0.0 <= delta <= 1.0
    ensures Ease(a, b, delta) + Ease(a, b, 1.0 - delta) == a + b
  {
    EaseIsLerpOfFraction(a, b, delta);
    EaseIsLerpOfFraction(a, b, 1.0 - delta);
    if delta == 0.5 {
    } else if delta < 0.5 {
      assert EaseFraction(1.0 - delta) == 1.0 - EaseFraction(delta);
    } else {
      assert EaseFraction(delta) == 1.0 - EaseFraction(1.0 - delta);
    }
  }

  /** The easing cases of the globals tests. */
  lemma EaseExamples()
    ensures Ease(0.0, 1.0, 0.5) == 0.5
    ensures Ease(0.0, 1.0, 1.0) == 1.0
    ensures Ease(0.0, 1.0, 0.25) == 0.125
  {
  }
}

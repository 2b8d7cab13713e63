/** The interpolation curve of ola: a cubic that carries a remaining
    displacement `x0`, moving at rate `v0`, to rest (displacement 0, rate 0)
    at time `t1`. `Position` is the displacement still to cover after `t`
    seconds and `Speed` its rate of change. */
module Curve {

  /** The cubic a t^3 + b t^2 + c t + d. */
  function Cubic(a: real, b: real, c: real, d: real, t: real): real
  {
    a * t * t * t + b * t * t + c * t + d
  }

  /** The derivative of `Cubic(a, b, c, d, _)` at `t`: 3 a t^2 + 2 b t + c. */
  function CubicSlope(a: real, b: real, c: real, t: real): real
  {
    3.0 * a * t * t + 2.0 * b * t + c
  }

  /** Leading coefficient fitted to the end point. */
  function CoeffA(x0: real, v0: real, t1: real): real
    requires t1 > 0.0
  {
    (v0 * t1 + 2.0 * x0) / (t1 * t1 * t1)
  }

  /** Quadratic coefficient fitted to the end point. */
  function CoeffB(x0: real, v0: real, t1: real): real
    requires t1 > 0.0
  {
    -(2.0 * v0 * t1 + 3.0 * x0) / (t1 * t1)
  }

  /** `position(x0, v0, t1, t)`: the remaining displacement at elapsed time `t`. */
  function Position(x0: real, v0: real, t1: real, t: real): real
    requires t1 > 0.0
  {
    Cubic(CoeffA(x0, v0, t1), CoeffB(x0, v0, t1), v0, x0, t)
  }

  /** `speed(x0, v0, t1, t)`: the rate of the remaining displacement at `t`,
      built from the same coefficients as `Position`. */
  function Speed(x0: real, v0: real, t1: real, t: real): real
    requires t1 > 0.0
  {
    CubicSlope(CoeffA(x0, v0, t1), CoeffB(x0, v0, t1), v0, t)
  }

  /** The curve starts at the displacement `x0` with rate `v0`. */
  lemma StartPoint(x0: real, v0: real, t1: real)
    requires t1 > 0.0
    ensures Position(x0, v0, t1, 0.0) == x0
    ensures Speed(x0, v0, t1, 0.0) == v0
  {
  }

  /** The fitted coefficients, multiplied out by the powers of `t1`. */
  lemma ScaledCoefficients(x0: real, v0: real, t1: real)
    requires t1 > 0.0
    ensures CoeffA(x0, v0, t1) * (t1 * t1 * t1) == v0 * t1 + 2.0 * x0
    ensures CoeffB(x0, v0, t1) * (t1 * t1) == -(2.0 * v0 * t1 + 3.0 * x0)
  {
    var c3 := t1 * t1 * t1;
    var c2 := t1 * t1;
    assert c3 > 0.0 && c2 > 0.0;
  }

  /** The curve ends at rest: displacement 0 and rate 0 at `t = t1`. */
  lemma EndPoint(x0: real, v0: real, t1: real)
    requires t1 > 0.0
    ensures Position(x0, v0, t1, t1) == 0.0
    ensures Speed(x0, v0, t1, t1) == 0.0
  {
    var a, b := CoeffA(x0, v0, t1), CoeffB(x0, v0, t1);
    ScaledCoefficients(x0, v0, t1);
    assert a * t1 * t1 * t1 == v0 * t1 + 2.0 * x0;
    assert b * t1 * t1 == -(2.0 * v0 * t1 + 3.0 * x0);
    assert Position(x0, v0, t1, t1) == a * t1 * t1 * t1 + b * t1 * t1 + v0 * t1 + x0;
    assert 3.0 * a * t1 * t1 * t1 + 2.0 * b * t1 * t1 == -v0 * t1;
    assert (3.0 * a * t1 * t1 + 2.0 * b * t1) * t1 == -v0 * t1;
    assert 3.0 * a * t1 * t1 + 2.0 * b * t1 == -v0;
  }

  /** Any cubic that starts at (`x0`, `v0`) and ends at rest at `t1` is this
      curve: the coefficients of `position` are the only ones that fit. */
  lemma FitIsUnique(a: real, b: real, c: real, d: real, x0: real, v0: real, t1: real)
    requires t1 > 0.0
    requires Cubic(a, b, c, d, 0.0) == x0 && CubicSlope(a, b, c, 0.0) == v0
    requires Cubic(a, b, c, d, t1) == 0.0 && CubicSlope(a, b, c, t1) == 0.0
    ensures a == CoeffA(x0, v0, t1) && b == CoeffB(x0, v0, t1) && c == v0 && d == x0
    ensures forall t :: Cubic(a, b, c, d, t) == Position(x0, v0, t1, t)
  {
    assert c == v0 && d == x0;
    var c3 := t1 * t1 * t1;
    var c2 := t1 * t1;
    assert a * c3 + b * c2 + v0 * t1 + x0 == 0.0;
    assert 3.0 * a * c3 + 2.0 * b * c2 + v0 * t1 == 0.0 by {
      assert (3.0 * a * t1 * t1 + 2.0 * b * t1 + v0) * t1 == 0.0;
    }
    assert a * c3 == v0 * t1 + 2.0 * x0;
    assert b * c2 == -(2.0 * v0 * t1 + 3.0 * x0);
    ScaledCoefficients(x0, v0, t1);
    assert a == CoeffA(x0, v0, t1) by {
      assert (a - CoeffA(x0, v0, t1)) * c3 == 0.0;
    }
    assert b == CoeffB(x0, v0, t1) by {
      assert (b - CoeffB(x0, v0, t1)) * c2 == 0.0;
    }
  }

  /** The factor of `h^2` in the change of a cubic over a step `h`. */
  function StepRemainder(a: real, b: real, t: real, h: real): real
  {
    3.0 * a * t + b + a * h
  }

  /** Exact expansion of a cubic over a step `h`: the first-order term is
      `h` times the slope, and the rest is `h^2` times `StepRemainder`. */
  lemma CubicStep(a: real, b: real, c: real, d: real, t: real, h: real)
    ensures Cubic(a, b, c, d, t + h)
         == Cubic(a, b, c, d, t) + h * CubicSlope(a, b, c, t) + h * h * StepRemainder(a, b, t, h)
  {
    assert (t + h) * (t + h) == t * t + 2.0 * t * h + h * h;
    assert (t + h) * (t + h) * (t + h) == t * t * t + 3.0 * t * t * h + 3.0 * t * h * h + h * h * h;
  }

  /** `speed` is the derivative of `position`: the two share their
      coefficients, and a step `h` moves the position by `h * Speed` up to a
      term quadratic in `h`. */
  lemma SpeedIsDerivative(x0: real, v0: real, t1: real, t: real, h: real)
    requires t1 > 0.0
    ensures Position(x0, v0, t1, t + h)
         == Position(x0, v0, t1, t) + h * Speed(x0, v0, t1, t)
            + h * h * StepRemainder(CoeffA(x0, v0, t1), CoeffB(x0, v0, t1), t, h)
  {
    CubicStep(CoeffA(x0, v0, t1), CoeffB(x0, v0, t1), v0, x0, t, h);
  }

  /** With no inherited rate the curve is the smoothstep 2 s^3 - 3 s^2 + 1 of
      normalised time s = t / t1, scaled by the displacement `x0`. */
  lemma RestStartIsSmoothstep(x0: real, t1: real, t: real)
    requires t1 > 0.0
    ensures Position(x0, 0.0, t1, t) == x0 * Cubic(2.0, -3.0, 0.0, 1.0, t / t1)
  {
    var s := t / t1;
    assert t == s * t1;
    ScaledCoefficients(x0, 0.0, t1);
    var a, b := CoeffA(x0, 0.0, t1), CoeffB(x0, 0.0, t1);
    assert a * (t1 * t1 * t1) == 2.0 * x0;
    assert b * (t1 * t1) == -3.0 * x0;
    calc {
      Position(x0, 0.0, t1, t);
      a * t * t * t + b * t * t + x0;
      { assert a * t * t * t == a * (t1 * t1 * t1) * (s * s * s); }
      2.0 * x0 * (s * s * s) + b * t * t + x0;
      { assert b * t * t == b * (t1 * t1) * (s * s); }
      2.0 * x0 * (s * s * s) - 3.0 * x0 * (s * s) + x0;
      x0 * Cubic(2.0, -3.0, 0.0, 1.0, s);
    }
  }
}

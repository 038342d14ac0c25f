/**
  The few IEEE-754 behaviours the waveform engine depends on.

  Magnitudes are exact reals. The one place where the engine leaves the
  reals is the division of a magnitude by the scaling factor: when the
  factor is zero, f32 division yields NaN (0 / 0) or an infinity, and every
  later comparison then follows IEEE-754 rules (NaN compares false with
  everything). `Scaled` keeps those outcomes apart from finite values.
*/
module Float {

  /** The result of dividing a magnitude by the scaling factor. */
  datatype Scaled = Finite(value: real) | NaN | NegInfinity | PosInfinity

  /** `m / d` as f32 division does it, `d` being a real of exact value. */
  function Divide(m: real, d: real): (r: Scaled)
    ensures d != 0.0 ==> r.Finite?
    ensures d == 0.0 ==> (r.NaN? <==> m == 0.0)
    ensures d == 0.0 ==> (r.PosInfinity? <==> m > 0.0) && (r.NegInfinity? <==> m < 0.0)
  {
    if d != 0.0 then Finite(m / d)
    else if m == 0.0 then NaN
    else if m > 0.0 then PosInfinity
    else NegInfinity
  }

  /** `x - k`: NaN and the infinities absorb any finite subtrahend. */
  function Minus(x: Scaled, k: real): Scaled
  {
    match x
    case Finite(v) => Finite(v - k)
    case _ => x
  }

  /** `x * k` for a positive factor `k`. */
  function Times(x: Scaled, k: real): Scaled
    requires k > 0.0
  {
    match x
    case Finite(v) => Finite(v * k)
    case _ => x
  }

  /** `x <= k`; false for NaN. */
  predicate AtMost(x: Scaled, k: real)
  {
    match x
    case Finite(v) => v <= k
    case NaN => false
    case NegInfinity => true
    case PosInfinity => false
  }

  /** `x >= k`; false for NaN. */
  predicate AtLeast(x: Scaled, k: real)
  {
    match x
    case Finite(v) => v >= k
    case NaN => false
    case NegInfinity => false
    case PosInfinity => true
  }

  /** `x > k`; false for NaN. */
  predicate Above(x: Scaled, k: real)
  {
    match x
    case Finite(v) => v > k
    case NaN => false
    case NegInfinity => false
    case PosInfinity => true
  }

  /** A finite quotient times the divisor gives back the dividend. */
  lemma DivideInverse(m: real, d: real)
    requires d != 0.0
    ensures Divide(m, d).value * d == m
  {
  }

  /** Dividing by a positive `d` preserves `<=`, and the bound is reached exactly at `m == d * t`. */
  lemma DivideAtMost(x: real, m: real, d: real, t: real)
    requires d > 0.0 && x <= m && d * t == m
    ensures Divide(x, d).Finite? && Divide(x, d).value <= t
    ensures x == m ==> Divide(x, d).value == t
  {
    var v := Divide(x, d).value;
    DivideInverse(x, d);
    assert (t - v) * d == m - x;
    assert (t - v) * d >= 0.0;
    if x == m {
      assert (v - t) * d == 0.0;
    }
  }

  /** Dividing by the reciprocal of `t` multiplies by `t`. */
  lemma DivideByReciprocal(m: real, d: real, t: real)
    requires d * t == 1.0
    ensures Divide(m, d) == Finite(m * t)
  {
    var v := Divide(m, d).value;
    DivideInverse(m, d);
    calc {
      v;
      v * (d * t);
      (v * d) * t;
      m * t;
    }
  }

  /** A common positive factor of dividend and divisor cancels, also when the divisor is zero. */
  lemma DivideCancel(x: real, d: real, k: real)
    requires k > 0.0
    ensures Divide(k * x, k * d) == Divide(x, d)
  {
    if d != 0.0 {
      var v := Divide(x, d).value;
      var v' := Divide(k * x, k * d).value;
      DivideInverse(x, d);
      DivideInverse(k * x, k * d);
      assert v' * (k * d) == k * (v * d);
      assert (v' - v) * (k * d) == 0.0;
    } else {
      assert k * d == 0.0;
      assert k * x == 0.0 <==> x == 0.0;
      assert k * x > 0.0 <==> x > 0.0;
    }
  }
}

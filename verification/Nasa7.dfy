/** NASA7 enthalpy over two polynomial ranges, with exact reals, and the divided-difference integral between temperatures. */
module Nasa7 {

  import opened Arithmetic
  import opened Partial

  /** Five heat-capacity coefficients and the enthalpy constant; the entropy constant is not needed here. */
  datatype Coefficients = Coefficients(cp: seq<real>, h: real)

  datatype Calorics = Calorics(minimum: real, common: real, maximum: real, low: Coefficients, high: Coefficients)

  predicate Valid(c: Calorics) {
    0.0 < c.minimum < c.common < c.maximum && |c.low.cp| == 5 && |c.high.cp| == 5
  }

  predicate InRange(c: Calorics, t: real) { c.minimum <= t <= c.maximum }

  function CoefficientsAt(c: Calorics, t: real): Result<Coefficients> {
    if !InRange(c, t) then Err else Ok(if t < c.common then c.low else c.high)
  }

  function Power(x: real, n: nat): real {
    if n == 0 then 1.0 else Power(x, n - 1) * x
  }

  /** cp[0] t + cp[1] t^2 / 2 + ... */
  function Antiderivative(cp: seq<real>, t: real, n: nat): real
    requires n <= |cp|
  {
    if n == 0 then 0.0 else Antiderivative(cp, t, n - 1) + Integrated(cp[n - 1], n, Power(t, n))
  }

  /** The integral of one term: c t^(n-1) becomes c / n t^n, with p the power. */
  function Integrated(c: real, n: nat, p: real): real
    requires n > 0
  {
    c / (n as real) * p
  }

  function EnthalpyOf(k: Coefficients, t: real): real
    requires |k.cp| == 5
  {
    k.h + Antiderivative(k.cp, t, 5)
  }

  /** `enthalpy_ratio`: h / R at t. */
  function EnthalpyRatio(c: Calorics, t: real): Result<real>
    requires Valid(c)
  {
    match CoefficientsAt(c, t)
    case Err => Err
    case Ok(k) => Ok(EnthalpyOf(k, t))
  }

  // ---------- the divided difference ----------

  /** end^degree + end^(degree-1) start + ... + start^degree, summed for powers 0..n-1 of start. */
  function Mixed(start: real, end: real, degree: nat, n: nat): real
    requires n <= degree + 1
  {
    if n == 0 then 0.0 else Mixed(start, end, degree, n - 1) + Power(end, degree - (n - 1)) * Power(start, n - 1)
  }

  lemma PowerStep(x: real, n: nat)
    requires n > 0
    ensures Power(x, n) == Power(x, n - 1) * x
  {
  }

  lemma MixedStep(start: real, end: real, degree: nat, n: nat)
    requires 0 < n <= degree + 1
    ensures Mixed(start, end, degree, n) == Mixed(start, end, degree, n - 1) + Power(end, degree - (n - 1)) * Power(start, n - 1)
  {
  }

  lemma {:induction false} MixedTelescopes(start: real, end: real, degree: nat, n: nat)
    requires n <= degree + 1
    ensures (end - start) * Mixed(start, end, degree, n) == Power(end, degree + 1) - Power(end, degree + 1 - n) * Power(start, n)
  {
    if n == 0 {
    } else {
      hide Power, Mixed;
      MixedTelescopes(start, end, degree, n - 1);
      MixedStep(start, end, degree, n);
      PowerStep(end, degree + 1 - (n - 1));
      PowerStep(start, n);
      TelescopeStep(start, end, Mixed(start, end, degree, n - 1), Power(end, degree - (n - 1)), Power(start, n - 1), Power(end, degree + 1));
    }
  }

  lemma Distribute(x: real, a: real, b: real)
    ensures x * (a + b) == x * a + x * b
  {
  }

  lemma TelescopeStep(start: real, end: real, m: real, p: real, q: real, top: real)
    requires (end - start) * m == top - (p * end) * q
    ensures (end - start) * (m + p * q) == top - p * (q * start)
  {
    Distribute(end - start, m, p * q);
    assert (end - start) * (p * q) == (p * end) * q - p * (q * start);
  }

  /** The source's sum of coefficients times divided differences. */
  function DividedSum(cp: seq<real>, start: real, end: real, n: nat): real
    requires n <= |cp|
  {
    if n == 0 then 0.0
    else DividedSum(cp, start, end, n - 1) + Divided(cp[n - 1], n, Mixed(start, end, n - 1, n))
  }

  /** One term of the sum: a coefficient times its divided difference of powers m. */
  function Divided(c: real, n: nat, m: real): real
    requires n > 0
  {
    c * m / (n as real)
  }

  lemma DividedSumStep(cp: seq<real>, start: real, end: real, n: nat)
    requires 0 < n <= |cp|
    ensures DividedSum(cp, start, end, n) == DividedSum(cp, start, end, n - 1) + Divided(cp[n - 1], n, Mixed(start, end, n - 1, n))
  {
  }

  lemma AntiderivativeStep(cp: seq<real>, t: real, n: nat)
    requires 0 < n <= |cp|
    ensures Antiderivative(cp, t, n) == Antiderivative(cp, t, n - 1) + Integrated(cp[n - 1], n, Power(t, n))
  {
  }

  lemma {:induction false} SumIntegrates(cp: seq<real>, start: real, end: real, n: nat)
    requires n <= |cp|
    ensures Times(end - start, DividedSum(cp, start, end, n)) == Antiderivative(cp, end, n) - Antiderivative(cp, start, n)
  {
    if n > 0 {
      hide *;
      WholeTelescopes(start, end, n);
      SumIntegrates(cp, start, end, n - 1);
      DividedSumStep(cp, start, end, n);
      AntiderivativeStep(cp, end, n);
      AntiderivativeStep(cp, start, n);
      AddTerm(end - start, DividedSum(cp, start, end, n - 1), cp[n - 1], n, Mixed(start, end, n - 1, n), Power(end, n), Power(start, n));
    }
  }

  /** It is the exact integral of the polynomial, without cancelling powers. */
  lemma DividedSumIntegrates(cp: seq<real>, start: real, end: real, n: nat)
    requires n <= |cp|
    ensures (end - start) * DividedSum(cp, start, end, n) == Antiderivative(cp, end, n) - Antiderivative(cp, start, n)
  {
    SumIntegrates(cp, start, end, n);
    hide DividedSum, Antiderivative;
  }

  lemma WholeTelescopes(start: real, end: real, n: nat)
    requires n > 0
    ensures Times(end - start, Mixed(start, end, n - 1, n)) == Power(end, n) - Power(start, n)
  {
    assert Power(end, 0) == 1.0;
    MixedTelescopes(start, end, n - 1, n);
    hide Power, Mixed;
  }

  /** One more term of the sum adds the difference of one more term of the antiderivative; p and q are the powers. */
  lemma AddTerm(width: real, d: real, c: real, n: nat, m: real, p: real, q: real)
    requires n > 0 && Times(width, m) == p - q
    ensures Times(width, d + Divided(c, n, m)) == Times(width, d) + Integrated(c, n, p) - Integrated(c, n, q)
  {
    Distribute(width, d, Divided(c, n, m));
    Rescale(width, c, m, n as real, p, q);
  }

  lemma Rescale(width: real, c: real, m: real, n: real, high: real, low: real)
    requires n != 0.0 && width * m == high - low
    ensures width * (c * m / n) == c / n * high - c / n * low
  {
    var k := c / n;
    assert c * m / n == k * m;
    assert width * (k * m) == k * (width * m);
  }

  // ---------- the enthalpy change ----------

  /** The jump of the enthalpy at the common temperature. */
  function Jump(c: Calorics): real
    requires Valid(c)
  {
    EnthalpyOf(c.high, c.common) - EnthalpyOf(c.low, c.common)
  }

  /** One term of the accumulated jump. */
  function JumpTerm(a: real, b: real, p: real, n: real): real
    requires n != 0.0
  {
    (a - b) * p / n
  }

  /** The accumulated jump as the source writes it: difference of constants plus difference of antiderivatives. */
  function DifferenceAtJoin(c: Calorics, n: nat): real
    requires Valid(c) && n <= 5
  {
    if n == 0 then c.high.h - c.low.h
    else DifferenceAtJoin(c, n - 1) + JumpTerm(c.high.cp[n - 1], c.low.cp[n - 1], Power(c.common, n), n as real)
  }

  lemma {:induction false} DifferenceAccumulates(c: Calorics, n: nat)
    requires Valid(c) && n <= 5
    ensures DifferenceAtJoin(c, n) ==
            c.high.h - c.low.h + Antiderivative(c.high.cp, c.common, n) - Antiderivative(c.low.cp, c.common, n)
  {
    if n > 0 {
      DifferenceAccumulates(c, n - 1);
      var a, b, p := c.high.cp[n - 1], c.low.cp[n - 1], Power(c.common, n);
      hide Power, JumpTerm, Integrated;
      JumpTermIs(a, b, p, n);
    }
  }

  /** All five coefficients accumulated, the correction is the jump of the enthalpy itself. */
  lemma DifferenceIsJump(c: Calorics)
    requires Valid(c)
    ensures DifferenceAtJoin(c, 5) == Jump(c)
  {
    hide Antiderivative, DifferenceAtJoin;
    DifferenceAccumulates(c, 5);
  }

  lemma JumpTermIs(a: real, b: real, p: real, n: nat)
    requires n > 0
    ensures JumpTerm(a, b, p, n as real) == Integrated(a, n, p) - Integrated(b, n, p)
  {
    var k := n as real;
    assert (a - b) * p / k == (a - b) / k * p;
    assert (a - b) / k == a / k - b / k;
  }

  method SegmentIntegral(c: Calorics, start: real, end: real) returns (integral: real)
    requires Valid(c) && InRange(c, start) && InRange(c, end) && start <= end
    requires end <= c.common || c.common <= start
    ensures var k := if (start + end) / 2.0 < c.common then c.low else c.high;
            integral == Antiderivative(k.cp, end, 5) - Antiderivative(k.cp, start, 5)
  {
    hide Antiderivative, DividedSum;
    var k := CoefficientsAt(c, (start + end) / 2.0).value;
    DividedSumIntegrates(k.cp, start, end, 5);
    integral := (end - start) * DividedSum(k.cp, start, end, 5);
  }

  /** `enthalpy_change` for a NASA7 gas: exactly R times the difference of the enthalpy ratios, jump included. */
  method EnthalpyChange(c: Calorics, gasConstant: real, lower: real, upper: real) returns (r: Result<real>)
    requires Valid(c)
    ensures r.Ok? <==> InRange(c, lower) && InRange(c, upper)
    ensures r.Ok? ==> r.value == gasConstant * (EnthalpyRatio(c, upper).value - EnthalpyRatio(c, lower).value)
    decreases upper < lower
  {
    hide Antiderivative, DifferenceAtJoin, Power;
    if !InRange(c, lower) || !InRange(c, upper) {
      return Err;
    }
    if upper < lower {
      var reversed := EnthalpyChange(c, gasConstant, upper, lower);
      Negate(gasConstant, EnthalpyRatio(c, lower).value, EnthalpyRatio(c, upper).value);
      return Ok(-reversed.value);
    }
    var limits := [lower] + (if lower < c.common < upper then [c.common] else []) + [upper];
    var integral := 0.0;
    ghost var first := if lower < c.common then c.low else c.high;
    for i := 0 to |limits| - 1
      invariant i == 0 ==> integral == 0.0
      invariant i == 1 ==> integral == Antiderivative(first.cp, limits[1], 5) - Antiderivative(first.cp, lower, 5)
      invariant i == 2 ==> integral == Antiderivative(c.low.cp, c.common, 5) - Antiderivative(c.low.cp, lower, 5)
                                       + Antiderivative(c.high.cp, upper, 5) - Antiderivative(c.high.cp, c.common, 5)
    {
      var segment := SegmentIntegral(c, limits[i], limits[i + 1]);
      if lower == upper {
        assert Antiderivative(first.cp, upper, 5) == Antiderivative(first.cp, lower, 5);
      }
      integral := integral + segment;
    }
    DifferenceIsJump(c);
    if lower < c.common <= upper {
      integral := integral + DifferenceAtJoin(c, 5);
    }
    assert integral == EnthalpyRatio(c, upper).value - EnthalpyRatio(c, lower).value;
    r := Ok(gasConstant * integral);
  }

  lemma Negate(k: real, a: real, b: real)
    ensures -(k * (a - b)) == k * (b - a)
  {
  }

  /** The change as a function of the two temperatures; EnthalpyChange computes it. */
  function Change(c: Calorics, gasConstant: real, lower: real, upper: real): real
    requires Valid(c) && InRange(c, lower) && InRange(c, upper)
  {
    gasConstant * (EnthalpyRatio(c, upper).value - EnthalpyRatio(c, lower).value)
  }

  /** Antisymmetric, and additive over any intermediate temperature, with or without the join between them. */
  lemma ChangeComposes(c: Calorics, gasConstant: real, x: real, y: real, z: real)
    requires Valid(c) && InRange(c, x) && InRange(c, y) && InRange(c, z)
    ensures Change(c, gasConstant, x, y) == -Change(c, gasConstant, y, x)
    ensures Change(c, gasConstant, x, z) == Change(c, gasConstant, x, y) + Change(c, gasConstant, y, z)
  {
    var a, b, d := EnthalpyRatio(c, x).value, EnthalpyRatio(c, y).value, EnthalpyRatio(c, z).value;
    hide EnthalpyRatio;
    Negate(gasConstant, b, a);
    Distribute(gasConstant, b - a, d - b);
  }

  /** The enthalpy in full: the integral of the five-coefficient heat capacity, plus its constant. */
  lemma EnthalpyInFull(k: Coefficients, t: real)
    requires |k.cp| == 5
    ensures EnthalpyOf(k, t) == k.h + k.cp[0] * t + k.cp[1] / 2.0 * (t * t) + k.cp[2] / 3.0 * (t * t * t)
                              + k.cp[3] / 4.0 * (t * t * t * t) + k.cp[4] / 5.0 * (t * t * t * t * t)
  {
    Powers(t);
    hide Power;
    assert Antiderivative(k.cp, t, 1) == k.cp[0] / 1.0 * t;
    assert Antiderivative(k.cp, t, 2) == Antiderivative(k.cp, t, 1) + k.cp[1] / 2.0 * (t * t);
    assert Antiderivative(k.cp, t, 3) == Antiderivative(k.cp, t, 2) + k.cp[2] / 3.0 * (t * t * t);
    assert Antiderivative(k.cp, t, 4) == Antiderivative(k.cp, t, 3) + k.cp[3] / 4.0 * (t * t * t * t);
  }

  lemma Powers(t: real)
    ensures Power(t, 1) == t && Power(t, 2) == t * t && Power(t, 3) == t * t * t && Power(t, 4) == t * t * t * t
    ensures Power(t, 5) == t * t * t * t * t
  {
    PowerStep(t, 1);
    PowerStep(t, 2);
    PowerStep(t, 3);
    PowerStep(t, 4);
    PowerStep(t, 5);
    assert Power(t, 0) == 1.0;
    hide Power;
  }

  /** The five terms written out. */
  ghost function Polynomial(k: Coefficients, t: real): real
    requires |k.cp| == 5
  {
    k.h + k.cp[0] * t + k.cp[1] / 2.0 * (t * t) + k.cp[2] / 3.0 * (t * t * t)
    + k.cp[3] / 4.0 * (t * t * t * t) + k.cp[4] / 5.0 * (t * t * t * t * t)
  }

  lemma EnthalpyIs(k: Coefficients, t: real)
    requires |k.cp| == 5
    ensures EnthalpyOf(k, t) == Polynomial(k, t)
  {
    EnthalpyInFull(k, t);
    hide EnthalpyOf;
  }

  /** The enthalpy ratio in full: raised outside the range, the low polynomial below the common temperature, the high one from it on. */
  lemma EnthalpyRatioInFull(c: Calorics, t: real)
    requires Valid(c)
    ensures if t < c.minimum || t > c.maximum then EnthalpyRatio(c, t) == Err
            else EnthalpyRatio(c, t) == Ok(Polynomial(if t < c.common then c.low else c.high, t))
  {
    EnthalpyIs(c.low, t);
    EnthalpyIs(c.high, t);
    hide EnthalpyOf, Polynomial;
  }
}

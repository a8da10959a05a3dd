/** The closed-form perfect-gas oblique shock, and the conservation check that serves as its specification.
    Angles enter only through their sines and cosines. */
module ObliqueShock {

  import opened Arithmetic

  /** g is the ratio of specific heats, n the squared normal Mach number. */
  function Denominator(g: real, n: real): real { (g - 1.0) * n + 2.0 }
  function PressureNumerator(g: real, n: real): real { 2.0 * g * n - (g - 1.0) }

  predicate Regime(g: real, n: real) { g > 1.0 && n > 1.0 }

  lemma FactorsPositive(g: real, n: real)
    requires Regime(g, n)
    ensures Denominator(g, n) > 0.0 && PressureNumerator(g, n) > 0.0 && (g + 1.0) * n > 0.0
  {
    Positive(g - 1.0, n);
    Positive(g, n - 1.0);
    Positive(g + 1.0, n);
    assert g * (n - 1.0) == g * n - g;
  }

  function PressureRatio(g: real, n: real): real
    requires Regime(g, n)
  {
    Over(PressureNumerator(g, n), g + 1.0)
  }

  function DensityRatio(g: real, n: real): real
    requires Regime(g, n)
  {
    FactorsPositive(g, n);
    Over((g + 1.0) * n, Denominator(g, n))
  }

  function DownstreamNormalSquared(g: real, n: real): real
    requires Regime(g, n)
  {
    FactorsPositive(g, n);
    Over(Denominator(g, n), PressureNumerator(g, n))
  }

  lemma DensityPositive(g: real, n: real)
    requires Regime(g, n)
    ensures DensityRatio(g, n) > 0.0 && PressureRatio(g, n) > 0.0 && DownstreamNormalSquared(g, n) > 0.0
  {
    FactorsPositive(g, n);
    OverFacts((g + 1.0) * n, Denominator(g, n));
    OverFacts(PressureNumerator(g, n), g + 1.0);
    OverFacts(Denominator(g, n), PressureNumerator(g, n));
  }

  function TemperatureRatio(g: real, n: real): real
    requires Regime(g, n)
  {
    DensityPositive(g, n);
    Over(PressureRatio(g, n), DensityRatio(g, n))
  }

  /** The ratios in multiplied-out form: p, d, w, q stand for pressure, density, downstream normal Mach squared and temperature. */
  ghost predicate ShockRatios(g: real, n: real, p: real, d: real, w: real, q: real) {
    && p * (g + 1.0) == PressureNumerator(g, n) && d * Denominator(g, n) == (g + 1.0) * n && w * PressureNumerator(g, n) == Denominator(g, n) && q * d == p
    && p > 0.0 && d > 0.0 && w > 0.0 && q > 0.0
  }

  lemma RatiosHold(g: real, n: real)
    requires Regime(g, n)
    ensures ShockRatios(g, n, PressureRatio(g, n), DensityRatio(g, n), DownstreamNormalSquared(g, n), TemperatureRatio(g, n))
  {
    FactorsPositive(g, n);
    DensityPositive(g, n);
    OverFacts((g + 1.0) * n, Denominator(g, n));
    OverFacts(PressureNumerator(g, n), g + 1.0);
    OverFacts(Denominator(g, n), PressureNumerator(g, n));
    OverFacts(PressureRatio(g, n), DensityRatio(g, n));
    hide Denominator, PressureNumerator, Over;
  }

  lemma CancelTwice(x: real, y: real, k: real, a: real)
    requires x * k * a == y * k * a && k != 0.0 && a != 0.0
    ensures x == y
  {
    CancelRight(x * k, y * k, a);
    CancelRight(x, y, k);
  }

  // ---------- normal jump ----------

  /** d^2 w q = n: the normal velocity falls by exactly the density ratio. */
  lemma NormalVelocities(g: real, n: real, p: real, d: real, w: real, q: real)
    requires Regime(g, n) && ShockRatios(g, n, p, d, w, q)
    ensures d * (d * (w * q)) == n
  {
    FactorsPositive(g, n);
    var a, b := Denominator(g, n), PressureNumerator(g, n);
    hide Denominator, PressureNumerator, Regime;
    // d q = p, so d d w q = d w p; multiply by b (g + 1)
    assert d * (d * (w * q)) == d * w * p by { assert d * (d * (w * q)) == d * w * (q * d); }
    assert (d * w * p) * (g + 1.0) == d * w * b by { assert (d * w * p) * (g + 1.0) == d * w * (p * (g + 1.0)); }
    assert d * w * b == d * a by { assert d * w * b == d * (w * b); }
    CancelRight(d * w * p, n, g + 1.0);
  }

  /** p + g n / d = 1 + g n, multiplied by d. */
  lemma MomentumRatio(g: real, n: real, p: real, d: real, w: real, q: real)
    requires Regime(g, n) && ShockRatios(g, n, p, d, w, q)
    ensures p * d + g * n == d + g * n * d
  {
    FactorsPositive(g, n);
    var a, b := Denominator(g, n), PressureNumerator(g, n);
    MomentumPolynomial(g, n);
    hide Denominator, PressureNumerator, Regime;
    MomentumScaled(g, n, p, d, a, b);
    CancelTwice(p * d + g * n, d + g * n * d, g + 1.0, a);
  }

  lemma MomentumScaled(g: real, n: real, p: real, d: real, a: real, b: real)
    requires p * (g + 1.0) == b && d * a == (g + 1.0) * n
    requires b * n + g * n * a == (g + 1.0) * n + g * n * ((g + 1.0) * n)
    ensures (p * d + g * n) * (g + 1.0) * a == (d + g * n * d) * (g + 1.0) * a
  {
    var k := g + 1.0;
    assert (p * d + g * n) * k * a == (p * k) * (d * a) + g * n * a * k;
    assert (p * k) * (d * a) == b * (k * n);
    assert (d + g * n * d) * k * a == (d * a) * k + g * n * (d * a) * k;
    assert (d * a) * k == (k * n) * k && g * n * (d * a) * k == g * n * (k * n) * k;
    assert (b * n + g * n * a) * k == (k * n + g * n * (k * n)) * k;
  }

  lemma MomentumPolynomial(g: real, n: real)
    ensures PressureNumerator(g, n) * n + g * n * Denominator(g, n) == (g + 1.0) * n + g * n * ((g + 1.0) * n)
  {
  }

  /** Twice the temperature rise over (g - 1) balances the drop of normal kinetic energy. */
  lemma EnergyRatio(g: real, n: real, p: real, d: real, w: real, q: real)
    requires Regime(g, n) && ShockRatios(g, n, p, d, w, q)
    ensures 2.0 * (q - 1.0) * (d * d) == (g - 1.0) * n * (d * d - 1.0)
  {
    FactorsPositive(g, n);
    var a, b := Denominator(g, n), PressureNumerator(g, n);
    EnergyPolynomial(g, n);
    EnergyScaled(g, n, p, d, q, a, b);
    var x, y := 2.0 * (p * d - d * d), (g - 1.0) * n * (d * d - 1.0);
    hide Denominator, PressureNumerator, Regime;
    Positive(g + 1.0, a);
    CancelRight(x, y, a);
    assert 2.0 * (q - 1.0) * (d * d) == 2.0 * ((q * d) * d - d * d);
  }

  lemma EnergyScaled(g: real, n: real, p: real, d: real, q: real, a: real, b: real)
    requires p * (g + 1.0) == b && d * a == (g + 1.0) * n && a > 0.0 && g > 1.0
    requires 2.0 * (b * a - (g + 1.0) * (g + 1.0) * n) == (g - 1.0) * ((g + 1.0) * (g + 1.0) * n * n - a * a)
    ensures (2.0 * (p * d - d * d)) * a == ((g - 1.0) * n * (d * d - 1.0)) * a
  {
  }

  lemma EnergyPolynomial(g: real, n: real)
    ensures 2.0 * (PressureNumerator(g, n) * Denominator(g, n) - (g + 1.0) * (g + 1.0) * n) == (g - 1.0) * ((g + 1.0) * (g + 1.0) * n * n - Denominator(g, n) * Denominator(g, n))
  {
  }

  // ---------- the conservation check ----------

  /** sin and cos of (shock angle - deflection), from the sines s, st and cosines c, ct of the two angles. */
  function SinDifference(s: real, c: real, st: real, ct: real): real { s * ct - c * st }
  function CosDifference(s: real, c: real, st: real, ct: real): real { c * ct + s * st }

  /** m (g + cos 2 shock) + 2, with cos 2 shock = 1 - 2 sin^2; m is the squared Mach number. */
  function TurningFactor(g: real, m: real, s: real): real { m * (g + (1.0 - 2.0 * (s * s))) + 2.0 }

  /** tan(deflection) = 2 (n - 1) / (tan(shock) factor), multiplied out; n = m sin^2. */
  predicate TurningRelation(factor: real, n: real, s: real, c: real, st: real, ct: real) {
    st * (s * factor) == ct * (c * (2.0 * (n - 1.0)))
  }

  /** The turning relation says that the tangential direction carries over: sin(b - t) d cos b = sin b cos(b - t). */
  lemma TurningKeepsTangent(g: real, m: real, n: real, d: real, s: real, c: real, st: real, ct: real)
    requires Regime(g, n) && n == m * (s * s) && s * s + c * c == 1.0 && TurningRelation(TurningFactor(g, m, s), n, s, c, st, ct)
    requires d * Denominator(g, n) == (g + 1.0) * n
    ensures SinDifference(s, c, st, ct) * (d * c) == s * CosDifference(s, c, st, ct)
  {
    hide *;
    FactorsPositive(g, n);
    FactorIs(g, m, n, s, c);
    TangentAlgebra(Denominator(g, n), (g + 1.0) * n, TurningFactor(g, m, s), n, d, s, c, st, ct);
  }

  lemma FactorIs(g: real, m: real, n: real, s: real, c: real)
    requires n == m * (s * s) && s * s + c * c == 1.0
    ensures (c * c) * ((g + 1.0) * n) + (s * s) * Denominator(g, n) == (s * s) * TurningFactor(g, m, s)
    ensures (g + 1.0) * n - Denominator(g, n) == 2.0 * (n - 1.0)
  {
    SquareExpansion(g, m, n, Denominator(g, n), s * s, TurningFactor(g, m, s));
    assert c * c == 1.0 - s * s;
  }

  lemma SquareExpansion(g: real, m: real, n: real, k: real, z: real, e: real)
    requires n == m * z && k == (g - 1.0) * n + 2.0 && e == m * (g + (1.0 - 2.0 * z)) + 2.0
    ensures (1.0 - z) * ((g + 1.0) * n) + z * k == z * e
  {
  }

  lemma TangentAlgebra(k: real, l: real, e: real, n: real, d: real, s: real, c: real, st: real, ct: real)
    requires k > 0.0 && d * k == l && l - k == 2.0 * (n - 1.0) && (c * c) * l + (s * s) * k == (s * s) * e
    requires TurningRelation(e, n, s, c, st, ct)
    ensures SinDifference(s, c, st, ct) * (d * c) == s * CosDifference(s, c, st, ct)
  {
    var x, y := (s * ct - c * st) * (d * c), s * (c * ct + s * st);
    TangentExpansion(k, l, d, s, c, st, ct, x, y);
    var b := 2.0 * (n - 1.0);
    assert (s * c * ct) * b == s * (ct * (c * b));
    assert st * ((s * s) * e) == s * (st * (s * e));
    hide *;
    assert st * ((c * c) * l + (s * s) * k) == st * ((s * s) * e);
    CancelRight(x, y, k);
  }

  lemma TangentExpansion(k: real, l: real, d: real, s: real, c: real, st: real, ct: real, x: real, y: real)
    requires d * k == l && x == (s * ct - c * st) * (d * c) && y == s * (c * ct + s * st)
    ensures x * k - y * k == (s * c * ct) * (l - k) - st * ((c * c) * l + (s * s) * k)
  {
    assert x * k == (s * ct - c * st) * c * (d * k);
  }

  /** Velocities across the shock: u and v are the upstream and downstream speeds, un and vn their components normal to the
      shock, sd and cd the sine and cosine between the shock and the deflected direction. */
  lemma VelocityComponents(d: real, u: real, v: real, s: real, c: real, sd: real, cd: real, un: real, vn: real)
    requires s > 0.0 && d > 0.0 && u > 0.0 && sd > 0.0 && v > 0.0 && un == u * s && vn == v * sd
    requires s * s + c * c == 1.0 && sd * sd + cd * cd == 1.0 && sd * (d * c) == s * cd
    requires un * un == d * (d * (vn * vn))
    ensures d * vn == un && v * cd == u * c
    ensures v * v - u * u == vn * vn - un * un
  {
    assert (d * vn) * (d * vn) == un * un;
    Positive(v, sd);
    Positive(d, vn);
    Positive(u, s);
    SameSquares(d * vn, un);
    TangentialKept(d, u, v, s, c, sd, cd, un, vn);
    SpeedSplits(v, u, s, c, sd, cd);
  }

  lemma TangentialKept(d: real, u: real, v: real, s: real, c: real, sd: real, cd: real, un: real, vn: real)
    requires s > 0.0 && un == u * s && vn == v * sd && sd * (d * c) == s * cd && d * vn == un
    ensures v * cd == u * c
  {
    assert s * (v * cd) == v * (sd * (d * c));
    assert v * (sd * (d * c)) == (d * vn) * c;
    assert un * c == s * (u * c);
    CancelRight(v * cd, u * c, s);
  }

  lemma SpeedSplits(v: real, u: real, s: real, c: real, sd: real, cd: real)
    requires s * s + c * c == 1.0 && sd * sd + cd * cd == 1.0 && v * cd == u * c
    ensures v * v - u * u == (v * sd) * (v * sd) - (u * s) * (u * s)
  {
    assert v * v == (v * v) * (sd * sd + cd * cd);
    assert u * u == (u * u) * (s * s + c * c);
    assert (v * cd) * (v * cd) == (u * c) * (u * c);
  }

  lemma UnitDifference(s: real, c: real, st: real, ct: real)
    requires s * s + c * c == 1.0 && st * st + ct * ct == 1.0
    ensures var sd, cd := SinDifference(s, c, st, ct), CosDifference(s, c, st, ct); sd * sd + cd * cd == 1.0
  {
    assert (s * ct - c * st) * (s * ct - c * st) + (c * ct + s * st) * (c * ct + s * st) == (s * s + c * c) * (st * st + ct * ct);
  }

  lemma SameSquares(x: real, y: real)
    requires x > 0.0 && y > 0.0 && x * x == y * y
    ensures x == y
  {
    assert (x - y) * (x + y) == 0.0;
    if x != y {
      NonzeroProduct(x - y, x + y);
      assert false;
    }
  }

  /** The reference state upstream: pressure, temperature, gas constant and ratio of specific heats. */
  datatype Reference = Reference(pressure: real, temperature: real, gasConstant: real, g: real)

  predicate Physical(r: Reference) { r.pressure > 0.0 && r.temperature > 0.0 && r.gasConstant > 0.0 && r.g > 1.0 }

  /** The measured jump: ratios, velocity components in the plane, and the upstream speed. */
  datatype Observation = Observation(pressureRatio: real, densityRatio: real, temperatureRatio: real, vx: real, vy: real, vz: real, speed: real)

  datatype Errors = Errors(mass: real, momentum: real, energy: real)

  function UpstreamDensity(r: Reference): real
    requires Physical(r)
  {
    Positive(r.gasConstant, r.temperature);
    Over(r.pressure, r.gasConstant * r.temperature)
  }

  function HeatCapacity(r: Reference): real
    requires Physical(r)
  {
    Over(r.g * r.gasConstant, r.g - 1.0)
  }

  function DownstreamNormal(o: Observation, s: real, c: real): real { o.vx * s - o.vy * c }

  function MassError(normal: real, downstream: real, d: real): real
    requires normal > 0.0
  {
    Absolute(Over(d * downstream, normal) - 1.0)
  }

  function MomentumError(p0: real, rho: real, p: real, d: real, normalSquared: real, downstreamSquared: real): real
    requires p0 + rho * normalSquared > 0.0
  {
    Absolute(Over(p * p0 + d * rho * downstreamSquared, p0 + rho * normalSquared) - 1.0)
  }

  function EnergyError(rise: real, kinetic: real, scale: real): real
    requires scale > 0.0
  {
    Over(Absolute(rise + kinetic / 2.0), scale)
  }

  /** Mass: the density ratio times the downstream normal velocity is the upstream normal velocity. */
  lemma MassErrorVanishes(normal: real, downstream: real, d: real)
    requires normal > 0.0 && d * downstream == normal
    ensures MassError(normal, downstream, d) == 0.0
  {
    OverOne(normal);
  }

  /** p + g d w q = 1 + g n. */
  lemma MomentumPerUnit(g: real, n: real, p: real, d: real, w: real, q: real)
    requires Regime(g, n) && ShockRatios(g, n, p, d, w, q)
    ensures p + g * (d * (w * q)) == 1.0 + g * n
  {
    NormalVelocities(g, n, p, d, w, q);
    MomentumRatio(g, n, p, d, w, q);
    DividedByDensity(g, n, p, d, d * (w * q));
  }

  lemma DividedByDensity(g: real, n: real, p: real, d: real, k: real)
    requires d > 0.0 && d * k == n && p * d + g * n == d + g * n * d
    ensures p + g * k == 1.0 + g * n
  {
    assert (p + g * k) * d == p * d + g * (d * k);
    assert (1.0 + g * n) * d == d + g * n * d;
    CancelRight(p + g * k, 1.0 + g * n, d);
  }

  /** 2 (q - 1) = (g - 1) (n - w q). */
  lemma EnergyPerUnit(g: real, n: real, p: real, d: real, w: real, q: real)
    requires Regime(g, n) && ShockRatios(g, n, p, d, w, q)
    ensures 2.0 * (q - 1.0) == (g - 1.0) * (n - w * q)
  {
    NormalVelocities(g, n, p, d, w, q);
    EnergyRatio(g, n, p, d, w, q);
    DividedByDensityTwice(g, n, d, 2.0 * (q - 1.0), w * q);
  }

  lemma DividedByDensityTwice(g: real, n: real, d: real, x: real, k: real)
    requires d > 0.0 && d * (d * k) == n && x * (d * d) == (g - 1.0) * n * (d * d - 1.0)
    ensures x == (g - 1.0) * (n - k)
  {
    var y := (g - 1.0) * (n - k);
    assert y * (d * d) == (g - 1.0) * (n * (d * d) - d * (d * k));
    assert (g - 1.0) * n * (d * d - 1.0) == (g - 1.0) * (n * (d * d) - n);
    assert (x - y) * d * d == 0.0 by { assert (x - y) * d * d == x * (d * d) - y * (d * d); }
    if x != y {
      NonzeroProduct(x - y, d);
      NonzeroProduct((x - y) * d, d);
      assert false;
    }
  }

  /** Momentum: with normal velocities squared n e and w q e, where e = g r T and rho r T = p0, the fluxes agree. */
  lemma MomentumErrorVanishes(g: real, n: real, p: real, d: real, w: real, q: real, p0: real, rho: real, rt: real, ns: real, ds: real)
    requires Regime(g, n) && ShockRatios(g, n, p, d, w, q) && p0 > 0.0 && rho * rt == p0
    requires ns == n * (g * rt) && ds == w * q * (g * rt)
    ensures p0 + rho * ns > 0.0 && MomentumError(p0, rho, p, d, ns, ds) == 0.0
  {
    MomentumPerUnit(g, n, p, d, w, q);
    hide ShockRatios;
    MomentumFluxes(g, n, d, w, q, p0, rho, rt, ns, ds);
    Positive(g, n);
    Positive(g * n, p0);
    FluxesAgree(p0, p, g * n, g * (d * (w * q)), rho * ns, d * rho * ds);
    hide Regime;
    MomentumErrorOf(p0, rho, p, d, ns, ds);
  }

  lemma MomentumErrorOf(p0: real, rho: real, p: real, d: real, ns: real, ds: real)
    requires p0 + rho * ns > 0.0 && p * p0 + d * rho * ds == p0 + rho * ns
    ensures MomentumError(p0, rho, p, d, ns, ds) == 0.0
  {
    OverOf(p * p0 + d * rho * ds, p0 + rho * ns);
    hide Over;
  }

  lemma OverOf(a: real, b: real)
    requires a == b && b > 0.0
    ensures Over(a, b) == 1.0
  {
    OverOne(a);
  }

  lemma MomentumFluxes(g: real, n: real, d: real, w: real, q: real, p0: real, rho: real, rt: real, ns: real, ds: real)
    requires rho * rt == p0 && ns == n * (g * rt) && ds == w * q * (g * rt)
    ensures rho * ns == (g * n) * p0 && d * rho * ds == (g * (d * (w * q))) * p0
  {
    assert rho * (n * (g * rt)) == (g * n) * (rho * rt);
    assert d * rho * (w * q * (g * rt)) == (g * (d * (w * q))) * (rho * rt);
  }

  lemma FluxesAgree(p0: real, p: real, a: real, b: real, x: real, y: real)
    requires x == a * p0 && y == b * p0 && p + b == 1.0 + a
    ensures p * p0 + y == p0 + x
  {
    assert (p + b) * p0 == (1.0 + a) * p0;
  }

  /** Energy: cp T (q - 1) balances half the change of the squared speed. */
  lemma EnergyErrorVanishes(g: real, n: real, p: real, d: real, w: real, q: real, cp: real, rt: real, r: real, t: real,
                            rise: real, kinetic: real, scale: real)
    requires Regime(g, n) && ShockRatios(g, n, p, d, w, q) && scale > 0.0
    requires cp * (g - 1.0) == g * r && r * t == rt
    requires rise == cp * (t * q - t) && kinetic == w * q * (g * rt) - n * (g * rt)
    ensures EnergyError(rise, kinetic, scale) == 0.0
  {
    EnergyPerUnit(g, n, p, d, w, q);
    hide ShockRatios;
    RiseBalances(g, n, w * q, q, cp, rt, r, t, rise, kinetic);
    ZeroOver(rise + kinetic / 2.0, scale);
  }

  lemma RiseBalances(g: real, n: real, k: real, q: real, cp: real, rt: real, r: real, t: real, rise: real, kinetic: real)
    requires g > 1.0 && 2.0 * (q - 1.0) == (g - 1.0) * (n - k) && cp * (g - 1.0) == g * r && r * t == rt
    requires rise == cp * (t * q - t) && kinetic == k * (g * rt) - n * (g * rt)
    ensures 2.0 * rise + kinetic == 0.0
  {
    var f, y := g - 1.0, (g * rt) * (n - k);
    assert 2.0 * rise == (cp * t) * (2.0 * (q - 1.0));
    assert (cp * t) * (f * (n - k)) == ((cp * f) * t) * (n - k);
    assert (g * r) * t == g * rt;
  }

  lemma ZeroOver(x: real, scale: real)
    requires scale > 0.0 && x == 0.0
    ensures Over(Absolute(x), scale) == 0.0
  {
  }

  function SpeedChange(o: Observation): real { o.vx * o.vx + o.vy * o.vy + o.vz * o.vz - o.speed * o.speed }

  function EnthalpyRise(r: Reference, q: real): real
    requires Physical(r)
  {
    HeatCapacity(r) * (r.temperature * q - r.temperature)
  }

  function EnergyScale(r: Reference, speed: real): real
    requires Physical(r)
  {
    HeatCapacity(r) * r.temperature + speed * speed / 2.0
  }

  function Squared(x: real): real { x * x }

  function UpstreamNormal(o: Observation, s: real): real { o.speed * s }

  /** The three conservation errors of the verification script. */
  function ConservationErrors(r: Reference, o: Observation, s: real, c: real): (e: Errors)
    requires Physical(r) && o.speed > 0.0 && s > 0.0
  {
    Positive(o.speed, s);
    ScalesPositive(r, o.speed, UpstreamNormal(o, s));
    Errors(MassError(UpstreamNormal(o, s), DownstreamNormal(o, s, c), o.densityRatio),
           MomentumError(r.pressure, UpstreamDensity(r), o.pressureRatio, o.densityRatio,
                         Squared(UpstreamNormal(o, s)), Squared(DownstreamNormal(o, s, c))),
           EnergyError(EnthalpyRise(r, o.temperatureRatio), SpeedChange(o), EnergyScale(r, o.speed)))
  }

  lemma ScalesPositive(r: Reference, speed: real, normal: real)
    requires Physical(r)
    ensures r.pressure + UpstreamDensity(r) * Squared(normal) > 0.0
    ensures EnergyScale(r, speed) > 0.0
    ensures UpstreamDensity(r) * (r.gasConstant * r.temperature) == r.pressure
    ensures HeatCapacity(r) * (r.g - 1.0) == r.g * r.gasConstant
  {
    Positive(r.gasConstant, r.temperature);
    Positive(r.g, r.gasConstant);
    OverFacts(r.pressure, r.gasConstant * r.temperature);
    OverFacts(r.g * r.gasConstant, r.g - 1.0);
    hide Over;
    NonnegativeProduct(UpstreamDensity(r), normal);
    Positive(HeatCapacity(r), r.temperature);
    NonnegativeProduct(1.0, speed);
  }

  lemma NonnegativeProduct(a: real, x: real)
    requires a > 0.0
    ensures a * (x * x) >= 0.0
  {
    var y := x * x;
    assert y >= 0.0;
  }

  /** The closed-form ratios at the exact turning angle satisfy all three conservation laws: the errors are zero.
      u and v are the square roots the solver takes for the upstream speed and the downstream speed. */
  lemma ClosedFormConserves(r: Reference, mach: real, n: real, s: real, c: real, st: real, ct: real, u: real, v: real, rt: real)
    requires Physical(r) && Regime(r.g, n) && n == mach * mach * (s * s) && s > 0.0 && u > 0.0 && v > 0.0
    requires s * s + c * c == 1.0 && st * st + ct * ct == 1.0 && SinDifference(s, c, st, ct) > 0.0
    requires TurningRelation(TurningFactor(r.g, mach * mach, s), n, s, c, st, ct)
    requires rt == r.gasConstant * r.temperature && u * u == mach * mach * (r.g * rt)
    requires Squared(v * SinDifference(s, c, st, ct)) == DownstreamNormalSquared(r.g, n) * TemperatureRatio(r.g, n) * (r.g * rt)
    ensures var o := Observation(PressureRatio(r.g, n), DensityRatio(r.g, n), TemperatureRatio(r.g, n), v * ct, v * st, 0.0, u);
            ConservationErrors(r, o, s, c) == Errors(0.0, 0.0, 0.0)
  {
    hide *;
    var g := r.g;
    var p, d, w, q := PressureRatio(g, n), DensityRatio(g, n), DownstreamNormalSquared(g, n), TemperatureRatio(g, n);
    RatiosHold(g, n);
    ConservedValues(r, mach * mach, n, s, c, st, ct, u, v, p, d, w, q, rt, Observation(p, d, q, v * ct, v * st, 0.0, u));
  }

  /** Normal velocities in units of the sound speed e squared: the two kinetic terms are n e and w q e. */
  lemma NormalSpeeds(m: real, n: real, z: real, s: real, u: real, un: real, vn: real, d: real, k: real, e: real)
    requires n == m * z && z == s * s && u * u == m * e && un == u * s && vn * vn == k * e && d * (d * k) == n
    ensures un * un == n * e && un * un == d * (d * (vn * vn))
  {
    assert un * un == (u * u) * z;
    assert (m * e) * z == (m * z) * e;
    assert d * (d * (k * e)) == (d * (d * k)) * e;
  }

  lemma ConservedValues(r: Reference, m: real, n: real, s: real, c: real, st: real, ct: real, u: real, v: real,
                        p: real, d: real, w: real, q: real, rt: real, o: Observation)
    requires Physical(r) && Regime(r.g, n) && n == m * (s * s) && s > 0.0 && u > 0.0 && v > 0.0
    requires s * s + c * c == 1.0 && st * st + ct * ct == 1.0 && SinDifference(s, c, st, ct) > 0.0
    requires TurningRelation(TurningFactor(r.g, m, s), n, s, c, st, ct)
    requires rt == r.gasConstant * r.temperature && u * u == m * (r.g * rt)
    requires Squared(v * SinDifference(s, c, st, ct)) == w * q * (r.g * rt)
    requires ShockRatios(r.g, n, p, d, w, q)
    requires o == Observation(p, d, q, v * ct, v * st, 0.0, u)
    ensures ConservationErrors(r, o, s, c) == Errors(0.0, 0.0, 0.0)
  {
    hide *;
    SpeedsAgree(r.g, rt, m, n, s, c, st, ct, u, v, p, d, w, q, o);
    UpstreamPositive(o, s);
    ScalesPositive(r, u, UpstreamNormal(o, s));
    PhysicalPressure(r);
    MassErrorVanishes(UpstreamNormal(o, s), DownstreamNormal(o, s, c), d);
    MomentumErrorVanishes(r.g, n, p, d, w, q, r.pressure, UpstreamDensity(r), rt,
                          Squared(UpstreamNormal(o, s)), Squared(DownstreamNormal(o, s, c)));
    RiseIs(r, q);
    EnergyErrorVanishes(r.g, n, p, d, w, q, HeatCapacity(r), rt, r.gasConstant, r.temperature,
                        EnthalpyRise(r, q), SpeedChange(o), EnergyScale(r, u));
    ErrorsAre(r, o, s, c);
  }

  lemma UpstreamPositive(o: Observation, s: real)
    requires o.speed > 0.0 && s > 0.0
    ensures UpstreamNormal(o, s) > 0.0
  {
    Positive(o.speed, s);
  }

  lemma PhysicalPressure(r: Reference)
    requires Physical(r)
    ensures r.pressure > 0.0
  {
  }

  lemma ErrorsAre(r: Reference, o: Observation, s: real, c: real)
    requires Physical(r) && o.speed > 0.0 && s > 0.0 && UpstreamNormal(o, s) > 0.0
    requires r.pressure + UpstreamDensity(r) * Squared(UpstreamNormal(o, s)) > 0.0 && EnergyScale(r, o.speed) > 0.0
    ensures ConservationErrors(r, o, s, c) ==
            Errors(MassError(UpstreamNormal(o, s), DownstreamNormal(o, s, c), o.densityRatio),
                   MomentumError(r.pressure, UpstreamDensity(r), o.pressureRatio, o.densityRatio,
                                 Squared(UpstreamNormal(o, s)), Squared(DownstreamNormal(o, s, c))),
                   EnergyError(EnthalpyRise(r, o.temperatureRatio), SpeedChange(o), EnergyScale(r, o.speed)))
  {
    hide Physical, UpstreamNormal, UpstreamDensity, Squared, EnergyScale, EnthalpyRise, SpeedChange, DownstreamNormal,
         MassError, MomentumError, EnergyError;
  }

  lemma RiseIs(r: Reference, q: real)
    requires Physical(r)
    ensures EnthalpyRise(r, q) == HeatCapacity(r) * (r.temperature * q - r.temperature)
  {
  }

  lemma SpeedsAgree(g: real, rt: real, m: real, n: real, s: real, c: real, st: real, ct: real, u: real, v: real,
                    p: real, d: real, w: real, q: real, o: Observation)
    requires Regime(g, n) && n == m * (s * s) && s > 0.0 && u > 0.0 && v > 0.0
    requires s * s + c * c == 1.0 && st * st + ct * ct == 1.0 && SinDifference(s, c, st, ct) > 0.0
    requires TurningRelation(TurningFactor(g, m, s), n, s, c, st, ct)
    requires u * u == m * (g * rt)
    requires Squared(v * SinDifference(s, c, st, ct)) == w * q * (g * rt)
    requires ShockRatios(g, n, p, d, w, q)
    requires o == Observation(p, d, q, v * ct, v * st, 0.0, u)
    ensures d * DownstreamNormal(o, s, c) == UpstreamNormal(o, s)
    ensures Squared(UpstreamNormal(o, s)) == n * (g * rt) && Squared(DownstreamNormal(o, s, c)) == w * q * (g * rt)
    ensures SpeedChange(o) == w * q * (g * rt) - n * (g * rt)
  {
    hide *;
    var sd, cd, un, vn := SinDifference(s, c, st, ct), CosDifference(s, c, st, ct), UpstreamNormal(o, s), DownstreamNormal(o, s, c);
    RatioFacts(g, n, p, d, w, q);
    NormalVelocities(g, n, p, d, w, q);
    TurningKeepsTangent(g, m, n, d, s, c, st, ct);
    UnitDifference(s, c, st, ct);
    ObservedSpeeds(o, v, s, c, st, ct);
    SquaredIs(un);
    SquaredIs(vn);
    NormalSpeeds(m, n, s * s, s, u, un, vn, d, w * q, g * rt);
    VelocityComponents(d, u, v, s, c, sd, cd, un, vn);
  }

  lemma SquaredIs(x: real)
    ensures Squared(x) == x * x
  {
  }

  lemma RatioFacts(g: real, n: real, p: real, d: real, w: real, q: real)
    requires ShockRatios(g, n, p, d, w, q)
    ensures d > 0.0 && d * Denominator(g, n) == (g + 1.0) * n
  {
  }

  lemma ObservedSpeeds(o: Observation, v: real, s: real, c: real, st: real, ct: real)
    requires o.vx == v * ct && o.vy == v * st && o.vz == 0.0 && st * st + ct * ct == 1.0
    ensures UpstreamNormal(o, s) == o.speed * s
    ensures DownstreamNormal(o, s, c) == v * SinDifference(s, c, st, ct)
    ensures SpeedChange(o) == v * v - o.speed * o.speed
  {
    TurnedSpeed(v, st, ct);
    assert o.vx * o.vx == (v * ct) * (v * ct) && o.vy * o.vy == (v * st) * (v * st);
    assert (v * ct) * s - (v * st) * c == v * (s * ct - c * st);
  }

  lemma TurnedSpeed(v: real, st: real, ct: real)
    requires st * st + ct * ct == 1.0
    ensures (v * ct) * (v * ct) + (v * st) * (v * st) == v * v
  {
    assert (v * ct) * (v * ct) + (v * st) * (v * st) == (v * v) * (st * st + ct * ct);
  }
}

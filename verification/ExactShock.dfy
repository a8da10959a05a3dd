/** The weak-shock solver against the conservation check: at an angle that turns the flow by exactly the deflection asked for, the
    state the solver returns conserves mass, momentum and energy. */
module ExactShock {

  import opened Arithmetic
  import opened Partial
  import opened ObliqueShock
  import opened WeakBranchSearch
  import opened TurningCurve
  import opened WeakShock

  lemma SlopePositive(m: real, g: real, t: real, s2: real, n: real)
    requires m > 1.0 && g > 1.0 && t > 0.0 && s2 * (1.0 + Squared(t)) == Squared(t) && n == Times(m, s2) && n > 1.0
    ensures Slope(m, g, t) > 0.0
  {
    hide *;
    SlopeIs(m, g, t);
    SquarePositive(t);
    NormalAgainstRise(m, s2, Squared(t));
    TimesIs(m, s2);
    Positive(m * s2 - 1.0, 1.0 + Squared(t));
    OverPositive(2.0 * Rise(m - 1.0, Squared(t)), Base(LowFactor(m, g), HighFactor(m, g), t, Squared(t)));
  }

  lemma TimesIs(a: real, b: real)
    ensures Times(a, b) == a * b
  {
  }

  lemma OverPositive(n: real, d: real)
    requires n > 0.0 && d > 0.0
    ensures Over(n, d) > 0.0
  {
    OverFacts(n, d);
    var x := Over(n, d);
    hide Over;
    if x <= 0.0 {
      Nonpositive(x, d);
    }
  }

  lemma Nonpositive(x: real, d: real)
    requires x <= 0.0 && d > 0.0
    ensures x * d <= 0.0
  {
  }

  /** The solver's turning angle, with its tangent. */
  lemma TurningTangent(k: Trig, m: real, g: real, beta: real, n: real) returns (theta: real)
    requires Sound(k) && m > 1.0 && g > 1.0 && 0.0 < beta < k.quarter && n == Times(m, Squared(k.sin(beta))) && n > 1.0
    ensures Turning(k, m, g, beta) == Ok(theta) && 0.0 < theta < beta && k.tan(beta) > 0.0 && k.tan(theta) == Slope(m, g, k.tan(beta))
  {
    hide Slope, Turning, Squared;
    TurningIs(k, m, g, beta);
    TangentAt(k, beta);
    TurningBelowAngle(k, m, g, beta);
    SlopePositive(m, g, k.tan(beta), Squared(k.sin(beta)), n);
    theta := k.atan(Slope(m, g, k.tan(beta)));
    assert IsTangent(k, Slope(m, g, k.tan(beta)));
    var x :| 0.0 < x < k.quarter && k.tan(x) == Slope(m, g, k.tan(beta));
    assert SoundAt(k, x);
  }

  /** Multiplying the quotient out. */
  lemma RelationFrom(slope: real, num: real, div: real, factor: real, n: real, s: real, c: real, t: real, st: real, ct: real)
    requires slope * div == num && div == t * factor && num == 2.0 * (n - 1.0) && t * c == s && slope * ct == st
    ensures TurningRelation(factor, n, s, c, st, ct)
  {
    var y := c * factor;
    assert s * factor == t * y;
    assert st * (t * y) == (slope * ct) * (t * y);
    assert (slope * ct) * (t * y) == (ct * c) * (slope * (t * factor));
    assert (ct * c) * num == ct * (c * num);
  }

  lemma SlopeTimes(m: real, g: real, s: real, c: real, t: real, c2: real)
    requires m > 1.0 && g > 1.0 && t > 0.0 && t * c == s && Squared(s) + Squared(c) == 1.0 && c2 == 1.0 - 2.0 * Squared(s)
    ensures Slope(m, g, t) * (t * TurningFactor(g, m, s)) == 2.0 * (m * Squared(s) - 1.0)
  {
    hide *;
    SlopeEquals(m, g, s, c, t, c2);
    OverFacts(Numerator(m, Squared(s)), Divisor(m, g, t, c2));
    DivisorIs(m, g, t, s, c2);
  }

  lemma DivisorIs(m: real, g: real, t: real, s: real, c2: real)
    requires c2 == 1.0 - 2.0 * Squared(s)
    ensures Divisor(m, g, t, c2) == t * TurningFactor(g, m, s) && Numerator(m, Squared(s)) == 2.0 * (m * Squared(s) - 1.0)
  {
  }

  /** The angle the solver's formula gives is the exact deflection: its sine and cosine meet the multiplied-out relation. */
  lemma TurningIsExact(k: Trig, m: real, g: real, beta: real, n: real) returns (theta: real)
    requires Sound(k) && m > 1.0 && g > 1.0 && 0.0 < beta < k.quarter && n == Times(m, Squared(k.sin(beta))) && n > 1.0
    ensures Turning(k, m, g, beta) == Ok(theta) && 0.0 < theta < beta
    ensures TurningRelation(TurningFactor(g, m, k.sin(beta)), n, k.sin(beta), k.cos(beta), k.sin(theta), k.cos(theta))
    ensures SinDifference(k.sin(beta), k.cos(beta), k.sin(theta), k.cos(theta)) > 0.0
  {
    hide Squared, Slope, Turning;
    theta := TurningTangent(k, m, g, beta, n);
    var s, c, t, st, ct := k.sin(beta), k.cos(beta), k.tan(beta), k.sin(theta), k.cos(theta);
    assert k.tan(theta) < k.tan(beta);
    hide *;
    SoundBelow(k, beta);
    SoundBelow(k, theta);
    TimesIs(m, Squared(s));
    SlopeTimes(m, g, s, c, t, k.cos(2.0 * beta));
    RelationFrom(Slope(m, g, t), 2.0 * (n - 1.0), t * TurningFactor(g, m, s), TurningFactor(g, m, s), n, s, c, t, st, ct);
    DifferencePositive(s, c, t, st, ct, k.tan(theta));
  }

  lemma SoundBelow(k: Trig, x: real)
    requires Sound(k) && 0.0 < x < k.quarter
    ensures k.sin(x) > 0.0 && k.cos(x) > 0.0 && k.tan(x) > 0.0 && Squared(k.sin(x)) + Squared(k.cos(x)) == 1.0
    ensures k.tan(x) * k.cos(x) == k.sin(x) && k.cos(2.0 * x) == 1.0 - 2.0 * Squared(k.sin(x))
  {
    hide Squared;
    assert SoundAt(k, x);
  }

  lemma DifferencePositive(s: real, c: real, t: real, st: real, ct: real, tt: real)
    requires c > 0.0 && ct > 0.0 && t * c == s && tt * ct == st && tt < t
    ensures SinDifference(s, c, st, ct) > 0.0
  {
    Positive(c, ct);
    Positive(c * ct, t - tt);
    assert s * ct == (c * ct) * t && c * st == (c * ct) * tt;
  }

  /** The speed of sound where the temperature is the given multiple of the reference temperature. */
  predicate SoundSpeed(r: Reference, ratio: real, a: real) { a > 0.0 && a * a == ratio * (r.g * (r.gasConstant * r.temperature)) }

  /** The root the check takes is one. */
  lemma SoundSpeedIsRoot(k: Trig, r: Reference, ratio: real, square: real)
    requires Sound(k) && Physical(r) && ratio > 0.0 && square == ratio * (r.g * (r.gasConstant * r.temperature))
    ensures SoundSpeed(r, ratio, k.sqrt(square))
  {
    Positive(r.gasConstant, r.temperature);
    Positive(r.g, r.gasConstant * r.temperature);
    Positive(ratio, r.g * (r.gasConstant * r.temperature));
    RootOf(k, square);
  }

  lemma RootOf(k: Trig, square: real)
    requires Sound(k) && square > 0.0
    ensures k.sqrt(square) > 0.0 && k.sqrt(square) * k.sqrt(square) == square
  {
    assert RootAt(k, square);
  }

  /** What a check compares: the ratios, and the speeds as Mach number times local speed of sound, turned by the deflection. */
  function Observed(s: Shock, mach: real, upstreamSound: real, downstreamSound: real, st: real, ct: real): Observation {
    var u, v := Times(mach, upstreamSound), Times(s.downstream, downstreamSound);
    Observation(s.pressure, s.density, s.temperature, v * ct, v * st, 0.0, u)
  }

  /** A downstream Mach number times the local speed of sound is the downstream speed. */
  lemma SpeedBehind(r: Reference, downstream: real, sound: real, sine: real, w: real, q: real, v: real, rt: real)
    requires Squared(Times(downstream, sine)) == w && SoundSpeed(r, q, sound) && v == Times(downstream, sound) && rt == r.gasConstant * r.temperature
    ensures Squared(v * sine) == w * q * (r.g * rt)
  {
    var x, e := downstream * sine, r.g * rt;
    assert (downstream * sound) * sine == x * sound;
    assert (x * sound) * (x * sound) == (x * x) * (sound * sound);
    assert w * (q * e) == w * q * e;
  }

  lemma SpeedBehindShock(r: Reference, downstream: real, sound: real, s: real, c: real, st: real, ct: real, w: real, q: real, v: real, rt: real)
    requires Squared(Times(downstream, SinDifference(s, c, st, ct))) == w && SoundSpeed(r, q, sound) && v == Times(downstream, sound)
    requires rt == r.gasConstant * r.temperature
    ensures Squared(v * SinDifference(s, c, st, ct)) == w * q * (r.g * rt)
  {
    hide SinDifference, Squared;
    SpeedBehind(r, downstream, sound, SinDifference(s, c, st, ct), w, q, v, rt);
  }

  lemma SpeedAhead(r: Reference, mach: real, sound: real, u: real, rt: real)
    requires SoundSpeed(r, 1.0, sound) && u == Times(mach, sound) && rt == r.gasConstant * r.temperature
    ensures u * u == Squared(mach) * (r.g * rt)
  {
    assert (mach * sound) * (mach * sound) == (mach * mach) * (sound * sound);
  }

  lemma SpeedPositive(r: Reference, mach: real, q: real, sound: real)
    requires mach > 0.0 && SoundSpeed(r, q, sound)
    ensures Times(mach, sound) > 0.0
  {
    Positive(mach, sound);
  }

  lemma NormalIs(s: real, m: real, n: real)
    requires n == Times(m, Squared(s))
    ensures n == m * (s * s)
  {
  }

  lemma UnitIs(s: real, c: real)
    requires Squared(s) + Squared(c) == 1.0
    ensures s * s + c * c == 1.0
  {
  }

  /** The conservation theorem over speeds given by Mach numbers. */
  lemma ConservesByMach(r: Reference, mach: real, m: real, n: real, s: real, c: real, st: real, ct: real, sine: real, shock: Shock,
                        p: real, d: real, w: real, q: real, ahead: real, behind: real, u: real, v: real, rt: real, o: Observation)
    requires Physical(r) && Regime(r.g, n) && mach > 1.0 && m == Squared(mach) && n == Times(m, Squared(s)) && s > 0.0
    requires Squared(s) + Squared(c) == 1.0 && Squared(st) + Squared(ct) == 1.0 && sine == SinDifference(s, c, st, ct) > 0.0
    requires TurningRelation(TurningFactor(r.g, m, s), n, s, c, st, ct) && shock.downstream > 0.0
    requires ShockRatios(r.g, n, p, d, w, q) && shock.pressure == p && shock.density == d && shock.temperature == q
    requires Squared(Times(shock.downstream, sine)) == w && SoundSpeed(r, 1.0, ahead) && SoundSpeed(r, q, behind)
    requires u == Times(mach, ahead) && v == Times(shock.downstream, behind) && o == Observation(p, d, q, v * ct, v * st, 0.0, u)
    requires rt == r.gasConstant * r.temperature
    ensures u > 0.0 && ConservationErrors(r, o, s, c) == Errors(0.0, 0.0, 0.0)
  {
    hide *;
    SpeedPositive(r, mach, 1.0, ahead);
    SpeedPositive(r, shock.downstream, q, behind);
    SpeedBehindShock(r, shock.downstream, behind, s, c, st, ct, w, q, v, rt);
    SpeedAhead(r, mach, ahead, u, rt);
    NormalIs(s, m, n);
    UnitIs(s, c);
    UnitIs(st, ct);
    ConservedValues(r, m, n, s, c, st, ct, u, v, p, d, w, q, rt, o);
  }

  lemma ObservedIs(s: Shock, mach: real, ahead: real, behind: real, st: real, ct: real)
    ensures var u, v := Times(mach, ahead), Times(s.downstream, behind);
            Observed(s, mach, ahead, behind, st, ct) == Observation(s.pressure, s.density, s.temperature, v * ct, v * st, 0.0, u)
  {
  }

  /** When the angle the solver settles on turns the flow by exactly the deflection asked for, the ratios and the downstream Mach
      number it returns satisfy all three conservation laws. The sound speeds are the roots the check takes on either side, and
      the sine of the library obeys the difference law at this one place. */
  lemma ExactShockConserves(k: Trig, r: Reference, mach: real, theta: real, s: Shock, ahead: real, behind: real)
    requires Sound(k) && Physical(r) && mach > 1.0 && s.search.Angle? && 0.0 < s.search.beta < k.quarter
    requires ClosedForm(k, mach, r.g, s) && DownstreamAgrees(k, mach, theta, r.g, s)
    requires Turning(k, Squared(mach), r.g, s.search.beta) == Ok(theta)
    requires k.sin(s.search.beta - theta) == SinDifference(k.sin(s.search.beta), k.cos(s.search.beta), k.sin(theta), k.cos(theta))
    requires SoundSpeed(r, 1.0, ahead) && SoundSpeed(r, s.temperature, behind)
    ensures var o := Observed(s, mach, ahead, behind, k.sin(theta), k.cos(theta));
            && o.speed > 0.0 && k.sin(s.search.beta) > 0.0
            && ConservationErrors(r, o, k.sin(s.search.beta), k.cos(s.search.beta)) == Errors(0.0, 0.0, 0.0)
  {
    var beta, n, m := s.search.beta, NormalSquared(k, mach, s.search.beta), Squared(mach);
    assert r.g > 1.0;
    hide *;
    ShockIs(k, mach, r.g, theta, s);
    MachSquared(mach, m);
    var angle := TurningIsExact(k, m, r.g, beta, n);
    SoundBelow(k, beta);
    SoundBelow(k, theta);
    RatiosHold(r.g, n);
    ObservedIs(s, mach, ahead, behind, k.sin(theta), k.cos(theta));
    ConservesByMach(r, mach, m, n, k.sin(beta), k.cos(beta), k.sin(theta), k.cos(theta), k.sin(beta - theta), s,
                    PressureRatio(r.g, n), DensityRatio(r.g, n), DownstreamNormalSquared(r.g, n), TemperatureRatio(r.g, n), ahead, behind,
                    Times(mach, ahead), Times(s.downstream, behind), r.gasConstant * r.temperature, Observed(s, mach, ahead, behind, k.sin(theta), k.cos(theta)));
  }

  lemma ShockIs(k: Trig, mach: real, g: real, theta: real, s: Shock)
    requires ClosedForm(k, mach, g, s) && DownstreamAgrees(k, mach, theta, g, s)
    ensures var n := NormalSquared(k, mach, s.search.beta);
            && n == Times(Squared(mach), Squared(k.sin(s.search.beta))) && Regime(g, n) && n > 1.0
            && s.pressure == PressureRatio(g, n) && s.density == DensityRatio(g, n) && s.temperature == TemperatureRatio(g, n)
            && Squared(Times(s.downstream, k.sin(s.search.beta - theta))) == DownstreamNormalSquared(g, n)
            && (theta < s.search.beta ==> s.downstream > 0.0)
  {
    hide Squared, PressureRatio, DensityRatio, TemperatureRatio, DownstreamNormalSquared;
  }
}

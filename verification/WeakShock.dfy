/** The weak-shock entry points: the perfect-gas solver on its actual turning curve, the thermally perfect solver on an
    arbitrary one, and the stagnation temperature of the air reference path. */
module WeakShock {

  import opened Arithmetic
  import opened Partial
  import opened ObliqueShock
  import opened WeakBranchSearch
  import opened TurningCurve
  import Nasa7

  const ROUNDING: real := 0.0000000000001
  const DEGREE_ROUNDING: real := 0.0000000001

  datatype Shock = Shock(search: Search, downstream: real, pressure: real, density: real, temperature: real)

  /** DividesByZero is the exception of the last quotient. */
  datatype Outcome = Solved(shock: Shock) | TooSteep(maximum: real) | Refused | DividesByZero(search: Search)

  /** asin(1 / mach). */
  predicate MachAngle(k: Trig, mach: real, angle: real) { 0.0 < angle < k.quarter && k.sin(angle) * mach == 1.0 }

  // ---------- the Mach angle ----------

  lemma TangentAt(k: Trig, x: real)
    requires Sound(k) && 0.0 < x < k.quarter
    ensures k.tan(x) > 0.0 && Squared(k.sin(x)) * (1.0 + Squared(k.tan(x))) == Squared(k.tan(x))
  {
    assert SoundAt(k, x);
    TangentSquared(k.sin(x), k.cos(x), k.tan(x));
  }

  /** m s^2 - 1 and (m - 1) t^2 - 1 have the same sign. */
  lemma NormalAgainstRise(m: real, s2: real, z: real)
    requires z > 0.0 && s2 * (1.0 + z) == z
    ensures (m * s2 - 1.0) * (1.0 + z) == Rise(m - 1.0, z)
  {
    assert m * s2 * (1.0 + z) == m * z by { assert m * s2 * (1.0 + z) == m * (s2 * (1.0 + z)); }
  }

  lemma RiseAtMachAngle(k: Trig, mach: real, m: real, angle: real)
    requires Sound(k) && MachAngle(k, mach, angle) && m == Squared(mach)
    ensures m * Squared(k.sin(angle)) == 1.0
    ensures Rise(m - 1.0, Squared(k.tan(angle))) == 0.0
  {
    var s := k.sin(angle);
    TangentAt(k, angle);
    SquarePositive(k.tan(angle));
    SquaredIs(s);
    hide *;
    SquaredIs(mach);
    MachAngleIs(k, mach, angle);
    assert m * (s * s) == (s * mach) * (s * mach);
    NormalAgainstRise(m, Squared(s), Squared(k.tan(angle)));
  }

  lemma MachAngleIs(k: Trig, mach: real, angle: real)
    requires MachAngle(k, mach, angle)
    ensures k.sin(angle) * mach == 1.0 && 0.0 < angle < k.quarter
  {
  }

  /** A supersonic flow has a Mach angle. */
  lemma MachAngleExists(k: Trig, mach: real)
    requires Sound(k) && mach > 1.0
    ensures exists angle :: MachAngle(k, mach, angle)
  {
    var m := Squared(mach);
    MachSquared(mach, m);
    OverFacts(1.0, m - 1.0);
    var z := Over(1.0, m - 1.0);
    hide Over;
    assert RootAt(k, z);
    assert IsTangent(k, k.sqrt(z));
    var angle :| 0.0 < angle < k.quarter && k.tan(angle) == k.sqrt(z);
    assert SoundAt(k, angle);
    TangentAt(k, angle);
    SineAtRoot(k.sin(angle), mach, z);
    assert MachAngle(k, mach, angle);
  }

  lemma SineAtRoot(s: real, mach: real, z: real)
    requires s > 0.0 && mach > 1.0 && Squared(s) * (1.0 + z) == z && z * (Squared(mach) - 1.0) == 1.0
    ensures s * mach == 1.0
  {
    SquaredIs(s);
    SquaredIs(mach);
    hide *;
    var x, y, m := s * mach, s * s, mach * mach;
    assert x * x == y * m;
    assert y * m == 1.0 by { assert y * (1.0 + z) * (m - 1.0) == y * (m - 1.0) + y * (z * (m - 1.0)); }
    PositiveProduct(s, mach, x);
    UnitRoot(x);
  }

  lemma UnitRoot(x: real)
    requires x > 0.0 && x * x == 1.0
    ensures x == 1.0
  {
    assert x * (x + 1.0) == x * x + x;
    CancelRight(x, 1.0, x + 1.0);
  }

  lemma RiseGrows(a: real, z: real, z2: real)
    requires a > 0.0 && z < z2
    ensures Rise(a, z) < Rise(a, z2)
  {
    Positive(a, z2 - z);
  }

  /** The squared Mach number of the component normal to the shock. */
  function NormalSquared(k: Trig, mach: real, beta: real): real { Squared(mach) * Squared(k.sin(beta)) }

  /** Any angle above the Mach angle has a supersonic normal component, so the closed-form ratios apply. */
  lemma NormalIsSupersonic(k: Trig, mach: real, m: real, angle: real, beta: real)
    requires Sound(k) && MachAngle(k, mach, angle) && m == Squared(mach) && m > 1.0 && angle < beta < k.quarter
    ensures NormalSquared(k, mach, beta) > 1.0
  {
    RiseAtMachAngle(k, mach, m, angle);
    MachAngleIs(k, mach, angle);
    TangentAt(k, angle);
    TangentAt(k, beta);
    assert k.tan(angle) < k.tan(beta);
    var z, z2, s2 := Squared(k.tan(angle)), Squared(k.tan(beta)), Squared(k.sin(beta));
    SquaresBetween(k.tan(angle), k.tan(beta));
    SquarePositive(k.tan(beta));
    assert NormalSquared(k, mach, beta) == m * s2;
    hide *;
    NormalAboveOne(m, z, z2, s2);
  }

  lemma NormalAboveOne(m: real, z: real, z2: real, s2: real)
    requires m > 1.0 && Rise(m - 1.0, z) == 0.0 && 0.0 < z < z2 && s2 * (1.0 + z2) == z2
    ensures m * s2 > 1.0
  {
    hide *;
    RiseGrows(m - 1.0, z, z2);
    NormalAgainstRise(m, s2, z2);
    var d, k, x := m * s2 - 1.0, 1.0 + z2, Rise(m - 1.0, z2);
    SignOfProduct(d, k, x, 1.0);
  }

  /** The peak lies above the Mach angle, because the diagonal is still positive there. */
  lemma PeakAboveMachAngle(k: Trig, mach: real, m: real, g: real, angle: real, bm: real)
    requires Sound(k) && MachAngle(k, mach, angle) && m == Squared(mach) && m > 1.0 && g > 1.0 && PeakAngle(k, m, g, bm)
    ensures angle < bm
  {
    RiseAtMachAngle(k, mach, m, angle);
    TangentAt(k, angle);
    TangentAt(k, bm);
    TangentsOrdered(k, angle, bm);
    assert Diagonal(m - 1.0, LowFactor(m, g), HighFactor(m, g), Squared(k.tan(bm))) == 0.0;
    hide *;
    MachAngleIs(k, mach, angle);
    var z, zm := Squared(k.tan(angle)), Squared(k.tan(bm));
    CoefficientsPositive(m, g);
    SquarePositive(k.tan(angle));
    SquarePositive(k.tan(bm));
    DiagonalAtMachAngle(m - 1.0, LowFactor(m, g), HighFactor(m, g), z);
    DiagonalSign(m - 1.0, LowFactor(m, g), HighFactor(m, g), z, zm);
  }

  /** Squared tangents are ordered as the angles are. */
  lemma TangentsOrdered(k: Trig, x: real, y: real)
    requires Sound(k) && 0.0 < x < k.quarter && 0.0 < y < k.quarter
    ensures y <= x ==> Squared(k.tan(y)) <= Squared(k.tan(x))
  {
    TangentAt(k, x);
    TangentAt(k, y);
    SquaresBetween(k.tan(y), k.tan(x));
  }

  lemma DiagonalAtMachAngle(a: real, p: real, q: real, z: real)
    requires a > 0.0 && p > 0.0 && q > 0.0 && z > 0.0 && Rise(a, z) == 0.0
    ensures Diagonal(a, p, q, z) > 0.0
  {
    assert a * z * z == z;
    assert q * (z + z + z - a * z * z) == 2.0 * (q * z);
    Positive(q, z);
  }

  lemma MachSquared(mach: real, m: real)
    requires mach > 1.0 && m == Squared(mach)
    ensures m > 1.0
  {
    Positive(mach - 1.0, mach + 1.0);
  }

  /** Nothing is turned at the Mach angle. */
  lemma TurningStartsAtZero(k: Trig, mach: real, m: real, g: real, angle: real)
    requires Sound(k) && k.atan(0.0) == 0.0 && MachAngle(k, mach, angle) && m == Squared(mach) && m > 1.0 && g > 1.0
    ensures Turning(k, m, g, angle) == Ok(0.0)
  {
    TurningIs(k, m, g, angle);
    RiseAtMachAngle(k, mach, m, angle);
    var t := k.tan(angle);
    SlopeIs(m, g, t);
    ZeroQuotient(2.0 * Rise(m - 1.0, Squared(t)), Base(LowFactor(m, g), HighFactor(m, g), t, Squared(t)));
    hide Slope, Turning, Sound;
  }

  lemma ZeroQuotient(n: real, d: real)
    requires n == 0.0 && d > 0.0
    ensures Over(n, d) == 0.0
  {
  }

  lemma TurningEvaluates(k: Trig, m: real, g: real, angle: real)
    requires Sound(k) && m > 1.0 && g > 1.0 && 0.0 < angle
    ensures Evaluates(TurningAt(k, m, g), angle, k.quarter)
  {
    forall x | angle < x < k.quarter ensures TurningAt(k, m, g)(x).Ok? {
      TurningIs(k, m, g, x);
    }
  }

  // ---------- the perfect-gas solver ----------

  /** There is a peak, and the maximum found is within half the final ternary width of it. */
  ghost predicate NearPeak(k: Trig, m: real, g: real, angle: real, maximum: real, ascents: nat) {
    && (exists bm :: PeakAngle(k, m, g, bm))
    && forall bm :: PeakAngle(k, m, g, bm) ==>
      -TwoThirds(k.quarter - angle, ascents) / 2.0 <= maximum - bm <= TwoThirds(k.quarter - angle, ascents) / 2.0
  }

  /** Every attached weak shock that turns the flow by exactly target has its angle between the two ends. */
  ghost predicate ExactAnglesBetween(k: Trig, m: real, g: real, angle: real, target: real, s: Search)
    requires s.Angle?
  {
    forall bm, x :: PeakAngle(k, m, g, bm) && angle <= x <= bm && x <= s.maximum && Turning(k, m, g, x) == Ok(target)
                    ==> s.lower <= x <= s.upper
  }

  lemma PeaksTransfer(k: Trig, mach: real, m: real, g: real, angle: real, bm: real)
    requires Sound(k) && MachAngle(k, mach, angle) && m == Squared(mach) && m > 1.0 && g > 1.0 && PeakAngle(k, m, g, bm)
    ensures PeakAt(TurningAt(k, m, g), bm, angle, k.quarter)
  {
    PeakAboveMachAngle(k, mach, m, g, angle, bm);
    TurningIsUnimodal(k, m, g, angle, bm);
  }

  /** The search result in the terms of the perfect gas. */
  lemma SearchFacts(k: Trig, mach: real, m: real, g: real, angle: real, target: real, s: Search, ascents: nat)
    requires Sound(k) && MachAngle(k, mach, angle) && m == Squared(mach) && m > 1.0 && g > 1.0 && !s.Raised?
    requires forall p :: PeakAt(TurningAt(k, m, g), p, angle, k.quarter) ==>
               -TwoThirds(k.quarter - angle, ascents) / 2.0 <= s.maximum - p <= TwoThirds(k.quarter - angle, ascents) / 2.0
    ensures NearPeak(k, m, g, angle, s.maximum, ascents)
    ensures s.Angle? && WeakSolutionsBetween(TurningAt(k, m, g), target, angle, k.quarter, s.maximum, s.lower, s.upper)
            ==> ExactAnglesBetween(k, m, g, angle, target, s)
  {
    hide *;
    forall bm | PeakAngle(k, m, g, bm) ensures PeakAt(TurningAt(k, m, g), bm, angle, k.quarter) {
      PeaksTransfer(k, mach, m, g, angle, bm);
    }
    PeakExists(k, m, g);
    NearPeakFrom(k, m, g, angle, s.maximum, ascents);
    if s.Angle? && WeakSolutionsBetween(TurningAt(k, m, g), target, angle, k.quarter, s.maximum, s.lower, s.upper) {
      AnglesFrom(k, m, g, angle, target, s);
    }
  }

  lemma NearPeakFrom(k: Trig, m: real, g: real, angle: real, maximum: real, ascents: nat)
    requires exists bm :: PeakAngle(k, m, g, bm)
    requires forall bm :: PeakAngle(k, m, g, bm) ==> PeakAt(TurningAt(k, m, g), bm, angle, k.quarter)
    requires forall p :: PeakAt(TurningAt(k, m, g), p, angle, k.quarter) ==>
               -TwoThirds(k.quarter - angle, ascents) / 2.0 <= maximum - p <= TwoThirds(k.quarter - angle, ascents) / 2.0
    ensures NearPeak(k, m, g, angle, maximum, ascents)
  {
    hide PeakAt, PeakAngle, TurningAt, TwoThirds;
  }

  lemma AnglesFrom(k: Trig, m: real, g: real, angle: real, target: real, s: Search)
    requires s.Angle? && WeakSolutionsBetween(TurningAt(k, m, g), target, angle, k.quarter, s.maximum, s.lower, s.upper)
    requires forall bm :: PeakAngle(k, m, g, bm) ==> PeakAt(TurningAt(k, m, g), bm, angle, k.quarter)
    ensures ExactAnglesBetween(k, m, g, angle, target, s)
  {
    hide PeakAt, PeakAngle, Turning;
    forall bm, x | PeakAngle(k, m, g, bm) && angle <= x <= bm && x <= s.maximum && Turning(k, m, g, x) == Ok(target)
      ensures s.lower <= x <= s.upper
    {
      assert WeakSolution(TurningAt(k, m, g), target, angle, bm, s.maximum, x);
    }
  }

  /** What the two searches guarantee of the angle they settle on. */
  ghost predicate Located(k: Trig, mach: real, g: real, angle: real, target: real, s: Search) {
    var m := Squared(mach);
    && s.Angle? && NearPeak(k, m, g, angle, s.maximum, 100)
    && angle <= s.lower < s.upper <= s.maximum < k.quarter
    && s.beta == (s.lower + s.upper) / 2.0 && s.upper - s.lower == Halved(s.maximum - angle, 100)
    && Turning(k, m, g, s.maximum).Ok? && target <= Turning(k, m, g, s.maximum).value + 0.0000000000001
    && (target <= Turning(k, m, g, s.maximum).value ==>
          ExactAnglesBetween(k, m, g, angle, target, s) && Straddles(k, m, g, target, s) && target < s.upper)
  }

  /** The static ratios are those of the normal component. */
  predicate ClosedForm(k: Trig, mach: real, g: real, s: Shock) {
    s.search.Angle? &&
    var n := NormalSquared(k, mach, s.search.beta);
    && Regime(g, n) && s.pressure == PressureRatio(g, n) && s.density == DensityRatio(g, n) && s.temperature == TemperatureRatio(g, n)
  }

  /** The downstream Mach number has the closed-form component normal to the shock, and is positive when the shock is steeper
      than the deflection. */
  predicate DownstreamAgrees(k: Trig, mach: real, target: real, g: real, s: Shock) {
    s.search.Angle? && Regime(g, NormalSquared(k, mach, s.search.beta)) &&
    var sine := k.sin(s.search.beta - target);
    && Squared(Times(s.downstream, sine)) == DownstreamNormalSquared(g, NormalSquared(k, mach, s.search.beta))
    && (target < s.search.beta ==> s.downstream > 0.0)
  }

  /** The state behind a shock at the angle found. */
  method AcrossShock(k: Trig, mach: real, target: real, g: real, s: Search) returns (r: Outcome)
    requires Sound(k) && 0.0 <= target && s.Angle? && s.beta < k.quarter && Regime(g, NormalSquared(k, mach, s.beta))
    ensures r.DividesByZero? || r.Solved?
    ensures r.DividesByZero? ==> r.search == s && k.sin(s.beta - target) == 0.0 && s.beta <= target
    ensures r.Solved? ==> r.shock.search == s && ClosedForm(k, mach, g, r.shock) && DownstreamAgrees(k, mach, target, g, r.shock)
  {
    var n := NormalSquared(k, mach, s.beta);
    var sine := k.sin(s.beta - target);
    SineFacts(k, target, s.beta);
    hide Sound, NormalSquared;
    if sine == 0.0 {
      return DividesByZero(s);
    }
    DownstreamFacts(k, g, n, sine);
    hide Over, Regime, DownstreamNormalSquared, PressureRatio, DensityRatio, TemperatureRatio, Squared;
    r := Solved(Shock(s, Over(k.sqrt(DownstreamNormalSquared(g, n)), sine), PressureRatio(g, n), DensityRatio(g, n), TemperatureRatio(g, n)));
  }

  /** `weak_oblique_shock`, angles in radians. For a sound trigonometry it raises only on the guarded inputs, or when the shock
      angle found does not exceed the deflection. The downstream Mach number has the normal component of the closed form. */
  method WeakObliqueShock(k: Trig, mach: real, target: real, g: real, angle: real) returns (r: Outcome)
    requires Sound(k) && k.atan(0.0) == 0.0 && (mach > 1.0 ==> MachAngle(k, mach, angle))
    ensures r.Refused? <==> mach <= 1.0 || g <= 1.0 || target < 0.0 || target >= k.quarter
    ensures r.TooSteep? ==> Turning(k, Squared(mach), g, r.maximum).Ok? && target > Turning(k, Squared(mach), g, r.maximum).value + 0.0000000000001
    ensures r.TooSteep? ==> NearPeak(k, Squared(mach), g, angle, r.maximum, 100)
    ensures r.DividesByZero? ==> Located(k, mach, g, angle, target, r.search) && k.sin(r.search.beta - target) == 0.0 && r.search.beta <= target
    ensures r.Solved? ==> Located(k, mach, g, angle, target, r.shock.search)
    ensures r.Solved? ==> ClosedForm(k, mach, g, r.shock) && DownstreamAgrees(k, mach, target, g, r.shock)
  {
    if mach <= 1.0 || g <= 1.0 || target < 0.0 || target >= k.quarter {
      return Refused;
    }
    var m := Squared(mach);
    var s := WeakBranch(TurningAt(k, m, g), angle, k.quarter, target, ROUNDING, 100, 100);
    hide *;
    MachSquared(mach, m);
    MachAngleIs(k, mach, angle);
    TurningEvaluates(k, m, g, angle);
    SearchFacts(k, mach, m, g, angle, target, s, 100);
    CurveIs(k, m, g, s.maximum);
    if s.Detached? {
      return TooSteep(s.maximum);
    }
    AngleFacts(k, mach, m, g, target, angle, s);
    r := AcrossShock(k, mach, target, g, s);
  }

  lemma SineFacts(k: Trig, target: real, beta: real)
    requires Sound(k) && 0.0 <= target && beta < k.quarter
    ensures target < beta ==> k.sin(beta - target) > 0.0
  {
    if target < beta {
      assert SoundAt(k, beta - target);
    }
  }

  lemma DownstreamFacts(k: Trig, g: real, n: real, sine: real)
    requires Sound(k) && Regime(g, n) && sine != 0.0
    ensures var w := DownstreamNormalSquared(g, n);
            Squared(Times(Over(k.sqrt(w), sine), sine)) == w && (sine > 0.0 ==> Over(k.sqrt(w), sine) > 0.0)
  {
    DensityPositive(g, n);
    var w := DownstreamNormalSquared(g, n);
    hide DownstreamNormalSquared, Over, Squared;
    assert RootAt(k, w);
    OverFacts(k.sqrt(w), sine);
  }

  lemma AngleFacts(k: Trig, mach: real, m: real, g: real, target: real, angle: real, s: Search)
    requires Sound(k) && k.atan(0.0) == 0.0 && MachAngle(k, mach, angle) && m == Squared(mach) && m > 1.0 && g > 1.0 && target >= 0.0
    requires s.Angle? && angle < s.maximum < k.quarter && Brackets(TurningAt(k, m, g), target, angle, s.maximum, s.lower, s.upper)
    requires s.upper - s.lower == Halved(s.maximum - angle, 100) && s.beta == (s.lower + s.upper) / 2.0
    requires Turning(k, m, g, s.maximum).Ok? && target <= Turning(k, m, g, s.maximum).value + ROUNDING && NearPeak(k, m, g, angle, s.maximum, 100)
    requires target <= Turning(k, m, g, s.maximum).value ==> ExactAnglesBetween(k, m, g, angle, target, s)
    ensures Located(k, mach, g, angle, target, s)
    ensures s.beta < k.quarter && Regime(g, NormalSquared(k, mach, s.beta))
  {
    hide *;
    MachAngleIs(k, mach, angle);
    SolvedFacts(k, mach, m, g, target, angle, s);
    LocatedFrom(k, mach, m, g, angle, target, s);
  }

  lemma LocatedFrom(k: Trig, mach: real, m: real, g: real, angle: real, target: real, s: Search)
    requires Sound(k) && m == Squared(mach) && m > 1.0 && g > 1.0 && 0.0 < angle
    requires s.Angle? && NearPeak(k, m, g, angle, s.maximum, 100) && angle <= s.lower < s.upper <= s.maximum < k.quarter
    requires s.beta == (s.lower + s.upper) / 2.0 && s.upper - s.lower == Halved(s.maximum - angle, 100)
    requires Turning(k, m, g, s.maximum).Ok? && target <= Turning(k, m, g, s.maximum).value + ROUNDING
    requires target <= Turning(k, m, g, s.maximum).value ==>
               ExactAnglesBetween(k, m, g, angle, target, s) && Straddles(k, m, g, target, s)
    ensures Located(k, mach, g, angle, target, s)
  {
    TurningBelowAngle(k, m, g, s.upper);
    hide NearPeak, Turning, ExactAnglesBetween, Halved, Sound;
  }

  lemma SolvedFacts(k: Trig, mach: real, m: real, g: real, target: real, angle: real, s: Search)
    requires Sound(k) && k.atan(0.0) == 0.0 && MachAngle(k, mach, angle) && m == Squared(mach) && m > 1.0 && g > 1.0 && target >= 0.0
    requires s.Angle? && angle < s.maximum < k.quarter && Brackets(TurningAt(k, m, g), target, angle, s.maximum, s.lower, s.upper)
    requires s.upper - s.lower == Halved(s.maximum - angle, 100) && s.beta == (s.lower + s.upper) / 2.0
    requires Turning(k, m, g, s.maximum).Ok?
    ensures angle <= s.lower < s.upper <= s.maximum
    ensures target <= Turning(k, m, g, s.maximum).value ==> Straddles(k, m, g, target, s)
    ensures Regime(g, NormalSquared(k, mach, s.beta))
  {
    hide *;
    BracketFacts(k, m, g, target, angle, s);
    HalvedPositive(s.maximum - angle, 100);
    TurningStartsAtZero(k, mach, m, g, angle);
    StraddleFacts(k, m, g, target, angle, s);
    NormalIsSupersonic(k, mach, m, angle, s.beta);
    RegimeIs(g, NormalSquared(k, mach, s.beta));
  }

  predicate Straddles(k: Trig, m: real, g: real, target: real, s: Search)
    requires s.Angle?
  {
    && Turning(k, m, g, s.lower).Ok? && Turning(k, m, g, s.upper).Ok?
    && Turning(k, m, g, s.lower).value <= target <= Turning(k, m, g, s.upper).value
  }

  lemma CurveIs(k: Trig, m: real, g: real, x: real)
    ensures TurningAt(k, m, g)(x) == Turning(k, m, g, x)
  {
    hide Turning;
  }

  lemma RegimeIs(g: real, n: real)
    requires g > 1.0 && n > 1.0
    ensures Regime(g, n)
  {
  }

  lemma {:induction false} HalvedPositive(w: real, n: nat)
    requires w > 0.0
    ensures Halved(w, n) > 0.0
  {
    if n > 0 { HalvedPositive(w, n - 1); }
  }

  lemma BracketFacts(k: Trig, m: real, g: real, target: real, angle: real, s: Search)
    requires s.Angle? && Brackets(TurningAt(k, m, g), target, angle, s.maximum, s.lower, s.upper)
    ensures angle <= s.lower <= s.upper <= s.maximum
  {
  }

  lemma StraddleFacts(k: Trig, m: real, g: real, target: real, angle: real, s: Search)
    requires s.Angle? && Brackets(TurningAt(k, m, g), target, angle, s.maximum, s.lower, s.upper)
    requires Turning(k, m, g, angle) == Ok(0.0) && target >= 0.0
    requires Turning(k, m, g, s.maximum).Ok?
    ensures target <= Turning(k, m, g, s.maximum).value ==> Straddles(k, m, g, target, s)
  {
    hide Turning;
    if target <= Turning(k, m, g, s.maximum).value {
      EndsStraddle(TurningAt(k, m, g), target, angle, s.maximum, s.lower, s.upper);
    }
  }

  // ---------- the other two users of the searches ----------

  /** `weak_thermally_perfect_shock`, in degrees, over any deflection curve: a zero deflection is the Mach wave itself. */
  method WeakThermallyPerfect(f: Curve, mach: real, deflection: real, angle: real, top: real) returns (r: Search)
    requires angle < top
    ensures mach <= 1.0 || deflection < 0.0 || deflection >= 90.0 ==> r.Raised?
    ensures r.Raised? && mach > 1.0 && 0.0 < deflection < 90.0 ==> !Evaluates(f, angle, top)
    ensures mach > 1.0 && deflection == 0.0 ==> r == if f(angle).Ok? then Angle(angle, angle, angle, angle) else Raised
    ensures deflection != 0.0 && !r.Raised? ==> f(r.maximum).Ok? && (r.Detached? <==> deflection > f(r.maximum).value + 0.0000000001)
    ensures deflection != 0.0 && !r.Raised? ==> forall m :: PeakAt(f, m, angle, top) ==>
              -TwoThirds(top - angle, 60) / 2.0 <= r.maximum - m <= TwoThirds(top - angle, 60) / 2.0
    ensures deflection != 0.0 && r.Angle? ==>
              && Brackets(f, deflection, angle, r.maximum, r.lower, r.upper) && r.upper - r.lower == Halved(r.maximum - angle, 70)
              && (deflection <= f(r.maximum).value ==> WeakSolutionsBetween(f, deflection, angle, top, r.maximum, r.lower, r.upper))
  {
    assert DEGREE_ROUNDING == 0.0000000001;
    hide *;
    if mach <= 1.0 || deflection < 0.0 || deflection >= 90.0 {
      return Raised;
    }
    if deflection == 0.0 {
      return if f(angle).Ok? then Angle(angle, angle, angle, angle) else Raised;
    }
    r := WeakBranch(f, angle, top, deflection, DEGREE_ROUNDING, 60, 70);
  }

  function EnthalpyCurve(c: Nasa7.Calorics): Curve
    requires Nasa7.Valid(c)
  {
    t => Nasa7.EnthalpyRatio(c, t)
  }

  /** The stagnation temperature of the air reference path; kinetic is speed^2 / (2 R). The ends straddle the target enthalpy
      whatever the shape of the enthalpy curve. */
  method StagnationTemperature(c: Nasa7.Calorics, reference: real, kinetic: real) returns (r: Result<(real, real)>)
    requires Nasa7.Valid(c) && kinetic >= 0.0
    ensures r.Ok? <==> Nasa7.InRange(c, reference)
                       && Nasa7.EnthalpyRatio(c, reference).value + kinetic <= Nasa7.EnthalpyRatio(c, c.maximum).value
    ensures r.Ok? ==> reference <= r.value.0 <= r.value.1 <= c.maximum && r.value.1 - r.value.0 == Halved(c.maximum - reference, 80)
    ensures r.Ok? ==> var target := Nasa7.EnthalpyRatio(c, reference).value + kinetic;
              Nasa7.EnthalpyRatio(c, r.value.0).value <= target <= Nasa7.EnthalpyRatio(c, r.value.1).value
  {
    hide Nasa7.EnthalpyOf, Halved;
    var start := Nasa7.EnthalpyRatio(c, reference);
    if start.Err? {
      return Err;
    }
    var target := start.value + kinetic;
    if target > Nasa7.EnthalpyRatio(c, c.maximum).value {
      return Err;
    }
    r := Bisect(EnthalpyCurve(c), target, reference, c.maximum, 80);
    if r.Ok? {
      EndsStraddle(EnthalpyCurve(c), target, reference, c.maximum, r.value.0, r.value.1);
    }
  }
}

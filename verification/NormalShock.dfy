/** The normal shock of a gas with temperature-dependent heat capacity: bracket, bisection and jump conditions over exact reals. */
module NormalShock {

  import opened Arithmetic
  import opened ObliqueShock
  import opened Partial

  /** Enthalpy change from the upstream temperature; Err outside the material's range. */
  type EnthalpyChange = real -> Result<real>

  /** Upstream state: gas constant, heat capacity at the upstream temperature, temperature and normal Mach number. */
  datatype Upstream = Upstream(gasConstant: real, heatCapacity: real, temperature: real, mach: real)

  predicate Supersonic(u: Upstream) {
    0.0 < u.gasConstant < u.heatCapacity && u.temperature > 0.0 && u.mach > 1.0
  }

  function Gamma(u: Upstream): real
    requires Supersonic(u)
  {
    u.heatCapacity / (u.heatCapacity - u.gasConstant)
  }

  function MachSquare(u: Upstream): real { u.mach * u.mach }

  lemma MachSquareAbove(u: Upstream)
    requires Supersonic(u)
    ensures MachSquare(u) > 1.0
  {
    MulOrder(1.0, u.mach, u.mach);
  }

  function VelocitySquared(u: Upstream): real
    requires Supersonic(u)
  {
    MachSquare(u) * Gamma(u) * u.gasConstant * u.temperature
  }

  /** theta = velocity^2 / R, in kelvin. */
  function ThermalVelocity(u: Upstream): real
    requires Supersonic(u)
  {
    VelocitySquared(u) / u.gasConstant
  }

  function MaximumCompression(u: Upstream): real
    requires Supersonic(u)
  {
    ThermalVelocity(u) / u.temperature
  }

  function Numerator(t: real, theta: real, c: real): real { (c - 1.0) * (theta - t * c) }

  /** The downstream temperature, guarded where the formula must return the upstream one; the division by c^2 is two divisions. */
  function DownstreamAt(t: real, theta: real, maximum: real, c: real): real
    requires c > 0.0
  {
    if c == 1.0 || c == maximum then t else t + Over(Over(Numerator(t, theta, c), c), c)
  }

  function Downstream(u: Upstream, c: real): real
    requires Supersonic(u) && c > 0.0
  {
    DownstreamAt(u.temperature, ThermalVelocity(u), MaximumCompression(u), c)
  }

  /** Mean heat capacity between the two temperatures. */
  function AverageCp(u: Upstream, h: EnthalpyChange, changed: real): Result<real> {
    if changed == u.temperature then Ok(u.heatCapacity)
    else match h(changed)
         case Err => Err
         case Ok(dh) => Ok(Over(dh, changed - u.temperature))
  }

  function ResidualFormula(averageCp: real, gap: real, velocitySquared: real, c: real): real {
    averageCp * gap - velocitySquared * (c + 1.0) / 2.0
  }

  function ResidualOf(u: Upstream, averageCp: real, c: real): real
    requires Supersonic(u)
  {
    ResidualFormula(averageCp, Gap(u, c), VelocitySquared(u), c)
  }

  function Gap(u: Upstream, c: real): real
    requires Supersonic(u)
  {
    ThermalVelocity(u) - u.temperature * c
  }

  function Residual(u: Upstream, h: EnthalpyChange, c: real): Result<real>
    requires Supersonic(u) && c > 0.0
  {
    match AverageCp(u, h, Downstream(u, c))
    case Err => Err
    case Ok(cp) => Ok(ResidualOf(u, cp, c))
  }

  function PressureRatio(u: Upstream, c: real): real
    requires Supersonic(u) && c > 0.0
  {
    1.0 + MaximumCompression(u) * (1.0 - 1.0 / c)
  }

  // ---------- arithmetic ----------

  lemma MulOrder(a: real, b: real, k: real)
    requires a < b && k > 0.0
    ensures a * k < b * k
  {
  }

  lemma QuotientIs(a: real, b: real, q: real)
    requires b != 0.0 && q * b == a
    ensures a / b == q
  {
    assert a / b - q == (a - q * b) / b;
  }

  lemma GammaFacts(u: Upstream)
    requires Supersonic(u)
    ensures Gamma(u) > 1.0 && Gamma(u) * (u.heatCapacity - u.gasConstant) == u.heatCapacity
  {
    QuotientAboveOne(u.heatCapacity, u.heatCapacity - u.gasConstant);
  }

  lemma QuotientAboveOne(a: real, b: real)
    requires 0.0 < b < a
    ensures a / b > 1.0 && a / b * b == a
  {
  }

  /** theta = M^2 gamma T, and the largest compression is M^2 gamma. */
  lemma ThermalVelocityIs(u: Upstream)
    requires Supersonic(u)
    ensures ThermalVelocity(u) == MachSquare(u) * Gamma(u) * u.temperature
    ensures MaximumCompression(u) == MachSquare(u) * Gamma(u)
    ensures VelocitySquared(u) == ThermalVelocity(u) * u.gasConstant
    ensures MaximumCompression(u) * u.temperature == ThermalVelocity(u)
    ensures MaximumCompression(u) > 1.0 && ThermalVelocity(u) > 0.0 && VelocitySquared(u) > 0.0
  {
    var k := MachSquare(u) * Gamma(u);
    assert VelocitySquared(u) == (k * u.temperature) * u.gasConstant;
    QuotientIs(VelocitySquared(u), u.gasConstant, k * u.temperature);
    QuotientIs(ThermalVelocity(u), u.temperature, k);
    GammaFacts(u);
    MachSquareAbove(u);
    MulOrder(1.0, MachSquare(u), Gamma(u));
    Positive(k, u.temperature);
    Positive(k * u.temperature, u.gasConstant);
  }

  /** The facts about the scale that the jump conditions need. */
  lemma ScaleFacts(u: Upstream)
    requires Supersonic(u)
    ensures VelocitySquared(u) == ThermalVelocity(u) * u.gasConstant
    ensures MaximumCompression(u) * u.temperature == ThermalVelocity(u)
  {
    ThermalVelocityIs(u);
  }

  // ---------- the bracket ----------

  /** The initial bracket holds for every supersonic upstream state: no shock is ever refused for lack of one. */
  lemma BracketHolds(u: Upstream, h: EnthalpyChange)
    requires Supersonic(u)
    ensures Residual(u, h, 1.0).Ok? && Residual(u, h, 1.0).value == u.heatCapacity * u.temperature * (MachSquare(u) - 1.0)
    ensures Residual(u, h, 1.0).value > 0.0
    ensures MaximumCompression(u) > 1.0
    ensures Residual(u, h, MaximumCompression(u)).Ok? && Residual(u, h, MaximumCompression(u)).value < 0.0
  {
    ThermalVelocityIs(u);
    GammaFacts(u);
    var m2, g, cp, r, t := MachSquare(u), Gamma(u), u.heatCapacity, u.gasConstant, u.temperature;
    assert ResidualOf(u, cp, 1.0) == ResidualFormula(cp, m2 * g * t - t * 1.0, m2 * g * t * r, 1.0);
    LowerResidual(m2, g, cp, r, t);
    MachSquareAbove(u);
    Positive(cp, t);
    Positive(cp * t, m2 - 1.0);
    var c := MaximumCompression(u);
    assert ThermalVelocity(u) - t * c == 0.0;
    assert cp * (ThermalVelocity(u) - t * c) == 0.0;
    Positive(VelocitySquared(u), c + 1.0);
  }

  lemma LowerResidual(m2: real, g: real, cp: real, r: real, t: real)
    requires g * (cp - r) == cp
    ensures cp * (m2 * g * t - t * 1.0) - m2 * g * t * r * (1.0 + 1.0) / 2.0 == cp * t * (m2 - 1.0)
  {
    var k := m2 * t;
    assert cp * (m2 * g * t - t * 1.0) == cp * g * k - cp * t;
    assert m2 * g * t * r * (1.0 + 1.0) / 2.0 == g * r * k;
    assert (g * (cp - r)) * k == cp * k;
    assert (g * (cp - r)) * k == cp * g * k - g * r * k;
    assert cp * t * (m2 - 1.0) == cp * k - cp * t;
  }

  /** Bisection on the residual: every step keeps the sign bracket and halves it; it stops early only when the downstream
      temperature leaves the material's range. */
  method BisectShock(u: Upstream, h: EnthalpyChange, steps: nat) returns (r: Result<(real, real)>)
    requires Supersonic(u)
    ensures (forall c :: 1.0 <= c <= MaximumCompression(u) ==> Residual(u, h, c).Ok?) ==> r.Ok?
    ensures r.Err? ==> exists c :: 1.0 <= c <= MaximumCompression(u) && Residual(u, h, c).Err?
    ensures r.Ok? ==> var (lower, upper) := r.value;
              && 1.0 <= lower < upper <= MaximumCompression(u)
              && upper - lower == Halved(MaximumCompression(u) - 1.0, steps)
              && Residual(u, h, lower).Ok? && Residual(u, h, lower).value > 0.0
              && Residual(u, h, upper).Ok? && Residual(u, h, upper).value <= 0.0
  {
    BracketHolds(u, h);
    hide Residual, MaximumCompression;
    var lower, upper := 1.0, MaximumCompression(u);
    for n := 0 to steps
      invariant 1.0 <= lower < upper <= MaximumCompression(u)
      invariant upper - lower == Halved(MaximumCompression(u) - 1.0, n)
      invariant Residual(u, h, lower).Ok? && Residual(u, h, lower).value > 0.0
      invariant Residual(u, h, upper).Ok? && Residual(u, h, upper).value <= 0.0
    {
      var middle := (lower + upper) / 2.0;
      var value := Residual(u, h, middle);
      if value.Err? {
        return Err;
      }
      if value.value > 0.0 {
        lower := middle;
      } else {
        upper := middle;
      }
    }
    r := Ok((lower, upper));
  }

  // ---------- jump conditions ----------

  /** The guarded cases of the downstream temperature agree with the formula. */
  lemma DownstreamIs(u: Upstream, c: real)
    requires Supersonic(u) && c > 0.0
    ensures (Downstream(u, c) - u.temperature) * (c * c) == (c - 1.0) * Gap(u, c)
    ensures Downstream(u, c) == u.temperature <==> c == 1.0 || c == MaximumCompression(u)
  {
    hide ThermalVelocity, VelocitySquared, MaximumCompression, Gamma, DownstreamAt;
    ScaleFacts(u);
    DownstreamAlgebra(u.temperature, ThermalVelocity(u), MaximumCompression(u), c);
  }

  lemma DownstreamAlgebra(t: real, theta: real, k: real, c: real)
    requires t > 0.0 && c > 0.0 && k * t == theta
    ensures (DownstreamAt(t, theta, k, c) - t) * (c * c) == (c - 1.0) * (theta - t * c)
    ensures DownstreamAt(t, theta, k, c) == t <==> c == 1.0 || c == k
  {
    GapFactors(t, theta, k, c);
    if c != 1.0 && c != k {
      NonzeroProduct(c - 1.0, theta - t * c);
      assert Numerator(t, theta, c) != 0.0;
      hide Over, Numerator;
      var q := Over(Numerator(t, theta, c), c);
      OverFacts(Numerator(t, theta, c), c);
      OverFacts(q, c);
      AfterAddition(DownstreamAt(t, theta, k, c), t, Over(q, c), c, q, Numerator(t, theta, c));
      NumeratorIs(t, theta, c);
    }
  }

  lemma NumeratorIs(t: real, theta: real, c: real)
    ensures Numerator(t, theta, c) == (c - 1.0) * (theta - t * c)
  {
  }

  lemma AfterAddition(d: real, t: real, p: real, c: real, q: real, num: real)
    requires d == t + p && p * c == q && q * c == num
    ensures (d - t) * (c * c) == num
  {
    assert (d - t) * (c * c) == (p * c) * c;
  }

  lemma GapFactors(t: real, theta: real, k: real, c: real)
    requires t > 0.0 && k * t == theta
    ensures theta - t * c == 0.0 <==> c == k
  {
    assert theta - t * c == (k - c) * t;
    if c != k {
      NonzeroProduct(k - c, t);
    }
  }

  lemma TimesBack(a: real, b: real)
    requires b != 0.0
    ensures a / b * b == a
  {
  }

  /** Density rho, speed v, pressure p and temperature T on each side of a stationary normal shock. */
  datatype Side = Side(density: real, speed: real, pressure: real, temperature: real)

  predicate MassConserved(a: Side, b: Side) { a.density * a.speed == b.density * b.speed }

  predicate MomentumConserved(a: Side, b: Side) {
    a.pressure + a.density * a.speed * a.speed == b.pressure + b.density * b.speed * b.speed
  }

  predicate IdealGas(r: real, a: Side) { a.pressure == a.density * r * a.temperature }

  /** The downstream side the solver reports for a compression c. */
  function After(u: Upstream, a: Side, c: real): Side
    requires Supersonic(u) && c > 0.0
  {
    Side(a.density * c, a.speed / c, a.pressure * PressureRatio(u, c), Downstream(u, c))
  }

  /** For every compression, mass and momentum are conserved and the downstream side is an ideal gas. */
  lemma MassAndMomentumJump(u: Upstream, a: Side, c: real)
    requires Supersonic(u) && c > 0.0
    requires a.density > 0.0 && a.speed * a.speed == VelocitySquared(u) && a.temperature == u.temperature && IdealGas(u.gasConstant, a)
    ensures MassConserved(a, After(u, a, c))
    ensures MomentumConserved(a, After(u, a, c))
    ensures IdealGas(u.gasConstant, After(u, a, c))
  {
    hide Downstream, ThermalVelocity, VelocitySquared, MaximumCompression, Gamma;
    ScaleFacts(u);
    DownstreamIs(u, c);
    JumpAlgebra(a.density, a.speed, a.pressure, MaximumCompression(u), u.gasConstant, ThermalVelocity(u), u.temperature, c, Downstream(u, c));
  }

  lemma JumpAlgebra(rho: real, v: real, p: real, k: real, r: real, theta: real, t: real, c: real, t2: real)
    requires c > 0.0 && v * v == theta * r && p == rho * r * t && k * t == theta && (t2 - t) * (c * c) == (c - 1.0) * (theta - t * c)
    ensures rho * v == (rho * c) * (v / c)
    ensures p + rho * v * v == p * (1.0 + k * (1.0 - 1.0 / c)) + (rho * c) * (v / c) * (v / c)
    ensures p * (1.0 + k * (1.0 - 1.0 / c)) == (rho * c) * r * t2
  {
    var w, q := v / c, 1.0 / c;
    TimesBack(v, c);
    TimesBack(1.0, c);
    assert (rho * c) * w == rho * (w * c);
    assert p * k == rho * r * theta by {
      assert (rho * r * t) * k == rho * r * (k * t);
    }
    MomentumAlgebra(rho, v, w, c, q, p, k, r, theta);
    GasAlgebra(rho, r, t, theta, k, c, q, t2, p);
  }

  lemma MomentumAlgebra(rho: real, v: real, w: real, c: real, q: real, p: real, k: real, r: real, theta: real)
    requires c > 0.0 && w * c == v && q * c == 1.0 && v * v == theta * r && p * k == rho * r * theta
    ensures p + rho * v * v == p * (1.0 + k * (1.0 - q)) + (rho * c) * w * w
  {
    assert rho * v * v == p * k by { assert rho * (v * v) == rho * (theta * r); }
    assert (rho * c) * w * w == rho * ((w * c) * w);
    assert v * w == q * (v * v) by {
      assert (v * w) * c == v * v;
      assert v * w == (v * w) * (q * c);
      assert (v * w) * (q * c) == ((v * w) * c) * q;
    }
    assert rho * (v * w) == (rho * v * v) * q by { assert rho * (q * (v * v)) == (rho * v * v) * q; }
    assert p * (1.0 + k * (1.0 - q)) == p + p * k - (p * k) * q;
  }

  lemma GasAlgebra(rho: real, r: real, t: real, theta: real, k: real, c: real, q: real, t2: real, p: real)
    requires c > 0.0 && q * c == 1.0 && p == rho * r * t && k * t == theta && (t2 - t) * (c * c) == (c - 1.0) * (theta - t * c)
    ensures p * (1.0 + k * (1.0 - q)) == (rho * c) * r * t2
  {
    // t2 c = t + theta (1 - 1/c)
    var x, y := t2 * c, t + theta * (1.0 - q);
    assert x * c == t * (c * c) + (c - 1.0) * (theta - t * c);
    assert t * (c * c) + (c - 1.0) * (theta - t * c) == t * c + theta * (c - 1.0);
    assert y * c == t * c + theta * (c - q * c) by { assert (theta * (1.0 - q)) * c == theta * (c - q * c); }
    assert (x - y) * c == 0.0;
    if x != y {
      NonzeroProduct(x - y, c);
      assert false;
    }
    assert p * (1.0 + k * (1.0 - q)) == rho * r * (t + (k * t) * (1.0 - q)) by {
      assert p * (k * (1.0 - q)) == (rho * r) * ((k * t) * (1.0 - q));
    }
    assert (rho * c) * r * t2 == rho * r * (t2 * c);
  }

  /** Energy per unit mass is the same on both sides: enthalpy rise plus change of v^2 / 2, with downstream speed v / c. */
  predicate EnergyConserved(rise: real, velocitySquared: real, c: real)
    requires c > 0.0
  {
    rise + (Over(Over(velocitySquared, c), c) - velocitySquared) / 2.0 == 0.0
  }

  /** For every real compression above one, the residual vanishes exactly when the energy jump holds. */
  lemma ResidualIsEnergyJump(u: Upstream, h: EnthalpyChange, c: real)
    requires Supersonic(u) && c > 1.0 && h(u.temperature) == Ok(0.0) && h(Downstream(u, c)).Ok?
    ensures Residual(u, h, c).Ok?
    ensures Residual(u, h, c).value == 0.0 <==> EnergyConserved(h(Downstream(u, c)).value, VelocitySquared(u), c)
  {
    hide Downstream, ThermalVelocity, VelocitySquared, MaximumCompression, Gamma, ResidualFormula, EnergyConserved, Gap;
    DownstreamIs(u, c);
    var t2, t := Downstream(u, c), u.temperature;
    var dh := h(t2).value;
    var cp := if t2 == t then u.heatCapacity else Over(dh, t2 - t);
    if t2 != t {
      OverFacts(dh, t2 - t);
    }
    hide Over;
    EnergyAlgebra(cp, dh, t2 - t, VelocitySquared(u), c, Gap(u, c));
  }

  lemma EnergyAlgebra(cp: real, dh: real, dt: real, v2: real, c: real, g: real)
    requires c > 1.0 && cp * dt == dh && dt * (c * c) == (c - 1.0) * g
    ensures ResidualFormula(cp, g, v2, c) == 0.0 <==> EnergyConserved(dh, v2, c)
  {
    var p := Over(v2, c);
    var q := Over(p, c);
    OverFacts(v2, c);
    OverFacts(p, c);
    hide Over;
    var x, y := cp * g - v2 * (c + 1.0) / 2.0, dh + (q - v2) / 2.0;
    ResidualTimes(cp, dh, dt, v2, c, g, p, q, x, y);
    if x == 0.0 && y != 0.0 {
      NonzeroProduct(y, c);
      NonzeroProduct(y * c, c);
      assert false;
    }
    if y == 0.0 && x != 0.0 {
      NonzeroProduct(x, c - 1.0);
      assert false;
    }
  }

  lemma ResidualTimes(cp: real, dh: real, dt: real, v2: real, c: real, g: real, p: real, q: real, x: real, y: real)
    requires cp * dt == dh && dt * (c * c) == (c - 1.0) * g && p * c == v2 && q * c == p
    requires x == cp * g - v2 * (c + 1.0) / 2.0 && y == dh + (q - v2) / 2.0
    ensures x * (c - 1.0) == (y * c) * c
  {
    assert (q * c) * c == v2;
    assert (y * c) * c == dh * (c * c) + ((q * c) * c - v2 * (c * c)) / 2.0;
    assert dh * (c * c) == cp * (dt * (c * c));
    assert x * (c - 1.0) == cp * ((c - 1.0) * g) - v2 * (c * c - 1.0) / 2.0;
  }

  // ---------- constant heat capacity ----------

  function HeatRise(u: Upstream, t: real): real { u.heatCapacity * (t - u.temperature) }

  function ConstantEnthalpy(u: Upstream): EnthalpyChange {
    t => Ok(HeatRise(u, t))
  }

  lemma ConstantAverage(u: Upstream, changed: real)
    ensures AverageCp(u, ConstantEnthalpy(u), changed) == Ok(u.heatCapacity)
  {
    if changed != u.temperature {
      RiseOver(u, changed);
      hide Over, HeatRise;
      assert ConstantEnthalpy(u)(changed) == Ok(HeatRise(u, changed));
    }
  }

  lemma RiseOver(u: Upstream, t: real)
    requires t != u.temperature
    ensures Over(HeatRise(u, t), t - u.temperature) == u.heatCapacity
  {
    QuotientIs(HeatRise(u, t), t - u.temperature, u.heatCapacity);
  }

  function DensityNumerator(g: real, m: real): real { (g + 1.0) * m }

  /** With constant heat capacity twice the residual is linear in the compression. */
  lemma ConstantResidual(u: Upstream, c: real)
    requires Supersonic(u) && c > 0.0
    ensures Residual(u, ConstantEnthalpy(u), c).Ok?
    ensures var g, m := Gamma(u), MachSquare(u);
            2.0 * Residual(u, ConstantEnthalpy(u), c).value
            == (u.heatCapacity * u.temperature) * (DensityNumerator(g, m) - c * Denominator(g, m))
  {
    hide *;
    ConstantResidualForm(u, c);
    ScaleProducts(u);
    GammaFacts(u);
    GapIs(u, c);
    ConstantAlgebra(u.heatCapacity, u.temperature, u.gasConstant, Gamma(u), MachSquare(u), ThermalVelocity(u), VelocitySquared(u), c, Gap(u, c));
  }

  lemma ConstantResidualForm(u: Upstream, c: real)
    requires Supersonic(u) && c > 0.0
    ensures Residual(u, ConstantEnthalpy(u), c) == Ok(ResidualFormula(u.heatCapacity, Gap(u, c), VelocitySquared(u), c))
  {
    ConstantAverage(u, Downstream(u, c));
    hide Downstream, AverageCp, ResidualFormula, VelocitySquared, Gap;
  }

  lemma ScaleProducts(u: Upstream)
    requires Supersonic(u)
    ensures ThermalVelocity(u) == MachSquare(u) * Gamma(u) * u.temperature
    ensures VelocitySquared(u) == ThermalVelocity(u) * u.gasConstant
  {
    ThermalVelocityIs(u);
  }

  lemma GapIs(u: Upstream, c: real)
    requires Supersonic(u)
    ensures Gap(u, c) == ThermalVelocity(u) - u.temperature * c
  {
  }

  lemma ConstantAlgebra(cp: real, t: real, r: real, g: real, m: real, theta: real, v2: real, c: real, gap: real)
    requires g * (cp - r) == cp && theta == m * g * t && v2 == theta * r && gap == theta - t * c
    ensures 2.0 * ResidualFormula(cp, gap, v2, c) == (cp * t) * (DensityNumerator(g, m) - c * Denominator(g, m))
  {
    var k := m * t;
    assert g * r == g * cp - cp;
    assert v2 == k * (g * r);
    assert v2 == k * (g * cp - cp);
    assert v2 * (c + 1.0) == (k * (g * cp - cp)) * (c + 1.0);
    assert theta == k * g;
    assert 2.0 * (cp * gap) == 2.0 * (cp * (k * g)) - 2.0 * (cp * t * c);
  }

  /** With constant heat capacity the shock root is unique and is the closed-form density ratio. */
  lemma ConstantRootIsDensityRatio(u: Upstream, c: real)
    requires Supersonic(u) && c > 0.0
    ensures Regime(Gamma(u), MachSquare(u))
    ensures Residual(u, ConstantEnthalpy(u), c).Ok?
    ensures var d := DensityRatio(Gamma(u), MachSquare(u));
            && (Residual(u, ConstantEnthalpy(u), c).value == 0.0 <==> c == d)
            && (Residual(u, ConstantEnthalpy(u), c).value > 0.0 <==> c < d)
  {
    hide Residual, Gamma, ConstantEnthalpy, DensityNumerator, Denominator, Over, DensityRatio, Regime;
    ScalesArePositive(u);
    ConstantResidual(u, c);
    LinearRoot(u.heatCapacity * u.temperature, DensityNumerator(Gamma(u), MachSquare(u)), Denominator(Gamma(u), MachSquare(u)), c,
               Residual(u, ConstantEnthalpy(u), c).value);
  }

  lemma ScalesArePositive(u: Upstream)
    requires Supersonic(u)
    ensures Regime(Gamma(u), MachSquare(u)) && Denominator(Gamma(u), MachSquare(u)) > 0.0 && u.heatCapacity * u.temperature > 0.0
    ensures DensityRatio(Gamma(u), MachSquare(u)) == Over(DensityNumerator(Gamma(u), MachSquare(u)), Denominator(Gamma(u), MachSquare(u)))
  {
    GammaFacts(u);
    MachSquareAbove(u);
    FactorsPositive(Gamma(u), MachSquare(u));
    Positive(u.heatCapacity, u.temperature);
  }

  lemma LinearRoot(k: real, b: real, a: real, c: real, x: real)
    requires k > 0.0 && a > 0.0 && 2.0 * x == k * (b - c * a)
    ensures x == 0.0 <==> c == Over(b, a)
    ensures x > 0.0 <==> c < Over(b, a)
  {
    var d := Over(b, a);
    OverFacts(b, a);
    hide Over;
    assert b - c * a == (d - c) * a;
    if c < d {
      Positive(d - c, a);
      Positive(k, (d - c) * a);
    } else if c > d {
      Positive(c - d, a);
      Positive(k, (c - d) * a);
      assert 2.0 * x == -(k * ((c - d) * a));
    } else {
      assert 2.0 * x == k * 0.0;
    }
  }

  /** So for constant heat capacity the bisection's interval always contains the closed-form ratio. */
  method BisectConstant(u: Upstream, steps: nat) returns (lower: real, upper: real)
    requires Supersonic(u)
    ensures Regime(Gamma(u), MachSquare(u))
    ensures lower < DensityRatio(Gamma(u), MachSquare(u)) <= upper
    ensures upper - lower == Halved(MaximumCompression(u) - 1.0, steps)
  {
    hide Residual, DensityRatio, Halved;
    var r := BisectShock(u, ConstantEnthalpy(u), steps);
    forall c | 1.0 <= c <= MaximumCompression(u) ensures Residual(u, ConstantEnthalpy(u), c).Ok? {
      ConstantRootIsDensityRatio(u, c);
    }
    lower, upper := r.value.0, r.value.1;
    ConstantRootIsDensityRatio(u, lower);
    ConstantRootIsDensityRatio(u, upper);
  }

  datatype Ratios = Ratios(compression: real, pressure: real, temperature: real)

  /** `_normal_ratios`: sonic and subsonic normal components pass unchanged. */
  method NormalRatios(u: Upstream, h: EnthalpyChange, steps: nat) returns (r: Result<Ratios>)
    requires 0.0 < u.gasConstant < u.heatCapacity && u.temperature > 0.0
    ensures u.mach <= 1.0 + 0.000000000001 ==> r == Ok(Ratios(1.0, 1.0, u.temperature))
    ensures u.mach > 1.0 + 0.000000000001 && r.Ok? ==> exists lower: real, upper: real ::
              && 1.0 <= lower < upper <= MaximumCompression(u) && upper - lower == Halved(MaximumCompression(u) - 1.0, steps)
              && Residual(u, h, lower).Ok? && Residual(u, h, lower).value > 0.0
              && Residual(u, h, upper).Ok? && Residual(u, h, upper).value <= 0.0
              && r.value.compression == (lower + upper) / 2.0
              && r.value.pressure == PressureRatio(u, r.value.compression)
              && r.value.temperature == Downstream(u, r.value.compression)
    // It raises only above the threshold, and only if the enthalpy is out of range at some compression it may try.
    ensures r.Err? ==> u.mach > 1.0 + 0.000000000001 && exists c :: 1.0 <= c <= MaximumCompression(u) && Residual(u, h, c).Err?
  {
    hide Residual, MaximumCompression, Downstream;
    if u.mach <= 1.0 + 0.000000000001 {
      return Ok(Ratios(1.0, 1.0, u.temperature));
    }
    var bracket := BisectShock(u, h, steps);
    if bracket.Err? {
      return Err;
    }
    var (lower, upper) := bracket.value;
    var compression := (lower + upper) / 2.0;
    r := Ok(Ratios(compression, PressureRatio(u, compression), Downstream(u, compression)));
  }
}

/** The turning angle of a perfect-gas oblique shock has exactly one peak. The program's formula becomes a rational function of
    the tangent of the shock angle, and comparing two of its values reduces to the sign of one polynomial. */
module TurningCurve {

  import opened Arithmetic
  import opened Partial
  import opened ObliqueShock
  import opened WeakBranchSearch

  /** The library's functions; quarter is a right angle. */
  datatype Trig = Trig(sin: real -> real, cos: real -> real, tan: real -> real, atan: real -> real, sqrt: real -> real, quarter: real)

  ghost predicate Sound(k: Trig) {
    && k.quarter > 0.0
    && (forall x :: 0.0 < x < k.quarter ==> SoundAt(k, x))
    && (forall x, y :: 0.0 < x < y < k.quarter ==> k.tan(x) < k.tan(y))
    && (forall t :: t > 0.0 ==> IsTangent(k, t))
    && (forall x, y :: x < y ==> k.atan(x) < k.atan(y))
    && (forall z :: z > 0.0 ==> RootAt(k, z))
  }

  predicate SoundAt(k: Trig, x: real) {
    var s, c, t := k.sin(x), k.cos(x), k.tan(x);
    && s > 0.0 && c > 0.0 && t > 0.0 && Squared(s) + Squared(c) == 1.0 && t * c == s
    && k.cos(2.0 * x) == 1.0 - 2.0 * Squared(s) && k.atan(t) == x
  }

  /** Some angle below a right angle has the tangent t. */
  ghost predicate IsTangent(k: Trig, t: real) { exists x :: 0.0 < x < k.quarter && k.tan(x) == t }

  predicate RootAt(k: Trig, z: real) { k.sqrt(z) > 0.0 && Squared(k.sqrt(z)) == z }

  function Numerator(m: real, s2: real): real { 2.0 * (m * s2 - 1.0) }
  function Divisor(m: real, g: real, t: real, c2: real): real { t * (m * (g + c2) + 2.0) }

  /** The program's `turning`, for squared Mach number m; dividing by zero raises. */
  function Turning(k: Trig, m: real, g: real, beta: real): Result<real> {
    var divisor := Divisor(m, g, k.tan(beta), k.cos(2.0 * beta));
    if divisor == 0.0 then Err else Ok(k.atan(Over(Numerator(m, Squared(k.sin(beta))), divisor)))
  }

  function TurningAt(k: Trig, m: real, g: real): Curve { beta => Turning(k, m, g, beta) }

  // ---------- the rational form ----------

  /** In the tangent t of the shock angle and its square z, with a, p and q fixed by the flow. */
  function Rise(a: real, z: real): real { a * z - 1.0 }
  function Base(p: real, q: real, t: real, z: real): real { t * (p + q * z) }

  lemma SquarePositive(t: real)
    requires t > 0.0
    ensures Squared(t) > 0.0
  {
    PositiveProduct(t, t, Squared(t));
  }

  lemma PositiveProduct(a: real, b: real, c: real)
    requires a > 0.0 && b > 0.0 && c == a * b
    ensures c > 0.0
  {
  }

  lemma BasePositive(p: real, q: real, t: real, z: real)
    requires p > 0.0 && q > 0.0 && t > 0.0 && z > 0.0
    ensures Base(p, q, t, z) > 0.0
  {
    Positive(q, z);
    Positive(t, p + q * z);
  }

  /** P = m (g + 1) + 2 and Q = m (g - 1) + 2 are the coefficients of the rational form. */
  function LowFactor(m: real, g: real): real { m * (g + 1.0) + 2.0 }
  function HighFactor(m: real, g: real): real { m * (g - 1.0) + 2.0 }

  lemma CoefficientsPositive(m: real, g: real)
    requires m > 1.0 && g > 1.0
    ensures LowFactor(m, g) > 0.0 && HighFactor(m, g) > 0.0
  {
    var x, y := m * (g + 1.0), m * (g - 1.0);
    Positive(m, g + 1.0);
    Positive(m, g - 1.0);
    assert LowFactor(m, g) == x + 2.0 && HighFactor(m, g) == y + 2.0;
  }

  /** Scaling numerator and denominator by 1 + tan^2. */
  lemma RationalForm(m: real, g: real, s2: real, t: real, z: real, c2: real)
    requires s2 * (1.0 + z) == z && c2 == 1.0 - 2.0 * s2
    ensures Divisor(m, g, t, c2) * (1.0 + z) == Base(LowFactor(m, g), HighFactor(m, g), t, z)
    ensures Numerator(m, s2) * (1.0 + z) == 2.0 * Rise(m - 1.0, z)
  {
    var k := 1.0 + z;
    assert m * s2 * k == m * z by { assert m * s2 * k == m * (s2 * k); }
    assert (m * (g + c2) + 2.0) * k == m * (g + 1.0) * k - 2.0 * (m * s2 * k) + 2.0 * k;
    assert m * (g + 1.0) * k - 2.0 * (m * z) + 2.0 * k == LowFactor(m, g) + HighFactor(m, g) * z;
    assert t * (m * (g + c2) + 2.0) * k == t * ((m * (g + c2) + 2.0) * k);
    assert 2.0 * (m * s2 - 1.0) * k == 2.0 * (m * s2 * k) - 2.0 * k;
  }

  lemma OverScaled(n: real, d: real, k: real, n2: real, d2: real)
    requires k > 0.0 && d2 > 0.0 && n * k == n2 && d * k == d2
    ensures d > 0.0 && Over(n, d) == Over(n2, d2)
  {
    if d <= 0.0 {
      if d < 0.0 { Positive(-d, k); }
      assert false;
    }
    OverFacts(n, d);
    OverFacts(n2, d2);
    var x, y := Over(n, d), Over(n2, d2);
    hide Over;
    assert x * d2 == (x * d) * k;
    CancelRight(x, y, d2);
  }

  /** The tangent of the turning angle as a function of the tangent t of the shock angle. */
  function Slope(m: real, g: real, t: real): real
    requires m > 1.0 && g > 1.0 && t > 0.0
  {
    SlopeDefined(m, g, t);
    Over(2.0 * Rise(m - 1.0, Squared(t)), Base(LowFactor(m, g), HighFactor(m, g), t, Squared(t)))
  }

  lemma SlopeDefined(m: real, g: real, t: real)
    requires m > 1.0 && g > 1.0 && t > 0.0
    ensures Base(LowFactor(m, g), HighFactor(m, g), t, Squared(t)) > 0.0
  {
    hide *;
    CoefficientsPositive(m, g);
    SquarePositive(t);
    BasePositive(LowFactor(m, g), HighFactor(m, g), t, Squared(t));
  }

  lemma SlopeIs(m: real, g: real, t: real)
    requires m > 1.0 && g > 1.0 && t > 0.0
    ensures Base(LowFactor(m, g), HighFactor(m, g), t, Squared(t)) > 0.0
    ensures Slope(m, g, t) == Over(2.0 * Rise(m - 1.0, Squared(t)), Base(LowFactor(m, g), HighFactor(m, g), t, Squared(t)))
  {
    SlopeDefined(m, g, t);
    hide Base, Rise, Squared, Over, LowFactor, HighFactor;
  }

  /** Strictly between zero and a right angle the program's formula never divides by zero. */
  lemma TurningIs(k: Trig, m: real, g: real, beta: real)
    requires Sound(k) && m > 1.0 && g > 1.0 && 0.0 < beta < k.quarter
    ensures k.tan(beta) > 0.0
    ensures Turning(k, m, g, beta) == Ok(k.atan(Slope(m, g, k.tan(beta))))
  {
    var s, c, t, c2 := k.sin(beta), k.cos(beta), k.tan(beta), k.cos(2.0 * beta);
    assert SoundAt(k, beta);
    assert t > 0.0;
    hide Sound, Over, Base, Rise, Squared, Numerator, Divisor, Slope;
    SlopeEquals(m, g, s, c, t, c2);
  }

  lemma SlopeEquals(m: real, g: real, s: real, c: real, t: real, c2: real)
    requires m > 1.0 && g > 1.0 && t > 0.0 && t * c == s && Squared(s) + Squared(c) == 1.0 && c2 == 1.0 - 2.0 * Squared(s)
    ensures Divisor(m, g, t, c2) > 0.0
    ensures Over(Numerator(m, Squared(s)), Divisor(m, g, t, c2)) == Slope(m, g, t)
  {
    hide *;
    TangentSquared(s, c, t);
    SlopeIs(m, g, t);
    SquarePositive(t);
    RationalForm(m, g, Squared(s), t, Squared(t), c2);
    OverScaled(Numerator(m, Squared(s)), Divisor(m, g, t, c2), 1.0 + Squared(t),
               2.0 * Rise(m - 1.0, Squared(t)), Base(LowFactor(m, g), HighFactor(m, g), t, Squared(t)));
  }

  lemma TangentSquared(s: real, c: real, t: real)
    requires t * c == s && Squared(s) + Squared(c) == 1.0
    ensures Squared(s) * (1.0 + Squared(t)) == Squared(t)
  {
    var x, y, z := s * s, c * c, t * t;
    assert x == z * y by { assert (t * c) * (t * c) == z * y; }
    assert x + y == 1.0;
    assert x * z == x - x * y + (x * z + x * y - x);
    assert x * (1.0 + z) == z by { assert z * (x + y) == z; }
  }

  // ---------- comparing two values ----------

  /** The polynomial whose sign orders two slopes: u and v are the squared tangents and w is their product's root. */
  function Order(a: real, p: real, q: real, u: real, w: real, v: real): real {
    p * (a * w + 1.0) + q * (u + w + v - a * u * v)
  }

  lemma CrossDifference(a: real, p: real, q: real, x: real, y: real, u: real, w: real, v: real)
    requires u == x * x && w == x * y && v == y * y
    ensures Rise(a, u) * Base(p, q, y, v) - Rise(a, v) * Base(p, q, x, u) == (x - y) * Order(a, p, q, u, w, v)
  {
    assert Rise(a, u) * Base(p, q, y, v) == p * ((a * u - 1.0) * y) + q * ((a * u - 1.0) * (y * v));
    assert Rise(a, v) * Base(p, q, x, u) == p * ((a * v - 1.0) * x) + q * ((a * v - 1.0) * (x * u));
    CrossParts(a, x, y, u, w, v);
    var f, h := a * w + 1.0, u + w + v - a * u * v;
    assert (x - y) * Order(a, p, q, u, w, v) == p * ((x - y) * f) + q * ((x - y) * h);
  }

  lemma CrossParts(a: real, x: real, y: real, u: real, w: real, v: real)
    requires u == x * x && w == x * y && v == y * y
    ensures (a * u - 1.0) * y - (a * v - 1.0) * x == (x - y) * (a * w + 1.0)
    ensures (a * u - 1.0) * (y * v) - (a * v - 1.0) * (x * u) == (x - y) * (u + w + v - a * u * v)
  {
    assert u * y == x * w && v * x == y * w;
    assert (a * u - 1.0) * (y * v) - (a * v - 1.0) * (x * u) == a * u * v * (y - x) - (y * v - x * u);
    assert y * v - x * u == (y - x) * (u + w + v);
  }

  lemma OverCompare(n: real, d: real, n2: real, d2: real)
    requires d > 0.0 && d2 > 0.0
    ensures n * d2 < n2 * d ==> Over(n, d) < Over(n2, d2)
    ensures n * d2 > n2 * d ==> Over(n, d) > Over(n2, d2)
  {
    OverFacts(n, d);
    OverFacts(n2, d2);
    var x, y := Over(n, d), Over(n2, d2);
    hide Over;
    Positive(d, d2);
    assert n * d2 == x * (d * d2) && n2 * d == y * (d * d2);
    if x < y {
      Positive(y - x, d * d2);
    } else if x > y {
      Positive(x - y, d * d2);
    }
  }

  lemma SlopeCompare(m: real, g: real, x: real, y: real)
    requires m > 1.0 && g > 1.0 && 0.0 < x < y
    ensures var r := Order(m - 1.0, LowFactor(m, g), HighFactor(m, g), Squared(x), x * y, Squared(y));
            (r > 0.0 ==> Slope(m, g, x) < Slope(m, g, y)) && (r < 0.0 ==> Slope(m, g, x) > Slope(m, g, y))
  {
    hide *;
    var a, p, q := m - 1.0, LowFactor(m, g), HighFactor(m, g);
    SlopeDefined(m, g, x);
    SlopeDefined(m, g, y);
    SquaredIs(x);
    SquaredIs(y);
    var u, v := Squared(x), Squared(y);
    CrossDifference(a, p, q, x, y, u, x * y, v);
    SlopeIs(m, g, x);
    SlopeIs(m, g, y);
    Compared(Rise(a, u), Base(p, q, x, u), Rise(a, v), Base(p, q, y, v), y - x, Order(a, p, q, u, x * y, v));
  }

  lemma Compared(n: real, d: real, n2: real, d2: real, w: real, r: real)
    requires d > 0.0 && d2 > 0.0 && w > 0.0 && n * d2 - n2 * d == -w * r
    ensures r > 0.0 ==> Over(2.0 * n, d) < Over(2.0 * n2, d2)
    ensures r < 0.0 ==> Over(2.0 * n, d) > Over(2.0 * n2, d2)
  {
    OverCompare(2.0 * n, d, 2.0 * n2, d2);
    hide Over;
    assert (2.0 * n) * d2 - (2.0 * n2) * d == -2.0 * (w * r);
    if r > 0.0 {
      Positive(w, r);
    } else if r < 0.0 {
      Positive(w, -r);
    }
  }

  // ---------- one change of sign ----------

  /** Order on the diagonal, at squared tangent z; the peak is its positive root. */
  function Diagonal(a: real, p: real, q: real, z: real): real { Order(a, p, q, z, z, z) }

  lemma DiagonalExpansion(a: real, p: real, q: real, z: real, zm: real)
    ensures Diagonal(a, p, q, z) * zm - Diagonal(a, p, q, zm) * z == (zm - z) * (q * a * (z * zm) + p)
  {
    assert Diagonal(a, p, q, z) == p * a * z + p + 3.0 * q * z - q * a * (z * z);
    assert Diagonal(a, p, q, zm) == p * a * zm + p + 3.0 * q * zm - q * a * (zm * zm);
  }

  lemma DiagonalSign(a: real, p: real, q: real, z: real, zm: real)
    requires a > 0.0 && p > 0.0 && q > 0.0 && z > 0.0 && zm > 0.0 && Diagonal(a, p, q, zm) == 0.0
    ensures z <= zm ==> Diagonal(a, p, q, z) >= 0.0
    ensures z >= zm ==> Diagonal(a, p, q, z) <= 0.0
  {
    hide *;
    DiagonalExpansion(a, p, q, z, zm);
    Positive(q, a);
    Positive(z, zm);
    Positive(q * a, z * zm);
    SignOfProduct(Diagonal(a, p, q, z), zm, zm - z, q * a * (z * zm) + p);
  }

  lemma SignOfProduct(d: real, k: real, x: real, f: real)
    requires k > 0.0 && f > 0.0 && d * k == x * f
    ensures (x >= 0.0 ==> d >= 0.0) && (x <= 0.0 ==> d <= 0.0) && (x > 0.0 ==> d > 0.0)
  {
    if d < 0.0 { Positive(-d, k); }
    if d > 0.0 { Positive(d, k); }
    if x > 0.0 { Positive(x, f); }
    if x < 0.0 { Positive(-x, f); }
  }

  /** Below the peak: Order(u, w, v) v exceeds Diagonal(v) u. */
  lemma OrderBelow(a: real, p: real, q: real, u: real, w: real, v: real)
    requires a > 0.0 && p > 0.0 && q > 0.0 && 0.0 < u < w < v && Diagonal(a, p, q, v) >= 0.0
    ensures Order(a, p, q, u, w, v) > 0.0
  {
    var r, d := Order(a, p, q, u, w, v), Diagonal(a, p, q, v);
    BelowExpansion(a, p, q, u, w, v);
    hide *;
    Positive(a, v);
    Positive(a * v, w - u);
    Positive(p, (a * v) * (w - u) + (v - u));
    Positive(v, v + w - 2.0 * u);
    Positive(q, v * (v + w - 2.0 * u));
    Nonnegative(d, u);
    if r <= 0.0 {
      Nonnegative(-r, v);
      assert false;
    }
  }

  lemma BelowExpansion(a: real, p: real, q: real, u: real, w: real, v: real)
    ensures Order(a, p, q, u, w, v) * v - Diagonal(a, p, q, v) * u
            == p * ((a * v) * (w - u) + (v - u)) + q * (v * (v + w - 2.0 * u))
  {
    var f, h := a * w + 1.0, u + w + v - a * u * v;
    var f2, h2 := a * v + 1.0, v + v + v - a * v * v;
    assert f * v - f2 * u == (a * v) * (w - u) + (v - u);
    assert h * v - h2 * u == v * (v + w - 2.0 * u) by { assert (a * u * v) * v == (a * v * v) * u; }
    Combine(p, q, f, f2, h, h2, u, v);
  }

  lemma Combine(p: real, q: real, f: real, f2: real, h: real, h2: real, u: real, v: real)
    ensures (p * f + q * h) * v - (p * f2 + q * h2) * u == p * (f * v - f2 * u) + q * (h * v - h2 * u)
  {
  }

  /** Above the peak: Order only falls further as the second angle grows. */
  lemma OrderAbove(a: real, p: real, q: real, u: real, w: real, v: real)
    requires a > 0.0 && p > 0.0 && q > 0.0 && 0.0 < u < w < v && Diagonal(a, p, q, u) <= 0.0
    ensures Order(a, p, q, u, w, v) < 0.0
  {
    var e, h := q * (a * u - 1.0), p * a + q;
    AboveExpansion(a, p, q, u, w, v, e);
    hide *;
    Positive(p, a);
    if e - h - q <= 0.0 {
      Nonnegative(-(e - h - q), u);
      assert false;
    }
    Positive(e - h, w - u);
    Positive(e, v - w);
  }

  lemma AboveExpansion(a: real, p: real, q: real, u: real, w: real, v: real, e: real)
    requires e == q * (a * u - 1.0)
    ensures Order(a, p, q, u, w, v) - Diagonal(a, p, q, u) == (p * a + q) * (w - u) - e * (w - u) - e * (v - w)
    ensures Diagonal(a, p, q, u) == p - (e - (p * a + q) - q) * u
  {
    assert q * (a * u * v) == (e + q) * v;
    assert q * (a * u * u) == (e + q) * u;
  }

  /** bm is the angle whose squared tangent solves the peak equation. */
  predicate PeakAngle(k: Trig, m: real, g: real, bm: real) {
    0.0 < bm < k.quarter && PeakTangent(m, g, k.tan(bm))
  }

  predicate PeakTangent(m: real, g: real, t: real) {
    Diagonal(m - 1.0, LowFactor(m, g), HighFactor(m, g), Squared(t)) == 0.0
  }

  /** The peak equation has a solution for every flow. */
  lemma PeakExists(k: Trig, m: real, g: real)
    requires Sound(k) && m > 1.0 && g > 1.0
    ensures exists bm :: PeakAngle(k, m, g, bm)
  {
    CoefficientsPositive(m, g);
    hide LowFactor, HighFactor, Diagonal, SoundAt;
    var z := PositiveRoot(k, m - 1.0, LowFactor(m, g), HighFactor(m, g));
    assert RootAt(k, z);
    assert IsTangent(k, k.sqrt(z));
    var bm :| 0.0 < bm < k.quarter && k.tan(bm) == k.sqrt(z);
    assert PeakAngle(k, m, g, bm);
  }

  /** The peak equation is quadratic in the squared tangent, with one positive root. */
  lemma PositiveRoot(k: Trig, a: real, p: real, q: real) returns (z: real)
    requires Sound(k) && a > 0.0 && p > 0.0 && q > 0.0
    ensures z > 0.0 && Diagonal(a, p, q, z) == 0.0
  {
    var h, b := Times(q, a), p * a + 3.0 * q;
    var d := b * b + 4.0 * (h * p);
    RootBounds(a, p, q, h, b, d);
    assert RootAt(k, d);
    var r := k.sqrt(d);
    hide *;
    SquaredIs(r);
    OverFacts(b + r, 2.0 * h);
    z := Over(b + r, 2.0 * h);
    RootSolves(a, p, q, h, b, r, z);
  }

  lemma RootBounds(a: real, p: real, q: real, h: real, b: real, d: real)
    requires a > 0.0 && p > 0.0 && q > 0.0 && h == q * a && b == p * a + 3.0 * q && d == b * b + 4.0 * (h * p)
    ensures h > 0.0 && b > 0.0 && d > 0.0
  {
    Positive(q, a);
    Positive(p, a);
    Positive(b, b);
    Positive(h, p);
  }

  lemma RootSolves(a: real, p: real, q: real, h: real, b: real, r: real, z: real)
    requires h == q * a && h > 0.0 && b == p * a + 3.0 * q && r * r == b * b + 4.0 * (h * p) && z * (2.0 * h) == b + r
    ensures Diagonal(a, p, q, z) == 0.0
  {
    QuadraticRoot(h, b, p, r, z);
    assert Diagonal(a, p, q, z) == b * z + p - h * (z * z);
  }

  lemma QuadraticRoot(h: real, b: real, p: real, r: real, z: real)
    requires h > 0.0 && r * r == b * b + 4.0 * (h * p) && z * (2.0 * h) == b + r
    ensures b * z + p - h * (z * z) == 0.0
  {
    var x, d := z * (2.0 * h), b * z + p - h * (z * z);
    assert d * (4.0 * h) == 2.0 * (b * x) + 4.0 * (h * p) - x * x;
    assert x * x == b * b + 2.0 * (b * r) + r * r;
    assert b * x == b * b + b * r;
    CancelRight(d, 0.0, 4.0 * h);
  }

  lemma Ordered(m: real, g: real, x: real, y: real, tm: real)
    requires m > 1.0 && g > 1.0 && 0.0 < x < y && tm > 0.0 && PeakTangent(m, g, tm)
    ensures y <= tm ==> Slope(m, g, x) < Slope(m, g, y)
    ensures x >= tm ==> Slope(m, g, x) > Slope(m, g, y)
  {
    var a, p, q := m - 1.0, LowFactor(m, g), HighFactor(m, g);
    assert Diagonal(a, p, q, Squared(tm)) == 0.0;
    hide *;
    CoefficientsPositive(m, g);
    SlopeCompare(m, g, x, y);
    SquarePositive(tm);
    SquaresBetween(x, y);
    SquaresBetween(x, tm);
    SquaresBetween(y, tm);
    SquaresBetween(tm, x);
    if y <= tm {
      DiagonalSign(a, p, q, Squared(y), Squared(tm));
      OrderBelow(a, p, q, Squared(x), x * y, Squared(y));
    } else if x >= tm {
      DiagonalSign(a, p, q, Squared(x), Squared(tm));
      OrderAbove(a, p, q, Squared(x), x * y, Squared(y));
    }
  }

  lemma SquaresBetween(x: real, y: real)
    requires x > 0.0 && y > 0.0
    ensures 0.0 < Squared(x)
    ensures x < y ==> Squared(x) < x * y < Squared(y)
    ensures x <= y ==> Squared(x) <= Squared(y)
  {
    SquarePositive(x);
    if x < y {
      Positive(x, y - x);
      Positive(y, y - x);
    }
  }

  /** The perfect-gas turning angle climbs strictly to one peak and falls strictly after it, for every Mach number and ratio of
      specific heats above one, from any positive angle up to a right angle. */
  lemma TurningIsUnimodal(k: Trig, m: real, g: real, machAngle: real, bm: real)
    requires Sound(k) && m > 1.0 && g > 1.0 && 0.0 < machAngle <= bm && PeakAngle(k, m, g, bm)
    ensures PeakAt(TurningAt(k, m, g), bm, machAngle, k.quarter)
  {
    var f := TurningAt(k, m, g);
    forall x | 0.0 < x < k.quarter ensures f(x).Ok? {
      TurningIs(k, m, g, x);
    }
    forall x, y | machAngle <= x < y <= bm ensures f(x).value < f(y).value {
      TurningOrdered(k, m, g, x, y, bm);
    }
    forall x, y | bm <= x < y < k.quarter ensures f(x).value > f(y).value {
      TurningOrdered(k, m, g, x, y, bm);
    }
    hide Turning;
  }

  lemma TurningOrdered(k: Trig, m: real, g: real, x: real, y: real, bm: real)
    requires Sound(k) && m > 1.0 && g > 1.0 && PeakAngle(k, m, g, bm) && 0.0 < x < y < k.quarter
    ensures Turning(k, m, g, x).Ok? && Turning(k, m, g, y).Ok?
    ensures y <= bm ==> Turning(k, m, g, x).value < Turning(k, m, g, y).value
    ensures x >= bm ==> Turning(k, m, g, x).value > Turning(k, m, g, y).value
  {
    hide Turning, Slope, Diagonal, SoundAt;
    TurningIs(k, m, g, x);
    TurningIs(k, m, g, y);
    TurningIs(k, m, g, bm);
    Ordered(m, g, k.tan(x), k.tan(y), k.tan(bm));
  }

  // ---------- less than the shock angle ----------

  lemma SlopeBelow(m: real, g: real, t: real)
    requires m > 1.0 && g > 1.0 && t > 0.0
    ensures Slope(m, g, t) < t
  {
    hide *;
    SlopeIs(m, g, t);
    CoefficientsPositive(m, g);
    SquarePositive(t);
    SquaredIs(t);
    LowFactorLarge(m, g);
    var a, p, q, z := m - 1.0, LowFactor(m, g), HighFactor(m, g), Squared(t);
    RiseBelowBase(a, p, q, t, z);
    OverCompare(2.0 * Rise(a, z), Base(p, q, t, z), t, 1.0);
    OverFacts(t, 1.0);
  }

  lemma LowFactorLarge(m: real, g: real)
    requires m > 1.0 && g > 1.0
    ensures LowFactor(m, g) > 2.0 * (m - 1.0)
  {
    Positive(m, g - 1.0);
    assert LowFactor(m, g) == m * (g - 1.0) + 2.0 * m + 2.0;
  }

  lemma RiseBelowBase(a: real, p: real, q: real, t: real, z: real)
    requires z == t * t && z > 0.0 && q > 0.0 && p > 2.0 * a
    ensures 2.0 * Rise(a, z) < t * Base(p, q, t, z)
  {
    Positive(p - 2.0 * a, z);
    var y := z * z;
    PositiveProduct(z, z, y);
    Positive(q, y);
    assert t * Base(p, q, t, z) == z * p + q * y by { assert t * (t * (p + q * z)) == z * (p + q * z); }
  }

  /** The flow always turns through less than the angle of the shock. */
  lemma TurningBelowAngle(k: Trig, m: real, g: real, beta: real)
    requires Sound(k) && m > 1.0 && g > 1.0 && 0.0 < beta < k.quarter
    ensures Turning(k, m, g, beta).Ok? && Turning(k, m, g, beta).value < beta
  {
    TurningIs(k, m, g, beta);
    assert SoundAt(k, beta);
    SlopeBelow(m, g, k.tan(beta));
    hide Turning, Slope;
  }
}

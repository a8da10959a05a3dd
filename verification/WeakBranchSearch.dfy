/** The searches on a turning curve: the ternary search for its peak, the bisection up to a target, and the same bisection
    for the stagnation temperature. Loop counts are parameters; `Err` is any exception raised while a point is evaluated. */
module WeakBranchSearch {

  import opened Partial

  type Curve = real -> Result<real>

  ghost predicate Rises(f: Curve, a: real, b: real) {
    && (forall x :: a <= x <= b ==> f(x).Ok?)
    && (forall x, y :: a <= x < y <= b ==> f(x).value < f(y).value)
  }

  ghost predicate Falls(f: Curve, a: real, b: real) {
    && (forall x :: a <= x < b ==> f(x).Ok?)
    && (forall x, y :: a <= x < y < b ==> f(x).value > f(y).value)
  }

  /** f climbs strictly to m and falls strictly after it, on an interval open at the top. */
  ghost predicate PeakAt(f: Curve, m: real, a: real, b: real) {
    a <= m < b && Rises(f, a, m) && Falls(f, m, b)
  }

  /** Every point strictly inside can be evaluated. */
  ghost predicate Evaluates(f: Curve, a: real, b: real) {
    forall x :: a < x < b ==> f(x).Ok?
  }

  /** One ternary step never loses the peak. */
  lemma StepKeepsPeak(f: Curve, m: real, a: real, b: real, left: real, right: real)
    requires PeakAt(f, m, a, b) && a < left < right < b
    ensures f(left).Ok? && f(right).Ok?
    ensures if f(left).value < f(right).value then left <= m else m <= right
  {
  }

  /** Ternary search for the angle of greatest turning. */
  method LocatePeak(f: Curve, a: real, b: real, steps: nat) returns (r: Result<(real, real)>)
    requires a < b
    ensures r.Err? ==> !Evaluates(f, a, b)
    ensures r.Ok? ==> a <= r.value.0 < r.value.1 <= b && r.value.1 - r.value.0 == TwoThirds(b - a, steps)
    ensures r.Ok? ==> forall m :: PeakAt(f, m, a, b) ==> r.value.0 <= m <= r.value.1
  {
    var lower, upper := a, b;
    for n := 0 to steps
      invariant a <= lower < upper <= b && upper - lower == TwoThirds(b - a, n)
      invariant forall m :: PeakAt(f, m, a, b) ==> lower <= m <= upper
    {
      hide PeakAt;
      var left := lower + (upper - lower) / 3.0;
      var right := upper - (upper - lower) / 3.0;
      if f(left).Err? || f(right).Err? {
        return Err;
      }
      forall m | PeakAt(f, m, a, b) ensures if f(left).value < f(right).value then left <= m else m <= right {
        StepKeepsPeak(f, m, a, b, left, right);
      }
      if f(left).value < f(right).value {
        lower := left;
      } else {
        upper := right;
      }
    }
    r := Ok((lower, upper));
  }

  /** What a bisection has found: below the target on the left, at or above it on the right, unless an end was never moved. */
  predicate Brackets(f: Curve, target: real, a: real, b: real, lower: real, upper: real) {
    && a <= lower <= upper <= b
    && (lower == a || (f(lower).Ok? && f(lower).value < target))
    && (upper == b || (f(upper).Ok? && f(upper).value >= target))
  }

  method Bisect(f: Curve, target: real, a: real, b: real, steps: nat) returns (r: Result<(real, real)>)
    requires a <= b
    ensures r.Err? ==> exists x :: a <= x <= b && f(x).Err?
    ensures r.Err? && a < b ==> !Evaluates(f, a, b)
    ensures r.Ok? ==> Brackets(f, target, a, b, r.value.0, r.value.1) && r.value.1 - r.value.0 == Halved(b - a, steps)
  {
    var lower, upper := a, b;
    for n := 0 to steps
      invariant Brackets(f, target, a, b, lower, upper) && upper - lower == Halved(b - a, n)
      invariant a < b ==> lower < upper
    {
      var middle := (lower + upper) / 2.0;
      if f(middle).Err? {
        return Err;
      }
      if f(middle).value < target {
        lower := middle;
      } else {
        upper := middle;
      }
    }
    r := Ok((lower, upper));
  }

  /** The bracket pins down the weak solution: wherever the curve meets a target that the found maximum reaches, on or below
      the peak, that angle lies between the two ends. */
  lemma WeakSolutionIsBracketed(f: Curve, m: real, a: real, b: real, found: real, target: real, lower: real, upper: real, x: real)
    requires PeakAt(f, m, a, b) && a <= found < b && Brackets(f, target, a, found, lower, upper)
    requires f(found).Ok? && target <= f(found).value
    requires a <= x <= m && x <= found && f(x).Ok? && f(x).value == target
    ensures lower <= x <= upper
  {
  }

  datatype Search = Angle(beta: real, lower: real, upper: real, maximum: real) | Detached(maximum: real) | Raised

  /** The weak shock angle: locate the greatest turning, refuse a target above it, then bisect up to the target. */
  method WeakBranch(f: Curve, machAngle: real, top: real, target: real, tolerance: real, ascents: nat, steps: nat) returns (r: Search)
    requires machAngle < top
    ensures r.Raised? ==> !Evaluates(f, machAngle, top)
    // the maximum is within half the final width of the true peak
    ensures !r.Raised? ==> machAngle < r.maximum < top && f(r.maximum).Ok?
    ensures !r.Raised? ==> forall m :: PeakAt(f, m, machAngle, top) ==>
              -TwoThirds(top - machAngle, ascents) / 2.0 <= r.maximum - m <= TwoThirds(top - machAngle, ascents) / 2.0
    ensures !r.Raised? ==> (r.Detached? <==> target > f(r.maximum).value + tolerance)
    ensures r.Angle? ==> Brackets(f, target, machAngle, r.maximum, r.lower, r.upper)
    ensures r.Angle? ==> r.upper - r.lower == Halved(r.maximum - machAngle, steps) && r.beta == (r.lower + r.upper) / 2.0
    // every weak solution lies between the two final ends
    ensures r.Angle? && target <= f(r.maximum).value ==> WeakSolutionsBetween(f, target, machAngle, top, r.maximum, r.lower, r.upper)
  {
    var peak := LocatePeak(f, machAngle, top, ascents);
    if peak.Err? {
      return Raised;
    }
    var maximum := (peak.value.0 + peak.value.1) / 2.0;
    if f(maximum).Err? {
      return Raised;
    }
    if target > f(maximum).value + tolerance {
      return Detached(maximum);
    }
    var bracket := Bisect(f, target, machAngle, maximum, steps);
    if bracket.Err? {
      return Raised;
    }
    var (lower, upper) := bracket.value;
    r := Angle((lower + upper) / 2.0, lower, upper, maximum);
    forall m, x | target <= f(maximum).value && PeakAt(f, m, machAngle, top) && WeakSolution(f, target, machAngle, m, maximum, x)
      ensures lower <= x <= upper
    {
      WeakSolutionIsBracketed(f, m, machAngle, top, maximum, target, lower, upper, x);
    }
  }

  predicate WeakSolution(f: Curve, target: real, a: real, m: real, found: real, x: real) {
    a <= x <= m && x <= found && f(x).Ok? && f(x).value == target
  }

  /** Whatever the peak, every solution on or below it and the found maximum lies between lower and upper. */
  ghost predicate WeakSolutionsBetween(f: Curve, target: real, a: real, b: real, found: real, lower: real, upper: real) {
    forall m, x :: PeakAt(f, m, a, b) && WeakSolution(f, target, a, m, found, x) ==> lower <= x <= upper
  }

  /** When the curve starts at or below the target, the ends of the answer straddle it. */
  lemma EndsStraddle(f: Curve, target: real, a: real, b: real, lower: real, upper: real)
    requires Brackets(f, target, a, b, lower, upper)
    requires f(a).Ok? && f(a).value <= target && f(b).Ok? && target <= f(b).value
    ensures f(lower).Ok? && f(upper).Ok? && f(lower).value <= target <= f(upper).value
  {
  }

}

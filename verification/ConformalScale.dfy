/** The conformal scale of a group calibration: the order-statistic rule, its counting guarantee, and what scaling a prior does to
    the score of a case. */
module ConformalScale {

  import opened Arithmetic
  import opened Partial

  // ---------- the rank rule ----------

  function Insert(x: real, xs: seq<real>): seq<real> {
    if xs == [] || x <= xs[0] then [x] + xs else [xs[0]] + Insert(x, xs[1..])
  }

  /** `sorted`. */
  function Sort(xs: seq<real>): (r: seq<real>)
    ensures |r| == |xs|
  {
    if xs == [] then [] else InsertLength(xs[0], Sort(xs[1..])); Insert(xs[0], Sort(xs[1..]))
  }

  lemma {:induction false} InsertLength(x: real, xs: seq<real>)
    ensures |Insert(x, xs)| == |xs| + 1
  {
    if xs != [] && x > xs[0] { InsertLength(x, xs[1..]); }
  }

  ghost predicate Ordered(xs: seq<real>) { forall i, j :: 0 <= i < j < |xs| ==> xs[i] <= xs[j] }

  /** How many values are at most v, and how many are below it. */
  function AtMost(xs: seq<real>, v: real): nat { if xs == [] then 0 else (if xs[0] <= v then 1 else 0) + AtMost(xs[1..], v) }
  function Below(xs: seq<real>, v: real): nat { if xs == [] then 0 else (if xs[0] < v then 1 else 0) + Below(xs[1..], v) }

  lemma {:induction false} InsertFacts(x: real, xs: seq<real>, v: real)
    requires Ordered(xs)
    ensures Ordered(Insert(x, xs)) && (forall y :: y in Insert(x, xs) <==> y == x || y in xs)
    ensures AtMost(Insert(x, xs), v) == AtMost(xs, v) + if x <= v then 1 else 0
    ensures Below(Insert(x, xs), v) == Below(xs, v) + if x < v then 1 else 0
  {
    if xs == [] || x <= xs[0] {
      assert ([x] + xs)[1..] == xs;
    } else {
      InsertFacts(x, xs[1..], v);
      var rest := Insert(x, xs[1..]);
      assert Insert(x, xs) == [xs[0]] + rest && ([xs[0]] + rest)[1..] == rest;
      hide Insert;
      forall y | y in rest ensures xs[0] <= y {
        if y != x { assert y in xs[1..]; }
      }
    }
  }

  lemma {:induction false} SortFacts(xs: seq<real>, v: real)
    ensures Ordered(Sort(xs)) && (forall y :: y in Sort(xs) <==> y in xs)
    ensures AtMost(Sort(xs), v) == AtMost(xs, v) && Below(Sort(xs), v) == Below(xs, v)
  {
    if xs != [] {
      SortFacts(xs[1..], v);
      InsertFacts(xs[0], Sort(xs[1..]), v);
      hide Insert;
    }
  }

  /** In an ordered list the first r values are at most the r-th, and only values before it are below it. */
  lemma {:induction false} OrderedCounts(xs: seq<real>, r: nat, v: real)
    requires Ordered(xs) && 1 <= r <= |xs| && v == xs[r - 1]
    ensures AtMost(xs, v) >= r && Below(xs, v) < r
  {
    assert Ordered(xs[1..]) by { assert forall i :: 0 <= i < |xs[1..]| ==> xs[1..][i] == xs[i + 1]; }
    if r == 1 {
      NoneBelow(xs, v);
    } else {
      assert xs[1..][r - 2] == v && xs[0] <= v;
      OrderedCounts(xs[1..], r - 1, v);
    }
  }

  lemma {:induction false} NoneBelow(xs: seq<real>, v: real)
    requires forall i :: 0 <= i < |xs| ==> v <= xs[i]
    ensures Below(xs, v) == 0
  {
    if xs != [] { NoneBelow(xs[1..], v); }
  }

  function OrderStatistic(xs: seq<real>, r: nat): real
    requires 1 <= r <= |xs|
  {
    Sort(xs)[r - 1]
  }

  /** The r-th order statistic: at least r values are at most it, fewer than r are below it, and it is one of them. */
  lemma OrderStatisticIs(xs: seq<real>, r: nat)
    requires 1 <= r <= |xs|
    ensures var v := OrderStatistic(xs, r); AtMost(xs, v) >= r && Below(xs, v) < r && v in xs
  {
    var v := OrderStatistic(xs, r);
    SortFacts(xs, v);
    OrderedCounts(Sort(xs), r, v);
    assert v in Sort(xs);
    hide Sort, AtMost, Below;
  }

  function Ceiling(x: real): int { -((-x).Floor) }

  /** rank = ceil((n + 1) p). */
  function Rank(n: nat, p: real): int { Ceiling((n as real + 1.0) * p) }

  lemma RankPositive(n: nat, p: real)
    requires p > 0.0
    ensures Rank(n, p) >= 1 && Rank(n, p) as real >= (n as real + 1.0) * p
  {
    var x := (n as real + 1.0) * p;
    Positive(n as real + 1.0, p);
    assert (-x).Floor as real <= -x;
  }

  datatype Calibration =
    | Available(scale: real, rank: nat)
    | ZeroWidth(rank: nat)
    | TooFewGroups(rank: nat)

  /** `conformal_scale` on the scores of named groups. */
  function Calibrate(scores: seq<real>, p: real): Result<Calibration> {
    if !(0.0 < p < 1.0) || scores == [] || exists i :: 0 <= i < |scores| && scores[i] < 0.0 then Err
    else
      RankPositive(|scores|, p);
      var rank := Rank(|scores|, p);
      if rank > |scores| then Ok(TooFewGroups(rank))
      else
        var scale := OrderStatistic(scores, rank);
        Ok(if scale > 0.0 then Available(scale, rank) else ZeroWidth(rank))
  }

  /** The order statistic a calibration with enough groups has found; a zero width is 0. */
  function Threshold(c: Calibration): real
    requires !c.TooFewGroups?
  {
    if c.Available? then c.scale else 0.0
  }

  lemma ThresholdIs(scores: seq<real>, p: real)
    requires Calibrate(scores, p).Ok? && Rank(|scores|, p) <= |scores|
    ensures 1 <= Rank(|scores|, p) && !Calibrate(scores, p).value.TooFewGroups?
    ensures Threshold(Calibrate(scores, p).value) == OrderStatistic(scores, Rank(|scores|, p))
  {
    RankPositive(|scores|, p);
    var v := OrderStatistic(scores, Rank(|scores|, p));
    OrderStatisticIs(scores, Rank(|scores|, p));
    hide OrderStatistic, Rank;
    assert v >= 0.0;
  }

  ghost function PlacesAtMost(xs: seq<real>, v: real): set<int> { set i | 0 <= i < |xs| && xs[i] <= v }
  ghost function PlacesBelow(xs: seq<real>, v: real): set<int> { set i | 0 <= i < |xs| && xs[i] < v }

  lemma PlacesAppend(xs: seq<real>, x: real, v: real)
    ensures PlacesAtMost(xs + [x], v) == PlacesAtMost(xs, v) + if x <= v then {|xs|} else {}
    ensures PlacesBelow(xs + [x], v) == PlacesBelow(xs, v) + if x < v then {|xs|} else {}
    ensures |xs| !in PlacesAtMost(xs, v) && |xs| !in PlacesBelow(xs, v)
  {
    assert forall i :: 0 <= i < |xs| ==> (xs + [x])[i] == xs[i];
  }

  /** The two counts are numbers of places. */
  lemma {:induction false} CountsAre(xs: seq<real>, v: real)
    ensures AtMost(xs, v) == |PlacesAtMost(xs, v)| && Below(xs, v) == |PlacesBelow(xs, v)|
  {
    if xs != [] {
      var front, x := xs[..|xs| - 1], xs[|xs| - 1];
      assert xs == front + [x];
      hide *;
      CountsAre(front, v);
      CountsAppend(front, x, v);
      PlacesAppend(front, x, v);
    }
  }

  lemma {:induction false} CountsAppend(xs: seq<real>, x: real, v: real)
    ensures AtMost(xs + [x], v) == AtMost(xs, v) + if x <= v then 1 else 0
    ensures Below(xs + [x], v) == Below(xs, v) + if x < v then 1 else 0
  {
    if xs == [] {
      assert [x][1..] == [];
    } else {
      assert (xs + [x])[1..] == xs[1..] + [x];
      CountsAppend(xs[1..], x, v);
    }
  }

  /** The rank is (n + 1) p rounded up. */
  lemma RankIs(n: nat, p: real)
    ensures Rank(n, p) as real - 1.0 < (n as real + 1.0) * p <= Rank(n, p) as real
  {
    var x := (n as real + 1.0) * p;
    assert (-x).Floor as real <= -x < (-x).Floor as real + 1.0;
  }

  /** Which calibration the scores give, told by counting: refused on a bad probability, no scores or a negative score; too few
      groups when the rank exceeds them; otherwise the score with fewer than rank scores below it and at least rank not above it,
      available unless it is zero. */
  lemma CalibratedExactly(scores: seq<real>, p: real, k: int)
    requires k as real - 1.0 < (|scores| as real + 1.0) * p <= k as real
    ensures var c := Calibrate(scores, p);
            if p <= 0.0 || p >= 1.0 || scores == [] || exists i :: 0 <= i < |scores| && scores[i] < 0.0 then c == Err
            else if k > |scores| then c == Ok(TooFewGroups(k))
            else exists v :: v in scores
                   && |PlacesBelow(scores, v)| < k <= |PlacesAtMost(scores, v)|
                   && c == Ok(if v > 0.0 then Available(v, k) else ZeroWidth(k))
  {
    RankIs(|scores|, p);
    assert k == Rank(|scores|, p);
    if 0.0 < p < 1.0 && 1 <= k <= |scores| {
      OrderStatisticIs(scores, k);
      CountsAre(scores, OrderStatistic(scores, k));
    }
    if 0.0 < p {
      RankPositive(|scores|, p);
    }
    hide OrderStatistic, AtMost, Below, Rank, PlacesBelow, PlacesAtMost;
  }

  // ---------- the counting guarantee ----------

  function Without(s: seq<real>, i: nat): seq<real>
    requires i < |s|
  {
    s[..i] + s[i + 1..]
  }

  lemma {:induction false} BelowConcat(a: seq<real>, b: seq<real>, v: real)
    ensures Below(a + b, v) == Below(a, v) + Below(b, v)
  {
    if a == [] {
      assert a + b == b;
    } else {
      assert (a + b)[1..] == a[1..] + b;
      BelowConcat(a[1..], b, v);
    }
  }

  lemma BelowWithout(s: seq<real>, i: nat, v: real)
    requires i < |s|
    ensures Below(Without(s, i), v) <= Below(s, v)
  {
    BelowConcat(s[..i], s[i + 1..], v);
    BelowConcat(s[..i], s[i..], v);
    assert s == s[..i] + s[i..];
    assert s[i..][1..] == s[i + 1..];
  }

  lemma {:induction false} AtMostIsBelow(xs: seq<real>, u: real, v: real)
    requires u < v
    ensures AtMost(xs, u) <= Below(xs, v)
  {
    if xs != [] { AtMostIsBelow(xs[1..], u, v); }
  }

  lemma {:induction false} BelowMonotone(xs: seq<real>, u: real, v: real)
    requires u <= v
    ensures Below(xs, u) <= Below(xs, v)
  {
    if xs != [] { BelowMonotone(xs[1..], u, v); }
  }

  /** A score at most the r-th order statistic of all the scores is at most the r-th order statistic of the others. */
  lemma LowScoreIsCovered(s: seq<real>, i: nat, r: nat)
    requires i < |s| && 1 <= r <= |s| - 1 && s[i] <= OrderStatistic(s, r)
    ensures s[i] <= OrderStatistic(Without(s, i), r)
  {
    var t, u := OrderStatistic(s, r), OrderStatistic(Without(s, i), r);
    OrderStatisticIs(s, r);
    OrderStatisticIs(Without(s, i), r);
    hide OrderStatistic, AtMost, Below;
    if u < s[i] {
      AtMostIsBelow(Without(s, i), u, s[i]);
      BelowWithout(s, i, s[i]);
      BelowMonotone(s, s[i], t);
    }
  }

  /** How many of the first k scores the calibration on the others covers. */
  ghost function CountCovered(s: seq<real>, r: nat, k: nat): nat
    requires k <= |s| && 1 <= r <= |s| - 1
  {
    if k == 0 then 0
    else CountCovered(s, r, k - 1) + if s[k - 1] <= OrderStatistic(Without(s, k - 1), r) then 1 else 0
  }

  lemma {:induction false} AtMostAppends(s: seq<real>, k: nat, v: real)
    requires k < |s|
    ensures AtMost(s[..k + 1], v) == AtMost(s[..k], v) + if s[k] <= v then 1 else 0
  {
    if k == 0 {
      assert s[..1] == [s[0]] && s[..1][1..] == [];
    } else {
      assert s[..k + 1][1..] == s[1..][..k] && s[..k][1..] == s[1..][..k - 1];
      AtMostAppends(s[1..], k - 1, v);
    }
  }

  lemma {:induction false} CoveredAtLeast(s: seq<real>, r: nat, k: nat)
    requires k <= |s| && 1 <= r <= |s| - 1
    ensures CountCovered(s, r, k) >= AtMost(s[..k], OrderStatistic(s, r))
  {
    if k > 0 {
      CoveredAtLeast(s, r, k - 1);
      AtMostAppends(s, k - 1, OrderStatistic(s, r));
      if s[k - 1] <= OrderStatistic(s, r) {
        LowScoreIsCovered(s, k - 1, r);
      }
      hide OrderStatistic, AtMost, Without;
    } else {
      assert s[..0] == [];
    }
  }

  /** The scores covered by the calibration on the others. */
  ghost function CoveredPlaces(s: seq<real>, r: nat, k: nat): set<nat>
    requires k <= |s| && 1 <= r <= |s| - 1
  {
    set i: nat | i < k && s[i] <= OrderStatistic(Without(s, i), r)
  }

  lemma PlacesGrow(s: seq<real>, r: nat, k: nat)
    requires k < |s| && 1 <= r <= |s| - 1
    ensures CoveredPlaces(s, r, k + 1) == CoveredPlaces(s, r, k) + if s[k] <= OrderStatistic(Without(s, k), r) then {k} else {}
    ensures k !in CoveredPlaces(s, r, k)
  {
    hide OrderStatistic, Without;
  }

  lemma {:induction false} CountedPlaces(s: seq<real>, r: nat, k: nat)
    requires k <= |s| && 1 <= r <= |s| - 1
    ensures CountCovered(s, r, k) == |CoveredPlaces(s, r, k)|
  {
    hide OrderStatistic, Without;
    if k == 0 {
      assert CoveredPlaces(s, r, 0) == {};
    } else {
      CountedPlaces(s, r, k - 1);
      PlacesGrow(s, r, k - 1);
      hide CoveredPlaces;
    }
  }

  /** For any n + 1 scores with rank = ceil((n + 1) p) <= n, at least rank of them, a share of at least p, are at most the
      threshold calibrated on the other n. */
  lemma ConformalCoverage(s: seq<real>, p: real)
    requires |s| >= 2 && 0.0 < p < 1.0 && Rank(|s| - 1, p) <= |s| - 1
    ensures 1 <= Rank(|s| - 1, p)
    ensures |CoveredPlaces(s, Rank(|s| - 1, p), |s|)| >= Rank(|s| - 1, p)
    ensures |CoveredPlaces(s, Rank(|s| - 1, p), |s|)| as real >= p * (|s| as real)
  {
    hide *;
    RankPositive(|s| - 1, p);
    var r := Rank(|s| - 1, p);
    CoveredAtLeast(s, r, |s|);
    CountedPlaces(s, r, |s|);
    OrderStatisticIs(s, r);
    assert s[..|s|] == s;
    ShareIs(|s| - 1, |s|, p);
  }

  lemma ShareIs(n: nat, m: nat, p: real)
    requires m == n + 1
    ensures p * (m as real) == (n as real + 1.0) * p
  {
  }

  // ---------- the score of a case ----------

  /** The functions of analysis the score uses. */
  datatype Analysis = Analysis(log: real -> real, log1p: real -> real, expm1: real -> real, sqrt: real -> real)

  ghost predicate Sound(k: Analysis) {
    && (forall x :: x >= 0.0 ==> k.sqrt(x) >= 0.0 && k.sqrt(x) * k.sqrt(x) == x)
    && k.log1p(0.0) == 0.0 && (forall x :: x > 0.0 ==> k.log1p(x) > 0.0)
    && (forall x :: x > 0.0 ==> k.expm1(x) > 0.0 && k.log1p(k.expm1(x)) == x)
  }

  datatype Row = Row(lift: real, drag: real, moment: real)

  /** Measured rows, the prior's rows and standard deviations, their angles, and whether the case carries fitting anchors. */
  datatype Case = Case(truth: seq<Row>, predicted: seq<Row>, deviation: seq<Row>, truthAngles: seq<real>, angles: seq<real>, anchored: bool)

  function Greater(a: real, b: real): real { if a < b then b else a }

  const WIDTH_FACTOR: real := 1.96

  /** ln(1 + (deviation / drag)^2), the log-normal variance of a drag deviation. */
  function LogVariance(k: Analysis, deviation: real, drag: real): real
    requires drag != 0.0
  {
    k.log1p(Times(Over(deviation, drag), Over(deviation, drag)))
  }

  /** A row's score: the larger of its lift score and its log-drag score; a zero width is not finite. */
  function RowScore(k: Analysis, truth: Row, predicted: Row, deviation: Row): Result<real> {
    if truth.drag <= 0.0 || predicted.drag <= 0.0 || Times(WIDTH_FACTOR, deviation.lift) == 0.0 then Err
    else
      var width := Times(WIDTH_FACTOR, k.sqrt(LogVariance(k, deviation.drag, predicted.drag)));
      if width == 0.0 then Err
      else Ok(Greater(Over(Absolute(truth.lift - predicted.lift), Times(WIDTH_FACTOR, deviation.lift)),
                      Over(Absolute(k.log(truth.drag) - k.log(predicted.drag)), width)))
  }

  function RowsScore(k: Analysis, c: Case, n: nat): Result<real>
    requires 1 <= n <= |c.truth| && |c.truth| == |c.predicted| == |c.deviation|
  {
    var last := RowScore(k, c.truth[n - 1], c.predicted[n - 1], c.deviation[n - 1]);
    if last.Err? then Err
    else if n == 1 then last
    else
      var before := RowsScore(k, c, n - 1);
      if before.Err? then Err else Ok(Greater(before.value, last.value))
  }

  /** `case_score`. */
  function CaseScore(k: Analysis, c: Case): Result<real> {
    if |c.truth| != |c.predicted| || |c.deviation| != |c.predicted| || c.truthAngles != c.angles || c.anchored || c.truth == [] then Err
    else RowsScore(k, c, |c.truth|)
  }

  /** The scaled standard deviation of a row. */
  function ScaledRow(k: Analysis, scale: real, coefficients: Row, original: Row): Result<Row> {
    if coefficients.drag == 0.0 then Err
    else
      var variance := LogVariance(k, original.drag, coefficients.drag);
      var row := Row(Times(original.lift, scale), Times(coefficients.drag, k.sqrt(k.expm1(Times(Times(scale, scale), variance)))), original.moment);
      if row.lift > 0.0 && row.drag > 0.0 && row.moment > 0.0 then Ok(row) else Err
  }

  /** The drag deviation whose logarithmic width is scale times the original one. */
  ghost function ScaledDrag(k: Analysis, scale: real, drag: real, deviation: real): real
    requires drag != 0.0
  {
    DragOfVariance(k, scale, drag, k.log1p(Squared(deviation / drag)))
  }

  ghost function DragOfVariance(k: Analysis, scale: real, drag: real, variance: real): real {
    drag * k.sqrt(k.expm1((scale * scale) * variance))
  }

  /** When a row's deviations can be scaled, and what they become; the moment's is kept. */
  lemma ScaledRowExactly(k: Analysis, scale: real, coefficients: Row, original: Row)
    ensures ScaledRow(k, scale, coefficients, original).Ok? <==>
              && coefficients.drag != 0.0 && original.lift * scale > 0.0 && original.moment > 0.0
              && ScaledDrag(k, scale, coefficients.drag, original.drag) > 0.0
    ensures ScaledRow(k, scale, coefficients, original).Ok? ==>
              ScaledRow(k, scale, coefficients, original).value
              == Row(original.lift * scale, ScaledDrag(k, scale, coefficients.drag, original.drag), original.moment)
  {
    if coefficients.drag != 0.0 {
      ScaledDragIs(k, scale, coefficients.drag, original.drag);
      assert Times(original.lift, scale) == original.lift * scale;
      hide Times, ScaledDrag, LogVariance;
    }
  }

  lemma ScaledDragIs(k: Analysis, scale: real, drag: real, deviation: real)
    requires drag != 0.0
    ensures Times(drag, k.sqrt(k.expm1(Times(Times(scale, scale), LogVariance(k, deviation, drag))))) == ScaledDrag(k, scale, drag, deviation)
  {
    LogVarianceIs(k, drag, deviation);
    ScaledDragOf(k, scale, drag, k.log1p(Squared(deviation / drag)));
    hide Squared, Times, LogVariance, DragOfVariance;
  }

  lemma LogVarianceIs(k: Analysis, drag: real, deviation: real)
    requires drag != 0.0
    ensures LogVariance(k, deviation, drag) == k.log1p(Squared(deviation / drag))
  {
    TimesItself(Over(deviation, drag));
    assert Over(deviation, drag) == deviation / drag;
    hide Squared, Times;
  }

  lemma ScaledDragOf(k: Analysis, scale: real, drag: real, variance: real)
    ensures Times(drag, k.sqrt(k.expm1(Times(Times(scale, scale), variance)))) == DragOfVariance(k, scale, drag, variance)
  {
    assert Times(Times(scale, scale), variance) == (scale * scale) * variance;
  }

  /** `scale_prior`. */
  method ScalePrior(k: Analysis, c: Case, scale: real) returns (r: Result<Case>)
    ensures r.Ok? <==> scale > 0.0 && |c.predicted| == |c.deviation|
                       && forall i :: 0 <= i < |c.predicted| ==> ScaledRow(k, scale, c.predicted[i], c.deviation[i]).Ok?
    ensures r.Ok? ==> ScaledBy(k, scale, c, r.value)
  {
    if scale <= 0.0 || |c.predicted| != |c.deviation| {
      return Err;
    }
    var deviations: seq<Row> := [];
    hide ScaledRow;
    for n := 0 to |c.predicted|
      invariant |deviations| == n
      invariant forall i :: 0 <= i < n ==> ScaledRow(k, scale, c.predicted[i], c.deviation[i]) == Ok(deviations[i])
    {
      var row := ScaledRow(k, scale, c.predicted[n], c.deviation[n]);
      if row.Err? {
        return Err;
      }
      deviations := deviations + [row.value];
    }
    r := Ok(c.(deviation := deviations));
  }

  /** Only the deviations change, row by row. */
  ghost predicate ScaledBy(k: Analysis, scale: real, c: Case, d: Case) {
    && d == c.(deviation := d.deviation) && |d.deviation| == |c.deviation| == |c.predicted|
    && forall i :: 0 <= i < |c.predicted| ==> ScaledRow(k, scale, c.predicted[i], c.deviation[i]) == Ok(d.deviation[i])
  }

  // ---------- what the score says ----------

  /** The standard deviation of the logarithm of the drag. */
  ghost function LogDeviation(k: Analysis, deviation: real, drag: real): real
    requires drag != 0.0
  {
    k.sqrt(k.log1p(Squared(deviation / drag)))
  }

  function Squared(x: real): real { x * x }

  lemma LogDeviationIs(k: Analysis, deviation: real, drag: real)
    requires drag != 0.0
    ensures LogDeviation(k, deviation, drag) == k.sqrt(LogVariance(k, deviation, drag))
  {
    TimesItself(Over(deviation, drag));
    assert Over(deviation, drag) == deviation / drag;
    hide Squared, Times;
  }

  lemma TimesItself(x: real)
    ensures Times(x, x) == Squared(x)
  {
  }

  /** The measured row lies within v times the prior's 95 % interval: normal for lift, log-normal for drag. */
  ghost predicate InBand(k: Analysis, truth: Row, predicted: Row, deviation: Row, v: real)
    requires predicted.drag != 0.0
  {
    var lift, drag := truth.lift - predicted.lift, k.log(truth.drag) - k.log(predicted.drag);
    var liftWidth, dragWidth := 1.96 * deviation.lift, 1.96 * LogDeviation(k, deviation.drag, predicted.drag);
    -(v * liftWidth) <= lift <= v * liftWidth && -(v * dragWidth) <= drag <= v * dragWidth
  }

  ghost predicate RowInBand(k: Analysis, c: Case, i: nat, v: real)
    requires i < |c.truth| == |c.predicted| == |c.deviation|
  {
    c.predicted[i].drag != 0.0 && InBand(k, c.truth[i], c.predicted[i], c.deviation[i], v)
  }

  lemma RatioBand(error: real, width: real, v: real)
    requires width > 0.0
    ensures Over(Absolute(error), width) <= v <==> -(v * width) <= error <= v * width
  {
    OverFacts(Absolute(error), width);
    var q, size := Over(Absolute(error), width), Absolute(error);
    assert -(v * width) <= error <= v * width <==> size <= v * width;
    hide Over, Absolute;
    ScaledOrder(q, v, width);
  }

  lemma ScaledOrder(q: real, v: real, width: real)
    requires width > 0.0
    ensures q <= v <==> q * width <= v * width
  {
    if q <= v {
      Nonnegative(v - q, width);
    } else {
      Positive(q - v, width);
    }
  }

  lemma RowScoreBands(k: Analysis, truth: Row, predicted: Row, deviation: Row, v: real)
    requires Sound(k) && RowScore(k, truth, predicted, deviation).Ok? && deviation.lift > 0.0
    ensures predicted.drag != 0.0
    ensures RowScore(k, truth, predicted, deviation).value <= v <==> InBand(k, truth, predicted, deviation, v)
  {
    RowScoreParts(k, truth, predicted, deviation);
    hide *;
    InBandIs(k, truth, predicted, deviation, v);
    GreaterBands(truth.lift - predicted.lift, k.log(truth.drag) - k.log(predicted.drag),
                 1.96 * deviation.lift, 1.96 * LogDeviation(k, deviation.drag, predicted.drag), v);
  }

  ghost predicate Bands(lift: real, drag: real, liftWidth: real, dragWidth: real, v: real) {
    -(v * liftWidth) <= lift <= v * liftWidth && -(v * dragWidth) <= drag <= v * dragWidth
  }

  lemma GreaterBands(lift: real, drag: real, liftWidth: real, dragWidth: real, v: real)
    requires liftWidth > 0.0 && dragWidth > 0.0
    ensures Greater(Over(Absolute(lift), liftWidth), Over(Absolute(drag), dragWidth)) <= v <==> Bands(lift, drag, liftWidth, dragWidth, v)
  {
    RatioBand(lift, liftWidth, v);
    RatioBand(drag, dragWidth, v);
    hide Over, Absolute;
  }

  lemma InBandIs(k: Analysis, truth: Row, predicted: Row, deviation: Row, v: real)
    requires predicted.drag != 0.0
    ensures InBand(k, truth, predicted, deviation, v)
            <==> Bands(truth.lift - predicted.lift, k.log(truth.drag) - k.log(predicted.drag),
                       1.96 * deviation.lift, 1.96 * LogDeviation(k, deviation.drag, predicted.drag), v)
  {
    hide LogDeviation;
  }

  /** A row's score in the terms of the bands. */
  lemma RowScoreParts(k: Analysis, truth: Row, predicted: Row, deviation: Row)
    requires Sound(k) && RowScore(k, truth, predicted, deviation).Ok? && deviation.lift > 0.0
    ensures predicted.drag != 0.0 && 1.96 * deviation.lift > 0.0 && 1.96 * LogDeviation(k, deviation.drag, predicted.drag) > 0.0
    ensures var lift, drag := truth.lift - predicted.lift, k.log(truth.drag) - k.log(predicted.drag);
            RowScore(k, truth, predicted, deviation).value
            == Greater(Over(Absolute(lift), 1.96 * deviation.lift), Over(Absolute(drag), 1.96 * LogDeviation(k, deviation.drag, predicted.drag)))
  {
    LogDeviationIs(k, deviation.drag, predicted.drag);
    RootIsNonnegative(k, deviation.drag, predicted.drag);
    TimesWidth(LogDeviation(k, deviation.drag, predicted.drag));
    TimesWidth(deviation.lift);
    hide Over, Absolute, Times, LogVariance, LogDeviation, Sound, Greater;
  }

  lemma TimesWidth(x: real)
    ensures Times(WIDTH_FACTOR, x) == 1.96 * x
  {
  }

  lemma RootIsNonnegative(k: Analysis, deviation: real, drag: real)
    requires Sound(k) && drag != 0.0
    ensures LogDeviation(k, deviation, drag) >= 0.0
  {
    var x := Squared(deviation / drag);
    SquareIsNonnegative(deviation / drag);
    hide Squared;
    assert k.log1p(x) >= 0.0;
  }

  lemma SquareIsNonnegative(x: real)
    ensures Squared(x) >= 0.0
  {
    if x >= 0.0 { Nonnegative(x, x); } else { Nonnegative(-x, -x); }
  }

  lemma {:induction false} RowsScoreBands(k: Analysis, c: Case, n: nat, v: real)
    requires Sound(k) && |c.truth| == |c.predicted| == |c.deviation| && 1 <= n <= |c.truth| && RowsScore(k, c, n).Ok?
    requires forall i :: 0 <= i < n ==> c.deviation[i].lift > 0.0
    ensures RowsScore(k, c, n).value <= v <==> forall i :: 0 <= i < n ==> RowInBand(k, c, i, v)
  {
    hide Sound, RowScore, InBand;
    RowScoreBands(k, c.truth[n - 1], c.predicted[n - 1], c.deviation[n - 1], v);
    assert RowScore(k, c.truth[n - 1], c.predicted[n - 1], c.deviation[n - 1]).value <= v <==> RowInBand(k, c, n - 1, v);
    if n > 1 {
      RowsScoreBands(k, c, n - 1, v);
    }
    hide RowInBand;
  }

  /** The score of a case is the least factor by which its 95 % bands must be widened to hold every measured row. */
  lemma ScoreIsLeastFactor(k: Analysis, c: Case, v: real)
    requires Sound(k) && CaseScore(k, c).Ok? && forall i :: 0 <= i < |c.deviation| ==> c.deviation[i].lift > 0.0
    ensures |c.truth| == |c.predicted| == |c.deviation|
    ensures CaseScore(k, c).value <= v <==> forall i :: 0 <= i < |c.truth| ==> RowInBand(k, c, i, v)
  {
    RowsScoreBands(k, c, |c.truth|, v);
  }

  ghost predicate Scorable(k: Analysis, truth: Row, predicted: Row, deviation: Row) {
    truth.drag > 0.0 && predicted.drag > 0.0 && deviation.lift != 0.0 && LogDeviation(k, deviation.drag, predicted.drag) != 0.0
  }

  /** A case is scored exactly when it is complete, at the prior's own angles, without anchors, with positive drags and no zero width. */
  lemma ScoredExactly(k: Analysis, c: Case)
    ensures CaseScore(k, c).Ok? <==>
              && |c.truth| == |c.predicted| == |c.deviation| && c.truth != [] && c.truthAngles == c.angles && !c.anchored
              && forall i :: 0 <= i < |c.truth| ==> Scorable(k, c.truth[i], c.predicted[i], c.deviation[i])
  {
    hide Scorable, RowScore, RowsScore;
    if |c.truth| == |c.predicted| == |c.deviation| && c.truth != [] {
      RowsScoredExactly(k, c, |c.truth|);
    }
  }

  lemma RowScoredExactly(k: Analysis, truth: Row, predicted: Row, deviation: Row)
    ensures RowScore(k, truth, predicted, deviation).Ok? <==> Scorable(k, truth, predicted, deviation)
  {
    if predicted.drag != 0.0 {
      LogDeviationIs(k, deviation.drag, predicted.drag);
    }
    hide LogDeviation, LogVariance;
  }

  lemma {:induction false} RowsScoredExactly(k: Analysis, c: Case, n: nat)
    requires |c.truth| == |c.predicted| == |c.deviation| && 1 <= n <= |c.truth|
    ensures RowsScore(k, c, n).Ok? <==> forall i :: 0 <= i < n ==> Scorable(k, c.truth[i], c.predicted[i], c.deviation[i])
  {
    hide RowScore, Scorable;
    RowScoredExactly(k, c.truth[n - 1], c.predicted[n - 1], c.deviation[n - 1]);
    if n > 1 {
      RowsScoredExactly(k, c, n - 1);
    }
  }

  // ---------- scaling divides the score ----------

  lemma UniqueRoot(a: real, b: real)
    requires a >= 0.0 && b >= 0.0 && Times(a, a) == Times(b, b)
    ensures a == b
  {
    if a < b { SquareGrows(a, b); }
    if a > b { SquareGrows(b, a); }
    hide Times;
  }

  lemma SquareGrows(a: real, b: real)
    requires 0.0 <= a < b
    ensures Times(a, a) < Times(b, b)
  {
    var x, y, z, w := a * a, a * b, b * b, b - a;
    assert y - x == a * w && z - y == b * w;
    TimesPositive(b, w);
    if a > 0.0 { TimesPositive(a, w); }
  }

  lemma PositiveRoot(k: Analysis, x: real)
    requires Sound(k) && x > 0.0
    ensures k.sqrt(x) > 0.0 && Times(k.sqrt(x), k.sqrt(x)) == x
  {
    var y := k.sqrt(x);
    assert y >= 0.0 && y * y == x;
    ZeroSquare(y);
  }

  lemma ZeroSquare(y: real)
    ensures y == 0.0 ==> y * y == 0.0
  {
  }

  lemma TimesPositive(a: real, b: real)
    requires a > 0.0 && b > 0.0
    ensures Times(a, b) > 0.0
  {
    Positive(a, b);
  }

  lemma OverBack(a: real, b: real)
    requires b != 0.0
    ensures Times(Over(a, b), b) == a
  {
  }

  lemma OverOf(a: real, b: real, q: real)
    requires b != 0.0 && a == Times(b, q)
    ensures Over(a, b) == q
  {
    assert (b * q) / b == q;
  }

  /** The scaled drag deviation has exactly scale squared times the log variance. */
  lemma ScaledVariance(k: Analysis, scale: real, drag: real, variance: real, scaled: real)
    requires Sound(k) && scale > 0.0 && drag > 0.0 && variance > 0.0
    requires scaled == Times(drag, k.sqrt(k.expm1(Times(Times(scale, scale), variance))))
    ensures LogVariance(k, scaled, drag) == Times(Times(scale, scale), variance)
  {
    var v := Times(Times(scale, scale), variance);
    TimesPositive(scale, scale);
    TimesPositive(Times(scale, scale), variance);
    assert k.expm1(v) > 0.0 && k.log1p(k.expm1(v)) == v;
    PositiveRoot(k, k.expm1(v));
    OverOf(scaled, drag, k.sqrt(k.expm1(v)));
    hide Times, Over, Sound;
  }

  /** So its width is scale times the original width. */
  lemma ScaledRoot(k: Analysis, scale: real, variance: real)
    requires Sound(k) && scale > 0.0 && variance > 0.0
    ensures k.sqrt(variance) > 0.0
    ensures k.sqrt(Times(Times(scale, scale), variance)) == Times(scale, k.sqrt(variance))
  {
    var v := Times(Times(scale, scale), variance);
    hide Sound;
    TimesPositive(scale, scale);
    TimesPositive(Times(scale, scale), variance);
    PositiveRoot(k, variance);
    PositiveRoot(k, v);
    TimesPositive(scale, k.sqrt(variance));
    SquareOfProduct(scale, k.sqrt(variance), variance);
    UniqueRoot(k.sqrt(v), Times(scale, k.sqrt(variance)));
  }

  lemma SquareOfProduct(a: real, b: real, c: real)
    requires Times(b, b) == c
    ensures Times(Times(a, b), Times(a, b)) == Times(Times(a, a), c)
  {
    assert (a * b) * (a * b) == (a * a) * (b * b);
  }

  lemma DividedWidth(x: real, w: real, scale: real)
    requires w != 0.0 && scale > 0.0
    ensures Times(scale, w) != 0.0 && Over(x, Times(scale, w)) == Over(Over(x, w), scale)
  {
    TimesNonzero(scale, w);
    var q := Over(Over(x, w), scale);
    OverBack(x, w);
    OverBack(Over(x, w), scale);
    hide Over;
    assert Times(Times(scale, w), q) == Times(Times(q, scale), w);
    OverOf(x, Times(scale, w), q);
  }

  lemma TimesNonzero(a: real, b: real)
    requires a != 0.0 && b != 0.0
    ensures Times(a, b) != 0.0
  {
  }

  lemma GreaterDivides(a: real, b: real, scale: real)
    requires scale > 0.0
    ensures Greater(Over(a, scale), Over(b, scale)) == Over(Greater(a, b), scale)
  {
    OverBack(a, scale);
    OverBack(b, scale);
    var x, y := Over(a, scale), Over(b, scale);
    hide Over;
    assert x * scale == a && y * scale == b;
    if x < y { Positive(y - x, scale); }
    if x > y { Positive(x - y, scale); }
  }

  /** One row: the score is divided by the scale. */
  lemma RowScales(k: Analysis, scale: real, truth: Row, predicted: Row, deviation: Row, scaled: Row)
    requires Sound(k) && scale > 0.0 && ScaledRow(k, scale, predicted, deviation) == Ok(scaled)
    requires RowScore(k, truth, predicted, deviation).Ok?
    ensures RowScore(k, truth, predicted, scaled) == Ok(Over(RowScore(k, truth, predicted, deviation).value, scale))
  {
    RowFacts(k, scale, truth, predicted, deviation, scaled);
    var variance := LogVariance(k, deviation.drag, predicted.drag);
    hide *;
    VariancePositive(k, deviation.drag, predicted.drag);
    ScaledVariance(k, scale, predicted.drag, variance, scaled.drag);
    ScaledRoot(k, scale, variance);
    Reorder(WIDTH_FACTOR, scale, k.sqrt(variance));
    Reorder(WIDTH_FACTOR, scale, deviation.lift);
    var lift, drag := Absolute(truth.lift - predicted.lift), Absolute(k.log(truth.drag) - k.log(predicted.drag));
    DividedWidth(lift, Times(WIDTH_FACTOR, deviation.lift), scale);
    DividedWidth(drag, Times(WIDTH_FACTOR, k.sqrt(variance)), scale);
    GreaterDivides(Over(lift, Times(WIDTH_FACTOR, deviation.lift)), Over(drag, Times(WIDTH_FACTOR, k.sqrt(variance))), scale);
    RowScoreIs(k, truth, predicted, scaled);
  }

  lemma Reorder(z: real, scale: real, x: real)
    ensures Times(z, Times(x, scale)) == Times(scale, Times(z, x)) && Times(z, Times(scale, x)) == Times(scale, Times(z, x))
  {
    assert z * (x * scale) == scale * (z * x);
  }

  lemma VariancePositive(k: Analysis, deviation: real, drag: real)
    requires Sound(k) && drag > 0.0 && deviation != 0.0
    ensures LogVariance(k, deviation, drag) > 0.0
  {
    var q := Over(deviation, drag);
    OverBack(deviation, drag);
    assert q != 0.0;
    SquarePositive(q);
    hide Over, Times;
  }

  lemma SquarePositive(q: real)
    requires q != 0.0
    ensures Times(q, q) > 0.0
  {
    var a := if q < 0.0 then -q else q;
    TimesPositive(a, a);
    assert a * a == q * q;
  }

  /** The facts the row proof starts from; a nonzero drag deviation follows from the finite scaled one. */
  lemma RowFacts(k: Analysis, scale: real, truth: Row, predicted: Row, deviation: Row, scaled: Row)
    requires Sound(k) && scale > 0.0 && ScaledRow(k, scale, predicted, deviation) == Ok(scaled)
    requires RowScore(k, truth, predicted, deviation).Ok?
    ensures truth.drag > 0.0 && predicted.drag > 0.0 && deviation.drag != 0.0
    ensures scaled.lift == Times(deviation.lift, scale)
    ensures scaled.drag == Times(predicted.drag, k.sqrt(k.expm1(Times(Times(scale, scale), LogVariance(k, deviation.drag, predicted.drag)))))
    ensures var lift, drag := Absolute(truth.lift - predicted.lift), Absolute(k.log(truth.drag) - k.log(predicted.drag));
            var width := Times(WIDTH_FACTOR, k.sqrt(LogVariance(k, deviation.drag, predicted.drag)));
            && Times(WIDTH_FACTOR, deviation.lift) != 0.0 && width != 0.0
            && RowScore(k, truth, predicted, deviation).value == Greater(Over(lift, Times(WIDTH_FACTOR, deviation.lift)), Over(drag, width))
  {
    ZeroDeviation(k, predicted.drag);
    hide Times, Greater, Absolute, WIDTH_FACTOR, LogVariance, Over;
  }

  /** Without a drag deviation the width is zero and the score not finite. */
  lemma ZeroDeviation(k: Analysis, drag: real)
    requires Sound(k)
    ensures drag != 0.0 ==> Times(WIDTH_FACTOR, k.sqrt(LogVariance(k, 0.0, drag))) == 0.0
  {
    if drag != 0.0 {
      assert Over(0.0, drag) == 0.0;
      assert LogVariance(k, 0.0, drag) == 0.0;
      var y := k.sqrt(0.0);
      assert y * y == 0.0;
      if y != 0.0 { TimesNonzero(y, y); }
    }
  }

  lemma RowScoreIs(k: Analysis, truth: Row, predicted: Row, deviation: Row)
    requires truth.drag > 0.0 && predicted.drag > 0.0 && Times(WIDTH_FACTOR, deviation.lift) != 0.0
    requires Times(WIDTH_FACTOR, k.sqrt(LogVariance(k, deviation.drag, predicted.drag))) != 0.0
    ensures var lift, drag := Absolute(truth.lift - predicted.lift), Absolute(k.log(truth.drag) - k.log(predicted.drag));
            RowScore(k, truth, predicted, deviation)
            == Ok(Greater(Over(lift, Times(WIDTH_FACTOR, deviation.lift)),
                          Over(drag, Times(WIDTH_FACTOR, k.sqrt(LogVariance(k, deviation.drag, predicted.drag))))))
  {
    hide Times, Greater, Absolute, WIDTH_FACTOR, LogVariance, Over;
  }

  lemma {:induction false} RowsScale(k: Analysis, scale: real, c: Case, d: Case, n: nat)
    requires Sound(k) && scale > 0.0 && ScaledBy(k, scale, c, d) && |c.truth| == |c.predicted| == |c.deviation| && 1 <= n <= |c.truth|
    requires RowsScore(k, c, n).Ok?
    ensures RowsScore(k, d, n) == Ok(Over(RowsScore(k, c, n).value, scale))
  {
    hide ScaledRow, RowScore, Sound, Over;
    RowScales(k, scale, c.truth[n - 1], c.predicted[n - 1], c.deviation[n - 1], d.deviation[n - 1]);
    if n > 1 {
      RowsScale(k, scale, c, d, n - 1);
      GreaterDivides(RowsScore(k, c, n - 1).value, RowScore(k, c.truth[n - 1], c.predicted[n - 1], c.deviation[n - 1]).value, scale);
    }
    hide Greater;
  }

  /** Scaling a prior by s divides the score of its case by exactly s, so the scaled case is covered exactly when the original
      score is at most s. */
  lemma ScalingDividesScore(k: Analysis, scale: real, c: Case, d: Case)
    requires Sound(k) && scale > 0.0 && ScaledBy(k, scale, c, d) && CaseScore(k, c).Ok?
    ensures CaseScore(k, d) == Ok(Over(CaseScore(k, c).value, scale))
    ensures CaseScore(k, d).value <= 1.0 <==> CaseScore(k, c).value <= scale
  {
    hide ScaledRow, Sound, RowsScore, Over;
    RowsScale(k, scale, c, d, |c.truth|);
    DividedAtMostOne(CaseScore(k, c).value, scale);
  }

  lemma DividedAtMostOne(x: real, scale: real)
    requires scale > 0.0
    ensures Over(x, scale) <= 1.0 <==> x <= scale
  {
    OverBack(x, scale);
    var q := Over(x, scale);
    hide Over;
    assert q * scale == x;
    if q < 1.0 { Positive(1.0 - q, scale); }
    if q > 1.0 { Positive(q - 1.0, scale); }
  }

  /** The prior of case i, scaled by the calibration on the other cases' scores, covers the case exactly when it is counted by
      ConformalCoverage: the scaled score is at most one. */
  lemma LeaveOneOut(k: Analysis, s: seq<real>, i: nat, p: real, c: Case, d: Case)
    requires Sound(k) && i < |s| && |s| >= 2 && Rank(|s| - 1, p) <= |s| - 1 && CaseScore(k, c) == Ok(s[i])
    requires Calibrate(Without(s, i), p).Ok? && Calibrate(Without(s, i), p).value.Available?
    requires ScaledBy(k, Calibrate(Without(s, i), p).value.scale, c, d)
    ensures 1 <= Rank(|s| - 1, p) && CaseScore(k, d).Ok?
    ensures CaseScore(k, d).value <= 1.0 <==> s[i] <= OrderStatistic(Without(s, i), Rank(|s| - 1, p))
  {
    ScalePositive(Without(s, i), p);
    ThresholdIs(Without(s, i), p);
    assert |Without(s, i)| == |s| - 1;
    hide Calibrate, CaseScore, Rank, OrderStatistic, ScaledBy, Sound;
    ScalingDividesScore(k, Calibrate(Without(s, i), p).value.scale, c, d);
  }

  lemma ScalePositive(scores: seq<real>, p: real)
    requires Calibrate(scores, p).Ok? && Calibrate(scores, p).value.Available?
    ensures Calibrate(scores, p).value.scale > 0.0
  {
    hide OrderStatistic, Rank;
  }
}

/** The time-weighted pressure mean of saved surface frames, and what it means: the exact mean of the piecewise-linear
    interpolant of the whole developed history. */
module PressureMean {

  import opened Arithmetic
  import opened Wrappers
  import opened PiecewiseLinear

  datatype Point = Point(x: real, p: real)

  /** One saved frame: the upper and lower surface pressures at a physical time. */
  datatype Sample = Sample(time: real, upper: seq<Point>, lower: seq<Point>)

  datatype Side = Upper | Lower

  datatype Window = Window(startup: real, minimumFrames: int, minimumDuration: real, writeInterval: real)

  datatype Reason = NoSavedFrames | InsufficientHistory | FrameGap

  datatype Answer =
    | Available(frames: nat, start: real, end: real, boundaries: seq<real>, upper: seq<Point>, lower: seq<Point>)
    | Unavailable(reason: Reason, frames: nat)
    | Raised

  function Surface(s: Sample, side: Side): seq<Point> { if side == Upper then s.upper else s.lower }

  function MeanOf(a: Answer, side: Side): seq<Point>
    requires a.Available?
  {
    if side == Upper then a.upper else a.lower
  }

  // ---------- sorting ----------

  function Insert(s: Sample, xs: seq<Sample>): seq<Sample> {
    if xs == [] || s.time <= xs[0].time then [s] + xs else [xs[0]] + Insert(s, xs[1..])
  }

  /** `sorted` by time: stable. */
  function SortByTime(xs: seq<Sample>): seq<Sample> {
    if xs == [] then [] else Insert(xs[0], SortByTime(xs[1..]))
  }

  ghost predicate Ordered(xs: seq<Sample>) { forall i, j :: 0 <= i < j < |xs| ==> xs[i].time <= xs[j].time }

  ghost predicate StrictlyOrdered(xs: seq<Sample>) { forall i, j :: 0 <= i < j < |xs| ==> xs[i].time < xs[j].time }

  lemma {:induction false} InsertAdds(s: Sample, xs: seq<Sample>)
    ensures multiset(Insert(s, xs)) == multiset(xs) + multiset{s}
  {
    if xs == [] || s.time <= xs[0].time {
    } else {
      InsertAdds(s, xs[1..]);
      assert xs == [xs[0]] + xs[1..];
    }
  }

  lemma PrependOrders(x: Sample, rest: seq<Sample>)
    requires Ordered(rest) && forall i :: 0 <= i < |rest| ==> x.time <= rest[i].time
    ensures Ordered([x] + rest)
  {
  }

  lemma {:induction false} InsertOrders(s: Sample, xs: seq<Sample>)
    requires Ordered(xs)
    ensures Ordered(Insert(s, xs))
  {
    if xs == [] || s.time <= xs[0].time {
    } else {
      var rest := Insert(s, xs[1..]);
      assert Insert(s, xs) == [xs[0]] + rest;
      assert Ordered(xs[1..]);
      forall i | 0 <= i < |rest| ensures xs[0].time <= rest[i].time {
        InsertAdds(s, xs[1..]);
        assert rest[i] in multiset(rest);
        hide Insert;
      }
      hide Insert, Ordered;
      InsertOrders(s, xs[1..]);
      PrependOrders(xs[0], rest);
    }
  }

  lemma {:induction false} SortOrders(xs: seq<Sample>)
    ensures Ordered(SortByTime(xs)) && multiset(SortByTime(xs)) == multiset(xs)
  {
    if xs != [] {
      SortOrders(xs[1..]);
      InsertOrders(xs[0], SortByTime(xs[1..]));
      InsertAdds(xs[0], SortByTime(xs[1..]));
      assert xs == [xs[0]] + xs[1..];
    }
  }

  /** Frames at distinct times have one order. */
  lemma {:induction false} OneOrder(xs: seq<Sample>, ys: seq<Sample>)
    requires Ordered(xs) && StrictlyOrdered(ys) && multiset(xs) == multiset(ys)
    ensures xs == ys
  {
    if xs == [] || ys == [] {
      assert |multiset(xs)| == |xs| && |multiset(ys)| == |ys|;
    } else {
      SameFirst(xs, ys);
      assert xs == [xs[0]] + xs[1..] && ys == [ys[0]] + ys[1..];
      assert multiset(xs[1..]) == multiset(xs) - multiset{xs[0]};
      assert multiset(ys[1..]) == multiset(ys) - multiset{ys[0]};
      assert Ordered(xs[1..]) && StrictlyOrdered(ys[1..]);
      hide Ordered, StrictlyOrdered;
      OneOrder(xs[1..], ys[1..]);
    }
  }

  lemma SameFirst(xs: seq<Sample>, ys: seq<Sample>)
    requires Ordered(xs) && StrictlyOrdered(ys) && multiset(xs) == multiset(ys) && xs != [] && ys != []
    ensures xs[0] == ys[0]
  {
    assert xs[0] in multiset(ys) && ys[0] in multiset(xs);
    var i :| 0 <= i < |ys| && ys[i] == xs[0];
    var j :| 0 <= j < |xs| && xs[j] == ys[0];
  }

  // ---------- the program ----------

  predicate UniqueTimes(xs: seq<Sample>) {
    && (forall i :: 0 <= i < |xs| ==> xs[i].time > 0.0)
    && (forall i :: 0 <= i < |xs| - 1 ==> xs[i].time < xs[i + 1].time)
  }

  lemma {:induction false} UniqueIsStrict(xs: seq<Sample>)
    requires UniqueTimes(xs)
    ensures StrictlyOrdered(xs)
  {
    if |xs| > 1 {
      forall i | 0 <= i < |xs[1..]| - 1 ensures xs[1..][i].time < xs[1..][i + 1].time {
        assert xs[1..][i] == xs[i + 1] && xs[1..][i + 1] == xs[(i + 1) + 1];
      }
      UniqueIsStrict(xs[1..]);
      forall i, j | 0 <= i < j < |xs| ensures xs[i].time < xs[j].time {
        assert xs[j] == xs[1..][j - 1];
        if i > 0 { assert xs[i] == xs[1..][i - 1]; }
        if i == 0 && j > 1 { assert xs[0 + 1] == xs[1..][0]; }
      }
    }
  }

  /** Frames at or after the startup time. */
  function Developed(xs: seq<Sample>, startup: real): seq<Sample> {
    if xs == [] then [] else (if xs[0].time >= startup then [xs[0]] else []) + Developed(xs[1..], startup)
  }

  /** The comparison interval: by default the whole developed history, otherwise inside it. */
  function Bounds(dev: seq<Sample>, interval: Option<(real, real)>): Option<(real, real)>
    requires dev != []
  {
    match interval
    case None => Some((dev[0].time, dev[|dev| - 1].time))
    case Some((start, end)) =>
      if start >= end || start < dev[0].time || end > dev[|dev| - 1].time then None else Some((start, end))
  }

  function CountWithin(xs: seq<Sample>, start: real, end: real): nat {
    if xs == [] then 0 else (if start <= xs[0].time <= end then 1 else 0) + CountWithin(xs[1..], start, end)
  }

  /** `searchsorted(..., side="right")`: how many times are at most x. */
  function SearchRight(xs: seq<Sample>, x: real): (n: nat)
    ensures n <= |xs|
  {
    if xs == [] || xs[0].time > x then 0 else 1 + SearchRight(xs[1..], x)
  }

  /** `searchsorted(..., side="left")`: how many times are below x. */
  function SearchLeft(xs: seq<Sample>, x: real): (n: nat)
    ensures n <= |xs|
  {
    if xs == [] || xs[0].time >= x then 0 else 1 + SearchLeft(xs[1..], x)
  }

  /** Python's xs[first:stop], with 0 <= first. */
  function Cut(xs: seq<Sample>, first: nat, stop: nat): seq<Sample> {
    if first <= stop <= |xs| then xs[first..stop] else []
  }

  /** The frames around [start, end]: the last at or before start up to the first at or after end. */
  function Slice(dev: seq<Sample>, start: real, end: real): seq<Sample>
    requires dev != []
  {
    Cut(dev, Max(0, SearchRight(dev, start) - 1), Min(|dev| - 1, SearchLeft(dev, end)) + 1)
  }

  predicate HasGap(xs: seq<Sample>, limit: real) {
    exists i :: 0 <= i < |xs| - 1 && xs[i + 1].time - xs[i].time > limit
  }

  function Coordinates(points: seq<Point>): seq<real> { seq(|points|, i requires 0 <= i < |points| => points[i].x) }

  /** Every frame samples the same strictly increasing surface coordinates, at least two of them. */
  predicate SameSampling(xs: seq<Sample>, side: Side)
    requires xs != []
  {
    var coordinates := Coordinates(Surface(xs[0], side));
    && (forall i :: 0 <= i < |xs| ==> Coordinates(Surface(xs[i], side)) == coordinates)
    && |coordinates| >= 2
    && (forall i :: 0 <= i < |coordinates| - 1 ==> coordinates[i] < coordinates[i + 1])
  }

  /** The pressure of one surface point through time; 0 stands in for a point a frame does not have. */
  function History(xs: seq<Sample>, side: Side, j: nat): seq<Frame> {
    seq(|xs|, i requires 0 <= i < |xs| =>
      Frame(xs[i].time, if j < |Surface(xs[i], side)| then Surface(xs[i], side)[j].p else 0.0))
  }

  lemma HistoryIncreasing(xs: seq<Sample>, side: Side, j: nat)
    requires StrictlyOrdered(xs)
    ensures Increasing(History(xs, side, j)) && |History(xs, side, j)| == |xs|
  {
  }

  /** The mean of one surface point: the trapezoid sum over the interval's knots, divided by its length. */
  function PointMean(xs: seq<Sample>, side: Side, j: nat, start: real, end: real): real
    requires xs != [] && StrictlyOrdered(xs) && start < end
  {
    HistoryIncreasing(xs, side, j);
    var h := History(xs, side, j);
    Over(Trapezoids(h, Knots(h, start, end)), end - start)
  }

  function SideMean(xs: seq<Sample>, side: Side, start: real, end: real): (r: seq<Point>)
    requires xs != [] && StrictlyOrdered(xs) && start < end
    ensures |r| == |Surface(xs[0], side)|
    ensures forall j :: 0 <= j < |r| ==> r[j] == Point(Surface(xs[0], side)[j].x, PointMean(xs, side, j, start, end))
  {
    var surface := Surface(xs[0], side);
    seq(|surface|, j requires 0 <= j < |surface| => Point(surface[j].x, PointMean(xs, side, j, start, end)))
  }

  /** The ends of the interval that are not frame times. */
  function Boundaries(xs: seq<Sample>, start: real, end: real): seq<real> {
    var times := set i | 0 <= i < |xs| :: xs[i].time;
    (if start in times then [] else [start]) + (if end in times then [] else [end])
  }

  function MeanOver(dev: seq<Sample>, w: Window, start: real, end: real): Answer
    requires dev != [] && StrictlyOrdered(dev)
  {
    var frames := CountWithin(dev, start, end);
    if frames < w.minimumFrames || end - start < w.minimumDuration then Unavailable(InsufficientHistory, frames)
    else
      var slice := Slice(dev, start, end);
      // the largest gap of a single frame is undefined
      if |slice| < 2 || start >= end then Raised
      else if HasGap(slice, w.writeInterval * 1.5) then Unavailable(FrameGap, frames)
      else if !SameSampling(slice, Upper) || !SameSampling(slice, Lower) then Raised
      else Available(frames, start, end, Boundaries(slice, start, end), SideMean(slice, Upper, start, end), SideMean(slice, Lower, start, end))
  }

  lemma {:induction false} DevelopedMembers(xs: seq<Sample>, startup: real)
    ensures forall s :: s in Developed(xs, startup) ==> s in xs
  {
    if xs != [] {
      DevelopedMembers(xs[1..], startup);
    }
  }

  lemma PrependStrict(x: Sample, rest: seq<Sample>)
    requires StrictlyOrdered(rest) && forall i :: 0 <= i < |rest| ==> x.time < rest[i].time
    ensures StrictlyOrdered([x] + rest)
  {
  }

  lemma {:induction false} DevelopedIsOrdered(xs: seq<Sample>, startup: real)
    requires StrictlyOrdered(xs)
    ensures StrictlyOrdered(Developed(xs, startup))
    ensures forall s :: s in Developed(xs, startup) ==> s in xs
  {
    DevelopedMembers(xs, startup);
    if xs != [] {
      var rest := Developed(xs[1..], startup);
      assert Developed(xs, startup) == if xs[0].time >= startup then [xs[0]] + rest else rest;
      assert StrictlyOrdered(xs[1..]);
      forall i | 0 <= i < |rest| ensures xs[0].time < rest[i].time {
        DevelopedMembers(xs[1..], startup);
        assert rest[i] in xs[1..];
        var n :| 0 <= n < |xs[1..]| && xs[1..][n] == rest[i];
        assert xs[n + 1] == rest[i];
      }
      hide Developed, StrictlyOrdered;
      DevelopedIsOrdered(xs[1..], startup);
      PrependStrict(xs[0], rest);
    }
  }

  function WeightedMean(samples: seq<Sample>, w: Window, interval: Option<(real, real)>): Answer {
    if samples == [] then Unavailable(NoSavedFrames, 0)
    else
      var ordered := SortByTime(samples);
      if !UniqueTimes(ordered) then Raised
      else
        UniqueIsStrict(ordered);
        DevelopedIsOrdered(ordered, w.startup);
        var dev := Developed(ordered, w.startup);
        if dev == [] then Unavailable(InsufficientHistory, 0)
        else
          match Bounds(dev, interval)
          case None => Raised
          case Some((start, end)) => MeanOver(dev, w, start, end)
  }

  /** The developed history that an available mean is about. */
  function DevelopedHistory(samples: seq<Sample>, w: Window): seq<Sample> { Developed(SortByTime(samples), w.startup) }

  // ---------- the slice ----------

  lemma {:induction false} SearchRightIs(xs: seq<Sample>, x: real)
    requires StrictlyOrdered(xs)
    ensures var n := SearchRight(xs, x); (n > 0 ==> xs[n - 1].time <= x) && (n < |xs| ==> x < xs[n].time)
  {
    if xs != [] && xs[0].time <= x {
      SearchRightIs(xs[1..], x);
    }
  }

  lemma {:induction false} SearchLeftIs(xs: seq<Sample>, x: real)
    requires StrictlyOrdered(xs)
    ensures var n := SearchLeft(xs, x); (n > 0 ==> xs[n - 1].time < x) && (n < |xs| ==> x <= xs[n].time)
  {
    if xs != [] && xs[0].time < x {
      SearchLeftIs(xs[1..], x);
    }
  }

  /** The slice brackets the interval, so nothing outside it matters. */
  lemma SliceBrackets(dev: seq<Sample>, start: real, end: real) returns (first: nat, last: nat)
    requires dev != [] && StrictlyOrdered(dev) && dev[0].time <= start < end <= dev[|dev| - 1].time
    ensures first < last < |dev| && Slice(dev, start, end) == dev[first..last + 1]
    ensures dev[first].time <= start && end <= dev[last].time
  {
    SearchRightIs(dev, start);
    SearchLeftIs(dev, end);
    first, last := Max(0, SearchRight(dev, start) - 1), Min(|dev| - 1, SearchLeft(dev, end));
    assert SearchRight(dev, start) > 0;
  }

  /** The mean of one surface point is the exact integral of the interpolant of its whole developed history. */
  lemma PointMeanIsExact(dev: seq<Sample>, side: Side, j: nat, start: real, end: real)
    requires dev != [] && StrictlyOrdered(dev) && dev[0].time <= start < end <= dev[|dev| - 1].time
    ensures var slice := Slice(dev, start, end);
            && slice != [] && StrictlyOrdered(slice) && Increasing(History(dev, side, j))
            && PointMean(slice, side, j, start, end) * (end - start) == Integral(History(dev, side, j), start, end)
  {
    hide *;
    var first, last := SliceBrackets(dev, start, end);
    var slice, h, part := Slice(dev, start, end), History(dev, side, j), History(Slice(dev, start, end), side, j);
    PartFacts(dev, first, last);
    HistoryIncreasing(dev, side, j);
    HistoryIncreasing(slice, side, j);
    HistorySlice(dev, side, j, first, last);
    HistoryTimes(dev, side, j);
    HistoryTimes(slice, side, j);
    SliceKeepsIntegral(h, first, last, start, end);
    KnotsFacts(part, start, end);
    KnotsCover(part, start, end);
    TrapezoidsIntegrate(part, Knots(part, start, end));
    PointMeanBack(slice, side, j, start, end);
  }

  lemma PartFacts(dev: seq<Sample>, first: nat, last: nat)
    requires StrictlyOrdered(dev) && first <= last < |dev|
    ensures StrictlyOrdered(dev[first..last + 1])
  {
  }

  lemma HistorySlice(dev: seq<Sample>, side: Side, j: nat, first: nat, last: nat)
    requires first <= last < |dev| && |History(dev, side, j)| == |dev|
    ensures History(dev[first..last + 1], side, j) == History(dev, side, j)[first..last + 1]
  {
  }

  lemma PointMeanBack(xs: seq<Sample>, side: Side, j: nat, start: real, end: real)
    requires xs != [] && StrictlyOrdered(xs) && start < end && |History(xs, side, j)| > 0 && Increasing(History(xs, side, j))
    ensures PointMean(xs, side, j, start, end) * (end - start)
            == Trapezoids(History(xs, side, j), Knots(History(xs, side, j), start, end))
  {
    OverFacts(Trapezoids(History(xs, side, j), Knots(History(xs, side, j), start, end)), end - start);
    hide Trapezoids, History, Knots, Over, StrictlyOrdered, Increasing;
  }

  lemma HistoryTimes(xs: seq<Sample>, side: Side, j: nat)
    ensures |History(xs, side, j)| == |xs|
    ensures forall i :: 0 <= i < |xs| ==> History(xs, side, j)[i].time == xs[i].time
  {
  }

  // ---------- the theorems ----------

  /** What an available answer rests on. */
  lemma AvailableFacts(samples: seq<Sample>, w: Window, interval: Option<(real, real)>)
    requires WeightedMean(samples, w, interval).Available?
    ensures var a, dev := WeightedMean(samples, w, interval), DevelopedHistory(samples, w);
            && dev != [] && StrictlyOrdered(dev) && StrictlyOrdered(SortByTime(samples))
            && dev[0].time <= a.start < a.end <= dev[|dev| - 1].time
            && Bounds(dev, interval) == Some((a.start, a.end)) && a == MeanOver(dev, w, a.start, a.end)
  {
    var ordered := SortByTime(samples);
    UniqueIsStrict(ordered);
    DevelopedIsOrdered(ordered, w.startup);
    var dev := Developed(ordered, w.startup);
    hide SortByTime, Developed, UniqueTimes, Slice, HasGap, SameSampling, SideMean, Boundaries, CountWithin, StrictlyOrdered;
  }

  lemma SlicedMean(dev: seq<Sample>, w: Window, start: real, end: real, side: Side, j: nat)
    requires dev != [] && StrictlyOrdered(dev) && dev[0].time <= start < end <= dev[|dev| - 1].time
    requires var a := MeanOver(dev, w, start, end); a.Available? && j < |MeanOf(a, side)|
    ensures var a, slice := MeanOver(dev, w, start, end), Slice(dev, start, end);
            && slice != [] && StrictlyOrdered(slice) && j < |Surface(slice[0], side)|
            && MeanOf(a, side)[j] == Point(Surface(slice[0], side)[j].x, PointMean(slice, side, j, start, end))
  {
    PointMeanIsExact(dev, side, j, start, end);
    hide Slice, PointMean, HasGap, SameSampling, Boundaries, CountWithin, History;
  }

  /** The call reports a mean for point j of this side. */
  ghost predicate Reports(samples: seq<Sample>, w: Window, interval: Option<(real, real)>, side: Side, j: nat) {
    WeightedMean(samples, w, interval).Available? && j < |MeanOf(WeightedMean(samples, w, interval), side)|
  }

  function Mean(samples: seq<Sample>, w: Window, interval: Option<(real, real)>, side: Side, j: nat): real
    requires Reports(samples, w, interval, side, j)
  {
    MeanOf(WeightedMean(samples, w, interval), side)[j].p
  }

  lemma ReportFacts(samples: seq<Sample>, w: Window, interval: Option<(real, real)>, side: Side, j: nat)
    requires Reports(samples, w, interval, side, j)
    ensures var a := WeightedMean(samples, w, interval);
            a.Available? && j < |MeanOf(a, side)| && Mean(samples, w, interval, side, j) == MeanOf(a, side)[j].p
  {
    hide WeightedMean, MeanOf;
  }

  /** `weighted_pressure_mean` is the exact mean of the interpolant of the whole developed history over [start, end]. */
  lemma MeanIsExact(samples: seq<Sample>, w: Window, interval: Option<(real, real)>, side: Side, j: nat)
    requires Reports(samples, w, interval, side, j)
    ensures WeightedMean(samples, w, interval).Available?
    ensures var a, h := WeightedMean(samples, w, interval), History(DevelopedHistory(samples, w), side, j);
            && a.start < a.end && |h| > 0 && h[0].time <= a.start && a.end <= h[|h| - 1].time && Increasing(h)
            && Mean(samples, w, interval, side, j) * (a.end - a.start) == Integral(h, a.start, a.end)
  {
    hide *;
    var a, dev := WeightedMean(samples, w, interval), DevelopedHistory(samples, w);
    ReportFacts(samples, w, interval, side, j);
    AvailableFacts(samples, w, interval);
    SlicedMean(dev, w, a.start, a.end, side, j);
    PointMeanIsExact(dev, side, j, a.start, a.end);
    HistoryTimes(dev, side, j);
  }

  /** The mean lies between the smallest and the largest sample of the developed history. */
  lemma MeanIsBounded(samples: seq<Sample>, w: Window, interval: Option<(real, real)>, side: Side, j: nat, low: real, high: real)
    requires Reports(samples, w, interval, side, j)
    requires var h := History(DevelopedHistory(samples, w), side, j); forall i :: 0 <= i < |h| ==> low <= h[i].value <= high
    ensures low <= Mean(samples, w, interval, side, j) <= high
  {
    hide *;
    MeanIsExact(samples, w, interval, side, j);
    var a, h := WeightedMean(samples, w, interval), History(DevelopedHistory(samples, w), side, j);
    IntegralIsBounded(h, a.start, a.end, low, high);
    Between(Mean(samples, w, interval, side, j), a.end - a.start, low, high);
  }

  lemma IntegralIsBounded(h: seq<Frame>, a: real, b: real, low: real, high: real)
    requires Increasing(h) && |h| > 0 && h[0].time <= a < b <= h[|h| - 1].time
    requires forall i :: 0 <= i < |h| ==> low <= h[i].value <= high
    ensures Times(low, b - a) <= Integral(h, a, b) <= Times(high, b - a)
  {
    KnotsFacts(h, a, b);
    KnotsCover(h, a, b);
    TrapezoidsIntegrate(h, Knots(h, a, b));
    TrapezoidsAreBounded(h, Knots(h, a, b), low, high);
    hide *;
  }

  lemma Between(m: real, d: real, low: real, high: real)
    requires d > 0.0 && Times(low, d) <= m * d <= Times(high, d)
    ensures low <= m <= high
  {
    if m < low { Positive(low - m, d); }
    if m > high { Positive(m - high, d); }
  }

  /** Length-weighted means of adjacent intervals add up to the mean of their union. */
  lemma MeansAdd(samples: seq<Sample>, w: Window, a: real, b: real, c: real, side: Side, j: nat)
    requires Reports(samples, w, Some((a, b)), side, j) && Reports(samples, w, Some((b, c)), side, j)
    requires Reports(samples, w, Some((a, c)), side, j)
    ensures Mean(samples, w, Some((a, b)), side, j) * (b - a) + Mean(samples, w, Some((b, c)), side, j) * (c - b)
            == Mean(samples, w, Some((a, c)), side, j) * (c - a)
  {
    hide *;
    ExplicitMean(samples, w, a, b, side, j);
    ExplicitMean(samples, w, b, c, side, j);
    ExplicitMean(samples, w, a, c, side, j);
    IntegralAdds(History(DevelopedHistory(samples, w), side, j), a, b, c);
  }

  lemma ExplicitMean(samples: seq<Sample>, w: Window, a: real, b: real, side: Side, j: nat)
    requires Reports(samples, w, Some((a, b)), side, j)
    ensures Increasing(History(DevelopedHistory(samples, w), side, j))
    ensures Mean(samples, w, Some((a, b)), side, j) * (b - a) == Integral(History(DevelopedHistory(samples, w), side, j), a, b)
  {
    hide *;
    MeanIsExact(samples, w, Some((a, b)), side, j);
    AvailableFacts(samples, w, Some((a, b)));
    ExplicitBounds(DevelopedHistory(samples, w), a, b);
  }

  lemma ExplicitBounds(dev: seq<Sample>, a: real, b: real)
    requires dev != [] && Bounds(dev, Some((a, b))).Some?
    ensures Bounds(dev, Some((a, b))) == Some((a, b))
  {
  }

  /** The order in which frames are given does not matter when their times differ. */
  lemma OrderIrrelevant(samples: seq<Sample>, others: seq<Sample>, w: Window, interval: Option<(real, real)>)
    requires multiset(samples) == multiset(others) && UniqueTimes(SortByTime(samples))
    ensures WeightedMean(samples, w, interval) == WeightedMean(others, w, interval)
  {
    SortOrders(samples);
    SortOrders(others);
    UniqueIsStrict(SortByTime(samples));
    OneOrder(SortByTime(others), SortByTime(samples));
    assert |multiset(samples)| == |samples| && |multiset(others)| == |others|;
    hide SortByTime, MeanOver, Developed;
  }

  // ---------- one more frame ----------

  lemma {:induction false} DevelopedConcat(xs: seq<Sample>, ys: seq<Sample>, startup: real)
    ensures Developed(xs + ys, startup) == Developed(xs, startup) + Developed(ys, startup)
  {
    if xs == [] {
      assert xs + ys == ys;
    } else {
      assert (xs + ys)[1..] == xs[1..] + ys;
      var head := if xs[0].time >= startup then [xs[0]] else [];
      assert Developed(xs + ys, startup) == head + Developed(xs[1..] + ys, startup);
      assert Developed(xs, startup) == head + Developed(xs[1..], startup);
      hide Developed;
      DevelopedConcat(xs[1..], ys, startup);
    }
  }

  /** A frame at a new time is sorted into its place. */
  lemma SortedIn(samples: seq<Sample>, s: Sample) returns (i: nat)
    requires StrictlyOrdered(SortByTime(samples)) && forall x :: x in samples ==> x.time != s.time
    ensures i <= |SortByTime(samples)|
    ensures SortByTime(samples + [s]) == SortByTime(samples)[..i] + [s] + SortByTime(samples)[i..]
    ensures forall k :: 0 <= k < i ==> SortByTime(samples)[k].time < s.time
    ensures forall k :: i <= k < |SortByTime(samples)| ==> s.time < SortByTime(samples)[k].time
  {
    hide *;
    SortOrders(samples);
    SortOrders(samples + [s]);
    var xs := SortByTime(samples);
    i := SearchLeft(xs, s.time);
    SearchLeftIs(xs, s.time);
    SameMembers(xs, samples);
    Splices(xs, s, i);
    SplicedMembers(xs, samples, s, i);
    OneOrder(SortByTime(samples + [s]), xs[..i] + [s] + xs[i..]);
  }

  lemma SplicedMembers(xs: seq<Sample>, samples: seq<Sample>, s: Sample, i: nat)
    requires i <= |xs| && multiset(xs) == multiset(samples)
    ensures multiset(xs[..i] + [s] + xs[i..]) == multiset(samples + [s])
  {
    assert xs == xs[..i] + xs[i..];
  }

  lemma SameMembers(xs: seq<Sample>, ys: seq<Sample>)
    requires multiset(xs) == multiset(ys)
    ensures forall k :: 0 <= k < |xs| ==> xs[k] in ys
  {
    forall k | 0 <= k < |xs| ensures xs[k] in ys {
      assert xs[k] in multiset(xs);
    }
  }

  lemma Splices(xs: seq<Sample>, s: Sample, i: nat)
    requires StrictlyOrdered(xs) && i <= |xs| && (forall k :: 0 <= k < |xs| ==> xs[k].time != s.time)
    requires (i > 0 ==> xs[i - 1].time < s.time) && (i < |xs| ==> s.time <= xs[i].time)
    ensures (forall k :: 0 <= k < i ==> xs[k].time < s.time) && (forall k :: i <= k < |xs| ==> s.time < xs[k].time)
    ensures StrictlyOrdered(xs[..i] + [s] + xs[i..])
  {
    forall k | 0 <= k < i ensures xs[k].time < s.time {
      if k < i - 1 { assert xs[k].time < xs[i - 1].time; }
    }
    forall k | i <= k < |xs| ensures s.time < xs[k].time {
      if i < k { assert xs[i].time < xs[k].time; }
    }
  }

  lemma DevelopedInsert(samples: seq<Sample>, s: Sample, w: Window) returns (k: nat)
    requires StrictlyOrdered(SortByTime(samples)) && forall x :: x in samples ==> x.time != s.time
    requires var dev := DevelopedHistory(samples, w); dev != [] && dev[0].time < s.time < dev[|dev| - 1].time && s.time >= w.startup
    ensures var dev := DevelopedHistory(samples, w);
            && 0 < k < |dev| && DevelopedHistory(samples + [s], w) == dev[..k] + [s] + dev[k..]
            && dev[k - 1].time < s.time < dev[k].time
  {
    hide *;
    var i := SortedIn(samples, s);
    var xs := SortByTime(samples);
    var front, back := Developed(xs[..i], w.startup), Developed(xs[i..], w.startup);
    DevelopedParts(samples, s, w, i);
    PartFacts2(xs, i);
    DevelopedIsOrdered(xs[..i], w.startup);
    DevelopedIsOrdered(xs[i..], w.startup);
    k := |front|;
    forall n | 0 <= n < |front| ensures front[n].time < s.time {
      assert front[n] in front;
    }
    forall n | 0 <= n < |back| ensures s.time < back[n].time {
      assert back[n] in back;
    }
    var dev := front + back;
    assert dev[..k] == front && dev[k..] == back;
    assert k > 0;
  }

  lemma PartFacts2(xs: seq<Sample>, i: nat)
    requires StrictlyOrdered(xs) && i <= |xs|
    ensures StrictlyOrdered(xs[..i]) && StrictlyOrdered(xs[i..])
  {
  }

  lemma DevelopedParts(samples: seq<Sample>, s: Sample, w: Window, i: nat)
    requires i <= |SortByTime(samples)| && s.time >= w.startup
    requires SortByTime(samples + [s]) == SortByTime(samples)[..i] + [s] + SortByTime(samples)[i..]
    ensures var front, back := Developed(SortByTime(samples)[..i], w.startup), Developed(SortByTime(samples)[i..], w.startup);
            DevelopedHistory(samples, w) == front + back && DevelopedHistory(samples + [s], w) == front + [s] + back
  {
    var xs := SortByTime(samples);
    assert Developed([s], w.startup) == [s];
    hide SortByTime, Developed;
    DevelopedConcat(xs[..i], xs[i..], w.startup);
    assert xs == xs[..i] + xs[i..];
    DevelopedConcat(xs[..i] + [s], xs[i..], w.startup);
    DevelopedConcat(xs[..i], [s], w.startup);
  }

  /** s lies strictly inside the developed history, at a new time, on the interpolant of point j of this side. */
  ghost predicate OnInterpolant(samples: seq<Sample>, s: Sample, w: Window, side: Side, j: nat) {
    var dev := DevelopedHistory(samples, w);
    && (forall x :: x in samples ==> x.time != s.time)
    && dev != [] && dev[0].time < s.time < dev[|dev| - 1].time && s.time >= w.startup
    && Increasing(History(dev, side, j)) && |History(dev, side, j)| > 0
    && History([s], side, j)[0].value == At(History(dev, side, j), s.time)
  }

  /** Saving one more frame that lies on the interpolant changes no mean, as long as both calls report one. */
  lemma InsertKeepsMean(samples: seq<Sample>, s: Sample, w: Window, interval: Option<(real, real)>, side: Side, j: nat)
    requires Reports(samples, w, interval, side, j) && Reports(samples + [s], w, interval, side, j)
    requires OnInterpolant(samples, s, w, side, j)
    ensures Mean(samples, w, interval, side, j) == Mean(samples + [s], w, interval, side, j)
  {
    hide *;
    OnInterpolantFacts(samples, s, w, side, j);
    MeanIsExact(samples, w, interval, side, j);
    MeanIsExact(samples + [s], w, interval, side, j);
    AvailableFacts(samples, w, interval);
    AvailableFacts(samples + [s], w, interval);
    var dev, wider := DevelopedHistory(samples, w), DevelopedHistory(samples + [s], w);
    var k := DevelopedInsert(samples, s, w);
    SameBounds(dev, wider, interval);
    var a := WeightedMean(samples, w, interval);
    HistoryTimes(dev, side, j);
    HistoryInsert(dev, s, k, side, j);
    InsertOnInterpolant(History(dev, side, j), k, History([s], side, j)[0], a.start, a.end);
    CancelRight(Mean(samples, w, interval, side, j), Mean(samples + [s], w, interval, side, j), a.end - a.start);
  }

  lemma OnInterpolantFacts(samples: seq<Sample>, s: Sample, w: Window, side: Side, j: nat)
    requires OnInterpolant(samples, s, w, side, j)
    ensures var dev := DevelopedHistory(samples, w);
            && (forall x :: x in samples ==> x.time != s.time)
            && dev != [] && dev[0].time < s.time < dev[|dev| - 1].time && s.time >= w.startup
            && Increasing(History(dev, side, j)) && |History(dev, side, j)| > 0
            && |History([s], side, j)| == 1 && History([s], side, j)[0].value == At(History(dev, side, j), s.time)
  {
    hide DevelopedHistory, Increasing, At;
  }

  lemma SameBounds(dev: seq<Sample>, wider: seq<Sample>, interval: Option<(real, real)>)
    requires dev != [] && wider != [] && dev[0] == wider[0] && dev[|dev| - 1] == wider[|wider| - 1]
    ensures Bounds(dev, interval) == Bounds(wider, interval)
  {
  }

  lemma HistoryInsert(dev: seq<Sample>, s: Sample, k: nat, side: Side, j: nat)
    requires k <= |dev| && |History(dev, side, j)| == |dev| && |History([s], side, j)| == 1
    ensures History(dev[..k] + [s] + dev[k..], side, j)
            == History(dev, side, j)[..k] + [History([s], side, j)[0]] + History(dev, side, j)[k..]
    ensures History([s], side, j)[0].time == s.time
  {
  }

}

/** Every outcome of the pressure mean, decided by the given frames alone: no sorting, searching or slicing in the statements. */
module PressureOutcome {

  import opened Arithmetic
  import opened Wrappers
  import opened PressureMean

  // ---------- the frames ----------

  /** Positive physical times, no two the same. */
  ghost predicate Distinct(xs: seq<Sample>) {
    && (forall i :: 0 <= i < |xs| ==> xs[i].time > 0.0)
    && (forall i, j :: 0 <= i < j < |xs| ==> xs[i].time != xs[j].time)
  }

  /** A frame of the developed history. */
  ghost predicate Saved(samples: seq<Sample>, w: Window, s: Sample) { s in samples && s.time >= w.startup }

  ghost predicate Earliest(samples: seq<Sample>, w: Window, t: real) {
    (exists s :: Saved(samples, w, s) && s.time == t) && forall s :: Saved(samples, w, s) ==> t <= s.time
  }

  ghost predicate Latest(samples: seq<Sample>, w: Window, t: real) {
    (exists s :: Saved(samples, w, s) && s.time == t) && forall s :: Saved(samples, w, s) ==> s.time <= t
  }

  /** The interval the mean is taken over: the given one inside the developed history, or the whole of it. */
  ghost predicate Spans(samples: seq<Sample>, w: Window, interval: Option<(real, real)>, start: real, end: real) {
    match interval
    case None => Earliest(samples, w, start) && Latest(samples, w, end)
    case Some((a, b)) =>
      && start == a < b == end
      && (exists s :: Saved(samples, w, s) && s.time <= a) && (exists s :: Saved(samples, w, s) && b <= s.time)
  }

  /** The frames inside the interval. */
  ghost function Within(samples: seq<Sample>, w: Window, start: real, end: real): set<Sample> {
    set s | s in samples && s.time >= w.startup && start <= s.time <= end
  }

  /** A frame between the last one at or before the start and the first one at or after the end. */
  ghost predicate InWindow(samples: seq<Sample>, w: Window, start: real, end: real, s: Sample) {
    && Saved(samples, w, s)
    && (forall r :: Saved(samples, w, r) && s.time < r.time ==> start < r.time)
    && (forall r :: Saved(samples, w, r) && r.time < s.time ==> r.time < end)
  }

  /** Two such frames with none between them are too far apart. */
  ghost predicate TooFarApart(samples: seq<Sample>, w: Window, start: real, end: real, s: Sample, t: Sample) {
    && InWindow(samples, w, start, end, s) && InWindow(samples, w, start, end, t)
    && t.time - s.time > w.writeInterval * 1.5 && s.time < t.time
    && forall r :: Saved(samples, w, r) ==> r.time <= s.time || t.time <= r.time
  }

  ghost predicate Gap(samples: seq<Sample>, w: Window, start: real, end: real) {
    exists s, t :: TooFarApart(samples, w, start, end, s, t)
  }

  /** All such frames sample the same coordinates, at least two and strictly increasing. */
  ghost predicate Sampled(samples: seq<Sample>, w: Window, start: real, end: real, side: Side) {
    && (forall s, t :: InWindow(samples, w, start, end, s) && InWindow(samples, w, start, end, t) ==>
          Abscissae(s, side) == Abscissae(t, side))
    && (forall s :: InWindow(samples, w, start, end, s) ==>
          |Abscissae(s, side)| >= 2 && forall i, j :: 0 <= i < j < |Abscissae(s, side)| ==> Abscissae(s, side)[i] < Abscissae(s, side)[j])
  }

  ghost function Abscissae(s: Sample, side: Side): (r: seq<real>)
    ensures |r| == |if side == Upper then s.upper else s.lower|
    ensures forall i :: 0 <= i < |r| ==> r[i] == (if side == Upper then s.upper else s.lower)[i].x
  {
    Coordinates(Surface(s, side))
  }

  // ---------- distinct times ----------

  lemma TwiceThere(xs: seq<Sample>, i: nat, j: nat)
    requires i < j < |xs| && xs[i] == xs[j]
    ensures multiset(xs)[xs[i]] >= 2
  {
    assert xs == xs[..i] + [xs[i]] + xs[i + 1..j] + [xs[j]] + xs[j + 1..];
  }

  lemma {:induction false} OnceThere(xs: seq<Sample>, s: Sample)
    requires Distinct(xs)
    ensures multiset(xs)[s] <= 1
  {
    if xs != [] {
      var rest := xs[1..];
      assert xs == [xs[0]] + rest;
      assert forall i :: 0 <= i < |rest| ==> rest[i] == xs[i + 1];
      OnceThere(rest, s);
      forall i | 0 <= i < |rest| ensures rest[i] != xs[0] {
        assert xs[0].time != xs[i + 1].time;
      }
    }
  }

  lemma DistinctPermutes(xs: seq<Sample>, ys: seq<Sample>)
    requires multiset(xs) == multiset(ys) && Distinct(xs)
    ensures Distinct(ys)
  {
    forall i | 0 <= i < |ys| ensures ys[i].time > 0.0 {
      assert ys[i] in multiset(xs);
    }
    forall i, j | 0 <= i < j < |ys| ensures ys[i].time != ys[j].time {
      assert ys[i] in multiset(xs) && ys[j] in multiset(xs);
      var k :| 0 <= k < |xs| && xs[k] == ys[i];
      var n :| 0 <= n < |xs| && xs[n] == ys[j];
      if ys[i] == ys[j] {
        TwiceThere(ys, i, j);
        OnceThere(xs, ys[i]);
      }
    }
  }

  lemma UniqueExactly(samples: seq<Sample>)
    ensures UniqueTimes(SortByTime(samples)) <==> Distinct(samples)
  {
    SortOrders(samples);
    var ordered := SortByTime(samples);
    hide SortByTime;
    if UniqueTimes(ordered) {
      UniqueIsStrict(ordered);
      DistinctPermutes(ordered, samples);
    }
    if Distinct(samples) {
      DistinctPermutes(samples, ordered);
      forall i | 0 <= i < |ordered| - 1 ensures ordered[i].time < ordered[i + 1].time {
        assert ordered[i].time <= ordered[i + 1].time && ordered[i].time != ordered[i + 1].time;
      }
    }
  }

  // ---------- the developed history ----------

  lemma {:induction false} DevelopedIs(xs: seq<Sample>, startup: real, s: Sample)
    ensures s in Developed(xs, startup) <==> s in xs && s.time >= startup
  {
    if xs != [] {
      DevelopedIs(xs[1..], startup, s);
      assert xs == [xs[0]] + xs[1..];
    }
  }

  ghost predicate IsHistory(samples: seq<Sample>, w: Window, dev: seq<Sample>) { forall s :: s in dev <==> Saved(samples, w, s) }

  /** The developed history holds exactly the given frames at or after the startup time, in order. */
  lemma HistoryIs(samples: seq<Sample>, w: Window)
    ensures IsHistory(samples, w, DevelopedHistory(samples, w))
    ensures Distinct(samples) ==> StrictlyOrdered(DevelopedHistory(samples, w))
  {
    SortOrders(samples);
    var ordered := SortByTime(samples);
    forall s ensures s in DevelopedHistory(samples, w) <==> Saved(samples, w, s) {
      DevelopedIs(ordered, w.startup, s);
      assert s in ordered <==> s in multiset(ordered);
      assert s in samples <==> s in multiset(samples);
    }
    if Distinct(samples) {
      UniqueExactly(samples);
      UniqueIsStrict(ordered);
      DevelopedIsOrdered(ordered, w.startup);
    }
  }

  lemma BoundsExactly(samples: seq<Sample>, w: Window, interval: Option<(real, real)>, start: real, end: real)
    requires Distinct(samples) && DevelopedHistory(samples, w) != []
    ensures Bounds(DevelopedHistory(samples, w), interval) == Some((start, end)) <==> Spans(samples, w, interval, start, end)
  {
    HistoryIs(samples, w);
    var dev := DevelopedHistory(samples, w);
    var first, last := dev[0], dev[|dev| - 1];
    hide DevelopedHistory;
    assert first in dev && last in dev;
    forall s | Saved(samples, w, s) ensures first.time <= s.time <= last.time {
      var i :| 0 <= i < |dev| && dev[i] == s;
    }
  }

  function Inside(xs: seq<Sample>, start: real, end: real): set<Sample> { set s | s in xs && start <= s.time <= end }

  lemma InsideGrows(head: Sample, rest: seq<Sample>, start: real, end: real)
    ensures Inside([head] + rest, start, end) == Inside(rest, start, end) + if start <= head.time <= end then {head} else {}
  {
  }

  lemma StrictRest(xs: seq<Sample>)
    requires StrictlyOrdered(xs) && xs != []
    ensures StrictlyOrdered(xs[1..]) && xs[0] !in xs[1..]
  {
    forall i | 0 <= i < |xs[1..]| ensures xs[1..][i] != xs[0] {
      assert xs[0].time < xs[i + 1].time;
    }
  }

  lemma {:induction false} CountIs(xs: seq<Sample>, start: real, end: real)
    requires StrictlyOrdered(xs)
    ensures CountWithin(xs, start, end) == |Inside(xs, start, end)|
  {
    if xs != [] {
      StrictRest(xs);
      hide StrictlyOrdered;
      CountIs(xs[1..], start, end);
      InsideGrows(xs[0], xs[1..], start, end);
      assert xs == [xs[0]] + xs[1..] && xs[0] !in Inside(xs[1..], start, end);
      hide Inside;
    }
  }

  lemma CountExactly(samples: seq<Sample>, w: Window, start: real, end: real)
    requires Distinct(samples)
    ensures CountWithin(DevelopedHistory(samples, w), start, end) == |Within(samples, w, start, end)|
  {
    HistoryIs(samples, w);
    var dev := DevelopedHistory(samples, w);
    hide DevelopedHistory;
    CountIs(dev, start, end);
    assert Inside(dev, start, end) == Within(samples, w, start, end);
  }

  // ---------- the window ----------

  /** The slice runs from the last frame at or before the start to the first at or after the end. */
  lemma SliceIsTight(dev: seq<Sample>, start: real, end: real) returns (first: nat, last: nat)
    requires dev != [] && StrictlyOrdered(dev) && dev[0].time <= start < end <= dev[|dev| - 1].time
    ensures first < last < |dev| && Slice(dev, start, end) == dev[first..last + 1]
    ensures dev[first].time <= start < dev[first + 1].time && dev[last - 1].time < end <= dev[last].time
  {
    SearchRightIs(dev, start);
    SearchLeftIs(dev, end);
    first, last := Max(0, SearchRight(dev, start) - 1), Min(|dev| - 1, SearchLeft(dev, end));
    assert SearchRight(dev, start) > 0;
  }

  /** What the slice of the developed history is: at these places, exactly the frames of the window. */
  ghost predicate WindowAt(samples: seq<Sample>, w: Window, start: real, end: real, dev: seq<Sample>, first: nat, last: nat) {
    && first < last < |dev| && StrictlyOrdered(dev)
    && forall k :: 0 <= k < |dev| ==> (InWindow(samples, w, start, end, dev[k]) <==> first <= k <= last)
  }

  lemma WindowExactly(samples: seq<Sample>, w: Window, start: real, end: real, dev: seq<Sample>, first: nat, last: nat)
    requires StrictlyOrdered(dev) && IsHistory(samples, w, dev) && first < last < |dev|
    requires dev[first].time <= start < dev[first + 1].time && dev[last - 1].time < end <= dev[last].time
    ensures WindowAt(samples, w, start, end, dev, first, last)
  {
    forall k | 0 <= k < |dev| ensures InWindow(samples, w, start, end, dev[k]) <==> first <= k <= last {
      assert dev[k] in dev && dev[first] in dev && dev[last] in dev;
      if first <= k <= last {
        forall r | Saved(samples, w, r) && dev[k].time < r.time ensures start < r.time {
          var i :| 0 <= i < |dev| && dev[i] == r;
          Later(dev, k, i);
          Sorted(dev, first + 1, i);
        }
        forall r | Saved(samples, w, r) && r.time < dev[k].time ensures r.time < end {
          var i :| 0 <= i < |dev| && dev[i] == r;
          Later(dev, i, k);
          Sorted(dev, i, last - 1);
        }
      } else if k < first {
        assert dev[k].time < dev[first].time;
      } else {
        assert dev[last].time < dev[k].time;
      }
    }
  }

  lemma Later(dev: seq<Sample>, i: nat, j: nat)
    requires StrictlyOrdered(dev) && i < |dev| && j < |dev| && dev[i].time < dev[j].time
    ensures i < j
  {
  }

  lemma Sorted(dev: seq<Sample>, i: nat, j: nat)
    requires StrictlyOrdered(dev) && i <= j < |dev|
    ensures dev[i].time <= dev[j].time
  {
  }

  lemma WindowMembers(samples: seq<Sample>, w: Window, start: real, end: real, dev: seq<Sample>, first: nat, last: nat, s: Sample)
    requires IsHistory(samples, w, dev) && WindowAt(samples, w, start, end, dev, first, last)
    ensures InWindow(samples, w, start, end, s) <==> s in dev[first..last + 1]
    ensures Saved(samples, w, s) <==> s in dev
  {
    var slice := dev[first..last + 1];
    if InWindow(samples, w, start, end, s) {
      var i :| 0 <= i < |dev| && dev[i] == s;
      hide InWindow, Saved, StrictlyOrdered;
      assert slice[i - first] == s;
    }
    hide InWindow, Saved, StrictlyOrdered;
    if s in slice {
      var i :| 0 <= i < |slice| && slice[i] == s;
      assert dev[first + i] == s;
    }
  }

  /** Two neighbours of the slice are neighbours of the history. */
  lemma NeighboursPart(dev: seq<Sample>, i: nat, r: Sample)
    requires StrictlyOrdered(dev) && i + 1 < |dev| && r in dev
    ensures r.time <= dev[i].time || dev[i + 1].time <= r.time
  {
    var n :| 0 <= n < |dev| && dev[n] == r;
    if n <= i { Sorted(dev, n, i); } else { Sorted(dev, i + 1, n); }
  }

  lemma SliceGap(samples: seq<Sample>, w: Window, start: real, end: real, dev: seq<Sample>, first: nat, last: nat)
    requires IsHistory(samples, w, dev) && WindowAt(samples, w, start, end, dev, first, last)
    requires HasGap(dev[first..last + 1], w.writeInterval * 1.5)
    ensures Gap(samples, w, start, end)
  {
    var slice, limit := dev[first..last + 1], w.writeInterval * 1.5;
    var i :| 0 <= i < |slice| - 1 && slice[i + 1].time - slice[i].time > limit;
    var n := first + i;
    assert slice[i] == dev[n] && slice[i + 1] == dev[n + 1] && dev[n].time < dev[n + 1].time;
    hide InWindow, Saved, Gap, HasGap;
    forall r | Saved(samples, w, r) ensures r.time <= dev[n].time || dev[n + 1].time <= r.time {
      NeighboursPart(dev, n, r);
    }
    GapBetween(samples, w, start, end, dev[n], dev[n + 1]);
  }

  lemma GapInSlice(samples: seq<Sample>, w: Window, start: real, end: real, dev: seq<Sample>, first: nat, last: nat, s: Sample, t: Sample)
    requires IsHistory(samples, w, dev) && WindowAt(samples, w, start, end, dev, first, last)
    requires TooFarApart(samples, w, start, end, s, t)
    ensures HasGap(dev[first..last + 1], w.writeInterval * 1.5)
  {
    var slice := dev[first..last + 1];
    WindowMembers(samples, w, start, end, dev, first, last, s);
    WindowMembers(samples, w, start, end, dev, first, last, t);
    assert forall r :: r in dev ==> r.time <= s.time || t.time <= r.time;
    hide IsHistory, InWindow, Saved, HasGap;
    var i :| 0 <= i < |slice| && slice[i] == s;
    var j :| 0 <= j < |slice| && slice[j] == t;
    hide TooFarApart, WindowAt;
    GapAt(dev, first, last, i, j, w.writeInterval * 1.5);
  }

  lemma GapAt(dev: seq<Sample>, first: nat, last: nat, i: nat, j: nat, limit: real)
    requires StrictlyOrdered(dev) && first < last < |dev| && i <= last - first && j <= last - first
    requires dev[first + i].time < dev[first + j].time && dev[first + j].time - dev[first + i].time > limit
    requires forall r :: r in dev ==> r.time <= dev[first + i].time || dev[first + j].time <= r.time
    ensures HasGap(dev[first..last + 1], limit)
  {
    var slice := dev[first..last + 1];
    Later(dev, first + i, first + j);
    assert dev[first + i + 1] in dev && dev[first + i].time < dev[first + i + 1].time;
    hide StrictlyOrdered;
    assert slice[i + 1] == dev[first + i + 1] && slice[i] == dev[first + i];
  }

  lemma GapExactly(samples: seq<Sample>, w: Window, start: real, end: real, dev: seq<Sample>, first: nat, last: nat)
    requires IsHistory(samples, w, dev) && WindowAt(samples, w, start, end, dev, first, last)
    ensures HasGap(dev[first..last + 1], w.writeInterval * 1.5) <==> Gap(samples, w, start, end)
  {
    var slice := dev[first..last + 1];
    hide TooFarApart, HasGap, WindowAt, IsHistory;
    if HasGap(slice, w.writeInterval * 1.5) {
      SliceGap(samples, w, start, end, dev, first, last);
    }
    if s, t :| TooFarApart(samples, w, start, end, s, t) {
      GapInSlice(samples, w, start, end, dev, first, last, s, t);
    }
  }

  lemma GapBetween(samples: seq<Sample>, w: Window, start: real, end: real, s: Sample, t: Sample)
    requires InWindow(samples, w, start, end, s) && InWindow(samples, w, start, end, t)
    requires t.time - s.time > w.writeInterval * 1.5 && s.time < t.time
    requires forall r :: Saved(samples, w, r) ==> r.time <= s.time || t.time <= r.time
    ensures Gap(samples, w, start, end)
  {
    assert TooFarApart(samples, w, start, end, s, t);
  }

  lemma {:induction false} StepsRise(xs: seq<real>, i: nat, j: nat)
    requires i < j < |xs| && forall k :: 0 <= k < |xs| - 1 ==> xs[k] < xs[k + 1]
    ensures xs[i] < xs[j]
  {
    if i + 1 < j {
      StepsRise(xs, i, j - 1);
      assert xs[j - 1] < xs[(j - 1) + 1];
    }
  }

  lemma RisesExactly(xs: seq<real>)
    ensures (forall k :: 0 <= k < |xs| - 1 ==> xs[k] < xs[k + 1]) <==> (forall i, j :: 0 <= i < j < |xs| ==> xs[i] < xs[j])
  {
    if forall k :: 0 <= k < |xs| - 1 ==> xs[k] < xs[k + 1] {
      forall i, j | 0 <= i < j < |xs| ensures xs[i] < xs[j] {
        StepsRise(xs, i, j);
      }
    }
  }

  ghost predicate SampledBy(xs: seq<Sample>, side: Side) {
    && (forall s, t :: s in xs && t in xs ==> Abscissae(s, side) == Abscissae(t, side))
    && (forall s :: s in xs ==>
          |Abscissae(s, side)| >= 2 && forall i, j :: 0 <= i < j < |Abscissae(s, side)| ==> Abscissae(s, side)[i] < Abscissae(s, side)[j])
  }

  lemma SameSamplingIs(xs: seq<Sample>, side: Side)
    requires xs != []
    ensures SameSampling(xs, side) <==> SampledBy(xs, side)
  {
    AbscissaeAre(side);
    RisesExactly(Abscissae(xs[0], side));
    assert xs[0] in xs;
    hide Abscissae, Coordinates, Surface;
    if SampledBy(xs, side) {
      forall i | 0 <= i < |xs| ensures Abscissae(xs[i], side) == Abscissae(xs[0], side) {
        assert xs[i] in xs;
      }
    }
  }

  lemma SampledExactly(samples: seq<Sample>, w: Window, start: real, end: real, side: Side, dev: seq<Sample>, first: nat, last: nat)
    requires IsHistory(samples, w, dev) && WindowAt(samples, w, start, end, dev, first, last)
    ensures SameSampling(dev[first..last + 1], side) <==> Sampled(samples, w, start, end, side)
  {
    var slice := dev[first..last + 1];
    hide InWindow, Saved, Abscissae, SameSampling, Coordinates, Surface;
    forall s ensures InWindow(samples, w, start, end, s) <==> s in slice {
      WindowMembers(samples, w, start, end, dev, first, last, s);
    }
    SameSamplingIs(slice, side);
    hide WindowAt;
  }

  lemma AbscissaeAre(side: Side)
    ensures forall s :: Abscissae(s, side) == Coordinates(Surface(s, side))
  {
  }

  // ---------- the outcome ----------

  lemma MeanOverIs(dev: seq<Sample>, w: Window, start: real, end: real)
    requires dev != [] && StrictlyOrdered(dev) && start < end && |Slice(dev, start, end)| >= 2
    ensures var a, n, slice := MeanOver(dev, w, start, end), CountWithin(dev, start, end), Slice(dev, start, end);
            if n < w.minimumFrames || end - start < w.minimumDuration then a == Unavailable(InsufficientHistory, n)
            else if HasGap(slice, w.writeInterval * 1.5) then a == Unavailable(FrameGap, n)
            else if !SameSampling(slice, Upper) || !SameSampling(slice, Lower) then a == Raised
            else a.Available? && a.frames == n && a.start == start && a.end == end
  {
    hide Slice, HasGap, SameSampling, CountWithin, Boundaries, SideMean, StrictlyOrdered;
  }

  lemma MeanOverAPoint(dev: seq<Sample>, w: Window, start: real)
    requires dev != [] && StrictlyOrdered(dev)
    ensures var a, n := MeanOver(dev, w, start, start), CountWithin(dev, start, start);
            if n < w.minimumFrames || 0.0 < w.minimumDuration then a == Unavailable(InsufficientHistory, n) else a == Raised
  {
    hide Slice, HasGap, SameSampling, CountWithin, Boundaries, SideMean, StrictlyOrdered;
  }

  /** The answer over an interval of the developed history. */
  lemma IntervalOutcome(samples: seq<Sample>, w: Window, dev: seq<Sample>, start: real, end: real)
    requires dev == DevelopedHistory(samples, w) && dev != [] && Distinct(samples) && StrictlyOrdered(dev)
    requires dev[0].time <= start <= end <= dev[|dev| - 1].time
    ensures var a, n := MeanOver(dev, w, start, end), |Within(samples, w, start, end)|;
            if n < w.minimumFrames || end - start < w.minimumDuration then a == Unavailable(InsufficientHistory, n)
            else if start == end then a == Raised
            else if Gap(samples, w, start, end) then a == Unavailable(FrameGap, n)
            else if !Sampled(samples, w, start, end, Upper) || !Sampled(samples, w, start, end, Lower) then a == Raised
            else a.Available? && a.frames == n && a.start == start && a.end == end
  {
    CountExactly(samples, w, start, end);
    HistoryIs(samples, w);
    hide *;
    if start < end {
      var first, last := SliceIsTight(dev, start, end);
      WindowExactly(samples, w, start, end, dev, first, last);
      GapExactly(samples, w, start, end, dev, first, last);
      SampledExactly(samples, w, start, end, Upper, dev, first, last);
      SampledExactly(samples, w, start, end, Lower, dev, first, last);
      MeanOverIs(dev, w, start, end);
    } else {
      MeanOverAPoint(dev, w, start);
    }
  }

  /** `weighted_pressure_mean`: which answer is given, and for which interval and number of frames, told from the frames alone. */
  lemma OutcomeExactly(samples: seq<Sample>, w: Window, interval: Option<(real, real)>, start: real, end: real)
    requires Distinct(samples) && Spans(samples, w, interval, start, end)
    ensures var a, n := WeightedMean(samples, w, interval), |Within(samples, w, start, end)|;
            if n < w.minimumFrames || end - start < w.minimumDuration then a == Unavailable(InsufficientHistory, n)
            else if start == end then a == Raised
            else if Gap(samples, w, start, end) then a == Unavailable(FrameGap, n)
            else if !Sampled(samples, w, start, end, Upper) || !Sampled(samples, w, start, end, Lower) then a == Raised
            else a.Available? && a.frames == n && a.start == start && a.end == end
  {
    HistoryIs(samples, w);
    UniqueExactly(samples);
    var dev := DevelopedHistory(samples, w);
    SomeSaved(samples, w, interval, start, end);
    BoundsExactly(samples, w, interval, start, end);
    BoundsInside(dev, interval, start, end);
    IntervalOutcome(samples, w, dev, start, end);
    hide SortByTime, MeanOver, Bounds, Spans, Distinct, UniqueTimes, Within, Gap, Sampled, Saved, Developed, StrictlyOrdered;
  }

  lemma SomeSaved(samples: seq<Sample>, w: Window, interval: Option<(real, real)>, start: real, end: real)
    requires Spans(samples, w, interval, start, end)
    ensures samples != [] && exists s :: Saved(samples, w, s)
  {
  }

  lemma BoundsInside(dev: seq<Sample>, interval: Option<(real, real)>, start: real, end: real)
    requires dev != [] && StrictlyOrdered(dev) && Bounds(dev, interval) == Some((start, end))
    ensures dev[0].time <= start <= end <= dev[|dev| - 1].time
  {
  }

  /** Without an interval to average over there is no mean: no frames, no developed frames, or a raised error. */
  lemma NoIntervalOutcome(samples: seq<Sample>, w: Window, interval: Option<(real, real)>)
    requires !Distinct(samples) || !exists start, end :: Spans(samples, w, interval, start, end)
    ensures var a := WeightedMean(samples, w, interval);
            if samples == [] then a == Unavailable(NoSavedFrames, 0)
            else if !Distinct(samples) then a == Raised
            else if !exists s :: Saved(samples, w, s) then a == Unavailable(InsufficientHistory, 0)
            else a == Raised
  {
    HistoryIs(samples, w);
    UniqueExactly(samples);
    var dev := DevelopedHistory(samples, w);
    if Distinct(samples) && dev != [] {
      assert Saved(samples, w, dev[0]);
      if bounds :| Bounds(dev, interval) == Some(bounds) {
        BoundsExactly(samples, w, interval, bounds.0, bounds.1);
        assert false;
      }
    }
    hide SortByTime, MeanOver, Spans, Distinct, UniqueTimes, Saved, Developed;
  }

  // ---------- the report ----------

  ghost predicate SavedAt(samples: seq<Sample>, w: Window, t: real) { exists s :: Saved(samples, w, s) && s.time == t }

  /** The mean is given at the coordinates of these points. */
  ghost predicate SamePlaces(points: seq<Point>, means: seq<Point>) {
    |means| == |points| && forall j :: 0 <= j < |points| ==> means[j].x == points[j].x
  }

  lemma BoundariesAre(samples: seq<Sample>, w: Window, start: real, end: real, dev: seq<Sample>, first: nat, last: nat)
    requires IsHistory(samples, w, dev) && StrictlyOrdered(dev) && first < last < |dev|
    requires dev[first].time <= start < dev[first + 1].time && dev[last - 1].time < end <= dev[last].time
    ensures Boundaries(dev[first..last + 1], start, end)
            == (if SavedAt(samples, w, start) then [] else [start]) + (if SavedAt(samples, w, end) then [] else [end])
  {
    var slice := dev[first..last + 1];
    TimeInSlice(samples, w, dev, first, last, start);
    TimeInSlice(samples, w, dev, first, last, end);
    hide IsHistory, SavedAt, StrictlyOrdered;
    assert forall i :: 0 <= i < |slice| ==> slice[i] == dev[first + i];
  }

  predicate TimeAmong(xs: seq<Sample>, t: real) { exists i :: 0 <= i < |xs| && xs[i].time == t }

  lemma TimeInSlice(samples: seq<Sample>, w: Window, dev: seq<Sample>, first: nat, last: nat, t: real)
    requires IsHistory(samples, w, dev) && StrictlyOrdered(dev) && first < last < |dev| && dev[first].time <= t <= dev[last].time
    ensures SavedAt(samples, w, t) <==> TimeAmong(dev[first..last + 1], t)
  {
    var slice := dev[first..last + 1];
    if s :| Saved(samples, w, s) && s.time == t {
      assert s in dev;
      var n :| 0 <= n < |dev| && dev[n] == s;
      assert first <= n <= last;
      assert slice[n - first].time == t;
    }
    if i :| 0 <= i < |slice| && slice[i].time == t {
      assert slice[i] == dev[first + i] && dev[first + i] in dev;
    }
  }

  lemma MeanOverReports(dev: seq<Sample>, w: Window, start: real, end: real)
    requires dev != [] && StrictlyOrdered(dev) && MeanOver(dev, w, start, end).Available?
    ensures var a, slice := MeanOver(dev, w, start, end), Slice(dev, start, end);
            && slice != [] && SameSampling(slice, Upper) && SameSampling(slice, Lower) && a.boundaries == Boundaries(slice, start, end)
            && SamePlaces(slice[0].upper, a.upper) && SamePlaces(slice[0].lower, a.lower)
  {
    hide Slice, HasGap, SameSampling, CountWithin, Boundaries, PointMean, StrictlyOrdered;
  }

  lemma PlacesShared(slice: seq<Sample>, s: Sample, upper: seq<Point>, lower: seq<Point>)
    requires slice != [] && SameSampling(slice, Upper) && SameSampling(slice, Lower) && s in slice
    requires SamePlaces(slice[0].upper, upper) && SamePlaces(slice[0].lower, lower)
    ensures SamePlaces(s.upper, upper) && SamePlaces(s.lower, lower)
  {
    SameSamplingIs(slice, Upper);
    SameSamplingIs(slice, Lower);
    hide SameSampling;
    assert slice[0] in slice;
    assert Abscissae(s, Upper) == Abscissae(slice[0], Upper) && Abscissae(s, Lower) == Abscissae(slice[0], Lower);
    hide SampledBy;
    SameAbscissae(s.upper, slice[0].upper, upper, Abscissae(s, Upper));
    SameAbscissae(s.lower, slice[0].lower, lower, Abscissae(s, Lower));
  }

  lemma SameAbscissae(points: seq<Point>, first: seq<Point>, means: seq<Point>, xs: seq<real>)
    requires |xs| == |points| == |first| && forall i :: 0 <= i < |xs| ==> xs[i] == points[i].x == first[i].x
    requires SamePlaces(first, means)
    ensures SamePlaces(points, means)
  {
  }

  /** An available answer lists the interval's ends at which no frame was saved, and gives both surfaces at the coordinates of every
      frame it averages. */
  lemma ReportIs(samples: seq<Sample>, w: Window, interval: Option<(real, real)>)
    requires Distinct(samples) && WeightedMean(samples, w, interval).Available?
    ensures var a := WeightedMean(samples, w, interval);
            && a.boundaries == (if SavedAt(samples, w, a.start) then [] else [a.start]) + (if SavedAt(samples, w, a.end) then [] else [a.end])
            && forall s :: InWindow(samples, w, a.start, a.end, s) ==> SamePlaces(s.upper, a.upper) && SamePlaces(s.lower, a.lower)
  {
    var a, dev := WeightedMean(samples, w, interval), DevelopedHistory(samples, w);
    AvailableFacts(samples, w, interval);
    HistoryIs(samples, w);
    hide *;
    var first, last := SliceIsTight(dev, a.start, a.end);
    WindowExactly(samples, w, a.start, a.end, dev, first, last);
    BoundariesAre(samples, w, a.start, a.end, dev, first, last);
    MeanOverReports(dev, w, a.start, a.end);
    forall s | InWindow(samples, w, a.start, a.end, s) ensures SamePlaces(s.upper, a.upper) && SamePlaces(s.lower, a.lower) {
      WindowMembers(samples, w, a.start, a.end, dev, first, last, s);
      PlacesShared(dev[first..last + 1], s, a.upper, a.lower);
    }
  }

  /** The history a mean is taken of: the saved frames' times and the pressures at that point of that surface. */
  lemma PressuresAre(samples: seq<Sample>, w: Window, j: nat, k: nat)
    requires k < |DevelopedHistory(samples, w)|
    ensures var s, upper, lower := DevelopedHistory(samples, w)[k], History(DevelopedHistory(samples, w), Upper, j), History(DevelopedHistory(samples, w), Lower, j);
            && |upper| == |lower| == |DevelopedHistory(samples, w)| && upper[k].time == lower[k].time == s.time
            && (j < |s.upper| ==> upper[k].value == s.upper[j].p) && (j < |s.lower| ==> lower[k].value == s.lower[j].p)
  {
    hide DevelopedHistory;
  }
}

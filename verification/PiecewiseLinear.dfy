/** The piecewise-linear interpolant of a sampled history, its exact integral, and the trapezoid sum the program computes. */
module PiecewiseLinear {

  import opened Arithmetic

  datatype Frame = Frame(time: real, value: real)

  ghost predicate Increasing(h: seq<Frame>) { forall i, j :: 0 <= i < j < |h| ==> h[i].time < h[j].time }

  function Slope(f: Frame, g: Frame): real
    requires f.time < g.time
  {
    (g.value - f.value) / (g.time - f.time)
  }

  function Line(f: Frame, slope: real, x: real): real { f.value + slope * (x - f.time) }

  /** `np.interp`: linear between frames, constant beyond the first and the last. */
  function At(h: seq<Frame>, x: real): real
    requires |h| > 0 && Increasing(h)
  {
    if |h| == 1 || x <= h[0].time then h[0].value
    else if x <= h[1].time then Line(h[0], Slope(h[0], h[1]), x)
    else At(h[1..], x)
  }

  function Within(x: real, low: real, high: real): real { if x < low then low else if x > high then high else x }

  /** The area of a trapezoid. */
  function Area(u: real, v: real, width: real): real { (u + v) * 0.5 * width }

  /** The area between a and b under the line through f. */
  function Panel(f: Frame, slope: real, a: real, b: real): real {
    Area(Line(f, slope, a), Line(f, slope, b), b - a)
  }

  /** The part of [a, b] that falls on the segment from f to g. */
  function Clipped(f: Frame, g: Frame, a: real, b: real): real
    requires f.time < g.time
  {
    Panel(f, Slope(f, g), Within(a, f.time, g.time), Within(b, f.time, g.time))
  }

  /** The integral of the interpolant over [a, b]: the areas of all its segments, each clipped to the interval. */
  function Integral(h: seq<Frame>, a: real, b: real): real
    requires Increasing(h)
  {
    if |h| < 2 then 0.0 else Clipped(h[0], h[1], a, b) + Integral(h[1..], a, b)
  }

  // ---------- one segment ----------

  lemma SlopeReaches(f: Frame, g: Frame)
    requires f.time < g.time
    ensures Line(f, Slope(f, g), g.time) == g.value && Line(f, Slope(f, g), f.time) == f.value
  {
    var d := g.time - f.time;
    assert (g.value - f.value) / d * d == g.value - f.value;
    LineStarts(f, Slope(f, g));
  }

  lemma LineStarts(f: Frame, k: real)
    ensures Line(f, k, f.time) == f.value
  {
  }

  /** Areas under one line add up, in either direction. */
  lemma PanelsAdd(f: Frame, k: real, a: real, b: real, c: real)
    ensures Panel(f, k, a, b) + Panel(f, k, b, c) == Panel(f, k, a, c)
  {
    PanelIs(f, k, a, b);
    PanelIs(f, k, b, c);
    PanelIs(f, k, a, c);
  }

  lemma PanelIs(f: Frame, k: real, a: real, b: real)
    ensures Panel(f, k, a, b) == Primitive(f, k, b) - Primitive(f, k, a)
  {
    var x, y, v := a - f.time, b - f.time, f.value;
    assert Panel(f, k, a, b) == ((v + k * x) + (v + k * y)) * 0.5 * (y - x);
    PanelAlgebra(v, k, x, y);
  }

  function Primitive(f: Frame, k: real, x: real): real {
    f.value * (x - f.time) + k * ((x - f.time) * (x - f.time)) / 2.0
  }

  lemma PanelAlgebra(v: real, k: real, x: real, y: real)
    ensures ((v + k * x) + (v + k * y)) * 0.5 * (y - x) == (v * y + k * (y * y) / 2.0) - (v * x + k * (x * x) / 2.0)
  {
    assert k * (x + y) * (y - x) == k * (y * y) - k * (x * x);
  }

  lemma EmptyPanel(f: Frame, k: real, a: real)
    ensures Panel(f, k, a, a) == 0.0
  {
  }

  // ---------- the integral ----------

  /** The integral adds up over adjacent intervals. */
  lemma {:induction false} IntegralAdds(h: seq<Frame>, a: real, b: real, c: real)
    requires Increasing(h)
    ensures Integral(h, a, b) + Integral(h, b, c) == Integral(h, a, c)
  {
    if |h| >= 2 {
      var f, g := h[0], h[1];
      IntegralAdds(h[1..], a, b, c);
      PanelsAdd(f, Slope(f, g), Within(a, f.time, g.time), Within(b, f.time, g.time), Within(c, f.time, g.time));
      hide Panel, Within, Slope;
    }
  }

  lemma {:induction false} NothingBelow(h: seq<Frame>, a: real, b: real)
    requires Increasing(h) && a <= b && (|h| > 0 ==> b <= h[0].time)
    ensures Integral(h, a, b) == 0.0
  {
    if |h| >= 2 {
      NothingBelow(h[1..], a, b);
      EmptyPanel(h[0], Slope(h[0], h[1]), h[0].time);
      hide Panel, Slope;
    }
  }

  /** Frames before the last one at or below a contribute nothing. */
  lemma {:induction false} DropFront(h: seq<Frame>, first: nat, a: real, b: real)
    requires Increasing(h) && a <= b && first < |h| && h[first].time <= a
    ensures Increasing(h[first..]) && Integral(h, a, b) == Integral(h[first..], a, b)
  {
    if first > 0 {
      DropFront(h[1..], first - 1, a, b);
      assert h[1..][first - 1..] == h[first..];
      assert h[1].time <= a;
      EmptyPanel(h[0], Slope(h[0], h[1]), h[1].time);
      hide Panel, Slope;
    }
  }

  /** Frames after the first one at or above b contribute nothing. */
  lemma {:induction false} DropBack(h: seq<Frame>, last: nat, a: real, b: real)
    requires Increasing(h) && a <= b && last < |h| && b <= h[last].time
    ensures Increasing(h[..last + 1]) && Integral(h, a, b) == Integral(h[..last + 1], a, b)
  {
    if last == 0 {
      NothingBelow(h, a, b);
    } else {
      DropBack(h[1..], last - 1, a, b);
      assert h[..last + 1][1..] == h[1..][..last];
      hide Clipped;
    }
  }

  /** The window of frames that the program slices out loses nothing. */
  lemma SliceKeepsIntegral(h: seq<Frame>, first: nat, last: nat, a: real, b: real)
    requires Increasing(h) && a <= b && first <= last < |h| && h[first].time <= a && b <= h[last].time
    ensures Increasing(h[first..last + 1]) && Integral(h[first..last + 1], a, b) == Integral(h, a, b)
  {
    DropBack(h, last, a, b);
    DropFront(h[..last + 1], first, a, b);
    assert h[..last + 1][first..] == h[first..last + 1];
    hide Integral;
  }

  /** Between two neighbouring frames the integral is one trapezoid of the interpolant. */
  lemma {:induction false} OneTrapezoid(h: seq<Frame>, a: real, b: real)
    requires Increasing(h) && |h| > 0 && h[0].time <= a < b <= h[|h| - 1].time
    requires forall i :: 0 <= i < |h| ==> h[i].time <= a || b <= h[i].time
    ensures Integral(h, a, b) == Area(At(h, a), At(h, b), b - a)
  {
    assert |h| >= 2;
    var f, g := h[0], h[1];
    if b <= g.time {
      NothingBelow(h[1..], a, b);
      FirstSegment(h, a);
      FirstSegment(h, b);
      hide Slope, Line, Area, At;
    } else {
      assert g.time <= a;
      assert forall i :: 0 <= i < |h[1..]| ==> h[1..][i] == h[i + 1];
      OneTrapezoid(h[1..], a, b);
      EmptyPanel(f, Slope(f, g), g.time);
      StepOver(h, a);
      StepOver(h, b);
      hide At, Panel, Slope, Line, Area;
    }
  }

  lemma FirstSegment(h: seq<Frame>, x: real)
    requires Increasing(h) && |h| >= 2 && h[0].time <= x <= h[1].time
    ensures At(h, x) == Line(h[0], Slope(h[0], h[1]), x)
  {
    LineStarts(h[0], Slope(h[0], h[1]));
    hide Slope, Line;
  }

  lemma StepOver(h: seq<Frame>, x: real)
    requires Increasing(h) && |h| >= 2 && h[1].time <= x
    ensures At(h, x) == At(h[1..], x)
  {
    SlopeReaches(h[0], h[1]);
    hide Slope, Line;
  }

  // ---------- the trapezoid sum ----------

  ghost predicate Rising(ks: seq<real>) { forall i, j :: 0 <= i < j < |ks| ==> ks[i] < ks[j] }

  /** The sum over the knots of mean value times step. */
  function Trapezoids(h: seq<Frame>, ks: seq<real>): real
    requires |h| > 0 && Increasing(h)
  {
    if |ks| < 2 then 0.0
    else Area(At(h, ks[0]), At(h, ks[1]), ks[1] - ks[0]) + Trapezoids(h, ks[1..])
  }

  /** Times of the frames strictly inside (a, b). */
  function Inside(h: seq<Frame>, a: real, b: real): seq<real> {
    if |h| == 0 then [] else (if a < h[0].time < b then [h[0].time] else []) + Inside(h[1..], a, b)
  }

  function Knots(h: seq<Frame>, a: real, b: real): seq<real> { [a] + Inside(h, a, b) + [b] }

  predicate HasTime(h: seq<Frame>, x: real) { exists i :: 0 <= i < |h| && h[i].time == x }

  lemma {:induction false} InsideIs(h: seq<Frame>, a: real, b: real, x: real)
    ensures x in Inside(h, a, b) <==> a < x < b && HasTime(h, x)
  {
    if |h| > 0 {
      InsideIs(h[1..], a, b, x);
      HasTimeRest(h, x);
      hide HasTime;
    }
  }

  lemma HasTimeRest(h: seq<Frame>, x: real)
    requires |h| > 0
    ensures HasTime(h, x) <==> h[0].time == x || HasTime(h[1..], x)
  {
    if HasTime(h[1..], x) {
      var i :| 0 <= i < |h[1..]| && h[1..][i].time == x;
      assert h[i + 1].time == x;
    }
    if HasTime(h, x) && h[0].time != x {
      var i :| 0 <= i < |h| && h[i].time == x;
      assert h[1..][i - 1].time == x;
    }
  }

  lemma {:induction false} InsideRises(h: seq<Frame>, a: real, b: real)
    requires Increasing(h)
    ensures Rising(Inside(h, a, b))
  {
    if |h| > 0 {
      InsideRises(h[1..], a, b);
      var rest, head := Inside(h[1..], a, b), if a < h[0].time < b then [h[0].time] else [];
      assert Inside(h, a, b) == head + rest;
      hide Inside, Rising;
      forall x | x in rest ensures h[0].time < x {
        InsideIs(h[1..], a, b, x);
        var i :| 0 <= i < |h[1..]| && h[1..][i].time == x;
        assert h[0].time < h[i + 1].time;
      }
      RisingAfter(head, rest);
    }
  }

  lemma RisingAfter(head: seq<real>, rest: seq<real>)
    requires |head| <= 1 && Rising(rest) && (head != [] ==> forall x :: x in rest ==> head[0] < x)
    ensures Rising(head + rest)
  {
    assert forall i :: 0 <= i < |rest| ==> rest[i] in rest;
  }

  lemma KnotsFacts(h: seq<Frame>, a: real, b: real)
    requires Increasing(h) && a < b
    ensures var ks := Knots(h, a, b); Rising(ks) && ks[0] == a && ks[|ks| - 1] == b && |ks| >= 2
    ensures forall i :: 0 <= i < |h| ==> h[i].time <= a || b <= h[i].time || h[i].time in Knots(h, a, b)
  {
    var inside := Inside(h, a, b);
    InsideRises(h, a, b);
    hide Inside;
    forall x ensures x in inside <==> a < x < b && HasTime(h, x) {
      InsideIs(h, a, b, x);
    }
    assert Knots(h, a, b) == [a] + (inside + [b]);
    hide Knots, Rising;
    forall i | 0 <= i < |h| && a < h[i].time < b ensures h[i].time in inside {
      assert HasTime(h, h[i].time);
    }
    RisingBefore(inside, [b]);
    RisingAfter([a], inside + [b]);
  }

  lemma RisingBefore(ks: seq<real>, last: seq<real>)
    requires Rising(ks) && |last| == 1 && forall x :: x in ks ==> x < last[0]
    ensures Rising(ks + last)
  {
    assert forall i :: 0 <= i < |ks| ==> ks[i] in ks;
  }

  /** No frame lies strictly between two neighbouring knots. */
  ghost predicate Covers(h: seq<Frame>, ks: seq<real>) {
    forall i, k :: 0 <= i < |h| && 0 <= k < |ks| - 1 ==> h[i].time <= ks[k] || ks[k + 1] <= h[i].time
  }

  lemma KnotsCover(h: seq<Frame>, a: real, b: real)
    requires Increasing(h) && a < b
    ensures Covers(h, Knots(h, a, b))
  {
    KnotsFacts(h, a, b);
    var ks := Knots(h, a, b);
    hide Knots;
    forall i, k | 0 <= i < |h| && 0 <= k < |ks| - 1 ensures h[i].time <= ks[k] || ks[k + 1] <= h[i].time {
      var t := h[i].time;
      assert ks[0] <= ks[k] && ks[k + 1] <= ks[|ks| - 1];
      if t in ks {
        var j :| 0 <= j < |ks| && ks[j] == t;
        if j <= k { assert ks[j] <= ks[k]; } else { assert ks[k + 1] <= ks[j]; }
      }
    }
  }

  lemma CoversRest(h: seq<Frame>, ks: seq<real>)
    requires |ks| >= 2 && Rising(ks) && Covers(h, ks)
    ensures Rising(ks[1..]) && Covers(h, ks[1..])
    ensures forall i :: 0 <= i < |h| ==> h[i].time <= ks[0] || ks[1] <= h[i].time
    ensures ks[0] < ks[1] <= ks[|ks| - 1]
  {
    var rest := ks[1..];
    forall i, k | 0 <= i < |h| && 0 <= k < |rest| - 1 ensures h[i].time <= rest[k] || rest[k + 1] <= h[i].time {
      assert rest[k] == ks[k + 1] && rest[k + 1] == ks[(k + 1) + 1];
    }
    forall i | 0 <= i < |h| ensures h[i].time <= ks[0] || ks[1] <= h[i].time {
      assert h[i].time <= ks[0] || ks[0 + 1] <= h[i].time;
    }
  }

  /** Over knots that cover the frames, the trapezoid sum is the exact integral. */
  lemma {:induction false} TrapezoidsIntegrate(h: seq<Frame>, ks: seq<real>)
    requires Increasing(h) && |h| > 0 && |ks| >= 1 && Rising(ks) && Covers(h, ks)
    requires h[0].time <= ks[0] && ks[|ks| - 1] <= h[|h| - 1].time
    ensures Trapezoids(h, ks) == Integral(h, ks[0], ks[|ks| - 1])
  {
    hide Integral, At, Area, Covers, Rising;
    if |ks| == 1 {
      EmptyIntegral(h, ks[0]);
    } else {
      CoversRest(h, ks);
      var rest := ks[1..];
      assert rest[0] == ks[1] && rest[|rest| - 1] == ks[|ks| - 1];
      TrapezoidsIntegrate(h, rest);
      OneTrapezoid(h, ks[0], ks[1]);
      IntegralAdds(h, ks[0], ks[1], ks[|ks| - 1]);
    }
  }

  lemma {:induction false} EmptyIntegral(h: seq<Frame>, a: real)
    requires Increasing(h)
    ensures Integral(h, a, a) == 0.0
  {
    if |h| >= 2 {
      EmptyIntegral(h[1..], a);
      EmptyPanel(h[0], Slope(h[0], h[1]), Within(a, h[0].time, h[1].time));
      hide Panel, Slope, Within;
    }
  }

  // ---------- bounds ----------

  lemma {:induction false} AtIsBounded(h: seq<Frame>, x: real, low: real, high: real)
    requires Increasing(h) && |h| > 0 && forall i :: 0 <= i < |h| ==> low <= h[i].value <= high
    ensures low <= At(h, x) <= high
  {
    if |h| == 1 || x <= h[0].time {
    } else if x <= h[1].time {
      LineIsBounded(h[0], h[1], x, low, high);
    } else {
      AtIsBounded(h[1..], x, low, high);
    }
  }

  lemma LineIsBounded(f: Frame, g: Frame, x: real, low: real, high: real)
    requires f.time < g.time && f.time <= x <= g.time && low <= f.value <= high && low <= g.value <= high
    ensures low <= Line(f, Slope(f, g), x) <= high
  {
    SlopeReaches(f, g);
    var k := Slope(f, g);
    hide Slope;
    BetweenEnds(f.value, g.value, k, x - f.time, g.time - x, low, high);
  }

  lemma BetweenEnds(start: real, end: real, k: real, done: real, rest: real, low: real, high: real)
    requires done >= 0.0 && rest >= 0.0 && low <= start <= high && low <= end <= high && end == start + k * (done + rest)
    ensures low <= start + k * done <= high
  {
    if k >= 0.0 {
      Nonnegative(k, done);
      Nonnegative(k, rest);
    } else {
      Nonnegative(-k, done);
      Nonnegative(-k, rest);
    }
  }

  /** Between the extremes of the samples. */
  lemma {:induction false} TrapezoidsAreBounded(h: seq<Frame>, ks: seq<real>, low: real, high: real)
    requires Increasing(h) && |h| > 0 && |ks| > 0 && Rising(ks)
    requires forall i :: 0 <= i < |h| ==> low <= h[i].value <= high
    ensures Times(low, ks[|ks| - 1] - ks[0]) <= Trapezoids(h, ks) <= Times(high, ks[|ks| - 1] - ks[0])
  {
    if |ks| >= 2 {
      var rest, last := ks[1..], ks[|ks| - 1];
      assert Trapezoids(h, ks) == Area(At(h, ks[0]), At(h, ks[1]), ks[1] - ks[0]) + Trapezoids(h, rest);
      assert Rising(rest) && ks[0] < ks[1] && rest[0] == ks[1] && rest[|rest| - 1] == last;
      hide *;
      TrapezoidsAreBounded(h, rest, low, high);
      AtIsBounded(h, ks[0], low, high);
      AtIsBounded(h, ks[1], low, high);
      AreaIsBounded(At(h, ks[0]), At(h, ks[1]), ks[1] - ks[0], low, high);
      Spread(low, ks[1] - ks[0], last - ks[1], last - ks[0]);
      Spread(high, ks[1] - ks[0], last - ks[1], last - ks[0]);
    }
  }

  lemma Spread(k: real, d: real, e: real, f: real)
    requires d + e == f
    ensures Times(k, f) == Times(k, d) + Times(k, e)
  {
  }

  lemma AreaIsBounded(u: real, v: real, d: real, low: real, high: real)
    requires d >= 0.0 && low <= u <= high && low <= v <= high
    ensures Times(low, d) <= Area(u, v, d) <= Times(high, d)
  {
    var m := (u + v) * 0.5;
    Nonnegative(m - low, d);
    Nonnegative(high - m, d);
  }

  // ---------- inserting a frame on the interpolant ----------

  /** A frame on the segment from f to g splits it without changing any clipped area. */
  lemma SplitSegment(f: Frame, m: Frame, g: Frame, a: real, b: real)
    requires f.time < m.time < g.time && m.value == Line(f, Slope(f, g), m.time)
    ensures Clipped(f, m, a, b) + Clipped(m, g, a, b) == Clipped(f, g, a, b)
  {
    var k := Slope(f, g);
    SameSlope(f, m, g);
    hide Slope;
    var a1, b1 := Within(a, f.time, m.time), Within(b, f.time, m.time);
    var a2, b2 := Within(a, m.time, g.time), Within(b, m.time, g.time);
    var a0, b0 := Within(a, f.time, g.time), Within(b, f.time, g.time);
    PanelMoves(f, m, k, a2, b2);
    assert (a0 == a1 && a2 == m.time) || (a0 == a2 && a1 == m.time);
    assert (b0 == b1 && b2 == m.time) || (b0 == b2 && b1 == m.time);
    hide Within;
    PanelIs(f, k, a1, b1);
    PanelIs(f, k, a2, b2);
    PanelIs(f, k, a0, b0);
    hide Panel, Primitive;
  }

  lemma SameSlope(f: Frame, m: Frame, g: Frame)
    requires f.time < m.time < g.time && m.value == Line(f, Slope(f, g), m.time)
    ensures Slope(f, m) == Slope(f, g) && Slope(m, g) == Slope(f, g)
  {
    SlopeReaches(f, g);
    var k := Slope(f, g);
    SlopeFrom(f, m, k);
    hide Slope;
    assert g.value - m.value == k * (g.time - m.time);
    SlopeFrom(m, g, k);
  }

  lemma SlopeFrom(f: Frame, g: Frame, k: real)
    requires f.time < g.time && g.value - f.value == k * (g.time - f.time)
    ensures Slope(f, g) == k
  {
    var d := g.time - f.time;
    assert (k * d) / d == k;
  }

  lemma PanelMoves(f: Frame, m: Frame, k: real, a: real, b: real)
    requires m.value == Line(f, k, m.time)
    ensures Panel(m, k, a, b) == Panel(f, k, a, b)
  {
    assert Line(m, k, a) == Line(f, k, a) && Line(m, k, b) == Line(f, k, b);
  }

  /** A frame added between two neighbours, on the interpolant, leaves every integral unchanged. */
  lemma {:induction false} InsertOnInterpolant(h: seq<Frame>, i: nat, m: Frame, a: real, b: real)
    requires Increasing(h) && 0 < i < |h| && h[i - 1].time < m.time < h[i].time && m.value == At(h, m.time)
    ensures Increasing(h[..i] + [m] + h[i..]) && Integral(h[..i] + [m] + h[i..], a, b) == Integral(h, a, b)
  {
    var wider := h[..i] + [m] + h[i..];
    assert Increasing(wider);
    assert wider[0] == h[0];
    if i == 1 {
      assert wider[1..][1..] == h[1..] && wider[1] == m && wider[1..][1] == h[1];
      SplitSegment(h[0], m, h[1], a, b);
      hide Clipped, Line, Slope;
    } else {
      assert h[1].time <= h[i - 1].time;
      StepOver(h, m.time);
      assert wider[1..] == h[1..][..i - 1] + [m] + h[1..][i - 1..];
      assert wider[1] == h[1];
      InsertOnInterpolant(h[1..], i - 1, m, a, b);
      hide Clipped, At;
    }
  }
}

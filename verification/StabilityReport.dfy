/** Every figure of the solver-stability report, read off the lines of the log. */
module StabilityReport {

  import opened Arithmetic
  import opened Wrappers
  import opened SolverStability

  /** The coordinate in force at line i: the one named last, at it or before. */
  function InForce(lines: seq<Line>, i: nat): Option<real>
    requires i < |lines|
  {
    LastTime(lines[..i + 1])
  }

  // ---------- what the log definitions mean ----------

  /** Line i names c, and no later line names any coordinate. */
  ghost predicate NamedLastAt(lines: seq<Line>, c: real, i: nat) {
    i < |lines| && lines[i] == Time(Finite(c)) && forall k :: i < k < |lines| ==> !(lines[k].Time? && lines[k].coordinate.Finite?)
  }

  lemma NamedLastGrows(before: seq<Line>, x: Line, c: real, i: nat)
    requires i < |before|
    ensures NamedLastAt(before + [x], c, i) <==> NamedLastAt(before, c, i) && !Coordinate(x)
  {
    var lines := before + [x];
    assert lines[|before|] == x;
    assert forall k :: 0 <= k < |before| ==> lines[k] == before[k];
  }

  /** The coordinate in force is the one named last. */
  lemma {:induction false} LastTimeIs(lines: seq<Line>, c: real)
    ensures LastTime(lines) == Some(c) <==> exists i: nat :: NamedLastAt(lines, c, i)
  {
    if lines != [] {
      var before, x := lines[..|lines| - 1], lines[|lines| - 1];
      assert lines == before + [x];
      LastTimeIs(before, c);
      LastTimeGrows(before, x);
      hide LastTime;
      forall i: nat | i < |before| ensures NamedLastAt(lines, c, i) <==> NamedLastAt(before, c, i) && !Coordinate(x) {
        NamedLastGrows(before, x, c, i);
      }
      if x == Time(Finite(c)) {
        assert NamedLastAt(lines, c, |before|);
      } else if i: nat :| NamedLastAt(before, c, i) {
        assert NamedLastAt(lines, c, i) <==> !Coordinate(x);
      }
    }
  }

  /** The coordinate is set back at the last restart and never after it. */
  lemma {:induction false} LastRestartIs(lines: seq<Line>)
    ensures var n := LastRestart(lines);
            && (n > 0 ==> n < |lines| && Restarts(lines[..n], lines[n]))
            && forall k :: n < k < |lines| ==> !Restarts(lines[..k], lines[k])
  {
    if lines != [] {
      hide Restarts;
      var before := lines[..|lines| - 1];
      LastRestartIs(before);
      var n := LastRestart(lines);
      if n < |before| {
        assert before[..n] == lines[..n];
      }
      forall k | n < k < |lines| ensures !Restarts(lines[..k], lines[k]) {
        if k < |before| { assert before[..k] == lines[..k] && before[k] == lines[k]; }
      }
    }
  }

  // ---------- one stretch of log ----------

  /** A line reports this bound while c is in force. */
  ghost predicate HitAt(lines: seq<Line>, c: real, b: Bound, i: nat) {
    i < |lines| && lines[i].Limit? && lines[i].bound == b && InForce(lines, i) == Some(c)
  }

  ghost predicate Hit(lines: seq<Line>, c: real, b: Bound) { exists i: nat :: HitAt(lines, c, b, i) }

  ghost predicate Limited(steps: seq<Step>, c: real, b: Bound) {
    exists j :: 0 <= j < |steps| && steps[j].coordinate == c && b in steps[j].limits
  }

  ghost predicate Names(lines: seq<Line>, c: real) { exists i :: 0 <= i < |lines| && lines[i] == Time(Finite(c)) }

  ghost predicate Has(steps: seq<Step>, c: real) { exists j :: 0 <= j < |steps| && steps[j].coordinate == c }

  lemma HitGrows(lines: seq<Line>, x: Line, c: real, b: Bound)
    ensures Hit(lines + [x], c, b) <==> Hit(lines, c, b) || (x.Limit? && x.bound == b && LastTime(lines + [x]) == Some(c))
  {
    var more := lines + [x];
    WholeInForce(more);
    assert more[|lines|] == x;
    assert HitAt(more, c, b, |lines|) <==> x.Limit? && x.bound == b && LastTime(more) == Some(c);
    forall i: nat | i < |lines| ensures HitAt(more, c, b, i) <==> HitAt(lines, c, b, i) {
      assert more[..i + 1] == lines[..i + 1] && more[i] == lines[i];
    }
    assert forall i: nat :: HitAt(more, c, b, i) ==> i < |lines| || i == |lines|;
    assert forall i: nat :: HitAt(lines, c, b, i) ==> i < |lines|;
    hide HitAt, LastTime;
  }

  lemma WholeInForce(lines: seq<Line>)
    requires lines != []
    ensures InForce(lines, |lines| - 1) == LastTime(lines)
  {
    assert lines[..|lines|] == lines;
  }

  lemma NamesGrow(lines: seq<Line>, x: Line, c: real)
    ensures Names(lines + [x], c) <==> Names(lines, c) || x == Time(Finite(c))
  {
    var more := lines + [x];
    assert more[|lines|] == x;
    if Names(lines, c) {
      var i :| 0 <= i < |lines| && lines[i] == Time(Finite(c));
      assert more[i] == lines[i];
    }
  }

  lemma NewStep(steps: seq<Step>, s: Step, c: real, b: Bound)
    requires s.samples == [] && s.limits == {}
    ensures Gather(steps + [s]) == Gather(steps)
    ensures Limited(steps + [s], c, b) <==> Limited(steps, c, b)
    ensures Has(steps + [s], c) <==> Has(steps, c) || s.coordinate == c
  {
    GatherAppends(steps, s);
    hide Gather;
    var more := steps + [s];
    assert more[|steps|] == s;
    assert forall j :: 0 <= j < |steps| ==> more[j] == steps[j];
  }

  lemma {:induction false} GatherAppends(steps: seq<Step>, s: Step)
    ensures Gather(steps + [s]) == Gather(steps) + s.samples
  {
    if steps == [] {
      assert [s][1..] == [] && [] + [s] == [s];
    } else {
      assert (steps + [s])[1..] == steps[1..] + [s];
      GatherAppends(steps[1..], s);
    }
  }

  lemma GrownStep(steps: seq<Step>, x: Line, c: real, b: Bound)
    requires steps != []
    ensures var last, more := steps[|steps| - 1], ExtendLast(steps, x);
            && Gather(more) == Gather(steps) + Samples([x])
            && (Limited(more, c, b) <==> Limited(steps, c, b) || (x.Limit? && x.bound == b && last.coordinate == c))
            && (Has(more, c) <==> Has(steps, c))
  {
    var front, last := steps[..|steps| - 1], steps[|steps| - 1];
    hide *;
    ExtendLastIs(steps, x);
    ExtendedIs(last, x);
    GrownGather(front, last, Extended(last, x), Samples([x]));
    SameLength(front, last, Extended(last, x), x, c, b);
  }

  lemma ExtendLastIs(steps: seq<Step>, x: Line)
    requires steps != []
    ensures ExtendLast(steps, x) == steps[..|steps| - 1] + [Extended(steps[|steps| - 1], x)]
    ensures steps == steps[..|steps| - 1] + [steps[|steps| - 1]]
  {
    hide Extended;
  }

  lemma GrownGather(front: seq<Step>, s: Step, t: Step, added: seq<Sample>)
    requires t.samples == s.samples + added
    ensures Gather(front + [t]) == Gather(front + [s]) + added
  {
    GatherAppends(front, s);
    GatherAppends(front, t);
    hide Gather;
    assert Gather(front) + (s.samples + added) == (Gather(front) + s.samples) + added;
  }

  lemma ExtendedIs(s: Step, x: Line)
    ensures Extended(s, x).samples == s.samples + Samples([x]) && Extended(s, x).coordinate == s.coordinate
    ensures Extended(s, x).limits == s.limits + if x.Limit? then {x.bound} else {}
  {
    assert [x][..0] == [];
    assert Samples([x]) == Samples([]) + Samples([x]);
  }

  lemma SameLength(front: seq<Step>, s: Step, t: Step, x: Line, c: real, b: Bound)
    requires t.coordinate == s.coordinate && t.limits == s.limits + if x.Limit? then {x.bound} else {}
    ensures Limited(front + [t], c, b) <==> Limited(front + [s], c, b) || (x.Limit? && x.bound == b && s.coordinate == c)
    ensures Has(front + [t], c) <==> Has(front + [s], c)
  {
    LastOne(front, s, c, b);
    LastOne(front, t, c, b);
    hide Limited, Has;
  }

  lemma LastOne(front: seq<Step>, s: Step, c: real, b: Bound)
    ensures Limited(front + [s], c, b) <==> Limited(front, c, b) || (s.coordinate == c && b in s.limits)
    ensures Has(front + [s], c) <==> Has(front, c) || s.coordinate == c
  {
    var all := front + [s];
    assert all[|front|] == s;
    assert forall j :: 0 <= j < |front| ==> all[j] == front[j];
    if Limited(front, c, b) {
      var j :| 0 <= j < |front| && front[j].coordinate == c && b in front[j].limits;
      assert all[j].coordinate == c && b in all[j].limits;
    }
    if Has(front, c) {
      var j :| 0 <= j < |front| && front[j].coordinate == c;
      assert all[j].coordinate == c;
    }
  }

  lemma SamplesGrow(lines: seq<Line>, x: Line)
    ensures Samples(lines + [x]) == Samples(lines) + Samples([x])
  {
    assert (lines + [x])[..|lines|] == lines && [x][..0] == [];
  }

  /** What a report draws from the iterations of a stretch that opens with a coordinate: its samples, its bounds, its coordinates. */
  lemma {:induction false} DrawnFrom(lines: seq<Line>, c: real, b: Bound)
    requires lines != [] && Coordinate(lines[0])
    ensures Gather(Steps(lines)) == Samples(lines)
    ensures Limited(Steps(lines), c, b) <==> Hit(lines, c, b)
    ensures Has(Steps(lines), c) <==> Names(lines, c)
    decreases |lines|
  {
    var before, x := lines[..|lines| - 1], lines[|lines| - 1];
    assert lines == before + [x];
    if before == [] {
      OneLine(x);
      CoordinateIs(x);
      assert lines == [x] && [x][..0] == [];
      NothingHit(x, c, b);
    } else {
      hide *;
      DrawnFrom(before, c, b);
      StepsHere(before, x);
      SomeTime(before, 0);
      LastTimeGrows(before, x);
      SamplesGrow(before, x);
      HitGrows(before, x, c, b);
      NamesGrow(before, x, c);
      Drawn(before, x, c, b);
    }
  }

  lemma NothingHit(x: Line, c: real, b: Bound)
    requires Coordinate(x) && x.Time? && x.coordinate.Finite?
    ensures Samples([x]) == [] && Gather([Step(x.coordinate.r, [], {})]) == []
    ensures !Hit([x], c, b) && !Limited([Step(x.coordinate.r, [], {})], c, b)
    ensures Names([x], c) <==> Has([Step(x.coordinate.r, [], {})], c)
  {
    assert [x][..0] == [];
    if x.coordinate.r == c {
      assert [x][0] == Time(Finite(c)) && [Step(c, [], {})][0].coordinate == c;
    }
  }

  lemma Drawn(before: seq<Line>, x: Line, c: real, b: Bound)
    requires LastTime(before).Some? && Steps(before) != [] && Steps(before)[|Steps(before)| - 1].coordinate == LastTime(before).value
    requires Coordinate(x) && LastTime(before) != Some(x.coordinate.r) ==>
               Steps(before + [x]) == Steps(before) + [Step(x.coordinate.r, [], {})]
    requires (Coordinate(x) ==> x.coordinate.r == LastTime(before).value) ==> Steps(before + [x]) == ExtendLast(Steps(before), x)
    requires LastTime(before + [x]) == if Coordinate(x) then Some(x.coordinate.r) else LastTime(before)
    requires Has(Steps(before), c) <==> Names(before, c)
    requires Limited(Steps(before), c, b) <==> Hit(before, c, b)
    ensures Gather(Steps(before + [x])) == Gather(Steps(before)) + Samples([x])
    ensures Limited(Steps(before + [x]), c, b) <==> Hit(before, c, b) || (x.Limit? && x.bound == b && LastTime(before + [x]) == Some(c))
    ensures Has(Steps(before + [x]), c) <==> Names(before, c) || x == Time(Finite(c))
  {
    var steps := Steps(before);
    assert [x][..0] == [];
    hide Steps, LastTime, Gather, Limited, Has, Names, Hit, ExtendLast;
    if Coordinate(x) && LastTime(before) != Some(x.coordinate.r) {
      NewStep(steps, Step(x.coordinate.r, [], {}), c, b);
      assert Samples([x]) == [];
    } else {
      GrownStep(steps, x, c, b);
      if x == Time(Finite(c)) {
        LastIsThere(steps);
      }
    }
  }

  lemma LastIsThere(steps: seq<Step>)
    requires steps != []
    ensures Has(steps, steps[|steps| - 1].coordinate)
  {
  }

  // ---------- counting iterations ----------

  ghost function Marked(steps: seq<Step>, p: Step -> bool): set<real> { set i | 0 <= i < |steps| && p(steps[i]) :: steps[i].coordinate }

  lemma MarkedFirst(s: Step, rest: seq<Step>, p: Step -> bool)
    requires Rising([s] + rest)
    ensures Marked([s] + rest, p) == Marked(rest, p) + if p(s) then {s.coordinate} else {}
    ensures s.coordinate !in Marked(rest, p) && Rising(rest)
  {
    var all := [s] + rest;
    assert forall i :: 0 <= i < |rest| ==> rest[i] == all[i + 1];
    assert all[0] == s;
    forall c | c in Marked(all, p) ensures c in Marked(rest, p) + if p(s) then {s.coordinate} else {} {
      var i :| 0 <= i < |all| && p(all[i]) && all[i].coordinate == c;
      if i > 0 { assert rest[i - 1] == all[i]; }
    }
    forall c | c in Marked(rest, p) ensures c in Marked(all, p) && c != s.coordinate {
      var i :| 0 <= i < |rest| && p(rest[i]) && rest[i].coordinate == c;
      assert all[i + 1] == rest[i] && all[0].coordinate < all[i + 1].coordinate;
    }
  }

  lemma {:induction false} CountIsMarked(steps: seq<Step>, p: Step -> bool)
    requires Rising(steps)
    ensures CountIf(steps, p) == |Marked(steps, p)|
  {
    if steps != [] {
      assert steps == [steps[0]] + steps[1..];
      MarkedFirst(steps[0], steps[1..], p);
      hide Marked, Rising;
      CountIsMarked(steps[1..], p);
    }
  }

  // ---------- reading the samples ----------

  /** A continuity line with these three sums. */
  predicate Reads(line: Line, v: Sample) { line == Continuity(Finite(v.local), Finite(v.global), Finite(v.cumulative)) }

  ghost predicate Finished(lines: seq<Line>) {
    forall i :: 0 <= i < |lines| && lines[i].Continuity? ==> lines[i].local.Finite? && lines[i].global.Finite? && lines[i].cumulative.Finite?
  }

  ghost function Diagnostics(lines: seq<Line>): set<int> { set i | 0 <= i < |lines| && lines[i].Continuity? }

  ghost predicate ReadBy(lines: seq<Line>, v: Sample) { exists i :: 0 <= i < |lines| && Reads(lines[i], v) }

  ghost predicate LastRead(lines: seq<Line>, v: Sample) {
    exists i :: 0 <= i < |lines| && Reads(lines[i], v) && forall k :: i < k < |lines| ==> !lines[k].Continuity?
  }

  lemma {:induction false} SamplesCount(lines: seq<Line>)
    requires Finished(lines)
    ensures |Samples(lines)| == |Diagnostics(lines)|
  {
    if lines != [] {
      var before, x := lines[..|lines| - 1], lines[|lines| - 1];
      assert forall i :: 0 <= i < |before| ==> before[i] == lines[i];
      SamplesCount(before);
      assert Diagnostics(lines) == Diagnostics(before) + if x.Continuity? then {|lines| - 1} else {};
    }
  }

  lemma ReadByGrows(before: seq<Line>, x: Line, v: Sample)
    ensures ReadBy(before + [x], v) <==> ReadBy(before, v) || Reads(x, v)
  {
    var more := before + [x];
    assert more[|before|] == x;
    if i :| 0 <= i < |before| && Reads(before[i], v) {
      assert more[i] == before[i];
    }
  }

  lemma {:induction false} SamplesMembers(lines: seq<Line>, v: Sample)
    ensures v in Samples(lines) <==> ReadBy(lines, v)
  {
    if lines != [] {
      var before, x := lines[..|lines| - 1], lines[|lines| - 1];
      assert lines == before + [x];
      SamplesMembers(before, v);
      ReadByGrows(before, x, v);
      hide ReadBy;
    }
  }

  lemma LastReadGrows(before: seq<Line>, x: Line, v: Sample)
    ensures Reads(x, v) ==> LastRead(before + [x], v)
    ensures !x.Continuity? && LastRead(before, v) ==> LastRead(before + [x], v)
  {
    var more := before + [x];
    assert more[|before|] == x;
    assert forall i :: 0 <= i < |before| ==> more[i] == before[i];
    if LastRead(before, v) {
      var i :| 0 <= i < |before| && Reads(before[i], v) && forall k :: i < k < |before| ==> !before[k].Continuity?;
      assert Reads(more[i], v);
    }
  }

  lemma {:induction false} SamplesLast(lines: seq<Line>)
    requires Finished(lines) && Samples(lines) != []
    ensures LastRead(lines, Samples(lines)[|Samples(lines)| - 1])
  {
    var before, x := lines[..|lines| - 1], lines[|lines| - 1];
    assert lines == before + [x];
    assert forall i :: 0 <= i < |before| ==> before[i] == lines[i];
    LastReadGrows(before, x, Samples(lines)[|Samples(lines)| - 1]);
    if x.Continuity? {
      assert Reads(x, Samples(lines)[|Samples(lines)| - 1]);
    } else {
      SamplesLast(before);
    }
    hide LastRead;
  }

  // ---------- the report ----------

  /** The coordinates a stretch names. */
  ghost function NamedIn(lines: seq<Line>): set<real> { set i | 0 <= i < |lines| && Coordinate(lines[i]) :: lines[i].coordinate.r }

  /** The coordinates in force where a bound is reported. */
  ghost function HitIn(lines: seq<Line>, b: Bound): set<real> {
    set i | 0 <= i < |lines| && lines[i].Limit? && lines[i].bound == b && InForce(lines, i).Some? :: InForce(lines, i).value
  }

  /** The largest of these magnitudes over the continuity lines, and attained in one of them. */
  ghost predicate IsLargestGlobal(lines: seq<Line>, m: real) {
    && (forall v :: ReadBy(lines, v) ==> -m <= v.global <= m)
    && exists v :: ReadBy(lines, v) && (v.global == m || v.global == -m)
  }

  ghost predicate IsLargestLocal(lines: seq<Line>, m: real) {
    (forall v :: ReadBy(lines, v) ==> v.local <= m) && exists v :: ReadBy(lines, v) && v.local == m
  }

  /** The report reads off a stretch of log. */
  ghost predicate ReadsOff(r: Report, lines: seq<Line>) {
    && r.Report? && r.iterations == |NamedIn(lines)|
    && r.limited == |HitIn(lines, Minimum) + HitIn(lines, Maximum)|
    && r.minimumLimited == |HitIn(lines, Minimum)| && r.maximumLimited == |HitIn(lines, Maximum)|
    && r.samples == |Diagnostics(lines)|
    && (r.lastSample.Some? <==> r.samples > 0) && (r.lastSample.Some? ==> LastRead(lines, r.lastSample.value))
    && (r.maximumGlobal.Some? <==> r.samples > 0) && (r.maximumGlobal.Some? ==> IsLargestGlobal(lines, r.maximumGlobal.value))
    && (r.maximumLocal.Some? <==> r.samples > 0) && (r.maximumLocal.Some? ==> IsLargestLocal(lines, r.maximumLocal.value))
  }

  lemma HitIsIn(lines: seq<Line>, c: real, b: Bound)
    ensures c in HitIn(lines, b) <==> Hit(lines, c, b)
  {
    hide LastTime, InForce;
    if i: nat :| HitAt(lines, c, b, i) {
      assert lines[i].Limit? && InForce(lines, i).value == c;
    }
    if c in HitIn(lines, b) {
      var i :| 0 <= i < |lines| && lines[i].Limit? && lines[i].bound == b && InForce(lines, i).Some? && InForce(lines, i).value == c;
      assert HitAt(lines, c, b, i);
    }
  }

  lemma MarkedByBound(lines: seq<Line>, b: Bound)
    requires lines != [] && Coordinate(lines[0])
    ensures Marked(Steps(lines), (s: Step) => b in s.limits) == HitIn(lines, b)
  {
    var steps := Steps(lines);
    hide Steps, LastTime, InForce;
    forall c ensures c in Marked(steps, (s: Step) => b in s.limits) <==> c in HitIn(lines, b) {
      DrawnFrom(lines, c, b);
      assert c in Marked(steps, (s: Step) => b in s.limits) <==> Limited(steps, c, b);
      HitIsIn(lines, c, b);
    }
  }

  lemma MarkedAtAll(steps: seq<Step>)
    ensures Marked(steps, (s: Step) => s.limits != {})
         == Marked(steps, (s: Step) => Minimum in s.limits) + Marked(steps, (s: Step) => Maximum in s.limits)
  {
    forall s: Step ensures s.limits != {} <==> Minimum in s.limits || Maximum in s.limits {
      if b :| b in s.limits {
        assert b == Minimum || b == Maximum;
      }
    }
  }

  lemma NamedIsCounted(lines: seq<Line>)
    requires lines != [] && Coordinate(lines[0]) && Rising(Steps(lines))
    ensures |Steps(lines)| == |NamedIn(lines)|
  {
    var steps := Steps(lines);
    var all := (s: Step) => true;
    hide Steps;
    CountsAll(steps);
    CountIsMarked(steps, all);
    forall c ensures c in Marked(steps, all) <==> c in NamedIn(lines) {
      DrawnFrom(lines, c, Minimum);
      assert c in Marked(steps, all) <==> Has(steps, c);
      assert c in NamedIn(lines) <==> Names(lines, c);
    }
    assert Marked(steps, all) == NamedIn(lines);
  }

  lemma {:induction false} CountsAll(steps: seq<Step>)
    ensures CountIf(steps, (s: Step) => true) == |steps|
  {
    if steps != [] {
      CountsAll(steps[1..]);
    }
  }

  lemma LargestGlobal(lines: seq<Line>)
    requires Samples(lines) != []
    ensures IsLargestGlobal(lines, Largest(Samples(lines), (s: Sample) => Absolute(s.global)).value)
  {
    var samples := Samples(lines);
    var size := (s: Sample) => Absolute(s.global);
    LargestIs(samples, size);
    forall v ensures v in samples <==> ReadBy(lines, v) {
      SamplesMembers(lines, v);
    }
    hide Largest, ReadBy, Samples;
    var i :| 0 <= i < |samples| && size(samples[i]) == Largest(samples, size).value;
    assert samples[i] in samples;
  }

  lemma LargestLocal(lines: seq<Line>)
    requires Samples(lines) != []
    ensures IsLargestLocal(lines, Largest(Samples(lines), (s: Sample) => s.local).value)
  {
    var samples := Samples(lines);
    var local := (s: Sample) => s.local;
    LargestIs(samples, local);
    forall v ensures v in samples <==> ReadBy(lines, v) {
      SamplesMembers(lines, v);
    }
    hide Largest, ReadBy, Samples;
    var j :| 0 <= j < |samples| && local(samples[j]) == Largest(samples, local).value;
    assert samples[j] in samples;
  }

  lemma StretchIsReadOff(lines: seq<Line>)
    requires lines != [] && Coordinate(lines[0]) && Rising(Steps(lines)) && Finished(lines) && Steps(lines) != []
    ensures ReadsOff(ReportOn(Steps(lines)), lines)
  {
    var steps := Steps(lines);
    DrawnFrom(lines, 0.0, Minimum);
    NamedIsCounted(lines);
    MarkedByBound(lines, Minimum);
    MarkedByBound(lines, Maximum);
    MarkedAtAll(steps);
    CountIsMarked(steps, (s: Step) => s.limits != {});
    CountIsMarked(steps, (s: Step) => Minimum in s.limits);
    CountIsMarked(steps, (s: Step) => Maximum in s.limits);
    SamplesCount(lines);
    var samples := Samples(lines);
    LargestIs(samples, (s: Sample) => Absolute(s.global));
    LargestIs(samples, (s: Sample) => s.local);
    if samples != [] {
      LargestGlobal(lines);
      LargestLocal(lines);
      SamplesLast(lines);
    }
    hide Steps, Samples, Marked, CountIf, Largest, Gather, NamedIn, HitIn, Diagnostics, LastRead, IsLargestGlobal, IsLargestLocal, Rising, Finished;
  }

  /** A log with a coordinate is reported on from a line q on, after its last restart: the window is full or opens at the first
      coordinate there is, every figure is read off the lines from q on, and nothing later sets the coordinate back. */
  lemma ReportIsReadOff(lines: seq<Line>, k: nat) returns (q: nat)
    requires k >= 1 && WellFormed(lines) && HasTime(lines)
    ensures LastRestart(lines) <= q < |lines| && lines[q].Time? && lines[q].coordinate.Finite?
    ensures var r := ReportOn(WindowOf(lines, k));
            && ReadsOff(r, lines[q..]) && lines[q] == Time(Finite(r.first)) && LastTime(lines) == Some(r.last)
            && r.iterations <= k
            && (r.iterations == k || forall i :: LastRestart(lines) <= i < q ==> !lines[i].Time?)
  {
    hide *;
    var n, seg := LastRestart(lines), Segment(lines);
    var steps := Steps(seg);
    HasTimeIs(lines);
    StepsRise(lines);
    WindowRises(lines, k);
    WindowTail(lines, k);
    var m := if k <= |steps| then k else |steps|;
    var p := TailIsSuffix(seg, m);
    BeginsInside(seg, p);
    var stretch := seg[p..];
    q := n + p;
    StretchFacts(lines, n, p, stretch);
    TailTwice(steps, k, m);
    FirstStep(stretch);
    StretchIsReadOff(stretch);
    FirstOfReport(steps, k, stretch);
    if |steps| < k {
      forall i | n <= i < q ensures !lines[i].Time? {
        NothingBefore(lines, n, seg, p, i);
      }
    }
  }

  lemma WindowTail(lines: seq<Line>, k: nat)
    ensures WindowOf(lines, k) == Tail(Steps(Segment(lines)), k) && Segment(lines) == lines[LastRestart(lines)..]
  {
    hide Steps, Tail;
  }

  lemma TailTwice(steps: seq<Step>, k: nat, m: nat)
    requires Rising(steps) && m == if k <= |steps| then k else |steps|
    ensures Tail(steps, k) == Tail(steps, m) && Rising(Tail(steps, m)) && |Tail(steps, m)| == m
  {
  }

  lemma FirstOfReport(steps: seq<Step>, k: nat, stretch: seq<Line>)
    requires Tail(steps, k) == Steps(stretch) && Steps(stretch) != [] && |steps| >= 1 && k >= 1
    ensures ReportOn(Steps(stretch)).Report? && ReportOn(Steps(stretch)).first == Steps(stretch)[0].coordinate
    ensures ReportOn(Steps(stretch)).iterations == |Tail(steps, k)| == if k <= |steps| then k else |steps|
  {
    hide Steps, Gather, CountIf, Largest;
  }

  lemma FirstStep(lines: seq<Line>)
    requires lines != [] && Coordinate(lines[0])
    ensures lines[0].Time? && lines[0].coordinate.Finite? && Steps(lines) != [] && Steps(lines)[0].coordinate == lines[0].coordinate.r
    ensures lines[0] == Time(Finite(lines[0].coordinate.r))
  {
    var c := lines[0].coordinate.r;
    StepsUnfold(lines, c, BlockEnd(lines, 1, c));
    hide Steps, BlockEnd;
  }

  lemma BeginsInside(lines: seq<Line>, p: nat)
    requires Begins(lines, p)
    ensures p < |lines|
  {
  }

  lemma StretchFacts(lines: seq<Line>, n: nat, p: nat, stretch: seq<Line>)
    requires n <= |lines| && WellFormed(lines) && Begins(lines[n..], p) && stretch == lines[n..][p..]
    ensures n + p < |lines| && stretch == lines[n + p..] && stretch != [] && Coordinate(stretch[0]) && lines[n + p] == stretch[0]
    ensures Finished(stretch)
  {
    var q := n + p;
    assert lines[q] == lines[n..][p];
    forall i | 0 <= i < |stretch| && stretch[i].Continuity?
      ensures stretch[i].local.Finite? && stretch[i].global.Finite? && stretch[i].cumulative.Finite?
    {
      assert stretch[i] == lines[q + i] && i > 0;
      assert lines[..q + i][q] == lines[q];
      assert HasTime(lines[..q + i]);
      assert !Malformed(lines[..q + i], lines[q + i]);
    }
  }

  /** Had a coordinate come before, there would be more iterations. */
  lemma NothingInside(seg: seq<Line>, p: nat, j: nat)
    requires j < p < |seg| && Begins(seg, p) && |Steps(seg[p..])| == |Steps(seg)|
    ensures !Coordinate(seg[j])
  {
    var front, back := seg[..p], seg[p..];
    assert seg == front + back && back[0] == seg[p] && front[j] == seg[j];
    hide Steps, LastTime, Coordinate;
    StepsConcat(front, back);
    if Coordinate(front[j]) {
      SomeTime(front, j);
      StepsHere(front, Other);
    }
  }

  lemma NothingBefore(lines: seq<Line>, n: nat, seg: seq<Line>, p: nat, i: nat)
    requires WellFormed(lines) && n <= i < n + p < |lines| && seg == lines[n..] && Begins(seg, p) && Steps(seg[p..]) == Tail(Steps(seg), |Steps(seg)|)
    ensures !lines[i].Time?
  {
    assert !Malformed(lines[..i], lines[i]);
    assert seg[i - n] == lines[i];
    hide Steps, LastTime, WellFormed, Begins;
    NothingInside(seg, p, i - n);
  }

  // ---------- which logs are refused ----------

  /** A log raises on a time line that names no finite coordinate of at least zero, and, once an iteration has begun, on a continuity
      line with an infinite sum or a negative local one and on an infinite pressure limit; on nothing else. */
  lemma WellFormedExactly(lines: seq<Line>)
    ensures WellFormed(lines) <==>
              && (forall i :: 0 <= i < |lines| && lines[i].Time? ==> lines[i].coordinate.Finite? && 0.0 <= lines[i].coordinate.r)
              && (forall i, j :: 0 <= i < j < |lines| && lines[i].Time? && lines[j].Continuity? ==>
                    lines[j].local.Finite? && lines[j].global.Finite? && lines[j].cumulative.Finite? && 0.0 <= lines[j].local.r)
              && (forall i, j :: 0 <= i < j < |lines| && lines[i].Time? && lines[j].Limit? ==> lines[j].value.Finite?)
  {
    forall j | 0 <= j < |lines| ensures HasTime(lines[..j]) <==> exists i :: 0 <= i < j && lines[i].Time? {
      assert forall i :: 0 <= i < j ==> lines[..j][i] == lines[i];
    }
    hide HasTime;
  }
}

/** The bounded solver-log window: a streaming pass over the log, equal to a definition on the whole log. */
module SolverStability {

  import opened Arithmetic
  import opened Wrappers
  import opened Partial

  /** A number read from the log; a literal too large for a float is infinite. */
  datatype Number = Finite(r: real) | Infinite

  datatype Bound = Minimum | Maximum

  /** A log line, after matching it against the three patterns. */
  datatype Line =
    | Time(coordinate: Number)
    | Continuity(local: Number, global: Number, cumulative: Number)
    | Limit(bound: Bound, value: Number)
    | Other

  datatype Sample = Sample(local: real, global: real, cumulative: real)

  /** What one solver iteration logged. */
  datatype Step = Step(coordinate: real, samples: seq<Sample>, limits: set<Bound>)

  // ---------- the definition on the whole log ----------

  predicate HasTime(lines: seq<Line>) { exists i :: 0 <= i < |lines| && lines[i].Time? }

  predicate BadTime(n: Number) { n.Infinite? || n.r < 0.0 }

  /** A line that raises: a bad coordinate anywhere, or a bad diagnostic once an iteration has begun. */
  predicate Malformed(before: seq<Line>, line: Line) {
    match line
    case Time(n) => BadTime(n)
    case Continuity(a, b, c) => HasTime(before) && (a.Infinite? || b.Infinite? || c.Infinite? || a.r < 0.0)
    case Limit(_, v) => HasTime(before) && v.Infinite?
    case Other => false
  }

  predicate WellFormed(lines: seq<Line>) { forall i :: 0 <= i < |lines| ==> !Malformed(lines[..i], lines[i]) }

  /** A line that names a finite coordinate. */
  predicate Coordinate(line: Line) { line.Time? && line.coordinate.Finite? }

  /** The coordinate in force after these lines. */
  function LastTime(lines: seq<Line>): Option<real> {
    if lines == [] then None
    else
      var last := lines[|lines| - 1];
      if Coordinate(last) then Some(last.coordinate.r) else LastTime(lines[..|lines| - 1])
  }

  /** The line sets the coordinate back. */
  predicate Restarts(before: seq<Line>, line: Line) {
    Coordinate(line) && LastTime(before).Some? && line.coordinate.r < LastTime(before).value
  }

  /** The index of the last line that sets the coordinate back, or 0. */
  function LastRestart(lines: seq<Line>): (n: nat)
    ensures n <= |lines|
  {
    if lines == [] then 0
    else
      var before := lines[..|lines| - 1];
      if Restarts(before, lines[|lines| - 1]) then |lines| - 1 else LastRestart(before)
  }

  function Segment(lines: seq<Line>): seq<Line> { lines[LastRestart(lines)..] }

  predicate SameTime(line: Line, c: real) { line == Time(Finite(c)) }

  /** Where the iteration at coordinate c ends: the next time line with another coordinate. */
  function BlockEnd(lines: seq<Line>, i: nat, c: real): (n: nat)
    requires i <= |lines|
    ensures i <= n <= |lines|
    ensures forall k :: i <= k < n ==> Coordinate(lines[k]) ==> SameTime(lines[k], c)
    ensures n < |lines| ==> Coordinate(lines[n]) && !SameTime(lines[n], c)
    decreases |lines| - i
  {
    if i == |lines| || (Coordinate(lines[i]) && !SameTime(lines[i], c)) then i else BlockEnd(lines, i + 1, c)
  }

  function Samples(block: seq<Line>): seq<Sample> {
    if block == [] then []
    else
      var last := block[|block| - 1];
      Samples(block[..|block| - 1])
      + (if last.Continuity? && last.local.Finite? && last.global.Finite? && last.cumulative.Finite?
         then [Sample(last.local.r, last.global.r, last.cumulative.r)] else [])
  }

  function Limits(block: seq<Line>): set<Bound> { set i | 0 <= i < |block| && block[i].Limit? :: block[i].bound }

  function StepOf(c: real, block: seq<Line>): Step { Step(c, Samples(block), Limits(block)) }

  /** The iterations of a stretch of log: lines before the first coordinate belong to none, repeats of a coordinate are merged. */
  function Steps(lines: seq<Line>): seq<Step>
    decreases |lines|
  {
    if lines == [] then []
    else if !Coordinate(lines[0]) then Steps(lines[1..])
    else
      var c := lines[0].coordinate.r;
      var end := BlockEnd(lines, 1, c);
      [StepOf(c, lines[1..end])] + Steps(lines[end..])
  }

  function Tail<T>(xs: seq<T>, k: nat): seq<T> { if |xs| <= k then xs else xs[|xs| - k..] }

  /** The window: of the iterations since the last restart, the last k. */
  function WindowOf(lines: seq<Line>, k: nat): seq<Step> { Tail(Steps(Segment(lines)), k) }

  // ---------- the report ----------

  function CountIf(steps: seq<Step>, p: Step -> bool): nat {
    if steps == [] then 0 else (if p(steps[0]) then 1 else 0) + CountIf(steps[1..], p)
  }

  function Gather(steps: seq<Step>): seq<Sample> {
    if steps == [] then [] else steps[0].samples + Gather(steps[1..])
  }

  /** The largest of f over the samples, if there are any. */
  function Largest(samples: seq<Sample>, f: Sample -> real): Option<real> {
    if samples == [] then None
    else
      var rest := Largest(samples[1..], f);
      if rest.Some? && rest.value > f(samples[0]) then rest else Some(f(samples[0]))
  }

  datatype Report =
    | NoIterations
    | Report(iterations: nat, first: real, last: real, limited: nat, minimumLimited: nat, maximumLimited: nat,
             samples: nat, lastSample: Option<Sample>, maximumGlobal: Option<real>, maximumLocal: Option<real>)

  function ReportOn(window: seq<Step>): Report {
    if window == [] then NoIterations
    else
      var samples := Gather(window);
      Report(|window|, window[0].coordinate, window[|window| - 1].coordinate,
             CountIf(window, (s: Step) => s.limits != {}), CountIf(window, (s: Step) => Minimum in s.limits), CountIf(window, (s: Step) => Maximum in s.limits),
             |samples|, if samples == [] then None else Some(samples[|samples| - 1]),
             Largest(samples, (s: Sample) => Absolute(s.global)), Largest(samples, (s: Sample) => s.local))
  }

  // ---------- reading one more line ----------

  /** A stretch that begins a new coordinate adds its own iterations. */
  lemma {:induction false} StepsConcat(a: seq<Line>, b: seq<Line>)
    requires b != [] && Coordinate(b[0]) && LastTime(a) != Some(b[0].coordinate.r)
    ensures Steps(a + b) == Steps(a) + Steps(b)
    decreases |a|
  {
    hide *;
    if a == [] {
      assert a + b == b;
      NothingLeft();
    } else if !Coordinate(a[0]) {
      SkipFirst(a);
      SkipFirst(a + b);
      assert (a + b)[1..] == a[1..] + b;
      StepsConcat(a[1..], b);
    } else {
      CoordinateIs(a[0]);
      CoordinateIs(b[0]);
      var c := a[0].coordinate.r;
      var end := BlockEnd(a, 1, c);
      OtherTime(b[0], c);
      RestKeepsTime(a, c, end);
      BlockEndConcat(a, b, 1, c);
      StepsConcat(a[end..], b);
      StepsUnfold(a + b, c, end);
      StepsUnfold(a, c, end);
      Splits(a, b, end);
      var first, rest := [StepOf(c, a[1..end])], Steps(a[end..]);
      assert first + (rest + Steps(b)) == (first + rest) + Steps(b);
    }
  }

  lemma CoordinateIs(line: Line)
    requires Coordinate(line)
    ensures line.Time? && line.coordinate.Finite? && SameTime(line, line.coordinate.r)
  {
  }

  lemma OtherTime(line: Line, c: real)
    requires line.Time? && line.coordinate.Finite?
    ensures SameTime(line, c) <==> line.coordinate.r == c
  {
  }

  lemma Splits(a: seq<Line>, b: seq<Line>, end: nat)
    requires 1 <= end <= |a|
    ensures (a + b)[1..end] == a[1..end] && (a + b)[end..] == a[end..] + b && (a + b)[0] == a[0]
  {
  }

  /** A line before the first coordinate belongs to no iteration. */
  lemma SkipFirst(lines: seq<Line>)
    requires lines != [] && !Coordinate(lines[0])
    ensures Steps(lines) == Steps(lines[1..]) && LastTime(lines) == LastTime(lines[1..])
  {
    LastTimeTail(lines, 1);
    assert LastTime(lines[..1]) == None;
  }

  /** After the first block either nothing is left, and its coordinate is in force, or the rest decides. */
  lemma RestKeepsTime(a: seq<Line>, c: real, end: nat)
    requires a != [] && SameTime(a[0], c) && end == BlockEnd(a, 1, c)
    ensures if end < |a| then LastTime(a[end..]) == LastTime(a) else LastTime(a) == Some(c) && LastTime(a[end..]) == None
  {
    if end < |a| {
      FirstTimeKept(a, end, c);
    } else {
      OneTime(a, c);
    }
  }

  lemma StepsUnfold(lines: seq<Line>, c: real, end: nat)
    requires lines != [] && SameTime(lines[0], c) && end == BlockEnd(lines, 1, c)
    ensures Steps(lines) == [StepOf(c, lines[1..end])] + Steps(lines[end..])
  {
  }

  /** Dropping leading lines keeps the coordinate in force, when a coordinate remains or those lines had none. */
  lemma {:induction false} LastTimeTail(lines: seq<Line>, i: nat)
    requires i <= |lines|
    ensures LastTime(lines) == (if LastTime(lines[i..]).Some? then LastTime(lines[i..]) else LastTime(lines[..i]))
    decreases |lines|
  {
    if i == |lines| {
      assert lines[..i] == lines;
    } else {
      var before := lines[..|lines| - 1];
      LastTimeTail(before, i);
      assert lines[i..][..|lines[i..]| - 1] == before[i..] && before[..i] == lines[..i];
    }
  }

  lemma {:induction false} SomeTime(lines: seq<Line>, i: nat)
    requires i < |lines| && Coordinate(lines[i])
    ensures LastTime(lines).Some?
    decreases |lines|
  {
    if i < |lines| - 1 { SomeTime(lines[..|lines| - 1], i); }
  }

  lemma {:induction false} OnlyTime(lines: seq<Line>, c: real)
    requires forall k :: 0 <= k < |lines| ==> Coordinate(lines[k]) ==> SameTime(lines[k], c)
    ensures LastTime(lines) == None || LastTime(lines) == Some(c)
  {
    if lines != [] { OnlyTime(lines[..|lines| - 1], c); }
  }

  /** A block holds one coordinate throughout. */
  lemma OneTime(a: seq<Line>, c: real)
    requires a != [] && SameTime(a[0], c) && BlockEnd(a, 1, c) == |a|
    ensures LastTime(a) == Some(c) && LastTime(a[|a|..]) == None
  {
    OnlyTime(a, c);
    SomeTime(a, 0);
  }

  /** Beyond the first block, the coordinate in force is that of the rest. */
  lemma FirstTimeKept(a: seq<Line>, end: nat, c: real)
    requires a != [] && SameTime(a[0], c) && end == BlockEnd(a, 1, c) && end < |a|
    ensures LastTime(a[end..]) == LastTime(a)
  {
    LastTimeTail(a, end);
    SomeTime(a[end..], 0);
  }

  lemma {:induction false} BlockEndConcat(a: seq<Line>, b: seq<Line>, i: nat, c: real)
    requires i <= |a| && b != [] && Coordinate(b[0]) && (BlockEnd(a, i, c) == |a| ==> !SameTime(b[0], c))
    ensures BlockEnd(a + b, i, c) == BlockEnd(a, i, c)
    decreases |a| - i
  {
    if i < |a| && !(Coordinate(a[i]) && !SameTime(a[i], c)) {
      BlockEndConcat(a, b, i + 1, c);
    }
  }

  lemma {:induction false} BlockEndExtends(a: seq<Line>, x: Line, i: nat, c: real)
    requires i <= |a| && (Coordinate(x) ==> SameTime(x, c) || BlockEnd(a, i, c) < |a|)
    ensures BlockEnd(a + [x], i, c) == if BlockEnd(a, i, c) < |a| then BlockEnd(a, i, c) else |a| + 1
    decreases |a| - i
  {
    if i < |a| && !(Coordinate(a[i]) && !SameTime(a[i], c)) {
      BlockEndExtends(a, x, i + 1, c);
    }
  }

  /** The iteration in progress after one more line of its own. */
  function Extended(s: Step, x: Line): Step {
    match x
    case Continuity(Finite(a), Finite(b), Finite(c)) => s.(samples := s.samples + [Sample(a, b, c)])
    case Limit(bound, _) => s.(limits := s.limits + {bound})
    case _ => s
  }

  /** The line goes to the last iteration. */
  function ExtendLast(steps: seq<Step>, x: Line): seq<Step>
    requires steps != []
  {
    steps[..|steps| - 1] + [Extended(steps[|steps| - 1], x)]
  }

  lemma BlockExtended(c: real, block: seq<Line>, x: Line)
    ensures StepOf(c, block + [x]) == Extended(StepOf(c, block), x)
  {
    var wider := block + [x];
    assert wider[..|wider| - 1] == block && wider[|wider| - 1] == x;
    assert forall i :: 0 <= i < |block| ==> wider[i] == block[i];
    assert Limits(wider) == Limits(block) + if x.Limit? then {x.bound} else {} by {
      if x.Limit? { assert wider[|block|].Limit?; }
    }
  }

  lemma {:induction false} NoStepsBefore(a: seq<Line>)
    requires LastTime(a) == None
    ensures Steps(a) == []
  {
    if a != [] {
      if Coordinate(a[0]) { SomeTime(a, 0); }
      LastTimeTail(a, 1);
      NoStepsBefore(a[1..]);
    }
  }

  /** A line that is no new coordinate goes to the iteration in progress. */
  lemma {:induction false} StepsExtended(a: seq<Line>, x: Line)
    requires LastTime(a).Some? && (Coordinate(x) ==> SameTime(x, LastTime(a).value))
    ensures Steps(a) != [] && Steps(a)[|Steps(a)| - 1].coordinate == LastTime(a).value
    ensures Steps(a + [x]) == ExtendLast(Steps(a), x)
    decreases |a|
  {
    hide *;
    if a == [] {
      NoTimeYet([]);
    } else if !Coordinate(a[0]) {
      SkipFirst(a);
      SkipFirst(a + [x]);
      assert (a + [x])[1..] == a[1..] + [x];
      StepsExtended(a[1..], x);
    } else {
      CoordinateIs(a[0]);
      var c := a[0].coordinate.r;
      var end := BlockEnd(a, 1, c);
      RestKeepsTime(a, c, end);
      BlockEndExtends(a, x, 1, c);
      StepsUnfold(a, c, end);
      if end < |a| {
        Splits(a, [x], end);
        StepsUnfold(a + [x], c, end);
        StepsExtended(a[end..], x);
        AppendToLast([StepOf(c, a[1..end])], Steps(a[end..]), x);
      } else {
        StepsUnfold(a + [x], c, end + 1);
        WholeBlock(a, x, c);
        BlockExtended(c, a[1..], x);
        NothingLeft();
        ExtendOnly(StepOf(c, a[1..]), x);
      }
    }
  }

  lemma ExtendOnly(s: Step, x: Line)
    ensures ExtendLast([s], x) == [Extended(s, x)]
    ensures [s] + [] == [s] && [Extended(s, x)] + [] == [Extended(s, x)]
  {
  }

  lemma AppendToLast(first: seq<Step>, rest: seq<Step>, x: Line)
    requires rest != []
    ensures var all := first + rest;
            all[|all| - 1] == rest[|rest| - 1] && first + ExtendLast(rest, x) == ExtendLast(all, x)
  {
    hide Extended;
    var all := first + rest;
    assert all[..|all| - 1] == first + rest[..|rest| - 1];
  }

  lemma WholeBlock(a: seq<Line>, x: Line, c: real)
    requires a != []
    ensures (a + [x])[1..|a| + 1] == a[1..] + [x] && (a + [x])[|a| + 1..] == [] && a[|a|..] == [] && a[1..|a|] == a[1..]
    ensures StepOf(c, a[1..]).coordinate == c
  {
  }

  lemma NothingLeft()
    ensures Steps([]) == []
  {
  }

  lemma OneLine(x: Line)
    requires Coordinate(x)
    ensures Steps([x]) == [Step(x.coordinate.r, [], {})] && LastTime([x]) == Some(x.coordinate.r)
  {
    var c := x.coordinate.r;
    assert BlockEnd([x], 1, c) == 1;
    assert [x][1..] == [] && [x][1..1] == [];
    StepsUnfold([x], c, 1);
    assert Limits([]) == {};
  }

  // ---------- the restart ----------

  lemma {:induction false} RestartIsCoordinate(lines: seq<Line>)
    ensures 0 < LastRestart(lines) ==> LastRestart(lines) < |lines| && Coordinate(lines[LastRestart(lines)])
  {
    if lines != [] { RestartIsCoordinate(lines[..|lines| - 1]); }
  }

  lemma SegmentTime(lines: seq<Line>)
    ensures LastTime(Segment(lines)) == LastTime(lines)
  {
    var n := LastRestart(lines);
    RestartIsCoordinate(lines);
    LastTimeTail(lines, n);
    if n > 0 {
      SomeTime(lines[n..], 0);
    } else {
      assert lines[0..] == lines;
    }
  }

  lemma SegmentGrows(before: seq<Line>, x: Line)
    ensures Segment(before + [x]) == if Restarts(before, x) then [x] else Segment(before) + [x]
  {
    var lines := before + [x];
    assert lines[..|lines| - 1] == before && lines[|lines| - 1] == x;
    hide Restarts;
  }

  /** Everything the pass needs to know about one more well-formed line. */
  lemma OneMoreLine(before: seq<Line>, x: Line)
    ensures var old_, new_, time := Steps(Segment(before)), Steps(Segment(before + [x])), LastTime(before);
            && (time == None ==> old_ == [])
            && (time.Some? ==> old_ != [] && old_[|old_| - 1].coordinate == time.value)
            && LastTime(before + [x]) == (if Coordinate(x) then Some(x.coordinate.r) else time)
            && new_ == (if Coordinate(x) && time == None then [Step(x.coordinate.r, [], {})]
                        else if time == None then []
                        else if !Coordinate(x) then ExtendLast(old_, x)
                        else if x.coordinate.r == time.value then old_
                        else if x.coordinate.r < time.value then [Step(x.coordinate.r, [], {})]
                        else old_ + [Step(x.coordinate.r, [], {})])
  {
    hide *;
    var s := Segment(before);
    SegmentTime(before);
    SegmentGrows(before, x);
    LastTimeGrows(before, x);
    RestartsIs(before, x);
    StepsHere(s, x);
    if Coordinate(x) {
      CoordinateIs(x);
      OneLine(x);
      var old_, new_ := Steps(s), [Step(x.coordinate.r, [], {})];
      assert [] + new_ == new_;
      StaysPut(x, old_);
    }
  }

  lemma LastTimeGrows(before: seq<Line>, x: Line)
    ensures LastTime(before + [x]) == if Coordinate(x) then Some(x.coordinate.r) else LastTime(before)
  {
    assert (before + [x])[..|before|] == before;
  }

  lemma RestartsIs(before: seq<Line>, x: Line)
    ensures Restarts(before, x) <==> Coordinate(x) && LastTime(before).Some? && x.coordinate.r < LastTime(before).value
  {
    hide LastTime;
  }

  /** A repeated coordinate changes nothing. */
  lemma StaysPut(x: Line, steps: seq<Step>)
    requires x.Time?
    ensures steps != [] ==> ExtendLast(steps, x) == steps
  {
  }

  /** The same within one segment, where the coordinate is never set back. */
  lemma StepsHere(s: seq<Line>, x: Line)
    ensures LastTime(s) == None ==> Steps(s) == []
    ensures LastTime(s).Some? ==> Steps(s) != [] && Steps(s)[|Steps(s)| - 1].coordinate == LastTime(s).value
    ensures LastTime(s) == None && !Coordinate(x) ==> Steps(s + [x]) == []
    ensures Coordinate(x) && LastTime(s) != Some(x.coordinate.r) ==> Steps(s + [x]) == Steps(s) + [Step(x.coordinate.r, [], {})]
    ensures LastTime(s).Some? && (Coordinate(x) ==> x.coordinate.r == LastTime(s).value)
            ==> Steps(s + [x]) == ExtendLast(Steps(s), x)
  {
    if LastTime(s) == None {
      NoStepsBefore(s);
      if !Coordinate(x) {
        assert (s + [x])[..|s|] == s;
        NoStepsBefore(s + [x]);
      }
    } else {
      StepsExtended(s, Other);
    }
    hide Steps, Extended, LastTime;
    if Coordinate(x) && LastTime(s) != Some(x.coordinate.r) {
      OneLine(x);
      StepsConcat(s, [x]);
    } else if LastTime(s).Some? {
      StepsExtended(s, x);
    }
  }

  // ---------- the pass ----------

  lemma TailGrows<T>(xs: seq<T>, x: T, k: nat)
    requires k >= 1
    ensures Tail(Tail(xs, k) + [x], k) == Tail(xs + [x], k)
  {
  }

  lemma HasTimeIs(before: seq<Line>)
    requires WellFormed(before)
    ensures HasTime(before) <==> LastTime(before).Some?
  {
    if HasTime(before) {
      var i :| 0 <= i < |before| && before[i].Time?;
      assert !Malformed(before[..i], before[i]);
      SomeTime(before, i);
    } else {
      NoTimeYet(before);
    }
  }

  lemma {:induction false} NoTimeYet(before: seq<Line>)
    requires forall i :: 0 <= i < |before| ==> !before[i].Time?
    ensures LastTime(before) == None
  {
    if before != [] { NoTimeYet(before[..|before| - 1]); }
  }

  lemma WellFormedGrows(lines: seq<Line>, n: nat)
    requires n < |lines|
    ensures WellFormed(lines[..n + 1]) <==> WellFormed(lines[..n]) && !Malformed(lines[..n], lines[n])
    ensures WellFormed(lines) ==> WellFormed(lines[..n + 1])
  {
    var more := lines[..n + 1];
    assert forall i :: 0 <= i <= n ==> more[..i] == lines[..n][..i] == lines[..i];
    assert more[..n] == lines[..n] && more[n] == lines[n];
    if WellFormed(lines[..n]) && !Malformed(lines[..n], lines[n]) {
      forall i | 0 <= i < |more| ensures !Malformed(more[..i], more[i]) {
        if i < n { assert !Malformed(lines[..n][..i], lines[..n][i]); }
      }
    }
    if WellFormed(more) {
      forall i | 0 <= i < n ensures !Malformed(lines[..n][..i], lines[..n][i]) {
        assert !Malformed(more[..i], more[i]);
      }
      assert !Malformed(more[..n], more[n]);
    }
    if WellFormed(lines) {
      forall i | 0 <= i < |more| ensures !Malformed(more[..i], more[i]) {
        assert !Malformed(lines[..i], lines[i]);
      }
    }
  }

  /** What the pass holds after some lines: the iteration in progress, and the last k finished ones. */
  ghost predicate Holds(before: seq<Line>, k: nat, history: seq<Step>, current: Option<Step>) {
    HoldsFor(Steps(Segment(before)), LastTime(before), k, history, current)
  }

  ghost predicate HoldsFor(steps: seq<Step>, time: Option<real>, k: nat, history: seq<Step>, current: Option<Step>) {
    && (current == None <==> steps == []) && (current == None <==> time == None)
    && (current.Some? ==> current.value == steps[|steps| - 1] && time == Some(current.value.coordinate))
    && history == if steps == [] then [] else Tail(steps[..|steps| - 1], k)
  }

  /** `solver_stability`: the streaming pass equals the definition on the whole log. */
  method SolverStability(lines: seq<Line>, tail: int) returns (r: Result<Report>)
    ensures r == if tail < 1 || !WellFormed(lines) then Err else Ok(ReportOn(WindowOf(lines, tail)))
  {
    if tail < 1 {
      return Err;
    }
    hide *;
    var history: seq<Step> := [];
    var current: Option<Step> := None;
    StartHolds(lines, tail);
    for n := 0 to |lines|
      invariant WellFormed(lines[..n])
      invariant Holds(lines[..n], tail, history, current)
    {
      var line := lines[n];
      ghost var before := lines[..n];
      assert lines[..n + 1] == before + [line];
      WellFormedGrows(lines, n);
      HasTimeIs(before);
      MalformedIs(before, line, tail, history, current);
      if line.Time? {
        if BadTime(line.coordinate) {
          return Err;
        }
        var value := line.coordinate.r;
        CoordinateHolds(before, line, tail, history, current);
        if current.Some? && value == current.value.coordinate {
          continue;
        }
        if current.Some? && value < current.value.coordinate {
          history, current := [], None;
        }
        if current.Some? {
          history := Tail(history + [current.value], tail);
        }
        current := Some(Step(value, [], {}));
      } else if current.Some? {
        if Diagnosed(line) {
          return Err;
        }
        DiagnosticHolds(before, line, tail, history, current);
        current := Some(Extended(current.value, line));
      } else {
        DiagnosticHolds(before, line, tail, history, current);
      }
    }
    assert lines[..|lines|] == lines;
    WindowIs(lines, tail, history, current);
    if current.Some? {
      history := history + [current.value];
    }
    history := Tail(history, tail);
    r := Ok(ReportOn(history));
  }

  lemma CoordinateHolds(before: seq<Line>, line: Line, k: nat, history: seq<Step>, current: Option<Step>)
    requires k >= 1 && Coordinate(line) && line.Time? && line.coordinate.Finite? && Holds(before, k, history, current)
    ensures var v := line.coordinate.r;
            Holds(before + [line], k,
                  if current == None || v < current.value.coordinate then []
                  else if v == current.value.coordinate then history else Tail(history + [current.value], k),
                  if current.Some? && v == current.value.coordinate then current else Some(Step(v, [], {})))
  {
    OneMoreLine(before, line);
    var steps, v := Steps(Segment(before)), line.coordinate.r;
    assert HoldsFor(steps, LastTime(before), k, history, current);
    assert current.Some? ==> LastTime(before) == Some(current.value.coordinate) && steps != [];
    assert current == None ==> LastTime(before) == None;
    FreshHolds(k, v);
    hide Steps, Segment, LastTime, Tail, HoldsFor;
    if current.Some? {
      NextHolds(steps, LastTime(before), k, history, current, v);
    }
  }

  lemma FreshHolds(k: nat, v: real)
    ensures HoldsFor([Step(v, [], {})], Some(v), k, [], Some(Step(v, [], {})))
  {
    assert [Step(v, [], {})][..0] == [];
  }

  lemma NextHolds(steps: seq<Step>, time: Option<real>, k: nat, history: seq<Step>, current: Option<Step>, v: real)
    requires k >= 1 && HoldsFor(steps, time, k, history, current) && current.Some?
    ensures HoldsFor(steps + [Step(v, [], {})], Some(v), k, Tail(history + [current.value], k), Some(Step(v, [], {})))
  {
    TailGrows(steps[..|steps| - 1], current.value, k);
    assert steps == steps[..|steps| - 1] + [current.value];
    assert (steps + [Step(v, [], {})])[..|steps|] == steps;
    hide Tail;
  }

  lemma DiagnosticHolds(before: seq<Line>, line: Line, k: nat, history: seq<Step>, current: Option<Step>)
    requires !line.Time? && Holds(before, k, history, current)
    ensures Holds(before + [line], k, history, if current == None then None else Some(Extended(current.value, line)))
  {
    OneMoreLine(before, line);
    var steps := Steps(Segment(before));
    hide Steps, Segment, LastTime, Tail;
    if current.Some? {
      assert (steps[..|steps| - 1] + [Extended(current.value, line)])[..|steps| - 1] == steps[..|steps| - 1];
    }
  }

  lemma WindowIs(lines: seq<Line>, k: nat, history: seq<Step>, current: Option<Step>)
    requires k >= 1 && Holds(lines, k, history, current)
    ensures Tail(if current.Some? then history + [current.value] else history, k) == WindowOf(lines, k)
  {
    var steps := Steps(Segment(lines));
    hide Steps, Segment, LastTime;
    if current.Some? {
      TailGrows(steps[..|steps| - 1], current.value, k);
      assert steps == steps[..|steps| - 1] + [current.value];
    }
  }

  /** A diagnostic that raises once an iteration has begun. */
  predicate Diagnosed(line: Line) {
    match line
    case Continuity(a, b, c) => a.Infinite? || b.Infinite? || c.Infinite? || a.r < 0.0
    case Limit(_, v) => v.Infinite?
    case _ => false
  }

  lemma MalformedIs(before: seq<Line>, line: Line, k: nat, history: seq<Step>, current: Option<Step>)
    requires Holds(before, k, history, current) && (HasTime(before) <==> LastTime(before).Some?)
    ensures Malformed(before, line) <==> if line.Time? then BadTime(line.coordinate) else current.Some? && Diagnosed(line)
    ensures line.Time? && !BadTime(line.coordinate) ==> Coordinate(line) && line.coordinate.Finite?
  {
    hide HasTime, LastTime, Steps, Segment, Tail;
  }

  lemma StartHolds(lines: seq<Line>, k: nat)
    ensures WellFormed(lines[..0]) && Holds(lines[..0], k, [], None)
  {
    assert lines[..0] == [];
    assert Segment([]) == [];
  }

  // ---------- what the window means ----------

  ghost predicate Rising(steps: seq<Step>) { forall i, j :: 0 <= i < j < |steps| ==> steps[i].coordinate < steps[j].coordinate }

  /** Since the last restart the coordinates strictly increase. */
  lemma {:induction false} StepsRise(lines: seq<Line>)
    ensures Rising(Steps(Segment(lines)))
    ensures Steps(Segment(lines)) != [] <==> LastTime(lines).Some?
    ensures LastTime(lines).Some? ==> Steps(Segment(lines))[|Steps(Segment(lines))| - 1].coordinate == LastTime(lines).value
  {
    hide *;
    if lines == [] {
      NothingLeft();
      NoTimeYet([]);
      EmptySegment();
      RisingEmpty();
    } else {
      var before, x := lines[..|lines| - 1], lines[|lines| - 1];
      assert lines == before + [x];
      StepsRise(before);
      OneMoreLine(before, x);
      RisingGrows(Steps(Segment(before)), x);
      RisingEmpty();
    }
  }

  lemma EmptySegment()
    ensures Segment([]) == []
  {
  }

  lemma RisingEmpty()
    ensures Rising([])
    ensures forall s :: Rising([s])
  {
  }

  lemma RisingGrows(steps: seq<Step>, x: Line)
    requires Rising(steps)
    ensures steps != [] ==> Rising(ExtendLast(steps, x)) && ExtendLast(steps, x) != []
    ensures steps != [] ==> ExtendLast(steps, x)[|ExtendLast(steps, x)| - 1].coordinate == steps[|steps| - 1].coordinate
    ensures forall s: Step :: (steps != [] ==> steps[|steps| - 1].coordinate < s.coordinate) ==> Rising(steps + [s])
  {
    if steps != [] {
      var wider := ExtendLast(steps, x);
      assert forall i :: 0 <= i < |steps| ==> wider[i].coordinate == steps[i].coordinate by {
        assert Extended(steps[|steps| - 1], x).coordinate == steps[|steps| - 1].coordinate;
        hide Extended;
      }
    }
    hide ExtendLast;
    forall s: Step | steps != [] ==> steps[|steps| - 1].coordinate < s.coordinate ensures Rising(steps + [s]) {
      assert forall i :: 0 <= i < |steps| ==> steps[i].coordinate <= steps[|steps| - 1].coordinate;
    }
  }

  /** The reported window holds distinct iterations in increasing order, from the first to the last reported coordinate. */
  lemma WindowRises(lines: seq<Line>, k: nat)
    requires k >= 1
    ensures Rising(WindowOf(lines, k)) && |WindowOf(lines, k)| <= k
    ensures ReportOn(WindowOf(lines, k)).Report? <==> LastTime(lines).Some?
    ensures LastTime(lines).Some? ==> ReportOn(WindowOf(lines, k)).last == LastTime(lines).value
  {
    StepsRise(lines);
    hide Steps, Segment, LastTime, Gather, Largest, CountIf;
  }

  lemma {:induction false} CountsNone(steps: seq<Step>, p: Step -> bool)
    ensures CountIf(steps, p) == 0 <==> forall i :: 0 <= i < |steps| ==> !p(steps[i])
  {
    if steps != [] {
      CountsNone(steps[1..], p);
      if CountIf(steps, p) == 0 {
        forall i | 0 <= i < |steps| ensures !p(steps[i]) {
          if i > 0 { assert !p(steps[1..][i - 1]); }
        }
      } else if !p(steps[0]) {
        var i :| 0 <= i < |steps[1..]| && p(steps[1..][i]);
        assert p(steps[i + 1]);
      }
    }
  }

  /** The reported maximum is the largest value, and is one of them. */
  lemma {:induction false} LargestIs(samples: seq<Sample>, f: Sample -> real)
    ensures Largest(samples, f).Some? <==> samples != []
    ensures samples != [] ==> exists i :: 0 <= i < |samples| && f(samples[i]) == Largest(samples, f).value
    ensures forall i :: 0 <= i < |samples| ==> f(samples[i]) <= Largest(samples, f).value
  {
    if samples != [] {
      var rest := samples[1..];
      LargestIs(rest, f);
      assert forall i :: 0 < i < |samples| ==> samples[i] == rest[i - 1];
      var m := Largest(samples, f);
      if m == Some(f(samples[0])) {
      } else {
        var i :| 0 <= i < |rest| && f(rest[i]) == m.value;
        assert f(samples[i + 1]) == m.value;
      }
    }
  }

  /** A line that begins a new iteration. */
  predicate Begins(lines: seq<Line>, q: nat) {
    q < |lines| && Coordinate(lines[q]) && LastTime(lines[..q]) != Some(lines[q].coordinate.r)
  }

  predicate NoLimit(lines: seq<Line>) { forall i :: 0 <= i < |lines| ==> !lines[i].Limit? }

  predicate Unlimited(steps: seq<Step>) { forall i :: 0 <= i < |steps| ==> steps[i].limits == {} }

  /** The last k iterations are the iterations of a suffix of the log. */
  lemma {:induction false} TailIsSuffix(lines: seq<Line>, k: nat) returns (q: nat)
    requires 1 <= k <= |Steps(lines)|
    ensures Begins(lines, q) && Steps(lines[q..]) == Tail(Steps(lines), k)
    decreases |lines|
  {
    hide *;
    if lines == [] {
      NothingLeft();
      assert false;
    } else if !Coordinate(lines[0]) {
      SkipFirst(lines);
      q := TailIsSuffix(lines[1..], k);
      BeginsLater(lines, 1, q);
      assert lines[1..][q..] == lines[1 + q..];
      q := 1 + q;
    } else {
      CoordinateIs(lines[0]);
      var c := lines[0].coordinate.r;
      var end := BlockEnd(lines, 1, c);
      StepsUnfold(lines, c, end);
      if |Steps(lines)| == k {
        q := 0;
        assert lines[0..] == lines;
        BeginsAtOnce(lines);
        TailWhole(Steps(lines), k);
      } else {
        RestKeepsTime(lines, c, end);
        q := TailIsSuffix(lines[end..], k);
        BeginsAfterBlock(lines, c, end, q);
        assert lines[end..][q..] == lines[end + q..];
        TailOfRest(StepOf(c, lines[1..end]), Steps(lines[end..]), k);
        q := end + q;
      }
    }
  }

  lemma TailWhole(steps: seq<Step>, k: nat)
    requires |steps| == k
    ensures Tail(steps, k) == steps
  {
  }

  lemma TailOfRest(s: Step, steps: seq<Step>, k: nat)
    requires k <= |steps|
    ensures Tail([s] + steps, k) == Tail(steps, k)
  {
  }

  lemma BeginsAtOnce(lines: seq<Line>)
    requires lines != [] && Coordinate(lines[0])
    ensures Begins(lines, 0)
  {
    assert lines[..0] == [];
  }

  lemma BeginsLater(lines: seq<Line>, i: nat, q: nat)
    requires i == 1 && lines != [] && !Coordinate(lines[0]) && Begins(lines[1..], q)
    ensures Begins(lines, 1 + q)
  {
    var front := lines[..1 + q];
    SkipFirst(front);
    assert front[1..] == lines[1..][..q];
  }

  lemma BeginsAfterBlock(lines: seq<Line>, c: real, end: nat, q: nat)
    requires lines != [] && SameTime(lines[0], c) && end == BlockEnd(lines, 1, c) && Begins(lines[end..], q)
    ensures Begins(lines, end + q)
  {
    var front := lines[..end + q];
    assert lines[end..][q] == lines[end + q];
    assert front[end..] == lines[end..][..q] && front[..end] == lines[..end];
    LastTimeTail(front, end);
    if q == 0 {
      OnlyTime(lines[..end], c);
    } else {
      assert lines[end..][..q][0] == lines[end];
      SomeTime(lines[end..][..q], 0);
    }
  }

  /** Once an iteration has begun every later line belongs to one, so no limit line means no limited iteration. */
  lemma {:induction false} LimitsAreSeen(lines: seq<Line>)
    requires lines != [] && Coordinate(lines[0])
    ensures Unlimited(Steps(lines)) <==> NoLimit(lines)
    decreases |lines|
  {
    var c := lines[0].coordinate.r;
    var end := BlockEnd(lines, 1, c);
    assert end < |lines| ==> Coordinate(lines[end]);
    StepsUnfold(lines, c, end);
    hide Steps, BlockEnd;
    BlockLimits(c, lines[1..end]);
    if end < |lines| {
      LimitsAreSeen(lines[end..]);
    } else {
      assert lines[end..] == [];
      NothingLeft();
    }
    UnlimitedSplits(StepOf(c, lines[1..end]), Steps(lines[end..]));
    NoLimitSplits(lines, end);
  }

  lemma BlockLimits(c: real, block: seq<Line>)
    ensures StepOf(c, block).limits == {} <==> NoLimit(block)
  {
    if exists i :: 0 <= i < |block| && block[i].Limit? {
      var i :| 0 <= i < |block| && block[i].Limit?;
      assert block[i].bound in Limits(block);
    }
  }

  lemma UnlimitedSplits(s: Step, steps: seq<Step>)
    ensures Unlimited([s] + steps) <==> s.limits == {} && Unlimited(steps)
  {
    var all := [s] + steps;
    assert all[0] == s;
    assert forall i :: 0 <= i < |steps| ==> all[i + 1] == steps[i];
    assert forall i :: 0 < i < |all| ==> all[i] == steps[i - 1];
  }

  lemma NoLimitSplits(lines: seq<Line>, end: nat)
    requires 1 <= end <= |lines| && !lines[0].Limit?
    ensures NoLimit(lines) <==> NoLimit(lines[1..end]) && NoLimit(lines[end..])
  {
    var a, b := lines[1..end], lines[end..];
    assert forall i :: 0 <= i < |a| ==> a[i] == lines[i + 1];
    assert forall i :: 0 <= i < |b| ==> b[i] == lines[i + end];
    assert forall i :: 1 <= i < end ==> lines[i] == a[i - 1];
    assert forall i :: end <= i < |lines| ==> lines[i] == b[i - end];
  }

  /** The consumer's reading of the report: a full window with no limited iteration. */
  predicate Clear(r: Report, k: nat) { r.Report? && r.iterations >= k && r.limited == 0 }

  /** From q on, the log since its last restart holds exactly k iterations and no pressure-limit line. */
  predicate QuietFrom(lines: seq<Line>, q: nat, k: nat) {
    Begins(lines, q) && |Steps(lines[q..])| == k && NoLimit(lines[q..])
  }

  /** `pressure_window_clear`: with the default window of 200 the report is clear exactly when the last 200 iterations since the
      last restart carry no pressure-limit line. */
  lemma ClearExactly(lines: seq<Line>, k: nat)
    requires k >= 1
    ensures Clear(ReportOn(WindowOf(lines, k)), k) <==> exists q :: QuietFrom(Segment(lines), q, k)
  {
    var seg := Segment(lines);
    ClearIs(lines, k);
    if Clear(ReportOn(WindowOf(lines, k)), k) {
      hide *;
      TailLength(Steps(seg), k);
      var q := TailIsSuffix(seg, k);
      QuietFromSuffix(seg, q, k);
    }
    if q :| QuietFrom(seg, q, k) {
      hide *;
      SuffixIsTail(seg, q, k);
    }
  }

  lemma ClearIs(lines: seq<Line>, k: nat)
    requires k >= 1
    ensures Clear(ReportOn(WindowOf(lines, k)), k) <==> |WindowOf(lines, k)| >= k && Unlimited(WindowOf(lines, k))
    ensures WindowOf(lines, k) == Tail(Steps(Segment(lines)), k)
  {
    var window := WindowOf(lines, k);
    assert window == Tail(Steps(Segment(lines)), k);
    var limited := (s: Step) => s.limits != {};
    CountsNone(window, limited);
    assert window != [] ==> ReportOn(window).limited == CountIf(window, limited) by { hide WindowOf, Gather, Largest; }
    hide WindowOf, Gather, Largest, CountIf, Steps, Segment, Tail;
    assert Unlimited(window) <==> forall i :: 0 <= i < |window| ==> !limited(window[i]);
  }

  lemma TailLength(steps: seq<Step>, k: nat)
    ensures |Tail(steps, k)| == if |steps| <= k then |steps| else k
  {
  }

  lemma QuietFromSuffix(seg: seq<Line>, q: nat, k: nat)
    requires Begins(seg, q) && |Steps(seg[q..])| == k && Unlimited(Steps(seg[q..]))
    ensures QuietFrom(seg, q, k)
  {
    LimitsAreSeen(seg[q..]);
    hide Steps, Unlimited, NoLimit, Begins;
  }

  lemma SuffixIsTail(seg: seq<Line>, q: nat, k: nat)
    requires k >= 1 && QuietFrom(seg, q, k)
    ensures |Tail(Steps(seg), k)| >= k && Unlimited(Tail(Steps(seg), k))
  {
    LimitsAreSeen(seg[q..]);
    StepsConcat(seg[..q], seg[q..]);
    assert seg == seg[..q] + seg[q..];
    hide Steps, Unlimited, NoLimit, Begins;
    var a, b := Steps(seg[..q]), Steps(seg[q..]);
    assert Tail(a + b, k) == b;
  }
}

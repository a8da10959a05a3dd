/** The UIUC Volume 1 parser over recognised lines, and the printer of well-formed documents that it inverts. */
module UiucVolume {

  import opened Characters
  import opened Wrappers
  import opened Partial
  import opened UiucBranches

  datatype Kind = Lift | Drag

  /** A stripped nonblank line, by the form it has; a row of numbers may hold an infinite one. */
  datatype Line =
    | Airfoil(text: string)
    | Builder(text: string)
    | Comment(text: string)
    | RunCount
    | Reynolds
    | Angles
    | Integer(value: int)
    | Columns(text: string)
    | Values(values: seq<real>, finite: bool)
    | Provenance(source: string, program: string)
    | Created(file: string, date: string, time: string)
    | Unknown

  datatype Run = Run(ordinal: nat, reynolds: int, source: string, program: string, branches: seq<Branch>, samples: int)

  datatype Generation = Generation(file: string, date: string, time: string)

  datatype Document = Document(airfoil: string, builder: string, condition: string, runs: seq<Run>, generation: Option<Generation>)

  function Expected(kind: Kind): string { if kind == Lift then "alpha/Cl/Cm" else "alpha/Cl/Cd/SpanwiseCd's>>>" }

  function Extension(kind: Kind): string { if kind == Lift then ".lft" else ".drg" }

  predicate EndsWith(s: string, end: string) { |s| >= |end| && s[|s| - |end|..] == end }

  // ---------- parsing ----------

  function ParseRow(line: Line, kind: Kind, index: nat): Result<Row> {
    if !line.Values? || !line.finite then Err
    else
      var vs := line.values;
      if (if kind == Lift then |vs| != 3 else |vs| < 4) then Err
      else if kind == Drag && exists i :: 2 <= i < |vs| && vs[i] <= 0.0 then Err
      else Ok(Row(index, vs[0], vs[1], vs[2..]))
  }

  function ParseRows(seg: seq<Line>, kind: Kind): Result<seq<Row>> {
    if seg == [] then Ok([])
    else
      var front, last := ParseRows(seg[..|seg| - 1], kind), ParseRow(seg[|seg| - 1], kind, |seg| - 1);
      if front.Err? || last.Err? then Err else Ok(front.value + [last.value])
  }

  predicate RunHeader(lines: seq<Line>, cursor: nat, kind: Kind) {
    && cursor + 5 <= |lines| && lines[cursor] == Reynolds && lines[cursor + 2] == Angles
    && lines[cursor + 1].Integer? && lines[cursor + 3].Integer?
    && lines[cursor + 1].value > 0 && 1 <= lines[cursor + 3].value <= 10000
    && lines[cursor + 4] == Columns(Expected(kind))
  }

  /** One run from the cursor on, and the cursor after it. */
  function ParseRun(lines: seq<Line>, cursor: nat, kind: Kind, ordinal: nat): Result<(Run, nat)> {
    if !RunHeader(lines, cursor, kind) then Err
    else
      var samples, start := lines[cursor + 3].value, cursor + 5;
      if start + samples >= |lines| || !lines[start + samples].Provenance? then Err
      else
        var rows := ParseRows(lines[start..start + samples], kind);
        if rows.Err? || rows.value == [] || Repeats(rows.value) then Err
        else
          var footer := lines[start + samples];
          Ok((Run(ordinal, lines[cursor + 1].value, footer.source, footer.program, BranchesOf(rows.value), samples), start + samples + 1))
  }

  function ParseRuns(lines: seq<Line>, kind: Kind, count: nat): Result<(seq<Run>, nat)> {
    if count == 0 then Ok(([], 5))
    else
      var before := ParseRuns(lines, kind, count - 1);
      if before.Err? then Err
      else
        var run := ParseRun(lines, before.value.1, kind, count - 1);
        if run.Err? then Err else Ok((before.value.0 + [run.value.0], run.value.1))
  }

  predicate Header(lines: seq<Line>) {
    && |lines| >= 5 && lines[0].Airfoil? && lines[1].Builder? && lines[2].Comment? && lines[3] == RunCount
    && lines[4].Integer? && 1 <= lines[4].value <= 1000
  }

  predicate Generated(line: Line, kind: Kind) { line.Created? && EndsWith(Lower(line.file), Extension(kind)) }

  /** What follows the runs: nothing, or one line naming the file the document was generated as. */
  function ParseEnd(lines: seq<Line>, cursor: nat, kind: Kind): Result<Option<Generation>> {
    if cursor == |lines| then Ok(None)
    else if cursor + 1 == |lines| && Generated(lines[cursor], kind)
    then Ok(Some(Generation(lines[cursor].file, lines[cursor].date, lines[cursor].time)))
    else Err
  }

  function Parse(lines: seq<Line>, kind: Kind): Result<Document> {
    if !Header(lines) then Err
    else
      var runs := ParseRuns(lines, kind, lines[4].value);
      if runs.Err? then Err
      else
        var end := ParseEnd(lines, runs.value.1, kind);
        if end.Err? then Err
        else Ok(Document(lines[0].text, lines[1].text, lines[2].text, runs.value.0, end.value))
  }

  /** `parse_uiuc_volume1`: one cursor through nested loops. */
  method ParseVolume(lines: seq<Line>, kind: Kind) returns (r: Result<Document>)
    ensures r == Parse(lines, kind)
  {
    hide *;
    ParseIs(lines, kind);
    if !Header(lines) {
      return Err;
    }
    HeaderFacts(lines);
    var count: nat := lines[4].value;
    var cursor: nat := 5;
    var runs: seq<Run> := [];
    NoRuns(lines, kind);
    for ordinal := 0 to count
      invariant ParseRuns(lines, kind, ordinal) == Ok((runs, cursor))
    {
      var run := ReadRun(lines, cursor, kind, ordinal);
      RunsStep(lines, kind, ordinal);
      if run.Err? {
        RunsNeedAll(lines, kind, ordinal + 1, count);
        return Err;
      }
      runs, cursor := runs + [run.value.0], run.value.1;
    }
    var end := ParseEnd(lines, cursor, kind);
    if end.Err? {
      return Err;
    }
    r := Ok(Document(lines[0].text, lines[1].text, lines[2].text, runs, end.value));
  }

  lemma HeaderFacts(lines: seq<Line>)
    requires Header(lines)
    ensures |lines| >= 5 && lines[0].Airfoil? && lines[1].Builder? && lines[2].Comment? && lines[3] == RunCount
    ensures lines[4].Integer? && 1 <= lines[4].value <= 1000
  {
  }

  lemma ParseIs(lines: seq<Line>, kind: Kind)
    ensures !Header(lines) ==> Parse(lines, kind) == Err
    ensures Header(lines) ==>
              && |lines| >= 5 && lines[0].Airfoil? && lines[1].Builder? && lines[2].Comment? && lines[4].Integer? && lines[4].value >= 1
              && var runs := ParseRuns(lines, kind, lines[4].value);
              && (runs.Err? ==> Parse(lines, kind) == Err)
              && (runs.Ok? ==>
                    var end := ParseEnd(lines, runs.value.1, kind);
                    Parse(lines, kind) == if end.Err? then Err
                                          else Ok(Document(lines[0].text, lines[1].text, lines[2].text, runs.value.0, end.value)))
  {
    hide ParseRuns, ParseEnd;
  }

  lemma NoRuns(lines: seq<Line>, kind: Kind)
    ensures ParseRuns(lines, kind, 0) == Ok(([], 5))
  {
  }

  lemma RunsStep(lines: seq<Line>, kind: Kind, n: nat)
    ensures ParseRuns(lines, kind, n + 1)
            == var before := ParseRuns(lines, kind, n);
               if before.Err? then Err
               else
                 var run := ParseRun(lines, before.value.1, kind, n);
                 if run.Err? then Err else Ok((before.value.0 + [run.value.0], run.value.1))
  {
    hide ParseRun;
  }

  method ReadRun(lines: seq<Line>, start: nat, kind: Kind, ordinal: nat) returns (r: Result<(Run, nat)>)
    ensures r == ParseRun(lines, start, kind, ordinal)
  {
    hide *;
    RunIs(lines, start, kind, ordinal);
    if !RunHeader(lines, start, kind) {
      return Err;
    }
    RunHeaderFacts(lines, start, kind);
    var reynolds, samples := lines[start + 1].value, lines[start + 3].value;
    var cursor := start + 5;
    var rows: seq<Row> := [];
    NoRows(lines, start + 5, kind);
    for sample := 0 to samples
      invariant cursor == start + 5 + sample <= |lines|
      invariant ParseRows(lines[start + 5..cursor], kind) == Ok(rows) && |rows| == sample
    {
      if cursor >= |lines| {
        return Err;
      }
      var row := ParseRow(lines[cursor], kind, sample);
      RowsAppend(lines, start + 5, cursor, kind);
      if row.Err? {
        RowsTruncated(lines, start + 5, cursor, samples, kind);
        return Err;
      }
      rows, cursor := rows + [row.value], cursor + 1;
    }
    if cursor >= |lines| || !lines[cursor].Provenance? {
      return Err;
    }
    var branches := Branches(rows);
    if branches.Err? {
      return Err;
    }
    r := Ok((Run(ordinal, reynolds, lines[cursor].source, lines[cursor].program, branches.value, samples), cursor + 1));
  }

  lemma NoRows(lines: seq<Line>, start: nat, kind: Kind)
    requires start <= |lines|
    ensures ParseRows(lines[start..start], kind) == Ok([])
  {
    assert lines[start..start] == [];
  }

  lemma RunHeaderFacts(lines: seq<Line>, start: nat, kind: Kind)
    requires RunHeader(lines, start, kind)
    ensures start + 5 <= |lines| && lines[start + 1].Integer? && lines[start + 3].Integer?
    ensures lines[start + 1].value > 0 && 1 <= lines[start + 3].value <= 10000
  {
  }

  lemma RunIs(lines: seq<Line>, start: nat, kind: Kind, ordinal: nat)
    ensures !RunHeader(lines, start, kind) ==> ParseRun(lines, start, kind, ordinal) == Err
    ensures RunHeader(lines, start, kind) ==>
              && start + 5 <= |lines| && lines[start + 1].Integer? && lines[start + 3].Integer? && lines[start + 3].value >= 1
              && var samples, first := lines[start + 3].value, start + 5;
              && (first + samples >= |lines| || !lines[first + samples].Provenance? ==> ParseRun(lines, start, kind, ordinal) == Err)
              && (first + samples < |lines| && lines[first + samples].Provenance? ==>
                    var rows, footer := ParseRows(lines[first..first + samples], kind), lines[first + samples];
                    ParseRun(lines, start, kind, ordinal)
                    == if rows.Err? || rows.value == [] || Repeats(rows.value) then Err
                       else Ok((Run(ordinal, lines[start + 1].value, footer.source, footer.program, BranchesOf(rows.value), samples),
                                first + samples + 1)))
  {
    hide ParseRows, Repeats, BranchesOf;
  }

  /** A bad row spoils the whole run, however many rows follow. */
  lemma RowsTruncated(lines: seq<Line>, start: nat, cursor: nat, samples: nat, kind: Kind)
    requires start <= cursor < |lines| && cursor - start < samples && ParseRows(lines[start..cursor + 1], kind).Err?
    ensures start + samples <= |lines| ==> ParseRows(lines[start..start + samples], kind).Err?
  {
    if start + samples <= |lines| {
      var seg := lines[start..start + samples];
      assert seg[..cursor + 1 - start] == lines[start..cursor + 1];
      hide ParseRows;
      RowsNeedAll(seg, cursor + 1 - start, kind);
    }
  }

  lemma RowsAppend(lines: seq<Line>, start: nat, cursor: nat, kind: Kind)
    requires start <= cursor < |lines|
    ensures ParseRows(lines[start..cursor + 1], kind)
            == var front, last := ParseRows(lines[start..cursor], kind), ParseRow(lines[cursor], kind, cursor - start);
               if front.Err? || last.Err? then Err else Ok(front.value + [last.value])
  {
    var seg := lines[start..cursor + 1];
    assert seg[..|seg| - 1] == lines[start..cursor];
    hide ParseRow;
  }

  lemma {:induction false} RowsNeedAll(seg: seq<Line>, n: nat, kind: Kind)
    requires n <= |seg| && ParseRows(seg[..n], kind).Err?
    ensures ParseRows(seg, kind).Err?
    decreases |seg|
  {
    if n == |seg| {
      assert seg[..n] == seg;
    } else {
      assert seg[..|seg| - 1][..n] == seg[..n];
      hide ParseRow;
      RowsNeedAll(seg[..|seg| - 1], n, kind);
    }
  }

  lemma {:induction false} RunsNeedAll(lines: seq<Line>, kind: Kind, n: nat, count: nat)
    requires n <= count && ParseRuns(lines, kind, n).Err?
    ensures ParseRuns(lines, kind, count).Err?
    decreases count
  {
    hide *;
    if n < count {
      RunsNeedAll(lines, kind, n, count - 1);
      RunsStep(lines, kind, count - 1);
    }
  }

  // ---------- printing ----------

  function RowLine(row: Row): Line { Values([row.alpha, row.lift] + row.rest, true) }

  function RowLines(rows: seq<Row>): seq<Line> { if rows == [] then [] else RowLines(rows[..|rows| - 1]) + [RowLine(rows[|rows| - 1])] }

  function RunLines(run: Run, kind: Kind): seq<Line> {
    [Reynolds, Integer(run.reynolds), Angles, Integer(run.samples), Columns(Expected(kind))]
    + RowLines(Flatten(run.branches)) + [Provenance(run.source, run.program)]
  }

  function RunsLines(runs: seq<Run>, kind: Kind): seq<Line> {
    if runs == [] then [] else RunsLines(runs[..|runs| - 1], kind) + RunLines(runs[|runs| - 1], kind)
  }

  function EndLines(g: Option<Generation>): seq<Line> {
    if g == None then [] else [Created(g.value.file, g.value.date, g.value.time)]
  }

  function Print(d: Document, kind: Kind): seq<Line> {
    [Airfoil(d.airfoil), Builder(d.builder), Comment(d.condition), RunCount, Integer(|d.runs|)]
    + RunsLines(d.runs, kind) + EndLines(d.generation)
  }

  predicate ProperRow(row: Row, kind: Kind, index: nat) {
    row.index == index && match kind
                          case Lift => |row.rest| == 1
                          case Drag => |row.rest| >= 2 && forall i :: 0 <= i < |row.rest| ==> row.rest[i] > 0.0
  }

  predicate ProperRows(rows: seq<Row>, kind: Kind) { forall i :: 0 <= i < |rows| ==> ProperRow(rows[i], kind, i) }

  /** Every declared sample is a row, and the branches are the monotone split of the rows. */
  ghost predicate ProperRun(run: Run, kind: Kind, ordinal: nat) {
    && run.ordinal == ordinal && run.reynolds > 0 && 1 <= run.samples <= 10000
    && Split(run.branches) && |Flatten(run.branches)| == run.samples && ProperRows(Flatten(run.branches), kind)
  }

  ghost predicate ProperRuns(runs: seq<Run>, kind: Kind) { forall i :: 0 <= i < |runs| ==> ProperRun(runs[i], kind, i) }

  ghost predicate WellFormed(d: Document, kind: Kind) {
    && 1 <= |d.runs| <= 1000 && ProperRuns(d.runs, kind)
    && (d.generation.Some? ==> EndsWith(Lower(d.generation.value.file), Extension(kind)))
  }

  // ---------- the parser inverts the printer ----------

  lemma RowExactly(line: Line, kind: Kind, index: nat, row: Row)
    ensures ParseRow(line, kind, index) == Ok(row) <==> ProperRow(row, kind, index) && line == RowLine(row)
  {
    if ProperRow(row, kind, index) && line == RowLine(row) {
      var vs := line.values;
      assert vs[2..] == row.rest;
      assert forall i :: 2 <= i < |vs| ==> vs[i] == row.rest[i - 2];
    }
    if ParseRow(line, kind, index) == Ok(row) {
      assert line.values == [row.alpha, row.lift] + row.rest;
      assert forall i :: 0 <= i < |row.rest| ==> row.rest[i] == line.values[i + 2];
    }
  }

  lemma {:induction false} RowsExactly(seg: seq<Line>, kind: Kind, rows: seq<Row>)
    ensures ParseRows(seg, kind) == Ok(rows) <==> ProperRows(rows, kind) && seg == RowLines(rows)
    ensures |RowLines(rows)| == |rows|
    decreases |seg| + |rows|
  {
    hide *;
    RowLinesLength(rows);
    RowsStep(seg, kind);
    RowLinesStep(rows);
    if seg == [] || rows == [] {
      NoProperRows(kind);
      RowsLength(seg, kind);
    } else {
      var front, row := rows[..|rows| - 1], rows[|rows| - 1];
      var before, line := seg[..|seg| - 1], seg[|seg| - 1];
      RowsExactly(before, kind, front);
      RowExactly(line, kind, |seg| - 1, row);
      LastOf(rows, kind);
      RowsLength(before, kind);
      assert seg == before + [line] && rows == front + [row];
      RowLinesLength(front);
      SameEnds(before, line, RowLines(front), RowLine(row));
      if ParseRows(before, kind).Ok? && ParseRow(line, kind, |seg| - 1).Ok? {
        SameRowEnds(ParseRows(before, kind).value, ParseRow(line, kind, |seg| - 1).value, front, row);
      }
    }
  }

  lemma SameEnds(a: seq<Line>, x: Line, b: seq<Line>, y: Line)
    ensures a + [x] == b + [y] <==> a == b && x == y
  {
    if a + [x] == b + [y] {
      assert a == (a + [x])[..|a|] && b == (b + [y])[..|b|];
      assert x == (a + [x])[|a|] && y == (b + [y])[|b|];
    }
  }

  lemma SameRowEnds(a: seq<Row>, x: Row, b: seq<Row>, y: Row)
    ensures a + [x] == b + [y] <==> a == b && x == y
  {
    if a + [x] == b + [y] {
      assert a == (a + [x])[..|a|] && b == (b + [y])[..|b|];
      assert x == (a + [x])[|a|] && y == (b + [y])[|b|];
    }
  }

  lemma RowsStep(seg: seq<Line>, kind: Kind)
    ensures ParseRows([], kind) == Ok([])
    ensures seg != [] ==>
              var front, last := ParseRows(seg[..|seg| - 1], kind), ParseRow(seg[|seg| - 1], kind, |seg| - 1);
              ParseRows(seg, kind) == if front.Err? || last.Err? then Err else Ok(front.value + [last.value])
  {
    hide ParseRow;
  }

  lemma RowLinesStep(rows: seq<Row>)
    ensures RowLines([]) == []
    ensures rows != [] ==> RowLines(rows) == RowLines(rows[..|rows| - 1]) + [RowLine(rows[|rows| - 1])]
  {
    hide RowLine;
  }

  lemma NoProperRows(kind: Kind)
    ensures ProperRows([], kind)
  {
  }

  lemma {:induction false} RowsLength(seg: seq<Line>, kind: Kind)
    ensures ParseRows(seg, kind).Ok? ==> |ParseRows(seg, kind).value| == |seg|
  {
    hide *;
    RowsStep(seg, kind);
    if seg != [] {
      RowsLength(seg[..|seg| - 1], kind);
    }
  }

  lemma {:induction false} RowLinesLength(rows: seq<Row>)
    ensures |RowLines(rows)| == |rows|
  {
    if rows != [] { RowLinesLength(rows[..|rows| - 1]); }
  }

  lemma LastOf(rows: seq<Row>, kind: Kind)
    requires rows != []
    ensures ProperRows(rows, kind) <==> ProperRows(rows[..|rows| - 1], kind) && ProperRow(rows[|rows| - 1], kind, |rows| - 1)
  {
    hide ProperRow;
  }

  function RunTop(run: Run, kind: Kind): seq<Line> {
    [Reynolds, Integer(run.reynolds), Angles, Integer(run.samples), Columns(Expected(kind))]
  }

  /** The lines of a run from the cursor on, cut into its header, rows and footer. */
  lemma CutRun(lines: seq<Line>, cursor: nat, samples: nat)
    requires cursor + 6 + samples <= |lines|
    ensures lines[cursor..cursor + 6 + samples]
            == lines[cursor..cursor + 5] + lines[cursor + 5..cursor + 5 + samples] + [lines[cursor + 5 + samples]]
  {
  }

  lemma SameParts(a: seq<Line>, b: seq<Line>, c: Line, x: seq<Line>, y: seq<Line>, z: Line)
    requires |a| == |x| && |b| == |y|
    ensures a + b + [c] == x + y + [z] <==> a == x && b == y && c == z
  {
    var s, t := a + b + [c], x + y + [z];
    if s == t {
      assert a == s[..|a|] == t[..|x|] == x;
      assert b == s[|a|..|a| + |b|] == t[|x|..|x| + |y|] == y;
      assert c == s[|a| + |b|] == t[|x| + |y|] == z;
    }
  }

  lemma TopExactly(lines: seq<Line>, cursor: nat, kind: Kind, run: Run)
    requires cursor + 5 <= |lines| && run.reynolds > 0 && 1 <= run.samples <= 10000
    ensures lines[cursor..cursor + 5] == RunTop(run, kind)
            <==> RunHeader(lines, cursor, kind) && lines[cursor + 1] == Integer(run.reynolds) && lines[cursor + 3] == Integer(run.samples)
  {
    var top, want := lines[cursor..cursor + 5], RunTop(run, kind);
    assert top == [lines[cursor], lines[cursor + 1], lines[cursor + 2], lines[cursor + 3], lines[cursor + 4]];
    hide Expected;
    if top == want {
      assert top[0] == want[0] && top[1] == want[1] && top[2] == want[2] && top[3] == want[3] && top[4] == want[4];
    }
  }

  lemma RunLinesIs(run: Run, kind: Kind)
    ensures RunLines(run, kind) == RunTop(run, kind) + RowLines(Flatten(run.branches)) + [Provenance(run.source, run.program)]
    ensures |RunTop(run, kind)| == 5 && |RunLines(run, kind)| == 6 + |Flatten(run.branches)|
  {
    RowLinesLength(Flatten(run.branches));
    hide RowLines, Flatten, Expected;
  }

  /** A run is parsed exactly from its printed lines. */
  lemma RunPrints(lines: seq<Line>, cursor: nat, kind: Kind, ordinal: nat)
    requires ParseRun(lines, cursor, kind, ordinal).Ok?
    ensures var (run, next) := ParseRun(lines, cursor, kind, ordinal).value;
            && ProperRun(run, kind, ordinal) && next == cursor + |RunLines(run, kind)| <= |lines|
            && lines[cursor..next] == RunLines(run, kind)
  {
    hide *;
    RunIs(lines, cursor, kind, ordinal);
    var (run, next) := ParseRun(lines, cursor, kind, ordinal).value;
    RunHeaderFacts(lines, cursor, kind);
    var samples, first := lines[cursor + 3].value, cursor + 5;
    var seg := lines[first..first + samples];
    var rows := ParseRows(seg, kind).value;
    BranchesSplit(rows);
    RowsExactly(seg, kind, rows);
    RunLinesIs(run, kind);
    CutRun(lines, cursor, samples);
    TopExactly(lines, cursor, kind, run);
    IntegerIs(lines[cursor + 1], run.reynolds);
    IntegerIs(lines[cursor + 3], run.samples);
    ProvenanceIs(lines[first + samples], run.source, run.program);
    ProperRunIs(run, kind, ordinal);
  }

  lemma IntegerIs(line: Line, value: int)
    requires line.Integer?
    ensures line.value == value ==> line == Integer(value)
  {
  }

  lemma ProvenanceIs(line: Line, source: string, program: string)
    requires line.Provenance?
    ensures line.source == source && line.program == program ==> line == Provenance(source, program)
  {
  }

  lemma ProperRunIs(run: Run, kind: Kind, ordinal: nat)
    ensures ProperRun(run, kind, ordinal) <==>
              && run.ordinal == ordinal && run.reynolds > 0 && 1 <= run.samples <= 10000
              && Split(run.branches) && |Flatten(run.branches)| == run.samples && ProperRows(Flatten(run.branches), kind)
  {
  }

  /** Printed lines of a proper run are parsed back to it. */
  lemma RunParses(lines: seq<Line>, cursor: nat, kind: Kind, ordinal: nat, run: Run)
    requires ProperRun(run, kind, ordinal) && cursor + |RunLines(run, kind)| <= |lines|
    requires lines[cursor..cursor + |RunLines(run, kind)|] == RunLines(run, kind)
    ensures ParseRun(lines, cursor, kind, ordinal) == Ok((run, cursor + |RunLines(run, kind)|))
  {
    hide *;
    ProperRunIs(run, kind, ordinal);
    var rows, first := Flatten(run.branches), cursor + 5;
    var footer := Provenance(run.source, run.program);
    RunLinesIs(run, kind);
    RowLinesLength(rows);
    CutRun(lines, cursor, run.samples);
    SameParts(lines[cursor..first], lines[first..first + run.samples], lines[first + run.samples], RunTop(run, kind), RowLines(rows), footer);
    TopExactly(lines, cursor, kind, run);
    RowsExactly(lines[first..first + run.samples], kind, rows);
    SplitIsUnique(run.branches);
    RunIs(lines, cursor, kind, ordinal);
    RunEqual(run);
  }

  lemma RunEqual(run: Run)
    ensures run == Run(run.ordinal, run.reynolds, run.source, run.program, run.branches, run.samples)
  {
  }

  lemma LastRun(runs: seq<Run>, kind: Kind)
    requires runs != []
    ensures RunsLines(runs, kind) == RunsLines(runs[..|runs| - 1], kind) + RunLines(runs[|runs| - 1], kind)
    ensures ProperRuns(runs, kind) <==> ProperRuns(runs[..|runs| - 1], kind) && ProperRun(runs[|runs| - 1], kind, |runs| - 1)
    ensures runs == runs[..|runs| - 1] + [runs[|runs| - 1]]
  {
    hide *;
    LastRunLines(runs, kind);
    LastRunProper(runs, kind);
  }

  lemma LastRunLines(runs: seq<Run>, kind: Kind)
    requires runs != []
    ensures RunsLines(runs, kind) == RunsLines(runs[..|runs| - 1], kind) + RunLines(runs[|runs| - 1], kind)
  {
    hide RunLines;
  }

  lemma LastRunProper(runs: seq<Run>, kind: Kind)
    requires runs != []
    ensures ProperRuns(runs, kind) <==> ProperRuns(runs[..|runs| - 1], kind) && ProperRun(runs[|runs| - 1], kind, |runs| - 1)
  {
    var front := runs[..|runs| - 1];
    assert forall i :: 0 <= i < |front| ==> front[i] == runs[i];
    hide ProperRun;
    if ProperRuns(runs, kind) {
      assert forall i :: 0 <= i < |front| ==> ProperRun(runs[i], kind, i);
    }
  }

  /** All declared runs are parsed exactly from their printed lines. */
  lemma {:induction false} RunsPrint(lines: seq<Line>, kind: Kind, count: nat)
    requires 5 <= |lines| && ParseRuns(lines, kind, count).Ok?
    ensures var (runs, next) := ParseRuns(lines, kind, count).value;
            && |runs| == count && ProperRuns(runs, kind) && next == 5 + |RunsLines(runs, kind)| <= |lines|
            && lines[5..next] == RunsLines(runs, kind)
  {
    hide *;
    if count == 0 {
      NoRuns(lines, kind);
      NoRunLines(kind);
      assert lines[5..5] == [];
    } else {
      RunsStep(lines, kind, count - 1);
      RunsPrint(lines, kind, count - 1);
      var (front, middle) := ParseRuns(lines, kind, count - 1).value;
      RunPrints(lines, middle, kind, count - 1);
      var (runs, next) := ParseRuns(lines, kind, count).value;
      LastRun(runs, kind);
      assert runs[..|runs| - 1] == front;
      assert lines[5..next] == lines[5..middle] + lines[middle..next];
    }
  }

  lemma NoRunLines(kind: Kind)
    ensures RunsLines([], kind) == [] && ProperRuns([], kind)
  {
  }

  lemma {:induction false} RunsParse(lines: seq<Line>, kind: Kind, runs: seq<Run>)
    requires 5 <= |lines| && ProperRuns(runs, kind) && 5 + |RunsLines(runs, kind)| <= |lines|
    requires lines[5..5 + |RunsLines(runs, kind)|] == RunsLines(runs, kind)
    ensures ParseRuns(lines, kind, |runs|) == Ok((runs, 5 + |RunsLines(runs, kind)|))
  {
    hide *;
    if runs == [] {
      NoRuns(lines, kind);
      NoRunLines(kind);
    } else {
      var front, run := runs[..|runs| - 1], runs[|runs| - 1];
      LastRun(runs, kind);
      var a, b := RunsLines(front, kind), RunLines(run, kind);
      CutAt(lines, 5, a, b);
      RunsParse(lines, kind, front);
      RunParses(lines, 5 + |a|, kind, |runs| - 1, run);
      RunsStep(lines, kind, |runs| - 1);
    }
  }

  lemma CutAt(lines: seq<Line>, start: nat, a: seq<Line>, b: seq<Line>)
    requires start + |a + b| <= |lines| && lines[start..start + |a + b|] == a + b
    ensures lines[start..start + |a|] == a && lines[start + |a|..start + |a| + |b|] == b && |a + b| == |a| + |b|
  {
    var s := lines[start..start + |a + b|];
    assert lines[start..start + |a|] == s[..|a|];
    assert lines[start + |a|..start + |a| + |b|] == s[|a|..];
  }

  function DocumentTop(d: Document): seq<Line> {
    [Airfoil(d.airfoil), Builder(d.builder), Comment(d.condition), RunCount, Integer(|d.runs|)]
  }

  lemma PrintIs(d: Document, kind: Kind)
    ensures Print(d, kind) == DocumentTop(d) + RunsLines(d.runs, kind) + EndLines(d.generation) && |DocumentTop(d)| == 5
  {
    hide RunsLines, EndLines;
  }

  lemma HeaderExactly(lines: seq<Line>, d: Document)
    requires |lines| >= 5 && 1 <= |d.runs| <= 1000
    ensures lines[..5] == DocumentTop(d) <==>
              && Header(lines) && lines[0].Airfoil? && lines[1].Builder? && lines[2].Comment? && lines[4].Integer?
              && lines[0].text == d.airfoil && lines[1].text == d.builder && lines[2].text == d.condition && lines[4].value == |d.runs|
  {
    var top, want := lines[..5], DocumentTop(d);
    assert top == [lines[0], lines[1], lines[2], lines[3], lines[4]];
    if top == want {
      assert top[0] == want[0] && top[1] == want[1] && top[2] == want[2] && top[3] == want[3] && top[4] == want[4];
    }
  }

  lemma EndExactly(lines: seq<Line>, cursor: nat, kind: Kind, g: Option<Generation>)
    requires cursor <= |lines|
    ensures ParseEnd(lines, cursor, kind) == Ok(g) <==>
              && lines[cursor..] == EndLines(g) && (g.Some? ==> EndsWith(Lower(g.value.file), Extension(kind)))
  {
    hide EndsWith, Lower, Extension;
    var rest := lines[cursor..];
    if cursor + 1 == |lines| {
      assert rest == [lines[cursor]];
    }
    if rest == EndLines(g) && g.Some? {
      assert rest[0] == lines[cursor];
    }
  }

  lemma WellFormedIs(d: Document, kind: Kind)
    ensures WellFormed(d, kind) <==>
              && 1 <= |d.runs| <= 1000 && ProperRuns(d.runs, kind)
              && (d.generation.Some? ==> EndsWith(Lower(d.generation.value.file), Extension(kind)))
  {
    hide ProperRuns, EndsWith, Lower, Extension;
  }

  /** What is parsed was printed: the lines are exactly the printed form of the well-formed document returned. */
  lemma ParsePrints(lines: seq<Line>, kind: Kind)
    requires Parse(lines, kind).Ok?
    ensures WellFormed(Parse(lines, kind).value, kind) && Print(Parse(lines, kind).value, kind) == lines
  {
    hide *;
    var d := Parse(lines, kind).value;
    ParseIs(lines, kind);
    HeaderFacts(lines);
    RunsPrint(lines, kind, lines[4].value);
    var (runs, next) := ParseRuns(lines, kind, lines[4].value).value;
    EndExactly(lines, next, kind, d.generation);
    HeaderExactly(lines, d);
    PrintIs(d, kind);
    WellFormedIs(d, kind);
    assert lines == lines[..5] + lines[5..next] + lines[next..];
  }

  /** What is printed is parsed back. */
  lemma PrintParses(d: Document, kind: Kind)
    requires WellFormed(d, kind)
    ensures Parse(Print(d, kind), kind) == Ok(d)
  {
    hide *;
    WellFormedIs(d, kind);
    PrintIs(d, kind);
    var lines, runs, end := Print(d, kind), RunsLines(d.runs, kind), EndLines(d.generation);
    var next := 5 + |runs|;
    assert lines[..5] == DocumentTop(d) && lines[5..next] == runs && lines[next..] == end;
    HeaderExactly(lines, d);
    RunsParse(lines, kind, d.runs);
    EndExactly(lines, next, kind, d.generation);
    ParseIs(lines, kind);
    DocumentEqual(d);
  }

  lemma DocumentEqual(d: Document)
    ensures d == Document(d.airfoil, d.builder, d.condition, d.runs, d.generation)
  {
  }

  /** The parser inverts the printer: it returns a document exactly when the lines are that well-formed document's printed form,
      with every declared run and sample accounted for. */
  lemma ParseExactly(lines: seq<Line>, kind: Kind, d: Document)
    ensures Parse(lines, kind) == Ok(d) <==> WellFormed(d, kind) && lines == Print(d, kind)
  {
    hide *;
    if Parse(lines, kind) == Ok(d) {
      ParsePrints(lines, kind);
    }
    if WellFormed(d, kind) && lines == Print(d, kind) {
      PrintParses(d, kind);
    }
  }

  // ---------- the two formats ----------

  lemma LowerIs(c: char, s: string, i: nat)
    requires i < |s| && s[i] == c
    ensures Lower(s)[i] == '.' <==> c == '.'
    ensures Lower(s)[i] == 'l' <==> c == 'l' || c == 'L'
    ensures Lower(s)[i] == 'f' <==> c == 'f' || c == 'F'
    ensures Lower(s)[i] == 't' <==> c == 't' || c == 'T'
    ensures Lower(s)[i] == 'd' <==> c == 'd' || c == 'D'
    ensures Lower(s)[i] == 'r' <==> c == 'r' || c == 'R'
    ensures Lower(s)[i] == 'g' <==> c == 'g' || c == 'G'
  {
  }

  lemma EndsWithFour(s: string, end: string)
    requires |end| == 4
    ensures EndsWith(s, end) <==> |s| >= 4 && s[|s| - 4] == end[0] && s[|s| - 3] == end[1] && s[|s| - 2] == end[2] && s[|s| - 1] == end[3]
  {
    if |s| >= 4 {
      var last := s[|s| - 4..];
      assert last[0] == s[|s| - 4] && last[1] == s[|s| - 3] && last[2] == s[|s| - 2] && last[3] == s[|s| - 1];
    }
  }

  lemma LiftEnding(f: string)
    requires |f| >= 4
    ensures EndsWith(Lower(f), ".lft") <==> f[|f| - 4] == '.' && f[|f| - 3] in ['l', 'L'] && f[|f| - 2] in ['f', 'F'] && f[|f| - 1] in ['t', 'T']
  {
    EndsWithFour(Lower(f), ".lft");
    LowerIs(f[|f| - 4], f, |f| - 4);
    LowerIs(f[|f| - 3], f, |f| - 3);
    LowerIs(f[|f| - 2], f, |f| - 2);
    LowerIs(f[|f| - 1], f, |f| - 1);
    hide Lower, EndsWith;
  }

  lemma DragEnding(f: string)
    requires |f| >= 4
    ensures EndsWith(Lower(f), ".drg") <==> f[|f| - 4] == '.' && f[|f| - 3] in ['d', 'D'] && f[|f| - 2] in ['r', 'R'] && f[|f| - 1] in ['g', 'G']
  {
    EndsWithFour(Lower(f), ".drg");
    LowerIs(f[|f| - 4], f, |f| - 4);
    LowerIs(f[|f| - 3], f, |f| - 3);
    LowerIs(f[|f| - 2], f, |f| - 2);
    LowerIs(f[|f| - 1], f, |f| - 1);
    hide Lower, EndsWith;
  }

  /** What tells a lift file from a drag file: the columns its runs announce, and the ending, in either case, of the file it names. */
  lemma FormatsAre(line: Line, lines: seq<Line>, cursor: nat)
    ensures RunHeader(lines, cursor, Lift) ==> lines[cursor + 4] == Columns("alpha/Cl/Cm")
    ensures RunHeader(lines, cursor, Drag) ==> lines[cursor + 4] == Columns("alpha/Cl/Cd/SpanwiseCd's>>>")
    ensures line.Created? && |line.file| >= 4 ==>
              var f, n := line.file, |line.file|;
              && (Generated(line, Lift) <==> f[n - 4] == '.' && f[n - 3] in ['l', 'L'] && f[n - 2] in ['f', 'F'] && f[n - 1] in ['t', 'T'])
              && (Generated(line, Drag) <==> f[n - 4] == '.' && f[n - 3] in ['d', 'D'] && f[n - 2] in ['r', 'R'] && f[n - 1] in ['g', 'G'])
    ensures !line.Created? || |line.file| < 4 ==> !Generated(line, Lift) && !Generated(line, Drag)
  {
    if line.Created? {
      assert |Lower(line.file)| == |line.file|;
      if |line.file| >= 4 {
        LiftEnding(line.file);
        DragEnding(line.file);
        hide Lower, EndsWith;
      }
    }
  }
}

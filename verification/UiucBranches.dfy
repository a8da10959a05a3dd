/** Splitting a measured angle sweep into monotone branches. */
module UiucBranches {

  import opened Partial

  /** One measured row: its place in the run, the angle, the lift coefficient and the remaining columns. */
  datatype Row = Row(index: nat, alpha: real, lift: real, rest: seq<real>)

  datatype Direction = Increasing | Decreasing | Single

  datatype Branch = Branch(direction: Direction, rows: seq<Row>)

  /** The direction of a step; equal angles have none. */
  function Towards(a: Row, b: Row): Direction { if b.alpha > a.alpha then Increasing else Decreasing }

  predicate Repeats(rows: seq<Row>) { exists i :: 0 <= i < |rows| - 1 && rows[i].alpha == rows[i + 1].alpha }

  function Flatten(bs: seq<Branch>): seq<Row> { if bs == [] then [] else Flatten(bs[..|bs| - 1]) + bs[|bs| - 1].rows }

  /** Adds one more row to a split. */
  function Extend(bs: seq<Branch>, row: Row): seq<Branch>
    requires bs != [] && bs[|bs| - 1].rows != []
  {
    var last := bs[|bs| - 1];
    var step := Towards(last.rows[|last.rows| - 1], row);
    if last.direction == Single || last.direction == step
    then bs[..|bs| - 1] + [Branch(step, last.rows + [row])]
    else bs + [Branch(step, [row])]
  }

  /** The branches of a run. */
  function BranchesOf(rows: seq<Row>): (bs: seq<Branch>)
    requires rows != []
    ensures bs != [] && bs[|bs| - 1].rows != []
  {
    if |rows| == 1 then [Branch(Single, rows)]
    else Extend(BranchesOf(rows[..|rows| - 1]), rows[|rows| - 1])
  }

  /** `_branches`: a single pass with the branch in progress and its direction. */
  method Branches(rows: seq<Row>) returns (r: Result<seq<Branch>>)
    requires rows != []
    ensures r == if Repeats(rows) then Err else Ok(BranchesOf(rows))
  {
    hide *;
    var branches: seq<Branch> := [];
    var current, direction := [rows[0]], Single;
    FirstRow(rows);
    for n := 1 to |rows|
      invariant current != [] && current[|current| - 1] == rows[n - 1]
      invariant !Repeats(rows[..n])
      invariant BranchesOf(rows[..n]) == branches + [Branch(direction, current)]
    {
      var difference := rows[n].alpha - rows[n - 1].alpha;
      RepeatsAppends(rows, n);
      if difference == 0.0 {
        return Err;
      }
      BranchesStep(rows, n);
      ExtendIs(branches, Branch(direction, current), rows[n]);
      TowardsIs(rows[n - 1], rows[n]);
      var changed := if difference > 0.0 then Increasing else Decreasing;
      if direction != Single && changed != direction {
        branches := branches + [Branch(direction, current)];
        current := [];
      }
      direction := changed;
      current := current + [rows[n]];
      assert [] + [rows[n]] == [rows[n]];
    }
    assert rows[..|rows|] == rows;
    r := Ok(branches + [Branch(direction, current)]);
  }

  lemma TowardsIs(a: Row, b: Row)
    ensures Towards(a, b) == if b.alpha - a.alpha > 0.0 then Increasing else Decreasing
  {
  }

  lemma FirstRow(rows: seq<Row>)
    requires rows != []
    ensures !Repeats(rows[..1]) && BranchesOf(rows[..1]) == [] + [Branch(Single, [rows[0]])]
  {
    assert rows[..1] == [rows[0]];
    assert [] + [Branch(Single, [rows[0]])] == [Branch(Single, [rows[0]])];
  }

  lemma BranchesStep(rows: seq<Row>, n: nat)
    requires 1 <= n < |rows|
    ensures BranchesOf(rows[..n + 1]) == Extend(BranchesOf(rows[..n]), rows[n])
  {
    var more, front := rows[..n + 1], rows[..n];
    assert more[..|more| - 1] == front && more[|more| - 1] == rows[n];
    hide *;
    BranchesGrow(more);
  }

  lemma ExtendIs(front: seq<Branch>, last: Branch, row: Row)
    requires last.rows != []
    ensures var step := Towards(last.rows[|last.rows| - 1], row);
            Extend(front + [last], row)
            == if last.direction == Single || last.direction == step then front + [Branch(step, last.rows + [row])]
               else (front + [last]) + [Branch(step, [row])]
  {
    var bs := front + [last];
    assert bs[..|bs| - 1] == front && bs[|bs| - 1] == last;
  }

  lemma RepeatsAppends(rows: seq<Row>, n: nat)
    requires 1 <= n < |rows|
    ensures Repeats(rows[..n + 1]) <==> Repeats(rows[..n]) || rows[n - 1].alpha == rows[n].alpha
    ensures Repeats(rows[..n + 1]) ==> Repeats(rows)
  {
    var more := rows[..n + 1];
    if Repeats(rows[..n]) {
      var i :| 0 <= i < n - 1 && rows[..n][i].alpha == rows[..n][i + 1].alpha;
      assert more[i].alpha == more[i + 1].alpha;
    }
    if rows[n - 1].alpha == rows[n].alpha {
      assert more[n - 1].alpha == more[n - 1 + 1].alpha;
    }
    if Repeats(more) {
      var i :| 0 <= i < |more| - 1 && more[i].alpha == more[i + 1].alpha;
      assert rows[i].alpha == rows[i + 1].alpha;
      if i < n - 1 { assert rows[..n][i].alpha == rows[..n][i + 1].alpha; }
    }
  }

  // ---------- what a split is ----------

  /** Every step inside a branch goes in its direction. */
  predicate Monotone(b: Branch) {
    forall i :: 0 <= i < |b.rows| - 1 ==> Moves(b.rows[i], b.rows[i + 1], b.direction)
  }

  predicate Moves(a: Row, b: Row, d: Direction) {
    match d
    case Increasing => a.alpha < b.alpha
    case Decreasing => a.alpha > b.alpha
    case Single => false
  }

  /** The next branch turns the other way, and so does the step into it. */
  predicate Turns(b: Branch, c: Branch) {
    b.rows != [] && c.rows != [] && b.direction != Single && c.direction != Single && c.direction != b.direction
    && Moves(b.rows[|b.rows| - 1], c.rows[0], c.direction)
  }

  ghost predicate Split(bs: seq<Branch>) {
    && bs != []
    && (forall i :: 0 <= i < |bs| ==> bs[i].rows != [] && Monotone(bs[i]))
    && (forall i :: 0 <= i < |bs| - 1 ==> Turns(bs[i], bs[i + 1]))
    && (bs[0].direction == Single <==> |bs[0].rows| == 1)
  }

  lemma {:induction false} FlattenAppends(bs: seq<Branch>, b: Branch)
    ensures Flatten(bs + [b]) == Flatten(bs) + b.rows
  {
    assert (bs + [b])[..|bs|] == bs;
  }

  /** One more row, at another angle, keeps a split and adds just that row. */
  lemma ExtendSplits(front: seq<Branch>, last: Branch, row: Row)
    requires Split(front + [last]) && last.rows != [] && last.rows[|last.rows| - 1].alpha != row.alpha
    ensures Split(Extend(front + [last], row))
    ensures Flatten(Extend(front + [last], row)) == Flatten(front + [last]) + [row]
  {
    SplitLast(front, last);
    ExtendIs(front, last, row);
    FlattenAppends(front, last);
    var end := last.rows[|last.rows| - 1];
    var step := Towards(end, row);
    assert step != Single && Moves(end, row, step);
    if last.direction == Single || last.direction == step {
      var wider := Branch(step, last.rows + [row]);
      hide *;
      FlattenAppends(front, wider);
      GrowsMonotone(last, row, step);
      LastReplaced(front, last, wider);
    } else {
      var next := Branch(step, [row]);
      assert Turns(last, next) && Monotone(next);
      hide *;
      FlattenAppends(front + [last], next);
      LastAdded(front + [last], next);
    }
  }

  lemma SplitLast(front: seq<Branch>, last: Branch)
    requires Split(front + [last])
    ensures last.rows != [] && Monotone(last) && (last.direction == Single ==> front == [] && |last.rows| == 1)
  {
    var bs := front + [last];
    assert bs[|front|] == last;
    assert front != [] ==> Turns(bs[|front| - 1], bs[|front| - 1 + 1]);
  }

  lemma GrowsMonotone(b: Branch, row: Row, step: Direction)
    requires b.rows != [] && Monotone(b) && Moves(b.rows[|b.rows| - 1], row, step)
    requires b.direction == step || (b.direction == Single && |b.rows| == 1)
    ensures Monotone(Branch(step, b.rows + [row]))
  {
  }

  lemma LastReplaced(front: seq<Branch>, last: Branch, wider: Branch)
    requires Split(front + [last]) && Monotone(wider) && wider.direction != Single
    requires last.rows != [] && |wider.rows| > |last.rows| && wider.rows[0] == last.rows[0] && (last.direction == Single || wider.direction == last.direction)
    ensures Split(front + [wider])
  {
    var old_, new_ := front + [last], front + [wider];
    assert old_[|front|] == last && new_[|front|] == wider;
    forall i | 0 <= i < |new_| - 1 ensures Turns(new_[i], new_[i + 1]) {
      assert Turns(old_[i], old_[i + 1]);
    }
    forall i | 0 <= i < |front| ensures new_[i].rows != [] && Monotone(new_[i]) && new_[i].direction != Single {
      assert old_[i] == front[i];
      assert Turns(old_[i], old_[i + 1]);
    }
  }

  lemma LastAdded(bs: seq<Branch>, next: Branch)
    requires Split(bs) && next.rows != [] && Monotone(next) && next.direction != Single && Turns(bs[|bs| - 1], next)
    ensures Split(bs + [next])
  {
    var new_ := bs + [next];
    forall i | 0 <= i < |new_| - 1 ensures Turns(new_[i], new_[i + 1]) {
      if i < |bs| - 1 { assert Turns(bs[i], bs[i + 1]); }
    }
    forall i | 0 <= i < |new_| ensures new_[i].direction != Single {
      if i < |bs| - 1 { assert Turns(bs[i], bs[i + 1]); }
    }
  }

  lemma {:induction false} FlattenEnds(bs: seq<Branch>)
    requires bs != [] && bs[|bs| - 1].rows != []
    ensures Flatten(bs) != [] && Flatten(bs)[|Flatten(bs)| - 1] == bs[|bs| - 1].rows[|bs[|bs| - 1].rows| - 1]
  {
  }

  lemma RepeatsFront(rows: seq<Row>)
    requires |rows| >= 2 && !Repeats(rows)
    ensures !Repeats(rows[..|rows| - 1]) && rows[|rows| - 2].alpha != rows[|rows| - 1].alpha
  {
    var front := rows[..|rows| - 1];
    forall i | 0 <= i < |front| - 1 ensures front[i].alpha != front[i + 1].alpha {
      assert rows[i].alpha != rows[i + 1].alpha;
    }
    assert rows[|rows| - 2].alpha != rows[|rows| - 2 + 1].alpha;
  }

  /** The branches concatenate to the rows, are nonempty and strictly monotone, and alternate. */
  lemma {:induction false} BranchesSplit(rows: seq<Row>)
    requires rows != [] && !Repeats(rows)
    ensures Split(BranchesOf(rows)) && Flatten(BranchesOf(rows)) == rows
  {
    if |rows| == 1 {
      OneBranch(rows);
    } else {
      hide *;
      var front := rows[..|rows| - 1];
      RepeatsFront(rows);
      BranchesSplit(front);
      var bs := BranchesOf(front);
      Parted(bs);
      FlattenEnds(bs);
      BranchesGrow(rows);
      ExtendSplits(bs[..|bs| - 1], bs[|bs| - 1], rows[|rows| - 1]);
      PartedRows(rows);
    }
  }

  lemma PartedRows(rows: seq<Row>)
    requires rows != []
    ensures rows == rows[..|rows| - 1] + [rows[|rows| - 1]]
  {
  }

  lemma Parted(bs: seq<Branch>)
    requires bs != []
    ensures bs == bs[..|bs| - 1] + [bs[|bs| - 1]]
  {
  }

  lemma BranchesGrow(rows: seq<Row>)
    requires |rows| >= 2
    ensures BranchesOf(rows) == Extend(BranchesOf(rows[..|rows| - 1]), rows[|rows| - 1])
  {
  }

  lemma OneBranch(rows: seq<Row>)
    requires |rows| == 1
    ensures Split([Branch(Single, rows)]) && Flatten([Branch(Single, rows)]) == rows
  {
    var bs := [Branch(Single, rows)];
    assert bs[..0] == [];
    assert [] + rows == rows;
  }

  /** How often the sweep changes direction. */
  function Changes(rows: seq<Row>): nat {
    if |rows| < 3 then 0
    else Changes(rows[..|rows| - 1])
         + if Towards(rows[|rows| - 3], rows[|rows| - 2]) != Towards(rows[|rows| - 2], rows[|rows| - 1]) then 1 else 0
  }

  /** The end of the last branch is the last row, and after two rows its direction is that of the last step. */
  lemma {:induction false} LastDirection(rows: seq<Row>)
    requires |rows| >= 2 && !Repeats(rows)
    ensures var bs := BranchesOf(rows); bs[|bs| - 1].direction == Towards(rows[|rows| - 2], rows[|rows| - 1])
  {
    LastRowIs(rows[..|rows| - 1], rows);
    BranchesGrow(rows);
    Parted(BranchesOf(rows[..|rows| - 1]));
    hide *;
    var bs := BranchesOf(rows[..|rows| - 1]);
    ExtendIs(bs[..|bs| - 1], bs[|bs| - 1], rows[|rows| - 1]);
  }

  lemma LastRowIs(front: seq<Row>, rows: seq<Row>)
    requires |rows| >= 2 && !Repeats(rows) && front == rows[..|rows| - 1]
    ensures var bs := BranchesOf(front); bs[|bs| - 1].rows[|bs[|bs| - 1].rows| - 1] == rows[|rows| - 2]
  {
    hide *;
    RepeatsFront(rows);
    BranchesSplit(front);
    FlattenEnds(BranchesOf(front));
  }

  /** Adding a row adds a branch exactly when the sweep turns at it; a and b are the two rows before. */
  lemma ExtendCounts(bs: seq<Branch>, a: Row, b: Row, row: Row)
    requires bs != [] && bs[|bs| - 1].rows != [] && bs[|bs| - 1].rows[|bs[|bs| - 1].rows| - 1] == b && bs[|bs| - 1].direction == Towards(a, b)
    ensures |Extend(bs, row)| == |bs| + if Towards(a, b) != Towards(b, row) then 1 else 0
  {
    TowardsIs(a, b);
    hide Towards;
  }

  lemma ChangesGrow(rows: seq<Row>)
    requires |rows| >= 3
    ensures Changes(rows) == Changes(rows[..|rows| - 1])
              + if Towards(rows[|rows| - 3], rows[|rows| - 2]) != Towards(rows[|rows| - 2], rows[|rows| - 1]) then 1 else 0
  {
    hide Towards;
  }

  lemma TwoRows(rows: seq<Row>)
    requires |rows| == 2
    ensures |BranchesOf(rows)| == 1
  {
    assert BranchesOf(rows[..1]) == [Branch(Single, rows[..1])];
    BranchesGrow(rows);
  }

  /** There is one branch more than the sweep changes direction. */
  lemma {:induction false} BranchCount(rows: seq<Row>)
    requires rows != [] && !Repeats(rows)
    ensures |BranchesOf(rows)| == Changes(rows) + 1
  {
    if |rows| == 2 {
      TwoRows(rows);
    } else if |rows| > 2 {
      var front := rows[..|rows| - 1];
      hide *;
      RepeatsFront(rows);
      BranchCount(front);
      LastRowIs(front, rows);
      LastDirection(front);
      BranchesGrow(rows);
      ChangesGrow(rows);
      ExtendCounts(BranchesOf(front), rows[|rows| - 3], rows[|rows| - 2], rows[|rows| - 1]);
    }
  }

  // ---------- the split is unique ----------

  /** A split never repeats an angle. */
  lemma {:induction false} SplitMoves(bs: seq<Branch>)
    requires Split(bs)
    ensures Flatten(bs) != [] && !Repeats(Flatten(bs))
    decreases |bs|
  {
    var front, last := bs[..|bs| - 1], bs[|bs| - 1];
    assert bs == front + [last];
    if front == [] {
      assert [] + last.rows == last.rows;
      BranchMoves(last);
    } else {
      FrontSplits(bs);
      SplitMoves(front);
      FlattenEnds(front);
      BranchMoves(last);
      assert Turns(bs[|bs| - 2], bs[|bs| - 2 + 1]);
      ConcatMoves(Flatten(front), last.rows);
    }
  }

  lemma BranchMoves(b: Branch)
    requires Monotone(b)
    ensures !Repeats(b.rows)
  {
    forall i | 0 <= i < |b.rows| - 1 ensures b.rows[i].alpha != b.rows[i + 1].alpha {
      assert Moves(b.rows[i], b.rows[i + 1], b.direction);
    }
  }

  lemma ConcatMoves(a: seq<Row>, b: seq<Row>)
    requires a != [] && b != [] && !Repeats(a) && !Repeats(b) && a[|a| - 1].alpha != b[0].alpha
    ensures !Repeats(a + b)
  {
    var c := a + b;
    forall i | 0 <= i < |c| - 1 ensures c[i].alpha != c[i + 1].alpha {
      if i < |a| - 1 {
        assert a[i].alpha != a[i + 1].alpha;
      } else if i >= |a| {
        assert b[i - |a|].alpha != b[i - |a| + 1].alpha;
      }
    }
  }

  lemma FrontSplits(bs: seq<Branch>)
    requires Split(bs) && |bs| >= 2
    ensures Split(bs[..|bs| - 1])
  {
    var front := bs[..|bs| - 1];
    forall i | 0 <= i < |front| - 1 ensures Turns(front[i], front[i + 1]) {
      assert Turns(bs[i], bs[i + 1]);
    }
  }

  lemma OnlyRowComesOff(front: seq<Branch>, last: Branch)
    requires Split(front + [last]) && |Flatten(front + [last])| >= 2 && |last.rows| == 1
    ensures front != [] && Split(front) && front[|front| - 1].rows != []
    ensures Flatten(front) == Flatten(front + [last])[..|Flatten(front + [last])| - 1]
    ensures Extend(front, last.rows[0]) == front + [last]
  {
    var row := last.rows[0];
    FlattenAppends(front, last);
    SplitLast(front, last);
    assert front == [] ==> Flatten(front) == [];
    assert last.rows == [row];
    hide *;
    PenultimateTurns(front, last);
    Parted(front);
    ExtendIs(front[..|front| - 1], front[|front| - 1], row);
    DropLast(Flatten(front), row);
  }

  lemma LastStep(b: Branch)
    requires |b.rows| >= 2 && Monotone(b)
    ensures Towards(b.rows[|b.rows| - 2], b.rows[|b.rows| - 1]) == b.direction
  {
    assert Moves(b.rows[|b.rows| - 2], b.rows[|b.rows| - 2 + 1], b.direction);
  }

  lemma RowsEnd(front: seq<Row>, less: seq<Row>, row: Row)
    ensures (front + (less + [row]))[..|front + (less + [row])| - 1] == front + less
  {
  }

  lemma ExtendComesBack(front: seq<Branch>, last: Branch, d: Direction)
    requires |last.rows| >= 2 && Monotone(last) && (d == Single || d == last.direction)
    ensures Extend(front + [Branch(d, last.rows[..|last.rows| - 1])], last.rows[|last.rows| - 1]) == front + [last]
  {
    var less, row := last.rows[..|last.rows| - 1], last.rows[|last.rows| - 1];
    assert less + [row] == last.rows && less[|less| - 1] == last.rows[|last.rows| - 2];
    assert last == Branch(last.direction, last.rows);
    hide *;
    LastStep(last);
    ExtendIs(front, Branch(d, less), row);
  }

  lemma FlattenComesOff(front: seq<Branch>, last: Branch, d: Direction)
    requires last.rows != []
    ensures Flatten(front + [Branch(d, last.rows[..|last.rows| - 1])]) == Flatten(front + [last])[..|Flatten(front + [last])| - 1]
  {
    var less, row := last.rows[..|last.rows| - 1], last.rows[|last.rows| - 1];
    hide *;
    FlattenAppends(front, last);
    FlattenAppends(front, Branch(d, less));
    assert less + [row] == last.rows;
    RowsEnd(Flatten(front), less, row);
  }

  lemma OneRowComesOff(front: seq<Branch>, last: Branch) returns (shorter: seq<Branch>)
    requires Split(front + [last]) && |Flatten(front + [last])| >= 2 && |last.rows| >= 2
    ensures shorter != [] && Split(shorter) && shorter[|shorter| - 1].rows != []
    ensures Flatten(shorter) == Flatten(front + [last])[..|Flatten(front + [last])| - 1]
    ensures Extend(shorter, last.rows[|last.rows| - 1]) == front + [last]
  {
    hide *;
    SplitLast(front, last);
    var less := last.rows[..|last.rows| - 1];
    var d := if front == [] && |less| == 1 then Single else last.direction;
    shorter := front + [Branch(d, less)];
    Shortened(front, last, less, d);
    FlattenComesOff(front, last, d);
    ExtendComesBack(front, last, d);
  }

  /** Removing the last row of a split leaves a split of the other rows, which the row extends back. */
  lemma LastRowComesOff(front: seq<Branch>, last: Branch) returns (shorter: seq<Branch>)
    requires Split(front + [last]) && |Flatten(front + [last])| >= 2 && last.rows != []
    ensures shorter != [] && Split(shorter) && shorter[|shorter| - 1].rows != []
    ensures Flatten(shorter) == Flatten(front + [last])[..|Flatten(front + [last])| - 1]
    ensures Extend(shorter, last.rows[|last.rows| - 1]) == front + [last]
  {
    if |last.rows| == 1 {
      hide *;
      OnlyRowComesOff(front, last);
      shorter := front;
    } else {
      hide *;
      shorter := OneRowComesOff(front, last);
    }
  }

  lemma DropLast(rows: seq<Row>, row: Row)
    ensures (rows + [row])[..|rows + [row]| - 1] == rows
  {
  }

  /** A one-row last branch is entered against the branch before it. */
  lemma PenultimateTurns(front: seq<Branch>, last: Branch)
    requires Split(front + [last]) && front != [] && |last.rows| == 1
    ensures Split(front)
    ensures var before := front[|front| - 1];
            && before.rows != [] && before.direction != Single && before.direction != last.direction
            && Towards(before.rows[|before.rows| - 1], last.rows[0]) == last.direction
  {
    var bs := front + [last];
    assert bs[..|bs| - 1] == front;
    FrontSplits(bs);
    assert Turns(bs[|front| - 1], bs[|front| - 1 + 1]);
  }

  lemma Shortened(front: seq<Branch>, last: Branch, less: seq<Row>, d: Direction)
    requires Split(front + [last]) && |last.rows| >= 2 && less == last.rows[..|last.rows| - 1]
    requires d == if front == [] && |less| == 1 then Single else last.direction
    ensures Split(front + [Branch(d, less)])
  {
    var old_, new_ := front + [last], front + [Branch(d, less)];
    assert old_[|front|] == last && new_[|front|] == Branch(d, less);
    forall i | 0 <= i < |new_| - 1 ensures Turns(new_[i], new_[i + 1]) {
      assert Turns(old_[i], old_[i + 1]);
    }
    forall i | 0 <= i < |front| ensures new_[i].rows != [] && Monotone(new_[i]) && new_[i].direction != Single {
      assert old_[i] == front[i];
      assert Turns(old_[i], old_[i + 1]);
    }
    assert Monotone(last);
    forall i | 0 <= i < |less| - 1 ensures Moves(less[i], less[i + 1], d) {
      assert Moves(last.rows[i], last.rows[i + 1], last.direction);
    }
    assert Moves(last.rows[0], last.rows[0 + 1], last.direction);
  }

  /** Only one split concatenates to given rows: the one the program computes. */
  lemma {:induction false} SplitIsUnique(bs: seq<Branch>)
    requires Split(bs)
    ensures Flatten(bs) != [] && !Repeats(Flatten(bs)) && bs == BranchesOf(Flatten(bs))
    decreases |Flatten(bs)|
  {
    hide *;
    SplitMoves(bs);
    var rows := Flatten(bs);
    if |rows| == 1 {
      OneRowSplit(bs);
      OneRowBranches(rows);
    } else {
      SplitNotEmpty(bs);
      Parted(bs);
      FlattenEnds(bs);
      var shorter := LastRowComesOff(bs[..|bs| - 1], bs[|bs| - 1]);
      SplitIsUnique(shorter);
      BranchesGrow(rows);
    }
  }

  lemma SplitNotEmpty(bs: seq<Branch>)
    requires Split(bs)
    ensures bs != [] && bs[|bs| - 1].rows != []
  {
  }

  lemma OneRowBranches(rows: seq<Row>)
    requires |rows| == 1
    ensures BranchesOf(rows) == [Branch(Single, rows)]
  {
  }

  lemma OneRowSplit(bs: seq<Branch>)
    requires Split(bs) && |Flatten(bs)| == 1
    ensures bs == [Branch(Single, Flatten(bs))]
  {
    var front, last := bs[..|bs| - 1], bs[|bs| - 1];
    assert Flatten(bs) == Flatten(front) + last.rows;
    if front != [] {
      FrontSplits(bs);
      FlattenEnds(front);
    } else {
      assert bs == [last] && Flatten(front) == [];
      assert [] + last.rows == last.rows;
    }
  }
}

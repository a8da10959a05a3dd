/** What a completed mesh is: when the construction completes, how faces own cells, how many there are. */
module CGridTheorems {
  import opened Wrappers
  import opened CGridTopology
  import opened CGridMesh

  // ---------- when the construction completes ----------

  /** All cells have areas of one nonzero sign. */
  ghost predicate OneSign(l: Layout, areas: Areas) {
    (forall row, column :: l.HasCell(row, column) ==> areas(row, column) > 0.0)
    || (forall row, column :: l.HasCell(row, column) ==> areas(row, column) < 0.0)
  }

  /** Two cells that share a face have areas of opposite sign. */
  ghost predicate NeighboursDisagree(l: Layout, areas: Areas) {
    exists s :: HasSide(l, s) && Opposed(l, Direction(areas), s)
  }

  lemma AcceptedCellsAgree(l: Layout, areas: Areas, row: int, column: int)
    requires l.Valid() && l.HasCell(row, column) && AcceptedBefore(l, areas, CellRows(l), 0)
    ensures areas(row, column) != 0.0 && Direction(areas)(row, column) == Direction(areas)(0, 0)
    decreases row, column
  {
    assert Before(row, column, CellRows(l), 0);
    assert Outcome(l, areas, row, column) == None;
    if column > 0 {
      AcceptedCellsAgree(l, areas, row, column - 1);
      assert !Opposed(l, Direction(areas), Side(row, column, Left));
    } else if row > 0 {
      AcceptedCellsAgree(l, areas, row - 1, column);
      assert !Opposed(l, Direction(areas), Side(row, column, Bottom));
    }
  }

  /** The sweep accepts every cell exactly when the wall has at least three cells and all areas share one sign. */
  lemma AcceptanceExactly(l: Layout, areas: Areas)
    requires l.Valid()
    ensures AcceptedBefore(l, areas, CellRows(l), 0) <==>
            (l.radial >= 2 ==> l.wallEnd - l.wallStart >= 3 && OneSign(l, areas))
  {
    if AcceptedBefore(l, areas, CellRows(l), 0) && l.radial >= 2 {
      forall row, column | l.HasCell(row, column)
        ensures areas(row, column) != 0.0 && Direction(areas)(row, column) == Direction(areas)(0, 0)
      {
        AcceptedCellsAgree(l, areas, row, column);
      }
      assert l.HasCell(0, l.wallStart) && l.HasCell(0, l.wallStart + 1);
      assert Outcome(l, areas, 0, l.wallStart) == None && Outcome(l, areas, 0, l.wallStart + 1) == None;
    }
  }

  ghost predicate RejectedAt(l: Layout, areas: Areas, row: int, column: int)
    requires l.Valid()
  {
    l.HasCell(row, column) && Outcome(l, areas, row, column) != None && AcceptedBefore(l, areas, row, column)
  }

  /** A sweep that does not accept every cell has a first rejected cell. */
  lemma FirstRejectedCell(l: Layout, areas: Areas, row: int, column: int) returns (r: int, c: int)
    requires l.Valid() && l.HasCell(row, column) && Outcome(l, areas, row, column) != None
    ensures RejectedAt(l, areas, r, c)
    decreases row, column
  {
    if AcceptedBefore(l, areas, row, column) {
      r, c := row, column;
    } else {
      var r', c' :| l.HasCell(r', c') && Before(r', c', row, column) && Outcome(l, areas, r', c') != None;
      r, c := FirstRejectedCell(l, areas, r', c');
    }
  }

  /** Either every cell is accepted or there is exactly one error, that of the first rejected cell. */
  lemma OutcomeIsDetermined(l: Layout, areas: Areas)
    requires l.Valid()
    ensures AcceptedBefore(l, areas, CellRows(l), 0) <==> !exists e :: FirstRejection(l, areas, e)
    ensures forall e, e' :: FirstRejection(l, areas, e) && FirstRejection(l, areas, e') ==> e == e'
  {
    hide Outcome;
    if !AcceptedBefore(l, areas, CellRows(l), 0) {
      var row, column :| l.HasCell(row, column) && Outcome(l, areas, row, column) != None;
      var r, c := FirstRejectedCell(l, areas, row, column);
      assert FirstRejection(l, areas, Outcome(l, areas, r, c).value);
    }
    forall e | FirstRejection(l, areas, e) ensures !AcceptedBefore(l, areas, CellRows(l), 0) {
      var row, column :| l.HasCell(row, column) && Outcome(l, areas, row, column) == Some(e) && AcceptedBefore(l, areas, row, column);
      assert Before(row, column, CellRows(l), 0);
    }
    forall e, e' | FirstRejection(l, areas, e) && FirstRejection(l, areas, e') ensures e == e' {
      var r, c :| l.HasCell(r, c) && Outcome(l, areas, r, c) == Some(e) && AcceptedBefore(l, areas, r, c);
      var r', c' :| l.HasCell(r', c') && Outcome(l, areas, r', c') == Some(e') && AcceptedBefore(l, areas, r', c');
      assert !Before(r, c, r', c') && !Before(r', c', r, c);
    }
  }

  /** On a grid without degenerate cells the orientation error means exactly that two face-sharing cells disagree. */
  lemma OrientationErrorExactly(l: Layout, areas: Areas)
    requires l.Valid() && l.radial >= 2 && l.wallEnd - l.wallStart >= 3
    requires forall row, column :: l.HasCell(row, column) ==> areas(row, column) != 0.0
    ensures FirstRejection(l, areas, InconsistentOrientation) <==> NeighboursDisagree(l, areas)
  {
    hide Outcome, Opposed;
    if FirstRejection(l, areas, InconsistentOrientation) {
      var row, column :| l.HasCell(row, column) && Outcome(l, areas, row, column) == Some(InconsistentOrientation);
      OnlyOrientationFails(l, areas, row, column);
      assert HasSide(l, Side(row, column, Bottom)) && HasSide(l, Side(row, column, Left));
    }
    if NeighboursDisagree(l, areas) {
      var s :| HasSide(l, s) && Opposed(l, Direction(areas), s);
      OpposedSidesAreMetSecond(l, Direction(areas), s);
      OnlyOrientationFails(l, areas, s.row, s.column);
      var r, c := FirstRejectedCell(l, areas, s.row, s.column);
      OnlyOrientationFails(l, areas, r, c);
    }
  }

  lemma OnlyOrientationFails(l: Layout, areas: Areas, row: int, column: int)
    requires l.Valid() && l.wallEnd - l.wallStart >= 3 && l.HasCell(row, column) && areas(row, column) != 0.0
    ensures Outcome(l, areas, row, column) in {None, Some(InconsistentOrientation)}
    ensures Outcome(l, areas, row, column) == Some(InconsistentOrientation) <==>
            Opposed(l, Direction(areas), Side(row, column, Bottom)) || Opposed(l, Direction(areas), Side(row, column, Left))
  {
  }

  lemma OpposedSidesAreMetSecond(l: Layout, orient: Orientation, s: Side)
    requires Opposed(l, orient, s)
    ensures s == Side(s.row, s.column, Bottom) || s == Side(s.row, s.column, Left)
  {
  }

  // ---------- faces and cells ----------

  lemma {:induction false} CellFirstsDistinct(l: Layout, ccw: bool, row: int, column: int, i: nat)
    requires i <= 6
    ensures forall a, b :: 0 <= a < b < |CellFirsts(l, ccw, row, column, i)| ==>
              CellFirsts(l, ccw, row, column, i)[a] != CellFirsts(l, ccw, row, column, i)[b]
  {
    if i > 0 {
      var s := Side(row, column, KindAt(ccw, i - 1));
      var before := CellFirsts(l, ccw, row, column, i - 1);
      CellFirstsDistinct(l, ccw, row, column, i - 1);
      CellFirstsMembers(l, ccw, row, column, i - 1, s);
      assert s !in before;
    }
  }

  lemma {:induction false} RowFirstsDistinct(l: Layout, orient: Orientation, row: int, column: nat)
    ensures forall a, b :: 0 <= a < b < |RowFirsts(l, orient, row, column)| ==>
              RowFirsts(l, orient, row, column)[a] != RowFirsts(l, orient, row, column)[b]
  {
    if column > 0 {
      var before, last := RowFirsts(l, orient, row, column - 1), CellFirsts(l, orient(row, column - 1), row, column - 1, 6);
      RowFirstsDistinct(l, orient, row, column - 1);
      CellFirstsDistinct(l, orient(row, column - 1), row, column - 1, 6);
      hide CellFirsts;
      assert RowFirsts(l, orient, row, column) == before + last;
      forall a, b | 0 <= a < |before| && 0 <= b < |last| ensures before[a] != last[b] {
        RowFirstsMembers(l, orient, row, column - 1, before[a]);
        CellFirstsMembers(l, orient(row, column - 1), row, column - 1, 6, last[b]);
      }
    }
  }

  lemma {:induction false} FirstsDistinct(l: Layout, orient: Orientation, row: nat)
    requires l.horizontal > 0
    ensures forall a, b :: 0 <= a < b < |Firsts(l, orient, row)| ==> Firsts(l, orient, row)[a] != Firsts(l, orient, row)[b]
  {
    if row > 0 {
      var below, last := Firsts(l, orient, row - 1), RowFirsts(l, orient, row - 1, l.horizontal - 1);
      FirstsDistinct(l, orient, row - 1);
      RowFirstsDistinct(l, orient, row - 1, l.horizontal - 1);
      hide RowFirsts;
      assert Firsts(l, orient, row) == below + last;
      forall a, b | 0 <= a < |below| && 0 <= b < |last| ensures below[a] != last[b] {
        FirstsMembers(l, orient, row - 1, below[a]);
        RowFirstsMembers(l, orient, row - 1, l.horizontal - 1, last[b]);
      }
    }
  }

  /** No two faces of the mesh have the same vertices. */
  lemma FacesAreDistinct(l: Layout, orient: Orientation, i: nat, j: nat)
    requires l.Valid() && l.wallEnd - l.wallStart >= 3 && i < j < |MeshFaces(l, orient)|
    ensures !SameVertices(MeshFaces(l, orient)[i].vertices, MeshFaces(l, orient)[j].vertices)
  {
    hide Sorted, Vertices, Label, RowStart, Firsts, SameVertices;
    var sides := Firsts(l, orient, CellRows(l));
    FirstsDistinct(l, orient, CellRows(l));
    FirstsAreSides(l, orient);
    var s, t := sides[i], sides[j];
    assert s in sides && t in sides;
    FirstsMembers(l, orient, CellRows(l), s);
    FirstsMembers(l, orient, CellRows(l), t);
    KeysCoincide(l, s, t);
    if Partner(l, s).Some? {
      PartnersMirror(l, s);
    }
    KeyIgnoresDirection(l, orient(s.row, s.column), s);
    KeyIgnoresDirection(l, orient(t.row, t.column), t);
    KeyIsVertexSet(Vertices(l, orient(s.row, s.column), s), Vertices(l, orient(t.row, t.column), t));
  }

  lemma NumberOrder(l: Layout, r1: int, c1: int, r2: int, c2: int)
    requires 0 <= c1 < l.horizontal - 1 && 0 <= c2 < l.horizontal - 1 && Before(r1, c1, r2, c2)
    ensures CellNumber(l, r1, c1) < CellNumber(l, r2, c2)
  {
    if r1 < r2 {
      assert (r2 - r1) * (l.horizontal - 1) >= l.horizontal - 1 by { Scale(r2 - r1, l.horizontal - 1); }
      assert CellNumber(l, r2, c2) - CellNumber(l, r1, c1) == (r2 - r1) * (l.horizontal - 1) + c2 - c1;
    }
  }

  lemma Scale(n: int, width: int)
    requires n >= 1 && width >= 0
    ensures n * width >= width
  {
  }

  /** A face has one owner and either one higher-numbered neighbour and no patch, or exactly one patch. */
  lemma FaceIsOwned(l: Layout, orient: Orientation, j: nat)
    requires l.Valid() && j < |MeshFaces(l, orient)|
    ensures var f := MeshFaces(l, orient)[j];
            match f.neighbour
            case Some(n) => 0 <= f.owner < n < (l.radial - 1) * (l.horizontal - 1) && f.patch == None
            case None => 0 <= f.owner < (l.radial - 1) * (l.horizontal - 1) && f.patch.Some?
  {
    hide Sorted, Vertices, Label, RowStart, Firsts, CellNumber;
    var sides := Firsts(l, orient, CellRows(l));
    FirstsAreSides(l, orient);
    var s := sides[j];
    assert s in sides;
    FirstsMembers(l, orient, CellRows(l), s);
    SidesAreMatchedOrPatched(l, s);
    NumberInRange(l, s.row, s.column);
    if Partner(l, s).Some? {
      var p := Partner(l, s).value;
      PartnersMirror(l, s);
      NumberInRange(l, p.row, p.column);
      NumberOrder(l, s.row, s.column, p.row, p.column);
    }
  }

  lemma NumberInRange(l: Layout, row: int, column: int)
    requires l.HasCell(row, column)
    ensures 0 <= CellNumber(l, row, column) < (l.radial - 1) * (l.horizontal - 1)
  {
    var width := l.horizontal - 1;
    assert CellNumber(l, row, column) == row * width + column;
    assert row * width + width == (row + 1) * width;
    MultipleOrder(row + 1, l.radial - 1, width);
    MultipleOrder(0, row, width);
  }

  lemma MultipleOrder(a: int, b: int, width: int)
    requires a <= b && width >= 0
    ensures a * width <= b * width
  {
  }

  /** Every side of every cell is exactly one face, and that face names the cell as owner or neighbour. */
  lemma EverySideIsAFace(l: Layout, orient: Orientation, s: Side) returns (j: nat)
    requires l.Valid() && HasSide(l, s) && l.wallEnd - l.wallStart >= 3
    ensures j < |MeshFaces(l, orient)|
    ensures var f := MeshFaces(l, orient)[j];
            SameVertices(f.vertices, Vertices(l, orient(s.row, s.column), s))
            && if First(l, s) then f == FinalFace(l, orient, s) && f.owner == CellNumber(l, s.row, s.column)
               else Partner(l, s).Some? && HasSide(l, Partner(l, s).value) && f == FinalFace(l, orient, Partner(l, s).value)
                    && f.neighbour == Some(CellNumber(l, s.row, s.column))
    ensures forall k :: 0 <= k < |MeshFaces(l, orient)| && k != j ==>
              !SameVertices(MeshFaces(l, orient)[k].vertices, Vertices(l, orient(s.row, s.column), s))
  {
    hide Sorted, Vertices, Label, RowStart, Firsts, CellNumber, SameVertices;
    SidesAreMatchedOrPatched(l, s);
    if Partner(l, s).Some? {
      PartnersMirror(l, s);
    }
    var f := if First(l, s) then s else Partner(l, s).value;
    var sides := Firsts(l, orient, CellRows(l));
    FirstsMembers(l, orient, CellRows(l), f);
    FirstsAreSides(l, orient);
    j :| 0 <= j < |sides| && sides[j] == f;
    var u, v := Vertices(l, orient(f.row, f.column), f), Vertices(l, orient(s.row, s.column), s);
    KeysCoincide(l, f, s);
    KeyIgnoresDirection(l, orient(f.row, f.column), f);
    KeyIgnoresDirection(l, orient(s.row, s.column), s);
    KeyIsVertexSet(u, v);
    forall k | 0 <= k < |MeshFaces(l, orient)| && k != j
      ensures !SameVertices(MeshFaces(l, orient)[k].vertices, v)
    {
      FacesAreDistinct(l, orient, if k < j then k else j, if k < j then j else k);
      SameVerticesIsEquivalence(MeshFaces(l, orient)[k].vertices, v, u);
    }
  }

  lemma SameVerticesIsEquivalence(p: Quad, q: Quad, r: Quad)
    ensures SameVertices(p, q) <==> SameVertices(q, p)
    ensures SameVertices(p, q) && SameVertices(r, q) ==> SameVertices(p, r) && SameVertices(r, p)
  {
  }
}

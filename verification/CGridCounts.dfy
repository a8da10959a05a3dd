/** The mesh's face lists: strict ordering of the internal faces, exact counts, and contiguous patch ranges. */
module CGridCounts {
  import opened Wrappers
  import opened CGridTopology
  import opened CGridMesh
  import opened CGridTheorems

  // ---------- the internal list ----------

  predicate SamePair(f: Face, g: Face) { f.owner == g.owner && f.neighbour == g.neighbour }

  ghost predicate PairsDistinct(faces: seq<Face>) {
    forall i, j :: 0 <= i < j < |faces| && faces[i].neighbour.Some? && faces[j].neighbour.Some? ==> !SamePair(faces[i], faces[j])
  }

  ghost predicate StrictlyOrdered(faces: seq<Face>) {
    forall i, j :: 0 <= i < j < |faces| ==> Precedes(faces[i], faces[j])
  }

  lemma {:induction false} PairedMembers(faces: seq<Face>, f: Face)
    ensures f in Paired(faces) <==> f in faces && f.neighbour.Some?
  {
    if faces != [] {
      PairedMembers(faces[..|faces| - 1], f);
      assert faces == faces[..|faces| - 1] + [faces[|faces| - 1]];
    }
  }

  lemma {:induction false} PairedKeepsDistinct(faces: seq<Face>)
    requires PairsDistinct(faces)
    ensures PairsDistinct(Paired(faces))
    ensures forall f :: f in Paired(faces) ==> f.neighbour.Some?
  {
    if faces != [] {
      var before, last := faces[..|faces| - 1], faces[|faces| - 1];
      PairedKeepsDistinct(before);
      forall f | f in Paired(before) && last.neighbour.Some? ensures !SamePair(f, last) {
        PairedMembers(before, f);
        var k :| 0 <= k < |before| && before[k] == f;
        assert faces[k] == f;
      }
    }
  }

  lemma {:induction false} InsertedAdds(f: Face, faces: seq<Face>)
    requires f.neighbour.Some? && forall g :: g in faces ==> g.neighbour.Some?
    ensures multiset(Inserted(f, faces)) == multiset(faces) + multiset{f}
  {
    if faces != [] {
      assert faces == faces[..|faces| - 1] + [faces[|faces| - 1]];
      hide Precedes;
      InsertedAdds(f, faces[..|faces| - 1]);
    }
  }

  lemma AppendedInOrder(faces: seq<Face>, last: Face)
    requires StrictlyOrdered(faces) && last.neighbour.Some? && forall g :: g in faces ==> g.neighbour.Some? && Precedes(g, last)
    ensures StrictlyOrdered(faces + [last])
  {
  }

  lemma {:induction false} InsertedInOrder(f: Face, faces: seq<Face>)
    requires StrictlyOrdered(faces) && f.neighbour.Some?
    requires forall g :: g in faces ==> g.neighbour.Some? && !SamePair(f, g)
    ensures StrictlyOrdered(Inserted(f, faces))
    ensures multiset(Inserted(f, faces)) == multiset(faces) + multiset{f}
  {
    InsertedAdds(f, faces);
    if faces != [] {
      var before, last := faces[..|faces| - 1], faces[|faces| - 1];
      assert faces == before + [last];
      assert last in faces;
      if Precedes(f, last) {
        InsertedInOrder(f, before);
        forall g | g in Inserted(f, before) ensures g.neighbour.Some? && Precedes(g, last) {
          assert g in multiset(before) + multiset{f};
        }
        AppendedInOrder(Inserted(f, before), last);
      } else {
        assert Precedes(last, f);
        forall g | g in faces ensures Precedes(g, f) {
          assert g != last ==> g in before;
        }
        AppendedInOrder(faces, f);
      }
    }
  }

  lemma {:induction false} SortIsStrict(faces: seq<Face>)
    requires PairsDistinct(faces) && forall f :: f in faces ==> f.neighbour.Some?
    ensures StrictlyOrdered(SortedByCells(faces)) && multiset(SortedByCells(faces)) == multiset(faces)
  {
    if faces != [] {
      var before, last := faces[..|faces| - 1], faces[|faces| - 1];
      assert faces == before + [last];
      SortIsStrict(before);
      forall g | g in SortedByCells(before) ensures g.neighbour.Some? && !SamePair(last, g) {
        assert g in multiset(before);
        var k :| 0 <= k < |before| && before[k] == g;
        assert faces[k] == g;
      }
      InsertedInOrder(last, SortedByCells(before));
    }
  }

  /** Two cells share at most one face. */
  lemma CellPairsAreDistinct(l: Layout, orient: Orientation)
    requires l.Valid() && l.wallEnd - l.wallStart >= 3
    ensures PairsDistinct(MeshFaces(l, orient))
  {
    hide Sorted, Vertices, Label, RowStart, Firsts, CellNumber;
    var sides := Firsts(l, orient, CellRows(l));
    var faces := MeshFaces(l, orient);
    FirstsDistinct(l, orient, CellRows(l));
    FirstsAreSides(l, orient);
    forall i, j | 0 <= i < j < |faces| && faces[i].neighbour.Some? && faces[j].neighbour.Some?
      ensures !SamePair(faces[i], faces[j])
    {
      var s, t := sides[i], sides[j];
      assert s in sides && t in sides;
      FirstsMembers(l, orient, CellRows(l), s);
      FirstsMembers(l, orient, CellRows(l), t);
      PartnersMirror(l, s);
      PartnersMirror(l, t);
      NumbersDiffer(l, s.row, s.column, t.row, t.column);
      var p, q := Partner(l, s).value, Partner(l, t).value;
      NumbersDiffer(l, p.row, p.column, q.row, q.column);
    }
  }

  lemma NumbersDiffer(l: Layout, r1: int, c1: int, r2: int, c2: int)
    requires 0 <= c1 < l.horizontal - 1 && 0 <= c2 < l.horizontal - 1
    ensures CellNumber(l, r1, c1) == CellNumber(l, r2, c2) <==> r1 == r2 && c1 == c2
  {
    if Before(r1, c1, r2, c2) {
      NumberOrder(l, r1, c1, r2, c2);
    } else if Before(r2, c2, r1, c1) {
      NumberOrder(l, r2, c2, r1, c1);
    }
  }

  /** The internal list holds exactly the paired faces, strictly increasing by (owner, neighbour). */
  lemma InternalIsOrdered(l: Layout, orient: Orientation)
    requires l.Valid() && l.wallEnd - l.wallStart >= 3
    ensures var paired := Paired(MeshFaces(l, orient));
            StrictlyOrdered(SortedByCells(paired)) && multiset(SortedByCells(paired)) == multiset(paired)
            && |SortedByCells(paired)| == |paired|
  {
    hide MeshFaces, SortedByCells;
    var paired := Paired(MeshFaces(l, orient));
    CellPairsAreDistinct(l, orient);
    PairedKeepsDistinct(MeshFaces(l, orient));
    SortIsStrict(paired);
    assert |multiset(SortedByCells(paired))| == |SortedByCells(paired)| && |multiset(paired)| == |paired|;
  }

  // ---------- counting ----------

  /** Faces without a patch are paired; the others are listed on their patch. */
  function ListSize(faces: seq<Face>, patch: Option<Patch>): nat {
    match patch
    case None => |Paired(faces)|
    case Some(p) => |OnPatch(faces, p)|
  }

  function Tally(l: Layout, sides: seq<Side>, patch: Option<Patch>): nat {
    if sides == [] then 0
    else Tally(l, sides[..|sides| - 1], patch) + if PatchOf(l, sides[|sides| - 1]) == patch then 1 else 0
  }

  lemma {:induction false} TallyConcat(l: Layout, a: seq<Side>, b: seq<Side>, patch: Option<Patch>)
    ensures Tally(l, a + b, patch) == Tally(l, a, patch) + Tally(l, b, patch)
  {
    if b == [] {
      assert a + b == a;
    } else {
      assert (a + b)[..|a + b| - 1] == a + b[..|b| - 1];
      TallyConcat(l, a, b[..|b| - 1], patch);
    }
  }

  lemma {:induction false} ListSizeIsTally(l: Layout, orient: Orientation, sides: seq<Side>, patch: Option<Patch>)
    requires l.Valid() && AllSides(l, sides) && forall s :: s in sides ==> First(l, s)
    ensures ListSize(FinalFaces(l, orient, sides), patch) == Tally(l, sides, patch)
  {
    if sides != [] {
      hide Vertices, CellNumber;
      var before, last := sides[..|sides| - 1], sides[|sides| - 1];
      assert AllSides(l, before);
      ListSizeIsTally(l, orient, before, patch);
      assert last in sides;
      SidesAreMatchedOrPatched(l, last);
      assert FinalFaces(l, orient, sides)[..|sides| - 1] == FinalFaces(l, orient, before);
    }
  }

  function One(b: bool): nat { if b then 1 else 0 }

  /** How many faces of one class a cell contributes. */
  function CellTally(l: Layout, row: int, column: int, patch: Option<Patch>): nat {
    match patch
    case None => One(column < l.horizontal - 2) + One(row < l.radial - 2) + One(row == 0 && column < l.wallStart)
    case Some(FrontAndBack) => 2
    case Some(Airfoil) => One(row == 0 && l.wallStart <= column < l.wallEnd)
    case Some(Inlet) => One(row == l.radial - 2)
    case Some(Outlet) => One(column == 0) + One(column == l.horizontal - 2)
  }

  lemma CellFirstsStep(l: Layout, ccw: bool, row: int, column: int, i: nat, patch: Option<Patch>)
    requires i < 6
    ensures Tally(l, CellFirsts(l, ccw, row, column, i + 1), patch) ==
            Tally(l, CellFirsts(l, ccw, row, column, i), patch) + Met(l, ccw, row, column, i, patch)
  {
    var s := Side(row, column, KindAt(ccw, i));
    var before := CellFirsts(l, ccw, row, column, i);
    if First(l, s) {
      assert CellFirsts(l, ccw, row, column, i + 1) == before + [s];
      assert (before + [s])[..|before|] == before;
    } else {
      assert CellFirsts(l, ccw, row, column, i + 1) == before;
    }
  }

  function Met(l: Layout, ccw: bool, row: int, column: int, i: nat, patch: Option<Patch>): nat
    requires i < 6
  {
    var s := Side(row, column, KindAt(ccw, i));
    One(First(l, s) && PatchOf(l, s) == patch)
  }

  lemma SixPositions(l: Layout, ccw: bool, row: int, column: int, patch: Option<Patch>)
    requires l.Valid() && l.HasCell(row, column)
    ensures Met(l, ccw, row, column, 0, patch) + Met(l, ccw, row, column, 1, patch) + Met(l, ccw, row, column, 2, patch)
            + Met(l, ccw, row, column, 3, patch) + Met(l, ccw, row, column, 4, patch) + Met(l, ccw, row, column, 5, patch)
            == CellTally(l, row, column, patch)
  {
    match patch
    case None =>
    case Some(FrontAndBack) =>
    case Some(Airfoil) =>
    case Some(Inlet) =>
    case Some(Outlet) =>
  }

  lemma CellTallied(l: Layout, ccw: bool, row: int, column: int, patch: Option<Patch>)
    requires l.Valid() && l.HasCell(row, column)
    ensures Tally(l, CellFirsts(l, ccw, row, column, 6), patch) == CellTally(l, row, column, patch)
  {
    hide CellFirsts, Tally, Met, CellTally;
    NoFirstsYet(l, ccw, row, column, patch);
    CellFirstsStep(l, ccw, row, column, 0, patch);
    CellFirstsStep(l, ccw, row, column, 1, patch);
    CellFirstsStep(l, ccw, row, column, 2, patch);
    CellFirstsStep(l, ccw, row, column, 3, patch);
    CellFirstsStep(l, ccw, row, column, 4, patch);
    CellFirstsStep(l, ccw, row, column, 5, patch);
    SixPositions(l, ccw, row, column, patch);
  }

  lemma NoFirstsYet(l: Layout, ccw: bool, row: int, column: int, patch: Option<Patch>)
    ensures Tally(l, CellFirsts(l, ccw, row, column, 0), patch) == 0
  {
  }

  function Least(a: int, b: int): int { if a <= b then a else b }

  /** How many faces of one class the first `column` cells of a row contribute. */
  function RowTally(l: Layout, row: int, column: int, patch: Option<Patch>): int {
    match patch
    case None =>
      Least(column, l.horizontal - 2) + (if row < l.radial - 2 then column else 0) + (if row == 0 then Least(column, l.wallStart) else 0)
    case Some(FrontAndBack) => 2 * column
    case Some(Airfoil) => if row != 0 || column < l.wallStart then 0 else Least(column, l.wallEnd) - l.wallStart
    case Some(Inlet) => if row == l.radial - 2 then column else 0
    case Some(Outlet) => One(column > 0) + One(column >= l.horizontal - 1)
  }

  lemma RowTallyStep(l: Layout, row: int, column: nat, patch: Option<Patch>)
    requires l.Valid() && l.HasCell(row, column)
    ensures RowTally(l, row, column + 1, patch) == RowTally(l, row, column, patch) + CellTally(l, row, column, patch)
  {
  }

  lemma {:induction false} RowTallied(l: Layout, orient: Orientation, row: int, column: nat, patch: Option<Patch>)
    requires l.Valid() && 0 <= row < l.radial - 1 && column <= l.horizontal - 1
    ensures Tally(l, RowFirsts(l, orient, row, column), patch) == RowTally(l, row, column, patch)
  {
    if column > 0 {
      RowTallyStep(l, row, column - 1, patch);
      hide CellFirsts, RowTally, CellTally, Tally;
      RowTallied(l, orient, row, column - 1, patch);
      CellTallied(l, orient(row, column - 1), row, column - 1, patch);
      TallyConcat(l, RowFirsts(l, orient, row, column - 1), CellFirsts(l, orient(row, column - 1), row, column - 1, 6), patch);
    }
  }

  /** How many faces of one class the rows below `row` contribute. */
  function GridTally(l: Layout, row: int, patch: Option<Patch>): int {
    match patch
    case None => row * (l.horizontal - 2) + Least(row, l.radial - 2) * (l.horizontal - 1) + (if row > 0 then l.wallStart else 0)
    case Some(FrontAndBack) => 2 * (row * (l.horizontal - 1))
    case Some(Airfoil) => if row > 0 then l.wallEnd - l.wallStart else 0
    case Some(Inlet) => if row >= l.radial - 1 then l.horizontal - 1 else 0
    case Some(Outlet) => 2 * row
  }

  lemma GridTallyStep(l: Layout, row: nat, patch: Option<Patch>)
    requires l.Valid() && l.radial >= 2 && row < l.radial - 1
    ensures GridTally(l, row + 1, patch) == GridTally(l, row, patch) + RowTally(l, row, l.horizontal - 1, patch)
  {
    AddOne(row, l.horizontal - 2);
    AddOne(row, l.horizontal - 1);
    match patch
    case None => assert row >= l.radial - 2 ==> Least(row + 1, l.radial - 2) == Least(row, l.radial - 2);
    case Some(_) =>
  }

  lemma AddOne(n: int, width: int)
    ensures (n + 1) * width == n * width + width
  {
  }

  lemma GridTallyStart(l: Layout, patch: Option<Patch>)
    requires l.Valid() && l.radial >= 2
    ensures GridTally(l, 0, patch) == 0
  {
  }

  lemma FirstsTallyStep(l: Layout, orient: Orientation, row: nat, patch: Option<Patch>)
    requires l.Valid() && row < l.radial - 1
    ensures Tally(l, Firsts(l, orient, row + 1), patch) == Tally(l, Firsts(l, orient, row), patch) + RowTally(l, row, l.horizontal - 1, patch)
  {
    hide RowTally, Tally, RowFirsts;
    RowTallied(l, orient, row, l.horizontal - 1, patch);
    TallyConcat(l, Firsts(l, orient, row), RowFirsts(l, orient, row, l.horizontal - 1), patch);
    assert Firsts(l, orient, row + 1) == Firsts(l, orient, row) + RowFirsts(l, orient, row, l.horizontal - 1);
  }

  lemma NoRowsYet(l: Layout, orient: Orientation, patch: Option<Patch>)
    requires l.Valid()
    ensures Tally(l, Firsts(l, orient, 0), patch) == 0
  {
  }

  lemma {:induction false} GridTallied(l: Layout, orient: Orientation, row: nat, patch: Option<Patch>)
    requires l.Valid() && l.radial >= 2 && row <= l.radial - 1
    ensures Tally(l, Firsts(l, orient, row), patch) == GridTally(l, row, patch)
  {
    hide RowTally, GridTally, Tally, Firsts;
    if row == 0 {
      NoRowsYet(l, orient, patch);
      GridTallyStart(l, patch);
    } else {
      GridTallied(l, orient, row - 1, patch);
      FirstsTallyStep(l, orient, row - 1, patch);
      GridTallyStep(l, row - 1, patch);
    }
  }

  /** Exact size of every face list of a grid with R rows and H columns. */
  lemma FaceCounts(l: Layout, orient: Orientation)
    requires l.Valid() && l.radial >= 2
    ensures var faces, R, H := MeshFaces(l, orient), l.radial, l.horizontal;
            && |Paired(faces)| == (R - 2) * (H - 1) + (R - 1) * (H - 2) + l.wallStart
            && |OnPatch(faces, Inlet)| == H - 1
            && |OnPatch(faces, Outlet)| == 2 * (R - 1)
            && |OnPatch(faces, Airfoil)| == l.wallEnd - l.wallStart
            && |OnPatch(faces, FrontAndBack)| == 2 * ((R - 1) * (H - 1))
  {
    hide Paired, OnPatch, Firsts, Tally;
    FirstsAreSides(l, orient);
    var sides := Firsts(l, orient, CellRows(l));
    forall s | s in sides ensures First(l, s) {
      FirstsMembers(l, orient, CellRows(l), s);
    }
    forall patch: Option<Patch> ensures ListSize(MeshFaces(l, orient), patch) == GridTally(l, l.radial - 1, patch) {
      ListSizeIsTally(l, orient, sides, patch);
      GridTallied(l, orient, l.radial - 1, patch);
    }
    assert ListSize(MeshFaces(l, orient), None) == GridTally(l, l.radial - 1, None);
    assert ListSize(MeshFaces(l, orient), Some(Inlet)) == GridTally(l, l.radial - 1, Some(Inlet));
    assert ListSize(MeshFaces(l, orient), Some(Outlet)) == GridTally(l, l.radial - 1, Some(Outlet));
    assert ListSize(MeshFaces(l, orient), Some(Airfoil)) == GridTally(l, l.radial - 1, Some(Airfoil));
    assert ListSize(MeshFaces(l, orient), Some(FrontAndBack)) == GridTally(l, l.radial - 1, Some(FrontAndBack));
  }

  /** The planar plane has R*H - wallStart - 1 points once the wake is welded. */
  lemma PlaneCountExactly(l: Layout, row: nat)
    requires l.Valid() && row >= 1
    ensures RowStart(l, row) == row * l.horizontal - l.wallStart - 1
    decreases row
  {
    if row > 1 {
      PlaneCountExactly(l, row - 1);
      assert row * l.horizontal == (row - 1) * l.horizontal + l.horizontal;
    }
  }

  /** Every cell has six sides: twice the internal faces plus the boundary faces. */
  lemma SixSidesPerCell(l: Layout, orient: Orientation, grid: seq<seq<Point2>>, chord: real, spanChords: real, m: Mesh)
    requires l.Valid() && l.radial >= 2 && l.wallEnd - l.wallStart >= 3 && Rectangular(l, grid)
    requires orient == Direction(GridAreas(l, grid, chord)) && MeshOf(l, grid, chord, spanChords, m)
    ensures 6 * m.cells == 2 * |m.internal| + |m.boundary[Inlet]| + |m.boundary[Outlet]| + |m.boundary[Airfoil]| + |m.boundary[FrontAndBack]|
    ensures |m.points| == 2 * (l.radial * l.horizontal - l.wallStart - 1)
  {
    hide MeshFaces, SortedByCells, Paired, OnPatch, GridAreas, LeastVolume, Label, RowStart, CentresOf;
    FaceCounts(l, orient);
    InternalIsOrdered(l, orient);
    PlaneCountExactly(l, l.radial);
    assert m.cells == (l.horizontal - 1) * (l.radial - 1);
    CountsBalance(l.radial - 2, l.horizontal - 1, l.wallStart);
  }

  lemma CountsBalance(n: int, width: int, wake: int)
    ensures 6 * (width * (n + 1)) == 2 * (n * width + (n + 1) * (width - 1) + wake) + (width + 2 * (n + 1) + (width - 2 * wake) + 2 * ((n + 1) * width))
  {
    AddOne(n, width);
    assert (n + 1) * (width - 1) == (n + 1) * width - (n + 1);
  }

  // ---------- patch ranges ----------

  datatype PatchRange = PatchRange(patch: Patch, count: nat, start: nat)

  function Concatenated(m: Mesh, k: nat): seq<Face>
    requires k <= |PATCHES| && forall p: Patch :: p in m.boundary
  {
    if k == 0 then m.internal else Concatenated(m, k - 1) + m.boundary[PATCHES[k - 1]]
  }

  function RangeOf(m: Mesh, k: nat): PatchRange
    requires k < |PATCHES| && forall p: Patch :: p in m.boundary
  {
    PatchRange(PATCHES[k], |m.boundary[PATCHES[k]]|, |Concatenated(m, k)|)
  }

  /** Face ordering for export: internal faces first, then each patch as one contiguous range. */
  method OrderFaces(m: Mesh) returns (ordered: seq<Face>, ranges: seq<PatchRange>)
    requires forall p: Patch :: p in m.boundary
    ensures ordered == m.internal + m.boundary[Inlet] + m.boundary[Outlet] + m.boundary[Airfoil] + m.boundary[FrontAndBack]
    ensures |ranges| == 4 && forall k :: 0 <= k < 4 ==> ranges[k] == RangeOf(m, k)
  {
    ordered := m.internal;
    ranges := [];
    var start := |m.internal|;
    for k := 0 to |PATCHES|
      invariant ordered == Concatenated(m, k) && start == |ordered| && |ranges| == k
      invariant forall j :: 0 <= j < k ==> ranges[j] == RangeOf(m, j)
    {
      var rows := m.boundary[PATCHES[k]];
      ranges := ranges + [PatchRange(PATCHES[k], |rows|, start)];
      ordered := ordered + rows;
      start := start + |rows|;
    }
    WholeOrder(m);
  }

  lemma WholeOrder(m: Mesh)
    requires forall p: Patch :: p in m.boundary
    ensures Concatenated(m, 4) == m.internal + m.boundary[Inlet] + m.boundary[Outlet] + m.boundary[Airfoil] + m.boundary[FrontAndBack]
  {
    assert Concatenated(m, 3) == Concatenated(m, 2) + m.boundary[Airfoil];
    assert Concatenated(m, 2) == Concatenated(m, 1) + m.boundary[Outlet];
    assert Concatenated(m, 1) == Concatenated(m, 0) + m.boundary[Inlet];
  }

  lemma {:induction false} LaterFacesKeepRanges(m: Mesh, j: nat, k: nat)
    requires j <= k <= |PATCHES| && forall p: Patch :: p in m.boundary
    ensures |Concatenated(m, j)| <= |Concatenated(m, k)| && Concatenated(m, k)[..|Concatenated(m, j)|] == Concatenated(m, j)
  {
    if j < k {
      LaterFacesKeepRanges(m, j, k - 1);
    }
  }

  /** The written ranges partition the boundary: consecutive, complete, and each one lists its own patch. */
  lemma RangesPartitionBoundary(m: Mesh, k: nat)
    requires k < |PATCHES| && forall p: Patch :: p in m.boundary
    ensures RangeOf(m, k).start + RangeOf(m, k).count <= |Concatenated(m, |PATCHES|)|
    ensures var r := RangeOf(m, k);
            && r.start + r.count == (if k + 1 < |PATCHES| then RangeOf(m, k + 1).start else |Concatenated(m, |PATCHES|)|)
            && (k == 0 ==> r.start == |m.internal|)
            && Concatenated(m, |PATCHES|)[r.start..r.start + r.count] == m.boundary[r.patch]
  {
    var all, upTo, before := Concatenated(m, |PATCHES|), Concatenated(m, k + 1), Concatenated(m, k);
    LaterFacesKeepRanges(m, k + 1, |PATCHES|);
    assert upTo == before + m.boundary[PATCHES[k]];
    assert all[|before|..|upTo|] == all[..|upTo|][|before|..] == upTo[|before|..];
  }
}

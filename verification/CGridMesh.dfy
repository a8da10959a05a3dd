/** Building the finite-volume mesh: welding labels, pairing faces in a dictionary, and collecting patches. */
module CGridMesh {
  import opened Arithmetic
  import opened Wrappers
  import opened CGridTopology

  datatype Result<+T> = Ok(value: T) | Err(error: Error)

  datatype Error =
    | InvalidSeamBounds
    | InvalidDimensions
    | SeamMismatch
    | DegenerateCell
    | InvalidOwnership
    | InconsistentOrientation
    | UnpairedFace

  datatype Point2 = Point2(x: real, y: real)

  datatype Point3 = Point3(x: real, y: real, z: real)

  datatype Face = Face(vertices: Quad, owner: int, neighbour: Option<int>, patch: Option<Patch>)

  datatype Mesh = Mesh(points: seq<Point3>, internal: seq<Face>, boundary: map<Patch, seq<Face>>,
                       centres: seq<Point3>, cells: int, minimumVolume: Option<real>)

  /** The source keeps faces in an insertion-ordered dictionary; `order` is that insertion order. */
  datatype FaceTable = FaceTable(faces: map<Quad, Face>, order: seq<Quad>, minimumVolume: Option<real>)

  /** Whether a cell's quadrilateral keeps the grid's direction. */
  type Orientation = (int, int) -> bool

  // ---------- geometry of one cell ----------

  function Scaled(p: Point2, chord: real): Point2 { Point2(p.x * chord, p.y * chord) }

  function Cross(p: Point2, q: Point2): real { p.x * q.y - p.y * q.x }

  function Shoelace(a: Point2, b: Point2, c: Point2, d: Point2): real {
    (Cross(a, b) + Cross(b, c) + Cross(c, d) + Cross(d, a)) / 2.0
  }

  function MomentX(p: Point2, q: Point2): real { (p.x + q.x) * Cross(p, q) }

  function MomentY(p: Point2, q: Point2): real { (p.y + q.y) * Cross(p, q) }

  /** The centroid of a quadrilateral, at half the depth of its prism. */
  function Centroid(a: Point2, b: Point2, c: Point2, d: Point2, depth: real): Point3
    requires Shoelace(a, b, c, d) != 0.0
  {
    var k := 6.0 * Shoelace(a, b, c, d);
    Point3(Over(MomentX(a, b) + MomentX(b, c) + MomentX(c, d) + MomentX(d, a), k),
           Over(MomentY(a, b) + MomentY(b, c) + MomentY(c, d) + MomentY(d, a), k), depth / 2.0)
  }

  /** The signed area of every cell. */
  type Areas = (int, int) -> real

  ghost function Direction(areas: Areas): Orientation {
    (row, column) => areas(row, column) > 0.0
  }

  function Volume(areas: Areas, depth: real, row: int, column: int): real {
    Absolute(areas(row, column)) * depth
  }

  // ---------- what the sweep should do, cell by cell ----------

  /** A side met second whose cell is oriented against the cell met first. */
  predicate Opposed(l: Layout, orient: Orientation, s: Side) {
    Partner(l, s).Some? && !First(l, s)
    && orient(s.row, s.column) != orient(Partner(l, s).value.row, Partner(l, s).value.column)
  }

  /** The error, if any, that processing this cell raises once all earlier cells have been accepted. */
  ghost function Outcome(l: Layout, areas: Areas, row: int, column: int): Option<Error>
    requires l.Valid() && l.HasCell(row, column)
  {
    if areas(row, column) == 0.0 || (l.wallEnd == l.wallStart + 1 && row == 0 && column == l.wallStart) then
      Some(DegenerateCell)
    else if l.wallEnd == l.wallStart + 2 && row == 0 && column == l.wallStart + 1 then
      Some(InvalidOwnership)
    else if Opposed(l, Direction(areas), Side(row, column, Bottom)) || Opposed(l, Direction(areas), Side(row, column, Left)) then
      Some(InconsistentOrientation)
    else
      None
  }

  predicate Before(r1: int, c1: int, r2: int, c2: int) { r1 < r2 || (r1 == r2 && c1 < c2) }

  ghost predicate AcceptedBefore(l: Layout, areas: Areas, row: int, column: int)
    requires l.Valid()
  {
    forall r, c :: l.HasCell(r, c) && Before(r, c, row, column) ==> Outcome(l, areas, r, c) == None
  }

  /** The first cell the sweep rejects, and why. */
  ghost predicate FirstRejection(l: Layout, areas: Areas, e: Error)
    requires l.Valid()
  {
    exists row, column :: l.HasCell(row, column) && Outcome(l, areas, row, column) == Some(e) && AcceptedBefore(l, areas, row, column)
  }

  // ---------- the sweep's progress ----------

  /** Sides processed once the sweep stands before position `i` of the cell at (row, column). */
  predicate Done(row: int, column: int, ccw: bool, i: int, s: Side) {
    Before(s.row, s.column, row, column) || (s.row == row && s.column == column && Position(ccw, s.kind) < i)
  }

  function CellNumber(l: Layout, row: int, column: int): int { row * (l.horizontal - 1) + column }

  /** The stored face of a side met first, its neighbour filled in once its partner has been processed. */
  ghost function FaceAt(l: Layout, orient: Orientation, s: Side, paired: bool): Face
    requires l.Valid() && HasSide(l, s)
  {
    Face(Vertices(l, orient(s.row, s.column), s), CellNumber(l, s.row, s.column),
         if paired && Partner(l, s).Some? then Some(CellNumber(l, Partner(l, s).value.row, Partner(l, s).value.column)) else None,
         PatchOf(l, s))
  }

  ghost predicate PartnerDone(l: Layout, row: int, column: int, ccw: bool, i: int, s: Side) {
    Partner(l, s).Some? && Done(row, column, ccw, i, Partner(l, s).value)
  }

  /** First-met sides of one cell, in processing order. */
  ghost function CellFirsts(l: Layout, ccw: bool, row: int, column: int, i: nat): seq<Side>
    requires i <= 6
  {
    if i == 0 then []
    else
      var s := Side(row, column, KindAt(ccw, i - 1));
      CellFirsts(l, ccw, row, column, i - 1) + if First(l, s) then [s] else []
  }

  ghost function RowFirsts(l: Layout, orient: Orientation, row: int, column: nat): seq<Side> {
    if column == 0 then []
    else RowFirsts(l, orient, row, column - 1) + CellFirsts(l, orient(row, column - 1), row, column - 1, 6)
  }

  /** All first-met sides below `row`: the dictionary's insertion order. */
  ghost function Firsts(l: Layout, orient: Orientation, row: nat): seq<Side>
    requires l.horizontal > 0
  {
    if row == 0 then [] else Firsts(l, orient, row - 1) + RowFirsts(l, orient, row - 1, l.horizontal - 1)
  }

  ghost function FirstsUpTo(l: Layout, orient: Orientation, row: nat, column: nat, i: nat): seq<Side>
    requires l.horizontal > 0 && i <= 6
  {
    Firsts(l, orient, row) + RowFirsts(l, orient, row, column) + CellFirsts(l, orient(row, column), row, column, i)
  }

  lemma {:induction false} CellFirstsMembers(l: Layout, ccw: bool, row: int, column: int, i: nat, s: Side)
    requires i <= 6
    ensures s in CellFirsts(l, ccw, row, column, i) <==>
            s.row == row && s.column == column && First(l, s) && Position(ccw, s.kind) < i
  {
    if i > 0 {
      CellFirstsMembers(l, ccw, row, column, i - 1, s);
      assert KindAt(ccw, i - 1) == s.kind <==> Position(ccw, s.kind) == i - 1;
    }
  }

  lemma {:induction false} RowFirstsMembers(l: Layout, orient: Orientation, row: int, column: nat, s: Side)
    ensures s in RowFirsts(l, orient, row, column) <==> s.row == row && 0 <= s.column < column && First(l, s)
  {
    hide *;
    RowFirstsStep(l, orient, row, column);
    if column > 0 {
      var before, last := RowFirsts(l, orient, row, column - 1), CellFirsts(l, orient(row, column - 1), row, column - 1, 6);
      PositionBelowSix(orient(row, column - 1), s.kind);
      RowFirstsMembers(l, orient, row, column - 1, s);
      CellFirstsMembers(l, orient(row, column - 1), row, column - 1, 6, s);
      assert s in before + last <==> s in before || s in last;
    }
  }

  lemma RowFirstsStep(l: Layout, orient: Orientation, row: int, column: nat)
    ensures column == 0 ==> RowFirsts(l, orient, row, column) == []
    ensures column > 0 ==> RowFirsts(l, orient, row, column)
                           == RowFirsts(l, orient, row, column - 1) + CellFirsts(l, orient(row, column - 1), row, column - 1, 6)
  {
    hide CellFirsts;
  }

  lemma PositionBelowSix(ccw: bool, kind: Kind)
    ensures 0 <= Position(ccw, kind) < 6
  {
  }

  lemma {:induction false} FirstsMembers(l: Layout, orient: Orientation, row: nat, s: Side)
    requires l.horizontal > 0
    ensures s in Firsts(l, orient, row) <==> 0 <= s.row < row && 0 <= s.column < l.horizontal - 1 && First(l, s)
  {
    if row > 0 {
      FirstsMembers(l, orient, row - 1, s);
      RowFirstsMembers(l, orient, row - 1, l.horizontal - 1, s);
      var below, last := Firsts(l, orient, row - 1), RowFirsts(l, orient, row - 1, l.horizontal - 1);
      assert Firsts(l, orient, row) == below + last;
      assert s in below + last <==> s in below || s in last;
    }
  }

  /** The dictionary holds exactly the first-met sides processed so far. */
  lemma FirstsUpToMembers(l: Layout, orient: Orientation, row: nat, column: nat, i: nat, s: Side)
    requires l.horizontal > 0 && i <= 6 && column < l.horizontal - 1
    ensures s in FirstsUpTo(l, orient, row, column, i) <==>
            0 <= s.row && 0 <= s.column < l.horizontal - 1 && First(l, s) && Done(row, column, orient(row, column), i, s)
  {
    FirstsMembers(l, orient, row, s);
    RowFirstsMembers(l, orient, row, column, s);
    CellFirstsMembers(l, orient(row, column), row, column, i, s);
  }

  // ---------- the dictionary invariant ----------

  ghost predicate TableHolds(l: Layout, orient: Orientation, t: FaceTable, sides: seq<Side>, row: int, column: int, ccw: bool, i: int)
    requires l.Valid()
  {
    && |t.order| == |sides|
    && (forall s :: s in sides ==> HasSide(l, s) && Regular(l, s) && First(l, s))
    && (forall j :: 0 <= j < |sides| ==>
          t.order[j] == Key(l, sides[j]) && t.order[j] in t.faces
          && t.faces[t.order[j]] == FaceAt(l, orient, sides[j], PartnerDone(l, row, column, ccw, i, sides[j])))
    && (forall k :: k in t.faces ==> k in t.order)
  }

  /** One encounter with a side: record a new face, or pair a stored one. */
  function Encounter(t: FaceTable, cell: int, vertices: Quad, patch: Option<Patch>): Result<FaceTable> {
    var key := Sorted(vertices);
    if key !in t.faces then
      Ok(t.(faces := t.faces[key := Face(vertices, cell, None, patch)], order := t.order + [key]))
    else
      var existing := t.faces[key];
      if existing.neighbour != None || patch != None || existing.patch != None then Err(InvalidOwnership)
      else if !ReverseRotation(vertices, existing.vertices) then Err(InconsistentOrientation)
      else Ok(t.(faces := t.faces[key := existing.(neighbour := Some(cell))]))
  }

  function EncounterSide(l: Layout, t: FaceTable, ccw: bool, s: Side): Result<FaceTable>
    requires l.Valid() && HasSide(l, s)
  {
    Encounter(t, CellNumber(l, s.row, s.column), Vertices(l, ccw, s), PatchOf(l, s))
  }

  /** A side met first is new to the dictionary. */
  lemma EncounterNew(l: Layout, orient: Orientation, t: FaceTable, sides: seq<Side>, row: int, column: int, i: int, s: Side)
    requires l.Valid() && HasSide(l, s) && Regular(l, s) && First(l, s)
    requires s.row == row && s.column == column && Position(orient(row, column), s.kind) == i
    requires TableHolds(l, orient, t, sides, row, column, orient(row, column), i)
    requires forall u :: u in sides ==> Done(row, column, orient(row, column), i, u)
    ensures var r := EncounterSide(l, t, orient(row, column), s);
            r.Ok? && TableHolds(l, orient, r.value, sides + [s], row, column, orient(row, column), i + 1)
            && r.value.minimumVolume == t.minimumVolume
  {
    var ccw := orient(row, column);
    KeyIgnoresDirection(l, ccw, s);
    forall j | 0 <= j < |sides| ensures t.order[j] != Key(l, s) && Partner(l, sides[j]) != Some(s) {
      assert sides[j] in sides;
      KeysCoincide(l, sides[j], s);
      if Partner(l, sides[j]) == Some(s) {
        PartnersMirror(l, sides[j]);
      }
    }
    assert Key(l, s) !in t.order;
    var after := EncounterSide(l, t, ccw, s).value;
    if Partner(l, s).Some? {
      PartnersMirror(l, s);
    }
    forall j | 0 <= j < |sides|
      ensures PartnerDone(l, row, column, ccw, i + 1, sides[j]) == PartnerDone(l, row, column, ccw, i, sides[j])
    {
      DoneGrowsByOne(l, row, column, ccw, i, s, sides[j]);
    }
    assert !PartnerDone(l, row, column, ccw, i + 1, s);
    assert after.faces[Key(l, s)] == FaceAt(l, orient, s, false);
  }

  lemma DoneGrowsByOne(l: Layout, row: int, column: int, ccw: bool, i: int, s: Side, u: Side)
    requires s.row == row && s.column == column && Position(ccw, s.kind) == i
    ensures PartnerDone(l, row, column, ccw, i + 1, u) <==>
            PartnerDone(l, row, column, ccw, i, u) || Partner(l, u) == Some(s)
  {
  }

  lemma PairedStored(l: Layout, orient: Orientation, t: FaceTable, sides: seq<Side>, row: int, column: int, i: int, s: Side)
    requires l.Valid() && HasSide(l, s) && Regular(l, s) && !First(l, s)
    requires s.row == row && s.column == column && Position(orient(row, column), s.kind) == i
    requires TableHolds(l, orient, t, sides, row, column, orient(row, column), i)
    requires Partner(l, s).Some? && Partner(l, s).value in sides
    ensures Partner(l, Partner(l, s).value) == Some(s) && HasSide(l, Partner(l, s).value) && Regular(l, Partner(l, s).value)
    ensures Key(l, s) in t.faces && t.faces[Key(l, s)] == FaceAt(l, orient, Partner(l, s).value, false)
    ensures Sorted(Vertices(l, orient(row, column), s)) == Key(l, s)
  {
    hide Sorted, Vertices, Label, RowStart;
    var p := Partner(l, s).value;
    PartnersMirror(l, s);
    KeyIgnoresDirection(l, orient(row, column), s);
    KeysCoincide(l, p, s);
    var m :| 0 <= m < |sides| && sides[m] == p;
    assert t.order[m] == Key(l, s);
  }

  /** A side met second pairs its partner's face, provided both cells have the same orientation. */
  lemma EncounterPaired(l: Layout, orient: Orientation, t: FaceTable, sides: seq<Side>, row: int, column: int, i: int, s: Side)
    requires l.Valid() && HasSide(l, s) && Regular(l, s) && !First(l, s)
    requires s.row == row && s.column == column && Position(orient(row, column), s.kind) == i
    requires TableHolds(l, orient, t, sides, row, column, orient(row, column), i)
    requires Partner(l, s).Some? && Partner(l, s).value in sides
    ensures var r := EncounterSide(l, t, orient(row, column), s);
            if Opposed(l, orient, s) then r == Err(InconsistentOrientation)
            else r.Ok? && TableHolds(l, orient, r.value, sides, row, column, orient(row, column), i + 1)
                 && r.value.minimumVolume == t.minimumVolume
  {
    var p := Partner(l, s).value;
    PairedStored(l, orient, t, sides, row, column, i, s);
    PartnersOppose(l, p, s, orient(p.row, p.column), orient(row, column));
    PartnersMirror(l, s);
    if !Opposed(l, orient, s) {
      var after := EncounterSide(l, t, orient(row, column), s).value;
      var k := Key(l, s);
      assert after == t.(faces := t.faces[k := FaceAt(l, orient, p, true)]);
      PairedTableHolds(l, orient, t, sides, row, column, i, s);
    }
  }

  lemma PairedTableHolds(l: Layout, orient: Orientation, t: FaceTable, sides: seq<Side>, row: int, column: int, i: int, s: Side)
    requires l.Valid() && HasSide(l, s) && Regular(l, s) && !First(l, s)
    requires s.row == row && s.column == column && Position(orient(row, column), s.kind) == i
    requires TableHolds(l, orient, t, sides, row, column, orient(row, column), i)
    requires Partner(l, s).Some? && Partner(l, s).value in sides
    ensures HasSide(l, Partner(l, s).value)
    ensures TableHolds(l, orient, t.(faces := t.faces[Key(l, s) := FaceAt(l, orient, Partner(l, s).value, true)]), sides,
                       row, column, orient(row, column), i + 1)
  {
    hide Sorted, Vertices, Label, RowStart;
    PairedStored(l, orient, t, sides, row, column, i, s);
    var p := Partner(l, s).value;
    forall j | 0 <= j < |sides|
      ensures t.order[j] == Key(l, s) <==> sides[j] == p
      ensures PartnerDone(l, row, column, orient(row, column), i + 1, sides[j]) <==>
              PartnerDone(l, row, column, orient(row, column), i, sides[j]) || sides[j] == p
    {
      assert sides[j] in sides;
      DoneGrowsByOne(l, row, column, orient(row, column), i, s, sides[j]);
      KeysCoincide(l, sides[j], s);
      if Partner(l, sides[j]) == Some(s) {
        PartnersMirror(l, sides[j]);
      }
    }
  }

  lemma FoldedWallKeys(l: Layout, s: Side, p: Side)
    requires l.Valid() && HasSide(l, s) && l.wallEnd == l.wallStart + 2
    requires s == Side(0, l.wallStart + 1, Bottom) && p == Side(0, l.wallStart, Bottom)
    ensures Key(l, s) == Key(l, p)
  {
    EdgeKeyEnds(l, s);
    EdgeKeyEnds(l, p);
  }

  /** A wall of two cells folds its second edge onto the first. */
  lemma EncounterFoldedWall(l: Layout, orient: Orientation, t: FaceTable, sides: seq<Side>, row: int, column: int, i: int, s: Side)
    requires l.Valid() && HasSide(l, s) && l.wallEnd == l.wallStart + 2 && s == Side(0, l.wallStart + 1, Bottom)
    requires TableHolds(l, orient, t, sides, row, column, orient(row, column), i)
    requires Side(0, l.wallStart, Bottom) in sides
    ensures EncounterSide(l, t, orient(row, column), s) == Err(InvalidOwnership)
  {
    var p := Side(0, l.wallStart, Bottom);
    var m :| 0 <= m < |sides| && sides[m] == p;
    FoldedWallKeys(l, s, p);
    hide Sorted, Vertices, Label, RowStart, Key;
    KeyIgnoresDirection(l, orient(row, column), s);
    assert t.order[m] == Key(l, s);
  }

  // ---------- welding ----------

  predicate Rectangular(l: Layout, grid: seq<seq<Point2>>) {
    |grid| == l.radial && forall row :: 0 <= row < l.radial ==> |grid[row]| == l.horizontal
  }

  /** The published wake coordinates coincide exactly. */
  ghost predicate SeamCoincides(l: Layout, grid: seq<seq<Point2>>)
    requires Rectangular(l, grid) && l.Valid()
  {
    l.radial > 0 ==> forall column :: l.wallEnd <= column < l.horizontal ==> grid[0][column] == grid[0][l.horizontal - column - 1]
  }

  /** Every grid position finds its own scaled coordinates under its label. */
  ghost predicate Welded(l: Layout, grid: seq<seq<Point2>>, chord: real, planar: seq<Point2>)
    requires Rectangular(l, grid) && l.Valid()
  {
    && |planar| == PlaneCount(l)
    && forall row, column :: 0 <= row < l.radial && 0 <= column < l.horizontal ==>
         Label(l, row, column) < |planar| && planar[Label(l, row, column)] == Scaled(grid[row][column], chord)
  }

  predicate SeamAt(l: Layout, grid: seq<seq<Point2>>, c: int)
    requires Rectangular(l, grid) && l.Valid() && l.radial > 0 && l.wallEnd <= c < l.horizontal
  {
    grid[0][c] == grid[0][l.horizontal - c - 1]
  }

  /** One row of labels: new points for new labels, and on the seam the labels of the opposite points. */
  method WeldRow(l: Layout, grid: seq<seq<Point2>>, chord: real, row: int, labels: array2<int>, before: seq<Point2>)
    returns (ok: bool, planar: seq<Point2>)
    requires l.Valid() && Rectangular(l, grid) && 0 <= row < l.radial && |before| == RowStart(l, row)
    requires labels.Length0 == l.radial && labels.Length1 == l.horizontal
    modifies labels
    ensures ok <==> (row == 0 ==> forall c :: l.wallEnd <= c < l.horizontal ==> SeamAt(l, grid, c))
    ensures ok ==> before <= planar && |planar| == RowStart(l, row + 1)
    ensures ok ==> forall c :: 0 <= c < l.horizontal ==>
                     labels[row, c] == Label(l, row, c) < |planar| && planar[Label(l, row, c)] == Scaled(grid[row][c], chord)
    ensures forall r, c :: 0 <= r < l.radial && 0 <= c < l.horizontal && r != row ==> labels[r, c] == old(labels[r, c])
  {
    hide Scaled, SeamAt;
    planar := before;
    ghost var width := if row == 0 then l.wallEnd else l.horizontal;
    for column := 0 to l.horizontal
      invariant before <= planar && |planar| == RowStart(l, row) + (if column < width then column else width)
      invariant row == 0 ==> forall c :: l.wallEnd <= c < column ==> SeamAt(l, grid, c)
      invariant forall c :: 0 <= c < column ==>
                  labels[row, c] == Label(l, row, c) < |planar| && planar[Label(l, row, c)] == Scaled(grid[row][c], chord)
      invariant forall r, c :: 0 <= r < l.radial && 0 <= c < l.horizontal && r != row ==> labels[r, c] == old(labels[r, c])
    {
      if row == 0 && column >= l.wallEnd {
        var opposite := l.horizontal - column - 1;
        SeamIs(l, grid, column);
        if grid[row][column] != grid[row][opposite] {
          return false, planar;
        }
        labels[row, column] := labels[row, opposite];
      } else {
        labels[row, column] := |planar|;
        planar := planar + [Scaled(grid[row][column], chord)];
      }
    }
    ok := true;
  }

  lemma SeamIs(l: Layout, grid: seq<seq<Point2>>, c: int)
    requires Rectangular(l, grid) && l.Valid() && l.radial > 0 && l.wallEnd <= c < l.horizontal
    ensures SeamAt(l, grid, c) <==> grid[0][c] == grid[0][l.horizontal - c - 1]
  {
  }

  lemma SeamCoincidesIs(l: Layout, grid: seq<seq<Point2>>)
    requires Rectangular(l, grid) && l.Valid()
    ensures SeamCoincides(l, grid) <==> (l.radial > 0 ==> forall c :: l.wallEnd <= c < l.horizontal ==> SeamAt(l, grid, c))
  {
    if l.radial > 0 && forall c :: l.wallEnd <= c < l.horizontal ==> SeamAt(l, grid, c) {
      forall c | l.wallEnd <= c < l.horizontal ensures grid[0][c] == grid[0][l.horizontal - c - 1] {
        assert SeamAt(l, grid, c);
      }
    }
  }

  method WeldLabels(l: Layout, grid: seq<seq<Point2>>, chord: real)
    returns (r: Result<seq<Point2>>, labels: array2<int>)
    requires l.Valid() && Rectangular(l, grid)
    ensures fresh(labels) && labels.Length0 == l.radial && labels.Length1 == l.horizontal
    ensures r == Err(SeamMismatch) || r.Ok?
    ensures r.Ok? <==> SeamCoincides(l, grid)
    ensures r.Ok? ==> Welded(l, grid, chord, r.value) && |r.value| == PlaneCount(l)
    ensures r.Ok? ==> forall row, column :: 0 <= row < l.radial && 0 <= column < l.horizontal ==>
                        labels[row, column] == Label(l, row, column)
  {
    labels := new int[l.radial, l.horizontal];
    var planar: seq<Point2> := [];
    SeamCoincidesIs(l, grid);
    hide Scaled, Label, SeamAt, SeamCoincides;
    for row := 0 to l.radial
      invariant |planar| == RowStart(l, row)
      invariant row > 0 ==> forall c :: l.wallEnd <= c < l.horizontal ==> SeamAt(l, grid, c)
      invariant forall r, c :: 0 <= r < row && 0 <= c < l.horizontal ==>
                  labels[r, c] == Label(l, r, c) < |planar| && planar[Label(l, r, c)] == Scaled(grid[r][c], chord)
    {
      var ok, welded := WeldRow(l, grid, chord, row, labels, planar);
      if !ok {
        return Err(SeamMismatch), labels;
      }
      planar := welded;
    }
    r := Ok(planar);
  }

  // ---------- the sweep ----------

  /** The source's edge lookup of one cell, keyed by unordered label pairs. */
  function EdgePatches(l: Layout, q: Quad, row: int, column: int): map<set<int>, Option<Patch>> {
    map[{q.a, q.b} := if row == 0 && l.wallStart <= column < l.wallEnd then Some(Airfoil) else None,
        {q.d, q.c} := if row == l.radial - 2 then Some(Inlet) else None,
        {q.a, q.d} := if column == 0 then Some(Outlet) else None,
        {q.b, q.c} := if column == l.horizontal - 2 then Some(Outlet) else None]
  }

  lemma PairSets(a: int, b: int, c: int, d: int)
    ensures {a, b} == {c, d} <==> (a == c && b == d) || (a == d && b == c)
  {
    if {a, b} == {c, d} {
      assert a in {c, d} && b in {c, d} && c in {a, b} && d in {a, b};
    }
  }

  lemma EdgePatchesFound(l: Layout, q: Quad, row: int, column: int)
    requires Distinct(q)
    ensures var e := EdgePatches(l, q, row, column);
            && e.Keys == {{q.a, q.b}, {q.b, q.c}, {q.c, q.d}, {q.d, q.a}}
            && e[{q.a, q.b}] == PatchOf(l, Side(row, column, Bottom)) && e[{q.b, q.c}] == PatchOf(l, Side(row, column, Right))
            && e[{q.c, q.d}] == PatchOf(l, Side(row, column, Top)) && e[{q.d, q.a}] == PatchOf(l, Side(row, column, Left))
  {
    PairSets(q.a, q.b, q.d, q.c);
    PairSets(q.a, q.b, q.a, q.d);
    PairSets(q.a, q.b, q.b, q.c);
    PairSets(q.d, q.c, q.a, q.d);
    PairSets(q.d, q.c, q.b, q.c);
    PairSets(q.a, q.d, q.b, q.c);
    assert {q.c, q.d} == {q.d, q.c} && {q.d, q.a} == {q.a, q.d};
  }

  /** The six sides of one cell in the order the source visits them. */
  function SideList(q: Quad, patches: map<set<int>, Option<Patch>>, planeCount: int): (list: seq<(Quad, Option<Patch>)>)
    requires {q.a, q.b} in patches && {q.b, q.c} in patches && {q.c, q.d} in patches && {q.d, q.a} in patches
  {
    [(Reversed(q), Some(FrontAndBack)), (Shifted(q, planeCount), Some(FrontAndBack)),
     (Extruded(q.a, q.b, planeCount), patches[{q.a, q.b}]), (Extruded(q.b, q.c, planeCount), patches[{q.b, q.c}]),
     (Extruded(q.c, q.d, planeCount), patches[{q.c, q.d}]), (Extruded(q.d, q.a, planeCount), patches[{q.d, q.a}])]
  }

  lemma SideListVisitsSides(l: Layout, ccw: bool, row: int, column: int, i: nat)
    requires l.Valid() && l.HasCell(row, column) && i < 6 && Distinct(CellQuad(l, true, row, column))
    ensures var q := CellQuad(l, ccw, row, column);
            var e := EdgePatches(l, CellQuad(l, true, row, column), row, column);
            var s := Side(row, column, KindAt(ccw, i));
            && {q.a, q.b} in e && {q.b, q.c} in e && {q.c, q.d} in e && {q.d, q.a} in e
            && SideList(q, e, PlaneCount(l))[i] == (Vertices(l, ccw, s), PatchOf(l, s))
  {
    hide Label, RowStart;
    var q := CellQuad(l, true, row, column);
    EdgePatchesFound(l, q, row, column);
    assert {q.a, q.b} == {q.b, q.a} && {q.b, q.c} == {q.c, q.b} && {q.c, q.d} == {q.d, q.c} && {q.d, q.a} == {q.a, q.d};
  }

  /** Whether pairing the sides of an accepted, nondegenerate cell fails, and how. */
  ghost function PairingError(l: Layout, orient: Orientation, row: int, column: int): Option<Error> {
    if l.wallEnd == l.wallStart + 2 && row == 0 && column == l.wallStart + 1 then Some(InvalidOwnership)
    else if Opposed(l, orient, Side(row, column, Bottom)) || Opposed(l, orient, Side(row, column, Left)) then Some(InconsistentOrientation)
    else None
  }

  /** One position of one cell, given that the earlier positions were accepted. */
  lemma EncounterPosition(l: Layout, orient: Orientation, t: FaceTable, row: int, column: int, i: nat)
    requires l.Valid() && l.HasCell(row, column) && i < 6
    requires l.wallEnd == l.wallStart + 1 ==> !(row == 0 && column == l.wallStart)
    requires TableHolds(l, orient, t, FirstsUpTo(l, orient, row, column, i), row, column, orient(row, column), i)
    ensures var s := Side(row, column, KindAt(orient(row, column), i));
            var r := EncounterSide(l, t, orient(row, column), s);
            if !Regular(l, s) then r == Err(InvalidOwnership)
            else if Opposed(l, orient, s) then r == Err(InconsistentOrientation)
            else r.Ok? && r.value.minimumVolume == t.minimumVolume
                 && TableHolds(l, orient, r.value, FirstsUpTo(l, orient, row, column, i + 1), row, column, orient(row, column), i + 1)
  {
    hide Sorted, Vertices, Label, RowStart, Encounter, Firsts, RowFirsts;
    var ccw := orient(row, column);
    var s := Side(row, column, KindAt(ccw, i));
    var sides := FirstsUpTo(l, orient, row, column, i);
    var next := FirstsUpTo(l, orient, row, column, i + 1);
    assert Firsts(l, orient, row) + RowFirsts(l, orient, row, column) + (CellFirsts(l, ccw, row, column, i) + [s]) == sides + [s];
    assert CellFirsts(l, ccw, row, column, i) + [] == CellFirsts(l, ccw, row, column, i);
    assert next == if First(l, s) then sides + [s] else sides;
    if !Regular(l, s) {
      FirstsUpToMembers(l, orient, row, column, i, Side(0, l.wallStart, Bottom));
      EncounterFoldedWall(l, orient, t, sides, row, column, i, s);
    } else if First(l, s) {
      forall u | u in sides ensures Done(row, column, ccw, i, u) {
        FirstsUpToMembers(l, orient, row, column, i, u);
      }
      EncounterNew(l, orient, t, sides, row, column, i, s);
    } else {
      SidesAreMatchedOrPatched(l, s);
      PartnersMirror(l, s);
      FirstsUpToMembers(l, orient, row, column, i, Partner(l, s).value);
      EncounterPaired(l, orient, t, sides, row, column, i, s);
    }
  }

  method PairCell(l: Layout, ghost orient: Orientation, t: FaceTable, row: int, column: int, cell: int,
                  q: Quad, patches: map<set<int>, Option<Patch>>, planeCount: int)
    returns (r: Result<FaceTable>)
    requires l.Valid() && l.HasCell(row, column) && cell == CellNumber(l, row, column) && planeCount == PlaneCount(l)
    requires l.wallEnd == l.wallStart + 1 ==> !(row == 0 && column == l.wallStart)
    requires q == CellQuad(l, orient(row, column), row, column) && Distinct(CellQuad(l, true, row, column))
    requires patches == EdgePatches(l, CellQuad(l, true, row, column), row, column)
    requires TableHolds(l, orient, t, FirstsUpTo(l, orient, row, column, 0), row, column, orient(row, column), 0)
    ensures match PairingError(l, orient, row, column)
            case Some(e) => r == Err(e)
            case None => r.Ok? && r.value.minimumVolume == t.minimumVolume
                         && TableHolds(l, orient, r.value, FirstsUpTo(l, orient, row, column, 6), row, column, orient(row, column), 6)
  {
    hide Sorted, Vertices, Label, RowStart, FirstsUpTo, TableHolds, CellQuad, EdgePatches;
    SideListVisitsSides(l, orient(row, column), row, column, 0);
    var sides := SideList(q, patches, planeCount);
    var table := t;
    for i := 0 to 6
      invariant TableHolds(l, orient, table, FirstsUpTo(l, orient, row, column, i), row, column, orient(row, column), i)
      invariant table.minimumVolume == t.minimumVolume
      invariant forall kind :: Position(orient(row, column), kind) < i ==>
                  Regular(l, Side(row, column, kind)) && !Opposed(l, orient, Side(row, column, kind))
    {
      var (vertices, patch) := sides[i];
      SideListVisitsSides(l, orient(row, column), row, column, i);
      EncounterPosition(l, orient, table, row, column, i);
      ghost var s := Side(row, column, KindAt(orient(row, column), i));
      var step := Encounter(table, cell, vertices, patch);
      assert step == EncounterSide(l, table, orient(row, column), s);
      if step.Err? {
        return step;
      }
      table := step.value;
    }
    r := Ok(table);
  }

  // ---------- moving between cells ----------

  /** Only the set of processed partners matters to the dictionary invariant. */
  lemma TableCarries(l: Layout, orient: Orientation, t: FaceTable, sides: seq<Side>,
                     r1: int, c1: int, w1: bool, i1: int, r2: int, c2: int, w2: bool, i2: int)
    requires l.Valid() && TableHolds(l, orient, t, sides, r1, c1, w1, i1)
    requires forall u :: HasSide(l, u) ==> Done(r1, c1, w1, i1, u) == Done(r2, c2, w2, i2, u)
    ensures TableHolds(l, orient, t, sides, r2, c2, w2, i2)
  {
    hide Sorted, Vertices, Label, RowStart;
    forall j | 0 <= j < |sides|
      ensures PartnerDone(l, r1, c1, w1, i1, sides[j]) == PartnerDone(l, r2, c2, w2, i2, sides[j])
    {
      assert sides[j] in sides;
      if Partner(l, sides[j]).Some? {
        PartnersMirror(l, sides[j]);
      }
    }
  }

  lemma NextCell(l: Layout, orient: Orientation, t: FaceTable, row: int, column: int)
    requires l.Valid() && l.HasCell(row, column)
    requires TableHolds(l, orient, t, FirstsUpTo(l, orient, row, column, 6), row, column, orient(row, column), 6)
    ensures TableHolds(l, orient, t, FirstsUpTo(l, orient, row, column + 1, 0), row, column + 1, orient(row, column + 1), 0)
  {
    hide TableHolds;
    TableCarries(l, orient, t, FirstsUpTo(l, orient, row, column, 6), row, column, orient(row, column), 6,
                 row, column + 1, orient(row, column + 1), 0);
    assert FirstsUpTo(l, orient, row, column + 1, 0) == FirstsUpTo(l, orient, row, column, 6);
  }

  lemma NextRow(l: Layout, orient: Orientation, t: FaceTable, row: int)
    requires l.Valid() && 0 <= row < l.radial - 1
    requires TableHolds(l, orient, t, FirstsUpTo(l, orient, row, l.horizontal - 1, 0), row, l.horizontal - 1, orient(row, l.horizontal - 1), 0)
    ensures TableHolds(l, orient, t, FirstsUpTo(l, orient, row + 1, 0, 0), row + 1, 0, orient(row + 1, 0), 0)
  {
    hide TableHolds;
    TableCarries(l, orient, t, FirstsUpTo(l, orient, row, l.horizontal - 1, 0), row, l.horizontal - 1, orient(row, l.horizontal - 1), 0,
                 row + 1, 0, orient(row + 1, 0), 0);
    assert FirstsUpTo(l, orient, row + 1, 0, 0) == FirstsUpTo(l, orient, row, l.horizontal - 1, 0);
  }

  /** The volume the source reports: the least |area| * chord * span among the cells swept so far. */
  ghost predicate LeastVolume(l: Layout, areas: Areas, depth: real, m: Option<real>, row: int, column: int)
    requires l.Valid()
  {
    && (forall r, c :: l.HasCell(r, c) && Before(r, c, row, column) ==>
          m.Some? && m.value <= Volume(areas, depth, r, c))
    && (m.Some? ==> exists r, c :: l.HasCell(r, c) && Before(r, c, row, column) && m.value == Volume(areas, depth, r, c))
  }

  ghost function CellRows(l: Layout): nat { if l.radial == 0 then 0 else l.radial - 1 }

  /** Everything the sweep maintains when it stands before the cell at (row, column). */
  ghost predicate SweepHolds(l: Layout, areas: Areas, depth: real, t: FaceTable, row: nat, column: nat)
    requires l.Valid()
  {
    var orient := Direction(areas);
    && TableHolds(l, orient, t, FirstsUpTo(l, orient, row, column, 0), row, column, orient(row, column), 0)
    && AcceptedBefore(l, areas, row, column)
    && LeastVolume(l, areas, depth, t.minimumVolume, row, column)
  }

  lemma SweepAdvances(l: Layout, areas: Areas, depth: real, t: FaceTable, u: FaceTable, row: int, column: int)
    requires l.Valid() && l.HasCell(row, column)
    requires SweepHolds(l, areas, depth, t, row, column) && Outcome(l, areas, row, column) == None
    requires var orient := Direction(areas);
             TableHolds(l, orient, u, FirstsUpTo(l, orient, row, column, 6), row, column, orient(row, column), 6)
    ensures var volume := Volume(areas, depth, row, column);
            var m := t.minimumVolume;
            SweepHolds(l, areas, depth, u.(minimumVolume := if m.Some? && m.value <= volume then m else Some(volume)), row, column + 1)
  {
    hide TableHolds, Firsts, RowFirsts, FirstsUpTo, Outcome, LeastVolume, Volume;
    var orient := Direction(areas);
    var volume := Volume(areas, depth, row, column);
    var m := t.minimumVolume;
    NextCell(l, orient, u, row, column);
    MinimumIsSeparate(l, orient, u, if m.Some? && m.value <= volume then m else Some(volume),
                      FirstsUpTo(l, orient, row, column + 1, 0), row, column + 1, orient(row, column + 1));
    VolumeGrows(l, areas, depth, m, row, column);
  }

  /** A cell is degenerate, or fails pairing, or passes. */
  lemma OutcomeSplits(l: Layout, areas: Areas, row: int, column: int, q: Quad)
    requires l.Valid() && l.HasCell(row, column) && q == CellQuad(l, true, row, column)
    ensures Outcome(l, areas, row, column) ==
            if areas(row, column) == 0.0 || !Distinct(q) then Some(DegenerateCell)
            else PairingError(l, Direction(areas), row, column)
    ensures Distinct(q) ==> (l.wallEnd == l.wallStart + 1 ==> !(row == 0 && column == l.wallStart))
    ensures CellQuad(l, Direction(areas)(row, column), row, column) == if areas(row, column) > 0.0 then q else Reversed(q)
    ensures CellNumber(l, row, column) == row * (l.horizontal - 1) + column
  {
    QuadIsDistinct(l, row, column);
  }

  /** The planar points, read through a cell's labels, give the cell's area. */
  ghost predicate Measures(planar: seq<Point2>, q: Quad, area: real) {
    0 <= q.a < |planar| && 0 <= q.b < |planar| && 0 <= q.c < |planar| && 0 <= q.d < |planar|
    && area == Shoelace(planar[q.a], planar[q.b], planar[q.c], planar[q.d])
  }

  lemma MeasuredArea(planar: seq<Point2>, q: Quad, area: real)
    requires Measures(planar, q, area)
    ensures 0 <= q.a < |planar| && 0 <= q.b < |planar| && 0 <= q.c < |planar| && 0 <= q.d < |planar|
    ensures area == Shoelace(planar[q.a], planar[q.b], planar[q.c], planar[q.d])
  {
  }

  lemma VolumeIs(areas: Areas, depth: real, row: int, column: int)
    ensures Volume(areas, depth, row, column) == Absolute(areas(row, column)) * depth
  {
  }

  /** The planar points, read through a cell's labels, have this centroid. */
  ghost predicate CentreIs(planar: seq<Point2>, q: Quad, depth: real, centre: Point3) {
    && 0 <= q.a < |planar| && 0 <= q.b < |planar| && 0 <= q.c < |planar| && 0 <= q.d < |planar|
    && Shoelace(planar[q.a], planar[q.b], planar[q.c], planar[q.d]) != 0.0
    && centre == Centroid(planar[q.a], planar[q.b], planar[q.c], planar[q.d], depth)
  }

  lemma CentreHolds(planar: seq<Point2>, q: Quad, depth: real, centre: Point3)
    requires 0 <= q.a < |planar| && 0 <= q.b < |planar| && 0 <= q.c < |planar| && 0 <= q.d < |planar|
    requires Shoelace(planar[q.a], planar[q.b], planar[q.c], planar[q.d]) != 0.0
    requires centre == Centroid(planar[q.a], planar[q.b], planar[q.c], planar[q.d], depth)
    ensures CentreIs(planar, q, depth, centre)
  {
  }

  /** The centres so far: one for every cell before (row, column), in sweep order. */
  ghost predicate CentresHold(l: Layout, planar: seq<Point2>, depth: real, centres: seq<Point3>, row: int, column: int)
    requires l.Valid()
  {
    && |centres| == CellNumber(l, row, column)
    && forall r, c :: l.HasCell(r, c) && Before(r, c, row, column) ==>
         0 <= CellNumber(l, r, c) < |centres| && CentreIs(planar, CellQuad(l, true, r, c), depth, centres[CellNumber(l, r, c)])
  }

  lemma CentresStart(l: Layout, planar: seq<Point2>, depth: real)
    requires l.Valid()
    ensures CentresHold(l, planar, depth, [], 0, 0)
  {
  }

  lemma CentresAdvance(l: Layout, planar: seq<Point2>, depth: real, centres: seq<Point3>, row: int, column: int, centre: Point3)
    requires l.Valid() && l.HasCell(row, column) && CentresHold(l, planar, depth, centres, row, column)
    requires CentreIs(planar, CellQuad(l, true, row, column), depth, centre)
    ensures CentresHold(l, planar, depth, centres + [centre], row, column + 1)
  {
    hide CentreIs, CellQuad;
    assert CellNumber(l, row, column + 1) == CellNumber(l, row, column) + 1;
    forall r, c | l.HasCell(r, c) && Before(r, c, row, column + 1)
      ensures 0 <= CellNumber(l, r, c) <= |centres|
      ensures CentreIs(planar, CellQuad(l, true, r, c), depth, (centres + [centre])[CellNumber(l, r, c)])
    {
      assert Before(r, c, row, column) || (r == row && c == column);
    }
  }

  lemma CentresNextRow(l: Layout, planar: seq<Point2>, depth: real, centres: seq<Point3>, row: int)
    requires l.Valid() && CentresHold(l, planar, depth, centres, row, l.horizontal - 1)
    ensures CentresHold(l, planar, depth, centres, row + 1, 0)
  {
    hide CentreIs, CellQuad;
    assert CellNumber(l, row + 1, 0) == CellNumber(l, row, l.horizontal - 1);
    hide CellNumber;
    assert forall r, c :: l.HasCell(r, c) && Before(r, c, row + 1, 0) ==> Before(r, c, row, l.horizontal - 1);
  }

  method SweepCell(l: Layout, planar: seq<Point2>, ghost areas: Areas, depth: real, table: FaceTable, row: nat, column: nat, labels: Quad)
    returns (r: Result<FaceTable>, centre: Point3)
    requires l.Valid() && |planar| == PlaneCount(l) && l.HasCell(row, column)
    requires labels == CellQuad(l, true, row, column) && Measures(planar, labels, areas(row, column))
    requires SweepHolds(l, areas, depth, table, row, column)
    ensures match Outcome(l, areas, row, column)
            case Some(e) => r == Err(e)
            case None => r.Ok? && SweepHolds(l, areas, depth, r.value, row, column + 1) && CentreIs(planar, labels, depth, centre)
  {
    hide *;
    OutcomeSplits(l, areas, row, column, labels);
    MeasuredArea(planar, labels, areas(row, column));
    var q := labels;
    var area := Shoelace(planar[q.a], planar[q.b], planar[q.c], planar[q.d]);
    FourLabels(q);
    if area == 0.0 || |{q.a, q.b, q.c, q.d}| != 4 {
      return Err(DegenerateCell), Point3(0.0, 0.0, 0.0);
    }
    centre := Centroid(planar[q.a], planar[q.b], planar[q.c], planar[q.d], depth);
    CentreHolds(planar, q, depth, centre);
    ghost var orient := Direction(areas);
    var patches := EdgePatches(l, q, row, column);
    if area < 0.0 {
      q := Reversed(q);
    }
    var volume := Absolute(area) * depth;
    var least := if table.minimumVolume.Some? && table.minimumVolume.value <= volume then table.minimumVolume else Some(volume);
    SweepFacts(l, areas, depth, table, row, column);
    var step := PairCell(l, orient, table, row, column, row * (l.horizontal - 1) + column, q, patches, |planar|);
    if step.Err? {
      return step, centre;
    }
    SweepAdvances(l, areas, depth, table, step.value, row, column);
    assert volume == Volume(areas, depth, row, column) by { VolumeIs(areas, depth, row, column); }
    assert SweepHolds(l, areas, depth, step.value.(minimumVolume := least), row, column + 1);
    r := Ok(step.value.(minimumVolume := least));
  }

  method Sweep(l: Layout, planar: seq<Point2>, ghost areas: Areas, labels: array2<int>, chord: real, spanChords: real)
    returns (r: Result<FaceTable>, centres: seq<Point3>)
    requires l.Valid() && |planar| == PlaneCount(l) && labels.Length0 == l.radial && labels.Length1 == l.horizontal
    requires forall row, column :: 0 <= row < l.radial && 0 <= column < l.horizontal ==> labels[row, column] == Label(l, row, column)
    requires forall row, column :: l.HasCell(row, column) ==> Measures(planar, CellQuad(l, true, row, column), areas(row, column))
    ensures r.Err? ==> FirstRejection(l, areas, r.error)
    ensures r.Ok? ==> AcceptedBefore(l, areas, CellRows(l), 0)
    ensures r.Ok? ==> TableHolds(l, Direction(areas), r.value, Firsts(l, Direction(areas), CellRows(l)), CellRows(l), 0, true, 0)
    ensures r.Ok? ==> LeastVolume(l, areas, chord * spanChords, r.value.minimumVolume, CellRows(l), 0)
    ensures r.Ok? ==> CentresHold(l, planar, chord * spanChords, centres, CellRows(l), 0)
  {
    hide TableHolds, Label, Measures, Firsts, RowFirsts, FirstsUpTo, Outcome, LeastVolume, AcceptedBefore, SweepHolds, CentresHold, CentreIs;
    ghost var orient := Direction(areas);
    var depth := chord * spanChords;
    var table := FaceTable(map[], [], None);
    SweepStarts(l, areas, depth);
    centres := [];
    CentresStart(l, planar, depth);
    var rows := if l.radial == 0 then 0 else l.radial - 1;
    for row := 0 to rows
      invariant SweepHolds(l, areas, depth, table, row, 0) && CentresHold(l, planar, depth, centres, row, 0)
    {
      for column := 0 to l.horizontal - 1
        invariant SweepHolds(l, areas, depth, table, row, column) && CentresHold(l, planar, depth, centres, row, column)
      {
        var quad := Quad(labels[row, column], labels[row, column + 1], labels[row + 1, column + 1], labels[row + 1, column]);
        assert quad == CellQuad(l, true, row, column);
        var step, centre := SweepCell(l, planar, areas, depth, table, row, column, quad);
        if step.Err? {
          SweepFacts(l, areas, depth, table, row, column);
          return step, centres;
        }
        table := step.value;
        CentresAdvance(l, planar, depth, centres, row, column, centre);
        centres := centres + [centre];
      }
      SweepNextRow(l, areas, depth, table, row);
      CentresNextRow(l, planar, depth, centres, row);
    }
    SweepFacts(l, areas, depth, table, rows, 0);
    FirstsUpToRow(l, orient, rows);
    TableCarries(l, orient, table, Firsts(l, orient, rows), rows, 0, orient(rows, 0), 0, rows, 0, true, 0);
    r := Ok(table);
  }

  lemma SweepStarts(l: Layout, areas: Areas, depth: real)
    requires l.Valid()
    ensures SweepHolds(l, areas, depth, FaceTable(map[], [], None), 0, 0)
  {
    hide Outcome;
    EmptyTableHolds(l, Direction(areas));
  }

  lemma SweepFacts(l: Layout, areas: Areas, depth: real, t: FaceTable, row: nat, column: nat)
    requires l.Valid() && SweepHolds(l, areas, depth, t, row, column)
    ensures var orient := Direction(areas);
            TableHolds(l, orient, t, FirstsUpTo(l, orient, row, column, 0), row, column, orient(row, column), 0)
            && AcceptedBefore(l, areas, row, column) && LeastVolume(l, areas, depth, t.minimumVolume, row, column)
  {
  }

  lemma SweepNextRow(l: Layout, areas: Areas, depth: real, t: FaceTable, row: int)
    requires l.Valid() && 0 <= row < l.radial - 1
    requires SweepHolds(l, areas, depth, t, row, l.horizontal - 1)
    ensures SweepHolds(l, areas, depth, t, row + 1, 0)
  {
    hide TableHolds, Outcome, Firsts, RowFirsts, FirstsUpTo;
    NextRow(l, Direction(areas), t, row);
    assert forall r, c :: l.HasCell(r, c) ==> (Before(r, c, row + 1, 0) <==> Before(r, c, row, l.horizontal - 1));
  }

  lemma FirstsUpToRow(l: Layout, orient: Orientation, row: nat)
    requires l.horizontal > 0
    ensures FirstsUpTo(l, orient, row, 0, 0) == Firsts(l, orient, row)
  {
  }

  lemma EmptyTableHolds(l: Layout, orient: Orientation)
    requires l.Valid()
    ensures TableHolds(l, orient, FaceTable(map[], [], None), FirstsUpTo(l, orient, 0, 0, 0), 0, 0, orient(0, 0), 0)
  {
  }

  lemma FourLabels(q: Quad)
    ensures |{q.a, q.b, q.c, q.d}| == 4 <==> Distinct(q)
  {
    var s := {q.a, q.b, q.c};
    assert {q.a, q.b, q.c, q.d} == s + {q.d};
    assert s == {q.a, q.b} + {q.c};
    assert {q.a, q.b} == {q.a} + {q.b};
  }

  lemma MinimumIsSeparate(l: Layout, orient: Orientation, t: FaceTable, m: Option<real>, sides: seq<Side>, row: int, column: int, ccw: bool)
    requires l.Valid() && TableHolds(l, orient, t, sides, row, column, ccw, 0)
    ensures TableHolds(l, orient, t.(minimumVolume := m), sides, row, column, ccw, 0)
  {
  }

  lemma VolumeGrows(l: Layout, areas: Areas, depth: real, m: Option<real>, row: int, column: int)
    requires l.Valid() && l.HasCell(row, column) && LeastVolume(l, areas, depth, m, row, column)
    ensures var volume := Volume(areas, depth, row, column);
            LeastVolume(l, areas, depth, if m.Some? && m.value <= volume then m else Some(volume), row, column + 1)
  {
    hide Volume;
    var volume := Volume(areas, depth, row, column);
    assert Before(row, column, row, column + 1);
    assert forall r, c :: Before(r, c, row, column + 1) <==> Before(r, c, row, column) || (r == row && c == column);
    if m.Some? && m.value <= volume {
      var r, c :| l.HasCell(r, c) && Before(r, c, row, column) && m.value == Volume(areas, depth, r, c);
      assert Before(r, c, row, column + 1);
    }
  }

  // ---------- collecting the mesh ----------

  /** The finished face of a side met first. */
  ghost function FinalFace(l: Layout, orient: Orientation, s: Side): Face
    requires l.Valid() && HasSide(l, s)
  {
    FaceAt(l, orient, s, true)
  }

  ghost predicate AllSides(l: Layout, sides: seq<Side>) { forall s :: s in sides ==> HasSide(l, s) }

  ghost function FinalFaces(l: Layout, orient: Orientation, sides: seq<Side>): (faces: seq<Face>)
    requires l.Valid() && AllSides(l, sides)
    ensures |faces| == |sides| && forall j :: 0 <= j < |sides| ==> faces[j] == FinalFace(l, orient, sides[j])
  {
    seq(|sides|, j requires 0 <= j < |sides| => FinalFace(l, orient, sides[j]))
  }

  lemma FirstsAreSides(l: Layout, orient: Orientation)
    requires l.Valid()
    ensures AllSides(l, Firsts(l, orient, CellRows(l)))
  {
    forall s | s in Firsts(l, orient, CellRows(l)) ensures HasSide(l, s) {
      FirstsMembers(l, orient, CellRows(l), s);
    }
  }

  /** All faces in insertion order. */
  ghost function MeshFaces(l: Layout, orient: Orientation): seq<Face>
    requires l.Valid()
  {
    FirstsAreSides(l, orient);
    FinalFaces(l, orient, Firsts(l, orient, CellRows(l)))
  }

  function Paired(faces: seq<Face>): seq<Face> {
    if faces == [] then []
    else Paired(faces[..|faces| - 1]) + if faces[|faces| - 1].neighbour.Some? then [faces[|faces| - 1]] else []
  }

  function OnPatch(faces: seq<Face>, patch: Patch): seq<Face> {
    if faces == [] then []
    else
      var last := faces[|faces| - 1];
      OnPatch(faces[..|faces| - 1], patch) + if last.neighbour == None && last.patch == Some(patch) then [last] else []
  }

  predicate Precedes(f: Face, g: Face) {
    f.neighbour.Some? && g.neighbour.Some?
    && (f.owner < g.owner || (f.owner == g.owner && f.neighbour.value < g.neighbour.value))
  }

  /** Stable insertion by (owner, neighbour). */
  function Inserted(f: Face, faces: seq<Face>): seq<Face> {
    if faces == [] then [f]
    else if Precedes(f, faces[|faces| - 1]) then Inserted(f, faces[..|faces| - 1]) + [faces[|faces| - 1]]
    else faces + [f]
  }

  function SortedByCells(faces: seq<Face>): seq<Face> {
    if faces == [] then [] else Inserted(faces[|faces| - 1], SortedByCells(faces[..|faces| - 1]))
  }

  const PATCHES: seq<Patch> := [Inlet, Outlet, Airfoil, FrontAndBack]

  /** The unpaired faces, listed by patch; an unpaired face without a patch is an error. */
  method CollectBoundary(faces: seq<Face>) returns (r: Result<map<Patch, seq<Face>>>)
    ensures r.Ok? <==> forall f :: f in faces && f.neighbour == None ==> f.patch.Some?
    ensures r.Ok? ==> forall p: Patch :: p in r.value && r.value[p] == OnPatch(faces, p)
    ensures r.Err? ==> r.error == UnpairedFace
  {
    var boundary: map<Patch, seq<Face>> := map[Inlet := [], Outlet := [], Airfoil := [], FrontAndBack := []];
    forall p: Patch ensures p in boundary && boundary[p] == [] {
      match p case Inlet => case Outlet => case Airfoil => case FrontAndBack =>
    }
    for i := 0 to |faces|
      invariant forall f :: f in faces[..i] && f.neighbour == None ==> f.patch.Some?
      invariant forall p: Patch :: p in boundary && boundary[p] == OnPatch(faces[..i], p)
    {
      var f := faces[i];
      assert faces[..i + 1] == faces[..i] + [f];
      assert faces[..i + 1][..i] == faces[..i];
      if f.neighbour == None {
        if f.patch == None {
          assert f in faces;
          return Err(UnpairedFace);
        }
        boundary := boundary[f.patch.value := boundary[f.patch.value] + [f]];
      }
    }
    assert faces[..|faces|] == faces;
    r := Ok(boundary);
  }

  // ---------- the whole construction ----------

  ghost function GridAreas(l: Layout, grid: seq<seq<Point2>>, chord: real): Areas
    requires Rectangular(l, grid)
  {
    (row, column) =>
      if l.HasCell(row, column) then
        Shoelace(Scaled(grid[row][column], chord), Scaled(grid[row][column + 1], chord),
                 Scaled(grid[row + 1][column + 1], chord), Scaled(grid[row + 1][column], chord))
      else 0.0
  }

  /** The centre of a cell is the centroid of its four scaled coordinates. */
  ghost predicate CentreAt(l: Layout, grid: seq<seq<Point2>>, chord: real, depth: real, centres: seq<Point3>, row: int, column: int)
    requires Rectangular(l, grid) && l.HasCell(row, column)
  {
    && 0 <= CellNumber(l, row, column) < |centres|
    && var (a, b) := (Scaled(grid[row][column], chord), Scaled(grid[row][column + 1], chord));
       var (c, d) := (Scaled(grid[row + 1][column + 1], chord), Scaled(grid[row + 1][column], chord));
       Shoelace(a, b, c, d) != 0.0 && centres[CellNumber(l, row, column)] == Centroid(a, b, c, d, depth)
  }

  /** One centre per cell, in sweep order. */
  ghost predicate CentresOf(l: Layout, grid: seq<seq<Point2>>, chord: real, depth: real, centres: seq<Point3>)
    requires Rectangular(l, grid)
  {
    && |centres| == CellNumber(l, CellRows(l), 0)
    && forall row, column :: l.HasCell(row, column) ==> CentreAt(l, grid, chord, depth, centres, row, column)
  }

  lemma WeldedCentres(l: Layout, grid: seq<seq<Point2>>, chord: real, planar: seq<Point2>, depth: real, centres: seq<Point3>)
    requires l.Valid() && Rectangular(l, grid) && Welded(l, grid, chord, planar)
    requires CentresHold(l, planar, depth, centres, CellRows(l), 0)
    ensures CentresOf(l, grid, chord, depth, centres)
  {
    hide Shoelace, Scaled, RowStart, Centroid, CellNumber;
    forall row, column | l.HasCell(row, column) ensures CentreAt(l, grid, chord, depth, centres, row, column) {
      assert Before(row, column, CellRows(l), 0);
    }
  }

  lemma WeldedMeasures(l: Layout, grid: seq<seq<Point2>>, chord: real, planar: seq<Point2>)
    requires l.Valid() && Rectangular(l, grid) && Welded(l, grid, chord, planar)
    ensures forall row, column :: l.HasCell(row, column) ==>
              Measures(planar, CellQuad(l, true, row, column), GridAreas(l, grid, chord)(row, column))
  {
    hide Shoelace, Scaled, RowStart;
  }

  function Lifted(planar: seq<Point2>, depth: real): (points: seq<Point3>)
    ensures |points| == 2 * |planar|
    ensures forall i :: 0 <= i < |planar| ==> points[i] == Point3(planar[i].x, planar[i].y, 0.0)
                                              && points[i + |planar|] == Point3(planar[i].x, planar[i].y, depth)
  {
    seq(|planar|, i requires 0 <= i < |planar| => Point3(planar[i].x, planar[i].y, 0.0))
    + seq(|planar|, i requires 0 <= i < |planar| => Point3(planar[i].x, planar[i].y, depth))
  }

  predicate SeamBounds(horizontal: int, wallStart: int, wallEnd: int) {
    0 < wallStart < wallEnd < horizontal - 1 && wallEnd == horizontal - wallStart - 1
  }

  /** What a completed construction returns. */
  ghost predicate MeshOf(l: Layout, grid: seq<seq<Point2>>, chord: real, spanChords: real, m: Mesh)
    requires l.Valid() && Rectangular(l, grid)
  {
    var orient := Direction(GridAreas(l, grid, chord));
    && |m.points| == 2 * PlaneCount(l)
    && (forall row, column :: 0 <= row < l.radial && 0 <= column < l.horizontal ==>
          Label(l, row, column) < PlaneCount(l)
          && var p := Scaled(grid[row][column], chord);
             m.points[Label(l, row, column)] == Point3(p.x, p.y, 0.0)
             && m.points[Label(l, row, column) + PlaneCount(l)] == Point3(p.x, p.y, chord * spanChords))
    && m.internal == SortedByCells(Paired(MeshFaces(l, orient)))
    && (forall p: Patch :: p in m.boundary && m.boundary[p] == OnPatch(MeshFaces(l, orient), p))
    && m.cells == (l.horizontal - 1) * (l.radial - 1) && CentresOf(l, grid, chord, chord * spanChords, m.centres)
    && LeastVolume(l, GridAreas(l, grid, chord), chord * spanChords, m.minimumVolume, CellRows(l), 0)
  }

  lemma TableListsFaces(l: Layout, orient: Orientation, t: FaceTable)
    requires l.Valid() && TableHolds(l, orient, t, Firsts(l, orient, CellRows(l)), CellRows(l), 0, true, 0)
    ensures |t.order| == |MeshFaces(l, orient)|
    ensures forall j :: 0 <= j < |t.order| ==> t.order[j] in t.faces && t.faces[t.order[j]] == MeshFaces(l, orient)[j]
    ensures forall f :: f in MeshFaces(l, orient) && f.neighbour == None ==> f.patch.Some?
  {
    hide Vertices, Label, RowStart, Firsts, Sorted;
    FirstsAreSides(l, orient);
    var sides := Firsts(l, orient, CellRows(l));
    forall j | 0 <= j < |sides|
      ensures t.faces[t.order[j]] == FinalFace(l, orient, sides[j])
      ensures FinalFace(l, orient, sides[j]).neighbour == None ==> FinalFace(l, orient, sides[j]).patch.Some?
    {
      assert sides[j] in sides;
      SidesAreMatchedOrPatched(l, sides[j]);
      if Partner(l, sides[j]).Some? {
        PartnersMirror(l, sides[j]);
      }
    }
  }
}

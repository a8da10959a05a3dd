/** The finished mesh in three dimensions, measured by determinants: the stored faces of every cell, taken outward from it,
    enclose exactly its positive volume. The signed planar area is tied to widths and heights. */
module CGridVolume {
  import opened Arithmetic
  import opened Wrappers
  import opened CGridTopology
  import opened CGridMesh
  import opened CGridTheorems
  import opened CGridCounts
  import opened CGridGeometry

  // ---------- the planar area ----------

  /** A rectangle run counterclockwise has its width times its height. */
  lemma AreaOfRectangle(x0: real, y0: real, x1: real, y1: real)
    ensures Shoelace(Point2(x0, y0), Point2(x1, y0), Point2(x1, y1), Point2(x0, y1)) == (x1 - x0) * (y1 - y0)
  {
  }

  function Moved(p: Point2, dx: real, dy: real): Point2 { Point2(p.x + dx, p.y + dy) }

  lemma AreaIsTranslated(a: Point2, b: Point2, c: Point2, d: Point2, dx: real, dy: real)
    ensures Shoelace(Moved(a, dx, dy), Moved(b, dx, dy), Moved(c, dx, dy), Moved(d, dx, dy)) == Shoelace(a, b, c, d)
  {
    CrossMoved(a, b, dx, dy);
    CrossMoved(b, c, dx, dy);
    CrossMoved(c, d, dx, dy);
    CrossMoved(d, a, dx, dy);
    hide Cross, Moved;
    Loop(a, b, c, d, dx, dy);
  }

  lemma CrossMoved(p: Point2, q: Point2, dx: real, dy: real)
    ensures Cross(Moved(p, dx, dy), Moved(q, dx, dy)) == Cross(p, q) + dy * (p.x - q.x) + dx * (q.y - p.y)
  {
  }

  lemma Loop(a: Point2, b: Point2, c: Point2, d: Point2, dx: real, dy: real)
    ensures dy * (a.x - b.x) + dy * (b.x - c.x) + dy * (c.x - d.x) + dy * (d.x - a.x) == 0.0
    ensures dx * (b.y - a.y) + dx * (c.y - b.y) + dx * (d.y - c.y) + dx * (a.y - d.y) == 0.0
  {
  }

  /** The point a fraction t of the way from p to q. */
  function Between(p: Point2, q: Point2, t: real): Point2 { Point2(p.x + t * (q.x - p.x), p.y + t * (q.y - p.y)) }

  /** Cutting a quadrilateral from one side to the opposite one divides its area. */
  lemma AreaIsCut(a: Point2, b: Point2, c: Point2, d: Point2, s: real, t: real)
    ensures var e, f := Between(b, c, s), Between(a, d, t);
            Shoelace(a, b, c, d) == Shoelace(a, b, e, f) + Shoelace(f, e, c, d)
  {
    var e, f := Between(b, c, s), Between(a, d, t);
    CrossSplits(b, c, s);
    CrossSplits(a, d, t);
    CrossReverses(e, f);
    CrossReverses(a, f);
    CrossReverses(f, d);
    CrossReverses(a, d);
    hide Cross, Between;
  }

  lemma CrossSplits(p: Point2, q: Point2, t: real)
    ensures Cross(p, q) == Cross(p, Between(p, q, t)) + Cross(Between(p, q, t), q)
  {
    var x, y := q.x - p.x, q.y - p.y;
    assert Cross(p, Between(p, q, t)) == t * (p.x * y - p.y * x);
    assert Cross(Between(p, q, t), q) == p.x * q.y - p.y * q.x - t * (p.x * y - p.y * x);
  }

  // ---------- the centroid ----------

  /** The signed area of a triangle. */
  function Triangle(a: Point2, b: Point2, c: Point2): real { ((b.x - a.x) * (c.y - a.y) - (b.y - a.y) * (c.x - a.x)) / 2.0 }

  lemma TriangleTurns(a: Point2, b: Point2, c: Point2)
    ensures 2.0 * Triangle(a, b, c) == Cross(a, b) + Cross(b, c) + Cross(c, a)
  {
  }

  lemma TriangleMoments(a: Point2, b: Point2, c: Point2)
    ensures MomentX(a, b) + MomentX(b, c) + MomentX(c, a) == 2.0 * Times(a.x + b.x + c.x, Triangle(a, b, c))
    ensures MomentY(a, b) + MomentY(b, c) + MomentY(c, a) == 2.0 * Times(a.y + b.y + c.y, Triangle(a, b, c))
  {
    TriangleTurns(a, b, c);
    var u, v, w := Cross(a, b), Cross(b, c), Cross(c, a);
    assert c.x * u + a.x * v + b.x * w == 0.0 && c.y * u + a.y * v + b.y * w == 0.0;
    Spread(a.x, b.x, c.x, u, v, w);
    Spread(a.y, b.y, c.y, u, v, w);
    Doubled(a.x + b.x + c.x, Triangle(a, b, c), u + v + w);
    Doubled(a.y + b.y + c.y, Triangle(a, b, c), u + v + w);
    hide Cross, Triangle, Times;
  }

  lemma Spread(x: real, y: real, z: real, u: real, v: real, w: real)
    requires z * u + x * v + y * w == 0.0
    ensures (x + y) * u + (y + z) * v + (z + x) * w == (x + y + z) * (u + v + w)
  {
  }

  lemma Doubled(s: real, t: real, k: real)
    requires 2.0 * t == k
    ensures 2.0 * Times(s, t) == s * k
  {
  }

  /** Area and centroid of a quadrilateral are those of the two triangles beside a diagonal, each at the mean of its corners. */
  lemma CentroidBalances(a: Point2, b: Point2, c: Point2, d: Point2, depth: real)
    requires Shoelace(a, b, c, d) != 0.0
    ensures var area, e, t, u := Shoelace(a, b, c, d), Centroid(a, b, c, d, depth), Triangle(a, b, c), Triangle(a, c, d);
            && area == t + u && e.z == depth / 2.0
            && 3.0 * Times(e.x, area) == Times(a.x + b.x + c.x, t) + Times(a.x + c.x + d.x, u)
            && 3.0 * Times(e.y, area) == Times(a.y + b.y + c.y, t) + Times(a.y + c.y + d.y, u)
  {
    TriangleTurns(a, b, c);
    TriangleTurns(a, c, d);
    CrossReverses(a, c);
    MomentsReverse(a, c);
    TriangleMoments(a, b, c);
    TriangleMoments(a, c, d);
    CentroidMoments(a, b, c, d, depth);
    var e, area := Centroid(a, b, c, d, depth), Shoelace(a, b, c, d);
    hide Cross, Triangle, MomentX, MomentY;
    assert e.z == depth / 2.0;
    hide Centroid, Times;
  }

  /** Each point of the mesh is one of the given coordinates times the chord, on the near or the far plane. */
  lemma PointsAreScaled(l: Layout, grid: seq<seq<Point2>>, chord: real, spanChords: real, m: Mesh, row: int, column: int)
    requires l.Valid() && Rectangular(l, grid) && MeshOf(l, grid, chord, spanChords, m) && 0 <= row < l.radial && 0 <= column < l.horizontal
    ensures var k, n, p := Label(l, row, column), PlaneCount(l), grid[row][column];
            && 0 <= k < n && |m.points| == 2 * n && m.points[k] == Point3(p.x * chord, p.y * chord, 0.0)
            && m.points[k + n] == Point3(p.x * chord, p.y * chord, chord * spanChords)
  {
    hide Label, RowStart, LeastVolume, MeshFaces, CentresOf;
  }

  // ---------- cones ----------

  /** Six times the signed volume of the tetrahedron over p, q, r with its apex at the origin. */
  function Determinant(p: Point3, q: Point3, r: Point3): real {
    p.x * (q.y * r.z - q.z * r.y) + p.y * (q.z * r.x - q.x * r.z) + p.z * (q.x * r.y - q.y * r.x)
  }

  /** The signed volume of the cone from the origin over a quadrilateral, averaged over its two triangulations: positive when the
      face, by the right-hand rule, looks away from the origin. */
  function Cone(a: Point3, b: Point3, c: Point3, d: Point3): real {
    (Determinant(a, b, c) + Determinant(a, c, d) + Determinant(b, c, d) + Determinant(b, d, a)) / 12.0
  }

  lemma DeterminantTurns(p: Point3, q: Point3, r: Point3)
    ensures Determinant(p, q, r) == Determinant(q, r, p) && Determinant(r, q, p) == -Determinant(p, q, r)
  {
  }

  lemma ConeTurns(a: Point3, b: Point3, c: Point3, d: Point3)
    ensures Cone(a, b, c, d) == Cone(b, c, d, a) && Cone(d, c, b, a) == -Cone(a, b, c, d)
  {
    DeterminantTurns(a, b, c);
    DeterminantTurns(c, a, b);
    DeterminantTurns(a, c, d);
    DeterminantTurns(d, a, c);
    DeterminantTurns(b, c, d);
    DeterminantTurns(a, b, d);
    hide Determinant;
  }

  function At(p: Point2, z: real): Point3 { Point3(p.x, p.y, z) }

  lemma LevelCone(a: Point2, b: Point2, c: Point2, d: Point2, z: real)
    ensures Cone(At(a, z), At(b, z), At(c, z), At(d, z)) == z * Shoelace(a, b, c, d) / 3.0
  {
    LevelDeterminant(a, b, c, z);
    LevelDeterminant(a, c, d, z);
    LevelDeterminant(b, c, d, z);
    LevelDeterminant(b, d, a, z);
    CrossReverses(a, c);
    CrossReverses(b, d);
    hide Determinant, Cross, At;
  }

  lemma LevelDeterminant(p: Point2, q: Point2, r: Point2, z: real)
    ensures Determinant(At(p, z), At(q, z), At(r, z)) == z * (Cross(p, q) + Cross(q, r) + Cross(r, p))
  {
  }

  lemma WallCone(p: Point2, q: Point2, depth: real)
    ensures Cone(At(p, 0.0), At(q, 0.0), At(q, depth), At(p, depth)) == depth * Cross(p, q) / 3.0
  {
    assert Determinant(At(p, 0.0), At(q, 0.0), At(q, depth)) == depth * Cross(p, q);
    assert Determinant(At(p, 0.0), At(q, depth), At(p, depth)) == depth * Cross(p, q);
    assert Determinant(At(q, 0.0), At(q, depth), At(p, depth)) == depth * Cross(p, q);
    assert Determinant(At(q, 0.0), At(p, depth), At(p, 0.0)) == depth * Cross(p, q);
    hide Determinant, Cross, At;
  }

  /** The six faces of the prism over a quadrilateral. */
  lemma PrismVolume(a: Point2, b: Point2, c: Point2, d: Point2, depth: real)
    ensures Cone(At(d, 0.0), At(c, 0.0), At(b, 0.0), At(a, 0.0)) + Cone(At(a, depth), At(b, depth), At(c, depth), At(d, depth))
            + Cone(At(a, 0.0), At(b, 0.0), At(b, depth), At(a, depth)) + Cone(At(b, 0.0), At(c, 0.0), At(c, depth), At(b, depth))
            + Cone(At(c, 0.0), At(d, 0.0), At(d, depth), At(c, depth)) + Cone(At(d, 0.0), At(a, 0.0), At(a, depth), At(d, depth))
            == Shoelace(a, b, c, d) * depth
  {
    LevelCone(d, c, b, a, 0.0);
    LevelCone(a, b, c, d, depth);
    WallCone(a, b, depth);
    WallCone(b, c, depth);
    WallCone(c, d, depth);
    WallCone(d, a, depth);
    hide Cone, Cross, At;
  }

  // ---------- the stored faces of a cell ----------

  predicate Inside(points: seq<Point3>, q: Quad) {
    0 <= q.a < |points| && 0 <= q.b < |points| && 0 <= q.c < |points| && 0 <= q.d < |points|
  }

  function FaceCone(points: seq<Point3>, q: Quad): real
    requires Inside(points, q)
  {
    Cone(points[q.a], points[q.b], points[q.c], points[q.d])
  }

  ghost predicate InMesh(m: Mesh, f: Face) { f in m.internal || exists p: Patch :: p in m.boundary && f in m.boundary[p] }

  /** The face bounds the cell. */
  predicate Bounds(f: Face, cell: int) { f.owner == cell || f.neighbour == Some(cell) }

  /** Faces run outward from their owner, and so inward for the neighbour. */
  function Outward(points: seq<Point3>, f: Face, cell: int): real
    requires Inside(points, f.vertices)
  {
    if f.owner == cell then FaceCone(points, f.vertices) else -FaceCone(points, f.vertices)
  }

  lemma RotatedCone(points: seq<Point3>, v: Quad, stored: Quad)
    requires ReverseRotation(v, stored) && Inside(points, v)
    ensures Inside(points, stored) && FaceCone(points, v) == -FaceCone(points, stored)
  {
    var a, b, c, d := points[stored.a], points[stored.b], points[stored.c], points[stored.d];
    ConeTurns(a, b, c, d);
    ConeTurns(d, c, b, a);
    ConeTurns(c, b, a, d);
    ConeTurns(b, a, d, c);
    hide Cone;
  }

  lemma StoredCone(points: seq<Point3>, l: Layout, orient: Orientation, s: Side)
    requires l.Valid() && HasSide(l, s) && l.wallEnd - l.wallStart >= 3 && OneDirection(l, orient)
    requires Inside(points, Vertices(l, orient(s.row, s.column), s))
    ensures var f, cell := StoredFace(l, orient, s), CellNumber(l, s.row, s.column);
            && Bounds(f, cell) && Inside(points, f.vertices)
            && Outward(points, f, cell) == FaceCone(points, Vertices(l, orient(s.row, s.column), s))
  {
    hide Vertices, FaceCone, Label, RowStart, CellNumber;
    if !First(l, s) {
      PartnerHasSide(l, s);
      var p := Partner(l, s).value;
      PartnersMirror(l, s);
      PartnersOppose(l, p, s, orient(p.row, p.column), orient(s.row, s.column));
      RotatedCone(points, Vertices(l, orient(s.row, s.column), s), Vertices(l, orient(p.row, p.column), p));
      NumbersDiffer(l, s.row, s.column, p.row, p.column);
    }
  }

  lemma {:induction false} OnPatchMembers(faces: seq<Face>, patch: Patch, f: Face)
    ensures f in OnPatch(faces, patch) <==> f in faces && f.neighbour == None && f.patch == Some(patch)
  {
    if faces != [] {
      OnPatchMembers(faces[..|faces| - 1], patch, f);
      assert faces == faces[..|faces| - 1] + [faces[|faces| - 1]];
    }
  }

  lemma MeshMembers(l: Layout, grid: seq<seq<Point2>>, chord: real, spanChords: real, m: Mesh, f: Face)
    requires l.Valid() && l.wallEnd - l.wallStart >= 3 && Rectangular(l, grid) && MeshOf(l, grid, chord, spanChords, m)
    ensures InMesh(m, f) <==> f in MeshFaces(l, Direction(GridAreas(l, grid, chord)))
  {
    var orient := Direction(GridAreas(l, grid, chord));
    var faces := MeshFaces(l, orient);
    assert m.internal == SortedByCells(Paired(faces)) && forall p: Patch :: p in m.boundary && m.boundary[p] == OnPatch(faces, p);
    hide MeshOf, MeshFaces, SortedByCells, Paired, OnPatch, GridAreas;
    InternalIsOrdered(l, orient);
    PairedMembers(faces, f);
    assert f in m.internal <==> f in multiset(m.internal);
    assert f in Paired(faces) <==> f in multiset(Paired(faces));
    forall p: Patch ensures f in m.boundary[p] <==> f in faces && f.neighbour == None && f.patch == Some(p) {
      OnPatchMembers(faces, p, f);
    }
    if f in faces {
      var j :| 0 <= j < |faces| && faces[j] == f;
      FaceIsOwned(l, orient, j);
    }
  }

  /** The face of one of the cell's sides. */
  ghost predicate IsSideFace(l: Layout, orient: Orientation, row: int, column: int, f: Face)
    requires l.Valid() && l.HasCell(row, column)
  {
    exists kind: Kind :: f == StoredFace(l, orient, Side(row, column, kind))
  }

  lemma StoredIsListed(l: Layout, orient: Orientation, s: Side)
    requires l.Valid() && HasSide(l, s)
    ensures StoredFace(l, orient, s) in MeshFaces(l, orient) && Bounds(StoredFace(l, orient, s), CellNumber(l, s.row, s.column))
  {
    hide Vertices, CellNumber, Firsts;
    var sides := Firsts(l, orient, CellRows(l));
    FirstsAreSides(l, orient);
    if !First(l, s) {
      PartnerHasSide(l, s);
      PartnersMirror(l, s);
    }
    var stored := if First(l, s) then s else Partner(l, s).value;
    FirstsMembers(l, orient, CellRows(l), stored);
    var j :| 0 <= j < |sides| && sides[j] == stored;
    assert MeshFaces(l, orient)[j] == StoredFace(l, orient, s);
  }

  lemma ListedIsStored(l: Layout, orient: Orientation, row: int, column: int, f: Face)
    requires l.Valid() && l.HasCell(row, column) && f in MeshFaces(l, orient) && Bounds(f, CellNumber(l, row, column))
    ensures IsSideFace(l, orient, row, column, f)
  {
    hide Vertices, CellNumber, Firsts, IsSideFace;
    var sides := Firsts(l, orient, CellRows(l));
    FirstsAreSides(l, orient);
    var j :| 0 <= j < |sides| && FinalFace(l, orient, sides[j]) == f;
    var s := sides[j];
    assert s in sides;
    FirstsMembers(l, orient, CellRows(l), s);
    NumbersDiffer(l, s.row, s.column, row, column);
    if s.row == row && s.column == column {
      SideFaceIs(l, orient, s);
    } else {
      var t := Partner(l, s).value;
      PartnersMirror(l, s);
      NumbersDiffer(l, t.row, t.column, row, column);
      SideFaceIs(l, orient, t);
    }
  }

  lemma SideFaceIs(l: Layout, orient: Orientation, s: Side)
    requires l.Valid() && HasSide(l, s)
    ensures IsSideFace(l, orient, s.row, s.column, StoredFace(l, orient, s))
  {
    assert s == Side(s.row, s.column, s.kind);
  }

  /** The faces of the mesh that bound a cell are those of its six sides, and no others. */
  lemma BoundingFaces(l: Layout, grid: seq<seq<Point2>>, chord: real, spanChords: real, m: Mesh, row: int, column: int, f: Face)
    requires l.Valid() && l.wallEnd - l.wallStart >= 3 && Rectangular(l, grid) && MeshOf(l, grid, chord, spanChords, m) && l.HasCell(row, column)
    ensures InMesh(m, f) && Bounds(f, CellNumber(l, row, column)) <==> IsSideFace(l, Direction(GridAreas(l, grid, chord)), row, column, f)
  {
    var orient := Direction(GridAreas(l, grid, chord));
    hide MeshOf, InMesh, GridAreas, CellNumber, MeshFaces, StoredFace;
    MeshMembers(l, grid, chord, spanChords, m, f);
    if f in MeshFaces(l, orient) && Bounds(f, CellNumber(l, row, column)) {
      ListedIsStored(l, orient, row, column, f);
    }
    if kind: Kind :| f == StoredFace(l, orient, Side(row, column, kind)) {
      StoredIsListed(l, orient, Side(row, column, kind));
    }
  }

  /** Which exterior surface a side of a cell lies on, if any. */
  predicate LiesOn(l: Layout, s: Side, p: Patch) {
    match p
    case FrontAndBack => s.kind == Front || s.kind == Back
    case Airfoil => s.kind == Bottom && s.row == 0 && l.wallStart <= s.column < l.wallEnd
    case Inlet => s.kind == Top && s.row == l.radial - 2
    case Outlet => (s.kind == Left && s.column == 0) || (s.kind == Right && s.column == l.horizontal - 2)
  }

  /** The face of a side is listed under exactly the surface the side lies on; the wall is the bottom of the first row. */
  lemma PatchesAre(l: Layout, grid: seq<seq<Point2>>, chord: real, spanChords: real, m: Mesh, s: Side, p: Patch)
    requires l.Valid() && l.wallEnd - l.wallStart >= 3 && Rectangular(l, grid) && MeshOf(l, grid, chord, spanChords, m) && HasSide(l, s)
    ensures p in m.boundary && (StoredFace(l, Direction(GridAreas(l, grid, chord)), s) in m.boundary[p] <==> LiesOn(l, s, p))
  {
    var orient := Direction(GridAreas(l, grid, chord));
    var f, faces := StoredFace(l, orient, s), MeshFaces(l, orient);
    assert p in m.boundary && m.boundary[p] == OnPatch(faces, p);
    hide *;
    StoredIsListed(l, orient, s);
    OnPatchMembers(faces, p, f);
    StoredPatch(l, orient, s, p);
    PatchIs(l, s, p);
  }

  lemma StoredPatch(l: Layout, orient: Orientation, s: Side, p: Patch)
    requires l.Valid() && HasSide(l, s)
    ensures var f := StoredFace(l, orient, s); f.neighbour == None && f.patch == Some(p) <==> PatchOf(l, s) == Some(p)
  {
    SidesAreMatchedOrPatched(l, s);
    if Partner(l, s).Some? { PartnersMirror(l, s); }
    hide Vertices, CellNumber, Partner, PatchOf, First;
  }

  lemma PatchIs(l: Layout, s: Side, p: Patch)
    ensures PatchOf(l, s) == Some(p) <==> LiesOn(l, s, p)
  {
  }

  // ---------- the volume ----------

  ghost predicate AllInside(points: seq<Point3>, faces: seq<Face>) { forall f :: f in faces ==> Inside(points, f.vertices) }

  /** The signed volume the faces enclose, each taken outward from the cell. */
  ghost function Enclosed(points: seq<Point3>, faces: seq<Face>, cell: int): real
    requires AllInside(points, faces)
  {
    if faces == [] then 0.0 else Enclosed(points, faces[..|faces| - 1], cell) + Outward(points, faces[|faces| - 1], cell)
  }

  /** The six faces of a cell, in the order its sides are processed. */
  ghost function CellFaces(l: Layout, orient: Orientation, row: int, column: int): (faces: seq<Face>)
    requires l.Valid() && l.HasCell(row, column)
    ensures |faces| == 6 && forall i :: 0 <= i < 6 ==> faces[i] == StoredFace(l, orient, Side(row, column, KindAt(true, i)))
  {
    seq(6, i requires 0 <= i < 6 => StoredFace(l, orient, Side(row, column, KindAt(true, i))))
  }

  lemma EnclosedBySix(points: seq<Point3>, f: seq<Face>, cell: int)
    requires |f| == 6 && AllInside(points, f)
    ensures Enclosed(points, f, cell) == Outward(points, f[0], cell) + Outward(points, f[1], cell) + Outward(points, f[2], cell)
                                       + Outward(points, f[3], cell) + Outward(points, f[4], cell) + Outward(points, f[5], cell)
  {
    hide Outward;
    assert f[..5][..4] == f[..4] && f[..4][..3] == f[..3] && f[..3][..2] == f[..2] && f[..2][..1] == f[..1] && f[..1][..0] == [];
    assert Enclosed(points, f[..1], cell) == Outward(points, f[0], cell);
    assert Enclosed(points, f[..2], cell) == Enclosed(points, f[..1], cell) + Outward(points, f[1], cell);
    assert Enclosed(points, f[..3], cell) == Enclosed(points, f[..2], cell) + Outward(points, f[2], cell);
    assert Enclosed(points, f[..4], cell) == Enclosed(points, f[..3], cell) + Outward(points, f[3], cell);
    assert Enclosed(points, f[..5], cell) == Enclosed(points, f[..4], cell) + Outward(points, f[4], cell);
  }

  /** The points of a planar quadrilateral near and far. */
  ghost predicate Lifts(points: seq<Point3>, q: Quad, n: int, a: Point2, b: Point2, c: Point2, d: Point2, depth: real) {
    && Inside(points, q) && Inside(points, Shifted(q, n))
    && points[q.a] == At(a, 0.0) && points[q.b] == At(b, 0.0) && points[q.c] == At(c, 0.0) && points[q.d] == At(d, 0.0)
    && points[q.a + n] == At(a, depth) && points[q.b + n] == At(b, depth) && points[q.c + n] == At(c, depth) && points[q.d + n] == At(d, depth)
  }

  lemma LiftsReverse(points: seq<Point3>, q: Quad, n: int, a: Point2, b: Point2, c: Point2, d: Point2, depth: real)
    requires Lifts(points, q, n, a, b, c, d, depth)
    ensures Lifts(points, Reversed(q), n, d, c, b, a, depth)
  {
  }

  lemma BoxCones(points: seq<Point3>, q: Quad, n: int, a: Point2, b: Point2, c: Point2, d: Point2, depth: real)
    requires Lifts(points, q, n, a, b, c, d, depth)
    ensures BoxInside(points, q, n) && BoxCone(points, q, n) == Times(Shoelace(a, b, c, d), depth)
  {
    PrismVolume(a, b, c, d, depth);
    hide Cone, Shoelace, At;
  }

  ghost predicate SidesInside(points: seq<Point3>, l: Layout, ccw: bool, row: int, column: int)
    requires l.Valid() && l.HasCell(row, column)
  {
    forall kind: Kind :: Inside(points, Vertices(l, ccw, Side(row, column, kind)))
  }

  /** The six faces of a cell as its sides run them. */
  ghost function SideCones(points: seq<Point3>, l: Layout, ccw: bool, row: int, column: int): real
    requires l.Valid() && l.HasCell(row, column) && SidesInside(points, l, ccw, row, column)
  {
    FaceCone(points, Vertices(l, ccw, Side(row, column, Front))) + FaceCone(points, Vertices(l, ccw, Side(row, column, Back)))
    + FaceCone(points, Vertices(l, ccw, Side(row, column, Bottom))) + FaceCone(points, Vertices(l, ccw, Side(row, column, Right)))
    + FaceCone(points, Vertices(l, ccw, Side(row, column, Top))) + FaceCone(points, Vertices(l, ccw, Side(row, column, Left)))
  }

  /** The quadrilateral of a cell as its orientation runs it. */
  ghost function Run(l: Layout, ccw: bool, row: int, column: int): Quad
    requires l.Valid() && l.HasCell(row, column)
  {
    if ccw then CellQuad(l, true, row, column) else Reversed(CellQuad(l, true, row, column))
  }

  ghost predicate BoxInside(points: seq<Point3>, q: Quad, n: int) {
    && Inside(points, Reversed(q)) && Inside(points, Shifted(q, n)) && Inside(points, Extruded(q.a, q.b, n))
    && Inside(points, Extruded(q.b, q.c, n)) && Inside(points, Extruded(q.c, q.d, n)) && Inside(points, Extruded(q.d, q.a, n))
  }

  lemma SidesAreInside(points: seq<Point3>, l: Layout, ccw: bool, row: int, column: int)
    requires l.Valid() && l.HasCell(row, column) && BoxInside(points, Run(l, ccw, row, column), PlaneCount(l))
    ensures SidesInside(points, l, ccw, row, column)
  {
    VerticesAre(l, ccw, row, column);
    forall kind: Kind ensures Inside(points, Vertices(l, ccw, Side(row, column, kind))) {
      hide Run, Vertices, CellQuad, PlaneCount, Inside, Extruded, Shifted, Reversed;
      match kind {
        case Front =>
        case Back =>
        case Bottom =>
        case Right =>
        case Top =>
        case Left =>
      }
    }
    hide Vertices;
  }

  ghost function BoxCone(points: seq<Point3>, q: Quad, n: int): real
    requires BoxInside(points, q, n)
  {
    FaceCone(points, Reversed(q)) + FaceCone(points, Shifted(q, n))
    + FaceCone(points, Extruded(q.a, q.b, n)) + FaceCone(points, Extruded(q.b, q.c, n))
    + FaceCone(points, Extruded(q.c, q.d, n)) + FaceCone(points, Extruded(q.d, q.a, n))
  }

  lemma SidesAreBox(points: seq<Point3>, l: Layout, ccw: bool, row: int, column: int)
    requires l.Valid() && l.HasCell(row, column) && BoxInside(points, Run(l, ccw, row, column), PlaneCount(l))
    ensures SidesInside(points, l, ccw, row, column)
    ensures SideCones(points, l, ccw, row, column) == BoxCone(points, Run(l, ccw, row, column), PlaneCount(l))
  {
    SidesAreInside(points, l, ccw, row, column);
    VerticesAre(l, ccw, row, column);
    hide Run, Vertices, CellQuad, PlaneCount, Inside, Extruded, Shifted, Reversed, FaceCone;
  }

  lemma SidesEnclose(points: seq<Point3>, l: Layout, ccw: bool, row: int, column: int, a: Point2, b: Point2, c: Point2, d: Point2, depth: real)
    requires l.Valid() && l.HasCell(row, column)
    requires Lifts(points, CellQuad(l, true, row, column), PlaneCount(l), a, b, c, d, depth)
    ensures SidesInside(points, l, ccw, row, column)
    ensures SideCones(points, l, ccw, row, column) == Times(if ccw then Shoelace(a, b, c, d) else -Shoelace(a, b, c, d), depth)
  {
    var q, n, run := CellQuad(l, true, row, column), PlaneCount(l), Run(l, ccw, row, column);
    assert run == if ccw then q else Reversed(q);
    hide *;
    if ccw {
      BoxCones(points, q, n, a, b, c, d, depth);
    } else {
      ShoelaceReverses(a, b, c, d);
      LiftsReverse(points, q, n, a, b, c, d, depth);
      BoxCones(points, Reversed(q), n, d, c, b, a, depth);
    }
    SidesAreBox(points, l, ccw, row, column);
  }

  lemma VerticesAre(l: Layout, ccw: bool, row: int, column: int)
    requires l.Valid() && l.HasCell(row, column)
    ensures var q, n := Run(l, ccw, row, column), PlaneCount(l);
            && Vertices(l, ccw, Side(row, column, Front)) == Reversed(q) && Vertices(l, ccw, Side(row, column, Back)) == Shifted(q, n)
            && Vertices(l, ccw, Side(row, column, Bottom)) == (if ccw then Extruded(q.a, q.b, n) else Extruded(q.c, q.d, n))
            && Vertices(l, ccw, Side(row, column, Right)) == Extruded(q.b, q.c, n)
            && Vertices(l, ccw, Side(row, column, Top)) == (if ccw then Extruded(q.c, q.d, n) else Extruded(q.a, q.b, n))
            && Vertices(l, ccw, Side(row, column, Left)) == Extruded(q.d, q.a, n)
  {
    hide Label, RowStart;
  }

  lemma CornersLift(l: Layout, grid: seq<seq<Point2>>, chord: real, spanChords: real, depth: real, m: Mesh, row: int, column: int)
    requires l.Valid() && Rectangular(l, grid) && MeshOf(l, grid, chord, spanChords, m) && l.HasCell(row, column) && depth == Times(chord, spanChords)
    ensures Lifts(m.points, CellQuad(l, true, row, column), PlaneCount(l),
                  Corner(l, grid, chord, row, column), Corner(l, grid, chord, row, column + 1),
                  Corner(l, grid, chord, row + 1, column + 1), Corner(l, grid, chord, row + 1, column), depth)
  {
    hide Label, RowStart, Scaled, LeastVolume, MeshFaces, CentresOf, SortedByCells, Paired, OnPatch;
  }

  lemma StoredFacesDiffer(l: Layout, orient: Orientation, s: Side, t: Side)
    requires l.Valid() && HasSide(l, s) && HasSide(l, t) && l.wallEnd - l.wallStart >= 3
    requires s.row == t.row && s.column == t.column && s.kind != t.kind
    ensures StoredFace(l, orient, s) != StoredFace(l, orient, t)
  {
    hide Vertices, CellNumber, Firsts, Partner, First, FaceAt;
    var sides := Firsts(l, orient, CellRows(l));
    FirstsAreSides(l, orient);
    if !First(l, s) { PartnerHasSide(l, s); PartnersMirror(l, s); }
    if !First(l, t) { PartnerHasSide(l, t); PartnersMirror(l, t); }
    var u := if First(l, s) then s else Partner(l, s).value;
    var v := if First(l, t) then t else Partner(l, t).value;
    if Partner(l, u).Some? { PartnersMirror(l, u); }
    if Partner(l, v).Some? { PartnersMirror(l, v); }
    assert u != v;
    FirstsMembers(l, orient, CellRows(l), u);
    FirstsMembers(l, orient, CellRows(l), v);
    var i :| 0 <= i < |sides| && sides[i] == u;
    var j :| 0 <= j < |sides| && sides[j] == v;
    FacesAreDistinct(l, orient, if i < j then i else j, if i < j then j else i);
    if FinalFace(l, orient, u) == FinalFace(l, orient, v) {
      SameVerticesIsEquivalence(FinalFace(l, orient, u).vertices, FinalFace(l, orient, u).vertices, FinalFace(l, orient, v).vertices);
      SameIsSame(FinalFace(l, orient, u).vertices);
    }
  }

  lemma SameIsSame(q: Quad)
    ensures SameVertices(q, q)
  {
  }

  /** These six different faces, and no others of the mesh, bound the cell. */
  ghost predicate BoundedBySix(m: Mesh, cell: int, faces: seq<Face>) {
    && |faces| == 6 && (forall i, j :: 0 <= i < j < 6 ==> faces[i] != faces[j])
    && forall f :: InMesh(m, f) && Bounds(f, cell) <==> f in faces
  }

  lemma CellFacesBound(l: Layout, grid: seq<seq<Point2>>, chord: real, spanChords: real, m: Mesh, row: int, column: int)
    requires l.Valid() && l.wallEnd - l.wallStart >= 3 && Rectangular(l, grid) && MeshOf(l, grid, chord, spanChords, m) && l.HasCell(row, column)
    ensures BoundedBySix(m, CellNumber(l, row, column), CellFaces(l, Direction(GridAreas(l, grid, chord)), row, column))
  {
    var orient := Direction(GridAreas(l, grid, chord));
    var faces := CellFaces(l, orient, row, column);
    hide *;
    forall i, j | 0 <= i < j < 6 ensures faces[i] != faces[j] {
      KindsDiffer(i, j);
      StoredFacesDiffer(l, orient, Side(row, column, KindAt(true, i)), Side(row, column, KindAt(true, j)));
    }
    forall f ensures InMesh(m, f) && Bounds(f, CellNumber(l, row, column)) <==> f in faces {
      BoundingFaces(l, grid, chord, spanChords, m, row, column, f);
      SideFacesAreListed(l, orient, row, column, f);
    }
    SixBound(m, CellNumber(l, row, column), faces);
  }

  lemma SixBound(m: Mesh, cell: int, faces: seq<Face>)
    requires |faces| == 6 && forall i, j :: 0 <= i < j < 6 ==> faces[i] != faces[j]
    requires forall f :: InMesh(m, f) && Bounds(f, cell) <==> f in faces
    ensures BoundedBySix(m, cell, faces)
  {
    hide InMesh, Bounds;
  }

  lemma KindsDiffer(i: int, j: int)
    requires 0 <= i < j < 6
    ensures KindAt(true, i) != KindAt(true, j)
  {
  }

  lemma SideFacesAreListed(l: Layout, orient: Orientation, row: int, column: int, f: Face)
    requires l.Valid() && l.HasCell(row, column)
    ensures IsSideFace(l, orient, row, column, f) <==> f in CellFaces(l, orient, row, column)
  {
    hide StoredFace, CellFaces;
    if kind: Kind :| f == StoredFace(l, orient, Side(row, column, kind)) {
      assert KindAt(true, Position(true, kind)) == kind;
      assert CellFaces(l, orient, row, column)[Position(true, kind)] == f;
    }
  }

  lemma CellFacesEnclose(points: seq<Point3>, l: Layout, orient: Orientation, row: int, column: int)
    requires l.Valid() && l.HasCell(row, column) && l.wallEnd - l.wallStart >= 3 && OneDirection(l, orient)
    requires SidesInside(points, l, orient(row, column), row, column)
    ensures AllInside(points, CellFaces(l, orient, row, column))
    ensures Enclosed(points, CellFaces(l, orient, row, column), CellNumber(l, row, column)) == SideCones(points, l, orient(row, column), row, column)
  {
    hide Vertices, FaceCone, StoredFace, CellFaces, CellNumber, Inside, Enclosed, Outward, OneDirection;
    StoredCone(points, l, orient, Side(row, column, Front));
    StoredCone(points, l, orient, Side(row, column, Back));
    StoredCone(points, l, orient, Side(row, column, Bottom));
    StoredCone(points, l, orient, Side(row, column, Right));
    StoredCone(points, l, orient, Side(row, column, Top));
    StoredCone(points, l, orient, Side(row, column, Left));
    EnclosedBySix(points, CellFaces(l, orient, row, column), CellNumber(l, row, column));
  }

  lemma CellFacesFill(points: seq<Point3>, l: Layout, areas: Areas, row: int, column: int, a: Point2, b: Point2, c: Point2, d: Point2, depth: real)
    requires l.Valid() && l.HasCell(row, column) && l.wallEnd - l.wallStart >= 3 && OneDirection(l, Direction(areas))
    requires areas(row, column) == Shoelace(a, b, c, d) != 0.0 && Direction(areas)(row, column) == (areas(row, column) > 0.0) && depth > 0.0
    requires Lifts(points, CellQuad(l, true, row, column), PlaneCount(l), a, b, c, d, depth)
    ensures AllInside(points, CellFaces(l, Direction(areas), row, column))
    ensures 0.0 < Enclosed(points, CellFaces(l, Direction(areas), row, column), CellNumber(l, row, column)) == Volume(areas, depth, row, column)
  {
    hide *;
    SidesEnclose(points, l, Direction(areas)(row, column), row, column, a, b, c, d, depth);
    CellFacesEnclose(points, l, Direction(areas), row, column);
    VolumeTimes(areas, depth, row, column);
    Magnitude(areas(row, column), depth);
  }

  /** A position's scaled coordinates. */
  function Corner(l: Layout, grid: seq<seq<Point2>>, chord: real, row: int, column: int): Point2
    requires Rectangular(l, grid) && 0 <= row < l.radial && 0 <= column < l.horizontal
  {
    Scaled(grid[row][column], chord)
  }

  lemma CellArea(l: Layout, grid: seq<seq<Point2>>, chord: real, row: int, column: int)
    requires Rectangular(l, grid) && l.HasCell(row, column)
    ensures GridAreas(l, grid, chord)(row, column) ==
            Shoelace(Corner(l, grid, chord, row, column), Corner(l, grid, chord, row, column + 1),
                     Corner(l, grid, chord, row + 1, column + 1), Corner(l, grid, chord, row + 1, column))
  {
    hide Shoelace, Scaled;
  }

  lemma CellIsEnclosed(l: Layout, grid: seq<seq<Point2>>, chord: real, spanChords: real, depth: real, m: Mesh, row: int, column: int)
    requires l.Valid() && l.wallEnd - l.wallStart >= 3 && Rectangular(l, grid) && MeshOf(l, grid, chord, spanChords, m) && l.HasCell(row, column)
    requires OneSign(l, GridAreas(l, grid, chord)) && depth == Times(chord, spanChords) && depth > 0.0
    ensures var areas := GridAreas(l, grid, chord);
            var faces := CellFaces(l, Direction(areas), row, column);
            && AllInside(m.points, faces)
            && 0.0 < Enclosed(m.points, faces, CellNumber(l, row, column)) == Volume(areas, depth, row, column)
  {
    var areas := GridAreas(l, grid, chord);
    var a, b := Corner(l, grid, chord, row, column), Corner(l, grid, chord, row, column + 1);
    var c, d := Corner(l, grid, chord, row + 1, column + 1), Corner(l, grid, chord, row + 1, column);
    hide *;
    SignsAgree(l, areas, row, column);
    CornersLift(l, grid, chord, spanChords, depth, m, row, column);
    CellArea(l, grid, chord, row, column);
    CellFacesFill(m.points, l, areas, row, column, a, b, c, d, depth);
  }

  /** Every cell of a finished mesh is bounded by exactly six of its faces, and they enclose, outward from the cell by the right-hand
      rule, a positive volume: the one the builder minimises. */
  lemma CellIsFilled(l: Layout, grid: seq<seq<Point2>>, chord: real, spanChords: real, m: Mesh, row: int, column: int) returns (faces: seq<Face>)
    requires l.Valid() && l.wallEnd - l.wallStart >= 3 && Rectangular(l, grid) && MeshOf(l, grid, chord, spanChords, m) && l.HasCell(row, column)
    requires OneSign(l, GridAreas(l, grid, chord)) && chord > 0.0 && spanChords > 0.0
    ensures BoundedBySix(m, CellNumber(l, row, column), faces)
    ensures AllInside(m.points, faces)
    ensures 0.0 < Enclosed(m.points, faces, CellNumber(l, row, column)) == Volume(GridAreas(l, grid, chord), Times(chord, spanChords), row, column)
  {
    var areas := GridAreas(l, grid, chord);
    faces := CellFaces(l, Direction(areas), row, column);
    assert BoundedBySix(m, CellNumber(l, row, column), faces) by {
      hide *;
      CellFacesBound(l, grid, chord, spanChords, m, row, column);
    }
    hide *;
    TimesPositive(chord, spanChords);
    CellIsEnclosed(l, grid, chord, spanChords, Times(chord, spanChords), m, row, column);
  }

  lemma TimesPositive(a: real, b: real)
    requires a > 0.0 && b > 0.0
    ensures Times(a, b) > 0.0
  {
    Positive(a, b);
  }

  lemma Magnitude(area: real, depth: real)
    requires area != 0.0 && depth > 0.0
    ensures Times(if area > 0.0 then area else -area, depth) == Times(Absolute(area), depth) > 0.0
  {
    Positive(Absolute(area), depth);
  }

  lemma VolumeTimes(areas: Areas, depth: real, row: int, column: int)
    ensures Volume(areas, depth, row, column) == Times(Absolute(areas(row, column)), depth)
  {
  }

  lemma SignsAgree(l: Layout, areas: Areas, row: int, column: int)
    requires OneSign(l, areas) && l.HasCell(row, column)
    ensures OneDirection(l, Direction(areas)) && areas(row, column) != 0.0
    ensures Direction(areas)(row, column) == (areas(row, column) > 0.0)
  {
    assert l.HasCell(0, 0);
  }

  /** The cell encloses this much or more. */
  ghost predicate AtLeast(areas: Areas, depth: real, value: real, row: int, column: int) { value <= Volume(areas, depth, row, column) }

  /** The minimum volume of the mesh is the volume of one of its cells, and no cell has less. */
  lemma MinimumIsAttained(l: Layout, grid: seq<seq<Point2>>, chord: real, spanChords: real, m: Mesh) returns (row: int, column: int)
    requires l.Valid() && Rectangular(l, grid) && MeshOf(l, grid, chord, spanChords, m) && l.HasCell(0, 0)
    ensures l.HasCell(row, column) && m.minimumVolume == Some(Volume(GridAreas(l, grid, chord), chord * spanChords, row, column))
    ensures forall r, c :: l.HasCell(r, c) ==>
              AtLeast(GridAreas(l, grid, chord), chord * spanChords, Volume(GridAreas(l, grid, chord), chord * spanChords, row, column), r, c)
  {
    var areas, depth := GridAreas(l, grid, chord), chord * spanChords;
    assert LeastVolume(l, areas, depth, m.minimumVolume, CellRows(l), 0);
    hide MeshOf, GridAreas, Volume;
    assert Before(0, 0, CellRows(l), 0);
    row, column :| l.HasCell(row, column) && Before(row, column, CellRows(l), 0) && m.minimumVolume.value == Volume(areas, depth, row, column);
    forall r, c | l.HasCell(r, c) ensures AtLeast(areas, depth, Volume(areas, depth, row, column), r, c) {
      assert Before(r, c, CellRows(l), 0);
    }
  }
}

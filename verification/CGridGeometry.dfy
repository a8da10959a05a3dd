/** Orientation and area of a completed mesh: closed outward cells, and cancellation of interior edges. */
module CGridGeometry {
  import opened Arithmetic
  import opened CGridTopology
  import opened CGridMesh
  import opened CGridTheorems

  // ---------- closed cells ----------

  /** How often a face runs along the directed edge from u to v. */
  function Runs(q: Quad, u: int, v: int): nat {
    Indicator(q.a == u && q.b == v) + Indicator(q.b == u && q.c == v) + Indicator(q.c == u && q.d == v) + Indicator(q.d == u && q.a == v)
  }

  /** The face stored for a side, under the cell that met it first. */
  ghost function StoredFace(l: Layout, orient: Orientation, s: Side): Face
    requires l.Valid() && HasSide(l, s)
  {
    if First(l, s) then FinalFace(l, orient, s)
    else
      PartnerHasSide(l, s);
      FinalFace(l, orient, Partner(l, s).value)
  }

  lemma PartnerHasSide(l: Layout, s: Side)
    requires l.Valid() && HasSide(l, s) && !First(l, s)
    ensures Partner(l, s).Some? && HasSide(l, Partner(l, s).value)
  {
    SidesAreMatchedOrPatched(l, s);
    PartnersMirror(l, s);
  }

  /** The stored face of a side as its cell sees it: as stored for the owner, reversed for the neighbour. */
  ghost function SeenFrom(l: Layout, orient: Orientation, s: Side): Quad
    requires l.Valid() && HasSide(l, s)
  {
    var stored := StoredFace(l, orient, s);
    if stored.owner == CellNumber(l, s.row, s.column) then stored.vertices else Reversed(stored.vertices)
  }

  lemma RotationRuns(v: Quad, stored: Quad, x: int, y: int)
    requires ReverseRotation(v, stored)
    ensures Runs(Reversed(stored), x, y) == Runs(v, x, y)
  {
  }

  ghost predicate OneDirection(l: Layout, orient: Orientation) {
    forall r, c :: l.HasCell(r, c) ==> orient(r, c) == orient(0, 0)
  }

  lemma SeenRuns(l: Layout, orient: Orientation, s: Side, x: int, y: int)
    requires l.Valid() && HasSide(l, s) && l.wallEnd - l.wallStart >= 3 && OneDirection(l, orient)
    ensures Runs(SeenFrom(l, orient, s), x, y) == Runs(Vertices(l, orient(s.row, s.column), s), x, y)
  {
    hide Vertices, Runs, Label, RowStart;
    SidesAreMatchedOrPatched(l, s);
    if !First(l, s) {
      var p := Partner(l, s).value;
      PartnersMirror(l, s);
      PartnersOppose(l, p, s, orient(p.row, p.column), orient(s.row, s.column));
      RotationRuns(Vertices(l, orient(s.row, s.column), s), Vertices(l, orient(p.row, p.column), p), x, y);
    }
  }

  /** Traversals of one directed edge by the six faces of a box over a planar quadrilateral. */
  function BoxRuns(q: Quad, n: int, u: int, v: int): nat {
    Runs(Reversed(q), u, v) + Runs(Shifted(q, n), u, v)
    + Runs(Extruded(q.a, q.b, n), u, v) + Runs(Extruded(q.b, q.c, n), u, v)
    + Runs(Extruded(q.c, q.d, n), u, v) + Runs(Extruded(q.d, q.a, n), u, v)
  }

  lemma LowerPlaneIsClosed(q: Quad, n: int, u: int, v: int)
    requires Distinct(q) && 0 <= q.a < n && 0 <= q.b < n && 0 <= q.c < n && 0 <= q.d < n
    requires u < n && v < n
    ensures BoxRuns(q, n, u, v) == Runs(Reversed(q), u, v) + Runs(q, u, v)
    ensures Runs(Reversed(q), u, v) + Runs(q, u, v) == Runs(Reversed(q), v, u) + Runs(q, v, u) <= 1
  {
  }

  lemma UpperPlaneIsClosed(q: Quad, n: int, u: int, v: int)
    requires Distinct(q) && 0 <= q.a < n && 0 <= q.b < n && 0 <= q.c < n && 0 <= q.d < n
    requires n <= u && n <= v
    ensures BoxRuns(q, n, u, v) == Runs(q, u - n, v - n) + Runs(Reversed(q), u - n, v - n)
  {
  }

  function Holds(q: Quad, u: int): nat { Indicator(q.a == u) + Indicator(q.b == u) + Indicator(q.c == u) + Indicator(q.d == u) }

  lemma VerticalEdgesAreClosed(q: Quad, n: int, u: int, v: int)
    requires Distinct(q) && 0 <= q.a < n && 0 <= q.b < n && 0 <= q.c < n && 0 <= q.d < n
    requires u < n <= v || v < n <= u
    ensures BoxRuns(q, n, u, v) == if v == u + n then Holds(q, u) else if u == v + n then Holds(q, v) else 0
  {
  }

  lemma BoxIsClosed(q: Quad, n: int, u: int, v: int)
    requires Distinct(q) && 0 <= q.a < n && 0 <= q.b < n && 0 <= q.c < n && 0 <= q.d < n
    ensures BoxRuns(q, n, u, v) == BoxRuns(q, n, v, u) <= 1
  {
    hide BoxRuns, Runs;
    if u < n && v < n {
      LowerPlaneIsClosed(q, n, u, v);
      LowerPlaneIsClosed(q, n, v, u);
    } else if n <= u && n <= v {
      UpperPlaneIsClosed(q, n, u, v);
      UpperPlaneIsClosed(q, n, v, u);
      LowerPlaneIsClosed(q, n, if u - n < n then u - n else -1, if v - n < n then v - n else -1);
      FarRuns(q, n, u - n, v - n);
    } else {
      VerticalEdgesAreClosed(q, n, u, v);
      VerticalEdgesAreClosed(q, n, v, u);
    }
  }

  lemma FarRuns(q: Quad, n: int, u: int, v: int)
    requires q.a < n && q.b < n && q.c < n && q.d < n
    ensures u >= n || v >= n ==> Runs(q, u, v) == Runs(q, v, u) == Runs(Reversed(q), u, v) == Runs(Reversed(q), v, u) == 0
  {
  }

  /** Traversals of one directed edge by the six faces of a cell, each seen outward from the cell. */
  ghost function Traversals(l: Layout, orient: Orientation, row: int, column: int, u: int, v: int): nat
    requires l.Valid() && l.HasCell(row, column)
  {
    Runs(SeenFrom(l, orient, Side(row, column, Front)), u, v) + Runs(SeenFrom(l, orient, Side(row, column, Back)), u, v)
    + Runs(SeenFrom(l, orient, Side(row, column, Bottom)), u, v) + Runs(SeenFrom(l, orient, Side(row, column, Right)), u, v)
    + Runs(SeenFrom(l, orient, Side(row, column, Top)), u, v) + Runs(SeenFrom(l, orient, Side(row, column, Left)), u, v)
  }

  lemma CellRunsAreBoxRuns(l: Layout, ccw: bool, row: int, column: int, u: int, v: int)
    requires l.Valid() && l.HasCell(row, column)
    ensures Runs(Vertices(l, ccw, Side(row, column, Front)), u, v) + Runs(Vertices(l, ccw, Side(row, column, Back)), u, v)
            + Runs(Vertices(l, ccw, Side(row, column, Bottom)), u, v) + Runs(Vertices(l, ccw, Side(row, column, Right)), u, v)
            + Runs(Vertices(l, ccw, Side(row, column, Top)), u, v) + Runs(Vertices(l, ccw, Side(row, column, Left)), u, v)
            == BoxRuns(CellQuad(l, ccw, row, column), PlaneCount(l), u, v)
  {
    hide Runs, Label, RowStart;
  }

  /** The six faces of every cell form a closed surface: each directed edge at most once, each with its reverse. */
  lemma CellIsClosed(l: Layout, orient: Orientation, row: int, column: int, u: int, v: int)
    requires l.Valid() && l.HasCell(row, column) && l.wallEnd - l.wallStart >= 3 && OneDirection(l, orient)
    ensures Traversals(l, orient, row, column, u, v) == Traversals(l, orient, row, column, v, u) <= 1
  {
    CellQuadInPlane(l, orient(row, column), row, column);
    hide Runs, Vertices, SeenFrom, Label, RowStart, CellQuad, BoxRuns;
    forall kind: Kind, x, y
      ensures Runs(SeenFrom(l, orient, Side(row, column, kind)), x, y) == Runs(Vertices(l, orient(row, column), Side(row, column, kind)), x, y)
    {
      SeenRuns(l, orient, Side(row, column, kind), x, y);
    }
    CellRunsAreBoxRuns(l, orient(row, column), row, column, u, v);
    CellRunsAreBoxRuns(l, orient(row, column), row, column, v, u);
    BoxIsClosed(CellQuad(l, orient(row, column), row, column), PlaneCount(l), u, v);
  }

  lemma CellQuadInPlane(l: Layout, ccw: bool, row: int, column: int)
    requires l.Valid() && l.HasCell(row, column) && l.wallEnd - l.wallStart >= 3
    ensures var q, n := CellQuad(l, ccw, row, column), PlaneCount(l);
            Distinct(q) && 0 <= q.a < n && 0 <= q.b < n && 0 <= q.c < n && 0 <= q.d < n
  {
    QuadIsDistinct(l, row, column);
    LabelBelow(l, row, column, l.radial);
    LabelBelow(l, row, column + 1, l.radial);
    LabelBelow(l, row + 1, column + 1, l.radial);
    LabelBelow(l, row + 1, column, l.radial);
  }

  function Flat(p: Point3): Point2 { Point2(p.x, p.y) }

  lemma ShoelaceReverses(a: Point2, b: Point2, c: Point2, d: Point2)
    ensures Shoelace(d, c, b, a) == -Shoelace(a, b, c, d)
  {
    CrossReverses(a, b);
    CrossReverses(b, c);
    CrossReverses(c, d);
    CrossReverses(d, a);
  }

  lemma CrossReverses(p: Point2, q: Point2)
    ensures Cross(q, p) == -Cross(p, q)
  {
  }

  lemma PositionIsPoint(l: Layout, grid: seq<seq<Point2>>, chord: real, spanChords: real, m: Mesh, row: int, column: int)
    requires l.Valid() && Rectangular(l, grid) && MeshOf(l, grid, chord, spanChords, m) && 0 <= row < l.radial && 0 <= column < l.horizontal
    ensures 0 <= Label(l, row, column) < |m.points| && Flat(m.points[Label(l, row, column)]) == Scaled(grid[row][column], chord)
  {
    hide RowStart, Scaled, LeastVolume, MeshFaces, CentresOf;
  }

  /** The far face of a cell runs counterclockwise around its positive area, the near face the other way: both point outward. */
  lemma QuadRunsCounterclockwise(l: Layout, grid: seq<seq<Point2>>, chord: real, spanChords: real, m: Mesh, row: int, column: int)
    requires l.Valid() && Rectangular(l, grid) && MeshOf(l, grid, chord, spanChords, m) && l.HasCell(row, column)
    requires GridAreas(l, grid, chord)(row, column) != 0.0
    ensures var area := GridAreas(l, grid, chord)(row, column);
            var q := CellQuad(l, Direction(GridAreas(l, grid, chord))(row, column), row, column);
            && 0 <= q.a < |m.points| && 0 <= q.b < |m.points| && 0 <= q.c < |m.points| && 0 <= q.d < |m.points|
            && Shoelace(Flat(m.points[q.a]), Flat(m.points[q.b]), Flat(m.points[q.c]), Flat(m.points[q.d])) == Absolute(area) > 0.0
  {
    hide Shoelace, Label, RowStart, Scaled, MeshOf;
    PositionIsPoint(l, grid, chord, spanChords, m, row, column);
    PositionIsPoint(l, grid, chord, spanChords, m, row, column + 1);
    PositionIsPoint(l, grid, chord, spanChords, m, row + 1, column + 1);
    PositionIsPoint(l, grid, chord, spanChords, m, row + 1, column);
    var a, b := Scaled(grid[row][column], chord), Scaled(grid[row][column + 1], chord);
    var c, d := Scaled(grid[row + 1][column + 1], chord), Scaled(grid[row + 1][column], chord);
    ShoelaceReverses(a, b, c, d);
  }

  // ---------- sums over all cells ----------

  /** The grid's scaled coordinates. */
  type Positions = (int, int) -> Point2

  /** What a directed edge contributes. */
  type Weight = (Point2, Point2) -> real

  ghost predicate Antisymmetric(w: Weight) { forall p, q :: w(q, p) == -w(p, q) }

  function Along(w: Weight, p: Positions, row: int, column: int): real { w(p(row, column), p(row, column + 1)) }

  function Up(w: Weight, p: Positions, row: int, column: int): real { w(p(row, column), p(row + 1, column)) }

  function AlongSum(w: Weight, p: Positions, row: int, low: int, high: int): real
    decreases high - low
  {
    if low >= high then 0.0 else AlongSum(w, p, row, low, high - 1) + Along(w, p, row, high - 1)
  }

  function UpSum(w: Weight, p: Positions, column: int, high: nat): real {
    if high == 0 then 0.0 else UpSum(w, p, column, high - 1) + Up(w, p, high - 1, column)
  }

  /** The four edges of a cell in the order of its shoelace. */
  function Around(w: Weight, p: Positions, row: int, column: int): real {
    w(p(row, column), p(row, column + 1)) + w(p(row, column + 1), p(row + 1, column + 1))
    + w(p(row + 1, column + 1), p(row + 1, column)) + w(p(row + 1, column), p(row, column))
  }

  function RowTotal(f: (int, int) -> real, row: int, columns: nat): real {
    if columns == 0 then 0.0 else RowTotal(f, row, columns - 1) + f(row, columns - 1)
  }

  function Total(f: (int, int) -> real, rows: nat, columns: nat): real {
    if rows == 0 then 0.0 else Total(f, rows - 1, columns) + RowTotal(f, rows - 1, columns)
  }

  /** k times f is, on every cell, the sum around the cell. */
  ghost predicate Integrates(w: Weight, p: Positions, k: real, f: (int, int) -> real, rows: int, columns: int) {
    forall row, column :: 0 <= row < rows && 0 <= column < columns ==> Times(k, f(row, column)) == Around(w, p, row, column)
  }

  lemma CellEdges(w: Weight, p: Positions, row: int, column: int)
    requires Antisymmetric(w)
    ensures Around(w, p, row, column) == Along(w, p, row, column) + Up(w, p, row, column + 1) - Along(w, p, row + 1, column) - Up(w, p, row, column)
  {
    assert w(p(row + 1, column + 1), p(row + 1, column)) == -w(p(row + 1, column), p(row + 1, column + 1));
  }

  lemma TimesAdds(k: real, a: real, b: real)
    ensures Times(k, a + b) == Times(k, a) + Times(k, b)
  {
  }

  lemma {:induction false} RowEdgesTelescope(w: Weight, p: Positions, k: real, f: (int, int) -> real, rows: int, row: int, columns: nat)
    requires Antisymmetric(w) && Integrates(w, p, k, f, rows, columns) && 0 <= row < rows
    ensures Times(k, RowTotal(f, row, columns)) ==
            AlongSum(w, p, row, 0, columns) - AlongSum(w, p, row + 1, 0, columns) + Up(w, p, row, columns) - Up(w, p, row, 0)
  {
    hide Along, Up, Around, Antisymmetric;
    if columns > 0 {
      RowEdgesTelescope(w, p, k, f, rows, row, columns - 1);
      CellEdges(w, p, row, columns - 1);
      hide Times;
      TimesAdds(k, RowTotal(f, row, columns - 1), f(row, columns - 1));
    }
  }

  lemma {:induction false} GridEdgesTelescope(w: Weight, p: Positions, k: real, f: (int, int) -> real, rows: nat, columns: nat)
    requires Antisymmetric(w) && Integrates(w, p, k, f, rows, columns)
    ensures Times(k, Total(f, rows, columns)) ==
            AlongSum(w, p, 0, 0, columns) - AlongSum(w, p, rows, 0, columns) + UpSum(w, p, columns, rows) - UpSum(w, p, 0, rows)
  {
    hide RowTotal, AlongSum, Up, Antisymmetric, Around;
    if rows > 0 {
      GridEdgesTelescope(w, p, k, f, rows - 1, columns);
      RowEdgesTelescope(w, p, k, f, rows, rows - 1, columns);
      hide Times;
      TimesAdds(k, Total(f, rows - 1, columns), RowTotal(f, rows - 1, columns));
    }
  }

  lemma {:induction false} AlongSumSplits(w: Weight, p: Positions, row: int, low: int, middle: int, high: int)
    requires low <= middle <= high
    ensures AlongSum(w, p, row, low, high) == AlongSum(w, p, row, low, middle) + AlongSum(w, p, row, middle, high)
    decreases high - middle
  {
    if middle < high {
      AlongSumSplits(w, p, row, low, middle, high - 1);
    }
  }

  lemma AlongSumFromLeft(w: Weight, p: Positions, row: int, low: int, high: int)
    requires low < high
    ensures AlongSum(w, p, row, low, high) == Along(w, p, row, low) + AlongSum(w, p, row, low + 1, high)
  {
    AlongSumSplits(w, p, row, low, low + 1, high);
  }

  ghost predicate FoldsAt(l: Layout, p: Positions, c: int) { p(0, c) == p(0, l.horizontal - 1 - c) }

  ghost predicate WakeFolds(l: Layout, p: Positions) { forall c :: l.wallEnd <= c < l.horizontal ==> FoldsAt(l, p, c) }

  lemma WakeEdgeCancels(l: Layout, w: Weight, p: Positions, k: nat)
    requires l.Valid() && 0 < k <= l.wallStart && WakeFolds(l, p) && Antisymmetric(w)
    ensures Along(w, p, 0, l.wallEnd + k - 1) == -Along(w, p, 0, l.wallStart - k)
  {
    var c := l.wallEnd + k - 1;
    assert FoldsAt(l, p, c) && FoldsAt(l, p, c + 1);
    assert p(0, c) == p(0, l.wallStart - k + 1) && p(0, c + 1) == p(0, l.wallStart - k);
    assert w(p(0, c), p(0, c + 1)) == -w(p(0, c + 1), p(0, c));
  }

  /** The two sides of the wake cancel. */
  lemma {:induction false} WakeCancels(l: Layout, w: Weight, p: Positions, k: nat)
    requires l.Valid() && k <= l.wallStart && WakeFolds(l, p) && Antisymmetric(w)
    ensures AlongSum(w, p, 0, l.wallEnd, l.wallEnd + k) == -AlongSum(w, p, 0, l.wallStart - k, l.wallStart)
  {
    if k > 0 {
      WakeCancels(l, w, p, k - 1);
      AlongSumFromLeft(w, p, 0, l.wallStart - k, l.wallStart);
      var c := l.wallEnd + k - 1;
      assert AlongSum(w, p, 0, l.wallEnd, l.wallEnd + k) == AlongSum(w, p, 0, l.wallEnd, c) + Along(w, p, 0, c);
      hide *;
      WakeEdgeCancels(l, w, p, k);
    }
  }

  /** Interior and wake edges cancel: what is left is the sum over airfoil, outlet and inlet. */
  function BoundarySum(l: Layout, w: Weight, p: Positions): real
    requires l.Valid() && l.radial >= 1
  {
    AlongSum(w, p, 0, l.wallStart, l.wallEnd) + UpSum(w, p, l.horizontal - 1, l.radial - 1)
    - AlongSum(w, p, l.radial - 1, 0, l.horizontal - 1) - UpSum(w, p, 0, l.radial - 1)
  }

  lemma EdgesAddUpToBoundary(l: Layout, w: Weight, p: Positions, k: real, f: (int, int) -> real)
    requires l.Valid() && l.radial >= 1 && WakeFolds(l, p) && Antisymmetric(w) && Integrates(w, p, k, f, l.radial - 1, l.horizontal - 1)
    ensures Times(k, Total(f, l.radial - 1, l.horizontal - 1)) == BoundarySum(l, w, p)
  {
    hide AlongSum, UpSum, Total, Antisymmetric, Integrates, Times;
    GridEdgesTelescope(w, p, k, f, l.radial - 1, l.horizontal - 1);
    AlongSumSplits(w, p, 0, 0, l.wallStart, l.horizontal - 1);
    AlongSumSplits(w, p, 0, l.wallStart, l.wallEnd, l.horizontal - 1);
    WakeCancels(l, w, p, l.wallStart);
  }

  ghost function GridPositions(l: Layout, grid: seq<seq<Point2>>, chord: real): Positions
    requires Rectangular(l, grid)
  {
    (row, column) => if 0 <= row < l.radial && 0 <= column < l.horizontal then Scaled(grid[row][column], chord) else Point2(0.0, 0.0)
  }

  lemma GridPositionsFold(l: Layout, grid: seq<seq<Point2>>, chord: real)
    requires l.Valid() && Rectangular(l, grid) && SeamCoincides(l, grid) && l.radial >= 1
    ensures WakeFolds(l, GridPositions(l, grid, chord))
  {
    hide Scaled;
  }

  // ---------- areas and moments ----------

  lemma WeightsReverse()
    ensures Antisymmetric(Cross) && Antisymmetric(MomentX) && Antisymmetric(MomentY)
  {
    forall p, q ensures Cross(q, p) == -Cross(p, q) && MomentX(q, p) == -MomentX(p, q) && MomentY(q, p) == -MomentY(p, q) {
      CrossReverses(p, q);
      MomentsReverse(p, q);
    }
    hide Cross, MomentX, MomentY;
  }

  lemma MomentsReverse(p: Point2, q: Point2)
    ensures MomentX(q, p) == -MomentX(p, q) && MomentY(q, p) == -MomentY(p, q)
  {
    CrossReverses(p, q);
    hide Cross;
  }

  lemma AreasIntegrate(l: Layout, grid: seq<seq<Point2>>, chord: real)
    requires l.Valid() && Rectangular(l, grid)
    ensures Integrates(Cross, GridPositions(l, grid, chord), 2.0, GridAreas(l, grid, chord), l.radial - 1, l.horizontal - 1)
  {
    hide Scaled, Cross;
  }

  /** The signed areas the builder computes add up to the shoelace of airfoil, outlet and inlet. */
  lemma AreasAddUpToBoundary(l: Layout, grid: seq<seq<Point2>>, chord: real)
    requires l.Valid() && l.radial >= 1 && Rectangular(l, grid) && SeamCoincides(l, grid)
    ensures 2.0 * Total(GridAreas(l, grid, chord), l.radial - 1, l.horizontal - 1) == BoundarySum(l, Cross, GridPositions(l, grid, chord))
  {
    hide Total, BoundarySum, GridAreas, GridPositions, Integrates, Antisymmetric, SeamCoincides, WakeFolds, Cross;
    WeightsReverse();
    GridPositionsFold(l, grid, chord);
    AreasIntegrate(l, grid, chord);
    EdgesAddUpToBoundary(l, Cross, GridPositions(l, grid, chord), 2.0, GridAreas(l, grid, chord));
  }

  /** A cell's area times a coordinate of its centre. */
  ghost function MomentOf(l: Layout, grid: seq<seq<Point2>>, chord: real, m: Mesh, horizontal: bool): (int, int) -> real
    requires Rectangular(l, grid)
  {
    (row, column) =>
      if 0 <= CellNumber(l, row, column) < |m.centres| then
        var centre := m.centres[CellNumber(l, row, column)];
        Times(if horizontal then centre.x else centre.y, GridAreas(l, grid, chord)(row, column))
      else 0.0
  }

  function Moment(horizontal: bool): Weight { if horizontal then MomentX else MomentY }

  lemma MomentReverses(horizontal: bool)
    ensures Antisymmetric(Moment(horizontal))
  {
    WeightsReverse();
  }

  lemma CentroidMoments(a: Point2, b: Point2, c: Point2, d: Point2, depth: real)
    requires Shoelace(a, b, c, d) != 0.0
    ensures var e := Centroid(a, b, c, d, depth);
            && Times(6.0, Times(e.x, Shoelace(a, b, c, d))) == MomentX(a, b) + MomentX(b, c) + MomentX(c, d) + MomentX(d, a)
            && Times(6.0, Times(e.y, Shoelace(a, b, c, d))) == MomentY(a, b) + MomentY(b, c) + MomentY(c, d) + MomentY(d, a)
  {
    var k := 6.0 * Shoelace(a, b, c, d);
    OverFacts(MomentX(a, b) + MomentX(b, c) + MomentX(c, d) + MomentX(d, a), k);
    OverFacts(MomentY(a, b) + MomentY(b, c) + MomentY(c, d) + MomentY(d, a), k);
    hide Shoelace, MomentX, MomentY, Over;
  }

  lemma AroundQuad(l: Layout, grid: seq<seq<Point2>>, chord: real, horizontal: bool, row: int, column: int,
                   a: Point2, b: Point2, c: Point2, d: Point2)
    requires Rectangular(l, grid) && l.HasCell(row, column)
    requires a == Scaled(grid[row][column], chord) && b == Scaled(grid[row][column + 1], chord)
    requires c == Scaled(grid[row + 1][column + 1], chord) && d == Scaled(grid[row + 1][column], chord)
    ensures Around(Moment(horizontal), GridPositions(l, grid, chord), row, column) ==
            if horizontal then MomentX(a, b) + MomentX(b, c) + MomentX(c, d) + MomentX(d, a)
            else MomentY(a, b) + MomentY(b, c) + MomentY(c, d) + MomentY(d, a)
  {
    hide Scaled, Cross;
  }

  lemma CellMoment(l: Layout, grid: seq<seq<Point2>>, chord: real, depth: real, m: Mesh, horizontal: bool, row: int, column: int)
    requires Rectangular(l, grid) && l.HasCell(row, column) && CentreAt(l, grid, chord, depth, m.centres, row, column)
    ensures Times(6.0, MomentOf(l, grid, chord, m, horizontal)(row, column)) == Around(Moment(horizontal), GridPositions(l, grid, chord), row, column)
  {
    var (a, b) := (Scaled(grid[row][column], chord), Scaled(grid[row][column + 1], chord));
    var (c, d) := (Scaled(grid[row + 1][column + 1], chord), Scaled(grid[row + 1][column], chord));
    hide Scaled, Cross, Shoelace, Centroid, CellNumber, Times, MomentX, MomentY;
    var n := CellNumber(l, row, column);
    assert GridAreas(l, grid, chord)(row, column) == Shoelace(a, b, c, d);
    assert m.centres[n] == Centroid(a, b, c, d, depth);
    assert MomentOf(l, grid, chord, m, horizontal)(row, column) == Times(if horizontal then m.centres[n].x else m.centres[n].y, Shoelace(a, b, c, d));
    CentroidMoments(a, b, c, d, depth);
    AroundQuad(l, grid, chord, horizontal, row, column, a, b, c, d);
    hide GridPositions, Around, Moment;
  }

  lemma MomentsIntegrate(l: Layout, grid: seq<seq<Point2>>, chord: real, depth: real, m: Mesh, horizontal: bool)
    requires l.Valid() && Rectangular(l, grid) && CentresOf(l, grid, chord, depth, m.centres)
    ensures Integrates(Moment(horizontal), GridPositions(l, grid, chord), 6.0, MomentOf(l, grid, chord, m, horizontal),
                       l.radial - 1, l.horizontal - 1)
  {
    hide CentreAt, GridPositions, MomentOf, Around, Moment;
    forall row, column | 0 <= row < l.radial - 1 && 0 <= column < l.horizontal - 1
      ensures Times(6.0, MomentOf(l, grid, chord, m, horizontal)(row, column))
           == Around(Moment(horizontal), GridPositions(l, grid, chord), row, column)
    {
      assert l.HasCell(row, column);
      CellMoment(l, grid, chord, depth, m, horizontal, row, column);
    }
  }

  /** The area-weighted cell centres of a finished mesh add up to the first moments of airfoil, outlet and inlet. */
  lemma CentresAddUpToBoundary(l: Layout, grid: seq<seq<Point2>>, chord: real, spanChords: real, m: Mesh, horizontal: bool)
    requires l.Valid() && l.radial >= 1 && Rectangular(l, grid) && SeamCoincides(l, grid) && MeshOf(l, grid, chord, spanChords, m)
    ensures 6.0 * Total(MomentOf(l, grid, chord, m, horizontal), l.radial - 1, l.horizontal - 1)
         == BoundarySum(l, Moment(horizontal), GridPositions(l, grid, chord))
  {
    assert CentresOf(l, grid, chord, chord * spanChords, m.centres);
    hide *;
    MomentReverses(horizontal);
    GridPositionsFold(l, grid, chord);
    MomentsIntegrate(l, grid, chord, chord * spanChords, m, horizontal);
    EdgesAddUpToBoundary(l, Moment(horizontal), GridPositions(l, grid, chord), 6.0, MomentOf(l, grid, chord, m, horizontal));
    TimesIs(6.0, Total(MomentOf(l, grid, chord, m, horizontal), l.radial - 1, l.horizontal - 1));
  }

  lemma TimesIs(a: real, b: real)
    ensures Times(a, b) == a * b
  {
  }
}

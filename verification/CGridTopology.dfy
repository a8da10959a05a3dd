/** The combinatorics of the welded C-grid: vertex labels, the six sides of every cell,
    which sides coincide, and when two coinciding sides are traversed in opposite directions. */
module CGridTopology {

  import opened Arithmetic
  import opened Wrappers

  datatype Patch = Inlet | Outlet | Airfoil | FrontAndBack

  /** Four vertex labels, in traversal order. */
  datatype Quad = Quad(a: int, b: int, c: int, d: int)

  /** Shape of the logical grid and the columns of row 0 that bound the airfoil wall. */
  datatype Layout = Layout(radial: nat, horizontal: nat, wallStart: nat, wallEnd: nat) {
    predicate Valid() {
      0 < wallStart < wallEnd < horizontal - 1 && wallEnd == horizontal - wallStart - 1
    }

    predicate HasCell(row: int, column: int) {
      0 <= row < radial - 1 && 0 <= column < horizontal - 1
    }
  }

  datatype Kind = Front | Back | Bottom | Right | Top | Left

  /** One of the six sides of the cell at (row, column). */
  datatype Side = Side(row: int, column: int, kind: Kind)

  predicate HasSide(l: Layout, s: Side) {
    l.HasCell(s.row, s.column)
  }

  // ---------- vertex labels ----------

  /** The number of distinct planar vertices in the rows below `row`. */
  function RowStart(l: Layout, row: nat): nat {
    if row == 0 then 0 else if row == 1 then l.wallEnd else RowStart(l, row - 1) + l.horizontal
  }

  /** The weld: a wake vertex right of the wall takes the label of its mirror image. */
  function Label(l: Layout, row: nat, column: nat): nat
    requires l.Valid() && column < l.horizontal
  {
    if row == 0 && column >= l.wallEnd then l.horizontal - 1 - column else RowStart(l, row) + column
  }

  function PlaneCount(l: Layout): nat { RowStart(l, l.radial) }

  lemma RowStartAbove(l: Layout, low: nat, high: nat)
    requires l.Valid() && low < high
    ensures RowStart(l, low) + (if low == 0 then l.wallEnd else l.horizontal) <= RowStart(l, high)
    decreases high
  {
    if low < high - 1 {
      RowStartAbove(l, low, high - 1);
    }
  }

  /** Equal grid positions, or mirror images on the wake. */
  predicate SameVertex(l: Layout, r1: int, c1: int, r2: int, c2: int) {
    r1 == r2 && (c1 == c2 || (r1 == 0 && c1 + c2 == l.horizontal - 1 && (c1 >= l.wallEnd || c2 >= l.wallEnd)))
  }

  /** Labels identify exactly the welded positions. */
  lemma LabelsCoincide(l: Layout, r1: nat, c1: nat, r2: nat, c2: nat)
    requires l.Valid() && c1 < l.horizontal && c2 < l.horizontal
    ensures Label(l, r1, c1) == Label(l, r2, c2) <==> SameVertex(l, r1, c1, r2, c2)
  {
    if r1 < r2 {
      RowStartAbove(l, r1, r2);
    } else if r2 < r1 {
      RowStartAbove(l, r2, r1);
    }
  }

  lemma LabelBelow(l: Layout, row: nat, column: nat, bound: nat)
    requires l.Valid() && column < l.horizontal && row < bound
    ensures Label(l, row, column) < RowStart(l, bound)
  {
    RowStartAbove(l, row, bound);
  }

  // ---------- sides ----------

  predicate Planar(s: Side) { s.kind == Front || s.kind == Back }

  // The planar edge of a side other than Front and Back runs counterclockwise in grid coordinates.
  function StartRow(s: Side): int { if s.kind == Top || s.kind == Left then s.row + 1 else s.row }
  function StartColumn(s: Side): int { if s.kind == Right || s.kind == Top then s.column + 1 else s.column }
  function EndRow(s: Side): int { if s.kind == Right || s.kind == Top then s.row + 1 else s.row }
  function EndColumn(s: Side): int { if s.kind == Bottom || s.kind == Right then s.column + 1 else s.column }

  function EdgeStart(l: Layout, s: Side): nat
    requires l.Valid() && HasSide(l, s)
  {
    Label(l, StartRow(s), StartColumn(s))
  }

  function EdgeEnd(l: Layout, s: Side): nat
    requires l.Valid() && HasSide(l, s)
  {
    Label(l, EndRow(s), EndColumn(s))
  }

  /** The cell's planar quadrilateral, reversed when its signed area is negative. */
  function CellQuad(l: Layout, ccw: bool, row: int, column: int): Quad
    requires l.Valid() && l.HasCell(row, column)
  {
    var q := Quad(Label(l, row, column), Label(l, row, column + 1),
                  Label(l, row + 1, column + 1), Label(l, row + 1, column));
    if ccw then q else Reversed(q)
  }

  function Reversed(q: Quad): Quad { Quad(q.d, q.c, q.b, q.a) }

  function Shifted(q: Quad, offset: int): Quad {
    Quad(q.a + offset, q.b + offset, q.c + offset, q.d + offset)
  }

  predicate Distinct(q: Quad) {
    q.a != q.b && q.a != q.c && q.a != q.d && q.b != q.c && q.b != q.d && q.c != q.d
  }

  /** The vertical face over a directed planar edge. */
  function Extruded(first: int, second: int, planeCount: int): Quad {
    Quad(first, second, second + planeCount, first + planeCount)
  }

  function Vertices(l: Layout, ccw: bool, s: Side): Quad
    requires l.Valid() && HasSide(l, s)
  {
    match s.kind
    case Front => Reversed(CellQuad(l, ccw, s.row, s.column))
    case Back => Shifted(CellQuad(l, ccw, s.row, s.column), PlaneCount(l))
    case _ => if ccw then Extruded(EdgeStart(l, s), EdgeEnd(l, s), PlaneCount(l))
              else Extruded(EdgeEnd(l, s), EdgeStart(l, s), PlaneCount(l))
  }

  function PatchOf(l: Layout, s: Side): Option<Patch> {
    match s.kind
    case Front => Some(FrontAndBack)
    case Back => Some(FrontAndBack)
    case Bottom => if s.row == 0 && l.wallStart <= s.column < l.wallEnd then Some(Airfoil) else None
    case Right => if s.column == l.horizontal - 2 then Some(Outlet) else None
    case Top => if s.row == l.radial - 2 then Some(Inlet) else None
    case Left => if s.column == 0 then Some(Outlet) else None
  }

  /** The other side that names the same face, across a grid line or across the welded wake. */
  function Partner(l: Layout, s: Side): Option<Side> {
    match s.kind
    case Front => None
    case Back => None
    case Bottom =>
      if s.row > 0 then Some(Side(s.row - 1, s.column, Top))
      else if s.column < l.wallStart || s.column >= l.wallEnd then Some(Side(0, l.horizontal - 2 - s.column, Bottom))
      else None
    case Right => if s.column < l.horizontal - 2 then Some(Side(s.row, s.column + 1, Left)) else None
    case Top => if s.row < l.radial - 2 then Some(Side(s.row + 1, s.column, Bottom)) else None
    case Left => if s.column > 0 then Some(Side(s.row, s.column - 1, Right)) else None
  }

  /** Where the source meets a side within its cell: front, back, then the quadrilateral's edges in order. */
  function Position(ccw: bool, kind: Kind): nat {
    match kind
    case Front => 0
    case Back => 1
    case Bottom => if ccw then 2 else 4
    case Right => 3
    case Top => if ccw then 4 else 2
    case Left => 5
  }

  function KindAt(ccw: bool, position: nat): (kind: Kind)
    requires position < 6
    ensures Position(ccw, kind) == position
  {
    if position == 0 then Front
    else if position == 1 then Back
    else if position == 2 then (if ccw then Bottom else Top)
    else if position == 3 then Right
    else if position == 4 then (if ccw then Top else Bottom)
    else Left
  }

  /** Whether the row-major sweep meets this side before its partner. */
  predicate First(l: Layout, s: Side) {
    match s.kind
    case Bottom => s.row == 0 && s.column < l.wallEnd
    case Left => s.column == 0
    case _ => true
  }

  lemma PartnersMirror(l: Layout, s: Side)
    requires l.Valid() && HasSide(l, s) && Partner(l, s).Some?
    ensures var p := Partner(l, s).value;
            HasSide(l, p) && p != s && Partner(l, p) == Some(s) && First(l, s) == !First(l, p)
            && PatchOf(l, s) == None && PatchOf(l, p) == None
            && (First(l, s) <==> s.row < p.row || (s.row == p.row && s.column < p.column))
  {
  }

  lemma SidesAreMatchedOrPatched(l: Layout, s: Side)
    requires l.Valid() && HasSide(l, s)
    ensures Partner(l, s).Some? != PatchOf(l, s).Some?
    ensures Partner(l, s) == None ==> First(l, s)
  {
  }

  // ---------- face keys ----------

  // The compare-exchange steps of a four-element sorting network.
  function ExchangeAB(q: Quad): Quad { if q.a <= q.b then q else Quad(q.b, q.a, q.c, q.d) }
  function ExchangeCD(q: Quad): Quad { if q.c <= q.d then q else Quad(q.a, q.b, q.d, q.c) }
  function ExchangeAC(q: Quad): Quad { if q.a <= q.c then q else Quad(q.c, q.b, q.a, q.d) }
  function ExchangeBD(q: Quad): Quad { if q.b <= q.d then q else Quad(q.a, q.d, q.c, q.b) }
  function ExchangeBC(q: Quad): Quad { if q.b <= q.c then q else Quad(q.a, q.c, q.b, q.d) }

  /** The dictionary key of a face: its vertices in increasing order. */
  function Sorted(q: Quad): Quad {
    ExchangeBC(ExchangeBD(ExchangeAC(ExchangeCD(ExchangeAB(q)))))
  }

  function Indicator(b: bool): nat { if b then 1 else 0 }

  /** How often a vertex occurs in a face. */
  function Count(q: Quad, x: int): nat {
    Indicator(q.a == x) + Indicator(q.b == x) + Indicator(q.c == x) + Indicator(q.d == x)
  }

  /** The same vertices in any order. */
  ghost predicate SameVertices(p: Quad, q: Quad) {
    forall x :: Count(p, x) == Count(q, x)
  }

  lemma SortedIsIncreasing(q: Quad)
    ensures var k := Sorted(q); k.a <= k.b <= k.c <= k.d
  {
  }

  lemma SortedKeepsVertices(q: Quad)
    ensures SameVertices(Sorted(q), q)
  {
    forall x ensures Count(Sorted(q), x) == Count(q, x) {
      var q1 := ExchangeAB(q);
      var q2 := ExchangeCD(q1);
      var q3 := ExchangeAC(q2);
      var q4 := ExchangeBD(q3);
      assert Count(q1, x) == Count(q, x);
      assert Count(q2, x) == Count(q1, x);
      assert Count(q3, x) == Count(q2, x);
      assert Count(q4, x) == Count(q3, x);
    }
  }

  lemma IncreasingIsUnique(u: Quad, v: Quad)
    requires u.a <= u.b <= u.c <= u.d && v.a <= v.b <= v.c <= v.d
    requires SameVertices(u, v)
    ensures u == v
  {
    assert Count(u, u.a) == Count(v, u.a) && Count(u, v.a) == Count(v, v.a);
    assert u.a == v.a;
    assert Count(u, u.b) == Count(v, u.b) && Count(u, v.b) == Count(v, v.b);
    assert u.b == v.b;
    assert Count(u, u.c) == Count(v, u.c) && Count(u, v.c) == Count(v, v.c);
    assert u.c == v.c;
    assert Count(u, u.d) == Count(v, u.d) && Count(u, v.d) == Count(v, v.d);
  }

  /** One key per unordered collection of vertices. */
  lemma KeyIsVertexSet(p: Quad, q: Quad)
    ensures Sorted(p) == Sorted(q) <==> SameVertices(p, q)
  {
    SortedKeepsVertices(p);
    SortedKeepsVertices(q);
    if SameVertices(p, q) {
      forall x ensures Count(Sorted(p), x) == Count(Sorted(q), x) {
        assert Count(Sorted(p), x) == Count(p, x) == Count(q, x) == Count(Sorted(q), x);
      }
      SortedIsIncreasing(p);
      SortedIsIncreasing(q);
      IncreasingIsUnique(Sorted(p), Sorted(q));
    } else {
      var x :| Count(p, x) != Count(q, x);
      assert Count(Sorted(p), x) != Count(Sorted(q), x);
    }
  }

  lemma ReversedKey(q: Quad)
    ensures Sorted(Reversed(q)) == Sorted(q)
  {
    KeyIsVertexSet(Reversed(q), q);
  }

  lemma ExtrudedKey(first: nat, second: nat, planeCount: nat)
    requires first < planeCount && second < planeCount
    ensures Sorted(Extruded(first, second, planeCount)) ==
            Quad(Min(first, second), Max(first, second), Min(first, second) + planeCount, Max(first, second) + planeCount)
  {
  }

  function Key(l: Layout, s: Side): Quad
    requires l.Valid() && HasSide(l, s)
  {
    Sorted(Vertices(l, true, s))
  }

  lemma PlaneBounds(l: Layout, s: Side)
    requires l.Valid() && HasSide(l, s)
    ensures EdgeStart(l, s) < PlaneCount(l) && EdgeEnd(l, s) < PlaneCount(l)
  {
    LabelBelow(l, StartRow(s), StartColumn(s), l.radial);
    LabelBelow(l, EndRow(s), EndColumn(s), l.radial);
  }

  /** Reversing a cell's quadrilateral changes no key of its sides. */
  lemma KeyIgnoresDirection(l: Layout, ccw: bool, s: Side)
    requires l.Valid() && HasSide(l, s)
    ensures Sorted(Vertices(l, ccw, s)) == Key(l, s)
  {
    if !ccw {
      if Planar(s) {
        assert Vertices(l, false, s) == Reversed(Vertices(l, true, s));
        ReversedKey(Vertices(l, true, s));
      } else {
        PlaneBounds(l, s);
        ExtrudedKey(EdgeStart(l, s), EdgeEnd(l, s), PlaneCount(l));
        ExtrudedKey(EdgeEnd(l, s), EdgeStart(l, s), PlaneCount(l));
      }
    }
  }

  /** The two degenerate walls: one wall cell collapses an edge, two wall cells collapse onto one edge. */
  predicate Regular(l: Layout, s: Side) {
    && !(l.wallEnd == l.wallStart + 1 && s.row == 0 && s.column == l.wallStart)
    && !(l.wallEnd == l.wallStart + 2 && s == Side(0, l.wallStart + 1, Bottom))
  }

  /** Which third of the vertex range a key lies in, and the coordinates that pin it down. */
  lemma PlanarKeyCorner(l: Layout, s: Side)
    requires l.Valid() && HasSide(l, s) && Planar(s)
    ensures Key(l, s).d == Label(l, s.row + 1, s.column + 1) + (if s.kind == Back then PlaneCount(l) else 0)
    ensures s.kind == Front ==> Key(l, s).d < PlaneCount(l)
    ensures s.kind == Back ==> Key(l, s).a >= PlaneCount(l)
    ensures Key(l, s).a <= Key(l, s).d
  {
    var a, b, c, d := Label(l, s.row, s.column), Label(l, s.row, s.column + 1),
                      Label(l, s.row + 1, s.column + 1), Label(l, s.row + 1, s.column);
    LabelBelow(l, s.row, s.column, s.row + 1);
    LabelBelow(l, s.row, s.column + 1, s.row + 1);
    LabelBelow(l, s.row + 1, s.column + 1, l.radial);
    assert a < c && b < c && d < c < PlaneCount(l);
    hide Label, RowStart;
    SortedMaximum(Vertices(l, true, s));
  }

  lemma SortedMaximum(q: Quad)
    ensures var k := Sorted(q);
            k.a <= q.a && k.a <= q.b && k.a <= q.c && k.a <= q.d && k.a in {q.a, q.b, q.c, q.d}
            && q.a <= k.d && q.b <= k.d && q.c <= k.d && q.d <= k.d && k.d in {q.a, q.b, q.c, q.d}
  {
  }

  lemma EdgeKeyEnds(l: Layout, s: Side)
    requires l.Valid() && HasSide(l, s) && !Planar(s)
    ensures var e, f := EdgeStart(l, s), EdgeEnd(l, s);
            Key(l, s) == Quad(Min(e, f), Max(e, f), Min(e, f) + PlaneCount(l), Max(e, f) + PlaneCount(l))
            && e < PlaneCount(l) && f < PlaneCount(l)
  {
    PlaneBounds(l, s);
    ExtrudedKey(EdgeStart(l, s), EdgeEnd(l, s), PlaneCount(l));
  }

  predicate SameStarts(l: Layout, s: Side, t: Side) {
    SameVertex(l, StartRow(s), StartColumn(s), StartRow(t), StartColumn(t))
    && SameVertex(l, EndRow(s), EndColumn(s), EndRow(t), EndColumn(t))
  }

  predicate CrossedEnds(l: Layout, s: Side, t: Side) {
    SameVertex(l, StartRow(s), StartColumn(s), EndRow(t), EndColumn(t))
    && SameVertex(l, EndRow(s), EndColumn(s), StartRow(t), StartColumn(t))
  }

  lemma EdgesOnGrid(l: Layout, s: Side, t: Side)
    requires l.Valid() && HasSide(l, s) && HasSide(l, t) && !Planar(s) && !Planar(t)
    requires Regular(l, s) && Regular(l, t)
    ensures SameStarts(l, s, t) <==> s == t
    ensures CrossedEnds(l, s, t) <==> Partner(l, s) == Some(t)
  {
    match s.kind
    case Bottom =>
    case Right =>
    case Top =>
    case Left =>
    case _ =>
  }

  lemma EdgesCoincide(l: Layout, s: Side, t: Side)
    requires l.Valid() && HasSide(l, s) && HasSide(l, t) && !Planar(s) && !Planar(t)
    requires Regular(l, s) && Regular(l, t)
    ensures EdgeStart(l, s) == EdgeStart(l, t) && EdgeEnd(l, s) == EdgeEnd(l, t) <==> s == t
    ensures EdgeStart(l, s) == EdgeEnd(l, t) && EdgeEnd(l, s) == EdgeStart(l, t) <==> Partner(l, s) == Some(t)
  {
    LabelsCoincide(l, StartRow(s), StartColumn(s), StartRow(t), StartColumn(t));
    LabelsCoincide(l, EndRow(s), EndColumn(s), EndRow(t), EndColumn(t));
    LabelsCoincide(l, StartRow(s), StartColumn(s), EndRow(t), EndColumn(t));
    LabelsCoincide(l, EndRow(s), EndColumn(s), StartRow(t), StartColumn(t));
    EdgesOnGrid(l, s, t);
  }

  /** Two sides fall on one dictionary key exactly when they are the same side or partners. */
  lemma KeysCoincide(l: Layout, s: Side, t: Side)
    requires l.Valid() && HasSide(l, s) && HasSide(l, t)
    requires Regular(l, s) && Regular(l, t)
    ensures Key(l, s) == Key(l, t) <==> s == t || Partner(l, s) == Some(t)
  {
    hide Key, Label, RowStart;
    if Planar(s) && Planar(t) {
      PlanarKeysCoincide(l, s, t);
    } else if !Planar(s) && !Planar(t) {
      EdgeKeyEnds(l, s);
      EdgeKeyEnds(l, t);
      EdgesCoincide(l, s, t);
    } else if Planar(s) {
      PlanarKeyCorner(l, s);
      EdgeKeyEnds(l, t);
    } else {
      PlanarKeyCorner(l, t);
      EdgeKeyEnds(l, s);
    }
  }

  lemma PlanarKeysCoincide(l: Layout, s: Side, t: Side)
    requires l.Valid() && HasSide(l, s) && HasSide(l, t) && Planar(s) && Planar(t)
    ensures Key(l, s) == Key(l, t) <==> s == t
  {
    hide Key, Label, RowStart;
    PlanarKeyCorner(l, s);
    PlanarKeyCorner(l, t);
    LabelsCoincide(l, s.row + 1, s.column + 1, t.row + 1, t.column + 1);
  }

  // ---------- orientation ----------

  /** The source's test: some rotation of the reversed stored face. */
  predicate ReverseRotation(v: Quad, stored: Quad) {
    var w := Reversed(stored);
    v == w || v == Quad(w.b, w.c, w.d, w.a) || v == Quad(w.c, w.d, w.a, w.b) || v == Quad(w.d, w.a, w.b, w.c)
  }

  lemma EdgeIsProper(l: Layout, s: Side)
    requires l.Valid() && HasSide(l, s) && !Planar(s) && Regular(l, s)
    ensures EdgeStart(l, s) != EdgeEnd(l, s)
  {
    LabelsCoincide(l, StartRow(s), StartColumn(s), EndRow(s), EndColumn(s));
  }

  /** Partner sides traverse their face in opposite directions exactly when their cells have equal orientation. */
  lemma PartnersOppose(l: Layout, s: Side, t: Side, ccwS: bool, ccwT: bool)
    requires l.Valid() && HasSide(l, s) && HasSide(l, t) && Partner(l, s) == Some(t)
    requires Regular(l, s) && Regular(l, t)
    ensures ReverseRotation(Vertices(l, ccwT, t), Vertices(l, ccwS, s)) <==> ccwS == ccwT
  {
    EdgeIsProper(l, s);
    EdgesCoincide(l, s, t);
    EdgeKeyEnds(l, s);
  }

  /** The quadrilateral of a cell has four different labels unless the wall is a single cell and this is it. */
  lemma QuadIsDistinct(l: Layout, row: int, column: int)
    requires l.Valid() && l.HasCell(row, column)
    ensures Distinct(CellQuad(l, true, row, column)) <==> !(l.wallEnd == l.wallStart + 1 && row == 0 && column == l.wallStart)
  {
    LabelsCoincide(l, row, column, row, column + 1);
    LabelsCoincide(l, row, column, row + 1, column);
    LabelsCoincide(l, row, column, row + 1, column + 1);
    LabelsCoincide(l, row, column + 1, row + 1, column);
    LabelsCoincide(l, row, column + 1, row + 1, column + 1);
    LabelsCoincide(l, row + 1, column, row + 1, column + 1);
  }
}

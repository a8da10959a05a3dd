/** The whole construction, with the exact conditions under which it completes. */
module CGridBuilder {
  import opened CGridTopology
  import opened CGridMesh
  import opened CGridTheorems
  import opened CGridCounts

  lemma MeshAssembled(l: Layout, grid: seq<seq<Point2>>, chord: real, spanChords: real, planar: seq<Point2>, m: Mesh)
    requires l.Valid() && Rectangular(l, grid) && Welded(l, grid, chord, planar)
    requires m.points == Lifted(planar, chord * spanChords) && m.cells == (l.horizontal - 1) * (l.radial - 1)
    requires var orient := Direction(GridAreas(l, grid, chord));
             m.internal == SortedByCells(Paired(MeshFaces(l, orient)))
             && forall p: Patch :: p in m.boundary && m.boundary[p] == OnPatch(MeshFaces(l, orient), p)
    requires LeastVolume(l, GridAreas(l, grid, chord), chord * spanChords, m.minimumVolume, CellRows(l), 0)
    requires CentresOf(l, grid, chord, chord * spanChords, m.centres)
    ensures MeshOf(l, grid, chord, spanChords, m)
  {
    hide LeastVolume, RowStart, GridAreas, MeshFaces, SortedByCells, Paired, OnPatch, Scaled, CentresOf;
  }

  lemma MeshFacts(l: Layout, grid: seq<seq<Point2>>, chord: real, spanChords: real, m: Mesh)
    requires l.Valid() && l.radial >= 2 && l.wallEnd - l.wallStart >= 3 && Rectangular(l, grid)
    requires MeshOf(l, grid, chord, spanChords, m)
    ensures StrictlyOrdered(m.internal)
    ensures |m.internal| == (l.radial - 2) * (l.horizontal - 1) + (l.radial - 1) * (l.horizontal - 2) + l.wallStart
    ensures |m.boundary[Inlet]| == l.horizontal - 1 && |m.boundary[Outlet]| == 2 * (l.radial - 1)
    ensures |m.boundary[Airfoil]| == l.wallEnd - l.wallStart && |m.boundary[FrontAndBack]| == 2 * m.cells
  {
    hide LeastVolume, GridAreas, MeshFaces, SortedByCells, Paired, OnPatch, Label, StrictlyOrdered, CentresOf;
    var orient := Direction(GridAreas(l, grid, chord));
    InternalIsOrdered(l, orient);
    FaceCounts(l, orient);
    assert m.cells == (l.radial - 1) * (l.horizontal - 1);
  }

  method ExtrudedCGrid(radial: nat, horizontal: nat, grid: seq<seq<Point2>>, wallStart: int, wallEnd: int, chord: real, spanChords: real)
    returns (r: Result<Mesh>)
    requires |grid| == radial && forall row :: 0 <= row < radial ==> |grid[row]| == horizontal
    ensures !SeamBounds(horizontal, wallStart, wallEnd) ==> r == Err(InvalidSeamBounds)
    ensures SeamBounds(horizontal, wallStart, wallEnd) && (chord <= 0.0 || spanChords <= 0.0) ==> r == Err(InvalidDimensions)
    ensures SeamBounds(horizontal, wallStart, wallEnd) && chord > 0.0 && spanChords > 0.0 ==>
              var l := Layout(radial, horizontal, wallStart, wallEnd);
              var areas := GridAreas(l, grid, chord);
              if !SeamCoincides(l, grid) then r == Err(SeamMismatch)
              else match r
                   case Err(e) => FirstRejection(l, areas, e)
                   case Ok(m) => MeshOf(l, grid, chord, spanChords, m)
    ensures r.Ok? <==>
              && SeamBounds(horizontal, wallStart, wallEnd) && chord > 0.0 && spanChords > 0.0
              && var l := Layout(radial, horizontal, wallStart, wallEnd);
                 SeamCoincides(l, grid)
                 && (radial >= 2 ==> wallEnd - wallStart >= 3 && OneSign(l, GridAreas(l, grid, chord)))
    ensures r.Ok? && radial >= 2 ==>
              var m := r.value;
              && StrictlyOrdered(m.internal)
              && |m.internal| == (radial - 2) * (horizontal - 1) + (radial - 1) * (horizontal - 2) + wallStart
              && |m.boundary[Inlet]| == horizontal - 1 && |m.boundary[Outlet]| == 2 * (radial - 1)
              && |m.boundary[Airfoil]| == wallEnd - wallStart && |m.boundary[FrontAndBack]| == 2 * m.cells
  {
    hide OneSign, StrictlyOrdered, TableHolds, FirstRejection, AcceptedBefore, LeastVolume, Label, RowStart, Measures, GridAreas, MeshFaces,
         SortedByCells, Paired, OnPatch, Welded, MeshOf, SeamCoincides, Firsts, CentresHold, CentresOf;
    if !SeamBounds(horizontal, wallStart, wallEnd) {
      return Err(InvalidSeamBounds);
    }
    if chord <= 0.0 || spanChords <= 0.0 {
      return Err(InvalidDimensions);
    }
    var l := Layout(radial, horizontal, wallStart, wallEnd);
    var welded, labels := WeldLabels(l, grid, chord);
    if welded.Err? {
      return Err(welded.error);
    }
    var planar := welded.value;
    var points := Lifted(planar, chord * spanChords);
    WeldedMeasures(l, grid, chord, planar);
    ghost var areas := GridAreas(l, grid, chord);
    AcceptanceExactly(l, areas);
    OutcomeIsDetermined(l, areas);
    var swept, centres := Sweep(l, planar, areas, labels, chord, spanChords);
    if swept.Err? {
      return Err(swept.error);
    }
    var table := swept.value;
    TableListsFaces(l, Direction(areas), table);
    var faces := seq(|table.order|, j requires 0 <= j < |table.order| && table.order[j] in table.faces => table.faces[table.order[j]]);
    assert faces == MeshFaces(l, Direction(areas));
    var internal := SortedByCells(Paired(faces));
    var boundary := CollectBoundary(faces);
    var mesh := Mesh(points, internal, boundary.value, centres, (horizontal - 1) * (radial - 1), table.minimumVolume);
    WeldedCentres(l, grid, chord, planar, chord * spanChords, centres);
    MeshAssembled(l, grid, chord, spanChords, planar, mesh);
    if l.radial >= 2 {
      MeshFacts(l, grid, chord, spanChords, mesh);
    }
    r := Ok(mesh);
  }
}

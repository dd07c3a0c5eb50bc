/** What one frame of Marching Cubes emits, as sequences: three vertices per
    triangle, cells visited in the order of CellOrder. These functions
    specify the buffers the imperative extractor builds. */
module Triangulation {
  import opened CubeIndex
  import opened Lattice
  import opened CellOrder

  /** The corners of the given triangles, each one interpolated on its edge
      within the cell whose lowest corner is at `offset`. */
  function TriangleVertices(ts: seq<Triangle>, interpolate: (int, Vec3) -> Vec3, offset: Vec3): (vs: seq<Vec3>)
    ensures |vs| == 3 * |ts|
  {
    if ts == [] then []
    else
      var last := ts[|ts| - 1];
      TriangleVertices(ts[..|ts| - 1], interpolate, offset) +
        [interpolate(last.x, offset), interpolate(last.y, offset), interpolate(last.z, offset)]
  }

  /** Triangle k owns positions 3k, 3k + 1 and 3k + 2, holding its corners on
      edges x, y and z. */
  lemma {:induction false} TriangleVerticesAt(ts: seq<Triangle>, interpolate: (int, Vec3) -> Vec3, offset: Vec3, k: int)
    requires 0 <= k < |ts|
    ensures TriangleVertices(ts, interpolate, offset)[3 * k] == interpolate(ts[k].x, offset)
    ensures TriangleVertices(ts, interpolate, offset)[3 * k + 1] == interpolate(ts[k].y, offset)
    ensures TriangleVertices(ts, interpolate, offset)[3 * k + 2] == interpolate(ts[k].z, offset)
  {
    if k < |ts| - 1 {
      TriangleVerticesAt(ts[..|ts| - 1], interpolate, offset, k);
    }
  }

  /** The vertices emitted for cell (l, w, h): its table triangles,
      interpolated within the cell whose lowest corner is Position(l, w, h). */
  function CellVertices(e: Extraction, l: int, w: int, h: int): seq<Vec3> {
    TriangleVertices(e.CellTriangles(l, w, h), e.interpolate, e.Position(l, w, h))
  }

  /** CellVertices of `e` as a function of the cell. */
  function VerticesOf(e: Extraction): (int, int, int) -> seq<Vec3> {
    (l, w, h) => CellVertices(e, l, w, h)
  }

  /** `f` gives, for every cell, the vertices that cell emits under `e`. */
  ghost predicate Emits(e: Extraction, f: (int, int, int) -> seq<Vec3>) {
    forall a, b, c {:trigger CellVertices(e, a, b, c)} :: f(a, b, c) == CellVertices(e, a, b, c)
  }

  /** VerticesOf(e) is such a function. */
  lemma VerticesOfEmits(e: Extraction)
    ensures Emits(e, VerticesOf(e))
  {
  }

  /** CellTriangleCount of `e` as a function of the cell. */
  function CountsOf(e: Extraction): (int, int, int) -> nat {
    (l, w, h) => e.CellTriangleCount(l, w, h)
  }

  /** Each visited cell emits three vertices per triangle its case counts. */
  lemma CellLengths(e: Extraction)
    ensures forall a, b, c :: 0 <= a < e.CellsPerAxis() && 0 <= b < e.CellsPerAxis() && 0 <= c < e.CellsPerAxis() ==>
      |VerticesOf(e)(a, b, c)| == 3 * CountsOf(e)(a, b, c)
  {
    var m := e.CellsPerAxis();
    forall a, b, c | 0 <= a < m && 0 <= b < m && 0 <= c < m
      ensures |VerticesOf(e)(a, b, c)| == 3 * CountsOf(e)(a, b, c)
    {
    }
  }

  /** The vertex buffer of one frame: every visited cell's vertices, in
      visiting order; three vertices per triangle of the frame. */
  function MeshVertices(e: Extraction): (vs: seq<Vec3>)
    ensures |vs| == 3 * TotalTriangles(e)
  {
    CellLengths(e);
    VolumeLength(VerticesOf(e), CountsOf(e), e.CellsPerAxis(), e.CellsPerAxis());
    VolumeConcat(VerticesOf(e), e.CellsPerAxis(), e.CellsPerAxis())
  }

  /** No visited cell's case emits a triangle. */
  ghost predicate NoCellEmits(e: Extraction) {
    forall a, b, c :: 0 <= a < e.CellsPerAxis() && 0 <= b < e.CellsPerAxis() && 0 <= c < e.CellsPerAxis() ==>
      CountsOf(e)(a, b, c) == 0
  }

  /** The number of triangles of one frame: the case table's count summed
      over every visited cell. It is 0 exactly when no visited cell emits. */
  function TotalTriangles(e: Extraction): (t: nat)
    ensures t == 0 <==> NoCellEmits(e)
  {
    VolumeSumZero(CountsOf(e), e.CellsPerAxis(), e.CellsPerAxis());
    VolumeSum(CountsOf(e), e.CellsPerAxis(), e.CellsPerAxis())
  }

  /** All eight corners of cell (l, w, h) lie on the same side of the surface. */
  ghost predicate UniformCell(e: Extraction, l: int, w: int, h: int) {
    (forall i :: 0 <= i < 8 ==> e.Sample(l + Corner(i).0, w + Corner(i).1, h + Corner(i).2) > 0.0) ||
    (forall i :: 0 <= i < 8 ==> e.Sample(l + Corner(i).0, w + Corner(i).1, h + Corner(i).2) <= 0.0)
  }

  /** A case table that emits nothing for the two uniform cases 0 and 255. */
  ghost predicate UniformCasesEmpty(t: CaseTable) {
    t.Valid() && t.trianglesCount[0] == 0 && t.trianglesCount[255] == 0
  }

  /** A cell whose corners agree in sign is case 0 or 255, which emit nothing. */
  lemma UniformCellEmitsNothing(e: Extraction, l: int, w: int, h: int)
    requires UniformCasesEmpty(e.table)
    requires UniformCell(e, l, w, h)
    ensures e.CellTriangleCount(l, w, h) == 0
    ensures CellVertices(e, l, w, h) == []
  {
    var s := e.CornerSamples(l, w, h);
    if forall i :: 0 <= i < 8 ==> e.Sample(l + Corner(i).0, w + Corner(i).1, h + Corner(i).2) > 0.0 {
      AllOutsideIsCase255(s);
    } else {
      AllInsideIsCaseZero(s);
    }
  }

  /** When no visited cell has corners of both signs, and the table emits
      nothing for cases 0 and 255, the frame's mesh is empty. */
  lemma NoMixedCellMeansEmptyMesh(e: Extraction)
    requires UniformCasesEmpty(e.table)
    requires forall a, b, c :: 0 <= a < e.CellsPerAxis() && 0 <= b < e.CellsPerAxis() && 0 <= c < e.CellsPerAxis() ==>
      UniformCell(e, a, b, c)
    ensures TotalTriangles(e) == 0
    ensures MeshVertices(e) == []
  {
    var m := e.CellsPerAxis();
    forall a, b, c | 0 <= a < m && 0 <= b < m && 0 <= c < m
      ensures CountsOf(e)(a, b, c) == 0
    {
      UniformCellEmitsNothing(e, a, b, c);
    }
    assert NoCellEmits(e);
  }
}

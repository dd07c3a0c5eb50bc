/** The sampling lattice, the case tables and the per-frame inputs of the
    extractor. The scalar field, the edge interpolation and the normal
    estimate are function values about which nothing is assumed: the model
    follows where they are evaluated and where their results are stored. */
module Lattice {
  import opened CubeIndex

  /** A world-space point or direction (a three-component vector of reals). */
  datatype Vec3 = Vec3(x: real, y: real, z: real)

  /** One row entry of the case-to-vertices table: the three cube edges
      (identifiers 0..11) on which the triangle's corners lie. */
  datatype Triangle = Triangle(x: int, y: int, z: int)

  /** The static Marching Cubes tables: for each of the 256 case indices, how
      many triangles it emits and the edge triples of those triangles. */
  datatype CaseTable = CaseTable(trianglesCount: seq<nat>, caseTriangles: seq<seq<Triangle>>)
  {
    /** Every case has a count, and its row lists at least that many triangles. */
    ghost predicate Valid() {
      |trianglesCount| == 256 && |caseTriangles| == 256 &&
      forall c :: 0 <= c < 256 ==> trianglesCount[c] <= |caseTriangles[c]|
    }
  }

  /** The case tables the extractor can be given: well-formed ones. */
  type Tables = t: CaseTable | t.Valid()
    witness CaseTable(seq(256, _ => 0), seq(256, _ => []))

  /** Everything one frame's extraction depends on: the lattice edge length
      (in samples), the case tables, the scalar field of this frame and the
      edge interpolation (edge identifier, offset of the cell). */
  datatype Extraction = Extraction(
    edgeLength: nat,
    table: Tables,
    field: Vec3 -> real,
    interpolate: (int, Vec3) -> Vec3)
  {
    /** `a` is a lattice coordinate along one axis. */
    predicate OnAxis(a: int) {
      0 <= a < edgeLength
    }

    /** Number of cells per axis: the triangulation visits [0, edgeLength - 1)^3.
        A coordinate is visited exactly when both it and its `+ 1` neighbour
        are lattice coordinates, so every corner a visited cell reads exists
        and no cell whose corners all exist is skipped. */
    function CellsPerAxis(): (m: nat)
      ensures forall a {:trigger OnAxis(a)} :: 0 <= a < m ==> OnAxis(a) && a + 1 < edgeLength
      ensures forall a {:trigger OnAxis(a)} :: OnAxis(a) && a + 1 < edgeLength ==> a < m
    {
      if edgeLength == 0 then 0 else edgeLength - 1
    }

    /** The loops of the triangulation pass run while the coordinate is below
        edgeLength - 1; that bound is CellsPerAxis() whenever the lattice is not
        empty, and no coordinate passes it otherwise. */
    lemma LoopBoundIsCellsPerAxis()
      ensures edgeLength == 0 ==> CellsPerAxis() == 0
      ensures edgeLength > 0 ==> CellsPerAxis() == edgeLength - 1
    {
    }

    /** World position of lattice point (l, w, h): (l, w, h) times the cell
        size 0.2, minus the offset edgeLength * 0.2 / 2 on every axis (5 for a
        50-point lattice). Lattice points therefore lie between
        -edgeLength * 0.1 and edgeLength * 0.1 - 0.2 on each axis (-5 and 4.8
        for 50 points). The cell size is the literal 0.2 so that the arithmetic
        is linear. */
    function Position(l: int, w: int, h: int): (p: Vec3)
      ensures OnAxis(l) ==> -(edgeLength as real) * 0.1 <= p.x <= edgeLength as real * 0.1 - 0.2
      ensures OnAxis(w) ==> -(edgeLength as real) * 0.1 <= p.y <= edgeLength as real * 0.1 - 0.2
      ensures OnAxis(h) ==> -(edgeLength as real) * 0.1 <= p.z <= edgeLength as real * 0.1 - 0.2
    {
      var half := edgeLength as real * 0.2 / 2.0;
      Vec3(l as real * 0.2 - half, w as real * 0.2 - half, h as real * 0.2 - half)
    }

    /** The field sampled at lattice point (l, w, h). */
    function Sample(l: int, w: int, h: int): real {
      field(Position(l, w, h))
    }

    /** The field samples at the eight corners of cell (l, w, h), in bit order. */
    function CornerSamples(l: int, w: int, h: int): (s: seq<real>)
      ensures |s| == 8
      ensures forall i :: 0 <= i < 8 ==>
        s[i] == Sample(l + Corner(i).0, w + Corner(i).1, h + Corner(i).2)
    {
      [Sample(l, w, h), Sample(l, w + 1, h), Sample(l + 1, w + 1, h), Sample(l + 1, w, h),
       Sample(l, w, h + 1), Sample(l, w + 1, h + 1), Sample(l + 1, w + 1, h + 1), Sample(l + 1, w, h + 1)]
    }

    /** The case index of cell (l, w, h) under this frame's field: bit i is set
        exactly when the field is positive at corner i. */
    function CellIndex(l: int, w: int, h: int): (r: bv8)
      ensures forall i :: 0 <= i < 8 ==>
        (BitSet(r, i) <==> Sample(l + Corner(i).0, w + Corner(i).1, h + Corner(i).2) > 0.0)
    {
      CaseIndex(CornerSamples(l, w, h))
    }

    /** The number of triangles the case table assigns to cell (l, w, h); the
        table row of the cell's case has at least that many entries. */
    function CellTriangleCount(l: int, w: int, h: int): (c: nat)
      ensures c <= |table.caseTriangles[CellIndex(l, w, h) as int]|
    {
      table.trianglesCount[CellIndex(l, w, h) as int]
    }

    /** The triangles the case table assigns to cell (l, w, h), in table order. */
    function CellTriangles(l: int, w: int, h: int): (ts: seq<Triangle>)
      ensures |ts| == CellTriangleCount(l, w, h)
    {
      table.caseTriangles[CellIndex(l, w, h) as int][..CellTriangleCount(l, w, h)]
    }
  }
}

/** The mesh generator component: a lattice of cached field samples and the
    three output buffers (vertex positions, vertex normals, triangle
    indices), rebuilt from scratch on every frame. */
module Mesh {
  import opened CubeIndex
  import opened Lattice
  import opened CellOrder
  import opened Triangulation

  /** Samples per lattice axis. */
  const EdgeLength: nat := 50

  class MeshGenerator {
    const edgeLength: nat
    /** The static case tables (triangle counts and edge triples per case). */
    const table: Tables
    /** Field samples at the lattice points, cached for the current frame. */
    const grid: array3<real>

    var vertices: seq<Vec3>
    var normals: seq<Vec3>
    var indices: seq<int>

    ghost predicate Valid() {
      grid.Length0 == edgeLength && grid.Length1 == edgeLength && grid.Length2 == edgeLength
    }

    constructor (table: Tables)
      ensures Valid() && fresh(grid)
      ensures edgeLength == EdgeLength && this.table == table
      ensures vertices == [] && normals == [] && indices == []
    {
      edgeLength, this.table := EdgeLength, table;
      grid := new real[EdgeLength, EdgeLength, EdgeLength];
      vertices, normals, indices := [], [], [];
    }

    /** The inputs of one frame of this generator: its lattice and table with
        the frame's field and edge interpolation. */
    function Setup(field: Vec3 -> real, interpolate: (int, Vec3) -> Vec3): (e: Extraction) {
      Extraction(edgeLength, table, field, interpolate)
    }

    /** `e` is a frame of this generator. */
    ghost predicate Frames(e: Extraction) {
      e.edgeLength == edgeLength && e.table == table
    }

    /** Every lattice point holds the field of `e` sampled at its position. */
    ghost predicate Sampled(e: Extraction)
      reads grid
      requires Valid()
    {
      forall l, w, h :: 0 <= l < edgeLength && 0 <= w < edgeLength && 0 <= h < edgeLength ==>
        grid[l, w, h] == e.Sample(l, w, h)
    }

    /** The three buffers are index-aligned: normal k belongs to vertex k, and
        the index buffer is 0, 1, 2, ... (every triangle corner is its own
        vertex, none is shared). */
    ghost predicate BuffersAligned(normal: Vec3 -> Vec3)
      reads this
      ensures BuffersAligned(normal) ==> |normals| == |vertices| && forall k :: 0 <= k < |indices| ==>
        0 <= indices[k] < |vertices| && normals[indices[k]] == normal(vertices[indices[k]])
    {
      |normals| == |vertices| && |indices| == |vertices| &&
      (forall k :: 0 <= k < |vertices| ==> normals[k] == normal(vertices[k])) &&
      (forall k :: 0 <= k < |indices| ==> indices[k] == k)
    }

    /** The case index of the cell whose lowest corner is (l, w, h), from the
        cached samples. Every corner read, including the three `+ 1`
        neighbours, lies inside the grid. */
    function GetCubeIndex(l: int, w: int, h: int): (r: bv8)
      reads grid
      requires 0 <= l && l + 1 < grid.Length0
      requires 0 <= w && w + 1 < grid.Length1
      requires 0 <= h && h + 1 < grid.Length2
      ensures forall i :: 0 <= i < 8 ==>
        (BitSet(r, i) <==> grid[l + Corner(i).0, w + Corner(i).1, h + Corner(i).2] > 0.0)
    {
      CaseIndex([grid[l, w, h], grid[l, w + 1, h], grid[l + 1, w + 1, h], grid[l + 1, w, h],
                 grid[l, w, h + 1], grid[l, w + 1, h + 1], grid[l + 1, w + 1, h + 1], grid[l + 1, w, h + 1]])
    }

    /** Once the grid holds this frame's samples, the cached case index of a
        visited cell is the cell's case index under the field. */
    lemma GridCubeIndexIsCellIndex(e: Extraction, l: int, w: int, h: int)
      requires Valid() && Frames(e) && Sampled(e)
      requires 0 <= l < e.CellsPerAxis() && 0 <= w < e.CellsPerAxis() && 0 <= h < e.CellsPerAxis()
      ensures GetCubeIndex(l, w, h) == e.CellIndex(l, w, h)
    {
      var r := GetCubeIndex(l, w, h);
      forall i | 0 <= i < 8 ensures BitSet(r, i) <==> BitSet(e.CellIndex(l, w, h), i) {
        var d := Corner(i);
        assert grid[l + d.0, w + d.1, h + d.2] == e.Sample(l + d.0, w + d.1, h + d.2);
      }
      BitsDetermineIndex(r, e.CellIndex(l, w, h));
    }

    /** Point x lies in the edgeLength^3 lattice. */
    predicate InLattice(x: (int, int, int)) {
      0 <= x.0 < edgeLength && 0 <= x.1 < edgeLength && 0 <= x.2 < edgeLength
    }

    /** The innermost sampling loop: lattice points (l, w, 0) ..
        (l, w, edgeLength - 1) receive their samples, no other point of the
        grid changes, and `written` records the points written. */
    method SampleRow(e: Extraction, l: int, w: int) returns (ghost written: multiset<(int, int, int)>)
      requires Valid() && Frames(e)
      requires 0 <= l < edgeLength && 0 <= w < edgeLength
      modifies grid
      ensures forall c :: 0 <= c < edgeLength ==> grid[l, w, c] == e.Sample(l, w, c)
      ensures forall a, b, c :: (a != l || b != w) && InLattice((a, b, c)) ==>
        grid[a, b, c] == old(grid[a, b, c])
      ensures forall x :: written[x] == (if x.0 == l && x.1 == w && 0 <= x.2 < edgeLength then 1 else 0)
    {
      written := multiset{};
      var h := 0;
      while h < edgeLength
        invariant 0 <= h <= edgeLength
        invariant forall c :: 0 <= c < h ==> grid[l, w, c] == e.Sample(l, w, c)
        invariant forall a, b, c :: (a != l || b != w) && InLattice((a, b, c)) ==>
          grid[a, b, c] == old(grid[a, b, c])
        invariant forall x :: written[x] == (if x.0 == l && x.1 == w && 0 <= x.2 < h then 1 else 0)
      {
        grid[l, w, h] := e.field(e.Position(l, w, h));
        written := written + multiset{(l, w, h)};
        h := h + 1;
      }
    }

    /** The sampling pass: every lattice point (l, w, h) receives the field at
        (l, w, h) * scale - cubeOffset. The ghost `writes` records the points
        written: each lattice point is written exactly once, and nothing
        outside the lattice is. */
    method SampleGrid(e: Extraction) returns (ghost writes: multiset<(int, int, int)>)
      requires Valid() && Frames(e)
      modifies grid
      ensures Sampled(e)
      ensures forall x :: writes[x] == (if InLattice(x) then 1 else 0)
    {
      writes := multiset{};
      var l := 0;
      while l < edgeLength
        invariant 0 <= l <= edgeLength
        invariant forall a, b, c :: 0 <= a < l && 0 <= b < edgeLength && 0 <= c < edgeLength ==>
          grid[a, b, c] == e.Sample(a, b, c)
        invariant forall x :: writes[x] == (if x.0 < l && InLattice(x) then 1 else 0)
      {
        var w := 0;
        while w < edgeLength
          invariant 0 <= w <= edgeLength
          invariant forall a, b, c :: 0 <= a < l && 0 <= b < edgeLength && 0 <= c < edgeLength ==>
            grid[a, b, c] == e.Sample(a, b, c)
          invariant forall b, c :: 0 <= b < w && 0 <= c < edgeLength ==> grid[l, b, c] == e.Sample(l, b, c)
          invariant forall x :: writes[x] == (if (x.0 < l || (x.0 == l && x.1 < w)) && InLattice(x) then 1 else 0)
        {
          var row := SampleRow(e, l, w);
          writes := writes + row;
          w := w + 1;
        }
        l := l + 1;
      }
    }

    /** One triangle corner: its index (the current vertex count), then the
        interpolated point, then the normal at the vertex just added. */
    method AppendCorner(point: Vec3, normal: Vec3 -> Vec3)
      requires BuffersAligned(normal)
      modifies this
      ensures BuffersAligned(normal)
      ensures vertices == old(vertices) + [point]
      ensures normals == old(normals) + [normal(point)]
      ensures indices == old(indices) + [|old(vertices)|]
    {
      indices := indices + [|vertices|];
      vertices := vertices + [point];
      normals := normals + [normal(vertices[|vertices| - 1])];
    }

    /** The three corners of one triangle, in edge order x, y, z, each
        interpolated on its edge just before it is appended. */
    method AppendTriangle(triangleEdges: Triangle, interpolate: (int, Vec3) -> Vec3, offset: Vec3,
                          normal: Vec3 -> Vec3)
      requires BuffersAligned(normal)
      modifies this
      ensures BuffersAligned(normal)
      ensures vertices == old(vertices) + TriangleVertices([triangleEdges], interpolate, offset)
    {
      AppendCorner(interpolate(triangleEdges.x, offset), normal);
      AppendCorner(interpolate(triangleEdges.y, offset), normal);
      AppendCorner(interpolate(triangleEdges.z, offset), normal);
    }

    /** The triangle loop of one cell: the first `count` triangles of the
        cell's table row, each as three corners interpolated on its edges. */
    method AppendTriangles(row: seq<Triangle>, count: nat, interpolate: (int, Vec3) -> Vec3, offset: Vec3,
                           normal: Vec3 -> Vec3)
      requires count <= |row|
      requires BuffersAligned(normal)
      modifies this
      ensures BuffersAligned(normal)
      ensures vertices == old(vertices) + TriangleVertices(row[..count], interpolate, offset)
    {
      var triangleIdx := 0;
      while triangleIdx < count
        invariant 0 <= triangleIdx <= count
        invariant BuffersAligned(normal)
        invariant vertices == old(vertices) + TriangleVertices(row[..triangleIdx], interpolate, offset)
      {
        var triangleEdges := row[triangleIdx];
        assert row[..triangleIdx + 1] == row[..triangleIdx] + [triangleEdges];
        AppendTriangle(triangleEdges, interpolate, offset, normal);
        triangleIdx := triangleIdx + 1;
      }
    }

    /** One cell: classify it from the cached samples, look up its triangle
        count, and append the three corners of each of its triangles. The
        ghost `f` names the per-cell vertices (see Emits). */
    method TriangulateCell(e: Extraction, ghost f: (int, int, int) -> seq<Vec3>, l: int, w: int, h: int,
                           normal: Vec3 -> Vec3)
      requires Valid() && Frames(e) && Sampled(e) && Emits(e, f)
      requires 0 <= l < e.CellsPerAxis() && 0 <= w < e.CellsPerAxis() && 0 <= h < e.CellsPerAxis()
      requires BuffersAligned(normal)
      modifies this
      ensures BuffersAligned(normal)
      ensures vertices == old(vertices) + f(l, w, h)
    {
      var offset := e.Position(l, w, h);
      var cubeIndex := GetCubeIndex(l, w, h);
      GridCubeIndexIsCellIndex(e, l, w, h);
      var triangleCount := table.trianglesCount[cubeIndex as int];
      AppendTriangles(table.caseTriangles[cubeIndex as int], triangleCount, e.interpolate, offset, normal);
      assert f(l, w, h) == CellVertices(e, l, w, h);
    }

    /** The innermost loop of the triangulation pass: cells (l, w, 0) ..
        (l, w, edgeLength - 2). */
    method TriangulateRow(e: Extraction, ghost f: (int, int, int) -> seq<Vec3>, l: int, w: int, normal: Vec3 -> Vec3)
      requires Valid() && Frames(e) && Sampled(e) && Emits(e, f)
      requires 0 <= l < e.CellsPerAxis() && 0 <= w < e.CellsPerAxis()
      requires BuffersAligned(normal)
      modifies this
      ensures BuffersAligned(normal)
      ensures vertices == old(vertices) + RowConcat(f, l, w, e.CellsPerAxis())
    {
      ghost var start, m := vertices, e.CellsPerAxis();
      e.LoopBoundIsCellsPerAxis();
      var h := 0;
      while h < edgeLength - 1
        invariant 0 <= h <= m
        invariant BuffersAligned(normal)
        invariant vertices == start + RowConcat(f, l, w, h)
      {
        TriangulateCell(e, f, l, w, h, normal);
        RowStep(start, f, l, w, h);
        h := h + 1;
      }
    }

    /** The middle loop of the triangulation pass: rows (l, 0, _) ..
        (l, edgeLength - 2, _). */
    method TriangulateSlab(e: Extraction, ghost f: (int, int, int) -> seq<Vec3>, l: int, normal: Vec3 -> Vec3)
      requires Valid() && Frames(e) && Sampled(e) && Emits(e, f)
      requires 0 <= l < e.CellsPerAxis()
      requires BuffersAligned(normal)
      modifies this
      ensures BuffersAligned(normal)
      ensures vertices == old(vertices) + SlabConcat(f, e.CellsPerAxis(), l, e.CellsPerAxis())
    {
      ghost var start, m := vertices, e.CellsPerAxis();
      e.LoopBoundIsCellsPerAxis();
      var w := 0;
      while w < edgeLength - 1
        invariant 0 <= w <= m
        invariant BuffersAligned(normal)
        invariant vertices == start + SlabConcat(f, m, l, w)
      {
        TriangulateRow(e, f, l, w, normal);
        SlabStep(start, f, m, l, w);
        w := w + 1;
      }
    }

    /** The triangulation pass: every cell in [0, edgeLength - 1)^3, h
        innermost, each appending per triangle corner its index, its
        interpolated position and its normal. */
    method Triangulate(e: Extraction, ghost f: (int, int, int) -> seq<Vec3>, normal: Vec3 -> Vec3)
      requires Valid() && Frames(e) && Sampled(e) && Emits(e, f)
      requires BuffersAligned(normal)
      modifies this
      ensures BuffersAligned(normal)
      ensures vertices == old(vertices) + VolumeConcat(f, e.CellsPerAxis(), e.CellsPerAxis())
    {
      ghost var start, m := vertices, e.CellsPerAxis();
      e.LoopBoundIsCellsPerAxis();
      var l := 0;
      while l < edgeLength - 1
        invariant 0 <= l <= m
        invariant BuffersAligned(normal)
        invariant vertices == start + VolumeConcat(f, m, l)
      {
        TriangulateSlab(e, f, l, normal);
        VolumeStep(start, f, m, l);
        l := l + 1;
      }
    }

    /** One frame: clear the buffers, sample the (already refreshed) field on
        the lattice, triangulate. The result depends only on this frame's
        inputs, never on an earlier frame's buffers or grid. */
    method Update(field: Vec3 -> real, interpolate: (int, Vec3) -> Vec3, normal: Vec3 -> Vec3)
      requires Valid()
      modifies this, grid
      ensures Valid()
      ensures Sampled(Setup(field, interpolate))
      ensures vertices == MeshVertices(Setup(field, interpolate))
      ensures BuffersAligned(normal)
      ensures |vertices| == 3 * TotalTriangles(Setup(field, interpolate))
    {
      vertices := [];
      indices := [];
      normals := [];
      var e := Setup(field, interpolate);
      var _ := SampleGrid(e);
      VerticesOfEmits(e);
      Triangulate(e, VerticesOf(e), normal);
    }
  }
}

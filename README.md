# Marching Cubes mesh generator: a verified model

This project models the core of the `MeshGenerator` Unity component. Every frame, the component turns a scalar
field into a triangle mesh with the Marching Cubes algorithm, in two passes:

1. It samples the field on a 50 × 50 × 50 lattice with spacing 0.2, and caches the samples in `grid`. Every
   lattice point is shifted by edgeLength · 0.2 / 2 = 5 on each axis, so its coordinates run from −5 to 4.8.
2. It walks every cell `[0, edgeLength - 1)³` of the lattice. For each cell it:
   - computes the 8-bit case index from the signs of the cell's eight corner samples (`GetCubeIndex`);
   - looks up how many triangles that case emits;
   - appends, for each triangle corner, an index, an interpolated vertex and a normal to three buffers.

The model is organised as follows:

- `CubeIndex` (cube_index.dfy): the corner-to-bit convention and the case index as the OR of eight one-bit
  flags. The lemmas cover bit meaning, uniqueness, the uniform cases 0 and 255, and complement under negation.
- `Lattice` (lattice.dfy):
  - the frame inputs (`Extraction`): lattice size, case tables, field, edge interpolation;
  - the world position and sample of a lattice point;
  - a cell's case index and its table triangles.
- `CellOrder` (cell_order.dfy): the l-outer, w-middle, h-inner cell order as generic folds (concatenation and
  sum). The lemmas relate their lengths and show a sum of zeros is zero.
- `Triangulation` (triangulation.dfy): the specification of one frame's vertex buffer, `MeshVertices`, and
  of its triangle total, `TotalTriangles`, plus lemmas about them.
- `Mesh` (mesh_generator.dfy): the component as a class with:
  - a `grid` array and the `vertices`/`normals`/`indices` buffers as sequence fields;
  - the sampling and triangulation loops as methods proved against the specification functions;
  - `Update`, which clears the buffers and runs both passes.

The loops of `Update` are split into one method per loop level (`SampleRow`/`SampleGrid`,
`TriangulateCell`/`TriangulateRow`/`TriangulateSlab`/`Triangulate`, `AppendTriangles`), and each triangle
corner's three appends are `AppendCorner`. The ghost function `f` passed down the triangulation methods is the
per-cell vertex list (`Emits(e, f)`); it carries no run-time meaning.

## Model

| member | source | states |
|---|---|---|
| CubeIndex.Corner | Lectures/Lecture3/Assets/Scripts/MeshGenerator.cs:144-151 | corner i of a cell is at offset Corner(i), each component 0 or 1, in the bit order the index uses |
| CubeIndex.CaseIndex | Lectures/Lecture3/Assets/Scripts/MeshGenerator.cs:144-151 | bit i of the 8-bit index is set exactly when sample i is strictly positive; a sample of 0 leaves it clear |
| CubeIndex.BitsDetermineIndex | Lectures/Lecture3/Assets/Scripts/MeshGenerator.cs:144-151 | two indices with the same eight bits are equal |
| CubeIndex.SameIndexIffSameSigns | Lectures/Lecture3/Assets/Scripts/MeshGenerator.cs:144-151 | two cells get the same index if and only if their corners agree in sign |
| CubeIndex.AllInsideIsCaseZero | Lectures/Lecture3/Assets/Scripts/MeshGenerator.cs:144-151 | all eight samples <= 0 give index 0 |
| CubeIndex.AllOutsideIsCase255 | Lectures/Lecture3/Assets/Scripts/MeshGenerator.cs:144-151 | all eight samples > 0 give index 255 |
| CubeIndex.NegationComplementsIndex | Lectures/Lecture3/Assets/Scripts/MeshGenerator.cs:144-151 | negating eight nonzero samples gives the bitwise complement, 255 minus the index |
| Lattice.Extraction.CellsPerAxis | Lectures/Lecture3/Assets/Scripts/MeshGenerator.cs:72-76 | a coordinate is visited exactly when it and its `+ 1` neighbour are both inside the lattice: every corner a visited cell reads exists, and no cell whose corners all exist is skipped |
| Lattice.Extraction.Position | Lectures/Lecture3/Assets/Scripts/MeshGenerator.cs:67 | a lattice point's world coordinates lie between −edgeLength · 0.1 and edgeLength · 0.1 − 0.2 on each axis (−5 and 4.8 for 50 points) |
| Lattice.Extraction.CornerSamples | Lectures/Lecture3/Assets/Scripts/MeshGenerator.cs:144-151 | sample i of a cell is the field at the lattice point (l, w, h) + Corner(i) |
| Lattice.Extraction.CellIndex | Lectures/Lecture3/Assets/Scripts/MeshGenerator.cs:82 | bit i of a cell's case index is set exactly when the field is positive at the cell's corner i |
| Lattice.Extraction.CellTriangleCount | Lectures/Lecture3/Assets/Scripts/MeshGenerator.cs:85-90 | the triangle count of a cell's case is at most the length of that case's table row, so every row lookup of the triangle loop is in range |
| Lattice.Extraction.CellTriangles | Lectures/Lecture3/Assets/Scripts/MeshGenerator.cs:85-90 | a cell's triangles are as many as the table's count for its case index |
| Triangulation.TriangleVertices | Lectures/Lecture3/Assets/Scripts/MeshGenerator.cs:88-103 | the triangles of a cell yield three vertices each |
| Triangulation.TriangleVerticesAt | Lectures/Lecture3/Assets/Scripts/MeshGenerator.cs:90-101 | triangle k yields vertices 3k, 3k+1, 3k+2, interpolated on its edges x, y, z in that order |
| Triangulation.MeshVertices | Lectures/Lecture3/Assets/Scripts/MeshGenerator.cs:72-106 | the reference vertex buffer of a frame (every visited cell's vertices, l outermost, h innermost) has 3 × TotalTriangles vertices |
| Triangulation.TotalTriangles | Lectures/Lecture3/Assets/Scripts/MeshGenerator.cs:85-88 | the frame's triangle total (table count summed over visited cells) is 0 exactly when no visited cell's case emits a triangle |
| Triangulation.UniformCellEmitsNothing | Lectures/Lecture3/Assets/Scripts/MeshGenerator.cs:82-88 | a cell whose corners agree in sign emits no triangle when the table emits none for cases 0 and 255 |
| Triangulation.NoMixedCellMeansEmptyMesh | Lectures/Lecture3/Assets/Scripts/MeshGenerator.cs:72-106 | with no cell of mixed signs, and such a table, the frame's mesh is empty |
| CellOrder.VolumeLength | Lectures/Lecture3/Assets/Scripts/MeshGenerator.cs:72-106 | concatenating three elements per counted unit over all cells gives 3 × the summed count |
| CellOrder.VolumeSumZero | Lectures/Lecture3/Assets/Scripts/MeshGenerator.cs:72-106 | the summed count over all cells is 0 exactly when every cell's count is 0 |
| Mesh.MeshGenerator.constructor | Lectures/Lecture3/Assets/Scripts/MeshGenerator.cs:15-22 | a fresh 50³ grid and three empty buffers |
| Mesh.MeshGenerator.BuffersAligned | Lectures/Lecture3/Assets/Scripts/MeshGenerator.cs:92-102 | when the buffers are aligned, there is one normal per vertex, and every index names an existing vertex whose normal is the normal at that vertex |
| Mesh.MeshGenerator.GetCubeIndex | Lectures/Lecture3/Assets/Scripts/MeshGenerator.cs:142-152 | bit i of the result is set exactly when the cached sample at corner i is > 0; every read, +1 neighbours included, is inside the grid |
| Mesh.MeshGenerator.GridCubeIndexIsCellIndex | Lectures/Lecture3/Assets/Scripts/MeshGenerator.cs:82 | once the grid holds the frame's samples, GetCubeIndex of a visited cell is that cell's case index under the field |
| Mesh.MeshGenerator.SampleRow | Lectures/Lecture3/Assets/Scripts/MeshGenerator.cs:65-68 | points (l, w, 0..edgeLength-1) get their samples, each written once; no other grid point changes |
| Mesh.MeshGenerator.SampleGrid | Lectures/Lecture3/Assets/Scripts/MeshGenerator.cs:61-70 | every lattice point holds F at (l, w, h) * 0.2 - cubeOffset, and each lattice point, and nothing else, is written exactly once |
| Mesh.MeshGenerator.AppendCorner | Lectures/Lecture3/Assets/Scripts/MeshGenerator.cs:92-94 | appends the current vertex count as index, then the vertex, then the normal at that vertex; buffers stay aligned |
| Mesh.MeshGenerator.AppendTriangle | Lectures/Lecture3/Assets/Scripts/MeshGenerator.cs:90-102 | appends the triangle's three corners, interpolated on edges x, y, z in that order, keeping the buffers aligned |
| Mesh.MeshGenerator.AppendTriangles | Lectures/Lecture3/Assets/Scripts/MeshGenerator.cs:88-103 | appends exactly the vertices of the first `count` triangles of the case row, in order |
| Mesh.MeshGenerator.TriangulateCell | Lectures/Lecture3/Assets/Scripts/MeshGenerator.cs:78-103 | appends exactly the cell's vertices as the field determines them, keeping the buffers aligned |
| Mesh.MeshGenerator.TriangulateRow | Lectures/Lecture3/Assets/Scripts/MeshGenerator.cs:76-104 | appends the vertices of cells (l, w, 0..edgeLength-2) in order |
| Mesh.MeshGenerator.TriangulateSlab | Lectures/Lecture3/Assets/Scripts/MeshGenerator.cs:74-105 | appends the vertices of rows (l, 0..edgeLength-2, _) in order |
| Mesh.MeshGenerator.Triangulate | Lectures/Lecture3/Assets/Scripts/MeshGenerator.cs:72-106 | appends the vertices of every cell of [0, edgeLength-1)³, l outermost and h innermost |
| Mesh.MeshGenerator.Update | Lectures/Lecture3/Assets/Scripts/MeshGenerator.cs:49-106 | afterwards the grid holds this frame's samples and the vertex buffer is exactly this frame's mesh, whatever the earlier buffers held; normals and indices are aligned with it; the indices are 0..n-1; n = 3 × the triangle total |

## Left out

- The scalar field: `MetaBallField.F` and its per-frame refresh `Field.Update()` are not part of this model.
  `Update` takes the refreshed field as the function parameter `field`; nothing is assumed about it.
- `GetPointByInterpolation` and `GetNormal` (MeshGenerator.cs:119-140) are not part of this model. They use
  floating-point interpolation and normalisation, and appear as the opaque parameters `interpolate` and `normal`.
  The `DeltaX`/`DeltaY`/`DeltaZ` constants belong to `GetNormal`.
- The contents of `MarchingCubes.Tables` are not part of this model. The case tables are a value of type
  `Tables`: 256 counts and 256 rows, with each row at least as long as its count. `NoMixedCellMeansEmptyMesh`
  and `UniformCellEmitsNothing` assume, as a precondition, that cases 0 and 255 emit no triangle.
- `Awake` and the mesh upload (`_mesh.Clear`, `SetVertices`, `SetTriangles`, `SetNormals`, `UploadMeshData`) are
  Unity lifecycle and GPU plumbing, and are left out.
- Floating point: samples, positions and vertices are exact reals, so `float` rounding is not modelled. The
  position of a lattice point is computed exactly as (l, w, h) · 0.2 − edgeLength · 0.2 / 2.
- The case index is an 8-bit value, so its range 0..255 holds by its type. The source computes the same value
  as an `int`.
- The source runs both loop nests inline in `Update`; here each loop level is its own method. The appends
  happen in the same order, and each corner is interpolated just before it is appended, as in the source.

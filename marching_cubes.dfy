/** The host side of `MarchingCubes.BuildMesh`: sizing the triangle buffer and
    the dispatch, reading the first `numTris` triangles back, and assembling a
    dense vertex array (each triangle's corners in reversed order) with an
    identity index array. The compute kernel that fills the buffer is not part
    of this model: its output enters as a parameter. */
module MarchingCubesHost {
  import opened CSharpInt

  /** The shader-side `float3`: a position. No arithmetic is done on it. */
  datatype Float3 = Float3(x: real, y: real, z: real)

  /** A triangle as the kernel appends it, corners in the kernel's winding. */
  datatype Triangle = Triangle(p0: Float3, p1: Float3, p2: Float3)

  /** The mesh handed to the `MeshFilter`: positions and index triples. */
  datatype Mesh = Mesh(name: string, vertices: seq<Float3>, triangles: seq<Int32>)

  datatype Option<T> = None | Some(value: T)

  /** The worst case of the kernel: at most five triangles per cell. */
  const MaxTrianglesPerCell: int := 5

  /** Corner `c` (0, 1 or 2) of a triangle. */
  function Corner(t: Triangle, c: int): Float3
    requires 0 <= c < 3
  {
    if c == 0 then t.p0 else if c == 1 then t.p1 else t.p2
  }

  /** The same triangle with its winding reversed. */
  function ReverseWinding(t: Triangle): (r: Triangle)
    ensures forall c :: 0 <= c < 3 ==> Corner(r, c) == Corner(t, 2 - c)
  {
    Triangle(t.p2, t.p1, t.p0)
  }

  lemma ReverseWindingInvolution(t: Triangle)
    ensures ReverseWinding(ReverseWinding(t)) == t
  {
  }

  // ---------------------------------------------------------------------------
  // Sizing
  // ---------------------------------------------------------------------------

  /** `5*cellCountPerAxis*cellCountPerAxis*cellCountPerAxis`, evaluated left to
      right in C#'s unchecked `int`: the exact product modulo 2^32, which is the
      intended five triangles per cell whenever that fits in an `int`. */
  function MaxTriangleCount(n: Int32): (c: Int32)
    ensures c == Wrap32(MaxTrianglesPerCell * (n * n * n))
    ensures 0 <= n <= 754 ==> c == MaxTrianglesPerCell * (n * n * n)
  {
    WrapChain(n);
    CubeBound(n);
    Wrap32(Wrap32(Wrap32(5 * n) * n) * n)
  }

  /** The left-to-right wrapped chain is the wrapped exact product. */
  lemma WrapChain(n: int)
    ensures Wrap32(Wrap32(Wrap32(5 * n) * n) * n) == Wrap32(MaxTrianglesPerCell * (n * n * n))
  {
    var a := 5 * n;
    var b := a * n;
    var c := b * n;
    assert c == MaxTrianglesPerCell * (n * n * n);
    WrapMul(a, n);
    var w := Wrap32(Wrap32(a) * n);
    assert w == Wrap32(b);
    WrapMul(b, n);
    assert Wrap32(w * n) == Wrap32(c);
  }

  lemma MulLe(a: int, b: int, c: int)
    requires a <= b && c >= 0
    ensures a * c <= b * c
  {
  }

  lemma CubeBound(n: int)
    ensures 0 <= n <= 754 ==> 0 <= n * n * n <= 754 * 754 * 754
    ensures n >= 755 ==> n * n * n >= 755 * 755 * 755
  {
    if 0 <= n <= 754 {
      MulLe(n, 754, n);
      MulLe(n, 754, 754);
      MulLe(n * n, 754 * 754, n);
      MulLe(n, 754, 754 * 754);
      assert 0 <= n * n;
      MulLe(0, n * n, n);
    } else if n >= 755 {
      MulLe(755, n, n);
      MulLe(755, n, 755);
      MulLe(755 * 755, n * n, n);
      MulLe(755, n, 755 * 755);
    }
  }

  /** For a non-negative grid size the capacity is exactly five triangles per
      cell if and only if the grid has at most 754 cells per axis; from 755 on
      the `int` product wraps. */
  lemma CapacityExactIff(n: Int32)
    requires n >= 0
    ensures MaxTriangleCount(n) == MaxTrianglesPerCell * (n * n * n) <==> n <= 754
  {
    CubeBound(n);
    if n >= 755 {
      assert MaxTrianglesPerCell * (n * n * n) >= TwoTo31;
    }
  }

  /** `Mathf.CeilToInt(n / (float) threadCount)`, as integer ceiling division:
      the least group count whose groups of `threadCount` threads reach `n`. */
  function DispatchCount(n: Int32, threadCount: Int32): (g: Int32)
    requires threadCount >= 1
    ensures g * threadCount >= n
    ensures (g - 1) * threadCount < n
  {
    (n + threadCount - 1) / threadCount
  }

  /** Every cell index along an axis belongs to one of the dispatched groups:
      cell `c` is thread `c % threadCount` of group `c / threadCount`. This
      assumes each group has `threadCount` threads per axis, i.e. that the
      kernel's thread-group size equals the `threadCount` field. */
  lemma DispatchCoversAxis(n: Int32, threadCount: Int32, c: int)
    requires threadCount >= 1
    requires 0 <= c < n
    ensures 0 <= c / threadCount < DispatchCount(n, threadCount)
    ensures (c / threadCount) * threadCount + c % threadCount == c
  {
    var g := DispatchCount(n, threadCount);
    var q := c / threadCount;
    assert q * threadCount <= c < n <= g * threadCount;
    if q >= g {
      MulLe(g, q, threadCount);
    }
    if q < 0 {
      MulLe(q, -1, threadCount);
    }
  }

  /** No dispatched group is surplus: the first thread of every group along an
      axis is a cell of the grid (groups of `threadCount` threads per axis, as
      above). */
  lemma DispatchNoSurplusGroup(n: Int32, threadCount: Int32, q: int)
    requires threadCount >= 1
    requires 0 <= q < DispatchCount(n, threadCount)
    ensures q * threadCount < n
  {
    var g := DispatchCount(n, threadCount);
    MulLe(q, g - 1, threadCount);
  }

  /** The three-dimensional dispatch `(g, g, g)` covers every cell `(i, j, k)`
      of the `n^3` grid, for groups of `threadCount` threads per axis. */
  lemma DispatchCoversGrid(n: Int32, threadCount: Int32, i: int, j: int, k: int)
    requires threadCount >= 1
    requires 0 <= i < n && 0 <= j < n && 0 <= k < n
    ensures var g := DispatchCount(n, threadCount);
      i / threadCount < g && j / threadCount < g && k / threadCount < g
  {
    DispatchCoversAxis(n, threadCount, i);
    DispatchCoversAxis(n, threadCount, j);
    DispatchCoversAxis(n, threadCount, k);
  }

  // ---------------------------------------------------------------------------
  // Readback
  // ---------------------------------------------------------------------------

  /** `triangleBuffer.GetData(tris, 0, 0, numTris)`: the first `numTris` slots
      of the append buffer, whose counter the host trusts. */
  function ReadBack(buffer: seq<Triangle>, numTris: int): (tris: seq<Triangle>)
    requires 0 <= numTris <= |buffer|
    ensures |tris| == numTris
    ensures forall i :: 0 <= i < numTris ==> tris[i] == buffer[i]
  {
    buffer[..numTris]
  }

  /** Slots at or past the counter are never read: two buffers that agree on
      the first `numTris` slots read back the same triangles. */
  lemma ReadBackIgnoresUnwritten(b1: seq<Triangle>, b2: seq<Triangle>, numTris: int)
    requires 0 <= numTris <= |b1| && numTris <= |b2|
    requires forall i :: 0 <= i < numTris ==> b1[i] == b2[i]
    ensures ReadBack(b1, numTris) == ReadBack(b2, numTris)
  {
    var r1, r2 := ReadBack(b1, numTris), ReadBack(b2, numTris);
    assert forall i :: 0 <= i < numTris ==> r1[i] == r2[i];
  }

  // ---------------------------------------------------------------------------
  // Mesh assembly
  // ---------------------------------------------------------------------------

  /** Reference definition of the vertex array: triangle by triangle, each
      triangle's corners in the order `p2, p1, p0`. */
  function Flatten(ts: seq<Triangle>): seq<Float3>
  {
    if ts == [] then [] else [ts[0].p2, ts[0].p1, ts[0].p0] + Flatten(ts[1..])
  }

  lemma {:induction false} FlattenLength(ts: seq<Triangle>)
    ensures |Flatten(ts)| == 3 * |ts|
  {
    if ts != [] {
      FlattenLength(ts[1..]);
    }
  }

  /** Slot `k` of the flattened array holds corner `2 - k % 3` of triangle
      `k / 3`; equivalently corner `c` of triangle `i` sits in slot `3*i + 2 - c`. */
  lemma {:induction false} FlattenAt(ts: seq<Triangle>, k: int)
    requires 0 <= k < 3 * |ts|
    ensures |Flatten(ts)| == 3 * |ts|
    ensures Flatten(ts)[k] == Corner(ts[k / 3], 2 - k % 3)
  {
    FlattenLength(ts);
    if k >= 3 {
      FlattenAt(ts[1..], k - 3);
      assert Flatten(ts)[k] == Flatten(ts[1..])[k - 3];
      assert ts[k / 3] == ts[1..][(k - 3) / 3];
    }
  }

  lemma FlattenCorner(ts: seq<Triangle>, i: int, c: int)
    requires 0 <= i < |ts| && 0 <= c < 3
    ensures |Flatten(ts)| == 3 * |ts|
    ensures Flatten(ts)[3 * i + 2 - c] == Corner(ts[i], c)
  {
    FlattenAt(ts, 3 * i + 2 - c);
  }

  /** The identity index array `[0, 1, ..., m - 1]`. */
  function Identity(m: nat): (r: seq<Int32>)
    requires m <= TwoTo31
  {
    seq(m, k requires 0 <= k < m => k as Int32)
  }

  /** Reference definition of how the engine reads a mesh (not part of the
      component): index triple `i` names the three vertices of triangle `i`. */
  function RenderedTriangles(vertices: seq<Float3>, indices: seq<Int32>): seq<Triangle>
    requires |indices| % 3 == 0
    requires forall k :: 0 <= k < |indices| ==> 0 <= indices[k] < |vertices|
  {
    seq(|indices| / 3, i requires 0 <= i < |indices| / 3 =>
      Triangle(vertices[indices[3 * i]], vertices[indices[3 * i + 1]], vertices[indices[3 * i + 2]]))
  }

  /** The assembled mesh draws exactly the read-back triangles, in order, each
      with its winding reversed. */
  lemma {:induction false} MeshRendersReversedTriangles(ts: seq<Triangle>)
    requires 3 * |ts| <= TwoTo31
    ensures |Flatten(ts)| == 3 * |ts|
    ensures var r := RenderedTriangles(Flatten(ts), Identity(3 * |ts|));
      |r| == |ts| && forall i :: 0 <= i < |ts| ==> r[i] == ReverseWinding(ts[i])
  {
    FlattenLength(ts);
    var r := RenderedTriangles(Flatten(ts), Identity(3 * |ts|));
    forall i | 0 <= i < |ts|
      ensures r[i] == ReverseWinding(ts[i])
    {
      FlattenCorner(ts, i, 0);
      FlattenCorner(ts, i, 1);
      FlattenCorner(ts, i, 2);
    }
  }

  /** Distinct triangle lists give distinct vertex arrays: every slot is
      determined by exactly one input corner and every corner reaches a slot. */
  lemma {:induction false} FlattenInjective(a: seq<Triangle>, b: seq<Triangle>)
    requires Flatten(a) == Flatten(b)
    ensures a == b
  {
    FlattenLength(a);
    FlattenLength(b);
    forall i | 0 <= i < |a|
      ensures a[i] == b[i]
    {
      FlattenCorner(a, i, 0);
      FlattenCorner(a, i, 1);
      FlattenCorner(a, i, 2);
      FlattenCorner(b, i, 0);
      FlattenCorner(b, i, 1);
      FlattenCorner(b, i, 2);
    }
  }

  /** The nested loop of `BuildMesh`: for triangle `i` and corner slot `j`,
      index `3*i + j` gets the value `3*i + j` and vertex `3*i + j` gets corner
      `p2`, `p1`, `p0` for `j` = 0, 1, 2. */
  method AssembleMesh(tris: array<Triangle>) returns (vertices: array<Float3>, meshTriangles: array<Int32>)
    requires 3 * tris.Length <= TwoTo31
    ensures fresh(vertices) && fresh(meshTriangles)
    ensures vertices.Length == 3 * tris.Length && meshTriangles.Length == 3 * tris.Length
    ensures forall k :: 0 <= k < meshTriangles.Length ==> meshTriangles[k] == k
    ensures forall i :: 0 <= i < tris.Length ==>
      vertices[3 * i] == tris[i].p2 && vertices[3 * i + 1] == tris[i].p1 && vertices[3 * i + 2] == tris[i].p0
    ensures vertices[..] == Flatten(tris[..])
    ensures meshTriangles[..] == Identity(3 * tris.Length)
  {
    var numTris := tris.Length;
    vertices := new Float3[numTris * 3];
    meshTriangles := new Int32[numTris * 3];
    ghost var vertices0, indices0 := vertices[..], meshTriangles[..];
    for i := 0 to numTris
      invariant forall k :: 0 <= k < 3 * i ==>
        meshTriangles[k] == k && vertices[k] == Corner(tris[k / 3], 2 - k % 3)
      invariant forall k :: 3 * i <= k < 3 * numTris ==>
        meshTriangles[k] == indices0[k] && vertices[k] == vertices0[k]
    {
      for j := 0 to 3
        invariant forall k :: 0 <= k < 3 * i + j ==>
          meshTriangles[k] == k && vertices[k] == Corner(tris[k / 3], 2 - k % 3)
        invariant forall k :: 3 * i + j <= k < 3 * numTris ==>
          meshTriangles[k] == indices0[k] && vertices[k] == vertices0[k]
      {
        meshTriangles[i * 3 + j] := i * 3 + j;
        var vec;
        if j == 0 {
          vec := tris[i].p2;
        } else if j == 1 {
          vec := tris[i].p1;
        } else {
          vec := tris[i].p0;
        }
        vertices[i * 3 + j] := vec;
        assert (i * 3 + j) / 3 == i && (i * 3 + j) % 3 == j;
      }
    }
    SlotsAreFlatten(tris[..], vertices[..]);
    assert meshTriangles[..] == Identity(3 * numTris);
  }

  /** A vertex array filled slot by slot as in the loop is the reference
      flattening, triangle by triangle. */
  lemma SlotsAreFlatten(ts: seq<Triangle>, vs: seq<Float3>)
    requires |vs| == 3 * |ts|
    requires forall k :: 0 <= k < |vs| ==> vs[k] == Corner(ts[k / 3], 2 - k % 3)
    ensures vs == Flatten(ts)
    ensures forall i :: 0 <= i < |ts| ==>
      vs[3 * i] == ts[i].p2 && vs[3 * i + 1] == ts[i].p1 && vs[3 * i + 2] == ts[i].p0
  {
    FlattenLength(ts);
    forall k | 0 <= k < |vs|
      ensures vs[k] == Flatten(ts)[k]
    {
      FlattenAt(ts, k);
    }
    forall i | 0 <= i < |ts|
      ensures vs[3 * i] == ts[i].p2 && vs[3 * i + 1] == ts[i].p1 && vs[3 * i + 2] == ts[i].p0
    {
      FlattenCorner(ts, i, 0);
      FlattenCorner(ts, i, 1);
      FlattenCorner(ts, i, 2);
    }
  }

  // ---------------------------------------------------------------------------
  // The component
  // ---------------------------------------------------------------------------

  /** The ways `BuildMesh` can throw before it assigns the new mesh. */
  datatype BuildError =
    | BufferCountBelowOne  // `new ComputeBuffer(maxTriangleCount, ...)`, line 31
    | ComputeShaderUnassigned  // `computeShader.SetInt(...)` on null, line 35
    | NoMeshFilter  // `filter.mesh = mesh` with a null filter, line 86

  /** The `MarchingCubes` component: its inspector fields, whether its
      `computeShader` reference is assigned, and the `MeshFilter` of its
      GameObject together with the mesh that `BuildMesh` replaces. */
  class MarchingCubes {
    var hasComputeShader: bool
    var cellSize: real
    var cellCountPerAxis: Int32
    var sdfPadding: real
    var autoRemesh: bool
    var threadCount: Int32
    const hasMeshFilter: bool
    var filterMesh: Option<Mesh>

    /** The field initialisers; `computeShader` has none, so it starts null.
        The `MeshFilter` is a separate component, so whether the GameObject
        has one and the mesh it holds beforehand are parameters. */
    constructor (meshFilter: bool, initialMesh: Option<Mesh>)
      ensures !hasComputeShader
      ensures cellSize == 0.03 && cellCountPerAxis == 32 && sdfPadding == 0.05
      ensures !autoRemesh && threadCount == 8
      ensures hasMeshFilter == meshFilter && filterMesh == initialMesh
    {
      hasComputeShader := false;
      cellSize := 0.03;
      cellCountPerAxis := 32;
      sdfPadding := 0.05;
      autoRemesh := false;
      threadCount := 8;
      hasMeshFilter := meshFilter;
      filterMesh := initialMesh;
    }

    /** `BuildMesh`. `gpuTriangles` is the append buffer after the dispatch
        (its length is the capacity the method allocates) and `numTris` its
        counter as copied back. It throws, in source order, for a buffer count
        below one, an unassigned compute shader or a missing `MeshFilter`, and
        then the filter keeps its mesh. Otherwise the new mesh draws the first
        `numTris` triangles of the buffer with reversed winding. No other
        modelled field changes. */
    method BuildMesh(gpuTriangles: seq<Triangle>, numTris: int) returns (thrown: Option<BuildError>)
      requires threadCount >= 1
      requires MaxTriangleCount(cellCountPerAxis) >= 1 ==>
        |gpuTriangles| == MaxTriangleCount(cellCountPerAxis) &&
        0 <= numTris <= |gpuTriangles| && 3 * numTris <= TwoTo31
      modifies this`filterMesh
      ensures thrown == Some(BufferCountBelowOne) <==> MaxTriangleCount(cellCountPerAxis) < 1
      ensures thrown == Some(ComputeShaderUnassigned) <==>
        MaxTriangleCount(cellCountPerAxis) >= 1 && !hasComputeShader
      ensures thrown == Some(NoMeshFilter) <==>
        MaxTriangleCount(cellCountPerAxis) >= 1 && hasComputeShader && !hasMeshFilter
      ensures thrown.Some? ==> filterMesh == old(filterMesh)
      ensures thrown.None? ==> filterMesh == Some(Mesh("Generated Mesh",
        Flatten(gpuTriangles[..numTris]), Identity(3 * numTris)))
    {
      var maxTriangleCount := MaxTriangleCount(cellCountPerAxis);
      if maxTriangleCount < 1 {
        return Some(BufferCountBelowOne);
      }
      if !hasComputeShader {
        return Some(ComputeShaderUnassigned);
      }
      // The group count per axis handed to the dispatch; it only reaches the GPU.
      var dispatchCount := DispatchCount(cellCountPerAxis, threadCount);
      ghost var triangles := ReadBack(gpuTriangles, numTris);
      var tris := new Triangle[numTris](i requires 0 <= i < numTris => gpuTriangles[i]);
      assert tris[..] == triangles;
      var vertices, meshTriangles := AssembleMesh(tris);
      if !hasMeshFilter {
        return Some(NoMeshFilter);
      }
      filterMesh := Some(Mesh("Generated Mesh", vertices[..], meshTriangles[..]));
      thrown := None;
    }
  }
}

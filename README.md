# Host-side mesh build of the Marching Cubes component

A Dafny model of the CPU half of `MarchingCubes.BuildMesh` in the Unity project
`non-linear-sphere-tracing`. `BuildMesh` turns the output of a Marching Cubes
compute kernel into a Unity mesh. It works in four steps:

1. It sizes the GPU append buffer for the worst case of five triangles per grid cell: `5 * n^3` triangles for `n = cellCountPerAxis`.
2. It dispatches `ceil(n / threadCount)` thread groups along each of the three axes.
3. It reads back the append buffer's counter `numTris` and copies exactly the first `numTris` triangles.
4. It fills a dense vertex array and an index array of `3 * numTris` entries each in a nested loop. Vertex slot `3i + j` gets corner `p2`, `p1`, `p0` of triangle `i` for `j = 0, 1, 2`, so winding is reversed. Index slot `k` gets `k`.

The project has two modules:

- `CSharpInt` (`csharp_int.dfy`): C#'s 32-bit `int` and its unchecked, wrap-around multiplication.
- `MarchingCubesHost` (`marching_cubes.dfy`):
  - the `float3`, `Triangle` and mesh data;
  - the sizing functions;
  - the readback;
  - the assembly loop, as an imperative method over arrays;
  - the component as a class, whose `BuildMesh` replaces the mesh of the `MeshFilter`.

The kernel's output enters `BuildMesh` as two parameters. `gpuTriangles` is the
contents of the append buffer, at its allocated capacity. `numTris` is the
counter copied back from the GPU.

Facts proved about the model:

- Vertex slot `k` holds corner `2 - k % 3` of triangle `k / 3`. Since the index array is the identity, the renderer draws exactly the read-back triangles, in order, each with its winding reversed.
- Flattening is injective.
- The capacity is the exact product modulo 2^32. For `n >= 0` it equals five triangles per cell iff `n <= 754`; from `n = 755` on, the `int` product wraps.
- The dispatch count is the least number of groups of `threadCount` threads that covers every cell along an axis, so no group is surplus.

## Model

| member | source | states |
|---|---|---|
| CSharpInt.Wrap32 | unity-project/non-linear-sphere-tracing-unity-project/Assets/MarchingCubes.cs:30 | an unchecked `int` result is in range, congruent to the exact value modulo 2^32, and equal to it when it fits |
| CSharpInt.WrapMul | unity-project/non-linear-sphere-tracing-unity-project/Assets/MarchingCubes.cs:30 | wrapping an intermediate product of the left-to-right chain does not change the wrapped final product |
| MarchingCubesHost.ReverseWinding | unity-project/non-linear-sphere-tracing-unity-project/Assets/MarchingCubes.cs:67-76 | corner `c` of the reversed triangle is corner `2 - c` of the original |
| MarchingCubesHost.ReverseWindingInvolution | unity-project/non-linear-sphere-tracing-unity-project/Assets/MarchingCubes.cs:67-76 | reversing the winding twice gives back the triangle |
| MarchingCubesHost.MaxTriangleCount | unity-project/non-linear-sphere-tracing-unity-project/Assets/MarchingCubes.cs:30 | the buffer capacity is `5 * n^3` modulo 2^32, and exactly `5 * n^3` (five triangles per cell) for `0 <= n <= 754` |
| MarchingCubesHost.CapacityExactIff | unity-project/non-linear-sphere-tracing-unity-project/Assets/MarchingCubes.cs:30 | for `n >= 0`: the capacity is exactly five triangles per cell iff `n <= 754` |
| MarchingCubesHost.DispatchCount | unity-project/non-linear-sphere-tracing-unity-project/Assets/MarchingCubes.cs:40 | `g * threadCount >= n` and `(g - 1) * threadCount < n`, which is `g = ceil(n / threadCount)` |
| MarchingCubesHost.DispatchCoversAxis | unity-project/non-linear-sphere-tracing-unity-project/Assets/MarchingCubes.cs:40-41 | each cell index `c < n` is thread `c % threadCount` of group `c / threadCount`, and that group is one of the dispatched ones |
| MarchingCubesHost.DispatchNoSurplusGroup | unity-project/non-linear-sphere-tracing-unity-project/Assets/MarchingCubes.cs:40-41 | the first thread of every dispatched group is a cell of the grid |
| MarchingCubesHost.DispatchCoversGrid | unity-project/non-linear-sphere-tracing-unity-project/Assets/MarchingCubes.cs:41 | the `(g, g, g)` dispatch reaches every cell `(i, j, k)` of the `n^3` grid |
| MarchingCubesHost.ReadBack | unity-project/non-linear-sphere-tracing-unity-project/Assets/MarchingCubes.cs:47-51 | the copied array has exactly `numTris` triangles, and triangle `i` is buffer slot `i` |
| MarchingCubesHost.ReadBackIgnoresUnwritten | unity-project/non-linear-sphere-tracing-unity-project/Assets/MarchingCubes.cs:50-51 | no slot at or past `numTris` is read: buffers that agree below `numTris` read back the same triangles |
| MarchingCubesHost.FlattenLength | unity-project/non-linear-sphere-tracing-unity-project/Assets/MarchingCubes.cs:60 | the vertex array has `3 * numTris` entries |
| MarchingCubesHost.FlattenAt | unity-project/non-linear-sphere-tracing-unity-project/Assets/MarchingCubes.cs:63-79 | vertex slot `k` is corner `2 - k % 3` of triangle `k / 3` |
| MarchingCubesHost.FlattenCorner | unity-project/non-linear-sphere-tracing-unity-project/Assets/MarchingCubes.cs:67-78 | corner `c` of triangle `i` lands in slot `3i + 2 - c` |
| MarchingCubesHost.WrapChain | unity-project/non-linear-sphere-tracing-unity-project/Assets/MarchingCubes.cs:30 | the left-to-right wrapped product `((5*n)*n)*n` equals the wrapped exact product `5 * n^3` |
| MarchingCubesHost.SlotsAreFlatten | unity-project/non-linear-sphere-tracing-unity-project/Assets/MarchingCubes.cs:63-80 | a vertex array whose slot `k` holds corner `2 - k % 3` of triangle `k / 3` is the reference flattening, with `p2`, `p1`, `p0` at slots `3i`, `3i+1`, `3i+2` |
| MarchingCubesHost.FlattenInjective | unity-project/non-linear-sphere-tracing-unity-project/Assets/MarchingCubes.cs:63-80 | equal vertex arrays come from equal triangle lists: each slot is fed by exactly one input corner |
| MarchingCubesHost.MeshRendersReversedTriangles | unity-project/non-linear-sphere-tracing-unity-project/Assets/MarchingCubes.cs:60-82 | the assembled vertex and index arrays draw exactly the input triangles, in order, each with reversed winding |
| MarchingCubesHost.AssembleMesh | unity-project/non-linear-sphere-tracing-unity-project/Assets/MarchingCubes.cs:60-80 | the arrays have `3 * numTris` entries and the index array is the identity. Vertices `3i`, `3i+1`, `3i+2` are `p2`, `p1`, `p0` of triangle `i`. The vertex array equals the reference `Flatten`. Zero triangles give two empty arrays |
| MarchingCubesHost.MarchingCubes.constructor | unity-project/non-linear-sphere-tracing-unity-project/Assets/MarchingCubes.cs:6-13 | the five initialised inspector fields start at their declared defaults and `computeShader`, which has no initialiser, starts unassigned; whether the GameObject has a `MeshFilter`, and the mesh it already holds, are parameters |
| MarchingCubesHost.MarchingCubes.BuildMesh | unity-project/non-linear-sphere-tracing-unity-project/Assets/MarchingCubes.cs:29-89 | it throws, in source order, when the capacity is below one (the buffer allocation at line 31), when `computeShader` is unassigned (line 35) or when the GameObject has no `MeshFilter` (line 86); each reason is reported iff its condition holds and the earlier ones do not, and on a throw the filter keeps its old mesh. Otherwise the filter's new mesh is "Generated Mesh", with the flattened first `numTris` buffer slots as vertices and the identity as indices. No other modelled field changes |

## Left out

- The compute kernel, the 256-case triangulation table and the per-cell interpolation are not part of this model. They live in a compute shader that is not among the source files, so the buffer contents are a parameter.
- The GPU append buffer's atomic counter and its parallel producers are not modelled: this is concurrency on the hardware. `BuildMesh` trusts the counter, and the model says so with a requires that, whenever the allocation succeeds, `0 <= numTris <= |gpuTriangles|`.
- `ComputeBuffer` allocation (apart from its rejection of a count below one), `SetCounterValue`, `SetInt`/`SetFloat`/`SetBuffer`, `Dispatch`, `CopyCount`, `GetData` and `Dispose` are not modelled: they are GPU I/O and resource plumbing. The readback is reduced to taking the buffer prefix with `ReadBack`.
- `cellSize` and `sdfPadding` are not used in the model: they are only passed to the shader. The fields are kept on the class for completeness.
- The `Mesh`/`MeshFilter` engine objects, the `Vector3` construction and `RecalculateNormals` are not modelled: these are engine calls and floating-point normal computation. A mesh is a value holding its name, vertices and indices, and vertices are `Float3` values copied unchanged.
- MarchingCubesHost.DispatchCount: uses exact integer ceiling division, while the source uses `float` division and `Mathf.CeilToInt`. The two agree when `|n|` and `threadCount` are below 2^24. From 2^24 on they can differ: for `n = 16777217` and `threadCount = 2`, `(float)n` rounds to 16777216, so the source gives 8388608 where the model gives 8388609. A `threadCount <= 0` (a float division by zero) is not modelled, so the function requires `threadCount >= 1`.
- MarchingCubesHost.MarchingCubes.BuildMesh: only three exceptions are modelled, each as a `BuildError` result with the mesh left unchanged. The first is the `ComputeBuffer` allocation rejecting a count below one. That happens for `-754 <= n <= 0` and for every `n` whose wrapped capacity is below one, such as `n = 2048` or `n = -1000`. Some negative sizes, such as `n = -755`, wrap to a positive capacity (2143122921) and do not throw at line 31. The other two are a null `computeShader` at line 35 and a missing `MeshFilter` at line 86. The compute shader is modelled only as assigned or not, and the `MeshFilter` only as present or not. The two `ComputeBuffer`s that stay allocated and are never disposed when line 35 throws are not modelled. Other allocation failures, such as running out of GPU memory, are not modelled either. The fields `triangleBuffer` and `triCountBuffer`, which the method reassigns and disposes, are not modelled.
- MarchingCubesHost.AssembleMesh: requires `3 * numTris <= 2^31`, so that every index fits in an `int`. Beyond that, the C# `numTris * 3` wraps and the array allocation or the index writes throw; those exceptions are not modelled.
- The inspector button in `Editor/MarchingCubes_editor.cs` only calls `BuildMesh`. It is UI and is not modelled.
- The coverage lemmas (`DispatchCoversAxis`, `DispatchNoSurplusGroup`, `DispatchCoversGrid`) assume that each thread group has `threadCount` threads per axis. That size is fixed by the kernel's `[numthreads]` declaration, which is not among the source files. Nothing in the C# ties it to the editable `threadCount` field at line 13.
- `RenderedTriangles` is a reference definition of how Unity reads a mesh's index array: each consecutive index triple is one triangle. It is engine behaviour, not code of the component, and `MeshRendersReversedTriangles` states the property that depends on it.
- Unity's default 16-bit index format, which the source never changes, is not modelled. Under that format a mesh with more than 65535 vertices (`numTris > 21845`) is refused when the index array is assigned. The model's `Mesh` value has no such limit.

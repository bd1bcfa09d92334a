# Hopf fibration scene: band stitching and fibre buffers

This project models the discrete part of `scene.js`, the script that renders
the Hopf fibration. Three things are modelled:

- **Band stitching, `make_band_geometry`.** Two polylines become one vertex
  list: the first curve, then the second. An open strip of triangles is laid
  between them, with two triangles per quad. Module `Band`, file `band.dfy`.
- **Fibre sample buffers, `getFiberPoints` and `get_fiber_vertices`.** One loop
  runs over the sample indices `0 .. divisions`. `getFiberPoints` emits three
  flat numbers per sample and converts them to a 32-bit float array.
  `get_fiber_vertices` emits one 3-vector per sample. Module `Fiber`, file
  `fiber.dfy`.
- **The sweep, `make_fibers_surface_at_theta`.** It samples `steps` base points
  and computes the fibre over each. It then builds one band per pair of
  consecutive fibres. Module `Sweep`, file `sweep.dfy`.

All the coordinates are floating-point trigonometry, so the model leaves them
as parameters:

- `sample(point, i, divisions)` is the per-sample formula, returning a
  `Vec3<N>` over an unspecified number type `N`.
- `round` is the conversion `Float32Array.from` applies to each number.
- `pointAt(i, steps)` is the base point of sample `i` of the sweep.

Vertices in a band are a generic `seq<T>`. Faces are triples of natural-number
indices. `THREE.Geometry` is a fresh local object that the builder fills
with vertices and faces, so its vertex and face lists are modelled as the
value `Mesh(vertices, faces)`. The normals that three.js then computes and
stores on the faces are not part of that value.

The loop guards are modelled as written. `divisions + 1` samples are taken
when `divisions >= 0`, and none when it is negative. The sweep collects no
fibre when `steps <= 0`. The two buffer functions have different default
division counts: 256 for `getFiberPoints` and 250 for `get_fiber_vertices`.
The sweep calls `get_fiber_vertices` with its default, so every fibre has 251
samples.

The band builder is meant for two curves of equal length, but the code does
not check this. `MakeBandGeometry` models the two loops for any two curves.
`BandWellFormedIff` states exactly when every face index is in range: when the
first curve has at most one point, or the second curve is at least as long as
the first. On the other inputs the face loop still runs, but the normal
computation that follows it reads a missing vertex and throws; the model
returns the mesh with the out-of-range index instead (see "Left out").

## Model

| member | source | states |
|---|---|---|
| `Band.MakeBandGeometry` | scene.js:257-291 | The vertex list has length m + n, with `vertices1[k]` at k and `vertices2[k]` at m + k. There are exactly 2·max(m-1, 0) faces. Face 2i is (i, i+m, i+m+1) and face 2i+1 is (i, i+m+1, i+1), in increasing i. The result equals `BandMesh(vertices1, vertices2)`. |
| `Band.StripFaces` | scene.js:271-274 | After `count` rounds of the face loop, the face list holds exactly 2·count faces. |
| `Band.BandFaces` | scene.js:263-274 | A band whose first curve has m points has 2(m-1) faces when m ≥ 1 and none when m ≤ 1. The face list starts empty and only the loop appends to it. |
| `Band.StripFacesAt` | scene.js:271-274 | Face j of the strip is triangle j mod 2 of quad ⌊j/2⌋. Faces are appended quad by quad, first triangle first. |
| `Band.BandFaceAt` | scene.js:273-274 | For every quad i < m-1, face 2i is (i, i+m, i+m+1) and face 2i+1 is (i, i+m+1, i+1). |
| `Band.BandFaceIndex` | scene.js:271-274 | Every face index j names a quad ⌊j/2⌋ below m-1, and face j is that quad's triangle j mod 2. |
| `Band.BandWellFormedIff` | scene.js:258-274 | Every face index of the band lies in [0, m+n) if and only if m ≤ 1 or n ≥ m. With a shorter second curve, index 2m-1 runs past the end, because the code does not check lengths. |
| `Band.BandQuadCorners` | scene.js:273-285 | Whenever the second curve is at least as long as the first (in particular for equal lengths), quad i connects A[i], B[i], B[i+1] (first triangle: one corner on A, two on B) and A[i], B[i+1], A[i+1] (second triangle: two on A, one on B). These are the positions the diagram shows. |
| `Band.SharedEdges` | scene.js:273-285 | The two triangles of quad i share the diagonal (i, i+m+1) and walk it in opposite directions. Quad i and quad i+1 share the rung (i+1, i+m+1) the same way. |
| `Band.DirectedEdgesUnique` | scene.js:271-274 | No directed edge belongs to two different faces. The strip is consistently wound and repeats no triangle. |
| `Band.LastPointOfFirstCurve` | scene.js:271-274 | For m ≥ 2, index m-1 is a corner of face j if and only if j = 2m-3, the second triangle of quad m-2. |
| `Band.LastPointOfSecondCurve` | scene.js:271-274 | For m ≥ 2, index 2m-1 is a corner of face j if and only if face j belongs to quad m-2. |
| `Band.StripIsOpen` | scene.js:271-274 | For m ≥ 3, no face contains both 0 and m-1, and no face contains both m and 2m-1: the loop adds no face that joins either curve's last point to its first, so the strip is open. |
| `Fiber.GetFiberPoints` | scene.js:8-28 | The flat buffer has 3·max(divisions+1, 0) numbers. Number 3i+k is coordinate k of sample i, converted by `round`, for every i ≤ divisions and k < 3. |
| `Fiber.Float32From` | scene.js:27 | The copy has the input's length, and element j is `round` of input element j. |
| `Fiber.GetFiberVertices` | scene.js:30-50 | The sampling loop runs divisions + 1 times when divisions ≥ 0 and never when divisions < 0, so the vertex list has that many entries, and entry i is sample i of the formula. It equals `FiberSamples(sample, point, divisions)`. |
| `Fiber.FlattenAt` | scene.js:24 | Flattening n vertices gives 3n numbers, and number 3i+k is coordinate k of vertex i. |
| `Fiber.FlattenLength` | scene.js:24 | Flattening triples the length. |
| `Fiber.FiberBuffers` | scene.js:8-50 | Two shapes from one formula: for the same point and divisions, the flat buffer has three numbers per vertex of the vertex list. Flat number 3i+k is coordinate k of vertex i, converted by `round`. |
| `Sweep.FiberPairsNeverWrap` | scene.js:314-316 | The pairs `(i, (i+1) % fibers.length)` for i < length-1 are exactly (i, i+1). There are length-1 of them, and (length-1, 0) is never one of them, so the modulo never wraps. |
| `Sweep.SweepBandsWellFormed` | scene.js:306-319 | Every band the sweep builds has all face indices in range, because all fibres have the same sample count. |
| `Sweep.SweepBandsChain` | scene.js:314-319 | Consecutive bands share a fibre: the second curve of band j is the first curve of band j+1. |
| `Sweep.MakeFibersSurfaceAtTheta` | scene.js:300-324 | The inset line gets the `steps` base points in sample order. There are exactly steps-1 bands (none when steps ≤ 1). Band j stitches the fibre over point j to the fibre over point j+1, and no band joins the last fibre to the first. |

## Left out

- The trigonometry and square roots of the fibre formula (scene.js:9-22 and 31-44): floating point. The model takes the formula as the parameter `sample`.
- The rounding done by `Float32Array.from` is left as the parameter `round`. Its actual float64-to-float32 behaviour is floating point.
- The closedness of a fibre (first sample equal to last): it depends on `sin`/`cos` at 0 and 2π in floating point, so it is not stated.
- `getTorus` (scene.js:53-107), `pointToColor` (scene.js:109-116), `index_to_color` (scene.js:293-297), `spherical_to_cartesian` and the sample angle `phi0 + (i/steps)*(phi1-phi0)` (scene.js:245-247, 304): floating point. The sweep's base points are the parameter `pointAt`.
- `computeFaceNormals` / `computeVertexNormals` (scene.js:288-289), materials, meshes, `scene.add` and the torus construction: calls into the three.js library. The sweep returns the band geometries and inset points it would hand to them.
- `addInsetLine` (scene.js:152-158) and `addInsetPointAt`: scene plumbing. The sweep returns the point list passed to `addInsetLine`.
- `update`, `addPoint`, `draw_circle` and the module-level scene setup (scene.js:119-150, 169-233, 249-255): interactive state over renderer objects.
- `make_fibers_surface_at_phi` (scene.js:326-360): dead code that refers to undefined variables and reassigns a `const`, so it could not run.
- The demo loop and the commented-out drivers (scene.js:362-388), and the unused `ConvexGeometry` import.
- Band.MakeBandGeometry: when the first curve has m ≥ 2 points and the second has fewer than m, the face loop adds index 2m-1, which is past the end of the vertex list. `computeFaceNormals` (scene.js:288) then reads a missing vertex and the call throws. The model does not capture that error; it returns the mesh with the out-of-range index. `BandWellFormedIff` marks exactly these inputs. The sweep never passes them, since all its fibres have the same length.
- Non-integer `divisions` or `steps`: JavaScript would accept them. The model takes integers.

# Workplane hit-testing and face-map highlighting, modelled in Dafny

This project models the viewport-drawing core of the CAD Sketcher Blender add-on: the part that lets a
user pick a workplane (xy, xz or yz) by hovering over a reference mesh and clicking.

- `geo.dfy` (module `Geo`, from `viewport_drawing/geo.py`): a BMesh as a value. It holds vertex positions,
  faces and edges. Each face is a list of vertex indices in winding order plus an integer face-map tag.
  The module covers:
  - flattening a mesh, or a filtered list of its faces, into coordinates and index lists (`points_and_faces`);
  - face-map lookup and the faces of one face map (`face_map_lookup`, `faces_by_map_id`);
  - boundary-edge extraction (`bounding_points_and_edges`), as written and as documented.
- `bmesh_ops.dfy` (module `BmeshOps`): the abstract effect of the BMesh library operations that
  `DrawnMesh` applies. These are triangulation, duplication with reversed winding, and a scaled copy.
- `drawing.dfy` (module `Drawing`, from `viewport_drawing/drawing.py`): the ray-cast and hover results and
  their `failed` tests. Also the `DrawnMesh` session class. Its cached properties are explicit optional fields:
  - `xformedBm`, the scaled copy;
  - `bvh`, the mesh the BVH was built over;
  - `passiveBatch`, the geometry of the base batch.

  The methods `XformedBm`, `Bvh` and `PassiveBatch` read a cached property the way Python does: they build
  it when it is absent. `ClearCache` follows the `try` block exactly. It reads `_xformed_bm` first, which
  rebuilds it if absent, then deletes it. The deletion of an absent `_passive_batch` ends the clearing, so
  `_bvh` survives. `Draw` rescales on a view-distance change with `max(3, view_distance / 2)`. It then
  reports which faces are highlighted for the active face maps. One consequence of the clearing order is
  shown by `RayCastBeforeFirstDraw`, and at the operator level by `HoverBeforeFirstDraw`. A ray cast before
  the first draw caches the BVH without the base batch. The first draw at a new view distance rescales but
  keeps that BVH, which still covers the mesh at the default scale.
- `workplane_picker.dfy` (module `WorkplanePicker`, from `viewport_drawing/debug_operators.py`): the modal
  operator as a class. Its fields are the active face maps, the cursor position and whether the draw handler
  is registered. `Modal` implements the event state machine. `Execute` maps a face-map id to a workplane
  name through the `{0: "xz", 1: "xy", 2: "yz"}` table.

The BVH ray cast and the unprojection of the cursor are foreign floating-point calls. They enter as a
parameter `hit`: the nearest hit, if any, of the cursor ray against the cached BVH. Its face index is a
face of the mesh. Positions, scales and view distances are `real`.

## Model

| member | source | states |
|---|---|---|
| `Geo.PointsAndFaces` | viewport_drawing/geo.py:27-43 | Without a filter: every vertex position in vertex order, and entry i is face i's vertex-index list. With a filter: the loop's result is the filtered faces' positions concatenated in filter order, and entry k is (3k, 3k+1, 3k+2). |
| `Geo.FullBuffersResolve` | viewport_drawing/geo.py:34-36 | Unfiltered: one coordinate per vertex. Every index is in range, and index list i resolves to face i's positions in winding order. |
| `Geo.FilteredBuffersResolve` | viewport_drawing/geo.py:37-42 | With a filter of triangles: one index entry per filtered face and three coordinates per entry. Every emitted index is in range, and entry k resolves to the k-th filtered face's vertex positions in order. |
| `Geo.FaceVertIndices` | viewport_drawing/geo.py:46-47 | One index per vertex of the face. Each is a valid vertex index of every mesh the face belongs to. |
| `Geo.FaceVertIndicesLocate` | viewport_drawing/geo.py:46-47 | A face's vertex indices, in the face's own order, locate its vertex positions. |
| `Geo.FaceMapLookup` | viewport_drawing/geo.py:50-53 | Returns a tag exactly when the face index names a face; otherwise raises IndexError. |
| `Geo.MatchingFaces` | viewport_drawing/geo.py:58-61 | The faces below n carrying the tag, each once, ascending. Every face below n that carries the tag is included. |
| `Geo.FacesByMapId` | viewport_drawing/geo.py:56-61 | Yields exactly the faces whose tag equals the id, each once, in mesh face order. |
| `Geo.FacesByMapIdAgreesWithLookup` | viewport_drawing/geo.py:50-61 | A face is yielded for an id iff `face_map_lookup` returns that id for it. |
| `Geo.FacesByMapIdPartition` | viewport_drawing/geo.py:50-61 | Every face is yielded for its own tag. No face is yielded for two distinct tags. |
| `Geo.BoundaryEdges` | viewport_drawing/geo.py:18 | Exactly the mesh's edges that one face uses, with no repeats when the edge list has none. For a well-formed mesh their ends are vertices. |
| `Geo.BoundaryEdgesInOrder` | viewport_drawing/geo.py:18 | The boundary edges are a subsequence of the edge list: they keep its order. |
| `Geo.BoundingPointsAndEdgesAsWritten` | viewport_drawing/geo.py:14-24 | As written: two empty results when there is no boundary edge. Otherwise AttributeError, because the loop target's names are swapped. |
| `Geo.BoundingPointsAndEdges` | viewport_drawing/geo.py:14-24 | As documented: the loop's result is the two end positions of each boundary edge in edge order, and index pair i is (2i, 2i+1). |
| `Geo.EdgeCoordsResolve` | viewport_drawing/geo.py:15-23 | Two coordinates per edge, and index pair i resolves to the two ends of edge i. |
| `Geo.BoundingPointsAndEdgesFailsOnTriangle` | viewport_drawing/geo.py:21-22 | On a single triangle the code as written raises AttributeError, where the documented result has six coordinates. |
| `Geo.BoundingPointsAndEdgesAsWrittenDiverges` | viewport_drawing/geo.py:21-23 | Any mesh with a boundary edge makes the code as written raise, though the documented result is non-empty. |
| `BmeshOps.Fan` | viewport_drawing/drawing.py:72 | One face becomes n - 2 triangles carrying its tag and referencing only its vertices. A triangle stays as it is. |
| `BmeshOps.Triangulate` | viewport_drawing/drawing.py:72 | The result is a well-formed all-triangle mesh. It keeps the vertices and the old edges. Its face count is the sum of n - 2 over the n-gons. |
| `BmeshOps.TriangulateIdempotent` | viewport_drawing/drawing.py:72 | Triangulating an all-triangle mesh changes nothing, so triangulating twice is triangulating once. |
| `BmeshOps.TriangulateKeepsTags` | viewport_drawing/drawing.py:72 | As many triangles carry id as the sum of n - 2 over the n-gons tagged id. |
| `BmeshOps.DoubleSided` | viewport_drawing/drawing.py:73-77 | Vertices and faces are duplicated and appended, and the face count doubles. Each duplicate keeps its original's tag with reversed winding. The mesh stays well-formed and all-triangle. |
| `BmeshOps.BackFaceReversesWinding` | viewport_drawing/drawing.py:76-77 | A duplicated face covers its original's positions in reverse order. |
| `BmeshOps.FacesByMapIdDoubles` | viewport_drawing/drawing.py:73-77 | After duplication every face map has exactly twice as many faces. |
| `BmeshOps.ScaledCopy` | viewport_drawing/drawing.py:83-85 | A copy with every vertex scaled uniformly. Faces, edges and tags are unchanged, as are well-formedness and triangle shape. |
| `BmeshOps.ScaledCopyRoundTrip` | viewport_drawing/drawing.py:84-85 | Scaling by s and then by 1/s gives back the original mesh. |
| `Drawing.RaycastResult.Failed` | viewport_drawing/drawing.py:40-42 | Failed when there is no hit location. For a BVH answer, which has all four fields or none, it is failed exactly when no face index is reported. |
| `Drawing.MouseHoverResult.Failed` | viewport_drawing/drawing.py:54-57 | Failed exactly when the result is the default-constructed one, reporting no face, face map, vertex or edge. |
| `Drawing.FromBvh` | viewport_drawing/drawing.py:188-189 | The packed ray-cast result has all four fields or none. It is failed iff the BVH found no hit. A hit's face index is kept. |
| `Drawing.NoHoverFailed` | viewport_drawing/drawing.py:49-57 | The default hover result is failed, and it is the only failed one. |
| `Drawing.HoverFromRay` | viewport_drawing/drawing.py:124-131 | A failed ray gives the empty hover. On a hit, `face_id` is the hit face iff its flag is set, and `face_map` is that face's tag iff its flag is set. No vertex or edge is reported. The result is failed iff the ray failed or both flags are off. |
| `Drawing.ScaleForViewDistance` | viewport_drawing/drawing.py:148-150 | The scale is never below 3. It is exactly 3 below view distance 6, and half the view distance from 6 on. |
| `Drawing.HighlightedFaces` | viewport_drawing/drawing.py:158-161 | The highlighted faces are exactly the faces whose tag is one of the active face maps. |
| `Drawing.HighlightedFacesSingle` | viewport_drawing/drawing.py:159-161 | For one active face map, the highlighted faces are `faces_by_map_id` of it. |
| `Drawing.HoveredFaceIsHighlighted` | viewport_drawing/drawing.py:126-161 | The face under the cursor lies among the faces highlighted for the face map the hover reports. |
| `Drawing.Preprocess` | viewport_drawing/drawing.py:71-79 | The constructed mesh is well-formed and all triangles. Its face count is the triangle count, doubled when double-sided. Its vertices are the source's, followed by one copy of them when double-sided. |
| `Drawing.PreprocessKeepsGroups` | viewport_drawing/drawing.py:71-79 | After construction as many faces carry id as the sum of n - 2 over the source n-gons tagged id, twice that when double-sided. |
| `Drawing.DrawnMesh.constructor` | viewport_drawing/drawing.py:60-79 | The dataclass defaults (double-sided, scaler 1, view distance 0) apply, the mesh is preprocessed, and no cache is present. |
| `Drawing.DrawnMesh.FromFile` | viewport_drawing/drawing.py:94-109 | from_file defaults to single-sided, unlike the dataclass. |
| `Drawing.DrawnMesh.XformedBm` | viewport_drawing/drawing.py:81-88 | Reading the property yields the mesh scaled by scaler/2 and caches it. |
| `Drawing.DrawnMesh.Bvh` | viewport_drawing/drawing.py:90-92 | A cached BVH is reused as it is. Otherwise one is built over the scaled copy, which gets cached too. |
| `Drawing.DrawnMesh.PassiveBatch` | viewport_drawing/drawing.py:171-176 | The base batch draws every vertex and face of the current scaled copy. |
| `Drawing.DrawnMesh.ActiveBatch` | viewport_drawing/drawing.py:178-181 | The highlight batch is the filtered `points_and_faces` of the scaled copy. |
| `Drawing.DrawnMesh.RayFromMouse` | viewport_drawing/drawing.py:111-131 | The hover result is the classification of the hit against the scaled copy. It says which caches the call builds. |
| `Drawing.DrawnMesh.ClearCache` | viewport_drawing/drawing.py:133-140 | Afterwards the scaled copy and the base batch are absent. The BVH is removed only if the base batch was present. |
| `Drawing.DrawnMesh.Draw` | viewport_drawing/drawing.py:142-164 | On a changed view distance: store it, clear, and set the scale to max(3, d/2). On an equal one, distance, scale and BVH are unchanged. Then the base batch is present at the current scale. The highlighted faces are those of the active face maps, or nothing when there are none. |
| `Drawing.ScaledCopiesDiffer` | viewport_drawing/drawing.py:83-85 | Copies at two different scales differ when some vertex is off the origin. |
| `Drawing.RayCastBeforeFirstDraw` | viewport_drawing/drawing.py:111-150 | Loading, a ray cast, then a draw at a new view distance leaves the BVH at the default scale and the scaled copy at the new one, so the two differ. |
| `WorkplanePicker.WorkplaneName` | viewport_drawing/debug_operators.py:19-23 | Ids 0, 1 and 2 name a workplane. Any other id raises KeyError. |
| `WorkplanePicker.WorkplaneNamesDistinct` | viewport_drawing/debug_operators.py:19-23 | Distinct face maps select distinct workplanes, and face map 1 is "xy". |
| `WorkplanePicker.TestGeometryDrawing.constructor` | viewport_drawing/debug_operators.py:25-31 | The mesh is loaded single-sided with no caches, nothing is hovered and no draw handler is registered. |
| `WorkplanePicker.TestGeometryDrawing.Invoke` | viewport_drawing/debug_operators.py:33-39 | Registers the draw handler and returns RUNNING_MODAL. |
| `WorkplanePicker.TestGeometryDrawing.RolloverDetect` | viewport_drawing/debug_operators.py:41-48 | A hit makes the hit face's tag the one active face map. A miss leaves none. The ray cast leaves a cached BVH unchanged or builds one at the current scale. The scaled copy is cached whenever the call needed it. |
| `WorkplanePicker.TestGeometryDrawing.Execute` | viewport_drawing/debug_operators.py:65-67 | Reports the workplane of the first active face map and returns FINISHED. It raises KeyError for an unknown id and TypeError when nothing is active. |
| `WorkplanePicker.TestGeometryDrawing.Modal` | viewport_drawing/debug_operators.py:50-63 | MOUSEMOVE records the cursor and the hover and returns RUNNING_MODAL. LEFTMOUSE with a hover removes the handler and executes. RIGHTMOUSE or ESC removes the handler and returns CANCELLED. Any other event passes through. MOUSEMOVE leaves the mesh caches as `RolloverDetect` does. Only MOUSEMOVE changes the hover, cursor or caches. The handler is removed only by LEFTMOUSE with a hover, whether `execute` finishes or raises KeyError, and by RIGHTMOUSE or ESC. |
| `WorkplanePicker.TestGeometryDrawing.OnDraw` | viewport_drawing/debug_operators.py:34-37 | The registered handler highlights exactly the faces of the hovered face map, and nothing when none is hovered. It leaves the mesh's view distance, scale and caches as `Drawing.DrawnMesh.Draw` states. |
| `WorkplanePicker.PickXyWorkplane` | viewport_drawing/debug_operators.py:25-67 | A session that hovers a face of face map 1 and clicks finishes with the xy workplane. |
| `WorkplanePicker.HoverBeforeFirstDraw` | viewport_drawing/debug_operators.py:41-54 | A mouse move before the first draw, then a draw at a new view distance, leaves the BVH at the default scale while the drawn copy has the new one. |

## Findings

| source | as written | input that shows it | evidently intended | confidence | as-written member | corrected member |
|---|---|---|---|---|---|---|
| viewport_drawing/geo.py:21 | `for co_index, edge in zip(edges, count(step=2))` binds the edge to `co_index` and the integer to `edge`. `edge.verts` then raises AttributeError. | a single triangle, whose three edges are all boundary edges | `for edge, co_index in ...`: two positions per boundary edge, with pair i = (2i, 2i+1) | high; not executed | `Geo.BoundingPointsAndEdgesAsWritten` | `Geo.BoundingPointsAndEdges` |

`Geo.BoundingPointsAndEdgesFailsOnTriangle` and `Geo.BoundingPointsAndEdgesAsWrittenDiverges` show the discrepancy. `Geo.EdgeCoordsResolve` proves the intended property of the corrected version.

## Left out

- Loading the mesh from a `.blend` file is I/O, so the loaded mesh is a constructor parameter. `drawing.py:105` calls `io.load_as_bmesh` from the package-relative `viewport_drawing/io` module that `drawing.py:21` imports. That module is not part of this model.
- The BVH construction, `ray_cast` and the cursor unprojection (`drawing.py:183-189`) are foreign floating-point calls. Their answer is the parameter `hit`, whose face index is a face of the mesh.
- GPU shaders, batches, colours being bound and draw calls are not modelled. A batch is modelled by the coordinates and indices it is built from. `_passive_shader` is never cleared and is not modelled.
- Floating point is not modelled: positions, scales and view distances are exact reals. Python's `max(3, x)` returns the integer 3 at the floor, which is not distinguished from 3.0.
- BmeshOps.Triangulate: the concrete triangles form a fan. Blender's triangulate splits quads and n-gons by its own rule, so only counts, tags, vertex references and the triangles-unchanged property are claimed.
- BmeshOps.DoubleSided: the duplicated face's vertex order is modelled as the plain reverse. Which loop `reverse_faces` puts first is not modelled.
- BmeshOps.DoubleSided: only vertices and faces are passed to `duplicate`. The model copies the whole edge list, which agrees when every edge lies on a face. No contract states the duplicated edges.
- BmeshOps.Triangulate: the position of the new diagonal edges in the edge list is not modelled beyond "after the old edges".
- `faces.layers.face_map.verify()` creates the face-map layer when it is absent. The model assumes the layer exists, with a tag on every face.
- Geo.FaceMapLookup: takes a non-negative face index. BMesh sequences also accept negative subscripts, and the only caller passes a BVH face index.
- `__post_init__` and `_clear_cache`'s `free()` act in place on native mesh objects that callers may share. The model keeps meshes as values, so aliasing and freeing are not captured.
- `context.area.tag_redraw()`, `modal_handler_add`, the `bl_*` metadata and `register`/`unregister` are host integration.
- WorkplanePicker.TestGeometryDrawing.Modal: requires the draw handler to be registered, because the window manager only calls `modal` between `invoke` and the end of the operator. An exception raised by `execute` is returned as a `Failure` value. What Blender does with it is not modelled, and neither is the `print` beyond the reported name.
- The top-level `debug_operators.py` duplicates the operator and imports a class that `mesh_generation.py` does not define. It is not part of this model, and neither are `mesh_generation.py`, `__init__.py` and `preferences.py`, which are GPU buffer construction, registration and preference UI.

/**
  Mesh reinterpretation helpers for viewport drawing (viewport_drawing/geo.py).

  A BMesh is modelled as a value: vertex positions in vertex-index order,
  faces in face-index order and edges in edge-index order. A face lists the
  indices of its vertices in winding order and carries its face-map tag.
  A BMFace handed around by the source is modelled by its face index.
*/
module Geo {
  import opened Wrappers

  datatype Vec3 = Vec3(x: real, y: real, z: real)

  datatype Face = Face(verts: seq<nat>, faceMap: int)

  datatype Edge = Edge(v0: nat, v1: nat)

  datatype Mesh = Mesh(coords: seq<Vec3>, faces: seq<Face>, edges: seq<Edge>)

  /** Vertex positions and index lists, the content of a GPU batch. */
  datatype Buffers = Buffers(coords: seq<Vec3>, indices: seq<seq<nat>>)

  /** Every vertex index of `f` names one of `n` vertices. */
  predicate RefsValid(f: Face, n: nat) {
    forall k :: 0 <= k < |f.verts| ==> f.verts[k] < n
  }

  /** The BMesh invariant: faces have at least three vertices, and faces and edges reference existing vertices. */
  predicate WellFormed(m: Mesh) {
    && (forall i :: 0 <= i < |m.faces| ==> |m.faces[i].verts| >= 3 && RefsValid(m.faces[i], |m.coords|))
    && EdgesValid(m.edges, |m.coords|)
  }

  /** Both ends of every edge name one of `n` vertices. */
  predicate EdgesValid(edges: seq<Edge>, n: nat) {
    forall i :: 0 <= i < |edges| ==> edges[i].v0 < n && edges[i].v1 < n
  }

  predicate AllTriangles(m: Mesh) {
    forall i :: 0 <= i < |m.faces| ==> |m.faces[i].verts| == 3
  }

  /** A face filter: indices of faces of `m`. */
  predicate FaceIndicesValid(m: Mesh, filter: seq<nat>) {
    forall k :: 0 <= k < |filter| ==> filter[k] < |m.faces|
  }

  // ---------------------------------------------------------------------
  // face_vert_indices and the positions of a face's vertices
  // ---------------------------------------------------------------------

  /** The indices of the face's vertices, in the face's own winding order. */
  function FaceVertIndices(f: Face): (r: seq<nat>)
    ensures |r| == |f.verts|
    ensures forall n: nat :: RefsValid(f, n) ==> forall k :: 0 <= k < |r| ==> r[k] < n
  {
    f.verts
  }

  /** The positions of the face's vertices, in winding order. */
  function FacePositions(m: Mesh, f: Face): (r: seq<Vec3>)
    requires RefsValid(f, |m.coords|)
    ensures |r| == |f.verts|
  {
    seq(|f.verts|, k requires 0 <= k < |f.verts| => m.coords[f.verts[k]])
  }

  /** Looking up the vertex indices of a face in the mesh's coordinates gives its positions, in order. */
  lemma FaceVertIndicesLocate(m: Mesh, f: Face, k: nat)
    requires RefsValid(f, |m.coords|) && k < |f.verts|
    ensures |FaceVertIndices(f)| == |f.verts|
    ensures FaceVertIndices(f)[k] < |m.coords| && m.coords[FaceVertIndices(f)[k]] == FacePositions(m, f)[k]
  {
  }

  // ---------------------------------------------------------------------
  // points_and_faces
  // ---------------------------------------------------------------------

  /** The unfiltered result: every vertex position, and each face's vertex index list. */
  function FullBuffers(m: Mesh): Buffers {
    Buffers(m.coords, seq(|m.faces|, i requires 0 <= i < |m.faces| => FaceVertIndices(m.faces[i])))
  }

  /** The filtered coordinates: the vertex positions of each filtered face, concatenated in filter order. */
  function FilteredCoords(m: Mesh, filter: seq<nat>): seq<Vec3>
    requires WellFormed(m) && FaceIndicesValid(m, filter)
  {
    if filter == [] then []
    else FilteredCoords(m, filter[..|filter| - 1]) + FacePositions(m, m.faces[filter[|filter| - 1]])
  }

  /** The filtered index list: entry k is (3k, 3k+1, 3k+2). */
  function TriIndices(n: nat): seq<seq<nat>> {
    seq(n, k requires 0 <= k < n => [3 * k, 3 * k + 1, 3 * k + 2])
  }

  function FilteredBuffers(m: Mesh, filter: seq<nat>): Buffers
    requires WellFormed(m) && FaceIndicesValid(m, filter)
  {
    Buffers(FilteredCoords(m, filter), TriIndices(|filter|))
  }

  /**
    Converts a mesh to coordinates and triangle indices; with a face filter,
    only the filtered faces are emitted and re-indexed locally.
  */
  method PointsAndFaces(m: Mesh, faceFilter: Option<seq<nat>>) returns (r: Buffers)
    requires WellFormed(m)
    requires faceFilter.Some? ==> FaceIndicesValid(m, faceFilter.value)
    ensures faceFilter.None? ==> r == FullBuffers(m)
    ensures faceFilter.Some? ==> r == FilteredBuffers(m, faceFilter.value)
  {
    if faceFilter.None? {
      var indices := seq(|m.faces|, i requires 0 <= i < |m.faces| => FaceVertIndices(m.faces[i]));
      return Buffers(m.coords, indices);
    }
    var filter := faceFilter.value;
    var coords: seq<Vec3> := [];
    var indices: seq<seq<nat>> := [];
    var i, tri := 0, 0;
    while i < |filter|
      invariant 0 <= i <= |filter|
      invariant tri == 3 * i
      invariant coords == FilteredCoords(m, filter[..i])
      invariant indices == TriIndices(i)
    {
      assert filter[..i + 1][..i] == filter[..i];
      coords := coords + FacePositions(m, m.faces[filter[i]]);
      indices := indices + [[tri, tri + 1, tri + 2]];
      i, tri := i + 1, tri + 3;
    }
    assert filter[..i] == filter;
    r := Buffers(coords, indices);
  }

  /** Unfiltered: one position per vertex in vertex order, face i's index list resolves to face i's positions. */
  lemma FullBuffersResolve(m: Mesh)
    requires WellFormed(m)
    ensures FullBuffers(m).coords == m.coords
    ensures |FullBuffers(m).indices| == |m.faces|
    ensures forall i, k :: 0 <= i < |m.faces| && 0 <= k < |m.faces[i].verts| ==>
      FullBuffers(m).indices[i][k] < |m.coords| &&
      m.coords[FullBuffers(m).indices[i][k]] == FacePositions(m, m.faces[i])[k]
  {
  }

  /** With a filter of triangles, the k-th filtered face's positions sit at 3k, 3k+1 and 3k+2. */
  lemma {:induction false} FilteredCoordsLayout(m: Mesh, filter: seq<nat>)
    requires WellFormed(m) && FaceIndicesValid(m, filter)
    requires forall k :: 0 <= k < |filter| ==> |m.faces[filter[k]].verts| == 3
    ensures |FilteredCoords(m, filter)| == 3 * |filter|
    ensures forall k, j :: 0 <= k < |filter| && 0 <= j < 3 ==>
      FilteredCoords(m, filter)[3 * k + j] == m.coords[m.faces[filter[k]].verts[j]]
  {
    if filter != [] {
      var n := |filter| - 1;
      var init := filter[..n];
      FilteredCoordsLayout(m, init);
      var prev := FilteredCoords(m, init);
      var last := FacePositions(m, m.faces[filter[n]]);
      assert FilteredCoords(m, filter) == prev + last;
      forall k, j | 0 <= k < |filter| && 0 <= j < 3
        ensures (prev + last)[3 * k + j] == m.coords[m.faces[filter[k]].verts[j]]
      {
        if k < n {
          assert init[k] == filter[k];
        }
      }
    }
  }

  /**
    With a filter of triangles, there are three positions per index entry,
    every emitted index is in range, and index entry k resolves to the
    positions of the k-th filtered face in winding order.
  */
  lemma FilteredBuffersResolve(m: Mesh, filter: seq<nat>)
    requires WellFormed(m) && FaceIndicesValid(m, filter)
    requires forall k :: 0 <= k < |filter| ==> |m.faces[filter[k]].verts| == 3
    ensures |FilteredBuffers(m, filter).indices| == |filter|
    ensures |FilteredBuffers(m, filter).coords| == 3 * |filter|
    ensures forall k, j :: 0 <= k < |filter| && 0 <= j < 3 ==>
      FilteredBuffers(m, filter).indices[k][j] < |FilteredBuffers(m, filter).coords| &&
      FilteredBuffers(m, filter).coords[FilteredBuffers(m, filter).indices[k][j]]
        == m.coords[m.faces[filter[k]].verts[j]]
  {
    FilteredCoordsLayout(m, filter);
    var b := FilteredBuffers(m, filter);
    assert b.coords == FilteredCoords(m, filter) && b.indices == TriIndices(|filter|);
    forall k, j | 0 <= k < |filter| && 0 <= j < 3
      ensures b.indices[k][j] == 3 * k + j
    {
    }
  }

  // ---------------------------------------------------------------------
  // face_map_lookup and faces_by_map_id
  // ---------------------------------------------------------------------

  /** The face-map tag of face `faceId`; a face index past the end raises IndexError. */
  function FaceMapLookup(m: Mesh, faceId: nat): (r: Result<int, Exception>)
    ensures r.Success? <==> faceId < |m.faces|
    ensures r.Failure? ==> r.error == IndexError
  {
    if faceId < |m.faces| then Success(m.faces[faceId].faceMap) else Failure(IndexError)
  }

  /** The indices below `n` of faces tagged `id`, in ascending order. */
  function MatchingFaces(faces: seq<Face>, id: int, n: nat): (r: seq<nat>)
    requires n <= |faces|
    ensures forall k :: 0 <= k < |r| ==> r[k] < n && faces[r[k]].faceMap == id
    ensures forall i :: 0 <= i < n && faces[i].faceMap == id ==> i in r
    ensures forall j, k :: 0 <= j < k < |r| ==> r[j] < r[k]
  {
    if n == 0 then []
    else MatchingFaces(faces, id, n - 1) + (if faces[n - 1].faceMap == id then [n - 1] else [])
  }

  /** The faces tagged `id`: exactly those, each once, in mesh face order. */
  function FacesByMapId(m: Mesh, id: int): (r: seq<nat>)
    ensures forall k :: 0 <= k < |r| ==> r[k] < |m.faces| && m.faces[r[k]].faceMap == id
    ensures forall i :: 0 <= i < |m.faces| && m.faces[i].faceMap == id ==> i in r
    ensures forall j, k :: 0 <= j < k < |r| ==> r[j] < r[k]
  {
    MatchingFaces(m.faces, id, |m.faces|)
  }

  /** faces_by_map_id yields a face exactly when face_map_lookup reports that tag for it. */
  lemma FacesByMapIdAgreesWithLookup(m: Mesh, id: int, i: nat)
    ensures i in FacesByMapId(m, id) <==> FaceMapLookup(m, i) == Success(id)
  {
  }

  /** The face sets of distinct tags are disjoint, and every face lies in the set of its own tag. */
  lemma FacesByMapIdPartition(m: Mesh, a: int, b: int, i: nat)
    requires i < |m.faces|
    ensures i in FacesByMapId(m, m.faces[i].faceMap)
    ensures a != b ==> !(i in FacesByMapId(m, a) && i in FacesByMapId(m, b))
  {
  }

  // ---------------------------------------------------------------------
  // bounding_points_and_edges
  // ---------------------------------------------------------------------

  predicate JoinsEnds(a: nat, b: nat, e: Edge) {
    (a == e.v0 && b == e.v1) || (a == e.v1 && b == e.v0)
  }

  /** Side k of face `f`, from its k-th vertex to the next one round the face, runs along edge `e`. */
  predicate SideJoins(f: Face, k: nat, e: Edge)
    requires k < |f.verts|
  {
    JoinsEnds(f.verts[k], f.verts[(k + 1) % |f.verts|], e)
  }

  /** Some side of face `f` runs along edge `e`. */
  predicate FaceHasEdge(f: Face, e: Edge) {
    exists k :: 0 <= k < |f.verts| && SideJoins(f, k, e)
  }

  /** How many faces use edge `e`. */
  function FacesUsing(faces: seq<Face>, e: Edge): nat {
    if faces == [] then 0
    else FacesUsing(faces[..|faces| - 1], e) + (if FaceHasEdge(faces[|faces| - 1], e) then 1 else 0)
  }

  /** An edge is on the boundary when exactly one face uses it. */
  predicate IsBoundary(m: Mesh, e: Edge) {
    FacesUsing(m.faces, e) == 1
  }

  /** `a` is `b` with some elements left out: every element of `a` is matched, in order, by a distinct one of `b`. */
  predicate Subsequence<T(==)>(a: seq<T>, b: seq<T>) {
    if a == [] then true
    else if b == [] then false
    else (a[|a| - 1] == b[|b| - 1] && Subsequence(a[..|a| - 1], b[..|b| - 1])) || Subsequence(a, b[..|b| - 1])
  }

  /** No element occurs twice. */
  predicate Distinct<T(==)>(s: seq<T>) {
    forall i, j :: 0 <= i < j < |s| ==> s[i] != s[j]
  }

  /** The boundary edges of the first `n` edges, in edge order. */
  function BoundaryEdgesBelow(m: Mesh, n: nat): (r: seq<Edge>)
    requires n <= |m.edges|
    ensures |r| <= n
    ensures forall e :: e in r <==> e in m.edges[..n] && IsBoundary(m, e)
    ensures Distinct(m.edges[..n]) ==> Distinct(r)
    ensures WellFormed(m) ==> EdgesValid(r, |m.coords|)
  {
    if n == 0 then []
    else
      var prev, e := BoundaryEdgesBelow(m, n - 1), m.edges[n - 1];
      assert m.edges[..n] == m.edges[..n - 1] + [e];
      assert m.edges[..n][..n - 1] == m.edges[..n - 1];
      assert Distinct(m.edges[..n]) ==> Distinct(m.edges[..n - 1]) && e !in m.edges[..n - 1];
      if IsBoundary(m, e) then prev + [e] else prev
  }

  /** The boundary edges of the mesh, in edge order. */
  function BoundaryEdges(m: Mesh): (r: seq<Edge>)
    ensures forall e :: e in r <==> e in m.edges && IsBoundary(m, e)
    ensures Distinct(m.edges) ==> Distinct(r)
    ensures WellFormed(m) ==> EdgesValid(r, |m.coords|)
  {
    assert m.edges[..|m.edges|] == m.edges;
    BoundaryEdgesBelow(m, |m.edges|)
  }

  /** The boundary edges of the first `n` edges keep the order the edge list gives them. */
  lemma {:induction false} BoundaryEdgesBelowInOrder(m: Mesh, n: nat)
    requires n <= |m.edges|
    ensures Subsequence(BoundaryEdgesBelow(m, n), m.edges[..n])
  {
    if n > 0 {
      var prev, e := BoundaryEdgesBelow(m, n - 1), m.edges[n - 1];
      BoundaryEdgesBelowInOrder(m, n - 1);
      assert m.edges[..n][..n - 1] == m.edges[..n - 1];
      if IsBoundary(m, e) {
        assert (prev + [e])[..|prev|] == prev;
      }
    }
  }

  /** bounding_points_and_edges visits the boundary edges in the order of the mesh's edge list. */
  lemma BoundaryEdgesInOrder(m: Mesh)
    ensures Subsequence(BoundaryEdges(m), m.edges)
  {
    BoundaryEdgesBelowInOrder(m, |m.edges|);
    assert m.edges[..|m.edges|] == m.edges;
  }

  /** Two positions per edge, in edge order. */
  function EdgeCoords(m: Mesh, edges: seq<Edge>): seq<Vec3>
    requires EdgesValid(edges, |m.coords|)
  {
    if edges == [] then []
    else EdgeCoords(m, edges[..|edges| - 1]) + [m.coords[edges[|edges| - 1].v0], m.coords[edges[|edges| - 1].v1]]
  }

  /** Index pair i is (2i, 2i+1). */
  function PairIndices(n: nat): seq<seq<nat>> {
    seq(n, i requires 0 <= i < n => [2 * i, 2 * i + 1])
  }

  /**
    bounding_points_and_edges as written: the loop target unpacks the
    zipped pair in the wrong order, binding the edge to the counter name and
    the integer counter to `edge`, so reading `edge.verts` raises
    AttributeError on the first boundary edge. Only a mesh without boundary
    edges gets through, with two empty results.
  */
  function BoundingPointsAndEdgesAsWritten(m: Mesh): (r: Result<Buffers, Exception>)
    ensures r.Success? <==> BoundaryEdges(m) == []
    ensures r.Success? ==> r.value.coords == [] && r.value.indices == []
    ensures r.Failure? ==> r.error == AttributeError
  {
    if BoundaryEdges(m) == [] then Success(Buffers([], [])) else Failure(AttributeError)
  }

  /**
    bounding_points_and_edges as documented: the positions of the two ends of
    each boundary edge, and index pair i = (2i, 2i+1) to redraw edge i.
  */
  method BoundingPointsAndEdges(m: Mesh) returns (r: Buffers)
    requires WellFormed(m)
    ensures r.coords == EdgeCoords(m, BoundaryEdges(m))
    ensures r.indices == PairIndices(|BoundaryEdges(m)|)
  {
    var edges := BoundaryEdges(m);
    var coords: seq<Vec3> := [];
    var indices: seq<seq<nat>> := [];
    var i, coIndex := 0, 0;
    while i < |edges|
      invariant 0 <= i <= |edges|
      invariant coIndex == 2 * i
      invariant coords == EdgeCoords(m, edges[..i])
      invariant indices == PairIndices(i)
    {
      assert edges[..i + 1][..i] == edges[..i];
      coords := coords + [m.coords[edges[i].v0], m.coords[edges[i].v1]];
      indices := indices + [[coIndex, coIndex + 1]];
      i, coIndex := i + 1, coIndex + 2;
    }
    assert edges[..i] == edges;
    r := Buffers(coords, indices);
  }

  /** Edge buffers: two positions per edge, and index pair i resolves to the two ends of edge i. */
  lemma {:induction false} EdgeCoordsResolve(m: Mesh, edges: seq<Edge>)
    requires EdgesValid(edges, |m.coords|)
    ensures |EdgeCoords(m, edges)| == 2 * |edges|
    ensures forall i :: 0 <= i < |edges| ==>
      EdgeCoords(m, edges)[PairIndices(|edges|)[i][0]] == m.coords[edges[i].v0] &&
      EdgeCoords(m, edges)[PairIndices(|edges|)[i][1]] == m.coords[edges[i].v1]
  {
    if edges != [] {
      var n := |edges| - 1;
      EdgeCoordsResolve(m, edges[..n]);
      forall i | 0 <= i < n
        ensures EdgeCoords(m, edges)[2 * i] == m.coords[edges[i].v0]
        ensures EdgeCoords(m, edges)[2 * i + 1] == m.coords[edges[i].v1]
      {
        assert PairIndices(n)[i] == [2 * i, 2 * i + 1];
      }
    }
  }

  /** A single triangle: three vertices, one face, its three sides as edges. */
  const SingleTriangle := Mesh(
    [Vec3(0.0, 0.0, 0.0), Vec3(1.0, 0.0, 0.0), Vec3(0.0, 1.0, 0.0)],
    [Face([0, 1, 2], 0)],
    [Edge(0, 1), Edge(1, 2), Edge(2, 0)])

  /** Each side of the single triangle is used by its one face only. */
  lemma SingleTriangleSideIsBoundary(k: nat)
    requires k < 3
    ensures IsBoundary(SingleTriangle, SingleTriangle.edges[k])
  {
    var m := SingleTriangle;
    assert SideJoins(m.faces[0], k, m.edges[k]);
    assert m.faces[..0] == [];
  }

  /** All sides of the single triangle, taken in edge order, are boundary edges. */
  lemma {:induction false} SingleTriangleBoundaryPrefix(k: nat)
    requires k <= 3
    ensures BoundaryEdgesBelow(SingleTriangle, k) == SingleTriangle.edges[..k]
  {
    if k > 0 {
      var edges := SingleTriangle.edges;
      SingleTriangleBoundaryPrefix(k - 1);
      SingleTriangleSideIsBoundary(k - 1);
      assert edges[..k] == edges[..k - 1] + [edges[k - 1]];
    }
  }

  /**
    On a single triangle every edge is a boundary edge: the source as written
    raises AttributeError, where the documented behaviour yields six
    positions and three index pairs.
  */
  lemma BoundingPointsAndEdgesFailsOnTriangle()
    ensures BoundingPointsAndEdgesAsWritten(SingleTriangle) == Failure(AttributeError)
    ensures |EdgeCoords(SingleTriangle, BoundaryEdges(SingleTriangle))| == 6
  {
    var m := SingleTriangle;
    SingleTriangleBoundaryPrefix(3);
    assert m.edges[..3] == m.edges;
    EdgeCoordsResolve(m, m.edges);
  }

  /** Whenever the mesh has a boundary edge, the source as written raises instead of returning two positions per edge. */
  lemma BoundingPointsAndEdgesAsWrittenDiverges(m: Mesh)
    requires WellFormed(m) && BoundaryEdges(m) != []
    ensures BoundingPointsAndEdgesAsWritten(m).Failure?
    ensures |EdgeCoords(m, BoundaryEdges(m))| == 2 * |BoundaryEdges(m)| > 0
  {
    var edges := BoundaryEdges(m);
    EdgeCoordsResolve(m, edges);
  }
}

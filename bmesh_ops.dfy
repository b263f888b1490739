/**
  The abstract effect of the BMesh library operations that DrawnMesh applies
  to its mesh (viewport_drawing/drawing.py): triangulate, duplicate followed
  by reverse_faces, copy followed by a uniform scale.

  Triangulation is given a fan as its concrete body; only what any
  triangulation of the source's kind guarantees is claimed about it (all
  triangles, n - 2 triangles per n-gon, the face's tag on each triangle,
  vertices untouched, triangles left as they are).
*/
module BmeshOps {
  import opened Geo

  // ---------------------------------------------------------------------
  // Face-map tag counting
  // ---------------------------------------------------------------------

  /** How many of `faces` carry tag `id`. */
  function TagCount(faces: seq<Face>, id: int): nat {
    |MatchingFaces(faces, id, |faces|)|
  }

  /** MatchingFaces below `n` only looks at the first `n` faces. */
  lemma {:induction false} MatchingFacesPrefix(a: seq<Face>, b: seq<Face>, id: int, n: nat)
    requires n <= |a| && n <= |b| && a[..n] == b[..n]
    ensures MatchingFaces(a, id, n) == MatchingFaces(b, id, n)
  {
    if n > 0 {
      assert a[..n - 1] == a[..n][..n - 1] && b[..n - 1] == b[..n][..n - 1];
      assert a[n - 1] == a[..n][n - 1] && b[n - 1] == b[..n][n - 1];
      MatchingFacesPrefix(a, b, id, n - 1);
    }
  }

  /** Counting tags over a concatenation adds the counts of the parts. */
  lemma {:induction false} TagCountAppend(a: seq<Face>, b: seq<Face>, id: int)
    ensures TagCount(a + b, id) == TagCount(a, id) + TagCount(b, id)
  {
    TagCountAppendBelow(a, b, id, |b|);
  }

  lemma {:induction false} TagCountAppendBelow(a: seq<Face>, b: seq<Face>, id: int, k: nat)
    requires k <= |b|
    ensures |MatchingFaces(a + b, id, |a| + k)| == TagCount(a, id) + |MatchingFaces(b, id, k)|
  {
    if k == 0 {
      assert (a + b)[..|a|] == a[..|a|];
      MatchingFacesPrefix(a + b, a, id, |a|);
    } else {
      TagCountAppendBelow(a, b, id, k - 1);
      assert (a + b)[|a| + k - 1] == b[k - 1];
    }
  }

  /** Face sequences with the same tags, position by position, have the same tag counts. */
  lemma {:induction false} TagCountSameTags(a: seq<Face>, b: seq<Face>, id: int, n: nat)
    requires n <= |a| && n <= |b|
    requires forall i :: 0 <= i < n ==> a[i].faceMap == b[i].faceMap
    ensures |MatchingFaces(a, id, n)| == |MatchingFaces(b, id, n)|
  {
    if n > 0 {
      TagCountSameTags(a, b, id, n - 1);
    }
  }

  /** Faces that all carry one tag are all counted for that tag and none for any other. */
  lemma {:induction false} TagCountUniform(faces: seq<Face>, tag: int, id: int, n: nat)
    requires n <= |faces|
    requires forall i :: 0 <= i < |faces| ==> faces[i].faceMap == tag
    ensures |MatchingFaces(faces, id, n)| == if tag == id then n else 0
  {
    if n > 0 {
      TagCountUniform(faces, tag, id, n - 1);
    }
  }

  // ---------------------------------------------------------------------
  // bmesh.ops.triangulate
  // ---------------------------------------------------------------------

  predicate Polygons(faces: seq<Face>) {
    forall i :: 0 <= i < |faces| ==> |faces[i].verts| >= 3
  }

  /** The triangles of one face: (v0, v[t+1], v[t+2]) for each t, each with the face's tag. */
  function Fan(f: Face): (r: seq<Face>)
    requires |f.verts| >= 3
    ensures |r| == |f.verts| - 2
    ensures forall t :: 0 <= t < |r| ==> |r[t].verts| == 3 && r[t].faceMap == f.faceMap
    ensures forall t, j :: 0 <= t < |r| && 0 <= j < 3 ==> r[t].verts[j] in f.verts
    ensures forall n: nat :: RefsValid(f, n) ==> forall t :: 0 <= t < |r| ==> RefsValid(r[t], n)
    ensures |f.verts| == 3 ==> r == [f]
  {
    var r := seq(|f.verts| - 2, t requires 0 <= t < |f.verts| - 2 =>
      Face([f.verts[0], f.verts[t + 1], f.verts[t + 2]], f.faceMap));
    assert |f.verts| == 3 ==> r[0].verts == f.verts;
    r
  }

  /** The edges a fan adds inside one face: (v0, v[k]) for 2 <= k <= n - 2. */
  function FanDiagonals(f: Face): (r: seq<Edge>)
    requires |f.verts| >= 3
    ensures |r| == |f.verts| - 3
    ensures forall n: nat :: RefsValid(f, n) ==> EdgesValid(r, n)
  {
    seq(|f.verts| - 3, k requires 0 <= k < |f.verts| - 3 => Edge(f.verts[0], f.verts[k + 2]))
  }

  /** The number of triangles a triangulation produces: n - 2 for each n-gon. */
  function TriangleCount(faces: seq<Face>): nat
    requires Polygons(faces)
  {
    if faces == [] then 0 else TriangleCount(faces[..|faces| - 1]) + (|faces[|faces| - 1].verts| - 2)
  }

  /** The triangles that faces tagged `id` turn into. */
  function TaggedTriangleCount(faces: seq<Face>, id: int): nat
    requires Polygons(faces)
  {
    if faces == [] then 0
    else
      TaggedTriangleCount(faces[..|faces| - 1], id)
        + (if faces[|faces| - 1].faceMap == id then |faces[|faces| - 1].verts| - 2 else 0)
  }

  function TriangulateFaces(faces: seq<Face>): (r: seq<Face>)
    requires Polygons(faces)
    ensures |r| == TriangleCount(faces)
    ensures forall t :: 0 <= t < |r| ==> |r[t].verts| == 3
  {
    if faces == [] then [] else TriangulateFaces(faces[..|faces| - 1]) + Fan(faces[|faces| - 1])
  }

  function Diagonals(faces: seq<Face>): seq<Edge>
    requires Polygons(faces)
  {
    if faces == [] then [] else Diagonals(faces[..|faces| - 1]) + FanDiagonals(faces[|faces| - 1])
  }

  lemma {:induction false} TriangulateFacesRefs(faces: seq<Face>, n: nat)
    requires Polygons(faces)
    requires forall i :: 0 <= i < |faces| ==> RefsValid(faces[i], n)
    ensures forall t :: 0 <= t < |TriangulateFaces(faces)| ==> RefsValid(TriangulateFaces(faces)[t], n)
    ensures EdgesValid(Diagonals(faces), n)
  {
    if faces != [] {
      var init := faces[..|faces| - 1];
      TriangulateFacesRefs(init, n);
      var last := faces[|faces| - 1];
      assert RefsValid(last, n);
      var fan := Fan(last);
      assert TriangulateFaces(faces) == TriangulateFaces(init) + fan;
      forall t | 0 <= t < |TriangulateFaces(faces)|
        ensures RefsValid(TriangulateFaces(faces)[t], n)
      {
        if t >= |TriangulateFaces(init)| {
          assert TriangulateFaces(faces)[t] == fan[t - |TriangulateFaces(init)|];
        }
      }
      var d := FanDiagonals(last);
      assert EdgesValid(d, n);
      assert Diagonals(faces) == Diagonals(init) + d;
    }
  }

  /**
    Triangulates every face: the result is a well-formed all-triangle mesh
    over the same vertices, keeping the old edges and adding the diagonals.
  */
  function Triangulate(m: Mesh): (r: Mesh)
    requires WellFormed(m)
    ensures WellFormed(r) && AllTriangles(r)
    ensures r.coords == m.coords && |r.edges| >= |m.edges| && r.edges[..|m.edges|] == m.edges
    ensures |r.faces| == TriangleCount(m.faces)
  {
    TriangulateFacesRefs(m.faces, |m.coords|);
    Mesh(m.coords, TriangulateFaces(m.faces), m.edges + Diagonals(m.faces))
  }

  lemma {:induction false} TriangulateFacesOfTriangles(faces: seq<Face>)
    requires forall i :: 0 <= i < |faces| ==> |faces[i].verts| == 3
    ensures TriangulateFaces(faces) == faces && Diagonals(faces) == []
  {
    if faces != [] {
      TriangulateFacesOfTriangles(faces[..|faces| - 1]);
      assert faces[..|faces| - 1] + [faces[|faces| - 1]] == faces;
    }
  }

  /** Triangulating a mesh that is already all triangles changes nothing, so triangulation is idempotent. */
  lemma TriangulateIdempotent(m: Mesh)
    requires WellFormed(m)
    ensures AllTriangles(m) ==> Triangulate(m) == m
    ensures Triangulate(Triangulate(m)) == Triangulate(m)
  {
    if AllTriangles(m) {
      TriangulateFacesOfTriangles(m.faces);
    }
    var t := Triangulate(m);
    TriangulateFacesOfTriangles(t.faces);
  }

  /** Each face-map tag ends up on exactly the triangles of the faces that carried it. */
  lemma {:induction false} TriangulateKeepsTags(faces: seq<Face>, id: int)
    requires Polygons(faces)
    ensures TagCount(TriangulateFaces(faces), id) == TaggedTriangleCount(faces, id)
  {
    if faces != [] {
      var init := faces[..|faces| - 1];
      var last := faces[|faces| - 1];
      TriangulateKeepsTags(init, id);
      TagCountAppend(TriangulateFaces(init), Fan(last), id);
      TagCountUniform(Fan(last), last.faceMap, id, |Fan(last)|);
    }
  }

  // ---------------------------------------------------------------------
  // bmesh.ops.duplicate followed by bmesh.ops.reverse_faces
  // ---------------------------------------------------------------------

  /** The duplicate of face `f` over vertices shifted by `offset`, with its winding reversed. */
  function BackFace(f: Face, offset: nat): (r: Face)
    ensures |r.verts| == |f.verts| && r.faceMap == f.faceMap
    ensures forall k :: 0 <= k < |f.verts| ==> r.verts[k] == f.verts[|f.verts| - 1 - k] + offset
  {
    Face(seq(|f.verts|, k requires 0 <= k < |f.verts| => f.verts[|f.verts| - 1 - k] + offset), f.faceMap)
  }

  function ShiftedEdge(e: Edge, offset: nat): Edge {
    Edge(e.v0 + offset, e.v1 + offset)
  }

  /**
    Duplicates the vertices and faces, appending the copies, and reverses
    the winding of the duplicated faces. The copied faces bring copies of
    their edges; the model copies the whole edge list.
  */
  function DoubleSided(m: Mesh): (r: Mesh)
    requires WellFormed(m)
    ensures WellFormed(r)
    ensures AllTriangles(m) ==> AllTriangles(r)
    ensures r.coords == m.coords + m.coords
    ensures |r.faces| == 2 * |m.faces| && r.faces[..|m.faces|] == m.faces
    ensures forall i :: 0 <= i < |m.faces| ==> r.faces[|m.faces| + i] == BackFace(m.faces[i], |m.coords|)
  {
    var n := |m.coords|;
    var back := seq(|m.faces|, i requires 0 <= i < |m.faces| => BackFace(m.faces[i], n));
    var edges := seq(|m.edges|, i requires 0 <= i < |m.edges| => ShiftedEdge(m.edges[i], n));
    var r := Mesh(m.coords + m.coords, m.faces + back, m.edges + edges);
    assert forall i :: 0 <= i < |m.faces| ==> RefsValid(back[i], 2 * n);
    r
  }

  function Reverse<T>(s: seq<T>): (r: seq<T>)
    ensures |r| == |s|
  {
    seq(|s|, k requires 0 <= k < |s| => s[|s| - 1 - k])
  }

  /** A duplicated face sits at the same positions as its original, traversed in reverse, so its normal flips. */
  lemma BackFaceReversesWinding(m: Mesh, i: nat)
    requires WellFormed(m) && i < |m.faces|
    ensures RefsValid(DoubleSided(m).faces[|m.faces| + i], 2 * |m.coords|)
    ensures FacePositions(DoubleSided(m), DoubleSided(m).faces[|m.faces| + i])
      == Reverse(FacePositions(m, m.faces[i]))
  {
    var d := DoubleSided(m);
    var f := m.faces[i];
    var b := d.faces[|m.faces| + i];
    assert RefsValid(f, |m.coords|);
    forall k | 0 <= k < |f.verts|
      ensures d.coords[b.verts[k]] == m.coords[f.verts[|f.verts| - 1 - k]]
    {
      assert b.verts[k] == f.verts[|f.verts| - 1 - k] + |m.coords|;
    }
  }

  /** Duplication copies face-map tags, so every tag is carried by exactly twice as many faces. */
  lemma FacesByMapIdDoubles(m: Mesh, id: int)
    requires WellFormed(m)
    ensures |FacesByMapId(DoubleSided(m), id)| == 2 * |FacesByMapId(m, id)|
  {
    var d := DoubleSided(m);
    var back := d.faces[|m.faces|..];
    assert d.faces == m.faces + back;
    TagCountAppend(m.faces, back, id);
    TagCountSameTags(m.faces, back, id, |m.faces|);
  }

  // ---------------------------------------------------------------------
  // bm.copy() followed by bmesh.ops.scale
  // ---------------------------------------------------------------------

  function Scale(v: Vec3, s: real): Vec3 {
    Vec3(s * v.x, s * v.y, s * v.z)
  }

  /** A copy of the mesh with every vertex scaled by `s` about the origin; topology and tags are those of `m`. */
  function ScaledCopy(m: Mesh, s: real): (r: Mesh)
    ensures r.faces == m.faces && r.edges == m.edges && |r.coords| == |m.coords|
    ensures forall i :: 0 <= i < |m.coords| ==> r.coords[i] == Scale(m.coords[i], s)
    ensures WellFormed(m) ==> WellFormed(r)
    ensures AllTriangles(m) ==> AllTriangles(r)
  {
    Mesh(seq(|m.coords|, i requires 0 <= i < |m.coords| => Scale(m.coords[i], s)), m.faces, m.edges)
  }

  /** Scaling by a nonzero factor and back by its inverse gives the original mesh. */
  lemma ScaledCopyRoundTrip(m: Mesh, s: real)
    requires s != 0.0
    ensures ScaledCopy(ScaledCopy(m, s), 1.0 / s) == m
  {
    var r := ScaledCopy(ScaledCopy(m, s), 1.0 / s);
    forall i | 0 <= i < |m.coords|
      ensures r.coords[i] == m.coords[i]
    {
      var v := m.coords[i];
      assert (1.0 / s) * (s * v.x) == v.x;
      assert (1.0 / s) * (s * v.y) == v.y;
      assert (1.0 / s) * (s * v.z) == v.z;
    }
  }
}

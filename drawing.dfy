/**
  Mesh representation for viewport drawing (viewport_drawing/drawing.py):
  ray-cast and hover results, and the DrawnMesh session object with its
  lazily built, explicitly cleared caches.

  The BVH ray cast and the unprojection of the cursor into a ray are foreign
  calls over floats; their outcome enters the model as a parameter `hit`,
  the nearest hit of the cursor ray against the cached BVH, if any.
*/
module Drawing {
  import opened Wrappers
  import opened Geo
  import opened BmeshOps

  datatype Color = Color(r: real, g: real, b: real, a: real)

  const DefaultPassiveColor := Color(1.0, 1.0, 0.0, 1.0)
  const DefaultActiveColor := Color(1.0, 1.0, 1.0, 1.0)
  /** The dataclass default for double_sided. */
  const DefaultDoubleSided := true
  /** from_file's own default for double_sided, which differs from the dataclass default. */
  const FromFileDoubleSided := false
  const DefaultScaler := 1.0
  const DefaultViewDistance := 0.0
  /** The floor of the view-distance-driven scale. */
  const MinimumScale := 3.0

  // ---------------------------------------------------------------------
  // Ray-cast and hover results
  // ---------------------------------------------------------------------

  /** A BVH hit: location, normal, face index and distance along the ray. */
  datatype Hit = Hit(location: Vec3, normal: Vec3, index: nat, distance: real)

  datatype RaycastResult = RaycastResult(
    location: Option<Vec3>, normal: Option<Vec3>, index: Option<nat>, distance: Option<real>)
  {
    /** The BVH answers with all four fields or with none of them. */
    predicate AllOrNothing() {
      (location.None? && normal.None? && index.None? && distance.None?)
      || (location.Some? && normal.Some? && index.Some? && distance.Some?)
    }

    /** A ray cast failed when it has no hit location; for a BVH answer that means no face either. */
    function Failed(): (b: bool)
      ensures AllOrNothing() ==> (b <==> index.None?)
      ensures !b ==> location.Some?
    {
      location.None?
    }
  }

  /** Packs the BVH's answer, all four fields or none, into a RaycastResult. */
  function FromBvh(hit: Option<Hit>): (r: RaycastResult)
    ensures r.AllOrNothing()
    ensures r.Failed() <==> hit.None?
    ensures hit.Some? ==> r.index == Some(hit.value.index)
  {
    match hit
    case None => RaycastResult(None, None, None, None)
    case Some(h) => RaycastResult(Some(h.location), Some(h.normal), Some(h.index), Some(h.distance))
  }

  datatype MouseHoverResult = MouseHoverResult(
    faceId: Option<nat>, faceMap: Option<int>, vertId: Option<nat>, edgeId: Option<nat>)
  {
    /** A hover test failed when it reports nothing: it is then the default-constructed result. */
    function Failed(): (b: bool)
      ensures b <==> this == MouseHoverResult(None, None, None, None)
    {
      faceId.None? && faceMap.None? && vertId.None? && edgeId.None?
    }
  }

  /** The default-constructed hover result. */
  const NoHover := MouseHoverResult(None, None, None, None)

  lemma NoHoverFailed()
    ensures NoHover.Failed()
    ensures forall h: MouseHoverResult :: h.Failed() ==> h == NoHover
  {
  }

  /** A ray-cast result as the BVH of `m` produces it: a hit names a face of `m`. */
  predicate ConsistentRay(m: Mesh, ray: RaycastResult) {
    ray.location.Some? ==> ray.index.Some? && ray.index.value < |m.faces|
  }

  /**
    The hover result for a ray-cast result against mesh `m`: a failed ray
    gives the empty result; a hit reports the face index when asked for it and
    that face's face-map tag when asked for it, and never a vertex or edge.
  */
  function HoverFromRay(m: Mesh, ray: RaycastResult, faceId: bool, faceMap: bool): (r: MouseHoverResult)
    requires ConsistentRay(m, ray)
    ensures ray.Failed() ==> r == NoHover
    ensures !ray.Failed() ==> (r.faceId.Some? <==> faceId) && (faceId ==> r.faceId == ray.index)
    ensures !ray.Failed() ==> (r.faceMap.Some? <==> faceMap)
    ensures !ray.Failed() && r.faceMap.Some? ==> FaceMapLookup(m, ray.index.value) == Success(r.faceMap.value)
    ensures r.vertId.None? && r.edgeId.None?
    ensures r.Failed() <==> ray.Failed() || (!faceId && !faceMap)
  {
    if ray.Failed() then NoHover
    else
      MouseHoverResult(
        if faceId then ray.index else None,
        if faceMap then Some(FaceMapLookup(m, ray.index.value).value) else None,
        None, None)
  }

  /** The scale for a view distance: half the distance, never below MinimumScale. */
  function ScaleForViewDistance(viewDistance: real): (s: real)
    ensures s >= MinimumScale
    ensures viewDistance < 2.0 * MinimumScale ==> s == MinimumScale
    ensures viewDistance >= 2.0 * MinimumScale ==> s == viewDistance / 2.0
  {
    var half := viewDistance / 2.0;
    if half > MinimumScale then half else MinimumScale
  }

  /** The faces highlighted for the active face maps: each id's faces in turn, in the order of `ids`. */
  function HighlightedFaces(m: Mesh, ids: seq<int>): (r: seq<nat>)
    ensures forall k :: 0 <= k < |r| ==> r[k] < |m.faces| && m.faces[r[k]].faceMap in ids
    ensures forall i :: 0 <= i < |m.faces| && m.faces[i].faceMap in ids ==> i in r
  {
    if ids == [] then [] else FacesByMapId(m, ids[0]) + HighlightedFaces(m, ids[1..])
  }

  /** Highlighting one face map highlights exactly that face map's faces. */
  lemma HighlightedFacesSingle(m: Mesh, id: int)
    ensures HighlightedFaces(m, [id]) == FacesByMapId(m, id)
  {
    assert [id][1..] == [];
  }

  /** The face under the cursor is among the faces highlighted for the face map it reports. */
  lemma HoveredFaceIsHighlighted(m: Mesh, ray: RaycastResult)
    requires ConsistentRay(m, ray) && !ray.Failed()
    ensures HoverFromRay(m, ray, true, true).faceMap.Some?
    ensures ray.index.value in HighlightedFaces(m, [HoverFromRay(m, ray, true, true).faceMap.value])
  {
  }

  /**
    __post_init__: triangulate every face, then, for a double-sided mesh,
    append a reversed duplicate of every face.
  */
  function Preprocess(source: Mesh, doubleSided: bool): (r: Mesh)
    requires WellFormed(source)
    ensures WellFormed(r) && AllTriangles(r)
    ensures |r.faces| == (if doubleSided then 2 else 1) * TriangleCount(source.faces)
    ensures r.coords == if doubleSided then source.coords + source.coords else source.coords
  {
    var t := Triangulate(source);
    if doubleSided then DoubleSided(t) else t
  }

  /** After construction each face-map tag is carried by the triangles of its faces, twice over when double-sided. */
  lemma PreprocessKeepsGroups(source: Mesh, doubleSided: bool, id: int)
    requires WellFormed(source)
    ensures |FacesByMapId(Preprocess(source, doubleSided), id)|
      == (if doubleSided then 2 else 1) * TaggedTriangleCount(source.faces, id)
  {
    TriangulateKeepsTags(source.faces, id);
    if doubleSided {
      FacesByMapIdDoubles(Triangulate(source), id);
    }
  }

  // ---------------------------------------------------------------------
  // DrawnMesh
  // ---------------------------------------------------------------------

  /**
    The session's mesh. The cached properties of the source are explicit
    optional fields: `xformedBm` (the scaled copy), `bvh` (the mesh the BVH
    was built over) and `passiveBatch` (the geometry of the base batch).
  */
  class DrawnMesh {
    const bm: Mesh
    const doubleSided: bool
    const passiveColor: Color
    const activeColor: Color
    var scaler: real
    var viewDistance: real
    var xformedBm: Option<Mesh>
    var bvh: Option<Mesh>
    var passiveBatch: Option<Buffers>

    /**
      The cached scaled copy always matches the current scaler; the base
      batch is drawn from it; a cached BVH covers the same faces, though
      possibly at an older scale.
    */
    ghost predicate Valid()
      reads this
    {
      && WellFormed(bm) && AllTriangles(bm)
      && (xformedBm.Some? ==> xformedBm.value == ScaledCopy(bm, scaler / 2.0))
      && (passiveBatch.Some? ==> xformedBm.Some? && passiveBatch.value == FullBuffers(xformedBm.value))
      && (bvh.Some? ==> bvh.value.faces == bm.faces && |bvh.value.coords| == |bm.coords|)
    }

    /** The dataclass constructor followed by __post_init__. */
    constructor (source: Mesh, doubleSided: bool := DefaultDoubleSided,
                 passiveColor: Color := DefaultPassiveColor, activeColor: Color := DefaultActiveColor,
                 scaler: real := DefaultScaler, viewDistance: real := DefaultViewDistance)
      requires WellFormed(source)
      ensures Valid()
      ensures bm == Preprocess(source, doubleSided) && this.doubleSided == doubleSided
      ensures this.passiveColor == passiveColor && this.activeColor == activeColor
      ensures this.scaler == scaler && this.viewDistance == viewDistance
      ensures xformedBm.None? && bvh.None? && passiveBatch.None?
    {
      bm := Preprocess(source, doubleSided);
      this.doubleSided := doubleSided;
      this.passiveColor := passiveColor;
      this.activeColor := activeColor;
      this.scaler := scaler;
      this.viewDistance := viewDistance;
      xformedBm, bvh, passiveBatch := None, None, None;
    }

    /** from_file: the mesh loaded from the file, with from_file's defaults (single-sided). */
    constructor FromFile(loaded: Mesh, doubleSided: bool := FromFileDoubleSided,
                         passiveColor: Color := DefaultPassiveColor, activeColor: Color := DefaultActiveColor)
      requires WellFormed(loaded)
      ensures Valid()
      ensures bm == Preprocess(loaded, doubleSided) && this.doubleSided == doubleSided
      ensures this.passiveColor == passiveColor && this.activeColor == activeColor
      ensures scaler == DefaultScaler && viewDistance == DefaultViewDistance
      ensures xformedBm.None? && bvh.None? && passiveBatch.None?
    {
      bm := Preprocess(loaded, doubleSided);
      this.doubleSided := doubleSided;
      this.passiveColor := passiveColor;
      this.activeColor := activeColor;
      scaler, viewDistance := DefaultScaler, DefaultViewDistance;
      xformedBm, bvh, passiveBatch := None, None, None;
    }

    /** Reads the cached property _xformed_bm, building it first when absent. */
    method XformedBm() returns (x: Mesh)
      requires Valid()
      modifies this`xformedBm
      ensures Valid()
      ensures x == ScaledCopy(bm, scaler / 2.0) && xformedBm == Some(x)
    {
      if xformedBm.None? {
        xformedBm := Some(ScaledCopy(bm, scaler / 2.0));
      }
      x := xformedBm.value;
    }

    /** Reads the cached property _bvh, building it over _xformed_bm when absent. */
    method Bvh() returns (tree: Mesh)
      requires Valid()
      modifies this`xformedBm, this`bvh
      ensures Valid()
      ensures bvh == Some(tree)
      ensures old(bvh).Some? ==> tree == old(bvh).value && xformedBm == old(xformedBm)
      ensures old(bvh).None? ==> tree == ScaledCopy(bm, scaler / 2.0) && xformedBm == Some(tree)
    {
      if bvh.None? {
        var x := XformedBm();
        bvh := Some(x);
      }
      tree := bvh.value;
    }

    /** Reads the cached property _passive_batch: all of _xformed_bm's vertices and faces. */
    method PassiveBatch() returns (b: Buffers)
      requires Valid()
      modifies this`xformedBm, this`passiveBatch
      ensures Valid()
      ensures b == FullBuffers(ScaledCopy(bm, scaler / 2.0)) && passiveBatch == Some(b)
      ensures xformedBm == Some(ScaledCopy(bm, scaler / 2.0))
    {
      if passiveBatch.None? {
        var x := XformedBm();
        var pts := PointsAndFaces(x, None);
        passiveBatch := Some(pts);
      }
      b := passiveBatch.value;
    }

    /** _active_batch: the given faces of _xformed_bm, re-indexed locally. */
    method ActiveBatch(faces: seq<nat>) returns (b: Buffers)
      requires Valid() && FaceIndicesValid(bm, faces)
      modifies this`xformedBm
      ensures Valid()
      ensures b == FilteredBuffers(ScaledCopy(bm, scaler / 2.0), faces)
      ensures xformedBm == Some(ScaledCopy(bm, scaler / 2.0))
    {
      var x := XformedBm();
      b := PointsAndFaces(x, Some(faces));
    }

    /**
      ray_from_mouse: casts the cursor ray against the cached BVH (building
      it, and the scaled copy under it, when absent) and classifies the
      outcome. `hit` is the BVH's answer for the cursor ray.
    */
    method RayFromMouse(hit: Option<Hit>, faceId: bool := true, faceMap: bool := false)
      returns (hover: MouseHoverResult)
      requires Valid()
      requires hit.Some? ==> hit.value.index < |bm.faces|
      modifies this`xformedBm, this`bvh
      ensures Valid()
      ensures hover == HoverFromRay(ScaledCopy(bm, scaler / 2.0), FromBvh(hit), faceId, faceMap)
      ensures bvh == if old(bvh).Some? then old(bvh) else Some(ScaledCopy(bm, scaler / 2.0))
      ensures xformedBm ==
        if old(xformedBm).Some? || old(bvh).None? || (hit.Some? && faceMap)
        then Some(ScaledCopy(bm, scaler / 2.0)) else None
    {
      var tree := Bvh();
      var ray := FromBvh(hit);
      if ray.Failed() {
        return NoHover;
      }
      var lookup: Option<int> := None;
      if faceMap {
        var x := XformedBm();
        lookup := Some(FaceMapLookup(x, ray.index.value).value);
      }
      hover := MouseHoverResult(if faceId then ray.index else None, lookup, None, None);
    }

    /**
      _clear_cache: frees and deletes _xformed_bm (reading it first, which
      builds it when absent), then deletes _passive_batch and then _bvh; the
      first deletion of an absent property raises AttributeError, which ends
      the clearing silently. So _bvh goes only when _passive_batch was there.
    */
    method ClearCache()
      requires Valid()
      modifies this`xformedBm, this`passiveBatch, this`bvh
      ensures Valid()
      ensures xformedBm.None? && passiveBatch.None?
      ensures bvh == if old(passiveBatch).Some? then None else old(bvh)
    {
      var x := XformedBm();
      xformedBm := None;
      if passiveBatch.None? {
        return;
      }
      passiveBatch := None;
      if bvh.None? {
        return;
      }
      bvh := None;
    }

    /**
      draw: when the region's view distance differs from the stored one,
      store it, clear the caches and rescale; then draw the base batch and,
      when face maps are active, the batch of their faces. Returns the
      highlighted faces and the highlight batch's geometry.
    */
    method Draw(activeFaceMaps: Option<seq<int>>, regionViewDistance: real)
      returns (highlighted: Option<seq<nat>>, highlight: Option<Buffers>)
      requires Valid()
      modifies this`scaler, this`viewDistance, this`xformedBm, this`passiveBatch, this`bvh
      ensures Valid()
      ensures old(viewDistance) != regionViewDistance ==>
        && viewDistance == regionViewDistance
        && scaler == ScaleForViewDistance(regionViewDistance)
        && bvh == (if old(passiveBatch).Some? then None else old(bvh))
      ensures old(viewDistance) == regionViewDistance ==>
        viewDistance == old(viewDistance) && scaler == old(scaler) && bvh == old(bvh)
        && (old(passiveBatch).Some? ==> passiveBatch == old(passiveBatch))
      ensures xformedBm == Some(ScaledCopy(bm, scaler / 2.0))
      ensures passiveBatch == Some(FullBuffers(ScaledCopy(bm, scaler / 2.0)))
      ensures highlighted == if activeFaceMaps.None? then None
                             else Some(HighlightedFaces(ScaledCopy(bm, scaler / 2.0), activeFaceMaps.value))
      ensures highlight.Some? <==> activeFaceMaps.Some?
      ensures highlight.Some? ==> highlight.value == FilteredBuffers(ScaledCopy(bm, scaler / 2.0), highlighted.value)
    {
      if viewDistance != regionViewDistance {
        viewDistance := regionViewDistance;
        ClearCache();
        scaler := ScaleForViewDistance(viewDistance);
      }
      var base := PassiveBatch();
      highlighted, highlight := None, None;
      if activeFaceMaps.Some? {
        var x := XformedBm();
        var faces := HighlightedFaces(x, activeFaceMaps.value);
        var batch := ActiveBatch(faces);
        highlighted, highlight := Some(faces), Some(batch);
      }
    }
  }

  /** Copies of a mesh at two different scales differ as soon as one vertex is off the origin. */
  lemma ScaledCopiesDiffer(m: Mesh, s: real, t: real, c: nat)
    requires s != t && c < |m.coords| && m.coords[c] != Vec3(0.0, 0.0, 0.0)
    ensures ScaledCopy(m, s) != ScaledCopy(m, t)
  {
    var v := m.coords[c];
    assert ScaledCopy(m, s).coords[c] == Scale(v, s) && ScaledCopy(m, t).coords[c] == Scale(v, t);
    if v.x != 0.0 {
      assert s * v.x != t * v.x;
    } else if v.y != 0.0 {
      assert s * v.y != t * v.y;
    } else {
      assert s * v.z != t * v.z;
    }
  }

  /**
    A ray cast before the first draw, then a draw at a new view distance:
    the ray cast caches the BVH without the base batch, so the clearing that
    the rescale triggers stops before the BVH. The BVH then still covers the
    mesh at the default scale while the scaled copy drawn and hit-tested
    against has the new one.
  */
  method RayCastBeforeFirstDraw(loaded: Mesh, hit: Hit, regionViewDistance: real, c: nat)
    returns (d: DrawnMesh)
    requires WellFormed(loaded)
    requires hit.index < |Preprocess(loaded, FromFileDoubleSided).faces|
    requires regionViewDistance != DefaultViewDistance
    requires c < |loaded.coords| && loaded.coords[c] != Vec3(0.0, 0.0, 0.0)
    ensures d.Valid() && d.bvh.Some? && d.xformedBm.Some?
    ensures d.bvh.value == ScaledCopy(d.bm, DefaultScaler / 2.0)
    ensures d.xformedBm.value == ScaledCopy(d.bm, ScaleForViewDistance(regionViewDistance) / 2.0)
    ensures d.bvh.value != d.xformedBm.value
  {
    d := new DrawnMesh.FromFile(loaded);
    var hover := d.RayFromMouse(Some(hit));
    var highlighted, highlight := d.Draw(None, regionViewDistance);
    ScaledCopiesDiffer(d.bm, DefaultScaler / 2.0, ScaleForViewDistance(regionViewDistance) / 2.0, c);
  }
}

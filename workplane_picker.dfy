/**
  The workplane-picker modal operator (viewport_drawing/debug_operators.py,
  VIEW3D_OT_test_geometry_drawing): hovering highlights the face map under the
  cursor, a left click over a face map selects its workplane, a right click
  or Esc cancels, and every other event passes through.

  The host's event loop, draw-handler registry and redraw requests are not
  modelled beyond a flag saying whether the draw handler is registered. The
  BVH's answer for the cursor ray of a mouse-move event is a parameter.
*/
module WorkplanePicker {
  import opened Wrappers
  import opened Geo
  import opened BmeshOps
  import opened Drawing

  /** The event types the operator handles, and every other type as one value. */
  datatype EventType = MouseMove | LeftMouse | RightMouse | Esc | OtherEvent

  datatype Event = Event(kind: EventType, mouseRegionX: int, mouseRegionY: int)

  /** The operator return values RUNNING_MODAL, FINISHED, CANCELLED and PASS_THROUGH. */
  datatype Status = RunningModal | Finished | Cancelled | PassThrough

  /** The face-map id of each plane of the workplanes mesh. */
  const WorkplaneFaceMaps: map<int, string> := map[0 := "xz", 1 := "xy", 2 := "yz"]

  /** The workplane a face-map id selects; an id outside the table raises KeyError. */
  function WorkplaneName(faceMap: int): (r: Result<string, Exception>)
    ensures r.Success? <==> 0 <= faceMap <= 2
    ensures r.Failure? ==> r.error == KeyError
  {
    if faceMap in WorkplaneFaceMaps then Success(WorkplaneFaceMaps[faceMap]) else Failure(KeyError)
  }

  /** Distinct face maps select distinct workplanes, and face map 1 is the xy plane. */
  lemma WorkplaneNamesDistinct(a: int, b: int)
    requires WorkplaneName(a).Success? && WorkplaneName(b).Success? && a != b
    ensures WorkplaneName(a).value != WorkplaneName(b).value
    ensures WorkplaneName(1) == Success("xy")
  {
  }

  predicate IsCancel(kind: EventType) {
    kind == RightMouse || kind == Esc
  }

  class TestGeometryDrawing {
    const workplanesMesh: DrawnMesh
    var drawHandleRegistered: bool
    var mouseXY: Option<(int, int)>
    var activeFaceMaps: Option<seq<int>>

    /** The mesh is consistent, and a hover records exactly one face map. */
    ghost predicate Valid()
      reads this, workplanesMesh
    {
      workplanesMesh.Valid() && (activeFaceMaps.Some? ==> |activeFaceMaps.value| == 1)
    }

    /** __init__: loads the workplanes mesh with from_file's defaults; nothing hovered, no draw handler. */
    constructor (loaded: Mesh)
      requires WellFormed(loaded)
      ensures Valid() && fresh(workplanesMesh)
      ensures workplanesMesh.bm == Preprocess(loaded, FromFileDoubleSided)
      ensures workplanesMesh.scaler == DefaultScaler && workplanesMesh.viewDistance == DefaultViewDistance
      ensures workplanesMesh.xformedBm.None? && workplanesMesh.bvh.None? && workplanesMesh.passiveBatch.None?
      ensures !drawHandleRegistered && mouseXY.None? && activeFaceMaps.None?
    {
      workplanesMesh := new DrawnMesh.FromFile(loaded);
      drawHandleRegistered := false;
      mouseXY := None;
      activeFaceMaps := None;
    }

    /** invoke: registers the draw handler and starts the modal loop. */
    method Invoke() returns (status: Status)
      modifies this`drawHandleRegistered
      ensures drawHandleRegistered && status == RunningModal
    {
      drawHandleRegistered := true;
      status := RunningModal;
    }

    /** _rollover_detect: the face map under the cursor becomes the one active face map, or none on a miss. */
    method RolloverDetect(hit: Option<Hit>)
      requires Valid()
      requires hit.Some? ==> hit.value.index < |workplanesMesh.bm.faces|
      modifies this`activeFaceMaps, workplanesMesh`xformedBm, workplanesMesh`bvh
      ensures Valid()
      ensures activeFaceMaps ==
        if hit.None? then None else Some([workplanesMesh.bm.faces[hit.value.index].faceMap])
      ensures workplanesMesh.bvh ==
        if old(workplanesMesh.bvh).Some? then old(workplanesMesh.bvh)
        else Some(ScaledCopy(workplanesMesh.bm, workplanesMesh.scaler / 2.0))
      ensures workplanesMesh.xformedBm ==
        if old(workplanesMesh.xformedBm).Some? || old(workplanesMesh.bvh).None? || hit.Some?
        then Some(ScaledCopy(workplanesMesh.bm, workplanesMesh.scaler / 2.0)) else None
    {
      var hover := workplanesMesh.RayFromMouse(hit, faceMap := true);
      if !hover.Failed() {
        activeFaceMaps := Some([hover.faceMap.value]);
      } else {
        activeFaceMaps := None;
      }
    }

    /**
      execute: reports the workplane of the first active face map and
      finishes. With no active face maps the subscript raises TypeError; an
      id outside the workplane table raises KeyError.
    */
    method Execute() returns (r: Result<Status, Exception>, printed: Option<string>)
      ensures activeFaceMaps.None? ==> r == Failure(TypeError) && printed.None?
      ensures activeFaceMaps.Some? && activeFaceMaps.value == [] ==> r == Failure(IndexError) && printed.None?
      ensures activeFaceMaps.Some? && activeFaceMaps.value != [] ==>
        var name := WorkplaneName(activeFaceMaps.value[0]);
        && (r.Success? <==> name.Success?)
        && (r.Success? ==> r.value == Finished && printed == Some(name.value))
        && (r.Failure? ==> r.error == KeyError && printed.None?)
    {
      if activeFaceMaps.None? {
        return Failure(TypeError), None;
      }
      if activeFaceMaps.value == [] {
        return Failure(IndexError), None;
      }
      var name := WorkplaneName(activeFaceMaps.value[0]);
      if name.Failure? {
        return Failure(name.error), None;
      }
      r, printed := Success(Finished), Some(name.value);
    }

    /**
      modal: one event of the modal loop. A mouse move records the cursor and
      the hovered face map; a left click with a face map hovered removes the
      draw handler and executes; a right click or Esc removes the draw
      handler and cancels; anything else passes through untouched.
    */
    method Modal(event: Event, hit: Option<Hit>) returns (r: Result<Status, Exception>, selected: Option<string>)
      requires Valid() && drawHandleRegistered
      requires hit.Some? ==> hit.value.index < |workplanesMesh.bm.faces|
      modifies this`drawHandleRegistered, this`mouseXY, this`activeFaceMaps
      modifies workplanesMesh`xformedBm, workplanesMesh`bvh
      ensures Valid()
      ensures event.kind == MouseMove ==>
        && r == Success(RunningModal) && selected.None? && drawHandleRegistered
        && mouseXY == Some((event.mouseRegionX, event.mouseRegionY))
        && activeFaceMaps == (if hit.None? then None else Some([workplanesMesh.bm.faces[hit.value.index].faceMap]))
        && workplanesMesh.bvh ==
           (if old(workplanesMesh.bvh).Some? then old(workplanesMesh.bvh)
            else Some(ScaledCopy(workplanesMesh.bm, workplanesMesh.scaler / 2.0)))
        && workplanesMesh.xformedBm ==
           (if old(workplanesMesh.xformedBm).Some? || old(workplanesMesh.bvh).None? || hit.Some?
            then Some(ScaledCopy(workplanesMesh.bm, workplanesMesh.scaler / 2.0)) else None)
      ensures event.kind != MouseMove ==>
        && mouseXY == old(mouseXY) && activeFaceMaps == old(activeFaceMaps)
        && workplanesMesh.xformedBm == old(workplanesMesh.xformedBm) && workplanesMesh.bvh == old(workplanesMesh.bvh)
      ensures event.kind == LeftMouse && old(activeFaceMaps).Some? ==>
        var name := WorkplaneName(old(activeFaceMaps).value[0]);
        && !drawHandleRegistered
        && r == (if name.Success? then Success(Finished) else Failure(KeyError))
        && selected == (if name.Success? then Some(name.value) else None)
      ensures IsCancel(event.kind) ==> !drawHandleRegistered && r == Success(Cancelled) && selected.None?
      ensures event.kind != MouseMove && !IsCancel(event.kind) && !(event.kind == LeftMouse && old(activeFaceMaps).Some?) ==>
        drawHandleRegistered && r == Success(PassThrough) && selected.None?
    {
      if event.kind == MouseMove {
        mouseXY := Some((event.mouseRegionX, event.mouseRegionY));
        RolloverDetect(hit);
      } else if event.kind == LeftMouse && activeFaceMaps.Some? {
        drawHandleRegistered := false;
        r, selected := Execute();
        return;
      } else if IsCancel(event.kind) {
        drawHandleRegistered := false;
        return Success(Cancelled), None;
      } else {
        return Success(PassThrough), None;
      }
      r, selected := Success(RunningModal), None;
    }

    /**
      The registered draw handler: DrawnMesh.draw with this operator. The
      highlighted faces are exactly those of the hovered face map.
    */
    method OnDraw(regionViewDistance: real) returns (highlighted: Option<seq<nat>>)
      requires Valid() && drawHandleRegistered
      modifies workplanesMesh`scaler, workplanesMesh`viewDistance
      modifies workplanesMesh`xformedBm, workplanesMesh`passiveBatch, workplanesMesh`bvh
      ensures Valid()
      ensures old(workplanesMesh.viewDistance) != regionViewDistance ==>
        && workplanesMesh.viewDistance == regionViewDistance
        && workplanesMesh.scaler == ScaleForViewDistance(regionViewDistance)
        && workplanesMesh.bvh == (if old(workplanesMesh.passiveBatch).Some? then None else old(workplanesMesh.bvh))
      ensures old(workplanesMesh.viewDistance) == regionViewDistance ==>
        && workplanesMesh.viewDistance == old(workplanesMesh.viewDistance)
        && workplanesMesh.scaler == old(workplanesMesh.scaler)
        && workplanesMesh.bvh == old(workplanesMesh.bvh)
      ensures workplanesMesh.xformedBm == Some(ScaledCopy(workplanesMesh.bm, workplanesMesh.scaler / 2.0))
      ensures workplanesMesh.passiveBatch == Some(FullBuffers(ScaledCopy(workplanesMesh.bm, workplanesMesh.scaler / 2.0)))
      ensures highlighted.Some? <==> activeFaceMaps.Some?
      ensures highlighted.Some? ==>
        forall i :: 0 <= i < |workplanesMesh.bm.faces| ==>
          (i in highlighted.value <==> workplanesMesh.bm.faces[i].faceMap == activeFaceMaps.value[0])
      ensures highlighted.Some? ==> forall k :: 0 <= k < |highlighted.value| ==> highlighted.value[k] < |workplanesMesh.bm.faces|
    {
      var batch;
      highlighted, batch := workplanesMesh.Draw(activeFaceMaps, regionViewDistance);
    }
  }

  /**
    One session of the picker: construct, invoke, hover a face of face map 1,
    click. The session selects the xy workplane, finishes, and leaves no draw
    handler registered.
  */
  method PickXyWorkplane(loaded: Mesh, face: nat) returns (status: Result<Status, Exception>, selected: Option<string>)
    requires WellFormed(loaded)
    requires face < |Preprocess(loaded, FromFileDoubleSided).faces|
    requires Preprocess(loaded, FromFileDoubleSided).faces[face].faceMap == 1
    ensures status == Success(Finished) && selected == Some("xy")
  {
    var op := new TestGeometryDrawing(loaded);
    var started := op.Invoke();
    var hit := Hit(Vec3(0.0, 0.0, 0.0), Vec3(0.0, 0.0, 1.0), face, 1.0);
    var moved, none := op.Modal(Event(MouseMove, 0, 0), Some(hit));
    assert op.activeFaceMaps == Some([1]);
    status, selected := op.Modal(Event(LeftMouse, 0, 0), None);
    assert !op.drawHandleRegistered;
  }

  /**
    A hover before the first draw: the mouse move's ray cast caches the BVH at
    the default scale, and the first draw at a new view distance rescales
    without dropping it, so later hover tests run against a BVH that no longer
    matches the drawn mesh.
  */
  method HoverBeforeFirstDraw(loaded: Mesh, hit: Hit, regionViewDistance: real, c: nat)
    returns (op: TestGeometryDrawing)
    requires WellFormed(loaded)
    requires hit.index < |Preprocess(loaded, FromFileDoubleSided).faces|
    requires regionViewDistance != DefaultViewDistance
    requires c < |loaded.coords| && loaded.coords[c] != Vec3(0.0, 0.0, 0.0)
    ensures op.Valid() && op.drawHandleRegistered
    ensures op.workplanesMesh.bvh == Some(ScaledCopy(op.workplanesMesh.bm, DefaultScaler / 2.0))
    ensures op.workplanesMesh.xformedBm ==
      Some(ScaledCopy(op.workplanesMesh.bm, ScaleForViewDistance(regionViewDistance) / 2.0))
    ensures op.workplanesMesh.bvh != op.workplanesMesh.xformedBm
  {
    op := new TestGeometryDrawing(loaded);
    var started := op.Invoke();
    var moved, none := op.Modal(Event(MouseMove, 0, 0), Some(hit));
    var highlighted := op.OnDraw(regionViewDistance);
    ScaledCopiesDiffer(op.workplanesMesh.bm, DefaultScaler / 2.0, ScaleForViewDistance(regionViewDistance) / 2.0, c);
  }
}

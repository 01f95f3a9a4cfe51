/** The `HandControls` object itself: its fields, the constructor, `update`
    (one MediaPipe result per call) and `animate` (one pass per rendered
    frame), together with the drag-end callback it hands to listeners and
    the renderer's refresh of the reference objects' world matrices. */
module Controls {
  import opened Wrappers
  import opened Geometry
  import opened Gesture
  import opened Interaction

  /** The `TypeError`s `update` can raise part-way through. */
  datatype Fault =
    | MissingLandmark   // the hand lacks one of landmarks 0, 10, 9, 12
    | NoRenderer        // `to2D` returned `undefined` and its `x` was read
    | NoTarget          // there is no cursor object whose position to set

  datatype Outcome = Completed | Threw(fault: Fault)

  class HandControls {
    /** The cursor's position; `None` when there is no cursor object. */
    var target: Option<Vec3>
    /** The draggable objects, updated in place. */
    const objects: array<Draggable>
    const isDraggable: bool
    /** The renderer's canvas size; `None` when there is no renderer. */
    const renderer: Option<Viewport>

    /** Whether `show3DLandmark` has created the landmark spheres
        (`handsObj`), which `update` then moves first. */
    var handsObj: bool
    var closedFist: bool
    var depthZ: real
    /** The selected object, by its index in `objects`. */
    var selected: Option<nat>
    /** Every event dispatched so far, oldest first. */
    var events: seq<Event>
    /** `gestureCompute`'s four steering vectors. */
    var pose: HandPose
    /** The positions of `refObjFrom` and `refObjTo`. */
    var refFrom: Vec3
    var refTo: Vec3
    /** The positions their world matrices held when the scene was last
        rendered; `to2D` reads these. */
    var refFromWorld: Vec3
    var refToWorld: Vec3

    predicate Valid()
      reads this
    {
      selected.Some? ==> selected.value < objects.Length
    }

    /** The part of the state one `animate` pass works on. */
    function Snapshot(): Scene
      reads this, objects
    {
      Scene(objects[..], selected, events)
    }

    /** Every object starts without a collision; nothing is selected, no
        event has been dispatched and the reference objects sit at the
        origin. */
    constructor (target: Option<Vec3>, objects: array<Draggable>, renderer: Option<Viewport>, isDraggable: bool)
      modifies objects
      ensures Valid()
      ensures this.target == target && this.objects == objects
      ensures this.renderer == renderer && this.isDraggable == isDraggable
      ensures forall i :: 0 <= i < objects.Length ==> objects[i] == old(objects[i]).(hasCollision := false)
      ensures !handsObj && !closedFist && depthZ == 0.0 && selected.None? && events == []
      ensures pose == HandPose(Origin3, Origin3, Origin3, Origin3)
      ensures refFrom == Origin3 && refTo == Origin3 && refFromWorld == Origin3 && refToWorld == Origin3
    {
      var i := 0;
      while i < objects.Length
        invariant 0 <= i <= objects.Length
        invariant forall j :: 0 <= j < i ==> objects[j] == old(objects[j]).(hasCollision := false)
        invariant forall j :: i <= j < objects.Length ==> objects[j] == old(objects[j])
      {
        objects[i] := objects[i].(hasCollision := false);
        i := i + 1;
      }
      this.target := target;
      this.objects := objects;
      this.isDraggable := isDraggable;
      this.renderer := renderer;
      handsObj := false;
      closedFist := false;
      depthZ := 0.0;
      selected := None;
      events := [];
      pose := HandPose(Origin3, Origin3, Origin3, Origin3);
      refFrom, refTo := Origin3, Origin3;
      refFromWorld, refToWorld := Origin3, Origin3;
    }

    /** `update(landmarks)`. Only a result with exactly one hand is looked
        at. Once the landmark spheres exist, all 21 landmarks are read
        first, and a shorter hand throws before anything is written. */
    method Update(landmarks: Option<Results>, separation: real) returns (outcome: Outcome)
      requires Valid()
      requires HasOneHand(landmarks) && renderer.Some? ==>
        IsSeparation(separation, refFromWorld, refToWorld, renderer.value)
      modifies this`pose, this`closedFist, this`refFrom, this`refTo, this`depthZ, this`target, this`selected, this`events
      ensures Valid()
      ensures !HasOneHand(landmarks) ==>
        outcome == Completed
        && pose == old(pose) && closedFist == old(closedFist) && refFrom == old(refFrom) && refTo == old(refTo)
        && depthZ == old(depthZ) && target == old(target) && selected == old(selected) && events == old(events)
      ensures HasOneHand(landmarks) && handsObj && |landmarks.value.multiHandLandmarks[0]| < HandLandmarkCount ==>
        outcome == Threw(MissingLandmark)
        && pose == old(pose) && closedFist == old(closedFist) && refFrom == old(refFrom) && refTo == old(refTo)
        && depthZ == old(depthZ) && target == old(target) && selected == old(selected) && events == old(events)
      ensures HasOneHand(landmarks) && !(handsObj && |landmarks.value.multiHandLandmarks[0]| < HandLandmarkCount) ==>
        var hand := landmarks.value.multiHandLandmarks[0];
        pose == WritePose(old(pose), hand)
        && (ReadPose(hand).None? ==>
              outcome == Threw(MissingLandmark)
              && closedFist == old(closedFist) && refFrom == old(refFrom) && refTo == old(refTo)
              && depthZ == old(depthZ) && target == old(target) && selected == old(selected) && events == old(events))
        && (ReadPose(hand).Some? ==>
              closedFist == IsClosedFist(pose.from, pose.to) && refFrom == pose.depthFrom)
        && (ReadPose(hand).Some? && renderer.None? ==>
              outcome == Threw(NoRenderer)
              && refTo == old(refTo) && depthZ == old(depthZ) && target == old(target)
              && selected == old(selected) && events == old(events))
        && (ReadPose(hand).Some? && renderer.Some? ==>
              refTo == pose.depthTo && depthZ == Depth(separation))
        && (ReadPose(hand).Some? && renderer.Some? && old(target).None? ==>
              outcome == Threw(NoTarget)
              && target == old(target) && selected == old(selected) && events == old(events))
        && (ReadPose(hand).Some? && renderer.Some? && old(target).Some? ==>
              outcome == Completed
              && target == Some(CursorPosition(pose.from, depthZ))
              && (!closedFist ==> selected == old(selected) && events == old(events) + [ClosedFist, DragEnd(old(selected))])
              && (closedFist ==> selected.None? && events == old(events) + [OpenedFist]))
    {
      if !HasOneHand(landmarks) {
        return Completed;
      }
      var hand := landmarks.value.multiHandLandmarks[0];
      if handsObj && |hand| < HandLandmarkCount {
        return Threw(MissingLandmark);
      }
      outcome := UpdateHand(hand, separation);
    }

    /** The rest of `update` for the one hand: the steering landmarks are
        stored as far as the hand has them; then the fist test, the depth of
        the cursor (from `separation`, the on-screen distance of the
        reference objects as last rendered) and the cursor position are set
        in that order, each step throwing if what it needs is missing. An
        open hand dispatches 'closed_fist' and 'drag_end' with the current
        selection; a fist clears the selection and dispatches
        'opened_fist'. */
    method UpdateHand(hand: seq<Vec3>, separation: real) returns (outcome: Outcome)
      requires Valid()
      requires renderer.Some? ==> IsSeparation(separation, refFromWorld, refToWorld, renderer.value)
      modifies this`pose, this`closedFist, this`refFrom, this`refTo, this`depthZ, this`target, this`selected, this`events
      ensures Valid()
      ensures
        pose == WritePose(old(pose), hand)
        && (ReadPose(hand).None? ==>
              outcome == Threw(MissingLandmark)
              && closedFist == old(closedFist) && refFrom == old(refFrom) && refTo == old(refTo)
              && depthZ == old(depthZ) && target == old(target) && selected == old(selected) && events == old(events))
        && (ReadPose(hand).Some? ==>
              closedFist == IsClosedFist(pose.from, pose.to) && refFrom == pose.depthFrom)
        && (ReadPose(hand).Some? && renderer.None? ==>
              outcome == Threw(NoRenderer)
              && refTo == old(refTo) && depthZ == old(depthZ) && target == old(target)
              && selected == old(selected) && events == old(events))
        && (ReadPose(hand).Some? && renderer.Some? ==>
              refTo == pose.depthTo && depthZ == Depth(separation))
        && (ReadPose(hand).Some? && renderer.Some? && old(target).None? ==>
              outcome == Threw(NoTarget)
              && target == old(target) && selected == old(selected) && events == old(events))
        && (ReadPose(hand).Some? && renderer.Some? && old(target).Some? ==>
              outcome == Completed
              && target == Some(CursorPosition(pose.from, depthZ))
              && (!closedFist ==> selected == old(selected) && events == old(events) + [ClosedFist, DragEnd(old(selected))])
              && (closedFist ==> selected.None? && events == old(events) + [OpenedFist]))
    {
      var complete := StorePose(hand);
      if !complete {
        return Threw(MissingLandmark);
      }

      closedFist := IsClosedFist(pose.from, pose.to);

      refFrom := pose.depthFrom;
      if renderer.None? {
        return Threw(NoRenderer);
      }
      refTo := pose.depthTo;
      depthZ := Depth(separation);

      if target.None? {
        return Threw(NoTarget);
      }
      target := Some(CursorPosition(pose.from, depthZ));

      DispatchFistEvents();
      return Completed;
    }

    /** `gestureCompute` filled in landmark by landmark, stopping at the
        first one the hand does not have; `complete` tells whether all four
        were read. */
    method StorePose(hand: seq<Vec3>) returns (complete: bool)
      modifies this`pose
      ensures pose == WritePose(old(pose), hand)
      ensures complete <==> ReadPose(hand).Some?
    {
      if |hand| <= DepthFromIndex {
        return false;
      }
      pose := pose.(depthFrom := Remap(hand[DepthFromIndex]));
      if |hand| <= DepthToIndex {
        return false;
      }
      pose := pose.(depthTo := Remap(hand[DepthToIndex]));
      pose := pose.(from := Remap(hand[FromIndex]));
      if |hand| <= ToIndex {
        return false;
      }
      pose := pose.(to := Remap(hand[ToIndex]));
      return true;
    }

    /** The tail of `update`: an open hand dispatches 'closed_fist' and then
        'drag_end' with the current selection; a fist clears the selection
        and dispatches 'opened_fist'. */
    method DispatchFistEvents()
      requires Valid()
      modifies this`selected, this`events
      ensures Valid()
      ensures !closedFist ==> selected == old(selected) && events == old(events) + [ClosedFist, DragEnd(old(selected))]
      ensures closedFist ==> selected.None? && events == old(events) + [OpenedFist]
    {
      if !closedFist {
        events := events + [ClosedFist];
        events := events + [DragEnd(selected)];
      } else {
        selected := None;
        events := events + [OpenedFist];
      }
    }

    /** `animate()`: nothing without a cursor; otherwise every object is
        tested against the cursor in array order, and then the selected
        object follows a grabbing hand. */
    method Animate(hits: seq<bool>)
      requires Valid() && |hits| == objects.Length
      modifies this`selected, this`events, objects
      ensures Valid()
      ensures Snapshot() == AnimatePass(old(Snapshot()), hits, closedFist && isDraggable, target)
    {
      if target.None? {
        return;
      }
      VisitObjects(hits, closedFist && isDraggable);
      FollowCursor(target.value);
    }

    /** `animate`'s loop: every object tested against the cursor, in array
        order. */
    method VisitObjects(hits: seq<bool>, grab: bool)
      requires Valid() && |hits| == objects.Length && grab == (closedFist && isDraggable)
      modifies this`selected, this`events, objects
      ensures Valid()
      ensures Snapshot() == Sweep(old(Snapshot()), hits, grab, |hits|)
    {
      ghost var s0 := Snapshot();
      var i := 0;
      while i < objects.Length
        invariant 0 <= i <= objects.Length
        invariant Valid()
        invariant Snapshot() == Sweep(s0, hits, grab, i)
      {
        VisitObject(i, hits[i], grab);
        i := i + 1;
      }
    }

    /** The end of `animate`: while the hand grabs, the selected object moves
        30% of the way towards the cursor. */
    method FollowCursor(cursor: Vec3)
      requires Valid()
      modifies objects
      ensures objects[..] == Follow(old(objects[..]), selected, closedFist && isDraggable, cursor)
    {
      if selected.Some? && closedFist && isDraggable {
        var o := objects[selected.value];
        objects[selected.value] := o.(position := Lerp(o.position, cursor, FollowFactor));
      }
    }

    /** One iteration of `animate`'s loop over the objects: a hit marks
        and dims object `i`, starts a drag when a grabbing hand has
        nothing selected, and dispatches a 'collision' with state 'on'; a miss
        restores the opacity and, with nothing selected, dispatches a
        'collision' with state 'off'. */
    method VisitObject(i: nat, hit: bool, grab: bool)
      requires Valid() && i < objects.Length && grab == (closedFist && isDraggable)
      modifies this`selected, this`events, objects
      ensures Valid()
      ensures Snapshot() == Visit(old(Snapshot()), i, hit, grab)
    {
      if hit {
        objects[i] := objects[i].(hasCollision := true);
        if closedFist && selected.None? && isDraggable {
          selected := Some(i);
          events := events + [DragStart(i)];
        }
        events := events + [CollisionOn(i)];
        objects[i] := objects[i].(opacity := HitOpacity);
      } else {
        objects[i] := objects[i].(opacity := RestOpacity);
        if selected.None? {
          events := events + [CollisionOff];
        }
      }
      assert old(events) + [DragStart(i)] + [CollisionOn(i)] == old(events) + [DragStart(i), CollisionOn(i)];
    }

    /** `show3DLandmark`: the first call creates the landmark spheres. */
    method Show3DLandmark()
      modifies this`handsObj
      ensures handsObj
    {
      handsObj := true;
    }

    /** The callback a 'drag_end' event carries: it clears the selection. */
    method DragEndCallback()
      modifies this`selected
      ensures Valid() && selected.None?
    {
      selected := None;
    }

    /** Rendering the scene refreshes the world matrices of the reference
        objects from their positions. */
    method RenderReferences()
      modifies this`refFromWorld, this`refToWorld
      ensures refFromWorld == refFrom && refToWorld == refTo
    {
      refFromWorld := refFrom;
      refToWorld := refTo;
    }
  }
}

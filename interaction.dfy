/** The collision, selection and drag logic of `HandControls.animate`,
    stated on values: the loop over the draggable objects is the left fold
    `Sweep`, and the drag follow after it is `Follow`. */
module Interaction {
  import opened Wrappers
  import opened Geometry

  /** The events `HandControls` dispatches. Objects are named by their index
      in the draggable array. */
  datatype Event =
    | ClosedFist                  // 'closed_fist', dispatched when the hand is NOT a fist
    | OpenedFist                  // 'opened_fist', dispatched when the hand IS a fist
    | DragEnd(selection: Option<nat>) // 'drag_end', carrying the selection at that time
    | DragStart(index: nat)       // 'drag_start'
    | CollisionOn(index: nat)     // 'collision' with state 'on'
    | CollisionOff                 // 'collision' with state 'off' and a null object

  /** The parts of a draggable object the controls read or write. */
  datatype Draggable = Draggable(position: Vec3, opacity: real, hasCollision: bool)

  const HitOpacity: real := 0.4
  const RestOpacity: real := 1.0
  const FollowFactor: real := 0.3

  /** The state one `animate` pass works on. */
  datatype Scene = Scene(objects: seq<Draggable>, selected: Option<nat>, events: seq<Event>)

  /** The selection, when present, names one of the objects. */
  predicate SelectionInRange(s: Scene)
  {
    s.selected.Some? ==> s.selected.value < |s.objects|
  }

  /** One iteration of the loop: object `i`, which intersects the cursor
      exactly when `hit`; `grab` is `closedFist && isDraggable`. */
  function Visit(s: Scene, i: nat, hit: bool, grab: bool): (r: Scene)
    requires i < |s.objects|
    ensures |r.objects| == |s.objects| && r.objects[i] == Visited(s.objects[i], hit)
    ensures forall j :: 0 <= j < |s.objects| && j != i ==> r.objects[j] == s.objects[j]
    ensures r.selected != s.selected <==> hit && grab && s.selected.None?
    ensures r.selected != s.selected ==> r.selected == Some(i)
    ensures SelectionInRange(s) ==> SelectionInRange(r)
    ensures r.events == s.events + Emitted(s.selected, i, hit, grab)
  {
    Scene(s.objects[i := Visited(s.objects[i], hit)],
          if hit && grab && s.selected.None? then Some(i) else s.selected,
          s.events + Emitted(s.selected, i, hit, grab))
  }

  /** An object once the loop has visited it: a hit sets `hasCollision` and
      dims the object, a miss restores full opacity. */
  function Visited(o: Draggable, hit: bool): (r: Draggable)
    ensures r.position == o.position
    ensures r.hasCollision <==> o.hasCollision || hit
    ensures r.opacity < RestOpacity <==> hit
  {
    if hit then o.(hasCollision := true, opacity := HitOpacity) else o.(opacity := RestOpacity)
  }

  /** The events one iteration dispatches, given the selection at that moment. */
  function Emitted(selected: Option<nat>, i: nat, hit: bool, grab: bool): seq<Event>
  {
    if hit && grab && selected.None? then [DragStart(i), CollisionOn(i)]
    else if hit then [CollisionOn(i)]
    else if selected.None? then [CollisionOff]
    else []
  }

  /** What one iteration dispatches: at most two events; a 'drag_start' exactly
      when it selects the object, and then followed by 'collision on'; a
      'collision on' exactly on a hit; a 'collision off' exactly on a miss with
      nothing selected. (Stated apart from `Emitted`, so that the inductions
      over the loop do not carry these facts at every step.) */
  lemma EmittedEvents(selected: Option<nat>, i: nat, hit: bool, grab: bool)
    ensures |Emitted(selected, i, hit, grab)| <= 2
    ensures DragStart(i) in Emitted(selected, i, hit, grab) <==> hit && grab && selected.None?
    ensures DragStart(i) in Emitted(selected, i, hit, grab) ==> Emitted(selected, i, hit, grab) == [DragStart(i), CollisionOn(i)]
    ensures CollisionOn(i) in Emitted(selected, i, hit, grab) <==> hit
    ensures CollisionOff in Emitted(selected, i, hit, grab) <==> !hit && selected.None?
  {
  }

  /** The loop after its first `k` iterations. */
  function Sweep(s: Scene, hits: seq<bool>, grab: bool, k: nat): (r: Scene)
    requires |hits| == |s.objects| && k <= |hits|
    ensures |r.objects| == |s.objects|
    ensures SelectionInRange(s) ==> SelectionInRange(r)
    decreases k
  {
    if k == 0 then s
    else Visit(Sweep(s, hits, grab, k - 1), k - 1, hits[k - 1], grab)
  }

  /** The first object, among the first `k`, that intersects the cursor. */
  function FirstHit(hits: seq<bool>, k: nat): (r: Option<nat>)
    requires k <= |hits|
    ensures r.Some? ==> r.value < k && hits[r.value]
    ensures r.Some? ==> forall i :: 0 <= i < r.value ==> !hits[i]
    ensures r.None? ==> forall i :: 0 <= i < k ==> !hits[i]
    decreases k
  {
    if k == 0 then None
    else match FirstHit(hits, k - 1)
      case Some(j) => Some(j)
      case None => if hits[k - 1] then Some(k - 1) else None
  }

  /** The number of objects, among the first `k`, that intersect the cursor. */
  function HitCount(hits: seq<bool>, k: nat): (r: nat)
    requires k <= |hits|
    ensures r <= k
    ensures r == 0 <==> forall i :: 0 <= i < k ==> !hits[i]
    ensures r == k <==> forall i :: 0 <= i < k ==> hits[i]
    decreases k
  {
    if k == 0 then 0
    else HitCount(hits, k - 1) + (if hits[k - 1] then 1 else 0)
  }

  /** The selection after the first `k` iterations: a grabbing hand with
      nothing selected takes the object it is over. */
  function SelectionAfter(selected: Option<nat>, hits: seq<bool>, grab: bool, k: nat): Option<nat>
    requires k <= |hits|
    decreases k
  {
    if k == 0 then selected
    else
      var before := SelectionAfter(selected, hits, grab, k - 1);
      if grab && before.None? && hits[k - 1] then Some(k - 1) else before
  }

  /** `SelectionAfter` in closed form: an existing selection stays,
      otherwise a grabbing hand takes the first object it touches. */
  lemma {:induction false} SelectionAfterClosed(selected: Option<nat>, hits: seq<bool>, grab: bool, k: nat)
    requires k <= |hits|
    ensures SelectionAfter(selected, hits, grab, k)
         == if selected.Some? then selected else if grab then FirstHit(hits, k) else None
    decreases k
  {
    if k > 0 {
      SelectionAfterClosed(selected, hits, grab, k - 1);
    }
  }

  /** An existing selection is never replaced. */
  lemma {:induction false} SelectionKept(selected: Option<nat>, hits: seq<bool>, grab: bool, k: nat)
    requires k <= |hits|
    ensures selected.Some? ==> SelectionAfter(selected, hits, grab, k) == selected
    decreases k
  {
    if k > 0 {
      SelectionKept(selected, hits, grab, k - 1);
    }
  }

  /** The number of 'collision off' events the first `k` iterations emit:
      one per missed object while nothing is selected. */
  function OffCount(selected: Option<nat>, hits: seq<bool>, grab: bool, k: nat): nat
    requires k <= |hits|
    decreases k
  {
    if k == 0 then 0
    else OffCount(selected, hits, grab, k - 1)
         + (if !hits[k - 1] && SelectionAfter(selected, hits, grab, k - 1).None? then 1 else 0)
  }

  /** `OffCount` in closed form: none while something is selected; under a
      grabbing hand, the objects before the first hit; otherwise every
      missed object. */
  lemma {:induction false} OffCountClosed(selected: Option<nat>, hits: seq<bool>, grab: bool, k: nat)
    requires k <= |hits|
    ensures OffCount(selected, hits, grab, k)
         == if selected.Some? then 0
            else if grab then (match FirstHit(hits, k) case Some(f) => f case None => k)
            else k - HitCount(hits, k)
    decreases k
  {
    if k > 0 {
      OffCountClosed(selected, hits, grab, k - 1);
      SelectionAfterClosed(selected, hits, grab, k - 1);
    }
  }

  /** The first `k` objects have the opacity and sticky collision flag of
      their intersection test; the others are untouched. */
  lemma {:induction false} SweepObjects(s: Scene, hits: seq<bool>, grab: bool, k: nat)
    requires |hits| == |s.objects| && k <= |hits|
    ensures forall j :: 0 <= j < k ==>
      var o := Sweep(s, hits, grab, k).objects[j];
      o == s.objects[j].(opacity := o.opacity, hasCollision := o.hasCollision)
      && o.opacity == (if hits[j] then HitOpacity else RestOpacity)
      && o.hasCollision == (s.objects[j].hasCollision || hits[j])
    ensures forall j :: k <= j < |s.objects| ==> Sweep(s, hits, grab, k).objects[j] == s.objects[j]
    decreases k
  {
    if k > 0 {
      SweepObjects(s, hits, grab, k - 1);
    }
  }

  /** The selection after `k` iterations is `SelectionAfter`. */
  lemma {:induction false} SweepSelection(s: Scene, hits: seq<bool>, grab: bool, k: nat)
    requires |hits| == |s.objects| && k <= |hits|
    ensures Sweep(s, hits, grab, k).selected == SelectionAfter(s.selected, hits, grab, k)
    decreases k
  {
    if k > 0 {
      SweepSelection(s, hits, grab, k - 1);
    }
  }

  lemma AppendAssoc<T>(a: seq<T>, b: seq<T>, c: seq<T>)
    ensures (a + b) + c == a + (b + c)
  {
  }

  /** The events the first `k` iterations dispatch, in closed form: each
      iteration's events depend only on the selection at that moment. */
  function Log(selected: Option<nat>, hits: seq<bool>, grab: bool, k: nat): seq<Event>
    requires k <= |hits|
    decreases k
  {
    if k == 0 then []
    else Log(selected, hits, grab, k - 1) + Emitted(SelectionAfter(selected, hits, grab, k - 1), k - 1, hits[k - 1], grab)
  }

  /** The loop only appends to the event log, and appends `Log`. */
  lemma {:induction false} SweepLog(s: Scene, hits: seq<bool>, grab: bool, k: nat)
    requires |hits| == |s.objects| && k <= |hits|
    ensures Sweep(s, hits, grab, k).events == s.events + Log(s.selected, hits, grab, k)
    decreases k
  {
    if k > 0 {
      SweepLog(s, hits, grab, k - 1);
      SweepSelection(s, hits, grab, k - 1);
      AppendAssoc(s.events, Log(s.selected, hits, grab, k - 1),
                  Emitted(SelectionAfter(s.selected, hits, grab, k - 1), k - 1, hits[k - 1], grab));
    } else {
      assert s.events + [] == s.events;
    }
  }

  /** How many times `x` occurs in a log. */
  function Count(evs: seq<Event>, x: Event): (n: nat)
    ensures n <= |evs|
  {
    if evs == [] then 0 else (if evs[0] == x then 1 else 0) + Count(evs[1..], x)
  }

  /** An event occurs in a log exactly when it is counted there. */
  lemma {:induction false} CountMember(evs: seq<Event>, x: Event)
    ensures Count(evs, x) > 0 <==> x in evs
    decreases |evs|
  {
    if evs != [] {
      CountMember(evs[1..], x);
      assert evs == [evs[0]] + evs[1..];
    }
  }

  /** Counting distributes over concatenation. */
  lemma {:induction false} CountAppend(a: seq<Event>, b: seq<Event>, x: Event)
    ensures Count(a + b, x) == Count(a, x) + Count(b, x)
    decreases |a|
  {
    if a == [] {
      assert a + b == b;
    } else {
      assert (a + b)[1..] == a[1..] + b;
      CountAppend(a[1..], b, x);
    }
  }

  // How often one iteration emits each kind of event.

  lemma EmittedStartCount(selected: Option<nat>, i: nat, hit: bool, grab: bool, j: nat)
    ensures Count(Emitted(selected, i, hit, grab), DragStart(j)) == if j == i && hit && grab && selected.None? then 1 else 0
  {
    var e := Emitted(selected, i, hit, grab);
    if e != [] {
      if |e| == 2 { assert e[1..][1..] == []; }
      assert e[1..] == [] || e[1..] == [CollisionOn(i)];
    }
  }

  lemma EmittedOnCount(selected: Option<nat>, i: nat, hit: bool, grab: bool, j: nat)
    ensures Count(Emitted(selected, i, hit, grab), CollisionOn(j)) == if j == i && hit then 1 else 0
  {
    var e := Emitted(selected, i, hit, grab);
    if e != [] {
      if |e| == 2 { assert e[1..][1..] == []; }
      assert e[1..] == [] || e[1..] == [CollisionOn(i)];
    }
  }

  lemma EmittedOffCount(selected: Option<nat>, i: nat, hit: bool, grab: bool)
    ensures Count(Emitted(selected, i, hit, grab), CollisionOff) == if !hit && selected.None? then 1 else 0
  {
    var e := Emitted(selected, i, hit, grab);
    if e != [] {
      if |e| == 2 { assert e[1..][1..] == []; }
      assert e[1..] == [] || e[1..] == [CollisionOn(i)];
    }
  }

  // One more iteration adds its own events to each count. The inductions
  // below see the step only through these, which keeps the solver away from
  // the body of `Emitted`.

  lemma LogOffStep(selected: Option<nat>, hits: seq<bool>, grab: bool, k: nat)
    requires 0 < k <= |hits|
    ensures Count(Log(selected, hits, grab, k), CollisionOff)
         == Count(Log(selected, hits, grab, k - 1), CollisionOff)
          + (if !hits[k - 1] && SelectionAfter(selected, hits, grab, k - 1).None? then 1 else 0)
  {
    var before := SelectionAfter(selected, hits, grab, k - 1);
    CountAppend(Log(selected, hits, grab, k - 1), Emitted(before, k - 1, hits[k - 1], grab), CollisionOff);
    EmittedOffCount(before, k - 1, hits[k - 1], grab);
  }

  lemma LogOnStep(selected: Option<nat>, hits: seq<bool>, grab: bool, k: nat, j: nat)
    requires 0 < k <= |hits|
    ensures Count(Log(selected, hits, grab, k), CollisionOn(j))
         == Count(Log(selected, hits, grab, k - 1), CollisionOn(j)) + (if j == k - 1 && hits[k - 1] then 1 else 0)
  {
    var before := SelectionAfter(selected, hits, grab, k - 1);
    CountAppend(Log(selected, hits, grab, k - 1), Emitted(before, k - 1, hits[k - 1], grab), CollisionOn(j));
    EmittedOnCount(before, k - 1, hits[k - 1], grab, j);
  }

  lemma LogStartStep(selected: Option<nat>, hits: seq<bool>, grab: bool, k: nat, j: nat)
    requires 0 < k <= |hits|
    ensures Count(Log(selected, hits, grab, k), DragStart(j))
         == Count(Log(selected, hits, grab, k - 1), DragStart(j))
          + (if j == k - 1 && hits[k - 1] && grab && SelectionAfter(selected, hits, grab, k - 1).None? then 1 else 0)
  {
    var before := SelectionAfter(selected, hits, grab, k - 1);
    CountAppend(Log(selected, hits, grab, k - 1), Emitted(before, k - 1, hits[k - 1], grab), DragStart(j));
    EmittedStartCount(before, k - 1, hits[k - 1], grab, j);
  }

  // Each induction closes through an arithmetic step on plain numbers.

  lemma StepSum(total: nat, prev: nat, step: nat, target: nat, targetPrev: nat)
    requires total == prev + step && prev == targetPrev && target == targetPrev + step
    ensures total == target
  {
  }

  /** The first `k` iterations emit as many 'collision off' events as
      `OffCount` says. */
  lemma {:induction false} LogCollisionOff(selected: Option<nat>, hits: seq<bool>, grab: bool, k: nat)
    requires k <= |hits|
    ensures Count(Log(selected, hits, grab, k), CollisionOff) == OffCount(selected, hits, grab, k)
    decreases k
  {
    if k > 0 {
      LogCollisionOff(selected, hits, grab, k - 1);
      LogOffStep(selected, hits, grab, k);
      StepSum(Count(Log(selected, hits, grab, k), CollisionOff), Count(Log(selected, hits, grab, k - 1), CollisionOff),
              if !hits[k - 1] && SelectionAfter(selected, hits, grab, k - 1).None? then 1 else 0,
              OffCount(selected, hits, grab, k), OffCount(selected, hits, grab, k - 1));
    } else {
      assert Log(selected, hits, grab, 0) == [];
    }
  }

  /** The first `k` iterations emit exactly one 'collision on' for each hit
      object among them, and none for any other object. */
  lemma {:induction false} LogCollisionOn(selected: Option<nat>, hits: seq<bool>, grab: bool, k: nat, j: nat)
    requires k <= |hits|
    ensures Count(Log(selected, hits, grab, k), CollisionOn(j)) == if j < k && hits[j] then 1 else 0
    decreases k
  {
    if k > 0 {
      LogCollisionOn(selected, hits, grab, k - 1, j);
      LogOnStep(selected, hits, grab, k, j);
      StepSum(Count(Log(selected, hits, grab, k), CollisionOn(j)), Count(Log(selected, hits, grab, k - 1), CollisionOn(j)),
              if j == k - 1 && hits[k - 1] then 1 else 0,
              if j < k && hits[j] then 1 else 0, if j < k - 1 && hits[j] then 1 else 0);
    } else {
      assert Log(selected, hits, grab, 0) == [];
    }
  }

  /** While something is selected the loop starts no drag. */
  lemma {:induction false} LogNoDragStart(selected: Option<nat>, hits: seq<bool>, grab: bool, k: nat, j: nat)
    requires k <= |hits| && selected.Some?
    ensures Count(Log(selected, hits, grab, k), DragStart(j)) == 0
    decreases k
  {
    if k > 0 {
      LogNoDragStart(selected, hits, grab, k - 1, j);
      SelectionKept(selected, hits, grab, k - 1);
      LogStartStep(selected, hits, grab, k, j);
      StepSum(Count(Log(selected, hits, grab, k), DragStart(j)), Count(Log(selected, hits, grab, k - 1), DragStart(j)),
              if j == k - 1 && hits[k - 1] && grab && SelectionAfter(selected, hits, grab, k - 1).None? then 1 else 0,
              0, 0);
    } else {
      assert Log(selected, hits, grab, 0) == [];
    }
  }

  lemma FreshStartArith(total: nat, earlier: nat, before: Option<nat>, after: Option<nat>, hit: bool, grab: bool, i: nat, j: nat)
    requires after == if grab && before.None? && hit then Some(i) else before
    requires earlier == if before == Some(j) then 1 else 0
    requires total == earlier + if j == i && hit && grab && before.None? then 1 else 0
    ensures total == if after == Some(j) then 1 else 0
  {
  }

  /** With nothing selected at first, the loop starts a drag of object `j`
      exactly when it selected `j`. */
  lemma {:induction false} LogFreshDragStart(selected: Option<nat>, hits: seq<bool>, grab: bool, k: nat, j: nat)
    requires k <= |hits| && selected.None?
    ensures Count(Log(selected, hits, grab, k), DragStart(j))
         == if SelectionAfter(selected, hits, grab, k) == Some(j) then 1 else 0
    decreases k
  {
    if k > 0 {
      LogFreshDragStart(selected, hits, grab, k - 1, j);
      LogStartStep(selected, hits, grab, k, j);
      FreshStartArith(Count(Log(selected, hits, grab, k), DragStart(j)), Count(Log(selected, hits, grab, k - 1), DragStart(j)),
                      SelectionAfter(selected, hits, grab, k - 1), SelectionAfter(selected, hits, grab, k),
                      hits[k - 1], grab, k - 1, j);
    } else {
      assert Log(selected, hits, grab, 0) == [];
    }
  }

  /** The first `k` iterations emit a 'drag_start' for object `j` exactly
      once when they took the selection for it, and never otherwise. */
  lemma {:induction false} LogDragStart(selected: Option<nat>, hits: seq<bool>, grab: bool, k: nat, j: nat)
    requires k <= |hits|
    ensures Count(Log(selected, hits, grab, k), DragStart(j))
         == if selected.None? && SelectionAfter(selected, hits, grab, k) == Some(j) then 1 else 0
  {
    if selected.Some? {
      LogNoDragStart(selected, hits, grab, k, j);
    } else {
      LogFreshDragStart(selected, hits, grab, k, j);
    }
  }

  /** The first `k` iterations emit one event per hit object, one 'collision
      off' per object `OffCount` counts, and one more when they take the
      selection. */
  lemma {:induction false} LogLength(selected: Option<nat>, hits: seq<bool>, grab: bool, k: nat)
    requires k <= |hits|
    ensures |Log(selected, hits, grab, k)|
         == HitCount(hits, k) + OffCount(selected, hits, grab, k)
          + (if SelectionAfter(selected, hits, grab, k) != selected then 1 else 0)
    decreases k
  {
    if k > 0 {
      LogLength(selected, hits, grab, k - 1);
      SelectionAfterClosed(selected, hits, grab, k - 1);
    }
  }

  /** The loop dispatches collision and 'drag_start' events only, each
      naming one of the objects visited so far. */
  lemma {:induction false} LogKinds(selected: Option<nat>, hits: seq<bool>, grab: bool, k: nat)
    requires k <= |hits|
    ensures forall e :: e in Log(selected, hits, grab, k) ==>
      && (e.CollisionOn? || e.CollisionOff? || e.DragStart?)
      && (e.CollisionOn? || e.DragStart? ==> e.index < k)
    decreases k
  {
    if k > 0 {
      LogKinds(selected, hits, grab, k - 1);
    }
  }

  /** One iteration's 'collision on', if any, is its last event and names
      the object visited. */
  lemma EmittedCollisionOnLast(selected: Option<nat>, i: nat, hit: bool, grab: bool, n: nat)
    requires n < |Emitted(selected, i, hit, grab)| && Emitted(selected, i, hit, grab)[n].CollisionOn?
    ensures Emitted(selected, i, hit, grab)[n] == CollisionOn(i)
    ensures n == |Emitted(selected, i, hit, grab)| - 1
  {
  }

  /** The 'collision on' events of a log name their objects in increasing
      order. */
  predicate CollisionOnInOrder(evs: seq<Event>)
  {
    forall a, b :: 0 <= a < b < |evs| && evs[a].CollisionOn? && evs[b].CollisionOn? ==> evs[a].index < evs[b].index
  }

  /** The 'collision on' events of the first `k` iterations come in array
      order. */
  lemma {:induction false} LogCollisionOrder(selected: Option<nat>, hits: seq<bool>, grab: bool, k: nat)
    requires k <= |hits|
    ensures CollisionOnInOrder(Log(selected, hits, grab, k))
    decreases k
  {
    if k > 0 {
      var before := SelectionAfter(selected, hits, grab, k - 1);
      var earlier := Log(selected, hits, grab, k - 1);
      var now := Emitted(before, k - 1, hits[k - 1], grab);
      var log := earlier + now;
      LogCollisionOrder(selected, hits, grab, k - 1);
      LogKinds(selected, hits, grab, k - 1);
      forall a, b | 0 <= a < b < |log| && log[a].CollisionOn? && log[b].CollisionOn?
        ensures log[a].index < log[b].index
      {
        if b < |earlier| {
          assert log[a] == earlier[a] && log[b] == earlier[b];
        } else if a < |earlier| {
          assert log[a] in earlier;
          assert log[b] == now[b - |earlier|];
          EmittedCollisionOnLast(before, k - 1, hits[k - 1], grab, b - |earlier|);
        } else {
          assert false;
        }
      }
    }
  }

  /** The drag follow after the loop: with a grabbing hand the selected
      object moves 0.3 of the way to the cursor; nothing else moves. */
  function Follow(objects: seq<Draggable>, selected: Option<nat>, grab: bool, cursor: Vec3): (r: seq<Draggable>)
    requires selected.Some? ==> selected.value < |objects|
    ensures |r| == |objects|
    ensures forall j :: 0 <= j < |objects| && !(grab && selected == Some(j)) ==> r[j] == objects[j]
    ensures grab && selected.Some? ==>
      var p := objects[selected.value].position;
      var q := r[selected.value].position;
      r[selected.value] == objects[selected.value].(position := q)
      && DistSq(p, q) == Sq(FollowFactor) * DistSq(p, cursor)
      && DistSq(q, cursor) == Sq(1.0 - FollowFactor) * DistSq(p, cursor)
  {
    if grab && selected.Some? then
      var o := objects[selected.value];
      objects[selected.value := o.(position := Lerp(o.position, cursor, FollowFactor))]
    else objects
  }

  /** One `animate` pass: nothing at all without a cursor; otherwise the
      loop over all objects, then the drag follow. */
  function AnimatePass(s: Scene, hits: seq<bool>, grab: bool, cursor: Option<Vec3>): (r: Scene)
    requires |hits| == |s.objects| && SelectionInRange(s)
    ensures cursor.None? ==> r == s
    ensures |r.objects| == |s.objects| && SelectionInRange(r)
  {
    if cursor.None? then s
    else
      var swept := Sweep(s, hits, grab, |hits|);
      Scene(Follow(swept.objects, swept.selected, grab, cursor.value), swept.selected, swept.events)
  }

  /** After a pass with a cursor every object shows the opacity of its own
      intersection test, carries `hasCollision` once it has intersected
      (the flag is never cleared), and keeps its position unless it is the
      selected object under a grabbing hand, which follows the cursor. */
  lemma AnimateObjects(s: Scene, hits: seq<bool>, grab: bool, cursor: Vec3)
    requires |hits| == |s.objects| && SelectionInRange(s)
    ensures var r := AnimatePass(s, hits, grab, Some(cursor));
      forall j :: 0 <= j < |s.objects| ==>
        && r.objects[j].opacity == (if hits[j] then HitOpacity else RestOpacity)
        && r.objects[j].hasCollision == (s.objects[j].hasCollision || hits[j])
        && (s.objects[j].hasCollision ==> r.objects[j].hasCollision)
        && r.objects[j].position
           == if grab && r.selected == Some(j)
              then Lerp(s.objects[j].position, cursor, FollowFactor)
              else s.objects[j].position
  {
    SweepObjects(s, hits, grab, |hits|);
  }

  /** Across one pass the selection changes at most once: only from nothing,
      only under a grabbing hand, and only to the first object that
      intersects the cursor; exactly one 'drag_start' is emitted for it
      then, and none for any other object. A grabbing hand over some object
      with nothing selected always selects. */
  lemma AnimateSelection(s: Scene, hits: seq<bool>, grab: bool, cursor: Vec3)
    requires |hits| == |s.objects| && SelectionInRange(s)
    ensures var r := AnimatePass(s, hits, grab, Some(cursor));
      && (r.selected != s.selected ==>
            s.selected.None? && grab && r.selected.Some? && hits[r.selected.value]
            && forall i :: 0 <= i < r.selected.value ==> !hits[i])
      && (forall j: nat :: Count(r.events, DragStart(j))
                   == Count(s.events, DragStart(j)) + (if r.selected != s.selected && r.selected == Some(j) then 1 else 0))
      && (s.selected.None? && grab && (exists j :: 0 <= j < |hits| && hits[j]) ==> r.selected.Some?)
  {
    var log := Log(s.selected, hits, grab, |hits|);
    SweepSelection(s, hits, grab, |hits|);
    SelectionAfterClosed(s.selected, hits, grab, |hits|);
    SweepLog(s, hits, grab, |hits|);
    forall j: nat
      ensures Count(s.events + log, DragStart(j)) == Count(s.events, DragStart(j)) + Count(log, DragStart(j))
    {
      CountAppend(s.events, log, DragStart(j));
    }
    forall j: nat
      ensures Count(log, DragStart(j))
           == if s.selected.None? && SelectionAfter(s.selected, hits, grab, |hits|) == Some(j) then 1 else 0
    {
      LogDragStart(s.selected, hits, grab, |hits|, j);
    }
  }

  /** The collision events of one pass: exactly one 'collision on' for every
      object that intersects the cursor and none for any other; a
      'collision off' for each missed object while nothing is selected, and
      none once something is; no other events besides 'drag_start'.
      Earlier events are kept. */
  lemma AnimateCollisionEvents(s: Scene, hits: seq<bool>, grab: bool, cursor: Vec3)
    requires |hits| == |s.objects| && SelectionInRange(s)
    ensures var r := AnimatePass(s, hits, grab, Some(cursor));
      && s.events <= r.events
      && (forall j: nat :: Count(r.events, CollisionOn(j))
                   == Count(s.events, CollisionOn(j)) + (if j < |hits| && hits[j] then 1 else 0))
      && Count(r.events, CollisionOff) == Count(s.events, CollisionOff) + OffCount(s.selected, hits, grab, |hits|)
      && (s.selected.Some? ==> OffCount(s.selected, hits, grab, |hits|) == 0)
      && (s.selected.None? && !grab ==> OffCount(s.selected, hits, grab, |hits|) == |hits| - HitCount(hits, |hits|))
      && |r.events| == |s.events| + HitCount(hits, |hits|) + OffCount(s.selected, hits, grab, |hits|)
                       + (if r.selected != s.selected then 1 else 0)
      && forall n :: |s.events| <= n < |r.events| ==>
           r.events[n].CollisionOn? || r.events[n].CollisionOff? || r.events[n].DragStart?
  {
    var log := Log(s.selected, hits, grab, |hits|);
    SweepLog(s, hits, grab, |hits|);
    SweepSelection(s, hits, grab, |hits|);
    forall j: nat
      ensures Count(s.events + log, CollisionOn(j)) == Count(s.events, CollisionOn(j)) + Count(log, CollisionOn(j))
    {
      CountAppend(s.events, log, CollisionOn(j));
    }
    forall j: nat
      ensures Count(log, CollisionOn(j)) == if j < |hits| && hits[j] then 1 else 0
    {
      LogCollisionOn(s.selected, hits, grab, |hits|, j);
    }
    CountAppend(s.events, log, CollisionOff);
    LogCollisionOff(s.selected, hits, grab, |hits|);
    LogLength(s.selected, hits, grab, |hits|);
    OffCountClosed(s.selected, hits, grab, |hits|);
    LogKinds(s.selected, hits, grab, |hits|);
    var r := AnimatePass(s, hits, grab, Some(cursor));
    forall n | |s.events| <= n < |r.events|
      ensures r.events[n].CollisionOn? || r.events[n].CollisionOff? || r.events[n].DragStart?
    {
      assert r.events[n] == log[n - |s.events|];
    }
  }

  /** The 'collision on' events one pass dispatches come in array order. */
  lemma AnimateCollisionOrder(s: Scene, hits: seq<bool>, grab: bool, cursor: Vec3)
    requires |hits| == |s.objects| && SelectionInRange(s)
    ensures var r := AnimatePass(s, hits, grab, Some(cursor));
      s.events <= r.events && CollisionOnInOrder(r.events[|s.events|..])
  {
    SweepLog(s, hits, grab, |hits|);
    LogCollisionOrder(s.selected, hits, grab, |hits|);
    var r := AnimatePass(s, hits, grab, Some(cursor));
    assert r.events[|s.events|..] == Log(s.selected, hits, grab, |hits|);
  }
}

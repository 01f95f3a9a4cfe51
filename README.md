# HandControls in Dafny

A Dafny model of `HandControls`, the class behind mix_hand's hand-tracking
3D controls. It turns each MediaPipe Hands result into a cursor position and
a fist gesture (`update`). It then tests every draggable object against the
cursor once per rendered frame, to drive collision highlighting, selection and
dragging (`animate`).

The project has five modules:

- `Wrappers`: `Option`.
- `Geometry`: the vector arithmetic over exact reals.
  - The landmark remap `(-x + 0.5, -y + 0.5, -z) * 4`.
  - Squared distances.
  - `Vector3.lerp`, `MathUtils.mapLinear` and `MathUtils.clamp`.
  - `to2D`, the viewport mapping.
- `Gesture`: what `update` derives from one hand.
  - The stored steering landmarks 0, 10, 9 and 12 (`gestureCompute`).
  - The closed-fist test `distance(9, 12) < 0.35`.
  - The cursor depth `clamp(mapLinear(separation, 0, 1000, -3, 5), -2, 4)`.
  - The cursor position `(from.x, from.y, -depthZ)`.
- `Interaction`: `animate` stated on values.
  - One loop iteration is `Visit`, and the loop is the left fold `Sweep`.
  - The drag follow is `Follow`, and a whole pass is `AnimatePass`.
  - The events the loop dispatches are given in closed form by `Log`.
  - Lemmas derive the pass's effect on objects, the selection and the event log.
- `Controls`: the class `HandControls`.
  - Fields `target`, `objects` (an array updated in place), `isDraggable`, `renderer`, `closedFist`, `depthZ`, `selected`, `pose`, the reference positions, and the log of dispatched events.
  - Methods for the constructor, `update`, `animate`, the `drag_end` callback and the refresh of world matrices by a render.
  - `Animate` is proved equal to `AnimatePass` on the state it changes. `Update`'s contract gives each of its paths.

Behaviour the model keeps as the code has it:

- **Fist events are named backwards.** An open hand (no fist) dispatches 'closed_fist' and then 'drag_end'.
  - 'drag_end' carries the current selection and a callback that clears it.
  - A fist clears the selection at once and dispatches 'opened_fist'.
- **`hasCollision` is sticky.** The constructor clears it, `animate` sets it on a hit, and nothing ever resets it.
- **'collision off' is conditional.** A missed object dispatches it only while nothing is selected at that point in the loop.
- **A drag starts only under a grabbing hand.** It needs `closedFist && isDraggable`, nothing selected, and an object that intersects the cursor. Only the first such object in array order is taken.
- **The depth lags one frame.** `to2D` reads the reference objects' `matrixWorld`. Only rendering refreshes it (`src/js/ScenesManager.js:86-90` renders after `update` and `animate`). So the depth comes from the reference positions of the frame last rendered.
  - The model stores those positions in `refFromWorld` and `refToWorld`, and `RenderReferences` copies them.
  - `Update` demands that its `separation` argument be the screen distance of exactly those positions.
- **`update` throws part-way through.** It can raise a `TypeError` in four places, and each path keeps the writes made before the throw:
  - once `show3DLandmark` has created the landmark spheres (`src/js/index.js:122-124`), a hand with fewer than 21 landmarks, in the sphere loop before any modelled write;
  - a hand lacking one of the landmarks 0, 10, 9, 12;
  - `to2D` returning `undefined` when there is no renderer;
  - a missing cursor object.

  The landmarks are read in the order 0, 10, 9, 12. So landmark 9 is stored only from a hand that also has landmark 10.
- **`update()` without an argument is a no-op.** `ScenesManager.render` calls it that way, and a result without exactly one hand changes nothing.
- **No cursor, no pass.** `animate` with no cursor object changes nothing.

## Model

| member | source | states |
|---|---|---|
| Geometry.Remap | src/js/HandControls.js:134-161 | the remap of a landmark is undone by `Unremap`, and the landmark (0.5, 0.5, 0) lands on the origin |
| Geometry.DistSq | src/js/HandControls.js:185-187 | the squared distance behind `distanceTo` is never negative and is zero between equal points |
| Geometry.DistSq2 | src/js/HandControls.js:199 | the same for the two screen points of the depth computation |
| Geometry.Lerp | src/js/HandControls.js:269 | `lerp` by 0 stays and by 1 reaches the target; the distance travelled is `alpha` times the distance to the target and the distance left is `1 - alpha` times it (squared) |
| Geometry.MapLinear | src/js/HandControls.js:201 | `mapLinear` is the affine map sending `a1` to `b1` and `a2` to `b2` |
| Geometry.Clamp | src/js/HandControls.js:200-204 | `clamp` lies between its bounds, is the identity inside them and gives the nearer bound outside; with reversed bounds it gives the lower one, as `Math.max(lo, Math.min(hi, x))` does |
| Geometry.To2D | src/js/HandControls.js:84-100 | `to2D` is absent exactly when there is no renderer; otherwise x = -1..1 is sent onto 0..width and y = 1..-1 onto 0..height, with the exact affine equations |
| Geometry.To2DInvertible | src/js/HandControls.js:97-100 | on a canvas of non-zero size the screen point determines the world x and y |
| Geometry.To2DOnCanvas | src/js/HandControls.js:97-100 | device coordinates in -1..1 land inside the canvas |
| Geometry.RemapScalesDistance | src/js/HandControls.js:148-161 | remapping scales every squared distance by 16 |
| Geometry.ScreenSeparation | src/js/HandControls.js:191-199 | the squared screen distance of two projected points is their x and y offsets scaled by half the canvas width and height |
| Gesture.HasOneHand | src/js/HandControls.js:120 | `update` without a result does nothing, and one it goes on with holds the hand it reads |
| Gesture.IsClosedFist | src/js/HandControls.js:185-188 | the fist test on the stored landmarks 9 and 12: coinciding points are a fist, and a fist has each axis' squared separation below 0.35² |
| Gesture.ReadPose | src/js/HandControls.js:134-161 | all four steering landmarks are read exactly when the hand has more than 12 landmarks, and each stored vector remaps its landmark |
| Gesture.WritePose | src/js/HandControls.js:134-161 | the stored vectors after a read that may stop at the first missing landmark: a complete hand stores `ReadPose`; a shorter one updates only the vectors read before the missing landmark |
| Gesture.FistByDistance | src/js/HandControls.js:185-188 | the squared fist test holds exactly when the true distance between landmarks 9 and 12 is below 0.35 |
| Gesture.FistOnRawLandmarks | src/js/HandControls.js:148-161 | on raw landmarks the fist test is a squared distance below 0.35² / 16 |
| Gesture.Depth | src/js/HandControls.js:199-204 | the depth lies in [-2, 4], is -2 for separations up to 125 and 4 from 875 on, and follows `mapLinear` in between |
| Gesture.DepthMonotone | src/js/HandControls.js:199-204 | a larger separation never gives a smaller depth |
| Gesture.CursorPosition | src/js/HandControls.js:206-210 | the cursor sits under landmark 9 at z = -depthZ, so a depth in [-2, 4] puts it in [-4, 2] |
| Gesture.CoincidentReferencesDepth | src/js/HandControls.js:191-204 | reference objects at the same screen position give the nearest depth, -2 |
| Interaction.Visit | src/js/HandControls.js:239-265 | one iteration changes only the visited object, to `Visited`; it changes the selection exactly on a hit under a grabbing hand with nothing selected, and then to that object; it keeps the selection in range and appends exactly `Emitted` to the events |
| Interaction.Visited | src/js/HandControls.js:241-257 | the visited object is dimmed below full opacity exactly on a hit (0.4 against 1), gains `hasCollision` on a hit and keeps it otherwise, and keeps its position |
| Interaction.EmittedEvents | src/js/HandControls.js:243-264 | one iteration dispatches at most two events: a 'drag_start' exactly when it selects the object, and then followed by 'collision on'; 'collision on' exactly on a hit; 'collision off' exactly on a miss with nothing selected |
| Interaction.Sweep | src/js/HandControls.js:238-265 | the loop keeps the number of objects and keeps the selection in range |
| Interaction.FirstHit | src/js/HandControls.js:238-243 | the first intersecting object: it intersects and no earlier one does, or no object does |
| Interaction.SelectionAfterClosed | src/js/HandControls.js:243-245 | after the loop an existing selection stays; otherwise a grabbing hand has taken the first intersecting object, and an open one nothing |
| Interaction.SelectionKept | src/js/HandControls.js:243 | an existing selection is never replaced |
| Interaction.OffCountClosed | src/js/HandControls.js:256-264 | the number of 'collision off' events: none while something is selected; under a grabbing hand, the objects before the first hit; otherwise every missed object |
| Interaction.SweepObjects | src/js/HandControls.js:241-258 | each visited object changes only in opacity (0.4 on a hit, 1 on a miss) and `hasCollision` (set on a hit, never cleared); unvisited objects are untouched |
| Interaction.SweepSelection | src/js/HandControls.js:243-245 | the selection at each point of the loop is `SelectionAfter` |
| Interaction.SweepLog | src/js/HandControls.js:244-264 | the loop only appends to the event log, and appends `Log` |
| Interaction.EmittedStartCount | src/js/HandControls.js:243-249 | one iteration dispatches a 'drag_start' only for its own object, on a hit under a grabbing hand with nothing selected, and then exactly one |
| Interaction.EmittedOnCount | src/js/HandControls.js:250-254 | one iteration dispatches exactly one 'collision on', for its own object, on a hit, and none on a miss |
| Interaction.EmittedOffCount | src/js/HandControls.js:256-264 | one iteration dispatches one 'collision off' exactly on a miss with nothing selected |
| Interaction.LogCollisionOff | src/js/HandControls.js:256-264 | the loop dispatches exactly `OffCount` 'collision off' events |
| Interaction.LogCollisionOn | src/js/HandControls.js:250-254 | the loop dispatches exactly one 'collision on' for each intersecting object and none for any other |
| Interaction.LogDragStart | src/js/HandControls.js:243-249 | the loop dispatches one 'drag_start' for an object exactly when it took the selection for it, and none otherwise |
| Interaction.LogNoDragStart | src/js/HandControls.js:243 | while something is selected the loop dispatches no 'drag_start' |
| Interaction.LogFreshDragStart | src/js/HandControls.js:243-249 | with nothing selected at first, the loop dispatches one 'drag_start' for an object exactly when it selected that object |
| Interaction.LogLength | src/js/HandControls.js:241-264 | the loop dispatches one event per hit, one per counted miss, and one more when it takes the selection |
| Interaction.LogKinds | src/js/HandControls.js:241-264 | the loop dispatches only collision and 'drag_start' events, each naming an object already visited |
| Interaction.LogCollisionOrder | src/js/HandControls.js:238-254 | the loop's 'collision on' events name their objects in array order |
| Interaction.Follow | src/js/HandControls.js:267-270 | under a grabbing hand with a selection only the selected object moves, 0.3 of the way to the cursor; otherwise nothing moves |
| Interaction.AnimatePass | src/js/HandControls.js:234-272 | without a cursor a pass changes nothing; with one it keeps the number of objects and the selection in range |
| Interaction.AnimateObjects | src/js/HandControls.js:241-270 | after a pass every object shows the opacity of its own intersection test; `hasCollision` is set on a hit and never cleared; only the selected object under a grabbing hand moves, by `lerp(cursor, 0.3)` |
| Interaction.AnimateSelection | src/js/HandControls.js:241-249 | across a pass the selection changes at most once: only from nothing, only under a grabbing hand, only to the first intersecting object; exactly one 'drag_start' is dispatched for it and none for any other object; a grabbing hand over an object with nothing selected always selects |
| Interaction.AnimateCollisionEvents | src/js/HandControls.js:250-264 | the events of a pass: earlier ones kept; one 'collision on' per intersecting object, none for the others; the 'collision off' count (none while something is selected, every miss for an open hand); the total count; only collision and 'drag_start' events |
| Interaction.AnimateCollisionOrder | src/js/HandControls.js:238-254 | a pass dispatches its 'collision on' events in array order |
| Controls.HandControls.constructor | src/js/HandControls.js:15-43 | stores the cursor, objects, renderer and drag flag; clears every object's `hasCollision` and changes nothing else of it; no selection, no events, origin vectors |
| Controls.HandControls.Update | src/js/HandControls.js:119-231 | no change without exactly one hand; a throw and no change when the spheres exist and the hand has fewer than 21 landmarks; otherwise, per path, the stored vectors, the fist test, the reference positions, the depth and the cursor, with the selection and events of both fist branches, or the step that throws and the state it leaves |
| Controls.HandControls.UpdateHand | src/js/HandControls.js:134-231 | the body of `update` after the sphere loop: per path, the stored vectors, the fist test, the reference positions, the depth and the cursor, with the selection and events of both fist branches, or the step that throws and the state it leaves |
| Controls.HandControls.Show3DLandmark | src/js/HandControls.js:71-80 | after `show3DLandmark` the landmark spheres exist, so later `update` calls run the sphere loop |
| Controls.HandControls.StorePose | src/js/HandControls.js:134-161 | the stored vectors become `WritePose`, and the read completes exactly when `ReadPose` succeeds |
| Controls.HandControls.DispatchFistEvents | src/js/HandControls.js:212-229 | an open hand keeps the selection and appends 'closed_fist' then 'drag_end' with it; a fist clears the selection and appends 'opened_fist' |
| Controls.HandControls.Animate | src/js/HandControls.js:234-272 | the objects, selection and events after `animate` are `AnimatePass` of those before |
| Controls.HandControls.VisitObjects | src/js/HandControls.js:238-265 | the objects, selection and events after the loop are `Sweep` of those before |
| Controls.HandControls.VisitObject | src/js/HandControls.js:239-265 | one iteration in place is `Visit` of the state before |
| Controls.HandControls.FollowCursor | src/js/HandControls.js:267-270 | the objects after the drag follow are `Follow` of those before |
| Controls.HandControls.DragEndCallback | src/js/HandControls.js:220-222 | the 'drag_end' callback clears the selection |
| Controls.HandControls.RenderReferences | src/js/ScenesManager.js:86-90 | rendering makes the world positions of the reference objects their current positions |

## Left out

- Rotation: the hand's rotation quaternion, `Matrix4.makeBasis`, `setFromRotationMatrix` and the `slerp` of the selected object are floating-point rotation code in Three.js. The rotation of an object feeds its box intersection test, and, like its position, it is hidden behind the `hits` input of `Animate`.
- The `palmPlane` debug mesh, `createHand`, the sphere material's opacity set by `show3DLandmark`, and the positions the sphere loop in `update` writes are scene-graph state that nothing reads back. The loop's throw on a hand with fewer than 21 landmarks is modelled; the sphere positions it writes before that throw are not.
- `loadModel`: asynchronous GLTF loading. The cursor is a constructor argument, and a later replacement is not modelled.
- `scene.add`, `console.error`, the camera, `distanceToGrab` and `pointsDist` (never read), and the scratch vectors `depthPointA` and `depthPointB` (their distance is `update`'s `separation`): these are I/O or write-only state.
- Event dispatch is an append to `events`. Listeners and `THREE.EventDispatcher` are not modelled. Events name objects by their index, and 'drag_end' carries the selection. Its callback is the separate method `DragEndCallback`, since a listener calls it (`src/js/index.js:129-131`).
- Box intersection: `Box3.setFromObject` and `intersectsBox` are replaced by the input `hits` of `Animate`, one flag per object. The test therefore is not tied to positions.
- `Update`'s `separation`: square roots are not available over reals. The pixel distance between the reference points is therefore a parameter of `Update`, tied to the last rendered reference positions by `IsSeparation` (its square is the squared screen distance).
- Floating point: all arithmetic is on exact reals. No rounding, NaN or infinity is modelled.
- Geometry.MapLinear: requires `a1 != a2` (Three.js would divide by zero). Its only use, in the depth computation, has `a1 = 0` and `a2 = 1000`.
- Geometry.DistSq: states only non-negativity and zero on equal points. Its relation to remapping and to the fist test is in `RemapScalesDistance` and `FistByDistance`.
- The view-projection matrix is always the identity here, so `to2D` reads world x and y as device coordinates.
- The canvas size is a constant of the object (`renderer`). A window resize between frames is not modelled.
- A present MediaPipe result always has `multiHandLandmarks`. A result missing that field would throw at the first test and is not modelled.
- Objects are values in an array, and the selection is an index. Aliasing between objects, or between an object and the cursor, is not modelled.
- `src/js/MediaPipeHands.js`, `pages/index.js` and the rest of `src/js/index.js` and `src/js/ScenesManager.js` are camera, DOM and scene wiring and are not part of this model.

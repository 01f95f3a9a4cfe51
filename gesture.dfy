/** What `HandControls.update` derives from one MediaPipe result: the four
    steering landmarks, the closed-fist test and the cursor depth. */
module Gesture {
  import opened Wrappers
  import opened Geometry

  /** A MediaPipe Hands result: `multiHandLandmarks`, one list of landmarks
      per detected hand. */
  datatype Results = Results(multiHandLandmarks: seq<seq<Vec3>>)

  /** The four remapped landmarks the controls steer by (`gestureCompute`). */
  datatype HandPose = HandPose(depthFrom: Vec3, depthTo: Vec3, from: Vec3, to: Vec3)

  /** Landmark indices: wrist, middle-finger PIP, middle-finger MCP and
      middle-finger tip. */
  const DepthFromIndex: nat := 0
  const DepthToIndex: nat := 10
  const FromIndex: nat := 9
  const ToIndex: nat := 12

  /** The number of landmarks MediaPipe reports per hand; the landmark
      spheres read all of them. */
  const HandLandmarkCount: nat := 21

  /** The hand counts as a closed fist when MCP and tip are closer than this. */
  const FistThreshold: real := 0.35

  /** `mapLinear` and `clamp` bounds of the depth computation. */
  const SeparationLow: real := 0.0
  const SeparationHigh: real := 1000.0
  const DepthLow: real := -3.0
  const DepthHigh: real := 5.0
  const DepthMin: real := -2.0
  const DepthMax: real := 4.0

  /** `update` does anything only for a result that is present and holds
      exactly one hand. */
  predicate HasOneHand(landmarks: Option<Results>): (r: bool)
    ensures landmarks.None? ==> !r
    ensures r ==> |landmarks.value.multiHandLandmarks| > 0
  {
    landmarks.Some? && |landmarks.value.multiHandLandmarks| == 1
  }

  /** The remapped steering landmarks of one hand; absent when the hand has
      too few landmarks (reading one of them would throw). */
  function ReadPose(hand: seq<Vec3>): (r: Option<HandPose>)
    ensures r.Some? <==> |hand| > ToIndex
    ensures r.Some? ==> Unremap(r.value.depthFrom) == hand[DepthFromIndex]
    ensures r.Some? ==> Unremap(r.value.depthTo) == hand[DepthToIndex]
    ensures r.Some? ==> Unremap(r.value.from) == hand[FromIndex]
    ensures r.Some? ==> Unremap(r.value.to) == hand[ToIndex]
  {
    if |hand| <= ToIndex then None
    else Some(HandPose(Remap(hand[DepthFromIndex]), Remap(hand[DepthToIndex]),
                       Remap(hand[FromIndex]), Remap(hand[ToIndex])))
  }

  /** `gestureCompute` after `update` has read what it could of one hand.
      The four landmarks are read in the order 0, 10, 9, 12, and reading a
      missing one throws, so a short hand leaves the later vectors as they
      were: landmark 9 is only taken from a hand that also has landmark 10. */
  function WritePose(prev: HandPose, hand: seq<Vec3>): (r: HandPose)
    ensures ReadPose(hand).Some? ==> r == ReadPose(hand).value
    ensures |hand| <= DepthFromIndex ==> r == prev
    ensures |hand| <= DepthToIndex ==> r.depthTo == prev.depthTo && r.from == prev.from && r.to == prev.to
    ensures |hand| <= ToIndex ==> r.to == prev.to
    ensures DepthFromIndex < |hand| ==> Unremap(r.depthFrom) == hand[DepthFromIndex]
    ensures DepthToIndex < |hand| ==> Unremap(r.depthTo) == hand[DepthToIndex] && Unremap(r.from) == hand[FromIndex]
  {
    if |hand| <= DepthFromIndex then prev
    else
      var p1 := prev.(depthFrom := Remap(hand[DepthFromIndex]));
      if |hand| <= DepthToIndex then p1
      else
        var p2 := p1.(depthTo := Remap(hand[DepthToIndex])).(from := Remap(hand[FromIndex]));
        if |hand| <= ToIndex then p2
        else p2.(to := Remap(hand[ToIndex]))
  }

  /** `pointsDist < 0.35`, stated on squared distances. */
  predicate IsClosedFist(from: Vec3, to: Vec3): (r: bool)
    ensures from == to ==> r
    ensures r ==> Sq(from.x - to.x) < Sq(FistThreshold) && Sq(from.y - to.y) < Sq(FistThreshold)
                  && Sq(from.z - to.z) < Sq(FistThreshold)
  {
    SquareNonNegative(from.x - to.x);
    SquareNonNegative(from.y - to.y);
    SquareNonNegative(from.z - to.z);
    DistSq(from, to) < Sq(FistThreshold)
  }

  /** The squared test agrees with the source's test on the true distance. */
  lemma FistByDistance(from: Vec3, to: Vec3, dist: real)
    requires dist >= 0.0 && Sq(dist) == DistSq(from, to)
    ensures IsClosedFist(from, to) <==> dist < FistThreshold
  {
    if dist < FistThreshold {
      MulAtMost(dist, FistThreshold, dist);
    } else {
      MulAtMost(FistThreshold, dist, dist);
    }
  }

  /** On raw landmarks the fist test is a distance below 0.35 / 4. */
  lemma FistOnRawLandmarks(mcp: Vec3, tip: Vec3)
    ensures IsClosedFist(Remap(mcp), Remap(tip)) <==> DistSq(mcp, tip) < Sq(FistThreshold) / Sq(LandmarkScale)
  {
    RemapScalesDistance(mcp, tip);
  }

  /** `clamp(mapLinear(separation, 0, 1000, -3, 5), -2, 4)`. */
  function Depth(separation: real): (z: real)
    ensures DepthMin <= z <= DepthMax
    ensures separation <= 125.0 ==> z == DepthMin
    ensures separation >= 875.0 ==> z == DepthMax
    ensures 125.0 <= separation <= 875.0 ==> 125.0 * (z - DepthLow) == separation
  {
    Clamp(MapLinear(separation, SeparationLow, SeparationHigh, DepthLow, DepthHigh), DepthMin, DepthMax)
  }

  /** Hands further apart on screen never give a smaller depth. */
  lemma DepthMonotone(d1: real, d2: real)
    requires d1 <= d2
    ensures Depth(d1) <= Depth(d2)
  {
  }

  /** `separation` is the pixel distance between the screen positions of the
      two reference points (`depthPointA.distanceTo(depthPointB)`). Square
      roots are not available over `real`, so the distance is characterised
      by its square. */
  predicate IsSeparation(separation: real, a: Vec3, b: Vec3, vp: Viewport)
  {
    separation >= 0.0
    && Sq(separation) == DistSq2(To2D(a, Some(vp)).value, To2D(b, Some(vp)).value)
  }

  /** Where `update` puts the cursor: under landmark 9, at depth `-depthZ`. */
  function CursorPosition(from: Vec3, depthZ: real): (p: Vec3)
    ensures DepthMin <= depthZ <= DepthMax ==> -DepthMax <= p.z <= -DepthMin
    ensures p.x == from.x && p.y == from.y && p.z + depthZ == 0.0
  {
    Vec3(from.x, from.y, -depthZ)
  }

  /** Two reference points at the same screen position (as before anything
      was rendered) give the nearest depth. */
  lemma CoincidentReferencesDepth(a: Vec3, vp: Viewport, separation: real)
    requires IsSeparation(separation, a, a, vp)
    ensures Depth(separation) == DepthMin
  {
    if separation > 125.0 {
      MulAtMost(125.0, separation, separation);
    }
  }
}

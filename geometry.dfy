/** Vector arithmetic used by the hand controls, over exact reals.
    Three.js `Vector3`, `MathUtils.mapLinear`, `MathUtils.clamp` and
    `Vector3.lerp` are replaced by the functions below. */
module Geometry {
  import opened Wrappers

  datatype Vec3 = Vec3(x: real, y: real, z: real)

  /** A screen position in pixels (the `{x, y}` object `to2D` returns). */
  datatype Point2 = Point2(x: real, y: real)

  /** The size of the renderer's canvas (`domElement.getBoundingClientRect()`). */
  datatype Viewport = Viewport(width: real, height: real)

  const Origin3: Vec3 := Vec3(0.0, 0.0, 0.0)

  /** Offset added to the mirrored x and y of a raw landmark. */
  const LandmarkOrigin: real := 0.5

  /** Factor by which a mirrored landmark is scaled into scene units. */
  const LandmarkScale: real := 4.0

  /** Scene position of a raw MediaPipe landmark: x and y mirrored about
      0.5, z negated, the whole scaled by 4. */
  function Remap(p: Vec3): (q: Vec3)
    ensures Unremap(q) == p
    ensures p == Vec3(LandmarkOrigin, LandmarkOrigin, 0.0) ==> q == Origin3
  {
    Vec3((-p.x + LandmarkOrigin) * LandmarkScale,
         (-p.y + LandmarkOrigin) * LandmarkScale,
         -p.z * LandmarkScale)
  }

  /** The raw landmark a scene position came from. */
  function Unremap(q: Vec3): Vec3
  {
    Vec3(LandmarkOrigin - q.x / LandmarkScale,
         LandmarkOrigin - q.y / LandmarkScale,
         -q.z / LandmarkScale)
  }

  function Sq(v: real): real { v * v }

  /** Squared Euclidean distance (the square of `Vector3.distanceTo`). */
  function DistSq(a: Vec3, b: Vec3): (d: real)
    ensures d >= 0.0
    ensures a == b ==> d == 0.0
  {
    SquareNonNegative(a.x - b.x);
    SquareNonNegative(a.y - b.y);
    SquareNonNegative(a.z - b.z);
    Sq(a.x - b.x) + Sq(a.y - b.y) + Sq(a.z - b.z)
  }

  /** Squared distance between two screen points (`Vector3.distanceTo` on
      points whose z stays 0). */
  function DistSq2(a: Point2, b: Point2): (d: real)
    ensures d >= 0.0
    ensures a == b ==> d == 0.0
  {
    SquareNonNegative(a.x - b.x);
    SquareNonNegative(a.y - b.y);
    Sq(a.x - b.x) + Sq(a.y - b.y)
  }

  /** `Vector3.lerp(v, alpha)`: move `p` the fraction `alpha` of the way to `t`. */
  function Lerp(p: Vec3, t: Vec3, alpha: real): (r: Vec3)
    ensures alpha == 0.0 ==> r == p
    ensures alpha == 1.0 ==> r == t
    ensures DistSq(p, r) == Sq(alpha) * DistSq(p, t)
    ensures DistSq(r, t) == Sq(1.0 - alpha) * DistSq(p, t)
  {
    LerpDistances(p, t, alpha);
    Vec3(p.x + (t.x - p.x) * alpha, p.y + (t.y - p.y) * alpha, p.z + (t.z - p.z) * alpha)
  }

  lemma LerpDistances(p: Vec3, t: Vec3, alpha: real)
    ensures var r := Vec3(p.x + (t.x - p.x) * alpha, p.y + (t.y - p.y) * alpha, p.z + (t.z - p.z) * alpha);
      DistSq(p, r) == Sq(alpha) * DistSq(p, t) && DistSq(r, t) == Sq(1.0 - alpha) * DistSq(p, t)
  {
    var r := Vec3(p.x + (t.x - p.x) * alpha, p.y + (t.y - p.y) * alpha, p.z + (t.z - p.z) * alpha);
    LerpNear(p, t, alpha, r);
    LerpFar(p, t, alpha, r);
  }

  lemma LerpNear(p: Vec3, t: Vec3, alpha: real, r: Vec3)
    requires r == Vec3(p.x + (t.x - p.x) * alpha, p.y + (t.y - p.y) * alpha, p.z + (t.z - p.z) * alpha)
    ensures DistSq(p, r) == Sq(alpha) * DistSq(p, t)
  {
    LerpAxis(p.x, t.x, alpha);
    LerpAxis(p.y, t.y, alpha);
    LerpAxis(p.z, t.z, alpha);
    ScaledSum(Sq(alpha), Sq(p.x - t.x), Sq(p.y - t.y), Sq(p.z - t.z),
              Sq(p.x - r.x), Sq(p.y - r.y), Sq(p.z - r.z));
  }

  lemma LerpFar(p: Vec3, t: Vec3, alpha: real, r: Vec3)
    requires r == Vec3(p.x + (t.x - p.x) * alpha, p.y + (t.y - p.y) * alpha, p.z + (t.z - p.z) * alpha)
    ensures DistSq(r, t) == Sq(1.0 - alpha) * DistSq(p, t)
  {
    LerpAxis(p.x, t.x, alpha);
    LerpAxis(p.y, t.y, alpha);
    LerpAxis(p.z, t.z, alpha);
    ScaledSum(Sq(1.0 - alpha), Sq(p.x - t.x), Sq(p.y - t.y), Sq(p.z - t.z),
              Sq(r.x - t.x), Sq(r.y - t.y), Sq(r.z - t.z));
  }

  lemma ScaledSum(c: real, a: real, b: real, d: real, a': real, b': real, d': real)
    requires a' == c * a && b' == c * b && d' == c * d
    ensures a' + b' + d' == c * (a + b + d)
  {
  }

  lemma LerpAxis(p: real, t: real, alpha: real)
    ensures Sq(p - (p + (t - p) * alpha)) == Sq(alpha) * Sq(p - t)
    ensures Sq((p + (t - p) * alpha) - t) == Sq(1.0 - alpha) * Sq(p - t)
  {
    assert p - (p + (t - p) * alpha) == alpha * (p - t);
    assert (p + (t - p) * alpha) - t == (1.0 - alpha) * (p - t);
  }

  /** `MathUtils.mapLinear(x, a1, a2, b1, b2)`: the affine map sending `a1`
      to `b1` and `a2` to `b2`. */
  function MapLinear(x: real, a1: real, a2: real, b1: real, b2: real): (r: real)
    requires a1 != a2
    ensures (r - b1) * (a2 - a1) == (x - a1) * (b2 - b1)
    ensures x == a1 ==> r == b1
    ensures x == a2 ==> r == b2
  {
    b1 + (x - a1) * (b2 - b1) / (a2 - a1)
  }

  /** `MathUtils.clamp(v, lo, hi)`, i.e. `Math.max(lo, Math.min(hi, v))`. */
  function Clamp(v: real, lo: real, hi: real): (r: real)
    ensures lo <= hi ==> lo <= r <= hi
    ensures lo <= v <= hi ==> r == v
    ensures v < lo ==> r == lo
    ensures lo <= hi < v ==> r == hi
    ensures hi < lo ==> r == lo
  {
    var m := if hi < v then hi else v;
    if lo < m then m else lo
  }

  /** `to2D`: the screen position of a world point, absent when there is no
      renderer. The view-projection matrix is never changed from the
      identity, so the point's x and y are already normalised device
      coordinates; they are mapped so that x = -1..1 spans 0..width and
      y = 1..-1 spans 0..height. */
  function To2D(p: Vec3, renderer: Option<Viewport>): (r: Option<Point2>)
    ensures r.Some? <==> renderer.Some?
    ensures r.Some? ==> 2.0 * r.value.x == (p.x + 1.0) * renderer.value.width
    ensures r.Some? ==> 2.0 * r.value.y == (1.0 - p.y) * renderer.value.height
    ensures r.Some? && p.x == -1.0 ==> r.value.x == 0.0
    ensures r.Some? && p.x == 1.0 ==> r.value.x == renderer.value.width
    ensures r.Some? && p.y == 1.0 ==> r.value.y == 0.0
    ensures r.Some? && p.y == -1.0 ==> r.value.y == renderer.value.height
  {
    match renderer
    case None => None
    case Some(vp) =>
      var widthHalf := vp.width / 2.0;
      var heightHalf := vp.height / 2.0;
      Some(Point2(p.x * widthHalf + widthHalf, -(p.y * heightHalf) + heightHalf))
  }

  /** The world x and y a screen point came from, for a canvas of non-zero size. */
  function FromScreen(s: Point2, vp: Viewport): Vec3
    requires vp.width != 0.0 && vp.height != 0.0
  {
    Vec3(2.0 * s.x / vp.width - 1.0, 1.0 - 2.0 * s.y / vp.height, 0.0)
  }

  /** `to2D` loses only the depth: on a canvas of non-zero size it is undone
      by `FromScreen`. */
  lemma To2DInvertible(p: Vec3, vp: Viewport)
    requires vp.width != 0.0 && vp.height != 0.0
    ensures To2D(p, Some(vp)).Some?
    ensures FromScreen(To2D(p, Some(vp)).value, vp) == p.(z := 0.0)
  {
    var s := To2D(p, Some(vp)).value;
    DivCancel(p.x + 1.0, vp.width);
    DivCancel(1.0 - p.y, vp.height);
  }

  lemma DivCancel(c: real, w: real)
    requires w != 0.0
    ensures (c * w) / w == c
  {
  }

  /** `to2D` keeps the unit square of device coordinates inside the canvas. */
  lemma To2DOnCanvas(p: Vec3, vp: Viewport)
    requires vp.width >= 0.0 && vp.height >= 0.0
    requires -1.0 <= p.x <= 1.0 && -1.0 <= p.y <= 1.0
    ensures 0.0 <= To2D(p, Some(vp)).value.x <= vp.width
    ensures 0.0 <= To2D(p, Some(vp)).value.y <= vp.height
  {
    HalfSpan(p.x, vp.width);
    HalfSpan(-p.y, vp.height);
    assert -(p.y * (vp.height / 2.0)) == (-p.y) * (vp.height / 2.0);
  }

  /** A coordinate in -1..1, scaled and shifted by half a span, lands inside
      the span. */
  lemma HalfSpan(t: real, w: real)
    requires w >= 0.0 && -1.0 <= t <= 1.0
    ensures 0.0 <= t * (w / 2.0) + w / 2.0 <= w
  {
    assert t * (w / 2.0) + w / 2.0 == (t + 1.0) * (w / 2.0);
    MulBetween(t + 1.0, 2.0, w / 2.0);
  }

  lemma MulBetween(a: real, b: real, c: real)
    requires 0.0 <= a <= b && c >= 0.0
    ensures 0.0 <= a * c <= b * c
  {
  }

  /** Remapping landmarks scales every squared distance by 16. */
  lemma RemapScalesDistance(p: Vec3, q: Vec3)
    ensures DistSq(Remap(p), Remap(q)) == Sq(LandmarkScale) * DistSq(p, q)
  {
    var rp, rq := Remap(p), Remap(q);
    assert rp.x - rq.x == LandmarkScale * (q.x - p.x);
    assert rp.y - rq.y == LandmarkScale * (q.y - p.y);
    assert rp.z - rq.z == LandmarkScale * (q.z - p.z);
    assert Sq(rp.x - rq.x) == 16.0 * Sq(p.x - q.x);
    assert Sq(rp.y - rq.y) == 16.0 * Sq(p.y - q.y);
    assert Sq(rp.z - rq.z) == 16.0 * Sq(p.z - q.z);
  }

  /** The squared pixel distance between two projected points: the world
      offsets scaled by half the canvas size on each axis. */
  lemma ScreenSeparation(a: Vec3, b: Vec3, vp: Viewport)
    ensures DistSq2(To2D(a, Some(vp)).value, To2D(b, Some(vp)).value)
         == Sq(a.x - b.x) * Sq(vp.width / 2.0) + Sq(a.y - b.y) * Sq(vp.height / 2.0)
  {
    var sa, sb := To2D(a, Some(vp)).value, To2D(b, Some(vp)).value;
    assert sa.x - sb.x == (a.x - b.x) * (vp.width / 2.0);
    assert sa.y - sb.y == (b.y - a.y) * (vp.height / 2.0);
    SqOfProduct(a.x - b.x, vp.width / 2.0);
    SqOfProduct(b.y - a.y, vp.height / 2.0);
    assert Sq(b.y - a.y) == Sq(a.y - b.y);
  }

  lemma SqOfProduct(u: real, c: real)
    ensures Sq(u * c) == Sq(u) * Sq(c)
  {
  }

  // Facts of real multiplication, each proved where no other term can
  // distract the solver.

  lemma SquareNonNegative(v: real)
    ensures Sq(v) >= 0.0
  {
    if v >= 0.0 {
      MulAtMost(0.0, v, v);
    } else {
      MulAtMost(0.0, -v, -v);
      assert (-v) * (-v) == v * v;
    }
  }

  lemma MulAtMost(a: real, b: real, c: real)
    requires a <= b && c >= 0.0
    ensures a * c <= b * c
  {
  }
}

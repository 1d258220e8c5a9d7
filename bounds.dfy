/**
 * Axis-aligned bounding boxes and the framing arithmetic of the viewer:
 * the min/max fold of ThreeJsViewer.computeBoundingBox and the centring and
 * camera placement of ThreeJsViewer.finishScene, over exact reals.
 */
module Bounds {

  /** One axis of a bounding box, the `[lo, hi]` pair of three.js. */
  datatype Interval = Interval(lo: real, hi: real)

  /** A bounding box: one interval per axis. */
  datatype Box = Box(x: Interval, y: Interval, z: Interval)

  /** A position in the scene (root.position, camera.position). */
  datatype Vec3 = Vec3(x: real, y: real, z: real)

  datatype Axis = X | Y | Z

  /** The axes in the order the viewer visits them: `['x', 'y', 'z']`. */
  const Axes: seq<Axis> := [X, Y, Z]

  function Get(b: Box, a: Axis): Interval
  {
    match a
    case X => b.x
    case Y => b.y
    case Z => b.z
  }

  /** `b` with the interval of axis `a` replaced, as `bb[dimension][k] = …` does. */
  function With(b: Box, a: Axis, iv: Interval): (r: Box)
    ensures Get(r, a) == iv
    ensures forall c :: c != a ==> Get(r, c) == Get(b, c)
  {
    match a
    case X => b.(x := iv)
    case Y => b.(y := iv)
    case Z => b.(z := iv)
  }

  function Coord(v: Vec3, a: Axis): real
  {
    match a
    case X => v.x
    case Y => v.y
    case Z => v.z
  }

  /** Math.min of two numbers. */
  function Min(a: real, b: real): (r: real)
    ensures r <= a && r <= b
    ensures r == a || r == b
  {
    if a <= b then a else b
  }

  /** Math.max of two numbers. */
  function Max(a: real, b: real): (r: real)
    ensures a <= r && b <= r
    ensures r == a || r == b
  {
    if a <= b then b else a
  }

  /** One axis of the running box widened by one mesh's interval on that axis. */
  function Widen(acc: Interval, iv: Interval): Interval
  {
    Interval(Min(acc.lo, iv.lo), Max(acc.hi, iv.hi))
  }

  /** The running box after visiting one more mesh: every axis widened. */
  function Merge(acc: Box, b: Box): (r: Box)
    ensures forall a :: Contains(Get(r, a), Get(acc, a)) && Contains(Get(r, a), Get(b, a))
    ensures forall a :: (Get(r, a).lo == Get(acc, a).lo || Get(r, a).lo == Get(b, a).lo) &&
                        (Get(r, a).hi == Get(acc, a).hi || Get(r, a).hi == Get(b, a).hi)
  {
    Box(Widen(acc.x, b.x), Widen(acc.y, b.y), Widen(acc.z, b.z))
  }

  /** The running box after the traversal has visited `boxes` in order, starting from `seed`. */
  function HullFrom(seed: Box, boxes: seq<Box>): Box
    decreases |boxes|
  {
    if boxes == [] then seed
    else Merge(HullFrom(seed, boxes[..|boxes| - 1]), boxes[|boxes| - 1])
  }

  /** The box computeBoundingBox returns: seeded with the first mesh's box, folded over all meshes. */
  function Hull(boxes: seq<Box>): Box
    requires |boxes| > 0
  {
    HullFrom(boxes[0], boxes)
  }

  predicate Contains(outer: Interval, inner: Interval)
  {
    outer.lo <= inner.lo && inner.hi <= outer.hi
  }

  /** `b` encloses every box of `boxes` on every axis. */
  predicate Encloses(b: Box, boxes: seq<Box>)
  {
    forall i, a :: 0 <= i < |boxes| ==> Contains(Get(b, a), Get(boxes[i], a))
  }

  /** Every bound of `b` is the corresponding bound of some box of `boxes`. */
  predicate Attained(b: Box, boxes: seq<Box>)
  {
    forall a ::
      (exists i :: 0 <= i < |boxes| && Get(b, a).lo == Get(boxes[i], a).lo) &&
      (exists i :: 0 <= i < |boxes| && Get(b, a).hi == Get(boxes[i], a).hi)
  }

  /** A box whose every axis has lo <= hi. */
  predicate Proper(b: Box)
  {
    forall a :: Get(b, a).lo <= Get(b, a).hi
  }

  lemma {:induction false} HullFromEncloses(seed: Box, boxes: seq<Box>)
    ensures forall a :: Contains(Get(HullFrom(seed, boxes), a), Get(seed, a))
    ensures Encloses(HullFrom(seed, boxes), boxes)
  {
    if boxes != [] {
      var init := boxes[..|boxes| - 1];
      HullFromEncloses(seed, init);
      assert forall i :: 0 <= i < |init| ==> init[i] == boxes[i];
    }
  }

  lemma {:induction false} HullFromAttained(seed: Box, boxes: seq<Box>)
    ensures forall a ::
      (Get(HullFrom(seed, boxes), a).lo == Get(seed, a).lo ||
       exists i :: 0 <= i < |boxes| && Get(HullFrom(seed, boxes), a).lo == Get(boxes[i], a).lo) &&
      (Get(HullFrom(seed, boxes), a).hi == Get(seed, a).hi ||
       exists i :: 0 <= i < |boxes| && Get(HullFrom(seed, boxes), a).hi == Get(boxes[i], a).hi)
  {
    if boxes != [] {
      var init := boxes[..|boxes| - 1];
      HullFromAttained(seed, init);
      assert forall i :: 0 <= i < |init| ==> init[i] == boxes[i];
    }
  }

  /** The computed box is the tightest one: it encloses every mesh's box and each of its bounds is some mesh's bound. */
  lemma HullIsTightest(boxes: seq<Box>)
    requires |boxes| > 0
    ensures Encloses(Hull(boxes), boxes)
    ensures Attained(Hull(boxes), boxes)
  {
    HullFromEncloses(boxes[0], boxes);
    HullFromAttained(boxes[0], boxes);
  }

  /** Any box enclosing all the meshes' boxes also encloses the computed box. */
  lemma HullIsLeast(boxes: seq<Box>, b: Box)
    requires |boxes| > 0
    requires Encloses(b, boxes)
    ensures forall a :: Contains(Get(b, a), Get(Hull(boxes), a))
  {
    HullIsTightest(boxes);
    forall a ensures Contains(Get(b, a), Get(Hull(boxes), a)) {
      var i :| 0 <= i < |boxes| && Get(Hull(boxes), a).lo == Get(boxes[i], a).lo;
      var j :| 0 <= j < |boxes| && Get(Hull(boxes), a).hi == Get(boxes[j], a).hi;
      assert Contains(Get(b, a), Get(boxes[i], a));
      assert Contains(Get(b, a), Get(boxes[j], a));
    }
  }

  /** When every mesh's box has lo <= hi, so has the computed box. */
  lemma HullProper(boxes: seq<Box>)
    requires |boxes| > 0
    requires forall i :: 0 <= i < |boxes| ==> Proper(boxes[i])
    ensures Proper(Hull(boxes))
  {
    HullIsTightest(boxes);
    forall a ensures Get(Hull(boxes), a).lo <= Get(Hull(boxes), a).hi {
      assert Contains(Get(Hull(boxes), a), Get(boxes[0], a));
      assert Proper(boxes[0]);
    }
  }

  /** The extent of one axis, `bb[d][1] - bb[d][0]`. */
  function Extent(iv: Interval): real
  {
    iv.hi - iv.lo
  }

  /** The root position finishScene assigns: per axis `ext * -.5 - lo`; it moves the box centre to the origin. */
  function CenterOffset(b: Box): (p: Vec3)
    ensures forall a :: Coord(p, a) == -(Get(b, a).lo + Get(b, a).hi) / 2.0
  {
    Vec3(Extent(b.x) * -0.5 - b.x.lo,
         Extent(b.y) * -0.5 - b.y.lo,
         Extent(b.z) * -0.5 - b.z.lo)
  }

  /** The largest of the three axis extents of the box. */
  function MaxExtent(b: Box): (m: real)
    ensures forall a :: Extent(Get(b, a)) <= m
    ensures exists a :: m == Extent(Get(b, a))
    ensures Proper(b) ==> m >= 0.0
  {
    var m := Max(Max(Extent(b.x), Extent(b.y)), Extent(b.z));
    assert m == Extent(Get(b, X)) || m == Extent(Get(b, Y)) || m == Extent(Get(b, Z));
    m
  }

  /** An interval moved by `d`. */
  function Translate(iv: Interval, d: real): Interval
  {
    Interval(iv.lo + d, iv.hi + d)
  }

  /** Moving the box by the centring offset leaves every axis symmetric about 0 with its extent kept. */
  lemma CenteringIsSymmetric(b: Box)
    ensures forall a ::
      Translate(Get(b, a), Coord(CenterOffset(b), a)).lo == -Translate(Get(b, a), Coord(CenterOffset(b), a)).hi &&
      Extent(Translate(Get(b, a), Coord(CenterOffset(b), a))) == Extent(Get(b, a))
  {
  }

  /**
   * After finishScene, every mesh lies in the cube [-m/2, m/2] on every axis, m being the largest
   * extent, the value the camera is placed at on each axis.
   */
  lemma FramedInCube(boxes: seq<Box>)
    requires |boxes| > 0
    ensures forall i, a :: 0 <= i < |boxes| ==>
      -MaxExtent(Hull(boxes)) / 2.0 <= Translate(Get(boxes[i], a), Coord(CenterOffset(Hull(boxes)), a)).lo &&
      Translate(Get(boxes[i], a), Coord(CenterOffset(Hull(boxes)), a)).hi <= MaxExtent(Hull(boxes)) / 2.0
  {
    var h := Hull(boxes);
    HullIsTightest(boxes);
    forall i, a | 0 <= i < |boxes|
      ensures -MaxExtent(h) / 2.0 <= Translate(Get(boxes[i], a), Coord(CenterOffset(h), a)).lo
      ensures Translate(Get(boxes[i], a), Coord(CenterOffset(h), a)).hi <= MaxExtent(h) / 2.0
    {
      assert Contains(Get(h, a), Get(boxes[i], a));
      assert Extent(Get(h, a)) <= MaxExtent(h);
    }
  }

  /** The camera distance is never negative when every mesh's box has lo <= hi. */
  lemma CameraDistanceNonNegative(boxes: seq<Box>)
    requires |boxes| > 0
    requires forall i :: 0 <= i < |boxes| ==> Proper(boxes[i])
    ensures MaxExtent(Hull(boxes)) >= 0.0
  {
    HullProper(boxes);
  }
}

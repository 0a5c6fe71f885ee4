/** The box/frustum overlap test of js/webgl-util.js (`containsBox`).

    A box is rejected when all eight of its corners lie behind one plane
    of the frustum, or when all eight corner points of the frustum lie
    beyond one face of the box; otherwise it is reported as (possibly)
    visible. The planes and the world-space frustum points are computed
    in the constructor with a square root and `mat4.invert`; here they are
    the fields of a value built elsewhere. */
module FrustumCull {
  import opened VecMath

  /** `[x_lower, y_lower, z_lower, x_upper, y_upper, z_upper]`. */
  datatype Box = Box(lo: Vec3, hi: Vec3)

  /** The six planes (a, b, c, d) and the eight corner points of the
      frustum, already divided by w. */
  datatype Frustum = Frustum(planes: seq<Vec4>, points: seq<Vec3>)

  /** `vec4.dot(plane, [p, 1])`: the signed distance of p, scaled. */
  function PlaneDot(plane: Vec4, p: Vec3): real
  {
    plane.x * p.x + plane.y * p.y + plane.z * p.z + plane.w
  }

  /** The eight corners of the box, in the order `containsBox` tests them:
      x fastest, then y, then z. */
  function Corners(b: Box): (cs: seq<Vec3>)
    ensures |cs| == 8
  {
    [Vec3(b.lo.x, b.lo.y, b.lo.z), Vec3(b.hi.x, b.lo.y, b.lo.z),
     Vec3(b.lo.x, b.hi.y, b.lo.z), Vec3(b.hi.x, b.hi.y, b.lo.z),
     Vec3(b.lo.x, b.lo.y, b.hi.z), Vec3(b.hi.x, b.lo.y, b.hi.z),
     Vec3(b.lo.x, b.hi.y, b.hi.z), Vec3(b.hi.x, b.hi.y, b.hi.z)]
  }

  /** Every corner of a box with lo <= hi lies in the box. */
  lemma CornersInBox(b: Box, i: nat)
    requires b.lo.x <= b.hi.x && b.lo.y <= b.hi.y && b.lo.z <= b.hi.z
    requires i < 8
    ensures InBox(Corners(b)[i], b)
  {
  }

  predicate InBox(p: Vec3, b: Box)
  {
    b.lo.x <= p.x <= b.hi.x && b.lo.y <= p.y <= b.hi.y && b.lo.z <= p.z <= b.hi.z
  }

  /** How many of the points give a negative dot product with the plane. */
  function CountBehind(plane: Vec4, ps: seq<Vec3>): (n: nat)
    ensures n <= |ps|
    decreases |ps|
  {
    if ps == [] then 0
    else CountBehind(plane, ps[..|ps| - 1]) + (if PlaneDot(plane, ps[|ps| - 1]) < 0.0 then 1 else 0)
  }

  predicate AllBehind(plane: Vec4, ps: seq<Vec3>)
  {
    forall i :: 0 <= i < |ps| ==> PlaneDot(plane, ps[i]) < 0.0
  }

  /** The count reaches the number of points exactly when every point is
      behind the plane. */
  lemma {:induction false} CountBehindFull(plane: Vec4, ps: seq<Vec3>)
    ensures CountBehind(plane, ps) == |ps| <==> AllBehind(plane, ps)
    decreases |ps|
  {
    if ps != [] {
      var init := ps[..|ps| - 1];
      CountBehindFull(plane, init);
      assert forall i :: 0 <= i < |init| ==> init[i] == ps[i];
    }
  }

  /** The six face tests, in the order `containsBox` runs them. */
  datatype Face = XHigh | XLow | YHigh | YLow | ZHigh | ZLow

  /** The point lies strictly beyond the given face of the box. */
  predicate Beyond(p: Vec3, b: Box, f: Face)
  {
    match f
    case XHigh => p.x > b.hi.x
    case XLow => p.x < b.lo.x
    case YHigh => p.y > b.hi.y
    case YLow => p.y < b.lo.y
    case ZHigh => p.z > b.hi.z
    case ZLow => p.z < b.lo.z
  }

  function CountBeyond(ps: seq<Vec3>, b: Box, f: Face): (n: nat)
    ensures n <= |ps|
    decreases |ps|
  {
    if ps == [] then 0
    else CountBeyond(ps[..|ps| - 1], b, f) + (if Beyond(ps[|ps| - 1], b, f) then 1 else 0)
  }

  predicate AllBeyond(ps: seq<Vec3>, b: Box, f: Face)
  {
    forall i :: 0 <= i < |ps| ==> Beyond(ps[i], b, f)
  }

  lemma {:induction false} CountBeyondFull(ps: seq<Vec3>, b: Box, f: Face)
    ensures CountBeyond(ps, b, f) == |ps| <==> AllBeyond(ps, b, f)
    decreases |ps|
  {
    if ps != [] {
      var init := ps[..|ps| - 1];
      CountBeyondFull(init, b, f);
      assert forall i :: 0 <= i < |init| ==> init[i] == ps[i];
    }
  }

  /** The box lies wholly behind one of the frustum's planes. */
  predicate CulledByPlane(planes: seq<Vec4>, b: Box)
  {
    exists i :: 0 <= i < |planes| && AllBehind(planes[i], Corners(b))
  }

  /** The frustum lies wholly beyond one face of the box. */
  predicate CulledByFace(points: seq<Vec3>, b: Box)
  {
    exists f: Face :: AllBeyond(points, b, f)
  }

  predicate Culled(fr: Frustum, b: Box)
  {
    CulledByPlane(fr.planes, b) || CulledByFace(fr.points, b)
  }

  /** The eight unrolled increments of `out` for one plane, given the box
      corners in the order of `Corners`, which is the order of the eight
      `vec4.set` calls. */
  method CountCornersBehind(plane: Vec4, cs: seq<Vec3>) returns (out: nat)
    requires |cs| == 8
    ensures out == CountBehind(plane, cs)
  {
    out := 0;
    assert cs[..0] == [];
    out := AddIfBehind(plane, cs, 0, out);
    out := AddIfBehind(plane, cs, 1, out);
    out := AddIfBehind(plane, cs, 2, out);
    out := AddIfBehind(plane, cs, 3, out);
    out := AddIfBehind(plane, cs, 4, out);
    out := AddIfBehind(plane, cs, 5, out);
    out := AddIfBehind(plane, cs, 6, out);
    out := AddIfBehind(plane, cs, 7, out);
    assert cs[..8] == cs;
  }

  /** One unrolled `if (vec4.dot(plane, p) < 0) ++out;` on corner k. */
  method AddIfBehind(plane: Vec4, cs: seq<Vec3>, k: nat, out: nat) returns (out': nat)
    requires k < |cs| && out == CountBehind(plane, cs[..k])
    ensures out' == CountBehind(plane, cs[..k + 1])
  {
    out' := out + (if PlaneDot(plane, cs[k]) < 0.0 then 1 else 0);
    CountBehindStep(plane, cs, k + 1);
  }

  /** Adding the k-th point to the prefix adds its indicator. */
  lemma CountBehindStep(plane: Vec4, ps: seq<Vec3>, k: nat)
    requires 0 < k <= |ps|
    ensures CountBehind(plane, ps[..k]) ==
            CountBehind(plane, ps[..k - 1]) + (if PlaneDot(plane, ps[k - 1]) < 0.0 then 1 else 0)
  {
    assert ps[..k][..k - 1] == ps[..k - 1];
  }

  /** One of the six `for (i < 8)` loops over the frustum points. */
  method CountPointsBeyond(points: seq<Vec3>, b: Box, f: Face) returns (out: nat)
    ensures out == CountBeyond(points, b, f)
  {
    out := 0;
    var i := 0;
    while i < |points|
      invariant 0 <= i <= |points|
      invariant out == CountBeyond(points[..i], b, f)
    {
      assert points[..i + 1][..i] == points[..i];
      out := out + (if Beyond(points[i], b, f) then 1 else 0);
      i := i + 1;
    }
    assert points[..i] == points;
  }

  /** `containsBox(box)`: false as soon as one plane has all eight corners
      behind it, or one face of the box has all eight frustum points beyond
      it; true otherwise. */
  method ContainsBox(fr: Frustum, b: Box) returns (r: bool)
    requires |fr.points| == 8
    ensures r <==> !Culled(fr, b)
  {
    var i := 0;
    while i < |fr.planes|
      invariant 0 <= i <= |fr.planes|
      invariant forall k :: 0 <= k < i ==> !AllBehind(fr.planes[k], Corners(b))
    {
      var out := CountCornersBehind(fr.planes[i], Corners(b));
      CountBehindFull(fr.planes[i], Corners(b));
      if out == 8 {
        return false;
      }
      i := i + 1;
    }
    var faces := [XHigh, XLow, YHigh, YLow, ZHigh, ZLow];
    var j := 0;
    while j < |faces|
      invariant 0 <= j <= |faces|
      invariant forall k :: 0 <= k < j ==> !AllBeyond(fr.points, b, faces[k])
    {
      var out := CountPointsBeyond(fr.points, b, faces[j]);
      CountBeyondFull(fr.points, b, faces[j]);
      if out == 8 {
        return false;
      }
      j := j + 1;
    }
    forall f: Face
      ensures !AllBeyond(fr.points, b, f)
    {
      assert f == faces[FaceIndex(f)];
    }
    return true;
  }

  function FaceIndex(f: Face): (k: nat)
    ensures k < 6
  {
    match f
    case XHigh => 0
    case XLow => 1
    case YHigh => 2
    case YLow => 3
    case ZHigh => 4
    case ZLow => 5
  }

  /** The test is conservative: a box holding one of the frustum's points
      is never rejected by a face test, and a box with a corner in front
      of (or on) every plane is never rejected by a plane test. */
  lemma PointInsideNotCulledByFace(points: seq<Vec3>, b: Box, k: nat)
    requires k < |points| && InBox(points[k], b)
    ensures !CulledByFace(points, b)
  {
    forall f: Face
      ensures !AllBeyond(points, b, f)
    {
      assert !Beyond(points[k], b, f);
    }
  }

  lemma CornerInFrontNotCulledByPlane(planes: seq<Vec4>, b: Box, c: nat)
    requires c < 8
    requires forall i :: 0 <= i < |planes| ==> PlaneDot(planes[i], Corners(b)[c]) >= 0.0
    ensures !CulledByPlane(planes, b)
  {
  }

  /** A frustum with a point inside the box and a box corner on the inner
      side of all its planes always passes `containsBox`. */
  lemma OverlapIsContained(fr: Frustum, b: Box, k: nat, c: nat)
    requires k < |fr.points| && InBox(fr.points[k], b)
    requires c < 8
    requires forall i :: 0 <= i < |fr.planes| ==> PlaneDot(fr.planes[i], Corners(b)[c]) >= 0.0
    ensures !Culled(fr, b)
  {
    PointInsideNotCulledByFace(fr.points, b, k);
    CornerInFrontNotCulledByPlane(fr.planes, b, c);
  }
}

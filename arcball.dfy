/** The arcball camera of js/arcball.js: screen normalisation, the projection
    of a screen point onto the arcball, quaternion composition and the zoom
    clamp. The camera and inverse-camera matrices are gl-matrix products and
    are not part of this model; translation is only ever along z, so it is
    kept as one real. */
module Arcball {
  import opened VecMath
  import opened Quaternion

  /** `clamp(a, min, max)`. */
  function Clamp(a: real, lo: real, hi: real): (r: real)
    ensures lo <= hi ==> lo <= r <= hi
    ensures lo <= a <= hi ==> r == a
    ensures r == a || r == lo || r == hi
  {
    if a < lo then lo else if a > hi then hi else a
  }

  /** Clamping is idempotent, and the clamped value is the point of [lo, hi]
      nearest to `a`. */
  lemma ClampNearest(a: real, lo: real, hi: real, v: real)
    requires lo <= hi && lo <= v <= hi
    ensures Clamp(Clamp(a, lo, hi), lo, hi) == Clamp(a, lo, hi)
    ensures Abs(Clamp(a, lo, hi) - a) <= Abs(v - a)
  {
  }

  /** Pixel coordinates to [-1, 1]^2: x grows to the right, y is flipped so
      that it grows upwards, then each coordinate is clamped. */
  function NormalizeScreen(p: Vec2, invScreen: Vec2): (r: Vec2)
    ensures -1.0 <= r.x <= 1.0 && -1.0 <= r.y <= 1.0
    ensures -1.0 <= p.x * 2.0 * invScreen.x - 1.0 <= 1.0 ==> r.x == p.x * 2.0 * invScreen.x - 1.0
    ensures -1.0 <= 1.0 - p.y * 2.0 * invScreen.y <= 1.0 ==> r.y == 1.0 - p.y * 2.0 * invScreen.y
  {
    Vec2(Clamp(p.x * 2.0 * invScreen.x - 1.0, -1.0, 1.0),
         Clamp(1.0 - p.y * 2.0 * invScreen.y, -1.0, 1.0))
  }

  /** The number whose square root `screenToArcball` takes: 1 - |p|^2 on the
      ball, |p|^2 (for normalising p) off it. */
  function Radicand(p: Vec2): real
  {
    var d := Dot2(p, p);
    if d <= 1.0 then 1.0 - d else d
  }

  /** What `Math.sqrt` returns for `x`: the non-negative root. */
  predicate IsSqrt(root: real, x: real) { root >= 0.0 && root * root == x }

  /** `screenToArcball(p)`: a point inside the unit disc is lifted onto the
      hemisphere; a point outside it is pushed radially onto the rim.
      `root` is the value of the square root the source computes. */
  function ScreenToArcball(p: Vec2, root: real): (q: Quat)
    requires IsSqrt(root, Radicand(p))
    ensures IsPure(q) && NormSq(q) == 1.0
    ensures Dot2(p, p) <= 1.0 ==> q.x == p.x && q.y == p.y && q.z >= 0.0
    ensures Dot2(p, p) > 1.0 ==> q.z == 0.0 && q.x * root == p.x && q.y * root == p.y && root > 1.0
  {
    var d := Dot2(p, p);
    if d <= 1.0 then
      Quat(p.x, p.y, root, 0.0)
    else
      SquareAtMostOne(root);
      var q := Quat(p.x / root, p.y / root, 0.0, 0.0);
      assert q.x * q.x + q.y * q.y == d / (root * root);
      q
  }

  lemma SquareAtMostOne(r: real)
    ensures 0.0 <= r <= 1.0 ==> r * r <= 1.0
  {
    if 0.0 <= r <= 1.0 {
      assert r * r <= r * 1.0;
    }
  }

  /** The rotation after `rotate`: rotation <- curBall * (prevBall * rotation). */
  function Rotated(rotation: Quat, prevBall: Quat, curBall: Quat): Quat
  {
    Mul(curBall, Mul(prevBall, rotation))
  }

  /** Composing unit quaternions keeps the camera rotation a unit quaternion. */
  lemma {:induction false} RotatedKeepsUnit(rotation: Quat, prevBall: Quat, curBall: Quat)
    requires NormSq(rotation) == 1.0 && NormSq(prevBall) == 1.0 && NormSq(curBall) == 1.0
    ensures NormSq(Rotated(rotation, prevBall, curBall)) == 1.0
  {
    NormMultiplicative(prevBall, rotation);
    NormMultiplicative(curBall, Mul(prevBall, rotation));
  }

  /** `rotate(p, p)` multiplies by ball * ball = -1: the rotation is negated,
      which is the same rotation but not the same quaternion value. */
  lemma SamePointNegates(rotation: Quat, ball: Quat)
    requires IsPure(ball) && NormSq(ball) == 1.0
    ensures Rotated(rotation, ball, ball) == Negate(rotation)
  {
    DoublePureUnitNegates(ball, rotation);
  }

  /** The z translation after a zoom step of `delta`, clamped so the camera
      never comes closer than `limit`. */
  function ZoomedZ(z: real, delta: real, limit: real): (r: real)
    ensures r <= limit
    ensures z + delta < limit ==> r == z + delta
    ensures z + delta >= limit ==> r == limit
  {
    if z + delta >= limit then limit else z + delta
  }

  /** Zoom limit of this camera. */
  const NearLimit: real := -0.4

  /** `new ArcballCamera(center, zoomSpeed, screenDims)` and its fields. */
  class ArcballCamera {
    var zoomSpeed: real
    var invScreen: Vec2
    /** Translation part of `centerTranslation`. */
    var centerTranslation: Vec3
    /** z component of `translation`, the only one ever non-zero. */
    var translationZ: real
    var rotation: Quat

    ghost predicate Valid()
      reads this
    {
      NormSq(rotation) == 1.0 && translationZ <= NearLimit
    }

    constructor (center: Vec3, zoomSpeed: real, screenDims: Vec2)
      requires screenDims.x != 0.0 && screenDims.y != 0.0
      ensures Valid()
      ensures this.zoomSpeed == zoomSpeed
      ensures invScreen == Vec2(1.0 / screenDims.x, 1.0 / screenDims.y)
      ensures centerTranslation == Neg(center)
      ensures translationZ == -1.0
      ensures rotation == Identity
    {
      this.zoomSpeed := zoomSpeed;
      invScreen := Vec2(1.0 / screenDims.x, 1.0 / screenDims.y);
      centerTranslation := Neg(center);
      translationZ := -1.0;
      rotation := Identity;
    }

    /** `rotate(prevMouse, curMouse)`; the two square roots computed by
        `screenToArcball` are passed in. */
    method Rotate(prevMouse: Vec2, curMouse: Vec2, prevRoot: real, curRoot: real)
      requires Valid()
      requires IsSqrt(prevRoot, Radicand(NormalizeScreen(prevMouse, invScreen)))
      requires IsSqrt(curRoot, Radicand(NormalizeScreen(curMouse, invScreen)))
      modifies this
      ensures Valid()
      ensures zoomSpeed == old(zoomSpeed) && invScreen == old(invScreen)
      ensures rotation == Rotated(old(rotation),
                                  ScreenToArcball(NormalizeScreen(prevMouse, invScreen), prevRoot),
                                  ScreenToArcball(NormalizeScreen(curMouse, invScreen), curRoot))
      ensures translationZ == old(translationZ) && centerTranslation == old(centerTranslation)
    {
      var mPrev := NormalizeScreen(prevMouse, invScreen);
      var mCur := NormalizeScreen(curMouse, invScreen);
      var prevBall := ScreenToArcball(mPrev, prevRoot);
      var curBall := ScreenToArcball(mCur, curRoot);
      RotatedKeepsUnit(rotation, prevBall, curBall);
      rotation := Mul(prevBall, rotation);
      rotation := Mul(curBall, rotation);
    }

    /** `zoom(amount)`: move along z by amount * zoomSpeed, but never closer
        than z = -0.4. */
    method Zoom(amount: real)
      requires Valid()
      modifies this
      ensures Valid()
      ensures translationZ == ZoomedZ(old(translationZ), amount * zoomSpeed, NearLimit)
      ensures rotation == old(rotation) && centerTranslation == old(centerTranslation)
      ensures zoomSpeed == old(zoomSpeed) && invScreen == old(invScreen)
    {
      translationZ := translationZ + amount * zoomSpeed;
      if translationZ >= NearLimit {
        translationZ := NearLimit;
      }
    }
  }
}

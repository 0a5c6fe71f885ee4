/** The arcball camera of js/webgl-util.js, the one the volume renderer
    builds with `new ArcballCamera(eye, center, up, zoomSpeed, screenDims)`.
    Rotation uses the same screen normalisation, arcball projection and
    quaternion composition as js/arcball.js; zoom scales by the screen
    height and stops at z = -0.2; pan moves the orbit centre. The look-at
    basis (normalize, cross, quat.fromMat3) and the inverse camera matrix
    are gl-matrix computations and enter as parameters. */
module WebGLCamera {
  import opened VecMath
  import opened Quaternion
  import opened Arcball

  /** Zoom limit of this camera. */
  const ZoomLimit: real := -0.2

  /** The camera-space offset `pan` moves by: the mouse delta in pixels,
      scaled by the inverse screen size and by the distance to the centre. */
  function PanDelta(mouseDelta: Vec2, invScreen: Vec2, translationZ: real): Vec3
  {
    Vec3(mouseDelta.x * invScreen.x * Abs(translationZ), mouseDelta.y * invScreen.y * Abs(translationZ), 0.0)
  }

  /** A pan at distance |z| is the pan at distance 1 scaled by |z|, and it
      never moves along the view axis. */
  lemma PanScalesWithDistance(mouseDelta: Vec2, invScreen: Vec2, z: real)
    ensures PanDelta(mouseDelta, invScreen, z) == Scale(PanDelta(mouseDelta, invScreen, -1.0), Abs(z))
    ensures PanDelta(mouseDelta, invScreen, z).z == 0.0
  {
    var u := PanDelta(mouseDelta, invScreen, -1.0);
    assert u.x == mouseDelta.x * invScreen.x;
    assert u.y == mouseDelta.y * invScreen.y;
  }

  /** With a non-degenerate screen and the camera away from the centre,
      the pan offset is zero exactly when the mouse did not move. */
  lemma PanStillIffNoMotion(mouseDelta: Vec2, invScreen: Vec2, z: real)
    requires invScreen.x != 0.0 && invScreen.y != 0.0 && z != 0.0
    ensures PanDelta(mouseDelta, invScreen, z) == Vec3(0.0, 0.0, 0.0) <==> mouseDelta == Vec2(0.0, 0.0)
  {
    var a := Abs(z);
    if mouseDelta.x != 0.0 {
      NonZeroProduct(mouseDelta.x, invScreen.x, a);
    }
    if mouseDelta.y != 0.0 {
      NonZeroProduct(mouseDelta.y, invScreen.y, a);
    }
  }

  lemma NonZeroProduct(x: real, y: real, z: real)
    requires x != 0.0 && y != 0.0 && z != 0.0
    ensures x * y * z != 0.0
  {
    assert x * y != 0.0;
  }

  class Camera {
    var zoomSpeed: real
    var invScreen: Vec2
    /** Translation part of `centerTranslation`. */
    var centerTranslation: Vec3
    /** z component of `translation`, the only one ever non-zero. */
    var translationZ: real
    var rotation: Quat

    /** The rotation is a unit quaternion and the camera looks from the
        near side: its z translation is never positive. */
    ghost predicate Valid()
      reads this
    {
      NormSq(rotation) == 1.0 && translationZ <= 0.0
    }

    /** `new ArcballCamera(eye, center, up, zoomSpeed, screenDims)`.
        `viewDist` is `vec3.len(center - eye)` and `lookRotation` the
        normalised quaternion of the look-at basis. */
    constructor (eye: Vec3, center: Vec3, zoomSpeed: real, screenDims: Vec2, viewDist: real, lookRotation: Quat)
      requires screenDims.x != 0.0 && screenDims.y != 0.0
      requires IsSqrt(viewDist, Dot3(Sub(center, eye), Sub(center, eye)))
      requires NormSq(lookRotation) == 1.0
      ensures Valid()
      ensures this.zoomSpeed == zoomSpeed
      ensures invScreen == Vec2(1.0 / screenDims.x, 1.0 / screenDims.y)
      ensures centerTranslation == Neg(center)
      ensures translationZ == -viewDist
      ensures rotation == lookRotation
    {
      this.zoomSpeed := zoomSpeed;
      invScreen := Vec2(1.0 / screenDims.x, 1.0 / screenDims.y);
      centerTranslation := Neg(center);
      translationZ := -1.0 * viewDist;
      rotation := lookRotation;
    }

    /** `rotate(prevMouse, curMouse)`; the two square roots computed by
        `screenToArcball` are passed in. */
    method Rotate(prevMouse: Vec2, curMouse: Vec2, prevRoot: real, curRoot: real)
      requires Valid()
      requires IsSqrt(prevRoot, Radicand(NormalizeScreen(prevMouse, invScreen)))
      requires IsSqrt(curRoot, Radicand(NormalizeScreen(curMouse, invScreen)))
      modifies this
      ensures Valid()
      ensures zoomSpeed == old(zoomSpeed) && invScreen == old(invScreen)
      ensures rotation == Rotated(old(rotation),
                                  ScreenToArcball(NormalizeScreen(prevMouse, invScreen), prevRoot),
                                  ScreenToArcball(NormalizeScreen(curMouse, invScreen), curRoot))
      ensures translationZ == old(translationZ) && centerTranslation == old(centerTranslation)
    {
      var mPrev := NormalizeScreen(prevMouse, invScreen);
      var mCur := NormalizeScreen(curMouse, invScreen);
      var prevBall := ScreenToArcball(mPrev, prevRoot);
      var curBall := ScreenToArcball(mCur, curRoot);
      RotatedKeepsUnit(rotation, prevBall, curBall);
      rotation := Mul(prevBall, rotation);
      rotation := Mul(curBall, rotation);
    }

    /** `zoom(amount)`: move along z by amount * invScreen[1] * zoomSpeed,
        but never closer than z = -0.2. */
    method Zoom(amount: real)
      requires Valid()
      modifies this
      ensures Valid()
      ensures translationZ == ZoomedZ(old(translationZ), amount * invScreen.y * zoomSpeed, ZoomLimit)
      ensures translationZ <= ZoomLimit
      ensures rotation == old(rotation) && centerTranslation == old(centerTranslation)
      ensures zoomSpeed == old(zoomSpeed) && invScreen == old(invScreen)
    {
      translationZ := translationZ + amount * invScreen.y * zoomSpeed;
      if translationZ >= ZoomLimit {
        translationZ := ZoomLimit;
      }
    }

    /** `pan(mouseDelta)`: the camera-space offset is taken to world space
        by the direction part of the inverse camera matrix, `toWorld`, and
        composed onto the centre translation. */
    method Pan(mouseDelta: Vec2, toWorld: Vec3 -> Vec3)
      requires Valid()
      modifies this
      ensures Valid()
      ensures centerTranslation == Add(toWorld(PanDelta(mouseDelta, old(invScreen), old(translationZ))), old(centerTranslation))
      ensures rotation == old(rotation) && translationZ == old(translationZ)
      ensures zoomSpeed == old(zoomSpeed) && invScreen == old(invScreen)
    {
      var delta := PanDelta(mouseDelta, invScreen, translationZ);
      var worldDelta := toWorld(delta);
      centerTranslation := Add(worldDelta, centerTranslation);
    }
  }
}

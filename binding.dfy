/** How js/volume-raycaster.js wires the controller to its camera.

    The page sets four callbacks and leaves `press` unset: a mouse move
    with the left button rotates, with the right button pans by the pixel
    delta with y turned to point up, and any other button does nothing;
    the wheel and the pinch (the same function) zoom; a two-finger drag
    pans. The camera is built with zoom speed 2. */
module CameraBinding {
  import opened VecMath
  import opened Wrappers
  import opened Arcball
  import opened TouchInput
  import opened WebGLCamera

  const ZoomSpeed: real := 2.0

  /** `mousemove`, `wheel`, `twoFingerDrag` and `pinch` are set. */
  const RendererHandlers: Handlers := Handlers(true, false, true, true, true)

  /** The camera call a callback makes. `Throws`: the callback reads a
      coordinate of an undefined previous position. */
  datatype CameraCall =
    | RotateCall(prev: Vec2, cur: Vec2)
    | PanCall(delta: Vec2)
    | ZoomCall(amount: real)
    | NoCall
    | Throws

  /** The renderer's callbacks. */
  function Bind(e: Emit): (c: CameraCall)
    ensures c.Throws? <==> e.MouseMoved? && e.prev.None? && (e.buttons == 1 || e.buttons == 2)
    ensures c.RotateCall? <==> e.MouseMoved? && e.prev.Some? && e.buttons == 1
    ensures c.ZoomCall? <==> e.Wheeled? || e.Pinched?
    ensures c.PanCall? <==> e.Dragged? || (e.MouseMoved? && e.prev.Some? && e.buttons == 2)
  {
    match e
    case MouseMoved(prev, cur, buttons) =>
      if buttons == 1 then
        if prev.Some? then RotateCall(prev.value, cur) else Throws
      else if buttons == 2 then
        if prev.Some? then PanCall(Vec2(cur.x - prev.value.x, prev.value.y - cur.y)) else Throws
      else NoCall
    case Pressed(_) => NoCall
    case Wheeled(amount) => ZoomCall(amount)
    case Pinched(amount) => ZoomCall(amount)
    case Dragged(drag) => PanCall(drag)
  }

  /** A two-finger drag in which both fingers move by the same vector pans
      exactly as a right-button mouse drag by that vector does. */
  lemma TwoFingerDragMatchesRightDrag(p: Vec2, m: Vec2)
    ensures Bind(Dragged(PanAmount(m, m))) == Bind(MouseMoved(Some(p), Vec2(p.x + m.x, p.y + m.y), 2))
  {
    var d := PanAmount(m, m);
    assert 2.0 * d.x == 2.0 * m.x;
    assert 2.0 * d.y == -(2.0 * m.y);
  }

  /** One finger moving from its recorded position rotates the camera as a
      left-button mouse drag between the same positions. */
  lemma SingleTouchRotates(m: map<int, Vec2>, changed: seq<Touch>,
                           normalize: Vec2 -> Vec2, dist: (Vec2, Vec2) -> real)
    requires |m| == 1 && |changed| >= 1 && changed[0].id in m
    ensures TouchMoveProceeds(RendererHandlers, m, changed)
    ensures |TouchMoveEmits(RendererHandlers, m, changed, normalize, dist)| == 1
    ensures Bind(TouchMoveEmits(RendererHandlers, m, changed, normalize, dist)[0]) ==
            RotateCall(m[changed[0].id], changed[0].pos)
  {
  }

  /** With the renderer's callbacks a two-finger move never throws and
      calls at most one of zoom and pan. */
  lemma TwoFingersZoomOrPan(m: map<int, Vec2>, changed: seq<Touch>,
                            normalize: Vec2 -> Vec2, dist: (Vec2, Vec2) -> real)
    requires |m| >= 2
    ensures TouchMoveProceeds(RendererHandlers, m, changed)
    ensures forall e :: e in TouchMoveEmits(RendererHandlers, m, changed, normalize, dist) ==>
              Bind(e).ZoomCall? || Bind(e).PanCall?
  {
  }

  /** With a positive screen height, scrolling up (negative deltaY) never
      moves the camera away from the centre and scrolling down never moves
      it closer; both stay within the zoom limit. */
  lemma WheelDirection(z: real, deltaY: real, invHeight: real)
    requires z <= ZoomLimit && invHeight > 0.0
    ensures deltaY <= 0.0 ==> z <= ZoomedZ(z, -deltaY * invHeight * ZoomSpeed, ZoomLimit) <= ZoomLimit
    ensures deltaY >= 0.0 ==> ZoomedZ(z, -deltaY * invHeight * ZoomSpeed, ZoomLimit) <= z
  {
    var step := -deltaY * invHeight * ZoomSpeed;
    if deltaY <= 0.0 {
      assert (-deltaY) * invHeight >= 0.0;
      assert step >= 0.0;
    } else {
      assert deltaY * invHeight > 0.0;
      assert step < 0.0;
    }
  }

  /** The callback invoked with `e`, run on the camera. The two square
      roots of the arcball projection and the direction part of the inverse
      camera matrix are supplied by the caller. */
  method Dispatch(cam: Camera, e: Emit, prevRoot: real, curRoot: real, toWorld: Vec3 -> Vec3)
    returns (ok: bool)
    requires cam.Valid()
    requires Bind(e).RotateCall? ==>
               IsSqrt(prevRoot, Radicand(NormalizeScreen(Bind(e).prev, cam.invScreen))) &&
               IsSqrt(curRoot, Radicand(NormalizeScreen(Bind(e).cur, cam.invScreen)))
    modifies cam
    ensures cam.Valid()
    ensures ok <==> !Bind(e).Throws?
    ensures cam.zoomSpeed == old(cam.zoomSpeed) && cam.invScreen == old(cam.invScreen)
    ensures Bind(e).RotateCall? ==>
              cam.rotation == Rotated(old(cam.rotation),
                                      ScreenToArcball(NormalizeScreen(Bind(e).prev, cam.invScreen), prevRoot),
                                      ScreenToArcball(NormalizeScreen(Bind(e).cur, cam.invScreen), curRoot)) &&
              cam.translationZ == old(cam.translationZ) && cam.centerTranslation == old(cam.centerTranslation)
    ensures Bind(e).PanCall? ==>
              cam.centerTranslation ==
                Add(toWorld(PanDelta(Bind(e).delta, old(cam.invScreen), old(cam.translationZ))), old(cam.centerTranslation)) &&
              cam.rotation == old(cam.rotation) && cam.translationZ == old(cam.translationZ)
    ensures Bind(e).ZoomCall? ==>
              cam.translationZ == ZoomedZ(old(cam.translationZ), Bind(e).amount * cam.invScreen.y * cam.zoomSpeed, ZoomLimit) &&
              cam.rotation == old(cam.rotation) && cam.centerTranslation == old(cam.centerTranslation)
    ensures Bind(e).NoCall? || Bind(e).Throws? ==>
              cam.rotation == old(cam.rotation) && cam.translationZ == old(cam.translationZ) &&
              cam.centerTranslation == old(cam.centerTranslation)
  {
    var call := Bind(e);
    ok := true;
    match call
    case RotateCall(prev, cur) =>
      cam.Rotate(prev, cur, prevRoot, curRoot);
    case PanCall(delta) =>
      cam.Pan(delta, toWorld);
    case ZoomCall(amount) =>
      cam.Zoom(amount);
    case NoCall =>
    case Throws =>
      ok := false;
  }
}

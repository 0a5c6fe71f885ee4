/** The mouse and touch `Controller` of js/webgl-util.js.

    The controller turns canvas events into calls of the callbacks a page
    registers (`mousemove`, `press`, `wheel`, `pinch`, `twoFingerDrag`).
    It remembers the previous mouse position and, per touch identifier,
    the last known touch position. One finger moving is reported as a
    left-button mouse move; two fingers are classified as a pinch or a
    two-finger drag by comparing their motion directions with the axis
    between them. Positions are canvas-relative (the DOM's client
    coordinates minus the canvas rectangle); `vec2.normalize` and
    `pointDist`, which take square roots, are parameters. The callbacks the
    controller invokes are returned, in order, as `Emit` values. */
module TouchInput {
  import opened VecMath
  import opened Wrappers

  /** Which of the five callbacks are set (non-null). */
  datatype Handlers = Handlers(mousemove: bool, press: bool, wheel: bool, twoFingerDrag: bool, pinch: bool)

  const NoHandlers: Handlers := Handlers(false, false, false, false, false)

  /** A callback invocation. `MouseMoved.prev` is None when a touch moves
      whose start the controller never saw (`touches[id]` is undefined). */
  datatype Emit =
    | MouseMoved(prev: Option<Vec2>, cur: Vec2, buttons: int)
    | Pressed(pos: Vec2)
    | Wheeled(amount: real)
    | Pinched(amount: real)
    | Dragged(drag: Vec2)

  /** One entry of `changedTouches`. */
  datatype Touch = Touch(id: int, pos: Vec2)

  function Sub2(a: Vec2, b: Vec2): Vec2 { Vec2(a.x - b.x, a.y - b.y) }

  /** `vec2.lerp(out, a, b, t)`. */
  function Lerp2(a: Vec2, b: Vec2, t: real): Vec2
  {
    Vec2(a.x + t * (b.x - a.x), a.y + t * (b.y - a.y))
  }

  /** `Math.sign`. */
  function Sign(x: real): int
  {
    if x > 0.0 then 1 else if x < 0.0 then -1 else 0
  }

  // ---------------------------------------------------------------------
  // The touch table
  // ---------------------------------------------------------------------

  /** The identifiers of a list of touches. */
  function IdsOf(cs: seq<Touch>): set<int>
  {
    set i | 0 <= i < |cs| :: cs[i].id
  }

  /** The table after `touches[t.identifier] = position` for each changed
      touch in order. */
  function Recorded(m: map<int, Vec2>, cs: seq<Touch>): map<int, Vec2>
    decreases |cs|
  {
    if cs == [] then m
    else Recorded(m, cs[..|cs| - 1])[cs[|cs| - 1].id := cs[|cs| - 1].pos]
  }

  lemma IdsOfSnoc(cs: seq<Touch>, n: nat)
    requires n < |cs|
    ensures IdsOf(cs[..n + 1]) == IdsOf(cs[..n]) + {cs[n].id}
  {
    var a, b := cs[..n + 1], cs[..n];
    assert a[n] == cs[n];
    forall x | x in IdsOf(a)
      ensures x in IdsOf(b) + {cs[n].id}
    {
      var i :| 0 <= i < |a| && a[i].id == x;
      if i < n {
        assert b[i] == a[i];
      }
    }
    forall x | x in IdsOf(b)
      ensures x in IdsOf(a)
    {
      var i :| 0 <= i < |b| && b[i].id == x;
      assert a[i] == b[i];
    }
  }

  /** Recording adds exactly the changed identifiers to the table. */
  lemma {:induction false} RecordedKeys(m: map<int, Vec2>, cs: seq<Touch>)
    ensures Recorded(m, cs).Keys == m.Keys + IdsOf(cs)
    decreases |cs|
  {
    if cs != [] {
      var n := |cs| - 1;
      RecordedKeys(m, cs[..n]);
      IdsOfSnoc(cs, n);
      assert cs[..n + 1] == cs;
    }
  }

  /** An identifier that did not change keeps its position. */
  lemma {:induction false} RecordedUntouched(m: map<int, Vec2>, cs: seq<Touch>, id: int)
    requires id in m && id !in IdsOf(cs)
    ensures id in Recorded(m, cs) && Recorded(m, cs)[id] == m[id]
    decreases |cs|
  {
    if cs != [] {
      var n := |cs| - 1;
      IdsOfSnoc(cs, n);
      assert cs[..n + 1] == cs;
      RecordedUntouched(m, cs[..n], id);
    }
  }

  /** A changed touch with no later entry for its identifier leaves its
      position in the table: the last report of a finger wins. */
  lemma {:induction false} RecordedLatest(m: map<int, Vec2>, cs: seq<Touch>, i: nat)
    requires i < |cs|
    requires forall j :: i < j < |cs| ==> cs[j].id != cs[i].id
    ensures cs[i].id in Recorded(m, cs) && Recorded(m, cs)[cs[i].id] == cs[i].pos
    decreases |cs|
  {
    var n := |cs| - 1;
    if i < n {
      var init := cs[..n];
      assert init[i] == cs[i];
      RecordedLatest(m, init, i);
    }
  }

  /** Ending the touches that just started leaves the table as it was for
      every other identifier. */
  lemma EndAfterStart(m: map<int, Vec2>, cs: seq<Touch>)
    ensures Recorded(m, cs) - IdsOf(cs) == m - IdsOf(cs)
  {
    RecordedKeys(m, cs);
    forall id | id in m && id !in IdsOf(cs)
      ensures Recorded(m, cs)[id] == m[id]
    {
      RecordedUntouched(m, cs, id);
    }
  }

  /** The smallest identifier. JavaScript lists the integer keys of an
      object in ascending order, so this is the first key `for (t in
      touches)` visits. */
  ghost function Least(s: set<int>): (k: int)
    requires s != {}
    ensures k in s && forall j :: j in s ==> k <= j
  {
    LeastExists(s);
    var k :| k in s && forall j :: j in s ==> k <= j;
    k
  }

  /** A non-empty set has an element. */
  lemma Elem(s: set<int>)
    requires s != {}
    ensures exists k :: k in s
  {
    if forall k :: k !in s {
      assert false;
    }
  }

  lemma LeastExists(s: set<int>)
    requires s != {}
    ensures exists k :: k in s && forall j :: j in s ==> k <= j
    decreases |s|
  {
    Elem(s);
    var x :| x in s;
    if s != {x} {
      var rest := s - {x};
      LeastExists(rest);
      var k :| k in rest && forall j :: j in rest ==> k <= j;
      var least := if x < k then x else k;
      forall j | j in s
        ensures least <= j
      {
        if j != x {
          assert j in rest;
        }
      }
      assert least in s;
    } else {
      assert forall j :: j in s ==> x <= j;
    }
  }

  /** The first two keys in iteration order, found by one pass over the
      keys. */
  method LeastTwo(s: set<int>) returns (a: int, b: int)
    requires |s| >= 2
    ensures a in s && b in s - {a}
    ensures a == Least(s) && b == Least(s - {a})
  {
    var rest := s;
    Elem(rest);
    var x :| x in rest;
    rest := rest - {x};
    assert |rest| == |s| - 1;
    Elem(rest);
    var y :| y in rest;
    rest := rest - {y};
    if x < y {
      a, b := x, y;
    } else {
      a, b := y, x;
    }
    while rest != {}
      invariant rest <= s && a in s && b in s && a < b
      invariant a !in rest && b !in rest
      invariant forall j :: j in s && j !in rest ==> a <= j
      invariant forall j :: j in s && j !in rest && j != a ==> b <= j
      decreases |rest|
    {
      Elem(rest);
      var z :| z in rest;
      rest := rest - {z};
      if z < a {
        a, b := z, a;
      } else if z < b {
        b := z;
      }
    }
  }

  // ---------------------------------------------------------------------
  // The two-finger rule
  // ---------------------------------------------------------------------

  datatype Gesture = PinchGesture | DragGesture | NoGesture

  /** Pinch when its callback is set and both fingers move mostly along
      the axis between them, in opposite directions; otherwise drag when
      its callback is set and both move mostly along their mean motion, in
      the same direction; otherwise nothing. */
  function Decide(h: Handlers, pinch0: real, pinch1: real, pan0: real, pan1: real): Gesture
  {
    if h.pinch && Abs(pinch0) > 0.5 && Abs(pinch1) > 0.5 && Sign(pinch0) != Sign(pinch1) then PinchGesture
    else if h.twoFingerDrag && Abs(pan0) > 0.5 && Abs(pan1) > 0.5 && Sign(pan0) == Sign(pan1) then DragGesture
    else NoGesture
  }

  /** Two values away from zero have different signs exactly when their
      product is negative. */
  lemma SignsDifferIffProductNegative(x: real, y: real)
    requires x != 0.0 && y != 0.0
    ensures Sign(x) != Sign(y) <==> x * y < 0.0
  {
    if x > 0.0 && y > 0.0 {
      assert x * y > 0.0;
    } else if x < 0.0 && y < 0.0 {
      assert (-x) * (-y) > 0.0;
    } else if x > 0.0 {
      assert x * (-y) > 0.0;
    } else {
      assert (-x) * y > 0.0;
    }
  }

  predicate Opposed(p0: real, p1: real)
  {
    Abs(p0) > 0.5 && Abs(p1) > 0.5 && p0 * p1 < 0.0
  }

  predicate Aligned(q0: real, q1: real)
  {
    Abs(q0) > 0.5 && Abs(q1) > 0.5 && q0 * q1 > 0.0
  }

  /** The rule restated with products instead of `Math.sign`: pinch
      exactly when the pinch callback is set and the pinch motions are
      opposed; drag exactly when that fails, the drag callback is set and
      the pan motions are aligned. */
  lemma DecideSpec(h: Handlers, p0: real, p1: real, q0: real, q1: real)
    ensures Decide(h, p0, p1, q0, q1) == PinchGesture <==> h.pinch && Opposed(p0, p1)
    ensures Decide(h, p0, p1, q0, q1) == DragGesture <==>
              !(h.pinch && Opposed(p0, p1)) && h.twoFingerDrag && Aligned(q0, q1)
    ensures Decide(h, p0, p1, q0, q1) == NoGesture <==>
              !(h.pinch && Opposed(p0, p1)) && !(h.twoFingerDrag && Aligned(q0, q1))
  {
    if Abs(p0) > 0.5 && Abs(p1) > 0.5 {
      SignsDifferIffProductNegative(p0, p1);
    }
    if Abs(q0) > 0.5 && Abs(q1) > 0.5 {
      SignsDifferIffProductNegative(q0, q1);
    }
  }

  /** The drag amount: the mean motion of the two fingers, with y flipped
      to point up. */
  function PanAmount(m0: Vec2, m1: Vec2): (d: Vec2)
    ensures 2.0 * d.x == m0.x + m1.x && 2.0 * d.y == -(m0.y + m1.y)
  {
    var p := Lerp2(m0, m1, 0.5);
    Vec2(p.x, -p.y)
  }

  /** The rule applied to the positions of the first two fingers before
      and after the move. */
  function TwoFingerEmit(h: Handlers, old0: Vec2, old1: Vec2, new0: Vec2, new1: Vec2,
                         normalize: Vec2 -> Vec2, dist: (Vec2, Vec2) -> real): (out: seq<Emit>)
    ensures |out| <= 1
    ensures out != [] ==> out[0].Pinched? || out[0].Dragged?
    ensures out != [] && out[0].Pinched? ==> h.pinch && out[0].amount == dist(new0, new1) - dist(old0, old1)
    ensures out != [] && out[0].Dragged? ==> h.twoFingerDrag && out[0].drag == PanAmount(Sub2(new0, old0), Sub2(new1, old1))
  {
    var m0 := Sub2(new0, old0);
    var m1 := Sub2(new1, old1);
    var dir0 := normalize(m0);
    var dir1 := normalize(m1);
    var pinchAxis := normalize(Sub2(old1, old0));
    var panAxis := normalize(Lerp2(m0, m1, 0.5));
    match Decide(h, Dot2(pinchAxis, dir0), Dot2(pinchAxis, dir1), Dot2(panAxis, dir0), Dot2(panAxis, dir1))
    case PinchGesture => [Pinched(dist(new0, new1) - dist(old0, old1))]
    case DragGesture => [Dragged(PanAmount(m0, m1))]
    case NoGesture => []
  }

  /** `touchmove` can go ahead: two or more touches are known, or one is
      and either no `mousemove` callback is set or a touch changed. With no
      touch known, `oldTouches[0]` is undefined and the handler throws. */
  predicate TouchMoveProceeds(h: Handlers, m: map<int, Vec2>, changed: seq<Touch>)
  {
    |m| >= 2 || (|m| == 1 && (!h.mousemove || |changed| >= 1))
  }

  /** What a `touchmove` that goes ahead reports. */
  ghost function TouchMoveEmits(h: Handlers, m: map<int, Vec2>, changed: seq<Touch>,
                                normalize: Vec2 -> Vec2, dist: (Vec2, Vec2) -> real): seq<Emit>
    requires TouchMoveProceeds(h, m, changed)
  {
    if |m| == 1 then
      if h.mousemove then
        var t := changed[0];
        [MouseMoved(if t.id in m then Some(m[t.id]) else None, t.pos, 1)]
      else []
    else
      var cur := m + Recorded(map[], changed);
      var o0 := Least(m.Keys);
      var o1 := Least(m.Keys - {o0});
      var n0 := Least(cur.Keys);
      var n1 := Least(cur.Keys - {n0});
      TwoFingerEmit(h, m[o0], m[o1], cur[n0], cur[n1], normalize, dist)
  }

  /** Merging the changed touches over the table is recording them. */
  lemma {:induction false} MergeIsRecorded(m: map<int, Vec2>, cs: seq<Touch>)
    ensures m + Recorded(map[], cs) == Recorded(m, cs)
    decreases |cs|
  {
    if cs != [] {
      MergeIsRecorded(m, cs[..|cs| - 1]);
    }
  }

  class Controller {
    var handlers: Handlers
    /** `prevMouse`: null until the first mouse move. */
    var prevMouse: Option<Vec2>
    /** `touches`: identifier to last known position. */
    var touches: map<int, Vec2>

    /** `new Controller()` followed by `registerForCanvas`: no callbacks,
        no mouse position and no touches yet. */
    constructor ()
      ensures handlers == NoHandlers && prevMouse == None && touches == map[]
    {
      handlers := NoHandlers;
      prevMouse := None;
      touches := map[];
    }

    /** The page assigning its callbacks. */
    method SetHandlers(h: Handlers)
      modifies this
      ensures handlers == h && prevMouse == old(prevMouse) && touches == old(touches)
    {
      handlers := h;
    }

    /** `mousemove`: the first event only records the position; later ones
        report the previous and current positions. */
    method MouseMove(cur: Vec2, buttons: int) returns (out: seq<Emit>)
      modifies this
      ensures prevMouse == Some(cur)
      ensures out == if old(prevMouse).Some? && handlers.mousemove
                     then [MouseMoved(old(prevMouse), cur, buttons)] else []
      ensures handlers == old(handlers) && touches == old(touches)
    {
      out := [];
      if prevMouse.None? {
        prevMouse := Some(cur);
      } else if handlers.mousemove {
        out := [MouseMoved(prevMouse, cur, buttons)];
      }
      prevMouse := Some(cur);
    }

    /** `mousedown`. */
    method MouseDown(cur: Vec2) returns (out: seq<Emit>)
      ensures out == if handlers.press then [Pressed(cur)] else []
    {
      out := [];
      if handlers.press {
        out := [Pressed(cur)];
      }
    }

    /** `wheel`: scrolling by deltaY zooms by -deltaY. */
    method Wheel(deltaY: real) returns (out: seq<Emit>)
      ensures out == if handlers.wheel then [Wheeled(-deltaY)] else []
    {
      out := [];
      if handlers.wheel {
        out := [Wheeled(-deltaY)];
      }
    }

    /** `touchstart`: record every changed touch; a single new touch is
        also reported as a press. */
    method TouchStart(changed: seq<Touch>) returns (out: seq<Emit>)
      modifies this
      ensures touches == Recorded(old(touches), changed)
      ensures out == if |changed| == 1 && handlers.press then [Pressed(changed[0].pos)] else []
      ensures handlers == old(handlers) && prevMouse == old(prevMouse)
    {
      out := [];
      var i := 0;
      while i < |changed|
        invariant 0 <= i <= |changed|
        invariant touches == Recorded(old(touches), changed[..i])
        invariant handlers == old(handlers) && prevMouse == old(prevMouse)
        invariant out == if i >= 1 && |changed| == 1 && handlers.press then [Pressed(changed[0].pos)] else []
      {
        var t := changed[i];
        assert changed[..i + 1][..i] == changed[..i];
        touches := touches[t.id := t.pos];
        if |changed| == 1 && handlers.press {
          out := out + [Pressed(touches[t.id])];
        }
        i := i + 1;
      }
      assert changed[..i] == changed;
    }

    /** The update loop at the end of `touchmove`. */
    method RecordAll(changed: seq<Touch>)
      modifies this
      ensures touches == Recorded(old(touches), changed)
      ensures handlers == old(handlers) && prevMouse == old(prevMouse)
    {
      var i := 0;
      while i < |changed|
        invariant 0 <= i <= |changed|
        invariant touches == Recorded(old(touches), changed[..i])
        invariant handlers == old(handlers) && prevMouse == old(prevMouse)
      {
        assert changed[..i + 1][..i] == changed[..i];
        touches := touches[changed[i].id := changed[i].pos];
        i := i + 1;
      }
      assert changed[..i] == changed;
    }

    /** `touchmove`. One known touch: a left-button mouse move from its
        recorded position. Otherwise the changed touches are merged over the
        table, the first two fingers (by identifier) before and after are
        compared, and a pinch, a drag or nothing is reported. Then the table
        is updated. With no known touch, or with one and an empty change
        list while `mousemove` is set, the handler throws (ok is false) and
        nothing changes. */
    method TouchMove(changed: seq<Touch>, normalize: Vec2 -> Vec2, dist: (Vec2, Vec2) -> real)
      returns (ok: bool, out: seq<Emit>)
      modifies this
      ensures ok <==> TouchMoveProceeds(handlers, old(touches), changed)
      ensures !ok ==> touches == old(touches) && out == []
      ensures ok ==> touches == Recorded(old(touches), changed)
      ensures ok ==> out == TouchMoveEmits(handlers, old(touches), changed, normalize, dist)
      ensures |out| <= 1
      ensures handlers == old(handlers) && prevMouse == old(prevMouse)
    {
      out := [];
      var numTouches := |touches|;
      if numTouches == 1 {
        if handlers.mousemove {
          if |changed| == 0 {
            return false, [];
          }
          var t := changed[0];
          var prevTouch := if t.id in touches then Some(touches[t.id]) else None;
          out := [MouseMoved(prevTouch, t.pos, 1)];
        }
      } else {
        var curTouches: map<int, Vec2> := map[];
        var i := 0;
        while i < |changed|
          invariant 0 <= i <= |changed|
          invariant curTouches == Recorded(map[], changed[..i])
        {
          assert changed[..i + 1][..i] == changed[..i];
          curTouches := curTouches[changed[i].id := changed[i].pos];
          i := i + 1;
        }
        assert changed[..i] == changed;
        // the touches that did not change keep their recorded positions
        curTouches := touches + curTouches;
        if numTouches == 0 {
          return false, [];
        }
        assert |curTouches.Keys| >= |touches.Keys| by {
          assert touches.Keys <= curTouches.Keys;
          SubsetCard(touches.Keys, curTouches.Keys);
        }
        var o0, o1 := LeastTwo(touches.Keys);
        var n0, n1 := LeastTwo(curTouches.Keys);
        out := TwoFingerEmit(handlers, touches[o0], touches[o1], curTouches[n0], curTouches[n1], normalize, dist);
      }
      RecordAll(changed);
      ok := true;
    }

    /** `touchend` and `touchcancel`: forget the changed touches. */
    method TouchEnd(changed: seq<Touch>)
      modifies this
      ensures touches == old(touches) - IdsOf(changed)
      ensures handlers == old(handlers) && prevMouse == old(prevMouse)
    {
      var i := 0;
      while i < |changed|
        invariant 0 <= i <= |changed|
        invariant touches == old(touches) - IdsOf(changed[..i])
        invariant handlers == old(handlers) && prevMouse == old(prevMouse)
      {
        IdsOfSnoc(changed, i);
        touches := touches - {changed[i].id};
        i := i + 1;
      }
      assert changed[..i] == changed;
    }
  }

  lemma SubsetCard(a: set<int>, b: set<int>)
    requires a <= b
    ensures |a| <= |b|
  {
    assert b == a + (b - a);
  }
}

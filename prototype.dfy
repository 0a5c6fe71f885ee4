/** The prototype renderer of js/volume-raycasting.js: the same slab test
    as the main shader, but a fixed count of eight samples spread over
    [t0, t1] and taken from the eye onwards, a different accumulation
    rule, and a 4x4x4 test volume. */
module Prototype {
  import opened VecMath
  import opened Wrappers
  import opened RayMarch

  /** `n_samples`. */
  const SampleCount: nat := 8

  /** `dt = (t_hit.y - t_hit.x) / float(n_samples)`. */
  function ProtoStep(h: Hit): (dt: real)
    ensures h.t0 <= h.t1 ==> dt >= 0.0
    ensures dt * (SampleCount as real) == h.t1 - h.t0
  {
    (h.t1 - h.t0) / (SampleCount as real)
  }

  /** One step of the prototype loop:
      rgb += (1 - a) * s * vec3(s);  a += (1 - a) * s * dt. */
  function ProtoOver(c: RGBA, s: real, dt: real): RGBA
  {
    var w := (1.0 - c.a) * s;
    RGBA(c.r + w * s, c.g + w * s, c.b + w * s, c.a + w * dt)
  }

  /** The prototype loop over its sample values, breaking after the first
      step that brings alpha to 0.95 or more. */
  function ProtoComposite(c: RGBA, s: seq<real>, dt: real): Marched
    decreases |s|
  {
    if s == [] then Marched(c, 0)
    else
      var c' := ProtoOver(c, s[0], dt);
      if c'.a >= OpaqueEnough then Marched(c', 1)
      else
        var rest := ProtoComposite(c', s[1..], dt);
        Marched(rest.color, rest.steps + 1)
  }

  /** The loop never runs more iterations than it has samples. */
  lemma {:induction false} ProtoStepsBounded(c: RGBA, s: seq<real>, dt: real)
    ensures ProtoComposite(c, s, dt).steps <= |s|
    ensures s != [] ==> ProtoComposite(c, s, dt).steps >= 1
    decreases |s|
  {
    if s != [] && ProtoOver(c, s[0], dt).a < OpaqueEnough {
      ProtoStepsBounded(ProtoOver(c, s[0], dt), s[1..], dt);
    }
  }

  lemma MulUnitBound(x: real, y: real)
    requires 0.0 <= x <= 1.0 && 0.0 <= y <= 1.0
    ensures 0.0 <= x * y <= x
  {
    MulNonNegative(x, y);
    MulMonotone(x, y, 1.0);
  }

  lemma MulAssociative(x: real, y: real, z: real)
    ensures (x * y) * z == x * (y * z)
  {
  }

  /** One prototype step keeps alpha in [0, 1] and does not lower it. */
  lemma ProtoOverAlpha(c: RGBA, v: real, dt: real)
    requires 0.0 <= c.a <= 1.0 && 0.0 <= v * dt <= 1.0
    ensures c.a <= ProtoOver(c, v, dt).a <= 1.0
  {
    MulAssociative(1.0 - c.a, v, dt);
    assert ProtoOver(c, v, dt).a == c.a + (1.0 - c.a) * (v * dt);
    MulUnitBound(1.0 - c.a, v * dt);
  }

  /** While every s * dt lies in [0, 1], alpha stays in [0, 1] and never
      decreases. */
  lemma {:induction false} ProtoAlphaBounded(c: RGBA, s: seq<real>, dt: real)
    requires 0.0 <= c.a <= 1.0
    requires forall i :: 0 <= i < |s| ==> 0.0 <= s[i] * dt <= 1.0
    ensures c.a <= ProtoComposite(c, s, dt).color.a <= 1.0
    decreases |s|
  {
    if s != [] {
      ProtoOverAlpha(c, s[0], dt);
      assert forall i :: 0 <= i < |s[1..]| ==> s[1..][i] == s[i + 1];
      ProtoAlphaBounded(ProtoOver(c, s[0], dt), s[1..], dt);
    }
  }

  /** Unlike the main shader, the prototype does not keep a premultiplied
      colour: one full-valued sample with a small step already gives
      rgb = 1 against alpha = 0.1. */
  lemma ProtoNotPremultiplied()
    ensures var c := ProtoComposite(Transparent, [1.0], 0.1).color;
            c.r == 1.0 && c.a == 0.1 && !Premultiplied(c)
  {
  }

  /** Sample i is read at `transformed_eye + float(i) * dt * ray_dir`: from
      the eye, not from t0. */
  function ProtoSamples(volume: Vec3 -> real, eye: Vec3, dir: Vec3, dt: real): (s: seq<real>)
    ensures |s| == SampleCount
    ensures forall i :: 0 <= i < SampleCount ==> s[i] == ProtoSampleAt(volume, eye, dir, dt, i)
  {
    seq(SampleCount, i requires 0 <= i < SampleCount => ProtoSampleAt(volume, eye, dir, dt, i))
  }

  function ProtoSampleAt(volume: Vec3 -> real, eye: Vec3, dir: Vec3, dt: real, i: nat): real
  {
    volume(PointAt(eye, dir, (i as real) * dt))
  }

  /** The first prototype sample is read at the eye itself, whatever t0 is. */
  lemma ProtoFirstSampleAtEye(volume: Vec3 -> real, eye: Vec3, dir: Vec3, dt: real)
    ensures ProtoSamples(volume, eye, dir, dt)[0] == volume(eye)
  {
    assert PointAt(eye, dir, (0 as real) * dt) == eye;
  }

  /** The prototype fragment shader as a function: None for `discard`. */
  function ProtoColor(eye: Vec3, dir: Vec3, volume: Vec3 -> real): Option<RGBA>
    requires NonZero(dir)
  {
    var h := IntersectBox(eye, dir);
    if h.t0 > h.t1 then None
    else
      var dt := ProtoStep(h);
      Some(ProtoComposite(Transparent, ProtoSamples(volume, eye, dir, dt), dt).color)
  }

  /** The prototype's `for` loop over eight samples, breaking once alpha
      reaches 0.95. */
  method ProtoLoop(eye: Vec3, dir: Vec3, dt: real, volume: Vec3 -> real) returns (color: RGBA)
    ensures color == ProtoComposite(Transparent, ProtoSamples(volume, eye, dir, dt), dt).color
  {
    color := Transparent;
    ghost var s := ProtoSamples(volume, eye, dir, dt);
    var i := 0;
    while i < SampleCount
      invariant 0 <= i <= SampleCount
      invariant ProtoComposite(Transparent, s, dt).color == ProtoComposite(color, s[i..], dt).color
    {
      var v := volume(PointAt(eye, dir, (i as real) * dt));
      assert v == ProtoSampleAt(volume, eye, dir, dt, i) == s[i];
      color := ProtoOver(color, v, dt);
      if color.a >= OpaqueEnough {
        return;
      }
      assert s[i..][1..] == s[i + 1..];
      i := i + 1;
    }
  }

  /** The prototype fragment shader's `main`: discard on a miss, otherwise
      colour from vec4(0) through the eight-sample loop. */
  method ProtoMain(eye: Vec3, dir: Vec3, volume: Vec3 -> real) returns (frag: Option<RGBA>)
    requires NonZero(dir)
    ensures frag == ProtoColor(eye, dir, volume)
  {
    var h := IntersectBox(eye, dir);
    if h.t0 > h.t1 {
      return None;
    }
    var dt := ProtoStep(h);
    var color := ProtoLoop(eye, dir, dt, volume);
    frag := Some(color);
  }

  /** With every sample value times dt in [0, 1], the colour the
      prototype loop produces has alpha in [0, 1]. */
  lemma ProtoLoopAlphaInUnit(eye: Vec3, dir: Vec3, dt: real, volume: Vec3 -> real)
    requires forall p :: 0.0 <= volume(p) * dt <= 1.0
    ensures 0.0 <= ProtoComposite(Transparent, ProtoSamples(volume, eye, dir, dt), dt).color.a <= 1.0
  {
    var s := ProtoSamples(volume, eye, dir, dt);
    forall i | 0 <= i < |s|
      ensures 0.0 <= s[i] * dt <= 1.0
    {
      assert s[i] == volume(PointAt(eye, dir, (i as real) * dt));
    }
    ProtoAlphaBounded(Transparent, s, dt);
  }

  // ---------------------------------------------------------------------
  // The 4x4x4 test volume
  // ---------------------------------------------------------------------

  /** The `data` array uploaded as the R8 test texture, x fastest, written
      row by row (four texels) and layer by layer (four rows). */
  const EmptyRow: seq<int> := [0, 0, 0, 0]
  const MidRow: seq<int> := [0, 150, 150, 0]
  const EmptyLayer: seq<int> := EmptyRow + EmptyRow + EmptyRow + EmptyRow
  const MidLayer: seq<int> := EmptyRow + MidRow + MidRow + EmptyRow
  const TestVolume: seq<int> := EmptyLayer + MidLayer + MidLayer + EmptyLayer

  /** Texel index of (x, y, z) in a 4x4x4 texture uploaded x fastest. */
  function Texel(x: nat, y: nat, z: nat): (i: nat)
    requires x < 4 && y < 4 && z < 4
    ensures i < 64
  {
    x + 4 * y + 16 * z
  }

  predicate Inner(c: nat) { c == 1 || c == 2 }

  lemma LayerAt(layer: seq<int>, x: nat, y: nat)
    requires layer == EmptyLayer || layer == MidLayer
    requires x < 4 && y < 4
    ensures |layer| == 16
    ensures layer[4 * y + x] == if layer == MidLayer && Inner(x) && Inner(y) then 150 else 0
  {
    var row := if layer == MidLayer && Inner(y) then MidRow else EmptyRow;
    assert layer[4 * y + x] == row[x];
  }

  /** The test volume is a 2x2x2 block of value 150 in the middle of an
      empty 4x4x4 grid. */
  lemma TestVolumeIsCentredBlock(x: nat, y: nat, z: nat)
    requires x < 4 && y < 4 && z < 4
    ensures |TestVolume| == 64
    ensures TestVolume[Texel(x, y, z)] == if Inner(x) && Inner(y) && Inner(z) then 150 else 0
  {
    var layer := if Inner(z) then MidLayer else EmptyLayer;
    LayerAt(layer, x, y);
    assert TestVolume[Texel(x, y, z)] == layer[4 * y + x];
  }
}

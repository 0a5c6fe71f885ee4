/** The ray-marching volume renderer of js/shader-srcs.js: the vertex
    shader's volume transform and the fragment shader's box intersection,
    start clamp, step size, jittered start and front-to-back compositing
    loop. Texture lookups are the function parameters `volume` (the red
    channel of the 3D texture at a point) and `colormap` (the rgb of the
    transfer function at a value); `normalize(vray_dir)` is given as the ray
    direction. */
module RayMarch {
  import opened VecMath
  import opened Wrappers
  import WangHash
  import Int32Ops

  // ---------------------------------------------------------------------
  // Vertex shader: placing the volume in the unit cube
  // ---------------------------------------------------------------------

  predicate NonZero(v: Vec3) { v.x != 0.0 && v.y != 0.0 && v.z != 0.0 }

  /** `volume_translation = vec3(0.5) - volume_scale * 0.5`. */
  function VolumeTranslation(scale: Vec3): Vec3
  {
    Vec3(0.5 - scale.x * 0.5, 0.5 - scale.y * 0.5, 0.5 - scale.z * 0.5)
  }

  /** World position of a cube vertex: `pos * volume_scale + volume_translation`. */
  function VertexPosition(pos: Vec3, scale: Vec3): Vec3
  {
    Add(Vec3(pos.x * scale.x, pos.y * scale.y, pos.z * scale.z), VolumeTranslation(scale))
  }

  /** `transformed_eye = (eye_pos - volume_translation) / volume_scale`: the
      eye in the volume's own [0,1]^3 coordinates. */
  function TransformedEye(eyePos: Vec3, scale: Vec3): Vec3
    requires NonZero(scale)
  {
    var d := Sub(eyePos, VolumeTranslation(scale));
    Vec3(d.x / scale.x, d.y / scale.y, d.z / scale.z)
  }

  /** `vray_dir = pos - transformed_eye`. */
  function RayDirection(pos: Vec3, eyePos: Vec3, scale: Vec3): Vec3
    requires NonZero(scale)
  {
    Sub(pos, TransformedEye(eyePos, scale))
  }

  /** The vertex map and the eye map are mutual inverses. */
  lemma VertexEyeInverse(p: Vec3, scale: Vec3)
    requires NonZero(scale)
    ensures TransformedEye(VertexPosition(p, scale), scale) == p
    ensures VertexPosition(TransformedEye(p, scale), scale) == p
  {
    var w := VertexPosition(p, scale);
    AxisInverse(p.x, scale.x, w.x);
    AxisInverse(p.y, scale.y, w.y);
    AxisInverse(p.z, scale.z, w.z);
    var e := TransformedEye(p, scale);
    AxisInverse(e.x, scale.x, p.x);
    AxisInverse(e.y, scale.y, p.y);
    AxisInverse(e.z, scale.z, p.z);
  }

  /** One axis of `VertexEyeInverse`: w = u * s + (0.5 - s * 0.5) exactly
      when u = (w - (0.5 - s * 0.5)) / s. */
  lemma AxisInverse(u: real, s: real, w: real)
    requires s != 0.0
    ensures w == u * s + (0.5 - s * 0.5) <==> u == (w - (0.5 - s * 0.5)) / s
  {
  }

  /** The unit cube is placed centred on (0.5, 0.5, 0.5) with side lengths
      `scale`. */
  lemma VertexInCentredBox(p: Vec3, scale: Vec3)
    requires InUnitCube(p)
    requires scale.x > 0.0 && scale.y > 0.0 && scale.z > 0.0
    ensures var w := VertexPosition(p, scale);
            0.5 - scale.x * 0.5 <= w.x <= 0.5 + scale.x * 0.5 &&
            0.5 - scale.y * 0.5 <= w.y <= 0.5 + scale.y * 0.5 &&
            0.5 - scale.z * 0.5 <= w.z <= 0.5 + scale.z * 0.5
  {
    var w := VertexPosition(p, scale);
    VertexCoords(p, scale);
    AxisInBox(p.x, scale.x, w.x);
    AxisInBox(p.y, scale.y, w.y);
    AxisInBox(p.z, scale.z, w.z);
  }

  /** `VertexPosition` coordinate by coordinate. */
  lemma VertexCoords(p: Vec3, scale: Vec3)
    ensures VertexPosition(p, scale).x == p.x * scale.x + (0.5 - scale.x * 0.5)
    ensures VertexPosition(p, scale).y == p.y * scale.y + (0.5 - scale.y * 0.5)
    ensures VertexPosition(p, scale).z == p.z * scale.z + (0.5 - scale.z * 0.5)
  {
  }

  /** One axis of `VertexInCentredBox`. */
  lemma AxisInBox(u: real, s: real, w: real)
    requires 0.0 <= u <= 1.0 && s > 0.0 && w == u * s + (0.5 - s * 0.5)
    ensures 0.5 - s * 0.5 <= w <= 0.5 + s * 0.5
  {
    UnitTimesPositive(u, s);
  }

  lemma UnitTimesPositive(u: real, s: real)
    requires 0.0 <= u <= 1.0 && s > 0.0
    ensures 0.0 <= u * s <= s
  {
    assert u * s <= 1.0 * s;
  }

  // ---------------------------------------------------------------------
  // Fragment shader: ray / unit-cube intersection
  // ---------------------------------------------------------------------

  datatype Hit = Hit(t0: real, t1: real)

  predicate InUnitCube(p: Vec3)
  {
    0.0 <= p.x <= 1.0 && 0.0 <= p.y <= 1.0 && 0.0 <= p.z <= 1.0
  }

  /** The point orig + t * dir. */
  function PointAt(orig: Vec3, dir: Vec3, t: real): Vec3 { Add(orig, Scale(dir, t)) }

  /** Entry parameter of one slab: min of the two plane crossings. */
  function SlabNear(o: real, d: real): real
    requires d != 0.0
  {
    Min((0.0 - o) * (1.0 / d), (1.0 - o) * (1.0 / d))
  }

  /** Exit parameter of one slab: max of the two plane crossings. */
  function SlabFar(o: real, d: real): real
    requires d != 0.0
  {
    Max((0.0 - o) * (1.0 / d), (1.0 - o) * (1.0 / d))
  }

  /** `intersectBox(orig, dir)` against [0,1]^3: t0 is the largest slab entry,
      t1 the smallest slab exit. A zero direction component gives IEEE
      infinities in the source and is excluded here. */
  function IntersectBox(orig: Vec3, dir: Vec3): (h: Hit)
    requires NonZero(dir)
    ensures h.t0 >= SlabNear(orig.x, dir.x) && h.t0 >= SlabNear(orig.y, dir.y) && h.t0 >= SlabNear(orig.z, dir.z)
    ensures h.t0 == SlabNear(orig.x, dir.x) || h.t0 == SlabNear(orig.y, dir.y) || h.t0 == SlabNear(orig.z, dir.z)
    ensures h.t1 <= SlabFar(orig.x, dir.x) && h.t1 <= SlabFar(orig.y, dir.y) && h.t1 <= SlabFar(orig.z, dir.z)
    ensures h.t1 == SlabFar(orig.x, dir.x) || h.t1 == SlabFar(orig.y, dir.y) || h.t1 == SlabFar(orig.z, dir.z)
  {
    var t0 := Max(SlabNear(orig.x, dir.x), Max(SlabNear(orig.y, dir.y), SlabNear(orig.z, dir.z)));
    var t1 := Min(SlabFar(orig.x, dir.x), Min(SlabFar(orig.y, dir.y), SlabFar(orig.z, dir.z)));
    Hit(t0, t1)
  }

  lemma SignOfProduct(u: real, d: real)
    requires d != 0.0
    ensures d > 0.0 ==> (u * d >= 0.0 <==> u >= 0.0)
    ensures d < 0.0 ==> (u * d >= 0.0 <==> u <= 0.0)
  {
  }

  /** One slab: o + t * d lies in [0, 1] exactly when t lies between the
      slab's entry and exit parameters. */
  lemma {:induction false} SlabExact(o: real, d: real, t: real)
    requires d != 0.0
    ensures (0.0 <= o + d * t <= 1.0) <==> (SlabNear(o, d) <= t <= SlabFar(o, d))
  {
    assert d * t == t * d;
    var a := (0.0 - o) * (1.0 / d);
    var b := (1.0 - o) * (1.0 / d);
    assert a * d == 0.0 - o;
    assert b * d == 1.0 - o;
    assert (t - a) * d == o + t * d;
    assert (b - t) * d == 1.0 - (o + t * d);
    assert (b - a) * d == 1.0;
    assert (a - t) * d == -(o + t * d);
    assert (t - b) * d == (o + t * d) - 1.0;
    SignOfProduct(t - a, d);
    SignOfProduct(b - t, d);
    SignOfProduct(a - t, d);
    SignOfProduct(t - b, d);
    SignOfProduct(b - a, d);
    if d > 0.0 {
      assert a <= b;
      assert SlabNear(o, d) == a && SlabFar(o, d) == b;
    } else {
      assert b <= a;
      assert SlabNear(o, d) == b && SlabFar(o, d) == a;
    }
  }

  /** The slab test is exact: a point of the ray lies in the unit cube if
      and only if its parameter lies in [t0, t1]. */
  lemma {:induction false} IntersectBoxExact(orig: Vec3, dir: Vec3, t: real)
    requires NonZero(dir)
    ensures InUnitCube(PointAt(orig, dir, t)) <==>
            IntersectBox(orig, dir).t0 <= t <= IntersectBox(orig, dir).t1
  {
    PointInCube(orig, dir, t);
    AllSlabs(orig.x, dir.x, orig.y, dir.y, orig.z, dir.z, t);
    BoxIsSlabs(orig, dir, t);
  }

  /** The three slab tests together, for a ray from (o1, o2, o3) along
      (d1, d2, d3). */
  lemma AllSlabs(o1: real, d1: real, o2: real, d2: real, o3: real, d3: real, t: real)
    requires d1 != 0.0 && d2 != 0.0 && d3 != 0.0
    ensures (0.0 <= o1 + d1 * t <= 1.0 && 0.0 <= o2 + d2 * t <= 1.0 && 0.0 <= o3 + d3 * t <= 1.0) <==>
            (SlabNear(o1, d1) <= t <= SlabFar(o1, d1) && SlabNear(o2, d2) <= t <= SlabFar(o2, d2) &&
             SlabNear(o3, d3) <= t <= SlabFar(o3, d3))
  {
    SlabExact(o1, d1, t);
    SlabExact(o2, d2, t);
    SlabExact(o3, d3, t);
  }

  /** The cube test on a ray point, coordinate by coordinate. */
  lemma PointInCube(orig: Vec3, dir: Vec3, t: real)
    ensures InUnitCube(PointAt(orig, dir, t)) <==>
            (0.0 <= orig.x + dir.x * t <= 1.0 && 0.0 <= orig.y + dir.y * t <= 1.0 &&
             0.0 <= orig.z + dir.z * t <= 1.0)
  {
    assert PointAt(orig, dir, t) == Vec3(orig.x + dir.x * t, orig.y + dir.y * t, orig.z + dir.z * t);
  }

  /** t lies in [t0, t1] exactly when it lies between every slab's entry
      and exit parameters. */
  lemma BoxIsSlabs(orig: Vec3, dir: Vec3, t: real)
    requires NonZero(dir)
    ensures IntersectBox(orig, dir).t0 <= t <= IntersectBox(orig, dir).t1 <==>
            (SlabNear(orig.x, dir.x) <= t <= SlabFar(orig.x, dir.x) &&
             SlabNear(orig.y, dir.y) <= t <= SlabFar(orig.y, dir.y) &&
             SlabNear(orig.z, dir.z) <= t <= SlabFar(orig.z, dir.z))
  {
    var h := IntersectBox(orig, dir);
    SlabsMeet(SlabNear(orig.x, dir.x), SlabNear(orig.y, dir.y), SlabNear(orig.z, dir.z),
              SlabFar(orig.x, dir.x), SlabFar(orig.y, dir.y), SlabFar(orig.z, dir.z), h.t0, h.t1, t);
  }

  /** t lies in [t0, t1], where t0 is the largest of n1, n2, n3 and t1 the
      smallest of f1, f2, f3, exactly when it lies in each [ni, fi]. */
  lemma SlabsMeet(n1: real, n2: real, n3: real, f1: real, f2: real, f3: real, t0: real, t1: real, t: real)
    requires t0 >= n1 && t0 >= n2 && t0 >= n3 && (t0 == n1 || t0 == n2 || t0 == n3)
    requires t1 <= f1 && t1 <= f2 && t1 <= f3 && (t1 == f1 || t1 == f2 || t1 == f3)
    ensures t0 <= t <= t1 <==> n1 <= t <= f1 && n2 <= t <= f2 && n3 <= t <= f3
  {
  }

  /** The fragment is discarded (t0 > t1) exactly when the ray's line misses
      the cube. */
  lemma DiscardIffMiss(orig: Vec3, dir: Vec3)
    requires NonZero(dir)
    ensures IntersectBox(orig, dir).t0 > IntersectBox(orig, dir).t1 <==>
            forall t :: !InUnitCube(PointAt(orig, dir, t))
  {
    var h := IntersectBox(orig, dir);
    forall t ensures InUnitCube(PointAt(orig, dir, t)) <==> h.t0 <= t <= h.t1 {
      IntersectBoxExact(orig, dir, t);
    }
    if h.t0 <= h.t1 {
      assert InUnitCube(PointAt(orig, dir, h.t0));
    }
  }

  /** A ray from (0.5, 0.5, -1) heading mostly along +z enters the cube at
      t = 1 and leaves it at t = 2. */
  lemma FrontRayHit()
    ensures IntersectBox(Vec3(0.5, 0.5, -1.0), Vec3(0.25, 0.25, 1.0)) == Hit(1.0, 2.0)
  {
  }

  // ---------------------------------------------------------------------
  // Fragment shader: discard test, start clamp and step size
  // ---------------------------------------------------------------------

  /** The start of marching: `discard` when t0 > t1, otherwise
      `t_hit.x = max(t_hit.x, 0.0)` (the eye may be inside the volume). */
  function MarchStart(h: Hit): (r: Option<real>)
    ensures r.None? <==> h.t0 > h.t1
    ensures r.Some? ==> r.value >= 0.0 && r.value >= h.t0
    ensures r.Some? && h.t0 >= 0.0 ==> r.value == h.t0
    ensures r.Some? && h.t0 < 0.0 ==> r.value == 0.0
  {
    if h.t0 > h.t1 then None else Some(Max(h.t0, 0.0))
  }

  /** Marching starts inside the cube whenever it takes a sample at all. */
  lemma StartInsideCube(orig: Vec3, dir: Vec3, t: real)
    requires NonZero(dir)
    requires MarchStart(IntersectBox(orig, dir)) == Some(t)
    requires t <= IntersectBox(orig, dir).t1
    ensures InUnitCube(PointAt(orig, dir, t))
  {
    IntersectBoxExact(orig, dir, t);
  }

  predicate PositiveDims(dims: IVec3) { dims.x > 0 && dims.y > 0 && dims.z > 0 }

  /** 1 / (dims_i * |dir_i|): the ray parameter that advances one voxel
      along one axis. */
  function VoxelStep(n: int, d: real): real
    requires n > 0 && d != 0.0
  {
    1.0 / (n as real * Abs(d))
  }

  /** `dt = dt_scale * min(dt_vec.x, min(dt_vec.y, dt_vec.z))`. */
  function StepSize(dtScale: real, dims: IVec3, dir: Vec3): (dt: real)
    requires PositiveDims(dims) && NonZero(dir)
    ensures dtScale > 0.0 ==> dt > 0.0
  {
    var m := Min(VoxelStep(dims.x, dir.x), Min(VoxelStep(dims.y, dir.y), VoxelStep(dims.z, dir.z)));
    assert m > 0.0;
    assert dtScale > 0.0 ==> dtScale * m > 0.0;
    dtScale * m
  }

  lemma ScaledBound(dtScale: real, m: real, v: real, w: real)
    requires dtScale >= 0.0 && 0.0 < m <= v && v * w == 1.0 && w > 0.0
    ensures dtScale * m * w <= dtScale
  {
    assert m * w <= v * w;
    MulMonotone(dtScale, m * w, 1.0);
  }

  lemma MulNonNegative(x: real, y: real)
    requires x >= 0.0 && y >= 0.0
    ensures x * y >= 0.0
  {
  }

  lemma MulPositive(x: real, y: real)
    requires x > 0.0 && y > 0.0
    ensures x * y > 0.0
  {
  }

  /** Multiplying by a non-negative factor keeps an inequality. */
  lemma MulMonotone(k: real, x: real, y: real)
    requires k >= 0.0 && x <= y
    ensures k * x <= k * y
  {
    assert k * (y - x) >= 0.0;
  }

  /** One step advances at most `dt_scale` voxels along every axis, and
      exactly `dt_scale` voxels along the axis the ray crosses fastest. */
  lemma {:induction false} StepAdvancesAtMostScale(dtScale: real, dims: IVec3, dir: Vec3)
    requires PositiveDims(dims) && NonZero(dir) && dtScale >= 0.0
    ensures var dt := StepSize(dtScale, dims, dir);
            dt * (dims.x as real * Abs(dir.x)) <= dtScale &&
            dt * (dims.y as real * Abs(dir.y)) <= dtScale &&
            dt * (dims.z as real * Abs(dir.z)) <= dtScale
    ensures var dt := StepSize(dtScale, dims, dir);
            dt * (dims.x as real * Abs(dir.x)) == dtScale ||
            dt * (dims.y as real * Abs(dir.y)) == dtScale ||
            dt * (dims.z as real * Abs(dir.z)) == dtScale
  {
    var vx, vy, vz := VoxelStep(dims.x, dir.x), VoxelStep(dims.y, dir.y), VoxelStep(dims.z, dir.z);
    var wx, wy, wz := dims.x as real * Abs(dir.x), dims.y as real * Abs(dir.y), dims.z as real * Abs(dir.z);
    assert vx * wx == 1.0 && vy * wy == 1.0 && vz * wz == 1.0;
    var m := Min(vx, Min(vy, vz));
    assert StepSize(dtScale, dims, dir) == dtScale * m;
    ScaledBound(dtScale, m, vx, wx);
    ScaledBound(dtScale, m, vy, wy);
    ScaledBound(dtScale, m, vz, wz);
    if m == vx {
      assert dtScale * m * wx == dtScale * (vx * wx);
    } else if m == vy {
      assert dtScale * m * wy == dtScale * (vy * wy);
    } else {
      assert dtScale * m * wz == dtScale * (vz * wz);
    }
  }

  /** The number of iterations of `for (t = start; t < t1; t += dt)` when
      no early exit happens: the least n with start + n * dt >= t1. */
  function StepCount(start: real, t1: real, dt: real): (n: nat)
    requires dt > 0.0
    ensures start + (n as real) * dt >= t1
    ensures n > 0 ==> start + ((n - 1) as real) * dt < t1
  {
    if start >= t1 then 0
    else
      var x := (t1 - start) / dt;
      assert x > 0.0;
      var f := x.Floor;
      var n: nat := if f as real == x then f else f + 1;
      assert x * dt == t1 - start;
      assert n as real >= x && (n - 1) as real < x;
      ProductAtLeast(start, t1, dt, x, n as real);
      ProductBelow(start, t1, dt, x, (n - 1) as real);
      n
  }

  /** With x * dt == t1 - start, any count n >= x reaches t1. */
  lemma ProductAtLeast(start: real, t1: real, dt: real, x: real, n: real)
    requires dt > 0.0 && x * dt == t1 - start && n >= x
    ensures start + n * dt >= t1
  {
    MulNonNegative(n - x, dt);
    assert (n - x) * dt == n * dt - x * dt;
  }

  /** With x * dt == t1 - start, any count m < x stays below t1. */
  lemma ProductBelow(start: real, t1: real, dt: real, x: real, m: real)
    requires dt > 0.0 && x * dt == t1 - start && m < x
    ensures start + m * dt < t1
  {
    MulPositive(x - m, dt);
    assert (x - m) * dt == x * dt - m * dt;
  }

  /** The loop counter after k executions of `t += dt`. */
  function Param(start: real, dt: real, k: nat): real
  {
    if k == 0 then start else Param(start, dt, k - 1) + dt
  }

  /** Repeated stepping gives start + k * dt. */
  lemma {:induction false} ParamClosedForm(start: real, dt: real, k: nat)
    ensures Param(start, dt, k) == start + (k as real) * dt
  {
    if k > 0 {
      ParamClosedForm(start, dt, k - 1);
      assert ((k - 1) as real) * dt + dt == (k as real) * dt;
    }
  }

  /** Every earlier iteration ran with t < t1. */
  lemma StepCountMinimal(start: real, t1: real, dt: real, k: nat)
    requires dt > 0.0 && k < StepCount(start, t1, dt)
    ensures Param(start, dt, k) < t1
  {
    var n := StepCount(start, t1, dt);
    ParamClosedForm(start, dt, k);
    assert ((n - 1 - k) as real) * dt >= 0.0;
  }

  /** Past the last iteration t >= t1. */
  lemma StepCountExhausted(start: real, t1: real, dt: real, k: nat)
    requires dt > 0.0 && k >= StepCount(start, t1, dt)
    ensures Param(start, dt, k) >= t1
  {
    var n := StepCount(start, t1, dt);
    ParamClosedForm(start, dt, k);
    assert ((k - n) as real) * dt >= 0.0;
  }

  /** A cube that lies behind the eye (t1 < 0) yields no samples. */
  lemma BehindEyeNoSamples(t1: real, dt: real)
    requires dt > 0.0 && t1 < 0.0
    ensures StepCount(0.0, t1, dt) == 0
  {
  }

  // ---------------------------------------------------------------------
  // Front-to-back compositing with early exit
  // ---------------------------------------------------------------------

  datatype RGBA = RGBA(r: real, g: real, b: real, a: real)

  /** The output colour before the loop (taken to start at zero). */
  const Transparent: RGBA := RGBA(0.0, 0.0, 0.0, 0.0)

  /** Early ray termination threshold. */
  const OpaqueEnough: real := 0.95

  /** One sample: the scalar `val` (used directly as alpha) and the
      transfer function's rgb at `val`. */
  datatype Sample = Sample(val: real, rgb: Vec3)

  predicate InUnit(x: real) { 0.0 <= x <= 1.0 }

  predicate ValidRGB(c: Vec3) { InUnit(c.x) && InUnit(c.y) && InUnit(c.z) }

  predicate ValidSample(s: Sample) { InUnit(s.val) && ValidRGB(s.rgb) }

  /** Premultiplied colour: alpha in [0, 1] and every channel in [0, alpha]. */
  predicate Premultiplied(c: RGBA)
  {
    0.0 <= c.a <= 1.0 && 0.0 <= c.r <= c.a && 0.0 <= c.g <= c.a && 0.0 <= c.b <= c.a
  }

  /** One compositing step:
      rgb += (1 - a) * val * sample_rgb;  a += (1 - a) * val. */
  function Over(c: RGBA, s: Sample): RGBA
  {
    var w := (1.0 - c.a) * s.val;
    RGBA(c.r + w * s.rgb.x, c.g + w * s.rgb.y, c.b + w * s.rgb.z, c.a + w)
  }

  lemma ChannelStep(ch: real, a: real, w: real, x: real)
    requires 0.0 <= ch <= a && 0.0 <= w && InUnit(x)
    ensures 0.0 <= ch + w * x <= a + w
  {
    assert w * x <= w * 1.0;
  }

  /** A compositing step keeps the colour premultiplied and never lowers
      alpha. */
  lemma {:induction false} OverKeepsPremultiplied(c: RGBA, s: Sample)
    requires Premultiplied(c) && ValidSample(s)
    ensures Premultiplied(Over(c, s)) && Over(c, s).a >= c.a
  {
    var w := (1.0 - c.a) * s.val;
    MulNonNegative(1.0 - c.a, s.val);
    MulMonotone(1.0 - c.a, s.val, 1.0);
    assert c.a + w <= 1.0;
    assert Over(c, s).a == c.a + w;
    ChannelStep(c.r, c.a, w, s.rgb.x);
    ChannelStep(c.g, c.a, w, s.rgb.y);
    ChannelStep(c.b, c.a, w, s.rgb.z);
  }

  /** Plain front-to-back blending of all samples, without early exit. */
  function Blend(c: RGBA, s: seq<Sample>): RGBA
    decreases |s|
  {
    if s == [] then c else Blend(Over(c, s[0]), s[1..])
  }

  /** Result of the marching loop: the colour and the number of samples
      taken. */
  datatype Marched = Marched(color: RGBA, steps: nat)

  /** The marching loop over the samples it would take, with the early exit
      after the first step that brings alpha to 0.95 or more. */
  function Composite(c: RGBA, s: seq<Sample>): Marched
    decreases |s|
  {
    if s == [] then Marched(c, 0)
    else
      var c' := Over(c, s[0]);
      if c'.a >= OpaqueEnough then Marched(c', 1)
      else
        var rest := Composite(c', s[1..]);
        Marched(rest.color, rest.steps + 1)
  }

  lemma PrefixTail(s: seq<Sample>, j: nat)
    requires 0 < j <= |s|
    ensures s[..j][1..] == s[1..][..j - 1]
  {
  }

  /** The early-exit loop blends exactly a prefix of the samples, and that
      prefix ends at the first sample that brings alpha to 0.95 or more (or
      at the end of the ray). */
  lemma {:induction false} CompositeIsFirstOpaquePrefix(c: RGBA, s: seq<Sample>)
    ensures var m := Composite(c, s);
            m.steps <= |s| && m.color == Blend(c, s[..m.steps]) &&
            (m.steps < |s| ==> m.color.a >= OpaqueEnough) &&
            (forall j :: 0 < j < m.steps ==> Blend(c, s[..j]).a < OpaqueEnough)
    decreases |s|
  {
    if s != [] {
      var c' := Over(c, s[0]);
      assert Blend(c, s[..1]) == c' by {
        assert s[..1][1..] == [];
      }
      if c'.a < OpaqueEnough {
        CompositeIsFirstOpaquePrefix(c', s[1..]);
        var m := Composite(c, s);
        var rest := Composite(c', s[1..]);
        assert m.steps == rest.steps + 1;
        PrefixTail(s, m.steps);
        assert m.color == Blend(c, s[..m.steps]);
        forall j | 0 < j < m.steps
          ensures Blend(c, s[..j]).a < OpaqueEnough
        {
          PrefixTail(s, j);
          if j > 1 {
            assert Blend(c, s[..j]) == Blend(c', s[1..][..j - 1]);
          }
        }
      }
    }
  }

  /** Compositing from a premultiplied colour stays premultiplied, and
      alpha never decreases. */
  lemma {:induction false} CompositeKeepsPremultiplied(c: RGBA, s: seq<Sample>)
    requires Premultiplied(c)
    requires forall i :: 0 <= i < |s| ==> ValidSample(s[i])
    ensures Premultiplied(Composite(c, s).color) && Composite(c, s).color.a >= c.a
    decreases |s|
  {
    if s != [] {
      OverKeepsPremultiplied(c, s[0]);
      CompositeKeepsPremultiplied(Over(c, s[0]), s[1..]);
    }
  }

  /** A first sample with value 0.95 or more ends the march after exactly
      one step. */
  lemma OpaqueFirstSampleStopsAtOnce(s: seq<Sample>)
    requires s != [] && s[0].val >= OpaqueEnough
    ensures Composite(Transparent, s).steps == 1
  {
  }

  // ---------------------------------------------------------------------
  // Sample positions and the whole fragment
  // ---------------------------------------------------------------------

  /** The jitter of pixel (px, py): `wang_hash(int(gl_FragCoord.x + 640.0 * gl_FragCoord.y))`. */
  function Jitter(px: nat, py: nat): (offset: real)
    ensures 0.0 <= offset < 1.0
  {
    WangHash.Hash(Int32Ops.FromInt(WangHash.FragSeed(px, py)))
  }

  /** The sample point after k executions of `p += ray_dir * dt`. */
  function Pos(p0: Vec3, step: Vec3, k: nat): Vec3
  {
    if k == 0 then p0 else Add(Pos(p0, step, k - 1), step)
  }

  /** Repeated stepping lands at p0 + k * step. */
  lemma {:induction false} PosClosedForm(p0: Vec3, step: Vec3, k: nat)
    ensures Pos(p0, step, k) == Add(p0, Scale(step, k as real))
  {
    if k > 0 {
      PosClosedForm(p0, step, k - 1);
      assert (k - 1) as real + 1.0 == k as real;
    }
  }

  /** The value read at p and its colour in the transfer function. */
  function SampleAt(volume: Vec3 -> real, colormap: real -> Vec3, p: Vec3): Sample
  {
    Sample(volume(p), colormap(volume(p)))
  }

  /** The samples the loop would read when it runs to t1. */
  function Samples(volume: Vec3 -> real, colormap: real -> Vec3, p0: Vec3, step: Vec3, n: nat): (s: seq<Sample>)
    ensures |s| == n
  {
    seq(n, i requires 0 <= i < n => SampleAt(volume, colormap, Pos(p0, step, i)))
  }

  /** The colour the marching loop produces on [start, t1) with step dt and
      jitter offset. */
  function March(eye: Vec3, rayDir: Vec3, start: real, t1: real, dt: real, offset: real,
                 volume: Vec3 -> real, colormap: real -> Vec3): RGBA
    requires dt > 0.0
  {
    var p0 := PointAt(eye, rayDir, start + offset * dt);
    Composite(Transparent, Samples(volume, colormap, p0, Scale(rayDir, dt), StepCount(start, t1, dt))).color
  }

  /** The fragment shader's `main` as a function of its inputs: None for
      `discard`, otherwise the composited colour. */
  function FragmentColor(eye: Vec3, rayDir: Vec3, dims: IVec3, dtScale: real, px: nat, py: nat,
                         volume: Vec3 -> real, colormap: real -> Vec3): Option<RGBA>
    requires NonZero(rayDir) && PositiveDims(dims) && dtScale > 0.0
  {
    var h := IntersectBox(eye, rayDir);
    match MarchStart(h)
    case None => None
    case Some(start) =>
      Some(March(eye, rayDir, start, h.t1, StepSize(dtScale, dims, rayDir), Jitter(px, py), volume, colormap))
  }

  /** The `for` loop of the fragment shader, from `t = start` while `t < t1`,
      breaking once alpha reaches 0.95. */
  method MarchLoop(eye: Vec3, rayDir: Vec3, start: real, t1: real, dt: real, offset: real,
                   volume: Vec3 -> real, colormap: real -> Vec3) returns (color: RGBA)
    requires dt > 0.0
    ensures color == March(eye, rayDir, start, t1, dt, offset, volume, colormap)
  {
    var p0 := PointAt(eye, rayDir, start + offset * dt);
    var step := Scale(rayDir, dt);
    ghost var n := StepCount(start, t1, dt);
    ghost var s := Samples(volume, colormap, p0, step, n);
    color := Transparent;
    var p := p0;
    var t := start;
    ghost var k: nat := 0;
    while t < t1
      invariant k <= n
      invariant t == Param(start, dt, k)
      invariant p == Pos(p0, step, k)
      invariant Composite(Transparent, s).color == Composite(color, s[k..]).color
      decreases n - k
    {
      if k >= n {
        StepCountExhausted(start, t1, dt, k);
        assert false;
      }
      var val := volume(p);
      var rgb := colormap(val);
      assert Sample(val, rgb) == s[k];
      color := Over(color, Sample(val, rgb));
      if color.a >= OpaqueEnough {
        return;
      }
      assert s[k..][1..] == s[k + 1..];
      p := Add(p, step);
      t := t + dt;
      k := k + 1;
    }
    if k < n {
      StepCountMinimal(start, t1, dt, k);
    }
  }

  /** The fragment shader's `main`, with the output colour starting out
      transparent. */
  method FragmentMain(eye: Vec3, rayDir: Vec3, dims: IVec3, dtScale: real, px: nat, py: nat,
                      volume: Vec3 -> real, colormap: real -> Vec3) returns (frag: Option<RGBA>)
    requires NonZero(rayDir) && PositiveDims(dims) && dtScale > 0.0
    ensures frag == FragmentColor(eye, rayDir, dims, dtScale, px, py, volume, colormap)
  {
    var h := IntersectBox(eye, rayDir);
    if h.t0 > h.t1 {
      return None;
    }
    var start := Max(h.t0, 0.0);
    var dt := StepSize(dtScale, dims, rayDir);
    var offset := Jitter(px, py);
    var color := MarchLoop(eye, rayDir, start, h.t1, dt, offset, volume, colormap);
    frag := Some(color);
  }

  /** Stepping by dt * dir from the point at parameter u stays on the ray:
      k steps reach the point at parameter u + k * dt. */
  lemma {:induction false} PosOnRay(eye: Vec3, rayDir: Vec3, u: real, dt: real, k: nat)
    ensures Pos(PointAt(eye, rayDir, u), Scale(rayDir, dt), k) == PointAt(eye, rayDir, u + (k as real) * dt)
  {
    var kr := k as real;
    PosClosedForm(PointAt(eye, rayDir, u), Scale(rayDir, dt), k);
    StepsAlongRay(eye, rayDir, u, dt, kr);
  }

  /** The point at u moved by kr steps of dt * dir is the point at u + kr * dt. */
  lemma StepsAlongRay(eye: Vec3, rayDir: Vec3, u: real, dt: real, kr: real)
    ensures Add(PointAt(eye, rayDir, u), Scale(Scale(rayDir, dt), kr)) == PointAt(eye, rayDir, u + kr * dt)
  {
    var l := Add(PointAt(eye, rayDir, u), Scale(Scale(rayDir, dt), kr));
    var r := PointAt(eye, rayDir, u + kr * dt);
    ScaleSum(eye.x, rayDir.x, u, dt, kr, l.x, r.x);
    ScaleSum(eye.y, rayDir.y, u, dt, kr, l.y, r.y);
    ScaleSum(eye.z, rayDir.z, u, dt, kr, l.z, r.z);
  }

  lemma ScaleSum(e: real, d: real, u: real, dt: real, k: real, l: real, r: real)
    requires l == (e + d * u) + (d * dt) * k && r == e + d * (u + k * dt)
    ensures l == r
  {
  }

  /** Where the k-th sample is taken: at ray parameter start + offset * dt + k * dt,
      for a loop counter start + k * dt still below t1. */
  lemma SampleLocation(eye: Vec3, rayDir: Vec3, start: real, t1: real, dt: real, offset: real,
                       volume: Vec3 -> real, colormap: real -> Vec3, k: nat)
    requires dt > 0.0
    requires k < StepCount(start, t1, dt)
    ensures var s := Samples(volume, colormap, PointAt(eye, rayDir, start + offset * dt),
                             Scale(rayDir, dt), StepCount(start, t1, dt));
            s[k] == SampleAt(volume, colormap, PointAt(eye, rayDir, start + offset * dt + (k as real) * dt))
    ensures start + (k as real) * dt < t1
  {
    PosOnRay(eye, rayDir, start + offset * dt, dt, k);
    StepCountMinimal(start, t1, dt, k);
    ParamClosedForm(start, dt, k);
  }

  /** With textures holding values in [0, 1], every fragment that is not
      discarded is a premultiplied colour. */
  lemma FragmentPremultiplied(eye: Vec3, rayDir: Vec3, dims: IVec3, dtScale: real, px: nat, py: nat,
                              volume: Vec3 -> real, colormap: real -> Vec3)
    requires NonZero(rayDir) && PositiveDims(dims) && dtScale > 0.0
    requires forall p :: InUnit(volume(p))
    requires forall v :: ValidRGB(colormap(v))
    ensures var f := FragmentColor(eye, rayDir, dims, dtScale, px, py, volume, colormap);
            f.Some? ==> Premultiplied(f.value)
  {
    var h := IntersectBox(eye, rayDir);
    if h.t0 <= h.t1 {
      var start := Max(h.t0, 0.0);
      MarchPremultiplied(eye, rayDir, start, h.t1, StepSize(dtScale, dims, rayDir), Jitter(px, py), volume, colormap);
    }
  }

  lemma MarchPremultiplied(eye: Vec3, rayDir: Vec3, start: real, t1: real, dt: real, offset: real,
                           volume: Vec3 -> real, colormap: real -> Vec3)
    requires dt > 0.0
    requires forall p :: InUnit(volume(p))
    requires forall v :: ValidRGB(colormap(v))
    ensures Premultiplied(March(eye, rayDir, start, t1, dt, offset, volume, colormap))
  {
    var p0 := PointAt(eye, rayDir, start + offset * dt);
    var s := Samples(volume, colormap, p0, Scale(rayDir, dt), StepCount(start, t1, dt));
    CompositeKeepsPremultiplied(Transparent, s);
  }

  /** A fragment is discarded exactly when its ray misses the unit cube. */
  lemma FragmentDiscardIffMiss(eye: Vec3, rayDir: Vec3, dims: IVec3, dtScale: real, px: nat, py: nat,
                               volume: Vec3 -> real, colormap: real -> Vec3)
    requires NonZero(rayDir) && PositiveDims(dims) && dtScale > 0.0
    ensures FragmentColor(eye, rayDir, dims, dtScale, px, py, volume, colormap).None? <==>
            forall t :: !InUnitCube(PointAt(eye, rayDir, t))
  {
    DiscardIffMiss(eye, rayDir);
  }
  /** The vertex shader's `vray_dir` joins the transformed eye to a point of
      the cube's surface, so the ray `main` marches along, any positive
      multiple of it (`normalize` divides by its length), reaches that point
      at parameter 1 / k, and the fragment is never discarded. */
  lemma {:induction false} VertexRayNotDiscarded(pos: Vec3, eyePos: Vec3, scale: Vec3, k: real,
                                                 dims: IVec3, dtScale: real, px: nat, py: nat,
                                                 volume: Vec3 -> real, colormap: real -> Vec3)
    requires InUnitCube(pos) && NonZero(scale) && k > 0.0
    requires NonZero(Scale(RayDirection(pos, eyePos, scale), k)) && PositiveDims(dims) && dtScale > 0.0
    ensures PointAt(TransformedEye(eyePos, scale), Scale(RayDirection(pos, eyePos, scale), k), 1.0 / k) == pos
    ensures FragmentColor(TransformedEye(eyePos, scale), Scale(RayDirection(pos, eyePos, scale), k),
                          dims, dtScale, px, py, volume, colormap).Some?
  {
    var e := TransformedEye(eyePos, scale);
    var d := RayDirection(pos, eyePos, scale);
    var dir := Scale(d, k);
    var q := PointAt(e, dir, 1.0 / k);
    AxisReached(e.x, pos.x, d.x, k, q.x);
    AxisReached(e.y, pos.y, d.y, k, q.y);
    AxisReached(e.z, pos.z, d.z, k, q.z);
    assert q == pos;
    FragmentDiscardIffMiss(e, dir, dims, dtScale, px, py, volume, colormap);
  }

  /** One axis of `VertexRayNotDiscarded`: e + (d * k) * (1 / k) = p for
      d = p - e. */
  lemma AxisReached(e: real, p: real, d: real, k: real, q: real)
    requires k > 0.0 && d == p - e && q == e + (d * k) * (1.0 / k)
    ensures q == p
  {
    assert (d * k) * (1.0 / k) == d * (k * (1.0 / k));
  }
}

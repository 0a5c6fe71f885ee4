/** Quaternions in gl-matrix layout (x, y, z, w), with `Mul` the Hamilton
    product that `quat.mul(out, a, b)` computes. */
module Quaternion {

  datatype Quat = Quat(x: real, y: real, z: real, w: real)

  /** `quat.create()`: the identity rotation. */
  const Identity: Quat := Quat(0.0, 0.0, 0.0, 1.0)

  function NormSq(q: Quat): real { q.x * q.x + q.y * q.y + q.z * q.z + q.w * q.w }

  function Negate(q: Quat): Quat { Quat(-q.x, -q.y, -q.z, -q.w) }

  /** Hamilton product a * b. */
  function Mul(a: Quat, b: Quat): Quat
  {
    Quat(a.x * b.w + a.w * b.x + a.y * b.z - a.z * b.y,
         a.y * b.w + a.w * b.y + a.z * b.x - a.x * b.z,
         a.z * b.w + a.w * b.z + a.x * b.y - a.y * b.x,
         a.w * b.w - a.x * b.x - a.y * b.y - a.z * b.z)
  }

  /** A pure quaternion (w = 0): the form `screenToArcball` produces. */
  predicate IsPure(q: Quat) { q.w == 0.0 }

  lemma NormMultiplicative(a: Quat, b: Quat)
    ensures NormSq(Mul(a, b)) == NormSq(a) * NormSq(b)
  {
    var (a1, a2, a3, a4, b1, b2, b3, b4) := (a.x, a.y, a.z, a.w, b.x, b.y, b.z, b.w);
    NormIdentity(a1, a2, a3, a4, b1, b2, b3, b4,
                 a1 * b4 + a4 * b1 + a2 * b3 - a3 * b2, a2 * b4 + a4 * b2 + a3 * b1 - a1 * b3,
                 a3 * b4 + a4 * b3 + a1 * b2 - a2 * b1, a4 * b4 - a1 * b1 - a2 * b2 - a3 * b3,
                 a1 * a1 + a2 * a2 + a3 * a3 + a4 * a4, b1 * b1 + b2 * b2 + b3 * b3 + b4 * b4);
  }

  /** The four-square identity behind `NormMultiplicative`, over the
      components of a, b and their product m. */
  lemma NormIdentity(a1: real, a2: real, a3: real, a4: real, b1: real, b2: real, b3: real, b4: real,
                     m1: real, m2: real, m3: real, m4: real, na: real, nb: real)
    requires m1 == a1 * b4 + a4 * b1 + a2 * b3 - a3 * b2
    requires m2 == a2 * b4 + a4 * b2 + a3 * b1 - a1 * b3
    requires m3 == a3 * b4 + a4 * b3 + a1 * b2 - a2 * b1
    requires m4 == a4 * b4 - a1 * b1 - a2 * b2 - a3 * b3
    requires na == a1 * a1 + a2 * a2 + a3 * a3 + a4 * a4
    requires nb == b1 * b1 + b2 * b2 + b3 * b3 + b4 * b4
    ensures m1 * m1 + m2 * m2 + m3 * m3 + m4 * m4 == na * nb
  {
  }

  lemma MulIdentity(q: Quat)
    ensures Mul(Identity, q) == q && Mul(q, Identity) == q
  {
  }

  /** Composing with the same pure unit quaternion twice negates: q * (q * r) == -r. */
  lemma DoublePureUnitNegates(q: Quat, r: Quat)
    requires IsPure(q) && NormSq(q) == 1.0
    ensures Mul(q, Mul(q, r)) == Negate(r)
  {
    var (a, b, c, x, y, z, w) := (q.x, q.y, q.z, r.x, r.y, r.z, r.w);
    assert q.w * q.w == 0.0;
    assert a * a + b * b + c * c == 1.0;
    var m := Mul(q, r);
    MulPure(q, r);
    MulPure(q, m);
    PureUnitTwice(a, b, c, x, y, z, w, m.x, m.y, m.z, m.w);
    assert Mul(q, m) == Quat(-x, -y, -z, -w);
  }

  /** The Hamilton product with a pure left factor. */
  lemma MulPure(q: Quat, r: Quat)
    requires IsPure(q)
    ensures Mul(q, r).x == q.x * r.w + q.y * r.z - q.z * r.y
    ensures Mul(q, r).y == q.y * r.w + q.z * r.x - q.x * r.z
    ensures Mul(q, r).z == q.z * r.w + q.x * r.y - q.y * r.x
    ensures Mul(q, r).w == -q.x * r.x - q.y * r.y - q.z * r.z
  {
  }

  /** `DoublePureUnitNegates` over components, for q = (a, b, c, 0) of
      unit norm, r = (x, y, z, w) and m = q * r. */
  lemma PureUnitTwice(a: real, b: real, c: real, x: real, y: real, z: real, w: real,
                      m1: real, m2: real, m3: real, m4: real)
    requires a * a + b * b + c * c == 1.0
    requires m1 == a * w + b * z - c * y && m2 == b * w + c * x - a * z
    requires m3 == c * w + a * y - b * x && m4 == -a * x - b * y - c * z
    ensures a * m4 + b * m3 - c * m2 == -x && b * m4 + c * m1 - a * m3 == -y
    ensures c * m4 + a * m2 - b * m1 == -z && -a * m1 - b * m2 - c * m3 == -w
  {
    var n := a * a + b * b + c * c;
    assert a * m4 + b * m3 - c * m2 == -n * x;
    assert b * m4 + c * m1 - a * m3 == -n * y;
    assert c * m4 + a * m2 - b * m1 == -n * z;
    assert -a * m1 - b * m2 - c * m3 == -n * w;
  }

  lemma PureUnitSquare(q: Quat)
    requires IsPure(q) && NormSq(q) == 1.0
    ensures Mul(q, q) == Quat(0.0, 0.0, 0.0, -1.0)
  {
  }
}

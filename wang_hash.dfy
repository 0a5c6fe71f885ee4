/** The `wang_hash` jitter of the ray-marching fragment shader
    (js/shader-srcs.js): integer mixing of a 32-bit seed, mapped to [0, 1). */
module WangHash {
  import opened Int32Ops

  const Modulus: int := 2147483647

  /** The straight-line mixing of `seed`; multiplications wrap modulo 2^32
      and shifts are arithmetic. The last step, s ^ (s >> 15), always leaves
      a non-negative value. */
  function Mix(seed: bv32): (m: bv32)
    ensures m & 0x8000_0000 == 0
  {
    var s := (seed ^ 61) ^ Asr(seed, 16);
    var s := s * 9;
    var s := s ^ Asr(s, 4);
    var s := s * 0x27d4eb2d;
    XorShiftClearsSign(s, 15);
    s ^ Asr(s, 15)
  }

  /** `wang_hash(seed)`. GLSL ES 3.00 leaves `%` undefined for negative
      operands, but the mixed seed is never negative, so the result is always
      defined and lies in [0, 1). */
  function Hash(seed: bv32): (r: real)
    ensures 0.0 <= r < 1.0
    ensures r * (Modulus as real) == (ToSigned(Mix(seed)) % Modulus) as real
  {
    var m := ToSigned(Mix(seed));
    assert m >= 0;
    (m % Modulus) as real / (Modulus as real)
  }

  /** The seed of the fragment at pixel (px, py): gl_FragCoord holds the
      pixel centre (px + 0.5, py + 0.5) and `int(...)` truncates. */
  function FragSeed(px: nat, py: nat): (seed: int)
    ensures seed == px + 640 * py + 320
  {
    ((px as real + 0.5) + 640.0 * (py as real + 0.5)).Floor
  }

  /** The jitter of the pixel at the origin. */
  lemma HashOfOriginPixel()
    ensures FragSeed(0, 0) == 320
    ensures Mix(320) == 0x562eead4
    ensures Hash(320) == 1445915348.0 / 2147483647.0
  {
  }
}

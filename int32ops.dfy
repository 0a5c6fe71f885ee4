/** 32-bit two's-complement integers as `bv32` bit patterns: the `int` of
    GLSL ES 3.00 and the operands of JavaScript's bitwise operators. */
module Int32Ops {

  const TwoTo32: int := 0x1_0000_0000

  /** The signed value of a bit pattern. */
  function ToSigned(x: bv32): (v: int)
    ensures x & 0x8000_0000 == 0 ==> 0 <= v
    ensures x & 0x8000_0000 != 0 ==> v < 0
  {
    if x & 0x8000_0000 == 0 then x as int else x as int - 0x1_0000_0000
  }

  /** The bit pattern of an integer taken modulo 2^32 (ECMAScript ToInt32). */
  function FromInt(v: int): bv32
  {
    (v % TwoTo32) as bv32
  }

  /** `x >> k` on a signed integer: an arithmetic shift that copies the sign
      bit into the vacated high bits (GLSL ES 3.00 section 5.9, ECMAScript
      signed right shift). */
  function Asr(x: bv32, k: bv32): bv32
    requires k < 32
  {
    if x & 0x8000_0000 == 0 then x >> k else (x >> k) | !(0xFFFF_FFFF >> k)
  }

  /** An arithmetic shift keeps the sign bit. */
  lemma AsrKeepsSign(x: bv32, k: bv32)
    requires k < 32
    ensures Asr(x, k) & 0x8000_0000 == x & 0x8000_0000
  {
  }

  /** For k > 0 the sign bit of `x ^ (x >> k)` is cleared: both operands
      carry the same sign bit. */
  lemma XorShiftClearsSign(x: bv32, k: bv32)
    requires 0 < k < 32
    ensures (x ^ Asr(x, k)) & 0x8000_0000 == 0
  {
    AsrKeepsSign(x, k);
  }
}

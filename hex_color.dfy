/** `hexToRGB` and `hexToRGBf` of js/webgl-util.js: a colour string such
    as "#ff8000" is read with `parseInt(hex.substr(1), 16)` and its three
    low bytes are taken apart with `>>` and `& 255`.

    `parseInt` follows section 19.2.5 of ECMA-262: leading white space is
    skipped, one sign is accepted, with radix 16 a "0x" or "0X" prefix is
    dropped, and the longest run of hex digits is read; no digit at all
    gives NaN. The bitwise operators first apply ToInt32 (NaN becomes 0);
    on a 32-bit value `>> k` is floor division by 2^k and `& 255` is the
    remainder modulo 256, both written here over integers. Strings are
    sequences of code points, not of UTF-16 code units, so `substr(1)` is
    exact only when the first character lies in the Basic Multilingual
    Plane. */
module HexColor {
  import opened Wrappers
  import opened VecMath

  datatype RGB = RGB(r: int, g: int, b: int)

  /** WhiteSpace and LineTerminator of ECMA-262 (sections 12.2 and 12.3),
      with every Unicode space separator. */
  predicate IsStrWhiteSpace(c: char)
  {
    var n := c as int;
    (0x09 <= n <= 0x0D) || n == 0x20 || n == 0xA0 || n == 0x1680 ||
    (0x2000 <= n <= 0x200A) || n == 0x2028 || n == 0x2029 || n == 0x202F ||
    n == 0x205F || n == 0x3000 || n == 0xFEFF
  }

  /** The string without its leading white space. */
  function TrimStart(s: string): (t: string)
    ensures |t| <= |s| && t == s[|s| - |t|..]
    ensures t == [] || !IsStrWhiteSpace(t[0])
    ensures forall i :: 0 <= i < |s| - |t| ==> IsStrWhiteSpace(s[i])
  {
    if s != [] && IsStrWhiteSpace(s[0]) then TrimStart(s[1..]) else s
  }

  predicate IsHexDigit(c: char)
  {
    '0' <= c <= '9' || 'a' <= c <= 'f' || 'A' <= c <= 'F'
  }

  function HexDigitValue(c: char): (v: int)
    requires IsHexDigit(c)
    ensures 0 <= v < 16
  {
    if '0' <= c <= '9' then c as int - '0' as int
    else if 'a' <= c <= 'f' then c as int - 'a' as int + 10
    else c as int - 'A' as int + 10
  }

  predicate AllHex(z: string)
  {
    forall i :: 0 <= i < |z| ==> IsHexDigit(z[i])
  }

  /** The number the hex digits spell, most significant first. */
  function HexValue(z: string): (v: int)
    requires AllHex(z)
    ensures v >= 0
  {
    if z == [] then 0 else 16 * HexValue(z[..|z| - 1]) + HexDigitValue(z[|z| - 1])
  }

  /** The length of the longest run of hex digits at the start of s. */
  function HexRun(s: string): (n: nat)
    ensures n <= |s| && AllHex(s[..n])
    ensures n < |s| ==> !IsHexDigit(s[n])
  {
    if s != [] && IsHexDigit(s[0]) then
      var n := 1 + HexRun(s[1..]);
      assert forall i :: 1 <= i < n ==> s[..n][i] == s[1..][..n - 1][i - 1];
      n
    else 0
  }

  /** `parseInt(s, 16)`; None stands for NaN. */
  function ParseInt16(s: string): Option<int>
  {
    ParseSigned(TrimStart(s))
  }

  /** After the white space: an optional sign. A negative zero is 0. */
  function ParseSigned(t: string): Option<int>
  {
    if t != [] && t[0] == '-' then
      var p := ParseUnsigned(t[1..]);
      if p.None? then None else Some(-p.value)
    else if t != [] && t[0] == '+' then ParseUnsigned(t[1..])
    else ParseUnsigned(t)
  }

  /** After the sign: an optional "0x" or "0X". */
  function ParseUnsigned(u: string): Option<int>
  {
    if |u| >= 2 && u[0] == '0' && (u[1] == 'x' || u[1] == 'X') then ParseDigits(u[2..])
    else ParseDigits(u)
  }

  /** The longest run of hex digits; NaN when there is none. */
  function ParseDigits(w: string): Option<int>
  {
    var n := HexRun(w);
    if n == 0 then None else Some(HexValue(w[..n]))
  }

  const TwoTo31: int := 0x8000_0000
  const TwoTo32: int := 0x1_0000_0000
  const TwoTo24: int := 0x100_0000

  /** ECMAScript ToInt32 of an integer. */
  function ToInt32(v: int): (r: int)
    ensures -TwoTo31 <= r < TwoTo31
    ensures (v - r) % TwoTo32 == 0
  {
    var m := v % TwoTo32;
    if m >= TwoTo31 then m - TwoTo32 else m
  }

  /** `hex.substr(1)`. */
  function Substr1(s: string): string
  {
    if s == [] then [] else s[1..]
  }

  /** The parsed number ToInt32 sees: NaN counts as 0. */
  function ParsedValue(hex: string): int
  {
    var p := ParseInt16(Substr1(hex));
    if p.None? then 0 else p.value
  }

  /** `hexToRGB(hex)`: r = (val >> 16) & 255, g = (val >> 8) & 255,
      b = val & 255. */
  function HexToRGB(hex: string): (c: RGB)
    ensures 0 <= c.r < 256 && 0 <= c.g < 256 && 0 <= c.b < 256
  {
    Channels(ToInt32(ParsedValue(hex)))
  }

  /** The three shifted and masked bytes of a 32-bit value. */
  function Channels(v: int): RGB
  {
    RGB((v / 0x1_0000) % 256, (v / 0x100) % 256, v % 256)
  }

  /** `hexToRGBf(hex)`: the channels scaled to [0, 1]. */
  function HexToRGBf(hex: string): (c: Vec3)
    ensures 0.0 <= c.x <= 1.0 && 0.0 <= c.y <= 1.0 && 0.0 <= c.z <= 1.0
    ensures var i := HexToRGB(hex);
            c.x * 255.0 == i.r as real && c.y * 255.0 == i.g as real && c.z * 255.0 == i.b as real
  {
    var i := HexToRGB(hex);
    Vec3(i.r as real / 255.0, i.g as real / 255.0, i.b as real / 255.0)
  }

  // ---------------------------------------------------------------------
  // The three channels are the low 24 bits of the parsed number
  // ---------------------------------------------------------------------

  /** Euclidean division is characterised by its quotient and remainder. */
  lemma DivModUnique(v: int, d: int, q: int, r: int)
    requires d > 0 && 0 <= r < d && v == d * q + r
    ensures v / d == q && v % d == r
  {
    var q' := v / d;
    var r' := v % d;
    assert v == d * q' + r';
    if q' > q {
      assert d * (q' - q) == d * q' - d * q;
      MulAtLeastOnce(d, q' - q);
    } else if q' < q {
      assert d * (q - q') == d * q - d * q';
      MulAtLeastOnce(d, q - q');
    }
  }

  lemma MulAtLeastOnce(d: int, k: int)
    requires d > 0 && k >= 1
    ensures d * k >= d
  {
    assert d * k == d * (k - 1) + d;
    assert d * (k - 1) >= 0;
  }

  /** x mod (a * b) splits into x mod a and (x / a) mod b. */
  lemma ModProduct(x: int, a: int, b: int)
    requires a > 0 && b > 0
    ensures x % (a * b) == ((x / a) % b) * a + x % a
    ensures (x / a) / b == x / (a * b)
  {
    var q := x / a;
    var lo := x % a;
    var mid := q % b;
    var hi := q / b;
    var ab := a * b;
    assert x == a * q + lo;
    assert q == b * hi + mid;
    Regroup(a, b, ab, q, hi, mid);
    MixedBound(a, b, ab, mid, lo);
    DivModUnique(x, ab, hi, mid * a + lo);
  }

  lemma Regroup(a: int, b: int, ab: int, q: int, hi: int, mid: int)
    requires ab == a * b && q == b * hi + mid
    ensures a * q == ab * hi + mid * a
  {
    assert a * q == a * (b * hi) + a * mid;
    assert a * (b * hi) == (a * b) * hi;
  }

  lemma MixedBound(a: int, b: int, ab: int, mid: int, lo: int)
    requires ab == a * b && 0 <= mid < b && 0 <= lo < a
    ensures 0 <= mid * a + lo < ab
  {
    assert mid * a <= (b - 1) * a;
    assert (b - 1) * a == ab - a;
  }

  /** Adding a multiple of 2^32 does not change the remainder mod 2^24. */
  lemma ModOfCongruent(v: int, w: int)
    requires (v - w) % TwoTo32 == 0
    ensures v % TwoTo24 == w % TwoTo24
  {
    var k := (v - w) / TwoTo32;
    assert v == w + TwoTo24 * (256 * k);
    DivModUnique(v, TwoTo24, w / TwoTo24 + 256 * k, w % TwoTo24);
  }

  /** The three byte fields of any integer recombine to its remainder
      modulo 2^24. */
  lemma ByteSplit(v: int)
    ensures var c := Channels(v); c.r * 0x1_0000 + c.g * 0x100 + c.b == v % TwoTo24
  {
    ModProduct(v, 0x100, 0x1_0000);
    ModProduct(v / 0x100, 0x100, 0x100);
    ModProduct(v, 0x100, 0x100);
  }

  /** For every string: r * 65536 + g * 256 + b is the parsed number
      modulo 2^24 (NaN read as 0). */
  lemma ChannelsAreLow24Bits(hex: string)
    ensures var c := HexToRGB(hex);
            c.r * 0x1_0000 + c.g * 0x100 + c.b == ParsedValue(hex) % TwoTo24
  {
    var p := ParsedValue(hex);
    assert HexToRGB(hex) == Channels(ToInt32(p));
    LowBits(p);
  }

  /** The channels of ToInt32(p) recombine to p modulo 2^24. */
  lemma LowBits(p: int)
    ensures var c := Channels(ToInt32(p)); c.r * 0x1_0000 + c.g * 0x100 + c.b == p % TwoTo24
  {
    var v := ToInt32(p);
    ByteSplit(v);
    ModOfCongruent(v, p);
  }

  /** In particular, a parsed value in [0, 2^24) is exactly recombined. */
  lemma ChannelsRecombine(hex: string)
    requires 0 <= ParsedValue(hex) < TwoTo24
    ensures var c := HexToRGB(hex);
            c.r * 0x1_0000 + c.g * 0x100 + c.b == ParsedValue(hex)
  {
    var p := ParsedValue(hex);
    ChannelsAreLow24Bits(hex);
    DivModUnique(p, TwoTo24, 0, p);
  }

  // ---------------------------------------------------------------------
  // parseInt reads the hex strings a colour is written with
  // ---------------------------------------------------------------------

  /** The lower-case hex digit for 0 <= d < 16. */
  function DigitChar(d: int): (c: char)
    requires 0 <= d < 16
    ensures IsHexDigit(c) && HexDigitValue(c) == d
  {
    if d < 10 then ('0' as int + d) as char else ('a' as int + d - 10) as char
  }

  /** Two lower-case hex digits for a byte. */
  function HexByte(n: int): (s: string)
    requires 0 <= n < 256
    ensures |s| == 2 && AllHex(s)
    ensures HexDigitValue(s[0]) == n / 16 && HexDigitValue(s[1]) == n % 16
  {
    [DigitChar(n / 16), DigitChar(n % 16)]
  }

  /** "#rrggbb" for three bytes. */
  function HexColorString(r: int, g: int, b: int): string
    requires 0 <= r < 256 && 0 <= g < 256 && 0 <= b < 256
  {
    "#" + HexByte(r) + HexByte(g) + HexByte(b)
  }

  /** Reading one more digit multiplies by 16 and adds it. */
  lemma HexValueStep(z: string, k: nat)
    requires AllHex(z) && 0 < k <= |z|
    ensures AllHex(z[..k]) && AllHex(z[..k - 1])
    ensures HexValue(z[..k]) == 16 * HexValue(z[..k - 1]) + HexDigitValue(z[k - 1])
  {
    assert z[..k][..k - 1] == z[..k - 1];
  }

  /** The value of a six-digit string from its digits. */
  lemma HexValueSix(z: string)
    requires |z| == 6 && AllHex(z)
    ensures HexValue(z) == HexDigitValue(z[0]) * 0x10_0000 + HexDigitValue(z[1]) * 0x1_0000 +
                           HexDigitValue(z[2]) * 0x1000 + HexDigitValue(z[3]) * 0x100 +
                           HexDigitValue(z[4]) * 0x10 + HexDigitValue(z[5])
  {
    assert z[..0] == [];
    HexValueStep(z, 1);
    HexValueStep(z, 2);
    HexValueStep(z, 3);
    HexValueStep(z, 4);
    HexValueStep(z, 5);
    HexValueStep(z, 6);
    assert z[..6] == z;
  }

  /** The whole of a string of hex digits is one run. */
  lemma HexRunAll(z: string)
    requires AllHex(z)
    ensures HexRun(z) == |z| && z[..HexRun(z)] == z
  {
    HexRunOfPrefix(z, []);
    assert z + [] == z;
  }

  /** A string of hex digits is read whole. */
  lemma ParseAllHex(z: string)
    requires z != [] && AllHex(z)
    ensures ParseInt16(z) == Some(HexValue(z))
  {
    assert IsHexDigit(z[0]);
    assert TrimStart(z) == z;
    ParseUnsignedDigits(z);
  }

  /** Without a "0x" prefix, digits are read as they stand. */
  lemma ParseUnsignedDigits(z: string)
    requires z != [] && AllHex(z)
    ensures ParseUnsigned(z) == Some(HexValue(z))
  {
    assert |z| >= 2 ==> IsHexDigit(z[1]);
    HexRunAll(z);
  }

  /** The six digits of three bytes spell r * 65536 + g * 256 + b. */
  lemma BytesSpell(r: int, g: int, b: int)
    requires 0 <= r < 256 && 0 <= g < 256 && 0 <= b < 256
    ensures AllHex(HexByte(r) + HexByte(g) + HexByte(b))
    ensures HexValue(HexByte(r) + HexByte(g) + HexByte(b)) == r * 0x1_0000 + g * 0x100 + b
  {
    var z := HexByte(r) + HexByte(g) + HexByte(b);
    assert z[0] == HexByte(r)[0] && z[1] == HexByte(r)[1];
    assert z[2] == HexByte(g)[0] && z[3] == HexByte(g)[1];
    assert z[4] == HexByte(b)[0] && z[5] == HexByte(b)[1];
    assert AllHex(z);
    HexValueSix(z);
  }

  /** The shifts and masks take three bytes apart again. */
  lemma ChannelsOfBytes(r: int, g: int, b: int)
    requires 0 <= r < 256 && 0 <= g < 256 && 0 <= b < 256
    ensures Channels(r * 0x1_0000 + g * 0x100 + b) == RGB(r, g, b)
  {
    var v := r * 0x1_0000 + g * 0x100 + b;
    DivModUnique(v, 0x1_0000, r, g * 0x100 + b);
    DivModUnique(v, 0x100, r * 0x100 + g, b);
    DivModUnique(r * 0x100 + g, 0x100, r, g);
  }

  /** "#rrggbb" parses to r * 65536 + g * 256 + b. */
  lemma ParsedColorString(r: int, g: int, b: int)
    requires 0 <= r < 256 && 0 <= g < 256 && 0 <= b < 256
    ensures ParsedValue(HexColorString(r, g, b)) == r * 0x1_0000 + g * 0x100 + b
  {
    var z := HexByte(r) + HexByte(g) + HexByte(b);
    var hex := HexColorString(r, g, b);
    assert Substr1(hex) == z by {
      assert hex == "#" + z;
    }
    BytesSpell(r, g, b);
    ParseAllHex(z);
  }

  /** ToInt32 leaves a value of 24 bits alone. */
  lemma ToInt32Small(v: int)
    requires 0 <= v < TwoTo24
    ensures ToInt32(v) == v
  {
    DivModUnique(v, TwoTo32, 0, v);
  }

  /** Round trip: the colour written as "#rrggbb" is read back as the same
      three bytes. */
  lemma RoundTrip(r: int, g: int, b: int)
    requires 0 <= r < 256 && 0 <= g < 256 && 0 <= b < 256
    ensures HexToRGB(HexColorString(r, g, b)) == RGB(r, g, b)
  {
    var v := r * 0x1_0000 + g * 0x100 + b;
    ParsedColorString(r, g, b);
    ChannelsOfBytes(r, g, b);
    ReadBack(HexColorString(r, g, b), v, RGB(r, g, b));
  }

  /** A string whose parsed value is a 24-bit v reads back as v's channels. */
  lemma ReadBack(hex: string, v: int, c: RGB)
    requires 0 <= v < TwoTo24 && ParsedValue(hex) == v && Channels(v) == c
    ensures HexToRGB(hex) == c
  {
    ToInt32Small(v);
  }

  /** Leading white space is skipped. */
  lemma {:induction false} TrimSkipsWhiteSpace(ws: string, s: string)
    requires forall i :: 0 <= i < |ws| ==> IsStrWhiteSpace(ws[i])
    ensures TrimStart(ws + s) == TrimStart(s)
    decreases |ws|
  {
    if ws != [] {
      assert (ws + s)[0] == ws[0];
      assert (ws + s)[1..] == ws[1..] + s;
      TrimSkipsWhiteSpace(ws[1..], s);
    } else {
      assert ws + s == s;
    }
  }

  lemma WhiteSpaceIgnored(ws: string, s: string)
    requires forall i :: 0 <= i < |ws| ==> IsStrWhiteSpace(ws[i])
    ensures ParseInt16(ws + s) == ParseInt16(s)
  {
    TrimSkipsWhiteSpace(ws, s);
  }

  /** A minus sign in front of the digits negates them. */
  lemma {:induction false} MinusAccepted(z: string)
    requires z != [] && AllHex(z)
    ensures ParseInt16("-" + z) == Some(-HexValue(z))
  {
    ParseUnsignedDigits(z);
    MinusSign(z, HexValue(z));
  }

  lemma MinusSign(u: string, v: int)
    requires ParseUnsigned(u) == Some(v)
    ensures ParseInt16("-" + u) == Some(-v)
  {
    var m := "-" + u;
    assert m[0] == '-' && m[1..] == u;
    assert TrimStart(m) == m;
  }

  /** A plus sign in front of the digits is skipped. */
  lemma {:induction false} PlusAccepted(z: string)
    requires z != [] && AllHex(z)
    ensures ParseInt16("+" + z) == Some(HexValue(z))
  {
    ParseUnsignedDigits(z);
    var p := "+" + z;
    assert p[0] == '+' && p[1..] == z;
    assert TrimStart(p) == p;
    assert ParseSigned(p) == ParseUnsigned(z);
  }

  /** With radix 16 a "0x" or "0X" prefix is accepted in front of the
      digits. */
  lemma {:induction false} PrefixAccepted(z: string)
    requires z != [] && AllHex(z)
    ensures ParseInt16("0x" + z) == Some(HexValue(z))
    ensures ParseInt16("0X" + z) == Some(HexValue(z))
  {
    HexRunAll(z);
    var x, cx := "0x" + z, "0X" + z;
    assert x[0] == '0' && x[1] == 'x' && x[2..] == z && TrimStart(x) == x;
    assert cx[0] == '0' && cx[1] == 'X' && cx[2..] == z && TrimStart(cx) == cx;
  }

  /** Anything after the digits is ignored (unless a lone "0" followed by
      an x makes a prefix). */
  lemma TrailingIgnored(z: string, rest: string)
    requires z != [] && AllHex(z)
    requires rest == [] || !IsHexDigit(rest[0])
    requires !(z == "0" && rest != [] && (rest[0] == 'x' || rest[0] == 'X'))
    ensures ParseInt16(z + rest) == Some(HexValue(z))
  {
    var s := z + rest;
    assert s[0] == z[0] && TrimStart(s) == s;
    assert ParseInt16(s) == ParseUnsigned(s);
    assert !(|s| >= 2 && s[0] == '0' && (s[1] == 'x' || s[1] == 'X')) by {
      if |z| >= 2 {
        assert s[1] == z[1];
      } else if |s| >= 2 {
        assert s[1] == rest[0];
        assert z == [z[0]];
      }
    }
    HexRunOfPrefix(z, rest);
    assert s[..|z|] == z;
    assert ParseDigits(s) == Some(HexValue(z));
  }

  lemma {:induction false} HexRunOfPrefix(z: string, rest: string)
    requires AllHex(z)
    requires rest == [] || !IsHexDigit(rest[0])
    ensures HexRun(z + rest) == |z|
    decreases |z|
  {
    if z != [] {
      assert (z + rest)[1..] == z[1..] + rest;
      HexRunOfPrefix(z[1..], rest);
    } else {
      assert z + rest == rest;
    }
  }
}

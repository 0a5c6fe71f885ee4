/** The growable typed array `Buffer` of js/webgl-util.js.

    A buffer holds `len` used elements in a typed array of `capacity`
    elements. `append` grows the array once, to floor(1.5 * capacity), when
    the new elements would reach the capacity, and then writes them after
    the used part; `clear` forgets the used part. Element values are kept
    as reals: the typed array's conversion of a value to its element type
    is not modelled. */
module TypedBuffer {
  import opened Wrappers
  import opened VolumeFiles

  /** The element types the constructor accepts. */
  datatype DType = UInt8 | Int8 | UInt16 | Int16 | UInt32 | Int32 | Float32 | Float64

  /** The constructor's `dtype` string for each element type. */
  function NameOf(t: DType): string
  {
    match t
    case UInt8 => "uint8"
    case Int8 => "int8"
    case UInt16 => "uint16"
    case Int16 => "int16"
    case UInt32 => "uint32"
    case Int32 => "int32"
    case Float32 => "float32"
    case Float64 => "float64"
  }

  /** The constructor's chain of `dtype ==` tests; None for an unsupported
      type, which only logs an error and leaves the array undefined. */
  function ParseDType(s: string): (r: Option<DType>)
    ensures r.Some? ==> NameOf(r.value) == s
  {
    if s == "uint8" then Some(UInt8)
    else if s == "int8" then Some(Int8)
    else if s == "uint16" then Some(UInt16)
    else if s == "int16" then Some(Int16)
    else if s == "uint32" then Some(UInt32)
    else if s == "int32" then Some(Int32)
    else if s == "float32" then Some(Float32)
    else if s == "float64" then Some(Float64)
    else None
  }

  /** Every element type is recognised by its own name. */
  lemma ParseNameOf(t: DType)
    ensures ParseDType(NameOf(t)) == Some(t)
  {
  }

  /** `BYTES_PER_ELEMENT` of the typed array for each element type. */
  function BytesPerElement(t: DType): nat
  {
    match t
    case UInt8 => 1
    case Int8 => 1
    case UInt16 => 2
    case Int16 => 2
    case UInt32 => 4
    case Int32 => 4
    case Float32 => 4
    case Float64 => 8
  }

  /** The number at the end of a type name. */
  function BitsInName(name: string): string
  {
    if name != [] && IsDigit(name[|name| - 1]) then BitsInName(name[..|name| - 1]) + [name[|name| - 1]]
    else []
  }

  /** The stride in bytes is the bit width written in the type's name,
      divided by eight. */
  lemma {:induction false} StrideMatchesName(t: DType)
    ensures 8 * BytesPerElement(t) == Decimal(BitsInName(NameOf(t)))
  {
    var parts := NameParts(t);
    BitsAfter(parts.0, parts.1);
  }

  /** Each name split into its letters and its bit width. */
  function NameParts(t: DType): (p: (string, string))
    ensures p.0 + p.1 == NameOf(t)
    ensures p.0 != [] && !IsDigit(p.0[|p.0| - 1])
    ensures |p.1| == 1 || |p.1| == 2
    ensures forall i :: 0 <= i < |p.1| ==> IsDigit(p.1[i])
    ensures 8 * BytesPerElement(t) == if |p.1| == 1 then DigitValue(p.1[0])
                                      else 10 * DigitValue(p.1[0]) + DigitValue(p.1[1])
  {
    match t
    case UInt8 => ("uint", "8")
    case Int8 => ("int", "8")
    case UInt16 => ("uint", "16")
    case Int16 => ("int", "16")
    case UInt32 => ("uint", "32")
    case Int32 => ("int", "32")
    case Float32 => ("float", "32")
    case Float64 => ("float", "64")
  }

  /** A name made of a letter prefix and one or two digits carries those
      digits, and they spell their usual value. */
  lemma {:induction false} BitsAfter(prefix: string, digits: string)
    requires prefix != [] && !IsDigit(prefix[|prefix| - 1])
    requires |digits| == 1 || |digits| == 2
    requires forall i :: 0 <= i < |digits| ==> IsDigit(digits[i])
    ensures BitsInName(prefix + digits) == digits
    ensures Decimal(digits) == if |digits| == 1 then DigitValue(digits[0])
                               else 10 * DigitValue(digits[0]) + DigitValue(digits[1])
  {
    var name := prefix + digits;
    assert BitsInName(prefix) == [];
    assert name[|name| - 1] == digits[|digits| - 1];
    if |digits| == 2 {
      var first := [digits[0]];
      assert name[..|name| - 1] == prefix + first;
      assert digits[..1] == first;
      BitsAfter(prefix, first);
      assert BitsInName(name) == BitsInName(prefix + first) + [digits[1]];
    } else {
      assert name[..|name| - 1] == prefix;
      assert digits[..0] == [];
      assert BitsInName(name) == BitsInName(prefix) + [digits[0]];
    }
  }

  /** `Math.floor(capacity * 1.5)`. */
  function GrownCapacity(capacity: nat): (c: nat)
    ensures capacity <= c
    ensures capacity >= 2 ==> capacity < c
    ensures 2 * c <= 3 * capacity < 2 * c + 2
  {
    (3 * capacity) / 2
  }

  /** The new array of a growth: the old contents as a prefix, then the
      zeros a fresh typed array holds. */
  function Grown(data: seq<real>, newCapacity: nat): (r: seq<real>)
    requires |data| <= newCapacity
    ensures |r| == newCapacity && r[..|data|] == data
    ensures forall i :: |data| <= i < newCapacity ==> r[i] == 0.0
  {
    data + seq(newCapacity - |data|, _ => 0.0)
  }

  /** `set(buf, at)`: buf written over positions at .. at + |buf| - 1. */
  function WriteAt(data: seq<real>, at: nat, buf: seq<real>): (r: seq<real>)
    requires at + |buf| <= |data|
    ensures |r| == |data|
    ensures r[..at] == data[..at] && r[at..at + |buf|] == buf
    ensures r[at + |buf|..] == data[at + |buf|..]
  {
    data[..at] + buf + data[at + |buf|..]
  }

  class Buffer {
    var len: nat
    var capacity: nat
    /** The element type; None when the constructor was given an
        unsupported `dtype` and `buffer` stayed undefined. */
    var dtype: Option<DType>
    var buffer: array<real>

    /** The array is exactly `capacity` long and holds the used part. */
    ghost predicate Valid()
      reads this
    {
      buffer.Length == capacity && len <= capacity
    }

    /** The used elements, oldest first. */
    function Contents(): seq<real>
      reads this, buffer
      requires Valid()
    {
      buffer[..len]
    }

    /** `new Buffer(capacity, dtype)`: an empty buffer over a zeroed array. */
    constructor (capacity: nat, dtype: string)
      ensures Valid() && fresh(buffer)
      ensures len == 0 && this.capacity == capacity && this.dtype == ParseDType(dtype)
      ensures buffer[..] == seq(capacity, _ => 0.0)
      ensures Contents() == []
    {
      len := 0;
      this.capacity := capacity;
      this.dtype := ParseDType(dtype);
      buffer := new real[capacity](_ => 0.0);
    }

    /** `append(buf)`. With an unsupported type the array is undefined and
        the call throws a TypeError before changing anything. Otherwise the
        array is replaced by a grown copy when len + |buf| reaches the
        capacity; then, if buf still does not fit, `set` throws a
        RangeError (ok is false) and only the growth remains; if it fits,
        buf is written after the used part and counted. */
    method Append(buf: seq<real>) returns (ok: bool)
      requires Valid()
      modifies this, buffer
      ensures Valid()
      ensures dtype == old(dtype)
      ensures buffer == old(buffer) || fresh(buffer)
      ensures old(dtype).None? ==> !ok && unchanged(this) && unchanged(old(buffer))
      ensures old(dtype).Some? ==>
                capacity == (if old(len) + |buf| >= old(capacity) then GrownCapacity(old(capacity)) else old(capacity))
      ensures old(dtype).Some? && old(len) + |buf| >= old(capacity) ==> fresh(buffer)
      ensures old(dtype).Some? ==> (ok <==> old(len) + |buf| <= capacity)
      ensures old(dtype).Some? && ok ==>
                len == old(len) + |buf| &&
                buffer[..] == WriteAt(Grown(old(buffer[..]), capacity), old(len), buf)
      ensures old(dtype).Some? && !ok ==> len == old(len) && buffer[..] == Grown(old(buffer[..]), capacity)
      ensures ok ==> Contents() == old(Contents()) + buf
    {
      if dtype.None? {
        return false;
      }
      if len + |buf| >= capacity {
        var newCap := GrownCapacity(capacity);
        var tmp := GrownCopy(buffer, newCap);
        capacity := newCap;
        buffer := tmp;
      } else {
        assert Grown(buffer[..], capacity) == buffer[..];
      }
      if len + |buf| > buffer.Length {
        return false;
      }
      ghost var before := buffer[..];
      Write(buffer, buf, len);
      WriteAtUsed(before, len, buf);
      len := len + |buf|;
      ok := true;
    }

    /** `clear()`: forget the used part; capacity and data stay. */
    method Clear()
      requires Valid()
      modifies this
      ensures Valid()
      ensures len == 0 && Contents() == []
      ensures capacity == old(capacity) && buffer == old(buffer) && dtype == old(dtype)
    {
      len := 0;
    }

    /** `stride()`: the element size in bytes; None where the undefined
        array makes the property access throw. */
    function Stride(): (r: Option<nat>)
      reads this
      ensures r.Some? <==> dtype.Some?
      ensures r.Some? ==> 8 * r.value == Decimal(BitsInName(NameOf(dtype.value)))
    {
      if dtype.None? then None
      else
        StrideMatchesName(dtype.value);
        Some(BytesPerElement(dtype.value))
    }

    /** `append` with a growth large enough for any buf: the capacity
        becomes the larger of floor(1.5 * capacity) and len + |buf|, so the
        call always succeeds for a supported type. */
    method AppendGrowing(buf: seq<real>) returns (ok: bool)
      requires Valid()
      modifies this, buffer
      ensures Valid()
      ensures dtype == old(dtype)
      ensures buffer == old(buffer) || fresh(buffer)
      ensures ok <==> old(dtype).Some?
      ensures !ok ==> unchanged(this) && unchanged(old(buffer))
      ensures ok ==> len == old(len) + |buf| && len <= capacity
      ensures ok ==> Contents() == old(Contents()) + buf
    {
      if dtype.None? {
        return false;
      }
      if len + |buf| >= capacity {
        var newCap := GrownCapacity(capacity);
        if newCap < len + |buf| {
          newCap := len + |buf|;
        }
        var tmp := GrownCopy(buffer, newCap);
        capacity := newCap;
        buffer := tmp;
      }
      ghost var before := buffer[..];
      Write(buffer, buf, len);
      WriteAtUsed(before, len, buf);
      len := len + |buf|;
      ok := true;
    }
  }

  /** As written, a buffer made with capacity 1 never grows, since
      floor(1.5 * 1) = 1: the first one-element append fills it and the
      second throws a RangeError. */
  method SecondAppendToCapacityOne() returns (first: bool, second: bool)
    ensures first && !second
  {
    var b := new Buffer(1, "uint8");
    first := b.Append([1.0]);
    second := b.Append([2.0]);
  }

  /** With the growth of `AppendGrowing`, the same two appends both succeed
      and the buffer holds both elements. */
  method SecondAppendToCapacityOneGrowing() returns (first: bool, second: bool, contents: seq<real>)
    ensures first && second && contents == [1.0, 2.0]
  {
    var b := new Buffer(1, "uint8");
    first := b.AppendGrowing([1.0]);
    second := b.AppendGrowing([2.0]);
    contents := b.buffer[..b.len];
  }

  /** Writing buf right after the first `at` elements extends that prefix
      by buf. */
  lemma WriteAtUsed(data: seq<real>, at: nat, buf: seq<real>)
    requires at + |buf| <= |data|
    ensures WriteAt(data, at, buf)[..at + |buf|] == data[..at] + buf
  {
    var r := WriteAt(data, at, buf);
    assert r[..at + |buf|] == r[..at] + r[at..at + |buf|];
  }

  /** `new (buffer.constructor)(newCap)` followed by `tmp.set(buffer)`:
      a zeroed array of the new capacity with the old elements copied to its
      front. */
  method GrownCopy(src: array<real>, newCap: nat) returns (dst: array<real>)
    requires src.Length <= newCap
    ensures fresh(dst)
    ensures dst[..] == Grown(src[..], newCap)
  {
    dst := new real[newCap](_ => 0.0);
    var i := 0;
    while i < src.Length
      invariant 0 <= i <= src.Length
      invariant forall k :: 0 <= k < i ==> dst[k] == src[k]
      invariant forall k :: i <= k < newCap ==> dst[k] == 0.0
    {
      dst[i] := src[i];
      i := i + 1;
    }
    ghost var g := Grown(src[..], newCap);
    assert forall k :: 0 <= k < newCap ==> dst[k] == g[k] by {
      forall k | 0 <= k < newCap
        ensures dst[k] == g[k]
      {
        if k < src.Length {
          assert g[k] == g[..src.Length][k];
        }
      }
    }
  }

  /** `set(buf, at)` on an array long enough to hold it. */
  method Write(a: array<real>, buf: seq<real>, at: nat)
    requires at + |buf| <= a.Length
    modifies a
    ensures a[..] == WriteAt(old(a[..]), at, buf)
  {
    var i := 0;
    while i < |buf|
      invariant 0 <= i <= |buf|
      invariant forall k :: 0 <= k < a.Length ==>
                  a[k] == (if at <= k < at + i then buf[k - at] else old(a[k]))
    {
      a[at + i] := buf[i];
      i := i + 1;
    }
    ghost var expected := WriteAt(old(a[..]), at, buf);
    assert forall k :: 0 <= k < a.Length ==> a[k] == expected[k] by {
      forall k | 0 <= k < a.Length
        ensures a[k] == expected[k]
      {
        if k < at {
          assert expected[k] == expected[..at][k];
        } else if k < at + |buf| {
          assert expected[k] == expected[at..at + |buf|][k - at];
        } else {
          assert expected[k] == expected[at + |buf|..][k - at - |buf|];
        }
      }
    }
  }
}

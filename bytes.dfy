/**
  Little-endian decoding of the integers and floats in the fixed-size
  records the loaders read, and the C++ integer conversions they apply.
*/
module Bytes {

  /** One octet of a file. */
  type byte = x: int | 0 <= x < 256

  const TWO16: nat := 0x1_0000
  const TWO32: nat := 0x1_0000_0000

  function Min(a: int, b: int): int { if a <= b then a else b }

  function U16(b: seq<byte>, off: nat): (r: nat)
    requires off + 2 <= |b|
    ensures r < TWO16
  {
    b[off] as int + 256 * (b[off + 1] as int)
  }

  function U32(b: seq<byte>, off: nat): (r: nat)
    requires off + 4 <= |b|
    ensures r < TWO32
  {
    U16(b, off) + TWO16 * U16(b, off + 2)
  }

  /** Two's-complement reading of a 16-bit pattern. */
  function Signed16(u: nat): (r: int)
    requires u < TWO16
    ensures -0x8000 <= r < 0x8000
    ensures r % TWO16 == u
  {
    if u < 0x8000 then u else u - TWO16
  }

  /** Two's-complement reading of a 32-bit pattern. */
  function Signed32(u: nat): (r: int)
    requires u < TWO32
    ensures -0x8000_0000 <= r < 0x8000_0000
    ensures r % TWO32 == u
  {
    if u < 0x8000_0000 then u else u - TWO32
  }

  function S16(b: seq<byte>, off: nat): int
    requires off + 2 <= |b|
  {
    Signed16(U16(b, off))
  }

  function S32(b: seq<byte>, off: nat): int
    requires off + 4 <= |b|
  {
    Signed32(U32(b, off))
  }

  /** Conversion of any integer to a 16-bit unsigned value (C++ assignment to u16). */
  function WrapU16(x: int): (r: nat)
    ensures r < TWO16
    ensures 0 <= x < TWO16 ==> r == x
  {
    x % TWO16
  }

  /** Conversion of any integer to a 32-bit unsigned value (u32 arithmetic). */
  function WrapU32(x: int): (r: nat)
    ensures r < TWO32
    ensures 0 <= x < TWO32 ==> r == x
  {
    x % TWO32
  }

  function EncodeU16(x: nat): (r: seq<byte>)
    requires x < TWO16
    ensures |r| == 2
  {
    [x % 256, x / 256]
  }

  function EncodeU32(x: nat): (r: seq<byte>)
    requires x < TWO32
    ensures |r| == 4
  {
    EncodeU16(x % TWO16) + EncodeU16(x / TWO16)
  }

  /** Decoding what was encoded gives the value back. */
  lemma DecodeEncodeU32(x: nat)
    requires x < TWO32
    ensures U32(EncodeU32(x), 0) == x
  {
    var e := EncodeU32(x);
    assert U16(e, 0) == x % TWO16;
    assert U16(e, 2) == x / TWO16;
  }

  /** Encoding what was decoded gives the bytes back. */
  lemma EncodeDecodeU32(b: seq<byte>, off: nat)
    requires off + 4 <= |b|
    ensures EncodeU32(U32(b, off)) == b[off..off + 4]
  {
    var x := U32(b, off);
    assert x % TWO16 == U16(b, off);
    assert x / TWO16 == U16(b, off + 2);
  }

  function Pow2(n: nat): (r: nat)
    ensures r >= 1
  {
    if n == 0 then 1 else 2 * Pow2(n - 1)
  }

  /** Powers of two multiply by adding their exponents. */
  lemma {:induction false} Pow2Add(a: nat, b: nat)
    ensures Pow2(a + b) == Pow2(a) * Pow2(b)
  {
    if a > 0 {
      Pow2Add(a - 1, b);
    }
  }

  /** The moduli of the u16 and u32 wrap-arounds are the powers 2^16 and 2^32. */
  lemma Pow2Widths()
    ensures Pow2(8) == 0x100 && Pow2(16) == TWO16 && Pow2(32) == TWO32
  {
    assert Pow2(4) == 16 by {
      assert Pow2(2) == 4;
      Pow2Add(2, 2);
    }
    Pow2Add(4, 4);
    Pow2Add(8, 8);
    Pow2Add(16, 16);
  }

  /**
    The value of an IEEE 754 binary32 bit pattern. Infinities and NaNs have
    no real value and are read as 0.
  */
  function F32Value(bits: nat): real
    requires bits < TWO32
  {
    var e := (bits / 0x80_0000) % 256;
    var m := bits % 0x80_0000;
    var mag :=
      if e == 0 then (m as real) / (Pow2(149) as real)
      else if e == 255 then 0.0
      else if e >= 150 then ((m + 0x80_0000) * Pow2(e - 150)) as real
      else ((m + 0x80_0000) as real) / (Pow2(150 - e) as real);
    if bits >= 0x8000_0000 then -mag else mag
  }

  function F32(b: seq<byte>, off: nat): real
    requires off + 4 <= |b|
  {
    F32Value(U32(b, off))
  }
}

/** Fixed-width little-endian integers and the concatenation of byte blocks,
    the two ingredients of the binary index file. */
module Bytes {

  /** One byte of the output file. */
  newtype byte = x: int | 0 <= x < 256

  /** The C++ `int` used for the compressor id. */
  newtype int32 = x: int | -0x8000_0000 <= x < 0x8000_0000

  const TWO_TO_32: nat := 0x1_0000_0000
  const TWO_TO_64: nat := 0x1_0000_0000_0000_0000

  /** The widths, in bytes, of `unsigned int` and `unsigned long long`. */
  const U32_WIDTH: nat := 4
  const U64_WIDTH: nat := 8

  function Pow256(n: nat): (p: nat)
    ensures p > 0
  {
    if n == 0 then 1 else 256 * Pow256(n - 1)
  }

  lemma {:induction false} Pow256Widths()
    ensures Pow256(4) == TWO_TO_32 && Pow256(8) == TWO_TO_64
  {
    assert Pow256(2) == 0x1_0000;
    assert Pow256(4) == 0x1_0000 * Pow256(2);
    assert Pow256(8) == Pow256(4) * Pow256(4) by {
      assert Pow256(8) == 256 * 256 * 256 * 256 * Pow256(4);
    }
  }

  /** Byte `i` of `x`, counting from the least significant one. */
  function ByteAt(x: nat, i: nat): byte
  {
    if i == 0 then (x % 256) as byte else ByteAt(x / 256, i - 1)
  }

  /** The `width` low-order bytes of `x`, least significant byte first. */
  function LittleEndian(x: nat, width: nat): (bs: seq<byte>)
    ensures |bs| == width
  {
    seq(width, i requires 0 <= i < width => ByteAt(x, i))
  }

  /** The first byte of an encoding is the low byte; the rest encode the quotient. */
  lemma {:induction false} LittleEndianStep(x: nat, width: nat)
    requires width > 0
    ensures LittleEndian(x, width)[0] == (x % 256) as byte
    ensures LittleEndian(x, width)[1..] == LittleEndian(x / 256, width - 1)
  {
    var a, b := LittleEndian(x, width)[1..], LittleEndian(x / 256, width - 1);
    forall i | 0 <= i < width - 1
      ensures a[i] == b[i]
    {
      assert a[i] == ByteAt(x, i + 1);
    }
  }

  /** The unsigned number whose little-endian encoding is `bs`. */
  function FromLittleEndian(bs: seq<byte>): (x: nat)
    ensures x < Pow256(|bs|)
  {
    if bs == [] then 0
    else
      var rest := FromLittleEndian(bs[1..]);
      assert bs[0] as nat + 256 * rest <= 255 + 256 * (Pow256(|bs| - 1) - 1);
      bs[0] as nat + 256 * rest
  }

  lemma {:induction false} DecodeEncode(x: nat, width: nat)
    requires x < Pow256(width)
    ensures FromLittleEndian(LittleEndian(x, width)) == x
  {
    if width > 0 {
      assert x / 256 < Pow256(width - 1);
      LittleEndianStep(x, width);
      DecodeEncode(x / 256, width - 1);
    }
  }

  lemma {:induction false} EncodeDecode(bs: seq<byte>)
    ensures LittleEndian(FromLittleEndian(bs), |bs|) == bs
  {
    if bs != [] {
      var rest := FromLittleEndian(bs[1..]);
      var x := bs[0] as nat + 256 * rest;
      assert x % 256 == bs[0] as nat && x / 256 == rest;
      LittleEndianStep(x, |bs|);
      EncodeDecode(bs[1..]);
      var e := LittleEndian(x, |bs|);
      assert e == [e[0]] + e[1..];
      assert bs == [bs[0]] + bs[1..];
    }
  }

  /** An `unsigned int` written as raw bytes: the value is taken modulo 2^32. */
  function U32(x: int): (bs: seq<byte>)
    ensures |bs| == 4
  {
    LittleEndian(x % TWO_TO_32, U32_WIDTH)
  }

  /** An `unsigned long long` written as raw bytes: the value is taken modulo 2^64. */
  function U64(x: int): (bs: seq<byte>)
    ensures |bs| == 8
  {
    LittleEndian(x % TWO_TO_64, U64_WIDTH)
  }

  /** A two's-complement `int` written as raw bytes. */
  function I32(x: int32): (bs: seq<byte>)
    ensures |bs| == 4
  {
    U32(x as int)
  }

  /** Reads back a two's-complement 32-bit integer. */
  function FromLittleEndianSigned(bs: seq<byte>): int
    requires |bs| == 4
  {
    var u := FromLittleEndian(bs);
    if u < 0x8000_0000 then u else u - TWO_TO_32
  }

  lemma {:induction false} U32RoundTrip(x: int)
    ensures FromLittleEndian(U32(x)) == x % TWO_TO_32
  {
    Pow256Widths();
    DecodeEncode(x % TWO_TO_32, U32_WIDTH);
  }

  lemma {:induction false} U64RoundTrip(x: int)
    ensures FromLittleEndian(U64(x)) == x % TWO_TO_64
  {
    Pow256Widths();
    DecodeEncode(x % TWO_TO_64, U64_WIDTH);
  }

  lemma {:induction false} I32RoundTrip(x: int32)
    ensures FromLittleEndianSigned(I32(x)) == x as int
  {
    U32RoundTrip(x as int);
  }

  /** A value that fits in 32 bits is its own truncation. */
  lemma {:induction false} FitsU32(x: nat)
    requires x < TWO_TO_32
    ensures x % TWO_TO_32 == x
  {
  }

  /** The four parts of a concatenation, recovered by slicing. */
  lemma {:induction false} SliceOfFour(a: seq<byte>, b: seq<byte>, c: seq<byte>, d: seq<byte>)
    ensures var s := a + (b + c + d);
      && s[..|a|] == a
      && s[|a|..|a| + |b|] == b
      && s[|a| + |b|..|a| + |b| + |c|] == c
      && s[|a| + |b| + |c|..] == d
  {
    var s := a + (b + c + d);
    assert s == a + (b + (c + d));
    assert s[|a|..] == b + (c + d);
    assert s[|a| + |b|..] == c + d;
  }

  /** Concatenation regrouped around its first block. */
  lemma {:induction false} SplitFirst(a: seq<byte>, b: seq<byte>, c: seq<byte>, d: seq<byte>)
    ensures (a + b) + c + d == a + (b + c + d)
  {
  }

  /** Four appends in a row add their concatenation. */
  lemma {:induction false} AppendFour(s: seq<byte>, a: seq<byte>, b: seq<byte>, c: seq<byte>, d: seq<byte>)
    ensures s + a + b + c + d == s + (a + b + c + d)
  {
    assert s + a + b + c + d == s + (a + (b + (c + d)));
  }

  /** A slice of a section of `s` is the corresponding slice of `s`. */
  lemma {:induction false} SliceWithin(s: seq<byte>, start: nat, section: seq<byte>, rel: nat, len: nat)
    requires start + |section| <= |s| && s[start..start + |section|] == section
    requires rel + len <= |section|
    ensures s[start + rel..start + rel + len] == section[rel..rel + len]
  {
    var a, b := s[start + rel..start + rel + len], section[rel..rel + len];
    forall i | 0 <= i < len
      ensures a[i] == b[i]
    {
      assert section[rel + i] == s[start..start + |section|][rel + i];
    }
  }
}

/** Fixed-width integer codec for the metadata records.

    It stands in for PrimitiveTypeSlice<size_t> and primitive_type_slice<uint32_t>, whose
    header is not part of this model. The only facts the rest of the model relies on are that
    an encoded value has the width of its C++ type and that it decodes back exactly. The byte
    order chosen here (little-endian) is a modelling choice. */
module Codec {

  type byte = b: int | 0 <= b < 256

  /** uint32_t, the type of a version record. */
  type u32 = x: int | 0 <= x < 0x1_0000_0000

  /** size_t on a 64-bit target, the type of a sequence counter. */
  type u64 = x: int | 0 <= x < 0x1_0000_0000_0000_0000

  const U32Width: nat := 4
  const SizeWidth: nat := 8

  function Pow256(n: nat): (r: nat)
    ensures r >= 1
  {
    if n == 0 then 1 else 256 * Pow256(n - 1)
  }

  lemma Pow256Widths()
    ensures Pow256(U32Width) == 0x1_0000_0000
    ensures Pow256(SizeWidth) == 0x1_0000_0000_0000_0000
  {
  }

  /** The `width` low-order bytes of `x`, least significant first. */
  function Encode(width: nat, x: nat): (r: seq<byte>)
    requires x < Pow256(width)
    ensures |r| == width
  {
    if width == 0 then []
    else
      assert x / 256 < Pow256(width - 1);
      [x % 256] + Encode(width - 1, x / 256)
  }

  /** Reads `width` bytes, least significant first; a shorter buffer reads as if padded with zeroes. */
  function Decode(width: nat, bs: seq<byte>): (r: nat)
    ensures r < Pow256(width)
  {
    if width == 0 || bs == [] then 0
    else
      var rest := Decode(width - 1, bs[1..]);
      assert rest <= Pow256(width - 1) - 1;
      assert 256 * rest <= 256 * Pow256(width - 1) - 256;
      bs[0] + 256 * rest
  }

  lemma {:induction false} DecodeEncode(width: nat, x: nat)
    requires x < Pow256(width)
    ensures Decode(width, Encode(width, x)) == x
  {
    if width > 0 {
      var e := Encode(width, x);
      assert e[0] == x % 256 && e[1..] == Encode(width - 1, x / 256);
      DecodeEncode(width - 1, x / 256);
    }
  }

  lemma {:induction false} EncodeDecode(width: nat, bs: seq<byte>)
    requires |bs| == width
    ensures Encode(width, Decode(width, bs)) == bs
  {
    if width > 0 {
      var rest := Decode(width - 1, bs[1..]);
      var d := Decode(width, bs);
      assert d == bs[0] + 256 * rest;
      assert d % 256 == bs[0] && d / 256 == rest;
      EncodeDecode(width - 1, bs[1..]);
    }
  }

  lemma {:induction false} EncodeInjective(width: nat, x: nat, y: nat)
    requires x < Pow256(width) && y < Pow256(width)
    requires Encode(width, x) == Encode(width, y)
    ensures x == y
  {
    DecodeEncode(width, x);
    DecodeEncode(width, y);
  }

  /** PrimitiveTypeSlice<size_t>(x): the stored form of a sequence counter. */
  function PackSize(x: u64): (r: seq<byte>)
    ensures |r| == SizeWidth
  {
    Pow256Widths();
    Encode(SizeWidth, x)
  }

  /** PrimitiveTypeSlice<size_t>::unpackSlice. */
  function UnpackSize(bs: seq<byte>): u64
  {
    Pow256Widths();
    Decode(SizeWidth, bs)
  }

  /** The conversion of a size_t to uint32_t: the value modulo 2^32. */
  function Narrow32(x: u64): (r: u32)
    ensures x < 0x1_0000_0000 ==> r == x
    ensures (x - r) % 0x1_0000_0000 == 0
  {
    x % 0x1_0000_0000
  }

  /** primitive_type_slice<uint32_t>(x): the stored form of a version record. */
  function PackU32(x: u32): (r: seq<byte>)
    ensures |r| == U32Width
  {
    Pow256Widths();
    Encode(U32Width, x)
  }

  /** primitive_type_slice<uint32_t>::unpackSlice. */
  function UnpackU32(bs: seq<byte>): u32
  {
    Pow256Widths();
    Decode(U32Width, bs)
  }

  /** A full-width counter record is the packing of the counter it unpacks to. */
  lemma UnpackSizeExact(bs: seq<byte>)
    requires |bs| == SizeWidth
    ensures PackSize(UnpackSize(bs)) == bs
  {
    Pow256Widths();
    EncodeDecode(SizeWidth, bs);
  }

  /** A full-width version record is the packing of the value it unpacks to. */
  lemma UnpackU32Exact(bs: seq<byte>)
    requires |bs| == U32Width
    ensures PackU32(UnpackU32(bs)) == bs
  {
    Pow256Widths();
    EncodeDecode(U32Width, bs);
  }

  lemma SizeRoundTrip(x: u64)
    ensures UnpackSize(PackSize(x)) == x
  {
    Pow256Widths();
    DecodeEncode(SizeWidth, x);
  }

  lemma U32RoundTrip(x: u32)
    ensures UnpackU32(PackU32(x)) == x
  {
    Pow256Widths();
    DecodeEncode(U32Width, x);
  }
}

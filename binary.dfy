/**
 * Fixed-width little-endian values as System.IO.BinaryWriter writes them and
 * System.IO.BinaryReader reads them back: `short` is 2 bytes, `int` and
 * `float` are 4 bytes, `long` is 8 bytes, negative numbers in two's
 * complement.
 */
module Binary {

  type byte = x: int | 0 <= x < 0x100
  type int16 = x: int | -0x8000 <= x < 0x8000
  type int32 = x: int | -0x8000_0000 <= x < 0x8000_0000
  type int64 = x: int | -0x8000_0000_0000_0000 <= x < 0x8000_0000_0000_0000

  /**
   * A 32-bit pattern kept opaque. The model writes a `float` (a focal length or
   * a floor-plane coefficient) as its IEEE-754 bit pattern and never
   * interprets it.
   */
  type uint32 = x: int | 0 <= x < 0x1_0000_0000

  function Pow256(n: nat): (r: nat)
    ensures r > 0
  {
    if n == 0 then 1 else 256 * Pow256(n - 1)
  }

  /** The `n` little-endian bytes of `x`, least significant first. */
  function LittleEndian(x: nat, n: nat): (r: seq<byte>)
    ensures |r| == n
  {
    if n == 0 then [] else [x % 256] + LittleEndian(x / 256, n - 1)
  }

  /** The unsigned number a little-endian byte sequence denotes. */
  function FromLittleEndian(b: seq<byte>): (r: nat)
    ensures r < Pow256(|b|)
  {
    if b == [] then 0 else b[0] + 256 * FromLittleEndian(b[1..])
  }

  lemma {:induction false} LittleEndianRoundTrip(x: nat, n: nat)
    requires x < Pow256(n)
    ensures FromLittleEndian(LittleEndian(x, n)) == x
  {
    if n > 0 {
      LittleEndianRoundTrip(x / 256, n - 1);
      assert LittleEndian(x, n)[1..] == LittleEndian(x / 256, n - 1);
    }
  }

  function Unsigned16(v: int16): (u: nat)
    ensures u < Pow256(2)
  {
    if v >= 0 then v else v + 0x1_0000
  }

  function Unsigned32(v: int32): (u: uint32)
    ensures u < Pow256(4)
    ensures (u < 0x8000_0000) == (v >= 0)
  {
    if v >= 0 then v else v + 0x1_0000_0000
  }

  function Unsigned64(v: int64): (u: nat)
    ensures u < Pow256(8)
  {
    if v >= 0 then v else v + 0x1_0000_0000_0000_0000
  }

  /** The signed `int` a 32-bit pattern stands for: what ReadInt32 returns for those four bytes. */
  function Signed32(u: uint32): (v: int32)
    ensures Unsigned32(v) == u
  {
    if u < 0x8000_0000 then u else u - 0x1_0000_0000
  }

  lemma Signed32OfUnsigned(v: int32)
    ensures Signed32(Unsigned32(v)) == v
  {
  }

  /** BinaryWriter.Write(short). */
  function Int16Bytes(v: int16): (r: seq<byte>)
    ensures |r| == 2
  {
    LittleEndian(Unsigned16(v), 2)
  }

  /** BinaryWriter.Write(float), on the float's bit pattern. */
  function WordBytes(u: uint32): (r: seq<byte>)
    ensures |r| == 4
  {
    LittleEndian(u, 4)
  }

  /** BinaryWriter.Write(int). */
  function Int32Bytes(v: int32): (r: seq<byte>)
    ensures |r| == 4
  {
    WordBytes(Unsigned32(v))
  }

  /** BinaryWriter.Write(long). */
  function Int64Bytes(v: int64): (r: seq<byte>)
    ensures |r| == 8
  {
    LittleEndian(Unsigned64(v), 8)
  }

  /** BinaryReader.ReadInt16 on exactly two bytes. */
  function DecodeInt16(b: seq<byte>): int16
    requires |b| == 2
  {
    var u := FromLittleEndian(b);
    if u < 0x8000 then u else u - 0x1_0000
  }

  /** A 32-bit pattern from four bytes (BinaryReader.ReadSingle, bit for bit). */
  function DecodeWord(b: seq<byte>): uint32
    requires |b| == 4
  {
    FromLittleEndian(b)
  }

  /** BinaryReader.ReadInt32 on exactly four bytes. */
  function DecodeInt32(b: seq<byte>): int32
    requires |b| == 4
  {
    Signed32(DecodeWord(b))
  }

  /** BinaryReader.ReadInt64 on exactly eight bytes. */
  function DecodeInt64(b: seq<byte>): int64
    requires |b| == 8
  {
    var u := FromLittleEndian(b);
    if u < 0x8000_0000_0000_0000 then u else u - 0x1_0000_0000_0000_0000
  }

  lemma Int16RoundTrip(v: int16)
    ensures DecodeInt16(Int16Bytes(v)) == v
  {
    LittleEndianRoundTrip(Unsigned16(v), 2);
  }

  lemma WordRoundTrip(u: uint32)
    ensures DecodeWord(WordBytes(u)) == u
  {
    LittleEndianRoundTrip(u, 4);
  }

  lemma Int32RoundTrip(v: int32)
    ensures DecodeInt32(Int32Bytes(v)) == v
  {
    WordRoundTrip(Unsigned32(v));
  }

  lemma Int64RoundTrip(v: int64)
    ensures DecodeInt64(Int64Bytes(v)) == v
  {
    LittleEndianRoundTrip(Unsigned64(v), 8);
  }
}

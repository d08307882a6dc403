/**
 * The output stream of a recording together with the System.IO.BinaryWriter
 * wrapped around it. BinaryWriter writes straight through to its stream, so
 * the model keeps one object: the primitive writes made so far (whose bytes
 * are `Bytes()`), how often it was flushed, and whether it was closed.
 */
module Output {
  import opened Binary
  import opened Format

  class Sink {
    var writes: seq<Write>
    var flushCount: nat
    var closed: bool

    /** What the stream holds. */
    ghost function Bytes(): seq<byte>
      reads this
    {
      Serialize(writes)
    }

    /** A new, empty, open stream. */
    constructor ()
      ensures writes == [] && Bytes() == [] && flushCount == 0 && !closed
    {
      writes := [];
      flushCount := 0;
      closed := false;
    }

    /** BinaryWriter.Write(byte[]), and what BinaryFormatter.Serialize puts on the base stream. */
    method Write(b: seq<byte>)
      requires !closed
      modifies this
      ensures writes == old(writes) + ByteWrites(b)
      ensures flushCount == old(flushCount) && !closed
    {
      writes := writes + ByteWrites(b);
    }

    /** BinaryWriter.Write(short). */
    method WriteInt16(v: int16)
      requires !closed
      modifies this
      ensures writes == old(writes) + [WriteShort(v)]
      ensures flushCount == old(flushCount) && !closed
    {
      writes := writes + [WriteShort(v)];
    }

    /** BinaryWriter.Write(int). */
    method WriteInt32(v: int32)
      requires !closed
      modifies this
      ensures writes == old(writes) + [IntWrite(v)]
      ensures flushCount == old(flushCount) && !closed
    {
      writes := writes + [IntWrite(v)];
    }

    /** BinaryWriter.Write(long). */
    method WriteInt64(v: int64)
      requires !closed
      modifies this
      ensures writes == old(writes) + [WriteLong(v)]
      ensures flushCount == old(flushCount) && !closed
    {
      writes := writes + [WriteLong(v)];
    }

    /** BinaryWriter.Write(float), on the float's bit pattern. */
    method WriteSingle(u: uint32)
      requires !closed
      modifies this
      ensures writes == old(writes) + [WriteWord(u)]
      ensures flushCount == old(flushCount) && !closed
    {
      writes := writes + [WriteWord(u)];
    }

    method Flush()
      requires !closed
      modifies this
      ensures writes == old(writes) && flushCount == old(flushCount) + 1 && !closed
    {
      flushCount := flushCount + 1;
    }

    /** Closing a closed stream does nothing further. */
    method Close()
      modifies this
      ensures writes == old(writes) && flushCount == old(flushCount) && closed
    {
      closed := true;
    }
  }
}

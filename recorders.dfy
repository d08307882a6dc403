/**
 * The per-modality encoders. Each keeps the time of its previous record and
 * writes one tagged record per call: int32 tag, int64 milliseconds since the
 * previous record of the same modality, fixed fields, payload.
 */
module Recorders {
  import opened Wrappers
  import opened Binary
  import opened Format
  import opened Output

  /** The parts of a Kinect DepthImageFrame the recorder reads; `pixelData` is what CopyPixelDataTo copies. */
  datatype DepthImageFrame = DepthImageFrame(
    bytesPerPixel: int32,
    format: int32,
    width: int32,
    height: int32,
    frameNumber: int32,
    pixelData: PixelData)

  /**
   * The parts of a Kinect SkeletonFrame the recorder reads. `serializedSkeletons`
   * stands for the bytes BinaryFormatter produces for the frame's skeleton array.
   */
  datatype SkeletonFrame = SkeletonFrame(
    trackingMode: int32,
    floorClipPlane: FloorPlane,
    frameNumber: int32,
    serializedSkeletons: seq<byte>)

  /** The bytes ColorRecorder writes for a frame after its tag and delta. */
  datatype ColorImageFrame = ColorImageFrame(body: seq<byte>)

  /** `new short[frame.PixelDataLength]` filled by `frame.CopyPixelDataTo`. */
  method CopyPixelData(frame: DepthImageFrame) returns (shorts: array<int16>)
    ensures fresh(shorts) && shorts[..] == frame.pixelData
  {
    shorts := new int16[|frame.pixelData|](i requires 0 <= i < |frame.pixelData| => frame.pixelData[i]);
  }

  function DepthRecordOf(frame: DepthImageFrame, delta: int64): DepthRecord {
    DepthRecord(delta, frame.bytesPerPixel, frame.format, frame.width, frame.height,
                frame.frameNumber, frame.pixelData)
  }

  function SkeletonRecordOf(frame: SkeletonFrame, delta: int64): SkeletonRecord {
    SkeletonRecord(delta, frame.trackingMode, frame.floorClipPlane, frame.frameNumber,
                   frame.serializedSkeletons)
  }

  function ColorRecordOf(frame: ColorImageFrame, delta: int64): ColorRecord {
    ColorRecord(delta, frame.body)
  }

  /** The writes of DepthRecorder.Record, call by call, make up one depth record. */
  lemma DepthCallsMakeRecord(start: seq<Write>, r: DepthRecord)
    ensures start + [IntWrite(DepthTag)] + [WriteLong(r.delta)] + [IntWrite(r.bytesPerPixel)] + [IntWrite(r.format)]
            + [IntWrite(r.width)] + [IntWrite(r.height)] + [IntWrite(r.frameNumber)] + [IntWrite(|r.pixels|)]
            + ShortWrites(r.pixels)
            == start + DepthWrites(r)
  {
  }

  /** The writes of SkeletonRecorder.Record, call by call, make up one skeleton record. */
  lemma SkeletonCallsMakeRecord(start: seq<Write>, r: SkeletonRecord)
    ensures start + [IntWrite(SkeletonsTag)] + [WriteLong(r.delta)] + [IntWrite(r.trackingMode)]
            + [WriteWord(r.floorClipPlane.item1)] + [WriteWord(r.floorClipPlane.item2)]
            + [WriteWord(r.floorClipPlane.item3)] + [WriteWord(r.floorClipPlane.item4)]
            + [IntWrite(r.frameNumber)] + ByteWrites(r.skeletons)
            == start + SkeletonWrites(r)
  {
  }

  class DepthRecorder {
    var referenceTime: Ticks
    const writer: Sink

    constructor (writer: Sink, refTime: Ticks)
      ensures this.writer == writer && referenceTime == refTime
    {
      this.writer := writer;
      referenceTime := refTime;
    }

    /**
     * Writes the Depth tag, the delta since `referenceTime`, bytesPerPixel,
     * format, width, height, frameNumber, the pixel count and the pixels, and
     * moves `referenceTime` to `time`. On a closed writer the first Write
     * throws ObjectDisposedException, before anything changes.
     */
    method Record(frame: DepthImageFrame, time: Ticks) returns (r: Outcome<Error>)
      modifies this, writer
      ensures writer.flushCount == old(writer.flushCount) && writer.closed == old(writer.closed)
      ensures r.Pass? <==> !old(writer.closed)
      ensures r.Fail? ==>
        r.error == ObjectDisposed && referenceTime == old(referenceTime) && writer.writes == old(writer.writes)
      ensures r.Pass? ==>
        referenceTime == time && writer.writes == old(writer.writes) + DepthWrites(DepthRecordOf(frame, ElapsedMillis(old(referenceTime), time)))
    {
      if writer.closed {
        return Fail(ObjectDisposed);
      }
      writer.WriteInt32(DepthTag);
      var delta := ElapsedMillis(referenceTime, time);
      referenceTime := time;
      writer.WriteInt64(delta);
      writer.WriteInt32(frame.bytesPerPixel);
      writer.WriteInt32(frame.format);
      writer.WriteInt32(frame.width);
      writer.WriteInt32(frame.height);
      writer.WriteInt32(frame.frameNumber);
      var shorts := CopyPixelData(frame);
      writer.WriteInt32(shorts.Length);
      WritePixels(shorts);
      DepthCallsMakeRecord(old(writer.writes), DepthRecordOf(frame, delta));
      r := Pass;
    }

    /** The `foreach` over the copied pixels: one BinaryWriter.Write(short) each. */
    method WritePixels(shorts: array<int16>)
      requires !writer.closed
      modifies writer
      ensures writer.writes == old(writer.writes) + ShortWrites(shorts[..])
      ensures !writer.closed && writer.flushCount == old(writer.flushCount)
    {
      ghost var prefix := writer.writes;
      for k := 0 to shorts.Length
        invariant writer.writes == prefix + ShortWrites(shorts[..k])
        invariant !writer.closed && writer.flushCount == old(writer.flushCount)
      {
        assert ShortWrites(shorts[..k + 1]) == ShortWrites(shorts[..k]) + [WriteShort(shorts[k])];
        writer.WriteInt16(shorts[k]);
      }
      assert shorts[..shorts.Length] == shorts[..];
    }
  }

  class SkeletonRecorder {
    var referenceTime: Ticks
    const writer: Sink

    constructor (writer: Sink, refTime: Ticks)
      ensures this.writer == writer && referenceTime == refTime
    {
      this.writer := writer;
      referenceTime := refTime;
    }

    /**
     * Writes the Skeletons tag, the delta, trackingMode, the four floor-plane
     * coefficients, frameNumber and then the serialised skeletons with no
     * length in front, and moves `referenceTime` to `time`. The formatter is
     * handed `writer.BaseStream`, whose getter flushes the writer first, so
     * every record flushes once before the skeletons are serialised.
     */
    method Record(frame: SkeletonFrame, time: Ticks) returns (r: Outcome<Error>)
      modifies this, writer
      ensures writer.closed == old(writer.closed)
      ensures r.Pass? <==> !old(writer.closed)
      ensures r.Fail? ==>
        && r.error == ObjectDisposed && referenceTime == old(referenceTime)
        && writer.writes == old(writer.writes) && writer.flushCount == old(writer.flushCount)
      ensures r.Pass? ==>
        && referenceTime == time && writer.flushCount == old(writer.flushCount) + 1
        && writer.writes == old(writer.writes) + SkeletonWrites(SkeletonRecordOf(frame, ElapsedMillis(old(referenceTime), time)))
    {
      if writer.closed {
        return Fail(ObjectDisposed);
      }
      writer.WriteInt32(SkeletonsTag);
      var delta := ElapsedMillis(referenceTime, time);
      referenceTime := time;
      writer.WriteInt64(delta);
      writer.WriteInt32(frame.trackingMode);
      writer.WriteSingle(frame.floorClipPlane.item1);
      writer.WriteSingle(frame.floorClipPlane.item2);
      writer.WriteSingle(frame.floorClipPlane.item3);
      writer.WriteSingle(frame.floorClipPlane.item4);
      writer.WriteInt32(frame.frameNumber);
      writer.Flush();
      writer.Write(frame.serializedSkeletons);
      SkeletonCallsMakeRecord(old(writer.writes), SkeletonRecordOf(frame, delta));
      r := Pass;
    }
  }

  /** ColorRecorder is not part of this model beyond its tag, its delta and its reference time. */
  class ColorRecorder {
    var referenceTime: Ticks
    const writer: Sink

    constructor (writer: Sink, refTime: Ticks)
      ensures this.writer == writer && referenceTime == refTime
    {
      this.writer := writer;
      referenceTime := refTime;
    }

    method Record(frame: ColorImageFrame, time: Ticks) returns (r: Outcome<Error>)
      modifies this, writer
      ensures writer.flushCount == old(writer.flushCount) && writer.closed == old(writer.closed)
      ensures r.Pass? <==> !old(writer.closed)
      ensures r.Fail? ==>
        r.error == ObjectDisposed && referenceTime == old(referenceTime) && writer.writes == old(writer.writes)
      ensures r.Pass? ==>
        referenceTime == time && writer.writes == old(writer.writes) + ColorWrites(ColorRecordOf(frame, ElapsedMillis(old(referenceTime), time)))
    {
      if writer.closed {
        return Fail(ObjectDisposed);
      }
      writer.WriteInt32(ColorTag);
      var delta := ElapsedMillis(referenceTime, time);
      referenceTime := time;
      writer.WriteInt64(delta);
      writer.Write(frame.body);
      r := Pass;
    }
  }
}

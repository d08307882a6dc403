/**
 * The read side of a recording: a BinaryReader over the file's tokens, the
 * decoders of the three sub-records, and ReplayAllFrames, which assembles one
 * composite frame from up to three tagged sub-records.
 */
module ReplayFrames {
  import opened Wrappers
  import opened Binary
  import opened Format

  // ---------------------------------------------------------------------------
  // Reading tokens. Each function reads at `pos` and returns the value and the
  // position after it; a read past the end is EndOfStream, a token of another
  // kind than the one asked for is Malformed.

  /** BinaryReader.ReadInt32 (or ReadSingle, bit for bit). */
  function ReadWordAt(ts: seq<Token>, pos: nat): (r: Result<(uint32, nat), Error>)
    ensures r.Ok? ==> pos < |ts| && ts[pos] == Word(r.value.0) && r.value.1 == pos + 1
    ensures pos < |ts| && ts[pos].Word? ==> r == Ok((ts[pos].bits, pos + 1))
    ensures r.Err? ==> r.error == (if pos < |ts| then Malformed else EndOfStream)
  {
    if pos >= |ts| then Err(EndOfStream)
    else if ts[pos].Word? then Ok((ts[pos].bits, pos + 1))
    else Err(Malformed)
  }

  /**
   * BinaryReader.ReadBytes(n) for n >= 0: up to `n` bytes, fewer when the
   * stream ends first.
   */
  function TakeBytes(ts: seq<Token>, pos: nat, n: nat): (r: Result<(seq<byte>, nat), Error>)
    decreases n
    ensures r.Ok? ==> |r.value.0| <= n && r.value.1 == pos + |r.value.0|
    ensures r.Ok? && |r.value.0| < n ==> r.value.1 >= |ts|
    ensures r.Ok? && pos <= |ts| ==> r.value.1 <= |ts|
  {
    if n == 0 || pos >= |ts| then Ok(([], pos))
    else if !ts[pos].Byte? then Err(Malformed)
    else
      var rest :- TakeBytes(ts, pos + 1, n - 1);
      Ok(([ts[pos].octet] + rest.0, rest.1))
  }

  /** BinaryReader.ReadBytes: a negative count is ArgumentOutOfRangeException. */
  function ReadBytesAt(ts: seq<Token>, pos: nat, count: int32): Result<(seq<byte>, nat), Error> {
    if count < 0 then Err(ArgumentOutOfRange) else TakeBytes(ts, pos, count)
  }

  /**
   * ReplaySkeletonFrame, ReplayDepthImageFrame and ReplayColorImageFrame are
   * not part of this model; their CreateFromReader is taken to consume
   * exactly the body its recorder wrote after the tag.
   */
  function DecodeSkeletonAt(ts: seq<Token>, pos: nat): (r: Result<(SkeletonRecord, nat), Error>)
    ensures r.Ok? ==> pos < |ts| && ts[pos] == SkeletonBody(r.value.0) && r.value.1 == pos + 1
  {
    if pos >= |ts| then Err(EndOfStream)
    else if ts[pos].SkeletonBody? then Ok((ts[pos].skeleton, pos + 1))
    else Err(Malformed)
  }

  function DecodeDepthAt(ts: seq<Token>, pos: nat): (r: Result<(DepthRecord, nat), Error>)
    ensures r.Ok? ==> pos < |ts| && ts[pos] == DepthBody(r.value.0) && r.value.1 == pos + 1
  {
    if pos >= |ts| then Err(EndOfStream)
    else if ts[pos].DepthBody? then Ok((ts[pos].depth, pos + 1))
    else Err(Malformed)
  }

  function DecodeColorAt(ts: seq<Token>, pos: nat): (r: Result<(ColorRecord, nat), Error>)
    ensures r.Ok? ==> pos < |ts| && ts[pos] == ColorBody(r.value.0) && r.value.1 == pos + 1
  {
    if pos >= |ts| then Err(EndOfStream)
    else if ts[pos].ColorBody? then Ok((ts[pos].color, pos + 1))
    else Err(Malformed)
  }

  /** A BinaryReader over its stream: the tokens of the file and the read position. */
  class Source {
    const tokens: seq<Token>
    var position: nat
    var closed: bool

    constructor (tokens: seq<Token>)
      ensures this.tokens == tokens && position == 0 && !closed
    {
      this.tokens := tokens;
      position := 0;
      closed := false;
    }

    method ReadInt32() returns (r: Result<int32, Error>)
      modifies this
      ensures closed == old(closed)
      ensures old(closed) ==> r == Err(ObjectDisposed) && position == old(position)
      ensures !old(closed) ==> (r.Ok? <==> ReadWordAt(tokens, old(position)).Ok?)
      ensures !old(closed) && r.Ok? ==>
        r.value == Signed32(ReadWordAt(tokens, old(position)).value.0) && position == ReadWordAt(tokens, old(position)).value.1
      ensures !old(closed) && r.Err? ==>
        r.error == ReadWordAt(tokens, old(position)).error && position == old(position)
    {
      if closed {
        return Err(ObjectDisposed);
      }
      var w := ReadWordAt(tokens, position);
      if w.Err? {
        return Err(w.error);
      }
      position := w.value.1;
      r := Ok(Signed32(w.value.0));
    }

    method ReadBytes(count: int32) returns (r: Result<seq<byte>, Error>)
      modifies this
      ensures closed == old(closed)
      ensures old(closed) ==> r == Err(ObjectDisposed) && position == old(position)
      ensures !old(closed) ==> (r.Ok? <==> ReadBytesAt(tokens, old(position), count).Ok?)
      ensures !old(closed) && r.Ok? ==>
        r.value == ReadBytesAt(tokens, old(position), count).value.0 && position == ReadBytesAt(tokens, old(position), count).value.1
      ensures !old(closed) && r.Err? ==>
        r.error == ReadBytesAt(tokens, old(position), count).error && position == old(position)
    {
      if closed {
        return Err(ObjectDisposed);
      }
      var b := ReadBytesAt(tokens, position, count);
      if b.Err? {
        return Err(b.error);
      }
      position := b.value.1;
      r := Ok(b.value.0);
    }

    method ReadSkeleton() returns (r: Result<SkeletonRecord, Error>)
      modifies this
      ensures closed == old(closed)
      ensures old(closed) ==> r == Err(ObjectDisposed) && position == old(position)
      ensures !old(closed) ==> (r.Ok? <==> DecodeSkeletonAt(tokens, old(position)).Ok?)
      ensures !old(closed) && r.Ok? ==>
        r.value == DecodeSkeletonAt(tokens, old(position)).value.0 && position == DecodeSkeletonAt(tokens, old(position)).value.1
      ensures !old(closed) && r.Err? ==>
        r.error == DecodeSkeletonAt(tokens, old(position)).error && position == old(position)
    {
      if closed {
        return Err(ObjectDisposed);
      }
      var d := DecodeSkeletonAt(tokens, position);
      if d.Err? {
        return Err(d.error);
      }
      position := d.value.1;
      r := Ok(d.value.0);
    }

    method ReadDepth() returns (r: Result<DepthRecord, Error>)
      modifies this
      ensures closed == old(closed)
      ensures old(closed) ==> r == Err(ObjectDisposed) && position == old(position)
      ensures !old(closed) ==> (r.Ok? <==> DecodeDepthAt(tokens, old(position)).Ok?)
      ensures !old(closed) && r.Ok? ==>
        r.value == DecodeDepthAt(tokens, old(position)).value.0 && position == DecodeDepthAt(tokens, old(position)).value.1
      ensures !old(closed) && r.Err? ==>
        r.error == DecodeDepthAt(tokens, old(position)).error && position == old(position)
    {
      if closed {
        return Err(ObjectDisposed);
      }
      var d := DecodeDepthAt(tokens, position);
      if d.Err? {
        return Err(d.error);
      }
      position := d.value.1;
      r := Ok(d.value.0);
    }

    method ReadColor() returns (r: Result<ColorRecord, Error>)
      modifies this
      ensures closed == old(closed)
      ensures old(closed) ==> r == Err(ObjectDisposed) && position == old(position)
      ensures !old(closed) ==> (r.Ok? <==> DecodeColorAt(tokens, old(position)).Ok?)
      ensures !old(closed) && r.Ok? ==>
        r.value == DecodeColorAt(tokens, old(position)).value.0 && position == DecodeColorAt(tokens, old(position)).value.1
      ensures !old(closed) && r.Err? ==>
        r.error == DecodeColorAt(tokens, old(position)).error && position == old(position)
    {
      if closed {
        return Err(ObjectDisposed);
      }
      var d := DecodeColorAt(tokens, position);
      if d.Err? {
        return Err(d.error);
      }
      position := d.value.1;
      r := Ok(d.value.0);
    }

    /** BinaryReader.Close, which closes the stream too; closing twice does nothing further. */
    method Close()
      modifies this
      ensures closed && position == old(position)
    {
      closed := true;
    }
  }

  // ---------------------------------------------------------------------------
  // The composite frame.

  /** A sub-frame object: as the constructor allocated it, or filled by its last CreateFromReader. */
  datatype SubFrame<T> = Blank | Decoded(record: T)

  /** The observable fields of a ReplayAllFrames: TimeStamp, FrameNumber and the three sub-frames. */
  datatype Composite = Composite(
    timeStamp: int64,
    frameNumber: int32,
    skeleton: SubFrame<SkeletonRecord>,
    depth: SubFrame<DepthRecord>,
    color: SubFrame<ColorRecord>)

  /** A new ReplayAllFrames: every sub-frame allocated and empty, TimeStamp and FrameNumber 0. */
  const EmptyComposite := Composite(0, 0, Blank, Blank, Blank)

  /**
   * The `for (i = 0; i < 3; i++)` loop of CreateFromReader from iteration `i`
   * on, over the composite `c` and the position `pos`: read a tag, decode the
   * sub-record it names, and stop early after a color record. A tag that is
   * none of the three is passed over (the switch has no default).
   */
  function Assemble(c: Composite, ts: seq<Token>, pos: nat, i: nat): (r: Result<(Composite, nat), Error>)
    requires i <= 3
    decreases 3 - i
    ensures r.Ok? && i < 3 ==> pos < r.value.1 <= |ts| && r.value.1 <= pos + 2 * (3 - i)
    ensures r.Ok? && i == 3 ==> r == Ok((c, pos))
  {
    if i == 3 then Ok((c, pos))
    else
      var tag :- ReadWordAt(ts, pos);
      var t := Signed32(tag.0);
      if t == SkeletonsTag then
        var s :- DecodeSkeletonAt(ts, tag.1);
        Assemble(c.(skeleton := Decoded(s.0)), ts, s.1, i + 1)
      else if t == DepthTag then
        var d :- DecodeDepthAt(ts, tag.1);
        Assemble(c.(depth := Decoded(d.0), timeStamp := d.0.delta, frameNumber := d.0.frameNumber), ts, d.1, i + 1)
      else if t == ColorTag then
        var k :- DecodeColorAt(ts, tag.1);
        Ok((c.(color := Decoded(k.0)), k.1))
      else
        Assemble(c, ts, tag.1, i + 1)
  }

  class ReplayAllFrames {
    var timeStamp: int64
    var frameNumber: int32
    var skeletonFrame: SubFrame<SkeletonRecord>
    var depthImageFrame: SubFrame<DepthRecord>
    var colorImageFrame: SubFrame<ColorRecord>

    function Value(): Composite
      reads this
    {
      Composite(timeStamp, frameNumber, skeletonFrame, depthImageFrame, colorImageFrame)
    }

    /** Allocates the three sub-frames. */
    constructor ()
      ensures Value() == EmptyComposite
    {
      timeStamp := 0;
      frameNumber := 0;
      skeletonFrame := Blank;
      depthImageFrame := Blank;
      colorImageFrame := Blank;
    }

    /**
     * CreateFromReader. On success the new fields and the reader's position
     * are what `Assemble` computes; an exception leaves a partly filled frame
     * that AddFrame never stores, so only the exception is stated.
     */
    method CreateFromReader(reader: Source) returns (r: Outcome<Error>)
      modifies this, reader
      ensures reader.closed == old(reader.closed)
      ensures old(reader.closed) ==> r == Fail(ObjectDisposed) && Value() == old(Value())
      ensures !old(reader.closed) ==>
        var spec := Assemble(old(Value()), reader.tokens, old(reader.position), 0);
        && (r.Pass? <==> spec.Ok?)
        && (r.Pass? ==> spec.value == (Value(), reader.position))
        && (r.Fail? ==> spec == Err(r.error))
    {
      ghost var goal := Assemble(Value(), reader.tokens, reader.position, 0);
      for i := 0 to 3
        invariant reader.closed == old(reader.closed)
        invariant old(reader.closed) ==> i == 0 && Value() == old(Value())
        invariant !reader.closed ==> Assemble(Value(), reader.tokens, reader.position, i) == goal
      {
        var tag := reader.ReadInt32();
        if tag.Err? {
          return Fail(tag.error);
        }
        if tag.value == SkeletonsTag {
          var s := reader.ReadSkeleton();
          if s.Err? {
            return Fail(s.error);
          }
          skeletonFrame := Decoded(s.value);
        } else if tag.value == DepthTag {
          var d := reader.ReadDepth();
          if d.Err? {
            return Fail(d.error);
          }
          depthImageFrame := Decoded(d.value);
          timeStamp := d.value.delta;
          frameNumber := d.value.frameNumber;
        } else if tag.value == ColorTag {
          var k := reader.ReadColor();
          if k.Err? {
            return Fail(k.error);
          }
          colorImageFrame := Decoded(k.value);
          return Pass;
        }
      }
      r := Pass;
    }
  }

  // ---------------------------------------------------------------------------
  // ReplayAllFramesReadyEventArgs: the getters forward to AllFrames.

  datatype AllFramesReadyEventArgs = AllFramesReadyEventArgs(allFrames: Composite)

  function ColorImageFrameOf(e: AllFramesReadyEventArgs): SubFrame<ColorRecord> {
    e.allFrames.color
  }

  function DepthImageFrameOf(e: AllFramesReadyEventArgs): SubFrame<DepthRecord> {
    e.allFrames.depth
  }

  function SkeletonFrameOf(e: AllFramesReadyEventArgs): SubFrame<SkeletonRecord> {
    e.allFrames.skeleton
  }

  // ---------------------------------------------------------------------------
  // Properties of one CreateFromReader call.

  /** TimeStamp and FrameNumber follow the depth sub-frame. */
  ghost predicate AdoptsDepth(c: Composite) {
    c.depth.Decoded? ==> c.timeStamp == c.depth.record.delta && c.frameNumber == c.depth.record.frameNumber
  }

  /**
   * After the call the composite's TimeStamp and FrameNumber are those of the
   * depth sub-record read last; with no depth sub-record they are unchanged.
   */
  lemma {:induction false} AssembleAdoptsDepth(c: Composite, ts: seq<Token>, pos: nat, i: nat)
    requires i <= 3
    requires Assemble(c, ts, pos, i).Ok?
    decreases 3 - i
    ensures var d := Assemble(c, ts, pos, i).value.0;
      && (AdoptsDepth(c) ==> AdoptsDepth(d))
      && (d.depth == c.depth && c.depth.Blank? ==> d.timeStamp == c.timeStamp && d.frameNumber == c.frameNumber)
      && (d.depth != c.depth ==> AdoptsDepth(d))
  {
    if i < 3 {
      var tag := ReadWordAt(ts, pos).value;
      var t := Signed32(tag.0);
      if t == SkeletonsTag {
        var s := DecodeSkeletonAt(ts, tag.1).value;
        AssembleAdoptsDepth(c.(skeleton := Decoded(s.0)), ts, s.1, i + 1);
      } else if t == DepthTag {
        var d := DecodeDepthAt(ts, tag.1).value;
        AssembleAdoptsDepth(c.(depth := Decoded(d.0), timeStamp := d.0.delta, frameNumber := d.0.frameNumber), ts, d.1, i + 1);
      } else if t != ColorTag {
        AssembleAdoptsDepth(c, ts, tag.1, i + 1);
      }
    }
  }

  /** A color sub-record ends the call at once, whatever iteration it comes in. */
  lemma ColorEndsCall(c: Composite, ts: seq<Token>, pos: nat, i: nat, k: ColorRecord)
    requires i < 3 && pos + 1 < |ts|
    requires ts[pos] == IntToken(ColorTag) && ts[pos + 1] == ColorBody(k)
    ensures Assemble(c, ts, pos, i) == Ok((c.(color := Decoded(k)), pos + 2))
  {
    Signed32OfUnsigned(ColorTag);
  }

  /** A tag that names no modality is consumed alone, and the next iteration reads the token after it. */
  lemma UnknownTagSkipped(c: Composite, ts: seq<Token>, pos: nat, i: nat, v: int32)
    requires i < 3 && pos < |ts| && ts[pos] == IntToken(v) && !IsModality(v)
    ensures Assemble(c, ts, pos, i) == Assemble(c, ts, pos + 1, i + 1)
  {
    Signed32OfUnsigned(v);
  }

  /**
   * A group as KinectRecorder.Record(sf, df, cf) writes it with all three
   * frames (skeleton, depth, color) is consumed by exactly one call: the
   * composite holds the three records and the depth record's delta and
   * frame number.
   */
  lemma GroupIsOneFrame(c: Composite, s: SkeletonRecord, d: DepthRecord, k: ColorRecord, rest: seq<Token>)
    ensures Assemble(c, SkeletonTokens(s) + DepthTokens(d) + ColorTokens(k) + rest, 0, 0)
      == Ok((Composite(d.delta, d.frameNumber, Decoded(s), Decoded(d), Decoded(k)), 6))
  {
    var ts := SkeletonTokens(s) + DepthTokens(d) + ColorTokens(k) + rest;
    Signed32OfUnsigned(SkeletonsTag);
    Signed32OfUnsigned(DepthTag);
    assert ts[0] == IntToken(SkeletonsTag) && ts[1] == SkeletonBody(s);
    assert ts[2] == IntToken(DepthTag) && ts[3] == DepthBody(d);
    assert ts[4] == IntToken(ColorTag) && ts[5] == ColorBody(k);
    var c1 := c.(skeleton := Decoded(s));
    var c2 := c1.(depth := Decoded(d), timeStamp := d.delta, frameNumber := d.frameNumber);
    ColorEndsCall(c2, ts, 4, 2, k);
  }

  /** The event arguments hand out the sub-frames of the composite they carry. */
  lemma EventArgsForwardGroup(s: SkeletonRecord, d: DepthRecord, k: ColorRecord, rest: seq<Token>)
    ensures var e := AllFramesReadyEventArgs(
        Assemble(EmptyComposite, SkeletonTokens(s) + DepthTokens(d) + ColorTokens(k) + rest, 0, 0).value.0);
      && SkeletonFrameOf(e) == Decoded(s)
      && DepthImageFrameOf(e) == Decoded(d)
      && ColorImageFrameOf(e) == Decoded(k)
  {
    GroupIsOneFrame(EmptyComposite, s, d, k, rest);
  }
}

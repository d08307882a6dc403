/**
 * KinectRecorder: writes the file header once, owns one sub-recorder per
 * enabled modality, checks after every record whether more than 60 seconds
 * have passed since the last flush, and closes the stream.
 *
 * The pure `RecorderState` and the `...Step` functions say what each public
 * operation does; the class methods are proved to follow them, and the
 * lemmas at the end state the properties of the steps.
 */
module Recording {
  import opened Wrappers
  import opened Binary
  import opened Format
  import opened Output
  import opened Recorders

  /** A frame as handed to one of the three single-modality Record overloads. */
  datatype LiveFrame =
    | SkeletonLive(skeleton: SkeletonFrame)
    | DepthLive(depth: DepthImageFrame)
    | ColorLive(color: ColorImageFrame)

  function ModalityOf(f: LiveFrame): (m: int32)
    ensures IsModality(m)
  {
    match f
    case SkeletonLive(_) => SkeletonsTag
    case DepthLive(_) => DepthTag
    case ColorLive(_) => ColorTag
  }

  /** The tokens of the record a sub-recorder writes for `f` with the given delta. */
  function RecordTokens(f: LiveFrame, delta: int64): seq<Token> {
    match f
    case SkeletonLive(frame) => SkeletonTokens(SkeletonRecordOf(frame, delta))
    case DepthLive(frame) => DepthTokens(DepthRecordOf(frame, delta))
    case ColorLive(frame) => ColorTokens(ColorRecordOf(frame, delta))
  }

  /** The writes of that record, as the sub-recorder's Record makes them. */
  function RecordWrites(f: LiveFrame, delta: int64): seq<Write> {
    match f
    case SkeletonLive(frame) => SkeletonWrites(SkeletonRecordOf(frame, delta))
    case DepthLive(frame) => DepthWrites(DepthRecordOf(frame, delta))
    case ColorLive(frame) => ColorWrites(ColorRecordOf(frame, delta))
  }

  /**
   * What a KinectRecorder is, observably: the tokens written since it was
   * opened, the reference time of each sub-recorder (None when that
   * sub-recorder was never created), the last flush, the number of flushes,
   * whether the writer is closed, whether `recordStream` is still set, and
   * the Options property.
   */
  datatype RecorderState = RecorderState(
    log: seq<Token>,
    colorReference: Option<Ticks>,
    depthReference: Option<Ticks>,
    skeletonReference: Option<Ticks>,
    previousFlushDate: Ticks,
    flushes: nat,
    writerClosed: bool,
    streamHeld: bool,
    options: int32)

  function ReferenceOf(s: RecorderState, m: int32): Option<Ticks>
    requires IsModality(m)
  {
    if m == ColorTag then s.colorReference
    else if m == DepthTag then s.depthReference
    else s.skeletonReference
  }

  function WithReference(s: RecorderState, m: int32, t: Ticks): RecorderState
    requires IsModality(m)
  {
    if m == ColorTag then s.(colorReference := Some(t))
    else if m == DepthTag then s.(depthReference := Some(t))
    else s.(skeletonReference := Some(t))
  }

  /** The state right after the constructor: header written, one sub-recorder per bit of `options`. */
  function OpenState(options: int32, calibration: Calibration, colorFocalLength: uint32,
                     depthFocalLength: uint32, openTime: Ticks): RecorderState
  {
    RecorderState(
      HeaderTokens(Header(calibration, colorFocalLength, depthFocalLength, options)),
      if HasOption(options, ColorTag) then Some(openTime) else None,
      if HasOption(options, DepthTag) then Some(openTime) else None,
      if HasOption(options, SkeletonsTag) then Some(openTime) else None,
      openTime, 0, false, true, options)
  }

  /** `now.Subtract(previousFlushDate).TotalSeconds > 60`, in ticks. */
  predicate FlushDue(previous: Ticks, now: Ticks) {
    now - previous > 600_000_000
  }

  /** The private Flush: flush and move the flush date only when the interval has passed. */
  function FlushStep(s: RecorderState, now: Ticks): RecorderState {
    if FlushDue(s.previousFlushDate, now) then s.(previousFlushDate := now, flushes := s.flushes + 1)
    else s
  }

  /**
   * The flushes a sub-recorder's Record makes by itself: the skeleton
   * recorder reads `writer.BaseStream`, which flushes the writer; the depth
   * and color recorders only write.
   */
  function RecordFlushes(f: LiveFrame): (n: nat)
    ensures n == 1 <==> f.SkeletonLive?
    ensures n == 0 <==> !f.SkeletonLive?
  {
    if f.SkeletonLive? then 1 else 0
  }

  /**
   * Record(frame) for one modality: rejected when that sub-recorder does not
   * exist; rejected by the closed writer before anything is written; else
   * one record stamped with the time since that sub-recorder's previous
   * record (with the sub-recorder's own flushes), followed by the flush check.
   */
  function RecordStep(s: RecorderState, f: LiveFrame, time: Ticks, now: Ticks): (RecorderState, Outcome<Error>) {
    var m := ModalityOf(f);
    match ReferenceOf(s, m)
    case None => (s, Fail(NotActivated(m)))
    case Some(reference) =>
      if s.writerClosed then (s, Fail(ObjectDisposed))
      else
        var written := WithReference(s, m, time).(
          log := s.log + RecordTokens(f, ElapsedMillis(reference, time)),
          flushes := s.flushes + RecordFlushes(f));
        (FlushStep(written, now), Pass)
  }

  function RecordIfPresent(s: RecorderState, f: Option<LiveFrame>, time: Ticks, now: Ticks): (RecorderState, Outcome<Error>) {
    match f
    case None => (s, Pass)
    case Some(frame) => RecordStep(s, frame, time, now)
  }

  function SkeletonLiveOf(sf: Option<SkeletonFrame>): Option<LiveFrame> {
    if sf.Some? then Some(SkeletonLive(sf.value)) else None
  }

  function DepthLiveOf(df: Option<DepthImageFrame>): Option<LiveFrame> {
    if df.Some? then Some(DepthLive(df.value)) else None
  }

  function ColorLiveOf(cf: Option<ColorImageFrame>): Option<LiveFrame> {
    if cf.Some? then Some(ColorLive(cf.value)) else None
  }

  /**
   * The two instants one Record(frame) call uses: the time its sub-recorder
   * stamps the record with, and the DateTime.Now its Flush reads.
   */
  datatype Clock = Clock(time: Ticks, now: Ticks)

  /**
   * Record(sf, df, cf): skeleton, then depth, then color, each only when
   * given and each with its own clock; the first exception ends the call.
   */
  function RecordAllStep(s: RecorderState, sf: Option<SkeletonFrame>, df: Option<DepthImageFrame>,
                         cf: Option<ColorImageFrame>, sc: Clock, dc: Clock, cc: Clock): (RecorderState, Outcome<Error>)
  {
    var (s1, r1) := RecordIfPresent(s, SkeletonLiveOf(sf), sc.time, sc.now);
    if r1.Fail? then (s1, r1) else
    var (s2, r2) := RecordIfPresent(s1, DepthLiveOf(df), dc.time, dc.now);
    if r2.Fail? then (s2, r2) else
    RecordIfPresent(s2, ColorLiveOf(cf), cc.time, cc.now)
  }

  /**
   * Close: the writer (and with it the stream) is always closed; then
   * `recordStream.Close()` throws NullReferenceException when an earlier
   * Close already cleared the field.
   */
  function CloseStep(s: RecorderState): (RecorderState, Outcome<Error>) {
    var closed := s.(writerClosed := true);
    if s.streamHeld then (closed.(streamHeld := false), Pass)
    else (closed, Fail(NullReference))
  }

  lemma RecordTokensWrites(f: LiveFrame, delta: int64)
    ensures Flatten(RecordTokens(f, delta)) == RecordWrites(f, delta)
  {
    match f
    case SkeletonLive(frame) => SkeletonTokensFlatten(SkeletonRecordOf(frame, delta));
    case DepthLive(frame) => DepthTokensFlatten(DepthRecordOf(frame, delta));
    case ColorLive(frame) => ColorTokensFlatten(ColorRecordOf(frame, delta));
  }

  lemma LogExtends(initial: seq<Write>, log: seq<Token>, tokens: seq<Token>, layout: seq<Write>)
    requires Flatten(tokens) == layout
    ensures initial + Flatten(log) + layout == initial + Flatten(log + tokens)
  {
    FlattenAppend(log, tokens);
  }

  /** The constructor's header writes, call by call, make up the header. */
  lemma HeaderCallsMakeHeader(start: seq<Write>, h: Header)
    ensures start + [IntWrite(|h.calibration|)] + ByteWrites(h.calibration) + [WriteWord(h.colorFocalLength)]
            + [WriteWord(h.depthFocalLength)] + [IntWrite(h.options)]
            == start + HeaderWrites(h)
  {
  }

  /** The header writes at the start of the KinectRecorder constructor. */
  method WriteHeader(stream: Sink, h: Header)
    requires !stream.closed
    modifies stream
    ensures stream.writes == old(stream.writes) + HeaderWrites(h)
    ensures stream.flushCount == old(stream.flushCount) && !stream.closed
  {
    stream.WriteInt32(|h.calibration|);
    stream.Write(h.calibration);
    stream.WriteSingle(h.colorFocalLength);
    stream.WriteSingle(h.depthFocalLength);
    stream.WriteInt32(h.options);
    HeaderCallsMakeHeader(old(stream.writes), h);
  }

  class KinectRecorder {
    var recordStream: Sink?
    /** BinaryWriter is readonly and set in the constructor, so it is never null here. */
    const writer: Sink
    var previousFlushDate: Ticks
    const colorRecorder: ColorRecorder?
    const depthRecorder: DepthRecorder?
    const skeletonRecorder: SkeletonRecorder?
    var options: int32

    /** What the stream held before the constructor, and its flush count then. */
    ghost const initialWrites: seq<Write>
    ghost const initialFlushes: nat
    /** Everything this recorder has written, as tokens. */
    ghost var log: seq<Token>

    ghost predicate Valid()
      reads this, writer
    {
      && (recordStream != null ==> recordStream == writer)
      && (colorRecorder != null ==> colorRecorder.writer == writer)
      && (depthRecorder != null ==> depthRecorder.writer == writer)
      && (skeletonRecorder != null ==> skeletonRecorder.writer == writer)
      && writer.writes == initialWrites + Flatten(log)
      && writer.flushCount >= initialFlushes
    }

    ghost function State(): RecorderState
      requires Valid()
      reads this, writer, colorRecorder, depthRecorder, skeletonRecorder
    {
      RecorderState(
        log,
        if colorRecorder == null then None else Some(colorRecorder.referenceTime),
        if depthRecorder == null then None else Some(depthRecorder.referenceTime),
        if skeletonRecorder == null then None else Some(skeletonRecorder.referenceTime),
        previousFlushDate,
        writer.flushCount - initialFlushes,
        writer.closed,
        recordStream != null,
        options)
    }

    /**
     * Writes the header (calibration length, calibration bytes, the two focal
     * lengths, the options) and creates the sub-recorders the options ask
     * for. `openTime` is DateTime.Now at construction; the sub-recorders
     * measure their first delta from it.
     */
    constructor (options: int32, calibration: Calibration, colorFocalLength: uint32,
                 depthFocalLength: uint32, stream: Sink, openTime: Ticks)
      requires !stream.closed
      modifies stream
      ensures Valid() && writer == stream && recordStream == stream
      ensures State() == OpenState(options, calibration, colorFocalLength, depthFocalLength, openTime)
      ensures stream.writes == old(stream.writes)
        + HeaderWrites(Header(calibration, colorFocalLength, depthFocalLength, options))
      ensures colorRecorder != null ==> fresh(colorRecorder)
      ensures depthRecorder != null ==> fresh(depthRecorder)
      ensures skeletonRecorder != null ==> fresh(skeletonRecorder)
    {
      this.options := options;
      recordStream := stream;
      writer := stream;
      initialWrites := stream.writes;
      initialFlushes := stream.flushCount;
      var header := Header(calibration, colorFocalLength, depthFocalLength, options);
      WriteHeader(stream, header);
      HeaderTokensFlatten(header);
      if HasOption(options, ColorTag) {
        colorRecorder := new ColorRecorder(stream, openTime);
      } else {
        colorRecorder := null;
      }
      if HasOption(options, DepthTag) {
        depthRecorder := new DepthRecorder(stream, openTime);
      } else {
        depthRecorder := null;
      }
      if HasOption(options, SkeletonsTag) {
        skeletonRecorder := new SkeletonRecorder(stream, openTime);
      } else {
        skeletonRecorder := null;
      }
      previousFlushDate := openTime;
      log := HeaderTokens(header);
    }

    /**
     * `new KinectRecorder(...)` as its caller sees it: `new BinaryWriter(stream)`
     * throws ArgumentException on a stream that cannot be written, before
     * anything is written; on any other stream the constructor runs.
     */
    static method Create(options: int32, calibration: Calibration, colorFocalLength: uint32,
                         depthFocalLength: uint32, stream: Sink, openTime: Ticks)
      returns (r: Result<KinectRecorder, Error>)
      modifies stream
      ensures old(stream.closed) <==> r.Err?
      ensures r.Err? ==>
        && r.error == NotWritable
        && stream.writes == old(stream.writes) && stream.flushCount == old(stream.flushCount) && stream.closed
      ensures r.Ok? ==>
        && fresh(r.value) && r.value.Valid() && r.value.writer == stream && r.value.recordStream == stream
        && r.value.State() == OpenState(options, calibration, colorFocalLength, depthFocalLength, openTime)
        && stream.writes == old(stream.writes)
          + HeaderWrites(Header(calibration, colorFocalLength, depthFocalLength, options))
    {
      if stream.closed {
        return Err(NotWritable);
      }
      var recorder := new KinectRecorder(options, calibration, colorFocalLength, depthFocalLength, stream, openTime);
      r := Ok(recorder);
    }

    /** The Options setter; the sub-recorders stay as the constructor made them. */
    method SetOptions(value: int32)
      requires Valid()
      modifies this
      ensures Valid() && State() == old(State()).(options := value)
    {
      options := value;
    }

    method Flush(now: Ticks)
      requires Valid() && !writer.closed
      modifies this, writer
      ensures Valid() && State() == FlushStep(old(State()), now)
    {
      if now - previousFlushDate > 600_000_000 {
        previousFlushDate := now;
        writer.Flush();
      }
    }

    method RecordSkeleton(frame: SkeletonFrame, time: Ticks, now: Ticks) returns (r: Outcome<Error>)
      requires Valid()
      modifies this, writer, skeletonRecorder
      ensures Valid() && (State(), r) == RecordStep(old(State()), SkeletonLive(frame), time, now)
    {
      if skeletonRecorder == null {
        return Fail(NotActivated(SkeletonsTag));
      }
      ghost var s := State();
      ghost var reference := skeletonRecorder.referenceTime;
      r := skeletonRecorder.Record(frame, time);
      if r.Fail? {
        return;
      }
      ghost var delta := ElapsedMillis(reference, time);
      ghost var tokens := RecordTokens(SkeletonLive(frame), delta);
      assert writer.writes == initialWrites + Flatten(log + tokens) by {
        RecordTokensWrites(SkeletonLive(frame), delta);
        LogExtends(initialWrites, log, tokens, RecordWrites(SkeletonLive(frame), delta));
      }
      log := log + tokens;
      assert State() == WithReference(s, SkeletonsTag, time).(log := s.log + tokens, flushes := s.flushes + 1);
      Flush(now);
    }

    method RecordDepth(frame: DepthImageFrame, time: Ticks, now: Ticks) returns (r: Outcome<Error>)
      requires Valid()
      modifies this, writer, depthRecorder
      ensures Valid() && (State(), r) == RecordStep(old(State()), DepthLive(frame), time, now)
    {
      if depthRecorder == null {
        return Fail(NotActivated(DepthTag));
      }
      ghost var s := State();
      ghost var reference := depthRecorder.referenceTime;
      r := depthRecorder.Record(frame, time);
      if r.Fail? {
        return;
      }
      ghost var delta := ElapsedMillis(reference, time);
      ghost var tokens := RecordTokens(DepthLive(frame), delta);
      assert writer.writes == initialWrites + Flatten(log + tokens) by {
        RecordTokensWrites(DepthLive(frame), delta);
        LogExtends(initialWrites, log, tokens, RecordWrites(DepthLive(frame), delta));
      }
      log := log + tokens;
      assert State() == WithReference(s, DepthTag, time).(log := s.log + tokens);
      Flush(now);
    }

    method RecordColor(frame: ColorImageFrame, time: Ticks, now: Ticks) returns (r: Outcome<Error>)
      requires Valid()
      modifies this, writer, colorRecorder
      ensures Valid() && (State(), r) == RecordStep(old(State()), ColorLive(frame), time, now)
    {
      if colorRecorder == null {
        return Fail(NotActivated(ColorTag));
      }
      ghost var s := State();
      ghost var reference := colorRecorder.referenceTime;
      r := colorRecorder.Record(frame, time);
      if r.Fail? {
        return;
      }
      ghost var delta := ElapsedMillis(reference, time);
      ghost var tokens := RecordTokens(ColorLive(frame), delta);
      assert writer.writes == initialWrites + Flatten(log + tokens) by {
        RecordTokensWrites(ColorLive(frame), delta);
        LogExtends(initialWrites, log, tokens, RecordWrites(ColorLive(frame), delta));
      }
      log := log + tokens;
      assert State() == WithReference(s, ColorTag, time).(log := s.log + tokens);
      Flush(now);
    }

    /** Record(sf, df, cf); an absent frame is a null argument. */
    method RecordAll(sf: Option<SkeletonFrame>, df: Option<DepthImageFrame>, cf: Option<ColorImageFrame>,
                     sc: Clock, dc: Clock, cc: Clock) returns (r: Outcome<Error>)
      requires Valid()
      modifies this, writer, skeletonRecorder, depthRecorder, colorRecorder
      ensures Valid() && (State(), r) == RecordAllStep(old(State()), sf, df, cf, sc, dc, cc)
    {
      r := Pass;
      if sf.Some? {
        r := RecordSkeleton(sf.value, sc.time, sc.now);
        if r.Fail? {
          return;
        }
      }
      if df.Some? {
        r := RecordDepth(df.value, dc.time, dc.now);
        if r.Fail? {
          return;
        }
      }
      if cf.Some? {
        r := RecordColor(cf.value, cc.time, cc.now);
      }
    }

    method Close() returns (r: Outcome<Error>)
      requires Valid()
      modifies this, writer
      ensures Valid() && (State(), r) == CloseStep(old(State()))
    {
      writer.Close();
      if recordStream == null {
        return Fail(NullReference);
      }
      recordStream.Close();
      recordStream := null;
      r := Pass;
    }
  }

  // ---------------------------------------------------------------------------
  // Properties of the steps.

  /**
   * The constructor creates a sub-recorder exactly for the modalities whose
   * bit is set, starts the flush clock at the open time, and the header it
   * writes is the one the replay side reads.
   */
  lemma OpenedAsConfigured(options: int32, calibration: Calibration, colorFocalLength: uint32,
                           depthFocalLength: uint32, openTime: Ticks)
    ensures var s := OpenState(options, calibration, colorFocalLength, depthFocalLength, openTime);
      && (forall m | IsModality(m) :: ReferenceOf(s, m).Some? <==> HasOption(options, m))
      && (forall m | IsModality(m) && HasOption(options, m) :: ReferenceOf(s, m) == Some(openTime))
      && s.previousFlushDate == openTime && s.flushes == 0 && !s.writerClosed && s.streamHeld
      && Flatten(s.log) == HeaderWrites(Header(calibration, colorFocalLength, depthFocalLength, options))
  {
    HeaderTokensFlatten(Header(calibration, colorFocalLength, depthFocalLength, options));
  }

  /** Recording a modality whose sub-recorder does not exist throws and writes nothing. */
  lemma DisabledModalityRejected(s: RecorderState, f: LiveFrame, time: Ticks, now: Ticks)
    requires ReferenceOf(s, ModalityOf(f)).None?
    ensures RecordStep(s, f, time, now) == (s, Fail(NotActivated(ModalityOf(f))))
  {
  }

  /**
   * Recording an enabled modality on an open writer appends exactly that
   * record, stamped with the milliseconds since the modality's previous
   * record, moves only that modality's reference time, counts the
   * sub-recorder's own flush (skeleton records only), and then applies the
   * flush rule, which alone moves the flush date; the byte image grows by
   * the record's layout.
   */
  lemma RecordAppendsOneRecord(s: RecorderState, f: LiveFrame, time: Ticks, now: Ticks)
    requires ReferenceOf(s, ModalityOf(f)).Some? && !s.writerClosed
    ensures var (t, r) := RecordStep(s, f, time, now);
      var delta := ElapsedMillis(ReferenceOf(s, ModalityOf(f)).value, time);
      && r == Pass
      && t.log == s.log + RecordTokens(f, delta)
      && Flatten(t.log) == Flatten(s.log) + RecordWrites(f, delta)
      && ReferenceOf(t, ModalityOf(f)) == Some(time)
      && (forall m | IsModality(m) && m != ModalityOf(f) :: ReferenceOf(t, m) == ReferenceOf(s, m))
      && t.flushes == s.flushes + RecordFlushes(f) + (if FlushDue(s.previousFlushDate, now) then 1 else 0)
      && t.previousFlushDate == (if FlushDue(s.previousFlushDate, now) then now else s.previousFlushDate)
      && !t.writerClosed && t.streamHeld == s.streamHeld && t.options == s.options
  {
    var delta := ElapsedMillis(ReferenceOf(s, ModalityOf(f)).value, time);
    FlattenAppend(s.log, RecordTokens(f, delta));
    RecordTokensWrites(f, delta);
  }

  /** Two records of one modality: the second delta is measured from the first record's time. */
  lemma ConsecutiveDeltas(s: RecorderState, f1: LiveFrame, f2: LiveFrame, t1: Ticks, t2: Ticks, n1: Ticks, n2: Ticks)
    requires ModalityOf(f1) == ModalityOf(f2)
    requires ReferenceOf(s, ModalityOf(f1)).Some? && !s.writerClosed
    ensures var (u, _) := RecordStep(s, f1, t1, n1);
      var (w, r) := RecordStep(u, f2, t2, n2);
      && r == Pass
      && w.log == s.log + RecordTokens(f1, ElapsedMillis(ReferenceOf(s, ModalityOf(f1)).value, t1))
                        + RecordTokens(f2, ElapsedMillis(t1, t2))
  {
    RecordAppendsOneRecord(s, f1, t1, n1);
    RecordAppendsOneRecord(RecordStep(s, f1, t1, n1).0, f2, t2, n2);
  }

  /** A flush happens exactly when more than 60 seconds have passed; exactly 60 seconds is not enough. */
  lemma FlushRule(s: RecorderState, now: Ticks)
    ensures var t := FlushStep(s, now);
      && (t.flushes == s.flushes + 1 <==> now - s.previousFlushDate > 600_000_000)
      && (t.flushes == s.flushes <==> now - s.previousFlushDate <= 600_000_000)
      && t.previousFlushDate == (if t.flushes == s.flushes then s.previousFlushDate else now)
      && t.log == s.log
    ensures s.previousFlushDate + 600_000_000 <= MaxTicks ==>
      FlushStep(s, s.previousFlushDate + 600_000_000) == s
  {
  }

  /** What RecordIfPresent appends when the frame's sub-recorder exists and the writer is open. */
  function PresentTokens(s: RecorderState, f: Option<LiveFrame>, time: Ticks): seq<Token>
    requires f.Some? ==> ReferenceOf(s, ModalityOf(f.value)).Some?
  {
    if f.None? then [] else RecordTokens(f.value, ElapsedMillis(ReferenceOf(s, ModalityOf(f.value)).value, time))
  }

  lemma RecordIfPresentAppends(s: RecorderState, f: Option<LiveFrame>, time: Ticks, now: Ticks)
    requires !s.writerClosed
    requires f.Some? ==> ReferenceOf(s, ModalityOf(f.value)).Some?
    ensures var (t, r) := RecordIfPresent(s, f, time, now);
      && r == Pass && !t.writerClosed
      && t.log == s.log + PresentTokens(s, f, time)
      && ((f.None? || ModalityOf(f.value) != ColorTag) ==> t.colorReference == s.colorReference)
      && ((f.None? || ModalityOf(f.value) != DepthTag) ==> t.depthReference == s.depthReference)
      && ((f.None? || ModalityOf(f.value) != SkeletonsTag) ==> t.skeletonReference == s.skeletonReference)
  {
    if f.None? {
      assert s.log + [] == s.log;
    }
  }

  /** The flush check of one Record(frame) call, made only when that frame was given. */
  function FlushIf(s: RecorderState, given: bool, now: Ticks): RecorderState {
    if given then FlushStep(s, now) else s
  }

  /**
   * Record(sf, df, cf) with every given frame's sub-recorder present and an
   * open writer: the records appear skeleton, depth, color, each with its own
   * delta, and absent frames add nothing; a skeleton record flushes once by
   * itself, and each given frame is followed by its own flush check, against
   * the DateTime.Now of that call.
   */
  lemma RecordAllOrder(s: RecorderState, sf: Option<SkeletonFrame>, df: Option<DepthImageFrame>,
                       cf: Option<ColorImageFrame>, sc: Clock, dc: Clock, cc: Clock)
    requires !s.writerClosed
    requires sf.Some? ==> s.skeletonReference.Some?
    requires df.Some? ==> s.depthReference.Some?
    requires cf.Some? ==> s.colorReference.Some?
    ensures var (t, r) := RecordAllStep(s, sf, df, cf, sc, dc, cc);
      var flushed := FlushIf(FlushIf(FlushIf(s, sf.Some?, sc.now), df.Some?, dc.now), cf.Some?, cc.now);
      && r == Pass
      && t.log == s.log
        + (if sf.Some? then RecordTokens(SkeletonLive(sf.value), ElapsedMillis(s.skeletonReference.value, sc.time)) else [])
        + (if df.Some? then RecordTokens(DepthLive(df.value), ElapsedMillis(s.depthReference.value, dc.time)) else [])
        + (if cf.Some? then RecordTokens(ColorLive(cf.value), ElapsedMillis(s.colorReference.value, cc.time)) else [])
      && t.flushes == flushed.flushes + (if sf.Some? then 1 else 0)
      && t.previousFlushDate == flushed.previousFlushDate
      && t.skeletonReference == (if sf.Some? then Some(sc.time) else s.skeletonReference)
      && t.depthReference == (if df.Some? then Some(dc.time) else s.depthReference)
      && t.colorReference == (if cf.Some? then Some(cc.time) else s.colorReference)
  {
    var fs, fd, fc := SkeletonLiveOf(sf), DepthLiveOf(df), ColorLiveOf(cf);
    var s1 := RecordIfPresent(s, fs, sc.time, sc.now).0;
    RecordIfPresentAppends(s, fs, sc.time, sc.now);
    var s2 := RecordIfPresent(s1, fd, dc.time, dc.now).0;
    RecordIfPresentAppends(s1, fd, dc.time, dc.now);
    RecordIfPresentAppends(s2, fc, cc.time, cc.now);
    assert RecordAllStep(s, sf, df, cf, sc, dc, cc) == RecordIfPresent(s2, fc, cc.time, cc.now);
    calc {
      RecordIfPresent(s2, fc, cc.time, cc.now).0.log;
      s2.log + PresentTokens(s2, fc, cc.time);
      s.log + PresentTokens(s, fs, sc.time) + PresentTokens(s1, fd, dc.time) + PresentTokens(s2, fc, cc.time);
    }
  }

  /** A missing skeleton recorder stops Record(sf, df, cf) before the depth and color frames. */
  lemma RecordAllStopsAtFirstFailure(s: RecorderState, sf: SkeletonFrame, df: Option<DepthImageFrame>,
                                     cf: Option<ColorImageFrame>, sc: Clock, dc: Clock, cc: Clock)
    requires s.skeletonReference.None?
    ensures RecordAllStep(s, Some(sf), df, cf, sc, dc, cc) == (s, Fail(NotActivated(SkeletonsTag)))
  {
  }

  /**
   * With a skeleton frame recorded and no depth recorder, Record(sf, df, cf)
   * throws at the depth frame: the skeleton record stays written and the
   * color frame is not recorded.
   */
  lemma RecordAllStopsAtDepth(s: RecorderState, sf: SkeletonFrame, df: DepthImageFrame,
                              cf: Option<ColorImageFrame>, sc: Clock, dc: Clock, cc: Clock)
    requires s.skeletonReference.Some? && !s.writerClosed && s.depthReference.None?
    ensures var (t, r) := RecordAllStep(s, Some(sf), Some(df), cf, sc, dc, cc);
      && r == Fail(NotActivated(DepthTag))
      && t == RecordStep(s, SkeletonLive(sf), sc.time, sc.now).0
      && t.log == s.log + RecordTokens(SkeletonLive(sf), ElapsedMillis(s.skeletonReference.value, sc.time))
      && t.colorReference == s.colorReference
  {
    RecordAppendsOneRecord(s, SkeletonLive(sf), sc.time, sc.now);
  }

  /** Close closes the writer; a second Close throws NullReferenceException. */
  lemma CloseTwice(s: RecorderState)
    requires s.streamHeld
    ensures CloseStep(s) == (s.(writerClosed := true, streamHeld := false), Pass)
    ensures CloseStep(CloseStep(s).0) == (CloseStep(s).0, Fail(NullReference))
  {
  }

  /** After Close, recording an enabled modality throws ObjectDisposedException and changes nothing. */
  lemma RecordAfterClose(s: RecorderState, f: LiveFrame, time: Ticks, now: Ticks)
    requires ReferenceOf(s, ModalityOf(f)).Some?
    ensures var c := CloseStep(s).0;
      RecordStep(c, f, time, now) == (c, Fail(ObjectDisposed))
  {
  }
}

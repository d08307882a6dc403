/**
 * KinectAllFramesReplay: opens a recording, reads the coordinate-mapper
 * parameters and one more int, loads every composite frame until the stream
 * ends, and plays the frames back through a ReplaySystem.
 *
 * `OpenReplay` says what the constructor reads; `Open` is the constructor,
 * proved to follow it. The lemmas at the end compare what it reads with
 * what KinectRecorder writes.
 */
module Replay {
  import opened Wrappers
  import opened Binary
  import opened Format
  import opened Recorders
  import opened Recording
  import opened ReplayFrames
  import opened Playback

  /** ReadCoordinateMapperParams: an int count, then ReadBytes(count). */
  function ReadCalibration(ts: seq<Token>, pos: nat): (r: Result<(seq<byte>, nat), Error>)
    ensures r.Ok? ==> pos < r.value.1 <= |ts|
  {
    var count :- ReadWordAt(ts, pos);
    ReadBytesAt(ts, count.1, Signed32(count.0))
  }

  /**
   * The constructor's `while (Position != Length) AddFrame(reader)` from
   * position `pos`, with the frames loaded so far in `loaded`.
   */
  function LoadFrames(loaded: seq<Composite>, ts: seq<Token>, pos: nat): (r: Result<seq<Composite>, Error>)
    requires pos <= |ts|
    decreases |ts| - pos
    ensures r.Ok? ==> |r.value| >= |loaded| && r.value[..|loaded|] == loaded
  {
    if pos == |ts| then Ok(loaded)
    else
      var frame :- Assemble(EmptyComposite, ts, pos, 0);
      LoadFrames(loaded + [frame.0], ts, frame.1)
  }

  /** What a successful constructor holds: the coordinate-mapper parameters and the frames. */
  datatype Loaded = Loaded(calibration: seq<byte>, frames: seq<Composite>)

  /**
   * The constructor from stream position `pos`: the calibration, one int
   * read and dropped, then the frames up to the end of the stream.
   */
  function OpenReplay(ts: seq<Token>, pos: nat): Result<Loaded, Error> {
    var calibration :- ReadCalibration(ts, pos);
    var dropped :- ReadWordAt(ts, calibration.1);
    var frames :- LoadFrames([], ts, dropped.1);
    Ok(Loaded(calibration.0, frames))
  }

  /** ReadCoordinateMapperParams on the reader. */
  method ReadCoordinateMapperParams(reader: Source) returns (r: Result<seq<byte>, Error>)
    requires !reader.closed
    modifies reader
    ensures !reader.closed
    ensures var spec := ReadCalibration(reader.tokens, old(reader.position));
      && (r.Ok? <==> spec.Ok?)
      && (r.Ok? ==> r.value == spec.value.0 && reader.position == spec.value.1)
      && (r.Err? ==> r.error == spec.error)
  {
    var count := reader.ReadInt32();
    if count.Err? {
      return Err(count.error);
    }
    r := reader.ReadBytes(count.value);
  }

  class KinectAllFramesReplay {
    var stream: Source?
    var reader: Source?
    var allFramesReplay: ReplaySystem?
    var started: bool
    /** The parameters the CoordinateMapper was built from. */
    const coordinateMapper: seq<byte>

    ghost predicate Valid()
      reads this, allFramesReplay
    {
      && reader == stream
      && (allFramesReplay != null ==> allFramesReplay.Valid())
    }

    /** The timer the replay system holds, if any: what Stop may stop. */
    function Timers(): set<object>
      reads this, allFramesReplay
    {
      if allFramesReplay != null && allFramesReplay.timer != null then {allFramesReplay.timer} else {}
    }

    constructor FromParts(stream: Source, system: ReplaySystem, calibration: seq<byte>)
      requires system.Valid()
      ensures Valid() && this.stream == stream && reader == stream && allFramesReplay == system
      ensures !started && coordinateMapper == calibration
    {
      this.stream := stream;
      reader := stream;
      allFramesReplay := system;
      started := false;
      coordinateMapper := calibration;
    }

    /**
     * The constructor, which throws where `OpenReplay` fails. On success the
     * stream is read to its end and the replay system holds the frames in
     * file order, with its cursor at the first one.
     */
    static method Open(stream: Source) returns (r: Result<KinectAllFramesReplay, Error>)
      modifies stream
      ensures stream.closed == old(stream.closed)
      ensures old(stream.closed) ==> r == Err(NotReadable)
      ensures !old(stream.closed) ==>
        var spec := OpenReplay(stream.tokens, old(stream.position));
        && (r.Ok? <==> spec.Ok?)
        && (r.Err? ==> r.error == spec.error)
        && (r.Ok? ==>
          && fresh(r.value) && fresh(r.value.allFramesReplay) && r.value.Valid()
          && r.value.reader == stream && r.value.allFramesReplay != null
          && r.value.allFramesReplay.State() == Cursor(spec.value.frames, 0, false, 0, [])
          && r.value.allFramesReplay.timer == null
          && r.value.coordinateMapper == spec.value.calibration && !r.value.started
          && r.value.FrameCount() == |spec.value.frames| && !r.value.IsFinished()
          && stream.position == |stream.tokens|)
    {
      var system := new ReplaySystem();
      if stream.closed {
        return Err(NotReadable);
      }
      ghost var start := old(stream.position);
      var calibration := ReadCoordinateMapperParams(stream);
      if calibration.Err? {
        return Err(calibration.error);
      }
      var dropped := stream.ReadInt32();
      if dropped.Err? {
        return Err(dropped.error);
      }
      ghost var goal := LoadFrames([], stream.tokens, stream.position);
      while stream.position != |stream.tokens|
        invariant !stream.closed && stream.position <= |stream.tokens|
        invariant system.Valid() && system.timer == null
        invariant system.State() == Cursor(system.frames, 0, false, 0, [])
        invariant LoadFrames(system.frames, stream.tokens, stream.position) == goal
        decreases |stream.tokens| - stream.position
      {
        var added := system.AddFrame(stream);
        if added.Fail? {
          return Err(added.error);
        }
      }
      var replay := new KinectAllFramesReplay.FromParts(stream, system, calibration.value);
      r := Ok(replay);
    }

    /** FrameCount: 0 once the replay system is gone. */
    function FrameCount(): nat
      reads this, allFramesReplay
    {
      if allFramesReplay == null then 0 else |allFramesReplay.frames|
    }

    /** IsFinished: true unless a replay system exists and has not finished. */
    predicate IsFinished()
      reads this, allFramesReplay
    {
      !(allFramesReplay != null && !allFramesReplay.isFinished)
    }

    /**
     * FrameAt(index): the frame when `index < FrameCount`, else null. A
     * negative index passes the test and fails on the list, or on the null
     * replay system after Dispose.
     */
    method FrameAt(index: int32) returns (r: Result<Option<Composite>, Error>)
      requires Valid()
      ensures index >= FrameCount() <==> r == Ok(None)
      ensures 0 <= index < FrameCount() <==> r.Ok? && r.value.Some?
      ensures 0 <= index < FrameCount() ==> allFramesReplay != null && r.value.value == allFramesReplay.frames[index]
      ensures index < 0 ==> r == Err(if allFramesReplay == null then NullReference else ArgumentOutOfRange)
    {
      if index < FrameCount() as int {
        if allFramesReplay == null {
          return Err(NullReference);
        }
        if index < 0 {
          return Err(ArgumentOutOfRange);
        }
        return Ok(Some(allFramesReplay.frames[index]));
      }
      r := Ok(None);
    }

    /**
     * Start(timer): a second Start without a Stop throws. Otherwise the
     * replay is marked started and, while the replay system exists, one
     * more forwarding handler is subscribed to FrameReady and the system is
     * started with `t`.
     */
    method Start(t: DispatcherTimer?, cancelledEarly: bool, cancel: seq<bool>) returns (r: Outcome<Error>)
      requires Valid()
      modifies this, allFramesReplay, Timers(), t
      ensures Valid() && allFramesReplay == old(allFramesReplay) && reader == old(reader) && started
      ensures old(started) <==> r == Fail(AlreadyStarted)
      ensures r.Pass? || r == Fail(AlreadyStarted)
      ensures old(started) && allFramesReplay != null ==>
        allFramesReplay.State() == old(allFramesReplay.State()) && allFramesReplay.timer == old(allFramesReplay.timer)
      ensures old(started) ==> unchanged(Timers()) && (t != null ==> unchanged(t))
      ensures !old(started) && allFramesReplay != null && old(allFramesReplay.timer) != null && old(allFramesReplay.timer) != t ==>
        !old(allFramesReplay.timer).running && old(allFramesReplay.timer).handlers == old(allFramesReplay.timer.handlers)
      ensures !old(started) && allFramesReplay != null ==>
        var p := old(allFramesReplay.State()).(listeners := old(allFramesReplay.listeners) + 1);
        && (t == null ==> allFramesReplay.State() == FreeRun(p, cancelledEarly, cancel))
        && (t != null ==> allFramesReplay.State() == p.(finished := false) && allFramesReplay.timer == t)
        && (t != null ==> t.running && t.handlers == old(t.handlers) + 1)
    {
      if started {
        return Fail(AlreadyStarted);
      }
      started := true;
      if allFramesReplay != null {
        allFramesReplay.Subscribe();
        allFramesReplay.Start(t, cancelledEarly, cancel);
      }
      r := Pass;
    }

    /** Stop: stops the replay system's timer and clears Started; frames and cursor stay. */
    method Stop()
      requires Valid()
      modifies this, allFramesReplay, Timers()
      ensures Valid() && allFramesReplay == old(allFramesReplay) && reader == old(reader) && !started
      ensures allFramesReplay != null ==>
        allFramesReplay.State() == old(allFramesReplay.State()) && allFramesReplay.timer == old(allFramesReplay.timer)
      ensures allFramesReplay != null && allFramesReplay.timer != null ==>
        !allFramesReplay.timer.running && allFramesReplay.timer.handlers == old(allFramesReplay.timer.handlers)
    {
      if allFramesReplay != null {
        allFramesReplay.Stop();
      }
      started := false;
    }

    /**
     * Dispose: stop, drop the replay system, and close the reader once.
     * Afterwards there are no frames and the replay counts as finished; a
     * second Dispose does nothing more.
     */
    method Dispose()
      requires Valid()
      modifies this, allFramesReplay, Timers(), reader
      ensures Valid() && allFramesReplay == null && reader == null && stream == null && !started
      ensures FrameCount() == 0 && IsFinished()
      ensures old(reader) != null ==> old(reader).closed
      ensures old(allFramesReplay) != null && old(allFramesReplay.timer) != null ==>
        !old(allFramesReplay.timer).running && old(allFramesReplay.timer).handlers == old(allFramesReplay.timer.handlers)
    {
      Stop();
      allFramesReplay := null;
      if reader != null {
        reader.Close();
        reader := null;
        stream := null;
      }
    }
  }

  // ---------------------------------------------------------------------------
  // What the replay reads back from what the recorder writes.

  /** A Record(sf, df, cf) call with all three frames. */
  datatype Group = Group(skeletonRecord: SkeletonRecord, depthRecord: DepthRecord, colorRecord: ColorRecord)

  function GroupTokens(g: Group): (ts: seq<Token>)
    ensures |ts| == 6
  {
    SkeletonTokens(g.skeletonRecord) + DepthTokens(g.depthRecord) + ColorTokens(g.colorRecord)
  }

  function GroupsTokens(gs: seq<Group>): seq<Token> {
    if gs == [] then [] else GroupTokens(gs[0]) + GroupsTokens(gs[1..])
  }

  /** The composite frame one group is meant to become. */
  function GroupFrame(g: Group): Composite {
    Composite(g.depthRecord.delta, g.depthRecord.frameNumber,
              Decoded(g.skeletonRecord), Decoded(g.depthRecord), Decoded(g.colorRecord))
  }

  function GroupFrames(gs: seq<Group>): (fs: seq<Composite>)
    ensures |fs| == |gs|
  {
    if gs == [] then [] else [GroupFrame(gs[0])] + GroupFrames(gs[1..])
  }

  /** With every sub-recorder present, Record(sf, df, cf) appends exactly one group. */
  lemma RecordAllWritesGroup(s: RecorderState, sf: SkeletonFrame, df: DepthImageFrame, cf: ColorImageFrame,
                             sc: Clock, dc: Clock, cc: Clock)
    requires !s.writerClosed
    requires s.skeletonReference.Some? && s.depthReference.Some? && s.colorReference.Some?
    ensures var (t, r) := RecordAllStep(s, Some(sf), Some(df), Some(cf), sc, dc, cc);
      && r == Pass
      && t.log == s.log + GroupTokens(Group(
          SkeletonRecordOf(sf, ElapsedMillis(s.skeletonReference.value, sc.time)),
          DepthRecordOf(df, ElapsedMillis(s.depthReference.value, dc.time)),
          ColorRecordOf(cf, ElapsedMillis(s.colorReference.value, cc.time))))
  {
    RecordAllOrder(s, Some(sf), Some(df), Some(cf), sc, dc, cc);
  }

  lemma GroupLayout(ts: seq<Token>, pos: nat, g: Group)
    requires pos + 6 <= |ts| && ts[pos..pos + 6] == GroupTokens(g)
    ensures ts[pos] == IntToken(SkeletonsTag) && ts[pos + 1] == SkeletonBody(g.skeletonRecord)
    ensures ts[pos + 2] == IntToken(DepthTag) && ts[pos + 3] == DepthBody(g.depthRecord)
    ensures ts[pos + 4] == IntToken(ColorTag) && ts[pos + 5] == ColorBody(g.colorRecord)
  {
    assert ts[pos] == ts[pos..pos + 6][0];
    assert ts[pos + 1] == ts[pos..pos + 6][1];
    assert ts[pos + 2] == ts[pos..pos + 6][2];
    assert ts[pos + 3] == ts[pos..pos + 6][3];
    assert ts[pos + 4] == ts[pos..pos + 6][4];
    assert ts[pos + 5] == ts[pos..pos + 6][5];
  }

  /** A depth sub-record read in iteration `i` (with `i < 2`) fills the depth slot and the next iteration goes on. */
  lemma DepthStep(c: Composite, ts: seq<Token>, pos: nat, i: nat, d: DepthRecord)
    requires i < 3 && pos + 1 < |ts| && ts[pos] == IntToken(DepthTag) && ts[pos + 1] == DepthBody(d)
    ensures Assemble(c, ts, pos, i)
      == Assemble(c.(depth := Decoded(d), timeStamp := d.delta, frameNumber := d.frameNumber), ts, pos + 2, i + 1)
  {
    Signed32OfUnsigned(DepthTag);
  }

  lemma SkeletonStep(c: Composite, ts: seq<Token>, pos: nat, i: nat, s: SkeletonRecord)
    requires i < 3 && pos + 1 < |ts| && ts[pos] == IntToken(SkeletonsTag) && ts[pos + 1] == SkeletonBody(s)
    ensures Assemble(c, ts, pos, i) == Assemble(c.(skeleton := Decoded(s)), ts, pos + 2, i + 1)
  {
    Signed32OfUnsigned(SkeletonsTag);
  }

  /** A group anywhere in the stream makes one composite frame. */
  lemma GroupAt(ts: seq<Token>, pos: nat, g: Group)
    requires pos + 6 <= |ts| && ts[pos..pos + 6] == GroupTokens(g)
    ensures Assemble(EmptyComposite, ts, pos, 0) == Ok((GroupFrame(g), pos + 6))
  {
    GroupLayout(ts, pos, g);
    var c1 := EmptyComposite.(skeleton := Decoded(g.skeletonRecord));
    SkeletonStep(EmptyComposite, ts, pos, 0, g.skeletonRecord);
    var d := g.depthRecord;
    DepthStep(c1, ts, pos + 2, 1, d);
    ColorEndsCall(c1.(depth := Decoded(d), timeStamp := d.delta, frameNumber := d.frameNumber), ts, pos + 4, 2, g.colorRecord);
  }

  /** One AddFrame of the constructor's loop. */
  lemma LoadStep(loaded: seq<Composite>, ts: seq<Token>, pos: nat, frame: Composite, next: nat)
    requires pos < |ts| && Assemble(EmptyComposite, ts, pos, 0) == Ok((frame, next))
    ensures next <= |ts| && LoadFrames(loaded, ts, pos) == LoadFrames(loaded + [frame], ts, next)
  {
  }

  lemma Middle<T>(a: seq<T>, b: seq<T>, c: seq<T>)
    ensures a + (b + c) == (a + b) + c
    ensures ((a + b) + c)[|a|..|a| + |b|] == b
  {
    assert ((a + b) + c)[|a|..|a| + |b|] == (a + b)[|a|..];
  }

  /** A run of groups that reaches the end of the stream loads as one frame per group, in order. */
  lemma {:induction false} LoadGroups(loaded: seq<Composite>, prefix: seq<Token>, gs: seq<Group>)
    decreases |gs|
    ensures LoadFrames(loaded, prefix + GroupsTokens(gs), |prefix|) == Ok(loaded + GroupFrames(gs))
  {
    if gs == [] {
      assert prefix + GroupsTokens(gs) == prefix;
      assert loaded + GroupFrames(gs) == loaded;
    } else {
      var g := gs[0];
      var group := GroupTokens(g);
      var tail := GroupsTokens(gs[1..]);
      assert GroupsTokens(gs) == group + tail;
      Middle(prefix, group, tail);
      var ts := (prefix + group) + tail;
      GroupAt(ts, |prefix|, g);
      LoadStep(loaded, ts, |prefix|, GroupFrame(g), |prefix| + 6);
      LoadGroups(loaded + [GroupFrame(g)], prefix + group, gs[1..]);
      assert loaded + [GroupFrame(g)] + GroupFrames(gs[1..]) == loaded + GroupFrames(gs);
    }
  }

  /** ReadBytes(n) over `n` byte tokens returns those bytes. */
  lemma {:induction false} TakeByteTokens(ts: seq<Token>, pos: nat, b: seq<byte>)
    requires pos + |b| <= |ts| && ts[pos..pos + |b|] == ByteTokens(b)
    decreases |b|
    ensures TakeBytes(ts, pos, |b|) == Ok((b, pos + |b|))
  {
    if b != [] {
      assert ts[pos] == ts[pos..pos + |b|][0];
      assert ts[pos + 1..pos + |b|] == ts[pos..pos + |b|][1..];
      assert ByteTokens(b)[1..] == ByteTokens(b[1..]);
      TakeByteTokens(ts, pos + 1, b[1..]);
      assert [b[0]] + b[1..] == b;
    }
  }

  /** What the constructor makes of a recorder's header: the calibration, then the color focal length as the dropped int. */
  lemma HeaderRead(h: Header, rest: seq<Token>)
    ensures var ts := HeaderTokens(h) + rest;
      var n := |h.calibration|;
      && |HeaderTokens(h)| == n + 4 && ts[n + 4..] == rest
      && ReadCalibration(ts, 0) == Ok((h.calibration, n + 1))
      && ReadWordAt(ts, n + 1) == Ok((h.colorFocalLength, n + 2))
      && ts[n + 2] == IntToken(Signed32(h.depthFocalLength)) && ts[n + 3] == IntToken(h.options)
  {
    var ts := HeaderTokens(h) + rest;
    var n := |h.calibration|;
    Signed32OfUnsigned(n);
    assert ts[0] == IntToken(n);
    assert ts[1..n + 1] == ByteTokens(h.calibration);
    TakeByteTokens(ts, 1, h.calibration);
  }

  /**
   * The header mismatch. The recorder writes the color and depth focal
   * lengths and the options after the calibration, but the replay drops
   * only one int. When neither the depth focal length (as an int) nor the
   * options name a modality, the first CreateFromReader passes over both as
   * unknown tags and its third iteration takes only the first group's
   * skeleton; the next call takes that group's depth and color. From the
   * second group on, every group is one frame again.
   */
  lemma HeaderDesync(h: Header, gs: seq<Group>)
    requires |gs| > 0
    requires !IsModality(Signed32(h.depthFocalLength)) && !IsModality(h.options)
    ensures OpenReplay(HeaderTokens(h) + GroupsTokens(gs), 0)
      == Ok(Loaded(h.calibration, [SplitHead(gs[0]), SplitTail(gs[0])] + GroupFrames(gs[1..])))
  {
    HeaderRead(h, GroupsTokens(gs));
    DesyncedLoad(h, gs);
  }

  /** The constructor's loop on such a recording, from the token after the dropped int. */
  lemma DesyncedLoad(h: Header, gs: seq<Group>)
    requires |gs| > 0
    requires !IsModality(Signed32(h.depthFocalLength)) && !IsModality(h.options)
    ensures |h.calibration| + 2 <= |HeaderTokens(h) + GroupsTokens(gs)|
    ensures LoadFrames([], HeaderTokens(h) + GroupsTokens(gs), |h.calibration| + 2)
      == Ok([SplitHead(gs[0]), SplitTail(gs[0])] + GroupFrames(gs[1..]))
  {
    var g := gs[0];
    var header, group, tail := HeaderTokens(h), GroupTokens(g), GroupsTokens(gs[1..]);
    assert GroupsTokens(gs) == group + tail;
    Middle(header, group, tail);
    var ts := (header + group) + tail;
    var n := |h.calibration|;
    HeaderRead(h, group + tail);
    FirstGroupSplits(ts, n + 2, Signed32(h.depthFocalLength), h.options, g);
    LoadStep([], ts, n + 2, SplitHead(g), n + 6);
    LoadStep([SplitHead(g)], ts, n + 6, SplitTail(g), n + 10);
    LoadGroups([SplitHead(g), SplitTail(g)], header + group, gs[1..]);
    assert [] + [SplitHead(g)] + [SplitTail(g)] == [SplitHead(g), SplitTail(g)];
  }

  /**
   * Two unknown tags before a group: the first call passes over both and
   * takes the skeleton, the second takes the depth and the color.
   */
  lemma FirstGroupSplits(ts: seq<Token>, pos: nat, first: int32, second: int32, g: Group)
    requires pos + 8 <= |ts| && ts[pos] == IntToken(first) && ts[pos + 1] == IntToken(second)
    requires !IsModality(first) && !IsModality(second)
    requires ts[pos + 2..pos + 8] == GroupTokens(g)
    ensures Assemble(EmptyComposite, ts, pos, 0) == Ok((SplitHead(g), pos + 4))
    ensures Assemble(EmptyComposite, ts, pos + 4, 0) == Ok((SplitTail(g), pos + 8))
  {
    GroupLayout(ts, pos + 2, g);
    UnknownTagSkipped(EmptyComposite, ts, pos, 0, first);
    UnknownTagSkipped(EmptyComposite, ts, pos + 1, 1, second);
    SkeletonStep(EmptyComposite, ts, pos + 2, 2, g.skeletonRecord);
    var d := g.depthRecord;
    DepthStep(EmptyComposite, ts, pos + 4, 0, d);
    ColorEndsCall(EmptyComposite.(depth := Decoded(d), timeStamp := d.delta, frameNumber := d.frameNumber),
                  ts, pos + 6, 1, g.colorRecord);
  }

  /** The first frame the replay makes of the first group: its skeleton alone. */
  function SplitHead(g: Group): Composite {
    EmptyComposite.(skeleton := Decoded(g.skeletonRecord))
  }

  /** The second: that group's depth and color, with the depth record's delta and frame number. */
  function SplitTail(g: Group): Composite {
    Composite(g.depthRecord.delta, g.depthRecord.frameNumber, Blank, Decoded(g.depthRecord), Decoded(g.colorRecord))
  }

  /**
   * When the options name a modality (only one stream was recorded), the
   * first CreateFromReader passes over the depth focal length and takes the
   * options for the tag of its second iteration: the decoder of that
   * modality is called where the first record's own tag stands. What that
   * decoder makes of it belongs to the replay frame classes.
   */
  lemma OptionsReadAsTag(h: Header, rest: seq<Token>)
    requires !IsModality(Signed32(h.depthFocalLength)) && IsModality(h.options)
    ensures var ts := HeaderTokens(h) + rest;
      var n := |h.calibration|;
      && n + 4 <= |ts| && ts[n + 4..] == rest
      && OpenReplay(ts, 0) == (var frames :- LoadFrames([], ts, n + 2); Ok(Loaded(h.calibration, frames)))
      && Assemble(EmptyComposite, ts, n + 2, 0) == Assemble(EmptyComposite, ts, n + 3, 1)
      && ReadWordAt(ts, n + 3) == Ok((Unsigned32(h.options), n + 4)) && Signed32(Unsigned32(h.options)) == h.options
      && (h.options == SkeletonsTag ==>
            Assemble(EmptyComposite, ts, n + 3, 1)
            == (var s :- DecodeSkeletonAt(ts, n + 4);
                Assemble(EmptyComposite.(skeleton := Decoded(s.0)), ts, s.1, 2)))
      && (h.options == DepthTag ==>
            Assemble(EmptyComposite, ts, n + 3, 1)
            == (var d :- DecodeDepthAt(ts, n + 4);
                Assemble(EmptyComposite.(depth := Decoded(d.0), timeStamp := d.0.delta, frameNumber := d.0.frameNumber),
                         ts, d.1, 2)))
      && (h.options == ColorTag ==>
            Assemble(EmptyComposite, ts, n + 3, 1)
            == (var k :- DecodeColorAt(ts, n + 4); Ok((EmptyComposite.(color := Decoded(k.0)), k.1))))
  {
    var ts := HeaderTokens(h) + rest;
    var n := |h.calibration|;
    HeaderRead(h, rest);
    UnknownTagSkipped(EmptyComposite, ts, n + 2, 0, Signed32(h.depthFocalLength));
    Signed32OfUnsigned(h.options);
  }

  /**
   * A recording that holds no record cannot be opened: the first
   * CreateFromReader passes over the depth focal length and the options
   * and then reads past the end.
   */
  lemma EmptyRecordingRejected(h: Header)
    requires !IsModality(Signed32(h.depthFocalLength)) && !IsModality(h.options)
    ensures OpenReplay(HeaderTokens(h), 0) == Err(EndOfStream)
  {
    var ts := HeaderTokens(h);
    var n := |h.calibration|;
    HeaderRead(h, []);
    assert ts == HeaderTokens(h) + [];
    UnknownTagSkipped(EmptyComposite, ts, n + 2, 0, Signed32(h.depthFocalLength));
    UnknownTagSkipped(EmptyComposite, ts, n + 3, 1, h.options);
  }

  /**
   * A reader that consumed the whole header (calibration, both focal
   * lengths, options), as Format.ReadHeader does, and then loaded frames
   * the same way.
   */
  function OpenWholeHeader(ts: seq<Token>, pos: nat): Result<Loaded, Error> {
    var calibration :- ReadCalibration(ts, pos);
    var colorFocal :- ReadWordAt(ts, calibration.1);
    var depthFocal :- ReadWordAt(ts, colorFocal.1);
    var options :- ReadWordAt(ts, depthFocal.1);
    var frames :- LoadFrames([], ts, options.1);
    Ok(Loaded(calibration.0, frames))
  }

  /** That reader gets back exactly one frame per group the recorder wrote, and the calibration. */
  lemma WholeHeaderRoundTrip(h: Header, gs: seq<Group>)
    ensures OpenWholeHeader(HeaderTokens(h) + GroupsTokens(gs), 0) == Ok(Loaded(h.calibration, GroupFrames(gs)))
  {
    var rest := GroupsTokens(gs);
    HeaderRead(h, rest);
    LoadGroups([], HeaderTokens(h), gs);
    assert [] + GroupFrames(gs) == GroupFrames(gs);
  }
}

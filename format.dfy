/**
 * The recording file format shared by the capture side (the Record folder) and the
 * replay side (the Replay folder): modality tags, the clock, the three record
 * bodies, the BinaryWriter calls each recorder makes, the bytes those calls
 * put on the stream, and the token view of a file that the replay readers
 * consume.
 */
module Format {
  import opened Wrappers
  import opened Binary

  // ---------------------------------------------------------------------------
  // Modalities (KinectRecordOptions): distinct single-bit flags, also used as
  // the int32 tag in front of every record.

  const ColorTag: int32 := 1
  const DepthTag: int32 := 2
  const SkeletonsTag: int32 := 4

  predicate IsModality(flag: int32) {
    flag == ColorTag || flag == DepthTag || flag == SkeletonsTag
  }

  /** `(options & flag) != 0` for one of the single-bit modality flags. */
  predicate HasOption(options: int32, flag: int32)
    requires IsModality(flag)
  {
    var bits := Unsigned32(options);
    if flag == ColorTag then bits % 2 == 1
    else if flag == DepthTag then (bits / 2) % 2 == 1
    else (bits / 4) % 2 == 1
  }

  /** The exceptions the modelled code throws, or lets through from the .NET calls it makes. */
  datatype Error =
    | NotActivated(modality: int32)  // "... recording is not actived on this KinectRecorder"
    | ObjectDisposed                 // a write to, or a read from, a closed stream
    | NullReference                  // a member access through a field that was set to null
    | EndOfStream                    // a BinaryReader read past the end of the stream
    | Malformed                      // the next unit of the file is not the one the reader asks for
    | ArgumentOutOfRange             // a negative count or index
    | AlreadyStarted                 // "KinectReplay already started"
    | NotReadable                    // a BinaryReader over a stream that cannot be read
    | NotWritable                    // a BinaryWriter over a stream that cannot be written

  // ---------------------------------------------------------------------------
  // The clock. A DateTime is its tick count (100 ns units, DateTime.MinValue to
  // DateTime.MaxValue).

  const MaxTicks: int := 3_155_378_975_999_999_999
  type Ticks = t: int | 0 <= t <= MaxTicks
  const TicksPerMillisecond: int := 10_000
  const TicksPerSecond: int := 10_000_000

  /**
   * `(long)time.Subtract(reference).TotalMilliseconds`: the tick difference in
   * whole milliseconds, truncated toward zero as the cast from double does.
   */
  function ElapsedMillis(reference: Ticks, time: Ticks): int64 {
    var d := time - reference;
    if d >= 0 then d / 10_000 else -((-d) / 10_000)
  }

  /** The delta is the elapsed time rounded toward zero to whole milliseconds, for either order of the two times. */
  lemma ElapsedMillisBounds(reference: Ticks, time: Ticks)
    ensures var ms := ElapsedMillis(reference, time);
      && (time >= reference ==> ms * 10_000 <= time - reference < ms * 10_000 + 10_000)
      && (time < reference ==> ms * 10_000 - 10_000 < time - reference <= ms * 10_000)
  {
  }

  // ---------------------------------------------------------------------------
  // Record bodies: what follows the tag of each record.

  /** A .NET array: its length is an int. */
  type PixelData = s: seq<int16> | |s| < 0x8000_0000
  type Calibration = s: seq<byte> | |s| < 0x8000_0000

  datatype DepthRecord = DepthRecord(
    delta: int64,
    bytesPerPixel: int32,
    format: int32,
    width: int32,
    height: int32,
    frameNumber: int32,
    pixels: PixelData)

  /** SkeletonFrame.FloorClipPlane: four float32 coefficients, Item1 to Item4. */
  datatype FloorPlane = FloorPlane(item1: uint32, item2: uint32, item3: uint32, item4: uint32)

  /** `skeletons` is the BinaryFormatter serialisation of the skeleton array, kept opaque. */
  datatype SkeletonRecord = SkeletonRecord(
    delta: int64,
    trackingMode: int32,
    floorClipPlane: FloorPlane,
    frameNumber: int32,
    skeletons: seq<byte>)

  /** `body` is whatever ColorRecorder writes after the delta. */
  datatype ColorRecord = ColorRecord(delta: int64, body: seq<byte>)

  /** The file header's fields: the coordinate-mapper parameters, the two focal lengths, the options. */
  datatype Header = Header(calibration: Calibration, colorFocalLength: uint32,
                           depthFocalLength: uint32, options: int32)

  // ---------------------------------------------------------------------------
  // Writes. One value per primitive BinaryWriter call; Write(byte[]) is one
  // WriteByte per element.

  datatype Write =
    | WriteWord(bits: uint32)   // Write(int) or Write(float): four bytes
    | WriteShort(short: int16)  // Write(short): two bytes
    | WriteLong(long: int64)   // Write(long): eight bytes
    | WriteByte(octet: byte)    // one element of Write(byte[])

  /** BinaryWriter.Write(int): the two's-complement bit pattern of `v`. */
  function IntWrite(v: int32): Write {
    WriteWord(Unsigned32(v))
  }

  function ByteWrites(b: seq<byte>): (ws: seq<Write>)
    ensures |ws| == |b| && forall i :: 0 <= i < |b| ==> ws[i] == WriteByte(b[i])
  {
    seq(|b|, i requires 0 <= i < |b| => WriteByte(b[i]))
  }

  function ShortWrites(ps: seq<int16>): (ws: seq<Write>)
    ensures |ws| == |ps| && forall i :: 0 <= i < |ps| ==> ws[i] == WriteShort(ps[i])
  {
    seq(|ps|, i requires 0 <= i < |ps| => WriteShort(ps[i]))
  }

  function DepthBodyWrites(r: DepthRecord): seq<Write> {
    [WriteLong(r.delta), IntWrite(r.bytesPerPixel), IntWrite(r.format), IntWrite(r.width),
     IntWrite(r.height), IntWrite(r.frameNumber), IntWrite(|r.pixels|)]
    + ShortWrites(r.pixels)
  }

  /** A whole depth record as DepthRecorder.Record writes it. */
  function DepthWrites(r: DepthRecord): seq<Write> {
    [IntWrite(DepthTag)] + DepthBodyWrites(r)
  }

  function SkeletonBodyWrites(r: SkeletonRecord): seq<Write> {
    [WriteLong(r.delta), IntWrite(r.trackingMode),
     WriteWord(r.floorClipPlane.item1), WriteWord(r.floorClipPlane.item2),
     WriteWord(r.floorClipPlane.item3), WriteWord(r.floorClipPlane.item4),
     IntWrite(r.frameNumber)]
    + ByteWrites(r.skeletons)
  }

  /** A whole skeleton record as SkeletonRecorder.Record writes it; the blob has no length in front. */
  function SkeletonWrites(r: SkeletonRecord): seq<Write> {
    [IntWrite(SkeletonsTag)] + SkeletonBodyWrites(r)
  }

  function ColorBodyWrites(r: ColorRecord): seq<Write> {
    [WriteLong(r.delta)] + ByteWrites(r.body)
  }

  /** A whole color record as the model's ColorRecorder writes it. */
  function ColorWrites(r: ColorRecord): seq<Write> {
    [IntWrite(ColorTag)] + ColorBodyWrites(r)
  }

  /** The file header as the KinectRecorder constructor writes it. */
  function HeaderWrites(h: Header): seq<Write> {
    [IntWrite(|h.calibration|)] + ByteWrites(h.calibration) + HeaderTail(h)
  }

  /** The three writes after the calibration bytes. */
  function HeaderTail(h: Header): seq<Write> {
    [WriteWord(h.colorFocalLength), WriteWord(h.depthFocalLength), IntWrite(h.options)]
  }

  // ---------------------------------------------------------------------------
  // Bytes: what the writes put on the stream, and a BinaryReader that takes
  // them back.

  function WriteBytes(w: Write): seq<byte> {
    match w
    case WriteWord(u) => WordBytes(u)
    case WriteShort(v) => Int16Bytes(v)
    case WriteLong(v) => Int64Bytes(v)
    case WriteByte(x) => [x]
  }

  function Serialize(ws: seq<Write>): seq<byte> {
    if ws == [] then [] else WriteBytes(ws[0]) + Serialize(ws[1..])
  }

  lemma {:induction false} SerializeAppend(a: seq<Write>, b: seq<Write>)
    ensures Serialize(a + b) == Serialize(a) + Serialize(b)
  {
    if a != [] {
      assert (a + b)[1..] == a[1..] + b;
      SerializeAppend(a[1..], b);
    } else {
      assert a + b == b;
    }
  }

  /** The byte count of a write. */
  function Width(w: Write): nat {
    match w
    case WriteWord(_) => 4
    case WriteShort(_) => 2
    case WriteLong(_) => 8
    case WriteByte(_) => 1
  }

  function TotalWidth(ws: seq<Write>): nat {
    if ws == [] then 0 else Width(ws[0]) + TotalWidth(ws[1..])
  }

  lemma {:induction false} SerializeLength(ws: seq<Write>)
    ensures |Serialize(ws)| == TotalWidth(ws)
  {
    if ws != [] {
      SerializeLength(ws[1..]);
    }
  }

  lemma {:induction false} TotalWidthAppend(a: seq<Write>, b: seq<Write>)
    ensures TotalWidth(a + b) == TotalWidth(a) + TotalWidth(b)
  {
    if a != [] {
      assert (a + b)[1..] == a[1..] + b;
      TotalWidthAppend(a[1..], b);
    } else {
      assert a + b == b;
    }
  }

  lemma {:induction false} UniformWidth(ws: seq<Write>, k: nat)
    requires forall i :: 0 <= i < |ws| ==> Width(ws[i]) == k
    ensures TotalWidth(ws) == k * |ws|
  {
    if ws != [] {
      UniformWidth(ws[1..], k);
    }
  }

  /** A tag, a delta, six four-byte fields and a run of `k`-byte values. */
  lemma RecordWidth(tag: Write, delta: Write, fields: seq<Write>, run: seq<Write>, k: nat)
    requires Width(tag) == 4 && Width(delta) == 8 && |fields| == 6
    requires forall i :: 0 <= i < |fields| ==> Width(fields[i]) == 4
    requires forall i :: 0 <= i < |run| ==> Width(run[i]) == k
    ensures TotalWidth([tag, delta] + fields + run) == 36 + k * |run|
  {
    assert TotalWidth([tag, delta]) == 12 by {
      assert [tag, delta][1..] == [delta];
      assert TotalWidth([delta]) == 8 + TotalWidth([]);
    }
    UniformWidth(fields, 4);
    UniformWidth(run, k);
    TotalWidthAppend([tag, delta], fields);
    TotalWidthAppend([tag, delta] + fields, run);
  }

  /** The six four-byte fields of a depth record after its delta. */
  function DepthFields(r: DepthRecord): seq<Write> {
    [IntWrite(r.bytesPerPixel), IntWrite(r.format), IntWrite(r.width), IntWrite(r.height),
     IntWrite(r.frameNumber), IntWrite(|r.pixels|)]
  }

  /** The six four-byte fields of a skeleton record after its delta. */
  function SkeletonFields(r: SkeletonRecord): seq<Write> {
    [IntWrite(r.trackingMode),
     WriteWord(r.floorClipPlane.item1), WriteWord(r.floorClipPlane.item2),
     WriteWord(r.floorClipPlane.item3), WriteWord(r.floorClipPlane.item4),
     IntWrite(r.frameNumber)]
  }

  lemma DepthWritesShape(r: DepthRecord)
    ensures DepthWrites(r) == [IntWrite(DepthTag), WriteLong(r.delta)] + DepthFields(r) + ShortWrites(r.pixels)
  {
  }

  lemma SkeletonWritesShape(r: SkeletonRecord)
    ensures SkeletonWrites(r) == [IntWrite(SkeletonsTag), WriteLong(r.delta)] + SkeletonFields(r) + ByteWrites(r.skeletons)
  {
  }

  /** A depth record is 36 bytes followed by two bytes per pixel. */
  lemma DepthRecordSize(r: DepthRecord)
    ensures |Serialize(DepthWrites(r))| == 36 + 2 * |r.pixels|
  {
    DepthWritesShape(r);
    RecordWidth(IntWrite(DepthTag), WriteLong(r.delta), DepthFields(r), ShortWrites(r.pixels), 2);
    SerializeLength(DepthWrites(r));
  }

  /** A skeleton record is 36 bytes followed by the serialised skeletons. */
  lemma SkeletonRecordSize(r: SkeletonRecord)
    ensures |Serialize(SkeletonWrites(r))| == 36 + |r.skeletons|
  {
    SkeletonWritesShape(r);
    RecordWidth(IntWrite(SkeletonsTag), WriteLong(r.delta), SkeletonFields(r), ByteWrites(r.skeletons), 1);
    SerializeLength(SkeletonWrites(r));
  }

  /** The header is 16 bytes plus the calibration bytes. */
  lemma HeaderSize(h: Header)
    ensures |Serialize(HeaderWrites(h))| == 16 + |h.calibration|
  {
    var first := [IntWrite(|h.calibration|)];
    var run := ByteWrites(h.calibration);
    var tail := [WriteWord(h.colorFocalLength), WriteWord(h.depthFocalLength), IntWrite(h.options)];
    assert HeaderWrites(h) == first + run + tail;
    assert TotalWidth(first) == 4 by {
      assert TotalWidth(first) == 4 + TotalWidth([]);
    }
    UniformWidth(run, 1);
    UniformWidth(tail, 4);
    TotalWidthAppend(first, run);
    TotalWidthAppend(first + run, tail);
    SerializeLength(HeaderWrites(h));
  }

  /** The value of a four-byte read, or of an eight-byte read; 0 for a write of another width. */
  function WordOf(w: Write): uint32 {
    if w.WriteWord? then w.bits else 0
  }

  function LongOf(w: Write): int64 {
    if w.WriteLong? then w.long else 0
  }

  /** The values of a run of two-byte reads. */
  function ShortsOf(ws: seq<Write>): (ps: seq<int16>)
    ensures |ps| == |ws|
  {
    seq(|ws|, i requires 0 <= i < |ws| => if ws[i].WriteShort? then ws[i].short else 0)
  }

  /** The values of a run of one-byte reads. */
  function BytesOf(ws: seq<Write>): (b: seq<byte>)
    ensures |b| == |ws|
  {
    seq(|ws|, i requires 0 <= i < |ws| => if ws[i].WriteByte? then ws[i].octet else 0)
  }

  lemma ShortsOfShortWrites(ps: seq<int16>)
    ensures ShortsOf(ShortWrites(ps)) == ps
  {
  }

  lemma BytesOfByteWrites(b: seq<byte>)
    ensures BytesOf(ByteWrites(b)) == b
  {
  }

  /** What a BinaryReader call expects next. */
  datatype Kind = WordKind | ShortKind | LongKind | ByteKind

  function KindOf(w: Write): Kind {
    match w
    case WriteWord(_) => WordKind
    case WriteShort(_) => ShortKind
    case WriteLong(_) => LongKind
    case WriteByte(_) => ByteKind
  }

  function KindsOf(ws: seq<Write>): (ks: seq<Kind>)
    ensures |ks| == |ws| && forall i :: 0 <= i < |ws| ==> ks[i] == KindOf(ws[i])
  {
    seq(|ws|, i requires 0 <= i < |ws| => KindOf(ws[i]))
  }

  /** ReadInt32/ReadSingle, ReadInt16, ReadInt64 or ReadByte at the front of `b`; None at end of stream. */
  function ReadOne(b: seq<byte>, k: Kind): Option<(Write, seq<byte>)> {
    match k
    case WordKind => if |b| < 4 then None else Some((WriteWord(DecodeWord(b[..4])), b[4..]))
    case ShortKind => if |b| < 2 then None else Some((WriteShort(DecodeInt16(b[..2])), b[2..]))
    case LongKind => if |b| < 8 then None else Some((WriteLong(DecodeInt64(b[..8])), b[8..]))
    case ByteKind => if |b| < 1 then None else Some((WriteByte(b[0]), b[1..]))
  }

  /** The reads `ks`, one after another. */
  function ReadMany(b: seq<byte>, ks: seq<Kind>): (r: Option<(seq<Write>, seq<byte>)>)
    ensures r.Some? ==> |r.value.0| == |ks|
  {
    if ks == [] then Some(([], b))
    else
      var first :- ReadOne(b, ks[0]);
      var others :- ReadMany(first.1, ks[1..]);
      Some(([first.0] + others.0, others.1))
  }

  lemma ReadOneOf(w: Write, rest: seq<byte>)
    ensures ReadOne(WriteBytes(w) + rest, KindOf(w)) == Some((w, rest))
  {
    var b := WriteBytes(w) + rest;
    match w
    case WriteWord(u) =>
      assert b[..4] == WordBytes(u) && b[4..] == rest;
      WordRoundTrip(u);
    case WriteShort(v) =>
      assert b[..2] == Int16Bytes(v) && b[2..] == rest;
      Int16RoundTrip(v);
    case WriteLong(v) =>
      assert b[..8] == Int64Bytes(v) && b[8..] == rest;
      Int64RoundTrip(v);
    case WriteByte(x) =>
      assert b[1..] == rest;
  }

  /** BinaryReader reads back, value for value, whatever BinaryWriter wrote, when it asks for the same kinds. */
  lemma {:induction false} ReadManyOf(ws: seq<Write>, rest: seq<byte>)
    ensures ReadMany(Serialize(ws) + rest, KindsOf(ws)) == Some((ws, rest))
  {
    var ks := KindsOf(ws);
    if ws == [] {
      assert Serialize(ws) + rest == rest;
      assert ks == [];
    } else {
      var tail := Serialize(ws[1..]) + rest;
      assert Serialize(ws) + rest == WriteBytes(ws[0]) + tail;
      ReadOneOf(ws[0], tail);
      assert ks[0] == KindOf(ws[0]);
      assert ks[1..] == KindsOf(ws[1..]);
      ReadManyOf(ws[1..], rest);
      assert [ws[0]] + ws[1..] == ws;
    }
  }

  function Repeat(k: Kind, n: nat): (ks: seq<Kind>)
    ensures |ks| == n && forall i :: 0 <= i < n ==> ks[i] == k
  {
    seq(n, i => k)
  }

  const DepthFixedKinds: seq<Kind> := [WordKind, LongKind, WordKind, WordKind, WordKind, WordKind, WordKind, WordKind]
  const SkeletonFixedKinds: seq<Kind> := [WordKind, LongKind, WordKind, WordKind, WordKind, WordKind, WordKind, WordKind]

  /** Reads one depth record, tag included: the fixed fields, then as many pixels as the count says. */
  function ReadDepthRecord(b: seq<byte>): Option<(DepthRecord, seq<byte>)> {
    var fixed :- ReadMany(b, DepthFixedKinds);
    var f := fixed.0;
    if f[0] != IntWrite(DepthTag) then None
    else
      var count := Signed32(WordOf(f[7]));
      if count < 0 then None
      else
        var pixels :- ReadMany(fixed.1, Repeat(ShortKind, count));
        Some((DepthRecord(LongOf(f[1]), Signed32(WordOf(f[2])), Signed32(WordOf(f[3])), Signed32(WordOf(f[4])),
                          Signed32(WordOf(f[5])), Signed32(WordOf(f[6])), ShortsOf(pixels.0)), pixels.1))
  }

  /**
   * Reads one skeleton record, tag included. The serialised skeletons carry
   * no length, so everything after the fixed fields is taken as the blob.
   */
  function ReadSkeletonRecord(b: seq<byte>): Option<SkeletonRecord> {
    var fixed :- ReadMany(b, SkeletonFixedKinds);
    var f := fixed.0;
    if f[0] != IntWrite(SkeletonsTag) then None
    else
      Some(SkeletonRecord(LongOf(f[1]), Signed32(WordOf(f[2])),
                          FloorPlane(WordOf(f[3]), WordOf(f[4]), WordOf(f[5]), WordOf(f[6])),
                          Signed32(WordOf(f[7])), fixed.1))
  }

  /** Reads the header: the count, that many bytes, the two focal lengths, the options. */
  function ReadHeader(b: seq<byte>): Option<(Header, seq<byte>)> {
    var count :- ReadOne(b, WordKind);
    var n := Signed32(WordOf(count.0));
    if n < 0 then None
    else
      var calibration :- ReadMany(count.1, Repeat(ByteKind, n));
      var tail :- ReadMany(calibration.1, [WordKind, WordKind, WordKind]);
      Some((Header(BytesOf(calibration.0), WordOf(tail.0[0]), WordOf(tail.0[1]), Signed32(WordOf(tail.0[2]))), tail.1))
  }

  lemma DepthKinds(r: DepthRecord)
    ensures KindsOf([IntWrite(DepthTag), WriteLong(r.delta)] + DepthFields(r)) == DepthFixedKinds
  {
  }

  lemma SkeletonKinds(r: SkeletonRecord)
    ensures KindsOf([IntWrite(SkeletonsTag), WriteLong(r.delta)] + SkeletonFields(r)) == SkeletonFixedKinds
  {
  }

  /** A run of ReadInt16 calls returns the shorts that were written. */
  lemma ShortsRead(ps: seq<int16>, rest: seq<byte>)
    ensures ReadMany(Serialize(ShortWrites(ps)) + rest, Repeat(ShortKind, |ps|)) == Some((ShortWrites(ps), rest))
  {
    ReadManyOf(ShortWrites(ps), rest);
    assert KindsOf(ShortWrites(ps)) == Repeat(ShortKind, |ps|);
  }

  /** A run of ReadByte calls returns the bytes that were written. */
  lemma BytesRead(b: seq<byte>, rest: seq<byte>)
    ensures ReadMany(Serialize(ByteWrites(b)) + rest, Repeat(ByteKind, |b|)) == Some((ByteWrites(b), rest))
  {
    ReadManyOf(ByteWrites(b), rest);
    assert KindsOf(ByteWrites(b)) == Repeat(ByteKind, |b|);
  }

  /** ReadDepthRecord once the results of its two ReadMany calls are known. */
  lemma ReadDepthRecordOf(r: DepthRecord, b: seq<byte>, middle: seq<byte>, rest: seq<byte>)
    requires ReadMany(b, DepthFixedKinds) == Some(([IntWrite(DepthTag), WriteLong(r.delta)] + DepthFields(r), middle))
    requires ReadMany(middle, Repeat(ShortKind, |r.pixels|)) == Some((ShortWrites(r.pixels), rest))
    ensures ReadDepthRecord(b) == Some((r, rest))
  {
    ShortsOfShortWrites(r.pixels);
    Signed32OfUnsigned(|r.pixels|);
    Signed32OfUnsigned(r.bytesPerPixel);
    Signed32OfUnsigned(r.format);
    Signed32OfUnsigned(r.width);
    Signed32OfUnsigned(r.height);
    Signed32OfUnsigned(r.frameNumber);
  }

  /** Round trip: the reader recovers the tag, every fixed field and the exact pixels of a depth record. */
  lemma DepthRoundTrip(r: DepthRecord, rest: seq<byte>)
    ensures ReadDepthRecord(Serialize(DepthWrites(r)) + rest) == Some((r, rest))
  {
    var fixed := [IntWrite(DepthTag), WriteLong(r.delta)] + DepthFields(r);
    var pixels := ShortWrites(r.pixels);
    var middle := Serialize(pixels) + rest;
    var b := Serialize(DepthWrites(r)) + rest;
    assert b == Serialize(fixed) + middle by {
      DepthWritesShape(r);
      SerializeAppend(fixed, pixels);
    }
    assert ReadMany(b, DepthFixedKinds) == Some((fixed, middle)) by {
      ReadManyOf(fixed, middle);
      DepthKinds(r);
    }
    ShortsRead(r.pixels, rest);
    ReadDepthRecordOf(r, b, middle, rest);
  }

  lemma ReadSkeletonRecordOf(r: SkeletonRecord, b: seq<byte>)
    requires ReadMany(b, SkeletonFixedKinds) ==
      Some(([IntWrite(SkeletonsTag), WriteLong(r.delta)] + SkeletonFields(r), r.skeletons))
    ensures ReadSkeletonRecord(b) == Some(r)
  {
    Signed32OfUnsigned(r.trackingMode);
    Signed32OfUnsigned(r.frameNumber);
  }

  /** Round trip: the reader recovers the tag, every fixed field and, as the remainder, the skeleton blob. */
  lemma SkeletonRoundTrip(r: SkeletonRecord)
    ensures ReadSkeletonRecord(Serialize(SkeletonWrites(r))) == Some(r)
  {
    var fixed := [IntWrite(SkeletonsTag), WriteLong(r.delta)] + SkeletonFields(r);
    var blob := ByteWrites(r.skeletons);
    var b := Serialize(SkeletonWrites(r));
    assert b == Serialize(fixed) + r.skeletons by {
      SkeletonWritesShape(r);
      SerializeAppend(fixed, blob);
      SerializeByteWrites(r.skeletons);
    }
    assert ReadMany(b, SkeletonFixedKinds) == Some((fixed, r.skeletons)) by {
      ReadManyOf(fixed, r.skeletons);
      SkeletonKinds(r);
    }
    ReadSkeletonRecordOf(r, b);
  }

  lemma {:induction false} SerializeByteWrites(b: seq<byte>)
    ensures Serialize(ByteWrites(b)) == b
  {
    if b != [] {
      assert ByteWrites(b)[1..] == ByteWrites(b[1..]);
      SerializeByteWrites(b[1..]);
    }
  }

  /** ReadHeader once the results of its three reads are known. */
  lemma ReadHeaderOf(h: Header, b: seq<byte>, afterCount: seq<byte>, afterRun: seq<byte>, rest: seq<byte>)
    requires ReadOne(b, WordKind) == Some((IntWrite(|h.calibration|), afterCount))
    requires ReadMany(afterCount, Repeat(ByteKind, |h.calibration|)) == Some((ByteWrites(h.calibration), afterRun))
    requires ReadMany(afterRun, [WordKind, WordKind, WordKind]) == Some((HeaderTail(h), rest))
    ensures ReadHeader(b) == Some((h, rest))
  {
    BytesOfByteWrites(h.calibration);
    Signed32OfUnsigned(|h.calibration|);
    Signed32OfUnsigned(h.options);
  }

  lemma HeaderBytes(h: Header, rest: seq<byte>)
    ensures Serialize(HeaderWrites(h)) + rest ==
      WriteBytes(IntWrite(|h.calibration|)) + (Serialize(ByteWrites(h.calibration)) + (Serialize(HeaderTail(h)) + rest))
  {
    HeaderSerialized(h);
    Regroup(WriteBytes(IntWrite(|h.calibration|)), Serialize(ByteWrites(h.calibration)), Serialize(HeaderTail(h)), rest);
  }

  lemma Regroup(a: seq<byte>, b: seq<byte>, c: seq<byte>, d: seq<byte>)
    ensures (a + (b + c)) + d == a + (b + (c + d))
  {
  }

  lemma HeaderSerialized(h: Header)
    ensures Serialize(HeaderWrites(h)) ==
      WriteBytes(IntWrite(|h.calibration|)) + (Serialize(ByteWrites(h.calibration)) + Serialize(HeaderTail(h)))
  {
    var count, run, tail := IntWrite(|h.calibration|), ByteWrites(h.calibration), HeaderTail(h);
    assert HeaderWrites(h) == [count] + (run + tail);
    SerializeAppend([count], run + tail);
    SerializeAppend(run, tail);
    assert Serialize([count]) == WriteBytes(count) + Serialize([]);
  }

  lemma HeaderTailRead(h: Header, rest: seq<byte>)
    ensures ReadMany(Serialize(HeaderTail(h)) + rest, [WordKind, WordKind, WordKind]) == Some((HeaderTail(h), rest))
  {
    ReadManyOf(HeaderTail(h), rest);
    assert KindsOf(HeaderTail(h)) == [WordKind, WordKind, WordKind];
  }

  /** Round trip: the header reader recovers every field the constructor wrote. */
  lemma HeaderRoundTrip(h: Header, rest: seq<byte>)
    ensures ReadHeader(Serialize(HeaderWrites(h)) + rest) == Some((h, rest))
  {
    var afterRun := Serialize(HeaderTail(h)) + rest;
    var afterCount := Serialize(ByteWrites(h.calibration)) + afterRun;
    HeaderBytes(h, rest);
    ReadOneOf(IntWrite(|h.calibration|), afterCount);
    BytesRead(h.calibration, afterRun);
    HeaderTailRead(h, rest);
    ReadHeaderOf(h, Serialize(HeaderWrites(h)) + rest, afterCount, afterRun, rest);
  }

  // ---------------------------------------------------------------------------
  // The token view. A token is one unit a BinaryReader call or a sub-frame
  // decoder consumes; `Flatten` gives the writes the tokens stand for.

  datatype Token =
    | Word(bits: uint32)                     // four bytes: an int or a float
    | Byte(octet: byte)                      // one byte of a byte array
    | SkeletonBody(skeleton: SkeletonRecord) // what follows a Skeletons tag
    | DepthBody(depth: DepthRecord)          // what follows a Depth tag
    | ColorBody(color: ColorRecord)          // what follows a Color tag

  function TokenWrites(t: Token): seq<Write> {
    match t
    case Word(u) => [WriteWord(u)]
    case Byte(x) => [WriteByte(x)]
    case SkeletonBody(r) => SkeletonBodyWrites(r)
    case DepthBody(r) => DepthBodyWrites(r)
    case ColorBody(r) => ColorBodyWrites(r)
  }

  function Flatten(ts: seq<Token>): seq<Write> {
    if ts == [] then [] else TokenWrites(ts[0]) + Flatten(ts[1..])
  }

  lemma {:induction false} FlattenAppend(a: seq<Token>, b: seq<Token>)
    ensures Flatten(a + b) == Flatten(a) + Flatten(b)
  {
    if a != [] {
      assert (a + b)[1..] == a[1..] + b;
      FlattenAppend(a[1..], b);
    } else {
      assert a + b == b;
    }
  }

  /** An int written with BinaryWriter.Write(int), as a token. */
  function IntToken(v: int32): Token {
    Word(Unsigned32(v))
  }

  function ByteTokens(b: seq<byte>): (ts: seq<Token>)
    ensures |ts| == |b| && forall i :: 0 <= i < |b| ==> ts[i] == Byte(b[i])
  {
    seq(|b|, i requires 0 <= i < |b| => Byte(b[i]))
  }

  lemma {:induction false} FlattenByteTokens(b: seq<byte>)
    ensures Flatten(ByteTokens(b)) == ByteWrites(b)
  {
    if b != [] {
      assert ByteTokens(b)[1..] == ByteTokens(b[1..]);
      FlattenByteTokens(b[1..]);
      assert ByteWrites(b) == [WriteByte(b[0])] + ByteWrites(b[1..]);
    }
  }

  function HeaderTokens(h: Header): seq<Token> {
    [IntToken(|h.calibration|)] + ByteTokens(h.calibration)
    + [Word(h.colorFocalLength), Word(h.depthFocalLength), IntToken(h.options)]
  }

  function SkeletonTokens(r: SkeletonRecord): seq<Token> {
    [IntToken(SkeletonsTag), SkeletonBody(r)]
  }

  function DepthTokens(r: DepthRecord): seq<Token> {
    [IntToken(DepthTag), DepthBody(r)]
  }

  function ColorTokens(r: ColorRecord): seq<Token> {
    [IntToken(ColorTag), ColorBody(r)]
  }

  lemma FlattenPair(a: Token, b: Token)
    ensures Flatten([a, b]) == TokenWrites(a) + TokenWrites(b)
  {
    assert [a, b][1..] == [b];
    assert [b][1..] == [];
    assert Flatten([b]) == TokenWrites(b) + Flatten([]);
  }

  /** The tokens of a record stand for exactly the writes its recorder makes. */
  lemma SkeletonTokensFlatten(r: SkeletonRecord)
    ensures Flatten(SkeletonTokens(r)) == SkeletonWrites(r)
  {
    FlattenPair(IntToken(SkeletonsTag), SkeletonBody(r));
  }

  lemma DepthTokensFlatten(r: DepthRecord)
    ensures Flatten(DepthTokens(r)) == DepthWrites(r)
  {
    FlattenPair(IntToken(DepthTag), DepthBody(r));
  }

  lemma ColorTokensFlatten(r: ColorRecord)
    ensures Flatten(ColorTokens(r)) == ColorWrites(r)
  {
    FlattenPair(IntToken(ColorTag), ColorBody(r));
  }

  lemma HeaderTokensFlatten(h: Header)
    ensures Flatten(HeaderTokens(h)) == HeaderWrites(h)
  {
    var first := [IntToken(|h.calibration|)];
    var run := ByteTokens(h.calibration);
    var tail := [Word(h.colorFocalLength), Word(h.depthFocalLength), IntToken(h.options)];
    assert Flatten(first) == [IntWrite(|h.calibration|)] by {
      assert Flatten(first) == TokenWrites(first[0]) + Flatten([]);
    }
    assert Flatten(tail) == [WriteWord(h.colorFocalLength), WriteWord(h.depthFocalLength), IntWrite(h.options)] by {
      var last := [Word(h.depthFocalLength), IntToken(h.options)];
      assert tail == [Word(h.colorFocalLength)] + last;
      FlattenAppend([Word(h.colorFocalLength)], last);
      FlattenPair(Word(h.depthFocalLength), IntToken(h.options));
      assert Flatten([Word(h.colorFocalLength)]) == [WriteWord(h.colorFocalLength)] + Flatten([]);
    }
    FlattenByteTokens(h.calibration);
    FlattenAppend(first, run + tail);
    FlattenAppend(run, tail);
    assert HeaderTokens(h) == first + (run + tail);
  }
}

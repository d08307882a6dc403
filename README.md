# Kinect Toolbox recording and replay, modelled in Dafny

This project models the recording and replay core of the Kinect Toolbox (C#) and proves properties of the model.

On the recording side:
- `KinectRecorder` writes a file header: the coordinate-mapper parameters, two focal lengths and the options bitmask.
- It creates one sub-recorder per enabled modality (color = 1, depth = 2, skeletons = 4).
- Each `Record` call appends one tagged record through that sub-recorder, then flushes if more than 60 seconds have passed since the last flush.
- A skeleton record also flushes once by itself, whatever the time: the skeleton recorder hands `writer.BaseStream` to the formatter, and that getter flushes the writer. This flush does not move the flush date.

On the replay side:
- `KinectAllFramesReplay` reads the file back.
- `ReplayAllFrames.CreateFromReader` assembles one composite frame from up to three tagged records.
- `ReplaySystem` plays the frames back, either on the ticks of a `DispatcherTimer` or on a background walk that can be cancelled.

## Layout

| file | module | contents |
|---|---|---|
| `wrappers.dfy` | `Wrappers` | `Option`, `Result`, `Outcome`; these stand for the exceptions the code throws |
| `binary.dfy` | `Binary` | little-endian `short`/`int`/`long` encodings with their round trips |
| `format.dfy` | `Format` | modality tags, the clock, the record bodies, the writes each record is made of, their bytes, byte-level readers with round-trip lemmas, and the token view the replay side reads |
| `sink.dfy` | `Output` | `Sink`: a `Stream` with its `BinaryWriter`; it logs every primitive write |
| `recorders.dfy` | `Recorders` | `DepthRecorder`, `SkeletonRecorder`, and `ColorRecorder` as far as its tag, delta and reference time |
| `kinect_recorder.dfy` | `Recording` | the `KinectRecorder` class, its pure state machine `RecorderState`, and the lemmas about it |
| `replay_frames.dfy` | `ReplayFrames` | `Source` (a `BinaryReader` over a token sequence), `Assemble`, `ReplayAllFrames`, and the event arguments |
| `replay_system.dfy` | `Playback` | `ReplaySystem`, the pure `Cursor` with `TickStep`, `Ticks` and `FreeRun`, and the playback lemmas |
| `kinect_replay.dfy` | `Replay` | `KinectAllFramesReplay`, the pure `OpenReplay`, and the lemmas relating what the recorder writes to what the replay reads |

Each imperative class is proved against a pure function.
- Every `KinectRecorder` method ensures `State() == XStep(old(State()), ...)`.
- `CreateFromReader` ensures its new fields and position are what `Assemble` computes.
- `ReplaySystem` methods ensure `State() == TickStep(old(State()))` and the like.
- `KinectAllFramesReplay.Open` ensures its result is what `OpenReplay` computes.

The lemmas then state properties of those functions.

### How the two sides meet

The recorder's sink logs values of type `Write`, one per primitive `BinaryWriter` call. `Serialize` gives their bytes. The recorder keeps a ghost log of tokens and maintains `writer.writes == initialWrites + Flatten(log)`.

The replay side reads those tokens:
- `Word`: four bytes read as an `int`;
- `Byte`: one byte;
- one body token per sub-record after its tag.

The replay frame classes `ReplaySkeletonFrame`, `ReplayDepthImageFrame` and `ReplayColorImageFrame` are not part of this model. Their `CreateFromReader` is taken to consume exactly the body its recorder wrote.

The format lemmas prove that the byte image of each body can be decoded back (`DepthRoundTrip`, `SkeletonRoundTrip`, `HeaderRoundTrip`). `XTokensFlatten` proves that the tokens stand for exactly those writes.

### Where the code differs from the documented behaviour

The model follows the code:
- **Header.** The recorder writes five header fields: count, bytes, two focal lengths, options. The replay reads the count and the bytes, then drops a single `int`. The depth focal length and the options are therefore read as the first record tags.
  - `HeaderDesync`: a recording made with all three modalities loads with its first group split across two frames.
  - `OptionsReadAsTag`: in a single-modality recording the options are read as a record tag. That modality's decoder then starts on the first record's own tag; what it makes of it depends on the replay frame classes.
  - `EmptyRecordingRejected`: a recording with no records fails with end of stream.
  - `OpenWholeHeader`/`WholeHeaderRoundTrip`: a reader that consumed the whole header would get back one frame per group.
  - There is no check that the options name all three modalities.
- **Unknown tags.** An unknown tag is passed over (the `switch` has no default); it is not rejected.
- **Recording after Close.** `writer` is `readonly` and never null, so the "recorder is stopped" branches cannot be reached. Recording after `Close` fails in the closed writer (`ObjectDisposed`), and a second `Close` throws `NullReference` at `recordStream.Close()`.
- **IsFinished on clocked playback.** IsFinished is set by the tick after the last frame, not by the tick that delivers it (`FinishedAfterLastFrame`).
- **Negative frame index.** `FrameAt` with a negative index throws. After `Dispose` it dereferences the null replay system.
- **Start.** `Start` throws only while `Started` is set. A replay that finished without `Stop` cannot be started again.
- **Sub-recorder signatures.** `KinectRecorder` calls `new DepthRecorder(writer)` and `Record(frame)`. The sub-recorder files declare `(writer, refTime)` and `Record(frame, time)`. The model uses the sub-recorders' signatures:
  - it passes the recorder's open time as `refTime`, the same instant the constructor stores as `previousFlushDate`;
  - it passes a `time` argument to each record call.

## Model

| member | source | states |
|---|---|---|
| Binary.LittleEndianRoundTrip | Record/DepthRecorder.cs:20-39 | decoding the `n` little-endian bytes of any `x < 256^n` gives `x` back |
| Binary.Int16RoundTrip | Record/DepthRecorder.cs:38 | a `short` written as two bytes reads back as the same `short` |
| Binary.Int32RoundTrip | Record/DepthRecorder.cs:20 | an `int` written as four bytes in two's complement reads back as the same `int` |
| Binary.WordRoundTrip | Record/SkeletonRecorder.cs:28-31 | a float's 32-bit pattern written as four bytes reads back as the same pattern |
| Binary.Int64RoundTrip | Record/DepthRecorder.cs:25 | the `long` delta written as eight bytes reads back as the same `long` |
| Binary.Signed32 | Replay/ReplayAllFrames.cs:45 | the `int` that `ReadInt32` returns for a 32-bit pattern is the one whose pattern it is |
| Binary.Signed32OfUnsigned | Replay/ReplayAllFrames.cs:45 | writing an `int` and reading it back is the identity |
| Format.ElapsedMillisBounds | Record/DepthRecorder.cs:23-25 | the delta is the elapsed time in whole milliseconds rounded toward zero, for either order of the two times |
| Format.ShortsOfShortWrites | Record/DepthRecorder.cs:37-39 | the shorts the pixel loop writes are the pixels, in order |
| Format.ShortsRead | Record/DepthRecorder.cs:37-39 | the bytes of the pixel run, followed by anything, read back as `n` shorts giving the same writes, and leave the rest |
| Format.SerializeByteWrites | Record/KinectRecorder.cs:34 | `Write(byte[])` puts exactly the array's bytes on the stream |
| Format.BytesOfByteWrites | Record/KinectRecorder.cs:34 | the bytes the run of writes carries are the array, in order |
| Format.BytesRead | Record/KinectRecorder.cs:34 | the bytes of the run, followed by anything, read back as `n` single bytes giving the same writes, and leave the rest |
| Format.DepthRecordSize | Record/DepthRecorder.cs:18-39 | a depth record is `36 + 2n` bytes: tag, delta, five ints, count, `n` shorts |
| Format.SkeletonRecordSize | Record/SkeletonRecorder.cs:19-40 | a skeleton record is 36 bytes plus the serialised skeletons, with no length written |
| Format.HeaderSize | Record/KinectRecorder.cs:29-38 | the header is `16 + n` bytes for `n` calibration bytes |
| Format.DepthRoundTrip | Record/DepthRecorder.cs:18-39 | the bytes of any depth record, followed by anything, decode to the same record and leave the rest |
| Format.SkeletonRoundTrip | Record/SkeletonRecorder.cs:19-40 | the bytes of a skeleton record decode to its fixed fields, and the remainder is exactly the skeleton blob |
| Format.HeaderRoundTrip | Record/KinectRecorder.cs:29-38 | the header's bytes, followed by anything, decode to the same calibration, focal lengths and options |
| Format.HeaderTokensFlatten | Record/KinectRecorder.cs:29-38 | the header tokens stand for exactly the header's writes |
| Format.SkeletonTokensFlatten | Record/SkeletonRecorder.cs:19-40 | the tag token and the body token of a skeleton record stand for exactly its writes |
| Format.DepthTokensFlatten | Record/DepthRecorder.cs:18-39 | the same for a depth record |
| Format.ColorTokensFlatten | Record/KinectRecorder.cs:82-91 | the same for a color record |
| Format.FlattenAppend | Record/KinectRecorder.cs:71-102 | flattening distributes over concatenation, so the records appended to the log are appended to the stream |
| Output.Sink.constructor | Record/KinectRecorder.cs:26-27 | a fresh writer over an open stream has written nothing |
| Output.Sink.WriteInt32 | Record/KinectRecorder.cs:33 | on an open stream, appends one four-byte write and changes nothing else |
| Output.Sink.WriteInt64 | Record/DepthRecorder.cs:25 | on an open stream, appends one eight-byte write |
| Output.Sink.WriteInt16 | Record/DepthRecorder.cs:38 | on an open stream, appends one two-byte write |
| Output.Sink.WriteSingle | Record/KinectRecorder.cs:35-36 | appends the float's 32-bit pattern |
| Output.Sink.Write | Record/KinectRecorder.cs:34 | appends one byte write per array element |
| Output.Sink.Flush | Record/KinectRecorder.cs:109 | counts one flush and writes nothing |
| Output.Sink.Close | Record/KinectRecorder.cs:121-122 | closes the stream and keeps what was written |
| Recorders.CopyPixelData | Record/DepthRecorder.cs:34-35 | the fresh array holds exactly the frame's pixel data |
| Recorders.DepthRecorder.constructor | Record/DepthRecorder.cs:13-16 | keeps the writer and the reference time |
| Recorders.DepthRecorder.Record | Record/DepthRecorder.cs:18-40 | on an open writer, appends exactly the depth record with the delta since the previous reference time, and moves the reference to `time`; on a closed writer, throws before anything changes |
| Recorders.DepthRecorder.WritePixels | Record/DepthRecorder.cs:37-39 | appends exactly the array's shorts, in order |
| Recorders.SkeletonRecorder.constructor | Record/SkeletonRecorder.cs:14-17 | keeps the writer and the reference time |
| Recorders.SkeletonRecorder.Record | Record/SkeletonRecorder.cs:19-41 | the same discipline for the skeleton record: tag, delta, tracking mode, four floor-plane words, frame number, then the blob; a record that is written also flushes the writer exactly once (the `BaseStream` getter), and a rejected one does not |
| Recorders.ColorRecorder.Record | Record/KinectRecorder.cs:82-91 | the same discipline for a color record: tag, delta, opaque body |
| Recorders.DepthCallsMakeRecord | Record/DepthRecorder.cs:18-40 | the call-by-call writes of `Record` make up `DepthWrites` of the record |
| Recorders.SkeletonCallsMakeRecord | Record/SkeletonRecorder.cs:19-41 | the call-by-call writes make up `SkeletonWrites` of the record |
| Recording.RecordTokensWrites | Record/KinectRecorder.cs:71-102 | the tokens of a record stand for exactly the writes its sub-recorder makes |
| Recording.WriteHeader | Record/KinectRecorder.cs:29-38 | the header is written as count, bytes, the two focal lengths, then the options |
| Recording.KinectRecorder.Create | Record/KinectRecorder.cs:22-51 | on a stream that cannot be written, fails with `NotWritable` (the `BinaryWriter` constructor's ArgumentException) before anything is written; otherwise a fresh recorder whose state is `OpenState`, with the header written |
| Recording.KinectRecorder.constructor | Record/KinectRecorder.cs:22-51 | on a writable stream, writes the header, creates the sub-recorders the options ask for, and starts the flush clock; the state is `OpenState` |
| Recording.KinectRecorder.SetOptions | Record/KinectRecorder.cs:19 | changes only the options; the sub-recorders stay as the constructor made them |
| Recording.KinectRecorder.Flush | Record/KinectRecorder.cs:104-111 | the state moves by `FlushStep` |
| Recording.KinectRecorder.RecordSkeleton | Record/KinectRecorder.cs:71-80 | the state and the outcome are `RecordStep` of the skeleton frame, which counts the skeleton recorder's own flush before the 60 s check |
| Recording.KinectRecorder.RecordDepth | Record/KinectRecorder.cs:93-102 | the state and the outcome are `RecordStep` of the depth frame |
| Recording.KinectRecorder.RecordColor | Record/KinectRecorder.cs:82-91 | the state and the outcome are `RecordStep` of the color frame |
| Recording.KinectRecorder.RecordAll | Record/KinectRecorder.cs:60-69 | the state and the outcome are `RecordAllStep`, with a separate time and `DateTime.Now` for each of the three records; a recorded skeleton frame counts its own flush |
| Recording.KinectRecorder.Close | Record/KinectRecorder.cs:116-125 | the state and the outcome are `CloseStep` |
| Recording.OpenedAsConfigured | Record/KinectRecorder.cs:22-51 | a sub-recorder exists exactly for each set option bit, with the open time as its reference; no flush yet; the log is the header |
| Recording.DisabledModalityRejected | Record/KinectRecorder.cs:75-76 | recording a modality without a sub-recorder throws "not actived" and changes nothing |
| Recording.RecordAppendsOneRecord | Record/KinectRecorder.cs:71-111 | on an open writer, exactly one record is appended, with the delta since that modality's previous record; only that modality's reference moves; the flush count grows by the skeleton recorder's own flush (skeleton records only) plus one if more than 60 s have passed; the flush date moves to now exactly when the 60 s have passed |
| Recording.ConsecutiveDeltas | Record/DepthRecorder.cs:23-24 | the second of two records of one modality is stamped with the time since the first |
| Recording.FlushRule | Record/KinectRecorder.cs:104-111 | a flush happens if and only if more than 60 s have passed, and then the flush date moves to now; exactly 60 s does not flush |
| Recording.RecordIfPresentAppends | Record/KinectRecorder.cs:62-67 | an absent frame adds nothing; a present one adds its record and moves only its own reference |
| Recording.RecordAllOrder | Record/KinectRecorder.cs:60-69 | the given frames are recorded skeleton, depth, color, each with its own delta; a given skeleton frame adds its own flush; each given frame is followed by its own flush check against the `DateTime.Now` of its call; afterwards each given modality's reference is its record's time and every other reference is unchanged |
| Recording.RecordAllStopsAtFirstFailure | Record/KinectRecorder.cs:62-63 | a skeleton frame without a skeleton recorder throws before the depth and color frames |
| Recording.RecordAllStopsAtDepth | Record/KinectRecorder.cs:62-65 | a skeleton frame that is recorded, followed by a depth frame with no depth recorder, throws NotActivated at the depth frame; the skeleton record stays written and the color frame is not recorded |
| Recording.CloseTwice | Record/KinectRecorder.cs:116-125 | the first Close closes the writer; the second throws `NullReference` and changes nothing |
| Recording.RecordAfterClose | Record/KinectRecorder.cs:71-102 | after Close, any enabled record throws `ObjectDisposed` and changes nothing |
| ReplayFrames.ReadWordAt | Replay/ReplayAllFrames.cs:45 | it succeeds if and only if a word stands at the position: that word is returned and the position advances by one. Otherwise it fails with end of stream past the end, or malformed |
| ReplayFrames.TakeBytes | Replay/KinectAllFramesReplay.cs:104 | at most `n` bytes, fewer only when the stream ends, and the position advances by the number read |
| ReplayFrames.DecodeSkeletonAt | Replay/ReplayAllFrames.cs:48 | succeeds only on a skeleton body and consumes exactly it |
| ReplayFrames.DecodeDepthAt | Replay/ReplayAllFrames.cs:51 | succeeds only on a depth body and consumes exactly it |
| ReplayFrames.DecodeColorAt | Replay/ReplayAllFrames.cs:56 | succeeds only on a color body and consumes exactly it |
| ReplayFrames.Source.ReadInt32 | Replay/ReplayAllFrames.cs:45 | a read on a closed reader throws `ObjectDisposed`; otherwise the result and the new position are those of `ReadWordAt`, and a failed read does not move |
| ReplayFrames.Source.ReadBytes | Replay/KinectAllFramesReplay.cs:104 | a negative count throws; otherwise the result and the position follow `TakeBytes` |
| ReplayFrames.Source.ReadSkeleton | Replay/ReplayAllFrames.cs:48 | follows `DecodeSkeletonAt` |
| ReplayFrames.Source.ReadDepth | Replay/ReplayAllFrames.cs:51 | follows `DecodeDepthAt` |
| ReplayFrames.Source.ReadColor | Replay/ReplayAllFrames.cs:56 | follows `DecodeColorAt` |
| ReplayFrames.Source.Close | Replay/KinectAllFramesReplay.cs:96 | closes the reader and keeps the position |
| ReplayFrames.Assemble | Replay/ReplayAllFrames.cs:43-60 | from an iteration i < 3, a successful call consumes at least one token in all and at most two per remaining iteration |
| ReplayFrames.ReplayAllFrames.constructor | Replay/ReplayAllFrames.cs:37-41 | the three sub-frames are freshly allocated and empty |
| ReplayFrames.ReplayAllFrames.CreateFromReader | Replay/ReplayAllFrames.cs:43-60 | succeeds exactly when `Assemble` does, leaves the fields and the reader's position as it computes, and throws what it throws |
| ReplayFrames.AssembleAdoptsDepth | Replay/ReplayAllFrames.cs:50-54 | TimeStamp and FrameNumber are those of the last depth record read; with no depth record they are unchanged |
| ReplayFrames.ColorEndsCall | Replay/ReplayAllFrames.cs:55-57 | a color record ends the call at once, in whatever iteration it comes |
| ReplayFrames.UnknownTagSkipped | Replay/ReplayAllFrames.cs:46-58 | a tag that names no modality is consumed alone and costs one iteration |
| ReplayFrames.GroupIsOneFrame | Replay/ReplayAllFrames.cs:43-60 | the skeleton, depth and color records of one `Record(sf, df, cf)` become one composite frame |
| ReplayFrames.EventArgsForwardGroup | Replay/ReplayAllFrames.cs:10-29 | the event arguments hand out the three sub-frames of that composite |
| Playback.FreeRunStop | Replay/ReplaySystem.cs:62-71 | the walk leaves at the first frame whose sleep does not return or whose cancellation check is true, or at the end |
| Playback.ReplaySystem.constructor | Replay/ReplaySystem.cs:17-25 | no frames, cursor 0, not finished, no subscribers, no timer |
| Playback.ReplaySystem.AddFrame | Replay/ReplaySystem.cs:27-33 | appends the frame `Assemble` reads, or throws and appends nothing |
| Playback.ReplaySystem.Subscribe | Replay/ReplaySystem.cs:16 | one more FrameReady subscriber |
| Playback.ReplaySystem.Stop | Replay/ReplaySystem.cs:77-83 | stops the timer it holds; frames, cursor and flags stay |
| Playback.ReplaySystem.StartClocked | Replay/ReplaySystem.cs:40-50 | stops the old timer (keeping its handlers), adopts the new one, subscribes one more tick handler, clears IsFinished, starts it, and keeps the cursor |
| Playback.ReplaySystem.StartFree | Replay/ReplaySystem.cs:52-75 | the state becomes `FreeRun` of the old state; the held timer, if any, is stopped with its handlers kept |
| Playback.ReplaySystem.Start | Replay/ReplaySystem.cs:40-50 | a null timer selects the background walk, any other the clocked start; a held timer other than the new one is stopped with its handlers kept |
| Playback.ReplaySystem.OnTimerTick | Replay/ReplaySystem.cs:85-93 | the state becomes `TickStep` of the old state; the timer's handlers are kept. A delivering tick leaves the timer running as it was; a tick with nothing to deliver stops it |
| Playback.TicksDeliverInOrder | Replay/ReplaySystem.cs:85-93 | any run of ticks delivers the next frames from the cursor, in order, each once, never past the end; with a subscriber, one per tick |
| Playback.FinishedAfterLastFrame | Replay/ReplaySystem.cs:85-93 | with a subscriber, IsFinished is set after `n` ticks from cursor `i` if and only if `i + n > |frames|` or it was already set |
| Playback.UnheardTickFinishes | Replay/ReplaySystem.cs:86-91 | a tick without subscribers delivers nothing and finishes the replay |
| Playback.FreeRunDeliversPrefix | Replay/ReplaySystem.cs:61-73 | the walk raises, when anyone listens, exactly the frames before the first one it leaves at, in order. It finishes if and only if it did not leave because a sleep did not return; the cursor is untouched |
| Playback.FreeRunDeliversAll | Replay/ReplaySystem.cs:61-73 | with no cancellation and every frame's sleep returning, the walk raises every frame in order (when anyone listens) and finishes |
| Playback.EarlyCancelNeverFinishes | Replay/ReplaySystem.cs:57-74 | a walk cancelled before it was scheduled delivers nothing and leaves IsFinished false |
| Playback.RestartResumes | Replay/ReplaySystem.cs:40-50 | a clocked restart resumes at the cursor; delivered frames are not delivered again |
| Replay.ReadCalibration | Replay/KinectAllFramesReplay.cs:102-106 | on success, it consumes at least the count and stays within the stream |
| Replay.LoadFrames | Replay/KinectAllFramesReplay.cs:56-58 | on success, the frames already loaded are kept as a prefix |
| Replay.ReadCoordinateMapperParams | Replay/KinectAllFramesReplay.cs:102-106 | it succeeds exactly when `ReadCalibration` does, with its bytes and position, and throws what it throws |
| Replay.KinectAllFramesReplay.Open | Replay/KinectAllFramesReplay.cs:49-59 | it throws exactly where `OpenReplay` fails. On success: the stream is read to its end; the replay system holds `OpenReplay`'s frames with cursor 0, no timer and no subscriber; not started; not finished |
| Replay.KinectAllFramesReplay.FrameAt | Replay/KinectAllFramesReplay.cs:61-65 | null if and only if `index >= FrameCount`; the frame at `index` if and only if `0 <= index < FrameCount`; a negative index throws `ArgumentOutOfRange`, or `NullReference` after Dispose |
| Replay.KinectAllFramesReplay.Start | Replay/KinectAllFramesReplay.cs:67-80 | it throws if and only if already started, and then the replay system, `t` and the held timer are untouched. Otherwise it is started, one more forwarding subscriber is added, and the replay system starts with the timer, or with the walk; a held timer other than `t` is stopped |
| Replay.KinectAllFramesReplay.Stop | Replay/KinectAllFramesReplay.cs:82-88 | clears Started and stops the timer, whose handlers are kept; frames and cursor stay |
| Replay.KinectAllFramesReplay.Dispose | Replay/KinectAllFramesReplay.cs:90-100 | it stops the timer, keeping its handlers, drops the replay system, and closes the reader once. Afterwards there are no frames and IsFinished holds; a second Dispose is harmless |
| Replay.RecordAllWritesGroup | Record/KinectRecorder.cs:60-69 | with every sub-recorder present, `Record(sf, df, cf)` appends exactly one skeleton-depth-color group |
| Replay.SkeletonStep | Replay/ReplayAllFrames.cs:47-49 | a skeleton record fills the skeleton slot and the loop goes on |
| Replay.DepthStep | Replay/ReplayAllFrames.cs:50-54 | a depth record fills the depth slot, timestamp and frame number, and the loop goes on |
| Replay.GroupAt | Replay/ReplayAllFrames.cs:43-60 | a group anywhere in the stream becomes one composite frame and is consumed whole |
| Replay.LoadGroups | Replay/KinectAllFramesReplay.cs:56-58 | a run of groups that reaches the end of the stream loads as one frame per group, in order |
| Replay.TakeByteTokens | Replay/KinectAllFramesReplay.cs:104 | `ReadBytes(n)` over `n` byte tokens returns exactly those bytes |
| Replay.HeaderRead | Replay/KinectAllFramesReplay.cs:53-55 | over a recorder's header, the constructor reads the calibration and then drops the color focal length, leaving the depth focal length and options next |
| Replay.FirstGroupSplits | Replay/ReplayAllFrames.cs:43-60 | after two unknown tags, one call takes a group's skeleton alone and the next takes its depth and color |
| Replay.DesyncedLoad | Replay/KinectAllFramesReplay.cs:56-58 | the load loop over a recorder's file, from the dropped int on |
| Replay.HeaderDesync | Replay/KinectAllFramesReplay.cs:53-58 | for a file of full groups, the first group's frame is split in two and every later group is one frame |
| Replay.OptionsReadAsTag | Replay/KinectAllFramesReplay.cs:53-58 | when the options name a modality, the first CreateFromReader passes over the depth focal length and reads the options as its second tag. The decoder of that modality is then called at the first record's own tag, and the load goes on from what it returns |
| Replay.EmptyRecordingRejected | Replay/KinectAllFramesReplay.cs:53-58 | a recording with no records cannot be opened: end of stream |
| Replay.WholeHeaderRoundTrip | Record/KinectRecorder.cs:29-38 | a reader that consumed all five header fields would get back the calibration and exactly one frame per group |

## Left out

- Threads and locks.
  - `lock (this)` in `Record` and `Close` is not modelled.
  - The free-run task runs to completion inside `Start`. The cancellation it observes is supplied as arguments: `cancelledEarly`, and `cancel[k]` per frame.
  - `SynchronizationContext.Send` is not modelled. `AllFramesReady` is represented by the FrameReady raise it forwards; each of the forwarding subscribers that `Start` adds raises it once.
- The time `Thread.Sleep(TimeSpan.FromMilliseconds(frame.TimeStamp))` waits, and all clocks. `DateTime.Now` is the `openTime`, `time` and `now` parameters. Whether the sleep returns is modelled (`SleepHalts`): it throws `ArgumentOutOfRange` inside the replay Task below -1 ms or above Int32.MaxValue ms, and waits forever at -1 ms. The walk then stops at that frame and IsFinished stays false.
- Floating point. Focal lengths and floor-plane coefficients are 32-bit patterns, never interpreted. `TotalMilliseconds` and `TotalSeconds` are computed exactly on ticks, without double rounding.
- `BinaryFormatter`. The serialised skeleton array is an opaque byte sequence.
- `CoordinateMapper`. It is represented by its parameter bytes; its own validation of them is not modelled.
- The replay frame classes (`ReplaySkeletonFrame`, `ReplayDepthImageFrame`, `ReplayColorImageFrame`) and `ColorRecorder.cs` are not part of this model.
  - Each body is one token that the decoder consumes whole.
  - A token of the wrong kind is `Malformed`. A real reader would instead misread bytes.
- ReplayFrames.ReplayAllFrames.CreateFromReader: the partly filled frame an exception leaves behind is not stated, because `AddFrame` never stores it.
- Replay.KinectAllFramesReplay.Open: the replay system allocated before a failure is not stated. The constructor throws and no object is returned.
- The "recorder is stopped" checks (`writer == null`) cannot be reached, because `writer` is `readonly` and set in the constructor. They are not modelled.
- The frames are stored as values. The aliasing between a `ReplayAllFrames` object and the event arguments holding it is not modelled.
- `ReplaySystem` is modelled for its only instantiation, `ReplayAllFrames`.
- The `DispatcherTimer` runs one `OnTimerTick` per subscribed handler per tick. `handlers` counts the subscriptions; a run of `h` handler calls is `Ticks(p, h)`.

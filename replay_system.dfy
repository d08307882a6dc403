/**
 * ReplaySystem: the list of composite frames read from a file and the two
 * ways of playing it back. With a DispatcherTimer every tick delivers the
 * frame under the cursor `frameIndex`; without one a background walk
 * delivers the frames in order until it is cancelled.
 *
 * Ticks are explicit OnTimerTick calls. The background walk runs to its end
 * inside Start, and the cancellation it observes is supplied:
 * `cancelledEarly` says whether the token was cancelled before the replay Task was
 * scheduled (then the replay Task never runs), and `cancel[k]` whether it was
 * cancelled by the time frame `k` comes up. Before each frame the walk sleeps
 * for the frame's TimeStamp in milliseconds; the sleep itself is not modelled,
 * only whether it returns.
 */
module Playback {
  import opened Wrappers
  import opened Binary
  import opened Format
  import opened ReplayFrames

  /** The parts of a System.Windows.Threading.DispatcherTimer the replay touches. */
  class DispatcherTimer {
    var running: bool
    /** How many handlers are subscribed to Tick. */
    var handlers: nat

    constructor ()
      ensures !running && handlers == 0
    {
      running := false;
      handlers := 0;
    }
  }

  /**
   * The observable state: the frames, the cursor, IsFinished, the number of
   * FrameReady subscribers, and the frames FrameReady has been raised with
   * so far, in order.
   */
  datatype Cursor = Cursor(
    frames: seq<Composite>,
    frameIndex: nat,
    finished: bool,
    listeners: nat,
    raised: seq<Composite>)

  /** OnTimerTick: deliver the frame under the cursor and advance, or else finish. */
  function TickStep(p: Cursor): Cursor {
    if p.frameIndex < |p.frames| && p.listeners > 0 then
      p.(raised := p.raised + [p.frames[p.frameIndex]], frameIndex := p.frameIndex + 1)
    else
      p.(finished := true)
  }

  /** `n` ticks in a row. */
  function Ticks(p: Cursor, n: nat): Cursor
    decreases n
  {
    if n == 0 then p else Ticks(TickStep(p), n - 1)
  }

  predicate Cancelled(cancel: seq<bool>, k: nat) {
    k < |cancel| && cancel[k]
  }

  /**
   * `Thread.Sleep(TimeSpan.FromMilliseconds(ms))` does not return: it accepts
   * -1 to Int32.MaxValue milliseconds, waits forever at -1, and throws
   * ArgumentOutOfRangeException (or OverflowException) outside that range,
   * which ends the replay Task.
   */
  predicate SleepHalts(ms: int64) {
    ms < 0 || ms > 0x7FFF_FFFF
  }

  /** The walk leaves at frame `k`: its sleep does not return, or the token is cancelled after it. */
  predicate LeavesAt(fs: seq<Composite>, cancel: seq<bool>, k: nat)
    requires k < |fs|
  {
    SleepHalts(fs[k].timeStamp) || Cancelled(cancel, k)
  }

  /** The index of the first frame the walk leaves at, from `k` on, or `|fs|` when it leaves at none. */
  function FreeRunStop(fs: seq<Composite>, cancel: seq<bool>, k: nat): (stop: nat)
    requires k <= |fs|
    decreases |fs| - k
    ensures k <= stop <= |fs|
    ensures forall j | k <= j < stop :: !LeavesAt(fs, cancel, j)
    ensures stop < |fs| ==> LeavesAt(fs, cancel, stop)
  {
    if k == |fs| || LeavesAt(fs, cancel, k) then k else FreeRunStop(fs, cancel, k + 1)
  }

  /** The walk ends by an exception, or hangs, at frame `stop`: IsFinished is then never set. */
  predicate Halted(fs: seq<Composite>, stop: nat) {
    stop < |fs| && SleepHalts(fs[stop].timeStamp)
  }

  /**
   * What Start() leaves behind from state `p`: IsFinished cleared; then,
   * unless the replay Task was cancelled before it ran, the frames before the first
   * one the walk leaves at raised, and IsFinished set unless that frame's
   * sleep did not return.
   */
  function FreeRun(p: Cursor, cancelledEarly: bool, cancel: seq<bool>): Cursor {
    if cancelledEarly then
      p.(finished := false)
    else
      var stop := FreeRunStop(p.frames, cancel, 0);
      p.(raised := p.raised + (if p.listeners > 0 then p.frames[..stop] else []), finished := !Halted(p.frames, stop))
  }

  class ReplaySystem {
    var frames: seq<Composite>
    var frameIndex: nat
    var isFinished: bool
    var listeners: nat
    var raised: seq<Composite>
    var timer: DispatcherTimer?

    ghost predicate Valid()
      reads this
    {
      frameIndex <= |frames|
    }

    function State(): Cursor
      reads this
    {
      Cursor(frames, frameIndex, isFinished, listeners, raised)
    }

    constructor ()
      ensures Valid() && State() == Cursor([], 0, false, 0, []) && timer == null
    {
      frames := [];
      frameIndex := 0;
      isFinished := false;
      listeners := 0;
      raised := [];
      timer := null;
    }

    /**
     * AddFrame: a new ReplayAllFrames reads itself from `reader` and is
     * appended; when it throws, nothing is appended.
     */
    method AddFrame(reader: Source) returns (r: Outcome<Error>)
      requires Valid()
      modifies this, reader
      ensures Valid() && reader.closed == old(reader.closed)
      ensures frameIndex == old(frameIndex) && isFinished == old(isFinished) && listeners == old(listeners)
      ensures raised == old(raised) && timer == old(timer)
      ensures old(reader.closed) ==> r == Fail(ObjectDisposed) && frames == old(frames)
      ensures !old(reader.closed) ==>
        var spec := Assemble(EmptyComposite, reader.tokens, old(reader.position), 0);
        && (r.Pass? <==> spec.Ok?)
        && (r.Pass? ==> frames == old(frames) + [spec.value.0] && reader.position == spec.value.1)
        && (r.Fail? ==> spec == Err(r.error) && frames == old(frames))
    {
      var frame := new ReplayAllFrames();
      r := frame.CreateFromReader(reader);
      if r.Fail? {
        return;
      }
      frames := frames + [frame.Value()];
    }

    /** `FrameReady += handler`. */
    method Subscribe()
      requires Valid()
      modifies this
      ensures Valid() && State() == old(State()).(listeners := old(listeners) + 1) && timer == old(timer)
    {
      listeners := listeners + 1;
    }

    /** Stops the timer, if one was ever given; the free-run walk has already ended. */
    method Stop()
      requires Valid()
      modifies this, timer
      ensures Valid() && State() == old(State()) && timer == old(timer)
      ensures timer != null ==> !timer.running && timer.handlers == old(timer.handlers)
    {
      if timer != null {
        timer.running := false;
      }
    }

    /**
     * Start(timer) with a timer: stop, adopt the timer, add one more
     * OnTimerTick handler to it, clear IsFinished and start the timer. The
     * cursor is kept.
     */
    method StartClocked(t: DispatcherTimer)
      requires Valid()
      modifies this, timer, t
      ensures Valid() && State() == old(State()).(finished := false)
      ensures timer == t && t.running && t.handlers == old(t.handlers) + 1
      ensures old(timer) != null && old(timer) != t ==> !old(timer).running && old(timer).handlers == old(timer.handlers)
    {
      Stop();
      timer := t;
      t.handlers := t.handlers + 1;
      isFinished := false;
      t.running := true;
    }

    /**
     * Start(): stop, clear IsFinished, then walk the frames in order: sleep
     * for the frame's TimeStamp (the replay Task ends there when the sleep does not
     * return), leave when the token is cancelled, else raise FrameReady when
     * it has subscribers; after the last frame, or on leaving, set
     * IsFinished. The cursor is not used.
     */
    method StartFree(cancelledEarly: bool, cancel: seq<bool>)
      requires Valid()
      modifies this, timer
      ensures Valid() && State() == FreeRun(old(State()), cancelledEarly, cancel) && timer == old(timer)
      ensures timer != null ==> !timer.running && timer.handlers == old(timer.handlers)
    {
      Stop();
      isFinished := false;
      if cancelledEarly {
        return;
      }
      ghost var stop := FreeRunStop(frames, cancel, 0);
      for k := 0 to |frames|
        invariant Valid() && frames == old(frames) && frameIndex == old(frameIndex) && listeners == old(listeners)
        invariant raised == old(raised) + (if listeners > 0 then frames[..k] else []) && !isFinished
        invariant FreeRunStop(frames, cancel, k) == stop && timer == old(timer)
        invariant timer != null ==> !timer.running && timer.handlers == old(timer.handlers)
      {
        if SleepHalts(frames[k].timeStamp) {
          return;
        }
        if Cancelled(cancel, k) {
          break;
        }
        if listeners > 0 {
          assert frames[..k + 1] == frames[..k] + [frames[k]];
          raised := raised + [frames[k]];
        }
      }
      isFinished := true;
    }

    /** Start(timer): a null timer selects the background walk. */
    method Start(t: DispatcherTimer?, cancelledEarly: bool, cancel: seq<bool>)
      requires Valid()
      modifies this, timer, t
      ensures Valid()
      ensures t == null ==> State() == FreeRun(old(State()), cancelledEarly, cancel) && timer == old(timer)
      ensures t != null ==> State() == old(State()).(finished := false) && timer == t && t.running
      ensures t != null ==> t.handlers == old(t.handlers) + 1
      ensures old(timer) != null && old(timer) != t ==> !old(timer).running && old(timer).handlers == old(timer.handlers)
    {
      if t == null {
        StartFree(cancelledEarly, cancel);
      } else {
        StartClocked(t);
      }
    }

    /** OnTimerTick; when nothing is left to deliver (or nobody listens) it finishes and stops. */
    method OnTimerTick()
      requires Valid()
      modifies this, timer
      ensures Valid() && State() == TickStep(old(State())) && timer == old(timer)
      ensures timer != null ==> timer.handlers == old(timer.handlers)
      ensures old(frameIndex) < |frames| && old(listeners) > 0 ==> timer != null ==> timer.running == old(timer.running)
      ensures old(frameIndex) >= |frames| || old(listeners) == 0 ==> timer != null ==> !timer.running
    {
      if frameIndex < |frames| && listeners > 0 {
        raised := raised + [frames[frameIndex]];
        frameIndex := frameIndex + 1;
      } else {
        isFinished := true;
        Stop();
      }
    }
  }

  // ---------------------------------------------------------------------------
  // Properties of playback.

  /**
   * Any run of ticks delivers the next frames from the cursor on, in list
   * order, each once, never more than the list holds; with a subscriber the
   * cursor moves one frame per tick until the end.
   */
  lemma {:induction false} TicksDeliverInOrder(p: Cursor, n: nat)
    decreases n
    requires p.frameIndex <= |p.frames|
    ensures var q := Ticks(p, n);
      && q.frames == p.frames && q.listeners == p.listeners
      && p.frameIndex <= q.frameIndex <= |p.frames| && q.frameIndex <= p.frameIndex + n
      && q.raised == p.raised + p.frames[p.frameIndex..q.frameIndex]
      && (p.listeners > 0 ==> q.frameIndex == if p.frameIndex + n <= |p.frames| then p.frameIndex + n else |p.frames|)
  {
    if n > 0 {
      var p1 := TickStep(p);
      TicksDeliverInOrder(p1, n - 1);
      if p.frameIndex < |p.frames| && p.listeners > 0 {
        var q := Ticks(p1, n - 1);
        var i, f := p.frameIndex, p.frames;
        assert q.raised == p.raised + [f[i]] + f[i + 1..q.frameIndex];
        assert f[i..q.frameIndex] == [f[i]] + f[i + 1..q.frameIndex];
      }
    }
  }

  /**
   * With a subscriber, IsFinished becomes true only on the tick after the
   * last frame was delivered: after `n` ticks from cursor `i` it is set
   * exactly when n > |frames| - i (or it was set already).
   */
  lemma {:induction false} FinishedAfterLastFrame(p: Cursor, n: nat)
    decreases n
    requires p.frameIndex <= |p.frames| && p.listeners > 0
    ensures Ticks(p, n).finished <==> p.finished || p.frameIndex + n > |p.frames|
  {
    if n > 0 {
      TicksDeliverInOrder(p, 0);
      FinishedAfterLastFrame(TickStep(p), n - 1);
    }
  }

  /** A tick that finds nobody subscribed delivers nothing and finishes the replay. */
  lemma UnheardTickFinishes(p: Cursor)
    requires p.listeners == 0
    ensures TickStep(p) == p.(finished := true)
  {
  }

  /**
   * The background walk raises a prefix of the frames in list order (when
   * anyone listens): every frame before the first one it leaves at, none from
   * it on. It finishes unless it left because a sleep did not return.
   */
  lemma FreeRunDeliversPrefix(p: Cursor, cancel: seq<bool>)
    ensures var q := FreeRun(p, false, cancel);
      exists stop ::
        && 0 <= stop <= |p.frames|
        && q.raised == p.raised + (if p.listeners > 0 then p.frames[..stop] else [])
        && (forall j | 0 <= j < stop :: !Cancelled(cancel, j) && !SleepHalts(p.frames[j].timeStamp))
        && (stop < |p.frames| ==> Cancelled(cancel, stop) || SleepHalts(p.frames[stop].timeStamp))
        && (q.finished <==> stop == |p.frames| || !SleepHalts(p.frames[stop].timeStamp))
        && q.frameIndex == p.frameIndex
  {
    var stop := FreeRunStop(p.frames, cancel, 0);
    var q := FreeRun(p, false, cancel);
    assert q.raised == p.raised + (if p.listeners > 0 then p.frames[..stop] else []);
    assert forall j | 0 <= j < stop :: !Cancelled(cancel, j) && !SleepHalts(p.frames[j].timeStamp) by {
      forall j | 0 <= j < stop
        ensures !Cancelled(cancel, j) && !SleepHalts(p.frames[j].timeStamp)
      {
        assert !LeavesAt(p.frames, cancel, j);
      }
    }
    assert stop < |p.frames| ==> Cancelled(cancel, stop) || SleepHalts(p.frames[stop].timeStamp) by {
      if stop < |p.frames| {
        assert LeavesAt(p.frames, cancel, stop);
      }
    }
    assert q.finished <==> stop == |p.frames| || !SleepHalts(p.frames[stop].timeStamp);
    assert q.frameIndex == p.frameIndex;
    assert 0 <= stop <= |p.frames|
      && q.raised == p.raised + (if p.listeners > 0 then p.frames[..stop] else [])
      && (forall j | 0 <= j < stop :: !Cancelled(cancel, j) && !SleepHalts(p.frames[j].timeStamp))
      && (stop < |p.frames| ==> Cancelled(cancel, stop) || SleepHalts(p.frames[stop].timeStamp))
      && (q.finished <==> stop == |p.frames| || !SleepHalts(p.frames[stop].timeStamp))
      && q.frameIndex == p.frameIndex;
  }

  /**
   * A walk that is never cancelled over frames whose sleeps all return raises
   * every frame in order (when anyone listens) and finishes.
   */
  lemma FreeRunDeliversAll(p: Cursor, cancel: seq<bool>)
    requires forall j | 0 <= j < |p.frames| :: !SleepHalts(p.frames[j].timeStamp) && !Cancelled(cancel, j)
    ensures FreeRun(p, false, cancel).raised == p.raised + (if p.listeners > 0 then p.frames else [])
    ensures FreeRun(p, false, cancel).finished
  {
    var stop := FreeRunStop(p.frames, cancel, 0);
    if stop < |p.frames| {
      assert false;
    }
    assert p.frames[..|p.frames|] == p.frames;
  }

  /** A walk cancelled before it was scheduled delivers nothing and leaves the replay unfinished for good. */
  lemma EarlyCancelNeverFinishes(p: Cursor, cancel: seq<bool>)
    ensures FreeRun(p, true, cancel) == p.(finished := false)
  {
  }

  /** Restarting with a timer keeps the cursor: the next tick delivers the frame after the last one delivered. */
  lemma RestartResumes(p: Cursor)
    requires p.frameIndex < |p.frames| && p.listeners > 0
    ensures TickStep(p.(finished := false)).raised == p.raised + [p.frames[p.frameIndex]]
    ensures TickStep(p.(finished := false)).frameIndex == p.frameIndex + 1
  {
  }
}

/**
 * The single-flight frame scheduler of DetectorActivity.processImage, as a state machine
 * over values. A state holds the activity's fields (`computingDetection`, `timestamp`,
 * `luminanceCopy`, `lastProcessingTimeMs`) and the detection job handed to
 * `runInBackground`, if one is in flight. An event is a frame arriving, or the in-flight
 * job finishing (returning results, or throwing). The calls the activity makes to its
 * collaborators (tracker, camera, overlay, background thread) are the output of a step.
 *
 * Class DetectorActivity (module Activity) is proved to take exactly these steps.
 */
module Scheduler {
  import opened Types
  import opened Modes
  import opened Recognitions

  /** A call the activity makes to code outside it. */
  datatype Call =
    | OnFrame(timestamp: int, luminance: seq<int8>)  // tracker.onFrame
    | PostInvalidate                                 // trackingOverlay.postInvalidate
    | ReadyForNextImage                              // hands the camera buffer back
    | SetPixels                                      // rgbFrameBitmap.setPixels(rgbBytes, ...)
    | CopyLuminance(plane: seq<int8>)                // System.arraycopy of the plane into luminanceCopy
    | RenderCrop                                     // croppedBitmap drawn through frameToCropTransform
    | Dispatch(timestamp: int)                       // runInBackground { ... } for currTimestamp
    | TrackResults(recognitions: seq<Detection>, snapshot: seq<int8>, timestamp: int)
    | RequestRender

  /**
   * The detection job in flight: the `currTimestamp` its closure captured, and the
   * luminance plane of the frame it was submitted for (a specification value only:
   * the closure reads the shared `luminanceCopy`, and this is what that must still hold).
   */
  datatype Job = Job(timestamp: int, luminance: seq<int8>)

  datatype State = State(
    computingDetection: bool,
    timestamp: int,
    luminanceCopy: Option<seq<int8>>,
    lastProcessingTimeMs: int,
    pending: Option<Job>)

  datatype Event =
    | FrameAvailable(luminance: seq<int8>)
    | InferenceReturned(results: seq<Detection>, elapsedMs: int)  // recognizeImage returned
    | InferenceThrew                                              // recognizeImage threw

  /** What is fixed for the session: the mode and `cropToFrameTransform.mapRect`. */
  datatype Config = Config(mode: DetectorMode, cropToFrame: Box -> Box)

  datatype Outcome = Outcome(next: State, calls: seq<Call>)

  /** The fields' initial values; nothing in flight. */
  const Initial: State := State(false, 0, None, 0, None)

  /**
   * Whether an event can happen in a state. A completion needs a job in flight. A frame
   * that is submitted copies its plane into an existing snapshot buffer with
   * `System.arraycopy`, which would throw if the plane were longer than the buffer.
   */
  predicate Enabled(s: State, e: Event) {
    match e
    case FrameAvailable(lum) =>
      s.computingDetection || s.luminanceCopy.None? || |lum| <= |s.luminanceCopy.value|
    case InferenceReturned(_, _) => s.pending.Some?
    case InferenceThrew => s.pending.Some?
  }

  /**
   * The snapshot buffer after `arraycopy`: allocated zero-filled with the plane's length
   * when it was null, then its first |lum| bytes overwritten with the plane.
   */
  function CopyPlane(lum: seq<int8>, buffer: Option<seq<int8>>): (copy: seq<int8>)
    requires buffer.None? || |lum| <= |buffer.value|
    ensures |lum| <= |copy| && copy[..|lum|] == lum
    ensures buffer.None? ==> copy == lum
    ensures buffer.Some? ==> |copy| == |buffer.value| && copy[|lum|..] == buffer.value[|lum|..]
  {
    var b := if buffer.None? then seq(|lum|, _ => 0 as int8) else buffer.value;
    lum + b[|lum|..]
  }

  /**
   * A buffer that starts with the plane and otherwise keeps the bytes of the buffer it
   * was copied into (the existing one, or a new zero-filled one of the plane's length)
   * is CopyPlane's result.
   */
  lemma CopyPlaneIs(lum: seq<int8>, buffer: Option<seq<int8>>, before: seq<int8>, after: seq<int8>)
    requires buffer.None? ==> before == seq(|lum|, _ => 0 as int8)
    requires buffer.Some? ==> before == buffer.value
    requires |lum| <= |before| && |after| == |before|
    requires after[..|lum|] == lum && after[|lum|..] == before[|lum|..]
    ensures after == CopyPlane(lum, buffer)
  {
    assert after == after[..|lum|] + after[|lum|..];
  }

  /** One event: processImage for a frame, or the end of the background detection job. */
  function Step(cfg: Config, s: State, e: Event): (o: Outcome)
    requires Enabled(s, e)
  {
    match e
    case FrameAvailable(lum) =>
      var t := s.timestamp + 1;
      var tracked := [OnFrame(t, lum), PostInvalidate];
      if s.computingDetection then
        Outcome(s.(timestamp := t), tracked + [ReadyForNextImage])
      else
        Outcome(
          State(true, t, Some(CopyPlane(lum, s.luminanceCopy)), s.lastProcessingTimeMs, Some(Job(t, lum))),
          tracked + [SetPixels, CopyLuminance(lum), ReadyForNextImage, RenderCrop, Dispatch(t)])
    case InferenceReturned(results, elapsed) =>
      // The job ends here whatever happens next; nothing below clears the flag on a throw.
      var ended := s.(lastProcessingTimeMs := elapsed, pending := None);
      (match FilterAndRemap(results, MinimumConfidence(cfg.mode), cfg.cropToFrame)
       case ConfidenceMissing(_) => Outcome(ended, [])
       case Mapped(mapped) =>
         if s.luminanceCopy.None? then Outcome(ended, [])  // `luminanceCopy!!` throws
         else
           Outcome(
             ended.(computingDetection := false),
             [TrackResults(mapped, s.luminanceCopy.value, s.pending.value.timestamp), PostInvalidate, RequestRender]))
    case InferenceThrew =>
      Outcome(s.(pending := None), [])
  }

  /** A sequence of events from a state; None when some event cannot happen where it occurs. */
  function Run(cfg: Config, s: State, es: seq<Event>): (outcome: Option<Outcome>)
    decreases |es|
  {
    if es == [] then Some(Outcome(s, []))
    else if !Enabled(s, es[0]) then None
    else
      var o := Step(cfg, s, es[0]);
      match Run(cfg, o.next, es[1..])
      case None => None
      case Some(rest) => Some(Outcome(rest.next, o.calls + rest.calls))
  }

  // ----- invariant -----

  predicate IsPrefix(lum: seq<int8>, buffer: seq<int8>) {
    |lum| <= |buffer| && buffer[..|lum|] == lum
  }

  /**
   * A job is in flight only while the flag is set, it was captured at or before the
   * current frame, and the snapshot buffer still starts with the plane it was submitted for.
   */
  predicate Inv(s: State) {
    s.pending.Some? ==>
      s.computingDetection && s.pending.value.timestamp <= s.timestamp &&
      s.luminanceCopy.Some? && IsPrefix(s.pending.value.luminance, s.luminanceCopy.value)
  }

  lemma StepPreservesInv(cfg: Config, s: State, e: Event)
    requires Inv(s) && Enabled(s, e)
    ensures Inv(Step(cfg, s, e).next)
  {
  }

  lemma InitialInv()
    ensures Inv(Initial) && !Initial.computingDetection && Initial.pending.None?
  {
  }

  // ----- single steps -----

  /**
   * A frame that arrives while a detection is in flight: the counter advances, the
   * tracker and overlay are told, the buffer is handed back once, and nothing else
   * happens: no pixels copied, no crop rendered, nothing dispatched, the flag, the
   * snapshot buffer and the job untouched.
   */
  lemma SkippedFrame(cfg: Config, s: State, lum: seq<int8>)
    requires s.computingDetection
    ensures Enabled(s, FrameAvailable(lum))
    ensures var o := Step(cfg, s, FrameAvailable(lum));
      o.next == s.(timestamp := s.timestamp + 1) &&
      o.calls == [OnFrame(s.timestamp + 1, lum), PostInvalidate, ReadyForNextImage]
  {
  }

  /**
   * A frame that arrives while idle: the flag is set, the snapshot buffer starts with the
   * plane (and is exactly the plane when it is new or the same length), and a job is
   * dispatched carrying this frame's timestamp. The buffer is handed back once, after
   * the pixels are set and this plane is copied into the snapshot buffer, and before the
   * crop is rendered and the job dispatched.
   */
  lemma SubmittedFrame(cfg: Config, s: State, lum: seq<int8>)
    requires !s.computingDetection && Enabled(s, FrameAvailable(lum))
    ensures var o := Step(cfg, s, FrameAvailable(lum));
      var t := s.timestamp + 1;
      o.next.computingDetection && o.next.timestamp == t &&
      o.next.pending == Some(Job(t, lum)) && o.next.lastProcessingTimeMs == s.lastProcessingTimeMs &&
      o.next.luminanceCopy.Some? && IsPrefix(lum, o.next.luminanceCopy.value) &&
      (s.luminanceCopy.None? || |s.luminanceCopy.value| == |lum| ==> o.next.luminanceCopy == Some(lum)) &&
      o.calls == [OnFrame(t, lum), PostInvalidate, SetPixels, CopyLuminance(lum), ReadyForNextImage, RenderCrop, Dispatch(t)]
  {
    var b := CopyPlane(lum, s.luminanceCopy);
    if s.luminanceCopy.Some? && |s.luminanceCopy.value| == |lum| {
      assert b == b[..|lum|];
    }
  }

  /**
   * When the job returns, the tracker gets the filtered, remapped results together with
   * the timestamp the job captured at submission (not the counter's current value) and a
   * snapshot that starts with the submitted frame's plane; only then is the flag cleared.
   * If the filter or the snapshot read throws, the flag stays set and nothing is tracked.
   */
  lemma CompletedJob(cfg: Config, s: State, results: seq<Detection>, elapsed: int)
    requires Inv(s) && s.pending.Some?
    ensures var o := Step(cfg, s, InferenceReturned(results, elapsed));
      var job := s.pending.value;
      o.next.pending.None? && o.next.lastProcessingTimeMs == elapsed && o.next.timestamp == s.timestamp &&
      o.next.luminanceCopy == s.luminanceCopy &&
      match FilterAndRemap(results, MinimumConfidence(cfg.mode), cfg.cropToFrame)
      case Mapped(mapped) =>
        !o.next.computingDetection &&
        |o.calls| == 3 && o.calls[0].TrackResults? &&
        o.calls[0].recognitions == mapped && o.calls[0].timestamp == job.timestamp &&
        IsPrefix(job.luminance, o.calls[0].snapshot) &&
        o.calls[1] == PostInvalidate && o.calls[2] == RequestRender
      case ConfidenceMissing(_) => o.next.computingDetection && o.calls == []
  {
  }

  /** A job that throws ends without clearing the flag: the scheduler is left busy with nothing in flight. */
  lemma ThrowingJob(cfg: Config, s: State)
    requires Inv(s) && s.pending.Some?
    ensures var o := Step(cfg, s, InferenceThrew);
      o.next == s.(pending := None) && o.next.computingDetection && o.calls == []
  {
  }

  // ----- counting calls and events -----

  function Count<T>(xs: seq<T>, p: T -> bool): (n: nat)
    decreases |xs|
  {
    if xs == [] then 0 else (if p(xs[0]) then 1 else 0) + Count(xs[1..], p)
  }

  lemma {:induction false} CountConcat<T>(xs: seq<T>, ys: seq<T>, p: T -> bool)
    ensures Count(xs + ys, p) == Count(xs, p) + Count(ys, p)
    decreases |xs|
  {
    if xs != [] {
      assert (xs + ys)[1..] == xs[1..] + ys;
      CountConcat(xs[1..], ys, p);
    } else {
      assert xs + ys == ys;
    }
  }

  /** Count is the number of positions whose element satisfies p; here for at most one such position. */
  lemma {:induction false} CountAtMostOne<T>(xs: seq<T>, p: T -> bool, k: int)
    requires forall i :: 0 <= i < |xs| && i != k ==> !p(xs[i])
    ensures Count(xs, p) == if 0 <= k < |xs| && p(xs[k]) then 1 else 0
    decreases |xs|
  {
    if xs != [] {
      CountAtMostOne(xs[1..], p, k - 1);
    }
  }

  /** The concatenation of f over a sequence: a projection of a call log. */
  function FlatMap<T, U>(xs: seq<T>, f: T -> seq<U>): (ys: seq<U>)
    decreases |xs|
  {
    if xs == [] then [] else f(xs[0]) + FlatMap(xs[1..], f)
  }

  lemma {:induction false} FlatMapConcat<T, U>(xs: seq<T>, ys: seq<T>, f: T -> seq<U>)
    ensures FlatMap(xs + ys, f) == FlatMap(xs, f) + FlatMap(ys, f)
    decreases |xs|
  {
    if xs != [] {
      assert (xs + ys)[1..] == xs[1..] + ys;
      FlatMapConcat(xs[1..], ys, f);
    } else {
      assert xs + ys == ys;
    }
  }

  lemma {:induction false} FlatMapAtMostOne<T, U>(xs: seq<T>, f: T -> seq<U>, k: int)
    requires forall i :: 0 <= i < |xs| && i != k ==> f(xs[i]) == []
    ensures FlatMap(xs, f) == if 0 <= k < |xs| then f(xs[k]) else []
    decreases |xs|
  {
    if xs != [] {
      FlatMapAtMostOne(xs[1..], f, k - 1);
      if k == 0 {
        assert FlatMap(xs[1..], f) == [];
      }
    }
  }

  predicate IsFrame(e: Event) { e.FrameAvailable? }
  predicate IsCompletion(e: Event) { !e.FrameAvailable? }
  predicate IsReady(c: Call) { c.ReadyForNextImage? }
  predicate IsDispatch(c: Call) { c.Dispatch? }

  function FrameStampOf(c: Call): (stamps: seq<int>) {
    if c.OnFrame? then [c.timestamp] else []
  }

  /** The timestamps passed to tracker.onFrame, in call order. */
  function FrameStamps(calls: seq<Call>): (stamps: seq<int>) {
    FlatMap(calls, FrameStampOf)
  }

  datatype Handoff = Dispatched(timestamp: int) | Tracked(timestamp: int)

  function HandoffOf(c: Call): (hs: seq<Handoff>) {
    match c
    case Dispatch(t) => [Dispatched(t)]
    case TrackResults(_, _, t) => [Tracked(t)]
    case _ => []
  }

  /** The dispatches and trackResults calls of a log, with their timestamps. */
  function Handoffs(calls: seq<Call>): (hs: seq<Handoff>) {
    FlatMap(calls, HandoffOf)
  }

  /**
   * What one step contributes to each projection of the log: one ready signal and one
   * onFrame per frame; a dispatch only for a frame that arrives while idle; a
   * trackResults only for a job that returns and is not thrown out.
   */
  lemma StepProjections(cfg: Config, s: State, e: Event)
    requires Enabled(s, e)
    ensures var o := Step(cfg, s, e);
      Count(o.calls, IsReady) == (if e.FrameAvailable? then 1 else 0) &&
      o.next.timestamp == s.timestamp + (if e.FrameAvailable? then 1 else 0) &&
      FrameStamps(o.calls) == (if e.FrameAvailable? then [s.timestamp + 1] else []) &&
      Count(o.calls, IsDispatch) == (if e.FrameAvailable? && !s.computingDetection then 1 else 0) &&
      Handoffs(o.calls) ==
        (if e.FrameAvailable? then (if s.computingDetection then [] else [Dispatched(s.timestamp + 1)])
         else if o.calls == [] then [] else [Tracked(s.pending.value.timestamp)])
  {
    match e
    case FrameAvailable(lum) =>
      if s.computingDetection {
        SkipProjections(cfg, s, lum);
      } else {
        SubmitProjections(cfg, s, lum);
      }
    case _ =>
      CompletionProjections(cfg, s, e);
  }

  lemma SkipProjections(cfg: Config, s: State, lum: seq<int8>)
    requires s.computingDetection
    ensures var calls := Step(cfg, s, FrameAvailable(lum)).calls;
      Count(calls, IsReady) == 1 && FrameStamps(calls) == [s.timestamp + 1] &&
      Count(calls, IsDispatch) == 0 && Handoffs(calls) == []
  {
    var calls := Step(cfg, s, FrameAvailable(lum)).calls;
    assert calls == [OnFrame(s.timestamp + 1, lum), PostInvalidate, ReadyForNextImage];
    FlatMapAtMostOne(calls, FrameStampOf, 0);
    CountAtMostOne(calls, IsReady, 2);
    CountAtMostOne(calls, IsDispatch, -1);
    FlatMapAtMostOne(calls, HandoffOf, -1);
  }

  lemma SubmitProjections(cfg: Config, s: State, lum: seq<int8>)
    requires !s.computingDetection && Enabled(s, FrameAvailable(lum))
    ensures var calls := Step(cfg, s, FrameAvailable(lum)).calls;
      Count(calls, IsReady) == 1 && FrameStamps(calls) == [s.timestamp + 1] &&
      Count(calls, IsDispatch) == 1 && Handoffs(calls) == [Dispatched(s.timestamp + 1)]
  {
    var t := s.timestamp + 1;
    var calls := Step(cfg, s, FrameAvailable(lum)).calls;
    assert calls == [OnFrame(t, lum), PostInvalidate, SetPixels, CopyLuminance(lum), ReadyForNextImage, RenderCrop, Dispatch(t)];
    FlatMapAtMostOne(calls, FrameStampOf, 0);
    CountAtMostOne(calls, IsReady, 4);
    CountAtMostOne(calls, IsDispatch, 6);
    FlatMapAtMostOne(calls, HandoffOf, 6);
  }

  lemma CompletionProjections(cfg: Config, s: State, e: Event)
    requires !e.FrameAvailable? && Enabled(s, e)
    ensures var calls := Step(cfg, s, e).calls;
      Count(calls, IsReady) == 0 && FrameStamps(calls) == [] && Count(calls, IsDispatch) == 0 &&
      Handoffs(calls) == if calls == [] then [] else [Tracked(s.pending.value.timestamp)]
  {
    var calls := Step(cfg, s, e).calls;
    assert calls == [] || (|calls| == 3 && calls[0] == TrackResults(calls[0].recognitions, calls[0].snapshot, s.pending.value.timestamp) &&
      calls[1] == PostInvalidate && calls[2] == RequestRender);
    CountAtMostOne(calls, IsReady, -1);
    CountAtMostOne(calls, IsDispatch, -1);
    FlatMapAtMostOne(calls, FrameStampOf, -1);
    FlatMapAtMostOne(calls, HandoffOf, 0);
  }

  // ----- runs -----

  /**
   * Every frame, skipped or submitted, hands the camera buffer back exactly once, and
   * calls tracker.onFrame with the next counter value: the timestamps passed to onFrame
   * are s.timestamp + 1, s.timestamp + 2, ..., one per frame.
   */
  lemma RunFrames(cfg: Config, s: State, es: seq<Event>)
    requires Run(cfg, s, es).Some?
    ensures var o := Run(cfg, s, es).value;
      Count(o.calls, IsReady) == Count(es, IsFrame) &&
      o.next.timestamp == s.timestamp + Count(es, IsFrame) &&
      FrameStamps(o.calls) == seq(Count(es, IsFrame), i => s.timestamp + 1 + i)
  {
    RunReadySignals(cfg, s, es);
    RunTimestamp(cfg, s, es);
    RunFrameStamps(cfg, s, es);
    StampsAreConsecutive(s.timestamp, Count(es, IsFrame));
  }

  lemma {:induction false} RunReadySignals(cfg: Config, s: State, es: seq<Event>)
    requires Run(cfg, s, es).Some?
    ensures Count(Run(cfg, s, es).value.calls, IsReady) == Count(es, IsFrame)
    decreases |es|
  {
    if es != [] {
      var o := Step(cfg, s, es[0]);
      RunReadySignals(cfg, o.next, es[1..]);
      var rest := Run(cfg, o.next, es[1..]).value;
      StepProjections(cfg, s, es[0]);
      CountConcat(o.calls, rest.calls, IsReady);
      assert es == [es[0]] + es[1..];
      CountConcat([es[0]], es[1..], IsFrame);
    }
  }

  lemma {:induction false} RunTimestamp(cfg: Config, s: State, es: seq<Event>)
    requires Run(cfg, s, es).Some?
    ensures Run(cfg, s, es).value.next.timestamp == s.timestamp + Count(es, IsFrame)
    decreases |es|
  {
    if es != [] {
      var o := Step(cfg, s, es[0]);
      RunTimestamp(cfg, o.next, es[1..]);
      StepProjections(cfg, s, es[0]);
      assert es == [es[0]] + es[1..];
      CountConcat([es[0]], es[1..], IsFrame);
    }
  }

  /** The n consecutive counter values after t. */
  function Stamps(t: int, n: nat): (stamps: seq<int>)
    decreases n
  {
    if n == 0 then [] else [t + 1] + Stamps(t + 1, n - 1)
  }

  lemma {:induction false} StampsAreConsecutive(t: int, n: nat)
    ensures Stamps(t, n) == seq(n, i => t + 1 + i)
    decreases n
  {
    if n > 0 {
      StampsAreConsecutive(t + 1, n - 1);
      var r := Stamps(t, n);
      assert |r| == n;
      forall i | 0 <= i < n
        ensures r[i] == t + 1 + i
      {
        if i > 0 {
          assert r[i] == Stamps(t + 1, n - 1)[i - 1];
        }
      }
    }
  }

  lemma {:induction false} RunFrameStamps(cfg: Config, s: State, es: seq<Event>)
    requires Run(cfg, s, es).Some?
    ensures FrameStamps(Run(cfg, s, es).value.calls) == Stamps(s.timestamp, Count(es, IsFrame))
    decreases |es|
  {
    if es != [] {
      var o := Step(cfg, s, es[0]);
      RunFrameStamps(cfg, o.next, es[1..]);
      var rest := Run(cfg, o.next, es[1..]).value;
      StepStamp(cfg, s, es[0]);
      FlatMapConcat(o.calls, rest.calls, FrameStampOf);
      var n := Count(es[1..], IsFrame);
      if es[0].FrameAvailable? {
        assert Count(es, IsFrame) == n + 1;
        assert Stamps(s.timestamp, n + 1) == [s.timestamp + 1] + Stamps(s.timestamp + 1, n);
      } else {
        assert Count(es, IsFrame) == n;
      }
    }
  }

  /** The part of StepProjections about the frame counter. */
  lemma StepStamp(cfg: Config, s: State, e: Event)
    requires Enabled(s, e)
    ensures var o := Step(cfg, s, e);
      o.next.timestamp == s.timestamp + (if e.FrameAvailable? then 1 else 0) &&
      FrameStamps(o.calls) == (if e.FrameAvailable? then [s.timestamp + 1] else [])
  {
    StepProjections(cfg, s, e);
  }

  function InFlight(s: State): (n: nat) {
    if s.pending.Some? then 1 else 0
  }

  /**
   * Single flight: a job is dispatched only when none is in flight, so over any run the
   * number of dispatches equals the number of completed jobs plus the change in the
   * number in flight, which is 0 or 1 throughout.
   */
  lemma {:induction false} RunSingleFlight(cfg: Config, s: State, es: seq<Event>)
    requires Inv(s) && Run(cfg, s, es).Some?
    ensures var o := Run(cfg, s, es).value;
      Inv(o.next) &&
      Count(o.calls, IsDispatch) + InFlight(s) == Count(es, IsCompletion) + InFlight(o.next)
    decreases |es|
  {
    if es != [] {
      var o := Step(cfg, s, es[0]);
      StepPreservesInv(cfg, s, es[0]);
      StepProjections(cfg, s, es[0]);
      RunSingleFlight(cfg, o.next, es[1..]);
      var rest := Run(cfg, o.next, es[1..]).value;
      CountConcat(o.calls, rest.calls, IsDispatch);
      assert es == [es[0]] + es[1..];
      CountConcat([es[0]], es[1..], IsCompletion);
    }
  }

  /** From the start of a session, at every point at most one detection is in flight. */
  lemma AtMostOneInFlight(cfg: Config, es: seq<Event>)
    requires Run(cfg, Initial, es).Some?
    ensures var o := Run(cfg, Initial, es).value;
      var dispatched, completed := Count(o.calls, IsDispatch), Count(es, IsCompletion);
      dispatched == completed || dispatched == completed + 1
  {
    RunSingleFlight(cfg, Initial, es);
  }

  // ----- pairing of dispatch and trackResults -----

  /**
   * Each dispatch of the job for timestamp t is followed by trackResults for that same t
   * before anything else is dispatched, except that the last dispatch may have no
   * trackResults (still in flight, or it threw).
   */
  predicate Paired(h: seq<Handoff>)
    decreases |h|
  {
    h == [] ||
    (h[0].Dispatched? && (|h| == 1 || (h[1] == Tracked(h[0].timestamp) && Paired(h[2..]))))
  }

  /** The scheduler is stuck: the flag is set and no job will ever clear it. */
  predicate Stuck(s: State) {
    s.computingDetection && s.pending.None?
  }

  /** What the rest of a run can look like, by the state it starts in. */
  predicate HandoffsFrom(s: State, h: seq<Handoff>) {
    if s.pending.Some? then h == [] || (h[0] == Tracked(s.pending.value.timestamp) && Paired(h[1..]))
    else if s.computingDetection then h == []
    else Paired(h)
  }

  lemma {:induction false} RunHandoffs(cfg: Config, s: State, es: seq<Event>)
    requires Inv(s) && Run(cfg, s, es).Some?
    ensures HandoffsFrom(s, Handoffs(Run(cfg, s, es).value.calls))
    decreases |es|
  {
    if es != [] {
      var o := Step(cfg, s, es[0]);
      StepPreservesInv(cfg, s, es[0]);
      StepProjections(cfg, s, es[0]);
      RunHandoffs(cfg, o.next, es[1..]);
      var rest := Run(cfg, o.next, es[1..]).value;
      FlatMapConcat(o.calls, rest.calls, HandoffOf);
      var h := Handoffs(o.calls);
      var h' := Handoffs(rest.calls);
      if h != [] {
        assert (h + h')[1..] == h';
        if h[0].Dispatched? && h' != [] {
          assert (h + h')[2..] == h'[1..];
        }
      } else {
        assert h + h' == h';
      }
    }
  }

  /**
   * From the start of a session, trackResults is always called with the timestamp that
   * the job captured when it was dispatched, and dispatches and trackResults alternate.
   */
  lemma TrackedWithSubmissionStamp(cfg: Config, es: seq<Event>)
    requires Run(cfg, Initial, es).Some?
    ensures Paired(Handoffs(Run(cfg, Initial, es).value.calls))
  {
    RunHandoffs(cfg, Initial, es);
  }

  /**
   * Without a try/finally around the job, once it throws the flag is never cleared:
   * every later frame is skipped, nothing is dispatched and nothing is tracked.
   */
  lemma {:induction false} StuckForever(cfg: Config, s: State, es: seq<Event>)
    requires Stuck(s) && Run(cfg, s, es).Some?
    ensures var o := Run(cfg, s, es).value;
      Stuck(o.next) && Count(o.calls, IsDispatch) == 0 && Handoffs(o.calls) == [] &&
      o.next.luminanceCopy == s.luminanceCopy
    decreases |es|
  {
    if es != [] {
      var o := Step(cfg, s, es[0]);
      StepProjections(cfg, s, es[0]);
      StuckForever(cfg, o.next, es[1..]);
      var rest := Run(cfg, o.next, es[1..]).value;
      CountConcat(o.calls, rest.calls, IsDispatch);
      FlatMapConcat(o.calls, rest.calls, HandoffOf);
    }
  }

  /**
   * While a detection is in flight, any number of frames only advance the counter: the
   * flag, the snapshot buffer, the job and the last inference time stay as they were,
   * nothing is dispatched or tracked, and each frame is handed back once.
   */
  lemma {:induction false} FramesWhileBusy(cfg: Config, s: State, es: seq<Event>)
    requires s.computingDetection
    requires forall i :: 0 <= i < |es| ==> es[i].FrameAvailable?
    ensures Run(cfg, s, es).Some?
    ensures var o := Run(cfg, s, es).value;
      o.next == s.(timestamp := s.timestamp + |es|) &&
      Count(o.calls, IsReady) == |es| && Count(o.calls, IsDispatch) == 0 && Handoffs(o.calls) == []
    decreases |es|
  {
    if es != [] {
      var o := Step(cfg, s, es[0]);
      StepProjections(cfg, s, es[0]);
      FramesWhileBusy(cfg, o.next, es[1..]);
      var rest := Run(cfg, o.next, es[1..]).value;
      CountConcat(o.calls, rest.calls, IsReady);
      CountConcat(o.calls, rest.calls, IsDispatch);
      FlatMapConcat(o.calls, rest.calls, HandoffOf);
    }
  }

  /**
   * Three frames while the first frame's job runs, then the job returns with no
   * results, then a fourth frame: trackResults gets timestamp 1 and the first frame's
   * plane although the counter is at 3, and the fourth frame is submitted again.
   */
  lemma SkipWhileBusyExample(cfg: Config, a: seq<int8>, b: seq<int8>, c: seq<int8>, d: seq<int8>)
    requires |a| == |b| == |c| == |d|
    ensures
      var es := [FrameAvailable(a), FrameAvailable(b), FrameAvailable(c), InferenceReturned([], 300), FrameAvailable(d)];
      Run(cfg, Initial, es).Some? &&
      var o := Run(cfg, Initial, es).value;
      o.next == State(true, 4, Some(d), 300, Some(Job(4, d))) &&
      |o.calls| > 13 && o.calls[13] == TrackResults([], a, 1) &&
      Handoffs(o.calls) == [Dispatched(1), Tracked(1), Dispatched(4)]
  {
    ExampleRun(cfg, a, b, c, d);
    ExampleHandoffs(a, b, c, d);
  }

  lemma ExampleHandoffs(a: seq<int8>, b: seq<int8>, c: seq<int8>, d: seq<int8>)
    ensures
      var calls :=
        [OnFrame(1, a), PostInvalidate, SetPixels, CopyLuminance(a), ReadyForNextImage, RenderCrop, Dispatch(1)] +
        ([OnFrame(2, b), PostInvalidate, ReadyForNextImage] +
        ([OnFrame(3, c), PostInvalidate, ReadyForNextImage] +
        ([TrackResults([], a, 1), PostInvalidate, RequestRender] +
        [OnFrame(4, d), PostInvalidate, SetPixels, CopyLuminance(d), ReadyForNextImage, RenderCrop, Dispatch(4)])));
      |calls| > 13 && calls[13] == TrackResults([], a, 1) &&
      Handoffs(calls) == [Dispatched(1), Tracked(1), Dispatched(4)]
  {
    var c1 := [OnFrame(1, a), PostInvalidate, SetPixels, CopyLuminance(a), ReadyForNextImage, RenderCrop, Dispatch(1)];
    var c2 := [OnFrame(2, b), PostInvalidate, ReadyForNextImage];
    var c3 := [OnFrame(3, c), PostInvalidate, ReadyForNextImage];
    var c4 := [TrackResults([], a, 1), PostInvalidate, RequestRender];
    var c5 := [OnFrame(4, d), PostInvalidate, SetPixels, CopyLuminance(d), ReadyForNextImage, RenderCrop, Dispatch(4)];
    var calls := c1 + (c2 + (c3 + (c4 + c5)));
    assert calls[13] == TrackResults([], a, 1);
    assert Handoffs(c1) == [Dispatched(1)] by { FlatMapAtMostOne(c1, HandoffOf, 6); }
    assert Handoffs(c2) == [] by { FlatMapAtMostOne(c2, HandoffOf, -1); }
    assert Handoffs(c3) == [] by { FlatMapAtMostOne(c3, HandoffOf, -1); }
    assert Handoffs(c4) == [Tracked(1)] by { FlatMapAtMostOne(c4, HandoffOf, 0); }
    assert Handoffs(c5) == [Dispatched(4)] by { FlatMapAtMostOne(c5, HandoffOf, 6); }
    HandoffsOfFive(c1, c2, c3, c4, c5);
    assert [Dispatched(1)] + ([] + ([] + ([Tracked(1)] + [Dispatched(4)]))) ==
      [Dispatched(1), Tracked(1), Dispatched(4)];
  }

  lemma HandoffsOfFive(c1: seq<Call>, c2: seq<Call>, c3: seq<Call>, c4: seq<Call>, c5: seq<Call>)
    ensures Handoffs(c1 + (c2 + (c3 + (c4 + c5)))) ==
      Handoffs(c1) + (Handoffs(c2) + (Handoffs(c3) + (Handoffs(c4) + Handoffs(c5))))
  {
    FlatMapConcat(c4, c5, HandoffOf);
    FlatMapConcat(c3, c4 + c5, HandoffOf);
    FlatMapConcat(c2, c3 + (c4 + c5), HandoffOf);
    FlatMapConcat(c1, c2 + (c3 + (c4 + c5)), HandoffOf);
  }

  /** The run of SkipWhileBusyExample, event by event. */
  lemma ExampleRun(cfg: Config, a: seq<int8>, b: seq<int8>, c: seq<int8>, d: seq<int8>)
    requires |a| == |b| == |c| == |d|
    ensures
      var es := [FrameAvailable(a), FrameAvailable(b), FrameAvailable(c), InferenceReturned([], 300), FrameAvailable(d)];
      Run(cfg, Initial, es) == Some(Outcome(State(true, 4, Some(d), 300, Some(Job(4, d))),
        [OnFrame(1, a), PostInvalidate, SetPixels, CopyLuminance(a), ReadyForNextImage, RenderCrop, Dispatch(1)] +
        ([OnFrame(2, b), PostInvalidate, ReadyForNextImage] +
        ([OnFrame(3, c), PostInvalidate, ReadyForNextImage] +
        ([TrackResults([], a, 1), PostInvalidate, RequestRender] +
        [OnFrame(4, d), PostInvalidate, SetPixels, CopyLuminance(d), ReadyForNextImage, RenderCrop, Dispatch(4)])))))
  {
    var es := [FrameAvailable(a), FrameAvailable(b), FrameAvailable(c), InferenceReturned([], 300), FrameAvailable(d)];
    var s1 := State(true, 1, Some(a), 0, Some(Job(1, a)));
    var s2 := s1.(timestamp := 2);
    var s3 := s1.(timestamp := 3);
    var s4 := State(false, 3, Some(a), 300, None);
    var s5 := State(true, 4, Some(d), 300, Some(Job(4, d)));
    var c1 := [OnFrame(1, a), PostInvalidate, SetPixels, CopyLuminance(a), ReadyForNextImage, RenderCrop, Dispatch(1)];
    var c2 := [OnFrame(2, b), PostInvalidate, ReadyForNextImage];
    var c3 := [OnFrame(3, c), PostInvalidate, ReadyForNextImage];
    var c4 := [TrackResults([], a, 1), PostInvalidate, RequestRender];
    var c5 := [OnFrame(4, d), PostInvalidate, SetPixels, CopyLuminance(d), ReadyForNextImage, RenderCrop, Dispatch(4)];
    assert Enabled(s4, es[4]) && Step(cfg, s4, es[4]) == Outcome(s5, c5) by {
      assert CopyPlane(d, Some(a)) == d;
    }
    assert Run(cfg, s4, es[4..]) == Some(Outcome(s5, c5)) by {
      assert es[4..] == [es[4]] && es[4..][1..] == [];
      assert c5 + [] == c5;
      RunCons(cfg, s4, es[4..]);
    }
    assert Enabled(s3, es[3]) && Step(cfg, s3, es[3]) == Outcome(s4, c4) by {
      assert FilterAndRemap([], MinimumConfidence(cfg.mode), cfg.cropToFrame) == Mapped([]);
    }
    assert Run(cfg, s3, es[3..]) == Some(Outcome(s5, c4 + c5)) by {
      assert es[3..][0] == es[3] && es[3..][1..] == es[4..];
      RunCons(cfg, s3, es[3..]);
    }
    assert Enabled(s2, es[2]) && Step(cfg, s2, es[2]) == Outcome(s3, c3);
    assert Run(cfg, s2, es[2..]) == Some(Outcome(s5, c3 + (c4 + c5))) by {
      assert es[2..][0] == es[2] && es[2..][1..] == es[3..];
      RunCons(cfg, s2, es[2..]);
    }
    assert Enabled(s1, es[1]) && Step(cfg, s1, es[1]) == Outcome(s2, c2);
    assert Run(cfg, s1, es[1..]) == Some(Outcome(s5, c2 + (c3 + (c4 + c5)))) by {
      assert es[1..][0] == es[1] && es[1..][1..] == es[2..];
      RunCons(cfg, s1, es[1..]);
    }
    assert Enabled(Initial, es[0]) && Step(cfg, Initial, es[0]) == Outcome(s1, c1) by {
      assert CopyPlane(a, None) == a;
    }
    RunCons(cfg, Initial, es);
  }

  /** One unfolding of Run. */
  lemma RunCons(cfg: Config, s: State, es: seq<Event>)
    requires es != [] && Enabled(s, es[0])
    requires Run(cfg, Step(cfg, s, es[0]).next, es[1..]).Some?
    ensures var o := Step(cfg, s, es[0]);
      var rest := Run(cfg, o.next, es[1..]).value;
      Run(cfg, s, es) == Some(Outcome(rest.next, o.calls + rest.calls))
  {
  }
}

/**
 * DetectorActivity's per-frame state and the two halves of processImage: the part that
 * runs for each camera frame, and the detection job it hands to `runInBackground`. Each
 * method is one event that runs as a whole: frames and jobs interleave in any order,
 * but never inside one another (a frame arriving while a job is between trackResults
 * and clearing the flag is not modelled). Each method is proved to take exactly one
 * step of Scheduler.Step, so the properties proved there (single flight, one ready
 * signal per frame, the captured timestamp reaching trackResults) hold of this class.
 */
module Activity {
  import opened Types
  import opened Modes
  import opened Recognitions
  import opened Scheduler

  /** `System.arraycopy(src, 0, dst, 0, length)` for two distinct arrays. */
  method ArrayCopy(src: array<int8>, dst: array<int8>, length: nat)
    requires src != dst && length <= src.Length && length <= dst.Length
    modifies dst
    ensures dst[..length] == src[..length]
    ensures dst[length..] == old(dst[length..])
  {
    var i := 0;
    while i < length
      invariant 0 <= i <= length
      invariant dst[..i] == src[..i]
      invariant dst[length..] == old(dst[length..])
    {
      dst[i] := src[i];
      i := i + 1;
      assert dst[..i] == dst[..i - 1] + [dst[i - 1]];
    }
  }

  class DetectorActivity {
    /** The detector mode and `cropToFrameTransform`, fixed when the preview size is chosen. */
    const config: Config

    var computingDetection: bool
    var timestamp: int
    var luminanceCopy: array?<int8>
    var lastProcessingTimeMs: int

    /** The `currTimestamp` captured by the job in flight, if there is one. */
    var pendingTimestamp: Option<int>
    /** The luminance plane of the frame the job in flight was submitted for. */
    ghost var pendingLuminance: seq<int8>
    /** Every call made to the tracker, camera, overlay and background thread, in order. */
    ghost var calls: seq<Call>

    ghost function Abstract(): (st: State)
      reads this, luminanceCopy
    {
      State(
        computingDetection, timestamp,
        if luminanceCopy == null then None else Some(luminanceCopy[..]),
        lastProcessingTimeMs,
        if pendingTimestamp.None? then None else Some(Job(pendingTimestamp.value, pendingLuminance)))
    }

    ghost predicate Valid()
      reads this, luminanceCopy
    {
      Inv(Abstract())
    }

    constructor (config: Config)
      ensures this.config == config && Valid()
      ensures Abstract() == Initial && calls == []
    {
      this.config := config;
      computingDetection := false;
      timestamp := 0;
      luminanceCopy := null;
      lastProcessingTimeMs := 0;
      pendingTimestamp := None;
      pendingLuminance := [];
      calls := [];
    }

    /**
     * processImage up to the dispatch: a frame with luminance plane `luminance`.
     * The camera's plane is never the activity's own snapshot buffer.
     */
    method ProcessImage(luminance: array<int8>)
      requires Valid() && luminance != luminanceCopy
      requires Enabled(Abstract(), FrameAvailable(luminance[..]))
      modifies this, luminanceCopy
      ensures Valid()
      ensures luminanceCopy == old(luminanceCopy) || (old(luminanceCopy) == null && fresh(luminanceCopy))
      ensures var o := Step(config, old(Abstract()), FrameAvailable(luminance[..]));
        Abstract() == o.next && calls == old(calls) + o.calls
    {
      ghost var before := Abstract();
      ghost var lum := luminance[..];
      ghost var o := Step(config, before, FrameAvailable(lum));
      StepPreservesInv(config, before, FrameAvailable(lum));
      timestamp := timestamp + 1;
      var currTimestamp := timestamp;
      // The calls of this invocation, in order; appended to `calls` when it returns.
      ghost var log := [OnFrame(currTimestamp, lum), PostInvalidate];

      if computingDetection {
        log := log + [ReadyForNextImage];
        calls := calls + log;
        return;
      }
      computingDetection := true;
      log := log + [SetPixels];

      if luminanceCopy == null {
        luminanceCopy := new int8[luminance.Length](_ => 0);
      }
      ghost var buffer := luminanceCopy[..];
      ArrayCopy(luminance, luminanceCopy, luminance.Length);
      CopyPlaneIs(lum, before.luminanceCopy, buffer, luminanceCopy[..]);
      // The entry holds what the copy left in the buffer, so it can only follow the copy.
      assert luminanceCopy[..luminance.Length] == lum;
      log := log + [CopyLuminance(luminanceCopy[..luminance.Length])];
      log := log + [ReadyForNextImage];

      log := log + [RenderCrop];
      pendingTimestamp := Some(currTimestamp);
      pendingLuminance := lum;
      log := log + [Dispatch(currTimestamp)];
      calls := calls + log;
    }

    /**
     * The background job, when `recognizeImage` returns `results` after `elapsedMs`
     * milliseconds. The results are filtered and remapped in place; if every result
     * could be examined and the snapshot buffer exists, the tracker gets them with the
     * job's captured timestamp, and only then is the flag cleared. Otherwise the job
     * ends by throwing and the flag stays set.
     */
    method RunDetection(results: seq<Recognition>, elapsedMs: int)
      requires Valid() && pendingTimestamp.Some? && Distinct(results)
      modifies this, set r | r in results
      ensures Valid()
      ensures luminanceCopy == old(luminanceCopy)
      ensures var o := Step(config, old(Abstract()), InferenceReturned(old(Views(results)), elapsedMs));
        Abstract() == o.next && calls == old(calls) + o.calls
      ensures forall i :: 0 <= i < |results| ==>
        results[i].View() ==
          if i < FirstMissingConfidence(old(Views(results)))
          then Remapped(old(results[i].View()), MinimumConfidence(config.mode), config.cropToFrame)
          else old(results[i].View())
    {
      ghost var before := Abstract();
      ghost var ds := Views(results);
      StepPreservesInv(config, before, InferenceReturned(ds, elapsedMs));
      var currTimestamp := pendingTimestamp.value;
      lastProcessingTimeMs := elapsedMs;

      var minimumConfidence := MinimumConfidence(config.mode);
      var mappedRecognitions, completed := FilterAndRemapInPlace(results, minimumConfidence, config.cropToFrame);
      FilterAndRemapCharacterized(ds, minimumConfidence, config.cropToFrame);

      pendingTimestamp := None;
      if !completed || luminanceCopy == null {
        // `result.confidence!!` or `luminanceCopy!!` threw: the flag is never cleared.
        return;
      }
      ghost var tracked := Views(mappedRecognitions);
      assert FilterAndRemap(ds, minimumConfidence, config.cropToFrame) == Mapped(tracked);
      calls := calls + [TrackResults(tracked, luminanceCopy[..], currTimestamp), PostInvalidate, RequestRender];
      computingDetection := false;
    }

    /**
     * The background job, when `recognizeImage` throws (or the detector is null). Nothing
     * after the call runs, so the flag stays set: there is no try/finally around it.
     */
    method RecognizeImageThrew()
      requires Valid() && pendingTimestamp.Some?
      modifies this
      ensures Valid()
      ensures var o := Step(config, old(Abstract()), InferenceThrew);
        Abstract() == o.next && calls == old(calls) + o.calls
    {
      pendingTimestamp := None;
    }
  }
}

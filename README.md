# DetectorActivity frame scheduler, in Dafny

This project models the core of `DetectorActivity`, the Android activity of the
ObjectDetectorAndroidKotlin demo that runs an object detector on camera frames. It proves
properties of the model. The model covers four parts:

- **The single-flight frame scheduler in `processImage`.**
  - Every camera frame advances the `timestamp` counter and feeds the tracker's `onFrame`.
  - If a detection is already running (`computingDetection`), the frame is handed back at once.
  - Otherwise the frame's luminance plane is copied into the lazily allocated
    `luminanceCopy` buffer, and a detection job is dispatched to the background thread.
    The job captures the frame's timestamp.
  - When the job returns, its results are filtered and remapped. They go to the tracker
    with the captured timestamp and the snapshot buffer, and only then is the flag
    cleared.
- **The confidence filter and remap.** A result is kept when it has a location and a
  confidence of at least the mode's threshold. A kept result's location is rewritten in
  place through `cropToFrameTransform.mapRect`.
- **The mode tables.** For each detector mode: the confidence threshold, the crop
  (model input) size, the `MAINTAIN_ASPECT` rule, and which detector is created.
- **The debug overlay's text lines.** First the detector's stat string, split at
  newlines with trailing empty pieces dropped. Then an empty line. Then the Frame,
  Crop, View, Rotation and Inference-time lines.

Modules:

- `Types`: `Option`, the `int8` byte type, and `Size`.
- `Modes`: the per-mode settings.
- `Recognitions`:
  - the filter as a pure function (`FilterAndRemap`);
  - two independent characterisations of it (`KeptIndices`, `FirstMissingConfidence`);
  - one pass of the loop body on one result object (`VisitResult`);
  - a `Recognition` class whose `location` is a mutable field;
  - the loop itself as a method over those objects (`FilterAndRemapInPlace`).
- `Scheduler`: the scheduler as a pure state machine (`Step`, `Run`) over states and
  events, with lemmas about whole runs. Calls to collaborators are the output of each
  step: the tracker, the camera's `readyForNextImage`, the overlay, and `runInBackground`.
- `Activity`: the class `DetectorActivity`.
  - It has the source's mutable fields and a real `array` snapshot buffer, filled by an
    `arraycopy` loop.
  - Collaborator calls are recorded in a ghost log.
  - Each of its methods is proved to take exactly one `Scheduler.Step`. So the run
    lemmas of `Scheduler` hold of the class.
- `DebugOverlay`: line splitting and joining, decimal number text, and the overlay's
  line list.

A failed job leaves the busy flag set, as the code is written:

- Nothing around `recognizeImage` catches or finally-clears. A throw there, a null
  confidence read with `!!` on a result that has a location, or a null
  `luminanceCopy!!` each end the job before `computingDetection = false`.
- So the flag stays set, and every later frame is skipped (`Scheduler.StuckForever`).

The confidence thresholds are Kotlin `Float` literals (`0.6f`, `0.1f`, `0.25f`). Each
is modelled as the exact binary32 value the literal denotes, so a confidence of exactly
`0.6f` passes the TF_OD_API threshold.

## Model

All source paths are under `app/src/main/java/com/demo/objectdetector/myapplication/`,
written out in full below.

| member | source | states |
|---|---|---|
| Modes.InputSize | app/src/main/java/com/demo/objectdetector/myapplication/DetectorActivity.kt:298-318 | each mode's model input size (MULTIBOX 224, TF_OD_API 300, YOLO 416) is a positive crop side |
| Modes.MinimumConfidence | app/src/main/java/com/demo/objectdetector/myapplication/DetectorActivity.kt:252-259 | the `when (MODE)` threshold is strictly between 0 and 1 for every mode |
| Modes.MaintainAspect | app/src/main/java/com/demo/objectdetector/myapplication/DetectorActivity.kt:330 | `MAINTAIN_ASPECT`; its contract is stated in `Modes.ModeSettings`: it holds iff the mode is YOLO |
| Modes.ChooseDetector | app/src/main/java/com/demo/objectdetector/myapplication/DetectorActivity.kt:89-127 | the crop size is the mode's input size; the detector is missing (and the activity finishes) exactly when the TF_OD_API model fails to load; otherwise the detector is the mode's own |
| Modes.ModeSettings | app/src/main/java/com/demo/objectdetector/myapplication/DetectorActivity.kt:326-330 | the table TF_OD_API 0.6f/300, MULTIBOX 0.1f/224, YOLO 0.25f/416, and MAINTAIN_ASPECT holds iff the mode is YOLO |
| Modes.ThresholdsNearTheirLiterals | app/src/main/java/com/demo/objectdetector/myapplication/DetectorActivity.kt:326-328 | each Float threshold lies within one binary32 step above the decimal it is written as |
| Recognitions.FilterAndRemap | app/src/main/java/com/demo/objectdetector/myapplication/DetectorActivity.kt:261-272 | the result loop as written, appending one remapped result at a time; what it computes is stated in `Recognitions.FilterAndRemapCharacterized` and `Recognitions.FilterAndRemapSelects` (kept results in order, or the throw at the first missing confidence) |
| Recognitions.FirstMissingConfidence | app/src/main/java/com/demo/objectdetector/myapplication/DetectorActivity.kt:263-265 | the position where `confidence!!` first throws (a located result with no confidence): nothing before it throws, and the element there does; or the list length if none throws |
| Recognitions.KeptIndicesExactly | app/src/main/java/com/demo/objectdetector/myapplication/DetectorActivity.kt:265 | the positions of the kept results are strictly increasing, each is kept, and every kept position is among them |
| Recognitions.FilterAndRemapCharacterized | app/src/main/java/com/demo/objectdetector/myapplication/DetectorActivity.kt:261-272 | the loop throws at the first missing confidence if there is one; otherwise it yields the remapped kept results in input order |
| Recognitions.FilterAndRemapSelects | app/src/main/java/com/demo/objectdetector/myapplication/DetectorActivity.kt:261-272 | the loop completes iff no result throws; then its output lines up with the kept positions, each entry has the original title and confidence, a confidence at least the threshold, and the mapped location; a position is kept iff the result has a location and a high enough confidence |
| Recognitions.VisitResult | app/src/main/java/com/demo/objectdetector/myapplication/DetectorActivity.kt:263-270 | one pass of the loop body: it throws iff the result has a location but no confidence; it keeps the result iff the location is present and the confidence reaches the threshold; a kept result's location becomes its mapped box, anything else is untouched |
| Recognitions.FilterAndRemapInPlace | app/src/main/java/com/demo/objectdetector/myapplication/DetectorActivity.kt:261-272 | the in-place loop completes iff no confidence read throws; results before the stopping point have their location remapped if kept, the rest are untouched; on completion the list holds exactly the kept objects in order, with the pure filter's value |
| Recognitions.ThresholdExample | app/src/main/java/com/demo/objectdetector/myapplication/DetectorActivity.kt:252-270 | under TF_OD_API, confidences 0.5, 0.6f and 0.9 keep the last two, in order, remapped |
| Scheduler.Step | app/src/main/java/com/demo/objectdetector/myapplication/DetectorActivity.kt:202-280 | one event of the scheduler: a frame (the body of processImage up to `runInBackground`) or a job returning or throwing (the background block); its meaning is stated in `Scheduler.SkippedFrame`, `Scheduler.SubmittedFrame`, `Scheduler.CompletedJob`, `Scheduler.ThrowingJob`, `Scheduler.StepProjections` and `Scheduler.StepPreservesInv` |
| Scheduler.Run | app/src/main/java/com/demo/objectdetector/myapplication/DetectorActivity.kt:202-280 | a sequence of events taken one at a time, None when one cannot occur where it does; what any run does is stated in `Scheduler.RunFrames`, `Scheduler.RunSingleFlight`, `Scheduler.RunHandoffs`, `Scheduler.FramesWhileBusy` and `Scheduler.StuckForever` |
| Scheduler.CopyPlane | app/src/main/java/com/demo/objectdetector/myapplication/DetectorActivity.kt:226-229 | after the copy, the buffer starts with the plane; a new buffer is exactly the plane; an existing buffer keeps its length and its bytes past the plane |
| Scheduler.InitialInv | app/src/main/java/com/demo/objectdetector/myapplication/DetectorActivity.kt:53-67 | the initial fields are idle, with nothing in flight, and satisfy the invariant |
| Scheduler.StepPreservesInv | app/src/main/java/com/demo/objectdetector/myapplication/DetectorActivity.kt:202-280 | every frame or job completion keeps the invariant: a job in flight means the flag is set, its timestamp is not ahead of the counter, and the buffer still starts with its frame's plane |
| Scheduler.SkippedFrame | app/src/main/java/com/demo/objectdetector/myapplication/DetectorActivity.kt:217-220 | a frame while busy only advances the counter, and calls onFrame, postInvalidate and readyForNextImage once each; no copy, no render, no dispatch |
| Scheduler.SubmittedFrame | app/src/main/java/com/demo/objectdetector/myapplication/DetectorActivity.kt:221-239 | a frame while idle sets the flag, leaves the inference time as it was, dispatches a job with this frame's timestamp, leaves the plane at the start of the buffer, and logs, in order, onFrame, postInvalidate, setPixels, the `arraycopy` of this frame's plane into the snapshot buffer, one readyForNextImage, the crop render and the dispatch |
| Scheduler.CompletedJob | app/src/main/java/com/demo/objectdetector/myapplication/DetectorActivity.kt:274-278 | a returning job records its time and ends; if the filter completes, trackResults gets the filtered list, the captured timestamp and a snapshot starting with the submitted plane, followed by postInvalidate and requestRender, and the flag is cleared after them; if the filter throws, the flag stays set and nothing is tracked |
| Scheduler.ThrowingJob | app/src/main/java/com/demo/objectdetector/myapplication/DetectorActivity.kt:241-243 | a job whose recognizeImage throws ends with the flag still set and no calls |
| Scheduler.StepProjections | app/src/main/java/com/demo/objectdetector/myapplication/DetectorActivity.kt:202-280 | one step makes one ready signal and one onFrame per frame, a dispatch only for a frame arriving while idle, and a trackResults only for a returning job |
| Scheduler.RunFrames | app/src/main/java/com/demo/objectdetector/myapplication/DetectorActivity.kt:203-218 | over any run: as many ready signals as frames; the counter advances by the number of frames; onFrame gets the timestamps s+1, s+2, … in order |
| Scheduler.RunSingleFlight | app/src/main/java/com/demo/objectdetector/myapplication/DetectorActivity.kt:217-239 | over any run the invariant holds, and dispatches equal completed jobs plus the change in jobs in flight |
| Scheduler.AtMostOneInFlight | app/src/main/java/com/demo/objectdetector/myapplication/DetectorActivity.kt:217-278 | from the start of a session, dispatches exceed completions by at most one |
| Scheduler.RunHandoffs | app/src/main/java/com/demo/objectdetector/myapplication/DetectorActivity.kt:239-274 | from any valid state, the dispatch/trackResults sequence of a run continues the job in flight and then alternates, each trackResults carrying the timestamp its dispatch captured |
| Scheduler.TrackedWithSubmissionStamp | app/src/main/java/com/demo/objectdetector/myapplication/DetectorActivity.kt:204-274 | from the start of a session, dispatches and trackResults alternate, and trackResults gets the captured timestamp, not the counter's current value |
| Scheduler.FramesWhileBusy | app/src/main/java/com/demo/objectdetector/myapplication/DetectorActivity.kt:217-220 | any number of frames while busy change only the counter: the snapshot buffer, the flag and the job are unchanged, nothing is dispatched or tracked, and each frame is handed back once |
| Scheduler.StuckForever | app/src/main/java/com/demo/objectdetector/myapplication/DetectorActivity.kt:239-278 | once a job has thrown, the flag is never cleared again: nothing is dispatched or tracked and the buffer is unchanged |
| Scheduler.SkipWhileBusyExample | app/src/main/java/com/demo/objectdetector/myapplication/DetectorActivity.kt:202-280 | frames a, b, c, then the job returns empty, then frame d: trackResults gets the first plane with timestamp 1, and d is submitted with timestamp 4 |
| Activity.ArrayCopy | app/src/main/java/com/demo/objectdetector/myapplication/DetectorActivity.kt:229 | `System.arraycopy` overwrites the first `length` bytes of the destination with the source's and leaves the rest |
| Activity.DetectorActivity.constructor | app/src/main/java/com/demo/objectdetector/myapplication/DetectorActivity.kt:53-67 | the fields start at the scheduler's initial state, with an empty call log |
| Activity.DetectorActivity.ProcessImage | app/src/main/java/com/demo/objectdetector/myapplication/DetectorActivity.kt:202-239 | the frame half of processImage moves the fields and the call log exactly as one frame step of the scheduler, allocating the buffer only when it is null; the copy entry in the log holds what `arraycopy` left in the buffer, so the buffer is handed back only after the copy |
| Activity.DetectorActivity.RunDetection | app/src/main/java/com/demo/objectdetector/myapplication/DetectorActivity.kt:239-279 | the job, when recognizeImage returns, moves the fields and the call log exactly as one completion step, and remaps the visited results' locations in place |
| Activity.DetectorActivity.RecognizeImageThrew | app/src/main/java/com/demo/objectdetector/myapplication/DetectorActivity.kt:241-242 | the job, when recognizeImage throws, is one throwing step: the job ends and the flag stays set |
| DebugOverlay.SplitLines | app/src/main/java/com/demo/objectdetector/myapplication/DetectorActivity.kt:183 | splitting on newlines gives at least one piece, and no piece holds a newline |
| DebugOverlay.JoinSplitLines | app/src/main/java/com/demo/objectdetector/myapplication/DetectorActivity.kt:183 | joining the split pieces with newlines gives the string back |
| DebugOverlay.SplitJoinLines | app/src/main/java/com/demo/objectdetector/myapplication/DetectorActivity.kt:183 | splitting the join of a non-empty list of newline-free pieces gives the list back |
| DebugOverlay.DropTrailingEmpty | app/src/main/java/com/demo/objectdetector/myapplication/DetectorActivity.kt:183 | `dropLastWhile { it.isEmpty() }` keeps a prefix whose last piece is not empty, and drops only empty pieces |
| DebugOverlay.StatLines | app/src/main/java/com/demo/objectdetector/myapplication/DetectorActivity.kt:181-184 | the stat string split on newlines with trailing empty pieces dropped; stated in `DebugOverlay.StatLinesAreTrimmedStat`: joined, they are the stat string without its trailing newlines, with no newline inside and a non-empty last line |
| DebugOverlay.StatLinesAreTrimmedStat | app/src/main/java/com/demo/objectdetector/myapplication/DetectorActivity.kt:180-188 | the stat lines have no newlines, their last one is not empty, and joined they are the stat string without its trailing newlines |
| DebugOverlay.DecimalString | app/src/main/java/com/demo/objectdetector/myapplication/DetectorActivity.kt:194-195 | an `Int`/`Long` as Kotlin writes it in a string template; stated in `DebugOverlay.DecimalRoundTrip`: an optional minus sign (present exactly for negatives) and digits that read back as the number |
| DebugOverlay.DecimalRoundTrip | app/src/main/java/com/demo/objectdetector/myapplication/DetectorActivity.kt:191-195 | a number written in decimal, with a minus sign exactly when it is negative, reads back as the same number |
| DebugOverlay.DiagnosticLines | app/src/main/java/com/demo/objectdetector/myapplication/DetectorActivity.kt:191-195 | the Frame, Crop, View, Rotation and Inference-time lines in that order; their place in the overlay is stated in `DebugOverlay.DebugLinesLayout` and their numbers read back by `DebugOverlay.DecimalRoundTrip` |
| DebugOverlay.DebugLines | app/src/main/java/com/demo/objectdetector/myapplication/DetectorActivity.kt:162-195 | the overlay's line list, None on the early return; stated in `DebugOverlay.DebugLinesLayout` |
| DebugOverlay.DebugLinesLayout | app/src/main/java/com/demo/objectdetector/myapplication/DetectorActivity.kt:179-195 | lines are drawn iff debug is on and a crop copy exists; then the stat lines come first (none without a detector), then "", then the Frame, Crop, View, Rotation and Inference-time lines in that order. The lines before "" read back as the stat string: joined with newlines they are the stat string without its trailing newlines, none holds a newline and the last is not empty. The positions themselves are only the list concatenation |

## Left out

- LegacyCameraConnectionFragment.kt is not part of this model. It is camera hardware and preview-surface lifecycle only.
- Bitmap, Canvas and Paint drawing are left out: `setPixels`, the crop render, `drawRect` on the crop copy, and the overlay's background and bitmap scaling. `setPixels` and the crop render appear only as recorded calls.
- The construction and inversion of `frameToCropTransform` / `cropToFrameTransform` are left out; `mapRect` is an arbitrary function on boxes, fixed for the session.
- The detector, the tracker and `runInBackground` are collaborators. Their calls are recorded, not their internals.
- Real threads are left out. The frame path (one call of processImage up to `runInBackground`) and the background job (from `recognizeImage` to `computingDetection = false`) are each one event that runs as a whole; events interleave in any order, but no event starts inside another. A real frame skipped while the job sits between `trackResults` and the flag clear would log its `onFrame` between the two; the model has no such order. The proved counts and alternations do not depend on it.
- `SystemClock` is left out: the inference time is a parameter of the completion event.
- Logging, the Toast shown when the TF_OD_API model fails to load, `SAVE_PREVIEW_BITMAP` file output and `TypedValue` text sizing are left out.
- `getLayoutId`, `getDesiredPreviewFrameSize` and `onSetDebug` are left out. They return a constant or forward to the detector.
- The 64-bit `Long` range of `timestamp` and `lastProcessingTimeMs` is not modelled; both are unbounded integers. Wrap-around would need 2^63 frames.
- Float confidences and box coordinates are modelled as reals. Confidences are only compared, and each threshold is the exact value of its Float literal.
- Activity.DetectorActivity.ProcessImage: requires the frame to be enabled, which excludes a plane longer than an existing snapshot buffer. In the code, `System.arraycopy` would throw there after `computingDetection` was set.
- Activity.DetectorActivity.RunDetection: requires the results list to hold distinct objects. The in-place remap of a list holding one object twice is not modelled.
- Recognitions.FilterAndRemapInPlace: requires distinct objects, as above. Boxes are values, so two results sharing one `RectF` are not modelled.
- `cropCopyBitmap`, the crop copy the debug overlay reads, is a parameter of `DebugOverlay.DebugLines`. The scheduler does not track it; in the code it is created once the first job's `recognizeImage` returns.
- The detector mode is a constant (`Modes.Mode`, TF_OD_API), but every table is modelled for all three modes. A failed YOLO or MULTIBOX creation is not caught in the code; `Modes.ChooseDetector` takes those creators as succeeding.

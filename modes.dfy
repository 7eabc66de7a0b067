/**
 * The detector variants of DetectorActivity and the settings that depend on the
 * variant: the model's input (crop) size, the minimum confidence a detection needs
 * to be tracked, and whether the frame-to-crop transform keeps the aspect ratio.
 */
module Modes {
  import opened Types

  /** `DetectorMode`: TF_OD_API, MULTIBOX and YOLO. */
  datatype DetectorMode = TfOdApi | MultiBox | Yolo

  /** The mode the activity is built with (`MODE`). */
  const Mode: DetectorMode := TfOdApi

  const MultiBoxInputSize: int := 224
  const TfOdApiInputSize: int := 300
  const YoloInputSize: int := 416

  // The confidence thresholds are Kotlin `Float` literals; each constant is the exact
  // value of the binary32 number the literal denotes (0.6f, 0.1f and 0.25f).
  const MinimumConfidenceTfOdApi: real := 0.60000002384185791015625
  const MinimumConfidenceMultiBox: real := 0.100000001490116119384765625
  const MinimumConfidenceYolo: real := 0.25

  /** Input size of the model a mode loads; the crop is a square of this side. */
  function InputSize(mode: DetectorMode): (size: int)
    ensures size > 0
  {
    match mode
    case TfOdApi => TfOdApiInputSize
    case MultiBox => MultiBoxInputSize
    case Yolo => YoloInputSize
  }

  /** The threshold chosen by the `when (MODE)` in the detection job. */
  function MinimumConfidence(mode: DetectorMode): (threshold: real)
    ensures 0.0 < threshold < 1.0
  {
    match mode
    case TfOdApi => MinimumConfidenceTfOdApi
    case MultiBox => MinimumConfidenceMultiBox
    case Yolo => MinimumConfidenceYolo
  }

  /** `MAINTAIN_ASPECT`: only the YOLO input is produced with the aspect ratio kept. */
  function MaintainAspect(mode: DetectorMode): (maintain: bool) {
    mode == Yolo
  }

  /** What onPreviewSizeChosen ends up with after trying to create the detector. */
  datatype DetectorSetup = DetectorSetup(cropSize: int, detector: Option<DetectorMode>, finished: bool)

  /**
   * The detector-creation branch of onPreviewSizeChosen. `cropSize` starts at the
   * TF_OD_API size and each branch that creates a detector sets it to that model's
   * size. Only the TF_OD_API branch catches a failed model load (`IOException`):
   * the detector then stays null, the crop size keeps its initial value and the
   * activity finishes. The other two creators' failures are not caught. The mode
   * defaults to the one the activity is built with.
   */
  function ChooseDetector(tfModelLoads: bool, mode: DetectorMode := Mode): (setup: DetectorSetup)
    ensures setup.cropSize == InputSize(mode)
    ensures setup.detector.None? <==> mode == TfOdApi && !tfModelLoads
    ensures setup.detector.Some? ==> setup.detector.value == mode
    ensures setup.finished <==> setup.detector.None?
  {
    var cropSize := TfOdApiInputSize;
    if mode == Yolo then
      DetectorSetup(YoloInputSize, Some(Yolo), false)
    else if mode == MultiBox then
      DetectorSetup(MultiBoxInputSize, Some(MultiBox), false)
    else if tfModelLoads then
      DetectorSetup(TfOdApiInputSize, Some(TfOdApi), false)
    else
      DetectorSetup(cropSize, None, true)
  }

  /** The settings of each mode, as one table. */
  lemma ModeSettings()
    ensures MinimumConfidence(TfOdApi) == MinimumConfidenceTfOdApi && InputSize(TfOdApi) == 300 && !MaintainAspect(TfOdApi)
    ensures MinimumConfidence(MultiBox) == MinimumConfidenceMultiBox && InputSize(MultiBox) == 224 && !MaintainAspect(MultiBox)
    ensures MinimumConfidence(Yolo) == MinimumConfidenceYolo && InputSize(Yolo) == 416 && MaintainAspect(Yolo)
    ensures forall m: DetectorMode :: MaintainAspect(m) <==> m == Yolo
  {
  }

  /**
   * Each threshold lies within one binary32 step (2^-24 near 0.6, 2^-27 near 0.1)
   * above the decimal it was written as, so for any confidence that is itself a
   * binary32 number, comparing with the threshold equals comparing with the decimal.
   */
  lemma ThresholdsNearTheirLiterals()
    ensures 0.6 <= MinimumConfidenceTfOdApi < 0.6 + 1.0 / 16777216.0
    ensures 0.1 <= MinimumConfidenceMultiBox < 0.1 + 1.0 / 134217728.0
    ensures MinimumConfidenceYolo == 0.25
  {
  }
}

/**
 * The confidence filter and crop-to-frame remap of the detection job
 * (DetectorActivity.processImage, the `for (result in results)` loop).
 *
 * A result is kept when its location is non-null and its confidence is at least the
 * threshold; a kept result's location is rewritten through `cropToFrameTransform.mapRect`,
 * which this model takes as an arbitrary function on boxes. The confidence is read with
 * `!!`, so a result whose location is non-null and whose confidence is null makes the
 * loop throw; a result without a location is dropped before its confidence is read.
 */
module Recognitions {
  import opened Types
  import Modes

  /** An `android.graphics.RectF` bounding box. */
  datatype Box = Box(left: real, top: real, right: real, bottom: real)

  /** The value of a `Classifier.Recognition`: label, nullable confidence, nullable location. */
  datatype Detection = Detection(title: string, confidence: Option<real>, location: Option<Box>)

  /** What the loop produces: the mapped list, or the index at which `confidence!!` threw. */
  datatype FilterOutcome = Mapped(recognitions: seq<Detection>) | ConfidenceMissing(index: nat)

  predicate Kept(d: Detection, minimumConfidence: real) {
    d.location.Some? && d.confidence.Some? && d.confidence.value >= minimumConfidence
  }

  /** `result.confidence!!` is evaluated and throws. */
  predicate ConfidenceThrows(d: Detection) {
    d.location.Some? && d.confidence.None?
  }

  /** The result after its visit by the loop: a kept result's location is mapped to frame space. */
  function Remapped(d: Detection, minimumConfidence: real, mapRect: Box -> Box): (r: Detection) {
    if Kept(d, minimumConfidence) then d.(location := Some(mapRect(d.location.value))) else d
  }

  /** The loop over `results`, one element at a time, appending to `mappedRecognitions`. */
  function FilterAndRemap(ds: seq<Detection>, minimumConfidence: real, mapRect: Box -> Box): (outcome: FilterOutcome)
    decreases |ds|
  {
    if ds == [] then Mapped([])
    else
      var last := ds[|ds| - 1];
      match FilterAndRemap(ds[..|ds| - 1], minimumConfidence, mapRect)
      case ConfidenceMissing(k) => ConfidenceMissing(k)
      case Mapped(out) =>
        if ConfidenceThrows(last) then ConfidenceMissing(|ds| - 1)
        else if Kept(last, minimumConfidence) then Mapped(out + [Remapped(last, minimumConfidence, mapRect)])
        else Mapped(out)
  }

  /** The position of the first result whose confidence read throws, or |ds| if none does. */
  function FirstMissingConfidence(ds: seq<Detection>): (k: nat)
    ensures k <= |ds|
    ensures forall j :: 0 <= j < k ==> !ConfidenceThrows(ds[j])
    ensures k < |ds| ==> ConfidenceThrows(ds[k])
    decreases |ds|
  {
    if ds == [] then 0
    else
      var k := FirstMissingConfidence(ds[..|ds| - 1]);
      if k < |ds| - 1 then k
      else if ConfidenceThrows(ds[|ds| - 1]) then |ds| - 1
      else |ds|
  }

  /** The positions of the results that pass the filter, in increasing order. */
  function KeptIndices(ds: seq<Detection>, minimumConfidence: real): (ks: seq<nat>)
    ensures forall j :: 0 <= j < |ks| ==> ks[j] < |ds|
    decreases |ds|
  {
    if ds == [] then []
    else
      KeptIndices(ds[..|ds| - 1], minimumConfidence)
        + (if Kept(ds[|ds| - 1], minimumConfidence) then [|ds| - 1] else [])
  }

  /**
   * KeptIndices lists exactly the kept positions, in increasing order: each entry is a
   * kept position, the entries increase strictly, and every kept position is listed.
   */
  lemma {:induction false} KeptIndicesExactly(ds: seq<Detection>, minimumConfidence: real)
    ensures var ks := KeptIndices(ds, minimumConfidence);
      (forall j :: 0 <= j < |ks| ==> Kept(ds[ks[j]], minimumConfidence)) &&
      (forall j, j' :: 0 <= j < j' < |ks| ==> ks[j] < ks[j']) &&
      (forall i :: 0 <= i < |ds| && Kept(ds[i], minimumConfidence) ==> i in ks)
    decreases |ds|
  {
    if ds != [] {
      var init := ds[..|ds| - 1];
      KeptIndicesExactly(init, minimumConfidence);
      var ks := KeptIndices(ds, minimumConfidence);
      var ks0 := KeptIndices(init, minimumConfidence);
      assert forall j :: 0 <= j < |ks0| ==> ks[j] == ks0[j] && init[ks0[j]] == ds[ks0[j]];
      assert forall i :: 0 <= i < |init| ==> init[i] == ds[i];
    }
  }

  /** The kept results, in input order, with their locations mapped. */
  function Select(ds: seq<Detection>, ks: seq<nat>, minimumConfidence: real, mapRect: Box -> Box): (picked: seq<Detection>)
    requires forall j :: 0 <= j < |ks| ==> ks[j] < |ds|
  {
    seq(|ks|, j requires 0 <= j < |ks| => Remapped(ds[ks[j]], minimumConfidence, mapRect))
  }

  /**
   * The loop throws at the first result with a location and a null confidence; when
   * there is none, its output is exactly the kept results, in input order, remapped.
   */
  lemma {:induction false} FilterAndRemapCharacterized(ds: seq<Detection>, minimumConfidence: real, mapRect: Box -> Box)
    ensures FirstMissingConfidence(ds) < |ds| ==>
      FilterAndRemap(ds, minimumConfidence, mapRect) == ConfidenceMissing(FirstMissingConfidence(ds))
    ensures FirstMissingConfidence(ds) == |ds| ==>
      FilterAndRemap(ds, minimumConfidence, mapRect) == Mapped(Select(ds, KeptIndices(ds, minimumConfidence), minimumConfidence, mapRect))
    decreases |ds|
  {
    if ds != [] {
      var init := ds[..|ds| - 1];
      var last := ds[|ds| - 1];
      FilterAndRemapCharacterized(init, minimumConfidence, mapRect);
      if FirstMissingConfidence(init) == |init| && !ConfidenceThrows(last) {
        var ks, ks' := KeptIndices(init, minimumConfidence), KeptIndices(ds, minimumConfidence);
        var out := Select(init, ks, minimumConfidence, mapRect);
        SelectSnoc(ds, ks, minimumConfidence, mapRect);
      }
    }
  }

  /** Selecting from a longer list by positions of its prefix, and then its last position. */
  lemma SelectSnoc(ds: seq<Detection>, ks: seq<nat>, minimumConfidence: real, mapRect: Box -> Box)
    requires ds != [] && forall j :: 0 <= j < |ks| ==> ks[j] < |ds| - 1
    ensures var init := ds[..|ds| - 1];
      Select(ds, ks, minimumConfidence, mapRect) == Select(init, ks, minimumConfidence, mapRect) &&
      Select(ds, ks + [|ds| - 1], minimumConfidence, mapRect) ==
        Select(init, ks, minimumConfidence, mapRect) + [Remapped(ds[|ds| - 1], minimumConfidence, mapRect)]
  {
  }

  /**
   * The filter's contract as seen by the tracker: the loop completes exactly when no
   * result has a location and a null confidence; then every result that has a location
   * and a confidence of at least the threshold appears once, in input order, with its
   * label and confidence and with its location mapped, and nothing else appears.
   */
  lemma FilterAndRemapSelects(ds: seq<Detection>, minimumConfidence: real, mapRect: Box -> Box)
    ensures FilterAndRemap(ds, minimumConfidence, mapRect).Mapped? <==> forall i :: 0 <= i < |ds| ==> !ConfidenceThrows(ds[i])
    ensures FilterAndRemap(ds, minimumConfidence, mapRect).Mapped? ==>
      var out := FilterAndRemap(ds, minimumConfidence, mapRect).recognitions;
      var ks := KeptIndices(ds, minimumConfidence);
      |out| == |ks| &&
      forall j :: 0 <= j < |out| ==>
        var d := ds[ks[j]];
        d.location.Some? && d.confidence.Some? && d.confidence.value >= minimumConfidence &&
        out[j] == Detection(d.title, d.confidence, Some(mapRect(d.location.value)))
    ensures forall i :: 0 <= i < |ds| ==> (i in KeptIndices(ds, minimumConfidence) <==> Kept(ds[i], minimumConfidence))
  {
    FilterAndRemapCharacterized(ds, minimumConfidence, mapRect);
    KeptIndicesExactly(ds, minimumConfidence);
    var k := FirstMissingConfidence(ds);
    if k < |ds| {
      assert ConfidenceThrows(ds[k]);
    }
    var ks := KeptIndices(ds, minimumConfidence);
    forall i | 0 <= i < |ds| && i in ks ensures Kept(ds[i], minimumConfidence) {
      var j :| 0 <= j < |ks| && ks[j] == i;
    }
  }

  /**
   * A result is a `Classifier.Recognition` object: the loop rewrites `location` of the
   * results it keeps, in the detector's own list.
   */
  class Recognition {
    const title: string
    const confidence: Option<real>
    var location: Option<Box>

    constructor (title: string, confidence: Option<real>, location: Option<Box>)
      ensures View() == Detection(title, confidence, location)
    {
      this.title := title;
      this.confidence := confidence;
      this.location := location;
    }

    function View(): (d: Detection)
      reads this
    {
      Detection(title, confidence, location)
    }
  }

  function Views(rs: seq<Recognition>): (ds: seq<Detection>)
    reads set r | r in rs
    ensures |ds| == |rs| && forall i :: 0 <= i < |rs| ==> ds[i] == rs[i].View()
  {
    seq(|rs|, i requires 0 <= i < |rs| reads rs => rs[i].View())
  }

  predicate Distinct(rs: seq<Recognition>) {
    forall i, j :: 0 <= i < j < |rs| ==> rs[i] != rs[j]
  }

  /** The objects of `rs` at positions `ks`. */
  function Pick(rs: seq<Recognition>, ks: seq<nat>): (picked: seq<Recognition>)
    requires forall j :: 0 <= j < |ks| ==> ks[j] < |rs|
  {
    seq(|ks|, j requires 0 <= j < |ks| => rs[ks[j]])
  }

  /**
   * The loop itself, on the detector's list of objects. Up to the point where it stops
   * (the end, or the first `confidence!!` that throws) every kept result has had its
   * location remapped in place, and the rest are untouched. When it completes, the list
   * it built holds exactly the kept objects, in order, and its value is FilterAndRemap's.
   */
  method FilterAndRemapInPlace(results: seq<Recognition>, minimumConfidence: real, mapRect: Box -> Box)
    returns (mappedRecognitions: seq<Recognition>, completed: bool)
    requires Distinct(results)
    modifies set r | r in results
    ensures completed <==> FirstMissingConfidence(old(Views(results))) == |results|
    ensures forall i :: 0 <= i < |results| ==>
      results[i].View() ==
        if i < FirstMissingConfidence(old(Views(results)))
        then Remapped(old(results[i].View()), minimumConfidence, mapRect)
        else old(results[i].View())
    ensures completed ==>
      mappedRecognitions == Pick(results, KeptIndices(old(Views(results)), minimumConfidence)) &&
      FilterAndRemap(old(Views(results)), minimumConfidence, mapRect) == Mapped(Views(mappedRecognitions))
  {
    ghost var ds := Views(results);
    mappedRecognitions := [];
    var i := 0;
    while i < |results|
      invariant 0 <= i <= |results|
      invariant forall j :: 0 <= j < i ==> !ConfidenceThrows(ds[j])
      invariant forall j :: 0 <= j < |results| ==>
        results[j].View() == if j < i then Remapped(ds[j], minimumConfidence, mapRect) else ds[j]
      invariant mappedRecognitions == Pick(results, KeptBelow(ds, i, minimumConfidence))
    {
      var result := results[i];
      var kept, threw := VisitResult(result, minimumConfidence, mapRect);
      if threw {
        FirstMissingIsFirst(ds, i);
        completed := false;
        return;
      }
      if kept {
        PickSnoc(results, KeptBelow(ds, i, minimumConfidence), i);
        mappedRecognitions := mappedRecognitions + [result];
      }
      i := i + 1;
    }
    KeptBelowAll(ds, minimumConfidence);
    FirstMissingIsFirst(ds, i);
    completed := true;
    FilterAndRemapCharacterized(ds, minimumConfidence, mapRect);
    ViewsOfPicked(results, ds, KeptIndices(ds, minimumConfidence), minimumConfidence, mapRect);
  }

  /**
   * One pass of the loop body: a result with a location has its confidence read, which
   * throws when it is null; a kept result's location is mapped in place.
   */
  method VisitResult(result: Recognition, minimumConfidence: real, mapRect: Box -> Box)
    returns (kept: bool, threw: bool)
    modifies result
    ensures threw <==> ConfidenceThrows(old(result.View()))
    ensures kept <==> Kept(old(result.View()), minimumConfidence)
    ensures result.View() == if threw then old(result.View()) else Remapped(old(result.View()), minimumConfidence, mapRect)
  {
    kept, threw := false, false;
    var location := result.location;
    if location.Some? {
      if result.confidence.None? {
        threw := true;
        return;
      }
      if result.confidence.value >= minimumConfidence {
        result.location := Some(mapRect(location.value));
        kept := true;
      }
    }
  }

  /** After the loop, the views of the picked objects are the selected, remapped detections. */
  lemma ViewsOfPicked(rs: seq<Recognition>, ds: seq<Detection>, ks: seq<nat>, minimumConfidence: real, mapRect: Box -> Box)
    requires |ds| == |rs| && forall j :: 0 <= j < |ks| ==> ks[j] < |rs|
    requires forall j :: 0 <= j < |rs| ==> rs[j].View() == Remapped(ds[j], minimumConfidence, mapRect)
    ensures Views(Pick(rs, ks)) == Select(ds, ks, minimumConfidence, mapRect)
  {
  }

  /** The kept positions below `n`, as the loop has found them after `n` passes. */
  function KeptBelow(ds: seq<Detection>, n: nat, minimumConfidence: real): (ks: seq<nat>)
    requires n <= |ds|
    ensures forall j :: 0 <= j < |ks| ==> ks[j] < n
  {
    if n == 0 then []
    else KeptBelow(ds, n - 1, minimumConfidence) + (if Kept(ds[n - 1], minimumConfidence) then [n - 1] else [])
  }

  /** After a pass over the whole list the loop has found KeptIndices. */
  lemma KeptBelowAll(ds: seq<Detection>, minimumConfidence: real)
    ensures KeptBelow(ds, |ds|, minimumConfidence) == KeptIndices(ds, minimumConfidence)
  {
    KeptBelowPrefix(ds, |ds|, minimumConfidence);
    assert ds[..|ds|] == ds;
  }

  lemma {:induction false} KeptBelowPrefix(ds: seq<Detection>, n: nat, minimumConfidence: real)
    requires n <= |ds|
    ensures KeptBelow(ds, n, minimumConfidence) == KeptIndices(ds[..n], minimumConfidence)
  {
    if n > 0 {
      KeptBelowPrefix(ds, n - 1, minimumConfidence);
      assert ds[..n][..n - 1] == ds[..n - 1];
    }
  }

  lemma PickSnoc(rs: seq<Recognition>, ks: seq<nat>, i: nat)
    requires i < |rs| && forall j :: 0 <= j < |ks| ==> ks[j] < |rs|
    ensures Pick(rs, ks + [i]) == Pick(rs, ks) + [rs[i]]
  {
  }

  /** FirstMissingConfidence is the least throwing position. */
  lemma FirstMissingIsFirst(ds: seq<Detection>, i: nat)
    requires i <= |ds|
    requires forall j :: 0 <= j < i ==> !ConfidenceThrows(ds[j])
    requires i < |ds| ==> ConfidenceThrows(ds[i])
    ensures FirstMissingConfidence(ds) == i
  {
  }

  /**
   * With the TF_OD_API threshold, results of confidence 0.5, exactly the threshold (0.6f)
   * and 0.9 give the last two, in that order, remapped: the comparison is `>=`.
   */
  lemma ThresholdExample(mapRect: Box -> Box, b1: Box, b2: Box, b3: Box)
    ensures
      var t := Modes.MinimumConfidence(Modes.TfOdApi);
      var ds := [Detection("a", Some(0.5), Some(b1)), Detection("b", Some(t), Some(b2)), Detection("c", Some(0.9), Some(b3))];
      FilterAndRemap(ds, t, mapRect) ==
        Mapped([Detection("b", Some(t), Some(mapRect(b2))), Detection("c", Some(0.9), Some(mapRect(b3)))])
  {
    var t := Modes.MinimumConfidence(Modes.TfOdApi);
    var ds := [Detection("a", Some(0.5), Some(b1)), Detection("b", Some(t), Some(b2)), Detection("c", Some(0.9), Some(b3))];
    assert ds[..1][..0] == [];
    assert FilterAndRemap(ds[..1], t, mapRect) == Mapped([]);
    assert ds[..2][..1] == ds[..1];
    assert FilterAndRemap(ds[..2], t, mapRect) == Mapped([Detection("b", Some(t), Some(mapRect(b2)))]);
    assert ds[..|ds| - 1] == ds[..2];
  }
}

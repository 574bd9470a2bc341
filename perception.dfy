/** Detections and the candidate filter of robotpy.py (lines 86-94): keep the detections
    the detector is confident about whose label contains the last word of the operator's
    target description. */
module Perception {
  import opened Wrappers
  import opened Text

  /** `CONFIDENCE_THRESHOLD`: a detection must score strictly above it. */
  const ConfidenceThreshold: real := 0.3

  /** A bounding box `(x1, y1, x2, y2)` in pixel coordinates of the frame. */
  datatype Box = Box(x1: int, y1: int, x2: int, y2: int)

  /** One detector output, and also one candidate tuple `(label, conf, box)`; `name`
      is the class label. */
  datatype Detection = Detection(name: string, conf: real, box: Box)

  /** The candidate tuple the script builds from a detection: its label lower-cased. */
  function Lowered(d: Detection): Detection {
    d.(name := Lower(d.name))
  }

  /** The filter condition of line 92 for a known target word. */
  predicate Matches(d: Detection, word: string) {
    d.conf > ConfidenceThreshold && Contains(Lower(d.name), word)
  }

  /** The candidates for a target word, in detector order (specification of the loop). */
  function CandidatesFor(dets: seq<Detection>, word: string): seq<Detection> {
    if dets == [] then []
    else
      var last := dets[|dets| - 1];
      CandidatesFor(dets[..|dets| - 1], word) + (if Matches(last, word) then [Lowered(last)] else [])
  }

  /** The positions of `dets` that `CandidatesFor` keeps, in increasing order. */
  function KeptIndices(dets: seq<Detection>, word: string): seq<nat> {
    if dets == [] then []
    else
      KeptIndices(dets[..|dets| - 1], word)
      + (if Matches(dets[|dets| - 1], word) then [|dets| - 1] else [])
  }

  predicate SomeConfident(dets: seq<Detection>) {
    exists k :: 0 <= k < |dets| && dets[k].conf > ConfidenceThreshold
  }

  /** What the filtering loop produces: the candidate list, or the `IndexError` that
      `target_desc.split()[-1]` raises when the description holds no word and the
      confidence test lets a detection through to that expression. */
  datatype FilterResult = Kept(candidates: seq<Detection>) | NoTargetWord

  /** The outcome of lines 86-94 for the frame's detections and the lower-cased description. */
  function Filter(dets: seq<Detection>, desc: string): FilterResult {
    match LastToken(desc)
    case Some(word) => Kept(CandidatesFor(dets, word))
    case None => if SomeConfident(dets) then NoTargetWord else Kept([])
  }

  /** The loop of lines 86-94: the confidence test is evaluated first, so the target
      word is only looked up for detections scoring above the threshold. */
  method FilterCandidates(dets: seq<Detection>, desc: string) returns (r: FilterResult)
    ensures r == Filter(dets, desc)
  {
    var candidates: seq<Detection> := [];
    var i := 0;
    while i < |dets|
      invariant 0 <= i <= |dets|
      invariant LastToken(desc).None? ==>
        candidates == [] && forall k :: 0 <= k < i ==> dets[k].conf <= ConfidenceThreshold
      invariant LastToken(desc).Some? ==> candidates == CandidatesFor(dets[..i], LastToken(desc).value)
    {
      var d := dets[i];
      var name := Lower(d.name);
      if d.conf > ConfidenceThreshold {
        var word := LastToken(desc);
        if word.None? {
          return NoTargetWord;
        }
        if Contains(name, word.value) {
          candidates := candidates + [Detection(name, d.conf, d.box)];
        }
      }
      assert dets[..i + 1][..i] == dets[..i];
      i := i + 1;
    }
    assert dets[..i] == dets;
    r := Kept(candidates);
  }

  /** The candidate list is an order-preserving subsequence of the detections (each
      entry the detection at a kept position with its label lower-cased, positions strictly
      increasing), and a position is kept exactly when its detection matches. */
  lemma {:induction false} CandidatesAreSubsequence(dets: seq<Detection>, word: string)
    ensures var ix := KeptIndices(dets, word); var cs := CandidatesFor(dets, word);
      |ix| == |cs|
      && (forall k :: 0 <= k < |ix| ==>
            ix[k] < |dets| && cs[k].name == Lower(dets[ix[k]].name)
            && cs[k].conf == dets[ix[k]].conf && cs[k].box == dets[ix[k]].box)
      && (forall k, l :: 0 <= k < l < |ix| ==> ix[k] < ix[l])
      && (forall j :: 0 <= j < |dets| ==> (j in ix <==> Matches(dets[j], word)))
  {
    if dets != [] {
      var init := dets[..|dets| - 1];
      CandidatesAreSubsequence(init, word);
      var ix0 := KeptIndices(init, word);
      assert forall k :: 0 <= k < |ix0| ==> ix0[k] < |init| && init[ix0[k]] == dets[ix0[k]];
      assert forall j :: 0 <= j < |init| ==> init[j] == dets[j];
    }
  }

  /** Every candidate passes both tests of line 92. */
  lemma {:induction false} CandidatesSound(dets: seq<Detection>, word: string)
    ensures forall c :: c in CandidatesFor(dets, word) ==>
      c.conf > ConfidenceThreshold && Contains(c.name, word)
  {
    CandidatesAreSubsequence(dets, word);
    var ix := KeptIndices(dets, word);
    var cs := CandidatesFor(dets, word);
    forall c | c in cs
      ensures c.conf > ConfidenceThreshold && Contains(c.name, word)
    {
      var k :| 0 <= k < |cs| && cs[k] == c;
      assert ix[k] in ix;
    }
  }

  /** Every detection passing both tests is kept. */
  lemma {:induction false} CandidatesComplete(dets: seq<Detection>, word: string)
    ensures forall j :: 0 <= j < |dets| && Matches(dets[j], word) ==>
      Lowered(dets[j]) in CandidatesFor(dets, word)
  {
    CandidatesAreSubsequence(dets, word);
    var ix := KeptIndices(dets, word);
    var cs := CandidatesFor(dets, word);
    forall j | 0 <= j < |dets| && Matches(dets[j], word)
      ensures Lowered(dets[j]) in cs
    {
      var k :| 0 <= k < |ix| && ix[k] == j;
      assert cs[k] == Lowered(dets[j]);
    }
  }

  /** The filter raises exactly when the description is all white space and some
      detection scores above the threshold; with an all-blank description and no such
      detection it keeps nothing; otherwise it yields the candidates for the
      description's last word. */
  lemma FilterOutcome(dets: seq<Detection>, desc: string)
    ensures Filter(dets, desc) == NoTargetWord <==> AllSpace(desc) && SomeConfident(dets)
    ensures AllSpace(desc) && !SomeConfident(dets) ==> Filter(dets, desc) == Kept([])
    ensures forall word :: IsLastToken(desc, word) ==> Filter(dets, desc) == Kept(CandidatesFor(dets, word))
  {
    LastTokenNone(desc);
    forall word | IsLastToken(desc, word)
      ensures Filter(dets, desc) == Kept(CandidatesFor(dets, word))
    {
      LastTokenSome(desc, word);
    }
  }
}

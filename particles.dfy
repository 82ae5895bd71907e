/**
 * Particle beliefs over a video: per frame, a list of candidate boxes and a
 * weight per box. The weights are log-densities or densities depending on
 * who produced them; the helpers here only add, concatenate and average.
 */
module Particles {
  import opened Wrappers
  import opened Numeric
  import opened Geometry

  /** The value of a particle dictionary: `locs[f][p]` is box `p` of frame `f`, `probs[f][p]` its weight. */
  datatype Cloud = Cloud(locs: seq<seq<Box>>, probs: seq<seq<real>>)
  {
    function Frames(): nat { |locs| }

    /** One weight per box, frame by frame. */
    predicate WellFormed() {
      |locs| == |probs| && forall f :: 0 <= f < |locs| ==> |locs[f]| == |probs[f]|
    }

    /** Every frame holds at least one particle (numpy's argmax refuses an empty frame). */
    predicate Populated() {
      WellFormed() && forall f :: 0 <= f < |locs| ==> |locs[f]| > 0
    }
  }

  /** A density evaluated at box `b` of frame `f` (a fitted mixture's `score_samples`, or its exponential). */
  type FrameDensity = (nat, Box) -> real

  /** The weights after adding one density to every particle of every frame. */
  function AddDensity(c: Cloud, density: FrameDensity): (r: seq<seq<real>>)
    requires c.WellFormed()
    ensures |r| == |c.probs|
    ensures forall f :: 0 <= f < |r| ==> |r[f]| == |c.probs[f]|
    ensures forall f, p :: 0 <= f < |r| && 0 <= p < |r[f]| ==> r[f][p] == c.probs[f][p] + density(f, c.locs[f][p])
  {
    seq(|c.probs|, f requires 0 <= f < |c.probs| =>
      seq(|c.probs[f]|, p requires 0 <= p < |c.probs[f]| => c.probs[f][p] + density(f, c.locs[f][p])))
  }

  /** Frame-wise concatenation of two clouds: `front`'s particles first. */
  function Concat(front: Cloud, back: Cloud): (r: Cloud)
    requires front.Frames() == back.Frames() && |front.probs| == |back.probs| == front.Frames()
    ensures r.Frames() == front.Frames()
    ensures front.WellFormed() && back.WellFormed() ==> r.WellFormed()
    ensures front.Populated() && back.WellFormed() ==> r.Populated()
  {
    Cloud(seq(|front.locs|, f requires 0 <= f < |front.locs| => front.locs[f] + back.locs[f]),
          seq(|front.probs|, f requires 0 <= f < |front.probs| => front.probs[f] + back.probs[f]))
  }

  /** Each density's share of the average at one box. */
  function Shares(densities: seq<FrameDensity>, f: nat, b: Box): (r: seq<real>)
    requires |densities| > 0
    ensures |r| == |densities|
  {
    seq(|densities|, j requires 0 <= j < |densities| => densities[j](f, b) / (|densities| as real))
  }

  /** The average of several densities at one box, accumulated one density at a time. */
  function MeanDensity(densities: seq<FrameDensity>, f: nat, b: Box): real
    requires |densities| > 0
  {
    Sum(Shares(densities, f, b))
  }

  function MeanDensities(locs: seq<seq<Box>>, densities: seq<FrameDensity>): (r: seq<seq<real>>)
    requires |densities| > 0
    ensures |r| == |locs|
    ensures forall f :: 0 <= f < |locs| ==> |r[f]| == |locs[f]|
    ensures forall f, p :: 0 <= f < |locs| && 0 <= p < |locs[f]| ==> r[f][p] == MeanDensity(densities, f, locs[f][p])
  {
    seq(|locs|, f requires 0 <= f < |locs| =>
      seq(|locs[f]|, p requires 0 <= p < |locs[f]| => MeanDensity(densities, f, locs[f][p])))
  }

  /** A particle dictionary held by reference and updated in place. */
  class Particles {
    var locs: seq<seq<Box>>
    var probs: seq<seq<real>>

    constructor (c: Cloud)
      ensures locs == c.locs && probs == c.probs
    {
      locs := c.locs;
      probs := c.probs;
    }

    function Value(): Cloud
      reads this
    {
      Cloud(locs, probs)
    }

    /**
     * update_probs: every frame's weights receive the new distribution's
     * log-density at each particle; boxes stay where they are.
     */
    method UpdateProbs(density: FrameDensity)
      requires Value().WellFormed()
      modifies this
      ensures locs == old(locs)
      ensures probs == AddDensity(old(Value()), density)
    {
      ghost var start := Value();
      for f := 0 to |locs|
        invariant locs == start.locs && |probs| == |start.probs|
        invariant forall g :: f <= g < |probs| ==> probs[g] == start.probs[g]
        invariant forall g :: 0 <= g < f ==> probs[g] == AddDensity(start, density)[g]
      {
        var frame := locs[f];
        var newProbs := seq(|frame|, p requires 0 <= p < |frame| => density(f, frame[p]));
        probs := probs[f := Add(probs[f], newProbs)];
        assert probs[f] == AddDensity(start, density)[f];
      }
    }

    /** Each frame's particles followed by `other`'s (the smeared copies of the combined policy). */
    method Append(other: Cloud)
      requires |locs| == |probs| == other.Frames() == |other.probs|
      modifies this
      ensures Value() == Concat(old(Value()), other)
    {
      ghost var start := Value();
      for f := 0 to |locs|
        invariant |locs| == |probs| == |start.locs|
        invariant forall g :: f <= g < |locs| ==> locs[g] == start.locs[g] && probs[g] == start.probs[g]
        invariant forall g :: 0 <= g < f ==>
          locs[g] == start.locs[g] + other.locs[g] && probs[g] == start.probs[g] + other.probs[g]
      {
        locs := locs[f := locs[f] + other.locs[f]];
        probs := probs[f := probs[f] + other.probs[f]];
      }
    }

    /** `other`'s particles followed by each frame's own (how the ensemble sample grows). */
    method Prepend(other: Cloud)
      requires |locs| == |probs| == other.Frames() == |other.probs|
      modifies this
      ensures Value() == Concat(other, old(Value()))
    {
      ghost var start := Value();
      for f := 0 to |locs|
        invariant |locs| == |probs| == |start.locs|
        invariant forall g :: f <= g < |locs| ==> locs[g] == start.locs[g] && probs[g] == start.probs[g]
        invariant forall g :: 0 <= g < f ==>
          locs[g] == other.locs[g] + start.locs[g] && probs[g] == other.probs[g] + start.probs[g]
      {
        locs := locs[f := other.locs[f] + locs[f]];
        probs := probs[f := other.probs[f] + probs[f]];
      }
    }

    /**
     * Every weight becomes the mean of the given densities at its box,
     * summed one density at a time from a zero vector.
     */
    method SetMeanDensity(densities: seq<FrameDensity>)
      requires |densities| > 0 && Value().WellFormed()
      modifies this
      ensures locs == old(locs)
      ensures probs == MeanDensities(old(locs), densities)
    {
      ghost var start := locs;
      for f := 0 to |locs|
        invariant locs == start && |probs| == |locs|
        invariant forall g :: f <= g < |locs| ==> |probs[g]| == |locs[g]|
        invariant forall g :: 0 <= g < f ==> probs[g] == MeanDensities(locs, densities)[g]
      {
        var frame := locs[f];
        var acc := seq(|frame|, _ => 0.0);
        for j := 0 to |densities|
          invariant |acc| == |frame|
          invariant forall p :: 0 <= p < |acc| ==> acc[p] == Sum(Shares(densities, f, frame[p])[..j])
        {
          var scores := seq(|frame|, p requires 0 <= p < |frame| => densities[j](f, frame[p]));
          acc := Add(acc, Div(scores, |densities| as real));
          forall p | 0 <= p < |acc|
            ensures acc[p] == Sum(Shares(densities, f, frame[p])[..j + 1])
          {
            PrefixSumStep(Shares(densities, f, frame[p]), j);
          }
        }
        forall p | 0 <= p < |acc| ensures acc[p] == MeanDensity(densities, f, frame[p]) {
          assert Shares(densities, f, frame[p])[..|densities|] == Shares(densities, f, frame[p]);
        }
        probs := probs[f := acc];
        assert probs[f] == MeanDensities(locs, densities)[f];
      }
    }
  }

  lemma PrefixSumStep(s: seq<real>, j: nat)
    requires j < |s|
    ensures Sum(s[..j + 1]) == Sum(s[..j]) + s[j]
  {
    assert s[..j + 1] == s[..j] + [s[j]];
    SumAppend(s[..j], [s[j]]);
  }

  /** The box of frame `f` carrying the largest weight (the first such box). */
  function BestParticle(c: Cloud, f: nat): Box
    requires c.Populated() && f < c.Frames()
  {
    c.locs[f][ArgMax(c.probs[f])]
  }

  /** Per frame, the overlap of the ground truth with the best particle. */
  function FrameIoUs(gt: seq<Box>, c: Cloud): (r: seq<Option<real>>)
    requires c.Populated() && |gt| >= c.Frames()
    ensures |r| == c.Frames()
  {
    seq(c.Frames(), f requires 0 <= f < c.Frames() => FrameIoU(gt[f], BestParticle(c, f)))
  }

  /**
   * calc_vid_iou: the mean over frames of the best particle's overlap with
   * the ground truth; `None` for a video without frames (numpy's mean is then
   * NaN) and where some frame's overlap divides by zero.
   */
  function VidIoUOf(gt: seq<Box>, c: Cloud): Option<real>
    requires c.Populated() && |gt| >= c.Frames()
  {
    var ious := FrameIoUs(gt, c);
    if |ious| == 0 || exists f :: 0 <= f < |ious| && ious[f].None? then None
    else Some(Mean(seq(|ious|, f requires 0 <= f < |ious| => ious[f].value)))
  }

  /** The per-video overlap of boxes with positive area is defined and lies in [0, 1]. */
  lemma VidIoUBounds(gt: seq<Box>, c: Cloud)
    requires c.Populated() && |gt| >= c.Frames() > 0
    requires forall f :: 0 <= f < |gt| ==> gt[f].PositiveArea()
    requires forall f, p :: 0 <= f < c.Frames() && 0 <= p < |c.locs[f]| ==> c.locs[f][p].PositiveArea()
    ensures VidIoUOf(gt, c).Some?
    ensures 0.0 <= VidIoUOf(gt, c).value <= 1.0
  {
    var ious := FrameIoUs(gt, c);
    forall f | 0 <= f < |ious| ensures ious[f].Some? && 0.0 <= ious[f].value <= 1.0 {
      FrameIoUBounds(gt[f], BestParticle(c, f));
    }
    var values := seq(|ious|, f requires 0 <= f < |ious| => ious[f].value);
    MeanBounds(values, 0.0, 1.0);
  }

  /** calc_vid_iou as a loop over frames collecting one overlap per frame. */
  method VidIoU(gt: seq<Box>, c: Cloud) returns (r: Option<real>)
    requires c.Populated() && |gt| >= c.Frames()
    ensures r == VidIoUOf(gt, c)
  {
    var ious := FrameIoUs(gt, c);
    var frameIoUs: seq<real> := [];
    for f := 0 to c.Frames()
      invariant |frameIoUs| == f
      invariant forall g :: 0 <= g < f ==> ious[g] == Some(frameIoUs[g])
    {
      var candidate := c.locs[f][ArgMax(c.probs[f])];
      var iou := FrameIoU(gt[f], candidate);
      if iou.None? {
        assert ious[f].None?;
        return None;
      }
      frameIoUs := frameIoUs + [iou.value];
    }
    if |frameIoUs| == 0 {
      return None;
    }
    assert frameIoUs == seq(|ious|, f requires 0 <= f < |ious| => ious[f].value);
    r := Some(Mean(frameIoUs));
  }
}

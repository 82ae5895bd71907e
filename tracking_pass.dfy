/**
 * One re-query pass of the tracking experiment (do_pass), as values: every
 * video starts with one annotator's particle cloud, and each iteration
 * re-queries the video whose score is lowest under the configured policy,
 * recording the mean per-video overlap after every deferral.
 *
 * The random draws, the mixture sampling and calc_score are oracles indexed
 * by (video, iteration); a video overlap whose union has zero area (the
 * compiled helper's division by zero) makes the whole pass fail (`None`).
 */
module TrackingPass {
  import opened Wrappers
  import opened Numeric
  import opened Geometry
  import opened Particles
  import opened Policies

  /** The score that takes a video out of the running once its depth constraint is reached. */
  const Sentinel: real := 1000000.0

  /**
   * Everything the pass draws at random or reads from the fitted mixtures.
   * initial(v): generate_first_particles for the first annotator of video v
   * (half the particles when the initial cloud is smeared); smeared(v): its
   * smeared copy; sample(v, i): a fresh annotator's particles at iteration i;
   * density(v, i): that annotator's log-density (update_probs);
   * ensembleSample(v, i, j) and ensembleDensity(v, i, j): particles and
   * exponentiated density of the j-th distribution of the ensemble built at
   * iteration i (j = 0 is the first annotator); score(v, k, c): calc_score of
   * cloud c, where k is 0 for the initial draw and i + 1 at iteration i.
   */
  datatype TrackOracles = TrackOracles(
    initial: nat -> Cloud,
    smeared: nat -> Cloud,
    sample: (nat, nat) -> Cloud,
    density: (nat, nat) -> FrameDensity,
    ensembleSample: (nat, nat, nat) -> Cloud,
    ensembleDensity: (nat, nat, nat) -> FrameDensity,
    score: (nat, nat, Cloud) -> real)

  /** A cloud with particles in every one of the video's frames. */
  predicate Fits(c: Cloud, frames: seq<Box>) {
    c.Populated() && c.Frames() == |frames|
  }

  /**
   * What the pass relies on: every video has frames, every cloud covers
   * them, and calc_score (a mean of overlaps) never exceeds 1.
   */
  ghost predicate OraclesFit(o: TrackOracles, gt: seq<seq<Box>>) {
    (forall v :: 0 <= v < |gt| ==> |gt[v]| > 0) &&
    (forall v: nat :: v < |gt| ==>
      Fits(o.initial(v), gt[v]) && o.smeared(v).WellFormed() && o.smeared(v).Frames() == |gt[v]|) &&
    (forall v: nat, i: nat :: v < |gt| ==> Fits(o.sample(v, i), gt[v])) &&
    (forall v: nat, i: nat, j: nat :: v < |gt| ==> Fits(o.ensembleSample(v, i, j), gt[v])) &&
    (forall v: nat, k: nat, c: Cloud :: o.score(v, k, c) <= 1.0)
  }

  /** The first cloud of video v: the first annotator's particles, followed by their smeared copies when smearing. */
  function InitialCloud(o: TrackOracles, gt: seq<seq<Box>>, m: TrackMethod, v: nat): (c: Cloud)
    requires OraclesFit(o, gt) && v < |gt|
    ensures Fits(c, gt[v])
    ensures m.smearsInitialCloud ==> c == Concat(o.initial(v), o.smeared(v))
    ensures !m.smearsInitialCloud ==> c == o.initial(v)
  {
    if m.smearsInitialCloud then Concat(o.initial(v), o.smeared(v)) else o.initial(v)
  }

  /**
   * The state of a pass: per video its score, overlap, cloud and re-query
   * count; the trajectory of mean overlaps; and whether the ensemble loop
   * has broken out.
   */
  datatype Pass = Pass(scores: seq<real>, ious: seq<real>, clouds: seq<Cloud>, counts: seq<int>,
                       traj: seq<real>, stopped: bool)

  /** One entry per video, each cloud covering its video. */
  predicate Shaped(ps: Pass, gt: seq<seq<Box>>) {
    |ps.scores| == |ps.ious| == |ps.clouds| == |ps.counts| == |gt| &&
    forall v :: 0 <= v < |gt| ==> Fits(ps.clouds[v], gt[v])
  }

  /** The overlaps of the initial clouds. */
  function InitialIoUs(o: TrackOracles, gt: seq<seq<Box>>, m: TrackMethod): (r: seq<Option<real>>)
    requires OraclesFit(o, gt)
    ensures |r| == |gt|
  {
    seq(|gt|, v requires 0 <= v < |gt| => VidIoUOf(gt[v], InitialCloud(o, gt, m, v)))
  }

  /** The initial run over all videos, with the zero-deferral mean as the first trajectory entry. */
  function Initial(o: TrackOracles, gt: seq<seq<Box>>, m: TrackMethod): (r: Option<Pass>)
    requires OraclesFit(o, gt) && |gt| > 0
    ensures r.None? <==> exists v :: 0 <= v < |gt| && InitialIoUs(o, gt, m)[v].None?
    ensures r.Some? ==> Shaped(r.value, gt) && !r.value.stopped && |r.value.traj| == 1
    ensures r.Some? ==> forall v :: 0 <= v < |gt| ==>
      r.value.counts[v] == 0 && r.value.scores[v] == o.score(v, 0, r.value.clouds[v]) && r.value.scores[v] <= 1.0 &&
      r.value.clouds[v] == InitialCloud(o, gt, m, v) && Some(r.value.ious[v]) == InitialIoUs(o, gt, m)[v]
    ensures r.Some? ==> r.value.traj == [Mean(r.value.ious)]
  {
    var ious := InitialIoUs(o, gt, m);
    if exists v :: 0 <= v < |gt| && ious[v].None? then None
    else
      var values := seq(|gt|, v requires 0 <= v < |gt| => ious[v].value);
      Some(Pass(seq(|gt|, v requires 0 <= v < |gt| => o.score(v, 0, InitialCloud(o, gt, m, v))),
                values,
                seq(|gt|, v requires 0 <= v < |gt| => InitialCloud(o, gt, m, v)),
                seq(|gt|, _ => 0),
                [Mean(values)],
                false))
  }

  /** The video each iteration re-queries: the first one with the lowest score. */
  function Selected(ps: Pass): (v: nat)
    requires |ps.scores| > 0
    ensures v < |ps.scores|
    ensures forall u :: 0 <= u < |ps.scores| ==> ps.scores[v] <= ps.scores[u]
    ensures forall u :: 0 <= u < v ==> ps.scores[v] < ps.scores[u]
  {
    ArgMin(ps.scores)
  }

  /** How much one iteration adds to the re-query count of the selected video. */
  function Cost(p: TrackPolicy, dc: nat): nat {
    if p == TrackEnsembleMean then dc else 1
  }

  /** How many entries one iteration adds to the trajectory: dc whenever "ensemble_mean" occurs in the name, else one. */
  function Recorded(m: TrackMethod, dc: nat): nat {
    if m.recordsDepthCopies then dc else 1
  }

  /** Nothing but video v's entries differ between the two states. */
  predicate OnlyAt(a: Pass, b: Pass, v: nat) {
    |a.scores| == |b.scores| && |a.ious| == |b.ious| && |a.clouds| == |b.clouds| && |a.counts| == |b.counts| &&
    v < |a.scores| && v < |a.ious| && v < |a.clouds| && v < |a.counts| &&
    a.scores == b.scores[v := a.scores[v]] && a.ious == b.ious[v := a.ious[v]] &&
    a.clouds == b.clouds[v := a.clouds[v]] && a.counts == b.counts[v := a.counts[v]]
  }

  /** Naive replacement: a fresh annotator's particles replace the video's score and overlap. */
  function NaiveMove(o: TrackOracles, gt: seq<seq<Box>>, ps: Pass, v: nat, i: nat): (r: Option<Pass>)
    requires OraclesFit(o, gt) && Shaped(ps, gt) && v < |gt|
    ensures r.None? <==> VidIoUOf(gt[v], o.sample(v, i)).None?
    ensures r.Some? ==> Shaped(r.value, gt) && OnlyAt(r.value, ps, v) && r.value.traj == ps.traj
    ensures r.Some? ==> r.value.counts[v] == ps.counts[v] + 1 && r.value.clouds[v] == ps.clouds[v]
    ensures r.Some? ==> (r.value.scores[v] == o.score(v, i + 1, o.sample(v, i)) &&
      Some(r.value.ious[v]) == VidIoUOf(gt[v], o.sample(v, i)))
  {
    var samples := o.sample(v, i);
    var iou := VidIoUOf(gt[v], samples);
    if iou.None? then None
    else Some(ps.(scores := ps.scores[v := o.score(v, i + 1, samples)], ious := ps.ious[v := iou.value],
                  counts := ps.counts[v := ps.counts[v] + 1]))
  }

  /** Smart replacement: the fresh particles are adopted only when they score strictly higher. */
  function SmartMove(o: TrackOracles, gt: seq<seq<Box>>, ps: Pass, v: nat, i: nat): (r: Option<Pass>)
    requires OraclesFit(o, gt) && Shaped(ps, gt) && v < |gt|
    ensures var better := o.score(v, i + 1, o.sample(v, i)) > ps.scores[v];
      r.None? <==> better && VidIoUOf(gt[v], o.sample(v, i)).None?
    ensures r.Some? ==> Shaped(r.value, gt) && OnlyAt(r.value, ps, v) && r.value.traj == ps.traj
    ensures r.Some? ==> r.value.counts[v] == ps.counts[v] + 1 && r.value.clouds[v] == ps.clouds[v]
    ensures r.Some? ==> r.value.scores[v] >= ps.scores[v]
    ensures r.Some? && r.value.scores[v] == ps.scores[v] ==> r.value.ious[v] == ps.ious[v]
    ensures r.Some? && r.value.scores[v] != ps.scores[v] ==>
      r.value.scores[v] == o.score(v, i + 1, o.sample(v, i)) &&
      Some(r.value.ious[v]) == VidIoUOf(gt[v], o.sample(v, i))
  {
    var samples := o.sample(v, i);
    var newScore := o.score(v, i + 1, samples);
    var counted := ps.(counts := ps.counts[v := ps.counts[v] + 1]);
    if newScore > ps.scores[v] then
      var iou := VidIoUOf(gt[v], samples);
      if iou.None? then None
      else Some(counted.(scores := ps.scores[v := newScore], ious := ps.ious[v := iou.value]))
    else Some(counted)
  }

  /** The video's cloud after update_probs: same particles, weights plus the new density. */
  function Reweighted(c: Cloud, density: FrameDensity): (r: Cloud)
    requires c.Populated()
    ensures r.Populated() && r.locs == c.locs
  {
    Cloud(c.locs, AddDensity(c, density))
  }

  /** Combined replacement: the video's own cloud is reweighted by the new annotator's density and rescored. */
  function CombinedMove(o: TrackOracles, gt: seq<seq<Box>>, ps: Pass, v: nat, i: nat): (r: Option<Pass>)
    requires OraclesFit(o, gt) && Shaped(ps, gt) && v < |gt|
    ensures var c := Reweighted(ps.clouds[v], o.density(v, i));
      r.None? <==> VidIoUOf(gt[v], c).None?
    ensures r.Some? ==> Shaped(r.value, gt) && OnlyAt(r.value, ps, v) && r.value.traj == ps.traj
    ensures r.Some? ==> r.value.counts[v] == ps.counts[v] + 1
    ensures r.Some? ==> r.value.clouds[v].locs == ps.clouds[v].locs
    ensures r.Some? ==> (r.value.clouds[v] == Reweighted(ps.clouds[v], o.density(v, i)) &&
      r.value.scores[v] == o.score(v, i + 1, r.value.clouds[v]) &&
      Some(r.value.ious[v]) == VidIoUOf(gt[v], r.value.clouds[v]))
  {
    var c := Reweighted(ps.clouds[v], o.density(v, i));
    var iou := VidIoUOf(gt[v], c);
    if iou.None? then None
    else Some(ps.(scores := ps.scores[v := o.score(v, i + 1, c)], ious := ps.ious[v := iou.value],
                  clouds := ps.clouds[v := c], counts := ps.counts[v := ps.counts[v] + 1]))
  }

  /** The ensemble's particles: each new distribution's samples go in front of those gathered so far. */
  function EnsembleSamples(o: TrackOracles, gt: seq<seq<Box>>, v: nat, i: nat, j: nat): (c: Cloud)
    requires OraclesFit(o, gt) && v < |gt|
    ensures Fits(c, gt[v])
  {
    if j == 0 then o.ensembleSample(v, i, 0)
    else Concat(o.ensembleSample(v, i, j), EnsembleSamples(o, gt, v, i, j - 1))
  }

  /** The densities of the first annotator and of the dc fresh ones. */
  function EnsembleDensities(o: TrackOracles, v: nat, i: nat, dc: nat): (r: seq<FrameDensity>)
    ensures |r| == dc + 1 && forall j :: 0 <= j <= dc ==> r[j] == o.ensembleDensity(v, i, j)
  {
    seq<FrameDensity>(dc + 1, j requires 0 <= j <= dc => o.ensembleDensity(v, i, j))
  }

  /** The ensemble's cloud: all samples, each weighted by the mean density of the ensemble's members. */
  function EnsembleCloud(o: TrackOracles, gt: seq<seq<Box>>, v: nat, i: nat, dc: nat): (c: Cloud)
    requires OraclesFit(o, gt) && v < |gt|
    ensures Fits(c, gt[v]) && c.locs == EnsembleSamples(o, gt, v, i, dc).locs
    ensures forall f, p :: 0 <= f < |c.locs| && 0 <= p < |c.locs[f]| ==>
      c.probs[f][p] == MeanDensity(EnsembleDensities(o, v, i, dc), f, c.locs[f][p])
  {
    var samples := EnsembleSamples(o, gt, v, i, dc);
    Cloud(samples.locs, MeanDensities(samples.locs, EnsembleDensities(o, v, i, dc)))
  }

  /**
   * Ensemble deferral: dc re-queries at once; the overlap becomes that of
   * the ensemble's cloud while the score is left as it was (only the depth
   * sentinel changes it).
   */
  function EnsembleMove(o: TrackOracles, gt: seq<seq<Box>>, dc: nat, ps: Pass, v: nat, i: nat): (r: Option<Pass>)
    requires OraclesFit(o, gt) && Shaped(ps, gt) && v < |gt|
    ensures r.None? <==> VidIoUOf(gt[v], EnsembleCloud(o, gt, v, i, dc)).None?
    ensures r.Some? ==> Shaped(r.value, gt) && OnlyAt(r.value, ps, v) && r.value.traj == ps.traj
    ensures r.Some? ==> (r.value.counts[v] == ps.counts[v] + dc && r.value.scores == ps.scores &&
      r.value.clouds == ps.clouds)
    ensures r.Some? ==> Some(r.value.ious[v]) == VidIoUOf(gt[v], EnsembleCloud(o, gt, v, i, dc))
  {
    var iou := VidIoUOf(gt[v], EnsembleCloud(o, gt, v, i, dc));
    if iou.None? then None
    else Some(ps.(ious := ps.ious[v := iou.value], counts := ps.counts[v := ps.counts[v] + dc]))
  }

  /** Python's `s[:k]`: the whole sequence when it is shorter. */
  function Take(s: seq<real>, k: nat): (r: seq<real>)
    ensures |r| == if |s| <= k then |s| else k
    ensures forall j :: 0 <= j < |r| ==> r[j] == s[j]
  {
    if |s| <= k then s else s[..k]
  }

  /**
   * After the move: a video whose count reached the depth constraint gets
   * the sentinel score, and the mean overlap is recorded once, or dc times
   * when the name holds "ensemble_mean" (whatever branch made the move).
   */
  function Finish(ps: Pass, v: nat, dc: nat, m: TrackMethod): (r: Pass)
    requires v < |ps.scores| && v < |ps.counts| && |ps.ious| > 0
    ensures r.ious == ps.ious && r.clouds == ps.clouds && r.counts == ps.counts && r.stopped == ps.stopped
    ensures r.scores == if ps.counts[v] >= dc then ps.scores[v := Sentinel] else ps.scores
    ensures |r.traj| == |ps.traj| + Recorded(m, dc) && r.traj[..|ps.traj|] == ps.traj
    ensures forall k :: |ps.traj| <= k < |r.traj| ==> r.traj[k] == Mean(ps.ious)
  {
    var mean := Mean(ps.ious);
    var scores := if ps.counts[v] >= dc then ps.scores[v := Sentinel] else ps.scores;
    var added := if m.recordsDepthCopies then seq(dc, _ => mean) else [mean];
    ps.(scores := scores, traj := ps.traj + added)
  }

  /** The policy's move for the selected video. */
  function Move(o: TrackOracles, gt: seq<seq<Box>>, p: TrackPolicy, dc: nat, ps: Pass, v: nat, i: nat): (r: Option<Pass>)
    requires OraclesFit(o, gt) && Shaped(ps, gt) && v < |gt|
    ensures r.Some? ==> Shaped(r.value, gt) && OnlyAt(r.value, ps, v) && r.value.traj == ps.traj
    ensures r.Some? ==> r.value.counts[v] == ps.counts[v] + Cost(p, dc) && r.value.stopped == ps.stopped
  {
    match p
    case TrackNaive => NaiveMove(o, gt, ps, v, i)
    case TrackSmart => SmartMove(o, gt, ps, v, i)
    case TrackCombined => CombinedMove(o, gt, ps, v, i)
    case TrackEnsembleMean => EnsembleMove(o, gt, dc, ps, v, i)
  }

  /** Whether the ensemble loop breaks before iteration's move: more deferrals than videos. */
  predicate Breaks(p: TrackPolicy, ps: Pass, n: nat) {
    p == TrackEnsembleMean && SumInt(ps.counts) > n
  }

  /** Iteration i of the re-query loop: the method's policy makes the move, its name decides what is recorded. */
  function Step(o: TrackOracles, gt: seq<seq<Box>>, m: TrackMethod, dc: nat, ps: Pass, i: nat): (r: Option<Pass>)
    requires OraclesFit(o, gt) && Shaped(ps, gt) && |gt| > 0
    ensures r.Some? ==> Shaped(r.value, gt)
    ensures Breaks(m.policy, ps, |gt|) ==>
      r == Some(ps.(traj := Take(ps.traj, |gt| + 1), stopped := true))
    ensures !Breaks(m.policy, ps, |gt|) && r.Some? ==> (r.value.stopped == ps.stopped &&
      OnlyAt(r.value, ps, Selected(ps)) &&
      r.value.counts[Selected(ps)] == ps.counts[Selected(ps)] + Cost(m.policy, dc) &&
      |r.value.traj| == |ps.traj| + Recorded(m, dc) && r.value.traj[..|ps.traj|] == ps.traj &&
      (forall k :: |ps.traj| <= k < |r.value.traj| ==> r.value.traj[k] == Mean(r.value.ious)))
  {
    if Breaks(m.policy, ps, |gt|) then Some(ps.(traj := Take(ps.traj, |gt| + 1), stopped := true))
    else
      var v := Selected(ps);
      match Move(o, gt, m.policy, dc, ps, v, i)
      case None => None
      case Some(moved) => Some(Finish(moved, v, dc, m))
  }

  /** Iterations i, i + 1, ... up to one per video, or until the ensemble loop breaks. */
  function Run(o: TrackOracles, gt: seq<seq<Box>>, m: TrackMethod, dc: nat, ps: Pass, i: nat): (r: Option<Pass>)
    requires OraclesFit(o, gt) && Shaped(ps, gt) && |gt| > 0 && i <= |gt|
    ensures r.Some? ==> Shaped(r.value, gt)
    decreases |gt| - i
  {
    if i == |gt| || ps.stopped then Some(ps)
    else
      match Step(o, gt, m, dc, ps, i)
      case None => None
      case Some(next) => Run(o, gt, m, dc, next, i + 1)
  }

  /** do_pass: the final state of a pass, `None` where some overlap divides by zero. */
  function PassOf(o: TrackOracles, gt: seq<seq<Box>>, m: TrackMethod, dc: nat): (r: Option<Pass>)
    requires OraclesFit(o, gt) && |gt| > 0
    ensures r.Some? ==> Shaped(r.value, gt)
  {
    match Initial(o, gt, m)
    case None => None
    case Some(start) => Run(o, gt, m, dc, start, 0)
  }

  /** The `rqr_ious` list do_pass returns. */
  function Trajectory(o: TrackOracles, gt: seq<seq<Box>>, m: TrackMethod, dc: nat): Option<seq<real>>
    requires OraclesFit(o, gt) && |gt| > 0
  {
    match PassOf(o, gt, m, dc)
    case None => None
    case Some(ps) => Some(ps.traj)
  }
}

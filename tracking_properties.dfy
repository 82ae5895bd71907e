/**
 * What a tracking pass guarantees: the depth constraint is never exceeded,
 * the trajectory has one entry per deferral (truncated once the ensemble
 * loop breaks), and with boxes of positive area the pass succeeds with
 * every recorded mean overlap in [0, 1].
 */
module TrackingProperties {
  import opened Wrappers
  import opened Numeric
  import opened Geometry
  import opened Particles
  import opened Policies
  import opened TrackingPass

  /** Exhausted videos carry the sentinel score; the others a genuine score of at most 1. */
  predicate Guarded(ps: Pass, dc: nat)
    requires |ps.scores| == |ps.counts|
  {
    forall u :: 0 <= u < |ps.counts| ==>
      (ps.counts[u] >= dc ==> ps.scores[u] == Sentinel) && (ps.counts[u] < dc ==> ps.scores[u] <= 1.0)
  }

  /** While some video still has budget left, the lowest score belongs to such a video. */
  lemma SelectedIsLive(ps: Pass, dc: nat, u: nat)
    requires |ps.scores| == |ps.counts| && u < |ps.counts|
    requires Guarded(ps, dc) && ps.counts[u] < dc
    ensures ps.counts[Selected(ps)] < dc
  {
    var v := Selected(ps);
    assert ps.scores[v] <= ps.scores[u] <= 1.0;
  }

  /** Counts within the depth constraint (0 or dc for the ensemble), summing to the deferrals made so far. */
  predicate Budget(ps: Pass, p: TrackPolicy, dc: nat, i: nat) {
    (forall u :: 0 <= u < |ps.counts| ==> 0 <= ps.counts[u] <= dc) &&
    (p == TrackEnsembleMean ==> forall u :: 0 <= u < |ps.counts| ==> ps.counts[u] == 0 || ps.counts[u] == dc) &&
    (!ps.stopped ==> SumInt(ps.counts) == Times(i, Cost(p, dc)))
  }

  /** `a * b`, unfolded one factor at a time so that the pass lemmas stay linear. */
  function Times(a: nat, b: nat): nat {
    if a == 0 then 0 else Times(a - 1, b) + b
  }

  lemma {:induction false} TimesIsProduct(a: nat, b: nat)
    ensures Times(a, b) == a * b
  {
    if a > 0 {
      TimesIsProduct(a - 1, b);
      assert a * b == (a - 1) * b + b;
    }
  }

  lemma {:induction false} TimesMonotone(a: nat, b: nat, c: nat)
    requires a <= b
    ensures Times(a, c) <= Times(b, c)
    decreases b - a
  {
    if a < b {
      TimesMonotone(a, b - 1, c);
    }
  }

  lemma TimesLess(i: nat, n: nat, dc: nat)
    requires i < n && dc >= 1
    ensures Times(i, dc) < Times(n, dc)
  {
    TimesMonotone(i + 1, n, dc);
  }

  lemma {:induction false} TimesAtLeast(n: nat, dc: nat)
    requires dc >= 1
    ensures n <= Times(n, dc)
  {
    if n > 0 {
      TimesAtLeast(n - 1, dc);
    }
  }

  /** The moved video's score stays a genuine score when it was one. */
  lemma MoveScore(o: TrackOracles, gt: seq<seq<Box>>, p: TrackPolicy, dc: nat, ps: Pass, v: nat, i: nat)
    requires OraclesFit(o, gt) && Shaped(ps, gt) && v < |gt| && ps.scores[v] <= 1.0
    requires Move(o, gt, p, dc, ps, v, i).Some?
    ensures Move(o, gt, p, dc, ps, v, i).value.scores[v] <= 1.0
  {
    var moved := Move(o, gt, p, dc, ps, v, i).value;
    match p
    case TrackNaive =>
      assert moved.scores[v] == o.score(v, i + 1, o.sample(v, i));
    case TrackSmart =>
      if moved.scores[v] != ps.scores[v] {
        assert moved.scores[v] == o.score(v, i + 1, o.sample(v, i));
      }
    case TrackCombined =>
      assert moved.scores[v] == o.score(v, i + 1, moved.clouds[v]);
    case TrackEnsembleMean =>
  }

  /** Some video has budget left before iteration i < n. */
  lemma LiveVideo(ps: Pass, p: TrackPolicy, dc: nat, i: nat, n: nat) returns (u: nat)
    requires |ps.counts| == n && i < n && dc >= 1 && !ps.stopped && Budget(ps, p, dc, i)
    ensures u < n && ps.counts[u] < dc
  {
    if forall w :: 0 <= w < n ==> ps.counts[w] >= dc {
      SumIntLowerBound(ps.counts, dc);
      TimesIsProduct(n, dc);
      if p == TrackEnsembleMean {
        TimesLess(i, n, dc);
      } else {
        TimesAtLeast(n, dc);
        TimesIsProduct(i, 1);
      }
      assert false;
    }
    u :| 0 <= u < n && ps.counts[u] < dc;
  }

  /** Finishing a move of a live video keeps the sentinel discipline and the depth budget. */
  lemma FinishKeeps(ps: Pass, moved: Pass, v: nat, dc: nat, m: TrackMethod, i: nat)
    requires |ps.scores| == |ps.counts| && OnlyAt(moved, ps, v) && |moved.ious| > 0 && !ps.stopped
    requires Guarded(ps, dc) && Budget(ps, m.policy, dc, i) && ps.counts[v] < dc
    requires moved.counts[v] == ps.counts[v] + Cost(m.policy, dc) && moved.stopped == ps.stopped && moved.scores[v] <= 1.0
    ensures var next := Finish(moved, v, dc, m);
      |next.scores| == |next.counts| && Guarded(next, dc) && Budget(next, m.policy, dc, i + 1)
  {
    var next := Finish(moved, v, dc, m);
    assert next.counts == ps.counts[v := next.counts[v]];
    SumIntUpdate(ps.counts, v, next.counts[v]);
  }

  /** One iteration keeps the sentinel discipline and the depth budget. */
  lemma StepKeeps(o: TrackOracles, gt: seq<seq<Box>>, m: TrackMethod, dc: nat, ps: Pass, i: nat)
    requires OraclesFit(o, gt) && Shaped(ps, gt) && |gt| > 0 && dc >= 1 && i < |gt| && !ps.stopped
    requires Guarded(ps, dc) && Budget(ps, m.policy, dc, i)
    requires Step(o, gt, m, dc, ps, i).Some?
    ensures Guarded(Step(o, gt, m, dc, ps, i).value, dc) && Budget(Step(o, gt, m, dc, ps, i).value, m.policy, dc, i + 1)
  {
    if !Breaks(m.policy, ps, |gt|) {
      var v := Selected(ps);
      var moved := Move(o, gt, m.policy, dc, ps, v, i).value;
      var u := LiveVideo(ps, m.policy, dc, i, |gt|);
      SelectedIsLive(ps, dc, u);
      MoveScore(o, gt, m.policy, dc, ps, v, i);
      assert Step(o, gt, m, dc, ps, i).value == Finish(moved, v, dc, m);
      FinishKeeps(ps, moved, v, dc, m, i);
    }
  }

  /** What a pass keeps to the end: the sentinel discipline and each video's depth bounds. */
  predicate Kept(r: Pass, p: TrackPolicy, dc: nat)
    requires |r.scores| == |r.counts|
  {
    Guarded(r, dc) && (forall u :: 0 <= u < |r.counts| ==> 0 <= r.counts[u] <= dc) &&
    (p == TrackEnsembleMean ==> forall u :: 0 <= u < |r.counts| ==> r.counts[u] in {0, dc})
  }

  lemma {:induction false} RunKeeps(o: TrackOracles, gt: seq<seq<Box>>, m: TrackMethod, dc: nat, ps: Pass, i: nat)
    requires OraclesFit(o, gt) && Shaped(ps, gt) && |gt| > 0 && dc >= 1 && i <= |gt|
    requires Guarded(ps, dc) && Budget(ps, m.policy, dc, i)
    requires Run(o, gt, m, dc, ps, i).Some?
    ensures Kept(Run(o, gt, m, dc, ps, i).value, m.policy, dc)
    decreases |gt| - i, 1
  {
    if i < |gt| && !ps.stopped {
      assert Step(o, gt, m, dc, ps, i).Some?;
      var next := Step(o, gt, m, dc, ps, i).value;
      assert Run(o, gt, m, dc, ps, i) == Run(o, gt, m, dc, next, i + 1);
      StepKeeps(o, gt, m, dc, ps, i);
      RunKeepsNext(o, gt, m, dc, next, i + 1);
    } else {
      assert Run(o, gt, m, dc, ps, i) == Some(ps);
    }
  }

  /** RunKeeps one deferral later, stated without the step that led there. */
  lemma {:induction false} RunKeepsNext(o: TrackOracles, gt: seq<seq<Box>>, m: TrackMethod, dc: nat, ps: Pass, i: nat)
    requires OraclesFit(o, gt) && Shaped(ps, gt) && |gt| > 0 && dc >= 1 && 0 < i <= |gt|
    requires Guarded(ps, dc) && Budget(ps, m.policy, dc, i)
    requires Run(o, gt, m, dc, ps, i).Some?
    ensures Kept(Run(o, gt, m, dc, ps, i).value, m.policy, dc)
    decreases |gt| - i, 2
  {
    RunKeeps(o, gt, m, dc, ps, i);
  }

  /**
   * The depth constraint: no video is ever re-queried more than dc times;
   * under the ensemble policy each video is deferred at most once, all dc
   * re-queries at a time.
   */
  lemma DepthConstraintRespected(o: TrackOracles, gt: seq<seq<Box>>, m: TrackMethod, dc: nat)
    requires OraclesFit(o, gt) && |gt| > 0 && dc >= 1
    requires PassOf(o, gt, m, dc).Some?
    ensures forall u :: 0 <= u < |gt| ==> 0 <= PassOf(o, gt, m, dc).value.counts[u] <= dc
    ensures m.policy == TrackEnsembleMean ==> forall u :: 0 <= u < |gt| ==>
      PassOf(o, gt, m, dc).value.counts[u] in {0, dc}
  {
    var start := Initial(o, gt, m).value;
    SumIntZeros(|gt|);
    assert start.counts == seq(|gt|, _ => 0);
    RunKeeps(o, gt, m, dc, start, 0);
  }

  /**
   * How long rqr_ious is: the initial mean, then per iteration the entries
   * the name records (dc when it holds "ensemble_mean", else one); under
   * the ensemble policy the list is cut to n + 1 entries when the loop
   * breaks, which happens exactly when (n - 1) * dc > n.
   */
  function TrajectoryLength(m: TrackMethod, n: nat, dc: nat): nat
    requires n >= 1
  {
    if m.policy == TrackEnsembleMean && Times(n - 1, dc) > n then n + 1 else 1 + Times(n, Recorded(m, dc))
  }

  /** The trajectory so far: the recorded entries of each deferral, or the truncated list once broken. */
  predicate LengthSoFar(ps: Pass, m: TrackMethod, dc: nat, i: nat, n: nat)
    requires n >= 1
  {
    if ps.stopped then
      |ps.traj| == n + 1 && m.policy == TrackEnsembleMean && Times(n - 1, dc) > n
    else
      |ps.traj| == 1 + Times(i, Recorded(m, dc)) && SumInt(ps.counts) == Times(i, Cost(m.policy, dc)) &&
      (m.policy == TrackEnsembleMean && i >= 1 ==> Times(i - 1, dc) <= n)
  }

  lemma StepLength(o: TrackOracles, gt: seq<seq<Box>>, m: TrackMethod, dc: nat, ps: Pass, i: nat, next: Pass)
    requires OraclesFit(o, gt) && Shaped(ps, gt) && |gt| > 0 && i < |gt| && !ps.stopped && m.Coherent()
    requires LengthSoFar(ps, m, dc, i, |gt|)
    requires Step(o, gt, m, dc, ps, i) == Some(next)
    ensures LengthSoFar(next, m, dc, i + 1, |gt|)
  {
    var n := |gt|;
    if Breaks(m.policy, ps, n) {
      TimesMonotone(i, n - 1, dc);
    } else {
      var v := Selected(ps);
      SumIntUpdate(ps.counts, v, next.counts[v]);
      assert next.counts == ps.counts[v := next.counts[v]];
    }
  }

  lemma {:induction false} RunLength(o: TrackOracles, gt: seq<seq<Box>>, m: TrackMethod, dc: nat, ps: Pass, i: nat)
    requires OraclesFit(o, gt) && Shaped(ps, gt) && |gt| > 0 && i <= |gt| && m.Coherent()
    requires LengthSoFar(ps, m, dc, i, |gt|)
    requires Run(o, gt, m, dc, ps, i).Some?
    ensures |Run(o, gt, m, dc, ps, i).value.traj| == TrajectoryLength(m, |gt|, dc)
    decreases |gt| - i, 1
  {
    if i < |gt| && !ps.stopped {
      assert Step(o, gt, m, dc, ps, i).Some?;
      var next := Step(o, gt, m, dc, ps, i).value;
      assert Run(o, gt, m, dc, ps, i) == Run(o, gt, m, dc, next, i + 1);
      StepLength(o, gt, m, dc, ps, i, next);
      RunLengthNext(o, gt, m, dc, next, i + 1);
    } else {
      RunLengthDone(o, gt, m, dc, ps, i);
    }
  }

  /** RunLength one deferral later, stated without the step that led there. */
  lemma {:induction false} RunLengthNext(o: TrackOracles, gt: seq<seq<Box>>, m: TrackMethod, dc: nat, ps: Pass, i: nat)
    requires OraclesFit(o, gt) && Shaped(ps, gt) && |gt| > 0 && 0 < i <= |gt| && m.Coherent()
    requires LengthSoFar(ps, m, dc, i, |gt|)
    requires Run(o, gt, m, dc, ps, i).Some?
    ensures |Run(o, gt, m, dc, ps, i).value.traj| == TrajectoryLength(m, |gt|, dc)
    decreases |gt| - i, 2
  {
    RunLength(o, gt, m, dc, ps, i);
  }

  /** Once every video has had its iteration, or the loop broke, the trajectory is complete. */
  lemma RunLengthDone(o: TrackOracles, gt: seq<seq<Box>>, m: TrackMethod, dc: nat, ps: Pass, i: nat)
    requires OraclesFit(o, gt) && Shaped(ps, gt) && |gt| > 0 && i <= |gt| && (i == |gt| || ps.stopped)
    requires LengthSoFar(ps, m, dc, i, |gt|)
    ensures Run(o, gt, m, dc, ps, i) == Some(ps)
    ensures |ps.traj| == TrajectoryLength(m, |gt|, dc)
  {
  }

  /**
   * The length of the list do_pass returns: n + 1 when the name does not
   * hold "ensemble_mean", and 1 + n * dc when it does but the loop takes
   * the naive, smart or combined branch, which never breaks.
   */
  lemma PassLength(o: TrackOracles, gt: seq<seq<Box>>, m: TrackMethod, dc: nat)
    requires OraclesFit(o, gt) && |gt| > 0 && m.Coherent()
    requires Trajectory(o, gt, m, dc).Some?
    ensures |Trajectory(o, gt, m, dc).value| == TrajectoryLength(m, |gt|, dc)
    ensures !m.recordsDepthCopies ==> |Trajectory(o, gt, m, dc).value| == |gt| + 1
    ensures m.policy != TrackEnsembleMean && m.recordsDepthCopies ==>
      |Trajectory(o, gt, m, dc).value| == 1 + |gt| * dc
  {
    var start := Initial(o, gt, m).value;
    SumIntZeros(|gt|);
    assert start.counts == seq(|gt|, _ => 0);
    RunLength(o, gt, m, dc, start, 0);
    TimesIsProduct(|gt|, Recorded(m, dc));
  }

  /**
   * The ensemble: three videos at depth 2 break after two deferrals and keep
   * four entries, two videos never break. A name holding both "smart" and
   * "ensemble_mean" takes the smart branch and records two entries per
   * iteration: seven for three videos.
   */
  lemma EnsembleBreakExample()
    ensures TrajectoryLength(TrackMethod(TrackEnsembleMean, false, true), 3, 2) == 4
    ensures TrajectoryLength(TrackMethod(TrackEnsembleMean, false, true), 2, 2) == 5
    ensures TrajectoryLength(TrackMethod(TrackEnsembleMean, false, true), 2, 3) == 3
    ensures TrajectoryLength(TrackMethod(TrackSmart, false, true), 3, 2) == 7
  {
  }

  /** Every particle's box has positive area. */
  predicate PositiveCloud(c: Cloud) {
    forall f, k :: 0 <= f < |c.locs| && 0 <= k < |c.locs[f]| ==> c.locs[f][k].PositiveArea()
  }

  /** Ground truth and every cloud the oracles hand out consist of boxes of positive area. */
  ghost predicate PositiveBoxes(o: TrackOracles, gt: seq<seq<Box>>) {
    (forall v, f :: 0 <= v < |gt| && 0 <= f < |gt[v]| ==> gt[v][f].PositiveArea()) &&
    (forall v: nat :: v < |gt| ==> PositiveCloud(o.initial(v)) && PositiveCloud(o.smeared(v))) &&
    (forall v: nat, i: nat :: v < |gt| ==> PositiveCloud(o.sample(v, i))) &&
    (forall v: nat, i: nat, j: nat :: v < |gt| ==> PositiveCloud(o.ensembleSample(v, i, j)))
  }

  predicate InUnitRange(s: seq<real>) {
    forall k :: 0 <= k < |s| ==> 0.0 <= s[k] <= 1.0
  }

  /** Positive clouds, and every overlap and recorded mean in [0, 1]. */
  predicate Sound(ps: Pass) {
    (forall v :: 0 <= v < |ps.clouds| ==> PositiveCloud(ps.clouds[v])) &&
    InUnitRange(ps.ious) && InUnitRange(ps.traj)
  }

  lemma ConcatPositive(front: Cloud, back: Cloud)
    requires front.Frames() == back.Frames() && |front.probs| == |back.probs| == front.Frames()
    requires PositiveCloud(front) && PositiveCloud(back)
    ensures PositiveCloud(Concat(front, back))
  {
    var c := Concat(front, back);
    forall f, k | 0 <= f < |c.locs| && 0 <= k < |c.locs[f]| ensures c.locs[f][k].PositiveArea() {
      assert c.locs[f] == front.locs[f] + back.locs[f];
      if k >= |front.locs[f]| {
        assert c.locs[f][k] == back.locs[f][k - |front.locs[f]|];
      }
    }
  }

  lemma {:induction false} EnsembleSamplesPositive(o: TrackOracles, gt: seq<seq<Box>>, v: nat, i: nat, j: nat)
    requires OraclesFit(o, gt) && PositiveBoxes(o, gt) && v < |gt|
    ensures PositiveCloud(EnsembleSamples(o, gt, v, i, j))
  {
    if j > 0 {
      EnsembleSamplesPositive(o, gt, v, i, j - 1);
      ConcatPositive(o.ensembleSample(v, i, j), EnsembleSamples(o, gt, v, i, j - 1));
    }
  }

  /** The overlap of a positive cloud over a positive video is defined and in [0, 1]. */
  lemma CloudIoU(o: TrackOracles, gt: seq<seq<Box>>, v: nat, c: Cloud)
    requires OraclesFit(o, gt) && PositiveBoxes(o, gt) && v < |gt| && Fits(c, gt[v]) && PositiveCloud(c)
    ensures VidIoUOf(gt[v], c).Some? && 0.0 <= VidIoUOf(gt[v], c).value <= 1.0
  {
    VidIoUBounds(gt[v], c);
  }

  lemma MoveSound(o: TrackOracles, gt: seq<seq<Box>>, p: TrackPolicy, dc: nat, ps: Pass, v: nat, i: nat)
    requires OraclesFit(o, gt) && PositiveBoxes(o, gt) && Shaped(ps, gt) && v < |gt| && Sound(ps)
    ensures Move(o, gt, p, dc, ps, v, i).Some?
    ensures InUnitRange(Move(o, gt, p, dc, ps, v, i).value.ious)
    ensures forall u :: 0 <= u < |gt| ==> PositiveCloud(Move(o, gt, p, dc, ps, v, i).value.clouds[u])
  {
    match p
    case TrackNaive =>
      CloudIoU(o, gt, v, o.sample(v, i));
    case TrackSmart =>
      CloudIoU(o, gt, v, o.sample(v, i));
    case TrackCombined =>
      CloudIoU(o, gt, v, Reweighted(ps.clouds[v], o.density(v, i)));
    case TrackEnsembleMean =>
      EnsembleSamplesPositive(o, gt, v, i, dc);
      CloudIoU(o, gt, v, EnsembleCloud(o, gt, v, i, dc));
  }

  lemma StepSound(o: TrackOracles, gt: seq<seq<Box>>, m: TrackMethod, dc: nat, ps: Pass, i: nat)
    requires OraclesFit(o, gt) && PositiveBoxes(o, gt) && Shaped(ps, gt) && |gt| > 0 && Sound(ps)
    ensures Step(o, gt, m, dc, ps, i).Some? && Sound(Step(o, gt, m, dc, ps, i).value)
  {
    if !Breaks(m.policy, ps, |gt|) {
      var v := Selected(ps);
      MoveSound(o, gt, m.policy, dc, ps, v, i);
      var moved := Move(o, gt, m.policy, dc, ps, v, i).value;
      MeanBounds(moved.ious, 0.0, 1.0);
      var next := Step(o, gt, m, dc, ps, i).value;
      assert next == Finish(moved, v, dc, m);
      forall k | 0 <= k < |next.traj| ensures 0.0 <= next.traj[k] <= 1.0 {
        if k < |ps.traj| {
          assert next.traj[k] == next.traj[..|ps.traj|][k];
        }
      }
    }
  }

  lemma {:induction false} RunSound(o: TrackOracles, gt: seq<seq<Box>>, m: TrackMethod, dc: nat, ps: Pass, i: nat)
    requires OraclesFit(o, gt) && PositiveBoxes(o, gt) && Shaped(ps, gt) && |gt| > 0 && i <= |gt| && Sound(ps)
    ensures Run(o, gt, m, dc, ps, i).Some? && Sound(Run(o, gt, m, dc, ps, i).value)
    decreases |gt| - i, 1
  {
    if i < |gt| && !ps.stopped {
      StepSound(o, gt, m, dc, ps, i);
      var next := Step(o, gt, m, dc, ps, i).value;
      assert Run(o, gt, m, dc, ps, i) == Run(o, gt, m, dc, next, i + 1);
      RunSoundNext(o, gt, m, dc, next, i + 1);
    } else {
      assert Run(o, gt, m, dc, ps, i) == Some(ps);
    }
  }

  /** RunSound one deferral later, stated without the step that led there. */
  lemma {:induction false} RunSoundNext(o: TrackOracles, gt: seq<seq<Box>>, m: TrackMethod, dc: nat, ps: Pass, i: nat)
    requires OraclesFit(o, gt) && PositiveBoxes(o, gt) && Shaped(ps, gt) && |gt| > 0 && 0 < i <= |gt| && Sound(ps)
    ensures Run(o, gt, m, dc, ps, i).Some? && Sound(Run(o, gt, m, dc, ps, i).value)
    decreases |gt| - i, 2
  {
    RunSound(o, gt, m, dc, ps, i);
  }

  /**
   * With boxes of positive area no overlap divides by zero: the pass
   * completes and every recorded mean overlap lies in [0, 1].
   */
  lemma PassBounds(o: TrackOracles, gt: seq<seq<Box>>, m: TrackMethod, dc: nat)
    requires OraclesFit(o, gt) && PositiveBoxes(o, gt) && |gt| > 0
    ensures Trajectory(o, gt, m, dc).Some?
    ensures InUnitRange(Trajectory(o, gt, m, dc).value)
  {
    var ious := InitialIoUs(o, gt, m);
    forall v | 0 <= v < |gt| ensures ious[v].Some? && 0.0 <= ious[v].value <= 1.0 && PositiveCloud(InitialCloud(o, gt, m, v)) {
      if m.smearsInitialCloud {
        ConcatPositive(o.initial(v), o.smeared(v));
      }
      CloudIoU(o, gt, v, InitialCloud(o, gt, m, v));
    }
    var start := Initial(o, gt, m).value;
    MeanBounds(start.ious, 0.0, 1.0);
    RunSound(o, gt, m, dc, start, 0);
  }
}

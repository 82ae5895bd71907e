/**
 * do_pass and the driver around it as the loops they are: lists that the
 * pass updates entry by entry, a re-query counter array, particle
 * dictionaries updated in place, and the three-dimensional array of saved
 * passes. Each method is tied to the value model of a pass.
 */
module TrackingLoop {
  import opened Wrappers
  import opened Numeric
  import opened Geometry
  import opened Particles
  import opened Policies
  import opened TrackingPass
  import opened TrackingProperties

  /** The pass state the loop's variables stand for. */
  function Current(scores: seq<real>, ious: seq<real>, clouds: seq<Cloud>, counts: seq<int>, traj: seq<real>): Pass {
    Pass(scores, ious, clouds, counts, traj, false)
  }

  /** The initial loop over videos: draw, optionally smear, score and measure each video's first cloud. */
  method InitialRun(o: TrackOracles, gt: seq<seq<Box>>, m: TrackMethod)
    returns (ok: bool, scores: seq<real>, ious: seq<real>, clouds: seq<Cloud>)
    requires OraclesFit(o, gt) && |gt| > 0
    ensures ok <==> Initial(o, gt, m).Some?
    ensures ok ==> (|ious| == |gt| &&
      Initial(o, gt, m).value == Current(scores, ious, clouds, seq(|gt|, _ => 0), [Mean(ious)]))
  {
    scores, ious, clouds := [], [], [];
    for v := 0 to |gt|
      invariant |scores| == |ious| == |clouds| == v
      invariant forall u :: 0 <= u < v ==>
        clouds[u] == InitialCloud(o, gt, m, u) && scores[u] == o.score(u, 0, clouds[u]) &&
        Some(ious[u]) == InitialIoUs(o, gt, m)[u]
    {
      var cloud: Cloud;
      if !m.smearsInitialCloud {
        cloud := o.initial(v);
      } else {
        var base := new Particles(o.initial(v));
        base.Append(o.smeared(v));
        cloud := base.Value();
      }
      clouds := clouds + [cloud];
      scores := scores + [o.score(v, 0, cloud)];
      var iou := VidIoU(gt[v], cloud);
      if iou.None? {
        assert InitialIoUs(o, gt, m)[v].None?;
        return false, scores, ious, clouds;
      }
      ious := ious + [iou.value];
    }
    ok := true;
    ghost var start := Initial(o, gt, m).value;
    assert start.scores == scores && start.ious == ious && start.clouds == clouds;
    assert start.counts == seq(|gt|, _ => 0);
  }

  /** Naive replacement of video v's score and overlap by those of a fresh annotator. */
  method NaiveReplace(o: TrackOracles, gt: seq<seq<Box>>, scores: seq<real>, ious: seq<real>, clouds: seq<Cloud>,
                      counts: array<int>, traj: seq<real>, v: nat, i: nat)
    returns (ok: bool, scores': seq<real>, ious': seq<real>)
    requires OraclesFit(o, gt) && Shaped(Current(scores, ious, clouds, counts[..], traj), gt) && v < |gt|
    modifies counts
    ensures var r := NaiveMove(o, gt, Current(scores, ious, clouds, old(counts[..]), traj), v, i);
      (ok <==> r.Some?) && (ok ==> r.value == Current(scores', ious', clouds, counts[..], traj))
  {
    counts[v] := counts[v] + 1;
    var samples := o.sample(v, i);
    var newIoU := VidIoU(gt[v], samples);
    var newScore := o.score(v, i + 1, samples);
    if newIoU.None? {
      return false, scores, ious;
    }
    ok, scores', ious' := true, scores[v := newScore], ious[v := newIoU.value];
  }

  /** Smart replacement: the fresh annotator's particles are kept only when they score higher. */
  method SmartReplace(o: TrackOracles, gt: seq<seq<Box>>, scores: seq<real>, ious: seq<real>, clouds: seq<Cloud>,
                      counts: array<int>, traj: seq<real>, v: nat, i: nat)
    returns (ok: bool, scores': seq<real>, ious': seq<real>)
    requires OraclesFit(o, gt) && Shaped(Current(scores, ious, clouds, counts[..], traj), gt) && v < |gt|
    modifies counts
    ensures var r := SmartMove(o, gt, Current(scores, ious, clouds, old(counts[..]), traj), v, i);
      (ok <==> r.Some?) && (ok ==> r.value == Current(scores', ious', clouds, counts[..], traj))
  {
    counts[v] := counts[v] + 1;
    var samples := o.sample(v, i);
    var newScore := o.score(v, i + 1, samples);
    ok, scores', ious' := true, scores, ious;
    if newScore > scores[v] {
      scores' := scores[v := newScore];
      var newIoU := VidIoU(gt[v], samples);
      if newIoU.None? {
        return false, scores, ious;
      }
      ious' := ious[v := newIoU.value];
    }
  }

  /** Combined replacement: update_probs on the video's own particles, then rescoring. */
  method CombinedReplace(o: TrackOracles, gt: seq<seq<Box>>, scores: seq<real>, ious: seq<real>, clouds: seq<Cloud>,
                         counts: array<int>, traj: seq<real>, v: nat, i: nat)
    returns (ok: bool, scores': seq<real>, ious': seq<real>, clouds': seq<Cloud>)
    requires OraclesFit(o, gt) && Shaped(Current(scores, ious, clouds, counts[..], traj), gt) && v < |gt|
    modifies counts
    ensures var r := CombinedMove(o, gt, Current(scores, ious, clouds, old(counts[..]), traj), v, i);
      (ok <==> r.Some?) && (ok ==> r.value == Current(scores', ious', clouds', counts[..], traj))
  {
    counts[v] := counts[v] + 1;
    var particles := new Particles(clouds[v]);
    particles.UpdateProbs(o.density(v, i));
    assert particles.Value() == Reweighted(clouds[v], o.density(v, i));
    clouds' := clouds[v := particles.Value()];
    scores' := scores[v := o.score(v, i + 1, clouds'[v])];
    var newIoU := VidIoU(gt[v], clouds'[v]);
    if newIoU.None? {
      return false, scores, ious, clouds;
    }
    ok, ious' := true, ious[v := newIoU.value];
  }

  /**
   * The ensemble's cloud: the first annotator's samples, each further
   * distribution's samples put in front, then every weight replaced by the
   * mean density of the dc + 1 distributions.
   */
  method BuildEnsemble(o: TrackOracles, gt: seq<seq<Box>>, v: nat, i: nat, dc: nat) returns (c: Cloud)
    requires OraclesFit(o, gt) && v < |gt|
    ensures c == EnsembleCloud(o, gt, v, i, dc)
  {
    var densities := [o.ensembleDensity(v, i, 0)];
    for j := 0 to dc
      invariant densities == EnsembleDensities(o, v, i, j)
    {
      densities := densities + [o.ensembleDensity(v, i, j + 1)];
    }
    var samples := new Particles(o.ensembleSample(v, i, 0));
    for j := 1 to dc + 1
      invariant samples.Value() == EnsembleSamples(o, gt, v, i, j - 1)
    {
      samples.Prepend(o.ensembleSample(v, i, j));
    }
    samples.SetMeanDensity(densities);
    c := samples.Value();
  }

  /** Ensemble deferral: dc re-queries at once, and the overlap of the ensemble's cloud. */
  method EnsembleReplace(o: TrackOracles, gt: seq<seq<Box>>, dc: nat, scores: seq<real>, ious: seq<real>,
                         clouds: seq<Cloud>, counts: array<int>, traj: seq<real>, v: nat, i: nat)
    returns (ok: bool, ious': seq<real>)
    requires OraclesFit(o, gt) && Shaped(Current(scores, ious, clouds, counts[..], traj), gt) && v < |gt|
    modifies counts
    ensures var r := EnsembleMove(o, gt, dc, Current(scores, ious, clouds, old(counts[..]), traj), v, i);
      (ok <==> r.Some?) && (ok ==> r.value == Current(scores, ious', clouds, counts[..], traj))
  {
    counts[v] := counts[v] + dc;
    var c := BuildEnsemble(o, gt, v, i, dc);
    var newIoU := VidIoU(gt[v], c);
    if newIoU.None? {
      return false, ious;
    }
    ok, ious' := true, ious[v := newIoU.value];
  }

  /** The policy's move, dispatched as the method name selects it. */
  method Replace(o: TrackOracles, gt: seq<seq<Box>>, p: TrackPolicy, dc: nat, scores: seq<real>, ious: seq<real>,
                 clouds: seq<Cloud>, counts: array<int>, traj: seq<real>, v: nat, i: nat)
    returns (ok: bool, scores': seq<real>, ious': seq<real>, clouds': seq<Cloud>)
    requires OraclesFit(o, gt) && Shaped(Current(scores, ious, clouds, counts[..], traj), gt) && v < |gt|
    modifies counts
    ensures var r := Move(o, gt, p, dc, Current(scores, ious, clouds, old(counts[..]), traj), v, i);
      (ok <==> r.Some?) && (ok ==> r.value == Current(scores', ious', clouds', counts[..], traj))
  {
    clouds' := clouds;
    match p
    case TrackNaive =>
      ok, scores', ious' := NaiveReplace(o, gt, scores, ious, clouds, counts, traj, v, i);
    case TrackSmart =>
      ok, scores', ious' := SmartReplace(o, gt, scores, ious, clouds, counts, traj, v, i);
    case TrackCombined =>
      ok, scores', ious', clouds' := CombinedReplace(o, gt, scores, ious, clouds, counts, traj, v, i);
    case TrackEnsembleMean =>
      scores' := scores;
      ok, ious' := EnsembleReplace(o, gt, dc, scores, ious, clouds, counts, traj, v, i);
  }

  /**
   * One iteration that does not break: re-query the lowest-scoring video,
   * apply the depth sentinel, record the mean overlap.
   */
  method Iterate(o: TrackOracles, gt: seq<seq<Box>>, m: TrackMethod, dc: nat, scores: seq<real>, ious: seq<real>,
                 clouds: seq<Cloud>, counts: array<int>, traj: seq<real>, i: nat)
    returns (ok: bool, scores': seq<real>, ious': seq<real>, clouds': seq<Cloud>, traj': seq<real>)
    requires OraclesFit(o, gt) && |gt| > 0 && Shaped(Current(scores, ious, clouds, counts[..], traj), gt)
    requires !Breaks(m.policy, Current(scores, ious, clouds, counts[..], traj), |gt|)
    modifies counts
    ensures var r := Step(o, gt, m, dc, Current(scores, ious, clouds, old(counts[..]), traj), i);
      (ok <==> r.Some?) && (ok ==> r == Some(Current(scores', ious', clouds', counts[..], traj')))
  {
    ghost var cur := Current(scores, ious, clouds, counts[..], traj);
    var v := ArgMin(scores);
    ok, scores', ious', clouds' := Replace(o, gt, m.policy, dc, scores, ious, clouds, counts, traj, v, i);
    traj' := traj;
    if !ok {
      return;
    }
    ghost var moved := Current(scores', ious', clouds', counts[..], traj);
    if counts[v] >= dc {
      scores' := scores'[v := Sentinel];
    }
    var mean := Mean(ious');
    if m.recordsDepthCopies {
      traj' := traj + seq(dc, _ => mean);
    } else {
      traj' := traj + [mean];
    }
    assert Finish(moved, v, dc, m) == Current(scores', ious', clouds', counts[..], traj');
  }

  /** Once the ensemble loop breaks, the run ends with the truncated list. */
  lemma BreakEnds(o: TrackOracles, gt: seq<seq<Box>>, m: TrackMethod, dc: nat, ps: Pass, i: nat)
    requires OraclesFit(o, gt) && |gt| > 0 && Shaped(ps, gt) && i < |gt| && !ps.stopped && Breaks(m.policy, ps, |gt|)
    ensures Run(o, gt, m, dc, ps, i) == Some(ps.(traj := Take(ps.traj, |gt| + 1), stopped := true))
  {
    var stopped := ps.(traj := Take(ps.traj, |gt| + 1), stopped := true);
    assert Run(o, gt, m, dc, stopped, i + 1) == Some(stopped);
  }

  /** A run is its first step followed by the rest. */
  lemma RunStep(o: TrackOracles, gt: seq<seq<Box>>, m: TrackMethod, dc: nat, ps: Pass, i: nat)
    requires OraclesFit(o, gt) && |gt| > 0 && Shaped(ps, gt) && i < |gt| && !ps.stopped
    ensures Step(o, gt, m, dc, ps, i).None? ==> Run(o, gt, m, dc, ps, i).None?
    ensures Step(o, gt, m, dc, ps, i).Some? ==>
      Run(o, gt, m, dc, ps, i) == Run(o, gt, m, dc, Step(o, gt, m, dc, ps, i).value, i + 1)
  {
  }

  /** After the last video's iteration the run has nothing left to do. */
  lemma RunEnds(o: TrackOracles, gt: seq<seq<Box>>, m: TrackMethod, dc: nat, ps: Pass)
    requires OraclesFit(o, gt) && |gt| > 0 && Shaped(ps, gt)
    ensures Run(o, gt, m, dc, ps, |gt|) == Some(ps)
  {
  }

  /**
   * The re-query loop of do_pass: one iteration per video, leaving early
   * under the ensemble policy once more deferrals than videos have been
   * made, with the list cut to n + 1 entries.
   */
  method RequeryLoop(o: TrackOracles, gt: seq<seq<Box>>, m: TrackMethod, dc: nat, scores: seq<real>, ious: seq<real>,
                     clouds: seq<Cloud>, counts: array<int>, traj: seq<real>, ghost final: Option<Pass>)
    returns (r: Option<seq<real>>)
    requires OraclesFit(o, gt) && |gt| > 0 && Shaped(Current(scores, ious, clouds, counts[..], traj), gt)
    requires Run(o, gt, m, dc, Current(scores, ious, clouds, counts[..], traj), 0) == final
    modifies counts
    ensures r == if final.Some? then Some(final.value.traj) else None
  {
    var scores, ious, clouds, traj := scores, ious, clouds, traj;
    for i := 0 to |gt|
      invariant Shaped(Current(scores, ious, clouds, counts[..], traj), gt)
      invariant Run(o, gt, m, dc, Current(scores, ious, clouds, counts[..], traj), i) == final
    {
      var done;
      done, r, scores, ious, clouds, traj := Advance(o, gt, m, dc, scores, ious, clouds, counts, traj, i, final);
      if done {
        return;
      }
    }
    RunEnds(o, gt, m, dc, Current(scores, ious, clouds, counts[..], traj));
    r := Some(traj);
  }

  /**
   * One pass of the re-query loop from iteration i: either the pass ends
   * here (the ensemble loop breaks, or an overlap divides by zero) with the
   * trajectory the whole run ends with, or the next state carries the run on.
   */
  method Advance(o: TrackOracles, gt: seq<seq<Box>>, m: TrackMethod, dc: nat, scores: seq<real>, ious: seq<real>,
                 clouds: seq<Cloud>, counts: array<int>, traj: seq<real>, i: nat, ghost final: Option<Pass>)
    returns (done: bool, r: Option<seq<real>>, scores': seq<real>, ious': seq<real>, clouds': seq<Cloud>,
             traj': seq<real>)
    requires OraclesFit(o, gt) && |gt| > 0 && i < |gt| && Shaped(Current(scores, ious, clouds, counts[..], traj), gt)
    requires Run(o, gt, m, dc, Current(scores, ious, clouds, counts[..], traj), i) == final
    modifies counts
    ensures done ==> r == (if final.Some? then Some(final.value.traj) else None)
    ensures !done ==> Shaped(Current(scores', ious', clouds', counts[..], traj'), gt)
    ensures !done ==> Run(o, gt, m, dc, Current(scores', ious', clouds', counts[..], traj'), i + 1) == final
  {
    ghost var cur := Current(scores, ious, clouds, counts[..], traj);
    if m.policy == TrackEnsembleMean && SumInt(counts[..]) > |gt| {
      // The loop breaks here and do_pass returns the truncated list.
      BreakEnds(o, gt, m, dc, cur, i);
      return true, Some(Take(traj, |gt| + 1)), scores, ious, clouds, traj;
    }
    var ok;
    ok, scores', ious', clouds', traj' := Iterate(o, gt, m, dc, scores, ious, clouds, counts, traj, i);
    RunStep(o, gt, m, dc, cur, i);
    done, r := !ok, None;
  }

  /** do_pass: the initial run over all videos, then the re-query loop. */
  method DoPass(o: TrackOracles, gt: seq<seq<Box>>, m: TrackMethod, dc: nat) returns (r: Option<seq<real>>)
    requires OraclesFit(o, gt) && |gt| > 0
    ensures r == Trajectory(o, gt, m, dc)
  {
    var ok, scores, ious, clouds := InitialRun(o, gt, m);
    if !ok {
      return None;
    }
    var counts := new int[|gt|](_ => 0);
    assert counts[..] == seq(|gt|, _ => 0);
    var traj := [Mean(ious)];
    r := RequeryLoop(o, gt, m, dc, scores, ious, clouds, counts, traj,
                     Run(o, gt, m, dc, Current(scores, ious, clouds, counts[..], traj), 0));
  }

  /** One pass's trajectory written, as error rates, into slice [d, :len, pass] of the saved array. */
  method FillSlice(saved: array3<real>, d: nat, traj: seq<real>, curPass: nat)
    requires d < saved.Length0 && |traj| <= saved.Length1 && curPass < saved.Length2
    modifies saved
    ensures forall a, k, q :: 0 <= a < saved.Length0 && 0 <= k < saved.Length1 && 0 <= q < saved.Length2 ==>
      saved[a, k, q] == if a == d && k < |traj| && q == curPass then 1.0 - traj[k] else old(saved[a, k, q])
  {
    for k := 0 to |traj|
      invariant forall a, k', q :: 0 <= a < saved.Length0 && 0 <= k' < saved.Length1 && 0 <= q < saved.Length2 ==>
        saved[a, k', q] == if a == d && k' < k && q == curPass then 1.0 - traj[k'] else old(saved[a, k', q])
    {
      saved[d, k, curPass] := 1.0 - traj[k];
    }
  }

  /** What the saved array holds at [d, k, q] once the passes of depth constraints 1 .. |trajs| are written. */
  function SavedValue(trajs: seq<seq<real>>, curPass: nat, d: nat, k: nat, q: nat): real {
    if d < |trajs| && q == curPass && k < |trajs[d]| then 1.0 - trajs[d][k] else 0.0
  }

  /** The saved array holds the passes written so far. */
  ghost predicate Saved(saved: array3<real>, trajs: seq<seq<real>>, curPass: nat)
    reads saved
  {
    forall d, k, q :: 0 <= d < saved.Length0 && 0 <= k < saved.Length1 && 0 <= q < saved.Length2 ==>
      saved[d, k, q] == SavedValue(trajs, curPass, d, k, q)
  }

  /** Writing the next pass's slice. */
  method WritePass(saved: array3<real>, ghost trajs: seq<seq<real>>, d: nat, traj: seq<real>, curPass: nat)
    requires d == |trajs| < saved.Length0 && |traj| <= saved.Length1 && curPass < saved.Length2
    requires Saved(saved, trajs, curPass)
    modifies saved
    ensures Saved(saved, trajs + [traj], curPass)
  {
    FillSlice(saved, d, traj, curPass);
  }

  /**
   * The pass at depth constraint `dc` as the driver can store it: `None`
   * where do_pass fails, and where its list is longer than the 101 slots of
   * the saved array (numpy raises ValueError on the slice assignment).
   */
  function StoredTrajectory(o: TrackOracles, gt: seq<seq<Box>>, m: TrackMethod, dc: nat): (r: Option<seq<real>>)
    requires OraclesFit(o, gt) && |gt| > 0
    ensures r.Some? <==> Trajectory(o, gt, m, dc).Some? && |Trajectory(o, gt, m, dc).value| <= 101
    ensures r.Some? ==> r == Trajectory(o, gt, m, dc)
  {
    match Trajectory(o, gt, m, dc)
    case Some(traj) => if |traj| <= 101 then Some(traj) else None
    case None => None
  }

  /**
   * On at most 100 videos with depth at most 10 a pass fits the 101 slots
   * unless its name holds "ensemble_mean" while the loop takes another
   * branch; such a pass fits exactly when n * dc <= 100.
   */
  lemma TrajectoryFits(m: TrackMethod, n: nat, dc: nat)
    requires 1 <= n <= 100 && 1 <= dc <= 10 && m.Coherent()
    ensures m.policy == TrackEnsembleMean || !m.recordsDepthCopies ==> TrajectoryLength(m, n, dc) <= 101
    ensures m.policy != TrackEnsembleMean && m.recordsDepthCopies ==> (TrajectoryLength(m, n, dc) <= 101 <==> n * dc <= 100)
  {
    TimesIsProduct(n, Recorded(m, dc));
    if m.policy == TrackEnsembleMean && Times(n - 1, dc) <= n {
      TimesIsProduct(n - 1, dc);
      UnbrokenEnsembleFits(n, dc);
    }
  }

  /** An ensemble pass that never breaks has at most two videos or depth one, so n * dc stays small. */
  lemma UnbrokenEnsembleFits(n: nat, dc: nat)
    requires 1 <= n <= 100 && 1 <= dc <= 10 && (n - 1) * dc <= n
    ensures n * dc <= 100
  {
    if dc >= 2 {
      assert (n - 1) * dc >= (n - 1) * 2;
      assert n <= 2;
      assert n * dc <= 2 * dc;
    }
  }

  /** Where it fits, the stored pass is do_pass's own list. */
  lemma StoredWhenFits(o: TrackOracles, gt: seq<seq<Box>>, m: TrackMethod, dc: nat)
    requires OraclesFit(o, gt) && 1 <= |gt| <= 100 && 1 <= dc <= 10 && m.Coherent()
    requires m.policy == TrackEnsembleMean || !m.recordsDepthCopies
    ensures StoredTrajectory(o, gt, m, dc) == Trajectory(o, gt, m, dc)
  {
    if Trajectory(o, gt, m, dc).Some? {
      PassLength(o, gt, m, dc);
      TrajectoryFits(m, |gt|, dc);
    }
  }

  /** One iteration of the driver: the pass at depth constraint `dc`, written into its slice when it fits. */
  method DepthPass(o: TrackOracles, gt: seq<seq<Box>>, m: TrackMethod, dc: nat, saved: array3<real>,
                   ghost trajs: seq<seq<real>>, curPass: nat) returns (traj: Option<seq<real>>)
    requires OraclesFit(o, gt) && 1 <= |gt| && 1 <= dc <= 10 && |trajs| == dc - 1
    requires saved.Length0 == 10 && saved.Length1 == 101 && saved.Length2 == 100 && curPass < 100
    requires Saved(saved, trajs, curPass)
    modifies saved
    ensures traj == StoredTrajectory(o, gt, m, dc)
    ensures traj.Some? ==> Saved(saved, trajs + [traj.value], curPass)
  {
    traj := DoPass(o, gt, m, dc);
    if traj.Some? {
      if |traj.value| > saved.Length1 {
        // The slice `[:len]` stops at 101 entries and cannot take the longer list.
        return None;
      }
      WritePass(saved, trajs, dc - 1, traj.value, curPass);
    }
  }

  /**
   * The driver: a (10, 101, 100) array of zeros, and for each depth
   * constraint 1 .. 10 the pass's error rates (one minus the mean overlap)
   * in slot [dc - 1, :len, cur_pass]. `None` when one of the passes fails
   * or does not fit its slice.
   */
  method SavePasses(os: seq<TrackOracles>, gt: seq<seq<Box>>, m: TrackMethod, curPass: nat)
    returns (r: Option<array3<real>>, ghost trajs: seq<seq<real>>)
    requires |os| == 10 && (forall d :: 0 <= d < 10 ==> OraclesFit(os[d], gt))
    requires 1 <= |gt| && curPass < 100
    ensures r.Some? <==> forall d :: 0 <= d < 10 ==> StoredTrajectory(os[d], gt, m, d + 1).Some?
    ensures r.Some? ==> (fresh(r.value) &&
      r.value.Length0 == 10 && r.value.Length1 == 101 && r.value.Length2 == 100 && |trajs| == 10 &&
      (forall d :: 0 <= d < 10 ==> Some(trajs[d]) == StoredTrajectory(os[d], gt, m, d + 1)) &&
      Saved(r.value, trajs, curPass))
  {
    var saved := new real[10, 101, 100]((_, _, _) => 0.0);
    trajs := [];
    for dc := 1 to 11
      invariant |trajs| == dc - 1
      invariant forall d :: 0 <= d < dc - 1 ==> Some(trajs[d]) == StoredTrajectory(os[d], gt, m, d + 1)
      invariant Saved(saved, trajs, curPass)
    {
      var traj := DepthPass(os[dc - 1], gt, m, dc, saved, trajs, curPass);
      if traj.None? {
        return None, trajs;
      }
      ghost var before := trajs;
      trajs := trajs + [traj.value];
      forall d | 0 <= d < dc ensures Some(trajs[d]) == StoredTrajectory(os[d], gt, m, d + 1) {
        if d < dc - 1 {
          assert trajs[d] == before[d];
        }
      }
    }
    r := Some(saved);
  }

  /** With boxes of positive area every pass completes and every saved error rate lies in [0, 1]. */
  lemma SavedErrorRates(os: seq<TrackOracles>, gt: seq<seq<Box>>, m: TrackMethod, trajs: seq<seq<real>>,
                        curPass: nat, d: nat, k: nat, q: nat)
    requires |os| == 10 && |gt| >= 1 && |trajs| == 10 && d < 10
    requires forall a :: 0 <= a < 10 ==> OraclesFit(os[a], gt) && PositiveBoxes(os[a], gt)
    requires forall a :: 0 <= a < 10 ==> Some(trajs[a]) == StoredTrajectory(os[a], gt, m, a + 1)
    ensures 0.0 <= SavedValue(trajs, curPass, d, k, q) <= 1.0
  {
    PassBounds(os[d], gt, m, d + 1);
  }
}

# Deferral simulation for referring expressions and visual tracking

This project models the re-query ("deferral") simulations of a study on
when to ask a human a second time. It covers two task variants.

- **Referring expressions.** One trial draws one model output per target.
  While the total number of re-queries is below the number of targets, it
  does three things:
  - records the error of the current draw at the current total;
  - picks a target;
  - fetches fresh replies for that target and applies a replacement
    policy to it.

  The five policies are naive, combined, smart, ensemble mean and
  ensemble consensus. The depth limit works through the sentinel score
  -1e6.
- **Visual object tracking.** One pass scores every video's particle
  cloud. It re-queries the lowest-scoring video once per video, and
  records the mean per-video overlap. It has four policies: naive, smart,
  combined and ensemble mean. The sentinel score is 1e6. The pass driver
  writes the error rates of ten passes into a 10 x 101 x 100 array.
- **The geometry and particle helpers**: box overlap, per-video overlap,
  the additive weight update and the sampled overlaps.
- **Three post-processing scripts:**
  - the pickle combiner, with its file filter, key repair and
    zero-column backfill;
  - the result-key parser behind the DEV table;
  - the best/worst accuracy aggregation.

Everything outside the loops becomes an input, either as a datatype of
oracles or as explicit parameters. This covers database draws, the target
selection, rejection scores, errors, overlaps, fitted densities and random
choices. For the exact list, see "Left out". Scores, probabilities and
coordinates are reals.

Code that changes state becomes methods with loops. Each method is
proved equal to a value-level specification function, and the properties
are proved about those functions:
- the RefExp trial loop over arrays of a draw;
- `do_pass` and the saved-passes driver;
- `update_probs` on a particle object;
- the combiner's loops and its in-place column backfill;
- the `with_depth_dict` loop;
- the best-accuracy dicts.

Modules:

| module | models |
|---|---|
| `Numeric`, `Strings`, `Wrappers` | numpy vector operations, Python string operations (`in`, `split`, `replace`, `lower`, `int`/`str`), Option/Result |
| `FailureModes`, `Policies` | failure modes; policy names and their substring dispatch |
| `Geometry`, `Particles` | `calc_frame_iou`, `sample_ious`, `calc_vid_iou`, `update_probs`, particle clouds |
| `Consensus` | the mode list of `Counter(choices).most_common()` |
| `RefExpTrial`, `RefExpLoop` | the RefExp trial as values, and as methods on arrays |
| `TrackingPass`, `TrackingProperties`, `TrackingLoop` | `do_pass` as values, its properties, and the methods |
| `ColumnBackfill`, `CombinePickles` | `combine_pickles.py` |
| `CalcDev` | `calc_dev.py` |
| `BestAcc` | `calc_best_acc.py` |

The model follows the code, not the prose around it, in these places:
- The combiner reads `rmaes` from every record. The result pickles written
  at `RefExp/generate_performance_pickles.py:268-271` store only `errors`.
  The model's records hold both matrices, as the combiner expects.
- `calc_dev.py` re-joins the first two `_` fields only for keys with
  exactly three fields. A key with more fields keeps its first two fields
  as method and depth, and the model does the same.

## Model

| member | source | states |
|---|---|---|
| Numeric.Mul | RefExp/generate_performance_pickles.py:111-113 | elementwise product of two equal-length vectors |
| Numeric.Add | RefExp/generate_performance_pickles.py:195-196 | elementwise sum of two equal-length vectors |
| Numeric.Div | RefExp/generate_performance_pickles.py:116-117 | every element divided by a non-zero scalar |
| Numeric.ArgMax | RefExp/generate_performance_pickles.py:140 | numpy `argmax`: an index of a largest element, and no earlier index holds it |
| Numeric.ArgMin | VOT/perform_runs.py:107 | numpy `argmin`: an index of a smallest element, and no earlier index holds it |
| Numeric.NormalizedSumsToOne | RefExp/generate_performance_pickles.py:116-117 | a vector divided by its non-zero sum sums to one |
| Strings.Contains | RefExp/generate_performance_pickles.py:88 | Python's `p in s`: true exactly when some window of `s` spells `p` |
| Strings.Split | RefExp/calc_dev.py:26 | `s.split(sep)`: at least one field, none holds `sep`, and joining them with `sep` gives `s` back |
| Strings.SplitJoin | RefExp/calc_dev.py:70-76 | splitting a join of separator-free fields gives the fields back |
| Strings.Replace | RefExp/combine_pickles.py:40 | `s.replace(p, r)` leaves a string without `p` unchanged |
| Strings.ReplaceLeftmost | RefExp/combine_pickles.py:40 | the scan from the left: everything before the first occurrence of `p` is kept, that occurrence becomes `r`, and the rest is replaced on its own |
| Strings.ReplaceBySelf | RefExp/combine_pickles.py:40 | replacing `p` by `p` leaves every string as it was |
| Strings.ReplaceSingle | RefExp/combine_pickles.py:40 | with one occurrence of `p` whose first character occurs nowhere else, exactly that occurrence becomes `r` |
| Strings.ToLower | RefExp/combine_pickles.py:26 | `lower()` keeps the length and lowers every ASCII capital, character by character |
| Strings.ParseShowInt | RefExp/generate_performance_pickles.py:89 | `int(str(i)) == i` for every integer |
| Policies.ParseReplacementMethod | RefExp/generate_performance_pickles.py:88-228 | `Err(Unrecognised)` exactly when none of the five words occurs; `Err(BadParameter)` exactly when one occurs and the last `_` field is no integer; otherwise the result is a policy of a kind exactly when its word occurs and no earlier word does, in the order naive, combined, smart, ensemble_mean, ensemble_consensus (both directions for each of the five); its parameter is the last `_` field |
| Policies.NameParameterOfName | RefExp/generate_performance_pickles.py:89 | the last `_` field of a policy's name reads back as its parameter |
| Policies.ParsePolicyName | RefExp/generate_performance_pickles.py:88-228 | parsing a policy's name gives that policy back, for all five kinds |
| Policies.ParseTrackMethod | VOT/perform_runs.py:70-228 | `None` exactly when none of naive, smart, combined, ensemble_mean occurs; the branch is that of the first word that occurs, in the order naive, smart, combined, ensemble_mean; the initial cloud is smeared exactly when "combined" occurs; each iteration records dc copies exactly when "ensemble_mean" occurs, whichever branch ran; every parsed method is coherent (the combined branch smears, the ensemble branch records copies) |
| Geometry.FrameIoU | VOT/util.py:210-245 | 0 for boxes apart on either axis; `None` exactly when they are not apart and the union area is zero |
| Geometry.FrameIoUSymmetric | VOT/util.py:231-245 | the overlap does not depend on the order of the two boxes |
| Geometry.InterAreaBounds | VOT/util.py:231-240 | the intersection of two positive boxes is no larger than either box |
| Geometry.RatioBounds | VOT/util.py:240-245 | intersection over union lies in [0, 1] when the intersection fits in both areas |
| Geometry.FrameIoUBounds | VOT/util.py:237-245 | boxes of positive area always have an overlap, and it lies in [0, 1] |
| Geometry.FrameIoUSelf | VOT/util.py:231-245 | a positive box overlaps itself with 1 |
| Geometry.FrameIoUDisjointExample | VOT/util.py:236-238 | (0,0,10,10) against (20,20,30,30) gives 0 |
| Geometry.SampleIoUs | VOT/util.py:196-207 | exactly one overlap per drawn pair, each the frame overlap of the two drawn rows; all defined and in [0, 1] for positive boxes |
| Particles.AddDensity | VOT/util.py:48-52 | every weight of every frame plus the new density at that particle's box |
| Particles.Concat | VOT/perform_runs.py:83-89 | frame-wise concatenation keeps the frame count and the shape of both clouds |
| Particles.MeanDensities | VOT/perform_runs.py:205-214 | every weight is the mean of the given densities at its box |
| Particles.Particles.UpdateProbs | VOT/util.py:38-54 | in place: boxes unchanged, weights become `AddDensity` of the old cloud |
| Particles.Particles.Append | VOT/perform_runs.py:83-89 | in place: each frame's particles followed by the other cloud's |
| Particles.Particles.Prepend | VOT/perform_runs.py:194-200 | in place: the other cloud's particles in front of each frame's own |
| Particles.Particles.SetMeanDensity | VOT/perform_runs.py:205-214 | in place: boxes unchanged, weights the mean density of the ensemble, summed one density at a time |
| Particles.FrameIoUs | VOT/util.py:66-70 | one overlap per frame of the cloud |
| Particles.VidIoUBounds | VOT/util.py:66-71 | with positive boxes the per-video overlap is defined and lies in [0, 1] |
| Particles.VidIoU | VOT/util.py:56-71 | the frame loop returns the mean overlap of the truth with each frame's first highest-weight particle |
| Consensus.Distinct | RefExp/generate_performance_pickles.py:247 | the `Counter` keys: the same values as the votes, each once |
| Consensus.TopCount | RefExp/generate_performance_pickles.py:247-248 | the largest multiplicity among the candidates, attained by one of them |
| Consensus.WithCount | RefExp/generate_performance_pickles.py:247-248 | exactly the values whose multiplicity is the given one |
| Consensus.ModeListSpec | RefExp/generate_performance_pickles.py:247-248 | a value is in the mode list exactly when it is voted for and nothing is voted for more often |
| Consensus.ModeListNonEmpty | RefExp/generate_performance_pickles.py:247-249 | a non-empty vote has a mode, so `random.choice` does not raise |
| Consensus.PickMode | RefExp/generate_performance_pickles.py:249 | the picked value is voted for and nothing is voted for more often |
| Consensus.MajorityIsPicked | RefExp/generate_performance_pickles.py:246-249 | a strict majority value is picked whatever the tie draw |
| RefExpTrial.Label | RefExp/generate_performance_pickles.py:138-146 | correct exactly at overlap >= 0.5; below it a missed detection stays one and every other label becomes undefined |
| RefExpTrial.Solutions | RefExp/generate_performance_pickles.py:187-190 | exactly K replies, the j-th being the j-th further fetch of the step |
| RefExpTrial.AddAll | RefExp/generate_performance_pickles.py:193-196 | the running sum of the current vector and the replies keeps the vector's length |
| RefExpTrial.Choices | RefExp/generate_performance_pickles.py:234-238 | K + 1 votes, the first the argmax of the current distribution, each a detection index of the target |
| RefExpTrial.Fuse | RefExp/generate_performance_pickles.py:110-117 | the fused vector keeps the width and stays positive |
| RefExpTrial.CombinedEntry | RefExp/generate_performance_pickles.py:105-146 | the combined entry keeps the width and positive probabilities |
| RefExpTrial.EnsembleMeanVector | RefExp/generate_performance_pickles.py:192-197 | the ensemble average keeps the width |
| RefExpTrial.NewEntry | RefExp/generate_performance_pickles.py:88-256 | every policy's new vector has the target's width and positive entries |
| RefExpTrial.NoRequeries | RefExp/generate_performance_pickles.py:71 | `len + 1` zero counts, summing to zero |
| RefExpTrial.Requery | RefExp/generate_performance_pickles.py:88-256 | the selected count rises by the policy's cost (1, or K for ensembles), so does the total; every other target's label, score, vector and count is unchanged; the draw stays valid |
| RefExpTrial.LoopFitsVisited | RefExp/generate_performance_pickles.py:76-79 | the loop's writes fit a row of width m exactly when every total it visits below the number of targets is below m |
| RefExpTrial.WideRowFits | RefExp/generate_performance_pickles.py:67-79 | a draw no wider than the one the arrays were made for never writes past its row, whatever the policy |
| RefExpTrial.FinalWrite | RefExp/generate_performance_pickles.py:258-265 | error and rmae written at the final total when it is inside the row; otherwise (ensembles only) nothing changes |
| RefExpTrial.Step | RefExp/generate_performance_pickles.py:76-256 | the draw's error and rmae are written at the current total, every count only grows, and the total rises by the cost |
| RefExpTrial.Run | RefExp/generate_performance_pickles.py:76-256 | the loop ends with total at least the number of targets, with no count lowered |
| RefExpTrial.RunTotal | RefExp/generate_performance_pickles.py:76-228 | at most `len(target_ids)` iterations; the total ends exactly at the number of targets for one-at-a-time policies, and below it plus K for ensembles |
| RefExpTrial.FinalErrorRecorded | RefExp/generate_performance_pickles.py:258-265 | the final total is in bounds and holds the final draw's error, unless an ensemble overran the row |
| RefExpTrial.FuseRule | RefExp/generate_performance_pickles.py:110-117 | the fused vector sums to one and is proportional to the elementwise product |
| RefExpTrial.CombinedRule | RefExp/generate_performance_pickles.py:105-146 | combined entry: its vector is the fused one (proportional to the product, as FuseRule states) and sums to one; label from its argmax; score -1e6 at max depth, else the rejection score of the fused vector |
| RefExpTrial.EnsembleMeanTotal | RefExp/generate_performance_pickles.py:192-197 | the average's total is the current total plus all replies' totals, over K + 1 |
| RefExpTrial.EnsembleConsensusRule | RefExp/generate_performance_pickles.py:221-256 | score -1e6, vector kept, label decided at a vote of maximal multiplicity |
| RefExpTrial.NaiveRequery | RefExp/generate_performance_pickles.py:88-103 | naive: the reply's failure mode; score -1e6 once the count reaches max depth, else the reply's rejection score; vector kept |
| RefExpTrial.SmartRequery | RefExp/generate_performance_pickles.py:147-171 | smart: the reply's failure mode only when its score is strictly lower than the stored one; the score is overwritten either way (-1e6 at max depth) |
| RefExpTrial.CombinedRequery | RefExp/generate_performance_pickles.py:105-146 | combined: the target's vector becomes the normalised product, summing to one; label from its argmax; score -1e6 at max depth, else the rescored fused vector |
| RefExpTrial.EnsembleMeanRequery | RefExp/generate_performance_pickles.py:173-220 | ensemble mean: score -1e6, vector kept, label from the argmax of the average, whose total is (old + replies) / (K + 1) |
| RefExpTrial.EnsembleConsensusRequery | RefExp/generate_performance_pickles.py:221-256 | ensemble consensus: score -1e6, vector kept, label decided at a detection of maximal vote count |
| RefExpLoop.FetchSolutions | RefExp/generate_performance_pickles.py:186-190 | the fetch loop builds exactly the K replies of the specification |
| RefExpLoop.MeanVector | RefExp/generate_performance_pickles.py:192-197 | the accumulation loop computes the ensemble average |
| RefExpLoop.Votes | RefExp/generate_performance_pickles.py:234-238 | the vote loop computes the K + 1 argmaxes |
| RefExpLoop.ReplyEntry | RefExp/generate_performance_pickles.py:88-172 | the naive, combined and smart branches fetch the one reply and compute the policy's new entry |
| RefExpLoop.MeanEntry | RefExp/generate_performance_pickles.py:186-220 | the ensemble-mean branch fetches the K replies and relabels from the argmax of the average with the last reply's overlaps and sets the sentinel score |
| RefExpLoop.ConsensusEntry | RefExp/generate_performance_pickles.py:230-256 | the ensemble-consensus branch fetches the K replies and relabels from a mode of the votes with the last reply's overlaps and sets the sentinel score |
| RefExpLoop.ComputeEntry | RefExp/generate_performance_pickles.py:88-256 | the five branches compute the policy's new entry |
| RefExpLoop.Total | RefExp/generate_performance_pickles.py:76 | `all_rq_counts.sum()` over the array |
| RefExpLoop.Record | RefExp/generate_performance_pickles.py:78-79 | writes error and rmae at (run, total) and nothing else |
| RefExpLoop.Draw.Put | RefExp/generate_performance_pickles.py:94-256 | the writes of the policy's branch set the target's failure mode, score and probabilities and leave every other entry of the draw |
| RefExpLoop.Apply | RefExp/generate_performance_pickles.py:88-256 | in place on the draw's arrays and the counts: the state becomes `Requery`'s |
| RefExpLoop.StepTrial | RefExp/generate_performance_pickles.py:76-256 | one loop body on arrays equals `Step`; other rows of the result arrays unchanged |
| RefExpLoop.RunTrial | RefExp/generate_performance_pickles.py:71-265 | the whole `while` loop and final write on arrays equal `Run` from zero counts; only row `run` changes |
| RefExpLoop.RunLoop | RefExp/generate_performance_pickles.py:76-256 | the `while` loop stops with the total at or past the row length, keeps the other result rows, and leaves a trial that runs to the same end as the one it started from |
| RefExpLoop.TrialsRun | RefExp/generate_performance_pickles.py:58-64 | trials run until the first draw without targets |
| RefExpLoop.FillRow | RefExp/generate_performance_pickles.py:71-265 | one trial fills row `run` of zeroed arrays with the specification's row; other rows unchanged |
| RefExpLoop.FillNext | RefExp/generate_performance_pickles.py:58-64 | one pass of the trial loop: the next trial's row joins the filled rows and every later row stays zero |
| RefExpLoop.FillTrials | RefExp/generate_performance_pickles.py:58-81 | the trial loop over zeroed arrays: IndexError exactly when some trial that runs has a write past the row; otherwise every run trial's row is filled and later rows stay zero |
| RefExpLoop.RunTrials | RefExp/generate_performance_pickles.py:54-81 | no arrays when the first draw is empty; IndexError exactly when some trial that runs writes past the row made for the first draw; otherwise fresh `num_trials x (len + 1)` arrays holding each run trial's row, later rows zero |
| TrackingPass.InitialCloud | VOT/perform_runs.py:70-90 | the first annotator's particles, followed by their smeared copies exactly for combined; shape fits the video |
| TrackingPass.InitialIoUs | VOT/perform_runs.py:96-97 | one overlap per video |
| TrackingPass.Initial | VOT/perform_runs.py:52-103 | `None` exactly when some initial overlap is undefined; else every count 0, every score the oracle's (at most 1), and trajectory `[mean(ious)]` |
| TrackingPass.Selected | VOT/perform_runs.py:107 | the first index of the minimum score |
| TrackingPass.NaiveMove | VOT/perform_runs.py:117-128 | only video v changes: count + 1, score and overlap those of the fresh sample |
| TrackingPass.SmartMove | VOT/perform_runs.py:129-144 | only video v changes: count + 1; score and overlap replaced exactly when the new score is strictly higher |
| TrackingPass.Reweighted | VOT/perform_runs.py:150-154 | same boxes after `update_probs` |
| TrackingPass.CombinedMove | VOT/perform_runs.py:145-162 | only video v changes: count + 1, cloud reweighted by the new density, score and overlap recomputed from it |
| TrackingPass.EnsembleSamples | VOT/perform_runs.py:187-200 | the ensemble's gathered samples fit the video |
| TrackingPass.EnsembleDensities | VOT/perform_runs.py:177-185 | dc + 1 densities: the first annotator's, then the fresh ones |
| TrackingPass.EnsembleCloud | VOT/perform_runs.py:187-214 | the gathered samples, each weighted by the mean density of the dc + 1 members |
| TrackingPass.EnsembleMove | VOT/perform_runs.py:163-215 | only video v changes: count + dc, scores and clouds kept, overlap that of the ensemble cloud |
| TrackingPass.Take | VOT/perform_runs.py:169 | Python's `s[:k]` |
| TrackingPass.Finish | VOT/perform_runs.py:220-228 | score 1e6 exactly when the count reached dc; the mean overlap appended dc times when "ensemble_mean" occurs in the name, whatever branch ran, and once otherwise |
| TrackingPass.Move | VOT/perform_runs.py:117-218 | only the selected video changes, its count rises by the policy's cost |
| TrackingPass.Step | VOT/perform_runs.py:105-228 | the ensemble break cuts the trajectory to n + 1 entries; otherwise only the argmin video changes, its count rises by the branch's cost, and the trajectory grows by dc entries when "ensemble_mean" occurs in the name and by one otherwise |
| TrackingPass.Run | VOT/perform_runs.py:105-228 | the re-query loop keeps the pass's shape |
| TrackingPass.PassOf | VOT/perform_runs.py:26-232 | a completed pass keeps one score, overlap, cloud and count per video |
| TrackingProperties.SelectedIsLive | VOT/perform_runs.py:221-222 | while some video is below dc, the argmin is such a video: the 1e6 sentinel outranks every real score |
| TrackingProperties.MoveScore | VOT/perform_runs.py:121-162 | a move keeps the video's score at most 1 |
| TrackingProperties.StepKeeps | VOT/perform_runs.py:105-222 | one iteration keeps the sentinel discipline and the depth budget |
| TrackingProperties.RunKeeps | VOT/perform_runs.py:105-228 | the loop keeps the sentinel discipline (score 1e6 exactly at the depth limit) and every count within [0, dc]; under the ensemble each count is 0 or dc |
| TrackingProperties.DepthConstraintRespected | VOT/perform_runs.py:52-222 | no video is re-queried more than dc times; under the ensemble every video is deferred at most once |
| TrackingProperties.PassLength | VOT/perform_runs.py:103-228 | for n videos the trajectory has `TrajectoryLength` entries: n + 1 when "ensemble_mean" does not occur in the name; 1 + n*dc when it occurs but another branch runs; for the ensemble branch n + 1 when it breaks, which it does exactly when (n - 1)*dc > n, and 1 + n*dc otherwise |
| TrackingProperties.EnsembleBreakExample | VOT/perform_runs.py:168-228 | an ensemble pass over 3 videos at depth 2 keeps 4 entries, over 2 videos 5, and over 2 videos at depth 3 only 3; a "smart_ensemble_mean" pass over 3 videos at depth 2 keeps 7 |
| TrackingProperties.CloudIoU | VOT/util.py:66-71 | the overlap of a positive cloud over a positive video is defined and in [0, 1] |
| TrackingProperties.PassBounds | VOT/perform_runs.py:26-232 | with positive boxes the pass completes and every recorded mean overlap lies in [0, 1] |
| TrackingLoop.InitialRun | VOT/perform_runs.py:55-103 | the initial loop equals `Initial`, with zero counts and the first trajectory entry |
| TrackingLoop.NaiveReplace | VOT/perform_runs.py:117-128 | the naive branch on the lists and count array equals `NaiveMove` |
| TrackingLoop.SmartReplace | VOT/perform_runs.py:129-144 | the smart branch equals `SmartMove` |
| TrackingLoop.CombinedReplace | VOT/perform_runs.py:145-162 | the combined branch equals `CombinedMove` |
| TrackingLoop.BuildEnsemble | VOT/perform_runs.py:177-214 | the sampling and averaging loops build `EnsembleCloud` |
| TrackingLoop.EnsembleReplace | VOT/perform_runs.py:163-215 | the ensemble branch equals `EnsembleMove` |
| TrackingLoop.Replace | VOT/perform_runs.py:117-218 | the dispatch equals `Move` |
| TrackingLoop.Iterate | VOT/perform_runs.py:105-228 | one non-breaking iteration on the lists and count array equals `Step`, appending dc copies exactly when "ensemble_mean" occurs in the name |
| TrackingLoop.BreakEnds | VOT/perform_runs.py:168-170 | a break ends the run with the cut trajectory |
| TrackingLoop.Advance | VOT/perform_runs.py:105-228 | one pass of the loop body: it either ends the loop with the run's final trajectory (`None` on a zero-area union), or leaves a state from which the run continues to the same end |
| TrackingLoop.RequeryLoop | VOT/perform_runs.py:105-228 | the `for` loop returns the trajectory of the value model's run from the loop's starting state, `None` where that run fails |
| TrackingLoop.DoPass | VOT/perform_runs.py:26-232 | `do_pass` returns exactly `Trajectory` of the inputs, for every parsed method |
| TrackingLoop.FillSlice | VOT/perform_runs.py:253-255 | writes `1 - iou` into `[d, :len, pass]` and nothing else |
| TrackingLoop.WritePass | VOT/perform_runs.py:249-255 | one write keeps the saved-array invariant |
| TrackingLoop.TrajectoryFits | VOT/perform_runs.py:246-255 | with at most 100 videos and depth at most 10: at most 101 entries for the ensemble branch and for names without "ensemble_mean"; for a name that has it but runs another branch, at most 101 exactly when n*dc <= 100 |
| TrackingLoop.StoredTrajectory | VOT/perform_runs.py:246-255 | the pass's trajectory when its slice fits the 101 rows; `None` (numpy's ValueError on the assignment, or a failed pass) otherwise |
| TrackingLoop.StoredWhenFits | VOT/perform_runs.py:246-255 | for the ensemble branch and for names without "ensemble_mean", on up to 100 videos and depth up to 10, every finished pass is stored |
| TrackingLoop.DepthPass | VOT/perform_runs.py:249-255 | one depth's pass: its result is exactly `StoredTrajectory` of that depth, and a stored pass extends the saved array by its error rates |
| TrackingLoop.SavePasses | VOT/perform_runs.py:246-255 | `None` exactly when some pass fails or its trajectory does not fit the 101 rows; otherwise a fresh 10 x 101 x 100 array holding each pass's error rates in its slice, zero elsewhere |
| TrackingLoop.SavedErrorRates | VOT/perform_runs.py:253-255 | with positive boxes every saved value lies in [0, 1] |
| ColumnBackfill.Column | RefExp/combine_pickles.py:52-54 | `m[:, c]` entry by entry |
| ColumnBackfill.ColumnSums | RefExp/combine_pickles.py:47 | `m.sum(axis=0)`: one sum per column |
| ColumnBackfill.Source | RefExp/combine_pickles.py:51-54 | the nearest column at or before i with a non-zero sum, every column between them zero; the last column when all up to i are zero |
| ColumnBackfill.Backfilled | RefExp/combine_pickles.py:51-54 | a backfilled matrix keeps the shape |
| ColumnBackfill.ResultRecord.Filled | RefExp/combine_pickles.py:47-54 | the filled record keeps the shape of both matrices |
| ColumnBackfill.NoZeroColumnUnchanged | RefExp/combine_pickles.py:47 | without a zero column the record is left as it was |
| ColumnBackfill.CarriesLastNonZero | RefExp/combine_pickles.py:51-54 | a run of zero columns after non-zero column k carries column k, in `rmaes` and `errors` alike |
| ColumnBackfill.LeadingZerosTakeLast | RefExp/combine_pickles.py:53-54 | leading zero columns take the last column (`i - 1 == -1`) |
| ColumnBackfill.FilledHasNoZeroColumn | RefExp/combine_pickles.py:47-54 | with a non-zero last column no column of the filled `rmaes` sums to zero |
| ColumnBackfill.FilledIdempotent | RefExp/combine_pickles.py:47-54 | with a non-zero last column, filling twice is filling once |
| ColumnBackfill.ColumnSum | RefExp/combine_pickles.py:52 | the loop computes the column's sum |
| ColumnBackfill.HasZeroColumn | RefExp/combine_pickles.py:47 | true exactly when some column sums to zero |
| ColumnBackfill.CopyColumn | RefExp/combine_pickles.py:53 | column `to` takes column `from`; nothing else changes |
| ColumnBackfill.FillColumn | RefExp/combine_pickles.py:51-54 | one loop step extends the filled prefix by one column |
| ColumnBackfill.Backfill | RefExp/combine_pickles.py:47-54 | in place: both arrays end as `Backfilled` of their old contents, driven by the old column sums of `rmaes` |
| CombinePickles.SkippedByExtension | RefExp/combine_pickles.py:22-27 | outside the compiled output, `stem.ext` is skipped exactly when `ext` with its ASCII capitals lowered is not `pickle` |
| CombinePickles.MethodField | RefExp/combine_pickles.py:39 | `filename.split("-")[1]`: `None` (IndexError) exactly when the name has no `-` |
| CombinePickles.RepairKey | RefExp/combine_pickles.py:36-41 | keys without `{` pass through; failure exactly when a key needs repair and the name has no `-` |
| CombinePickles.RepairRestoresKey | RefExp/combine_pickles.py:38-40 | a key broken in one place gets the file name's second `-` field in that place |
| CombinePickles.RepairedDictDefined | RefExp/combine_pickles.py:35-42 | the re-keying fails exactly when some key cannot be repaired |
| CombinePickles.RepairedDictKeys | RefExp/combine_pickles.py:35-42 | the keys of `new_dict` are exactly the repaired keys |
| CombinePickles.RepairedDictLastWins | RefExp/combine_pickles.py:41 | a repaired key holds the record of the last entry repairing to it |
| CombinePickles.CompiledFailureSticks | RefExp/combine_pickles.py:20-54 | once the script raises, later files change nothing |
| CombinePickles.CompiledKeys | RefExp/combine_pickles.py:20-46 | a key is compiled exactly when some kept file holds it after repair |
| CombinePickles.MergeOwn | RefExp/combine_pickles.py:44-54 | a key of the current file is stored with its backfilled record |
| CombinePickles.MergeOther | RefExp/combine_pickles.py:44-46 | keys outside the current file keep their entries |
| CombinePickles.AddFileOther | RefExp/combine_pickles.py:20-46 | a file that does not hold a key leaves that key's entry alone |
| CombinePickles.AddFileOwn | RefExp/combine_pickles.py:44-54 | a file holding a key stores its backfilled record there |
| CombinePickles.CompiledLastFileWins | RefExp/combine_pickles.py:44-46 | the compiled value is the backfilled record of the last file holding the key |
| CombinePickles.RepairKeys | RefExp/combine_pickles.py:35-42 | the re-keying loop equals `RepairedDict` |
| CombinePickles.MergeWith | RefExp/combine_pickles.py:44-46 | the per-file loop over the keys stores each key's filled record over the compiled dict |
| CombinePickles.MergeInto | RefExp/combine_pickles.py:44-54 | the per-file loop with the backfill equals `Merge` |
| CombinePickles.Combine | RefExp/combine_pickles.py:14-54 | the whole file loop equals `Compiled` |
| CalcDev.DistName | RefExp/calc_dev.py:15-16 | a name exactly for ids 1 to 5 |
| CalcDev.ParseResultKey | RefExp/calc_dev.py:26-30 | `None` exactly when the key has fewer than two fields or the depth field is not an integer |
| CalcDev.ParseTwoPieceKey | RefExp/calc_dev.py:26-30 | `a_d` parses to method `a`, depth `int(d)` |
| CalcDev.ParseThreePieceKey | RefExp/calc_dev.py:26-30 | `a_b_d` parses to method `a_b`, depth `int(d)` |
| CalcDev.ParsePolicyKey | RefExp/calc_dev.py:26-30 | a key ending in a policy's name parses to the policy's family and its parameter |
| CalcDev.Insert | RefExp/calc_dev.py:32-35 | the entry is set; every other method and depth is kept; a new method gets exactly that depth |
| CalcDev.ParseEach | RefExp/calc_dev.py:25-30 | with any key parser: one parsed entry per key |
| CalcDev.ParsedKeys | RefExp/calc_dev.py:25-30 | one parsed entry per key |
| CalcDev.ParsedKeysDefined | RefExp/calc_dev.py:25-30 | parsing fails exactly when some key does not parse |
| CalcDev.ParsedKeysAt | RefExp/calc_dev.py:25-30 | each parsed entry is its key's parse with its record |
| CalcDev.RegroupKeys | RefExp/calc_dev.py:32-35 | a (method, depth) pair is present exactly when some key has it |
| CalcDev.RegroupInnerNonEmpty | RefExp/calc_dev.py:32-35 | every method's inner dict is non-empty |
| CalcDev.RegroupLastWins | RefExp/calc_dev.py:35 | a repeated (method, depth) keeps the last record |
| CalcDev.BuildWithDepth | RefExp/calc_dev.py:24-35 | the key loop equals `WithDepth` |
| CalcDev.Sample | RefExp/calc_dev.py:48-54 | `None` exactly when there is no row or no column; else some row's mean and its last entry |
| CalcDev.KeptDepths | RefExp/calc_dev.py:45-47 | exactly the depths in (0, 10] |
| CalcDev.TrialSamples | RefExp/calc_dev.py:45-54 | one sample per kept depth, and failure exactly when one of them fails |
| CalcDev.SamplesInUnitRange | RefExp/calc_dev.py:48-54 | error rates in [0, 1] give area-under and err@1 samples in [0, 1] |
| CalcDev.CsvFields | RefExp/calc_dev.py:70-76 | defined exactly when there are six `-` fields and field 3 is a known id |
| CalcDev.CsvFieldsOfMethod | RefExp/calc_dev.py:70-76 | the CSV fields of a method name are the fields it was joined from, the id named |
| CalcDev.ResultKeyRoundTrip | RefExp/calc_dev.py:70-76 | a key written for a configuration parses back to its family and depth, and its CSV fields give the configuration back |
| BestAcc.FirstSeen | RefExp/calc_best_acc.py:85-87 | the dict key order: every seen target exactly once |
| BestAcc.ExistsDicts | RefExp/calc_best_acc.py:81-91 | both dicts have the seen targets as keys; `correct[t]` iff some output for t is correct, `incorrect[t]` iff some is not; every target has a true flag |
| BestAcc.Indicators | RefExp/calc_best_acc.py:92-94 | one 1.0/0.0 per key, in key order |
| BestAcc.CorrectIndicators | RefExp/calc_best_acc.py:92 | one indicator per distinct target |
| BestAcc.IncorrectIndicators | RefExp/calc_best_acc.py:93-94 | one indicator per distinct target |
| BestAcc.IndicatorsCover | RefExp/calc_best_acc.py:84-91 | each target's two indicators add to at least one |
| BestAcc.FractionsOrdered | RefExp/calc_best_acc.py:95-96 | 0 <= worst <= best <= 1 |
| BestAcc.BestAndWorst | RefExp/calc_best_acc.py:81-96 | values exactly for non-empty runs, equal to the best and worst fractions |

## Left out

- Database access, `get_random_draw`, `get_re_by_target` and `convert_boxes_to_corners` are foreign calls. Their results are inputs (`RefExpTrial.Oracles`, the draws and replies).
- `calc_error`, `calc_rmae`, `calc_rejection_score`, `get_which_to_requery` and `compute_all_IoUs` are not part of this model. They are oracle functions. The selection is any in-range target, so "the target with the best score" is not claimed.
- `calc_score` is an oracle whose value is at most 1. It stands for a mean of overlaps. Its exp-normalisation, and the fitted mixtures' `sample`/`score_samples`, are floating-point library code.
- Random draws are inputs: annotators, models, the tie among modes, `randint` in `sample_ious` and `calc_dev.py`, and the smearing noise.
- Floating point, file and pickle I/O, printing, plots and the standard errors are not modelled. Sums are exact real sums.
- `CalcDev`: the per-method means of the trial samples, their x100 scaling and standard errors, and the CSV writing are left out. Only which values enter those means is modelled.
- `BestAcc`: the per-model lists, the mean across models, the printing and the sentence-to-target database lookup are left out. Targets are given per output row.
- `CalcDev.ParseResultKey`: it does not accept what Python's `int()` also accepts, namely surrounding whitespace and `_` digit separators.
- `CombinePickles.Combine`: the directory listing is an input sequence. `"{" in key` is a character test. The backfill is modelled on record values, because the stored record and the backfilled one are the same object. `ColumnBackfill.Backfill` models the in-place column copy on the arrays.
- `ColumnBackfill.Backfill`: it requires `rmaes` and `errors` to be distinct arrays with the same column count.
- `TrackingPass.PassOf`: it needs at least one video and one frame per video, because numpy's mean of an empty list is NaN.
- The ensemble size K must be at least 1 (`Policy.Terminating`). With K <= 0 no reply is fetched, `solution` stays `None`, and the first ensemble re-query raises TypeError. An unrecognised policy name is `Err(Unrecognised)`, where the source loops forever.
- `RefExpTrial.Fuse`: probabilities are required to be strictly positive (softmax outputs). With that, the normalising sum is never zero.
- Particle objects are copied as values. The model does not capture aliasing between the `particles_list` entries.
- `TrackingProperties.PassLength`: the ensemble branch never breaks exactly when (n - 1)*dc <= n, and then the trajectory has 1 + n*dc entries. This is stated by `TrajectoryLength` and shown by `EnsembleBreakExample`, not claimed as a defect.
- PassLength: it requires a coherent method (`TrackMethod.Coherent`), which every name `ParseTrackMethod` accepts is (`ParseTrackMethod` ensures it).
- ToLower: only ASCII capitals are lowered. Python's `str.lower` also lowers other characters, for example U+212A KELVIN SIGN to `k`.
- SkippedByExtension: the extension test lowers ASCII only, through `ToLower`. A name whose extension spells `pickle` only after non-ASCII lowering (such as U+212A for `k`) is skipped by the model and kept by the script.
- CsvFields: field 3 is read with the strict integer parser `ParseInt`, which rejects the surrounding whitespace and `_` separators that Python's `int()` accepts.
- Step (`RefExpTrial.Step`): it re-queries on the draw it was given. The script reassigns `draw` from `get_which_to_requery`'s second result; the model takes that result to be the input draw, since the selection is an oracle.
- RunTrials: the IndexError is reported before the trial that would raise it. The rows already written are discarded either way, because the exception ends the script before anything is saved.
- RunTrials: the final-write guard at `RefExp/generate_performance_pickles.py:258-259` tests whether "ensemble" occurs in the method name; the model tests whether the policy is an ensemble. The two differ only for a one-at-a-time policy whose name also contains "ensemble", on a later draw exactly one target wider than the first. There the script skips the final write, and the model reports IndexError.
- `create_uniform_particles`, `smear_particles`' noise, `generate_first_particles` and `particles_from_dist` are left out (random, library code). Their clouds are oracle inputs.

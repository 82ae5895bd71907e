/**
 * One trial of the referring-expression deferral loop. A draw holds, per
 * target, the failure mode of the chosen model output, a rejection score and
 * a probability vector over the detections. Until the re-query total reaches
 * the number of targets, the loop records the error of the current draw at
 * the current total, picks a target, fetches fresh human replies for it and
 * applies the replacement policy to that one target.
 */
module RefExpTrial {
  import opened Numeric
  import opened FailureModes
  import opened Policies
  import opened Consensus

  /** The score that parks a target once its depth limit is reached. */
  const Sentinel: real := -1000000.0

  /** The overlap from which a detection counts as correct. */
  const CorrectIoU: real := 0.5

  /**
   * One reply from the database for a target: the failure mode of its model
   * output, its probabilities over the detections, and the overlap of every
   * detection with the ground truth (what compute_all_IoUs yields for it).
   */
  datatype Reply = Reply(failureMode: FailureMode, probabilities: seq<real>, ious: seq<real>)

  datatype DrawState = DrawState(failureModes: seq<FailureMode>, scores: seq<real>, probabilities: seq<seq<real>>)

  /** The new value of one target's three columns. */
  datatype Entry = Entry(failureMode: FailureMode, score: real, probabilities: seq<real>)

  /**
   * The outside world of one trial.
   * - select: get_which_to_requery on the current draw;
   * - fetch(total, target, j): the j-th call of get_re_by_target in the step
   *   taken at re-query total `total` (j = 0 is the reply fetched first);
   * - rejection: calc_rejection_score for the trial's scoring method;
   * - tie: the index random.choice draws from the mode list, per step;
   * - error, rmae: calc_error and calc_rmae of a draw.
   */
  datatype Oracles = Oracles(
    select: DrawState -> nat,
    fetch: (nat, nat, nat) -> Reply,
    rejection: seq<real> -> real,
    tie: nat -> nat,
    error: DrawState -> real,
    rmae: DrawState -> real)

  /** Every target has a non-empty vector of positive (softmax) probabilities of its own width. */
  predicate ValidDraw(d: DrawState, widths: seq<nat>) {
    |d.failureModes| == |widths| && |d.scores| == |widths| && |d.probabilities| == |widths| &&
    forall t :: 0 <= t < |widths| ==> widths[t] > 0 && |d.probabilities[t]| == widths[t] && AllPositive(d.probabilities[t])
  }

  predicate ReplyFits(r: Reply, width: nat) {
    |r.probabilities| == width && |r.ious| == width && AllPositive(r.probabilities)
  }

  /** The selection names a target of the draw and every reply describes that target's detections. */
  ghost predicate OraclesFit(o: Oracles, widths: seq<nat>) {
    (forall d :: o.select(d) < |widths|) &&
    (forall s: nat, t: nat, j: nat :: t < |widths| ==> ReplyFits(o.fetch(s, t, j), widths[t]))
  }

  /** The label after a fused decision: correct at sufficient overlap, otherwise a missed detection stays one and anything else becomes undefined. */
  function Label(current: FailureMode, iou: real): (r: FailureMode)
    ensures r == Correct <==> iou >= CorrectIoU
    ensures r == MissedDetection <==> iou < CorrectIoU && current == MissedDetection
    ensures r == Undefined <==> iou < CorrectIoU && current != MissedDetection
  {
    if iou >= CorrectIoU then Correct
    else if current != MissedDetection then Undefined
    else current
  }

  /** The K further replies fetched by an ensemble policy. */
  function Solutions(o: Oracles, total: nat, t: nat, k: nat): (r: seq<Reply>)
    ensures |r| == k && forall j :: 0 <= j < k ==> r[j] == o.fetch(total, t, j + 1)
  {
    seq(k, j requires 0 <= j < k => o.fetch(total, t, j + 1))
  }

  predicate AllFit(sols: seq<Reply>, width: nat) {
    forall j :: 0 <= j < |sols| ==> ReplyFits(sols[j], width)
  }

  /** `acc` plus the probability vectors of `sols`, added in order. */
  function AddAll(acc: seq<real>, sols: seq<Reply>): (r: seq<real>)
    requires AllFit(sols, |acc|)
    ensures |r| == |acc|
    decreases |sols|
  {
    if |sols| == 0 then acc
    else AddAll(Add(acc, sols[0].probabilities), sols[1..])
  }

  /** The total probability mass of each reply. */
  function ReplyTotals(sols: seq<Reply>): (r: seq<real>)
    ensures |r| == |sols| && forall j :: 0 <= j < |sols| ==> r[j] == Sum(sols[j].probabilities)
  {
    seq(|sols|, j requires 0 <= j < |sols| => Sum(sols[j].probabilities))
  }

  /** Adding vectors adds their sums. */
  lemma {:induction false} SumAddAll(acc: seq<real>, sols: seq<Reply>)
    requires AllFit(sols, |acc|)
    ensures Sum(AddAll(acc, sols)) == Sum(acc) + Sum(ReplyTotals(sols))
    decreases |sols|
  {
    if |sols| > 0 {
      var next := Add(acc, sols[0].probabilities);
      SumAddAll(next, sols[1..]);
      SumOfAdd(acc, sols[0].probabilities);
      assert ReplyTotals(sols)[1..] == ReplyTotals(sols[1..]);
    }
  }

  lemma {:induction false} SumOfAdd(a: seq<real>, b: seq<real>)
    requires |a| == |b|
    ensures Sum(Add(a, b)) == Sum(a) + Sum(b)
  {
    if |a| > 0 {
      SumOfAdd(a[1..], b[1..]);
      assert Add(a, b)[1..] == Add(a[1..], b[1..]);
    }
  }

  /** The votes of the ensemble: the argmax of the current vector, then of every further reply. */
  function Choices(current: seq<real>, sols: seq<Reply>): (r: seq<nat>)
    requires |current| > 0 && AllFit(sols, |current|)
    ensures |r| == |sols| + 1 && r[0] == ArgMax(current) && forall i :: 0 <= i < |r| ==> r[i] < |current|
    decreases |sols|
  {
    if |sols| == 0 then [ArgMax(current)]
    else
      var n := |sols| - 1;
      assert AllFit(sols[..n], |current|) by {
        forall j | 0 <= j < n ensures ReplyFits(sols[..n][j], |current|) { assert sols[..n][j] == sols[j]; }
      }
      Choices(current, sols[..n]) + [ArgMax(sols[n].probabilities)]
  }

  /** Combined: the elementwise product renormalised to sum one. */
  function Fuse(current: seq<real>, reply: seq<real>): (r: seq<real>)
    requires |current| == |reply| && AllPositive(current) && AllPositive(reply)
    ensures |r| == |current| && AllPositive(r)
  {
    var product := Mul(current, reply);
    if |product| == 0 then product
    else
      SumPositive(product);
      Div(product, Sum(product))
  }

  /** Naive: the reply's failure mode, and the reply's score unless the depth limit is reached. */
  function NaiveEntry(current: seq<real>, reply: Reply, count: int, maxDepth: int, rejection: seq<real> -> real): Entry {
    Entry(reply.failureMode,
          if count >= maxDepth then Sentinel else rejection(reply.probabilities),
          current)
  }

  /** Combined: fuse the vectors, rescore the fused vector and relabel from its argmax. */
  function CombinedEntry(current: seq<real>, failureMode: FailureMode, reply: Reply, count: int, maxDepth: int,
                         rejection: seq<real> -> real): (e: Entry)
    requires |current| > 0 && AllPositive(current) && ReplyFits(reply, |current|)
    ensures |e.probabilities| == |current| && AllPositive(e.probabilities)
  {
    var fused := Fuse(current, reply.probabilities);
    Entry(Label(failureMode, reply.ious[ArgMax(fused)]),
          if count >= maxDepth then Sentinel else rejection(fused),
          fused)
  }

  /** Smart: adopt the reply's failure mode only when its score is lower; the score is overwritten either way. */
  function SmartEntry(current: seq<real>, failureMode: FailureMode, score: real, reply: Reply, count: int, maxDepth: int,
                      rejection: seq<real> -> real): Entry {
    var scoreNew := rejection(reply.probabilities);
    Entry(if scoreNew < score then reply.failureMode else failureMode,
          if count >= maxDepth then Sentinel else rejection(reply.probabilities),
          current)
  }

  /** The ensemble average of the current vector and the further replies. */
  function EnsembleMeanVector(current: seq<real>, sols: seq<Reply>): (r: seq<real>)
    requires AllFit(sols, |current|)
    ensures |r| == |current|
  {
    Div(AddAll(current, sols), (|sols| + 1) as real)
  }

  /** Ensemble mean: relabel from the argmax of the average, with the overlaps of the last reply; never re-queried again. */
  function EnsembleMeanEntry(current: seq<real>, failureMode: FailureMode, sols: seq<Reply>): Entry
    requires |current| > 0 && |sols| > 0 && AllFit(sols, |current|)
  {
    var mean := EnsembleMeanVector(current, sols);
    Entry(Label(failureMode, sols[|sols| - 1].ious[ArgMax(mean)]), Sentinel, current)
  }

  /** Ensemble consensus: relabel from a mode of the votes, with the overlaps of the last reply; never re-queried again. */
  function EnsembleConsensusEntry(current: seq<real>, failureMode: FailureMode, sols: seq<Reply>, tie: nat): Entry
    requires |current| > 0 && |sols| > 0 && AllFit(sols, |current|)
  {
    var pick := PickMode(Choices(current, sols), tie);
    Entry(Label(failureMode, sols[|sols| - 1].ious[pick]), Sentinel, current)
  }

  /** The consensus rule applied to target `t` of `d` with the K replies the oracles give at re-query total `total`. */
  function ConsensusRule(d: DrawState, t: nat, k: nat, o: Oracles, total: nat, widths: seq<nat>): (e: Entry)
    requires ValidDraw(d, widths) && OraclesFit(o, widths) && t < |widths| && k >= 1
    ensures e.probabilities == d.probabilities[t]
  {
    EnsembleConsensusEntry(d.probabilities[t], d.failureModes[t], Solutions(o, total, t, k), o.tie(total))
  }

  /**
   * The new columns of target `t` under policy `p`, where `count` is the
   * target's re-query count after this step's increment and `total` the
   * re-query total before it.
   */
  function NewEntry(d: DrawState, count: int, t: nat, p: Policy, o: Oracles, total: nat, widths: seq<nat>): (e: Entry)
    requires ValidDraw(d, widths) && OraclesFit(o, widths) && t < |widths| && p.Terminating()
    ensures |e.probabilities| == widths[t] && AllPositive(e.probabilities)
  {
    var reply := o.fetch(total, t, 0);
    var current := d.probabilities[t];
    match p
    case Naive(maxDepth) => NaiveEntry(current, reply, count, maxDepth, o.rejection)
    case Combined(maxDepth) => CombinedEntry(current, d.failureModes[t], reply, count, maxDepth, o.rejection)
    case Smart(maxDepth) => SmartEntry(current, d.failureModes[t], d.scores[t], reply, count, maxDepth, o.rejection)
    case EnsembleMean(k) => EnsembleMeanEntry(current, d.failureModes[t], Solutions(o, total, t, k))
    case EnsembleConsensus(k) => ConsensusRule(d, t, k, o, total, widths)
  }

  /** Under an ensemble-mean policy the new entry is the ensemble-mean rule applied to the K replies. */
  lemma MeanIsNewEntry(d: DrawState, count: int, t: nat, k: nat, o: Oracles, total: nat, widths: seq<nat>)
    requires ValidDraw(d, widths) && OraclesFit(o, widths) && t < |widths| && k >= 1
    ensures NewEntry(d, count, t, EnsembleMean(k), o, total, widths) ==
      EnsembleMeanEntry(d.probabilities[t], d.failureModes[t], Solutions(o, total, t, k))
  {
  }

  /** Under an ensemble-consensus policy the new entry is the consensus rule applied to the K replies. */
  lemma ConsensusIsNewEntry(d: DrawState, count: int, t: nat, k: nat, o: Oracles, total: nat, widths: seq<nat>)
    requires ValidDraw(d, widths) && OraclesFit(o, widths) && t < |widths| && k >= 1
    ensures NewEntry(d, count, t, EnsembleConsensus(k), o, total, widths) == ConsensusRule(d, t, k, o, total, widths)
  {
  }

  datatype Trial = Trial(draw: DrawState, counts: seq<int>, errors: seq<real>, rmaes: seq<real>)

  /** `np.zeros(len(target_ids) + 1, dtype=int)`: no target re-queried yet. */
  function NoRequeries(n: nat): (r: seq<int>)
    ensures |r| == n && SumInt(r) == 0 && NonNegative(r)
  {
    SumIntZeros(n);
    seq(n, _ => 0)
  }

  /** The totals s, s + c, s + 2c, ... that are below n are all below m. */
  predicate LoopFits(s: int, c: int, n: int, m: int)
    requires c >= 1
    decreases n - s
  {
    s < n ==> s < m && LoopFits(s + c, c, n, m)
  }

  /**
   * Every write a trial over n targets still makes from total `s` lands in
   * a result row of length m. A one-at-a-time policy writes at every total
   * up to n, the last one after the loop. An ensemble writes at the totals
   * K apart below n, and its write after the loop is skipped where it would
   * not fit.
   */
  predicate RowFits(p: Policy, s: int, n: nat, m: nat)
    requires p.Terminating()
  {
    if p.IsEnsemble() then LoopFits(s, p.Cost(), n, m) else n + 1 <= m
  }

  /** A row that fits from total `s` below `n` still fits one deferral later. */
  lemma RowFitsNext(p: Policy, s: int, n: nat, m: nat)
    requires p.Terminating() && RowFits(p, s, n, m) && s < n
    ensures RowFits(p, s + p.Cost(), n, m)
  {
  }

  /** The total reached after j more deferrals of cost c each. */
  function TotalAfter(s: int, j: nat, c: int): int {
    s + j * c
  }

  /** LoopFits says exactly that every total the loop visits below n is a valid index below m. */
  lemma {:induction false} LoopFitsVisited(s: int, c: int, n: int, m: int)
    requires c >= 1
    ensures LoopFits(s, c, n, m) <==> forall j: nat :: TotalAfter(s, j, c) < n ==> TotalAfter(s, j, c) < m
    decreases n - s
  {
    if s < n {
      var s' := s + c;
      LoopFitsVisited(s', c, n, m);
      assert TotalAfter(s, 0, c) == s;
      forall j: nat | j >= 1 ensures TotalAfter(s, j, c) == TotalAfter(s', j - 1, c) {
        assert j * c == (j - 1) * c + c;
      }
      if forall j: nat :: TotalAfter(s, j, c) < n ==> TotalAfter(s, j, c) < m {
        forall j: nat | TotalAfter(s', j, c) < n ensures TotalAfter(s', j, c) < m {
          assert TotalAfter(s', j, c) == TotalAfter(s, j + 1, c);
        }
      }
    } else {
      forall j: nat ensures TotalAfter(s, j, c) >= n {
        assert j * c >= 0;
      }
    }
  }

  /** A row one longer than the number of targets takes every write of the trial. */
  lemma {:induction false} WideRowFits(p: Policy, s: int, n: nat, m: nat)
    requires p.Terminating() && n + 1 <= m
    ensures RowFits(p, s, n, m)
    decreases n - s
  {
    if p.IsEnsemble() && s < n {
      WideRowFits(p, s + p.Cost(), n, m);
    }
  }

  /** What holds of a trial before and after every step of the loop. */
  ghost predicate Consistent(tr: Trial, p: Policy, o: Oracles, widths: seq<nat>) {
    var n := |widths|;
    ValidDraw(tr.draw, widths) && OraclesFit(o, widths) && p.Terminating() &&
    |tr.counts| == n + 1 && |tr.errors| == |tr.rmaes| && SumInt(tr.counts) >= 0 &&
    RowFits(p, SumInt(tr.counts), n, |tr.errors|) &&
    (!p.IsEnsemble() ==> SumInt(tr.counts) <= n)
  }

  /** One re-query of target `t`: its count rises by the policy's cost and its columns take the new entry. */
  function Requery(tr: Trial, t: nat, p: Policy, o: Oracles, total: nat, widths: seq<nat>): (r: Trial)
    requires Consistent(tr, p, o, widths) && t < |widths|
    ensures r.errors == tr.errors && r.rmaes == tr.rmaes
    ensures |r.counts| == |tr.counts| && r.counts[t] == tr.counts[t] + p.Cost()
    ensures SumInt(r.counts) == SumInt(tr.counts) + p.Cost()
    ensures ValidDraw(r.draw, widths)
    ensures forall i :: 0 <= i < |widths| && i != t ==>
      r.draw.failureModes[i] == tr.draw.failureModes[i] && r.draw.scores[i] == tr.draw.scores[i] &&
      r.draw.probabilities[i] == tr.draw.probabilities[i] && r.counts[i] == tr.counts[i]
  {
    var count := tr.counts[t] + p.Cost();
    var e := NewEntry(tr.draw, count, t, p, o, total, widths);
    SumIntUpdate(tr.counts, t, count);
    tr.(draw := DrawState(tr.draw.failureModes[t := e.failureMode],
                          tr.draw.scores[t := e.score],
                          tr.draw.probabilities[t := e.probabilities]),
        counts := tr.counts[t := count])
  }

  /** A re-query writes the new entry into the target's columns and raises its count by the cost. */
  lemma RequeryWrites(tr: Trial, t: nat, p: Policy, o: Oracles, total: nat, widths: seq<nat>)
    requires Consistent(tr, p, o, widths) && t < |widths|
    ensures var count := tr.counts[t] + p.Cost();
      var e := NewEntry(tr.draw, count, t, p, o, total, widths);
      var r := Requery(tr, t, p, o, total, widths);
      r.draw == DrawState(tr.draw.failureModes[t := e.failureMode], tr.draw.scores[t := e.score],
                          tr.draw.probabilities[t := e.probabilities]) &&
      r.counts == tr.counts[t := count]
  {
  }

  /**
   * The write after the loop: skipped only for an ensemble whose total ran
   * past the row. The script's own test is that the method name does not
   * contain "ensemble"; for a policy that re-queries one reply at a time
   * the total ends exactly at the number of targets, which is below the
   * row length whenever the draw is no wider than the first one, so there
   * the two tests pick the same write.
   */
  function FinalWrite(tr: Trial, p: Policy, o: Oracles): (r: Trial)
    requires |tr.errors| == |tr.rmaes|
    requires !p.IsEnsemble() ==> 0 <= SumInt(tr.counts) < |tr.errors|
    requires SumInt(tr.counts) >= 0
    ensures r.draw == tr.draw && r.counts == tr.counts && |r.errors| == |tr.errors|
    ensures var s := SumInt(tr.counts);
      if s < |tr.errors| then r.errors == tr.errors[s := o.error(tr.draw)] && r.rmaes == tr.rmaes[s := o.rmae(tr.draw)]
      else r == tr
  {
    var s := SumInt(tr.counts);
    if s < |tr.errors| || !p.IsEnsemble() then
      tr.(errors := tr.errors[s := o.error(tr.draw)], rmaes := tr.rmaes[s := o.rmae(tr.draw)])
    else tr
  }

  predicate NonNegative(counts: seq<int>) {
    forall i :: 0 <= i < |counts| ==> counts[i] >= 0
  }

  /**
   * One pass of the loop body at total `SumInt(tr.counts)`: record the
   * current draw's error and rmae at the total, then re-query the selected target.
   */
  function Step(tr: Trial, p: Policy, o: Oracles, widths: seq<nat>): (r: Trial)
    requires Consistent(tr, p, o, widths) && NonNegative(tr.counts) && SumInt(tr.counts) < |widths|
    ensures Consistent(r, p, o, widths)
    ensures |r.counts| == |tr.counts| && |r.errors| == |tr.errors| && |r.rmaes| == |tr.rmaes|
    ensures NonNegative(r.counts) && SumInt(r.counts) == SumInt(tr.counts) + p.Cost()
    ensures forall i :: 0 <= i < |r.counts| ==> r.counts[i] >= tr.counts[i]
    ensures r.errors == tr.errors[SumInt(tr.counts) := o.error(tr.draw)]
    ensures r.rmaes == tr.rmaes[SumInt(tr.counts) := o.rmae(tr.draw)]
  {
    var total := SumInt(tr.counts);
    SumIntNonNegative(tr.counts);
    var written := tr.(errors := tr.errors[total := o.error(tr.draw)], rmaes := tr.rmaes[total := o.rmae(tr.draw)]);
    RowFitsNext(p, total, |widths|, |tr.errors|);
    assert Consistent(written, p, o, widths);
    Requery(written, o.select(tr.draw), p, o, total, widths)
  }

  /** The loop guarded by `total < len(target_ids)`, then the final write. */
  function Run(tr: Trial, p: Policy, o: Oracles, widths: seq<nat>): (r: Trial)
    requires Consistent(tr, p, o, widths) && NonNegative(tr.counts)
    ensures |r.counts| == |tr.counts| && |r.errors| == |tr.errors| && |r.rmaes| == |tr.rmaes|
    ensures NonNegative(r.counts) && SumInt(r.counts) >= |widths|
    ensures forall i :: 0 <= i < |r.counts| ==> r.counts[i] >= tr.counts[i]
    decreases |widths| - SumInt(tr.counts)
  {
    if SumInt(tr.counts) < |widths| then
      Run(Step(tr, p, o, widths), p, o, widths)
    else
      SumIntNonNegative(tr.counts);
      FinalWrite(tr, p, o)
  }

  /** One pass of the loop while the total is below the row length. */
  lemma RunUnfold(tr: Trial, p: Policy, o: Oracles, widths: seq<nat>)
    requires Consistent(tr, p, o, widths) && NonNegative(tr.counts) && SumInt(tr.counts) < |widths|
    ensures Run(tr, p, o, widths) == Run(Step(tr, p, o, widths), p, o, widths)
  {
  }

  /** Once the total reaches the row length, only the final write is left. */
  lemma RunDone(tr: Trial, p: Policy, o: Oracles, widths: seq<nat>)
    requires Consistent(tr, p, o, widths) && NonNegative(tr.counts) && SumInt(tr.counts) >= |widths|
    ensures !p.IsEnsemble() ==> 0 <= SumInt(tr.counts) < |tr.errors|
    ensures Run(tr, p, o, widths) == FinalWrite(tr, p, o)
  {
  }

  /** How many times the loop body runs. */
  function Iterations(tr: Trial, p: Policy, o: Oracles, widths: seq<nat>): nat
    requires Consistent(tr, p, o, widths) && NonNegative(tr.counts)
    decreases |widths| - SumInt(tr.counts)
  {
    if SumInt(tr.counts) < |widths| then
      1 + Iterations(Step(tr, p, o, widths), p, o, widths)
    else 0
  }

  /**
   * Every iteration adds the policy's cost to the total, so from total zero
   * the loop runs at most `len(target_ids)` times and ends at exactly that
   * total for the one-at-a-time policies, within K - 1 above it for ensembles.
   */
  lemma {:induction false} RunTotal(tr: Trial, p: Policy, o: Oracles, widths: seq<nat>)
    requires Consistent(tr, p, o, widths) && NonNegative(tr.counts) && SumInt(tr.counts) <= |widths|
    ensures Iterations(tr, p, o, widths) <= |widths| - SumInt(tr.counts)
    ensures !p.IsEnsemble() ==> SumInt(Run(tr, p, o, widths).counts) == |widths|
    ensures p.IsEnsemble() ==> |widths| <= SumInt(Run(tr, p, o, widths).counts) < |widths| + p.Cost()
    decreases |widths| - SumInt(tr.counts)
  {
    if SumInt(tr.counts) < |widths| {
      var next := Step(tr, p, o, widths);
      if SumInt(next.counts) <= |widths| {
        RunTotal(next, p, o, widths);
      } else {
        SumIntNonNegative(next.counts);
      }
    }
  }

  /** The error row holds, at the final total, the error of the final draw unless an ensemble overran the row. */
  lemma {:induction false} FinalErrorRecorded(tr: Trial, p: Policy, o: Oracles, widths: seq<nat>)
    requires Consistent(tr, p, o, widths) && NonNegative(tr.counts) && SumInt(tr.counts) <= |widths|
    ensures var r := Run(tr, p, o, widths);
      !p.IsEnsemble() || SumInt(r.counts) < |r.errors| ==>
        SumInt(r.counts) < |r.errors| && r.errors[SumInt(r.counts)] == o.error(r.draw)
    decreases |widths| - SumInt(tr.counts), 1
  {
    if SumInt(tr.counts) < |widths| {
      var next := Step(tr, p, o, widths);
      assert Run(tr, p, o, widths) == Run(next, p, o, widths);
      FinalErrorRecordedNext(next, p, o, widths, SumInt(tr.counts));
    } else {
      FinalErrorDone(tr, p, o, widths);
    }
  }

  /** FinalErrorRecorded after one more pass, stated without the step that led there. */
  lemma {:induction false} FinalErrorRecordedNext(tr: Trial, p: Policy, o: Oracles, widths: seq<nat>, before: nat)
    requires Consistent(tr, p, o, widths) && NonNegative(tr.counts) && before < |widths|
    requires SumInt(tr.counts) == before + p.Cost()
    ensures var r := Run(tr, p, o, widths);
      !p.IsEnsemble() || SumInt(r.counts) < |r.errors| ==>
        SumInt(r.counts) < |r.errors| && r.errors[SumInt(r.counts)] == o.error(r.draw)
    decreases |widths| - before, 0
  {
    if SumInt(tr.counts) <= |widths| {
      FinalErrorRecorded(tr, p, o, widths);
    } else {
      FinalErrorDone(tr, p, o, widths);
    }
  }

  /** Once the total reaches the row length, the final write records the draw's error where it fits. */
  lemma FinalErrorDone(tr: Trial, p: Policy, o: Oracles, widths: seq<nat>)
    requires Consistent(tr, p, o, widths) && NonNegative(tr.counts) && SumInt(tr.counts) >= |widths|
    requires !p.IsEnsemble() ==> SumInt(tr.counts) == |widths|
    ensures var r := Run(tr, p, o, widths);
      !p.IsEnsemble() || SumInt(r.counts) < |r.errors| ==>
        SumInt(r.counts) < |r.errors| && r.errors[SumInt(r.counts)] == o.error(r.draw)
  {
    assert Run(tr, p, o, widths) == FinalWrite(tr, p, o);
  }

  /** The fused vector sums to one and is proportional to the elementwise product. */
  lemma FuseRule(current: seq<real>, reply: seq<real>)
    requires |current| == |reply| > 0 && AllPositive(current) && AllPositive(reply)
    ensures Sum(Fuse(current, reply)) == 1.0
    ensures forall i :: 0 <= i < |current| ==>
      Fuse(current, reply)[i] * Sum(Mul(current, reply)) == Mul(current, reply)[i]
  {
    var product := Mul(current, reply);
    SumPositive(product);
    NormalizedSumsToOne(product);
    DivProportional(product, Sum(product));
    assert Fuse(current, reply) == Div(product, Sum(product));
  }

  /** Combined: the new vector is the fused one (proportional to the product, by `FuseRule`) and sums to one; score and label follow it. */
  lemma CombinedRule(current: seq<real>, failureMode: FailureMode, reply: Reply, count: int, maxDepth: int,
                     rejection: seq<real> -> real)
    requires |current| > 0 && AllPositive(current) && ReplyFits(reply, |current|)
    ensures var e := CombinedEntry(current, failureMode, reply, count, maxDepth, rejection);
      e.probabilities == Fuse(current, reply.probabilities) && Sum(e.probabilities) == 1.0 &&
      e.failureMode == Label(failureMode, reply.ious[ArgMax(e.probabilities)]) &&
      e.score == (if count >= maxDepth then Sentinel else rejection(e.probabilities))
  {
    FuseRule(current, reply.probabilities);
  }

  /** Ensemble mean: the average's total is the total of the current vector and of every reply, over K + 1. */
  lemma EnsembleMeanTotal(current: seq<real>, sols: seq<Reply>)
    requires AllFit(sols, |current|)
    ensures Sum(EnsembleMeanVector(current, sols)) == (Sum(current) + Sum(ReplyTotals(sols))) / ((|sols| + 1) as real)
  {
    var mean := EnsembleMeanVector(current, sols);
    SummedThenDivided(current, sols);
    assert mean == Div(AddAll(current, sols), (|sols| + 1) as real);
  }

  lemma SummedThenDivided(current: seq<real>, sols: seq<Reply>)
    requires AllFit(sols, |current|)
    ensures Sum(Div(AddAll(current, sols), (|sols| + 1) as real)) ==
      (Sum(current) + Sum(ReplyTotals(sols))) / ((|sols| + 1) as real)
  {
    SumAddAll(current, sols);
    SumDivTotal(AddAll(current, sols), Sum(current), Sum(ReplyTotals(sols)), |sols|);
  }

  /** Ensemble consensus: the label follows a detection voted for at least as often as any other. */
  lemma EnsembleConsensusRule(current: seq<real>, failureMode: FailureMode, sols: seq<Reply>, tie: nat)
    requires |current| > 0 && |sols| > 0 && AllFit(sols, |current|)
    ensures var e := EnsembleConsensusEntry(current, failureMode, sols, tie);
      var choices := Choices(current, sols);
      e.score == Sentinel && e.probabilities == current &&
      exists pick :: pick in choices && (forall w :: Count(choices, w) <= Count(choices, pick)) &&
        e.failureMode == Label(failureMode, sols[|sols| - 1].ious[pick])
  {
    var pick := PickMode(Choices(current, sols), tie);
    assert pick in Choices(current, sols);
  }

  /** The selected target's columns after a re-query are the policy's new entry. */
  lemma RequeryAt(tr: Trial, t: nat, p: Policy, o: Oracles, total: nat, widths: seq<nat>)
    requires Consistent(tr, p, o, widths) && t < |widths|
    ensures var r := Requery(tr, t, p, o, total, widths);
      var e := NewEntry(tr.draw, tr.counts[t] + p.Cost(), t, p, o, total, widths);
      r.draw.failureModes[t] == e.failureMode && r.draw.scores[t] == e.score &&
      r.draw.probabilities[t] == e.probabilities
  {
  }

  /** Naive: the reply's failure mode, and its score unless the count reached the depth limit. */
  lemma NaiveRequery(tr: Trial, t: nat, p: Policy, o: Oracles, total: nat, widths: seq<nat>)
    requires Consistent(tr, p, o, widths) && t < |widths| && p.Naive?
    ensures var r := Requery(tr, t, p, o, total, widths);
      var reply := o.fetch(total, t, 0);
      r.draw.failureModes[t] == reply.failureMode &&
      r.draw.scores[t] == (if tr.counts[t] + 1 >= p.maxDepth then Sentinel else o.rejection(reply.probabilities)) &&
      r.draw.probabilities[t] == tr.draw.probabilities[t]
  {
    RequeryAt(tr, t, p, o, total, widths);
  }

  /**
   * Smart: the reply's failure mode only when its score is strictly lower
   * than the stored one; the stored score is overwritten either way.
   */
  lemma SmartRequery(tr: Trial, t: nat, p: Policy, o: Oracles, total: nat, widths: seq<nat>)
    requires Consistent(tr, p, o, widths) && t < |widths| && p.Smart?
    ensures var r := Requery(tr, t, p, o, total, widths);
      var reply := o.fetch(total, t, 0);
      var scoreNew := o.rejection(reply.probabilities);
      r.draw.failureModes[t] == (if scoreNew < tr.draw.scores[t] then reply.failureMode else tr.draw.failureModes[t]) &&
      r.draw.scores[t] == (if tr.counts[t] + 1 >= p.maxDepth then Sentinel else scoreNew) &&
      r.draw.probabilities[t] == tr.draw.probabilities[t]
  {
    RequeryAt(tr, t, p, o, total, widths);
  }

  /**
   * Combined: the target's vector becomes the normalised product (see
   * FuseRule), summing to one, and its label and score follow it.
   */
  lemma CombinedRequery(tr: Trial, t: nat, p: Policy, o: Oracles, total: nat, widths: seq<nat>)
    requires Consistent(tr, p, o, widths) && t < |widths| && p.Combined?
    ensures var r := Requery(tr, t, p, o, total, widths);
      var reply := o.fetch(total, t, 0);
      var current := tr.draw.probabilities[t];
      var fused := r.draw.probabilities[t];
      fused == Fuse(current, reply.probabilities) && Sum(fused) == 1.0 &&
      r.draw.failureModes[t] == Label(tr.draw.failureModes[t], reply.ious[ArgMax(fused)]) &&
      r.draw.scores[t] == (if tr.counts[t] + 1 >= p.maxDepth then Sentinel else o.rejection(fused))
  {
    var reply := o.fetch(total, t, 0);
    var current := tr.draw.probabilities[t];
    var e := NewEntry(tr.draw, tr.counts[t] + 1, t, p, o, total, widths);
    assert e == CombinedEntry(current, tr.draw.failureModes[t], reply, tr.counts[t] + 1, p.maxDepth, o.rejection);
    CombinedRule(current, tr.draw.failureModes[t], reply, tr.counts[t] + 1, p.maxDepth, o.rejection);
    RequeryAt(tr, t, p, o, total, widths);
  }

  /**
   * Ensemble mean: the label is decided from the argmax of the average of
   * the current vector and the K replies; the vector is kept and the score
   * parked at the sentinel.
   */
  lemma EnsembleMeanRequery(tr: Trial, t: nat, p: Policy, o: Oracles, total: nat, widths: seq<nat>)
    requires Consistent(tr, p, o, widths) && t < |widths| && p.EnsembleMean?
    ensures var r := Requery(tr, t, p, o, total, widths);
      var current := tr.draw.probabilities[t];
      var sols := Solutions(o, total, t, p.ensembleSize);
      var mean := EnsembleMeanVector(current, sols);
      r.draw.scores[t] == Sentinel && r.draw.probabilities[t] == current &&
      Sum(mean) == (Sum(current) + Sum(ReplyTotals(sols))) / ((p.ensembleSize + 1) as real) &&
      r.draw.failureModes[t] == Label(tr.draw.failureModes[t], sols[p.ensembleSize - 1].ious[ArgMax(mean)])
  {
    RequeryAt(tr, t, p, o, total, widths);
    EnsembleMeanTotal(tr.draw.probabilities[t], Solutions(o, total, t, p.ensembleSize));
  }

  /**
   * Ensemble consensus: the label is decided at a detection voted for at
   * least as often as any other among the K + 1 argmaxes; the vector is
   * kept and the score parked at the sentinel.
   */
  lemma EnsembleConsensusRequery(tr: Trial, t: nat, p: Policy, o: Oracles, total: nat, widths: seq<nat>)
    requires Consistent(tr, p, o, widths) && t < |widths| && p.EnsembleConsensus?
    ensures var r := Requery(tr, t, p, o, total, widths);
      var current := tr.draw.probabilities[t];
      var sols := Solutions(o, total, t, p.ensembleSize);
      var choices := Choices(current, sols);
      r.draw.scores[t] == Sentinel && r.draw.probabilities[t] == current &&
      exists pick :: pick in choices && (forall w :: Count(choices, w) <= Count(choices, pick)) &&
        r.draw.failureModes[t] == Label(tr.draw.failureModes[t], sols[p.ensembleSize - 1].ious[pick])
  {
    RequeryAt(tr, t, p, o, total, widths);
    var pick := ConsensusEntryPick(tr.draw, tr.counts[t] + p.Cost(), t, p, o, total, widths);
  }

  /** The consensus policy's new entry, with the vote behind its label. */
  lemma ConsensusEntryPick(d: DrawState, count: int, t: nat, p: Policy, o: Oracles, total: nat, widths: seq<nat>)
    returns (pick: nat)
    requires ValidDraw(d, widths) && OraclesFit(o, widths) && t < |widths| && p.Terminating() && p.EnsembleConsensus?
    ensures var e := NewEntry(d, count, t, p, o, total, widths);
      var sols := Solutions(o, total, t, p.ensembleSize);
      var choices := Choices(d.probabilities[t], sols);
      e.score == Sentinel && e.probabilities == d.probabilities[t] &&
      pick in choices && (forall w :: Count(choices, w) <= Count(choices, pick)) &&
      e.failureMode == Label(d.failureModes[t], sols[p.ensembleSize - 1].ious[pick])
  {
    var k := p.ensembleSize;
    assert p == EnsembleConsensus(k);
    ConsensusIsNewEntry(d, count, t, k, o, total, widths);
    pick := ConsensusRulePick(d, t, k, o, total, widths);
  }

  /** The vote behind the consensus rule's label: a mode of the K + 1 argmaxes. */
  lemma ConsensusRulePick(d: DrawState, t: nat, k: nat, o: Oracles, total: nat, widths: seq<nat>) returns (pick: nat)
    requires ValidDraw(d, widths) && OraclesFit(o, widths) && t < |widths| && k >= 1
    ensures var sols := Solutions(o, total, t, k);
      var choices := Choices(d.probabilities[t], sols);
      pick in choices && (forall w :: Count(choices, w) <= Count(choices, pick)) &&
      ConsensusRule(d, t, k, o, total, widths) == Entry(Label(d.failureModes[t], sols[k - 1].ious[pick]), Sentinel, d.probabilities[t])
  {
    var sols := Solutions(o, total, t, k);
    pick := PickMode(Choices(d.probabilities[t], sols), o.tie(total));
  }
}

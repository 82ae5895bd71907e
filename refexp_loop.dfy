/**
 * The referring-expression deferral loop as the script runs it: the draw's
 * three columns and the run's error rows are arrays updated in place, the
 * re-query counts are a counter array, and the ensemble branches build their
 * lists of replies and votes in loops. Every method is tied to the value
 * model of the trial, where the policy rules are proved.
 */
module RefExpLoop {
  import opened Wrappers
  import opened Numeric
  import opened FailureModes
  import opened Policies
  import opened Consensus
  import opened RefExpTrial

  /** The draw of one trial: one entry per target in each column. */
  class Draw {
    const failureModes: array<FailureMode>
    const scores: array<real>
    const probabilities: array<seq<real>>

    constructor (d: DrawState)
      ensures State() == d
      ensures fresh(failureModes) && fresh(scores) && fresh(probabilities)
    {
      failureModes := new FailureMode[|d.failureModes|](i requires 0 <= i < |d.failureModes| => d.failureModes[i]);
      scores := new real[|d.scores|](i requires 0 <= i < |d.scores| => d.scores[i]);
      probabilities := new seq<real>[|d.probabilities|](i requires 0 <= i < |d.probabilities| => d.probabilities[i]);
    }

    function State(): DrawState
      reads this, failureModes, scores, probabilities
    {
      DrawState(failureModes[..], scores[..], probabilities[..])
    }

    /** Lines 88-256, the three writes of a new entry for target `t`. */
    method Put(t: nat, e: Entry)
      requires t < failureModes.Length && t < scores.Length && t < probabilities.Length
      modifies failureModes, scores, probabilities
      ensures State() == DrawState(old(State()).failureModes[t := e.failureMode], old(State()).scores[t := e.score],
                                   old(State()).probabilities[t := e.probabilities])
    {
      failureModes[t] := e.failureMode;
      scores[t] := e.score;
      probabilities[t] := e.probabilities;
    }
  }

  /** Row `i` of a result array. */
  function Row(a: array2<real>, i: nat): (r: seq<real>)
    requires i < a.Length0
    reads a
    ensures |r| == a.Length1 && forall j :: 0 <= j < a.Length1 ==> r[j] == a[i, j]
  {
    seq(a.Length1, j requires 0 <= j < a.Length1 reads a => a[i, j])
  }

  /** The `ensemble_size` further replies, fetched one after another. */
  method FetchSolutions(o: Oracles, total: nat, t: nat, k: nat) returns (sols: seq<Reply>)
    ensures sols == Solutions(o, total, t, k)
  {
    sols := [];
    for i := 0 to k
      invariant |sols| == i && forall j :: 0 <= j < i ==> sols[j] == o.fetch(total, t, j + 1)
    {
      sols := sols + [o.fetch(total, t, i + 1)];
    }
  }

  /** `new_dist`: a copy of the current vector plus every reply's vector, then divided by K + 1. */
  method MeanVector(current: seq<real>, sols: seq<Reply>) returns (newDist: seq<real>)
    requires AllFit(sols, |current|)
    ensures newDist == EnsembleMeanVector(current, sols)
  {
    newDist := current;
    for j := 0 to |sols|
      invariant |newDist| == |current|
      invariant AddAll(newDist, sols[j..]) == AddAll(current, sols)
    {
      assert sols[j..][0] == sols[j] && sols[j..][1..] == sols[j + 1..];
      newDist := Add(newDist, sols[j].probabilities);
    }
    assert sols[|sols|..] == [];
    newDist := Div(newDist, (|sols| + 1) as real);
  }

  /** `choices`: the argmax of the current vector, then one argmax per reply. */
  method Votes(current: seq<real>, sols: seq<Reply>) returns (choices: seq<nat>)
    requires |current| > 0 && AllFit(sols, |current|)
    ensures choices == Choices(current, sols)
  {
    choices := [ArgMax(current)];
    for j := 0 to |sols|
      invariant AllFit(sols[..j], |current|) && choices == Choices(current, sols[..j])
    {
      assert sols[..j + 1][..j] == sols[..j];
      choices := choices + [ArgMax(sols[j].probabilities)];
    }
    assert sols[..|sols|] == sols;
  }

  /**
   * The policy branch of one iteration: the new label, score and vector of
   * target `t`, whose count `count` already includes this step's increment.
   */
  method ComputeEntry(d: DrawState, count: int, t: nat, p: Policy, o: Oracles, total: nat, ghost widths: seq<nat>)
    returns (e: Entry)
    requires ValidDraw(d, widths) && OraclesFit(o, widths) && t < |widths| && p.Terminating()
    ensures e == NewEntry(d, count, t, p, o, total, widths)
  {
    match p
    case EnsembleMean(k) =>
      e := MeanEntry(d, t, k, o, total, widths);
      MeanIsNewEntry(d, count, t, k, o, total, widths);
    case EnsembleConsensus(k) =>
      e := ConsensusEntry(d, t, k, o, total, widths);
      ConsensusIsNewEntry(d, count, t, k, o, total, widths);
    case _ =>
      e := ReplyEntry(d, count, t, p, o, total, widths);
  }

  /** The three single-reply branches: fetch one reply and apply the naive, combined or smart rule. */
  method ReplyEntry(d: DrawState, count: int, t: nat, p: Policy, o: Oracles, total: nat, ghost widths: seq<nat>)
    returns (e: Entry)
    requires ValidDraw(d, widths) && OraclesFit(o, widths) && t < |widths| && p.Terminating() && !p.IsEnsemble()
    ensures e == NewEntry(d, count, t, p, o, total, widths)
  {
    var reply := o.fetch(total, t, 0);
    var current := d.probabilities[t];
    match p
    case Naive(maxDepth) =>
      e := NaiveEntry(current, reply, count, maxDepth, o.rejection);
    case Combined(maxDepth) =>
      e := CombinedEntry(current, d.failureModes[t], reply, count, maxDepth, o.rejection);
    case Smart(maxDepth) =>
      e := SmartEntry(current, d.failureModes[t], d.scores[t], reply, count, maxDepth, o.rejection);
  }

  /**
   * The ensemble-mean branch: fetch the K replies, relabel from the argmax
   * of their average with the current vector, using the last reply's overlaps.
   */
  method MeanEntry(d: DrawState, t: nat, k: nat, o: Oracles, total: nat, ghost widths: seq<nat>) returns (e: Entry)
    requires ValidDraw(d, widths) && OraclesFit(o, widths) && t < |widths| && k >= 1
    ensures e == EnsembleMeanEntry(d.probabilities[t], d.failureModes[t], Solutions(o, total, t, k))
  {
    var current := d.probabilities[t];
    var sols := FetchSolutions(o, total, t, k);
    var newDist := MeanVector(current, sols);
    var solution := sols[|sols| - 1];
    e := Entry(Label(d.failureModes[t], solution.ious[ArgMax(newDist)]), Sentinel, current);
  }

  /**
   * The ensemble-consensus branch: fetch the K replies, relabel from a mode
   * of the votes, using the last reply's overlaps.
   */
  method ConsensusEntry(d: DrawState, t: nat, k: nat, o: Oracles, total: nat, ghost widths: seq<nat>) returns (e: Entry)
    requires ValidDraw(d, widths) && OraclesFit(o, widths) && t < |widths| && k >= 1
    ensures e == ConsensusRule(d, t, k, o, total, widths)
  {
    var current := d.probabilities[t];
    var sols := FetchSolutions(o, total, t, k);
    var choices := Votes(current, sols);
    var pick := PickMode(choices, o.tie(total));
    var solution := sols[|sols| - 1];
    e := Entry(Label(d.failureModes[t], solution.ious[pick]), Sentinel, current);
  }

  /** `all_rq_counts.sum()`. */
  method Total(counts: array<int>) returns (s: int)
    ensures s == SumInt(counts[..])
  {
    s := 0;
    for i := 0 to counts.Length
      invariant s == SumInt(counts[..i])
    {
      assert counts[..i + 1] == counts[..i] + [counts[i]];
      SumIntAppend(counts[..i], [counts[i]]);
      s := s + counts[i];
    }
    assert counts[..counts.Length] == counts[..];
  }

  /** The trial as the arrays hold it, with row `run` of the result arrays. */
  function Current(draw: Draw, counts: array<int>, errors: array2<real>, rmaes: array2<real>, run: nat): Trial
    requires run < errors.Length0 && run < rmaes.Length0
    reads draw, draw.failureModes, draw.scores, draw.probabilities, counts, errors, rmaes
  {
    Trial(draw.State(), counts[..], Row(errors, run), Row(rmaes, run))
  }

  /** `all_run_errors[run, total] = v` and `all_run_rmaes[run, total] = w`. */
  method Record(errors: array2<real>, rmaes: array2<real>, run: nat, total: nat, v: real, w: real)
    requires errors != rmaes && run < errors.Length0 == rmaes.Length0 && total < errors.Length1 == rmaes.Length1
    modifies errors, rmaes
    ensures Row(errors, run) == old(Row(errors, run))[total := v]
    ensures Row(rmaes, run) == old(Row(rmaes, run))[total := w]
    ensures forall i, j :: 0 <= i < errors.Length0 && i != run && 0 <= j < errors.Length1 ==>
      errors[i, j] == old(errors[i, j]) && rmaes[i, j] == old(rmaes[i, j])
  {
    errors[run, total] := v;
    rmaes[run, total] := w;
  }

  /** The policy branch applied in place to target `t`: its count rises by the cost and its columns take the new entry. */
  method Apply(draw: Draw, counts: array<int>, t: nat, p: Policy, o: Oracles, total: nat, ghost tr: Trial,
               ghost widths: seq<nat>)
    requires tr.draw == draw.State() && tr.counts == counts[..]
    requires Consistent(tr, p, o, widths) && t < |widths|
    modifies draw.failureModes, draw.scores, draw.probabilities, counts
    ensures draw.State() == Requery(tr, t, p, o, total, widths).draw
    ensures counts[..] == Requery(tr, t, p, o, total, widths).counts
  {
    counts[t] := counts[t] + p.Cost();
    var e := ComputeEntry(draw.State(), counts[t], t, p, o, total, widths);
    draw.Put(t, e);
    RequeryWrites(tr, t, p, o, total, widths);
  }

  /** The loop body: record the draw's error and rmae at the total, then apply the policy to the selected target. */
  method StepTrial(draw: Draw, counts: array<int>, errors: array2<real>, rmaes: array2<real>, run: nat, total: nat,
                   p: Policy, o: Oracles, ghost widths: seq<nat>)
    requires errors != rmaes && run < errors.Length0 == rmaes.Length0 && errors.Length1 == rmaes.Length1
    requires Consistent(Current(draw, counts, errors, rmaes, run), p, o, widths) && NonNegative(counts[..])
    requires total == SumInt(counts[..]) < |widths|
    modifies draw.failureModes, draw.scores, draw.probabilities, counts, errors, rmaes
    ensures Current(draw, counts, errors, rmaes, run) == Step(old(Current(draw, counts, errors, rmaes, run)), p, o, widths)
    ensures forall i, j :: 0 <= i < errors.Length0 && i != run && 0 <= j < errors.Length1 ==>
      errors[i, j] == old(errors[i, j]) && rmaes[i, j] == old(rmaes[i, j])
  {
    ghost var cur := Current(draw, counts, errors, rmaes, run);
    var state := draw.State();
    Record(errors, rmaes, run, total, o.error(state), o.rmae(state));
    ghost var written := cur.(errors := cur.errors[total := o.error(state)], rmaes := cur.rmaes[total := o.rmae(state)]);
    assert Step(cur, p, o, widths) == Requery(written, o.select(state), p, o, total, widths);
    Apply(draw, counts, o.select(state), p, o, total, written, widths);
  }

  /**
   * One trial: the `while` loop over re-queries, then the final write. Only
   * row `run` of the two result arrays and the draw's columns change, and
   * they end as the value model of the trial says.
   */
  method RunTrial(draw: Draw, errors: array2<real>, rmaes: array2<real>, run: nat, p: Policy, o: Oracles,
                  ghost widths: seq<nat>)
    requires errors != rmaes
    requires ValidDraw(draw.State(), widths) && OraclesFit(o, widths) && p.Terminating()
    requires run < errors.Length0 == rmaes.Length0 && errors.Length1 == rmaes.Length1
    requires RowFits(p, 0, |widths|, errors.Length1)
    modifies draw.failureModes, draw.scores, draw.probabilities, errors, rmaes
    ensures var r := Run(Trial(old(draw.State()), NoRequeries(|widths| + 1), old(Row(errors, run)), old(Row(rmaes, run))),
                         p, o, widths);
      draw.State() == r.draw && Row(errors, run) == r.errors && Row(rmaes, run) == r.rmaes
    ensures forall i, j :: 0 <= i < errors.Length0 && i != run && 0 <= j < errors.Length1 ==>
      errors[i, j] == old(errors[i, j]) && rmaes[i, j] == old(rmaes[i, j])
  {
    var n := draw.failureModes.Length;
    var counts := new int[n + 1](_ => 0);
    assert counts[..] == NoRequeries(|widths| + 1);
    assert Current(draw, counts, errors, rmaes, run) ==
      Trial(old(draw.State()), NoRequeries(|widths| + 1), old(Row(errors, run)), old(Row(rmaes, run)));
    var total := RunLoop(draw, counts, errors, rmaes, run, p, o, widths);
    ghost var last := Current(draw, counts, errors, rmaes, run);
    RunDone(last, p, o, widths);
    if total < errors.Length1 || !p.IsEnsemble() {
      var state := draw.State();
      Record(errors, rmaes, run, total, o.error(state), o.rmae(state));
    }
  }

  /** Lines 76-256: the `while` loop, which leaves a trial that runs on to the same end as the one it started from. */
  method RunLoop(draw: Draw, counts: array<int>, errors: array2<real>, rmaes: array2<real>, run: nat, p: Policy,
                 o: Oracles, ghost widths: seq<nat>) returns (total: int)
    requires errors != rmaes && run < errors.Length0 == rmaes.Length0 && errors.Length1 == rmaes.Length1
    requires Consistent(Current(draw, counts, errors, rmaes, run), p, o, widths) && NonNegative(counts[..])
    requires draw.failureModes.Length == |widths|
    modifies draw.failureModes, draw.scores, draw.probabilities, counts, errors, rmaes
    ensures total == SumInt(counts[..]) >= |widths|
    ensures Consistent(Current(draw, counts, errors, rmaes, run), p, o, widths) && NonNegative(counts[..])
    ensures Run(Current(draw, counts, errors, rmaes, run), p, o, widths) ==
      Run(old(Current(draw, counts, errors, rmaes, run)), p, o, widths)
    ensures forall i, j :: 0 <= i < errors.Length0 && i != run && 0 <= j < errors.Length1 ==>
      errors[i, j] == old(errors[i, j]) && rmaes[i, j] == old(rmaes[i, j])
  {
    ghost var final := Run(Current(draw, counts, errors, rmaes, run), p, o, widths);
    var n := draw.failureModes.Length;
    total := Total(counts);
    while total < n
      invariant total == SumInt(counts[..])
      invariant Consistent(Current(draw, counts, errors, rmaes, run), p, o, widths) && NonNegative(counts[..])
      invariant Run(Current(draw, counts, errors, rmaes, run), p, o, widths) == final
      invariant forall i, j :: 0 <= i < errors.Length0 && i != run && 0 <= j < errors.Length1 ==>
        errors[i, j] == old(errors[i, j]) && rmaes[i, j] == old(rmaes[i, j])
      decreases n - total
    {
      ghost var cur := Current(draw, counts, errors, rmaes, run);
      StepTrial(draw, counts, errors, rmaes, run, total, p, o, widths);
      RunUnfold(cur, p, o, widths);
      total := Total(counts);
    }
  }

  /** The number of trials run before the first draw without targets, where the trial loop breaks. */
  function TrialsRun(draws: seq<DrawState>): (k: nat)
    ensures k <= |draws| && (forall r :: 0 <= r < k ==> |draws[r].failureModes| > 0)
    ensures k < |draws| ==> |draws[k].failureModes| == 0
  {
    if |draws| == 0 || |draws[0].failureModes| == 0 then 0 else 1 + TrialsRun(draws[1..])
  }

  /** A row of `np.zeros`. */
  function ZeroRow(m: nat): (r: seq<real>)
    ensures |r| == m && forall j :: 0 <= j < m ==> r[j] == 0.0
  {
    seq(m, _ => 0.0)
  }

  /** The error row trial `r` leaves, starting from a zero row of width `m`. */
  function TrialRow(d: DrawState, p: Policy, o: Oracles, widths: seq<nat>, m: nat): (row: (seq<real>, seq<real>))
    requires ValidDraw(d, widths) && OraclesFit(o, widths) && p.Terminating() && RowFits(p, 0, |widths|, m)
    ensures |row.0| == m && |row.1| == m
  {
    var r := Run(Trial(d, NoRequeries(|widths| + 1), ZeroRow(m), ZeroRow(m)), p, o, widths);
    (r.errors, r.rmaes)
  }

  /** The rows of every trial that runs, each from zero rows of width `m`. */
  function TrialRows(draws: seq<DrawState>, os: seq<Oracles>, p: Policy, widths: seq<seq<nat>>, m: nat)
    : (rows: seq<(seq<real>, seq<real>)>)
    requires |os| == |draws| == |widths| && p.Terminating()
    requires forall r :: 0 <= r < |draws| ==> ValidDraw(draws[r], widths[r]) && OraclesFit(os[r], widths[r])
    requires forall r :: 0 <= r < TrialsRun(draws) ==> RowFits(p, 0, |widths[r]|, m)
    ensures |rows| == TrialsRun(draws)
  {
    RowsUpTo(draws, os, p, widths, m, TrialsRun(draws))
  }

  /** The rows of the first `k` trials. */
  function RowsUpTo(draws: seq<DrawState>, os: seq<Oracles>, p: Policy, widths: seq<seq<nat>>, m: nat, k: nat)
    : (rows: seq<(seq<real>, seq<real>)>)
    requires |os| == |draws| == |widths| && p.Terminating() && k <= |draws|
    requires forall r :: 0 <= r < |draws| ==> ValidDraw(draws[r], widths[r]) && OraclesFit(os[r], widths[r])
    requires forall r :: 0 <= r < k ==> RowFits(p, 0, |widths[r]|, m)
    ensures |rows| == k
  {
    seq(k, r requires 0 <= r < k => TrialRow(draws[r], p, os[r], widths[r], m))
  }

  /** One trial on a fresh copy of the draw, filling row `run` of a zero result row. */
  method FillRow(d: DrawState, errors: array2<real>, rmaes: array2<real>, run: nat, p: Policy, o: Oracles,
                 ghost widths: seq<nat>)
    requires errors != rmaes
    requires ValidDraw(d, widths) && OraclesFit(o, widths) && p.Terminating()
    requires run < errors.Length0 == rmaes.Length0 && errors.Length1 == rmaes.Length1
    requires RowFits(p, 0, |widths|, errors.Length1)
    requires forall j :: 0 <= j < errors.Length1 ==> errors[run, j] == 0.0 && rmaes[run, j] == 0.0
    modifies errors, rmaes
    ensures forall j :: 0 <= j < errors.Length1 ==>
      errors[run, j] == TrialRow(d, p, o, widths, errors.Length1).0[j] &&
      rmaes[run, j] == TrialRow(d, p, o, widths, errors.Length1).1[j]
    ensures forall i, j :: 0 <= i < errors.Length0 && i != run && 0 <= j < errors.Length1 ==>
      errors[i, j] == old(errors[i, j]) && rmaes[i, j] == old(rmaes[i, j])
  {
    var draw := new Draw(d);
    assert Row(errors, run) == ZeroRow(errors.Length1) && Row(rmaes, run) == ZeroRow(errors.Length1);
    RunTrial(draw, errors, rmaes, run, p, o, widths);
  }

  /** The first `|rows|` rows of the result arrays hold `rows`. */
  predicate Filled(errors: array2<real>, rmaes: array2<real>, rows: seq<(seq<real>, seq<real>)>)
    reads errors, rmaes
  {
    |rows| <= errors.Length0 && |rows| <= rmaes.Length0 &&
    forall r, j :: 0 <= r < |rows| && 0 <= j < errors.Length1 && 0 <= j < rmaes.Length1 ==>
      j < |rows[r].0| && j < |rows[r].1| && errors[r, j] == rows[r].0[j] && rmaes[r, j] == rows[r].1[j]
  }

  /** Every row from `k` on is still zero. */
  predicate ZeroFrom(errors: array2<real>, rmaes: array2<real>, k: nat)
    reads errors, rmaes
  {
    errors.Length0 == rmaes.Length0 && errors.Length1 == rmaes.Length1 &&
    forall r, j :: k <= r < errors.Length0 && 0 <= j < errors.Length1 ==> errors[r, j] == 0.0 && rmaes[r, j] == 0.0
  }

  /**
   * The trials of one configuration: the result arrays are made at the first
   * trial with the width of its draw, every trial fills its own row, and the
   * loop stops at the first empty draw (no arrays at all when that is the
   * first). A later draw whose writes reach past that width makes numpy
   * raise IndexError (`raised`), and the script ends without a result.
   */
  method RunTrials(draws: seq<DrawState>, os: seq<Oracles>, p: Policy, ghost widths: seq<seq<nat>>)
    returns (result: Option<(array2<real>, array2<real>)>, raised: bool)
    requires |os| == |draws| == |widths| && p.Terminating()
    requires forall r :: 0 <= r < |draws| ==> ValidDraw(draws[r], widths[r]) && OraclesFit(os[r], widths[r])
    ensures raised <==>
      (0 < TrialsRun(draws) && exists r :: 0 <= r < TrialsRun(draws) && !RowFits(p, 0, |widths[r]|, |widths[0]| + 1))
    ensures result.None? <==> TrialsRun(draws) == 0 || raised
    ensures result.Some? ==>
      (forall r :: 0 <= r < TrialsRun(draws) ==> RowFits(p, 0, |widths[r]|, |widths[0]| + 1)) &&
      fresh(result.value.0) && fresh(result.value.1) && result.value.0 != result.value.1 &&
      result.value.0.Length0 == |draws| && result.value.0.Length1 == |widths[0]| + 1 &&
      Filled(result.value.0, result.value.1, TrialRows(draws, os, p, widths, |widths[0]| + 1)) &&
      ZeroFrom(result.value.0, result.value.1, TrialsRun(draws))
  {
    if |draws| == 0 || |draws[0].failureModes| == 0 {
      return None, false;
    }
    var m := |draws[0].failureModes| + 1;
    var errors := new real[|draws|, m]((_, _) => 0.0);
    var rmaes := new real[|draws|, m]((_, _) => 0.0);
    raised := FillTrials(draws, os, p, widths, m, errors, rmaes);
    if raised {
      return None, true;
    }
    return Some((errors, rmaes)), false;
  }

  /** The `for run` loop over zeroed arrays of width `m`, stopping at the first trial that would write past its row. */
  method FillTrials(draws: seq<DrawState>, os: seq<Oracles>, p: Policy, ghost widths: seq<seq<nat>>, m: nat,
                    errors: array2<real>, rmaes: array2<real>) returns (raised: bool)
    requires |os| == |draws| == |widths| && p.Terminating()
    requires forall r :: 0 <= r < |draws| ==> ValidDraw(draws[r], widths[r]) && OraclesFit(os[r], widths[r])
    requires errors != rmaes && errors.Length0 == |draws| && errors.Length1 == m && ZeroFrom(errors, rmaes, 0)
    modifies errors, rmaes
    ensures raised <==> exists r :: 0 <= r < TrialsRun(draws) && !RowFits(p, 0, |widths[r]|, m)
    ensures !raised ==>
      (forall r :: 0 <= r < TrialsRun(draws) ==> RowFits(p, 0, |widths[r]|, m)) &&
      Filled(errors, rmaes, TrialRows(draws, os, p, widths, m)) && ZeroFrom(errors, rmaes, TrialsRun(draws))
  {
    var run := 0;
    while run < |draws| && |draws[run].failureModes| > 0
      invariant run <= |draws|
      invariant forall r :: 0 <= r < run ==> |draws[r].failureModes| > 0
      invariant forall r :: 0 <= r < run ==> RowFits(p, 0, |widths[r]|, m)
      invariant Filled(errors, rmaes, RowsUpTo(draws, os, p, widths, m, run)) && ZeroFrom(errors, rmaes, run)
    {
      var width := |draws[run].failureModes|;
      assert width == |widths[run]|;
      if !RowFits(p, 0, width, m) {
        // A write of this trial lands past the end of the row.
        TrialsRunPrefix(draws, run);
        return true;
      }
      FillNext(draws, os, p, widths, m, errors, rmaes, run);
      run := run + 1;
    }
    TrialsRunExact(draws, run);
    return false;
  }

  /** One pass of the trial loop: trial `run` fills its row and the rows after it stay zero. */
  method FillNext(draws: seq<DrawState>, os: seq<Oracles>, p: Policy, ghost widths: seq<seq<nat>>, m: nat,
                  errors: array2<real>, rmaes: array2<real>, run: nat)
    requires |os| == |draws| == |widths| && p.Terminating()
    requires forall r :: 0 <= r < |draws| ==> ValidDraw(draws[r], widths[r]) && OraclesFit(os[r], widths[r])
    requires run < |draws| && forall r :: 0 <= r <= run ==> RowFits(p, 0, |widths[r]|, m)
    requires errors != rmaes && errors.Length0 == |draws| && errors.Length1 == m
    requires Filled(errors, rmaes, RowsUpTo(draws, os, p, widths, m, run)) && ZeroFrom(errors, rmaes, run)
    modifies errors, rmaes
    ensures Filled(errors, rmaes, RowsUpTo(draws, os, p, widths, m, run + 1))
    ensures ZeroFrom(errors, rmaes, run + 1)
  {
    FillRow(draws[run], errors, rmaes, run, p, os[run], widths[run]);
    ghost var rows := RowsUpTo(draws, os, p, widths, m, run);
    ghost var after := RowsUpTo(draws, os, p, widths, m, run + 1);
    forall r, j | 0 <= r < run + 1 && 0 <= j < errors.Length1
      ensures j < |after[r].0| && j < |after[r].1| && errors[r, j] == after[r].0[j] && rmaes[r, j] == after[r].1[j]
    {
      if r < run {
        assert after[r] == rows[r];
        assert old(errors[r, j]) == rows[r].0[j] && old(rmaes[r, j]) == rows[r].1[j];
      }
    }
  }

  lemma {:induction false} TrialsRunPrefix(draws: seq<DrawState>, run: nat)
    requires run < |draws| && |draws[run].failureModes| > 0
    requires forall r :: 0 <= r < run ==> |draws[r].failureModes| > 0
    ensures run < TrialsRun(draws)
  {
    if run > 0 {
      TrialsRunPrefix(draws[1..], run - 1);
    }
  }

  lemma {:induction false} TrialsRunExact(draws: seq<DrawState>, run: nat)
    requires run <= |draws| && (run == |draws| || |draws[run].failureModes| == 0)
    requires forall r :: 0 <= r < run ==> |draws[r].failureModes| > 0
    ensures TrialsRun(draws) == run
  {
    if run > 0 {
      TrialsRunExact(draws[1..], run - 1);
    }
  }
}

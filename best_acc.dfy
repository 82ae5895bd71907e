/**
 * calc_best_acc for one model run: each output row names the target its
 * sentence refers to and the failure mode of the model's answer. A
 * target counts towards "best" when some output for it is correct, and
 * towards "worst" only when none of its outputs is wrong.
 */
module BestAcc {
  import opened Wrappers
  import opened Numeric
  import opened FailureModes

  /** One output of a run: the target looked up from its sentence, and the output's failure mode. */
  datatype OutputRow = OutputRow(target: int, mode: FailureMode)

  predicate Seen(rows: seq<OutputRow>, t: int) {
    exists i :: 0 <= i < |rows| && rows[i].target == t
  }

  /** Some output for `t` is correct. */
  predicate CorrectExists(rows: seq<OutputRow>, t: int) {
    exists i :: 0 <= i < |rows| && rows[i].target == t && rows[i].mode == Correct
  }

  /** Some output for `t` has any other failure mode. */
  predicate IncorrectExists(rows: seq<OutputRow>, t: int) {
    exists i :: 0 <= i < |rows| && rows[i].target == t && rows[i].mode != Correct
  }

  predicate Distinct(s: seq<int>) {
    forall i, j :: 0 <= i < j < |s| ==> s[i] != s[j]
  }

  /** The targets in order of first occurrence: the key order of a Python dict filled row by row. */
  function FirstSeen(rows: seq<OutputRow>): (ts: seq<int>)
    ensures Distinct(ts)
    ensures forall t :: t in ts <==> Seen(rows, t)
    decreases |rows|
  {
    if |rows| == 0 then
      []
    else
      var n := |rows| - 1;
      var front := FirstSeen(rows[..n]);
      assert forall t :: Seen(rows, t) <==> Seen(rows[..n], t) || rows[n].target == t by {
        forall t ensures Seen(rows, t) <==> Seen(rows[..n], t) || rows[n].target == t {
          if Seen(rows, t) && rows[n].target != t {
            var i :| 0 <= i < |rows| && rows[i].target == t;
            assert rows[..n][i] == rows[i];
          }
          if Seen(rows[..n], t) {
            var i :| 0 <= i < n && rows[..n][i].target == t;
            assert rows[i] == rows[..n][i];
          }
        }
      }
      if rows[n].target in front then front else front + [rows[n].target]
  }

  /** The flags of the rows before `i`, as the loop holds them. */
  ghost predicate FlagsAfter(rows: seq<OutputRow>, i: nat, correct: map<int, bool>, incorrect: map<int, bool>, order: seq<int>)
    requires i <= |rows|
  {
    var seen := rows[..i];
    order == FirstSeen(seen) &&
    (forall t :: t in correct <==> Seen(seen, t)) &&
    (forall t :: t in incorrect <==> Seen(seen, t)) &&
    (forall t :: t in correct ==> (correct[t] <==> CorrectExists(seen, t))) &&
    (forall t :: t in incorrect ==> (incorrect[t] <==> IncorrectExists(seen, t)))
  }

  /** How one row changes what is known about each target. */
  lemma FlagsStep(rows: seq<OutputRow>, i: nat, t: int)
    requires i < |rows|
    ensures Seen(rows[..i + 1], t) <==> Seen(rows[..i], t) || rows[i].target == t
    ensures CorrectExists(rows[..i + 1], t) <==>
      CorrectExists(rows[..i], t) || (rows[i].target == t && rows[i].mode == Correct)
    ensures IncorrectExists(rows[..i + 1], t) <==>
      IncorrectExists(rows[..i], t) || (rows[i].target == t && rows[i].mode != Correct)
  {
    var a := rows[..i];
    var b := rows[..i + 1];
    assert forall j :: 0 <= j < i ==> a[j] == b[j];
    assert b[i] == rows[i];
    if Seen(b, t) {
      var j :| 0 <= j < |b| && b[j].target == t;
      if j < i {
        assert a[j].target == t;
      }
    }
    if CorrectExists(b, t) {
      var j :| 0 <= j < |b| && b[j].target == t && b[j].mode == Correct;
      if j < i {
        assert a[j].target == t && a[j].mode == Correct;
      }
    }
    if IncorrectExists(b, t) {
      var j :| 0 <= j < |b| && b[j].target == t && b[j].mode != Correct;
      if j < i {
        assert a[j].target == t && a[j].mode != Correct;
      }
    }
  }

  /**
   * Lines 84-91: both dicts filled row by row. A target gets `False` in
   * both on first sight; a correct output sets its `correct` flag, any
   * other output its `incorrect` flag; no flag is ever reset.
   */
  method ExistsDicts(rows: seq<OutputRow>) returns (correct: map<int, bool>, incorrect: map<int, bool>, order: seq<int>)
    ensures order == FirstSeen(rows)
    ensures correct.Keys == incorrect.Keys
    ensures forall t :: t in correct <==> Seen(rows, t)
    ensures forall t :: t in correct ==> (correct[t] <==> CorrectExists(rows, t))
    ensures forall t :: t in incorrect ==> (incorrect[t] <==> IncorrectExists(rows, t))
    ensures forall t :: t in correct ==> correct[t] || incorrect[t]
  {
    correct, incorrect, order := map[], map[], [];
    var i := 0;
    while i < |rows|
      invariant 0 <= i <= |rows|
      invariant FlagsAfter(rows, i, correct, incorrect, order)
    {
      var t := rows[i].target;
      forall u ensures
        (Seen(rows[..i + 1], u) <==> Seen(rows[..i], u) || rows[i].target == u) &&
        (CorrectExists(rows[..i + 1], u) <==> CorrectExists(rows[..i], u) || (rows[i].target == u && rows[i].mode == Correct)) &&
        (IncorrectExists(rows[..i + 1], u) <==> IncorrectExists(rows[..i], u) || (rows[i].target == u && rows[i].mode != Correct))
      {
        FlagsStep(rows, i, u);
      }
      assert rows[..i + 1][..i] == rows[..i];
      if t !in correct {
        correct := correct[t := false];
        incorrect := incorrect[t := false];
        order := order + [t];
      }
      if rows[i].mode == Correct {
        correct := correct[t := true];
      } else {
        incorrect := incorrect[t := true];
      }
      i := i + 1;
    }
    assert rows[..i] == rows;
    forall t | t in correct ensures correct[t] || incorrect[t] {
      var j :| 0 <= j < |rows| && rows[j].target == t;
    }
    assert forall t :: t in correct.Keys <==> t in incorrect.Keys;
  }

  /** Lines 92-95: `[int(flags[key]) for key in flags]`, as the floats numpy averages. */
  function Indicators(flags: map<int, bool>, order: seq<int>): (v: seq<real>)
    requires forall k :: 0 <= k < |order| ==> order[k] in flags
    ensures |v| == |order|
    ensures forall k :: 0 <= k < |order| ==> v[k] == if flags[order[k]] then 1.0 else 0.0
  {
    seq(|order|, k requires 0 <= k < |order| => if flags[order[k]] then 1.0 else 0.0)
  }

  /** `correct_exists_list` in spec terms: for each target in dict order, whether some output is correct. */
  function CorrectIndicators(rows: seq<OutputRow>): (v: seq<real>)
    ensures |v| == |FirstSeen(rows)|
  {
    var ts := FirstSeen(rows);
    seq(|ts|, k requires 0 <= k < |ts| => if CorrectExists(rows, ts[k]) then 1.0 else 0.0)
  }

  /** `incorrect_exists_list` in spec terms. */
  function IncorrectIndicators(rows: seq<OutputRow>): (v: seq<real>)
    ensures |v| == |FirstSeen(rows)|
  {
    var ts := FirstSeen(rows);
    seq(|ts|, k requires 0 <= k < |ts| => if IncorrectExists(rows, ts[k]) then 1.0 else 0.0)
  }

  lemma SomeTarget(rows: seq<OutputRow>)
    requires |rows| > 0
    ensures |FirstSeen(rows)| > 0
  {
    assert Seen(rows, rows[0].target);
  }

  /** The fraction of targets some output of which is correct. */
  function BestFraction(rows: seq<OutputRow>): real
    requires |rows| > 0
  {
    SomeTarget(rows);
    Mean(CorrectIndicators(rows))
  }

  /** One minus the fraction of targets some output of which is wrong. */
  function WorstFraction(rows: seq<OutputRow>): real
    requires |rows| > 0
  {
    SomeTarget(rows);
    1.0 - Mean(IncorrectIndicators(rows))
  }

  /** Flags that cover every position between them sum to at least the length. */
  lemma {:induction false} CoveringSums(c: seq<real>, w: seq<real>)
    requires |c| == |w|
    requires forall k :: 0 <= k < |c| ==> c[k] + w[k] >= 1.0
    ensures Sum(c) + Sum(w) >= |c| as real
  {
    if |c| > 0 {
      CoveringSums(c[1..], w[1..]);
    }
  }

  /** Every target has a correct or a wrong output: its two indicators cover it. */
  lemma IndicatorsCover(rows: seq<OutputRow>)
    ensures forall k :: 0 <= k < |FirstSeen(rows)| ==> CorrectIndicators(rows)[k] + IncorrectIndicators(rows)[k] >= 1.0
  {
    var ts := FirstSeen(rows);
    forall k | 0 <= k < |ts| ensures CorrectIndicators(rows)[k] + IncorrectIndicators(rows)[k] >= 1.0 {
      assert ts[k] in ts;
      var j :| 0 <= j < |rows| && rows[j].target == ts[k];
    }
  }

  lemma CoveringMeans(c: seq<real>, w: seq<real>)
    requires |c| == |w| > 0
    requires forall k :: 0 <= k < |c| ==> 0.0 <= c[k] <= 1.0 && 0.0 <= w[k] <= 1.0
    requires forall k :: 0 <= k < |c| ==> c[k] + w[k] >= 1.0
    ensures 0.0 <= 1.0 - Mean(w) <= Mean(c) <= 1.0
  {
    CoveringSums(c, w);
    MeanBounds(c, 0.0, 1.0);
    MeanBounds(w, 0.0, 1.0);
    var n := |c| as real;
    DivAdd(Sum(c), Sum(w), n);
    DivAtLeastOne(Sum(c) + Sum(w), n);
  }

  lemma DivAdd(x: real, y: real, n: real)
    requires n > 0.0
    ensures x / n + y / n == (x + y) / n
  {
  }

  lemma DivAtLeastOne(x: real, n: real)
    requires x >= n > 0.0
    ensures x / n >= 1.0
  {
  }

  /**
   * Lines 95-96: best and worst both lie in [0, 1], and worst never
   * exceeds best, since every target has a correct or a wrong output.
   */
  lemma FractionsOrdered(rows: seq<OutputRow>)
    requires |rows| > 0
    ensures 0.0 <= WorstFraction(rows) <= BestFraction(rows) <= 1.0
  {
    SomeTarget(rows);
    IndicatorsCover(rows);
    CoveringMeans(CorrectIndicators(rows), IncorrectIndicators(rows));
  }

  /** The dicts' flags in key order are the spec-level indicator vectors. */
  lemma DictIndicators(rows: seq<OutputRow>, correct: map<int, bool>, incorrect: map<int, bool>, order: seq<int>)
    requires order == FirstSeen(rows) && correct.Keys == incorrect.Keys
    requires forall t :: t in correct <==> Seen(rows, t)
    requires forall t :: t in correct ==> (correct[t] <==> CorrectExists(rows, t))
    requires forall t :: t in incorrect ==> (incorrect[t] <==> IncorrectExists(rows, t))
    ensures forall k :: 0 <= k < |order| ==> order[k] in correct && order[k] in incorrect
    ensures Indicators(correct, order) == CorrectIndicators(rows)
    ensures Indicators(incorrect, order) == IncorrectIndicators(rows)
  {
    assert forall k :: 0 <= k < |order| ==> order[k] in order;
  }

  /**
   * Lines 84-96 for one run: best and worst from the two dicts; `None`
   * for a run with no outputs, where numpy's mean of an empty list is NaN.
   */
  method BestAndWorst(rows: seq<OutputRow>) returns (best: Option<real>, worst: Option<real>)
    ensures best.Some? <==> |rows| > 0
    ensures worst.Some? <==> |rows| > 0
    ensures |rows| > 0 ==> best == Some(BestFraction(rows)) && worst == Some(WorstFraction(rows))
  {
    var correct, incorrect, order := ExistsDicts(rows);
    if |rows| == 0 {
      return None, None;
    }
    DictIndicators(rows, correct, incorrect, order);
    var c := Indicators(correct, order);
    var w := Indicators(incorrect, order);
    best := Some(Mean(c));
    worst := Some(1.0 - Mean(w));
  }
}

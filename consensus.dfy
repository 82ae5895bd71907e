/**
 * The consensus vote of the ensemble policy: `Counter(choices).most_common()`
 * grouped by count, keeping the first group. `most_common` sorts stably by
 * count, so the modes come out in the order the values first occur.
 */
module Consensus {

  /** How often `v` occurs in `s`. */
  function Count(s: seq<nat>, v: nat): nat {
    multiset(s)[v]
  }

  /** The values of `s` without repetitions, in order of first occurrence (the keys of a Counter). */
  function Distinct(s: seq<nat>): (r: seq<nat>)
    ensures forall v {:trigger v in r} :: v in r <==> v in s
    ensures forall i, j :: 0 <= i < j < |r| ==> r[i] != r[j]
  {
    if |s| == 0 then []
    else
      var d := Distinct(s[..|s| - 1]);
      var x := s[|s| - 1];
      assert s == s[..|s| - 1] + [x];
      if x in d then d else d + [x]
  }

  /** The largest multiplicity in `s` of a value among `candidates` (zero for none). */
  function TopCount(s: seq<nat>, candidates: seq<nat>): (m: nat)
    ensures forall v {:trigger v in candidates} :: v in candidates ==> Count(s, v) <= m
    ensures |candidates| > 0 ==> exists v :: v in candidates && Count(s, v) == m
  {
    if |candidates| == 0 then 0
    else
      var rest := TopCount(s, candidates[1..]);
      assert forall v :: v in candidates ==> v == candidates[0] || v in candidates[1..];
      if Count(s, candidates[0]) >= rest then Count(s, candidates[0]) else rest
  }

  /** The values of `d` whose multiplicity in `s` is exactly `m`, in the order of `d`. */
  function WithCount(d: seq<nat>, s: seq<nat>, m: nat): (r: seq<nat>)
    ensures forall v {:trigger v in r} :: v in r <==> v in d && Count(s, v) == m
  {
    if |d| == 0 then []
    else
      var rest := WithCount(d[1..], s, m);
      assert forall v :: v in d ==> v == d[0] || v in d[1..];
      if Count(s, d[0]) == m then [d[0]] + rest else rest
  }

  /** The first group of `groupby(Counter(s).most_common(), count)`: every value of maximal multiplicity. */
  function ModeList(s: seq<nat>): seq<nat> {
    WithCount(Distinct(s), s, TopCount(s, s))
  }

  /** A value is a mode exactly when it occurs and nothing occurs more often. */
  lemma ModeListSpec(s: seq<nat>, v: nat)
    ensures v in ModeList(s) <==> v in s && forall w :: Count(s, w) <= Count(s, v)
  {
    var m := TopCount(s, s);
    if v in s && forall w :: Count(s, w) <= Count(s, v) {
      var u :| u in s && Count(s, u) == m;
      assert Count(s, u) <= Count(s, v);
    }
    if v in ModeList(s) {
      forall w ensures Count(s, w) <= Count(s, v) {
        if w !in s {
          assert multiset(s)[w] == 0;
        }
      }
    }
  }

  /** A non-empty vote always has a mode. */
  lemma ModeListNonEmpty(s: seq<nat>)
    requires |s| > 0
    ensures |ModeList(s)| > 0
  {
    var m := TopCount(s, s);
    var u :| u in s && Count(s, u) == m;
    assert u in ModeList(s);
  }

  /** `random.choice(mode_list)`, with the generator's draw given as `tie`. */
  function PickMode(s: seq<nat>, tie: nat): (v: nat)
    requires |s| > 0
    ensures v in s && forall w :: Count(s, w) <= Count(s, v)
  {
    ModeListNonEmpty(s);
    var modes := ModeList(s);
    var v := modes[tie % |modes|];
    ModeListSpec(s, v);
    v
  }

  /** A value chosen by a strict majority is the only mode. */
  lemma MajorityIsPicked(s: seq<nat>, v: nat, tie: nat)
    requires |s| > 0 && 2 * Count(s, v) > |s|
    ensures PickMode(s, tie) == v
  {
    var w := PickMode(s, tie);
    if w != v {
      CountPair(s, v, w);
    }
  }

  lemma {:induction false} CountPair(s: seq<nat>, v: nat, w: nat)
    requires v != w
    ensures Count(s, v) + Count(s, w) <= |s|
  {
    if |s| > 0 {
      CountPair(s[1..], v, w);
      assert s == [s[0]] + s[1..];
      assert multiset(s) == multiset{s[0]} + multiset(s[1..]);
    }
  }
}

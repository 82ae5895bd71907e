/**
 * calc_dev: the compiled results regrouped by policy and depth, and the
 * fields of a CSV row recovered from a result key. A result key is
 * `split-net-source-dist-score-policy` with the policy's name last, e.g.
 * `testA-net-src-3-entropy-ensemble_mean_4`; splitting it on `_` and
 * taking the last piece as the depth gives the policy family and its
 * parameter.
 */
module CalcDev {
  import opened Wrappers
  import opened Numeric
  import opened Strings
  import opened Policies
  import opened ColumnBackfill

  /** Lines 15-16: the distribution names by database id; `None` where the lookup raises KeyError. */
  function DistName(id: int): (r: Option<string>)
    ensures r.Some? <==> 1 <= id <= 5
  {
    match id
    case 1 => Some("softmax")
    case 2 => Some("varratio")
    case 3 => Some("dropout")
    case 4 => Some("dropout_textonly")
    case 5 => Some("varratio_textonly")
    case _ => None
  }

  /** A policy family and the depth (or ensemble size) it ran with. */
  datatype ResultKey = ResultKey(family: string, depth: int)

  /** Lines 26-29: the `_` pieces of a key, the first two re-joined when there are exactly three. */
  function KeyFields(key: string): seq<string> {
    var parts := Split(key, '_');
    if |parts| == 3 then [parts[0] + "_" + parts[1], parts[2]] else parts
  }

  /** Lines 26-30: method and depth of a key; `None` where Python raises IndexError or ValueError. */
  function ParseResultKey(key: string): (r: Option<ResultKey>)
    ensures r.None? <==> |KeyFields(key)| < 2 || ParseInt(KeyFields(key)[1]).None?
  {
    var fields := KeyFields(key);
    if |fields| < 2 then None
    else
      match ParseInt(fields[1])
      case None => None
      case Some(d) => Some(ResultKey(fields[0], d))
  }

  /** The policy family in a result key: its name without the parameter. */
  function PolicyWord(p: Policy): (w: string)
    ensures Prefix(p) == w + "_"
    ensures '-' !in w
  {
    match p
    case Naive(_) => "naive"
    case Combined(_) => "combined"
    case Smart(_) => "smart"
    case EnsembleMean(_) => "ensemble_mean"
    case EnsembleConsensus(_) => "ensemble_consensus"
  }

  lemma SplitTwo(a: string, b: string, sep: char)
    requires sep !in a && sep !in b
    ensures Split(a + [sep] + b, sep) == [a, b]
  {
    SplitFirstField(a, b, sep);
    SplitNoSeparator(b, sep);
  }

  /** Splitting `s`, which is `a`, a separator and `tail`, gives `a` ahead of the fields of `tail`. */
  lemma SplitPrepend(a: string, tail: string, s: string, rest: seq<string>, sep: char)
    requires sep !in a && s == a + [sep] + tail && Split(tail, sep) == rest
    ensures Split(s, sep) == [a] + rest
  {
    SplitFirstField(a, tail, sep);
  }

  lemma SplitThree(a: string, b: string, c: string, sep: char)
    requires sep !in a && sep !in b && sep !in c
    ensures Split(a + [sep] + b + [sep] + c, sep) == [a, b, c]
  {
    SplitFirstField(b, c, sep);
    SplitNoSeparator(c, sep);
    SplitPrepend(a, b + [sep] + c, a + [sep] + b + [sep] + c, [b, c], sep);
  }

  lemma ParseTwoPieceKey(first: string, d: string, k: int)
    requires '_' !in first && '_' !in d && ParseInt(d) == Some(k)
    ensures ParseResultKey(first + ['_'] + d) == Some(ResultKey(first, k))
  {
    SplitTwo(first, d, '_');
  }

  lemma ParseThreePieceKey(first: string, second: string, d: string, k: int)
    requires '_' !in first && '_' !in second && '_' !in d && ParseInt(d) == Some(k)
    ensures ParseResultKey(first + ['_'] + second + ['_'] + d) == Some(ResultKey(first + "_" + second, k))
  {
    SplitThree(first, second, d, '_');
  }

  /** The word after `ensemble_` in an ensemble policy's name. */
  function EnsembleKind(p: Policy): string
    requires p.IsEnsemble()
  {
    if p.EnsembleMean? then "mean" else "consensus"
  }

  lemma EnsembleNameShape(p: Policy)
    requires p.IsEnsemble()
    ensures PolicyName(p) == "ensemble" + ['_'] + EnsembleKind(p) + ['_'] + ShowInt(p.Parameter())
    ensures PolicyWord(p) == "ensemble" + "_" + EnsembleKind(p)
    ensures '_' !in EnsembleKind(p)
  {
    var d := ShowInt(p.Parameter());
    if p.EnsembleMean? {
      JoinThree("ensemble", "mean", d, '_');
      assert "ensemble_mean" == "ensemble" + "_" + "mean";
    } else {
      JoinThree("ensemble", "consensus", d, '_');
      assert "ensemble_consensus" == "ensemble" + "_" + "consensus";
    }
  }

  /** An ensemble key cut at its two `_`: the stem with `ensemble`, the kind, and the size. */
  lemma EnsembleKeyShape(stem: string, p: Policy)
    requires p.IsEnsemble()
    ensures stem + "-" + PolicyName(p) == (stem + "-" + "ensemble") + ['_'] + EnsembleKind(p) + ['_'] + ShowInt(p.Parameter())
    ensures (stem + "-" + "ensemble") + "_" + EnsembleKind(p) == stem + "-" + PolicyWord(p)
  {
    EnsembleNameShape(p);
    AppendAssocFive(stem + "-", "ensemble", ['_'], EnsembleKind(p), ['_'], ShowInt(p.Parameter()));
    AppendAssocThree(stem + "-", "ensemble", "_", EnsembleKind(p));
  }

  /** A single-policy key cut at its `_`: the stem with the family word, and the parameter. */
  lemma SingleKeyShape(stem: string, p: Policy)
    requires !p.IsEnsemble()
    ensures stem + "-" + PolicyName(p) == (stem + "-" + PolicyWord(p)) + ['_'] + ShowInt(p.Parameter())
  {
    NameShape(p);
  }

  lemma ParseEnsembleKey(stem: string, p: Policy)
    requires '_' !in stem && p.IsEnsemble()
    ensures ParseResultKey(stem + "-" + PolicyName(p)) == Some(ResultKey(stem + "-" + PolicyWord(p), p.Parameter()))
  {
    EnsembleNameShape(p);
    EnsembleKeyShape(stem, p);
    ShowIntHasNoSeparator(p.Parameter(), '_');
    ParseShowInt(p.Parameter());
    ParseThreePieceKey(stem + "-" + "ensemble", EnsembleKind(p), ShowInt(p.Parameter()), p.Parameter());
  }

  lemma ParseSingleKey(stem: string, p: Policy)
    requires '_' !in stem && !p.IsEnsemble()
    ensures ParseResultKey(stem + "-" + PolicyName(p)) == Some(ResultKey(stem + "-" + PolicyWord(p), p.Parameter()))
  {
    SingleKeyShape(stem, p);
    ShowIntHasNoSeparator(p.Parameter(), '_');
    ParseShowInt(p.Parameter());
    ParseTwoPieceKey(stem + "-" + PolicyWord(p), ShowInt(p.Parameter()), p.Parameter());
  }

  /**
   * A key ending in a policy's name parses to the policy's family and its
   * parameter, provided the part before it holds no `_`.
   */
  lemma ParsePolicyKey(stem: string, p: Policy)
    requires '_' !in stem
    ensures ParseResultKey(stem + "-" + PolicyName(p)) == Some(ResultKey(stem + "-" + PolicyWord(p), p.Parameter()))
  {
    if p.IsEnsemble() {
      ParseEnsembleKey(stem, p);
    } else {
      ParseSingleKey(stem, p);
    }
  }

  /** Lines 32-35, one entry: `with_depth_dict[method][depth] = value`, creating the inner dict on first use. */
  function Insert(w: map<string, map<int, ResultRecord>>, k: ResultKey, v: ResultRecord): (r: map<string, map<int, ResultRecord>>)
    ensures k.family in r && k.depth in r[k.family] && r[k.family][k.depth] == v
    ensures forall m :: m in r <==> m in w || m == k.family
    ensures forall m :: m in w && m != k.family ==> r[m] == w[m]
    ensures k.family in w ==> forall d :: d != k.depth ==> (d in r[k.family] <==> d in w[k.family])
    ensures k.family in w ==> forall d :: d in w[k.family] && d != k.depth ==> r[k.family][d] == w[k.family][d]
    ensures k.family !in w ==> r[k.family].Keys == {k.depth}
  {
    var inner := if k.family in w then w[k.family] else map[];
    w[k.family := inner[k.depth := v]]
  }

  /**
   * Lines 25-30 with the key parser as a parameter: every key parsed in
   * order, `None` as soon as one does not parse.
   */
  function ParseEach(data: seq<(string, ResultRecord)>, parse: string -> Option<ResultKey>): (r: Option<seq<(ResultKey, ResultRecord)>>)
    ensures r.Some? ==> |r.value| == |data|
    decreases |data|
  {
    if |data| == 0 then
      Some([])
    else
      var n := |data| - 1;
      match ParseEach(data[..n], parse)
      case None => None
      case Some(es) =>
        match parse(data[n].0)
        case None => None
        case Some(k) => Some(es + [(k, data[n].1)])
  }

  /** Lines 25-30 for every key in order; `None` where some key does not parse. */
  function ParsedKeys(data: seq<(string, ResultRecord)>): (r: Option<seq<(ResultKey, ResultRecord)>>)
    ensures r.Some? ==> |r.value| == |data|
  {
    ParseEach(data, ParseResultKey)
  }

  /** One more entry: its key must parse too, and its parse is appended. */
  lemma ParseEachSnoc(data: seq<(string, ResultRecord)>, parse: string -> Option<ResultKey>, m: nat)
    requires 0 < m <= |data|
    ensures ParseEach(data[..m], parse).Some? <==> ParseEach(data[..m - 1], parse).Some? && parse(data[m - 1].0).Some?
    ensures ParseEach(data[..m], parse).Some? ==>
      ParseEach(data[..m], parse).value == ParseEach(data[..m - 1], parse).value + [(parse(data[m - 1].0).value, data[m - 1].1)]
  {
    assert data[..m][..m - 1] == data[..m - 1];
    assert data[..m][m - 1] == data[m - 1];
  }

  /** The first `m` entries parse exactly when each of their keys does. */
  lemma {:induction false} ParseEachDefined(data: seq<(string, ResultRecord)>, parse: string -> Option<ResultKey>, m: nat)
    requires m <= |data|
    ensures ParseEach(data[..m], parse).Some? <==> forall i :: 0 <= i < m ==> parse(data[i].0).Some?
    decreases m
  {
    if m > 0 {
      ParseEachDefined(data, parse, m - 1);
      ParseEachSnoc(data, parse, m);
    }
  }

  /** Each parsed entry is its key's parse with its record. */
  lemma {:induction false} ParseEachAt(data: seq<(string, ResultRecord)>, parse: string -> Option<ResultKey>, i: nat)
    requires ParseEach(data, parse).Some? && i < |data|
    ensures parse(data[i].0).Some?
    ensures ParseEach(data, parse).value[i] == (parse(data[i].0).value, data[i].1)
    decreases |data|
  {
    var n := |data| - 1;
    var front := data[..n];
    if i < n {
      assert front[i] == data[i];
      ParseEachAt(front, parse, i);
    }
  }

  /** Once a prefix fails to parse, so does the whole sequence. */
  lemma {:induction false} ParseEachStop(data: seq<(string, ResultRecord)>, parse: string -> Option<ResultKey>, n: nat)
    requires n <= |data| && ParseEach(data[..n], parse).None?
    ensures ParseEach(data, parse).None?
    decreases |data| - n
  {
    if n < |data| {
      ParseEachSnoc(data, parse, n + 1);
      ParseEachStop(data, parse, n + 1);
    } else {
      assert data[..n] == data;
    }
  }

  /** Parsing fails exactly when some key does not parse. */
  lemma ParsedKeysDefined(data: seq<(string, ResultRecord)>)
    ensures ParsedKeys(data).Some? <==> forall i :: 0 <= i < |data| ==> ParseResultKey(data[i].0).Some?
  {
    ParseEachDefined(data, ParseResultKey, |data|);
    assert data[..|data|] == data;
  }

  /** Each parsed entry is its key's parse with its record. */
  lemma ParsedKeysAt(data: seq<(string, ResultRecord)>, i: nat)
    requires ParsedKeys(data).Some? && i < |data|
    ensures ParseResultKey(data[i].0).Some?
    ensures ParsedKeys(data).value[i] == (ParseResultKey(data[i].0).value, data[i].1)
  {
    ParseEachAt(data, ParseResultKey, i);
  }

  /** Lines 32-35: the dict of dicts after the parsed entries in order. */
  function Regroup(es: seq<(ResultKey, ResultRecord)>): map<string, map<int, ResultRecord>>
    decreases |es|
  {
    if |es| == 0 then map[]
    else
      var n := |es| - 1;
      Insert(Regroup(es[..n]), es[n].0, es[n].1)
  }

  /** One more parsed entry is one more `Insert`. */
  lemma RegroupSnoc(es: seq<(ResultKey, ResultRecord)>, k: ResultKey, v: ResultRecord)
    ensures Regroup(es + [(k, v)]) == Insert(Regroup(es), k, v)
  {
    assert (es + [(k, v)])[..|es|] == es;
  }

  /** Lines 24-35: `with_depth_dict`; `None` where the script raises. */
  function WithDepth(data: seq<(string, ResultRecord)>): Option<map<string, map<int, ResultRecord>>> {
    match ParsedKeys(data)
    case None => None
    case Some(es) => Some(Regroup(es))
  }

  /** A (method, depth) pair is present exactly when some entry has it. */
  lemma {:induction false} RegroupKeys(es: seq<(ResultKey, ResultRecord)>, k: ResultKey)
    ensures (k.family in Regroup(es) && k.depth in Regroup(es)[k.family]) <==>
      exists i :: 0 <= i < |es| && es[i].0 == k
    decreases |es|
  {
    if |es| > 0 {
      var n := |es| - 1;
      var front := es[..n];
      RegroupKeys(front, k);
      assert forall i :: 0 <= i < n ==> front[i] == es[i];
      if es[n].0 != k {
        assert (exists i :: 0 <= i < |es| && es[i].0 == k) ==> exists i :: 0 <= i < n && front[i].0 == k;
      }
    }
  }

  /** Every inner dict is non-empty: a method appears only with some depth. */
  lemma {:induction false} RegroupInnerNonEmpty(es: seq<(ResultKey, ResultRecord)>, m: string)
    requires m in Regroup(es)
    ensures |Regroup(es)[m]| > 0
    decreases |es|
  {
    var n := |es| - 1;
    var front := es[..n];
    var w := Regroup(front);
    var k := es[n].0;
    if m in w {
      RegroupInnerNonEmpty(front, m);
      if m == k.family {
        var d :| d in w[m];
        if d != k.depth {
          assert d in Insert(w, k, es[n].1)[m];
        }
      }
    }
  }

  /** A repeated (method, depth) pair keeps the value of its last entry. */
  lemma {:induction false} RegroupLastWins(es: seq<(ResultKey, ResultRecord)>, i: nat)
    requires i < |es|
    requires forall j :: i < j < |es| ==> es[j].0 != es[i].0
    ensures es[i].0.family in Regroup(es) && es[i].0.depth in Regroup(es)[es[i].0.family]
    ensures Regroup(es)[es[i].0.family][es[i].0.depth] == es[i].1
    decreases |es|
  {
    var n := |es| - 1;
    var front := es[..n];
    if i < n {
      assert front[i] == es[i];
      assert forall j :: i < j < n ==> front[j] == es[j];
      RegroupLastWins(front, i);
    }
  }

  /** Lines 24-35: the loop that fills `with_depth_dict`. */
  method BuildWithDepth(data: seq<(string, ResultRecord)>) returns (r: Option<map<string, map<int, ResultRecord>>>)
    ensures r == WithDepth(data)
  {
    var w: map<string, map<int, ResultRecord>> := map[];
    ghost var es: seq<(ResultKey, ResultRecord)> := [];
    var i := 0;
    while i < |data|
      invariant 0 <= i <= |data|
      invariant ParsedKeys(data[..i]) == Some(es) && Regroup(es) == w
    {
      ParseEachSnoc(data, ParseResultKey, i + 1);
      assert data[..i + 1][..i] == data[..i];
      var k := ParseResultKey(data[i].0);
      if k.None? {
        ParseEachStop(data, ParseResultKey, i + 1);
        return None;
      }
      var m := k.value.family;
      var inner := if m in w then w[m] else map[];
      w := w[m := inner[k.value.depth := data[i].1]];
      RegroupSnoc(es, k.value, data[i].1);
      es := es + [(k.value, data[i].1)];
      i := i + 1;
    }
    assert data[..i] == data;
    r := Some(w);
  }

  /** Line 46: the depths the aggregation keeps. */
  predicate InRange(depth: int) {
    0 < depth <= 10
  }

  /** What one trial draws from one depth: the sampled row's mean and its last entry. */
  datatype DepthSample = DepthSample(areaUnder: real, errAtOne: real)

  /**
   * Lines 48-54 for one depth: a row picked by `randint`, its mean and
   * its last column; `None` where numpy raises (no rows, or no column to
   * read at index -1).
   */
  function Sample(rec: ResultRecord, pick: nat): (r: Option<DepthSample>)
    requires rec.WellFormed()
    ensures r.Some? <==> |rec.errors| > 0 && rec.columns > 0
    ensures r.Some? ==> exists row :: (0 <= row < |rec.errors| &&
      r.value == DepthSample(Mean(rec.errors[row]), rec.errors[row][rec.columns - 1]))
  {
    if |rec.errors| == 0 || rec.columns == 0 then
      None
    else
      var row := pick % |rec.errors|;
      Some(DepthSample(Mean(rec.errors[row]), rec.errors[row][rec.columns - 1]))
  }

  /** The depths of one method that a trial samples. */
  function KeptDepths(inner: map<int, ResultRecord>): (ds: set<int>)
    ensures forall d :: d in ds <==> d in inner && InRange(d)
  {
    set d | d in inner && InRange(d)
  }

  /** Lines 45-54: one trial of one method, per kept depth; `pick` stands for the random row choices. */
  function TrialSamples(inner: map<int, ResultRecord>, pick: int -> nat): (r: Option<map<int, DepthSample>>)
    requires forall d :: d in inner ==> inner[d].WellFormed()
    ensures r.Some? <==> forall d :: d in KeptDepths(inner) ==> Sample(inner[d], pick(d)).Some?
    ensures r.Some? ==> r.value.Keys == KeptDepths(inner)
  {
    var kept := KeptDepths(inner);
    if forall d :: d in kept ==> Sample(inner[d], pick(d)).Some? then
      Some(map d | d in kept :: Sample(inner[d], pick(d)).value)
    else
      None
  }

  /** Error rates in [0, 1] give samples in [0, 1]: the area under the curve and err@1 alike. */
  lemma SamplesInUnitRange(inner: map<int, ResultRecord>, pick: int -> nat)
    requires forall d :: d in inner ==> inner[d].WellFormed()
    requires forall d, row, c :: d in inner && 0 <= row < |inner[d].errors| && 0 <= c < |inner[d].errors[row]| ==>
      0.0 <= inner[d].errors[row][c] <= 1.0
    requires TrialSamples(inner, pick).Some?
    ensures forall d :: d in TrialSamples(inner, pick).value ==>
      0.0 <= TrialSamples(inner, pick).value[d].areaUnder <= 1.0 &&
      0.0 <= TrialSamples(inner, pick).value[d].errAtOne <= 1.0
  {
    var t := TrialSamples(inner, pick).value;
    forall d | d in t
      ensures 0.0 <= t[d].areaUnder <= 1.0 && 0.0 <= t[d].errAtOne <= 1.0
    {
      var rec := inner[d];
      var row :| 0 <= row < |rec.errors| && t[d] == DepthSample(Mean(rec.errors[row]), rec.errors[row][rec.columns - 1]);
      MeanBounds(rec.errors[row], 0.0, 1.0);
    }
  }

  /** A row of the CSV, before its statistics. */
  datatype CsvRow = CsvRow(split: string, net: string, source: string, dist: string, score: string, selection: string)

  /** Lines 70-76: the `-` fields of a method name; `None` where Python raises. */
  function CsvFields(family: string): (r: Option<CsvRow>)
    ensures r.Some? <==> (|Split(family, '-')| >= 6 && ParseInt(Split(family, '-')[3]).Some? &&
      DistName(ParseInt(Split(family, '-')[3]).value).Some?)
  {
    var f := Split(family, '-');
    if |f| < 6 then None
    else
      match ParseInt(f[3])
      case None => None
      case Some(id) =>
        match DistName(id)
        case None => None
        case Some(dist) => Some(CsvRow(f[0], f[1], f[2], dist, f[4], f[5]))
  }

  lemma NonNegativeHasNoDash(i: int)
    requires i >= 0
    ensures '-' !in ShowInt(i)
  {
    var d := ShowInt(i);
    assert AllDigits(d);
  }

  /** The six `-` fields of a result key's method, joined. */
  function MethodName(split: string, net: string, source: string, id: int, score: string, word: string): string {
    split + "-" + net + "-" + source + "-" + ShowInt(id) + "-" + score + "-" + word
  }

  lemma MethodNameIsJoin(split: string, net: string, source: string, id: int, score: string, word: string)
    ensures MethodName(split, net, source, id, score, word) == Join([split, net, source, ShowInt(id), score, word], '-')
  {
    var d := ShowInt(id);
    JoinSnoc([split], net, '-');
    assert [split] + [net] == [split, net];
    JoinSnoc([split, net], source, '-');
    assert [split, net] + [source] == [split, net, source];
    JoinSnoc([split, net, source], d, '-');
    assert [split, net, source] + [d] == [split, net, source, d];
    JoinSnoc([split, net, source, d], score, '-');
    assert [split, net, source, d] + [score] == [split, net, source, d, score];
    JoinSnoc([split, net, source, d, score], word, '-');
    assert [split, net, source, d, score] + [word] == [split, net, source, d, score, word];
  }

  /** The CSV fields of a method name are the fields it was joined from, the distribution id named. */
  lemma CsvFieldsOfMethod(split: string, net: string, source: string, id: int, score: string, word: string)
    requires 1 <= id <= 5
    requires '-' !in split && '-' !in net && '-' !in source && '-' !in score && '-' !in word
    ensures CsvFields(MethodName(split, net, source, id, score, word)) ==
      Some(CsvRow(split, net, source, DistName(id).value, score, word))
  {
    var parts := [split, net, source, ShowInt(id), score, word];
    NonNegativeHasNoDash(id);
    MethodNameIsJoin(split, net, source, id, score, word);
    assert forall k :: 0 <= k < |parts| ==> '-' !in parts[k];
    SplitJoin(parts, '-');
    ParseShowInt(id);
  }

  /**
   * The result key written for a configuration gives back that
   * configuration: the depth from the `_` split, and every CSV field from
   * the `-` split of the method, with the distribution id named.
   */
  lemma ResultKeyRoundTrip(split: string, net: string, source: string, id: int, score: string, p: Policy)
    requires 1 <= id <= 5
    requires '-' !in split && '-' !in net && '-' !in source && '-' !in score
    requires '_' !in split && '_' !in net && '_' !in source && '_' !in score
    ensures var k := ParseResultKey(split + "-" + net + "-" + source + "-" + ShowInt(id) + "-" + score + "-" + PolicyName(p));
      k == Some(ResultKey(MethodName(split, net, source, id, score, PolicyWord(p)), p.Parameter())) &&
      CsvFields(k.value.family) == Some(CsvRow(split, net, source, DistName(id).value, score, PolicyWord(p)))
  {
    var stem := split + "-" + net + "-" + source + "-" + ShowInt(id) + "-" + score;
    ShowIntHasNoSeparator(id, '_');
    assert '_' !in stem;
    ParsePolicyKey(stem, p);
    CsvFieldsOfMethod(split, net, source, id, score, PolicyWord(p));
  }
}

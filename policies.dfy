/**
 * Replacement policies as a closed choice. The scripts receive a policy as a
 * command-line name and test it by substring; the referring-expression
 * script also reads its numeric parameter as `int(name.split("_")[-1])`.
 */
module Policies {
  import opened Wrappers
  import opened Strings

  /** A referring-expression replacement policy with the number its name carries. */
  datatype Policy =
    | Naive(maxDepth: int)
    | Combined(maxDepth: int)
    | Smart(maxDepth: int)
    | EnsembleMean(ensembleSize: int)
    | EnsembleConsensus(ensembleSize: int)
  {
    predicate IsEnsemble() {
      EnsembleMean? || EnsembleConsensus?
    }

    /** How much one application adds to the target's re-query count. */
    function Cost(): int {
      if IsEnsemble() then ensembleSize else 1
    }

    /** The number parsed out of the policy's name. */
    function Parameter(): int {
      if IsEnsemble() then ensembleSize else maxDepth
    }

    /**
     * The ensemble size is at least one. With K <= 0 no reply is fetched, so
     * `solution` stays None and the first deferral raises TypeError.
     */
    predicate Terminating() {
      Cost() >= 1
    }
  }

  datatype PolicyError =
    | Unrecognised   // no branch matches: the source loop spins forever
    | BadParameter   // `int()` raises ValueError on the last `_` field

  /** `int(name.split("_")[-1])`. */
  function NameParameter(name: string): Option<int> {
    ParseInt(Last(Split(name, '_')))
  }

  function WithParameter(name: string, make: int -> Policy): Result<Policy, PolicyError> {
    match NameParameter(name)
    case Some(k) => Ok(make(k))
    case None => Err(BadParameter)
  }

  /**
   * The branch chosen by generate_performance_pickles: the FIRST of naive,
   * combined, smart, ensemble_mean, ensemble_consensus that occurs in the
   * name, with the parameter read from the name's last `_` field.
   */
  function ParseReplacementMethod(name: string): (r: Result<Policy, PolicyError>)
    ensures r == Err(Unrecognised) <==>
      !Contains(name, "naive") && !Contains(name, "combined") && !Contains(name, "smart") &&
      !Contains(name, "ensemble_mean") && !Contains(name, "ensemble_consensus")
    ensures r == Err(BadParameter) <==>
      (Contains(name, "naive") || Contains(name, "combined") || Contains(name, "smart") ||
       Contains(name, "ensemble_mean") || Contains(name, "ensemble_consensus")) && NameParameter(name).None?
    ensures r.Ok? ==> NameParameter(name) == Some(r.value.Parameter())
    ensures Contains(name, "naive") ==> r.Err? || r.value.Naive?
    ensures r.Ok? && r.value.Naive? ==> Contains(name, "naive")
    ensures !Contains(name, "naive") && Contains(name, "combined") ==> r.Err? || r.value.Combined?
    ensures r.Ok? && r.value.Combined? ==> Contains(name, "combined") && !Contains(name, "naive")
    ensures (!Contains(name, "naive") && !Contains(name, "combined") && Contains(name, "smart")) ==>
      (r.Err? || r.value.Smart?)
    ensures r.Ok? && r.value.Smart? ==> Contains(name, "smart") && !Contains(name, "naive") && !Contains(name, "combined")
    ensures (!Contains(name, "naive") && !Contains(name, "combined") && !Contains(name, "smart") &&
             Contains(name, "ensemble_mean")) ==> (r.Err? || r.value.EnsembleMean?)
    ensures r.Ok? && r.value.EnsembleMean? ==>
      (Contains(name, "ensemble_mean") && !Contains(name, "naive") && !Contains(name, "combined") &&
       !Contains(name, "smart"))
    ensures (!Contains(name, "naive") && !Contains(name, "combined") && !Contains(name, "smart") &&
             !Contains(name, "ensemble_mean") && Contains(name, "ensemble_consensus")) ==>
      (r.Err? || r.value.EnsembleConsensus?)
    ensures r.Ok? && r.value.EnsembleConsensus? ==>
      (Contains(name, "ensemble_consensus") && !Contains(name, "naive") && !Contains(name, "combined") &&
       !Contains(name, "smart") && !Contains(name, "ensemble_mean"))
  {
    if Contains(name, "naive") then WithParameter(name, k => Naive(k))
    else if Contains(name, "combined") then WithParameter(name, k => Combined(k))
    else if Contains(name, "smart") then WithParameter(name, k => Smart(k))
    else if Contains(name, "ensemble_mean") then WithParameter(name, k => EnsembleMean(k))
    else if Contains(name, "ensemble_consensus") then WithParameter(name, k => EnsembleConsensus(k))
    else Err(Unrecognised)
  }

  /** The `_`-separated words that name a policy, parameter last. */
  function NameParts(p: Policy): seq<string> {
    match p
    case Naive(k) => ["naive", ShowInt(k)]
    case Combined(k) => ["combined", ShowInt(k)]
    case Smart(k) => ["smart", ShowInt(k)]
    case EnsembleMean(k) => ["ensemble", "mean", ShowInt(k)]
    case EnsembleConsensus(k) => ["ensemble", "consensus", ShowInt(k)]
  }

  /** The command-line name the experiments use for a policy, e.g. `ensemble_consensus_3`. */
  function PolicyName(p: Policy): string {
    Join(NameParts(p), '_')
  }

  /** A character that a decimal rendering can hold. */
  predicate NumeralChar(ch: char) {
    IsDigit(ch) || ch == '-'
  }

  /** An occurrence of a pattern free of numeral characters cannot reach into a numeral suffix. */
  lemma OccurrenceBeforeNumeral(w: string, d: string, p: string, i: int)
    requires |p| > 0 && OccursAt(w + d, p, i)
    requires forall j :: 0 <= j < |d| ==> NumeralChar(d[j])
    requires !NumeralChar(p[|p| - 1])
    ensures OccursAt(w, p, i)
  {
    var s := w + d;
    var last := i + |p| - 1;
    assert s[last] == s[i..i + |p|][|p| - 1];
    assert forall k :: |w| <= k < |s| ==> s[k] == d[k - |w|];
    assert last < |w|;
    assert s[i..i + |p|] == w[i..i + |p|];
  }

  lemma ContainsBeforeNumeral(w: string, d: string, p: string)
    requires |p| > 0
    requires forall j :: 0 <= j < |d| ==> NumeralChar(d[j])
    requires !NumeralChar(p[|p| - 1])
    ensures Contains(w + d, p) ==> Contains(w, p)
  {
    if Contains(w + d, p) {
      var i :| OccursAt(w + d, p, i);
      OccurrenceBeforeNumeral(w, d, p, i);
    }
  }

  lemma NumeralChars(k: int)
    ensures forall i :: 0 <= i < |ShowInt(k)| ==> NumeralChar(ShowInt(k)[i])
  {
    var d := ShowNat(if k < 0 then -k else k);
    assert AllDigits(d);
  }

  lemma JoinTwo(a: string, b: string, sep: char)
    ensures Join([a, b], sep) == a + [sep] + b
  {
    assert [a, b][1..] == [b];
  }

  lemma JoinThree(a: string, b: string, c: string, sep: char)
    ensures Join([a, b, c], sep) == a + [sep] + b + [sep] + c
  {
    assert [a, b, c][1..] == [b, c];
    JoinTwo(b, c, sep);
  }

  /** The policy word of a name, with its trailing separator. */
  function Prefix(p: Policy): string {
    match p
    case Naive(_) => "naive_"
    case Combined(_) => "combined_"
    case Smart(_) => "smart_"
    case EnsembleMean(_) => "ensemble_mean_"
    case EnsembleConsensus(_) => "ensemble_consensus_"
  }

  lemma NameShape(p: Policy)
    ensures PolicyName(p) == Prefix(p) + ShowInt(p.Parameter())
  {
    var d := ShowInt(p.Parameter());
    match p
    case Naive(_) => JoinTwoAfter("naive", d, '_', "naive_");
    case Combined(_) => JoinTwoAfter("combined", d, '_', "combined_");
    case Smart(_) => JoinTwoAfter("smart", d, '_', "smart_");
    case EnsembleMean(_) => JoinThreeAfter("ensemble", "mean", d, '_', "ensemble_mean_");
    case EnsembleConsensus(_) => JoinThreeAfter("ensemble", "consensus", d, '_', "ensemble_consensus_");
  }

  lemma JoinTwoAfter(a: string, b: string, sep: char, front: string)
    requires front == a + [sep]
    ensures Join([a, b], sep) == front + b
  {
    JoinTwo(a, b, sep);
  }

  lemma JoinThreeAfter(a: string, b: string, c: string, sep: char, front: string)
    requires front == a + [sep] + b + [sep]
    ensures Join([a, b, c], sep) == front + c
  {
    JoinThree(a, b, c, sep);
  }

  /** The last `_` field of a policy's name reads back as its parameter. */
  lemma NameParameterOfName(p: Policy)
    ensures NameParameter(PolicyName(p)) == Some(p.Parameter())
  {
    var k := p.Parameter();
    ShowIntHasNoSeparator(k, '_');
    SplitJoin(NameParts(p), '_');
    ParseShowInt(k);
  }

  /** Every character of a pattern occurs in any string containing it. */
  lemma ContainsHasChar(w: string, p: string, c: char)
    requires c in p
    ensures Contains(w, p) ==> c in w
  {
    if Contains(w, p) {
      var i :| OccursAt(w, p, i);
      var j :| 0 <= j < |p| && p[j] == c;
      assert w[i + j] == w[i..i + |p|][j];
    }
  }

  /** A word that begins a policy's prefix occurs in its name. */
  lemma WordInName(p: Policy, word: string)
    requires StartsWith(Prefix(p), word)
    ensures Contains(PolicyName(p), word)
  {
    var name := PolicyName(p);
    NameShape(p);
    assert name[..|word|] == Prefix(p)[..|word|];
    assert OccursAt(name, word, 0);
  }

  /** A word with a letter the prefix lacks occurs nowhere in the name. */
  lemma WordNotInName(p: Policy, word: string, c: char)
    requires |word| > 0 && !NumeralChar(word[|word| - 1])
    requires c in word && c !in Prefix(p)
    ensures !Contains(PolicyName(p), word)
  {
    var d := ShowInt(p.Parameter());
    NameShape(p);
    NumeralChars(p.Parameter());
    ContainsBeforeNumeral(Prefix(p), d, word);
    ContainsHasChar(Prefix(p), word, c);
  }

  lemma ParseNaiveName(p: Policy)
    requires p.Naive?
    ensures ParseReplacementMethod(PolicyName(p)) == Ok(p)
  {
    NameParameterOfName(p);
    WordInName(p, "naive");
  }

  lemma ParseCombinedName(p: Policy)
    requires p.Combined?
    ensures ParseReplacementMethod(PolicyName(p)) == Ok(p)
  {
    NameParameterOfName(p);
    WordNotInName(p, "naive", 'v');
    WordInName(p, "combined");
  }

  lemma ParseSmartName(p: Policy)
    requires p.Smart?
    ensures ParseReplacementMethod(PolicyName(p)) == Ok(p)
  {
    NameParameterOfName(p);
    WordNotInName(p, "naive", 'v');
    WordNotInName(p, "combined", 'c');
    WordInName(p, "smart");
  }

  lemma ParseEnsembleMeanName(p: Policy)
    requires p.EnsembleMean?
    ensures ParseReplacementMethod(PolicyName(p)) == Ok(p)
  {
    NameParameterOfName(p);
    WordNotInName(p, "naive", 'v');
    WordNotInName(p, "combined", 'c');
    WordNotInName(p, "smart", 't');
    WordInName(p, "ensemble_mean");
  }

  lemma ParseEnsembleConsensusName(p: Policy)
    requires p.EnsembleConsensus?
    ensures ParseReplacementMethod(PolicyName(p)) == Ok(p)
  {
    NameParameterOfName(p);
    WordNotInName(p, "naive", 'v');
    WordNotInName(p, "combined", 'd');
    WordNotInName(p, "smart", 't');
    WordNotInName(p, "ensemble_mean", 'a');
    WordInName(p, "ensemble_consensus");
  }

  /** Parsing the name of a policy gives the policy back. */
  lemma ParsePolicyName(p: Policy)
    ensures ParseReplacementMethod(PolicyName(p)) == Ok(p)
  {
    match p
    case Naive(_) => ParseNaiveName(p);
    case Combined(_) => ParseCombinedName(p);
    case Smart(_) => ParseSmartName(p);
    case EnsembleMean(_) => ParseEnsembleMeanName(p);
    case EnsembleConsensus(_) => ParseEnsembleConsensusName(p);
  }

  /** The tracking policies: their parameter is the depth constraint of the pass, not part of the name. */
  datatype TrackPolicy = TrackNaive | TrackSmart | TrackCombined | TrackEnsembleMean

  /**
   * How perform_runs reads its method name: the loop takes the FIRST of
   * naive, smart, combined, ensemble_mean that occurs (anything else exits
   * the program), while two other tests look at the whole name on their
   * own: the initial draw smears particles whenever "combined" occurs, and
   * each iteration records its mean overlap depth-constraint times instead
   * of once whenever "ensemble_mean" occurs, whichever branch ran.
   */
  datatype TrackMethod = TrackMethod(policy: TrackPolicy, smearsInitialCloud: bool, recordsDepthCopies: bool)
  {
    /** What every parsed name satisfies: a branch is only reached when its word occurs in the name. */
    predicate Coherent() {
      (policy == TrackCombined ==> smearsInitialCloud) && (policy == TrackEnsembleMean ==> recordsDepthCopies)
    }
  }

  function ParseTrackMethod(name: string): (r: Option<TrackMethod>)
    ensures r.None? <==>
      !Contains(name, "naive") && !Contains(name, "smart") && !Contains(name, "combined") &&
      !Contains(name, "ensemble_mean")
    ensures Contains(name, "naive") ==> r.Some? && r.value.policy == TrackNaive
    ensures !Contains(name, "naive") && Contains(name, "smart") ==> r.Some? && r.value.policy == TrackSmart
    ensures (!Contains(name, "naive") && !Contains(name, "smart") && Contains(name, "combined")) ==>
      (r.Some? && r.value.policy == TrackCombined)
    ensures (!Contains(name, "naive") && !Contains(name, "smart") && !Contains(name, "combined") &&
             Contains(name, "ensemble_mean")) ==> (r.Some? && r.value.policy == TrackEnsembleMean)
    ensures r.Some? ==> (r.value.smearsInitialCloud <==> Contains(name, "combined"))
    ensures r.Some? ==> (r.value.recordsDepthCopies <==> Contains(name, "ensemble_mean"))
    ensures r.Some? ==> r.value.Coherent()
  {
    var smear := Contains(name, "combined");
    var copies := Contains(name, "ensemble_mean");
    if Contains(name, "naive") then Some(TrackMethod(TrackNaive, smear, copies))
    else if Contains(name, "smart") then Some(TrackMethod(TrackSmart, smear, copies))
    else if smear then Some(TrackMethod(TrackCombined, smear, copies))
    else if copies then Some(TrackMethod(TrackEnsembleMean, smear, copies))
    else None
  }
}

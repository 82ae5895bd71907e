/**
 * combine_pickles: the per-run result pickles of one directory merged
 * into one dict. Files are taken in directory-listing order; a file is
 * skipped when it is the compiled output or not a `.pickle`; keys that
 * still hold the literal `{replacement_method}` are repaired from the
 * file name; later files overwrite earlier ones key by key; and every
 * merged record has its unwritten coverage columns backfilled.
 */
module CombinePickles {
  import opened Wrappers
  import opened Strings
  import opened ColumnBackfill

  /** Lines 22-27: the script's own output, and any file whose last `.` field, ASCII-lowered, is not `pickle`. */
  predicate Skipped(filename: string) {
    Contains(filename, "compiled") || ToLower(Last(Split(filename, '.'))) != "pickle"
  }

  /** The last field of a split is whatever follows the last separator. */
  lemma {:induction false} LastField(stem: string, ext: string, sep: char)
    requires sep !in ext
    ensures Last(Split(stem + [sep] + ext, sep)) == ext
    decreases |stem|
  {
    var s := stem + [sep] + ext;
    if sep !in stem {
      SplitFirstField(stem, ext, sep);
      SplitNoSeparator(ext, sep);
    } else if stem[0] == sep {
      assert s == [] + [sep] + (stem[1..] + [sep] + ext);
      SplitFirstField([], stem[1..] + [sep] + ext, sep);
      LastField(stem[1..], ext, sep);
    } else {
      var rest := Split(s[1..], sep);
      assert s[1..] == stem[1..] + [sep] + ext;
      LastField(stem[1..], ext, sep);
      assert s[1..][|stem| - 1] == sep;
      assert |rest| > 1;
    }
  }

  /** Outside the compiled output, a name `stem.ext` is kept exactly when `ext` reads `pickle` once its ASCII capitals are lowered. */
  lemma SkippedByExtension(stem: string, ext: string)
    requires '.' !in ext && !Contains(stem + "." + ext, "compiled")
    ensures Skipped(stem + "." + ext) <==> ToLower(ext) != "pickle"
  {
    LastField(stem, ext, '.');
  }

  /** A split has a second field exactly when the separator occurs. */
  lemma SplitHasSecondField(s: string, sep: char)
    ensures |Split(s, sep)| >= 2 <==> sep in s
  {
    var parts := Split(s, sep);
    if |parts| == 1 {
      assert Join(parts, sep) == parts[0];
    } else {
      assert Join(parts, sep) == parts[0] + [sep] + Join(parts[1..], sep);
      assert (parts[0] + [sep] + Join(parts[1..], sep))[|parts[0]|] == sep;
    }
  }

  /** The text the broken keys hold where the policy's name belongs. */
  const Placeholder: string := "{replacement_method}"

  /** `filename.split("-")[1]`; `None` where Python raises IndexError. */
  function MethodField(filename: string): (r: Option<string>)
    ensures r.None? <==> '-' !in filename
    ensures r.Some? ==> '-' !in r.value
  {
    var parts := Split(filename, '-');
    SplitHasSecondField(filename, '-');
    if |parts| >= 2 then Some(parts[1]) else None
  }

  /** Lines 36-40: a key holding `{` has the placeholder replaced by the file's second `-` field. */
  function RepairKey(key: string, filename: string): (r: Option<string>)
    ensures r.None? <==> '{' in key && '-' !in filename
    ensures '{' !in key ==> r == Some(key)
  {
    if '{' in key then
      match MethodField(filename)
      case None => None
      case Some(m) => Some(Replace(key, Placeholder, m))
    else
      Some(key)
  }

  /**
   * A key broken in exactly one place, read from a file named by
   * `-`-free fields, gets the file's second field in that place.
   */
  lemma RepairRestoresKey(a: string, b: string, parts: seq<string>)
    requires '{' !in a && '{' !in b
    requires |parts| >= 2 && forall k :: 0 <= k < |parts| ==> '-' !in parts[k]
    ensures RepairKey(a + Placeholder + b, Join(parts, '-')) == Some(a + parts[1] + b)
  {
    var key := a + Placeholder + b;
    assert key[|a|] == '{';
    SplitJoin(parts, '-');
    SplitHasSecondField(Join(parts, '-'), '-');
    ReplaceSingle(a, Placeholder, b, parts[1]);
  }

  /** A loaded pickle: its file name and its dict's entries in insertion order. */
  datatype PickleFile = PickleFile(name: string, entries: seq<(string, ResultRecord)>)

  /** Lines 34-42, `new_dict`: entries re-keyed in order, a later entry winning a shared key; `None` where the script raises. */
  function RepairedDict(entries: seq<(string, ResultRecord)>, filename: string): (r: Option<map<string, ResultRecord>>)
    decreases |entries|
  {
    if |entries| == 0 then
      Some(map[])
    else
      var front := entries[..|entries| - 1];
      var e := entries[|entries| - 1];
      match RepairedDict(front, filename)
      case None => None
      case Some(d) =>
        match RepairKey(e.0, filename)
        case None => None
        case Some(k) => Some(d[k := e.1])
  }

  /** Every record of `new_dict` is one of the loaded records, so it keeps their shape. */
  lemma {:induction false} RepairedDictWellFormed(entries: seq<(string, ResultRecord)>, filename: string)
    requires forall e :: e in entries ==> e.1.WellFormed()
    requires RepairedDict(entries, filename).Some?
    ensures forall v :: v in RepairedDict(entries, filename).value.Values ==> v.WellFormed()
    decreases |entries|
  {
    if |entries| > 0 {
      var n := |entries| - 1;
      var front := entries[..n];
      assert forall e :: e in front ==> e in entries;
      RepairedDictWellFormed(front, filename);
      var d := RepairedDict(front, filename).value;
      var k := RepairKey(entries[n].0, filename).value;
      forall v | v in d[k := entries[n].1].Values ensures v.WellFormed() {
        var kk :| kk in d[k := entries[n].1] && d[k := entries[n].1][kk] == v;
        if kk != k {
          assert d[kk] == v;
        }
      }
    }
  }

  /** The re-keying fails exactly when some key cannot be repaired. */
  lemma {:induction false} RepairedDictDefined(entries: seq<(string, ResultRecord)>, filename: string)
    ensures RepairedDict(entries, filename).Some? <==>
      forall i :: 0 <= i < |entries| ==> RepairKey(entries[i].0, filename).Some?
    decreases |entries|
  {
    if |entries| > 0 {
      var front := entries[..|entries| - 1];
      RepairedDictDefined(front, filename);
      assert forall i :: 0 <= i < |front| ==> front[i] == entries[i];
    }
  }

  /** The keys of `new_dict` are the repaired keys. */
  lemma {:induction false} RepairedDictKeys(entries: seq<(string, ResultRecord)>, filename: string, k: string)
    requires RepairedDict(entries, filename).Some?
    ensures k in RepairedDict(entries, filename).value <==>
      exists i :: 0 <= i < |entries| && RepairKey(entries[i].0, filename) == Some(k)
    decreases |entries|
  {
    if |entries| > 0 {
      var n := |entries| - 1;
      var front := entries[..n];
      RepairedDictKeys(front, filename, k);
      assert forall i :: 0 <= i < n ==> front[i] == entries[i];
      if RepairKey(entries[n].0, filename) == Some(k) {
      } else {
        assert (exists i :: 0 <= i < |entries| && RepairKey(entries[i].0, filename) == Some(k)) ==>
          exists i :: 0 <= i < n && RepairKey(front[i].0, filename) == Some(k);
      }
    }
  }

  /** The value under a repaired key is the one of the last entry repairing to it. */
  lemma {:induction false} RepairedDictLastWins(entries: seq<(string, ResultRecord)>, filename: string, i: nat)
    requires i < |entries| && RepairedDict(entries, filename).Some?
    requires forall j :: i < j < |entries| ==> RepairKey(entries[j].0, filename) != RepairKey(entries[i].0, filename)
    ensures RepairKey(entries[i].0, filename).Some?
    ensures RepairKey(entries[i].0, filename).value in RepairedDict(entries, filename).value
    ensures RepairedDict(entries, filename).value[RepairKey(entries[i].0, filename).value] == entries[i].1
    decreases |entries|
  {
    var n := |entries| - 1;
    var front := entries[..n];
    RepairedDictDefined(entries, filename);
    if i < n {
      assert front[i] == entries[i];
      assert forall j :: i < j < n ==> front[j] == entries[j];
      RepairedDictLastWins(front, filename, i);
    }
  }

  /** Lines 38-46, `compiled_dict[key] = cur_dict[key]` with the backfill applied to the stored record. */
  function Merge(m: map<string, ResultRecord>, d: map<string, ResultRecord>): map<string, ResultRecord>
    requires forall v :: v in d.Values ==> v.WellFormed()
  {
    m + map k | k in d :: d[k].Filled()
  }

  predicate FileWellFormed(f: PickleFile) {
    forall e :: e in f.entries ==> e.1.WellFormed()
  }

  predicate FilesWellFormed(files: seq<PickleFile>) {
    forall i :: 0 <= i < |files| ==> FileWellFormed(files[i])
  }

  /** Lines 20-54 for one file: skipped, or re-keyed and merged; `None` where the script raises. */
  function AddFile(m: map<string, ResultRecord>, f: PickleFile): Option<map<string, ResultRecord>>
    requires FileWellFormed(f)
  {
    if Skipped(f.name) then
      Some(m)
    else
      match RepairedDict(f.entries, f.name)
      case None => None
      case Some(d) =>
        RepairedDictWellFormed(f.entries, f.name);
        Some(Merge(m, d))
  }

  /** The compiled dict after the files in order; `None` where the script raises. */
  function Compiled(files: seq<PickleFile>): Option<map<string, ResultRecord>>
    requires FilesWellFormed(files)
    decreases |files|
  {
    if |files| == 0 then
      Some(map[])
    else
      var n := |files| - 1;
      assert FilesWellFormed(files[..n]) by {
        assert forall i :: 0 <= i < n ==> files[..n][i] == files[i];
      }
      match Compiled(files[..n])
      case None => None
      case Some(m) => AddFile(m, files[n])
  }

  /** A file that contributes to the merge. */
  predicate Contributes(f: PickleFile, k: string) {
    !Skipped(f.name) && RepairedDict(f.entries, f.name).Some? && k in RepairedDict(f.entries, f.name).value
  }

  lemma PrefixWellFormed(files: seq<PickleFile>, n: nat)
    requires FilesWellFormed(files) && n <= |files|
    ensures FilesWellFormed(files[..n])
  {
    assert forall i :: 0 <= i < n ==> files[..n][i] == files[i];
  }

  /** Once the script has raised, later files change nothing. */
  lemma {:induction false} CompiledFailureSticks(files: seq<PickleFile>, n: nat)
    requires FilesWellFormed(files) && n <= |files|
    requires (PrefixWellFormed(files, n); Compiled(files[..n]).None?)
    ensures Compiled(files).None?
    decreases |files| - n
  {
    if n < |files| {
      var next := files[..n + 1];
      PrefixWellFormed(files, n + 1);
      assert next[..n] == files[..n];
      CompiledNoneSnoc(next);
      CompiledFailureSticks(files, n + 1);
    } else {
      assert files[..n] == files;
    }
  }

  /** A failed prefix fails again with one more file. */
  lemma CompiledNoneSnoc(files: seq<PickleFile>)
    requires FilesWellFormed(files) && |files| > 0
    requires (PrefixWellFormed(files, |files| - 1); Compiled(files[..|files| - 1]).None?)
    ensures Compiled(files).None?
  {
  }

  /** Some file of a list holds a key after repair. */
  predicate SomeContributes(files: seq<PickleFile>, k: string)
    decreases |files|
  {
    |files| > 0 && (Contributes(files[|files| - 1], k) || SomeContributes(files[..|files| - 1], k))
  }

  /** A key is compiled exactly when some kept file holds it after repair. */
  lemma {:induction false} CompiledKeys(files: seq<PickleFile>, k: string)
    requires FilesWellFormed(files) && Compiled(files).Some?
    ensures k in Compiled(files).value <==> SomeContributes(files, k)
    decreases |files|
  {
    if |files| > 0 {
      var n := |files| - 1;
      var front := files[..n];
      CompiledUnfold(files);
      CompiledKeys(front, k);
      if Contributes(files[n], k) {
        AddFileOwn(Compiled(front).value, files[n], k);
      } else {
        AddFileOther(Compiled(front).value, files[n], k);
      }
    }
  }

  lemma MergeOwn(m: map<string, ResultRecord>, d: map<string, ResultRecord>, k: string)
    requires forall v :: v in d.Values ==> v.WellFormed()
    requires k in d
    ensures k in Merge(m, d) && Merge(m, d)[k] == d[k].Filled()
  {
  }

  lemma MergeOther(m: map<string, ResultRecord>, d: map<string, ResultRecord>, k: string)
    requires forall v :: v in d.Values ==> v.WellFormed()
    requires k !in d
    ensures k in Merge(m, d) <==> k in m
    ensures k in m ==> Merge(m, d)[k] == m[k]
  {
  }

  /** The record a contributing file stores under a key, backfilled. */
  function StoredRecord(f: PickleFile, k: string): ResultRecord
    requires FileWellFormed(f) && Contributes(f, k)
  {
    RepairedDictWellFormed(f.entries, f.name);
    RepairedDict(f.entries, f.name).value[k].Filled()
  }

  /** A file that does not hold a key leaves that key's entry alone. */
  lemma AddFileOther(m: map<string, ResultRecord>, f: PickleFile, k: string)
    requires FileWellFormed(f) && AddFile(m, f).Some? && !Contributes(f, k)
    ensures k in AddFile(m, f).value <==> k in m
    ensures k in m ==> AddFile(m, f).value[k] == m[k]
  {
    if !Skipped(f.name) {
      RepairedDictWellFormed(f.entries, f.name);
      MergeOther(m, RepairedDict(f.entries, f.name).value, k);
    }
  }

  /** A file holding a key stores its backfilled record there. */
  lemma AddFileOwn(m: map<string, ResultRecord>, f: PickleFile, k: string)
    requires FileWellFormed(f) && Contributes(f, k)
    ensures AddFile(m, f).Some? && k in AddFile(m, f).value
    ensures AddFile(m, f).value[k] == StoredRecord(f, k)
  {
    RepairedDictWellFormed(f.entries, f.name);
    MergeOwn(m, RepairedDict(f.entries, f.name).value, k);
  }

  /** The compiled dict is the previous one with the last file added. */
  lemma CompiledUnfold(files: seq<PickleFile>)
    requires FilesWellFormed(files) && |files| > 0 && Compiled(files).Some?
    ensures (PrefixWellFormed(files, |files| - 1); Compiled(files[..|files| - 1]).Some?)
    ensures Compiled(files) == AddFile(Compiled(files[..|files| - 1]).value, files[|files| - 1])
  {
    PrefixWellFormed(files, |files| - 1);
  }

  /** The compiled value under a key is the backfilled record of the last file holding it. */
  lemma {:induction false} CompiledLastFileWins(files: seq<PickleFile>, j: nat, k: string)
    requires FilesWellFormed(files) && Compiled(files).Some?
    requires j < |files| && Contributes(files[j], k)
    requires forall l :: j < l < |files| ==> !Contributes(files[l], k)
    ensures k in Compiled(files).value
    ensures Compiled(files).value[k] == StoredRecord(files[j], k)
    decreases |files|
  {
    var n := |files| - 1;
    var front := files[..n];
    var last := files[n];
    assert FileWellFormed(last);
    PrefixWellFormed(files, n);
    CompiledUnfold(files);
    var m := Compiled(front).value;
    assert Compiled(files) == AddFile(m, last);
    if j < n {
      assert !Contributes(last, k);
      AddFileOther(m, last, k);
      assert front[j] == files[j];
      assert forall l :: j < l < n ==> front[l] == files[l];
      CompiledLastFileWins(front, j, k);
    } else {
      assert j == n && files[j] == last;
      AddFileOwn(m, last, k);
    }
  }

  /** Lines 34-42: `new_dict` built by a loop over the loaded dict. */
  method RepairKeys(f: PickleFile) returns (r: Option<map<string, ResultRecord>>)
    ensures r == RepairedDict(f.entries, f.name)
  {
    var d: map<string, ResultRecord> := map[];
    var i := 0;
    while i < |f.entries|
      invariant 0 <= i <= |f.entries|
      invariant RepairedDict(f.entries[..i], f.name) == Some(d)
    {
      var e := f.entries[i];
      assert f.entries[..i + 1][..i] == f.entries[..i];
      var changed := RepairKey(e.0, f.name);
      if changed.None? {
        RepairedDictStops(f.entries, f.name, i + 1);
        return None;
      }
      d := d[changed.value := e.1];
      i := i + 1;
    }
    assert f.entries[..i] == f.entries;
    r := Some(d);
  }

  /** A re-keying that fails on a prefix fails on the whole. */
  lemma {:induction false} RepairedDictStops(entries: seq<(string, ResultRecord)>, filename: string, n: nat)
    requires n <= |entries| && RepairedDict(entries[..n], filename).None?
    ensures RepairedDict(entries, filename).None?
  {
    RepairedDictDefined(entries[..n], filename);
    RepairedDictDefined(entries, filename);
    var i :| 0 <= i < n && RepairKey(entries[..n][i].0, filename).None?;
    assert entries[..n][i] == entries[i];
  }

  /** Lines 44-54 for one file with the backfill as a parameter: each key stored with its record filled. */
  method MergeWith(m: map<string, ResultRecord>, d: map<string, ResultRecord>, fill: ResultRecord --> ResultRecord)
    returns (r: map<string, ResultRecord>)
    requires forall v :: v in d.Values ==> fill.requires(v)
    ensures r == m + map k | k in d :: fill(d[k])
  {
    r := m;
    var keys := d.Keys;
    while keys != {}
      invariant keys <= d.Keys
      invariant r == m + map k | k in d.Keys - keys :: fill(d[k])
      decreases keys
    {
      var k :| k in keys;
      r := r[k := fill(d[k])];
      keys := keys - {k};
    }
  }

  /** Lines 44-54 for one file: each key stored, and its record backfilled. */
  method MergeInto(m: map<string, ResultRecord>, d: map<string, ResultRecord>) returns (r: map<string, ResultRecord>)
    requires forall v :: v in d.Values ==> v.WellFormed()
    ensures r == Merge(m, d)
  {
    r := MergeWith(m, d, (rec: ResultRecord) requires rec.WellFormed() => rec.Filled());
  }

  /** The whole script: the compiled dict it pickles, or `None` where it raises. */
  method Combine(files: seq<PickleFile>) returns (r: Option<map<string, ResultRecord>>)
    requires FilesWellFormed(files)
    ensures r == Compiled(files)
  {
    var compiled: map<string, ResultRecord> := map[];
    var i := 0;
    while i < |files|
      invariant 0 <= i <= |files|
      invariant (PrefixWellFormed(files, i); Compiled(files[..i]) == Some(compiled))
    {
      var f := files[i];
      PrefixWellFormed(files, i + 1);
      assert files[..i + 1][..i] == files[..i];
      if !Skipped(f.name) {
        var d := RepairKeys(f);
        if d.None? {
          CompiledFailureSticks(files, i + 1);
          return None;
        }
        RepairedDictWellFormed(f.entries, f.name);
        compiled := MergeInto(compiled, d.value);
      }
      i := i + 1;
    }
    assert files[..i] == files;
    r := Some(compiled);
  }
}

/**
 * The coverage backfill of combine_pickles: a result record holds an
 * `rmaes` and an `errors` matrix, one row per trial and one column per
 * coverage step. A column of `rmaes` that sums to zero was never written
 * (an ensemble policy advances several steps at once), so it and the same
 * column of `errors` take the values of the column to its left; column 0
 * takes the last column, as Python's index `-1` does.
 */
module ColumnBackfill {
  import opened Numeric

  /** Every row has `cols` entries: the shape of a two-dimensional numpy array. */
  predicate IsMatrix(m: seq<seq<real>>, cols: nat) {
    forall r :: 0 <= r < |m| ==> |m[r]| == cols
  }

  /** `m[:, c]`. */
  function Column(m: seq<seq<real>>, cols: nat, c: nat): (v: seq<real>)
    requires IsMatrix(m, cols) && c < cols
    ensures |v| == |m| && forall r :: 0 <= r < |m| ==> v[r] == m[r][c]
  {
    seq(|m|, r requires 0 <= r < |m| => m[r][c])
  }

  /** `m.sum(axis=0)`. */
  function ColumnSums(m: seq<seq<real>>, cols: nat): (s: seq<real>)
    requires IsMatrix(m, cols)
    ensures |s| == cols && forall c :: 0 <= c < cols ==> s[c] == Sum(Column(m, cols, c))
  {
    seq(cols, c requires 0 <= c < cols => Sum(Column(m, cols, c)))
  }

  /**
   * The original column whose values column `i` holds once columns
   * `0..i` have been backfilled from the left: the nearest column at or
   * before `i` with a non-zero sum, or, when there is none, the last column.
   */
  function Source(sums: seq<real>, i: nat): (k: nat)
    requires i < |sums|
    ensures k < |sums|
    ensures (exists j :: 0 <= j <= i && sums[j] != 0.0) ==>
      (k <= i && sums[k] != 0.0 && forall j :: k < j <= i ==> sums[j] == 0.0)
    ensures (forall j :: 0 <= j <= i ==> sums[j] == 0.0) ==> k == |sums| - 1
  {
    if sums[i] != 0.0 then i
    else if i == 0 then |sums| - 1
    else Source(sums, i - 1)
  }

  /** `m` with every column replaced by its source column. */
  function Backfilled(m: seq<seq<real>>, cols: nat, sums: seq<real>): (b: seq<seq<real>>)
    requires IsMatrix(m, cols) && |sums| == cols
    ensures |b| == |m| && IsMatrix(b, cols)
  {
    seq(|m|, r requires 0 <= r < |m| => seq(cols, c requires 0 <= c < cols => m[r][Source(sums, c)]))
  }

  /** One entry of the pickled results: the two matrices of one configuration. */
  datatype ResultRecord = ResultRecord(columns: nat, rmaes: seq<seq<real>>, errors: seq<seq<real>>)
  {
    predicate WellFormed() {
      IsMatrix(rmaes, columns) && IsMatrix(errors, columns)
    }

    /** The record after the backfill; both matrices follow the column sums of `rmaes`. */
    function Filled(): (r: ResultRecord)
      requires WellFormed()
      ensures r.WellFormed() && r.columns == columns
      ensures |r.rmaes| == |rmaes| && |r.errors| == |errors|
    {
      var sums := ColumnSums(rmaes, columns);
      ResultRecord(columns, Backfilled(rmaes, columns, sums), Backfilled(errors, columns, sums))
    }
  }

  /** A record none of whose `rmaes` columns sums to zero is left as it was. */
  lemma NoZeroColumnUnchanged(rec: ResultRecord)
    requires rec.WellFormed()
    requires forall c :: 0 <= c < rec.columns ==> ColumnSums(rec.rmaes, rec.columns)[c] != 0.0
    ensures rec.Filled() == rec
  {
    var sums := ColumnSums(rec.rmaes, rec.columns);
    assert forall c :: 0 <= c < rec.columns ==> Source(sums, c) == c;
    var f := rec.Filled();
    assert f.rmaes == rec.rmaes by {
      forall r | 0 <= r < |rec.rmaes| ensures f.rmaes[r] == rec.rmaes[r] {
      }
    }
    assert f.errors == rec.errors by {
      forall r | 0 <= r < |rec.errors| ensures f.errors[r] == rec.errors[r] {
      }
    }
  }

  /** Column `c` of a backfilled matrix is column `Source(c)` of the original. */
  lemma BackfilledColumn(m: seq<seq<real>>, cols: nat, sums: seq<real>, c: nat)
    requires IsMatrix(m, cols) && |sums| == cols && c < cols
    ensures Column(Backfilled(m, cols, sums), cols, c) == Column(m, cols, Source(sums, c))
  {
  }

  /**
   * A run of zero columns after a non-zero column `k` carries the values
   * of column `k`, in `rmaes` and in `errors` alike.
   */
  lemma CarriesLastNonZero(rec: ResultRecord, k: nat, c: nat)
    requires rec.WellFormed() && k <= c < rec.columns
    requires ColumnSums(rec.rmaes, rec.columns)[k] != 0.0
    requires forall j :: k < j <= c ==> ColumnSums(rec.rmaes, rec.columns)[j] == 0.0
    ensures Column(rec.Filled().rmaes, rec.columns, c) == Column(rec.rmaes, rec.columns, k)
    ensures Column(rec.Filled().errors, rec.columns, c) == Column(rec.errors, rec.columns, k)
  {
    var sums := ColumnSums(rec.rmaes, rec.columns);
    BackfilledColumn(rec.rmaes, rec.columns, sums, c);
    BackfilledColumn(rec.errors, rec.columns, sums, c);
  }

  /** Leading zero columns take the last column, Python's `[:, -1]`. */
  lemma LeadingZerosTakeLast(rec: ResultRecord, c: nat)
    requires rec.WellFormed() && c < rec.columns
    requires forall j :: 0 <= j <= c ==> ColumnSums(rec.rmaes, rec.columns)[j] == 0.0
    ensures Column(rec.Filled().rmaes, rec.columns, c) == Column(rec.rmaes, rec.columns, rec.columns - 1)
    ensures Column(rec.Filled().errors, rec.columns, c) == Column(rec.errors, rec.columns, rec.columns - 1)
  {
    var sums := ColumnSums(rec.rmaes, rec.columns);
    BackfilledColumn(rec.rmaes, rec.columns, sums, c);
    BackfilledColumn(rec.errors, rec.columns, sums, c);
  }

  /** With a non-zero last column, no column of the backfilled `rmaes` sums to zero. */
  lemma FilledHasNoZeroColumn(rec: ResultRecord)
    requires rec.WellFormed() && rec.columns > 0
    requires ColumnSums(rec.rmaes, rec.columns)[rec.columns - 1] != 0.0
    ensures forall c :: 0 <= c < rec.columns ==> ColumnSums(rec.Filled().rmaes, rec.columns)[c] != 0.0
  {
    var sums := ColumnSums(rec.rmaes, rec.columns);
    forall c | 0 <= c < rec.columns
      ensures ColumnSums(rec.Filled().rmaes, rec.columns)[c] != 0.0
    {
      BackfilledColumn(rec.rmaes, rec.columns, sums, c);
    }
  }

  /** Backfilling twice changes nothing more once the last column is non-zero. */
  lemma FilledIdempotent(rec: ResultRecord)
    requires rec.WellFormed() && rec.columns > 0
    requires ColumnSums(rec.rmaes, rec.columns)[rec.columns - 1] != 0.0
    ensures rec.Filled().Filled() == rec.Filled()
  {
    FilledHasNoZeroColumn(rec);
    NoZeroColumnUnchanged(rec.Filled());
  }

  /** The contents of an array as a sequence of rows. */
  ghost function Grid(a: array2<real>): (m: seq<seq<real>>)
    reads a
    ensures |m| == a.Length0 && IsMatrix(m, a.Length1)
  {
    seq(a.Length0, r requires 0 <= r < a.Length0 reads a =>
      seq(a.Length1, c requires 0 <= c < a.Length1 reads a => a[r, c]))
  }

  /** `a[:, c].sum()`. */
  method ColumnSum(a: array2<real>, c: nat) returns (s: real)
    requires c < a.Length1
    ensures s == Sum(Column(Grid(a), a.Length1, c))
  {
    ghost var col := Column(Grid(a), a.Length1, c);
    s := 0.0;
    var r := a.Length0;
    while r > 0
      invariant 0 <= r <= a.Length0
      invariant s == Sum(col[r..])
    {
      r := r - 1;
      assert col[r..] == [col[r]] + col[r + 1..];
      s := a[r, c] + s;
    }
  }

  /** `np.where(a.sum(axis=0) == 0)[0].shape[0] > 0`. */
  method HasZeroColumn(a: array2<real>) returns (b: bool)
    ensures b <==> exists c :: 0 <= c < a.Length1 && ColumnSums(Grid(a), a.Length1)[c] == 0.0
  {
    ghost var sums := ColumnSums(Grid(a), a.Length1);
    b := false;
    var c := 0;
    while c < a.Length1
      invariant 0 <= c <= a.Length1
      invariant b <==> exists j :: 0 <= j < c && sums[j] == 0.0
    {
      var s := ColumnSum(a, c);
      if s == 0.0 {
        b := true;
      }
      c := c + 1;
    }
    assert sums == ColumnSums(Grid(a), a.Length1);
  }

  /** `a[:, to] = a[:, from]`. */
  method CopyColumn(a: array2<real>, from: nat, to: nat)
    requires from < a.Length1 && to < a.Length1
    modifies a
    ensures forall r, c :: 0 <= r < a.Length0 && 0 <= c < a.Length1 ==>
      a[r, c] == (if c == to then old(a[r, from]) else old(a[r, c]))
  {
    var r := 0;
    while r < a.Length0
      invariant 0 <= r <= a.Length0
      invariant forall i, c :: 0 <= i < a.Length0 && 0 <= c < a.Length1 ==>
        a[i, c] == (if c == to && i < r then old(a[i, from]) else old(a[i, c]))
    {
      a[r, to] := a[r, from];
      r := r + 1;
    }
  }

  /** The columns of `a` left of `i` hold their sources in `m`; the rest are still `m`'s own. */
  ghost predicate FilledUpTo(a: array2<real>, m: seq<seq<real>>, sums: seq<real>, i: nat)
    reads a
    requires |m| == a.Length0 && IsMatrix(m, a.Length1) && |sums| == a.Length1
  {
    forall r, c :: 0 <= r < a.Length0 && 0 <= c < a.Length1 ==>
      a[r, c] == (if c < i then m[r][Source(sums, c)] else m[r][c])
  }

  lemma FilledUpToStart(a: array2<real>, m: seq<seq<real>>, sums: seq<real>)
    requires m == Grid(a) && |sums| == a.Length1
    ensures FilledUpTo(a, m, sums, 0)
  {
  }

  lemma FilledUpToEnd(a: array2<real>, m: seq<seq<real>>, sums: seq<real>)
    requires |m| == a.Length0 && IsMatrix(m, a.Length1) && |sums| == a.Length1
    requires FilledUpTo(a, m, sums, a.Length1)
    ensures Grid(a) == Backfilled(m, a.Length1, sums)
  {
    var g := Grid(a);
    var b := Backfilled(m, a.Length1, sums);
    forall r | 0 <= r < a.Length0 ensures g[r] == b[r] {
    }
  }

  /** While column `i` is not yet filled, its sum is the original one. */
  lemma UnfilledSum(a: array2<real>, m: seq<seq<real>>, sums: seq<real>, i: nat)
    requires |m| == a.Length0 && IsMatrix(m, a.Length1) && |sums| == a.Length1
    requires sums == ColumnSums(m, a.Length1)
    requires i < a.Length1 && FilledUpTo(a, m, sums, i)
    ensures Sum(Column(Grid(a), a.Length1, i)) == sums[i]
  {
    assert Column(Grid(a), a.Length1, i) == Column(m, a.Length1, i);
  }

  /** Without a zero column every column is its own source. */
  lemma NoZeroColumnFilled(a: array2<real>, m: seq<seq<real>>, sums: seq<real>)
    requires m == Grid(a) && |sums| == a.Length1
    requires forall c :: 0 <= c < a.Length1 ==> sums[c] != 0.0
    ensures FilledUpTo(a, m, sums, a.Length1)
  {
  }

  /** One step of the backfill loop on one array. */
  method FillColumn(a: array2<real>, ghost m: seq<seq<real>>, ghost sums: seq<real>, i: nat)
    requires |m| == a.Length0 && IsMatrix(m, a.Length1) && |sums| == a.Length1
    requires i < a.Length1 && sums[i] == 0.0
    requires FilledUpTo(a, m, sums, i)
    modifies a
    ensures FilledUpTo(a, m, sums, i + 1)
  {
    var from := if i == 0 then a.Length1 - 1 else i - 1;
    CopyColumn(a, from, i);
  }

  /**
   * Lines 47-54 of combine_pickles, in place: the arrays end up as the
   * backfilled matrices of their starting contents.
   */
  method Backfill(rmaes: array2<real>, errors: array2<real>)
    requires rmaes != errors && rmaes.Length1 == errors.Length1
    modifies rmaes, errors
    ensures Grid(rmaes) == Backfilled(old(Grid(rmaes)), rmaes.Length1, old(ColumnSums(Grid(rmaes), rmaes.Length1)))
    ensures Grid(errors) == Backfilled(old(Grid(errors)), errors.Length1, old(ColumnSums(Grid(rmaes), rmaes.Length1)))
  {
    ghost var r0 := Grid(rmaes);
    ghost var e0 := Grid(errors);
    var cols := rmaes.Length1;
    ghost var sums := ColumnSums(r0, cols);
    var anyZero := HasZeroColumn(rmaes);
    if anyZero {
      FilledUpToStart(rmaes, r0, sums);
      FilledUpToStart(errors, e0, sums);
      var i := 0;
      while i < cols
        invariant 0 <= i <= cols
        invariant FilledUpTo(rmaes, r0, sums, i)
        invariant FilledUpTo(errors, e0, sums, i)
      {
        var s := ColumnSum(rmaes, i);
        UnfilledSum(rmaes, r0, sums, i);
        if s == 0.0 {
          FillColumn(rmaes, r0, sums, i);
          FillColumn(errors, e0, sums, i);
        }
        i := i + 1;
      }
    } else {
      NoZeroColumnFilled(rmaes, r0, sums);
      NoZeroColumnFilled(errors, e0, sums);
    }
    FilledUpToEnd(rmaes, r0, sums);
    FilledUpToEnd(errors, e0, sums);
  }
}

/**
 * The numpy reductions the deferral loops use, on exact reals and integers:
 * `sum`, `mean`, `argmax` and `argmin` (both return the FIRST index that
 * attains the extremum, as numpy does) and elementwise arithmetic.
 */
module Numeric {

  function Sum(s: seq<real>): real {
    if |s| == 0 then 0.0 else s[0] + Sum(s[1..])
  }

  function SumInt(s: seq<int>): int {
    if |s| == 0 then 0 else s[0] + SumInt(s[1..])
  }

  /** `np.mean` of a non-empty vector. */
  function Mean(s: seq<real>): real
    requires |s| > 0
  {
    Sum(s) / (|s| as real)
  }

  /** `a * b` for two vectors of one shape. */
  function Mul(a: seq<real>, b: seq<real>): (r: seq<real>)
    requires |a| == |b|
    ensures |r| == |a| && forall i :: 0 <= i < |a| ==> r[i] == a[i] * b[i]
  {
    seq(|a|, i requires 0 <= i < |a| => a[i] * b[i])
  }

  /** `a + b` for two vectors of one shape. */
  function Add(a: seq<real>, b: seq<real>): (r: seq<real>)
    requires |a| == |b|
    ensures |r| == |a| && forall i :: 0 <= i < |a| ==> r[i] == a[i] + b[i]
  {
    seq(|a|, i requires 0 <= i < |a| => a[i] + b[i])
  }

  /** `a / d` for a vector and a non-zero scalar. */
  function Div(a: seq<real>, d: real): (r: seq<real>)
    requires d != 0.0
    ensures |r| == |a| && forall i :: 0 <= i < |a| ==> r[i] == a[i] / d
  {
    seq(|a|, i requires 0 <= i < |a| => a[i] / d)
  }

  predicate AllPositive(s: seq<real>) {
    forall i :: 0 <= i < |s| ==> s[i] > 0.0
  }

  /** numpy's `argmax`: the first index holding the largest element. */
  function ArgMax(s: seq<real>): (k: nat)
    requires |s| > 0
    ensures k < |s|
    ensures forall j :: 0 <= j < |s| ==> s[j] <= s[k]
    ensures forall j :: 0 <= j < k ==> s[j] < s[k]
  {
    if |s| == 1 then 0
    else
      var k := ArgMax(s[..|s| - 1]);
      assert forall j :: 0 <= j < |s| - 1 ==> s[..|s| - 1][j] == s[j];
      if s[|s| - 1] > s[k] then |s| - 1 else k
  }

  /** numpy's `argmin`: the first index holding the smallest element. */
  function ArgMin(s: seq<real>): (k: nat)
    requires |s| > 0
    ensures k < |s|
    ensures forall j :: 0 <= j < |s| ==> s[k] <= s[j]
    ensures forall j :: 0 <= j < k ==> s[k] < s[j]
  {
    if |s| == 1 then 0
    else
      var k := ArgMin(s[..|s| - 1]);
      assert forall j :: 0 <= j < |s| - 1 ==> s[..|s| - 1][j] == s[j];
      if s[|s| - 1] < s[k] then |s| - 1 else k
  }

  lemma {:induction false} SumUpdate(s: seq<real>, i: nat, v: real)
    requires i < |s|
    ensures Sum(s[i := v]) == Sum(s) - s[i] + v
  {
    if i > 0 {
      SumUpdate(s[1..], i - 1, v);
      assert s[i := v][1..] == s[1..][i - 1 := v];
    } else {
      assert s[i := v][1..] == s[1..];
    }
  }

  lemma {:induction false} SumIntUpdate(s: seq<int>, i: nat, v: int)
    requires i < |s|
    ensures SumInt(s[i := v]) == SumInt(s) - s[i] + v
  {
    if i > 0 {
      SumIntUpdate(s[1..], i - 1, v);
      assert s[i := v][1..] == s[1..][i - 1 := v];
    } else {
      assert s[i := v][1..] == s[1..];
    }
  }

  lemma {:induction false} SumIntAppend(a: seq<int>, b: seq<int>)
    ensures SumInt(a + b) == SumInt(a) + SumInt(b)
  {
    if |a| > 0 {
      SumIntAppend(a[1..], b);
      assert (a + b)[1..] == a[1..] + b;
    } else {
      assert a + b == b;
    }
  }

  lemma {:induction false} SumAppend(a: seq<real>, b: seq<real>)
    ensures Sum(a + b) == Sum(a) + Sum(b)
  {
    if |a| > 0 {
      SumAppend(a[1..], b);
      assert (a + b)[1..] == a[1..] + b;
    } else {
      assert a + b == b;
    }
  }

  lemma {:induction false} SumDiv(a: seq<real>, d: real)
    requires d != 0.0
    ensures Sum(Div(a, d)) == Sum(a) / d
  {
    if |a| > 0 {
      SumDiv(a[1..], d);
      assert Div(a, d)[1..] == Div(a[1..], d);
    }
  }

  /** Dividing a vector of total `x + y` among `n + 1` members divides the total among them. */
  lemma SumDivTotal(a: seq<real>, x: real, y: real, n: nat)
    requires Sum(a) == x + y
    ensures Sum(Div(a, (n + 1) as real)) == (x + y) / ((n + 1) as real)
  {
    SumDiv(a, (n + 1) as real);
  }

  lemma {:induction false} SumPositive(s: seq<real>)
    requires |s| > 0 && AllPositive(s)
    ensures Sum(s) > 0.0
  {
    if |s| > 1 {
      SumPositive(s[1..]);
    }
  }

  /** Dividing a positive vector by its own sum gives a vector summing to one. */
  lemma NormalizedSumsToOne(s: seq<real>)
    requires Sum(s) != 0.0
    ensures Sum(Div(s, Sum(s))) == 1.0
  {
    var total := Sum(s);
    SumDiv(s, total);
    assert total / total == 1.0;
  }

  /** Each entry of a vector divided by `d` gives the entry back when multiplied by `d`. */
  lemma DivProportional(a: seq<real>, d: real)
    requires d != 0.0
    ensures forall i :: 0 <= i < |a| ==> Div(a, d)[i] * d == a[i]
  {
    forall i | 0 <= i < |a| ensures Div(a, d)[i] * d == a[i] {
      DivMul(Div(a, d)[i], a[i], d);
    }
  }

  lemma DivMul(m: real, a: real, d: real)
    requires d != 0.0 && m == a / d
    ensures m * d == a
  {
  }

  lemma {:induction false} SumBounds(s: seq<real>, lo: real, hi: real)
    requires forall i :: 0 <= i < |s| ==> lo <= s[i] <= hi
    ensures (|s| as real) * lo <= Sum(s) <= (|s| as real) * hi
  {
    if |s| > 0 {
      SumBounds(s[1..], lo, hi);
      var m := |s[1..]| as real;
      assert (|s| as real) * lo == m * lo + lo;
      assert (|s| as real) * hi == m * hi + hi;
    }
  }

  /** A mean of values in [lo, hi] lies in [lo, hi]. */
  lemma MeanBounds(s: seq<real>, lo: real, hi: real)
    requires |s| > 0
    requires forall i :: 0 <= i < |s| ==> lo <= s[i] <= hi
    ensures lo <= Mean(s) <= hi
  {
    SumBounds(s, lo, hi);
    var n := |s| as real;
    assert Sum(s) / n >= lo by { assert Sum(s) >= n * lo; }
    assert Sum(s) / n <= hi by { assert Sum(s) <= n * hi; }
  }

  /** If every entry is at least `m`, the integer sum is at least `|s| * m`. */
  lemma {:induction false} SumIntLowerBound(s: seq<int>, m: int)
    requires forall i :: 0 <= i < |s| ==> s[i] >= m
    ensures SumInt(s) >= |s| * m
  {
    if |s| > 0 {
      SumIntLowerBound(s[1..], m);
    }
  }

  lemma {:induction false} SumIntNonNegative(s: seq<int>)
    requires forall i :: 0 <= i < |s| ==> s[i] >= 0
    ensures SumInt(s) >= 0
  {
    if |s| > 0 {
      SumIntNonNegative(s[1..]);
    }
  }

  lemma {:induction false} SumIntZeros(n: nat)
    ensures SumInt(seq(n, _ => 0)) == 0
  {
    if n > 0 {
      assert seq(n, _ => 0)[1..] == seq(n - 1, _ => 0);
      SumIntZeros(n - 1);
    }
  }
}

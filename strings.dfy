/**
 * The handful of Python string operations the result scripts rely on:
 * `in` (substring test), `str.split` on one character, `str.join`,
 * `str.replace`, `str.lower` and `int()` on a decimal literal.
 */
module Strings {
  import opened Wrappers

  predicate StartsWith(s: string, p: string) {
    |p| <= |s| && s[..|p|] == p
  }

  /** `p` occurs in `s` starting at position `i`. */
  predicate OccursAt(s: string, p: string, i: int) {
    0 <= i <= |s| - |p| && s[i..i + |p|] == p
  }

  /** Python's `p in s`: some window of `s` spells `p`. */
  function Contains(s: string, p: string): (r: bool)
    ensures r <==> exists i :: OccursAt(s, p, i)
    decreases |s|
  {
    if StartsWith(s, p) then
      assert OccursAt(s, p, 0);
      true
    else if |s| == 0 then
      assert forall i :: !OccursAt(s, p, i);
      false
    else
      var rest := Contains(s[1..], p);
      if rest then
        var i :| OccursAt(s[1..], p, i);
        assert s[i + 1..i + 1 + |p|] == s[1..][i..i + |p|];
        assert OccursAt(s, p, i + 1);
        true
      else
        assert forall i :: OccursAt(s, p, i) && i >= 1 ==> OccursAt(s[1..], p, i - 1) by {
          forall i | OccursAt(s, p, i) && i >= 1 ensures OccursAt(s[1..], p, i - 1) {
            assert s[1..][i - 1..i - 1 + |p|] == s[i..i + |p|];
          }
        }
        assert !OccursAt(s, p, 0);
        false
  }

  /** Python's `sep.join(parts)` for a one-character separator. */
  function Join(parts: seq<string>, sep: char): string
    requires |parts| >= 1
  {
    if |parts| == 1 then parts[0] else parts[0] + [sep] + Join(parts[1..], sep)
  }

  /**
   * Python's `s.split(sep)` for a one-character separator: always at least
   * one field, no field holds the separator, and joining the fields back
   * gives `s`.
   */
  function Split(s: string, sep: char): (r: seq<string>)
    ensures |r| >= 1
    ensures forall k :: 0 <= k < |r| ==> sep !in r[k]
    ensures Join(r, sep) == s
    decreases |s|
  {
    if |s| == 0 then
      [""]
    else if s[0] == sep then
      var rest := Split(s[1..], sep);
      assert s == [sep] + s[1..];
      [""] + rest
    else
      var rest := Split(s[1..], sep);
      var r := [[s[0]] + rest[0]] + rest[1..];
      assert s == [s[0]] + s[1..];
      assert |rest| > 1 ==> Join(rest, sep) == rest[0] + [sep] + Join(rest[1..], sep);
      assert r[1..] == rest[1..];
      r
  }

  function Last<T>(s: seq<T>): T
    requires |s| > 0
  {
    s[|s| - 1]
  }

  lemma {:induction false} SplitNoSeparator(w: string, sep: char)
    requires sep !in w
    ensures Split(w, sep) == [w]
    decreases |w|
  {
    if |w| > 0 {
      SplitNoSeparator(w[1..], sep);
      assert [w[0]] + w[1..] == w;
    }
  }

  lemma {:induction false} SplitFirstField(w: string, t: string, sep: char)
    requires sep !in w
    ensures Split(w + [sep] + t, sep) == [w] + Split(t, sep)
    decreases |w|
  {
    var s := w + [sep] + t;
    if |w| == 0 {
      assert s[1..] == t;
    } else {
      assert s[1..] == w[1..] + [sep] + t;
      SplitFirstField(w[1..], t, sep);
      assert [w[0]] + w[1..] == w;
    }
  }

  /** Splitting a join of separator-free fields gives the fields back. */
  lemma {:induction false} SplitJoin(parts: seq<string>, sep: char)
    requires |parts| >= 1
    requires forall k :: 0 <= k < |parts| ==> sep !in parts[k]
    ensures Split(Join(parts, sep), sep) == parts
    decreases |parts|
  {
    if |parts| == 1 {
      SplitNoSeparator(parts[0], sep);
    } else {
      SplitJoin(parts[1..], sep);
      SplitFirstField(parts[0], Join(parts[1..], sep), sep);
      assert [parts[0]] + parts[1..] == parts;
    }
  }

  /** Joining one more field appends the separator and that field. */
  lemma {:induction false} JoinSnoc(parts: seq<string>, x: string, sep: char)
    requires |parts| >= 1
    ensures Join(parts + [x], sep) == Join(parts, sep) + [sep] + x
    decreases |parts|
  {
    var whole := parts + [x];
    if |parts| == 1 {
      assert whole[1..] == [x];
    } else {
      assert whole[1..] == parts[1..] + [x];
      JoinSnoc(parts[1..], x, sep);
      var rest := Join(parts[1..], sep);
      AppendAssoc(parts[0] + [sep], rest, [sep] + x);
      AppendAssoc(rest, [sep], x);
      AppendAssoc(parts[0] + [sep] + rest, [sep], x);
    }
  }

  /** Python's `s.replace(p, r)`: every non-overlapping occurrence of `p`, scanning from the left. */
  function Replace(s: string, p: string, r: string): (res: string)
    requires |p| > 0
    ensures !Contains(s, p) ==> res == s
    decreases |s|
  {
    if |s| < |p| then
      s
    else if StartsWith(s, p) then
      r + Replace(s[|p|..], p, r)
    else
      assert !Contains(s, p) ==> !Contains(s[1..], p);
      [s[0]] + Replace(s[1..], p, r)
  }

  lemma AppendAssoc(a: string, b: string, c: string)
    ensures a + (b + c) == (a + b) + c
  {
  }

  lemma AppendAssocThree(p: string, a: string, b: string, c: string)
    ensures p + (a + b + c) == p + a + b + c
  {
  }

  lemma AppendAssocFive(p: string, a: string, b: string, c: string, d: string, e: string)
    ensures p + (a + b + c + d + e) == p + a + b + c + d + e
  {
  }

  /** Where no occurrence starts, the first character is kept and the scan moves on. */
  lemma ReplaceKeepsFirst(s: string, p: string, r: string)
    requires |p| > 0 && |s| >= |p| && !StartsWith(s, p)
    ensures Replace(s, p, r) == [s[0]] + Replace(s[1..], p, r)
  {
  }

  lemma {:induction false} ReplaceSkipsPrefix(a: string, s: string, p: string, r: string)
    requires |p| > 0 && p[0] !in a
    ensures Replace(a + s, p, r) == a + Replace(s, p, r)
    decreases |a|
  {
    if |a| > 0 {
      var t := a + s;
      var t' := a[1..] + s;
      assert t[1..] == t';
      assert [a[0]] + a[1..] == a;
      ReplaceSkipsPrefix(a[1..], s, p, r);
      if |t| < |p| {
        assert Replace(t, p, r) == t;
        assert Replace(t', p, r) == t';
        assert Replace(s, p, r) == s;
        assert Replace(a + s, p, r) == a + Replace(s, p, r);
      } else {
        assert !StartsWith(t, p) by { assert t[0] == a[0] != p[0]; }
        ReplaceKeepsFirst(t, p, r);
        AppendAssoc([a[0]], a[1..], Replace(s, p, r));
        assert Replace(a + s, p, r) == a + Replace(s, p, r);
      }
    } else {
      assert a + s == s;
    }
  }

  /**
   * The scan from the left: the first occurrence of `p` is replaced, what
   * comes before it is kept, and the scan restarts right after it.
   */
  lemma ReplaceLeftmost(s: string, p: string, r: string, i: nat)
    requires |p| > 0 && OccursAt(s, p, i)
    requires forall j :: 0 <= j < i ==> !OccursAt(s, p, j)
    ensures Replace(s, p, r) == s[..i] + r + Replace(s[i + |p|..], p, r)
  {
    NoneBeforeOf(s, p, i);
    ReplaceFirstAt(s, p, r, i);
  }

  lemma ReplaceFirstAt(s: string, p: string, r: string, i: nat)
    requires |p| > 0 && OccursAt(s, p, i) && NoneBefore(s, p, i)
    ensures Replace(s, p, r) == s[..i] + r + Replace(s[i + |p|..], p, r)
  {
    var a := s[..i];
    var rest := s[i..];
    assert a + rest == s;
    ReplaceKeepsPrefix(a, rest, p, r);
    assert OccursAt(rest, p, 0) by { assert rest[..|p|] == s[i..i + |p|]; }
    ReplaceAtStart(rest, p, r);
    assert rest[|p|..] == s[i + |p|..];
    AppendAssoc(a, r, Replace(s[i + |p|..], p, r));
  }

  /** No occurrence starts in the first `i` places, stepped one character at a time. */
  predicate NoneBefore(s: string, p: string, i: nat)
    decreases i
  {
    i == 0 || (|s| > 0 && !StartsWith(s, p) && NoneBefore(s[1..], p, i - 1))
  }

  lemma {:induction false} NoneBeforeOf(s: string, p: string, i: nat)
    requires |p| > 0 && OccursAt(s, p, i)
    requires forall j :: 0 <= j < i ==> !OccursAt(s, p, j)
    ensures NoneBefore(s, p, i)
    decreases i
  {
    if i > 0 {
      LeftmostInTail(s, p, i);
      NoneBeforeOf(s[1..], p, i - 1);
    }
  }

  /** A prefix in which no occurrence starts is copied through unchanged. */
  lemma {:induction false} ReplaceKeepsPrefix(a: string, s: string, p: string, r: string)
    requires |p| > 0 && NoneBefore(a + s, p, |a|)
    ensures Replace(a + s, p, r) == a + Replace(s, p, r)
    decreases |a|
  {
    if |a| > 0 {
      var t := a + s;
      var t' := a[1..] + s;
      assert t[1..] == t';
      assert [a[0]] + a[1..] == a;
      ReplaceKeepsPrefix(a[1..], s, p, r);
      if |t| < |p| {
        assert Replace(t, p, r) == t;
        assert Replace(t', p, r) == t';
        assert Replace(s, p, r) == s;
      } else {
        ReplaceKeepsFirst(t, p, r);
        AppendAssoc([a[0]], a[1..], Replace(s, p, r));
      }
    } else {
      assert a + s == s;
    }
  }

  lemma ReplaceAtStart(s: string, p: string, r: string)
    requires |p| > 0 && OccursAt(s, p, 0)
    ensures Replace(s, p, r) == r + Replace(s[|p|..], p, r)
  {
    assert StartsWith(s, p);
  }

  /** An occurrence after the first character is the tail's, one place earlier, and stays the leftmost. */
  lemma LeftmostInTail(s: string, p: string, i: nat)
    requires |p| > 0 && i >= 1 && OccursAt(s, p, i)
    requires forall j :: 0 <= j < i ==> !OccursAt(s, p, j)
    ensures |s| >= |p| && !StartsWith(s, p)
    ensures OccursAt(s[1..], p, i - 1) && forall j :: 0 <= j < i - 1 ==> !OccursAt(s[1..], p, j)
  {
    var t := s[1..];
    assert !OccursAt(s, p, 0);
    assert t[i - 1..i - 1 + |p|] == s[i..i + |p|];
    forall j | 0 <= j < i - 1 ensures !OccursAt(t, p, j) {
      assert t[j..j + |p|] == s[j + 1..j + 1 + |p|];
      assert !OccursAt(s, p, j + 1);
    }
  }

  /** Replacing a pattern by itself leaves every string as it was. */
  lemma {:induction false} ReplaceBySelf(s: string, p: string)
    requires |p| > 0
    ensures Replace(s, p, p) == s
    decreases |s|
  {
    if |s| >= |p| {
      if StartsWith(s, p) {
        ReplaceBySelf(s[|p|..], p);
        assert s[..|p|] + s[|p|..] == s;
      } else {
        ReplaceBySelf(s[1..], p);
        assert [s[0]] + s[1..] == s;
      }
    }
  }

  /**
   * A string holding exactly one occurrence of a pattern whose first
   * character appears nowhere else has exactly that occurrence replaced.
   */
  lemma ReplaceSingle(a: string, p: string, b: string, r: string)
    requires |p| > 0 && p[0] !in a && p[0] !in b
    ensures Replace(a + p + b, p, r) == a + r + b
  {
    var pb := p + b;
    assert a + p + b == a + pb;
    ReplaceSkipsPrefix(a, pb, p, r);
    assert StartsWith(pb, p) by { assert pb[..|p|] == p; }
    assert pb[|p|..] == b;
    assert Replace(pb, p, r) == r + Replace(b, p, r);
    ReplaceSkipsPrefix(b, [], p, r);
    assert b + [] == b;
    assert Replace(b, p, r) == b;
  }

  function LowerChar(ch: char): char {
    if 'A' <= ch <= 'Z' then (ch as int + 32) as char else ch
  }

  /** Python's `str.lower()` restricted to ASCII letters. */
  function ToLower(s: string): (r: string)
    ensures |r| == |s|
    ensures forall i :: 0 <= i < |s| ==> r[i] == LowerChar(s[i])
  {
    seq(|s|, i requires 0 <= i < |s| => LowerChar(s[i]))
  }

  predicate IsDigit(ch: char) {
    '0' <= ch <= '9'
  }

  predicate AllDigits(s: string) {
    forall i :: 0 <= i < |s| ==> IsDigit(s[i])
  }

  function DigitsValue(s: string): nat
    requires AllDigits(s)
  {
    if |s| == 0 then 0 else DigitsValue(s[..|s| - 1]) * 10 + (s[|s| - 1] as int - '0' as int)
  }

  /** Python's `int()` on an optionally signed run of ASCII digits; `None` where Python raises ValueError. */
  function ParseInt(s: string): Option<int> {
    if |s| >= 2 && (s[0] == '-' || s[0] == '+') && AllDigits(s[1..]) then
      var magnitude: int := DigitsValue(s[1..]);
      Some(if s[0] == '-' then -magnitude else magnitude)
    else if |s| >= 1 && AllDigits(s) then
      Some(DigitsValue(s))
    else
      None
  }

  function ShowNat(n: nat): (r: string)
    ensures |r| >= 1 && AllDigits(r)
  {
    if n < 10 then ['0' + n as char] else ShowNat(n / 10) + ['0' + (n % 10) as char]
  }

  /** Python's `str()` of an integer. */
  function ShowInt(i: int): string {
    if i < 0 then "-" + ShowNat(-i) else ShowNat(i)
  }

  lemma {:induction false} DigitsOfShowNat(n: nat)
    ensures DigitsValue(ShowNat(n)) == n
  {
    if n >= 10 {
      var a := ShowNat(n / 10);
      var s := ShowNat(n);
      assert s[..|s| - 1] == a;
      DigitsOfShowNat(n / 10);
    }
  }

  /** `int(str(i)) == i`. */
  lemma ParseShowInt(i: int)
    ensures ParseInt(ShowInt(i)) == Some(i)
  {
    var s := ShowInt(i);
    if i < 0 {
      var d := ShowNat(-i);
      assert s == "-" + d && s[1..] == d;
      DigitsOfShowNat(-i);
    } else {
      assert IsDigit(s[0]);
      DigitsOfShowNat(i);
    }
  }

  lemma ShowIntHasNoSeparator(i: int, sep: char)
    requires sep != '-' && !IsDigit(sep)
    ensures sep !in ShowInt(i)
  {
    var d := ShowNat(if i < 0 then -i else i);
    assert forall k :: 0 <= k < |d| ==> d[k] != sep by {
      forall k | 0 <= k < |d| ensures d[k] != sep {
        assert IsDigit(d[k]);
      }
    }
  }
}

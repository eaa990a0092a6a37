/** The column statistics the script asks pandas for: median (Salary imputation),
    sum and mean (group aggregations). Reals are exact, not floating point. */
module Statistics {
  import opened Records

  predicate Sorted(s: seq<real>)
  {
    forall i, j :: 0 <= i < j < |s| ==> s[i] <= s[j]
  }

  /** Puts x into an ascending list. */
  function InsertReal(s: seq<real>, x: real): (r: seq<real>)
    requires Sorted(s)
    ensures Sorted(r)
    ensures multiset(r) == multiset(s) + multiset{x}
  {
    if s == [] then [x]
    else if x <= s[0] then [x] + s
    else
      var rest := InsertReal(s[1..], x);
      BelowAll(s, x, rest);
      ConsSorted(s[0], rest);
      assert s == [s[0]] + s[1..];
      [s[0]] + rest
  }

  /** Everything in rest, the tail of s with x added, is at least the head of s. */
  lemma BelowAll(s: seq<real>, x: real, rest: seq<real>)
    requires Sorted(s) && s != [] && s[0] < x
    requires multiset(rest) == multiset(s[1..]) + multiset{x}
    ensures forall i :: 0 <= i < |rest| ==> s[0] <= rest[i]
  {
    forall i | 0 <= i < |rest|
      ensures s[0] <= rest[i]
    {
      assert rest[i] in multiset(rest);
      if rest[i] != x {
        assert rest[i] in multiset(s[1..]);
        var j :| 0 <= j < |s[1..]| && s[1..][j] == rest[i];
        assert s[j + 1] == rest[i];
      }
    }
  }

  /** A value no larger than anything in an ascending list may be put in front. */
  lemma ConsSorted(h: real, rest: seq<real>)
    requires Sorted(rest) && forall i :: 0 <= i < |rest| ==> h <= rest[i]
    ensures Sorted([h] + rest)
  {
    var r := [h] + rest;
    forall i, j | 0 <= i < j < |r|
      ensures r[i] <= r[j]
    {
      assert r[j] == rest[j - 1];
      if i > 0 {
        assert r[i] == rest[i - 1];
      }
    }
  }

  /** The values in ascending order: a sorted permutation of s. */
  function SortReals(s: seq<real>): (r: seq<real>)
    ensures Sorted(r)
    ensures multiset(r) == multiset(s)
  {
    if s == [] then []
    else
      assert s == s[..|s| - 1] + [s[|s| - 1]];
      InsertReal(SortReals(s[..|s| - 1]), s[|s| - 1])
  }

  /** Series.median(): the middle of the sorted values, the mean of the two middle
      ones for an even count, and missing when there are no values. */
  function Median(s: seq<real>): (r: Option<real>)
    ensures r.Some? <==> |s| > 0
  {
    var sorted := SortReals(s);
    assert |sorted| == |multiset(sorted)| == |s|;
    var n := |sorted|;
    if n == 0 then None
    else if n % 2 == 1 then Some(sorted[n / 2])
    else Some((sorted[n / 2 - 1] + sorted[n / 2]) / 2.0)
  }

  /** The median lies within any range that holds all the values. */
  lemma MedianWithinRange(s: seq<real>, lo: real, hi: real)
    requires |s| > 0
    requires forall i :: 0 <= i < |s| ==> lo <= s[i] <= hi
    ensures Median(s).Some? && lo <= Median(s).value <= hi
  {
    var sorted := SortReals(s);
    assert |sorted| == |multiset(sorted)| == |s|;
    forall i | 0 <= i < |sorted|
      ensures lo <= sorted[i] <= hi
    {
      assert sorted[i] in multiset(s);
      var j :| 0 <= j < |s| && s[j] == sorted[i];
    }
  }

  /** The head of an ascending list is its least value. */
  lemma HeadIsLeast(a: seq<real>, x: real)
    requires Sorted(a) && a != [] && x in multiset(a)
    ensures a[0] <= x
  {
    var j :| 0 <= j < |a| && a[j] == x;
  }

  /** Two ascending lists holding the same values are the same list. */
  lemma {:induction false} SortedUnique(a: seq<real>, b: seq<real>)
    requires Sorted(a) && Sorted(b) && multiset(a) == multiset(b)
    ensures a == b
  {
    assert |a| == |multiset(a)| == |multiset(b)| == |b|;
    if a != [] {
      assert a[0] in multiset(a) && b[0] in multiset(b);
      HeadIsLeast(a, b[0]);
      HeadIsLeast(b, a[0]);
      assert a == [a[0]] + a[1..] && b == [b[0]] + b[1..];
      assert multiset(a[1..]) == multiset(a) - multiset{a[0]};
      assert multiset(b[1..]) == multiset(b) - multiset{b[0]};
      assert Sorted(a[1..]) && Sorted(b[1..]);
      SortedUnique(a[1..], b[1..]);
      assert a[0] == b[0];
    }
  }

  /** The median depends only on the values, not on the row order they come in. */
  lemma MedianOrderIndependent(s: seq<real>, t: seq<real>)
    requires multiset(s) == multiset(t)
    ensures Median(s) == Median(t)
  {
    var a, b := SortReals(s), SortReals(t);
    SortedUnique(a, b);
    assert |s| == |multiset(s)| == |multiset(t)| == |t|;
    assert |a| == |multiset(a)| == |s|;
  }

  /** Series.sum(): the sum of the present values, 0 when there are none. */
  function Sum(s: seq<real>): real
  {
    if s == [] then 0.0 else Sum(s[..|s| - 1]) + s[|s| - 1]
  }

  /** Summing two parts separately and adding the results gives the sum of the whole. */
  lemma {:induction false} SumAppend(a: seq<real>, b: seq<real>)
    ensures Sum(a + b) == Sum(a) + Sum(b)
  {
    if b == [] {
      assert a + b == a;
    } else {
      var n := |b| - 1;
      SumAppend(a, b[..n]);
      assert (a + b)[..|a + b| - 1] == a + b[..n];
    }
  }

  /** Taking one value out of the sum and adding it back. */
  lemma SumRemove(t: seq<real>, j: int)
    requires 0 <= j < |t|
    ensures Sum(t) == Sum(t[..j] + t[j + 1..]) + t[j]
  {
    assert t == t[..j] + ([t[j]] + t[j + 1..]);
    SumAppend(t[..j], [t[j]] + t[j + 1..]);
    SumAppend([t[j]], t[j + 1..]);
    SumAppend(t[..j], t[j + 1..]);
    assert [t[j]][..0] == [];
  }

  lemma CancelOne(a: multiset<real>, b: multiset<real>, x: real)
    requires a + multiset{x} == b + multiset{x}
    ensures a == b
  {
    forall v
      ensures a[v] == b[v]
    {
      assert (a + multiset{x})[v] == (b + multiset{x})[v];
    }
  }

  /** The sum depends only on which values occur and how often, not on their order. */
  lemma {:induction false} SumOrderIndependent(s: seq<real>, t: seq<real>)
    requires multiset(s) == multiset(t)
    ensures Sum(s) == Sum(t)
  {
    if s == [] {
      assert |t| == |multiset(t)| == 0;
    } else {
      var n := |s| - 1;
      assert s == s[..n] + [s[n]];
      assert s[n] in multiset(t);
      var j :| 0 <= j < |t| && t[j] == s[n];
      var u := t[..j] + t[j + 1..];
      assert t == t[..j] + [t[j]] + t[j + 1..];
      assert multiset(t) == multiset(u) + multiset{s[n]} by {
        assert multiset(t) == multiset(t[..j]) + multiset{t[j]} + multiset(t[j + 1..]);
      }
      assert multiset(s) == multiset(s[..n]) + multiset{s[n]};
      CancelOne(multiset(s[..n]), multiset(u), s[n]);
      SumOrderIndependent(s[..n], u);
      SumRemove(t, j);
    }
  }

  lemma {:induction false} SumAtMost(s: seq<real>, hi: real)
    requires forall i :: 0 <= i < |s| ==> s[i] <= hi
    ensures Sum(s) <= |s| as real * hi
  {
    if s != [] {
      var n := |s| - 1;
      assert forall i :: 0 <= i < n ==> s[..n][i] <= hi;
      SumAtMost(s[..n], hi);
      assert Sum(s) == Sum(s[..n]) + s[n];
      assert |s| as real * hi == n as real * hi + hi;
    }
  }

  lemma {:induction false} SumAtLeast(s: seq<real>, lo: real)
    requires forall i :: 0 <= i < |s| ==> lo <= s[i]
    ensures |s| as real * lo <= Sum(s)
  {
    if s != [] {
      var n := |s| - 1;
      assert forall i :: 0 <= i < n ==> lo <= s[..n][i];
      SumAtLeast(s[..n], lo);
      assert Sum(s) == Sum(s[..n]) + s[n];
      assert |s| as real * lo == n as real * lo + lo;
    }
  }

  /** Series.mean(): the sum divided by the number of values, missing when there are none. */
  function Mean(s: seq<real>): (r: Option<real>)
    ensures r.Some? <==> |s| > 0
    ensures r.Some? ==> r.value * |s| as real == Sum(s)
  {
    if |s| == 0 then None else Some(Sum(s) / |s| as real)
  }

  /** The mean lies within any range that holds all the values. */
  lemma MeanWithinRange(s: seq<real>, lo: real, hi: real)
    requires |s| > 0
    requires forall i :: 0 <= i < |s| ==> lo <= s[i] <= hi
    ensures Mean(s).Some? && lo <= Mean(s).value <= hi
  {
    SumAtLeast(s, lo);
    SumAtMost(s, hi);
    var n := |s| as real;
    assert n * lo <= Mean(s).value * n <= n * hi;
  }

  /** The mean does not exceed a bound on all the values. */
  lemma MeanAtMost(s: seq<real>, hi: real)
    requires |s| > 0
    requires forall i :: 0 <= i < |s| ==> s[i] <= hi
    ensures Mean(s).Some? && Mean(s).value <= hi
  {
    SumAtMost(s, hi);
    var n := |s| as real;
    assert Mean(s).value * n <= n * hi;
  }

  /** The median is read off the values once they are put in ascending order. */
  lemma MedianOfArranged(u: seq<real>, s: seq<real>)
    requires Sorted(s) && |s| > 0 && multiset(u) == multiset(s)
    ensures Median(u) == Some(if |s| % 2 == 1 then s[|s| / 2] else (s[|s| / 2 - 1] + s[|s| / 2]) / 2.0)
  {
    SortedUnique(SortReals(u), s);
  }

  /** The imputation example: the median of 30, 10 and 20 is 20. */
  lemma MedianOfThree(u: seq<real>)
    requires u == [30.0, 10.0, 20.0]
    ensures Median(u) == Some(20.0)
  {
    var s := [10.0, 20.0, 30.0];
    ThreeArranged(u, s);
    MedianOfArranged(u, s);
    assert s[|s| / 2] == 20.0;
  }

  lemma ThreeArranged(u: seq<real>, s: seq<real>)
    requires u == [30.0, 10.0, 20.0] && s == [10.0, 20.0, 30.0]
    ensures Sorted(s) && multiset(u) == multiset(s)
  {
    assert Sorted(s);
    assert multiset(u) == multiset{30.0, 10.0, 20.0};
  }

  /** For an even count the median is the mean of the two middle values. */
  lemma MedianOfFour(u: seq<real>)
    requires u == [4.0, 1.0, 3.0, 2.0]
    ensures Median(u) == Some(2.5)
  {
    var s := [1.0, 2.0, 3.0, 4.0];
    FourArranged(u, s);
    MedianOfArranged(u, s);
    assert (s[1] + s[2]) / 2.0 == 2.5;
  }

  lemma FourArranged(u: seq<real>, s: seq<real>)
    requires u == [4.0, 1.0, 3.0, 2.0] && s == [1.0, 2.0, 3.0, 4.0]
    ensures Sorted(s) && multiset(u) == multiset(s)
  {
    assert Sorted(s);
    assert multiset(u) == multiset{4.0, 1.0, 3.0, 2.0};
  }
}

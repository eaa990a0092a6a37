/** The order in which pandas `groupby` emits its keys: Python's `<` on str,
    lexicographic by code point. */
module StringOrder {

  /** a < b as Python compares strings: the first differing character decides,
      and a proper prefix comes before its extensions. */
  predicate Less(a: string, b: string)
  {
    if |a| == 0 then |b| > 0
    else if |b| == 0 then false
    else if a[0] != b[0] then a[0] < b[0]
    else Less(a[1..], b[1..])
  }

  lemma {:induction false} LessIrreflexive(a: string)
    ensures !Less(a, a)
  {
    if |a| > 0 {
      LessIrreflexive(a[1..]);
    }
  }

  lemma {:induction false} LessTransitive(a: string, b: string, c: string)
    requires Less(a, b) && Less(b, c)
    ensures Less(a, c)
  {
    if |a| > 0 && |b| > 0 && |c| > 0 && a[0] == b[0] && b[0] == c[0] {
      LessTransitive(a[1..], b[1..], c[1..]);
    }
  }

  lemma {:induction false} LessTotal(a: string, b: string)
    requires a != b
    ensures Less(a, b) || Less(b, a)
  {
    if |a| > 0 && |b| > 0 && a[0] == b[0] {
      assert a == [a[0]] + a[1..] && b == [b[0]] + b[1..];
      LessTotal(a[1..], b[1..]);
    }
  }

  lemma {:induction false} LessAsymmetric(a: string, b: string)
    requires Less(a, b)
    ensures !Less(b, a)
  {
    if |a| > 0 && |b| > 0 && a[0] == b[0] {
      LessAsymmetric(a[1..], b[1..]);
    }
  }

  /** Strictly ascending, hence free of duplicates. */
  predicate StrictlySorted(s: seq<string>)
  {
    forall i, j :: 0 <= i < j < |s| ==> Less(s[i], s[j])
  }

  lemma SortedDistinct(s: seq<string>, i: int, j: int)
    requires StrictlySorted(s) && 0 <= i < |s| && 0 <= j < |s| && i != j
    ensures s[i] != s[j]
  {
    if i < j { LessIrreflexive(s[i]); } else { LessIrreflexive(s[j]); }
  }

  /** Adds k to an ascending list of distinct keys, keeping it ascending and distinct. */
  function Insert(sorted: seq<string>, k: string): (r: seq<string>)
    requires StrictlySorted(sorted)
    ensures StrictlySorted(r)
    ensures forall x :: x in r <==> x in sorted || x == k
  {
    if sorted == [] then [k]
    else if k == sorted[0] then sorted
    else if Less(k, sorted[0]) then
      BelowHead(k, sorted);
      PrependSmaller(k, sorted);
      [k] + sorted
    else
      LessTotal(k, sorted[0]);
      var rest := Insert(sorted[1..], k);
      assert forall x :: x in sorted[1..] ==> Less(sorted[0], x);
      PrependSmaller(sorted[0], rest);
      [sorted[0]] + rest
  }

  /** A key below every element of an ascending list may be put in front of it. */
  lemma PrependSmaller(k: string, s: seq<string>)
    requires StrictlySorted(s)
    requires forall x :: x in s ==> Less(k, x)
    ensures StrictlySorted([k] + s)
  {
    forall i, j | 0 <= i < j < |[k] + s|
      ensures Less(([k] + s)[i], ([k] + s)[j])
    {
      if i == 0 { assert s[j - 1] in s; }
    }
  }

  /** A key below the head of an ascending list is below all of it. */
  lemma BelowHead(k: string, s: seq<string>)
    requires StrictlySorted(s) && s != [] && Less(k, s[0])
    ensures forall x :: x in s ==> Less(k, x)
  {
    forall x | x in s
      ensures Less(k, x)
    {
      var j :| 0 <= j < |s| && s[j] == x;
      if j > 0 { LessTransitive(k, s[0], x); }
    }
  }
}

/** Row selection on a table held as a sequence: the behaviour of a pandas
    boolean mask (`df[mask]`) and of `dropna(subset=...)`, which keep the rows
    that satisfy a predicate, in their original order. */
module Sequences {

  /** `r` can be obtained from `s` by deleting elements: `r` keeps the order
      in which its elements appear in `s`. */
  predicate IsSubsequence<T(==)>(r: seq<T>, s: seq<T>)
    decreases |s|
  {
    if r == [] then true
    else if s == [] then false
    else (r[0] == s[0] && IsSubsequence(r[1..], s[1..])) || IsSubsequence(r, s[1..])
  }

  /** The rows of `s` that satisfy `p`, in the order of `s`. */
  function Filter<T(==,!new)>(s: seq<T>, p: T -> bool): (r: seq<T>)
    ensures |r| <= |s|
    ensures forall x :: x in r <==> x in s && p(x)
    ensures forall x :: multiset(r)[x] == if p(x) then multiset(s)[x] else 0
    ensures IsSubsequence(r, s)
  {
    if s == [] then []
    else
      assert s == [s[0]] + s[1..];
      var rest := Filter(s[1..], p);
      if p(s[0]) then [s[0]] + rest else rest
  }

  lemma {:induction false} SubsequenceTransitive<T>(a: seq<T>, b: seq<T>, c: seq<T>)
    requires IsSubsequence(a, b) && IsSubsequence(b, c)
    ensures IsSubsequence(a, c)
    decreases |c|
  {
    if a != [] {
      if IsSubsequence(b, c[1..]) {
        SubsequenceTransitive(a, b, c[1..]);
      } else if a[0] == b[0] && IsSubsequence(a[1..], b[1..]) {
        SubsequenceTransitive(a[1..], b[1..], c[1..]);
      } else {
        SubsequenceTransitive(a, b[1..], c[1..]);
      }
    }
  }

  /** A mask that every row passes keeps the whole table. */
  lemma {:induction false} FilterKeepsAll<T(!new)>(s: seq<T>, p: T -> bool)
    requires forall i :: 0 <= i < |s| ==> p(s[i])
    ensures Filter(s, p) == s
  {
    if s != [] {
      FilterKeepsAll(s[1..], p);
    }
  }

  /** A mask that no row passes gives the empty table. */
  lemma FilterKeepsNone<T(!new)>(s: seq<T>, p: T -> bool)
    requires forall i :: 0 <= i < |s| ==> !p(s[i])
    ensures Filter(s, p) == []
  {
  }

  /** Two masks applied one after the other give the same rows in either order. */
  lemma {:induction false} FilterCommutes<T(!new)>(s: seq<T>, p: T -> bool, q: T -> bool)
    ensures Filter(Filter(s, p), q) == Filter(Filter(s, q), p)
  {
    if s != [] {
      FilterCommutes(s[1..], p, q);
    }
  }

  lemma {:induction false} SubsequenceReflexive<T>(s: seq<T>)
    ensures IsSubsequence(s, s)
  {
    if s != [] {
      SubsequenceReflexive(s[1..]);
    }
  }

  /** A subsequence of `s` holding every element as often as `s` does is `s`. */
  lemma {:induction false} SubsequenceWithAllCounts<T>(r: seq<T>, s: seq<T>)
    requires IsSubsequence(r, s)
    requires multiset(r) == multiset(s)
    ensures r == s
    decreases |s|
  {
    if s != [] {
      assert s == [s[0]] + s[1..];
      assert r != [] by {
        assert s[0] in multiset(s);
      }
      assert |r| == |s| by {
        assert |multiset(r)| == |r| && |multiset(s)| == |s|;
      }
      if IsSubsequence(r, s[1..]) {
        SubsequenceShorter(r, s[1..]);
      }
      assert r == [r[0]] + r[1..];
      assert multiset(r[1..]) == multiset(s[1..]) by {
        assert multiset(r[1..]) == multiset(r) - multiset{r[0]};
        assert multiset(s[1..]) == multiset(s) - multiset{s[0]};
      }
      SubsequenceWithAllCounts(r[1..], s[1..]);
    }
  }

  lemma {:induction false} SubsequenceShorter<T>(r: seq<T>, s: seq<T>)
    requires IsSubsequence(r, s)
    ensures |r| <= |s|
    decreases |s|
  {
    if r != [] {
      if r[0] == s[0] && IsSubsequence(r[1..], s[1..]) {
        SubsequenceShorter(r[1..], s[1..]);
      } else {
        SubsequenceShorter(r, s[1..]);
      }
    }
  }
}

/** Order-preserving filtering of sequences (`Array.prototype.filter`). */
module Seqs {

  /** `a` is `b` with some elements deleted and the rest kept in order. */
  predicate IsSubsequence<T(==)>(a: seq<T>, b: seq<T>)
    decreases |b|
  {
    if a == [] then true
    else if b == [] then false
    else (a[0] == b[0] && IsSubsequence(a[1..], b[1..])) || IsSubsequence(a, b[1..])
  }

  lemma {:induction false} SubsequenceReflexive<T>(s: seq<T>)
    ensures IsSubsequence(s, s)
  {
    if s != [] {
      SubsequenceReflexive(s[1..]);
    }
  }

  /** `s.filter(p)`: the elements of `s` that satisfy `p`, in their original
      order. How often each one is kept is stated by `KeepCounts`. */
  function Keep<T(==)>(s: seq<T>, p: T -> bool): (r: seq<T>)
    ensures |r| <= |s|
    ensures forall i :: 0 <= i < |r| ==> r[i] in s && p(r[i])
    ensures forall i :: 0 <= i < |s| && p(s[i]) ==> s[i] in r
    ensures IsSubsequence(r, s)
    decreases |s|
  {
    if s == [] then []
    else if p(s[0]) then [s[0]] + Keep(s[1..], p)
    else Keep(s[1..], p)
  }

  /** Filtering keeps every passing element exactly as often as it occurs
      and drops every failing one. */
  lemma {:induction false} KeepCounts<T(!new)>(s: seq<T>, p: T -> bool)
    ensures forall x :: multiset(Keep(s, p))[x] == if p(x) then multiset(s)[x] else 0
  {
    if s != [] {
      KeepCounts(s[1..], p);
      assert s == [s[0]] + s[1..];
    }
  }

  /** Filtering keeps everything exactly when every element passes. */
  lemma {:induction false} KeepAll<T>(s: seq<T>, p: T -> bool)
    ensures Keep(s, p) == s <==> forall i :: 0 <= i < |s| ==> p(s[i])
  {
    if s != [] {
      KeepAll(s[1..], p);
      if !p(s[0]) {
        assert |Keep(s, p)| < |s|;
      }
    }
  }

  /** Filtering never makes two kept elements share a key when no two
      elements of the input did. */
  lemma {:induction false} KeepDistinctKeys<T, K>(s: seq<T>, p: T -> bool, key: T -> K)
    requires forall i, j :: 0 <= i < j < |s| ==> key(s[i]) != key(s[j])
    ensures forall i, j :: 0 <= i < j < |Keep(s, p)| ==> key(Keep(s, p)[i]) != key(Keep(s, p)[j])
  {
    if s != [] {
      KeepDistinctKeys(s[1..], p, key);
      var rest := Keep(s[1..], p);
      forall i | 0 <= i < |rest| ensures key(rest[i]) != key(s[0]) {
        var j :| 0 <= j < |s[1..]| && s[1..][j] == rest[i];
        assert s[j + 1] == rest[i];
      }
    }
  }

  /** The positions from `lo` on whose element satisfies `p`. */
  function PassingFrom<T>(s: seq<T>, p: T -> bool, lo: nat): set<nat> {
    set i: nat | lo <= i < |s| && p(s[i])
  }

  /** The positions of `s` whose element satisfies `p`. */
  function Positions<T>(s: seq<T>, p: T -> bool): set<nat> {
    set i: nat | i < |s| && p(s[i])
  }

  /** `s.filter(p).length`: the number of positions of `s` whose element
      satisfies `p`. */
  function Count<T(==)>(s: seq<T>, p: T -> bool): (n: nat)
    ensures n == |Positions(s, p)|
    ensures n <= |s|
    ensures n == 0 <==> forall i :: 0 <= i < |s| ==> !p(s[i])
  {
    KeepCountsPositions(s, p, 0);
    assert PassingFrom(s, p, 0) == Positions(s, p);
    |Keep(s, p)|
  }

  /** Filtering the suffix from `lo` keeps one element per passing position. */
  lemma {:induction false} KeepCountsPositions<T>(s: seq<T>, p: T -> bool, lo: nat)
    requires lo <= |s|
    ensures |Keep(s[lo..], p)| == |PassingFrom(s, p, lo)|
    decreases |s| - lo
  {
    if lo < |s| {
      KeepCountsPositions(s, p, lo + 1);
      assert s[lo..][1..] == s[lo + 1..];
      var rest := PassingFrom(s, p, lo + 1);
      if p(s[lo]) {
        assert PassingFrom(s, p, lo) == {lo} + rest;
        assert lo !in rest;
      } else {
        assert PassingFrom(s, p, lo) == rest;
      }
    } else {
      assert PassingFrom(s, p, lo) == {};
    }
  }
}

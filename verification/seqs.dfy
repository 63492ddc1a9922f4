/**
  Sequence vocabulary shared by the dotplot model: sums and maxima of bin
  counts, extrema and ordering of real-valued samples, and a sort that
  yields the order statistics numpy's percentile reads (numpy partitions
  the sample, which gives the same order statistics as sorting it).
 */
module Seqs {

  /** Every element is at most every later element. */
  predicate Sorted(s: seq<real>) {
    forall i, j :: 0 <= i < j < |s| ==> s[i] <= s[j]
  }

  /** Every element is strictly below every later element. */
  predicate StrictlyIncreasing(s: seq<real>) {
    forall i, j :: 0 <= i < j < |s| ==> s[i] < s[j]
  }

  /** Consecutive elements differ by exactly `step`. */
  predicate EquallySpaced(s: seq<real>, step: real) {
    forall i :: 0 <= i < |s| - 1 ==> s[i + 1] - s[i] == step
  }

  /** Sum of a sequence of counts, folded from the back. */
  function Sum(s: seq<nat>): nat {
    if |s| == 0 then 0 else Sum(s[..|s| - 1]) + s[|s| - 1]
  }

  /** Largest count, as `counts.max()` computes it. */
  function Max(s: seq<nat>): (r: nat)
    requires |s| > 0
    ensures forall i :: 0 <= i < |s| ==> s[i] <= r
    ensures exists i :: 0 <= i < |s| && s[i] == r
  {
    if |s| == 1 then s[0]
    else
      var m := Max(s[..|s| - 1]);
      if m < s[|s| - 1] then s[|s| - 1] else m
  }

  /** Smallest sample value, as `a.min()` computes it. */
  function MinOf(s: seq<real>): (r: real)
    requires |s| > 0
    ensures forall i :: 0 <= i < |s| ==> r <= s[i]
    ensures exists i :: 0 <= i < |s| && s[i] == r
  {
    if |s| == 1 then s[0]
    else
      var m := MinOf(s[..|s| - 1]);
      if s[|s| - 1] < m then s[|s| - 1] else m
  }

  /**
    Largest sample value, as `a.max()` computes it. The same fold as `Max`,
    over sample values (`real`) rather than bin counts (`nat`).
   */
  function MaxOf(s: seq<real>): (r: real)
    requires |s| > 0
    ensures forall i :: 0 <= i < |s| ==> s[i] <= r
    ensures exists i :: 0 <= i < |s| && s[i] == r
  {
    if |s| == 1 then s[0]
    else
      var m := MaxOf(s[..|s| - 1]);
      if m < s[|s| - 1] then s[|s| - 1] else m
  }

  /** Sum of the first `i + 1` counts is the sum of the first `i` plus `s[i]`. */
  lemma SumPrefixStep(s: seq<nat>, i: nat)
    requires i < |s|
    ensures Sum(s[..i + 1]) == Sum(s[..i]) + s[i]
  {
    assert s[..i + 1][..i] == s[..i];
  }

  /** A prefix never sums to more than the whole sequence. */
  lemma {:induction false} SumPrefixBound(s: seq<nat>, i: nat)
    requires i <= |s|
    ensures Sum(s[..i]) <= Sum(s)
    decreases |s| - i
  {
    if i < |s| {
      SumPrefixStep(s, i);
      SumPrefixBound(s, i + 1);
    } else {
      assert s[..i] == s;
    }
  }

  /** Any single count is at most the sum. */
  lemma ElementAtMostSum(s: seq<nat>, k: nat)
    requires k < |s|
    ensures s[k] <= Sum(s)
  {
    SumPrefixStep(s, k);
    SumPrefixBound(s, k + 1);
  }

  /** The tallest bin never holds more than all dots together. */
  lemma MaxAtMostSum(s: seq<nat>)
    requires |s| > 0
    ensures Max(s) <= Sum(s)
  {
    var k :| 0 <= k < |s| && s[k] == Max(s);
    ElementAtMostSum(s, k);
  }

  /** If any dot exists, the tallest bin holds at least one. */
  lemma {:induction false} PositiveSumHasPositiveMax(s: seq<nat>)
    requires |s| > 0 && Sum(s) > 0
    ensures Max(s) >= 1
  {
    if s[|s| - 1] == 0 {
      var p := s[..|s| - 1];
      assert |p| > 0 && Sum(p) > 0;
      PositiveSumHasPositiveMax(p);
      assert Max(s) >= Max(p);
    }
  }

  /** Incrementing one count raises the sum by exactly one. */
  lemma {:induction false} SumIncrement(s: seq<nat>, k: nat)
    requires k < |s|
    ensures Sum(s[k := s[k] + 1]) == Sum(s) + 1
  {
    var t := s[k := s[k] + 1];
    if k == |s| - 1 {
      assert t[..|t| - 1] == s[..|s| - 1];
    } else {
      SumIncrement(s[..|s| - 1], k);
      assert t[..|t| - 1] == s[..|s| - 1][k := s[k] + 1];
    }
  }

  /** A sequence of `n` zeros sums to zero. */
  lemma {:induction false} SumZeros(n: nat)
    ensures Sum(seq(n, _ => 0)) == 0
  {
    if n > 0 {
      assert seq(n, _ => 0)[..n - 1] == seq(n - 1, _ => 0);
      SumZeros(n - 1);
    }
  }

  // ---------------------------------------------------------------------
  // Sorting: numpy's percentile works on the sorted sample.
  // ---------------------------------------------------------------------

  /** Inserts `x` into a sorted sequence, keeping it sorted. */
  function Insert(x: real, s: seq<real>): (r: seq<real>)
    requires Sorted(s)
    ensures Sorted(r)
    ensures multiset(r) == multiset(s) + multiset{x}
    ensures |r| == |s| + 1
    ensures r[0] == x || (|s| > 0 && r[0] == s[0])
  {
    if |s| == 0 then [x]
    else if x <= s[0] then [x] + s
    else
      var t := Insert(x, s[1..]);
      assert s == [s[0]] + s[1..];
      assert s[0] <= t[0];
      [s[0]] + t
  }

  /** Insertion sort: a sorted permutation of the sample. */
  function Sort(s: seq<real>): (r: seq<real>)
    ensures Sorted(r)
    ensures multiset(r) == multiset(s)
    ensures |r| == |s|
  {
    if |s| == 0 then []
    else
      assert s == [s[0]] + s[1..];
      Insert(s[0], Sort(s[1..]))
  }

  /** Sorted permutations of each other start with the same element. */
  lemma SortedSameFirst(a: seq<real>, b: seq<real>)
    requires Sorted(a) && Sorted(b) && |a| > 0 && |b| > 0
    requires multiset(a) == multiset(b)
    ensures a[0] == b[0]
  {
    assert a[0] in multiset(b);
    assert a[0] in b;
    assert b[0] in multiset(a);
    assert b[0] in a;
  }

  /** Removing the same first element from two permutations leaves permutations. */
  lemma TailsPermuted(a: seq<real>, b: seq<real>)
    requires |a| > 0 && |b| > 0 && a[0] == b[0]
    requires multiset(a) == multiset(b)
    ensures multiset(a[1..]) == multiset(b[1..])
  {
    assert a == [a[0]] + a[1..];
    assert b == [b[0]] + b[1..];
    assert multiset(a) == multiset{a[0]} + multiset(a[1..]);
    assert multiset(b) == multiset{a[0]} + multiset(b[1..]);
    assert multiset(a[1..]) == multiset(a) - multiset{a[0]};
    assert multiset(b[1..]) == multiset(b) - multiset{a[0]};
  }

  /** Two sorted sequences holding the same multiset are equal. */
  lemma {:induction false} SortedUnique(a: seq<real>, b: seq<real>)
    requires Sorted(a) && Sorted(b)
    requires multiset(a) == multiset(b)
    ensures a == b
    decreases |a|
  {
    assert |a| == |multiset(a)| == |b|;
    if |a| > 0 {
      SortedSameFirst(a, b);
      TailsPermuted(a, b);
      SortedUnique(a[1..], b[1..]);
      assert a == [a[0]] + a[1..];
      assert b == [b[0]] + b[1..];
    }
  }

  /** The first element of a sorted sequence is its minimum. */
  lemma SortedFirstIsMin(s: seq<real>)
    requires Sorted(s) && |s| > 0
    ensures s[0] == MinOf(s)
  {
  }

  /** The last element of a sorted sequence is its maximum. */
  lemma SortedLastIsMax(s: seq<real>)
    requires Sorted(s) && |s| > 0
    ensures s[|s| - 1] == MaxOf(s)
  {
  }

  /** A permutation has the same minimum and maximum. */
  lemma {:induction false} PermutationKeepsExtrema(a: seq<real>, b: seq<real>)
    requires |a| > 0 && multiset(a) == multiset(b)
    ensures |b| > 0
    ensures MinOf(a) == MinOf(b) && MaxOf(a) == MaxOf(b)
  {
    assert |a| == |multiset(a)| == |b|;
    var i :| 0 <= i < |a| && a[i] == MinOf(a);
    assert a[i] in multiset(b);
    var j :| 0 <= j < |b| && b[j] == MinOf(b);
    assert b[j] in multiset(a);
    var k :| 0 <= k < |a| && a[k] == MaxOf(a);
    assert a[k] in multiset(b);
    var l :| 0 <= l < |b| && b[l] == MaxOf(b);
    assert b[l] in multiset(a);
  }
}

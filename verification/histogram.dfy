/**
  numpy's `histogram(a, bins=n)` for an integer `n`, over exact reals.

  The outer edges are the data's own minimum and maximum, widened to
  `[min - 0.5, max + 0.5]` when the two coincide. The `n + 1` edges are
  `linspace(first, last, n + 1)`. A value's bin is
  `trunc((v - first) / (last - first) * n)`, with index `n` (the value equal
  to `last`) moved into the last bin; values outside `[first, last]` are
  dropped, and the surviving indices are tallied one by one. numpy follows
  that index with a floating-point correction against the edges; over exact
  reals the correction never fires, and `BinIndexIsBin` proves the index is
  already the edge-defined bin.
 */
module Histograms {
  import opened Seqs
  import opened Spacing

  /** The pair numpy returns: counts per bin and the bin edges. */
  datatype Histogram = Histogram(counts: seq<nat>, edges: seq<real>)

  /** Outer edges of the histogram range; never of zero width. */
  function OuterEdges(values: seq<real>): (r: (real, real))
    requires |values| > 0
    ensures r.0 < r.1
    ensures forall i :: 0 <= i < |values| ==> r.0 <= values[i] <= r.1
    ensures MinOf(values) < MaxOf(values) ==> r == (MinOf(values), MaxOf(values))
    ensures MinOf(values) == MaxOf(values) ==> r == (MinOf(values) - 0.5, MaxOf(values) + 0.5)
  {
    var lo, hi := MinOf(values), MaxOf(values);
    if lo == hi then (lo - 0.5, hi + 0.5) else (lo, hi)
  }

  /** Bin index of a value inside `[first, last]` with `n` equal bins. */
  function BinIndex(v: real, first: real, last: real, n: nat): (k: nat)
    requires first < last && n >= 1 && first <= v <= last
    ensures k < n
  {
    var f := (v - first) / (last - first) * (n as real);
    NonNegativeProduct((v - first) / (last - first), n as real);
    var k := f.Floor;
    if k >= n then n - 1 else k
  }

  /** Value `v` lies in bin `i` of `edges`: half-open, the last bin closed. */
  predicate InBin(edges: seq<real>, i: nat, v: real)
    requires i + 1 < |edges|
  {
    (edges[i] <= v < edges[i + 1]) || (i + 2 == |edges| && v == edges[i + 1])
  }

  /** Number of values lying in bin `i` of `edges`: the reference count. */
  function CountInBin(values: seq<real>, edges: seq<real>, i: nat): nat
    requires i + 1 < |edges|
  {
    if |values| == 0 then 0
    else
      CountInBin(values[..|values| - 1], edges, i)
      + (if InBin(edges, i, values[|values| - 1]) then 1 else 0)
  }

  /** numpy's tally of bin indices, one value at a time. */
  function Tally(values: seq<real>, first: real, last: real, n: nat): (r: seq<nat>)
    requires first < last && n >= 1
    ensures |r| == n
    ensures (forall i :: 0 <= i < |values| ==> first <= values[i] <= last) ==> Sum(r) == |values|
  {
    if |values| == 0 then
      SumZeros(n);
      seq(n, _ => 0)
    else
      var t := Tally(values[..|values| - 1], first, last, n);
      var v := values[|values| - 1];
      if first <= v <= last then
        var k := BinIndex(v, first, last, n);
        SumIncrement(t, k);
        t[k := t[k] + 1]
      else t
  }

  /** `np.histogram(values, bins=n)`. */
  function Hist(values: seq<real>, n: nat): (h: Histogram)
    requires |values| > 0 && n >= 1
    ensures |h.counts| == n && |h.edges| == n + 1
    ensures Sum(h.counts) == |values|
  {
    var (first, last) := OuterEdges(values);
    Histogram(Tally(values, first, last, n), Linspace(first, last, n + 1))
  }

  /** Width of every bin of `Hist(values, n)`. */
  function Width(values: seq<real>, n: nat): (w: real)
    requires |values| > 0 && n >= 1
    ensures w > 0.0
  {
    var (first, last) := OuterEdges(values);
    PositiveQuotient(last - first, n as real);
    Step(first, last, n + 1)
  }

  // ---------------------------------------------------------------------
  // Arithmetic helpers
  // ---------------------------------------------------------------------

  lemma NonNegativeProduct(a: real, b: real)
    requires a >= 0.0 && b >= 0.0
    ensures a * b >= 0.0
  {
  }

  lemma PositiveQuotient(a: real, b: real)
    requires a > 0.0 && b > 0.0
    ensures a / b > 0.0
  {
  }

  lemma MulMonotone(a: real, b: real, c: real)
    requires a <= b && c >= 0.0
    ensures a * c <= b * c
  {
    assert b * c - a * c == (b - a) * c;
    NonNegativeProduct(b - a, c);
  }

  lemma MulStrictMonotone(a: real, b: real, c: real)
    requires a < b && c > 0.0
    ensures a * c < b * c
  {
    assert b * c - a * c == (b - a) * c;
  }

  lemma DivSelf(d: real)
    requires d > 0.0
    ensures d / d == 1.0
  {
  }

  /** Scaling the bin position back by the bin width recovers the offset. */
  lemma ScaleBack(x: real, d: real, n: real)
    requires d > 0.0 && n > 0.0
    ensures (x / d * n) * (d / n) == x
  {
    assert (x / d * n) * (d / n) == x * (d / d) * (n / n);
  }

  // ---------------------------------------------------------------------
  // The index computation agrees with the edges
  // ---------------------------------------------------------------------

  /** Bins of a histogram's edges are disjoint. */
  lemma BinsDisjoint(first: real, last: real, n: nat, i: nat, j: nat, v: real)
    requires first < last && n >= 1 && i < n && j < n
    requires InBin(Linspace(first, last, n + 1), i, v)
    requires InBin(Linspace(first, last, n + 1), j, v)
    ensures i == j
  {
    LinspaceIncreasing(first, last, n + 1);
  }

  /** Below the top edge, the truncated position `k` satisfies `k*w <= x < (k+1)*w`. */
  lemma TruncatedPosition(x: real, d: real, n: nat)
    requires 0.0 <= x < d && n >= 1
    ensures 0 <= (x / d * (n as real)).Floor < n
    ensures ((x / d * (n as real)).Floor as real) * (d / (n as real)) <= x
    ensures x < (((x / d * (n as real)).Floor + 1) as real) * (d / (n as real))
  {
    var f := x / d * (n as real);
    var w := d / (n as real);
    var k := f.Floor;
    NonNegativeProduct(x / d, n as real);
    assert x / d < 1.0 by {
      MulStrictMonotone(x, d, 1.0 / d);
    }
    MulStrictMonotone(x / d, 1.0, n as real);
    assert f < n as real;
    ScaleBack(x, d, n as real);
    PositiveQuotient(d, n as real);
    assert f * w == x;
    MulMonotone(k as real, f, w);
    assert f < (k + 1) as real;
    MulStrictMonotone(f, (k + 1) as real, w);
  }

  /** Edge `k` of `n` equal bins over `[first, last]`. */
  lemma EdgeAt(first: real, last: real, n: nat, k: nat)
    requires n >= 1 && k <= n
    ensures Linspace(first, last, n + 1)[k] == first + (k as real) * ((last - first) / (n as real))
  {
    assert Step(first, last, n + 1) == (last - first) / (n as real);
  }

  /** The top of the range lands in the last bin. */
  lemma TopValueInLastBin(first: real, last: real, n: nat)
    requires first < last && n >= 1
    ensures BinIndex(last, first, last, n) == n - 1
    ensures InBin(Linspace(first, last, n + 1), n - 1, last)
  {
    DivSelf(last - first);
    assert (last - first) / (last - first) * (n as real) == n as real;
    LinspaceShape(first, last, n + 1);
  }

  /** A value below the top lands in the bin given by its truncated position. */
  lemma InnerValueInBin(v: real, first: real, last: real, n: nat)
    requires first < last && n >= 1 && first <= v < last
    ensures InBin(Linspace(first, last, n + 1), BinIndex(v, first, last, n), v)
  {
    var d := last - first;
    var w := d / (n as real);
    var x := v - first;
    var k := (x / d * (n as real)).Floor;
    assert 0 <= k < n && (k as real) * w <= x < ((k + 1) as real) * w by {
      TruncatedPosition(x, d, n);
    }
    assert BinIndex(v, first, last, n) == k;
    var e := Linspace(first, last, n + 1);
    assert e[k] == first + (k as real) * w by {
      EdgeAt(first, last, n, k);
    }
    assert e[k + 1] == first + ((k + 1) as real) * w by {
      EdgeAt(first, last, n, k + 1);
    }
  }

  /** The index numpy computes names the bin whose edges enclose `v`. */
  lemma BinIndexInBin(v: real, first: real, last: real, n: nat)
    requires first < last && n >= 1 && first <= v <= last
    ensures InBin(Linspace(first, last, n + 1), BinIndex(v, first, last, n), v)
  {
    if v == last {
      TopValueInLastBin(first, last, n);
    } else {
      InnerValueInBin(v, first, last, n);
    }
  }

  /** A value in range is in bin `i` exactly when numpy's index is `i`. */
  lemma BinIndexIsBin(v: real, first: real, last: real, n: nat, i: nat)
    requires first < last && n >= 1 && first <= v <= last && i < n
    ensures BinIndex(v, first, last, n) == i <==> InBin(Linspace(first, last, n + 1), i, v)
  {
    BinIndexInBin(v, first, last, n);
    if InBin(Linspace(first, last, n + 1), i, v) {
      BinsDisjoint(first, last, n, i, BinIndex(v, first, last, n), v);
    }
  }

  /** The tally of bin `i` counts exactly the values lying between its edges. */
  lemma {:induction false} TallyCountsBin(values: seq<real>, first: real, last: real, n: nat, i: nat)
    requires first < last && n >= 1 && i < n
    requires forall j :: 0 <= j < |values| ==> first <= values[j] <= last
    ensures Tally(values, first, last, n)[i] == CountInBin(values, Linspace(first, last, n + 1), i)
  {
    if |values| > 0 {
      var v := values[|values| - 1];
      TallyCountsBin(values[..|values| - 1], first, last, n, i);
      BinIndexIsBin(v, first, last, n, i);
    }
  }

  /** Every bin of `Hist` counts the values between its edges. */
  lemma HistCountsAreBinMemberships(values: seq<real>, n: nat)
    requires |values| > 0 && n >= 1
    ensures forall i :: 0 <= i < n ==>
      Hist(values, n).counts[i] == CountInBin(values, Hist(values, n).edges, i)
  {
    var (first, last) := OuterEdges(values);
    forall i | 0 <= i < n
      ensures Hist(values, n).counts[i] == CountInBin(values, Hist(values, n).edges, i)
    {
      TallyCountsBin(values, first, last, n, i);
    }
  }

  /** Every value lies in exactly one bin of `Hist`. */
  lemma EachValueInOneBin(values: seq<real>, n: nat, j: nat)
    requires |values| > 0 && n >= 1 && j < |values|
    ensures exists i :: 0 <= i < n && InBin(Hist(values, n).edges, i, values[j])
    ensures forall i1, i2 ::
              (0 <= i1 < n && 0 <= i2 < n
               && InBin(Hist(values, n).edges, i1, values[j])
               && InBin(Hist(values, n).edges, i2, values[j])) ==> i1 == i2
  {
    var (first, last) := OuterEdges(values);
    var e := Hist(values, n).edges;
    assert e == Linspace(first, last, n + 1);
    var v := values[j];
    BinIndexInBin(v, first, last, n);
    forall i1, i2 | 0 <= i1 < n && 0 <= i2 < n && InBin(e, i1, v) && InBin(e, i2, v)
      ensures i1 == i2
    {
      BinsDisjoint(first, last, n, i1, i2, v);
    }
  }

  /** The edges span the data's range in equal steps of `Width`. */
  lemma HistEdges(values: seq<real>, n: nat)
    requires |values| > 0 && n >= 1
    ensures StrictlyIncreasing(Hist(values, n).edges)
    ensures EquallySpaced(Hist(values, n).edges, Width(values, n))
    ensures Hist(values, n).edges[0] == OuterEdges(values).0
    ensures Hist(values, n).edges[n] == OuterEdges(values).1
    ensures forall j :: 0 <= j < |values| ==>
      Hist(values, n).edges[0] <= values[j] <= Hist(values, n).edges[n]
  {
    var (first, last) := OuterEdges(values);
    LinspaceIncreasing(first, last, n + 1);
    LinspaceShape(first, last, n + 1);
  }
}

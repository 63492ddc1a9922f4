/**
  The geometry of `ntile_dotplot`: the (center, count) pairs of
  compute_ntiles become one dot per quantile. Bin `i` contributes
  `counts[i]` dots at x = `centers[i]` (`np.repeat`), stacked at heights
  `0.5, 1.5, ..., counts[i] - 0.5` (`np.arange(0.5, k + 0.5)`), bins in
  order (`np.concatenate`).
 */
module Dotplot {
  import opened Seqs
  import opened Ntiles

  /** The dot coordinates handed to the scatter call. */
  datatype Dots = Dots(xs: seq<real>, ys: seq<real>)

  /** Smallest integer at or above `x`. */
  function Ceil(x: real): (c: int)
    ensures c as real - 1.0 < x <= c as real
  {
    -((-x).Floor)
  }

  /** numpy's `arange(start, stop)` with step 1: `ceil(stop - start)` values from `start`. */
  function Arange(start: real, stop: real): (r: seq<real>)
    ensures |r| == if Ceil(stop - start) > 0 then Ceil(stop - start) else 0
  {
    var len := Ceil(stop - start);
    if len <= 0 then [] else seq(len, i => start + i as real)
  }

  /** One column of `k` stacked dots: `arange(0.5, k + 0.5)` is `0.5, 1.5, ..., k - 0.5`. */
  function Column(k: nat): (r: seq<real>)
    ensures |r| == k
    ensures forall j :: 0 <= j < k ==> r[j] == j as real + 0.5
  {
    assert Ceil(k as real + 0.5 - 0.5) == k;
    Arange(0.5, k as real + 0.5)
  }

  /** `np.repeat(centers, counts)`. */
  function Repeat(centers: seq<real>, counts: seq<nat>): (r: seq<real>)
    requires |centers| == |counts|
    ensures |r| == Sum(counts)
  {
    if |counts| == 0 then []
    else
      var m := |counts| - 1;
      Repeat(centers[..m], counts[..m]) + seq(counts[m], _ => centers[m])
  }

  /** `np.concatenate([np.arange(0.5, j + 0.5) for j in counts])`. */
  function Stack(counts: seq<nat>): (r: seq<real>)
    ensures |r| == Sum(counts)
  {
    if |counts| == 0 then []
    else
      var m := |counts| - 1;
      Stack(counts[..m]) + Column(counts[m])
  }

  /** `np.repeat(centers, counts)` paired with the concatenated `arange` columns: one dot per quantile. */
  function Expand(nt: Binned): (d: Dots)
    requires |nt.centers| == |nt.counts|
    ensures |d.xs| == |d.ys| == Sum(nt.counts)
  {
    Dots(Repeat(nt.centers, nt.counts), Stack(nt.counts))
  }

  /** Position of the first dot of bin `i`: the dots of all earlier bins. */
  function Offset(counts: seq<nat>, i: nat): nat
    requires i <= |counts|
  {
    Sum(counts[..i])
  }

  /** Bin `i`'s block ends within the expansion. */
  lemma BlockInRange(counts: seq<nat>, i: nat)
    requires i < |counts|
    ensures Offset(counts, i) + counts[i] <= Sum(counts)
  {
    SumPrefixStep(counts, i);
    SumPrefixBound(counts, i + 1);
  }

  /**
    Bin `i` owns the block of positions `Offset(i) .. Offset(i) + counts[i]`:
    there every x is `centers[i]`, and the `j`-th y is `j + 0.5`.
   */
  lemma {:induction false} ExpandBlock(nt: Binned, i: nat, j: nat)
    requires |nt.centers| == |nt.counts| && i < |nt.counts| && j < nt.counts[i]
    ensures Offset(nt.counts, i) + j < Sum(nt.counts)
    ensures Expand(nt).xs[Offset(nt.counts, i) + j] == nt.centers[i]
    ensures Expand(nt).ys[Offset(nt.counts, i) + j] == j as real + 0.5
    decreases |nt.counts|
  {
    BlockInRange(nt.counts, i);
    var m := |nt.counts| - 1;
    var pre := Binned(nt.centers[..m], nt.counts[..m]);
    var xs, ys := Expand(nt).xs, Expand(nt).ys;
    assert xs == Expand(pre).xs + seq(nt.counts[m], _ => nt.centers[m]);
    assert ys == Expand(pre).ys + Column(nt.counts[m]);
    if i == m {
      assert nt.counts[..i] == pre.counts;
    } else {
      assert pre.counts[..i] == nt.counts[..i];
      ExpandBlock(pre, i, j);
    }
  }

  /** The bin and the stack position of the `k`-th dot of the expansion. */
  function BlockOf(counts: seq<nat>, k: nat): (b: (nat, nat))
    requires k < Sum(counts)
    ensures b.0 < |counts| && b.1 < counts[b.0]
    ensures k == Offset(counts, b.0) + b.1
    decreases |counts|
  {
    var m := |counts| - 1;
    var pre := counts[..m];
    if k < Sum(pre) then
      var b := BlockOf(pre, k);
      assert pre[..b.0] == counts[..b.0];
      b
    else
      (m, k - Sum(pre))
  }

  /** Earlier bins' blocks end before later bins' blocks begin. */
  lemma BlocksOrdered(counts: seq<nat>, i1: nat, i2: nat)
    requires i1 < i2 < |counts|
    ensures Offset(counts, i1) + counts[i1] <= Offset(counts, i2)
  {
    SumPrefixStep(counts, i1);
    SumPrefixBound(counts[..i2], i1 + 1);
    assert counts[..i2][..i1 + 1] == counts[..i1 + 1];
  }

  /** A bin with count zero contributes no dots: the next bin starts where it would. */
  lemma EmptyBinNoDots(counts: seq<nat>, i: nat)
    requires i < |counts| && counts[i] == 0
    ensures Offset(counts, i + 1) == Offset(counts, i)
  {
    SumPrefixStep(counts, i);
  }

  /** With increasing centers the x coordinates come out in non-decreasing order. */
  lemma ExpandSortedX(nt: Binned)
    requires |nt.centers| == |nt.counts| && StrictlyIncreasing(nt.centers)
    ensures Sorted(Expand(nt).xs)
  {
    var xs := Expand(nt).xs;
    forall k1, k2 | 0 <= k1 < k2 < |xs|
      ensures xs[k1] <= xs[k2]
    {
      var (i1, j1) := BlockOf(nt.counts, k1);
      var (i2, j2) := BlockOf(nt.counts, k2);
      ExpandBlock(nt, i1, j1);
      ExpandBlock(nt, i2, j2);
      if i2 < i1 {
        BlocksOrdered(nt.counts, i2, i1);
      }
    }
  }

  /** Every stack height lies in `[0.5, sum(counts))`. */
  lemma StackHeights(nt: Binned)
    requires |nt.centers| == |nt.counts|
    ensures forall k :: 0 <= k < Sum(nt.counts) ==>
      0.5 <= Expand(nt).ys[k] < Sum(nt.counts) as real
  {
    forall k | 0 <= k < Sum(nt.counts)
      ensures 0.5 <= Expand(nt).ys[k] < Sum(nt.counts) as real
    {
      var (i, j) := BlockOf(nt.counts, k);
      ExpandBlock(nt, i, j);
      ElementAtMostSum(nt.counts, i);
    }
  }

  /**
    `ntile_dotplot(data, dots, hist_bins)` up to the scatter call: fails
    exactly when compute_ntiles fails, and otherwise places one dot per
    quantile: the expansion of compute_ntiles' histogram, x in non-decreasing
    order, every y a stack height in `[0.5, dots)`.
   */
  method NtileDotplot(data: seq<real>, dots: int, histBins: HistBins) returns (r: Result<Dots>)
    ensures r.Err? <==> Invalid(dots, histBins, |data|)
    ensures dots < 1 ==> r == Err(DotsNotPositive)
    ensures dots >= 1 && |data| == 0 ==> r == Err(EmptySample)
    ensures dots >= 1 && |data| > 0 && histBins.Fixed? && histBins.n < 1 ==> r == Err(BinsNotPositive)
    ensures r.Ok? ==> |r.value.xs| == |r.value.ys| == dots
    ensures r.Ok? ==>
              && dots >= 1 && |data| > 0
              && exists b :: ChosenBins(Grouped(data, dots), histBins, b)
                               && r.value == Expand(Partition(Grouped(data, dots), b))
    ensures r.Ok? ==> Sorted(r.value.xs)
    ensures r.Ok? ==> forall k :: 0 <= k < dots ==> 0.5 <= r.value.ys[k] < dots as real
  {
    var nt := ComputeNtiles(data, dots, histBins);
    match nt {
      case Err(e) =>
        r := Err(e);
      case Ok(v) =>
        var d := Expand(v);
        var b := |v.counts|;
        assert ChosenBins(Grouped(data, dots), histBins, b)
          && d == Expand(Partition(Grouped(data, dots), b));
        ExpandSortedX(v);
        StackHeights(v);
        r := Ok(d);
    }
  }
}

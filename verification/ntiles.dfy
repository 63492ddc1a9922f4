/**
  `compute_ntiles`: from a sample to (bin centers, bin counts).

  1. `dots` percentile probes `linspace(edge, 100 - edge, dots)` with
     `edge = (100 / dots) / 2`; probe `i` is `100 * (2i + 1) / (2 * dots)`.
  2. The quantile set: the sample's percentile at each probe.
  3. A histogram of the quantile set, with either a fixed bin count or the
     smallest count (searched upward from 1) whose tallest bin plus two
     does not exceed the number of bins.
  4. Edges become centers by adding half the first bin's width.
 */
module Ntiles {
  import opened Seqs
  import opened Spacing
  import opened Percentiles
  import opened Histograms

  /** The `hist_bins` argument: the string "auto" or an integer bin count. */
  datatype HistBins = Auto | Fixed(n: int)

  /** The ways a call fails (the source raises on each). */
  datatype Error =
    | DotsNotPositive   // `100 / dots` divides by zero, or linspace refuses a negative count
    | EmptySample       // percentile of an empty sample
    | BinsNotPositive   // histogram refuses a bin count below one

  datatype Result<T> = Ok(value: T) | Err(error: Error)

  /** The two parallel arrays compute_ntiles returns. */
  datatype Binned = Binned(centers: seq<real>, counts: seq<nat>)

  // ---------------------------------------------------------------------
  // Step 1: the percentile probes
  // ---------------------------------------------------------------------

  function Probes(dots: nat): (r: seq<real>)
    requires dots >= 1
    ensures |r| == dots
  {
    var edge := (100.0 / (dots as real)) / 2.0;
    Linspace(edge, 100.0 - edge, dots)
  }

  /** The closed form of the step: `(100 - 2 * edge) / (dots - 1) == 100 / dots`. */
  lemma ProbeStep(d: real)
    requires d > 1.0
    ensures (100.0 - 2.0 * ((100.0 / d) / 2.0)) / (d - 1.0) == 100.0 / d
  {
    assert 100.0 - 2.0 * ((100.0 / d) / 2.0) == 100.0 * (d - 1.0) / d;
    assert (100.0 * (d - 1.0) / d) / (d - 1.0) == 100.0 / d;
  }

  /** Probe `i` sits at the middle of the `i`-th of `dots` equal slices of [0, 100]. */
  lemma ProbesClosedForm(dots: nat)
    requires dots >= 1
    ensures forall i :: 0 <= i < dots ==>
      Probes(dots)[i] == 100.0 * ((2 * i + 1) as real) / ((2 * dots) as real)
  {
    var d := dots as real;
    var edge := (100.0 / d) / 2.0;
    assert edge == 50.0 / d;
    forall i | 0 <= i < dots
      ensures Probes(dots)[i] == 100.0 * ((2 * i + 1) as real) / ((2 * dots) as real)
    {
      var step := Step(edge, 100.0 - edge, dots);
      assert Probes(dots)[i] == edge + (i as real) * step;
      if dots == 1 {
        assert i == 0;
      } else {
        assert 100.0 - edge - edge == 100.0 - 2.0 * ((100.0 / d) / 2.0);
        ProbeStep(d);
        assert step == 100.0 / d;
        assert (i as real) * (100.0 / d) == 100.0 * (i as real) / d;
        assert 50.0 / d + 100.0 * (i as real) / d == (50.0 + 100.0 * (i as real)) / d;
        assert (50.0 + 100.0 * (i as real)) / d == 100.0 * ((2 * i + 1) as real) / (2.0 * d);
      }
    }
  }

  /** Slices of [0, 100]: a larger numerator over the same positive denominator gives a larger share. */
  lemma ShareOrder(a: real, b: real, d: real)
    requires 0.0 <= a < b && d > 0.0
    ensures 0.0 <= 100.0 * a / d < 100.0 * b / d
  {
    assert 100.0 * b / d - 100.0 * a / d == 100.0 * (b - a) / d;
    PositiveQuotient(100.0 * (b - a), d);
    if a > 0.0 {
      PositiveQuotient(100.0 * a, d);
    }
  }

  /** The probes are strictly increasing and lie strictly between 0 and 100. */
  lemma ProbesInside(dots: nat)
    requires dots >= 1
    ensures StrictlyIncreasing(Probes(dots))
    ensures forall i :: 0 <= i < dots ==> 0.0 < Probes(dots)[i] < 100.0
  {
    ProbesClosedForm(dots);
    var d := (2 * dots) as real;
    forall i | 0 <= i < dots
      ensures 0.0 < Probes(dots)[i] < 100.0
    {
      var a := (2 * i + 1) as real;
      ShareOrder(0.0, a, d);
      ShareOrder(a, d, d);
      assert 100.0 * d / d == 100.0;
    }
    forall i, j | 0 <= i < j < dots
      ensures Probes(dots)[i] < Probes(dots)[j]
    {
      ShareOrder((2 * i + 1) as real, (2 * j + 1) as real, d);
    }
  }

  // ---------------------------------------------------------------------
  // Step 2: the quantile set
  // ---------------------------------------------------------------------

  /** The percentile of `s` at every probe; `Grouped` passes the sorted sample. */
  function Quantiles(s: seq<real>, dots: nat): (r: seq<real>)
    requires |s| > 0 && dots >= 1
    ensures |r| == dots
  {
    var probes := Probes(dots);
    ProbesInside(dots);
    seq(dots, i requires 0 <= i < dots => Percentile(s, probes[i]))
  }

  /** `np.percentile(data, probes)`: numpy partitions the sample (equivalently, reads the sorted sample's order statistics), then interpolates. */
  function Grouped(data: seq<real>, dots: nat): (r: seq<real>)
    requires |data| > 0 && dots >= 1
    ensures |r| == dots
  {
    Quantiles(Sort(data), dots)
  }

  /** The quantile set is ordered and stays within the sample's range. */
  lemma GroupedShape(data: seq<real>, dots: nat)
    requires |data| > 0 && dots >= 1
    ensures Sorted(Grouped(data, dots))
    ensures forall i :: 0 <= i < dots ==> MinOf(data) <= Grouped(data, dots)[i] <= MaxOf(data)
  {
    var s := Sort(data);
    var q := Grouped(data, dots);
    var probes := Probes(dots);
    ProbesInside(dots);
    PermutationKeepsExtrema(data, s);
    SortedFirstIsMin(s);
    SortedLastIsMax(s);
    forall i | 0 <= i < dots
      ensures MinOf(data) <= q[i] <= MaxOf(data)
    {
      PercentileInRange(s, probes[i]);
    }
    forall i, j | 0 <= i < j < dots
      ensures q[i] <= q[j]
    {
      PercentileMonotone(s, probes[i], probes[j]);
    }
  }

  /** The quantile set depends only on the sample's values, not their order. */
  lemma GroupedIgnoresOrder(a: seq<real>, b: seq<real>, dots: nat)
    requires |a| > 0 && dots >= 1 && multiset(a) == multiset(b)
    ensures |b| > 0
    ensures Grouped(a, dots) == Grouped(b, dots)
  {
    assert |a| == |multiset(a)| == |b|;
    SortedUnique(Sort(a), Sort(b));
  }

  // ---------------------------------------------------------------------
  // Steps 3 and 4: histogram and centers
  // ---------------------------------------------------------------------

  /** Left edges shifted right by half of the first bin's width. */
  function Centers(edges: seq<real>): (r: seq<real>)
    requires |edges| >= 2
    ensures |r| == |edges| - 1
  {
    var half := 0.5 * (edges[1] - edges[0]);
    seq(|edges| - 1, i requires 0 <= i < |edges| - 1 => edges[i] + half)
  }

  /** Histogram of `values` with `n` bins, reported as centers and counts. */
  function Partition(values: seq<real>, n: nat): (r: Binned)
    requires |values| > 0 && n >= 1
    ensures |r.centers| == |r.counts| == n
  {
    var h := Hist(values, n);
    Binned(Centers(h.edges), h.counts)
  }

  /**
    Every bin gets its midpoint as center: centers rise in steps of the bin
    width, the counts add up to the number of values, and each count is the
    number of values lying between that bin's edges.
   */
  lemma PartitionShape(values: seq<real>, n: nat)
    requires |values| > 0 && n >= 1
    ensures var p := Partition(values, n); var e := Hist(values, n).edges;
      && Sum(p.counts) == |values|
      && StrictlyIncreasing(p.centers)
      && EquallySpaced(p.centers, Width(values, n))
      && (forall i :: 0 <= i < n ==> p.centers[i] == (e[i] + e[i + 1]) / 2.0)
      && (forall i :: 0 <= i < n ==> p.counts[i] == CountInBin(values, e, i))
  {
    var p := Partition(values, n);
    var e := Hist(values, n).edges;
    var w := Width(values, n);
    HistEdges(values, n);
    HistCountsAreBinMemberships(values, n);
    assert e[1] - e[0] == w;
    forall i | 0 <= i < n
      ensures p.centers[i] == (e[i] + e[i + 1]) / 2.0
    {
      assert e[i + 1] - e[i] == w;
    }
    forall i, j | 0 <= i < j < n
      ensures p.centers[i] < p.centers[j]
    {
    }
  }

  /** A sample whose values all coincide forms one bin centered on that value. */
  lemma ConstantSampleOneBin(values: seq<real>, v: real)
    requires |values| > 0
    requires forall i :: 0 <= i < |values| ==> values[i] == v
    ensures Partition(values, 1) == Binned([v], [|values|])
  {
    assert MinOf(values) == v && MaxOf(values) == v;
    var h := Hist(values, 1);
    HistEdges(values, 1);
    assert h.edges == [v - 0.5, v + 0.5];
    assert h.counts == [|values|] by {
      assert Sum(h.counts) == h.counts[0];
    }
  }

  // ---------------------------------------------------------------------
  // The adaptive bin count
  // ---------------------------------------------------------------------

  /** The auto loop's exit test holds for `b` bins: tallest bin + 2 <= bins. */
  predicate Balanced(values: seq<real>, b: nat)
    requires |values| > 0 && b >= 1
  {
    Max(Hist(values, b).counts) + 2 <= b
  }

  /** Once there are two more bins than values, no bin can be too tall. */
  lemma BalancedBeyondCount(values: seq<real>, b: nat)
    requires |values| > 0 && b >= |values| + 2
    ensures Balanced(values, b)
  {
    MaxAtMostSum(Hist(values, b).counts);
  }

  /** An unbalanced bin count is below two more than the number of values. */
  lemma UnbalancedBelowBound(values: seq<real>, b: nat)
    requires |values| > 0 && b >= 1 && !Balanced(values, b)
    ensures b < |values| + 2
  {
    if b >= |values| + 2 {
      BalancedBeyondCount(values, b);
    }
  }

  /** A balanced histogram has at least three bins, since some bin is non-empty. */
  lemma BalancedNeedsThree(values: seq<real>, b: nat)
    requires |values| > 0 && b >= 1 && Balanced(values, b)
    ensures b >= 3
  {
    PositiveSumHasPositiveMax(Hist(values, b).counts);
  }

  /**
    The `hist_bins == "auto"` loop: start at one bin and add one while the
    tallest bin plus two exceeds the bin count. It stops at the smallest
    balanced bin count, which is between 3 and `|values| + 2`.
   */
  method AutoHistogram(values: seq<real>) returns (h: Histogram)
    requires |values| > 0
    ensures 3 <= |h.counts| <= |values| + 2
    ensures h == Hist(values, |h.counts|)
    ensures Max(h.counts) + 2 <= |h.counts|
    ensures forall b :: 1 <= b < |h.counts| ==> !Balanced(values, b)
  {
    var bins: nat := 1;
    h := Hist(values, bins);
    while Max(h.counts) + 2 > |h.counts|
      invariant 1 <= bins <= |values| + 2
      invariant h == Hist(values, bins)
      invariant forall b :: 1 <= b < bins ==> !Balanced(values, b)
      decreases |values| + 2 - bins
    {
      assert !Balanced(values, bins);
      AutoStep(values, bins);
      bins := bins + 1;
      h := Hist(values, bins);
    }
    AutoExit(values, bins, h);
  }

  /**
    One more round of the auto loop: the current count fails the test, so
    it is below the bound and no count up to it passes.
   */
  lemma AutoStep(values: seq<real>, bins: nat)
    requires |values| > 0 && bins >= 1 && !Balanced(values, bins)
    requires forall b :: 1 <= b < bins ==> !Balanced(values, b)
    ensures bins < |values| + 2
    ensures forall b :: 1 <= b < bins + 1 ==> !Balanced(values, b)
  {
    UnbalancedBelowBound(values, bins);
  }

  /** The auto loop's exit: the current count passes the test and is at least three. */
  lemma AutoExit(values: seq<real>, bins: nat, h: Histogram)
    requires |values| > 0 && bins >= 1 && h == Hist(values, bins)
    requires Max(h.counts) + 2 <= |h.counts|
    ensures Balanced(values, bins) && bins >= 3
  {
    BalancedNeedsThree(values, bins);
  }

  /** When every value lies in bin `i`, that bin counts them all. */
  lemma {:induction false} AllInOneBin(values: seq<real>, edges: seq<real>, i: nat)
    requires i + 1 < |edges|
    requires forall j :: 0 <= j < |values| ==> InBin(edges, i, values[j])
    ensures CountInBin(values, edges, i) == |values|
  {
    if |values| > 0 {
      AllInOneBin(values[..|values| - 1], edges, i);
    }
  }

  /**
    A constant sample piles every value into one bin whatever the bin count,
    so the auto loop only stops at two bins more than there are values.
   */
  lemma ConstantSampleBalance(values: seq<real>, v: real, b: nat)
    requires |values| > 0 && b >= 1
    requires forall j :: 0 <= j < |values| ==> values[j] == v
    ensures Max(Hist(values, b).counts) == |values|
    ensures Balanced(values, b) <==> b >= |values| + 2
  {
    var h := Hist(values, b);
    EachValueInOneBin(values, b, 0);
    var i :| 0 <= i < b && InBin(h.edges, i, values[0]);
    AllInOneBin(values, h.edges, i);
    HistCountsAreBinMemberships(values, b);
    MaxAtMostSum(h.counts);
  }

  /**
    The bin count compute_ntiles settles on for the quantile set `q`: the
    fixed count, or in auto mode the smallest balanced one.
   */
  predicate ChosenBins(q: seq<real>, histBins: HistBins, b: nat)
    requires |q| > 0
  {
    && b >= 1
    && (histBins.Fixed? ==> b == histBins.n)
    && (histBins.Auto? ==> Balanced(q, b) && forall b' :: 1 <= b' < b ==> !Balanced(q, b'))
  }

  /** At most one bin count is chosen, so compute_ntiles is deterministic. */
  lemma ChosenBinsUnique(q: seq<real>, histBins: HistBins, b1: nat, b2: nat)
    requires |q| > 0 && ChosenBins(q, histBins, b1) && ChosenBins(q, histBins, b2)
    ensures b1 == b2
  {
  }

  /** True when the arguments make the source raise. */
  predicate Invalid(dots: int, histBins: HistBins, sampleSize: nat) {
    dots < 1 || sampleSize == 0 || (histBins.Fixed? && histBins.n < 1)
  }

  /**
    `compute_ntiles(data, dots=dots, hist_bins=histBins)`. The failure checks
    come in the order the source reaches them: the division by `dots`, the
    percentile of the sample, then the histogram's bin count.
   */
  method ComputeNtiles(data: seq<real>, dots: int, histBins: HistBins) returns (r: Result<Binned>)
    ensures r.Err? <==> Invalid(dots, histBins, |data|)
    ensures dots < 1 ==> r == Err(DotsNotPositive)
    ensures dots >= 1 && |data| == 0 ==> r == Err(EmptySample)
    ensures dots >= 1 && |data| > 0 && histBins.Fixed? && histBins.n < 1 ==> r == Err(BinsNotPositive)
    ensures r.Ok? ==>
      var q := Grouped(data, dots); var c := r.value.counts; var x := r.value.centers;
      && 1 <= |c| == |x|
      && Sum(c) == dots
      && ChosenBins(q, histBins, |c|)
      && r.value == Partition(q, |c|)
      && StrictlyIncreasing(x)
      && EquallySpaced(x, Width(q, |c|))
      && (histBins.Fixed? ==> |c| == histBins.n)
      && (histBins.Auto? ==>
            3 <= |c| <= dots + 2
            && Max(c) + 2 <= |c|
            && forall b :: 1 <= b < |c| ==> !Balanced(q, b))
  {
    if dots < 1 {
      return Err(DotsNotPositive);
    }
    if |data| == 0 {
      return Err(EmptySample);
    }
    var grouped := Grouped(data, dots);
    var h: Histogram;
    match histBins {
      case Auto =>
        h := AutoHistogram(grouped);
      case Fixed(n) =>
        if n < 1 {
          return Err(BinsNotPositive);
        }
        h := Hist(grouped, n);
    }
    var bins := |h.counts|;
    PartitionShape(grouped, bins);
    r := Ok(Partition(grouped, bins));
  }
}

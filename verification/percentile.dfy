/**
  numpy's `percentile` with its default ('linear') method over exact reals.
  The probe `p` (a percentage) becomes the fractional position
  `h = p/100 * (n - 1)` in the sorted sample; the result interpolates
  linearly between the order statistics at `floor(h)` and `floor(h) + 1`,
  and a position at or past the last index yields the largest value.
 */
module Percentiles {
  import opened Seqs

  /** Linear interpolation at fractional position `h` of a sample `s`. */
  function Interpolate(s: seq<real>, h: real): real
    requires |s| > 0 && h >= 0.0
  {
    var lo := h.Floor;
    if lo >= |s| - 1 then s[|s| - 1]
    else s[lo] + (h - lo as real) * (s[lo + 1] - s[lo])
  }

  /** The `p`-th percentile of the sorted sample `s`, `0 <= p <= 100`. */
  function Percentile(s: seq<real>, p: real): real
    requires |s| > 0 && 0.0 <= p <= 100.0
  {
    Interpolate(s, Position(|s|, p))
  }

  /** numpy's virtual index `(n - 1) * p / 100`. */
  function Position(n: nat, p: real): (h: real)
    requires n > 0 && 0.0 <= p <= 100.0
    ensures 0.0 <= h <= (n - 1) as real
  {
    var t, d := p / 100.0, (n - 1) as real;
    FractionBelow(t, d);
    t * d
  }

  lemma FractionBelow(t: real, d: real)
    requires 0.0 <= t <= 1.0 && d >= 0.0
    ensures 0.0 <= t * d <= d
  {
    assert d - t * d == (1.0 - t) * d;
  }

  /** Between two grid points the interpolant stays between their values. */
  lemma InterpolateBetween(s: seq<real>, h: real)
    requires Sorted(s) && |s| > 0 && h >= 0.0
    requires h.Floor < |s| - 1
    ensures s[h.Floor] <= Interpolate(s, h) <= s[h.Floor + 1]
  {
    var lo := h.Floor;
    var t, d := h - lo as real, s[lo + 1] - s[lo];
    FractionBelow(t, d);
    assert Interpolate(s, h) == s[lo] + t * d;
  }

  /** At a grid point the interpolant is exactly that order statistic. */
  lemma InterpolateAtIndex(s: seq<real>, k: nat)
    requires |s| > 0 && k < |s|
    ensures Interpolate(s, k as real) == s[k]
  {
    assert (k as real).Floor == k;
  }

  /** The interpolant never leaves the sample's range. */
  lemma InterpolateInRange(s: seq<real>, h: real)
    requires Sorted(s) && |s| > 0 && h >= 0.0
    ensures s[0] <= Interpolate(s, h) <= s[|s| - 1]
  {
    if h.Floor < |s| - 1 {
      InterpolateBetween(s, h);
    }
  }

  /** A later position never gives a smaller value. */
  lemma InterpolateMonotone(s: seq<real>, h1: real, h2: real)
    requires Sorted(s) && |s| > 0 && 0.0 <= h1 <= h2
    ensures Interpolate(s, h1) <= Interpolate(s, h2)
  {
    var n := |s|;
    var lo1, lo2 := h1.Floor, h2.Floor;
    assert lo1 <= lo2;
    if lo2 >= n - 1 {
      InterpolateInRange(s, h1);
    } else if lo1 < lo2 {
      InterpolateBetween(s, h1);
      InterpolateBetween(s, h2);
      assert s[lo1 + 1] <= s[lo2];
    } else {
      var d := s[lo1 + 1] - s[lo1];
      assert d >= 0.0;
      assert (h2 - lo2 as real) * d - (h1 - lo1 as real) * d == (h2 - h1) * d;
      FractionBelow(1.0, d);
      assert (h2 - h1) * d >= 0.0 by {
        if h2 - h1 > 0.0 && d > 0.0 {
          assert (h2 - h1) * d > 0.0;
        }
      }
    }
  }

  /** Every percentile of a sorted sample lies within its minimum and maximum. */
  lemma PercentileInRange(s: seq<real>, p: real)
    requires Sorted(s) && |s| > 0 && 0.0 <= p <= 100.0
    ensures s[0] <= Percentile(s, p) <= s[|s| - 1]
  {
    InterpolateInRange(s, Position(|s|, p));
  }

  /** Percentiles are non-decreasing in the probe. */
  lemma PercentileMonotone(s: seq<real>, p1: real, p2: real)
    requires Sorted(s) && |s| > 0 && 0.0 <= p1 <= p2 <= 100.0
    ensures Percentile(s, p1) <= Percentile(s, p2)
  {
    var d := (|s| - 1) as real;
    assert p2 / 100.0 * d - p1 / 100.0 * d == (p2 - p1) / 100.0 * d;
    FractionBelow((p2 - p1) / 100.0, d);
    InterpolateMonotone(s, Position(|s|, p1), Position(|s|, p2));
  }

  /**
    The 0th and 100th percentiles are the first and last order statistics;
    on a sorted sample, its minimum and maximum.
   */
  lemma PercentileEndpoints(s: seq<real>)
    requires |s| > 0
    ensures Percentile(s, 0.0) == s[0]
    ensures Percentile(s, 100.0) == s[|s| - 1]
    ensures Sorted(s) ==> Percentile(s, 0.0) == MinOf(s) && Percentile(s, 100.0) == MaxOf(s)
  {
    InterpolateAtIndex(s, 0);
    InterpolateAtIndex(s, |s| - 1);
    if Sorted(s) {
      SortedFirstIsMin(s);
      SortedLastIsMax(s);
    }
  }
}

/**
  numpy's `linspace(start, stop, num, endpoint=True)` over exact reals:
  `num` evenly spaced values from `start` to `stop`, both included. With
  `num == 1` the single value is `start`. It supplies both the percentile
  probes of compute_ntiles and the bin edges of the histogram.
 */
module Spacing {
  import opened Seqs

  /** The gap between consecutive values; zero when there is only one value. */
  function Step(start: real, stop: real, num: nat): real {
    if num <= 1 then 0.0 else (stop - start) / ((num - 1) as real)
  }

  function Linspace(start: real, stop: real, num: nat): (r: seq<real>)
    ensures |r| == num
  {
    seq(num, i => start + (i as real) * Step(start, stop, num))
  }

  /** The values run from `start` to `stop` inclusive in equal steps. */
  lemma LinspaceShape(start: real, stop: real, num: nat)
    ensures num >= 1 ==> Linspace(start, stop, num)[0] == start
    ensures num >= 2 ==> Linspace(start, stop, num)[num - 1] == stop
    ensures EquallySpaced(Linspace(start, stop, num), Step(start, stop, num))
  {
    var step := Step(start, stop, num);
    var r := Linspace(start, stop, num);
    forall i | 0 <= i < num - 1
      ensures r[i + 1] - r[i] == step
    {
      MulSucc(i as real, step);
    }
    if num >= 2 {
      DivCancel(stop - start, (num - 1) as real);
    }
  }

  lemma MulSucc(a: real, b: real)
    ensures (a + 1.0) * b == a * b + b
  {
  }

  lemma DivCancel(a: real, d: real)
    requires d != 0.0
    ensures d * (a / d) == a
  {
  }

  lemma MulPositive(a: real, b: real)
    requires a > 0.0 && b > 0.0
    ensures a * b > 0.0
  {
  }

  /** Increasing endpoints give strictly increasing values. */
  lemma LinspaceIncreasing(start: real, stop: real, num: nat)
    requires start < stop
    ensures Step(start, stop, num) >= 0.0
    ensures num >= 2 ==> Step(start, stop, num) > 0.0
    ensures StrictlyIncreasing(Linspace(start, stop, num))
  {
    var r := Linspace(start, stop, num);
    var step := Step(start, stop, num);
    if num >= 2 {
      PositiveStep(start, stop, num);
    }
    forall i, j | 0 <= i < j < |r|
      ensures r[i] < r[j]
    {
      LinspaceAt(start, stop, num, i);
      LinspaceAt(start, stop, num, j);
      ScaledGap(i as real, j as real, step);
    }
  }

  /** Value `i` of the spacing is `start` plus `i` steps. */
  lemma LinspaceAt(start: real, stop: real, num: nat, i: nat)
    requires i < num
    ensures Linspace(start, stop, num)[i] == start + (i as real) * Step(start, stop, num)
  {
  }

  lemma PositiveStep(start: real, stop: real, num: nat)
    requires start < stop && num >= 2
    ensures Step(start, stop, num) > 0.0
  {
    var d := (num - 1) as real;
    assert d > 0.0;
    assert (stop - start) / d > 0.0;
  }

  /** A larger multiple of a positive step is larger. */
  lemma ScaledGap(a: real, b: real, step: real)
    requires a < b && step > 0.0
    ensures a * step < b * step
  {
    assert b * step - a * step == (b - a) * step;
    MulPositive(b - a, step);
  }
}

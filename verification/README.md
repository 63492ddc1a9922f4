# Quantile dotplot geometry, modelled in Dafny

This project models the computational core of a quantile-dotplot library:
`compute_ntiles`, which turns a sample into a histogram of its evenly spaced
quantiles, and the geometry part of `ntile_dotplot`, which turns that
histogram into one (x, y) dot per quantile. Everything is a pure function
over `seq<real>` / `seq<nat>`, except three methods: the adaptive bin-count
loop and the two entry points built on it.

Modules, in the order of the data flow:

- `Seqs` (seqs.dfy): sums, maxima and minima, sortedness, and the insertion
  sort that stands for numpy's partition before percentile interpolation
  (equivalently, indexing the sorted sample).
- `Spacing` (spacing.dfy): numpy `linspace` with `endpoint=True`. It supplies
  both the percentile probes and the histogram edges.
- `Percentiles` (percentile.dfy): numpy `percentile` with the default linear
  method. The probe becomes the fractional position `(n-1)·p/100` in the
  sorted sample. The result interpolates between the two order statistics
  around that position. At or beyond the last index it is the maximum.
- `Histograms` (histogram.dfy): numpy `histogram` with an integer bin count.
  The range is the data's own min..max, widened by 0.5 on each side when
  min == max. A value's bin index is `trunc((v-first)/(last-first)·n)`, and
  the index `n` is clamped to `n-1`. Values are then tallied one at a time.
- `Ntiles` (ntiles.dfy): `compute_ntiles`. It covers the probes, the quantile
  set, fixed and `"auto"` bin counts, the edges-to-centers shift, and the
  error cases as a `Result`.
- `Dotplot` (dotplot.dfy): `np.repeat(centers, counts)` and
  `np.concatenate([np.arange(0.5, j+0.5) for j in counts])`, plus
  `NtileDotplot`, which composes them with `ComputeNtiles`.

Floats are modelled as exact `real`s. The error cases are the ones where the
source raises an exception: `dots < 1`, an empty sample, and a fixed bin
count below 1. They are returned as `Err(...)` in the order the source
reaches them. Inner functions take the matching preconditions instead.

Behaviour worth knowing, as the code has it:

- A constant sample never produces a zero-width bin. numpy widens the range
  to `[v-0.5, v+0.5]` (`Histograms.OuterEdges`), so no fallback width is
  needed.
- The auto search has no iteration cap, and it is not bounded by `dots`. It
  can reach `dots + 2` bins, and it does so for every constant sample
  (`Ntiles.ConstantSampleBalance`). The proved bound is
  `3 <= bins <= dots + 2`.
- Invalid arguments do not raise one common error. The code raises a
  division by zero, a `linspace` or `histogram` ValueError, or a percentile
  IndexError. The model keeps one error constructor per cause.

## Model

| member | source | states |
|---|---|---|
| `Spacing.Linspace` | dotplot.py:30 | `np.linspace(start, stop, num)` has exactly `num` values; its shape is stated by `Spacing.LinspaceShape` |
| `Spacing.LinspaceShape` | dotplot.py:30 | `linspace(start, stop, num)` starts at `start`, ends exactly at `stop` when `num >= 2`, and consecutive values differ by one fixed step |
| `Spacing.LinspaceIncreasing` | dotplot.py:30 | with `start < stop` the step is positive and the values strictly increase |
| `Ntiles.Probes` | dotplot.py:28-30 | there are exactly `dots` percentile probes |
| `Ntiles.ProbesClosedForm` | dotplot.py:28-30 | probe `i` equals `100·(2i+1)/(2·dots)`, the midpoint of the `i`-th of `dots` equal slices of [0, 100], for `dots = 1` as well |
| `Ntiles.ProbesInside` | dotplot.py:28-30 | the probes strictly increase and lie strictly between 0 and 100, so the 0th and 100th percentiles are never probed |
| `Seqs.Sort` | dotplot.py:29-31 | the sample percentile works on a sorted permutation of the sample (same multiset, same length) |
| `Seqs.SortedUnique` | dotplot.py:29-31 | a sorted permutation is unique, so the sort's particular algorithm does not matter |
| `Percentiles.Interpolate` | dotplot.py:29-31 | the linear-method interpolation between the order statistics at `floor(h)` and `floor(h)+1`, the last one at or past the final index; its range and monotonicity are stated by `Percentiles.InterpolateBetween`, `Percentiles.InterpolateInRange` and `Percentiles.InterpolateMonotone` |
| `Percentiles.Percentile` | dotplot.py:29-31 | `np.percentile` of a sorted sample at one probe: interpolation at the position `(n-1)·p/100`; its properties are stated by `Percentiles.PercentileInRange`, `Percentiles.PercentileMonotone` and `Percentiles.PercentileEndpoints` |
| `Percentiles.Position` | dotplot.py:29-31 | the interpolation position `(n-1)·p/100` of a probe in [0, 100] lies within the sample's index range |
| `Percentiles.InterpolateAtIndex` | dotplot.py:29-31 | at an integer position `k` the interpolation returns exactly the order statistic `s[k]` |
| `Percentiles.InterpolateBetween` | dotplot.py:29-31 | between two grid positions the interpolated value lies between the two neighbouring order statistics |
| `Percentiles.InterpolateMonotone` | dotplot.py:29-31 | a later position never gives a smaller value |
| `Percentiles.PercentileInRange` | dotplot.py:29-31 | every percentile of a sorted sample lies within its minimum and maximum |
| `Percentiles.PercentileMonotone` | dotplot.py:29-31 | percentiles are non-decreasing in the probe |
| `Percentiles.PercentileEndpoints` | dotplot.py:29-31 | the 0th and 100th percentiles are the first and last order statistics, which on a sorted sample are its minimum and maximum |
| `Ntiles.Quantiles` | dotplot.py:29-31 | the quantile set has exactly one value per probe |
| `Ntiles.Grouped` | dotplot.py:29-31 | the quantile set `grouped`: the percentiles of the sorted sample at the `dots` probes, one value per probe |
| `Ntiles.GroupedShape` | dotplot.py:29-31 | the quantile set is non-decreasing, and every value lies in [min(sample), max(sample)] |
| `Ntiles.GroupedIgnoresOrder` | dotplot.py:27-31 | two samples with the same values in any order give the same quantile set |
| `Seqs.MinOf` | dotplot.py:39 | the histogram's lower range end is a sample value that no value undercuts |
| `Seqs.MaxOf` | dotplot.py:39 | the histogram's upper range end is a sample value that no value exceeds |
| `Histograms.OuterEdges` | dotplot.py:39 | the histogram range has positive width and contains every value; it is `(min, max)` of the data when they differ, and `(v - 0.5, v + 0.5)` when every value is `v` |
| `Histograms.InBin` | dotplot.py:39 | numpy's documented bin membership: bin `i` holds `edges[i] <= v < edges[i+1]`, and the last bin also holds its right edge |
| `Histograms.CountInBin` | dotplot.py:39 | the number of values in bin `i` under that membership, the reference the tally is proved equal to |
| `Histograms.BinIndex` | dotplot.py:39 | the truncated, clamped index of a value in range is a valid bin |
| `Histograms.TruncatedPosition` | dotplot.py:39 | below the top edge, the truncated position `k` of an offset `x` satisfies `k·w <= x < (k+1)·w` for the bin width `w` |
| `Histograms.TopValueInLastBin` | dotplot.py:39 | the maximum of the range gets index `n` before clamping, lands in the last bin, and that bin is closed on the right |
| `Histograms.InnerValueInBin` | dotplot.py:39 | a value below the top of the range lies between the two edges around its truncated position |
| `Histograms.BinIndexInBin` | dotplot.py:39 | the computed index names a bin whose edges enclose the value: half-open, with the last bin closed on the right |
| `Histograms.BinsDisjoint` | dotplot.py:39 | no value lies in two different bins |
| `Histograms.BinIndexIsBin` | dotplot.py:39 | for a value in range, the computed index is `i` if and only if the value lies between edges `i` and `i+1` |
| `Histograms.Tally` | dotplot.py:39 | the tally has one count per bin, and when every value is in range the counts sum to the number of values |
| `Histograms.TallyCountsBin` | dotplot.py:39 | the tally of bin `i` equals the number of values lying between that bin's edges |
| `Histograms.Hist` | dotplot.py:39 | `n` bins give `n` counts and `n+1` edges, and the counts sum to the number of values |
| `Histograms.HistCountsAreBinMemberships` | dotplot.py:39 | every histogram count is the number of values between its bin's edges |
| `Histograms.EachValueInOneBin` | dotplot.py:39 | every value lies in exactly one bin |
| `Histograms.HistEdges` | dotplot.py:39 | the edges strictly increase in equal steps of the bin width, from the range's lower end to its upper end, and enclose every value |
| `Histograms.Width` | dotplot.py:40 | the bin width is positive, including for a constant sample |
| `Ntiles.Centers` | dotplot.py:40-41 | dropping the last edge leaves one center per bin |
| `Ntiles.Partition` | dotplot.py:39-41 | a histogram reported as centers and counts has one center per count, `n` of each |
| `Ntiles.PartitionShape` | dotplot.py:39-41 | each center is its bin's midpoint; centers strictly increase with uniform spacing equal to the bin width; each count is the number of values in its bin; counts sum to the number of values |
| `Ntiles.ConstantSampleOneBin` | dotplot.py:39-41 | a constant sample with one bin gives the single center `v` and the single count equal to the sample size |
| `Seqs.Max` | dotplot.py:35 | `counts.max()` is one of the counts and no count exceeds it |
| `Seqs.MaxAtMostSum` | dotplot.py:35 | the tallest bin holds at most all the dots |
| `Seqs.PositiveSumHasPositiveMax` | dotplot.py:35 | with at least one dot, the tallest bin holds at least one |
| `Ntiles.Balanced` | dotplot.py:35 | the loop's exit test for `b` bins: the tallest bin of the `b`-bin histogram plus two does not exceed `b` |
| `Ntiles.BalancedBeyondCount` | dotplot.py:35-37 | with two more bins than values, the loop's exit test always holds, which bounds the search |
| `Ntiles.UnbalancedBelowBound` | dotplot.py:35-37 | a bin count that fails the exit test is below `dots + 2`, so the loop's `bins += 1` stays within that bound |
| `Ntiles.BalancedNeedsThree` | dotplot.py:35 | the exit test can only hold with at least three bins |
| `Ntiles.AutoHistogram` | dotplot.py:32-37 | the auto loop terminates; the chosen bin count passes the exit test `max(counts)+2 <= len(counts)`, every smaller count fails it, and it lies in `3..dots+2` |
| `Ntiles.AutoStep` | dotplot.py:35-37 | a round of the loop runs only on a count that fails the exit test; that count is below `dots + 2`, and no count up to it passes |
| `Ntiles.AutoExit` | dotplot.py:35 | when the loop stops, the current count passes the exit test and is at least 3 |
| `Ntiles.AllInOneBin` | dotplot.py:39 | if every value lies in one bin, that bin's count is the number of values |
| `Ntiles.ConstantSampleBalance` | dotplot.py:32-37 | for a constant sample the tallest bin holds every value for any bin count, so the exit test holds exactly from `dots+2` bins on |
| `Ntiles.ChosenBins` | dotplot.py:32-39 | the bin count compute_ntiles uses: a fixed `n`, or for `"auto"` the least count that passes the exit test |
| `Ntiles.ChosenBinsUnique` | dotplot.py:32-39 | at most one bin count meets the selection rule, fixed or auto, so the result is determined by the inputs |
| `Ntiles.Invalid` | dotplot.py:27-39 | the inputs on which compute_ntiles raises: `dots < 1`, an empty sample, or a fixed bin count below 1 |
| `Ntiles.ComputeNtiles` | dotplot.py:27-42 | fails exactly for `dots < 1`, an empty sample, or a fixed bin count below 1, in that order. Otherwise it returns the histogram of the quantile set as centers and counts: counts sum to `dots`; centers strictly increase in steps of the bin width; a fixed `n` gives `n` bins; auto gives the smallest count that passes the exit test, between 3 and `dots+2` |
| `Dotplot.Ceil` | dotplot.py:68 | the ceiling is the least integer at or above its argument |
| `Dotplot.Arange` | dotplot.py:68 | `arange(start, stop)` has `ceil(stop-start)` values, or none when that is not positive |
| `Dotplot.Column` | dotplot.py:68 | `arange(0.5, k+0.5)` has exactly `k` values, and the `j`-th is `j + 0.5` |
| `Dotplot.Repeat` | dotplot.py:67 | the repeated centers number `sum(counts)` |
| `Dotplot.Stack` | dotplot.py:68 | the concatenated columns number `sum(counts)` |
| `Dotplot.Expand` | dotplot.py:66-68 | x and y sequences both have length `sum(counts)` |
| `Dotplot.BlockInRange` | dotplot.py:67-68 | bin `i`'s block of dots ends within the expansion |
| `Dotplot.ExpandBlock` | dotplot.py:67-68 | at position `offset(i) + j` of bin `i`'s block, x is `centers[i]` and y is `j + 0.5`, so within a block y starts at 0.5 and rises by 1 |
| `Dotplot.BlockOf` | dotplot.py:67-68 | every dot of the expansion belongs to some bin's block at some stack position, so the blocks cover the expansion in bin order |
| `Dotplot.BlocksOrdered` | dotplot.py:67-68 | an earlier bin's block ends before a later bin's block begins |
| `Dotplot.EmptyBinNoDots` | dotplot.py:68 | a bin with count zero contributes no dots |
| `Dotplot.ExpandSortedX` | dotplot.py:67 | with strictly increasing centers, the x coordinates come out non-decreasing |
| `Dotplot.StackHeights` | dotplot.py:68 | every y coordinate lies in `[0.5, sum(counts))` |
| `Dotplot.NtileDotplot` | dotplot.py:66-68 | fails exactly when `compute_ntiles` fails. Otherwise the dots are the expansion of the histogram of the quantile set with the bin count `compute_ntiles` chooses: `dots` x values and `dots` y values, x non-decreasing, every y in `[0.5, dots)` |

## Left out

- visualizations.py: figure and slider setup, widget callbacks, random draws, density plots and colour maps. These are presentation glue with no algorithmic content.
- dotplot.py:70-78: axis lookup, keyword defaults and the `scatter` call. This is rendering only.
- Floating-point rounding: all arithmetic is over exact reals. numpy's post-hoc correction of bin indices against the edges repairs float rounding only. Over reals it never changes an index, which `Histograms.BinIndexIsBin` proves.
- `data.ravel()`: the sample is taken as an already flat sequence.
- NaN and ±inf sample values cannot be represented as a `real`. A NaN sample value makes the percentiles NaN, and numpy's histogram rejects them. An infinite sample value reaches the histogram only when a probe's interpolation touches that order statistic, and then the histogram raises. Otherwise `compute_ntiles` returns normally.
- `hist_bins` values other than `"auto"` and an integer are not modelled. This covers numpy's other bin-estimator strings and explicit edge arrays.
- A non-integer `dots` is not modelled.
- The default arguments `dots=20, hist_bins="auto"` of `ntile_dotplot` are not modelled. A call that omits them is `NtileDotplot(data, 20, Auto)`. The caller at visualizations.py:48 relies on the `hist_bins` default.
- numpy's partition (equivalently, indexing the sorted sample) is replaced by an insertion sort. `Seqs.SortedUnique` shows that any correct sort gives the same order statistics.

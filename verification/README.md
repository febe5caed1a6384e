# Balanced energy ratio, modelled in Dafny

This project models the statistical engine of FLORIS's energy-ratio tool. The
engine compares the power of a *test* turbine with the power of an unaffected
*reference* turbine under two regimes, *baseline* and *controlled*, one
wind-direction bin at a time.

- `energy_ratio` (module `EnergyRatio`) works on one bin:
  - it intersects the integer wind-speed buckets seen in the two regimes;
  - it masks both regimes down to the shared buckets;
  - it weights every row of one regime by the *other* regime's share of that
    row's bucket;
  - it returns the two weighted test/reference ratios, their difference, the
    percent change and four sample counts;
  - when no bucket is shared it returns eight NaNs.
- The bootstrap helpers (also in `EnergyRatio`):
  - the iteration-count heuristic `round(clamp(n log10 n, 2000, 10000))`;
  - the percentile pair `[50 + c/2, 50 - c/2]` of a confidence level;
  - simple-percentile and reflected bounds.
- `calculate_balanced_energy_ratio` (module `BalancedEnergyRatio`) is the
  imperative driver. It is modelled as a method over arrays:
  - it preallocates the sixteen NaN output arrays;
  - for every bin it selects each regime's samples in the half-open window
    `[c - r, c + r)`;
  - it skips a bin where either regime is empty;
  - it truncates speeds to integer buckets and stores the point estimate;
  - it resolves the bootstrap iteration count once, from the first bin that is
    not skipped, unless the caller gave it;
  - it runs the bootstrap loop, which fills four arrays in place;
  - it stores the simple-percentile bounds.

The numpy operations the engine is built from are modelled concretely in module
`Numpy`:

- boolean-mask indexing and `np.isin`;
- `np.unique` (strictly increasing) and `np.intersect1d`;
- fancy gather and fancy assignment;
- `np.sum` of a product;
- `np.round` (ties to even) and `astype(int)` (truncation toward zero);
- `np.percentile` with its default linear interpolation.

A float that is NaN or infinite is `None` in `Num = Option<real>`.

Each operation is tied to an independent definition:

- The driver's `ensures` ties each of the sixteen arrays to a functional
  definition, `Column`, built from `BinOutcome`. The driver lemmas then state
  what those columns hold.
- `EnergyRatio` is tied to an independent definition written directly on the
  un-masked samples: `BalancedSum` weights a row by `Share`, the other
  regime's fraction of the row's bucket (`RatiosAreBalanced`).
- The lookup tables are tied to the per-bucket weight formula
  (`BucketWeights`).

## Model

| member | source | states |
|---|---|---|
| Numpy.Div | floris/tools/energy_ratio.py:129-130 | float division is defined exactly when the denominator is nonzero, and then the quotient times the denominator is the numerator |
| Numpy.Sub | floris/tools/energy_ratio.py:131 | the difference is NaN exactly when either side is, and otherwise adds back to the left side |
| Numpy.PercentOf | floris/tools/energy_ratio.py:132 | `100 * d / b` is defined exactly when both are defined and `b` is nonzero, and then times `b` it gives `100 * d` |
| Numpy.Trunc | floris/tools/energy_ratio.py:283-286 | `astype(int)` truncates toward zero: a non-negative speed lands in the bucket whose unit interval contains it |
| Numpy.RoundHalfEven | floris/tools/energy_ratio.py:35 | `np.round` is within one half of its argument and, on a tie, picks the even integer |
| Numpy.RoundHalfEvenMonotone | floris/tools/energy_ratio.py:35 | `np.round` never decreases when its argument grows |
| Numpy.CountTrue | floris/tools/energy_ratio.py:280 | the number of set bits of a direction mask is at most the mask's length |
| Numpy.CountTrueZero | floris/tools/energy_ratio.py:280 | a direction mask selects no sample exactly when none of its bits is set, which is the skip test |
| Numpy.Mask | floris/tools/energy_ratio.py:99-104 | boolean-mask indexing keeps as many entries as bits are set, and only entries of the input |
| Numpy.Selected | floris/tools/energy_ratio.py:99-104 | the positions a boolean mask selects: as many as its set bits, strictly increasing, each a set bit, and missing no set bit |
| Numpy.MaskIsTake | floris/tools/energy_ratio.py:99-104 | boolean-mask indexing is fancy indexing at the selected positions, so columns masked by one mask stay row-aligned |
| Numpy.GatherStep | floris/tools/energy_ratio.py:99-104 | gathering through one more leading position keeps entry `k` equal to the input at position `k` |
| Numpy.MaskMember | floris/tools/energy_ratio.py:99-104 | a value survives the mask exactly when a selected position holds it |
| Numpy.KeptByIsIn | floris/tools/energy_ratio.py:97-104 | masking by `np.isin(xs, test)` keeps exactly the values of `xs` that are also in `test` |
| Numpy.IsIn | floris/tools/energy_ratio.py:97-98 | `np.isin` has one bit per entry, set exactly when the entry occurs in the test values |
| Numpy.Take | floris/tools/energy_ratio.py:117 | fancy indexing `a[idx]` has one entry per index, entry `k` being `a[idx[k]]` |
| Numpy.Zeros | floris/tools/energy_ratio.py:115 | `np.zeros(n)` has length `n` and holds only zeros |
| Numpy.Scatter | floris/tools/energy_ratio.py:116 | fancy assignment leaves positions not indexed unchanged and, for strictly increasing indices, puts each value at its index |
| Numpy.Insert | floris/tools/energy_ratio.py:89-90 | inserting into a strictly increasing sequence keeps it strictly increasing and adds exactly the new value |
| Numpy.Unique | floris/tools/energy_ratio.py:89-90 | `np.unique` is strictly increasing and holds exactly the values of its input |
| Numpy.IncreasingWithSameElementsEqual | floris/tools/energy_ratio.py:106-107 | two strictly increasing sequences with the same values are equal, so the sorted-distinct form of a column is unique |
| Numpy.HeadIsLeast | floris/tools/energy_ratio.py:89-90 | the head of a strictly increasing sequence is its least value, and the tail holds exactly the others |
| Numpy.Intersect1d | floris/tools/energy_ratio.py:91 | `np.intersect1d` is strictly increasing and holds exactly the values found in both inputs |
| Numpy.Count | floris/tools/energy_ratio.py:106-107 | the number of occurrences of a bucket is at most the number of rows |
| Numpy.CountsOf | floris/tools/energy_ratio.py:106-107 | the `return_counts` array has one entry per unique value: how often it occurs |
| Numpy.CountPositive | floris/tools/energy_ratio.py:106-107 | a value's count is positive exactly when the value occurs |
| Numpy.Dot | floris/tools/energy_ratio.py:123-126 | `np.sum(power * weights)`: the sum over rows of each value times its weight; what it adds up is stated by `EnergyRatio.MaskedDotIsBalancedSum` |
| Numpy.MaskedGatherDotHead | floris/tools/energy_ratio.py:123-126 | the weighted sum over the masked rows adds the head row's product exactly when its mask bit is set |
| Numpy.InsertSorted | floris/tools/energy_ratio.py:40 | inserting into a sorted sequence keeps it sorted and adds exactly one copy of the value |
| Numpy.Sort | floris/tools/energy_ratio.py:40 | the sorted copy `np.percentile` interpolates in is sorted and a permutation of the data |
| Numpy.Min | floris/tools/energy_ratio.py:40 | the least value of the bootstrap data is one of them and at most every one |
| Numpy.Max | floris/tools/energy_ratio.py:40 | the greatest value of the bootstrap data is one of them and at least every one |
| Numpy.Rank | floris/tools/energy_ratio.py:40 | the fractional rank of a percentile in [0, 100] lies between the first and the last position |
| Numpy.RankMonotone | floris/tools/energy_ratio.py:40 | a higher percentile has a rank that is not lower |
| Numpy.Interpolate | floris/tools/energy_ratio.py:40 | linear interpolation lies between the two neighbouring order statistics |
| Numpy.InterpolateMonotone | floris/tools/energy_ratio.py:40 | a higher rank never interpolates to a smaller value |
| Numpy.Percentile | floris/tools/energy_ratio.py:40 | a percentile of finite data lies between its minimum and its maximum |
| Numpy.PercentileMonotone | floris/tools/energy_ratio.py:40 | a higher percentile of the same data is never smaller |
| Numpy.NanPercentile | floris/tools/energy_ratio.py:40 | the percentile is NaN exactly when some bootstrap value is NaN, and otherwise lies between the least and the greatest bootstrap value |
| Numpy.Values | floris/tools/energy_ratio.py:40 | NaN-free data read as reals, entry by entry |
| EnergyRatio.Samples.Keep | floris/tools/energy_ratio.py:99-104 | one mask is applied to the reference power, the test power and the speeds alike, keeping them parallel |
| EnergyRatio.SharedBuckets | floris/tools/energy_ratio.py:89-91 | `ws_unique` is strictly increasing and holds exactly the buckets seen in both regimes |
| EnergyRatio.MaskedBucketsAreShared | floris/tools/energy_ratio.py:96-107 | after the `np.isin` mask every kept bucket is shared, and the distinct kept buckets of either regime are exactly `ws_unique` |
| EnergyRatio.AlignedCounts | floris/tools/energy_ratio.py:106-107 | both count arrays line up index by index with `ws_unique`, each count being the bucket's positive number of kept rows |
| EnergyRatio.SharedBucketsNonNegative | floris/tools/energy_ratio.py:115-119 | when a bucket is shared, `ws_unique` is non-empty and non-negative, so `np.max(ws_unique) + 1` sizes a valid lookup table |
| EnergyRatio.LookupsInRange | floris/tools/energy_ratio.py:117-120 | every kept speed indexes the lookup table |
| EnergyRatio.Fraction | floris/tools/energy_ratio.py:111-112 | a weight `counts_other / (counts_own + counts_other)` times the total is `counts_other`; it lies in [0, 1], strictly inside when both counts are positive |
| EnergyRatio.FractionsComplement | floris/tools/energy_ratio.py:108-112 | the two regimes' weights of one bucket sum to 1, and equal counts give each 1/2 |
| EnergyRatio.Weights | floris/tools/energy_ratio.py:111-112 | the weight array has one weight per bucket, the other regime's fraction of that bucket's rows |
| EnergyRatio.LookupTable | floris/tools/energy_ratio.py:115-119 | the table built by fancy assignment has an entry for every shared bucket, holding that bucket's weight |
| EnergyRatio.Table | floris/tools/energy_ratio.py:106-119 | one regime's table holds, at every shared bucket, its weight computed from the two regimes' counts, both positive |
| EnergyRatio.Balance | floris/tools/energy_ratio.py:96-120 | masking and weighting give `ws_unique`, the two masked regimes and two tables that every masked speed indexes |
| EnergyRatio.BalanceWeights | floris/tools/energy_ratio.py:106-120 | at every shared bucket the baseline table holds `counts_con / total` and the controlled table `counts_base / total`, both counts positive |
| EnergyRatio.EnergyRatio | floris/tools/energy_ratio.py:51-140 | eight NaNs exactly when no bucket is shared; otherwise the counts are the shared-bucket rows of each regime (at most its length), `counts_diff == counts_pchange` is their minimum, `diff = ratio_con - ratio_base` and `p_change = 100 diff / ratio_base` |
| EnergyRatio.SharedRowsAreKept | floris/tools/energy_ratio.py:96-104 | masking by `ws_unique` is the same mask as membership in the other regime's buckets, and keeps the shared-bucket rows |
| EnergyRatio.SharedRowsCount | floris/tools/energy_ratio.py:135-136 | the number of kept rows is the number of rows whose bucket the other regime saw |
| EnergyRatio.MaskedCount | floris/tools/energy_ratio.py:106-107 | masking keeps every row of a shared bucket, so the count taken after masking equals the count before it |
| EnergyRatio.BucketWeights | floris/tools/energy_ratio.py:106-120 | for every shared bucket the tables hold each regime's `Share`; both shares lie strictly in (0, 1), sum to 1, and are 1/2 for equal counts |
| EnergyRatio.MaskedInRange | floris/tools/energy_ratio.py:117-120 | every masked speed indexes a table covering the shared buckets |
| EnergyRatio.MaskedDotIsBalancedSum | floris/tools/energy_ratio.py:117-126 | the weighted sum over the masked rows with looked-up weights equals `BalancedSum` over all rows |
| EnergyRatio.MaskedDotStep | floris/tools/energy_ratio.py:123-126 | one row of that induction: a row with a shared bucket adds its power times its `Share`, any other row adds nothing |
| EnergyRatio.RatiosAreBalanced | floris/tools/energy_ratio.py:122-130 | `ratio_base` and `ratio_con` are the ratios of the balanced test and reference sums of their regimes |
| EnergyRatio.IdenticalRegimes | floris/tools/energy_ratio.py:128-138 | identical regimes give equal ratios, zero difference where defined, zero percent change for a nonzero ratio, and all counts equal to the sample size |
| EnergyRatio.NoChange | floris/tools/energy_ratio.py:131-132 | a defined ratio compared with itself has difference 0, and percent change 0 when the ratio is nonzero |
| EnergyRatio.SharedRowsAll | floris/tools/energy_ratio.py:135-136 | compared with itself, every row of a regime is kept |
| EnergyRatio.EqualCountsHalveSum | floris/tools/energy_ratio.py:111-126 | with equal counts in every shared bucket, every weight is 1/2 and a balanced sum is half the plain sum over shared-bucket rows |
| EnergyRatio.EqualCountsGiveUnweightedRatio | floris/tools/energy_ratio.py:106-130 | with equal per-bucket counts, each balanced ratio is the plain ratio of summed test power to summed reference power over shared-bucket rows |
| EnergyRatio.EqualCountsRatio | floris/tools/energy_ratio.py:123-130 | under equal counts the halved numerator and denominator give the unweighted ratio |
| EnergyRatio.Clamp | floris/tools/energy_ratio.py:33-35 | `max(min(x, 10000), 2000)` lies in [2000, 10000], is `x` inside that range and the nearer limit outside it |
| EnergyRatio.BootstrapIterations | floris/tools/energy_ratio.py:32-35 | the iteration count is an integer in [2000, 10000], within 1/2 of `n log10 n` when that lies in the range, and the limit when it does not |
| EnergyRatio.BootstrapIterationsMonotone | floris/tools/energy_ratio.py:32-35 | with a non-negative non-decreasing logarithm, more samples never give fewer iterations |
| EnergyRatio.RoundedClampMonotone | floris/tools/energy_ratio.py:35 | rounding a clamped value is monotone in the value |
| EnergyRatio.ConfidenceBounds | floris/tools/energy_ratio.py:47-48 | the percentile pair sums to 100, its first minus its second is the confidence, for a confidence in [-100, 100] both lie in [0, 100], and for a confidence in [0, 100] the first lies in [50, 100] and the second in [0, 50] |
| EnergyRatio.LowerAndUpperBound | floris/tools/energy_ratio.py:38-44 | the bounds are defined exactly when every bootstrap value is (and, for reflected bounds, the central estimate); simple bounds lie within the data's range, reflected bounds within the range mirrored about the central estimate |
| EnergyRatio.BoundsOrientation | floris/tools/energy_ratio.py:38-48 | with `[50 + c/2, 50 - c/2]`, the simple method's `lower` is the higher percentile (`lower >= upper`), the reflected method orders them the other way, and the two methods mirror each other about the central estimate |
| EnergyRatio.HigherConfidenceWidens | floris/tools/energy_ratio.py:38-48 | raising the confidence never narrows the simple-percentile interval |
| BalancedEnergyRatio.BinRadius | floris/tools/energy_ratio.py:236-242 | without an overlap the radius is half the spacing of the first two bin centres, and a non-negative overlap percentage never makes the window narrower than that spacing |
| BalancedEnergyRatio.DirectionMask | floris/tools/energy_ratio.py:266-270 | a sample is selected exactly when its direction lies in `[c - r, c + r)` |
| BalancedEnergyRatio.TruncAll | floris/tools/energy_ratio.py:283-286 | every selected speed is truncated to its integer bucket |
| BalancedEnergyRatio.Window | floris/tools/energy_ratio.py:266-286 | a regime's window keeps one row per selected sample, with non-negative buckets, and is empty exactly when no direction lies in the window |
| BalancedEnergyRatio.WindowRows | floris/tools/energy_ratio.py:266-286 | row `k` of a regime's window is the input row at the `k`-th selected position, in all three columns alike (the speed truncated); the positions are increasing, all in the window, and include every sample whose direction lies in it |
| BalancedEnergyRatio.Skipped | floris/tools/energy_ratio.py:280 | the skip test: either regime's window is empty; characterised by `SkippedIffEmptyWindow` |
| BalancedEnergyRatio.DefaultIterations | floris/tools/energy_ratio.py:294-296 | the count `_calculate_bootstrap_iterations` derives from a bin's baseline size lies in [2000, 10000] |
| BalancedEnergyRatio.Resolve | floris/tools/energy_ratio.py:294-296 | a given iteration count is kept; a count derived from a bin lies in [2000, 10000] |
| BalancedEnergyRatio.IterationsBefore | floris/tools/energy_ratio.py:294-296 | the value of `n_boostrap` on reaching a bin is the caller's value when it was given, and positive whenever it is set |
| BalancedEnergyRatio.IterationsAt | floris/tools/energy_ratio.py:294-302 | every bin that is not skipped runs a positive number of bootstrap iterations |
| BalancedEnergyRatio.Resample | floris/tools/energy_ratio.py:305-315 | resampling with replacement gives one row per drawn index, row `k` being the window's row `idx[k]` in all three columns alike |
| BalancedEnergyRatio.Replicate | floris/tools/energy_ratio.py:302-319 | a bootstrap replicate of a bin whose regimes share no bucket is eight NaNs |
| BalancedEnergyRatio.Stats | floris/tools/energy_ratio.py:298-319 | the bootstrap array of a statistic holds, at iteration `t`, that statistic of replicate `t` |
| BalancedEnergyRatio.AsNum | floris/tools/energy_ratio.py:289-290 | a count is stored as a float: NaN exactly when the count is NaN, otherwise a non-negative float whose floor is the count |
| BalancedEnergyRatio.StatBounds | floris/tools/energy_ratio.py:321-331 | the simple-percentile bounds of one statistic's bootstrap array, centred on the stored estimate; what they satisfy is stated by `StoredBoundsOrder` and `NoSharedBucketBoundsAreNaN` |
| BalancedEnergyRatio.BinOutcome | floris/tools/energy_ratio.py:264-331 | a skipped bin leaves its cells untouched, and any other bin's point estimate is `energy_ratio` of its two windows |
| BalancedEnergyRatio.Column | floris/tools/energy_ratio.py:333 | every returned array has one entry per bin centre |
| BalancedEnergyRatio.Outcomes | floris/tools/energy_ratio.py:264-331 | the loop produces one outcome per bin |
| BalancedEnergyRatio.SkippedIffEmptyWindow | floris/tools/energy_ratio.py:266-281 | a bin is skipped exactly when no baseline sample or no controlled sample lies in its window |
| BalancedEnergyRatio.SkippedBinIsNaN | floris/tools/energy_ratio.py:244-281 | a skipped bin keeps NaN in all sixteen arrays |
| BalancedEnergyRatio.NoSharedBucketIsNaN | floris/tools/energy_ratio.py:289-290 | a bin whose regimes share no speed bucket stores NaN estimates and NaN counts |
| BalancedEnergyRatio.NoSharedBucketBoundsAreNaN | floris/tools/energy_ratio.py:298-331 | such a bin also stores NaN lower and upper bounds, because every bootstrap replicate of it is NaN |
| BalancedEnergyRatio.StoredEstimate | floris/tools/energy_ratio.py:289-290 | the stored estimate of a bin that is not skipped is what `energy_ratio` returns on its two windows |
| BalancedEnergyRatio.StoredCount | floris/tools/energy_ratio.py:289-290 | so is the stored count, as a float |
| BalancedEnergyRatio.IdenticalRegimesNoDifference | floris/tools/energy_ratio.py:289-290 | with identical baseline and controlled data, every bin that is not skipped stores equal ratios and a zero difference where the ratio is defined |
| BalancedEnergyRatio.StoredBoundsOrder | floris/tools/energy_ratio.py:321-331 | for a non-negative confidence, once every bootstrap value of a statistic is defined, both stored bounds are defined and the stored `lower` is at least the stored `upper` |
| BalancedEnergyRatio.SkippedBinKeepsIterations | floris/tools/energy_ratio.py:280-296 | a skipped bin leaves `n_boostrap` unresolved |
| BalancedEnergyRatio.SuppliedIterations | floris/tools/energy_ratio.py:294-302 | a given `n_boostrap` is the iteration count of every bin |
| BalancedEnergyRatio.UnresolvedBefore | floris/tools/energy_ratio.py:294-296 | `n_boostrap` stays unset until the first bin that is not skipped |
| BalancedEnergyRatio.ResolvedAfter | floris/tools/energy_ratio.py:294-296 | after that bin it holds the count derived from that bin, and no later bin changes it |
| BalancedEnergyRatio.DefaultIterationsFromFirstBin | floris/tools/energy_ratio.py:294-302 | without `n_boostrap`, every bin that is not skipped runs the count derived from the baseline size of the first bin that is not skipped, a count in [2000, 10000] |
| BalancedEnergyRatio.Bootstrap | floris/tools/energy_ratio.py:298-319 | the bootstrap loop fills four fresh arrays of `n_boostrap` entries with the four statistics of each replicate |
| BalancedEnergyRatio.RowsCoverOutputs | floris/tools/energy_ratio.py:244-262 | the sixteen rows of the output are the sixteen (statistic, part) pairs, each exactly once |
| BalancedEnergyRatio.SkipFilled | floris/tools/energy_ratio.py:280-281 | skipping a bin leaves NaN in all sixteen rows at its index and keeps the fill invariant |
| BalancedEnergyRatio.Preallocate | floris/tools/energy_ratio.py:244-262 | sixteen fresh arrays of `len(wind_direction_bins)` entries, all NaN |
| BalancedEnergyRatio.Bin | floris/tools/energy_ratio.py:288-331 | a bin that is not skipped yields its outcome (point estimate and bounds) and resolves `n_boostrap` as the loop specifies |
| BalancedEnergyRatio.StoreBin | floris/tools/energy_ratio.py:289-331 | entry `i` of every output array receives the bin's cell, and nothing else changes |
| BalancedEnergyRatio.CalculateBalancedEnergyRatio | floris/tools/energy_ratio.py:143-333 | returns sixteen fresh arrays of one entry per bin, each equal to the column of its statistic and part |

## Left out

- `plot_energy_ratio` is plotting with matplotlib only and is not part of this model.
- `_convert_to_numpy_array` only adapts pandas and list inputs to numpy arrays. The model takes sequences of reals.
- Randomness: `np.random.randint` is replaced by a caller-supplied sampler.
  - The sampler is keyed by bin, iteration, regime and size.
  - `ValidSampler` requires every draw to have `size` indices, each below `size`.
  - Every actual run is one such sampler; the distribution of the draws is not modelled.
- `np.log10` is a caller-supplied function `log10`.
- BootstrapIterations: takes the caller's `log10(n)` as a value. It therefore does not state that `log10` is the base-10 logarithm; the monotonicity lemma assumes a non-negative, non-decreasing logarithm.
- Floating point: arithmetic is exact over reals. Rounding error is not modelled, and an infinite ratio (a zero weighted reference sum) is conflated with NaN as `None`.
- NanPercentile: because an infinite value is `None` like NaN, one infinite bootstrap replicate makes the model's percentile `None`. `np.percentile` can return a finite value then (the 2.5th percentile when one replicate is `+inf`).
- LowerAndUpperBound: for the same reason its bounds are `None` whenever a bootstrap value is infinite, where the source's may be finite.
- Integer widths: the `int` cast and the counts are unbounded integers.
- Some inputs are preconditions rather than error paths:
  - fewer than two bin centres: the code raises when it reads `wind_direction_bins[1]`;
  - a confidence outside [-100, 100]: `np.percentile` raises at the first bin that is not skipped;
  - a given `n_boostrap` of zero: `np.percentile` of an empty array raises at the first bin that is not skipped;
  - columns of one regime with different lengths: the masks raise.
- A negative truncated speed anywhere in the input is excluded too. The source does not raise on every such input: it can read the lookup table from its end and silently use another bucket's weight. That behaviour is not modelled.
- When every bin is skipped, the source returns all-NaN arrays even for a confidence outside [-100, 100] or an `n_boostrap` of zero. The model does not cover those inputs.
- The default `confidence=95` is not modelled: callers pass the confidence explicitly.
- StoredBoundsOrder: states the ordering only for a non-negative confidence. For a negative confidence the two percentiles swap and `lower <= upper`.
- LowerAndUpperBound: the `method` string compared with `is` is modelled as the two-valued `IntervalMethod`. Identity comparison of strings is not modelled.
- `np.percentile` is modelled with its default linear interpolation only.
- CalculateBalancedEnergyRatio: the sixteen separate output arrays are the sixteen rows of one `16 x len(wind_direction_bins)` array.
  - The rows are in the order the function returns its arrays:
    - rows 0-3 are the baseline ratio, its lower bound, its upper bound and its count;
    - rows 4-7 are the same for the controlled ratio;
    - rows 8-11 for the difference;
    - rows 12-15 for the percent change.
  - The eight writes of the point estimate and the eight writes of the bounds into bin `i` are one parallel assignment to column `i`.
  - Aliasing between the separate arrays is therefore not captured.
- Bin: computes the bounds from the point estimate it holds rather than re-reading the entry just written to the output array. The two are equal.
- Bootstrap: receives the replicates as a function of the iteration number. That function resamples both regimes and reruns `energy_ratio`.

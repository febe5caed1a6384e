/** `calculate_balanced_energy_ratio`: the balanced energy ratio of every
    wind-direction bin, with bootstrap confidence bounds. The random draws of
    `np.random.randint` come from a caller-supplied sampler and `np.log10`
    from a caller-supplied function. */
module BalancedEnergyRatio {
  import opened Numpy
  import opened E = EnergyRatio

  // ---------------------------------------------------------------------
  // Inputs
  // ---------------------------------------------------------------------

  /** The raw columns of one regime: reference power, test power, wind speed
      and wind direction, one entry per sample. */
  datatype Observations = Observations(refPow: seq<real>, testPow: seq<real>, ws: seq<real>, wd: seq<real>) {

    /** Parallel columns; a speed truncated to an integer bucket indexes the
        weight lookup table, so it must not be negative. */
    predicate Valid() {
      |refPow| == |testPow| == |ws| == |wd| && forall j :: 0 <= j < |ws| ==> Trunc(ws[j]) >= 0
    }
  }

  /** The arguments of one call. `nBootstrap` is `n_boostrap` and `overlap` is
      `wind_direction_bin_p_overlap`; `None` means the argument was not given. */
  datatype Study = Study(base: Observations, con: Observations, bins: seq<real>,
                         confidence: real, nBootstrap: Option<nat>, overlap: Option<real>) {

    /** The bin spacing is read from the first two centres, `np.percentile`
        only accepts percentiles in [0, 100] (so the confidence lies in
        [-100, 100]), and a bootstrap of zero iterations has no percentile. */
    predicate Valid() {
      base.Valid() && con.Valid() && |bins| >= 2 && -100.0 <= confidence <= 100.0 &&
      (nBootstrap.Some? ==> nBootstrap.value > 0)
    }
  }

  // ---------------------------------------------------------------------
  // Wind-direction bins
  // ---------------------------------------------------------------------

  /** Half the spacing of the first two bin centres, widened by the overlap
      percentage (0 when not given). */
  function BinRadius(bins: seq<real>, overlap: Option<real>): (r: real)
    requires |bins| >= 2
    ensures overlap.None? ==> 2.0 * r == bins[1] - bins[0]
    ensures overlap.Some? && overlap.value >= 0.0 && bins[0] <= bins[1] ==> bins[1] - bins[0] <= 2.0 * r
  {
    var p := if overlap.None? then 0.0 else overlap.value;
    var d := bins[1] - bins[0];
    assert p >= 0.0 && d >= 0.0 ==> d <= (1.0 + p / 100.0) * d by {
      if p >= 0.0 && d >= 0.0 {
        MulNonnegative(p / 100.0, d);
        assert (1.0 + p / 100.0) * d == d + p / 100.0 * d;
      }
    }
    (1.0 + p / 100.0) * d / 2.0
  }

  /** The half-open window `[centre - radius, centre + radius)`. */
  predicate InWindow(x: real, centre: real, radius: real) {
    centre - radius <= x < centre + radius
  }

  function DirectionMask(wd: seq<real>, centre: real, radius: real): (m: seq<bool>)
    ensures |m| == |wd| && forall j :: 0 <= j < |wd| ==> (m[j] <==> InWindow(wd[j], centre, radius))
  {
    seq(|wd|, j requires 0 <= j < |wd| => InWindow(wd[j], centre, radius))
  }

  /** `astype(int)` on every speed. */
  function TruncAll(xs: seq<real>): (r: seq<int>)
    ensures |r| == |xs| && forall j :: 0 <= j < |xs| ==> r[j] == Trunc(xs[j])
  {
    seq(|xs|, j requires 0 <= j < |xs| => Trunc(xs[j]))
  }

  /** The samples of one regime in one window, speeds truncated to buckets;
      empty exactly when no sample's direction lies in the window. */
  function Window(o: Observations, centre: real, radius: real): (s: Samples)
    requires o.Valid()
    ensures s.Valid() && |s.ws| == CountTrue(DirectionMask(o.wd, centre, radius)) <= |o.wd|
    ensures |s.ws| == 0 <==> forall j :: 0 <= j < |o.wd| ==> !InWindow(o.wd[j], centre, radius)
  {
    var m := DirectionMask(o.wd, centre, radius);
    var speeds := Mask(o.ws, m);
    CountTrueZero(m);
    forall j | 0 <= j < |speeds| ensures Trunc(speeds[j]) >= 0 {
      var x := speeds[j];
      assert x in speeds;
      var k :| 0 <= k < |o.ws| && o.ws[k] == x;
    }
    Samples(Mask(o.refPow, m), Mask(o.testPow, m), TruncAll(speeds))
  }

  /** Row `k` of a window is sample `sel[k]` of the regime in all three
      columns, where `sel` lists, in increasing order, exactly the samples
      whose direction lies in the window. */
  lemma {:induction false} WindowRows(o: Observations, centre: real, radius: real)
    requires o.Valid()
    ensures var s, sel := Window(o, centre, radius), Selected(DirectionMask(o.wd, centre, radius));
      |s.ws| == |sel| && StrictlyIncreasing(sel) &&
      (forall k :: 0 <= k < |sel| ==> 0 <= sel[k] < |o.wd| && InWindow(o.wd[sel[k]], centre, radius)) &&
      (forall j :: 0 <= j < |o.wd| && InWindow(o.wd[j], centre, radius) ==> j in sel) &&
      forall k :: 0 <= k < |sel| ==>
        s.refPow[k] == o.refPow[sel[k]] && s.testPow[k] == o.testPow[sel[k]] && s.ws[k] == Trunc(o.ws[sel[k]])
  {
    var m := DirectionMask(o.wd, centre, radius);
    MaskIsTake(o.refPow, m);
    MaskIsTake(o.testPow, m);
    MaskIsTake(o.ws, m);
  }

  function BaseWindow(st: Study, i: nat): Samples
    requires st.Valid() && i < |st.bins|
  {
    Window(st.base, st.bins[i], BinRadius(st.bins, st.overlap))
  }

  function ConWindow(st: Study, i: nat): Samples
    requires st.Valid() && i < |st.bins|
  {
    Window(st.con, st.bins[i], BinRadius(st.bins, st.overlap))
  }

  /** Bin `i` is skipped when either regime has no sample in its window. */
  predicate Skipped(st: Study, i: nat)
    requires st.Valid() && i < |st.bins|
  {
    |BaseWindow(st, i).ws| == 0 || |ConWindow(st, i).ws| == 0
  }

  // ---------------------------------------------------------------------
  // Number of bootstrap iterations
  // ---------------------------------------------------------------------

  /** The iteration count derived from a baseline window of `n` samples. */
  function DefaultIterations(n: nat, log10: real -> real): (r: nat)
    ensures MinimumIterations <= r <= MaximumIterations
  {
    BootstrapIterations(n, log10(n as real))
  }

  /** What the loop learns from bin `k` about the iteration count: nothing
      (`None`) when the bin is skipped, else the size of its baseline window. */
  function BaselineSizes(st: Study): (sizes: seq<Option<nat>>)
    requires st.Valid()
    ensures |sizes| == |st.bins|
  {
    seq(|st.bins|, k requires 0 <= k < |st.bins| => if Skipped(st, k) then None else Some(|BaseWindow(st, k).ws|))
  }

  /** The value `n_boostrap` holds after the first `i` bins: `given`, or the
      count derived from the first bin that was not skipped. */
  function Resolve(given: Option<nat>, sizes: seq<Option<nat>>, log10: real -> real, i: nat): (r: Option<nat>)
    requires i <= |sizes|
    ensures given.Some? ==> r == given
    ensures r.Some? && given.None? ==> MinimumIterations <= r.value <= MaximumIterations
  {
    if i == 0 then given
    else
      var prev := Resolve(given, sizes, log10, i - 1);
      if prev.None? && sizes[i - 1].Some? then Some(DefaultIterations(sizes[i - 1].value, log10)) else prev
  }

  /** The value `n_boostrap` holds when the loop reaches bin `i`. */
  function IterationsBefore(st: Study, log10: real -> real, i: nat): (r: Option<nat>)
    requires st.Valid() && i <= |st.bins|
    ensures st.nBootstrap.Some? ==> r == st.nBootstrap
    ensures r.Some? ==> r.value > 0
  {
    Resolve(st.nBootstrap, BaselineSizes(st), log10, i)
  }

  /** The number of bootstrap iterations run for a bin that is not skipped. */
  function IterationsAt(st: Study, log10: real -> real, i: nat): (n: nat)
    requires st.Valid() && i < |st.bins| && !Skipped(st, i)
    ensures n > 0
  {
    match IterationsBefore(st, log10, i)
    case Some(n) => n
    case None => DefaultIterations(|BaseWindow(st, i).ws|, log10)
  }

  // ---------------------------------------------------------------------
  // Resampling
  // ---------------------------------------------------------------------

  /** One call of `np.random.randint(size, size=size)`: for bin `bin`,
      bootstrap iteration `iteration`, baseline or controlled regime. */
  datatype Draw = Draw(bin: nat, iteration: nat, controlled: bool, size: nat)

  /** Every draw has `size` indices, each below `size`. */
  ghost predicate ValidSampler(sample: Draw -> seq<nat>) {
    forall d: Draw :: |sample(d)| == d.size && forall k :: 0 <= k < |sample(d)| ==> sample(d)[k] < d.size
  }

  /** The rows of `s` at the drawn indices, with repetition. */
  function Resample(s: Samples, idx: seq<nat>): (r: Samples)
    requires s.Valid() && forall k :: 0 <= k < |idx| ==> idx[k] < |s.ws|
    ensures r.Valid() && |r.ws| == |idx|
    ensures forall k :: 0 <= k < |idx| ==>
      r.refPow[k] == s.refPow[idx[k]] && r.testPow[k] == s.testPow[idx[k]] && r.ws[k] == s.ws[idx[k]]
    ensures forall v :: v in r.ws ==> v in s.ws
  {
    var ws := Take(s.ws, idx);
    forall v | v in ws ensures v in s.ws {
      var k :| 0 <= k < |ws| && ws[k] == v;
      assert s.ws[idx[k]] == v;
    }
    Samples(Take(s.refPow, idx), Take(s.testPow, idx), ws)
  }

  /** The energy ratio of bootstrap iteration `t` of bin `i`. */
  function Replicate(wb: Samples, wc: Samples, sample: Draw -> seq<nat>, i: nat, t: nat): (r: EnergyRatios)
    requires wb.Valid() && wc.Valid() && ValidSampler(sample)
    ensures !ShareBucket(wb.ws, wc.ws) ==> r == AllNaN
  {
    var rb := Resample(wb, sample(Draw(i, t, false, |wb.ws|)));
    var rc := Resample(wc, sample(Draw(i, t, true, |wc.ws|)));
    EnergyRatio(rb, rc)
  }

  /** The four bootstrap statistics. */
  datatype Statistic = RatioBase | RatioCon | Diff | PChange

  function Stat(r: EnergyRatios, s: Statistic): Num {
    match s
    case RatioBase => r.ratioBase
    case RatioCon => r.ratioCon
    case Diff => r.ratioDiff
    case PChange => r.pChange
  }

  function StatCount(r: EnergyRatios, s: Statistic): Option<nat> {
    match s
    case RatioBase => r.countsBase
    case RatioCon => r.countsCon
    case Diff => r.countsDiff
    case PChange => r.countsPChange
  }

  /** The bootstrap iterations of bin `i`, as a function of the iteration
      number. */
  function Iterations(wb: Samples, wc: Samples, sample: Draw -> seq<nat>, i: nat): nat -> EnergyRatios
    requires wb.Valid() && wc.Valid() && ValidSampler(sample)
  {
    (t: nat) => Replicate(wb, wc, sample, i, t)
  }

  /** Statistic `s` of the first `n` iterations. */
  function Stats(iteration: nat -> EnergyRatios, n: nat, s: Statistic): (bs: seq<Num>)
    ensures |bs| == n && forall k :: 0 <= k < n ==> bs[k] == Stat(iteration(k), s)
  {
    seq(n, k requires 0 <= k < n => Stat(iteration(k), s))
  }

  // ---------------------------------------------------------------------
  // One bin, and the sixteen output columns
  // ---------------------------------------------------------------------

  /** What bin `i` contributes: the point estimate and the bounds of the four
      statistics. */
  datatype BinResult = BinResult(point: EnergyRatios,
                                 ratioBaseBounds: (Num, Num), ratioConBounds: (Num, Num),
                                 diffBounds: (Num, Num), pChangeBounds: (Num, Num))

  /** A skipped bin leaves NaN everywhere. */
  const Untouched := BinResult(AllNaN, (None, None), (None, None), (None, None), (None, None))

  function Bounds(b: BinResult, s: Statistic): (Num, Num) {
    match s
    case RatioBase => b.ratioBaseBounds
    case RatioCon => b.ratioConBounds
    case Diff => b.diffBounds
    case PChange => b.pChangeBounds
  }

  /** The bounds of statistic `s` in a bin, from its bootstrap values. */
  function StatBounds(st: Study, point: EnergyRatios, bs: seq<Num>, s: Statistic): (Num, Num)
    requires st.Valid() && |bs| > 0
  {
    LowerAndUpperBound(bs, ConfidenceBounds(st.confidence), Stat(point, s), SimplePercentile)
  }

  /** The outcome of bin `i` of the loop. */
  function BinOutcome(st: Study, log10: real -> real, sample: Draw -> seq<nat>, i: nat): (b: BinResult)
    requires st.Valid() && ValidSampler(sample) && i < |st.bins|
    ensures Skipped(st, i) ==> b == Untouched
    ensures !Skipped(st, i) ==> b.point == EnergyRatio(BaseWindow(st, i), ConWindow(st, i))
  {
    if Skipped(st, i) then Untouched
    else
      var wb, wc := BaseWindow(st, i), ConWindow(st, i);
      var point := EnergyRatio(wb, wc);
      var iteration, n := Iterations(wb, wc, sample, i), IterationsAt(st, log10, i);
      BinResult(point,
                StatBounds(st, point, Stats(iteration, n, RatioBase), RatioBase),
                StatBounds(st, point, Stats(iteration, n, RatioCon), RatioCon),
                StatBounds(st, point, Stats(iteration, n, Diff), Diff),
                StatBounds(st, point, Stats(iteration, n, PChange), PChange))
  }

  /** Which of the four arrays of a statistic: the estimate, its two bounds
      or its count. */
  datatype Part = Estimate | Lower | Upper | Counts

  /** Counts are stored in float arrays. */
  function AsNum(c: Option<nat>): (r: Num)
    ensures r.Some? <==> c.Some?
    ensures r.Some? ==> r.value >= 0.0 && r.value.Floor == c.value
  {
    if c.Some? then Some(c.value as real) else None
  }

  function Cell(b: BinResult, s: Statistic, p: Part): Num {
    match p
    case Estimate => Stat(b.point, s)
    case Lower => Bounds(b, s).0
    case Upper => Bounds(b, s).1
    case Counts => AsNum(StatCount(b.point, s))
  }

  /** The outcomes of all bins. */
  function Outcomes(st: Study, log10: real -> real, sample: Draw -> seq<nat>): (outs: seq<BinResult>)
    requires st.Valid() && ValidSampler(sample)
    ensures |outs| == |st.bins|
  {
    seq(|st.bins|, k requires 0 <= k < |st.bins| => BinOutcome(st, log10, sample, k))
  }

  /** `outs` holds the outcomes of the first `|outs|` bins. */
  ghost predicate Computed(st: Study, log10: real -> real, sample: Draw -> seq<nat>, outs: seq<BinResult>)
    requires st.Valid() && ValidSampler(sample)
  {
    |outs| <= |st.bins| &&
    forall k {:trigger BinOutcome(st, log10, sample, k)} :: 0 <= k < |outs| ==> outs[k] == BinOutcome(st, log10, sample, k)
  }

  /** Appending the outcome of the next bin keeps `Computed`. */
  lemma {:induction false} ComputedStep(st: Study, log10: real -> real, sample: Draw -> seq<nat>, outs: seq<BinResult>, r: BinResult)
    requires st.Valid() && ValidSampler(sample) && Computed(st, log10, sample, outs) && |outs| < |st.bins|
    requires r == BinOutcome(st, log10, sample, |outs|)
    ensures Computed(st, log10, sample, outs + [r])
  {
    forall k | 0 <= k < |outs| + 1
      ensures (outs + [r])[k] == BinOutcome(st, log10, sample, k)
    {
      if k < |outs| {
        assert (outs + [r])[k] == outs[k];
      }
    }
  }

  /** A skipped bin appends `Untouched`. */
  lemma {:induction false} ComputedSkip(st: Study, log10: real -> real, sample: Draw -> seq<nat>, outs: seq<BinResult>)
    requires st.Valid() && ValidSampler(sample) && Computed(st, log10, sample, outs) && |outs| < |st.bins|
    requires Skipped(st, |outs|)
    ensures Computed(st, log10, sample, outs + [Untouched])
  {
    ComputedStep(st, log10, sample, outs, Untouched);
  }

  /** Once every bin is computed, `outs` is the whole of `Outcomes`. */
  lemma {:induction false} ComputedAll(st: Study, log10: real -> real, sample: Draw -> seq<nat>, outs: seq<BinResult>)
    requires st.Valid() && ValidSampler(sample) && Computed(st, log10, sample, outs) && |outs| == |st.bins|
    ensures outs == Outcomes(st, log10, sample)
  {
  }

  /** One part of one statistic of every outcome. */
  function Cells(outs: seq<BinResult>, s: Statistic, p: Part): (c: seq<Num>)
    ensures |c| == |outs| && forall k :: 0 <= k < |outs| ==> c[k] == Cell(outs[k], s, p)
  {
    seq(|outs|, k requires 0 <= k < |outs| => Cell(outs[k], s, p))
  }

  /** The expected contents of one output array. */
  function Column(st: Study, log10: real -> real, sample: Draw -> seq<nat>, s: Statistic, p: Part): (c: seq<Num>)
    requires st.Valid() && ValidSampler(sample)
    ensures |c| == |st.bins|
  {
    Cells(Outcomes(st, log10, sample), s, p)
  }

  // ---------------------------------------------------------------------
  // What the driver's output amounts to
  // ---------------------------------------------------------------------

  /** Entry `i` of a column is the cell of bin `i`'s outcome. */
  lemma {:induction false} ColumnAt(st: Study, log10: real -> real, sample: Draw -> seq<nat>, s: Statistic, p: Part, i: nat)
    requires st.Valid() && ValidSampler(sample) && i < |st.bins|
    ensures |Column(st, log10, sample, s, p)| == |st.bins|
    ensures Column(st, log10, sample, s, p)[i] == Cell(BinOutcome(st, log10, sample, i), s, p)
  {
    assert Outcomes(st, log10, sample)[i] == BinOutcome(st, log10, sample, i);
  }

  /** A bin is skipped exactly when no baseline sample or no controlled sample
      has its direction in the bin's window. */
  lemma {:induction false} SkippedIffEmptyWindow(st: Study, i: nat)
    requires st.Valid() && i < |st.bins|
    ensures var c, r := st.bins[i], BinRadius(st.bins, st.overlap);
      Skipped(st, i) <==>
        (forall j :: 0 <= j < |st.base.wd| ==> !InWindow(st.base.wd[j], c, r)) ||
        (forall j :: 0 <= j < |st.con.wd| ==> !InWindow(st.con.wd[j], c, r))
  {
  }

  /** A skipped bin keeps NaN in all sixteen arrays. */
  lemma {:induction false} SkippedBinIsNaN(st: Study, log10: real -> real, sample: Draw -> seq<nat>, i: nat)
    requires st.Valid() && ValidSampler(sample) && i < |st.bins| && Skipped(st, i)
    ensures forall s, p :: Column(st, log10, sample, s, p)[i] == None
  {
    forall s, p ensures Column(st, log10, sample, s, p)[i] == None {
      ColumnAt(st, log10, sample, s, p, i);
    }
  }

  /** A bin whose regimes share no speed bucket gets NaN estimates and counts. */
  lemma {:induction false} NoSharedBucketIsNaN(st: Study, log10: real -> real, sample: Draw -> seq<nat>, i: nat)
    requires st.Valid() && ValidSampler(sample) && i < |st.bins| && !Skipped(st, i)
    requires !ShareBucket(BaseWindow(st, i).ws, ConWindow(st, i).ws)
    ensures forall s :: Column(st, log10, sample, s, Estimate)[i] == None && Column(st, log10, sample, s, Counts)[i] == None
  {
    var point := EnergyRatio(BaseWindow(st, i), ConWindow(st, i));
    assert point == AllNaN;
    forall s ensures Column(st, log10, sample, s, Estimate)[i] == None && Column(st, log10, sample, s, Counts)[i] == None {
      StoredEstimate(st, log10, sample, i, s);
      StoredCount(st, log10, sample, i, s);
      assert Stat(point, s) == None && StatCount(point, s) == None;
    }
  }

  /** Resampling cannot create a shared bucket, so every bootstrap replicate
      of such a bin is NaN and so are both bounds of every statistic. */
  lemma {:induction false} NoSharedBucketBoundsAreNaN(st: Study, log10: real -> real, sample: Draw -> seq<nat>, i: nat, s: Statistic)
    requires st.Valid() && ValidSampler(sample) && i < |st.bins| && !Skipped(st, i)
    requires !ShareBucket(BaseWindow(st, i).ws, ConWindow(st, i).ws)
    ensures Column(st, log10, sample, s, Lower)[i] == None && Column(st, log10, sample, s, Upper)[i] == None
  {
    var wb, wc := BaseWindow(st, i), ConWindow(st, i);
    var bs := Stats(Iterations(wb, wc, sample, i), IterationsAt(st, log10, i), s);
    assert Replicate(wb, wc, sample, i, 0) == AllNaN;
    assert bs[0] == None;
    var central := Stat(EnergyRatio(wb, wc), s);
    assert Bounds(BinOutcome(st, log10, sample, i), s) == LowerAndUpperBound(bs, ConfidenceBounds(st.confidence), central, SimplePercentile);
    ColumnAt(st, log10, sample, s, Lower, i);
    ColumnAt(st, log10, sample, s, Upper, i);
  }

  /** The estimate stored for a bin that is not skipped is the one
      `energy_ratio` returns for its two windows. */
  lemma {:induction false} StoredEstimate(st: Study, log10: real -> real, sample: Draw -> seq<nat>, i: nat, s: Statistic)
    requires st.Valid() && ValidSampler(sample) && i < |st.bins| && !Skipped(st, i)
    ensures Column(st, log10, sample, s, Estimate)[i] == Stat(EnergyRatio(BaseWindow(st, i), ConWindow(st, i)), s)
  {
    ColumnAt(st, log10, sample, s, Estimate, i);
  }

  /** So is the count, stored as a float. */
  lemma {:induction false} StoredCount(st: Study, log10: real -> real, sample: Draw -> seq<nat>, i: nat, s: Statistic)
    requires st.Valid() && ValidSampler(sample) && i < |st.bins| && !Skipped(st, i)
    ensures Column(st, log10, sample, s, Counts)[i] == AsNum(StatCount(EnergyRatio(BaseWindow(st, i), ConWindow(st, i)), s))
  {
    ColumnAt(st, log10, sample, s, Counts, i);
    assert BinOutcome(st, log10, sample, i).point == EnergyRatio(BaseWindow(st, i), ConWindow(st, i));
  }

  /** Identical baseline and controlled data give, in every bin that is not
      skipped, equal ratios and (where the ratio is defined) a zero
      difference. */
  lemma {:induction false} IdenticalRegimesNoDifference(st: Study, log10: real -> real, sample: Draw -> seq<nat>, i: nat)
    requires st.Valid() && ValidSampler(sample) && i < |st.bins| && !Skipped(st, i) && st.base == st.con
    ensures Column(st, log10, sample, RatioBase, Estimate)[i] == Column(st, log10, sample, RatioCon, Estimate)[i]
    ensures Column(st, log10, sample, RatioBase, Estimate)[i].Some? ==> Column(st, log10, sample, Diff, Estimate)[i] == Some(0.0)
  {
    var wb := BaseWindow(st, i);
    assert ConWindow(st, i) == wb;
    IdenticalRegimes(wb);
    StoredEstimate(st, log10, sample, i, RatioBase);
    StoredEstimate(st, log10, sample, i, RatioCon);
    StoredEstimate(st, log10, sample, i, Diff);
  }

  /** With the simple-percentile method and a non-negative confidence the
      stored `lower` is the higher percentile: once every bootstrap value of
      the statistic is defined, `lower >= upper`. */
  lemma {:induction false} StoredBoundsOrder(st: Study, log10: real -> real, sample: Draw -> seq<nat>, i: nat, s: Statistic)
    requires st.Valid() && ValidSampler(sample) && i < |st.bins| && !Skipped(st, i) && st.confidence >= 0.0
    requires forall t :: 0 <= t < IterationsAt(st, log10, i) ==>
      Stat(Replicate(BaseWindow(st, i), ConWindow(st, i), sample, i, t), s).Some?
    ensures Column(st, log10, sample, s, Lower)[i].Some? && Column(st, log10, sample, s, Upper)[i].Some?
    ensures Column(st, log10, sample, s, Lower)[i].value >= Column(st, log10, sample, s, Upper)[i].value
  {
    var wb, wc := BaseWindow(st, i), ConWindow(st, i);
    var bs := Stats(Iterations(wb, wc, sample, i), IterationsAt(st, log10, i), s);
    var central := Stat(EnergyRatio(wb, wc), s);
    assert Bounds(BinOutcome(st, log10, sample, i), s) == LowerAndUpperBound(bs, ConfidenceBounds(st.confidence), central, SimplePercentile);
    ColumnAt(st, log10, sample, s, Lower, i);
    ColumnAt(st, log10, sample, s, Upper, i);
    BoundsOrientation(bs, st.confidence, 0.0);
  }

  /** A skipped bin does not resolve the iteration count. */
  lemma {:induction false} SkippedBinKeepsIterations(st: Study, log10: real -> real, i: nat)
    requires st.Valid() && i < |st.bins| && Skipped(st, i)
    ensures IterationsBefore(st, log10, i + 1) == IterationsBefore(st, log10, i)
  {
    assert BaselineSizes(st)[i] == None;
  }

  /** A given `n_boostrap` is used for every bin. */
  lemma {:induction false} SuppliedIterations(st: Study, log10: real -> real, i: nat)
    requires st.Valid() && i < |st.bins| && !Skipped(st, i) && st.nBootstrap.Some?
    ensures IterationsAt(st, log10, i) == st.nBootstrap.value
  {
  }

  /** Before the first bin that says something, nothing is resolved. */
  lemma {:induction false} UnresolvedBefore(sizes: seq<Option<nat>>, log10: real -> real, k: nat)
    requires k <= |sizes| && forall m :: 0 <= m < k ==> sizes[m].None?
    ensures Resolve(None, sizes, log10, k) == None
  {
    if k > 0 {
      UnresolvedBefore(sizes, log10, k - 1);
    }
  }

  /** The first bin `j` that says something resolves the count, and no later
      bin changes it. */
  lemma {:induction false} ResolvedAfter(sizes: seq<Option<nat>>, log10: real -> real, j: nat, k: nat)
    requires j < k <= |sizes| && sizes[j].Some? && forall m :: 0 <= m < j ==> sizes[m].None?
    ensures Resolve(None, sizes, log10, k) == Some(DefaultIterations(sizes[j].value, log10))
  {
    if k == j + 1 {
      UnresolvedBefore(sizes, log10, j);
    } else {
      ResolvedAfter(sizes, log10, j, k - 1);
    }
  }

  /** Without `n_boostrap`, every bin that is not skipped runs the number of
      iterations derived from the baseline size of the first bin that is not
      skipped, a number in [2000, 10000]. */
  lemma {:induction false} DefaultIterationsFromFirstBin(st: Study, log10: real -> real, j: nat, i: nat)
    requires st.Valid() && j <= i < |st.bins| && st.nBootstrap.None?
    requires !Skipped(st, j) && forall m :: 0 <= m < j ==> Skipped(st, m)
    requires !Skipped(st, i)
    ensures IterationsAt(st, log10, i) == DefaultIterations(|BaseWindow(st, j).ws|, log10)
    ensures MinimumIterations <= IterationsAt(st, log10, i) <= MaximumIterations
  {
    var sizes := BaselineSizes(st);
    assert forall m :: 0 <= m < j ==> sizes[m].None?;
    assert sizes[j] == Some(|BaseWindow(st, j).ws|);
    if i == j {
      UnresolvedBefore(sizes, log10, j);
    } else {
      ResolvedAfter(sizes, log10, j, i);
    }
  }

  // ---------------------------------------------------------------------
  // The loops
  // ---------------------------------------------------------------------

  /** The bootstrap loop of one bin: `n` iterations, iteration `t` resampling
      both regimes with replacement, recomputing the energy ratio
      (`iteration(t)`) and storing its four statistics in four preallocated
      arrays. */
  method Bootstrap(iteration: nat -> EnergyRatios, n: nat)
    returns (ratioBaseBs: array<Num>, ratioConBs: array<Num>, diffBs: array<Num>, pChangeBs: array<Num>)
    ensures fresh(ratioBaseBs) && fresh(ratioConBs) && fresh(diffBs) && fresh(pChangeBs)
    ensures ratioBaseBs[..] == Stats(iteration, n, RatioBase)
    ensures ratioConBs[..] == Stats(iteration, n, RatioCon)
    ensures diffBs[..] == Stats(iteration, n, Diff)
    ensures pChangeBs[..] == Stats(iteration, n, PChange)
  {
    ratioBaseBs := new Num[n];
    ratioConBs := new Num[n];
    diffBs := new Num[n];
    pChangeBs := new Num[n];
    for t := 0 to n
      invariant forall k :: 0 <= k < t ==> ratioBaseBs[k] == iteration(k).ratioBase && ratioConBs[k] == iteration(k).ratioCon
      invariant forall k :: 0 <= k < t ==> diffBs[k] == iteration(k).ratioDiff && pChangeBs[k] == iteration(k).pChange
    {
      var r := iteration(t);
      ratioBaseBs[t], ratioConBs[t], diffBs[t], pChangeBs[t] := r.ratioBase, r.ratioCon, r.ratioDiff, r.pChange;
    }
  }

  // ---------------------------------------------------------------------
  // The sixteen output arrays
  // ---------------------------------------------------------------------

  /** The sixteen output arrays are the rows of one `16 x len(bins)` array,
      in the order they are returned: for each of `RatioBase`, `RatioCon`,
      `Diff` and `PChange`, the estimate, the lower bound, the upper bound and
      the count. */
  const Outputs: nat := 16

  function StatOf(row: nat): Statistic {
    if row < 4 then RatioBase else if row < 8 then RatioCon else if row < 12 then Diff else PChange
  }

  function PartOf(row: nat): Part {
    var q := row % 4;
    if q == 0 then Estimate else if q == 1 then Lower else if q == 2 then Upper else Counts
  }

  /** Every (statistic, part) pair has exactly one row. */
  lemma {:induction false} RowsCoverOutputs(s: Statistic, p: Part)
    ensures exists row :: 0 <= row < Outputs && StatOf(row) == s && PartOf(row) == p
    ensures forall r1, r2 :: 0 <= r1 < r2 < Outputs ==> StatOf(r1) != StatOf(r2) || PartOf(r1) != PartOf(r2)
  {
    var base := match s case RatioBase => 0 case RatioCon => 4 case Diff => 8 case PChange => 12;
    var off := match p case Estimate => 0 case Lower => 1 case Upper => 2 case Counts => 3;
    assert StatOf(base + off) == s && PartOf(base + off) == p;
  }

  /** Rows `0 .. 15` hold the outcomes of the bins before `|outs|` and NaN in
      the bins after. */
  ghost predicate Filled(out: array2<Num>, outs: seq<BinResult>)
    reads out
  {
    out.Length0 == Outputs && |outs| <= out.Length1 &&
    forall row, k :: 0 <= row < Outputs && 0 <= k < out.Length1 ==>
      out[row, k] == if k < |outs| then Cell(outs[k], StatOf(row), PartOf(row)) else None
  }

  /** A skipped bin keeps NaN in every row. */
  lemma {:induction false} SkipFilled(out: array2<Num>, outs: seq<BinResult>)
    requires Filled(out, outs) && |outs| < out.Length1
    ensures Filled(out, outs + [Untouched])
  {
    forall row, k | 0 <= row < Outputs && 0 <= k < out.Length1
      ensures out[row, k] == if k < |outs| + 1 then Cell((outs + [Untouched])[k], StatOf(row), PartOf(row)) else None
    {
      if k < |outs| {
        assert (outs + [Untouched])[k] == outs[k];
      } else if k == |outs| {
        assert Cell(Untouched, StatOf(row), PartOf(row)) == None;
      }
    }
  }

  /** Once every bin is stored, row `row` is the column of its statistic and
      part. */
  lemma {:induction false} FilledColumns(st: Study, log10: real -> real, sample: Draw -> seq<nat>, out: array2<Num>, outs: seq<BinResult>)
    requires st.Valid() && ValidSampler(sample) && Filled(out, outs) && |outs| == out.Length1
    requires outs == Outcomes(st, log10, sample)
    ensures forall row, k :: 0 <= row < Outputs && 0 <= k < out.Length1 ==>
              out[row, k] == Column(st, log10, sample, StatOf(row), PartOf(row))[k]
  {
  }

  /** `np.zeros(len(wind_direction_bins)) * np.nan`, sixteen times. */
  method Preallocate(n: nat) returns (out: array2<Num>)
    ensures fresh(out) && Filled(out, []) && out.Length1 == n
  {
    out := new Num[Outputs, n]((row, k) => None);
  }

  /** One bin that is not skipped: the point estimate, the iteration count
      (resolved from this bin's baseline size when still unknown), the
      bootstrap loop and the bounds of the four statistics. */
  method Bin(st: Study, log10: real -> real, sample: Draw -> seq<nat>, i: nat, wb: Samples, wc: Samples, nBootstrap: Option<nat>,
             ghost outs: seq<BinResult>)
    returns (r: BinResult, nBootstrap': Option<nat>)
    requires st.Valid() && ValidSampler(sample) && i < |st.bins| && !Skipped(st, i)
    requires wb == BaseWindow(st, i) && wc == ConWindow(st, i)
    requires nBootstrap == IterationsBefore(st, log10, i)
    requires |outs| == i && Computed(st, log10, sample, outs)
    ensures Computed(st, log10, sample, outs + [r])
    ensures nBootstrap' == IterationsBefore(st, log10, i + 1) && nBootstrap'.Some?
  {
    var point := EnergyRatio(wb, wc);
    nBootstrap' := nBootstrap;
    if nBootstrap'.None? {
      nBootstrap' := Some(BootstrapIterations(|wb.ws|, log10(|wb.ws| as real)));
    }
    var ratioBaseBs, ratioConBs, diffBs, pChangeBs := Bootstrap(Iterations(wb, wc, sample, i), nBootstrap'.value);
    var percentiles := ConfidenceBounds(st.confidence);
    var ratioBaseBounds := LowerAndUpperBound(ratioBaseBs[..], percentiles, point.ratioBase, SimplePercentile);
    var ratioConBounds := LowerAndUpperBound(ratioConBs[..], percentiles, point.ratioCon, SimplePercentile);
    var diffBounds := LowerAndUpperBound(diffBs[..], percentiles, point.ratioDiff, SimplePercentile);
    var pChangeBounds := LowerAndUpperBound(pChangeBs[..], percentiles, point.pChange, SimplePercentile);
    r := BinResult(point, ratioBaseBounds, ratioConBounds, diffBounds, pChangeBounds);
    ComputedStep(st, log10, sample, outs, r);
  }

  /** Writes entry `i` of the sixteen output arrays: the estimate, the two
      bounds and the count of each statistic in bin `i`. */
  method StoreBin(out: array2<Num>, i: nat, r: BinResult, ghost outs: seq<BinResult>)
    requires Filled(out, outs) && i == |outs| < out.Length1
    modifies out
    ensures Filled(out, outs + [r])
  {
    forall row | 0 <= row < Outputs {
      out[row, i] := Cell(r, StatOf(row), PartOf(row));
    }
  }

  /** `calculate_balanced_energy_ratio`: sixteen NaN-initialised arrays, one
      entry per wind-direction bin; every bin that is not skipped gets its
      point estimate, its counts and the bootstrap bounds of its four
      statistics. */
  method CalculateBalancedEnergyRatio(st: Study, log10: real -> real, sample: Draw -> seq<nat>)
    returns (out: array2<Num>)
    requires st.Valid() && ValidSampler(sample)
    ensures fresh(out) && out.Length0 == Outputs && out.Length1 == |st.bins|
    ensures forall row, k :: 0 <= row < Outputs && 0 <= k < |st.bins| ==>
              out[row, k] == Column(st, log10, sample, StatOf(row), PartOf(row))[k]
  {
    var radius := BinRadius(st.bins, st.overlap);
    var n := |st.bins|;
    out := Preallocate(n);
    var nBootstrap := st.nBootstrap;
    ghost var outs: seq<BinResult> := [];
    for i := 0 to n
      invariant nBootstrap == IterationsBefore(st, log10, i)
      invariant |outs| == i && Computed(st, log10, sample, outs)
      invariant Filled(out, outs)
    {
      var wb := Window(st.base, st.bins[i], radius);
      var wc := Window(st.con, st.bins[i], radius);
      if |wb.ws| == 0 || |wc.ws| == 0 {
        SkipFilled(out, outs);
        ComputedSkip(st, log10, sample, outs);
        outs := outs + [Untouched];
        continue;
      }
      var r;
      r, nBootstrap := Bin(st, log10, sample, i, wb, wc, nBootstrap, outs);
      StoreBin(out, i, r, outs);
      outs := outs + [r];
    }
    ComputedAll(st, log10, sample, outs);
    FilledColumns(st, log10, sample, out, outs);
  }
}

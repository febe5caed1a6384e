/** The balanced energy ratio of one wind-direction bin, and the small helpers
    the bootstrap uses: the iteration-count heuristic, the percentile pair of a
    confidence level and the two ways of turning percentiles into bounds. */
module EnergyRatio {
  import opened Numpy

  // ---------------------------------------------------------------------
  // Data
  // ---------------------------------------------------------------------

  /** The samples of one regime (baseline or controlled) inside one
      wind-direction bin: reference-turbine power, test-turbine power and the
      wind speed already truncated to an integer bucket, one entry per sample. */
  datatype Samples = Samples(refPow: seq<real>, testPow: seq<real>, ws: seq<int>) {

    /** Parallel arrays of one length; buckets index a lookup table, so they are non-negative. */
    predicate Valid() {
      |refPow| == |testPow| == |ws| && forall j :: 0 <= j < |ws| ==> ws[j] >= 0
    }

    /** The same boolean mask applied to every array. */
    function Keep(m: seq<bool>): (r: Samples)
      requires Valid() && |m| == |ws|
      ensures r.Valid() && |r.ws| == CountTrue(m)
      ensures r.refPow == Mask(refPow, m) && r.testPow == Mask(testPow, m) && r.ws == Mask(ws, m)
    {
      var kept := Mask(ws, m);
      assert forall j :: 0 <= j < |kept| ==> kept[j] in kept;
      Samples(Mask(refPow, m), Mask(testPow, m), kept)
    }
  }

  /** The eight values `energy_ratio` returns; `None` is NaN. */
  datatype EnergyRatios = EnergyRatios(
    ratioBase: Num, ratioCon: Num, ratioDiff: Num, pChange: Num,
    countsBase: Option<nat>, countsCon: Option<nat>, countsDiff: Option<nat>, countsPChange: Option<nat>)

  /** The eight NaNs returned when the regimes share no speed bucket. */
  const AllNaN := EnergyRatios(None, None, None, None, None, None, None, None)

  /** The two regimes saw at least one speed bucket in common. */
  predicate ShareBucket(a: seq<int>, b: seq<int>) {
    exists v :: v in a && v in b
  }

  // ---------------------------------------------------------------------
  // Independent reference definitions
  // ---------------------------------------------------------------------

  /** The number of rows whose bucket the other regime also saw. */
  function SharedRows(ws: seq<int>, other: seq<int>): nat {
    if |ws| == 0 then 0 else (if ws[0] in other then 1 else 0) + SharedRows(ws[1..], other)
  }

  /** The weight of bucket `v` for the regime whose speeds are `own`: the
      other regime's share of the samples in that bucket. */
  function Share(own: seq<int>, other: seq<int>, v: int): real
    requires v in other
  {
    CountPositive(other, v);
    Fraction(Count(own, v), Count(other, v))
  }

  /** The balanced sum written directly on the un-masked samples: every row
      whose bucket the other regime also saw, weighted by the other regime's
      share of that bucket; `own` is the full speed column counts are taken from. */
  function BalancedSum(xs: seq<real>, ws: seq<int>, own: seq<int>, other: seq<int>): real
    requires |xs| == |ws|
  {
    if |xs| == 0 then 0.0
    else (if ws[0] in other then xs[0] * Share(own, other, ws[0]) else 0.0)
         + BalancedSum(xs[1..], ws[1..], own, other)
  }

  /** The plain sum over the rows whose bucket the other regime also saw. */
  function SharedSum(xs: seq<real>, ws: seq<int>, other: seq<int>): real
    requires |xs| == |ws|
  {
    if |xs| == 0 then 0.0
    else (if ws[0] in other then xs[0] else 0.0) + SharedSum(xs[1..], ws[1..], other)
  }

  // ---------------------------------------------------------------------
  // energy_ratio
  // ---------------------------------------------------------------------

  /** `ws_unique`: the speed buckets seen in both regimes, increasing. */
  function SharedBuckets(b: Samples, c: Samples): (u: seq<int>)
    ensures StrictlyIncreasing(u)
    ensures forall v :: v in u <==> v in b.ws && v in c.ws
  {
    Intersect1d(Unique(b.ws), Unique(c.ws))
  }

  /** After masking with `np.isin(ws, ws_unique)`, every kept bucket is shared
      and the distinct buckets of the masked speeds are exactly `ws_unique`, so
      the count arrays of the two regimes line up index for index with it. */
  lemma {:induction false} MaskedBucketsAreShared(s: Samples, b: Samples, c: Samples)
    requires s == b || s == c
    ensures var kept := Mask(s.ws, IsIn(s.ws, SharedBuckets(b, c)));
      (forall j :: 0 <= j < |kept| ==> kept[j] in SharedBuckets(b, c)) &&
      Unique(kept) == SharedBuckets(b, c)
  {
    var u := SharedBuckets(b, c);
    var kept := Mask(s.ws, IsIn(s.ws, u));
    forall x ensures x in Unique(kept) <==> x in u {
      KeptByIsIn(s.ws, u, x);
    }
    forall j | 0 <= j < |kept| ensures kept[j] in u {
      KeptByIsIn(s.ws, u, kept[j]);
    }
    IncreasingWithSameElementsEqual(Unique(kept), u);
  }

  /** The count arrays of the masked regimes: aligned with `ws_unique`, every
      shared bucket counted at least once. */
  lemma {:induction false} AlignedCounts(s: Samples, b: Samples, c: Samples)
    requires s == b || s == c
    ensures var u := SharedBuckets(b, c);
      var kept := Mask(s.ws, IsIn(s.ws, u));
      var counts := CountsOf(kept, Unique(kept));
      Unique(kept) == u && |counts| == |u| &&
      (forall k :: 0 <= k < |u| ==> u[k] in kept && counts[k] == Count(kept, u[k]) > 0) &&
      (forall j :: 0 <= j < |kept| ==> kept[j] in u)
  {
    var u := SharedBuckets(b, c);
    var kept := Mask(s.ws, IsIn(s.ws, u));
    MaskedBucketsAreShared(s, b, c);
    forall k | 0 <= k < |u| ensures u[k] in kept && Count(kept, u[k]) > 0 {
      assert u[k] in Unique(kept);
      CountPositive(kept, u[k]);
    }
  }

  /** Shared buckets come from the (non-negative) speeds of the samples. */
  lemma {:induction false} SharedBucketsNonNegative(b: Samples, c: Samples)
    requires b.Valid() && c.Valid() && ShareBucket(b.ws, c.ws)
    ensures var u := SharedBuckets(b, c);
      |u| > 0 && forall k :: 0 <= k < |u| ==> u[k] >= 0
  {
    var u := SharedBuckets(b, c);
    var v :| v in b.ws && v in c.ws;
    assert v in u;
    forall k | 0 <= k < |u| ensures u[k] >= 0 {
      assert u[k] in u;
      var j :| 0 <= j < |b.ws| && b.ws[j] == u[k];
    }
  }

  /** Every masked speed is a valid index of the lookup table. */
  lemma {:induction false} LookupsInRange(kept: seq<int>, u: seq<int>, lut: seq<real>)
    requires forall j :: 0 <= j < |kept| ==> kept[j] in u
    requires forall k :: 0 <= k < |u| ==> 0 <= u[k] < |lut|
    ensures forall j :: 0 <= j < |kept| ==> 0 <= kept[j] < |lut|
  {
    forall j | 0 <= j < |kept| ensures 0 <= kept[j] < |lut| {
      var k :| 0 <= k < |u| && u[k] == kept[j];
    }
  }

  /** `counts_other / (counts_own + counts_other)`: the other regime's share
      of one bucket's samples. */
  function Fraction(own: nat, other: nat): (r: real)
    requires own + other > 0
    ensures r * (own + other) as real == other as real
    ensures 0.0 <= r <= 1.0
    ensures own > 0 && other > 0 ==> 0.0 < r < 1.0
  {
    var t := (own + other) as real;
    var r := other as real / t;
    assert r * t == other as real;
    assert own as real / t * t == own as real;
    r
  }

  /** The two regimes' shares of one bucket sum to one, and equal counts give
      each of them one half. */
  lemma {:induction false} FractionsComplement(own: nat, other: nat)
    requires own + other > 0
    ensures Fraction(own, other) + Fraction(other, own) == 1.0
    ensures own == other ==> Fraction(own, other) == 0.5
  {
    var t := (own + other) as real;
    assert Fraction(own, other) == other as real / t;
    assert Fraction(other, own) == own as real / (other + own) as real;
    assert (other + own) as real == t;
    SharesOfTotal(other as real, own as real, t);
  }

  /** Two parts of a positive total, as fractions of it. */
  lemma {:induction false} SharesOfTotal(x: real, y: real, t: real)
    requires t > 0.0 && x + y == t
    ensures x / t + y / t == 1.0
    ensures x == y ==> x / t == 0.5
  {
    assert x / t + y / t == (x + y) / t;
  }

  /** `counts_other / (counts_own + counts_other)`, bucket by bucket. */
  function Weights(countsOwn: seq<nat>, countsOther: seq<nat>): (w: seq<real>)
    requires |countsOwn| == |countsOther|
    requires forall k :: 0 <= k < |countsOwn| ==> countsOwn[k] + countsOther[k] > 0
    ensures |w| == |countsOwn|
    ensures forall k :: 0 <= k < |w| ==> w[k] == Fraction(countsOwn[k], countsOther[k])
  {
    seq(|countsOwn|, k requires 0 <= k < |countsOwn| =>
      Fraction(countsOwn[k], countsOther[k]))
  }

  /** `lut = np.zeros(np.max(ws_unique) + 1); lut[ws_unique] = weights`;
      `ws_unique` is increasing, so its maximum is its last entry. */
  function LookupTable(wsUnique: seq<int>, weights: seq<real>): (lut: seq<real>)
    requires StrictlyIncreasing(wsUnique) && |wsUnique| > 0 && |weights| == |wsUnique|
    requires forall k :: 0 <= k < |wsUnique| ==> wsUnique[k] >= 0
    ensures forall k :: 0 <= k < |wsUnique| ==> 0 <= wsUnique[k] < |lut| && lut[wsUnique[k]] == weights[k]
  {
    var top := wsUnique[|wsUnique| - 1];
    assert forall k :: 0 <= k < |wsUnique| ==> wsUnique[k] <= top;
    Scatter(Zeros(top + 1), wsUnique, weights)
  }

  /** The lookup table of one regime: counts taken on the masked speeds
      `own` and `other` of both regimes, bucket by bucket along `wsUnique`
      (which `AlignedCounts` shows to be `np.unique` of either masked
      column), weights `counts_other / (counts_own + counts_other)`. */
  function Table(wsUnique: seq<int>, own: seq<int>, other: seq<int>): (lut: seq<real>)
    requires StrictlyIncreasing(wsUnique) && |wsUnique| > 0
    requires forall k :: 0 <= k < |wsUnique| ==> wsUnique[k] >= 0 && wsUnique[k] in own && wsUnique[k] in other
    ensures forall k :: 0 <= k < |wsUnique| ==>
      var v := wsUnique[k];
      0 <= v < |lut| && Count(own, v) > 0 && Count(other, v) > 0 &&
      lut[v] == Fraction(Count(own, v), Count(other, v))
  {
    var countsOwn := CountsOf(own, wsUnique);
    var countsOther := CountsOf(other, wsUnique);
    forall k | 0 <= k < |wsUnique| ensures Count(own, wsUnique[k]) > 0 && Count(other, wsUnique[k]) > 0 {
      CountPositive(own, wsUnique[k]);
      CountPositive(other, wsUnique[k]);
    }
    LookupTable(wsUnique, Weights(countsOwn, countsOther))
  }

  /** The masked samples and the two weight lookup tables: `energy_ratio`'s
      masking and weighting step. */
  datatype Weighting = Weighting(wsUnique: seq<int>, base: Samples, con: Samples, lutBase: seq<real>, lutCon: seq<real>)

  /** Mask both regimes down to the shared buckets, count each bucket, and
      scatter the per-bucket weights into lookup tables indexed by bucket. */
  function Balance(b: Samples, c: Samples): (w: Weighting)
    requires b.Valid() && c.Valid() && ShareBucket(b.ws, c.ws)
    ensures w.wsUnique == SharedBuckets(b, c) && |w.wsUnique| > 0
    ensures w.base == b.Keep(IsIn(b.ws, w.wsUnique)) && w.con == c.Keep(IsIn(c.ws, w.wsUnique))
    ensures forall j :: 0 <= j < |w.base.ws| ==> 0 <= w.base.ws[j] < |w.lutBase|
    ensures forall j :: 0 <= j < |w.con.ws| ==> 0 <= w.con.ws[j] < |w.lutCon|
  {
    var wsUnique := SharedBuckets(b, c);
    var mb := b.Keep(IsIn(b.ws, wsUnique));
    var mc := c.Keep(IsIn(c.ws, wsUnique));
    AlignedCounts(b, b, c);
    AlignedCounts(c, b, c);
    SharedBucketsNonNegative(b, c);
    var lutBase := Table(wsUnique, mb.ws, mc.ws);
    var lutCon := Table(wsUnique, mc.ws, mb.ws);
    LookupsInRange(mb.ws, wsUnique, lutBase);
    LookupsInRange(mc.ws, wsUnique, lutCon);
    Weighting(wsUnique, mb, mc, lutBase, lutCon)
  }

  /** Bucket by bucket, the tables hold `counts_con / (counts_base + counts_con)`
      for the baseline and `counts_base / (counts_base + counts_con)` for the
      controlled regime, counts taken on the masked speeds. */
  lemma {:induction false} BalanceWeights(b: Samples, c: Samples)
    requires b.Valid() && c.Valid() && ShareBucket(b.ws, c.ws)
    ensures var w := Balance(b, c);
      forall k :: 0 <= k < |w.wsUnique| ==>
      var v := w.wsUnique[k];
      var nb, nc := Count(w.base.ws, v), Count(w.con.ws, v);
      nb > 0 && nc > 0 && 0 <= v < |w.lutBase| && 0 <= v < |w.lutCon| &&
      w.lutBase[v] == Fraction(nb, nc) && w.lutCon[v] == Fraction(nc, nb)
  {
    var w := Balance(b, c);
    AlignedCounts(b, b, c);
    AlignedCounts(c, b, c);
    SharedBucketsNonNegative(b, c);
    assert w.lutBase == Table(w.wsUnique, w.base.ws, w.con.ws);
    assert w.lutCon == Table(w.wsUnique, w.con.ws, w.base.ws);
  }

  /** `energy_ratio`: the balanced energy ratio of one wind-direction bin. */
  function EnergyRatio(b: Samples, c: Samples): (r: EnergyRatios)
    requires b.Valid() && c.Valid()
    ensures r == AllNaN <==> !ShareBucket(b.ws, c.ws)
    ensures ShareBucket(b.ws, c.ws) ==>
      r.countsBase == Some(SharedRows(b.ws, c.ws)) && r.countsCon == Some(SharedRows(c.ws, b.ws))
    ensures r.countsBase.Some? ==> r.countsBase.value <= |b.ws|
    ensures r.countsCon.Some? ==> r.countsCon.value <= |c.ws|
    ensures r.countsDiff == r.countsPChange
    ensures r.countsDiff.Some? ==>
      r.countsDiff.value <= r.countsBase.value && r.countsDiff.value <= r.countsCon.value &&
      (r.countsDiff.value == r.countsBase.value || r.countsDiff.value == r.countsCon.value)
    ensures r.ratioDiff == Sub(r.ratioCon, r.ratioBase) && r.pChange == PercentOf(r.ratioDiff, r.ratioBase)
  {
    var wsUnique := SharedBuckets(b, c);
    if |wsUnique| == 0 then
      AllNaN
    else
      assert wsUnique[0] in wsUnique;
      var w := Balance(b, c);
      var weightArrayBase := Take(w.lutBase, w.base.ws);
      var weightArrayCon := Take(w.lutCon, w.con.ws);
      var weightSumRefBase := Dot(w.base.refPow, weightArrayBase);
      var weightSumTestBase := Dot(w.base.testPow, weightArrayBase);
      var weightSumRefCon := Dot(w.con.refPow, weightArrayCon);
      var weightSumTestCon := Dot(w.con.testPow, weightArrayCon);
      var ratioBase := Div(weightSumTestBase, weightSumRefBase);
      var ratioCon := Div(weightSumTestCon, weightSumRefCon);
      var ratioDiff := Sub(ratioCon, ratioBase);
      var pChange := PercentOf(ratioDiff, ratioBase);
      var countsBase := |w.base.refPow|;
      var countsCon := |w.con.refPow|;
      var countsDiff := if countsBase <= countsCon then countsBase else countsCon;
      SharedRowsAreKept(b.ws, c.ws, wsUnique);
      SharedRowsAreKept(c.ws, b.ws, wsUnique);
      EnergyRatios(ratioBase, ratioCon, ratioDiff, pChange,
                   Some(countsBase), Some(countsCon), Some(countsDiff), Some(countsDiff))
  }

  // ---------------------------------------------------------------------
  // What the masking and the weights amount to
  // ---------------------------------------------------------------------

  /** Masking by the shared buckets keeps `SharedRows` rows: the same mask as
      testing membership in the other regime directly. */
  lemma {:induction false} SharedRowsAreKept(ws: seq<int>, other: seq<int>, u: seq<int>)
    requires forall v :: v in u <==> v in ws && v in other
    ensures IsIn(ws, u) == IsIn(ws, other)
    ensures CountTrue(IsIn(ws, other)) == SharedRows(ws, other)
  {
    forall j | 0 <= j < |ws| ensures IsIn(ws, u)[j] == IsIn(ws, other)[j] {
      var x := ws[j];
      assert x in ws;
      assert x in u <==> x in other;
    }
    SharedRowsCount(ws, other);
  }

  lemma {:induction false} SharedRowsCount(ws: seq<int>, other: seq<int>)
    ensures CountTrue(IsIn(ws, other)) == SharedRows(ws, other)
  {
    if |ws| > 0 {
      IsInTail(ws, other);
      SharedRowsCount(ws[1..], other);
    }
  }

  /** Masking keeps every row of a shared bucket, so its count is unchanged. */
  lemma {:induction false} MaskedCount(ws: seq<int>, other: seq<int>, v: int)
    requires v in other
    ensures Count(Mask(ws, IsIn(ws, other)), v) == Count(ws, v)
  {
    if |ws| > 0 {
      IsInTail(ws, other);
      MaskedCount(ws[1..], other, v);
      var m := IsIn(ws, other);
      var rest := Mask(ws[1..], m[1..]);
      if m[0] {
        assert Mask(ws, m) == [ws[0]] + rest;
        assert ([ws[0]] + rest)[1..] == rest;
      } else {
        assert Mask(ws, m) == rest;
      }
    }
  }

  /** The lookup tables hold, for every shared bucket `v`, the other regime's
      share of the samples in `v`; both weights lie strictly between 0 and 1,
      they sum to 1, and equal counts give each regime one half. */
  lemma {:induction false} BucketWeights(b: Samples, c: Samples, v: int)
    requires b.Valid() && c.Valid() && v in b.ws && v in c.ws
    ensures ShareBucket(b.ws, c.ws)
    ensures var w := Balance(b, c);
      0 <= v < |w.lutBase| && 0 <= v < |w.lutCon| &&
      w.lutBase[v] == Share(b.ws, c.ws, v) && w.lutCon[v] == Share(c.ws, b.ws, v)
    ensures 0.0 < Share(b.ws, c.ws, v) < 1.0 && 0.0 < Share(c.ws, b.ws, v) < 1.0
    ensures Share(b.ws, c.ws, v) + Share(c.ws, b.ws, v) == 1.0
    ensures Count(b.ws, v) == Count(c.ws, v) ==> Share(b.ws, c.ws, v) == 0.5 == Share(c.ws, b.ws, v)
  {
    var w := Balance(b, c);
    var u := w.wsUnique;
    BalanceWeights(b, c);
    assert v in u;
    var k :| 0 <= k < |u| && u[k] == v;
    MaskedBucketsAreShared(b, b, c);
    MaskedBucketsAreShared(c, b, c);
    SharedRowsAreKept(b.ws, c.ws, u);
    SharedRowsAreKept(c.ws, b.ws, u);
    MaskedCount(b.ws, c.ws, v);
    MaskedCount(c.ws, b.ws, v);
    var nb, nc := Count(b.ws, v), Count(c.ws, v);
    assert w.lutBase[v] == Fraction(nb, nc) && w.lutCon[v] == Fraction(nc, nb);
    FractionsComplement(nb, nc);
    FractionsComplement(nc, nb);
  }

  /** Every bucket the mask keeps has an entry in the lookup table. */
  lemma {:induction false} MaskedInRange(ws: seq<int>, other: seq<int>, lut: seq<real>)
    requires forall v :: v in ws && v in other ==> 0 <= v < |lut|
    ensures forall k :: 0 <= k < |Mask(ws, IsIn(ws, other))| ==> 0 <= Mask(ws, IsIn(ws, other))[k] < |lut|
  {
    var kept := Mask(ws, IsIn(ws, other));
    forall k | 0 <= k < |kept| ensures 0 <= kept[k] < |lut| {
      var x := kept[k];
      assert x in kept;
      KeptByIsIn(ws, other, x);
    }
  }

  /** The weighted sum over the masked rows, with weights looked up by bucket,
      is the balanced sum over all rows. */
  lemma {:induction false} MaskedDotIsBalancedSum(xs: seq<real>, ws: seq<int>, own: seq<int>, other: seq<int>, lut: seq<real>)
    requires |xs| == |ws|
    requires forall v :: v in ws && v in other ==> 0 <= v < |lut| && lut[v] == Share(own, other, v)
    ensures forall k :: 0 <= k < |Mask(ws, IsIn(ws, other))| ==> 0 <= Mask(ws, IsIn(ws, other))[k] < |lut|
    ensures Dot(Mask(xs, IsIn(ws, other)), Take(lut, Mask(ws, IsIn(ws, other)))) == BalancedSum(xs, ws, own, other)
  {
    MaskedInRange(ws, other, lut);
    if |xs| > 0 {
      assert forall v :: v in ws[1..] ==> v in ws;
      MaskedDotIsBalancedSum(xs[1..], ws[1..], own, other, lut);
      assert ws[0] in ws;
      MaskedDotStep(xs, ws, own, other, lut);
    }
  }

  /** One row of the induction above: the head row adds its weighted power
      when its bucket is shared and nothing otherwise. */
  lemma {:induction false} MaskedDotStep(xs: seq<real>, ws: seq<int>, own: seq<int>, other: seq<int>, lut: seq<real>)
    requires |xs| == |ws| > 0
    requires forall k :: 0 <= k < |Mask(ws, IsIn(ws, other))| ==> 0 <= Mask(ws, IsIn(ws, other))[k] < |lut|
    requires ws[0] in other ==> 0 <= ws[0] < |lut| && lut[ws[0]] == Share(own, other, ws[0])
    requires forall k :: 0 <= k < |Mask(ws[1..], IsIn(ws[1..], other))| ==> 0 <= Mask(ws[1..], IsIn(ws[1..], other))[k] < |lut|
    requires Dot(Mask(xs[1..], IsIn(ws[1..], other)), Take(lut, Mask(ws[1..], IsIn(ws[1..], other))))
      == BalancedSum(xs[1..], ws[1..], own, other)
    ensures Dot(Mask(xs, IsIn(ws, other)), Take(lut, Mask(ws, IsIn(ws, other)))) == BalancedSum(xs, ws, own, other)
  {
    IsInTail(ws, other);
    MaskedGatherDotHead(xs, ws, IsIn(ws, other), lut);
    BalancedSumHead(xs, ws, own, other);
  }

  /** The first row of a balanced sum. */
  lemma {:induction false} BalancedSumHead(xs: seq<real>, ws: seq<int>, own: seq<int>, other: seq<int>)
    requires |xs| == |ws| > 0
    ensures ws[0] in other ==>
      BalancedSum(xs, ws, own, other) == xs[0] * Share(own, other, ws[0]) + BalancedSum(xs[1..], ws[1..], own, other)
    ensures ws[0] !in other ==> BalancedSum(xs, ws, own, other) == BalancedSum(xs[1..], ws[1..], own, other)
  {
  }

  /** The two ratios are the balanced sums of test power over the balanced sums
      of reference power, taken on the un-masked samples of each regime. */
  lemma {:induction false} RatiosAreBalanced(b: Samples, c: Samples)
    requires b.Valid() && c.Valid() && ShareBucket(b.ws, c.ws)
    ensures EnergyRatio(b, c).ratioBase ==
      Div(BalancedSum(b.testPow, b.ws, b.ws, c.ws), BalancedSum(b.refPow, b.ws, b.ws, c.ws))
    ensures EnergyRatio(b, c).ratioCon ==
      Div(BalancedSum(c.testPow, c.ws, c.ws, b.ws), BalancedSum(c.refPow, c.ws, c.ws, b.ws))
  {
    var w := Balance(b, c);
    SharedRowsAreKept(b.ws, c.ws, w.wsUnique);
    SharedRowsAreKept(c.ws, b.ws, w.wsUnique);
    forall v | v in b.ws && v in c.ws
      ensures 0 <= v < |w.lutBase| && w.lutBase[v] == Share(b.ws, c.ws, v)
      ensures 0 <= v < |w.lutCon| && w.lutCon[v] == Share(c.ws, b.ws, v)
    {
      BucketWeights(b, c, v);
    }
    MaskedDotIsBalancedSum(b.testPow, b.ws, b.ws, c.ws, w.lutBase);
    MaskedDotIsBalancedSum(b.refPow, b.ws, b.ws, c.ws, w.lutBase);
    MaskedDotIsBalancedSum(c.testPow, c.ws, c.ws, b.ws, w.lutCon);
    MaskedDotIsBalancedSum(c.refPow, c.ws, c.ws, b.ws, w.lutCon);
  }

  /** Identical baseline and controlled samples give identical ratios, a zero
      difference and a zero percent change (when those are defined). */
  lemma {:induction false} IdenticalRegimes(s: Samples)
    requires s.Valid() && |s.ws| > 0
    ensures var r := EnergyRatio(s, s);
      r.ratioBase == r.ratioCon &&
      (r.ratioBase.Some? ==> r.ratioDiff == Some(0.0)) &&
      (r.ratioBase.Some? && r.ratioBase.value != 0.0 ==> r.pChange == Some(0.0)) &&
      r.countsBase == r.countsCon == r.countsDiff == Some(|s.ws|)
  {
    assert s.ws[0] in s.ws;
    var r := EnergyRatio(s, s);
    SharedRowsAll(s.ws);
    NoChange(r.ratioBase);
  }

  /** A ratio compared with itself: zero difference, zero percent change. */
  lemma {:induction false} NoChange(x: Num)
    ensures x.Some? ==> Sub(x, x) == Some(0.0)
    ensures x.Some? && x.value != 0.0 ==> PercentOf(Sub(x, x), x) == Some(0.0)
  {
    if x.Some? && x.value != 0.0 {
      var p := PercentOf(Sub(x, x), x);
      assert p.value * x.value == 0.0;
    }
  }

  lemma {:induction false} SharedRowsAll(ws: seq<int>)
    ensures SharedRows(ws, ws) == |ws|
  {
    assert forall j :: 0 <= j < |ws| ==> ws[j] in ws;
    SharedRowsOfSubsequence(ws, ws);
  }

  lemma {:induction false} SharedRowsOfSubsequence(ws: seq<int>, other: seq<int>)
    requires forall j :: 0 <= j < |ws| ==> ws[j] in other
    ensures SharedRows(ws, other) == |ws|
  {
    if |ws| > 0 {
      assert forall j :: 0 <= j < |ws[1..]| ==> ws[1..][j] == ws[j + 1];
      SharedRowsOfSubsequence(ws[1..], other);
    }
  }

  /** With equal per-bucket counts every weight is one half. */
  lemma {:induction false} EqualCountsHalveSum(xs: seq<real>, ws: seq<int>, own: seq<int>, other: seq<int>)
    requires |xs| == |ws|
    requires forall v :: v in ws && v in other ==> Count(own, v) == Count(other, v)
    ensures BalancedSum(xs, ws, own, other) == 0.5 * SharedSum(xs, ws, other)
  {
    if |xs| > 0 {
      assert forall v :: v in ws[1..] ==> v in ws;
      EqualCountsHalveSum(xs[1..], ws[1..], own, other);
      BalancedSumHead(xs, ws, own, other);
      var x := ws[0];
      if x in other {
        assert x in ws;
        CountPositive(other, x);
        FractionsComplement(Count(own, x), Count(other, x));
        assert Share(own, other, x) == 0.5;
      }
    }
  }

  /** When both regimes hold the same number of samples in every shared
      bucket, the balanced ratio is the plain ratio of summed test power to
      summed reference power over the shared-bucket rows. */
  lemma {:induction false} EqualCountsGiveUnweightedRatio(b: Samples, c: Samples)
    requires b.Valid() && c.Valid() && ShareBucket(b.ws, c.ws)
    requires forall v :: v in b.ws && v in c.ws ==> Count(b.ws, v) == Count(c.ws, v)
    ensures EnergyRatio(b, c).ratioBase ==
      Div(SharedSum(b.testPow, b.ws, c.ws), SharedSum(b.refPow, b.ws, c.ws))
    ensures EnergyRatio(b, c).ratioCon ==
      Div(SharedSum(c.testPow, c.ws, b.ws), SharedSum(c.refPow, c.ws, b.ws))
  {
    RatiosAreBalanced(b, c);
    EqualCountsRatio(b.testPow, b.refPow, b.ws, c.ws);
    EqualCountsRatio(c.testPow, c.refPow, c.ws, b.ws);
  }

  /** The ratio of two balanced sums under equal counts: the halves cancel. */
  lemma {:induction false} EqualCountsRatio(test: seq<real>, ref: seq<real>, ws: seq<int>, other: seq<int>)
    requires |test| == |ref| == |ws|
    requires forall v :: v in ws && v in other ==> Count(ws, v) == Count(other, v)
    ensures Div(BalancedSum(test, ws, ws, other), BalancedSum(ref, ws, ws, other)) ==
      Div(SharedSum(test, ws, other), SharedSum(ref, ws, other))
  {
    EqualCountsHalveSum(test, ws, ws, other);
    EqualCountsHalveSum(ref, ws, ws, other);
    HalvesCancel(SharedSum(test, ws, other), SharedSum(ref, ws, other));
  }

  lemma {:induction false} HalvesCancel(a: real, d: real)
    ensures Div(0.5 * a, 0.5 * d) == Div(a, d)
  {
    if d != 0.0 {
      assert (0.5 * a) / (0.5 * d) == a / d;
    }
  }

  // ---------------------------------------------------------------------
  // Helpers of the bootstrap
  // ---------------------------------------------------------------------

  const MinimumIterations := 2000
  const MaximumIterations := 10000

  /** `max(min(x, maximum), minimum)`. */
  function Clamp(x: real): (r: real)
    ensures MinimumIterations as real <= r <= MaximumIterations as real
    ensures MinimumIterations as real <= x <= MaximumIterations as real ==> r == x
    ensures x < MinimumIterations as real ==> r == MinimumIterations as real
    ensures x > MaximumIterations as real ==> r == MaximumIterations as real
  {
    var capped := if MaximumIterations as real < x then MaximumIterations as real else x;
    if MinimumIterations as real > capped then MinimumIterations as real else capped
  }

  /** `_calculate_bootstrap_iterations`: `n * log10(n)` clamped to
      [2000, 10000] and rounded half to even; `logN` is the caller's
      `log10(n)`. */
  function BootstrapIterations(n: nat, logN: real): (r: nat)
    ensures MinimumIterations <= r <= MaximumIterations
    ensures var x := n as real * logN;
      MinimumIterations as real <= x <= MaximumIterations as real ==> x - 0.5 <= r as real <= x + 0.5
    ensures n as real * logN <= MinimumIterations as real ==> r == MinimumIterations
    ensures n as real * logN >= MaximumIterations as real ==> r == MaximumIterations
  {
    RoundHalfEven(Clamp(n as real * logN))
  }

  /** With a logarithm that is non-negative and non-decreasing, more samples
      never mean fewer iterations. */
  lemma {:induction false} BootstrapIterationsMonotone(n1: nat, n2: nat, log1: real, log2: real)
    requires n1 <= n2 && 0.0 <= log1 <= log2
    ensures BootstrapIterations(n1, log1) <= BootstrapIterations(n2, log2)
  {
    assert n1 as real * log1 <= n2 as real * log2 by {
      ProductMonotone(n1 as real, n2 as real, log1, log2);
    }
    RoundedClampMonotone(n1 as real * log1, n2 as real * log2);
  }

  lemma {:induction false} RoundedClampMonotone(x: real, y: real)
    requires x <= y
    ensures RoundHalfEven(Clamp(x)) <= RoundHalfEven(Clamp(y))
  {
    RoundHalfEvenMonotone(Clamp(x), Clamp(y));
  }

  lemma {:induction false} ProductMonotone(a1: real, a2: real, l1: real, l2: real)
    requires 0.0 <= a1 <= a2 && 0.0 <= l1 <= l2
    ensures a1 * l1 <= a2 * l2
  {
    MulNonnegative(a2 - a1, l1);
    MulNonnegative(a2, l2 - l1);
    assert a2 * l2 - a1 * l1 == (a2 - a1) * l1 + a2 * (l2 - l1);
  }

  /** `_get_confidence_bounds`: the percentile pair `[50 + c/2, 50 - c/2]`. */
  function ConfidenceBounds(confidence: real): (p: (real, real))
    ensures p.0 + p.1 == 100.0
    ensures p.0 - p.1 == confidence
    ensures 0.0 <= confidence <= 100.0 ==> 50.0 <= p.0 <= 100.0 && 0.0 <= p.1 <= 50.0
    ensures -100.0 <= confidence <= 100.0 ==> 0.0 <= p.0 <= 100.0 && 0.0 <= p.1 <= 100.0
  {
    (50.0 + 0.5 * confidence, 50.0 - 0.5 * confidence)
  }

  /** The `method` argument of `_calculate_lower_and_upper_bound`: the string
      'simple_percentile', or anything else for bounds reflected about the
      point estimate. */
  datatype IntervalMethod = SimplePercentile | Reflected

  /** `_calculate_lower_and_upper_bound`: the two requested percentiles of the
      bootstrap values, taken as they are or reflected about the central
      estimate. The first percentile is returned as `lower`. */
  function LowerAndUpperBound(bs: seq<Num>, percentiles: (real, real), central: Num, m: IntervalMethod): (r: (Num, Num))
    requires |bs| > 0
    requires 0.0 <= percentiles.0 <= 100.0 && 0.0 <= percentiles.1 <= 100.0
    ensures (r.0.Some? <==> r.1.Some?) && (r.0.Some? <==>
      (forall k :: 0 <= k < |bs| ==> bs[k].Some?) && (m == Reflected ==> central.Some?))
    ensures m == SimplePercentile && r.0.Some? ==>
      Min(Values(bs)) <= r.0.value <= Max(Values(bs)) && Min(Values(bs)) <= r.1.value <= Max(Values(bs))
    ensures m == Reflected && r.0.Some? ==>
      2.0 * central.value - Max(Values(bs)) <= r.0.value <= 2.0 * central.value - Min(Values(bs)) &&
      2.0 * central.value - Max(Values(bs)) <= r.1.value <= 2.0 * central.value - Min(Values(bs))
  {
    var lower := NanPercentile(bs, percentiles.0);
    var upper := NanPercentile(bs, percentiles.1);
    match m
    case SimplePercentile => (lower, upper)
    case Reflected =>
      if central.Some? && lower.Some? then
        (Some(2.0 * central.value - lower.value), Some(2.0 * central.value - upper.value))
      else (None, None)
  }

  /** With the percentile pair of a confidence level `c >= 0`, the simple
      method names the higher percentile `lower`, so `lower >= upper`; the
      reflected method puts them the other way round; and the two lowers (and
      the two uppers) are mirror images about the central estimate. */
  lemma {:induction false} BoundsOrientation(bs: seq<Num>, confidence: real, central: real)
    requires |bs| > 0 && 0.0 <= confidence <= 100.0
    requires forall k :: 0 <= k < |bs| ==> bs[k].Some?
    ensures var p := ConfidenceBounds(confidence);
      var s := LowerAndUpperBound(bs, p, Some(central), SimplePercentile);
      var f := LowerAndUpperBound(bs, p, Some(central), Reflected);
      s.0.Some? && s.1.Some? && f.0.Some? && f.1.Some? &&
      s.0.value >= s.1.value && f.0.value <= f.1.value &&
      s.0.value + f.0.value == 2.0 * central && s.1.value + f.1.value == 2.0 * central
  {
    var p := ConfidenceBounds(confidence);
    PercentileMonotone(Values(bs), p.1, p.0);
  }

  /** Raising the confidence level never narrows the simple-percentile
      interval: its `lower` (the higher percentile) does not fall and its
      `upper` does not rise. */
  lemma {:induction false} HigherConfidenceWidens(bs: seq<Num>, c1: real, c2: real)
    requires |bs| > 0 && 0.0 <= c1 <= c2 <= 100.0
    requires forall k :: 0 <= k < |bs| ==> bs[k].Some?
    ensures var narrow := LowerAndUpperBound(bs, ConfidenceBounds(c1), None, SimplePercentile);
      var wide := LowerAndUpperBound(bs, ConfidenceBounds(c2), None, SimplePercentile);
      narrow.0.Some? && wide.0.Some? &&
      wide.1.value <= narrow.1.value <= narrow.0.value <= wide.0.value
  {
    var p1, p2 := ConfidenceBounds(c1), ConfidenceBounds(c2);
    PercentileMonotone(Values(bs), p1.0, p2.0);
    PercentileMonotone(Values(bs), p2.1, p1.1);
    PercentileMonotone(Values(bs), p1.1, p1.0);
  }
}

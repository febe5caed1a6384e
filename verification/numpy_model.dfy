/** The handful of numpy operations the energy-ratio engine is built from,
    written out over Dafny's mathematical reals and integers.

    A float64 result that is NaN or an infinity is represented by `None`. */
module Numpy {

  datatype Option<+T> = None | Some(value: T)

  /** A float64 value; `None` stands for NaN (and for the infinities, which the
      engine treats as an undefined ratio too). */
  type Num = Option<real>

  // ---------------------------------------------------------------------
  // Float arithmetic with NaN propagation
  // ---------------------------------------------------------------------

  /** `a / b` on floats: division by zero gives an infinity or NaN. */
  function Div(a: real, b: real): (r: Num)
    ensures r.Some? <==> b != 0.0
    ensures r.Some? ==> r.value * b == a
  {
    if b == 0.0 then None else Some(a / b)
  }

  /** `a - b` where either side may be NaN. */
  function Sub(a: Num, b: Num): (r: Num)
    ensures r.Some? <==> a.Some? && b.Some?
    ensures r.Some? ==> r.value + b.value == a.value
  {
    if a.Some? && b.Some? then Some(a.value - b.value) else None
  }

  /** `100. * d / b` where either side may be NaN and `b` may be zero. */
  function PercentOf(d: Num, b: Num): (r: Num)
    ensures r.Some? <==> d.Some? && b.Some? && b.value != 0.0
    ensures r.Some? ==> r.value * b.value == 100.0 * d.value
  {
    if d.Some? && b.Some? then Div(100.0 * d.value, b.value) else None
  }

  // ---------------------------------------------------------------------
  // Conversions: astype(int) and np.round
  // ---------------------------------------------------------------------

  /** `astype(int)` on a float: truncation toward zero. */
  function Trunc(x: real): (r: int)
    ensures x >= 0.0 ==> 0 <= r && r as real <= x < r as real + 1.0
    ensures x < 0.0 ==> r <= 0 && r as real - 1.0 < x <= r as real
  {
    if x >= 0.0 then x.Floor else -((-x).Floor)
  }

  /** `np.round` to zero decimals: nearest integer, ties to the even one. */
  function RoundHalfEven(x: real): (r: int)
    ensures x - 0.5 <= r as real <= x + 0.5
    ensures x - x.Floor as real == 0.5 ==> r % 2 == 0
  {
    var f := x.Floor;
    var frac := x - f as real;
    if frac < 0.5 then f
    else if frac > 0.5 then f + 1
    else if f % 2 == 0 then f else f + 1
  }

  lemma {:induction false} RoundHalfEvenMonotone(x: real, y: real)
    requires x <= y
    ensures RoundHalfEven(x) <= RoundHalfEven(y)
  {
    if x.Floor < y.Floor {
      assert RoundHalfEven(x) <= x.Floor + 1 <= y.Floor <= RoundHalfEven(y);
    }
  }

  // ---------------------------------------------------------------------
  // Boolean masks, np.isin, gathering and scattering
  // ---------------------------------------------------------------------

  /** How many mask bits are set. */
  function CountTrue(m: seq<bool>): (c: nat)
    ensures c <= |m|
  {
    if |m| == 0 then 0 else (if m[0] then 1 else 0) + CountTrue(m[1..])
  }

  /** A mask selects nothing exactly when none of its bits is set. */
  lemma {:induction false} CountTrueZero(m: seq<bool>)
    ensures CountTrue(m) == 0 <==> forall j :: 0 <= j < |m| ==> !m[j]
  {
    if |m| > 0 {
      CountTrueZero(m[1..]);
      assert forall j :: 1 <= j < |m| ==> m[j] == m[1..][j - 1];
    }
  }

  /** Boolean-mask indexing `xs[m]`: the entries whose mask bit is set, in order. */
  function Mask<T>(xs: seq<T>, m: seq<bool>): (r: seq<T>)
    requires |xs| == |m|
    ensures |r| == CountTrue(m) <= |xs|
    ensures forall x :: x in r ==> x in xs
  {
    if |xs| == 0 then []
    else (if m[0] then [xs[0]] else []) + Mask(xs[1..], m[1..])
  }

  /** One step of the mask: the head survives exactly when its bit is set. */
  lemma {:induction false} MaskCons<T>(xs: seq<T>, m: seq<bool>)
    requires |xs| == |m| > 0
    ensures Mask(xs, m) == if m[0] then [xs[0]] + Mask(xs[1..], m[1..]) else Mask(xs[1..], m[1..])
  {
  }

  /** What survives a mask is exactly what the mask selects. */
  lemma {:induction false} MaskMember<T>(xs: seq<T>, m: seq<bool>, x: T)
    requires |xs| == |m|
    ensures x in Mask(xs, m) <==> exists j :: 0 <= j < |xs| && m[j] && xs[j] == x
  {
    if |xs| > 0 {
      MaskMember(xs[1..], m[1..], x);
      if exists j :: 0 <= j < |xs| && m[j] && xs[j] == x {
        var j :| 0 <= j < |xs| && m[j] && xs[j] == x;
        if j > 0 {
          assert m[1..][j - 1] && xs[1..][j - 1] == x;
        }
      }
      if x in Mask(xs[1..], m[1..]) {
        var j :| 0 <= j < |xs[1..]| && m[1..][j] && xs[1..][j] == x;
        assert m[j + 1] && xs[j + 1] == x;
      }
    }
  }

  /** The positions whose mask bit is set, in increasing order. */
  function Selected(m: seq<bool>): (sel: seq<int>)
    ensures |sel| == CountTrue(m)
    ensures StrictlyIncreasing(sel)
    ensures forall k :: 0 <= k < |sel| ==> 0 <= sel[k] < |m| && m[sel[k]]
    ensures forall j :: 0 <= j < |m| && m[j] ==> j in sel
  {
    if |m| == 0 then []
    else
      var rest := Selected(m[1..]);
      SelectedPositions(m, rest);
      SelectedIncreasing(m, rest);
      SelectedComplete(m, rest);
      (if m[0] then [0] else []) + Shift(rest)
  }

  /** Every position one further on. */
  function Shift(s: seq<int>): (r: seq<int>)
    ensures |r| == |s| && forall k :: 0 <= k < |s| ==> r[k] == s[k] + 1
  {
    seq(|s|, k requires 0 <= k < |s| => s[k] + 1)
  }

  /** The positions selected in the tail, one further on and behind the head
      when its bit is set, are as many as the set bits and all of them set. */
  lemma {:induction false} SelectedPositions(m: seq<bool>, rest: seq<int>)
    requires |m| > 0 && |rest| == CountTrue(m[1..])
    requires forall k :: 0 <= k < |rest| ==> 0 <= rest[k] < |m| - 1 && m[1..][rest[k]]
    ensures var sel := (if m[0] then [0] else []) + Shift(rest);
      |sel| == CountTrue(m) && forall k :: 0 <= k < |sel| ==> 0 <= sel[k] < |m| && m[sel[k]]
  {
    var sel := (if m[0] then [0] else []) + Shift(rest);
    var off := if m[0] then 1 else 0;
    assert forall k :: off <= k < |sel| ==> sel[k] == rest[k - off] + 1;
    forall k | 0 <= k < |sel| ensures 0 <= sel[k] < |m| && m[sel[k]] {
      if k >= off {
        assert m[1..][rest[k - off]];
      }
    }
  }

  /** Those positions are strictly increasing. */
  lemma {:induction false} SelectedIncreasing(m: seq<bool>, rest: seq<int>)
    requires |m| > 0 && StrictlyIncreasing(rest)
    requires forall k :: 0 <= k < |rest| ==> 0 <= rest[k] < |m| - 1
    ensures StrictlyIncreasing((if m[0] then [0] else []) + Shift(rest))
  {
    var sel := (if m[0] then [0] else []) + Shift(rest);
    var off := if m[0] then 1 else 0;
    forall a, b | 0 <= a < b < |sel| ensures sel[a] < sel[b] {
      if a >= off {
        assert sel[a] == rest[a - off] + 1 && sel[b] == rest[b - off] + 1;
      } else {
        assert sel[b] == rest[b - off] + 1;
      }
    }
  }

  /** Those positions miss no set bit. */
  lemma {:induction false} SelectedComplete(m: seq<bool>, rest: seq<int>)
    requires |m| > 0
    requires forall j :: 0 <= j < |m| - 1 && m[1..][j] ==> j in rest
    ensures forall j :: 0 <= j < |m| && m[j] ==> j in (if m[0] then [0] else []) + Shift(rest)
  {
    var sel := (if m[0] then [0] else []) + Shift(rest);
    var off := if m[0] then 1 else 0;
    forall j | 0 <= j < |m| && m[j] ensures j in sel {
      if j > 0 {
        assert m[1..][j - 1];
        var k :| 0 <= k < |rest| && rest[k] == j - 1;
        assert sel[k + off] == j;
      } else {
        assert sel[0] == 0;
      }
    }
  }

  /** Boolean-mask indexing gathers the selected positions: row `k` of
      `xs[m]` is row `Selected(m)[k]` of `xs`, so columns masked by the same
      `m` stay paired row by row. */
  lemma {:induction false} MaskIsTake<T>(xs: seq<T>, m: seq<bool>)
    requires |xs| == |m|
    ensures |Mask(xs, m)| == |Selected(m)|
    ensures forall k :: 0 <= k < |Selected(m)| ==> Mask(xs, m)[k] == xs[Selected(m)[k]]
  {
    if |xs| > 0 {
      MaskIsTake(xs[1..], m[1..]);
      assert Selected(m) == (if m[0] then [0] else []) + Shift(Selected(m[1..]));
      MaskCons(xs, m);
      GatherStep(xs, Mask(xs[1..], m[1..]), Selected(m[1..]), m[0]);
    }
  }

  /** Gathering through one more leading position, or through positions one
      further on. */
  lemma {:induction false} GatherStep<T>(xs: seq<T>, tail: seq<T>, rest: seq<int>, head: bool)
    requires |xs| > 0 && |tail| == |rest|
    requires forall k :: 0 <= k < |rest| ==> 0 <= rest[k] < |xs| - 1 && tail[k] == xs[1..][rest[k]]
    ensures var sel, whole := (if head then [0] else []) + Shift(rest), (if head then [xs[0]] else []) + tail;
      |whole| == |sel| && forall k :: 0 <= k < |sel| ==> 0 <= sel[k] < |xs| && whole[k] == xs[sel[k]]
  {
    var off := if head then 1 else 0;
    var sel, whole := (if head then [0] else []) + Shift(rest), (if head then [xs[0]] else []) + tail;
    forall k | 0 <= k < |sel| ensures 0 <= sel[k] < |xs| && whole[k] == xs[sel[k]] {
      if k >= off {
        assert sel[k] == rest[k - off] + 1 && whole[k] == tail[k - off];
      }
    }
  }

  /** Masking `xs` by `np.isin(xs, test)` keeps exactly the values also in `test`. */
  lemma {:induction false} KeptByIsIn(xs: seq<int>, test: seq<int>, x: int)
    ensures x in Mask(xs, IsIn(xs, test)) <==> x in xs && x in test
  {
    MaskMember(xs, IsIn(xs, test), x);
    if x in xs && x in test {
      var j :| 0 <= j < |xs| && xs[j] == x;
      assert IsIn(xs, test)[j];
    }
  }

  /** `np.isin(xs, test)`. */
  function IsIn(xs: seq<int>, test: seq<int>): (m: seq<bool>)
    ensures |m| == |xs|
    ensures forall j :: 0 <= j < |xs| ==> (m[j] <==> xs[j] in test)
  {
    seq(|xs|, j requires 0 <= j < |xs| => xs[j] in test)
  }

  lemma {:induction false} IsInTail(xs: seq<int>, test: seq<int>)
    requires |xs| > 0
    ensures IsIn(xs, test)[1..] == IsIn(xs[1..], test)
  {
  }

  /** Fancy indexing `a[idx]`. */
  function Take<T>(a: seq<T>, idx: seq<int>): (r: seq<T>)
    requires forall k :: 0 <= k < |idx| ==> 0 <= idx[k] < |a|
    ensures |r| == |idx|
    ensures forall k :: 0 <= k < |idx| ==> r[k] == a[idx[k]]
  {
    if |idx| == 0 then [] else [a[idx[0]]] + Take(a, idx[1..])
  }

  /** `np.zeros(n)`. */
  function Zeros(n: nat): (r: seq<real>)
    ensures |r| == n && forall p :: 0 <= p < n ==> r[p] == 0.0
  {
    seq(n, _ => 0.0)
  }

  /** Fancy assignment `a[idx] = vals`, applied position by position, so that
      the last write to a repeated index wins. */
  function Scatter(a: seq<real>, idx: seq<int>, vals: seq<real>): (r: seq<real>)
    requires |idx| == |vals|
    requires forall k :: 0 <= k < |idx| ==> 0 <= idx[k] < |a|
    ensures |r| == |a|
    ensures forall p :: 0 <= p < |a| && p !in idx ==> r[p] == a[p]
    ensures StrictlyIncreasing(idx) ==> forall k :: 0 <= k < |idx| ==> r[idx[k]] == vals[k]
  {
    if |idx| == 0 then a
    else
      var n := |idx| - 1;
      var prefix := Scatter(a, idx[..n], vals[..n]);
      assert forall p :: p in idx[..n] ==> p in idx;
      assert StrictlyIncreasing(idx) ==> StrictlyIncreasing(idx[..n]) && forall k :: 0 <= k < n ==> idx[k] != idx[n];
      prefix[idx[n] := vals[n]]
  }

  // ---------------------------------------------------------------------
  // np.unique and np.intersect1d
  // ---------------------------------------------------------------------

  predicate StrictlyIncreasing(s: seq<int>) {
    forall i, j :: 0 <= i < j < |s| ==> s[i] < s[j]
  }

  /** Insert `v` into a strictly increasing sequence, keeping it strictly increasing. */
  function Insert(u: seq<int>, v: int): (r: seq<int>)
    requires StrictlyIncreasing(u)
    ensures StrictlyIncreasing(r)
    ensures forall x :: x in r <==> x in u || x == v
  {
    if |u| == 0 then [v]
    else if v < u[0] then [v] + u
    else if v == u[0] then u
    else
      var rest := Insert(u[1..], v);
      assert u == [u[0]] + u[1..];
      assert forall x :: x in u[1..] ==> u[0] < x;
      assert forall k :: 0 <= k < |rest| ==> rest[k] in rest && u[0] < rest[k];
      [u[0]] + rest
  }

  /** `np.unique(xs)`: the distinct values of `xs`, in increasing order. */
  function Unique(xs: seq<int>): (u: seq<int>)
    ensures StrictlyIncreasing(u)
    ensures forall x :: x in u <==> x in xs
  {
    if |xs| == 0 then []
    else
      var n := |xs| - 1;
      assert xs == xs[..n] + [xs[n]];
      Insert(Unique(xs[..n]), xs[n])
  }

  /** Two strictly increasing sequences with the same elements are equal:
      sorted-distinct form is unique. */
  lemma {:induction false} IncreasingWithSameElementsEqual(a: seq<int>, b: seq<int>)
    requires StrictlyIncreasing(a) && StrictlyIncreasing(b)
    requires forall x :: x in a <==> x in b
    ensures a == b
  {
    if |a| > 0 && |b| > 0 {
      HeadIsLeast(a);
      HeadIsLeast(b);
      assert a[0] == b[0] by {
        assert a[0] in b && b[0] in a;
      }
      IncreasingWithSameElementsEqual(a[1..], b[1..]);
      assert a == [a[0]] + a[1..] && b == [b[0]] + b[1..];
    } else if |a| > 0 {
      HeadIsMember(a);
      assert false;
    } else if |b| > 0 {
      HeadIsMember(b);
      assert false;
    }
  }

  /** The head of a strictly increasing sequence is its least element, and
      the tail holds every other element, still strictly increasing. */
  lemma {:induction false} HeadIsLeast(a: seq<int>)
    requires StrictlyIncreasing(a) && |a| > 0
    ensures a[0] in a && forall x :: x in a ==> a[0] <= x
    ensures forall x :: x in a[1..] <==> x in a && x != a[0]
    ensures StrictlyIncreasing(a[1..])
  {
    forall x | x in a ensures a[0] <= x {
      var i :| 0 <= i < |a| && a[i] == x;
    }
    forall x ensures x in a[1..] <==> x in a && x != a[0] {
      if x in a && x != a[0] {
        var i :| 0 <= i < |a| && a[i] == x;
        assert a[1..][i - 1] == x;
      }
    }
  }

  lemma {:induction false} HeadIsMember(a: seq<int>)
    ensures |a| > 0 ==> a[0] in a
  {
  }

  /** `np.intersect1d(a, b)`: the values found in both, distinct and increasing. */
  function Intersect1d(a: seq<int>, b: seq<int>): (r: seq<int>)
    ensures StrictlyIncreasing(r)
    ensures forall x :: x in r <==> x in a && x in b
  {
    var common := Mask(a, IsIn(a, b));
    assert forall x :: x in common <==> x in a && x in b by {
      forall x ensures x in common <==> x in a && x in b {
        MaskMember(a, IsIn(a, b), x);
      }
    }
    Unique(common)
  }

  /** The `counts` of `np.unique(xs, return_counts=True)`, aligned with `u`. */
  function CountsOf(xs: seq<int>, u: seq<int>): (c: seq<nat>)
    ensures |c| == |u|
    ensures forall k :: 0 <= k < |u| ==> c[k] == Count(xs, u[k])
  {
    seq(|u|, k requires 0 <= k < |u| => Count(xs, u[k]))
  }

  /** `np.count_nonzero(xs == v)`: how many entries of `xs` equal `v`. */
  function Count(xs: seq<int>, v: int): (c: nat)
    ensures c <= |xs|
  {
    if |xs| == 0 then 0 else (if xs[0] == v then 1 else 0) + Count(xs[1..], v)
  }

  /** A value is counted exactly when it occurs. */
  lemma {:induction false} CountPositive(xs: seq<int>, v: int)
    ensures Count(xs, v) > 0 <==> v in xs
  {
    if |xs| > 0 {
      CountPositive(xs[1..], v);
      assert xs == [xs[0]] + xs[1..];
    }
  }

  // ---------------------------------------------------------------------
  // Sums
  // ---------------------------------------------------------------------

  /** `np.sum(xs * ws)`. */
  function Dot(xs: seq<real>, ws: seq<real>): real
    requires |xs| == |ws|
  {
    if |xs| == 0 then 0.0 else xs[0] * ws[0] + Dot(xs[1..], ws[1..])
  }

  /** One step of the weighted sum. */
  lemma {:induction false} DotCons(x: real, xs: seq<real>, w: real, ws: seq<real>)
    requires |xs| == |ws|
    ensures Dot([x] + xs, [w] + ws) == x * w + Dot(xs, ws)
  {
    assert ([x] + xs)[1..] == xs && ([w] + ws)[1..] == ws;
  }

  /** The first row of `np.sum(xs[m] * a[idx[m]])`: it adds its product
      when its mask bit is set and nothing otherwise. */
  lemma {:induction false} MaskedGatherDotHead(xs: seq<real>, idx: seq<int>, m: seq<bool>, a: seq<real>)
    requires |xs| == |idx| == |m| > 0
    requires forall k :: 0 <= k < |Mask(idx, m)| ==> 0 <= Mask(idx, m)[k] < |a|
    ensures m[0] ==> 0 <= idx[0] < |a|
    ensures forall k :: 0 <= k < |Mask(idx[1..], m[1..])| ==> 0 <= Mask(idx[1..], m[1..])[k] < |a|
    ensures Dot(Mask(xs, m), Take(a, Mask(idx, m))) ==
      (if m[0] then xs[0] * a[idx[0]] else 0.0) + Dot(Mask(xs[1..], m[1..]), Take(a, Mask(idx[1..], m[1..])))
  {
    var restX, restI := Mask(xs[1..], m[1..]), Mask(idx[1..], m[1..]);
    MaskCons(xs, m);
    MaskCons(idx, m);
    if m[0] {
      assert Mask(idx, m)[0] == idx[0];
      assert forall k :: 0 <= k < |restI| ==> restI[k] == Mask(idx, m)[k + 1];
      GatherDotCons(a, idx[0], restI, xs[0], restX);
    }
  }

  /** One more leading row of `np.sum(xs * a[idx])`. */
  lemma {:induction false} GatherDotCons(a: seq<real>, i: int, rest: seq<int>, x: real, xs: seq<real>)
    requires 0 <= i < |a| && forall k :: 0 <= k < |rest| ==> 0 <= rest[k] < |a|
    requires |xs| == |rest|
    ensures forall k :: 0 <= k < |[i] + rest| ==> 0 <= ([i] + rest)[k] < |a|
    ensures Dot([x] + xs, Take(a, [i] + rest)) == x * a[i] + Dot(xs, Take(a, rest))
  {
    TakeCons(a, i, rest);
    DotCons(x, xs, a[i], Take(a, rest));
  }

  /** Gathering through one more leading index. */
  lemma {:induction false} TakeCons<T>(a: seq<T>, i: int, rest: seq<int>)
    requires 0 <= i < |a| && forall k :: 0 <= k < |rest| ==> 0 <= rest[k] < |a|
    ensures forall k :: 0 <= k < |[i] + rest| ==> 0 <= ([i] + rest)[k] < |a|
    ensures Take(a, [i] + rest) == [a[i]] + Take(a, rest)
  {
  }

  // ---------------------------------------------------------------------
  // np.percentile (default 'linear' interpolation)
  // ---------------------------------------------------------------------

  predicate Sorted(s: seq<real>) {
    forall i, j :: 0 <= i <= j < |s| ==> s[i] <= s[j]
  }

  function InsertSorted(s: seq<real>, x: real): (r: seq<real>)
    requires Sorted(s)
    ensures Sorted(r) && |r| == |s| + 1
    ensures multiset(r) == multiset(s) + multiset{x}
  {
    if |s| == 0 then [x]
    else if x <= s[0] then [x] + s
    else
      var rest := InsertSorted(s[1..], x);
      assert s == [s[0]] + s[1..];
      InsertSortedHead(s, x, rest);
      assert multiset([s[0]] + rest) == multiset{s[0]} + multiset(rest);
      [s[0]] + rest
  }

  lemma {:induction false} InsertSortedHead(s: seq<real>, x: real, rest: seq<real>)
    requires Sorted(s) && |s| > 0 && s[0] < x && Sorted(rest)
    requires multiset(rest) == multiset(s[1..]) + multiset{x}
    ensures Sorted([s[0]] + rest)
  {
    forall k | 0 <= k < |rest| ensures s[0] <= rest[k] {
      var y := rest[k];
      assert y in multiset(rest);
      if y != x {
        assert y in multiset(s[1..]);
        var i :| 0 <= i < |s[1..]| && s[1..][i] == y;
        assert s[i + 1] == y;
      }
    }
  }

  /** The sorted copy numpy takes of the data before interpolating. */
  function Sort(xs: seq<real>): (s: seq<real>)
    ensures Sorted(s) && |s| == |xs|
    ensures multiset(s) == multiset(xs)
  {
    if |xs| == 0 then []
    else
      var n := |xs| - 1;
      assert xs == xs[..n] + [xs[n]];
      InsertSorted(Sort(xs[..n]), xs[n])
  }

  /** The least entry of a non-empty sequence. */
  function Min(xs: seq<real>): (m: real)
    requires |xs| > 0
    ensures m in xs && forall j :: 0 <= j < |xs| ==> m <= xs[j]
  {
    if |xs| == 1 then xs[0]
    else
      var rest := Min(xs[1..]);
      assert forall j :: 1 <= j < |xs| ==> xs[j] == xs[1..][j - 1];
      if xs[0] <= rest then xs[0] else rest
  }

  /** The greatest entry of a non-empty sequence. */
  function Max(xs: seq<real>): (m: real)
    requires |xs| > 0
    ensures m in xs && forall j :: 0 <= j < |xs| ==> xs[j] <= m
  {
    if |xs| == 1 then xs[0]
    else
      var rest := Max(xs[1..]);
      assert forall j :: 1 <= j < |xs| ==> xs[j] == xs[1..][j - 1];
      if xs[0] >= rest then xs[0] else rest
  }

  lemma {:induction false} MulNonnegative(a: real, b: real)
    requires 0.0 <= a && 0.0 <= b
    ensures 0.0 <= a * b
  {
  }

  /** The fractional rank `q/100 * (n-1)` that `np.percentile` reads at percentile `q`. */
  function Rank(n: nat, q: real): (rank: real)
    requires n > 0 && 0.0 <= q <= 100.0
    ensures 0.0 <= rank <= (n - 1) as real
  {
    var t := q / 100.0;
    var m := (n - 1) as real;
    MulNonnegative(t, m);
    MulNonnegative(1.0 - t, m);
    assert m - t * m == (1.0 - t) * m;
    t * m
  }

  lemma {:induction false} RankMonotone(n: nat, q1: real, q2: real)
    requires n > 0 && 0.0 <= q1 <= q2 <= 100.0
    ensures Rank(n, q1) <= Rank(n, q2)
  {
    var m := (n - 1) as real;
    MulNonnegative(q2 / 100.0 - q1 / 100.0, m);
    assert q2 / 100.0 * m - q1 / 100.0 * m == (q2 / 100.0 - q1 / 100.0) * m;
  }

  /** Linear interpolation in a sorted sequence at a fractional rank: the two
      neighbouring order statistics, weighted by the fractional part. */
  function Interpolate(s: seq<real>, rank: real): (r: real)
    requires Sorted(s) && 0.0 <= rank <= (|s| - 1) as real
    ensures s[rank.Floor] <= r <= s[if rank.Floor + 1 < |s| then rank.Floor + 1 else |s| - 1]
  {
    var lo := rank.Floor;
    var hi := if lo + 1 < |s| then lo + 1 else |s| - 1;
    var frac := rank - lo as real;
    var r := s[lo] * (1.0 - frac) + s[hi] * frac;
    assert r == s[lo] + frac * (s[hi] - s[lo]);
    MulNonnegative(frac, s[hi] - s[lo]);
    MulNonnegative(1.0 - frac, s[hi] - s[lo]);
    assert (s[hi] - s[lo]) - frac * (s[hi] - s[lo]) == (1.0 - frac) * (s[hi] - s[lo]);
    r
  }

  lemma {:induction false} InterpolateMonotone(s: seq<real>, rank1: real, rank2: real)
    requires Sorted(s) && 0.0 <= rank1 <= rank2 <= (|s| - 1) as real
    ensures Interpolate(s, rank1) <= Interpolate(s, rank2)
  {
    var lo1, lo2 := rank1.Floor, rank2.Floor;
    if lo1 == lo2 {
      var hi := if lo1 + 1 < |s| then lo1 + 1 else |s| - 1;
      var f1, f2 := rank1 - lo1 as real, rank2 - lo1 as real;
      assert Interpolate(s, rank1) == s[lo1] + f1 * (s[hi] - s[lo1]);
      assert Interpolate(s, rank2) == s[lo1] + f2 * (s[hi] - s[lo1]);
      MulNonnegative(f2 - f1, s[hi] - s[lo1]);
      assert f2 * (s[hi] - s[lo1]) - f1 * (s[hi] - s[lo1]) == (f2 - f1) * (s[hi] - s[lo1]);
    } else {
      assert lo1 + 1 <= lo2;
      assert Interpolate(s, rank1) <= s[lo1 + 1] <= s[lo2] <= Interpolate(s, rank2);
    }
  }

  /** `np.percentile(xs, q)` for finite data: sort, then interpolate linearly
      at the fractional rank `q/100 * (n-1)`. */
  function Percentile(xs: seq<real>, q: real): (r: real)
    requires |xs| > 0 && 0.0 <= q <= 100.0
    ensures Min(xs) <= r <= Max(xs)
  {
    var s := Sort(xs);
    var rank := Rank(|xs|, q);
    var r := Interpolate(s, rank);
    assert s[0] in multiset(xs) && s[|s| - 1] in multiset(xs);
    assert s[0] <= s[rank.Floor];
    r
  }

  /** A higher percentile of the same data is never smaller. */
  lemma {:induction false} PercentileMonotone(xs: seq<real>, q1: real, q2: real)
    requires |xs| > 0 && 0.0 <= q1 <= q2 <= 100.0
    ensures Percentile(xs, q1) <= Percentile(xs, q2)
  {
    RankMonotone(|xs|, q1, q2);
    InterpolateMonotone(Sort(xs), Rank(|xs|, q1), Rank(|xs|, q2));
  }

  /** `np.percentile` on float data that may hold NaN: any NaN makes the result NaN. */
  function NanPercentile(xs: seq<Num>, q: real): (r: Num)
    requires |xs| > 0 && 0.0 <= q <= 100.0
    ensures r.Some? <==> forall k :: 0 <= k < |xs| ==> xs[k].Some?
    ensures r.Some? ==> Min(Values(xs)) <= r.value <= Max(Values(xs))
  {
    if forall k :: 0 <= k < |xs| ==> xs[k].Some? then
      Some(Percentile(Values(xs), q))
    else None
  }

  /** The finite values of NaN-free float data. */
  function Values(xs: seq<Num>): (vs: seq<real>)
    requires forall k :: 0 <= k < |xs| ==> xs[k].Some?
    ensures |vs| == |xs| && forall k :: 0 <= k < |xs| ==> vs[k] == xs[k].value
  {
    seq(|xs|, k requires 0 <= k < |xs| => xs[k].value)
  }
}

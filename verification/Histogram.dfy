/** Quantiles and fractions of a bucketed histogram by linear interpolation, over exact
    reals. The last bucket has no upper bound. */
module Histogram {

  datatype HistSample = HistSample(count: nat, bounds: seq<real>, counts: seq<nat>)

  datatype Value = NaN | Infinity | Num(r: real)

  ghost predicate Ascending(bounds: seq<real>) {
    forall i, j | 0 <= i < j < |bounds| :: bounds[i] <= bounds[j]
  }

  ghost predicate StrictlyAscending(bounds: seq<real>) {
    forall i, j | 0 <= i < j < |bounds| :: bounds[i] < bounds[j]
  }

  /** A missing count is zero. */
  function Count(h: HistSample, i: nat): (c: real)
    ensures c >= 0.0
  {
    if i < |h.counts| then h.counts[i] as real else 0.0
  }

  /** Observations in the finite buckets from the `i`th on. */
  function FiniteFrom(h: HistSample, i: nat): (s: real)
    ensures s >= 0.0
    decreases |h.bounds| - i
  {
    if i >= |h.bounds| then 0.0 else Count(h, i) + FiniteFrom(h, i + 1)
  }

  /** The point that has `part` of a bucket's `c` observations below it. */
  function Inside(low: real, bound: real, part: real, c: real): real
    requires c > 0.0
  {
    low + (bound - low) * (part / c)
  }

  /** How many of a bucket's `c` observations lie below a point inside it. */
  function Share(low: real, bound: real, v: real, c: real): real {
    c * (if bound > low then (v - low) / (bound - low) else 0.0)
  }

  function Rank(h: HistSample, q: real): real {
    q * h.count as real
  }

  // ------------------------------------------------------------------ quantile

  /** Where rank `target` lies, having passed `prev` observations below `low`. */
  function QuantileFrom(h: HistSample, i: nat, prev: real, low: real, target: real): real
    decreases |h.bounds| - i
  {
    if i >= |h.bounds| then low
    else
      var c, bound := Count(h, i), h.bounds[i];
      if prev + c >= target then
        if c <= 0.0 then bound else Inside(low, bound, target - prev, c)
      else QuantileFrom(h, i + 1, prev + c, bound, target)
  }

  function Quantile(h: HistSample, q: real): Value {
    if h.count == 0 || !(0.0 <= q <= 1.0) then NaN
    else if h.bounds == [] then Infinity
    else Num(QuantileFrom(h, 0, 0.0, 0.0, Rank(h, q)))
  }

  method ComputeQuantile(h: HistSample, q: real) returns (v: Value)
    ensures v == Quantile(h, q)
  {
    var total := h.count as real;
    if total <= 0.0 || !(0.0 <= q <= 1.0) {
      return NaN;
    }
    var target := Rank(h, q);
    var prev, low := 0.0, 0.0;
    for i := 0 to |h.bounds|
      invariant QuantileFrom(h, i, prev, low, target) == QuantileFrom(h, 0, 0.0, 0.0, target)
      invariant i > 0 ==> low == h.bounds[i - 1]
    {
      var c, bound := Count(h, i), h.bounds[i];
      if prev + c >= target {
        if c <= 0.0 {
          return Num(bound);
        }
        return Num(Inside(low, bound, target - prev, c));
      }
      prev, low := prev + c, bound;
    }
    if h.bounds == [] {
      return Infinity;
    }
    return Num(h.bounds[|h.bounds| - 1]);
  }

  // ------------------------------------------------------------------ fraction

  /** Observations below `v` in the buckets from the `i`th on, which starts at `low`. */
  function BelowFrom(h: HistSample, i: nat, low: real, v: real): real
    decreases |h.bounds| - i
  {
    if i >= |h.bounds| || v <= low then 0.0
    else
      var c, bound := Count(h, i), h.bounds[i];
      if v >= bound then c + BelowFrom(h, i + 1, bound, v)
      else Share(low, bound, v, c)
  }

  function Min(a: real, b: real): real {
    if a < b then a else b
  }

  function Below(h: HistSample, v: real): real {
    Min(BelowFrom(h, 0, 0.0, v), h.count as real)
  }

  function Fraction(h: HistSample, lower: real, upper: real): Value {
    if h.count == 0 then NaN
    else
      var d := Below(h, upper) - Below(h, lower);
      Num((if d < 0.0 then 0.0 else d) / h.count as real)
  }

  method ComputeBelow(h: HistSample, v: real) returns (n: real)
    ensures n == Below(h, v)
  {
    var acc, low := 0.0, 0.0;
    var i := 0;
    while i < |h.bounds|
      invariant i <= |h.bounds|
      invariant acc + BelowFrom(h, i, low, v) == BelowFrom(h, 0, 0.0, v)
    {
      var c, bound := Count(h, i), h.bounds[i];
      if v <= low {
        break;
      }
      if v >= bound {
        acc := acc + c;
      } else {
        acc := acc + Share(low, bound, v, c);
        return Min(acc, h.count as real);
      }
      low, i := bound, i + 1;
    }
    n := Min(acc, h.count as real);
  }

  method ComputeFraction(h: HistSample, lower: real, upper: real) returns (f: Value)
    ensures f == Fraction(h, lower, upper)
  {
    var total := h.count as real;
    if total <= 0.0 {
      return NaN;
    }
    var up := ComputeBelow(h, upper);
    var lo := ComputeBelow(h, lower);
    var d := up - lo;
    f := Num((if d < 0.0 then 0.0 else d) / total);
  }

  // -------------------------------------------------------- interpolation facts

  lemma Quotient(a: real, c: real)
    requires c > 0.0 && 0.0 <= a <= c
    ensures 0.0 <= a / c <= 1.0 && (a / c == 1.0 <==> a == c) && (a / c == 0.0 <==> a == 0.0)
  {
    assert a / c * c == a;
  }

  lemma DivMonotone(a: real, b: real, c: real)
    requires c > 0.0 && a <= b
    ensures a / c <= b / c
  {
  }

  lemma MulMonotone(x: real, a: real, b: real)
    requires x >= 0.0 && a <= b
    ensures x * a <= x * b
  {
  }

  lemma InsideBounds(low: real, bound: real, part: real, c: real)
    requires c > 0.0 && 0.0 <= part <= c && low <= bound
    ensures low <= Inside(low, bound, part, c) <= bound
  {
    Quotient(part, c);
    MulMonotone(bound - low, 0.0, part / c);
    MulMonotone(bound - low, part / c, 1.0);
  }

  lemma InsideMonotone(low: real, bound: real, part: real, more: real, c: real)
    requires c > 0.0 && part <= more && low <= bound
    ensures Inside(low, bound, part, c) <= Inside(low, bound, more, c)
  {
    DivMonotone(part, more, c);
    MulMonotone(bound - low, part / c, more / c);
  }

  lemma ShareBounds(low: real, bound: real, v: real, c: real)
    requires c >= 0.0 && low <= v <= bound
    ensures 0.0 <= Share(low, bound, v, c) <= c
  {
    if low < bound {
      Quotient(v - low, bound - low);
      MulMonotone(c, 0.0, (v - low) / (bound - low));
      MulMonotone(c, (v - low) / (bound - low), 1.0);
    }
  }

  lemma ShareMonotone(low: real, bound: real, v: real, w: real, c: real)
    requires c >= 0.0 && v <= w
    ensures Share(low, bound, v, c) <= Share(low, bound, w, c)
  {
    if low < bound {
      DivMonotone(v - low, w - low, bound - low);
      MulMonotone(c, (v - low) / (bound - low), (w - low) / (bound - low));
    }
  }

  lemma RankMonotone(h: HistSample, p: real, q: real)
    requires p <= q
    ensures Rank(h, p) <= Rank(h, q)
  {
    MulMonotone(h.count as real, p, q);
  }

  // ------------------------------------------------- fraction: monotone, additive

  lemma {:induction false} BelowFromBounds(h: HistSample, i: nat, low: real, v: real)
    ensures 0.0 <= BelowFrom(h, i, low, v) <= FiniteFrom(h, i)
    decreases |h.bounds| - i
  {
    if i < |h.bounds| && v > low {
      BelowFromBounds(h, i + 1, h.bounds[i], v);
      if low < v < h.bounds[i] {
        ShareBounds(low, h.bounds[i], v, Count(h, i));
      }
    }
  }

  lemma {:induction false} BelowFromMonotone(h: HistSample, i: nat, low: real, v: real, w: real)
    requires v <= w
    ensures BelowFrom(h, i, low, v) <= BelowFrom(h, i, low, w)
    decreases |h.bounds| - i
  {
    BelowFromBounds(h, i, low, w);
    if i < |h.bounds| && v > low {
      var c, bound := Count(h, i), h.bounds[i];
      if v >= bound {
        BelowFromMonotone(h, i + 1, bound, v, w);
      } else {
        ShareBounds(low, bound, v, c);
        if w >= bound {
          BelowFromBounds(h, i + 1, bound, w);
        } else {
          ShareMonotone(low, bound, v, w, c);
        }
      }
    }
  }

  lemma BelowMonotone(h: HistSample, v: real, w: real)
    requires v <= w
    ensures 0.0 <= Below(h, v) <= Below(h, w) <= h.count as real
  {
    BelowFromMonotone(h, 0, 0.0, v, w);
    BelowFromBounds(h, 0, 0.0, v);
  }

  /** A fraction is one of the whole. */
  lemma FractionInUnit(h: HistSample, lower: real, upper: real)
    requires h.count > 0
    ensures Fraction(h, lower, upper).Num? && 0.0 <= Fraction(h, lower, upper).r <= 1.0
    ensures upper <= lower ==> Fraction(h, lower, upper) == Num(0.0)
  {
    BelowMonotone(h, upper, upper);
    BelowMonotone(h, lower, lower);
    if upper <= lower {
      BelowMonotone(h, upper, lower);
    }
    var n := h.count as real;
    var d := Below(h, upper) - Below(h, lower);
    var e := if d < 0.0 then 0.0 else d;
    DivMonotone(0.0, e, n);
    DivMonotone(e, n, n);
  }

  /** Adjacent intervals add up, whatever the bounds are. */
  lemma FractionAdditive(h: HistSample, a: real, b: real, c: real)
    requires h.count > 0 && a <= b <= c
    ensures Fraction(h, a, b).r + Fraction(h, b, c).r == Fraction(h, a, c).r
  {
    BelowMonotone(h, a, b);
    BelowMonotone(h, b, c);
    var n := h.count as real;
    SumOfQuotients(Below(h, b) - Below(h, a), Below(h, c) - Below(h, b), n);
  }

  lemma SumOfQuotients(x: real, y: real, n: real)
    requires n > 0.0
    ensures x / n + y / n == (x + y) / n
  {
  }

  // ------------------------------------------------------- quantile: monotone iff

  lemma {:induction false} QuantileAtLeast(h: HistSample, i: nat, prev: real, low: real, target: real)
    requires Ascending(h.bounds) && target >= prev
    requires i < |h.bounds| ==> low <= h.bounds[i]
    ensures QuantileFrom(h, i, prev, low, target) >= low
    decreases |h.bounds| - i
  {
    if i < |h.bounds| {
      var c, bound := Count(h, i), h.bounds[i];
      if prev + c >= target {
        if c > 0.0 {
          InsideBounds(low, bound, target - prev, c);
        }
      } else {
        QuantileAtLeast(h, i + 1, prev + c, bound, target);
      }
    }
  }

  lemma {:induction false} QuantileFromMonotone(h: HistSample, i: nat, prev: real, low: real, s: real, t: real)
    requires Ascending(h.bounds) && prev <= s <= t
    requires i < |h.bounds| ==> Count(h, i) == 0.0 || low <= h.bounds[i]
    ensures QuantileFrom(h, i, prev, low, s) <= QuantileFrom(h, i, prev, low, t)
    decreases |h.bounds| - i
  {
    if i < |h.bounds| {
      var c, bound := Count(h, i), h.bounds[i];
      if prev + c < s {
        QuantileFromMonotone(h, i + 1, prev + c, bound, s, t);
      } else if prev + c >= t {
        if c > 0.0 {
          InsideMonotone(low, bound, s - prev, t - prev, c);
        }
      } else {
        QuantileAtLeast(h, i + 1, prev + c, bound, t);
        if c > 0.0 {
          InsideBounds(low, bound, s - prev, c);
        }
      }
    }
  }

  /** Nothing negative in the first bucket: its lower bound is taken to be 0. */
  predicate StartsAtZero(h: HistSample) {
    h.bounds == [] || h.bounds[0] >= 0.0 || Count(h, 0) == 0.0
  }

  ghost predicate QuantileIsMonotone(h: HistSample) {
    forall p, q | 0.0 <= p <= q <= 1.0 && Quantile(h, p).Num? && Quantile(h, q).Num? ::
      Quantile(h, p).r <= Quantile(h, q).r
  }

  lemma QuantileMonotone(h: HistSample, p: real, q: real)
    requires Ascending(h.bounds) && h.count > 0 && StartsAtZero(h) && 0.0 <= p <= q <= 1.0 && h.bounds != []
    ensures Quantile(h, p).r <= Quantile(h, q).r
  {
    RankMonotone(h, p, q);
    RankMonotone(h, 0.0, p);
    QuantileFromMonotone(h, 0, 0.0, 0.0, Rank(h, p), Rank(h, q));
  }

  /** For ascending bounds the quantile is monotone in q if and only if the first bucket
      is empty or does not end below 0. */
  lemma QuantileMonotoneIff(h: HistSample)
    requires Ascending(h.bounds) && h.count > 0
    ensures QuantileIsMonotone(h) <==> StartsAtZero(h)
  {
    if StartsAtZero(h) {
      forall p, q | 0.0 <= p <= q <= 1.0 && Quantile(h, p).Num? && Quantile(h, q).Num?
        ensures Quantile(h, p).r <= Quantile(h, q).r
      {
        QuantileMonotone(h, p, q);
      }
    } else {
      NegativeFirstBucket(h);
    }
  }

  lemma NegativeFirstBucket(h: HistSample)
    requires h.count > 0 && !StartsAtZero(h)
    ensures !QuantileIsMonotone(h)
  {
    var n, c, b := h.count as real, Count(h, 0), h.bounds[0];
    var q := if c <= n then c / n else 1.0;
    assert 0.0 < q <= 1.0 && 0.0 < Rank(h, q) <= c by {
      assert c / n * n == c;
      if c <= n { DivMonotone(c, n, n); }
    }
    assert Rank(h, 0.0) == 0.0;
    assert Quantile(h, 0.0).r == Inside(0.0, b, 0.0, c) == 0.0;
    Quotient(Rank(h, q), c);
    assert Quantile(h, q).r == Inside(0.0, b, Rank(h, q), c) < 0.0;
  }

  // --------------------------------------------- fraction undoes quantile, exactly

  /** Within a bucket, interpolating forth and back. */
  lemma RoundTripInBucket(low: real, bound: real, c: real, r: real)
    requires low < bound && 0.0 < r <= c
    ensures var v := Inside(low, bound, r, c);
            low < v <= bound && (v == bound <==> r == c) && Share(low, bound, v, c) == r
  {
    var f, w := r / c, bound - low;
    var v := Inside(low, bound, r, c);
    Quotient(r, c);
    InsideBounds(low, bound, r, c);
    assert f > 0.0 && w * f > 0.0;
    assert f < 1.0 ==> w * f < w;
    BackAndForth(w, f);
    assert (v - low) / w == f;
    assert c * f == r;
  }

  lemma BackAndForth(w: real, f: real)
    requires w > 0.0
    ensures w * f / w == f
  {
  }

  /** A rank inside a finite bucket: the observations below its quantile are the rank. */
  lemma {:induction false} BelowQuantileFrom(h: HistSample, i: nat, prev: real, low: real, target: real)
    requires StrictlyAscending(h.bounds) && (i < |h.bounds| ==> low < h.bounds[i])
    requires prev < target <= prev + FiniteFrom(h, i)
    ensures var v := QuantileFrom(h, i, prev, low, target);
            low < v && BelowFrom(h, i, low, v) == target - prev
    decreases |h.bounds| - i
  {
    var c, bound := Count(h, i), h.bounds[i];
    if prev + c >= target {
      RoundTripInBucket(low, bound, c, target - prev);
    } else {
      BelowQuantileFrom(h, i + 1, prev + c, bound, target);
    }
  }

  lemma ShareStrict(low: real, bound: real, v: real, w: real, c: real)
    requires low < bound && c > 0.0
    ensures v < w <==> Share(low, bound, v, c) < Share(low, bound, w, c)
  {
    var d := bound - low;
    var x, y := (v - low) / d, (w - low) / d;
    assert x * d == v - low && y * d == w - low;
    if v < w {
      DivMonotone(v - low, w - low, d);
      assert x < y;
    } else {
      DivMonotone(w - low, v - low, d);
      MulMonotone(c, y, x);
    }
  }

  /** A rank's quantile lies past `z` exactly when the rank exceeds what is below `z`. */
  lemma {:induction false} QuantilePast(h: HistSample, i: nat, prev: real, low: real, target: real, z: real)
    requires StrictlyAscending(h.bounds) && (i < |h.bounds| ==> low < h.bounds[i])
    requires prev < target <= prev + FiniteFrom(h, i)
    ensures z < QuantileFrom(h, i, prev, low, target) <==> BelowFrom(h, i, low, z) < target - prev
    decreases |h.bounds| - i
  {
    var c, bound := Count(h, i), h.bounds[i];
    var v := QuantileFrom(h, i, prev, low, target);
    BelowQuantileFrom(h, i, prev, low, target);
    if low < z {
      if prev + c >= target {
        RoundTripInBucket(low, bound, c, target - prev);
        if z < bound {
          ShareStrict(low, bound, z, v, c);
        } else {
          BelowFromBounds(h, i + 1, bound, z);
        }
      } else {
        BelowQuantileFrom(h, i + 1, prev + c, bound, target);
        if z < bound {
          ShareBounds(low, bound, z, c);
        } else {
          QuantilePast(h, i + 1, prev + c, bound, target, z);
        }
      }
    }
  }

  /** What the buckets put at or below zero, where the first one ends there or earlier. */
  function BelowZero(h: HistSample): real
    requires h.bounds != []
  {
    if h.bounds[0] > 0.0 then 0.0 else Count(h, 0) + BelowFrom(h, 1, h.bounds[0], 0.0)
  }

  /** Whether the rank falls above zero and in a finite bucket. */
  predicate InFiniteBucket(h: HistSample, target: real)
    requires h.bounds != []
  {
    BelowZero(h) < target <= FiniteFrom(h, 0)
  }

  lemma BelowQuantileIff(h: HistSample, target: real)
    requires StrictlyAscending(h.bounds) && h.bounds != [] && target >= 0.0
    ensures var b := BelowFrom(h, 0, 0.0, QuantileFrom(h, 0, 0.0, 0.0, target));
            0.0 <= b <= target && (b == target <==> target == 0.0 || InFiniteBucket(h, target))
  {
    var v := QuantileFrom(h, 0, 0.0, 0.0, target);
    BelowFromBounds(h, 0, 0.0, v);
    if target == 0.0 {
      ZeroRank(h);
    } else if target <= FiniteFrom(h, 0) {
      if h.bounds[0] > 0.0 {
        BelowQuantileFrom(h, 0, 0.0, 0.0, target);
      } else {
        BelowQuantileOverZero(h, target);
      }
    }
  }

  lemma ZeroRank(h: HistSample)
    requires h.bounds != []
    ensures BelowFrom(h, 0, 0.0, QuantileFrom(h, 0, 0.0, 0.0, 0.0)) == 0.0
  {
    var v, c := QuantileFrom(h, 0, 0.0, 0.0, 0.0), Count(h, 0);
    if c > 0.0 {
      assert (0.0 - 0.0) / c == 0.0;
    } else {
      assert v == h.bounds[0];
      assert v > 0.0 ==> BelowFrom(h, 1, v, v) == 0.0;
    }
  }

  /** A first bucket that ends at or below zero is counted only for points above zero. */
  lemma BelowQuantileOverZero(h: HistSample, target: real)
    requires StrictlyAscending(h.bounds) && h.bounds != [] && h.bounds[0] <= 0.0 && 0.0 < target <= FiniteFrom(h, 0)
    ensures var b := BelowFrom(h, 0, 0.0, QuantileFrom(h, 0, 0.0, 0.0, target));
            b == (if target > BelowZero(h) then target else 0.0)
  {
    var v, c, bound := QuantileFrom(h, 0, 0.0, 0.0, target), Count(h, 0), h.bounds[0];
    BelowFromBounds(h, 1, bound, 0.0);
    if c >= target {
      Quotient(target, c);
      MulMonotone(target / c, bound, 0.0);
      assert v <= 0.0;
    } else {
      BelowQuantileFrom(h, 1, c, bound, target);
      QuantilePast(h, 1, c, bound, target, 0.0);
    }
  }

  /** `fraction(0, quantile(q))` gives q back if and only if q is 0 or its rank falls above
      zero and in a finite bucket. */
  lemma FractionOfQuantileIff(h: HistSample, q: real)
    requires StrictlyAscending(h.bounds) && h.bounds != [] && h.count > 0 && 0.0 <= q <= 1.0
    ensures Fraction(h, 0.0, Quantile(h, q).r) == Num(q) <==> q == 0.0 || InFiniteBucket(h, Rank(h, q))
  {
    RankBounds(h, q);
    BackToRank(h, Rank(h, q));
    RankQuotient(h, BelowFrom(h, 0, 0.0, QuantileFrom(h, 0, 0.0, 0.0, Rank(h, q))), q);
  }

  /** In terms of ranks: the share below a rank's quantile is the rank's own share. */
  lemma BackToRank(h: HistSample, target: real)
    requires StrictlyAscending(h.bounds) && h.bounds != [] && h.count > 0
    requires 0.0 <= target <= h.count as real
    ensures var v := QuantileFrom(h, 0, 0.0, 0.0, target);
            var b := BelowFrom(h, 0, 0.0, v);
            Fraction(h, 0.0, v) == Num(b / h.count as real) &&
            (b == target <==> target == 0.0 || InFiniteBucket(h, target))
  {
    BelowQuantileIff(h, target);
    var v := QuantileFrom(h, 0, 0.0, 0.0, target);
    FractionFromZero(h, v, BelowFrom(h, 0, 0.0, v));
  }

  lemma RankBounds(h: HistSample, q: real)
    requires 0.0 <= q <= 1.0
    ensures 0.0 <= Rank(h, q) <= h.count as real
  {
    RankMonotone(h, q, 1.0);
    RankMonotone(h, 0.0, q);
  }

  lemma RankQuotient(h: HistSample, b: real, q: real)
    requires h.count > 0
    ensures (b / h.count as real == q <==> b == Rank(h, q)) && (q == 0.0 <==> Rank(h, q) == 0.0)
  {
    SameQuotient(b, q, h.count as real);
  }

  lemma FractionFromZero(h: HistSample, v: real, b: real)
    requires h.count > 0 && b == BelowFrom(h, 0, 0.0, v) && 0.0 <= b <= h.count as real
    ensures Fraction(h, 0.0, v) == Num(b / h.count as real)
  {
    assert Below(h, 0.0) == 0.0 && Below(h, v) == b;
  }

  lemma SameQuotient(b: real, q: real, n: real)
    requires n > 0.0
    ensures (b / n == q <==> b == q * n) && (q == 0.0 <==> q * n == 0.0)
  {
    assert b / n * n == b;
    assert q * n / n == q;
  }
}

/** Step windows over time-sorted points: one pass with a moving cursor, or two binary
    searches per step, and the counter rate of a window. */
module Downsample {
  import opened Options
  import Seqs

  datatype Point = Point(t: int, v: real)

  datatype Sample = Sample(t: int, value: real)

  ghost predicate Sorted(ps: seq<Point>) {
    forall i, j | 0 <= i < j < |ps| :: ps[i].t <= ps[j].t
  }

  /** The points in `[lo, hi)`, in order. */
  function Select(ps: seq<Point>, lo: int, hi: int): seq<Point> {
    if ps == [] then []
    else
      var n := |ps| - 1;
      Select(ps[..n], lo, hi) + if lo <= ps[n].t < hi then [ps[n]] else []
  }

  /** A step's start and the points it aggregates. */
  datatype Bucket = Bucket(t: int, window: seq<Point>)

  /** In-step windows: each step sees `[t, t + step)`. */
  function StepWindows(ps: seq<Point>, at: int, end: int, step: int): seq<Bucket>
    requires step > 0
    decreases end - at
  {
    if at >= end then [] else [Bucket(at, Select(ps, at, at + step))] + StepWindows(ps, at + step, end, step)
  }

  const I64_MIN: int := -0x8000_0000_0000_0000

  function SaturatingSub(t: int, range: nat): int {
    if t - range < I64_MIN then I64_MIN else t - range
  }

  /** Lookback windows: each step sees `[t - range, t + step)`. */
  function RangeWindows(ps: seq<Point>, at: int, end: int, step: int, range: nat): seq<Bucket>
    requires step > 0
    decreases end - at
  {
    if at >= end then []
    else [Bucket(at, Select(ps, at - range, at + step))] + RangeWindows(ps, at + step, end, step, range)
  }

  /** Steps whose aggregate has a value. */
  function SamplesOf(bs: seq<Bucket>, aggregate: seq<Point> -> Option<real>): seq<Sample> {
    if bs == [] then []
    else
      (match aggregate(bs[0].window) case Some(x) => [Sample(bs[0].t, x)] case None => []) +
      SamplesOf(bs[1..], aggregate)
  }

  // --------------------------------------------------------------- about windows

  lemma {:induction false} SelectNone(ps: seq<Point>, lo: int, hi: int)
    requires forall i | 0 <= i < |ps| :: !(lo <= ps[i].t < hi)
    ensures Select(ps, lo, hi) == []
  {
    if ps != [] {
      SelectNone(ps[..|ps| - 1], lo, hi);
    }
  }

  lemma {:induction false} SelectAll(ps: seq<Point>, lo: int, hi: int)
    requires forall i | 0 <= i < |ps| :: lo <= ps[i].t < hi
    ensures Select(ps, lo, hi) == ps
  {
    if ps != [] {
      SelectAll(ps[..|ps| - 1], lo, hi);
    }
  }

  lemma {:induction false} SelectConcat(a: seq<Point>, b: seq<Point>, lo: int, hi: int)
    ensures Select(a + b, lo, hi) == Select(a, lo, hi) + Select(b, lo, hi)
    decreases |b|
  {
    if b == [] {
      assert a + b == a;
    } else {
      var n := |b| - 1;
      SelectConcat(a, b[..n], lo, hi);
      assert (a + b)[..|a + b| - 1] == a + b[..n];
      Seqs.Assoc(Select(a, lo, hi), Select(b[..n], lo, hi), if lo <= b[n].t < hi then [b[n]] else []);
    }
  }

  /** Points past the cursor that lie beyond the window do not matter. */
  lemma SelectPrefix(ps: seq<Point>, i: nat, lo: int, hi: int)
    requires i <= |ps| && forall k | i <= k < |ps| :: ps[k].t >= hi
    ensures Select(ps, lo, hi) == Select(ps[..i], lo, hi)
  {
    assert ps == ps[..i] + ps[i..];
    SelectConcat(ps[..i], ps[i..], lo, hi);
    SelectNone(ps[i..], lo, hi);
  }

  /** For sorted points a window is a slice. */
  lemma SelectSlice(ps: seq<Point>, i: nat, j: nat, lo: int, hi: int)
    requires i <= j <= |ps|
    requires forall k | 0 <= k < i :: ps[k].t < lo
    requires forall k | i <= k < j :: lo <= ps[k].t < hi
    requires forall k | j <= k < |ps| :: ps[k].t >= hi
    ensures Select(ps, lo, hi) == ps[i..j]
  {
    var before, inside := ps[..i], ps[i..j];
    SelectPrefix(ps, j, lo, hi);
    assert ps[..j] == before + inside;
    SelectBehind(before, inside, lo, hi);
  }

  lemma SelectBehind(before: seq<Point>, inside: seq<Point>, lo: int, hi: int)
    requires forall k | 0 <= k < |before| :: before[k].t < lo
    requires forall k | 0 <= k < |inside| :: lo <= inside[k].t < hi
    ensures Select(before + inside, lo, hi) == inside
  {
    SelectConcat(before, inside, lo, hi);
    SelectNone(before, lo, hi);
    SelectAll(inside, lo, hi);
    Seqs.EmptyLeft(inside);
  }

  // ----------------------------------------------------------------- the cursor

  /** Advances the cursor to the window's end, keeping the points inside. */
  method TakeWindow(ps: seq<Point>, from: nat, lo: int, hi: int) returns (window: seq<Point>, idx: nat)
    requires Sorted(ps) && from <= |ps| && lo <= hi && forall k | 0 <= k < from :: ps[k].t < lo
    ensures window == Select(ps, lo, hi)
    ensures from <= idx <= |ps| && forall k | 0 <= k < idx :: ps[k].t < hi
  {
    window, idx := [], from;
    SelectNone(ps[..from], lo, hi);
    while idx < |ps| && ps[idx].t < hi
      invariant from <= idx <= |ps|
      invariant forall k | 0 <= k < idx :: ps[k].t < hi
      invariant window == Select(ps[..idx], lo, hi)
    {
      assert ps[..idx + 1][..idx] == ps[..idx];
      if ps[idx].t >= lo {
        window := window + [ps[idx]];
      }
      idx := idx + 1;
    }
    SelectPrefix(ps, idx, lo, hi);
  }

  method DownsampleByStep(ps: seq<Point>, start: int, end: int, step: int, aggregate: seq<Point> -> Option<real>)
    returns (samples: seq<Sample>)
    requires Sorted(ps) && step > 0
    ensures samples == SamplesOf(StepWindows(ps, start, end, step), aggregate)
  {
    samples := [];
    var current, idx := start, 0;
    ghost var all := SamplesOf(StepWindows(ps, start, end, step), aggregate);
    while current < end
      invariant idx <= |ps| && forall k | 0 <= k < idx :: ps[k].t < current
      invariant samples + SamplesOf(StepWindows(ps, current, end, step), aggregate) == all
      decreases end - current
    {
      var window, next := TakeWindow(ps, idx, current, current + step);
      var value := aggregate(window);
      FirstSample(Bucket(current, window), StepWindows(ps, current + step, end, step), aggregate, samples);
      if value.Some? {
        samples := samples + [Sample(current, value.value)];
      }
      current, idx := current + step, next;
    }
    Seqs.EmptyRight(samples);
  }

  lemma FirstSample(b: Bucket, rest: seq<Bucket>, aggregate: seq<Point> -> Option<real>, before: seq<Sample>)
    ensures before + SamplesOf([b] + rest, aggregate) ==
            (match aggregate(b.window) case Some(x) => before + [Sample(b.t, x)] case None => before) +
            SamplesOf(rest, aggregate)
  {
    assert ([b] + rest)[1..] == rest;
    match aggregate(b.window)
    case Some(x) => Seqs.Assoc(before, [Sample(b.t, x)], SamplesOf(rest, aggregate));
    case None => Seqs.EmptyLeft(SamplesOf(rest, aggregate));
  }

  function WithSample(samples: seq<Sample>, t: int, value: Option<real>): seq<Sample> {
    match value case Some(x) => samples + [Sample(t, x)] case None => samples
  }

  /** What is sampled so far, and by the windows to come, is everything. */
  ghost predicate Covers(samples: seq<Sample>, ps: seq<Point>, at: int, end: int, step: int, range: nat,
                         f: seq<Point> -> Option<real>, all: seq<Sample>)
    requires step > 0
  {
    samples + SamplesOf(RangeWindows(ps, at, end, step, range), f) == all
  }

  lemma RangeStart(ps: seq<Point>, at: int, end: int, step: int, range: nat, f: seq<Point> -> Option<real>)
    requires step > 0
    ensures Covers([], ps, at, end, step, range, f, SamplesOf(RangeWindows(ps, at, end, step, range), f))
  {
    Seqs.EmptyLeft(SamplesOf(RangeWindows(ps, at, end, step, range), f));
  }

  lemma RangeEnd(samples: seq<Sample>, ps: seq<Point>, at: int, end: int, step: int, range: nat,
                 f: seq<Point> -> Option<real>, all: seq<Sample>)
    requires step > 0 && at >= end && Covers(samples, ps, at, end, step, range, f, all)
    ensures samples == all
  {
    Seqs.EmptyRight(samples);
  }

  lemma RangeStep(samples: seq<Sample>, ps: seq<Point>, at: int, end: int, step: int, range: nat,
                  f: seq<Point> -> Option<real>, all: seq<Sample>, window: seq<Point>, more: seq<Sample>)
    requires step > 0 && at < end && window == Select(ps, at - range, at + step)
    requires Covers(samples, ps, at, end, step, range, f, all)
    requires more == WithSample(samples, at, f(window))
    ensures Covers(more, ps, at + step, end, step, range, f, all)
  {
    FirstSample(Bucket(at, window), RangeWindows(ps, at + step, end, step, range), f, samples);
  }

  // --------------------------------------------------------------- conservation

  function WindowsOf(bs: seq<Bucket>): (ws: seq<seq<Point>>)
    ensures |ws| == |bs| && forall i | 0 <= i < |bs| :: ws[i] == bs[i].window
  {
    seq(|bs|, i requires 0 <= i < |bs| => bs[i].window)
  }

  /** Where the last window ends. */
  function LastEnd(at: int, end: int, step: int): (e: int)
    requires step > 0
    ensures at <= e && (at < end ==> end <= e < end + step) && (at >= end ==> e == at)
    decreases end - at
  {
    if at >= end then at else LastEnd(at + step, end, step)
  }

  lemma SelectSkip(ps: seq<Point>, lo: int, hi: int)
    requires ps != [] && !(lo <= ps[|ps| - 1].t < hi)
    ensures Select(ps, lo, hi) == Select(ps[..|ps| - 1], lo, hi)
  {
    Seqs.EmptyRight(Select(ps[..|ps| - 1], lo, hi));
  }

  /** Adjacent windows of sorted points join. */
  lemma {:induction false} SelectSplit(ps: seq<Point>, a: int, b: int, c: int)
    requires Sorted(ps) && a <= b <= c
    ensures Select(ps, a, c) == Select(ps, a, b) + Select(ps, b, c)
  {
    if ps != [] {
      var n := |ps| - 1;
      var init, last := ps[..n], ps[n];
      SelectSplit(init, a, b, c);
      if a <= last.t < b {
        SelectNone(init, b, c);
        Seqs.EmptyRight(Select(init, a, b));
        Seqs.EmptyRight(Select(ps, a, b));
      } else if b <= last.t < c {
        Seqs.EmptyRight(Select(init, a, b));
        Seqs.Assoc(Select(init, a, b), Select(init, b, c), [last]);
      } else {
        SelectSkip(ps, a, b);
        SelectSkip(ps, b, c);
        SelectSkip(ps, a, c);
      }
    }
  }

  /** Every point from the start to the last window's end is used exactly once: the
      windows, put together, are those points in order. */
  lemma {:induction false} StepWindowsConserve(ps: seq<Point>, at: int, end: int, step: int)
    requires Sorted(ps) && step > 0
    ensures Seqs.Flatten(WindowsOf(StepWindows(ps, at, end, step))) == Select(ps, at, LastEnd(at, end, step))
    decreases end - at
  {
    var bs := StepWindows(ps, at, end, step);
    if at >= end {
      SelectNone(ps, at, at);
    } else {
      StepWindowsConserve(ps, at + step, end, step);
      assert WindowsOf(bs)[1..] == WindowsOf(bs[1..]);
      SelectSplit(ps, at, at + step, LastEnd(at, end, step));
    }
  }

  // -------------------------------------------------------------- binary search

  /** How many leading points lie before `bound`. */
  method PartitionPoint(ps: seq<Point>, bound: int) returns (n: nat)
    requires Sorted(ps)
    ensures n <= |ps| && (forall k | 0 <= k < n :: ps[k].t < bound) && forall k | n <= k < |ps| :: ps[k].t >= bound
  {
    var lo, hi := 0, |ps|;
    while lo < hi
      invariant 0 <= lo <= hi <= |ps|
      invariant forall k | 0 <= k < lo :: ps[k].t < bound
      invariant forall k | hi <= k < |ps| :: ps[k].t >= bound
    {
      var mid := (lo + hi) / 2;
      if ps[mid].t < bound {
        lo := mid + 1;
      } else {
        hi := mid;
      }
    }
    n := lo;
  }

  /** Saturating the start loses nothing, since no point is earlier. */
  lemma RangeSlice(ps: seq<Point>, lo: nat, hi: nat, current: int, step: int, range: nat)
    requires step > 0 && lo <= |ps| && hi <= |ps| && current >= I64_MIN &&
             forall i | 0 <= i < |ps| :: ps[i].t >= I64_MIN
    requires forall k | 0 <= k < lo :: ps[k].t < SaturatingSub(current, range)
    requires forall k | lo <= k < |ps| :: ps[k].t >= SaturatingSub(current, range)
    requires forall k | 0 <= k < hi :: ps[k].t < current + step
    requires forall k | hi <= k < |ps| :: ps[k].t >= current + step
    ensures lo <= hi && Select(ps, current - range, current + step) == ps[lo..hi]
  {
    assert SaturatingSub(current, range) <= current;
    assert lo <= hi by {
      assert hi < |ps| ==> ps[hi].t >= current + step;
    }
    SelectSlice(ps, lo, hi, current - range, current + step);
  }

  // ----------------------------------------------------------------- counter rate

  /** What a counter grew by, a drop counting as a restart from zero. */
  function Increase(ps: seq<Point>): real {
    if |ps| < 2 then 0.0
    else
      var n := |ps| - 1;
      Increase(ps[..n]) + if ps[n].v >= ps[n - 1].v then ps[n].v - ps[n - 1].v else ps[n].v
  }

  const NS: real := 1_000_000_000.0

  /** Seconds from the first point to the last. */
  function Span(ps: seq<Point>): real
    requires ps != []
  {
    (ps[|ps| - 1].t - ps[0].t) as real / NS
  }

  function Slack(seconds: real, span: real): real {
    var half := (seconds - span) / 2.0;
    if half < span * 0.1 then half else span * 0.1
  }

  function OverTime(rate: real, time: real, span: real): real
    requires span > 0.0
  {
    rate * time / span
  }

  /** A rate over `span`, stretched towards the window's edges by at most a tenth of the
      span on each side. */
  function Stretched(increase: real, span: real, seconds: real): real
    requires span > 0.0
  {
    var rate := increase / span;
    if seconds > span then OverTime(rate, span + 2.0 * Slack(seconds, span), span) else rate
  }

  function Rate(ps: seq<Point>, range: real): Option<real> {
    if |ps| < 2 || Span(ps) <= 0.0 then None else Some(Stretched(Increase(ps), Span(ps), range / NS))
  }

  method WindowedRate(ps: seq<Point>, range: real) returns (r: Option<real>)
    ensures r == Rate(ps, range)
  {
    if |ps| < 2 {
      return None;
    }
    var span := Span(ps);
    if span <= 0.0 {
      return None;
    }
    var increase := 0.0;
    for i := 1 to |ps|
      invariant increase == Increase(ps[..i])
    {
      assert ps[..i + 1][..i] == ps[..i];
      var v0, v1 := ps[i - 1].v, ps[i].v;
      increase := increase + if v1 >= v0 then v1 - v0 else v1;
    }
    assert ps[..|ps|] == ps;
    return Some(Stretched(increase, span, range / NS));
  }

  /** Splitting a window at one of its points splits its increase. */
  lemma {:induction false} IncreaseAdds(ps: seq<Point>, k: nat)
    requires k < |ps|
    ensures Increase(ps) == Increase(ps[..k + 1]) + Increase(ps[k..])
    decreases |ps|
  {
    var n := |ps| - 1;
    if k == n {
      assert ps[..k + 1] == ps;
    } else {
      IncreaseAdds(ps[..n], k);
      assert ps[..n][..k + 1] == ps[..k + 1];
      assert ps[k..][..|ps[k..]| - 1] == ps[..n][k..];
    }
  }

  /** Without a reset it is the last value minus the first. */
  lemma {:induction false} IncreaseOfMonotone(ps: seq<Point>)
    requires ps != [] && forall i, j | 0 <= i < j < |ps| :: ps[i].v <= ps[j].v
    ensures Increase(ps) == ps[|ps| - 1].v - ps[0].v
  {
    if |ps| > 1 {
      IncreaseOfMonotone(ps[..|ps| - 1]);
    }
  }

  lemma {:induction false} IncreaseIsNonNegative(ps: seq<Point>)
    requires forall i | 0 <= i < |ps| :: ps[i].v >= 0.0
    ensures Increase(ps) >= 0.0
  {
    if |ps| >= 2 {
      IncreaseIsNonNegative(ps[..|ps| - 1]);
    }
  }

  lemma SlackBounds(seconds: real, span: real)
    requires 0.0 < span < seconds
    ensures var s := span + 2.0 * Slack(seconds, span); span <= s <= seconds && s <= span * 1.2
  {
  }

  lemma Scaled(rate: real, s: real, span: real)
    requires rate >= 0.0 && 0.0 < span <= s <= span * 1.2
    ensures rate <= OverTime(rate, s, span) <= rate * 1.2
  {
    var f := s / span;
    assert f * span == s;
    assert 1.0 <= f <= 1.2;
    assert rate * s / span == rate * f;
  }

  /** Stretching adds at most a fifth and never stands for more time than the window
      has. */
  lemma StretchedIsBounded(increase: real, span: real, seconds: real)
    requires increase >= 0.0 && span > 0.0
    ensures 0.0 <= increase / span <= Stretched(increase, span, seconds) <= increase / span * 1.2
    ensures seconds > span ==> span + 2.0 * Slack(seconds, span) <= seconds
  {
    var rate := increase / span;
    assert rate >= 0.0;
    if seconds > span {
      SlackBounds(seconds, span);
      Scaled(rate, span + 2.0 * Slack(seconds, span), span);
    }
  }

  /** For a counter, the reported rate is between the observed one and a fifth more. */
  lemma RateIsBounded(ps: seq<Point>, range: real)
    requires |ps| >= 2 && Span(ps) > 0.0 && forall i | 0 <= i < |ps| :: ps[i].v >= 0.0
    ensures Rate(ps, range).Some?
    ensures 0.0 <= Increase(ps) / Span(ps) <= Rate(ps, range).value <= Increase(ps) / Span(ps) * 1.2
  {
    IncreaseIsNonNegative(ps);
    StretchedIsBounded(Increase(ps), Span(ps), range / NS);
  }
}

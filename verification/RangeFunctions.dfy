/** The counter functions over lookback windows. */
module RangeFunctions {
  import opened Downsample
  import opened Options

  datatype RangeOp = OpIrate | OpRate | OpIncrease | OpDelta | OtherOp

  /** Rate between two neighbours, with a drop counting as a restart from zero. */
  function InstantRate(prev: Point, last: Point): Option<real> {
    var dt, dv := (last.t - prev.t) as real / NS, last.v - prev.v;
    if dt <= 0.0 then None else Some((if dv < 0.0 then last.v else dv) / dt)
  }

  /** A rate per second over the whole range. */
  function Grown(rate: Option<real>, range: nat): Option<real> {
    match rate case Some(r) => Some(r * range as real / NS) case None => None
  }

  /** What a lookback window yields; an empty one never yields anything. */
  function RangeValue(op: RangeOp, w: seq<Point>, range: nat): Option<real> {
    match op
    case OpIrate => if |w| >= 2 then InstantRate(w[|w| - 2], w[|w| - 1]) else None
    case OpRate => Rate(w, range as real)
    case OpIncrease => Grown(Rate(w, range as real), range)
    case OpDelta => if w == [] then None else Some(w[|w| - 1].v - w[0].v)
    case OtherOp => None
  }

  function ValueOf(op: RangeOp, range: nat): seq<Point> -> Option<real> {
    (w: seq<Point>) => RangeValue(op, w, range)
  }

  lemma {:induction false} NoSamples(bs: seq<Bucket>, range: nat)
    ensures SamplesOf(bs, ValueOf(OtherOp, range)) == []
  {
    if bs != [] {
      NoSamples(bs[1..], range);
    }
  }

  /** The instant rate is the increase of the window's last two points over their time. */
  lemma InstantRateIsIncrease(w: seq<Point>, range: nat)
    requires |w| >= 2
    ensures var pair := w[|w| - 2..];
            RangeValue(OpIrate, w, range) ==
            if Span(pair) <= 0.0 then None else Some(Increase(pair) / Span(pair))
  {
    var pair := w[|w| - 2..];
    assert pair[0] == w[|w| - 2] && pair[1] == w[|w| - 1];
    assert Increase(pair[..1]) == 0.0;
  }

  /** Two searches find the window. */
  method WindowBounds(ps: seq<Point>, current: int, step: int, range: nat) returns (lo: nat, hi: nat)
    requires Sorted(ps) && step > 0 && current >= I64_MIN && forall i | 0 <= i < |ps| :: ps[i].t >= I64_MIN
    ensures lo <= hi <= |ps| && ps[lo..hi] == Select(ps, current - range, current + step)
  {
    lo := PartitionPoint(ps, SaturatingSub(current, range));
    hi := PartitionPoint(ps, current + step);
    RangeSlice(ps, lo, hi, current, step, range);
  }

  /** The value of the window between two search results; `ok` is false for an operation
      outside the counter family on a window with points. */
  method WindowValue(ps: seq<Point>, lo: nat, hi: nat, range: nat, op: RangeOp) returns (value: Option<real>, ok: bool)
    requires lo <= hi <= |ps|
    ensures value == RangeValue(op, ps[lo..hi], range)
    ensures ok <==> op != OtherOp || lo == hi
  {
    value, ok := None, true;
    if op == OpIrate {
      if hi - lo >= 2 {
        value := InstantRate(ps[hi - 2], ps[hi - 1]);
      }
    } else if hi > lo {
      match op
      case OpRate => value := WindowedRate(ps[lo..hi], range as real);
      case OpIncrease =>
        var rate := WindowedRate(ps[lo..hi], range as real);
        value := Grown(rate, range);
      case OpDelta => value := Some(ps[hi - 1].v - ps[lo].v);
      case _ => ok := false;
    }
  }

  method WindowSample(ps: seq<Point>, current: int, step: int, range: nat, op: RangeOp, samples: seq<Sample>)
    returns (more: seq<Sample>, ok: bool)
    requires Sorted(ps) && step > 0 && current >= I64_MIN && forall i | 0 <= i < |ps| :: ps[i].t >= I64_MIN
    ensures more == WithSample(samples, current, ValueOf(op, range)(Select(ps, current - range, current + step)))
    ensures !ok ==> op == OtherOp
  {
    var lo, hi := WindowBounds(ps, current, step, range);
    var value;
    value, ok := WindowValue(ps, lo, hi, range, op);
    more := WithSample(samples, current, value);
  }

  lemma NothingFromOthers(op: RangeOp, bs: seq<Bucket>, range: nat, all: seq<Sample>)
    requires all == SamplesOf(bs, ValueOf(op, range))
    ensures op == OtherOp ==> all == []
  {
    if op == OtherOp {
      NoSamples(bs, range);
    }
  }

  /** The window ends at `t + step`, exclusive, and reaches back `range` from `t`. An
      operation outside the counter family gives up at the first window with points. */
  method DownsampleByRange(ps: seq<Point>, start: int, end: int, step: int, range: nat, op: RangeOp)
    returns (samples: seq<Sample>)
    requires Sorted(ps) && step > 0 && start >= I64_MIN && forall i | 0 <= i < |ps| :: ps[i].t >= I64_MIN
    ensures samples == SamplesOf(RangeWindows(ps, start, end, step, range), ValueOf(op, range))
    ensures op == OtherOp ==> samples == []
  {
    samples := [];
    var current := start;
    ghost var f := ValueOf(op, range);
    ghost var all := SamplesOf(RangeWindows(ps, start, end, step, range), f);
    RangeStart(ps, start, end, step, range, f);
    NothingFromOthers(op, RangeWindows(ps, start, end, step, range), range, all);
    while current < end
      invariant current >= I64_MIN
      invariant Covers(samples, ps, current, end, step, range, f, all)
      decreases end - current
    {
      var more, ok := WindowSample(ps, current, step, range, op, samples);
      if !ok {
        return [];
      }
      RangeStep(samples, ps, current, end, step, range, f, all, Select(ps, current - range, current + step), more);
      samples, current := more, current + step;
    }
    RangeEnd(samples, ps, current, end, step, range, f, all);
  }

  // ------------------------------------------------------------ where it ends

  lemma {:induction false} SelectEmptyIff(ps: seq<Point>, lo: int, hi: int)
    ensures Select(ps, lo, hi) == [] <==> forall i | 0 <= i < |ps| :: !(lo <= ps[i].t < hi)
  {
    if ps != [] {
      var n := |ps| - 1;
      SelectEmptyIff(ps[..n], lo, hi);
      assert forall i | 0 <= i < n :: ps[..n][i] == ps[i];
    }
  }

  /** The window a step uses is the one that ends at `t` if and only if no point lies in
      the step itself. */
  lemma WindowEndsAtStepIff(ps: seq<Point>, t: int, step: int, range: nat)
    requires Sorted(ps) && step > 0
    ensures Select(ps, t - range, t + step) == Select(ps, t - range, t) <==>
            forall i | 0 <= i < |ps| :: !(t <= ps[i].t < t + step)
  {
    SelectSplit(ps, t - range, t, t + step);
    SelectEmptyIff(ps, t, t + step);
    var before, after := Select(ps, t - range, t), Select(ps, t, t + step);
    assert before + after == before <==> after == [] by {
      assert |before + after| == |before| + |after|;
    }
  }

  /** A point in the step itself changes its sample: with a value of 1 at time 0 and of 3 at
      time 10, the step at 10 reports a difference of 2 over the last 10, where the points
      before 10 give 0. */
  method SeesAhead() returns (samples: seq<Sample>)
    ensures samples == [Sample(10, 2.0)]
    ensures RangeValue(OpDelta, Select([Point(0, 1.0), Point(10, 3.0)], 10 - 10, 10), 10) == Some(0.0)
  {
    var ps := [Point(0, 1.0), Point(10, 3.0)];
    samples := DownsampleByRange(ps, 10, 11, 1, 10, OpDelta);
    assert ps[..1] == [Point(0, 1.0)] && ps[..1][..0] == [];
    assert Select(ps, 0, 10) == [Point(0, 1.0)];
    assert Select(ps, 0, 11) == ps;
    assert RangeWindows(ps, 11, 11, 1, 10) == [];
    assert RangeWindows(ps, 10, 11, 1, 10) == [Bucket(10, ps)];
    assert [Bucket(10, ps)][1..] == [];
  }
}

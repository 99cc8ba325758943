/** The rotator's row counter against the rows its writers really hold. */
module RowCounter {
  import opened Options
  import opened Ingest
  import opened IngestConcerns
  import opened IngestInvariant
  import opened IngestSafety
  import Seqs
  import Writer

  /** Rows open across all shards. */
  ghost function Total(shards: seq<Shard>): nat {
    |Seqs.Flatten(OpenRows(shards))|
  }

  lemma {:induction false} FlattenUpdate<T>(ss: seq<seq<T>>, k: nat, x: seq<T>)
    requires k < |ss|
    ensures |Seqs.Flatten(ss[k := x])| == |Seqs.Flatten(ss)| - |ss[k]| + |x|
  {
    if k == 0 {
      assert ss[k := x][1..] == ss[1..];
    } else {
      FlattenUpdate(ss[1..], k - 1, x);
      assert ss[k := x][1..] == ss[1..][k - 1 := x];
    }
  }

  lemma {:induction false} FlattenEmpty<T>(ss: seq<seq<T>>)
    requires forall k | 0 <= k < |ss| :: ss[k] == []
    ensures Seqs.Flatten(ss) == []
  {
    if ss != [] {
      FlattenEmpty(ss[1..]);
    }
  }

  /** One shard's writer changes. */
  lemma TotalUpdate(shards: seq<Shard>, k: nat, sh: Shard)
    requires k < |shards|
    ensures Total(shards[k := sh]) == Total(shards) - |shards[k].w.rows| + |sh.w.rows|
  {
    FlattenUpdate(OpenRows(shards), k, sh.w.rows);
    assert OpenRows(shards[k := sh]) == OpenRows(shards)[k := sh.w.rows];
  }

  /** A push fails only in front of a full writer. */
  lemma {:induction false} FailedPushLeavesFull<P>(w: Writer.Writer<P>, points: seq<P>, writes: nat)
    requires |w.rows| <= w.capacity
    ensures var r := Writer.Push(w, points, writes); !r.ok ==> |r.w.rows| == w.capacity
    decreases |points|, writes
  {
    if points != [] {
      if Writer.Room(w) == 0 {
        if w.rows != [] && writes > 0 {
          FailedPushLeavesFull(w.(rows := [], epoch := w.epoch + 1), points, writes - 1);
        }
      } else {
        var take := if |points| > Writer.Room(w) then Writer.Room(w) else |points|;
        FailedPushLeavesFull(w.(rows := w.rows + points[..take]), points[take..], writes);
      }
    }
  }

  lemma PushCounts(w: Writer.Writer<Row>, rows: seq<Row>, writes: nat)
    requires |w.rows| <= w.capacity
    ensures var r := Writer.Push(w, rows, writes);
            (r.ok ==> |r.w.rows| == |w.rows| + |rows| - |Seqs.Flatten(r.closed)|) &&
            (!r.ok ==> |r.w.rows| == w.capacity)
  {
    Writer.PushConserves(w, rows, writes);
    FailedPushLeavesFull(w, rows, writes);
  }

  /** What a push into a shard can take: the room there is, and a block for every block
      write that succeeds. */
  function Takes<P>(w: Writer.Writer<P>, writes: nat): nat {
    Writer.Room(w) + writes * w.capacity
  }

  /** One push from a true count: it stays true exactly when the shard can take all the
      points or was full to begin with, because a failed push returns before it counts. */
  lemma InsertCounts<V(!new)>(c: Config<V>, s: State<V>, k: nat, writes: nat)
    requires WriterInv(c, s.shards) && CanInsert(s, k) && s.counter == Total(s.shards)
    ensures var s' := DoInsert(s, k, writes);
            var i, w := s.shards[k].held.value, s.shards[k].w;
            s'.counter == Total(s'.shards) <==>
            |s.log[i].metric.points| <= Takes(w, writes) || Writer.Room(w) == 0
  {
    var i, w := s.shards[k].held.value, s.shards[k].w;
    var rows := RowsOf(i, |s.log[i].metric.points|);
    PushCounts(w, rows, writes);
    Writer.PushOkIff(w, rows, writes);
    TotalUpdate(s.shards, k, Shard(Writer.Push(w, rows, writes).w, None));
  }

  lemma SwapCounts<V(!new)>(s: State<V>)
    requires |s.wal.segs| >= 1 && s.counter == Total(s.shards)
    ensures DoSwap(s).counter == Total(DoSwap(s).shards)
  {
    if Seqs.Flatten(OpenRows(s.shards)) != [] {
      FlattenEmpty(OpenRows(FreshShards(s.shards)));
    }
  }

  lemma HoldingDoesNotCount(shards: seq<Shard>, k: nat, held: Option<nat>)
    requires k < |shards|
    ensures Total(shards[k := shards[k].(held := held)]) == Total(shards)
  {
    TotalUpdate(shards, k, shards[k].(held := held));
  }

  /** A push finds its shard able to take all its points, or full. */
  ghost predicate CountsTruly<V(!new)>(c: Config<V>, s: State<V>, step: Step<V>)
    requires Sound(c) && Enabled(c, s, step)
  {
    step.Insert? ==>
      var sh := s.shards[step.shard];
      |s.log[sh.held.value].metric.points| <= Takes(sh.w, step.writes) || Writer.Room(sh.w) == 0
  }

  lemma StepCounts<V(!new)>(c: Config<V>, s: State<V>, step: Step<V>)
    requires Sound(c) && Safe(c, s) && Enabled(c, s, step) && s.counter == Total(s.shards)
    ensures var s' := Next(c, s, step); s'.counter == Total(s'.shards) <==> CountsTruly(c, s, step)
  {
    match step
    case Log(m, synced) =>
      if synced {
        HoldingDoesNotCount(s.shards, c.route(m.name), Some(|s.log|));
      }
    case Insert(k, writes) => InsertCounts(c, s, k, writes);
    case Swap => SwapCounts(s);
    case _ =>
  }

  ghost predicate AllCountTruly<V(!new)>(c: Config<V>, s: State<V>, steps: seq<Step<V>>)
    requires Sound(c) && IsRun(c, s, steps)
    decreases |steps|
  {
    steps == [] || (CountsTruly(c, s, steps[0]) && AllCountTruly(c, Next(c, s, steps[0]), steps[1..]))
  }

  /** Row accounting over whole runs: as long as shards can take what is pushed, or are
      full when they cannot, the counter is the number of open rows, so it never goes
      below zero. */
  lemma {:induction false} CounterIsTotal<V(!new)>(c: Config<V>, s: State<V>, steps: seq<Step<V>>)
    requires Sound(c) && Safe(c, s) && s.counter == Total(s.shards) && IsRun(c, s, steps) && AllCountTruly(c, s, steps)
    ensures var t := RunFrom(c, s, steps); t.counter == Total(t.shards) >= 0
    decreases |steps|
  {
    if steps != [] {
      StepCounts(c, s, steps[0]);
      StepIsSafe(c, s, steps[0]);
      CounterIsTotal(c, Next(c, s, steps[0]), steps[1..]);
    }
  }

  lemma CounterIsExact<V(!new)>(c: Config<V>, steps: seq<Step<V>>)
    requires Sound(c) && IsRun(c, Init(c), steps) && AllCountTruly(c, Init(c), steps)
    ensures var t := RunFrom(c, Init(c), steps); t.counter == Total(t.shards)
  {
    InitIsSafe(c);
    FlattenEmpty(OpenRows(Init(c).shards));
    CounterIsTotal(c, Init(c), steps);
  }

  // -------------------------------------------------------------- what is missed

  /** Rows a failed push leaves open without counting them: what filled its writer. */
  ghost function StepMisses<V(!new)>(c: Config<V>, s: State<V>, step: Step<V>): nat
    requires Sound(c) && Enabled(c, s, step)
  {
    if step.Insert? then
      var sh := s.shards[step.shard];
      if |s.log[sh.held.value].metric.points| <= Takes(sh.w, step.writes) then 0 else Writer.Room(sh.w)
    else 0
  }

  ghost function Missed<V(!new)>(c: Config<V>, s: State<V>, steps: seq<Step<V>>): nat
    requires Sound(c) && IsRun(c, s, steps)
    decreases |steps|
  {
    if steps == [] then 0 else StepMisses(c, s, steps[0]) + Missed(c, Next(c, s, steps[0]), steps[1..])
  }

  lemma InsertMisses<V(!new)>(c: Config<V>, s: State<V>, k: nat, writes: nat)
    requires Sound(c) && WriterInv(c, s.shards) && Enabled(c, s, Insert(k, writes))
    ensures var s' := DoInsert(s, k, writes);
            Total(s'.shards) - s'.counter == Total(s.shards) - s.counter + StepMisses(c, s, Insert(k, writes))
  {
    var i, w := s.shards[k].held.value, s.shards[k].w;
    var rows := RowsOf(i, |s.log[i].metric.points|);
    PushCounts(w, rows, writes);
    Writer.PushOkIff(w, rows, writes);
    TotalUpdate(s.shards, k, Shard(Writer.Push(w, rows, writes).w, None));
  }

  lemma SwapEmpties<V(!new)>(s: State<V>)
    requires |s.wal.segs| >= 1
    ensures Total(DoSwap(s).shards) == 0 && DoSwap(s).counter == s.counter - Total(s.shards)
  {
    if Seqs.Flatten(OpenRows(s.shards)) != [] {
      FlattenEmpty(OpenRows(FreshShards(s.shards)));
    }
  }

  lemma StepMissesRows<V(!new)>(c: Config<V>, s: State<V>, step: Step<V>)
    requires Sound(c) && WriterInv(c, s.shards) && Enabled(c, s, step)
    ensures var s' := Next(c, s, step);
            Total(s'.shards) - s'.counter == Total(s.shards) - s.counter + StepMisses(c, s, step)
  {
    match step
    case Log(m, synced) =>
      if synced {
        HoldingDoesNotCount(s.shards, c.route(m.name), Some(|s.log|));
      }
    case Insert(k, writes) => InsertMisses(c, s, k, writes);
    case Swap => SwapEmpties(s);
    case _ =>
  }

  lemma {:induction false} RunMisses<V(!new)>(c: Config<V>, s: State<V>, steps: seq<Step<V>>)
    requires Sound(c) && Safe(c, s) && IsRun(c, s, steps)
    ensures var t := RunFrom(c, s, steps);
            Total(t.shards) - t.counter == Total(s.shards) - s.counter + Missed(c, s, steps)
    decreases |steps|
  {
    if steps != [] {
      StepMissesRows(c, s, steps[0]);
      StepIsSafe(c, s, steps[0]);
      RunMisses(c, Next(c, s, steps[0]), steps[1..]);
    }
  }

  /** Row accounting over every run: the counter is the open rows less what failed pushes
      left open without counting. */
  lemma CounterIsTotalLessMissed<V(!new)>(c: Config<V>, steps: seq<Step<V>>)
    requires Sound(c) && IsRun(c, Init(c), steps)
    ensures var t := RunFrom(c, Init(c), steps); t.counter == Total(t.shards) - Missed(c, Init(c), steps)
  {
    InitIsSafe(c);
    FlattenEmpty(OpenRows(Init(c).shards));
    RunMisses(c, Init(c), steps);
  }

  /** A swap leaves the counter at minus what was missed, so it goes below zero, where the
      unsigned counter wraps around, if and only if some push failed into a writer with
      room. */
  lemma SwapUnderflowsIff<V(!new)>(c: Config<V>, steps: seq<Step<V>>, s: State<V>)
    requires Sound(c) && IsRun(c, Init(c), steps) && s == RunFrom(c, Init(c), steps) && Enabled(c, s, Swap)
    ensures DoSwap(s).counter + Missed(c, Init(c), steps) == 0
    ensures DoSwap(s).counter < 0 <==> Missed(c, Init(c), steps) > 0
  {
    CounterIsTotalLessMissed(c, steps);
    SwapEmpties(s);
  }
}

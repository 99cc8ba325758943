/** What ties the buffer to the drops a run has made, one predicate per concern. */
module HistoryConcerns {
  import opened Ingest
  import opened ExactConcerns
  import MB = MemoryBuffer

  /** A slot holds points of settled records, the acknowledged ones under the epoch they
      were acknowledged in, in epoch order. */
  ghost predicate FedInv<V(!new)>(buffer: map<string, seq<Tagged>>, log: seq<Logged<V>>) {
    && (forall name, t | t in Buffered(buffer, name) :: FedUnder(t, log))
    && (forall name | name in buffer :: EpochsGrow(buffer[name]))
  }

  ghost predicate FedUnder<V(!new)>(t: Tagged, log: seq<Logged<V>>) {
    && t.tag.epoch >= 1 && t.row.rec < |log| && log[t.row.rec].fate != Pending
    && (log[t.row.rec].fate.Acked? ==> log[t.row.rec].fate.epoch == t.tag.epoch)
  }

  /** All points of the record are buffered. */
  ghost predicate RecordHeld<V(!new)>(buffer: map<string, seq<Tagged>>, rec: Logged<V>, i: nat, k: nat)
    requires rec.fate.Acked?
  {
    forall x | 0 <= x < |rec.metric.points| ::
      Tagged(Row(i, x), MB.Tag(k, rec.fate.epoch)) in Buffered(buffer, rec.metric.name)
  }

  /** Acknowledged records of shard `k` with a later epoch than `d` are buffered. */
  ghost predicate KeptAbove<V(!new)>(c: Config<V>, buffer: map<string, seq<Tagged>>, log: seq<Logged<V>>, k: nat,
                                     d: nat) {
    forall i | 0 <= i < |log| && log[i].fate.Acked? && c.route(log[i].metric.name) == k && d < log[i].fate.epoch ::
      RecordHeld(buffer, log[i], i, k)
  }
}

/** The invariant of all runs behind the buffer's exact contents. */
module HistoryInvariant {
  import opened Ingest
  import opened ViewConcerns
  import opened ExactConcerns
  import opened HistoryConcerns
  import opened SelfClosing

  ghost predicate Tracked<V(!new)>(c: Config<V>, s: State<V>)
    requires Sound(c) && |s.shards| == c.shards
  {
    && BoundsInv(s.shards, s.jobs)
    && DropInv(s.order.drop, s.jobs)
    && SlotInv(c, s.buffer, s.shards)
    && FedInv(s.buffer, s.log)
  }

  /** Shard `k` has been dropped up to `d` and no further. */
  ghost predicate DroppedAt<V(!new)>(c: Config<V>, s: State<V>, k: nat, d: nat) {
    && k < |s.shards| && d < s.shards[k].w.epoch
    && Emptied(s.buffer, k, d)
    && KeptAbove(c, s.buffer, s.log, k, d)
  }
}

/** The buffer over all runs, whether pushes fit their writers or not: a point is buffered
    if and only if no drop of the run reached its epoch. */
module DropHistory {
  import opened Ingest
  import opened IngestConcerns
  import opened IngestInvariant
  import opened IngestSafety
  import opened IngestVisibility
  import opened ViewConcerns
  import opened ExactConcerns
  import opened ExactVisibility
  import opened HistoryConcerns
  import opened HistoryInvariant
  import opened SelfClosing
  import MB = MemoryBuffer
  import Writer

  function Max(a: nat, b: nat): nat {
    if a < b then b else a
  }

  function BoundAt(v: seq<nat>, k: nat): nat {
    if k < |v| then v[k] else 0
  }

  /** Up to which epoch a step drops shard `k`; 0 for not at all. */
  ghost function StepBound<V(!new)>(c: Config<V>, s: State<V>, step: Step<V>, k: nat): nat
    requires Sound(c) && Enabled(c, s, step)
  {
    match step
    case Drop(j) => if s.jobs[j].stage.upTo.Some? then BoundAt(s.jobs[j].stage.upTo.value, k) else 0
    case Insert(shard, writes) =>
      var r := Closing(s, shard, writes);
      if shard == k && r.ok && r.closed != [] then SaturatingPred(r.w.epoch) else 0
    case _ => 0
  }

  /** The furthest any step of the run, or `d` before it, dropped shard `k`. */
  ghost function DroppedTo<V(!new)>(c: Config<V>, s: State<V>, steps: seq<Step<V>>, k: nat, d: nat): nat
    requires Sound(c) && IsRun(c, s, steps)
    decreases |steps|
  {
    if steps == [] then d
    else DroppedTo(c, Next(c, s, steps[0]), steps[1..], k, Max(d, StepBound(c, s, steps[0], k)))
  }

  // ------------------------------------------------------------- feeding, dropping

  /** A record becomes settled. */
  lemma SettleKeepsFed<V(!new)>(buffer: map<string, seq<Tagged>>, log: seq<Logged<V>>, i: nat, fate: Fate)
    requires FedInv(buffer, log) && i < |log| && log[i].fate == Pending
    ensures FedInv(buffer, log[i := log[i].(fate := fate)])
  {
    var log' := log[i := log[i].(fate := fate)];
    forall name, t | t in Buffered(buffer, name) ensures FedUnder(t, log') {
      assert FedUnder(t, log);
    }
  }

  lemma FeedKeepsFed<V(!new)>(buffer: map<string, seq<Tagged>>, log: seq<Logged<V>>, name: string, rows: seq<Row>,
                              tag: MB.Tag)
    requires FedInv(buffer, log) && forall t | t in Buffered(buffer, name) :: t.tag.epoch <= tag.epoch
    requires forall r | r in rows :: FedUnder(Tagged(r, tag), log)
    ensures FedInv(Fed(buffer, name, rows, tag), log)
  {
    FedSlotGrows(Buffered(buffer, name), rows, tag);
    forall other, t | t in Buffered(Fed(buffer, name, rows, tag), other) ensures FedUnder(t, log) {
      FedIsNew(buffer, name, rows, tag, other, t);
      assert t == Tagged(t.row, t.tag);
    }
  }

  lemma DropKeepsFed<V(!new)>(buffer: map<string, seq<Tagged>>, log: seq<Logged<V>>, v: seq<nat>)
    requires FedInv(buffer, log)
    ensures FedInv(DropBuffered(buffer, v), log)
  {
    var buffer' := DropBuffered(buffer, v);
    forall name, t | t in Buffered(buffer', name) ensures FedUnder(t, log) {
      DropShrinks(buffer, v, name, t);
    }
    forall name | name in buffer' ensures EpochsGrow(buffer'[name]) {
      assert EpochsGrow(buffer[name]);
    }
  }

  /** What is fed has the shard's current epoch, past every drop. */
  lemma FeedKeepsEmptied(buffer: map<string, seq<Tagged>>, name: string, rows: seq<Row>, tag: MB.Tag, k: nat, d: nat)
    requires Emptied(buffer, k, d) && (tag.shard == k ==> d < tag.epoch)
    ensures Emptied(Fed(buffer, name, rows, tag), k, d)
  {
    forall other, t | t in Buffered(Fed(buffer, name, rows, tag), other) && t.tag.shard == k ensures d < t.tag.epoch {
      FedIsNew(buffer, name, rows, tag, other, t);
    }
  }

  lemma FedHas(buffer: map<string, seq<Tagged>>, name: string, rows: seq<Row>, tag: MB.Tag, other: string, t: Tagged)
    requires t in Buffered(buffer, other)
    ensures t in Buffered(Fed(buffer, name, rows, tag), other)
  {
  }

  lemma FedHasRow(buffer: map<string, seq<Tagged>>, name: string, rows: seq<Row>, tag: MB.Tag, x: nat)
    requires x < |rows|
    ensures Tagged(rows[x], tag) in Buffered(Fed(buffer, name, rows, tag), name)
  {
    assert TagAll(rows, tag)[x] == Tagged(rows[x], tag);
  }

  lemma FeedKeepsAbove<V(!new)>(c: Config<V>, buffer: map<string, seq<Tagged>>, log: seq<Logged<V>>, i: nat, epoch: nat,
                                fate: Fate, k: nat, d: nat)
    requires KeptAbove(c, buffer, log, k, d) && i < |log| && (fate == Acked(epoch) || fate == Refused)
    ensures var m := log[i].metric;
            var fed := Fed(buffer, m.name, RowsOf(i, |m.points|), MB.Tag(c.route(m.name), epoch));
            KeptAbove(c, fed, log[i := log[i].(fate := fate)], k, d)
  {
    var m, log' := log[i].metric, log[i := log[i].(fate := fate)];
    var rows, tag := RowsOf(i, |m.points|), MB.Tag(c.route(m.name), epoch);
    var fed := Fed(buffer, m.name, rows, tag);
    forall a | 0 <= a < |log'| && log'[a].fate.Acked? && c.route(log'[a].metric.name) == k && d < log'[a].fate.epoch
      ensures RecordHeld(fed, log'[a], a, k)
    {
      forall x | 0 <= x < |log'[a].metric.points|
        ensures Tagged(Row(a, x), MB.Tag(k, log'[a].fate.epoch)) in Buffered(fed, log'[a].metric.name)
      {
        if a == i {
          FedHasRow(buffer, m.name, rows, tag, x);
        } else {
          assert RecordHeld(buffer, log[a], a, k);
          FedHas(buffer, m.name, rows, tag, log[a].metric.name, Tagged(Row(a, x), MB.Tag(k, log[a].fate.epoch)));
        }
      }
    }
  }

  /** A drop empties its shard up to its bound. */
  lemma DropKeepsEmptied<V(!new)>(c: Config<V>, buffer: map<string, seq<Tagged>>, shards: seq<Shard>,
                                  log: seq<Logged<V>>,
                                  v: seq<nat>, k: nat, d: nat)
    requires Sound(c) && |shards| == c.shards && SlotInv(c, buffer, shards) && FedInv(buffer, log)
    requires Emptied(buffer, k, d)
    ensures Emptied(DropBuffered(buffer, v), k, Max(d, BoundAt(v, k)))
  {
    forall name, t | t in Buffered(DropBuffered(buffer, v), name) && t.tag.shard == k
      ensures Max(d, BoundAt(v, k)) < t.tag.epoch
    {
      DropShrinks(buffer, v, name, t);
      assert FedUnder(t, log) && c.route(name) == k;
      assert forall u | u in buffer[name] :: u in Buffered(buffer, name);
      if BoundAt(v, k) > 0 {
        DropPasses(buffer, v, k, name, t);
      }
    }
  }

  lemma DropPasses(buffer: map<string, seq<Tagged>>, v: seq<nat>, k: nat, name: string, t: Tagged)
    requires BoundAt(v, k) > 0 && k != MB.UNTRACKED && t in Buffered(DropBuffered(buffer, v), name)
    requires name in buffer && EpochsGrow(buffer[name]) && forall u | u in buffer[name] :: u.tag.shard == k
    ensures v[k] < t.tag.epoch
  {
    DropEmptiesEpoch(buffer[name], v, k, t);
  }

  /** And takes nothing past it. */
  lemma DropKeepsAbove<V(!new)>(c: Config<V>, buffer: map<string, seq<Tagged>>, log: seq<Logged<V>>, v: seq<nat>,
                                k: nat, d: nat)
    requires KeptAbove(c, buffer, log, k, d)
    ensures KeptAbove(c, DropBuffered(buffer, v), log, k, Max(d, BoundAt(v, k)))
  {
    forall i | 0 <= i < |log| && log[i].fate.Acked? && c.route(log[i].metric.name) == k &&
      Max(d, BoundAt(v, k)) < log[i].fate.epoch
      ensures RecordHeld(DropBuffered(buffer, v), log[i], i, k)
    {
      assert RecordHeld(buffer, log[i], i, k);
      forall x | 0 <= x < |log[i].metric.points|
        ensures Tagged(Row(i, x), MB.Tag(k, log[i].fate.epoch)) in Buffered(DropBuffered(buffer, v), log[i].metric.name)
      {
        DropKeepsOthers(buffer, v, log[i].metric.name, Tagged(Row(i, x), MB.Tag(k, log[i].fate.epoch)));
      }
    }
  }

  // ------------------------------------------------------------------- the steps

  lemma LaterKeepsBounds(shards: seq<Shard>, jobs: seq<Job>, shards': seq<Shard>, jobs': seq<Job>)
    requires BoundsInv(shards, jobs) && |shards'| == |shards| && |jobs'| == |jobs|
    requires forall k | 0 <= k < |shards| :: shards[k].w.epoch <= shards'[k].w.epoch
    requires forall j | 0 <= j < |jobs| :: jobs'[j].bounds == jobs[j].bounds
    ensures BoundsInv(shards', jobs')
  {
  }

  /** A push never takes its writer back to an earlier epoch. */
  lemma InsertMovesOn<V(!new)>(c: Config<V>, s: State<V>, k: nat, writes: nat)
    requires WriterInv(c, s.shards) && CanInsert(s, k)
    ensures var s' := DoInsert(s, k, writes);
            |s'.shards| == |s.shards| && s'.jobs == s.jobs && s'.order == s.order &&
            forall x | 0 <= x < |s.shards| :: s.shards[x].w.epoch <= s'.shards[x].w.epoch
  {
    var i := s.shards[k].held.value;
    Writer.PushBounds(s.shards[k].w, RowsOf(i, |s.log[i].metric.points|), writes);
  }

  lemma SwapStepKeepsBounds<V(!new)>(c: Config<V>, s: State<V>)
    requires BoundsInv(s.shards, s.jobs) && |s.wal.segs| >= 1
    ensures var s' := DoSwap(s); BoundsInv(s'.shards, s'.jobs)
  {
    var s' := DoSwap(s);
    if |s'.jobs| > |s.jobs| {
      SwapKeepsBounds(s.shards, s.jobs, s'.jobs[|s.jobs|]);
    }
  }

  lemma StepKeepsBounds<V(!new)>(c: Config<V>, s: State<V>, step: Step<V>)
    requires Sound(c) && WriterInv(c, s.shards) && BoundsInv(s.shards, s.jobs) && Enabled(c, s, step)
    ensures var s' := Next(c, s, step); BoundsInv(s'.shards, s'.jobs)
  {
    if step.Swap? {
      SwapStepKeepsBounds(c, s);
    } else {
      var s' := Next(c, s, step);
      if step.Insert? {
        InsertMovesOn(c, s, step.shard, step.writes);
      }
      LaterKeepsBounds(s.shards, s.jobs, s'.shards, s'.jobs);
    }
  }

  lemma ReleaseStepKeepsOrder<V(!new)>(c: Config<V>, s: State<V>, j: nat)
    requires Sound(c) && BoundsInv(s.shards, s.jobs) && DropInv(s.order.drop, s.jobs) && Enabled(c, s, Release(j))
    ensures var s' := DoRelease(s, j); DropInv(s'.order.drop, s'.jobs)
  {
    var s' := DoRelease(s, j);
    assert DropVec(s.jobs[j]) == DropVec(s'.jobs[j]);
    ReleaseKeepsDrop(s.order.drop, s.jobs, j, s'.jobs[j], |s.shards|, s'.order.drop);
  }

  lemma StepKeepsOrder<V(!new)>(c: Config<V>, s: State<V>, step: Step<V>)
    requires Sound(c) && BoundsInv(s.shards, s.jobs) && DropInv(s.order.drop, s.jobs) && Enabled(c, s, step)
    ensures var s' := Next(c, s, step); DropInv(s'.order.drop, s'.jobs)
  {
    var s' := Next(c, s, step);
    match step
    case Log(_, _) =>
    case LogFail(_, _) =>
    case Insert(_, _) =>
    case Swap =>
      if |s'.jobs| > |s.jobs| {
        SwapKeepsDrop(s.order.drop, s.jobs, s'.jobs[|s.jobs|]);
      }
    case Release(j) => ReleaseStepKeepsOrder(c, s, j);
    case _ => OnwardKeepsDrop(s.order.drop, s.jobs, step.job, s'.jobs[step.job]);
  }

  /** A push, as a feed and a drop. */
  lemma InsertKeepsFed<V(!new)>(c: Config<V>, s: State<V>, k: nat, writes: nat)
    requires Sound(c) && HeldInv(c, s.shards, s.log, s.cursor) && BoundsInv(s.shards, s.jobs)
    requires SlotInv(c, s.buffer, s.shards) && FedInv(s.buffer, s.log) && CanInsert(s, k)
    ensures var s' := DoInsert(s, k, writes); FedInv(s'.buffer, s'.log)
  {
    var i, w, r, s' := s.shards[k].held.value, s.shards[k].w, Closing(s, k, writes), DoInsert(s, k, writes);
    var m := s.log[i].metric;
    var rows, tag := RowsOf(i, |m.points|), MB.Tag(k, w.epoch);
    SettleKeepsFed(s.buffer, s.log, i, if r.ok then Acked(w.epoch) else Refused);
    FeedKeepsFed(s.buffer, s'.log, m.name, rows, tag);
    if r.ok && r.closed != [] {
      DropKeepsFed(Fed(s.buffer, m.name, rows, tag), s'.log, Only(|s.shards|, k, SaturatingPred(r.w.epoch)));
    }
    InsertedBuffer(s, k, writes);
  }

  lemma LogKeepsFed<V(!new)>(buffer: map<string, seq<Tagged>>, log: seq<Logged<V>>, rec: Logged<V>)
    requires FedInv(buffer, log)
    ensures FedInv(buffer, log + [rec])
  {
    forall name, t | t in Buffered(buffer, name) ensures FedUnder(t, log + [rec]) {
      assert FedUnder(t, log);
    }
  }

  lemma StepKeepsFed<V(!new)>(c: Config<V>, s: State<V>, step: Step<V>)
    requires Sound(c) && HeldInv(c, s.shards, s.log, s.cursor) && BoundsInv(s.shards, s.jobs)
    requires SlotInv(c, s.buffer, s.shards) && FedInv(s.buffer, s.log) && Enabled(c, s, step)
    ensures var s' := Next(c, s, step); FedInv(s'.buffer, s'.log)
  {
    match step
    case Log(m, synced) => LogKeepsFed(s.buffer, s.log, DoLog(c, s, m, synced).log[|s.log|]);
    case Insert(k, writes) => InsertKeepsFed(c, s, k, writes);
    case Drop(j) =>
      if s.jobs[j].stage.upTo.Some? {
        DropKeepsFed(s.buffer, s.log, s.jobs[j].stage.upTo.value);
      }
    case _ =>
  }

  lemma StepKeepsTrack<V(!new)>(c: Config<V>, s: State<V>, step: Step<V>)
    requires Sound(c) && Safe(c, s) && Tracked(c, s) && Enabled(c, s, step)
    ensures var s' := Next(c, s, step); |s'.shards| == c.shards && Tracked(c, s')
  {
    StepKeepsBounds(c, s, step);
    StepKeepsOrder(c, s, step);
    StepKeepsSlots(c, s, step);
    StepKeepsFed(c, s, step);
  }

  // ------------------------------------------------------------- how far it is dropped

  /** A push that closed a block drops its shard up to the epoch before the new one. */
  lemma InsertDrops<V(!new)>(c: Config<V>, s: State<V>, k: nat, writes: nat, x: nat, d: nat)
    requires Sound(c) && HeldInv(c, s.shards, s.log, s.cursor) && WriterInv(c, s.shards) && Tracked(c, s)
    requires Enabled(c, s, Insert(k, writes)) && DroppedAt(c, s, x, d)
    ensures var b := Max(d, StepBound(c, s, Insert(k, writes), x));
            DroppedAt(c, DoInsert(s, k, writes), x, b)
  {
    var i, w, r, s' := s.shards[k].held.value, s.shards[k].w, Closing(s, k, writes), DoInsert(s, k, writes);
    var m := s.log[i].metric;
    var rows, tag := RowsOf(i, |m.points|), MB.Tag(k, w.epoch);
    var fed, v := Fed(s.buffer, m.name, rows, tag), Only(|s.shards|, k, SaturatingPred(r.w.epoch));
    InsertedBuffer(s, k, writes);
    InsertMovesOn(c, s, k, writes);
    FeedKeepsEmptied(s.buffer, m.name, rows, tag, x, d);
    FeedKeepsAbove(c, s.buffer, s.log, i, w.epoch, if r.ok then Acked(w.epoch) else Refused, x, d);
    if r.ok && r.closed != [] {
      InsertFeeds(c, s, k, writes);
      DropKeepsEmptied(c, fed, s.shards, s'.log, v, x, d);
      DropKeepsAbove(c, fed, s'.log, v, x, d);
      assert BoundAt(v, x) == StepBound(c, s, Insert(k, writes), x);
      Writer.PushBounds(w, rows, writes);
    }
  }

  /** The buffer between the feed and the drop of a push. */
  lemma InsertFeeds<V(!new)>(c: Config<V>, s: State<V>, k: nat, writes: nat)
    requires Sound(c) && HeldInv(c, s.shards, s.log, s.cursor) && Tracked(c, s) && CanInsert(s, k)
    ensures var i, w, m := s.shards[k].held.value, s.shards[k].w, s.log[s.shards[k].held.value].metric;
            var fed := Fed(s.buffer, m.name, RowsOf(i, |m.points|), MB.Tag(k, w.epoch));
            SlotInv(c, fed, s.shards) && FedInv(fed, DoInsert(s, k, writes).log)
  {
    var i, w, r := s.shards[k].held.value, s.shards[k].w, Closing(s, k, writes);
    var m := s.log[i].metric;
    var rows, tag := RowsOf(i, |m.points|), MB.Tag(k, w.epoch);
    FeedKeepsSlots(c, s.buffer, s.shards, m.name, rows);
    SettleKeepsFed(s.buffer, s.log, i, if r.ok then Acked(w.epoch) else Refused);
    FeedKeepsFed(s.buffer, DoInsert(s, k, writes).log, m.name, rows, tag);
  }

  lemma BackedIsPast(shards: seq<Shard>, jobs: seq<Job>, n: nat, v: seq<nat>, k: nat)
    requires BoundsInv(shards, jobs) && Backed(jobs, n, v) && k < |shards|
    ensures BoundAt(v, k) < shards[k].w.epoch
  {
    if BoundAt(v, k) > 0 {
      assert Sealed(jobs, n, k, v[k]);
    }
  }

  lemma DropDrops<V(!new)>(c: Config<V>, s: State<V>, j: nat, x: nat, d: nat)
    requires Sound(c) && |s.shards| == c.shards && Tracked(c, s) && Enabled(c, s, Drop(j)) && DroppedAt(c, s, x, d)
    ensures DroppedAt(c, DoDrop(s, j), x, Max(d, StepBound(c, s, Drop(j), x)))
  {
    if s.jobs[j].stage.upTo.Some? {
      var v := s.jobs[j].stage.upTo.value;
      DropKeepsEmptied(c, s.buffer, s.shards, s.log, v, x, d);
      DropKeepsAbove(c, s.buffer, s.log, v, x, d);
      BackedIsPast(s.shards, s.jobs, s.order.drop.frontier, v, x);
    }
  }

  lemma LogKeepsAbove<V(!new)>(c: Config<V>, buffer: map<string, seq<Tagged>>, log: seq<Logged<V>>, rec: Logged<V>,
                               k: nat, d: nat)
    requires KeptAbove(c, buffer, log, k, d) && !rec.fate.Acked?
    ensures KeptAbove(c, buffer, log + [rec], k, d)
  {
    var log' := log + [rec];
    forall i | 0 <= i < |log'| && log'[i].fate.Acked? && c.route(log'[i].metric.name) == k && d < log'[i].fate.epoch
      ensures RecordHeld(buffer, log'[i], i, k)
    {
      assert RecordHeld(buffer, log[i], i, k);
    }
  }

  /** Steps that leave the buffer and the records alone drop nothing. */
  lemma OthersDropNothing<V(!new)>(c: Config<V>, s: State<V>, s': State<V>, x: nat, d: nat)
    requires DroppedAt(c, s, x, d) && s'.buffer == s.buffer && s'.log == s.log && |s'.shards| == |s.shards|
    requires s.shards[x].w.epoch <= s'.shards[x].w.epoch
    ensures DroppedAt(c, s', x, d)
  {
  }

  lemma LogDropsNothing<V(!new)>(c: Config<V>, s: State<V>, m: Metric<V>, synced: bool, x: nat, d: nat)
    requires Sound(c) && Enabled(c, s, Log(m, synced)) && DroppedAt(c, s, x, d)
    ensures DroppedAt(c, DoLog(c, s, m, synced), x, d)
  {
    LogKeepsAbove(c, s.buffer, s.log, DoLog(c, s, m, synced).log[|s.log|], x, d);
  }

  lemma FlushStepDropsNothing<V(!new)>(c: Config<V>, s: State<V>, step: Step<V>, x: nat, d: nat)
    requires Sound(c) && Enabled(c, s, step) && DroppedAt(c, s, x, d) && !step.Log? && !step.Insert? && !step.Drop?
    ensures DroppedAt(c, Next(c, s, step), x, d)
  {
    OthersDropNothing(c, s, Next(c, s, step), x, d);
  }

  lemma StepDrops<V(!new)>(c: Config<V>, s: State<V>, step: Step<V>, x: nat, d: nat)
    requires Sound(c) && Safe(c, s) && Tracked(c, s) && Enabled(c, s, step) && DroppedAt(c, s, x, d)
    ensures DroppedAt(c, Next(c, s, step), x, Max(d, StepBound(c, s, step, x)))
  {
    match step
    case Log(m, synced) => LogDropsNothing(c, s, m, synced, x, d);
    case Insert(k, writes) => InsertDrops(c, s, k, writes, x, d);
    case Drop(j) => DropDrops(c, s, j, x, d);
    case _ => FlushStepDropsNothing(c, s, step, x, d);
  }

  lemma {:induction false} RunDrops<V(!new)>(c: Config<V>, s: State<V>, steps: seq<Step<V>>, x: nat, d: nat)
    requires Sound(c) && Safe(c, s) && Tracked(c, s) && IsRun(c, s, steps) && DroppedAt(c, s, x, d)
    ensures var t := RunFrom(c, s, steps);
            |t.shards| == c.shards && Tracked(c, t) && DroppedAt(c, t, x, DroppedTo(c, s, steps, x, d))
    decreases |steps|
  {
    if steps != [] {
      StepIsSafe(c, s, steps[0]);
      StepKeepsTrack(c, s, steps[0]);
      StepDrops(c, s, steps[0], x, d);
      RunDrops(c, Next(c, s, steps[0]), steps[1..], x, Max(d, StepBound(c, s, steps[0], x)));
    }
  }

  lemma InitIsTracked<V(!new)>(c: Config<V>, x: nat)
    requires Sound(c) && x < c.shards
    ensures var s := Init(c); |s.shards| == c.shards && Tracked(c, s) && DroppedAt(c, s, x, 0)
  {
    assert ReleasedJobs([]) == map[];
  }

  /** The buffer, exactly and over every run: a point of an acknowledged record is buffered
      if and only if no drop of the run, by a flush or by a push that closed a block,
      reached the epoch the record was acknowledged in. */
  lemma BufferedIffNotDropped<V(!new)>(c: Config<V>, steps: seq<Step<V>>, s: State<V>, i: nat, x: nat)
    requires Sound(c) && IsRun(c, Init(c), steps) && s == RunFrom(c, Init(c), steps)
    requires i < |s.log| && s.log[i].fate.Acked? && x < |s.log[i].metric.points|
    ensures InBuffer(s, s.log[i].metric.name, Row(i, x)) <==>
            DroppedTo(c, Init(c), steps, c.route(s.log[i].metric.name), 0) < s.log[i].fate.epoch
  {
    var name, k := s.log[i].metric.name, c.route(s.log[i].metric.name);
    InitIsSafe(c);
    InitIsTracked(c, k);
    RunDrops(c, Init(c), steps, k, 0);
    HeldIffAbove(c, s, i, x, k, DroppedTo(c, Init(c), steps, k, 0));
  }

  lemma HeldIffAbove<V(!new)>(c: Config<V>, s: State<V>, i: nat, x: nat, k: nat, d: nat)
    requires Sound(c) && |s.shards| == c.shards && SlotInv(c, s.buffer, s.shards) && FedInv(s.buffer, s.log)
    requires DroppedAt(c, s, k, d) && i < |s.log| && s.log[i].fate.Acked? && x < |s.log[i].metric.points|
    requires c.route(s.log[i].metric.name) == k
    ensures InBuffer(s, s.log[i].metric.name, Row(i, x)) <==> d < s.log[i].fate.epoch
  {
    var name, e := s.log[i].metric.name, s.log[i].fate.epoch;
    if InBuffer(s, name, Row(i, x)) {
      var t :| t in Buffered(s.buffer, name) && t.row == Row(i, x);
      assert FedUnder(t, s.log);
    }
    if d < e {
      assert RecordHeld(s.buffer, s.log[i], i, k);
      assert Tagged(Row(i, x), MB.Tag(k, e)).row == Row(i, x);
    }
  }

  /** So over every run a point of an acknowledged record is visible if and only if a
      published block holds it or no drop of the run reached its epoch. */
  lemma VisibleIff<V(!new)>(c: Config<V>, steps: seq<Step<V>>, s: State<V>, i: nat, x: nat)
    requires Sound(c) && IsRun(c, Init(c), steps) && s == RunFrom(c, Init(c), steps)
    requires i < |s.log| && s.log[i].fate.Acked? && x < |s.log[i].metric.points|
    ensures Visible(s, s.log[i].metric.name, Row(i, x)) <==>
            Published(s, Row(i, x)) ||
            DroppedTo(c, Init(c), steps, c.route(s.log[i].metric.name), 0) < s.log[i].fate.epoch
  {
    BufferedIffNotDropped(c, steps, s, i, x);
  }

  /** The same, counted from the index acknowledgement. */
  lemma KnownIff<V(!new)>(c: Config<V>, steps: seq<Step<V>>, s: State<V>, i: nat, x: nat)
    requires Sound(c) && IsRun(c, Init(c), steps) && s == RunFrom(c, Init(c), steps)
    requires i < |s.log| && s.log[i].fate.Acked? && x < |s.log[i].metric.points|
    ensures InBuffer(s, s.log[i].metric.name, Row(i, x)) || IndexKnows(s, Row(i, x)) <==>
            (exists j | 0 <= j < |s.jobs| :: s.jobs[j].indexed && Row(i, x) in s.jobs[j].rows) ||
            DroppedTo(c, Init(c), steps, c.route(s.log[i].metric.name), 0) < s.log[i].fate.epoch
  {
    BufferedIffNotDropped(c, steps, s, i, x);
    InitIsSafe(c);
    RunIsSafe(c, Init(c), steps);
    forall j | 0 <= j < |s.jobs| && s.jobs[j].indexed ensures BlockOf(s.blocks, s.jobs[j]) {
      assert OnDisk(s.jobs[j]);
    }
  }
}

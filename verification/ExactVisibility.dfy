/** What settles when a point leaves the view, one predicate per concern. */
module ExactConcerns {
  import opened Ingest
  import opened ViewConcerns

  ghost predicate EpochsGrow(slot: seq<Tagged>) {
    forall i, j | 0 <= i < j < |slot| :: slot[i].tag.epoch <= slot[j].tag.epoch
  }

  /** A slot holds acknowledged points under the epoch they were acknowledged in, in
      epoch order. */
  ghost predicate TagInv<V(!new)>(buffer: map<string, seq<Tagged>>, log: seq<Logged<V>>) {
    && (forall name, t | t in Buffered(buffer, name) ::
          t.row.rec < |log| && log[t.row.rec].fate == Acked(t.tag.epoch))
    && (forall name | name in buffer :: EpochsGrow(buffer[name]))
  }

  ghost predicate FromFlush(jobs: seq<Job>, rows: seq<Row>) {
    exists j | 0 <= j < |jobs| :: OnDisk(jobs[j]) && jobs[j].rows == rows
  }

  /** Every block is that of a flush. */
  ghost predicate FlushedInv(jobs: seq<Job>, blocks: seq<Block>) {
    forall b | 0 <= b < |blocks| :: FromFlush(jobs, blocks[b].rows)
  }

  /** A drop that reaches this epoch was decided but has not happened yet. */
  ghost predicate DropPends(jobs: seq<Job>, k: nat, epoch: nat) {
    exists j | 0 <= j < |jobs| :: DropsTo(jobs[j], k, epoch)
  }

  predicate DropsTo(job: Job, k: nat, epoch: nat) {
    job.stage.Dropping? && job.stage.upTo.Some? && k < |job.stage.upTo.value| && epoch <= job.stage.upTo.value[k]
  }

  /** No buffered point of the shard has this epoch or an earlier one. */
  ghost predicate Emptied(buffer: map<string, seq<Tagged>>, k: nat, epoch: nat) {
    forall name, t | t in Buffered(buffer, name) && t.tag.shard == k :: epoch < t.tag.epoch
  }

  /** What a flush of the finished prefix sealed is dropped, or about to be. */
  ghost predicate DroppedInv(buffer: map<string, seq<Tagged>>, jobs: seq<Job>, n: nat) {
    forall k: nat, e: nat | e >= 1 && Sealed(jobs, n, k, e) :: DropPends(jobs, k, e) || Emptied(buffer, k, e)
  }
}

/** The invariant behind exact visibility. */
module ExactInvariant {
  import opened Ingest
  import opened ExactConcerns

  ghost predicate InExactView<V(!new)>(s: State<V>) {
    && TagInv(s.buffer, s.log)
    && FlushedInv(s.jobs, s.blocks)
    && DroppedInv(s.buffer, s.jobs, s.order.drop.frontier)
  }
}

/** Visibility in terms of the flushes alone: over runs whose pushes fit, when a point is
    out of reach of queries. */
module ExactVisibility {
  import opened Options
  import opened Ingest
  import opened IngestConcerns
  import opened IngestInvariant
  import opened IngestSafety
  import opened IngestVisibility
  import opened ViewConcerns
  import opened ViewInvariant
  import opened ExactConcerns
  import opened ExactInvariant
  import opened SelfClosing
  import FlushOrder
  import MB = MemoryBuffer

  // ------------------------------------------------------------------- the steps

  lemma LogKeepsTags<V(!new)>(buffer: map<string, seq<Tagged>>, log: seq<Logged<V>>, rec: Logged<V>)
    requires TagInv(buffer, log)
    ensures TagInv(buffer, log + [rec])
  {
  }

  lemma FedSlotGrows(slot: seq<Tagged>, rows: seq<Row>, tag: MB.Tag)
    requires EpochsGrow(slot) && forall t | t in slot :: t.tag.epoch <= tag.epoch
    ensures EpochsGrow(slot + TagAll(rows, tag))
  {
    forall a, b | 0 <= a < b < |slot + TagAll(rows, tag)|
      ensures (slot + TagAll(rows, tag))[a].tag.epoch <= (slot + TagAll(rows, tag))[b].tag.epoch
    {
      assert a < |slot| ==> slot[a] in slot;
    }
  }

  /** The pushed points go behind, under the writer's epoch. */
  lemma InsertKeepsTags<V(!new)>(buffer: map<string, seq<Tagged>>, log: seq<Logged<V>>, i: nat, tag: MB.Tag,
                                 rows: seq<Row>, name: string)
    requires TagInv(buffer, log) && i < |log| && !log[i].fate.Acked?
    requires forall r | r in rows :: r.rec == i
    requires forall t | t in Buffered(buffer, name) :: t.tag.epoch <= tag.epoch
    ensures TagInv(Fed(buffer, name, rows, tag), log[i := log[i].(fate := Acked(tag.epoch))])
  {
    var buffer', log' := Fed(buffer, name, rows, tag), log[i := log[i].(fate := Acked(tag.epoch))];
    FedSlotGrows(Buffered(buffer, name), rows, tag);
    forall other, t | t in Buffered(buffer', other)
      ensures t.row.rec < |log'| && log'[t.row.rec].fate == Acked(t.tag.epoch)
    {
      FedIsNew(buffer, name, rows, tag, other, t);
    }
  }

  lemma AckKeepsTags<V(!new)>(buffer: map<string, seq<Tagged>>, log: seq<Logged<V>>, i: nat, fate: Fate)
    requires TagInv(buffer, log) && i < |log| && !log[i].fate.Acked?
    ensures TagInv(buffer, log[i := log[i].(fate := fate)])
  {
  }

  lemma InsertKeepsDropped(buffer: map<string, seq<Tagged>>, shards: seq<Shard>, jobs: seq<Job>, n: nat, k: nat,
                           rows: seq<Row>, name: string)
    requires DroppedInv(buffer, jobs, n) && BoundsInv(shards, jobs) && k < |shards|
    ensures DroppedInv(buffer[name := Buffered(buffer, name) + TagAll(rows, MB.Tag(k, shards[k].w.epoch))], jobs, n)
  {
    var tag := MB.Tag(k, shards[k].w.epoch);
    var buffer' := buffer[name := Buffered(buffer, name) + TagAll(rows, tag)];
    forall x: nat, e: nat | e >= 1 && Sealed(jobs, n, x, e) ensures DropPends(jobs, x, e) || Emptied(buffer', x, e) {
      if Emptied(buffer, x, e) {
        forall other, t | t in Buffered(buffer', other) && t.tag.shard == x ensures e < t.tag.epoch {
          if t !in Buffered(buffer, other) {
            assert t in TagAll(rows, tag);
          }
        }
      }
    }
  }

  lemma InsertKeepsExact<V(!new)>(c: Config<V>, s: State<V>, k: nat, writes: nat)
    requires Sound(c) && HeldInv(c, s.shards, s.log, s.cursor) && WriterInv(c, s.shards)
    requires BoundsInv(s.shards, s.jobs) && SlotInv(c, s.buffer, s.shards) && InExactView(s)
    requires Enabled(c, s, Insert(k, writes)) && Quiet(c, s, Insert(k, writes))
    ensures InExactView(DoInsert(s, k, writes))
  {
    var i, w := s.shards[k].held.value, s.shards[k].w;
    var m := s.log[i].metric;
    var rows := RowsOf(i, |m.points|);
    QuietInsert(c, s, k, writes);
    if rows == [] {
      AckKeepsTags(s.buffer, s.log, i, Acked(w.epoch));
    } else {
      InsertKeepsTags(s.buffer, s.log, i, MB.Tag(k, w.epoch), rows, m.name);
      InsertKeepsDropped(s.buffer, s.shards, s.jobs, s.order.drop.frontier, k, rows, m.name);
    }
  }

  /** A flush that moves on and was on disk stays there. */
  ghost predicate StaysOnDisk(jobs: seq<Job>, jobs': seq<Job>) {
    |jobs| <= |jobs'| &&
    forall j | 0 <= j < |jobs| && OnDisk(jobs[j]) :: OnDisk(jobs'[j]) && jobs'[j].rows == jobs[j].rows
  }

  lemma StillFlushed(jobs: seq<Job>, blocks: seq<Block>, jobs': seq<Job>)
    requires FlushedInv(jobs, blocks) && StaysOnDisk(jobs, jobs')
    ensures FlushedInv(jobs', blocks)
  {
    forall b | 0 <= b < |blocks| ensures FromFlush(jobs', blocks[b].rows) {
      assert FromFlush(jobs, blocks[b].rows);
      var j :| 0 <= j < |jobs| && OnDisk(jobs[j]) && jobs[j].rows == blocks[b].rows;
      assert OnDisk(jobs'[j]);
    }
  }

  /** Nothing new is sealed by the finished prefix, and every pending drop still is. */
  lemma SameDropped(buffer: map<string, seq<Tagged>>, jobs: seq<Job>, n: nat, jobs': seq<Job>)
    requires DroppedInv(buffer, jobs, n) && n <= |jobs| <= |jobs'|
    requires SameSeals(jobs, jobs', n)
    requires forall j | 0 <= j < |jobs| && jobs[j].stage.Dropping? :: jobs'[j].stage == jobs[j].stage
    ensures DroppedInv(buffer, jobs', n)
  {
    forall k: nat, e: nat | e >= 1 && Sealed(jobs', n, k, e) ensures DropPends(jobs', k, e) || Emptied(buffer, k, e) {
      var j :| 0 <= j < n && j < |jobs'| && !jobs'[j].failed && k < |jobs'[j].bounds| && e <= jobs'[j].bounds[k];
      assert !jobs[j].failed && jobs[j].bounds == jobs'[j].bounds;
      assert Sealed(jobs, n, k, e);
      if DropPends(jobs, k, e) {
        StillPends(jobs, jobs', k, e);
      }
    }
  }

  lemma StillPends(jobs: seq<Job>, jobs': seq<Job>, k: nat, e: nat)
    requires DropPends(jobs, k, e) && |jobs| <= |jobs'|
    requires forall j | 0 <= j < |jobs| && DropsTo(jobs[j], k, e) :: jobs'[j].stage == jobs[j].stage
    ensures DropPends(jobs', k, e)
  {
    var j :| 0 <= j < |jobs| && DropsTo(jobs[j], k, e);
    assert DropsTo(jobs'[j], k, e);
  }

  lemma FrontierInRange(drop: FlushOrder.Queue<seq<nat>>, jobs: seq<Job>)
    requires DropInv(drop, jobs)
    ensures drop.frontier <= |jobs|
  {
    if drop.frontier > |jobs| {
      ReleasedPrefix(drop, jobs, |jobs|);
    }
  }

  lemma SwapKeepsExact<V(!new)>(c: Config<V>, s: State<V>)
    requires Sound(c) && DropInv(s.order.drop, s.jobs) && InExactView(s) && Enabled(c, s, Swap)
    ensures InExactView(DoSwap(s))
  {
    var s' := DoSwap(s);
    FrontierInRange(s.order.drop, s.jobs);
    StillFlushed(s.jobs, s.blocks, s'.jobs);
    SameDropped(s.buffer, s.jobs, s.order.drop.frontier, s'.jobs);
  }

  /** Encoding, indexing and committing leave the buffer and the drop order alone; the one
      block that may come is that of the flush. */
  lemma OnwardKeepsExact<V(!new)>(s: State<V>, s': State<V>, j: nat, job: Job)
    requires DropInv(s.order.drop, s.jobs) && InExactView(s)
    requires Onward(s.jobs, j, job) && !s.jobs[j].stage.Dropping? && (OnDisk(s.jobs[j]) ==> OnDisk(job))
    requires s'.jobs == s.jobs[j := job] && s'.log == s.log && s'.buffer == s.buffer && s'.order.drop == s.order.drop
    requires s'.blocks == s.blocks ||
             (OnDisk(job) && exists b: Block :: s'.blocks == s.blocks + [b] && b.rows == job.rows)
    ensures InExactView(s')
  {
    FrontierInRange(s.order.drop, s.jobs);
    OnwardKeepsSeals(s.order.drop, s.jobs, j, job);
    SameDropped(s.buffer, s.jobs, s.order.drop.frontier, s'.jobs);
    StillFlushed(s.jobs, s.blocks, s'.jobs);
    assert OnDisk(job) ==> FromFlush(s'.jobs, job.rows) by {
      assert s'.jobs[j] == job;
    }
  }

  lemma EncodeKeepsExact<V(!new)>(c: Config<V>, s: State<V>, step: Step<V>)
    requires Sound(c) && DropInv(s.order.drop, s.jobs) && OrderInv(s.order, s.jobs) && InExactView(s)
    requires Enabled(c, s, step) && (step.Encode? || step.Index? || step.Commit?)
    ensures InExactView(Next(c, s, step))
  {
    var s' := Next(c, s, step);
    OnwardKeepsExact(s, s', step.job, s'.jobs[step.job]);
  }

  /** What the frontier moved over is dropped by the flush that moved it. */
  lemma ReleasePends(jobs: seq<Job>, lo: nat, hi: nat, v: Option<seq<nat>>, shards: nat, j: nat, k: nat, e: nat)
    requires lo <= hi <= |jobs| && forall j | 0 <= j < |jobs| :: |jobs[j].bounds| == shards
    requires forall j | lo <= j < hi :: j in ReleasedJobs(jobs)
    requires v == FlushOrder.Fold(FlushOrder.MaxVec, ReleasedJobs(jobs), lo, hi)
    requires j < |jobs| && jobs[j].stage == Dropping(v)
    requires Sealed(jobs, hi, k, e) && !Sealed(jobs, lo, k, e)
    ensures DropPends(jobs, k, e)
  {
    var done := ReleasedJobs(jobs);
    forall i | lo <= i < hi ensures |done[i]| == shards {
      assert done[i] == DropVec(jobs[i]);
    }
    FlushOrder.FoldMaxVec(done, lo, hi, shards);
    var i :| 0 <= i < hi && i < |jobs| && !jobs[i].failed && k < |jobs[i].bounds| && e <= jobs[i].bounds[k];
    assert lo <= i;
    assert done[i] == jobs[i].bounds;
    assert done[i][k] <= v.value[k];
    assert DropsTo(jobs[j], k, e);
  }

  lemma ReleaseKeepsDropped(buffer: map<string, seq<Tagged>>, drop: FlushOrder.Queue<seq<nat>>, jobs: seq<Job>, j: nat,
                            job: Job, shards: nat, drop': FlushOrder.Queue<seq<nat>>)
    requires DroppedInv(buffer, jobs, drop.frontier) && DropInv(drop, jobs)
    requires Onward(jobs, j, job) && !IsReleased(jobs[j]) && job.failed == jobs[j].failed
    requires forall i | 0 <= i < |jobs| :: |jobs[i].bounds| == shards
    requires job.stage == Dropping(FlushOrder.Release(FlushOrder.MaxVec, drop, j, DropVec(job)))
    requires drop' == FlushOrder.Complete(drop, j, DropVec(job))
    ensures DroppedInv(buffer, jobs[j := job], drop'.frontier)
  {
    var jobs', v := jobs[j := job], FlushOrder.Release(FlushOrder.MaxVec, drop, j, DropVec(job));
    FrontierInRange(drop, jobs);
    ReleasedMore(jobs, j, job);
    FlushOrder.TracksComplete(FlushOrder.MaxVec, drop, ReleasedJobs(jobs), j, DropVec(job));
    OnwardKeepsSeals(drop, jobs, j, job);
    SameDropped(buffer, jobs, drop.frontier, jobs');
    assert drop'.frontier <= |jobs'| by {
      assert |jobs'| !in ReleasedJobs(jobs');
    }
    forall k: nat, e: nat | e >= 1 && Sealed(jobs', drop'.frontier, k, e)
      ensures DropPends(jobs', k, e) || Emptied(buffer, k, e)
    {
      if !Sealed(jobs', drop.frontier, k, e) {
        ReleasePends(jobs', drop.frontier, drop'.frontier, v, shards, j, k, e);
      }
    }
  }

  lemma ReleaseKeepsExact<V(!new)>(c: Config<V>, s: State<V>, j: nat)
    requires Sound(c) && BoundsInv(s.shards, s.jobs) && DropInv(s.order.drop, s.jobs) && InExactView(s)
    requires Enabled(c, s, Release(j))
    ensures InExactView(DoRelease(s, j))
  {
    var s' := DoRelease(s, j);
    var job := s'.jobs[j];
    assert DropVec(s.jobs[j]) == DropVec(job);
    StillFlushed(s.jobs, s.blocks, s'.jobs);
    ReleaseKeepsDropped(s.buffer, s.order.drop, s.jobs, j, job, |s.shards|, s'.order.drop);
  }

  /** In a slot of one shard in epoch order, the drop leaves nothing it covers. */
  lemma DropEmptiesEpoch(slot: seq<Tagged>, v: seq<nat>, k: nat, t: Tagged)
    requires k < |v| && k != MB.UNTRACKED && EpochsGrow(slot) && forall t | t in slot :: t.tag.shard == k
    requires t in slot[MB.DropLen(TagsOf(slot), v)..]
    ensures v[k] < t.tag.epoch
  {
    var tags := TagsOf(slot);
    var n := MB.DropLen(tags, v);
    forall i | 0 <= i < |tags| ensures tags[i].shard == k {
      assert slot[i] in slot;
    }
    MB.DropIsExact(tags, v, k);
    var i :| 0 <= i < |slot[n..]| && slot[n..][i] == t;
    assert tags[n + i] == t.tag;
  }

  lemma DropEmptiesEpochs<V(!new)>(c: Config<V>, buffer: map<string, seq<Tagged>>, shards: seq<Shard>,
                                   log: seq<Logged<V>>,
                                   v: seq<nat>, k: nat, e: nat)
    requires Sound(c) && |shards| == c.shards && SlotInv(c, buffer, shards) && TagInv(buffer, log)
    requires k < |v| && 1 <= e <= v[k]
    ensures Emptied(DropBuffered(buffer, v), k, e)
  {
    forall name, t | t in Buffered(DropBuffered(buffer, v), name) && t.tag.shard == k ensures e < t.tag.epoch {
      DropShrinks(buffer, v, name, t);
      assert c.route(name) == k;
      DropEmptiesEpoch(buffer[name], v, k, t);
    }
  }

  lemma DropKeepsTags<V(!new)>(buffer: map<string, seq<Tagged>>, log: seq<Logged<V>>, v: seq<nat>)
    requires TagInv(buffer, log)
    ensures TagInv(DropBuffered(buffer, v), log)
  {
    var buffer' := DropBuffered(buffer, v);
    forall name, t | t in Buffered(buffer', name)
      ensures t.row.rec < |log| && log[t.row.rec].fate == Acked(t.tag.epoch)
    {
      DropShrinks(buffer, v, name, t);
    }
    forall name | name in buffer' ensures EpochsGrow(buffer'[name]) {
      assert EpochsGrow(buffer[name]);
    }
  }

  lemma DropKeepsDropped<V(!new)>(c: Config<V>, buffer: map<string, seq<Tagged>>, shards: seq<Shard>,
                                  log: seq<Logged<V>>,
                                  jobs: seq<Job>, n: nat, j: nat, v: seq<nat>)
    requires Sound(c) && |shards| == c.shards && SlotInv(c, buffer, shards) && TagInv(buffer, log)
    requires DroppedInv(buffer, jobs, n) && j < |jobs| && jobs[j].stage == Dropping(Some(v))
    ensures DroppedInv(DropBuffered(buffer, v), jobs[j := jobs[j].(stage := Done)], n)
  {
    var buffer', jobs' := DropBuffered(buffer, v), jobs[j := jobs[j].(stage := Done)];
    forall k: nat, e: nat | e >= 1 && Sealed(jobs', n, k, e) ensures DropPends(jobs', k, e) || Emptied(buffer', k, e) {
      MoreSealed(jobs', n, jobs, n, k, e);
      if DropsTo(jobs[j], k, e) {
        DropEmptiesEpochs(c, buffer, shards, log, v, k, e);
      } else if DropPends(jobs, k, e) {
        StillPends(jobs, jobs', k, e);
      } else {
        forall name, t | t in Buffered(buffer', name) && t.tag.shard == k ensures e < t.tag.epoch {
          DropShrinks(buffer, v, name, t);
        }
      }
    }
  }

  lemma DropKeepsExact<V(!new)>(c: Config<V>, s: State<V>, j: nat)
    requires Sound(c) && |s.shards| == c.shards && SlotInv(c, s.buffer, s.shards)
    requires DropInv(s.order.drop, s.jobs) && InExactView(s) && Enabled(c, s, Drop(j))
    ensures InExactView(DoDrop(s, j))
  {
    var s' := DoDrop(s, j);
    StillFlushed(s.jobs, s.blocks, s'.jobs);
    if s.jobs[j].stage.upTo.Some? {
      var v := s.jobs[j].stage.upTo.value;
      DropKeepsTags(s.buffer, s.log, v);
      DropKeepsDropped(c, s.buffer, s.shards, s.log, s.jobs, s.order.drop.frontier, j, v);
    } else {
      NoDropKeepsDropped(s.buffer, s.jobs, s.order.drop.frontier, j);
    }
  }

  lemma NoDropKeepsDropped(buffer: map<string, seq<Tagged>>, jobs: seq<Job>, n: nat, j: nat)
    requires DroppedInv(buffer, jobs, n) && j < |jobs| && jobs[j].stage == Dropping(None)
    ensures DroppedInv(buffer, jobs[j := jobs[j].(stage := Done)], n)
  {
    var jobs' := jobs[j := jobs[j].(stage := Done)];
    forall k: nat, e: nat | e >= 1 && Sealed(jobs', n, k, e) ensures DropPends(jobs', k, e) || Emptied(buffer, k, e) {
      MoreSealed(jobs', n, jobs, n, k, e);
      if DropPends(jobs, k, e) {
        StillPends(jobs, jobs', k, e);
      }
    }
  }

  lemma StepKeepsExact<V(!new)>(c: Config<V>, s: State<V>, step: Step<V>)
    requires Sound(c) && Safe(c, s) && InView(c, s) && SlotInv(c, s.buffer, s.shards) && InExactView(s)
    requires Enabled(c, s, step) && Quiet(c, s, step)
    ensures InExactView(Next(c, s, step))
  {
    match step
    case Log(m, synced) => LogKeepsTags(s.buffer, s.log, DoLog(c, s, m, synced).log[|s.log|]);
    case LogFail(_, _) =>
    case Insert(k, writes) => InsertKeepsExact(c, s, k, writes);
    case Swap => SwapKeepsExact(c, s);
    case Encode(_, _) => EncodeKeepsExact(c, s, step);
    case Index(_, _) => EncodeKeepsExact(c, s, step);
    case Commit(_, _, _) => EncodeKeepsExact(c, s, step);
    case Release(j) => ReleaseKeepsExact(c, s, j);
    case Drop(j) => DropKeepsExact(c, s, j);
  }

  lemma {:induction false} RunKeepsExact<V(!new)>(c: Config<V>, s: State<V>, steps: seq<Step<V>>)
    requires Sound(c) && Safe(c, s) && InView(c, s) && SlotInv(c, s.buffer, s.shards) && InExactView(s)
    requires IsRun(c, s, steps) && IsQuietRun(c, s, steps)
    ensures var t := RunFrom(c, s, steps);
            Safe(c, t) && InView(c, t) && SlotInv(c, t.buffer, t.shards) && InExactView(t)
    decreases |steps|
  {
    if steps != [] {
      StepIsSafe(c, s, steps[0]);
      StepKeepsView(c, s, steps[0]);
      StepKeepsSlots(c, s, steps[0]);
      StepKeepsExact(c, s, steps[0]);
      RunKeepsExact(c, Next(c, s, steps[0]), steps[1..]);
    }
  }

  lemma InitIsExact<V(!new)>(c: Config<V>)
    requires Sound(c)
    ensures var s := Init(c); |s.shards| == c.shards && SlotInv(c, s.buffer, s.shards) && InExactView(s)
  {
  }

  lemma RunFromStart<V(!new)>(c: Config<V>, steps: seq<Step<V>>)
    requires Sound(c) && IsRun(c, Init(c), steps) && IsQuietRun(c, Init(c), steps)
    ensures var t := RunFrom(c, Init(c), steps);
            Safe(c, t) && InView(c, t) && SlotInv(c, t.buffer, t.shards) && InExactView(t)
  {
    InitIsSafe(c);
    InitIsInView(c);
    InitIsExact(c);
    RunKeepsExact(c, Init(c), steps);
  }

  // -------------------------------------------------------------- the exact view

  ghost predicate InBuffer<V(!new)>(s: State<V>, name: string, row: Row) {
    exists t :: t in Buffered(s.buffer, name) && t.row == row
  }

  /** A point whose epoch is sealed and dropped is not buffered. */
  lemma DroppedIsUnbuffered<V(!new)>(c: Config<V>, s: State<V>, i: nat, k: nat)
    requires Sound(c) && |s.shards| == c.shards && SlotInv(c, s.buffer, s.shards) && InExactView(s)
    requires i < |s.log| && s.log[i].fate.Acked? && s.log[i].fate.epoch >= 1
    requires var sh, e := c.route(s.log[i].metric.name), s.log[i].fate.epoch;
             Sealed(s.jobs, s.order.drop.frontier, sh, e) && !DropPends(s.jobs, sh, e)
    ensures !InBuffer(s, s.log[i].metric.name, Row(i, k))
  {
    assert Emptied(s.buffer, c.route(s.log[i].metric.name), s.log[i].fate.epoch);
  }

  /** A row is in one flush only. */
  lemma OneFlush<V(!new)>(c: Config<V>, s: State<V>, a: nat, b: nat, row: Row)
    requires InView(c, s) && a < |s.jobs| && b < |s.jobs| && row in s.jobs[a].rows && row in s.jobs[b].rows
    ensures a == b
  {
    var k := c.route(s.log[row.rec].metric.name);
    assert s.jobs[a].bounds[k] == s.jobs[b].bounds[k] == s.log[row.rec].fate.epoch;
    assert s.jobs[a].bounds[k] >= 1;
  }

  /** A flush of the finished prefix that did not fail and sealed the shard, at or after
      flush `own`. */
  ghost predicate SealedFrom(jobs: seq<Job>, n: nat, k: nat, own: nat) {
    exists later | own <= later < n && later < |jobs| ::
      !jobs[later].failed && k < |jobs[later].bounds| && 0 < jobs[later].bounds[k]
  }

  /** The epoch of a flushed row is sealed exactly from its own flush on. */
  lemma SealedIffFrom<V(!new)>(c: Config<V>, s: State<V>, n: nat, own: nat, row: Row)
    requires InView(c, s) && own < |s.jobs| && row in s.jobs[own].rows
    ensures row.rec < |s.log| && s.log[row.rec].fate.Acked? && s.log[row.rec].fate.epoch >= 1
    ensures var sh := c.route(s.log[row.rec].metric.name);
            Sealed(s.jobs, n, sh, s.log[row.rec].fate.epoch) <==> SealedFrom(s.jobs, n, sh, own)
  {
    var sh, e := c.route(s.log[row.rec].metric.name), s.log[row.rec].fate.epoch;
    assert s.jobs[own].bounds[sh] == e;
    if Sealed(s.jobs, n, sh, e) {
      var j :| 0 <= j < n && j < |s.jobs| && !s.jobs[j].failed && sh < |s.jobs[j].bounds| && e <= s.jobs[j].bounds[sh];
      assert own <= j;
    }
    if SealedFrom(s.jobs, n, sh, own) {
      var later :| own <= later < n && later < |s.jobs| &&
        !s.jobs[later].failed && sh < |s.jobs[later].bounds| && 0 < s.jobs[later].bounds[sh];
      assert e <= s.jobs[later].bounds[sh];
    }
  }

  /** A point that is no longer buffered is in a flush, at or after which its shard was
      sealed. */
  lemma UnbufferedIsFlushed<V(!new)>(c: Config<V>, s: State<V>, i: nat, k: nat) returns (own: nat)
    requires Sound(c) && Safe(c, s) && InView(c, s) && InExactView(s)
    requires i < |s.log| && s.log[i].fate.Acked? && k < |s.log[i].metric.points|
    requires !InBuffer(s, s.log[i].metric.name, Row(i, k))
    ensures own < |s.jobs| && Row(i, k) in s.jobs[own].rows
    ensures SealedFrom(s.jobs, s.order.drop.frontier, c.route(s.log[i].metric.name), own)
  {
    var row, sh, e := Row(i, k), c.route(s.log[i].metric.name), s.log[i].fate.epoch;
    var n := s.order.drop.frontier;
    assert Sealed(s.jobs, n, sh, e) by {
      assert Seen(c, s.buffer, s.jobs, n, s.log[i], row);
      assert Tagged(row, MB.Tag(sh, e)).row == row;
    }
    assert InJob(s.jobs, row) by {
      if SelfClosed(s.blocks, row) {
        var b :| 0 <= b < |s.blocks| && s.blocks[b].range == None && row in s.blocks[b].rows;
        assert FromFlush(s.jobs, s.blocks[b].rows);
      }
      assert row !in s.shards[sh].w.rows;
    }
    own :| 0 <= own < |s.jobs| && row in s.jobs[own].rows;
    SealedIffFrom(c, s, n, own, row);
  }

  /** Its flush failed: no block has it. */
  lemma FailedIsUnpublished<V(!new)>(c: Config<V>, s: State<V>, own: nat, row: Row)
    requires InView(c, s) && InExactView(s) && own < |s.jobs| && s.jobs[own].failed && row in s.jobs[own].rows
    ensures forall b | 0 <= b < |s.blocks| :: row !in s.blocks[b].rows
  {
    forall b | 0 <= b < |s.blocks| ensures row !in s.blocks[b].rows {
      assert FromFlush(s.jobs, s.blocks[b].rows);
      var j :| 0 <= j < |s.jobs| && OnDisk(s.jobs[j]) && s.jobs[j].rows == s.blocks[b].rows;
      if row in s.jobs[j].rows {
        OneFlush(c, s, own, j, row);
      }
    }
  }

  lemma HiddenIsSealed(jobs: seq<Job>, n: nat, k: nat, row: Row) returns (own: nat)
    requires HiddenByFailure(jobs, n, k, row)
    ensures own < |jobs| && jobs[own].failed && row in jobs[own].rows && SealedFrom(jobs, n, k, own)
  {
    var o, later :| 0 <= o < later < |jobs| && jobs[o].failed && row in jobs[o].rows &&
      later < n && !jobs[later].failed && k < |jobs[later].bounds| && 0 < jobs[later].bounds[k];
    own := o;
  }

  lemma HiddenIsInvisible<V(!new)>(c: Config<V>, s: State<V>, i: nat, k: nat)
    requires Sound(c) && |s.shards| == c.shards && InView(c, s) && SlotInv(c, s.buffer, s.shards) && InExactView(s)
    requires i < |s.log| && s.log[i].fate.Acked?
    requires var sh, e := c.route(s.log[i].metric.name), s.log[i].fate.epoch;
             !DropPends(s.jobs, sh, e) && HiddenByFailure(s.jobs, s.order.drop.frontier, sh, Row(i, k))
    ensures !Visible(s, s.log[i].metric.name, Row(i, k))
  {
    var row, sh, n := Row(i, k), c.route(s.log[i].metric.name), s.order.drop.frontier;
    var own := HiddenIsSealed(s.jobs, n, sh, row);
    assert !InBuffer(s, s.log[i].metric.name, row) by {
      SealedIffFrom(c, s, n, own, row);
      DroppedIsUnbuffered(c, s, i, k);
    }
    FailedIsUnpublished(c, s, own, row);
  }

  /** When exactly an acknowledged point is out of sight. At every state of every quiet
      run where no pending drop reaches the point's epoch, the point is visible if and
      only if it is not in a failed flush behind which a later flush of its shard
      succeeded and was released. */
  lemma VisibleIffNotHidden<V(!new)>(c: Config<V>, steps: seq<Step<V>>, s: State<V>, i: nat, k: nat)
    requires Sound(c) && IsRun(c, Init(c), steps) && IsQuietRun(c, Init(c), steps) && s == RunFrom(c, Init(c), steps)
    requires i < |s.log| && s.log[i].fate.Acked? && k < |s.log[i].metric.points|
    requires !DropPends(s.jobs, c.route(s.log[i].metric.name), s.log[i].fate.epoch)
    ensures Visible(s, s.log[i].metric.name, Row(i, k)) <==>
            !HiddenByFailure(s.jobs, s.order.drop.frontier, c.route(s.log[i].metric.name), Row(i, k))
  {
    RunFromStart(c, steps);
    if HiddenByFailure(s.jobs, s.order.drop.frontier, c.route(s.log[i].metric.name), Row(i, k)) {
      HiddenIsInvisible(c, s, i, k);
    } else {
      InViewIsVisible(c, s, i, k);
    }
  }

  ghost predicate NoneDropping(jobs: seq<Job>) {
    forall j | 0 <= j < |jobs| :: !jobs[j].stage.Dropping?
  }

  /** So whenever all decided drops have happened, the condition is exact for every
      acknowledged point. */
  lemma SettledVisibleIff<V(!new)>(c: Config<V>, steps: seq<Step<V>>, s: State<V>, i: nat, k: nat)
    requires Sound(c) && IsRun(c, Init(c), steps) && IsQuietRun(c, Init(c), steps) && s == RunFrom(c, Init(c), steps)
    requires NoneDropping(s.jobs)
    requires i < |s.log| && s.log[i].fate.Acked? && k < |s.log[i].metric.points|
    ensures Visible(s, s.log[i].metric.name, Row(i, k)) <==>
            !HiddenByFailure(s.jobs, s.order.drop.frontier, c.route(s.log[i].metric.name), Row(i, k))
  {
    VisibleIffNotHidden(c, steps, s, i, k);
  }

  // ------------------------------------------------ counted from the acknowledgement

  /** In the block of a flush that the index acknowledged. */
  ghost predicate IndexKnows<V(!new)>(s: State<V>, row: Row) {
    exists j | 0 <= j < |s.jobs| :: s.jobs[j].indexed && BlockOf(s.blocks, s.jobs[j]) && row in s.jobs[j].rows
  }

  /** The row's flush was not acknowledged, and it or a later one sealed the shard and
      did not fail. */
  ghost predicate HiddenUnindexed(jobs: seq<Job>, n: nat, k: nat, row: Row) {
    exists own | 0 <= own < |jobs| :: !jobs[own].indexed && row in jobs[own].rows && SealedFrom(jobs, n, k, own)
  }

  lemma HiddenIsUnknown<V(!new)>(c: Config<V>, s: State<V>, i: nat, k: nat)
    requires Sound(c) && |s.shards| == c.shards && InView(c, s) && SlotInv(c, s.buffer, s.shards) && InExactView(s)
    requires i < |s.log| && s.log[i].fate.Acked?
    requires var sh, e := c.route(s.log[i].metric.name), s.log[i].fate.epoch;
             !DropPends(s.jobs, sh, e) && HiddenUnindexed(s.jobs, s.order.drop.frontier, sh, Row(i, k))
    ensures !InBuffer(s, s.log[i].metric.name, Row(i, k)) && !IndexKnows(s, Row(i, k))
  {
    var row, sh, n := Row(i, k), c.route(s.log[i].metric.name), s.order.drop.frontier;
    var own :| 0 <= own < |s.jobs| && !s.jobs[own].indexed && row in s.jobs[own].rows && SealedFrom(s.jobs, n, sh, own);
    SealedIffFrom(c, s, n, own, row);
    DroppedIsUnbuffered(c, s, i, k);
    forall j | 0 <= j < |s.jobs| && row in s.jobs[j].rows ensures !s.jobs[j].indexed {
      OneFlush(c, s, own, j, row);
    }
  }

  /** A drop does not wait for the index: counted from the acknowledgement, a point is
      buffered or known to the index if and only if its flush was acknowledged, or no
      flush of its shard from its own on has succeeded and been released. So a flush
      whose acknowledgement never came hides its points although its block is on disk. */
  lemma KnownIffAcknowledged<V(!new)>(c: Config<V>, steps: seq<Step<V>>, s: State<V>, i: nat, k: nat)
    requires Sound(c) && IsRun(c, Init(c), steps) && IsQuietRun(c, Init(c), steps) && s == RunFrom(c, Init(c), steps)
    requires i < |s.log| && s.log[i].fate.Acked? && k < |s.log[i].metric.points|
    requires !DropPends(s.jobs, c.route(s.log[i].metric.name), s.log[i].fate.epoch)
    ensures InBuffer(s, s.log[i].metric.name, Row(i, k)) || IndexKnows(s, Row(i, k)) <==>
            !HiddenUnindexed(s.jobs, s.order.drop.frontier, c.route(s.log[i].metric.name), Row(i, k))
  {
    RunFromStart(c, steps);
    if HiddenUnindexed(s.jobs, s.order.drop.frontier, c.route(s.log[i].metric.name), Row(i, k)) {
      HiddenIsUnknown(c, s, i, k);
    } else if !InBuffer(s, s.log[i].metric.name, Row(i, k)) {
      var own := UnbufferedIsFlushed(c, s, i, k);
      assert s.jobs[own].indexed;
      assert BlockOf(s.blocks, s.jobs[own]);
    }
  }
}

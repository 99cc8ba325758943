/** Visibility: where every push fits its writer, an acknowledged point is always in the
    memory buffer or in a published block, unless its flush failed and a later flush of
    its shard was dropped. */
module IngestVisibility {
  import opened Options
  import opened Coverage
  import opened Ingest
  import opened IngestConcerns
  import opened IngestInvariant
  import opened IngestSafety
  import opened ViewConcerns
  import opened ViewInvariant
  import FlushOrder
  import MB = MemoryBuffer
  import Seqs
  import Writer

  /** The push being made fits its shard writer's room. */
  ghost predicate Quiet<V(!new)>(c: Config<V>, s: State<V>, step: Step<V>)
    requires Sound(c) && Enabled(c, s, step)
  {
    step.Insert? ==>
      var sh := s.shards[step.shard];
      |s.log[sh.held.value].metric.points| <= Writer.Room(sh.w)
  }

  ghost predicate IsQuietRun<V(!new)>(c: Config<V>, s: State<V>, steps: seq<Step<V>>)
    requires Sound(c) && IsRun(c, s, steps)
    decreases |steps|
  {
    steps == [] || (Quiet(c, s, steps[0]) && IsQuietRun(c, Next(c, s, steps[0]), steps[1..]))
  }

  ghost predicate Visible<V(!new)>(s: State<V>, name: string, row: Row) {
    (exists t :: t in Buffered(s.buffer, name) && t.row == row) ||
    (exists b | 0 <= b < |s.blocks| :: s.blocks[b].published && row in s.blocks[b].rows)
  }

  lemma InitIsInView<V(!new)>(c: Config<V>)
    requires Sound(c)
    ensures InView(c, Init(c))
  {
    assert ReleasedJobs([]) == map[];
  }

  // ------------------------------------------------------- from invariant to view

  lemma ReleasedPrefix(drop: FlushOrder.Queue<seq<nat>>, jobs: seq<Job>, j: nat)
    requires DropInv(drop, jobs) && j < drop.frontier
    ensures j < |jobs| && IsReleased(jobs[j])
  {
    assert j in ReleasedJobs(jobs);
  }

  /** The row's flush failed, and a later one that did not sealed the shard and may drop
      it from the buffer. */
  ghost predicate HiddenByFailure(jobs: seq<Job>, n: nat, k: nat, row: Row) {
    exists own, later | 0 <= own < later < |jobs| ::
      jobs[own].failed && row in jobs[own].rows &&
      later < n && !jobs[later].failed && k < |jobs[later].bounds| && 0 < jobs[later].bounds[k]
  }

  /** A point whose epoch a dropping flush sealed is in a published block, or in a failed
      flush before it. */
  lemma SealedIsPublished<V(!new)>(c: Config<V>, s: State<V>, i: nat, k: nat)
    requires Sound(c) && Safe(c, s) && InView(c, s)
    requires i < |s.log| && s.log[i].fate.Acked? && k < |s.log[i].metric.points|
    requires Sealed(s.jobs, s.order.drop.frontier, c.route(s.log[i].metric.name), s.log[i].fate.epoch)
    ensures (exists b | 0 <= b < |s.blocks| :: s.blocks[b].published && Row(i, k) in s.blocks[b].rows) ||
            HiddenByFailure(s.jobs, s.order.drop.frontier, c.route(s.log[i].metric.name), Row(i, k))
  {
    var row, sh, e := Row(i, k), c.route(s.log[i].metric.name), s.log[i].fate.epoch;
    var n := s.order.drop.frontier;
    var j :| 0 <= j < n && j < |s.jobs| && !s.jobs[j].failed && sh < |s.jobs[j].bounds| && e <= s.jobs[j].bounds[sh];
    if SelfClosed(s.blocks, row) {
      var b :| 0 <= b < |s.blocks| && s.blocks[b].range == None && row in s.blocks[b].rows;
      assert s.blocks[b].published;
    } else {
      assert row !in s.shards[sh].w.rows;
      assert InJob(s.jobs, row);
      var own :| 0 <= own < |s.jobs| && row in s.jobs[own].rows;
      assert own <= j;
      ReleasedPrefix(s.order.drop, s.jobs, own);
      if s.jobs[own].failed {
        assert own < j && 0 < s.jobs[j].bounds[sh];
      } else {
        assert BlockOf(s.blocks, s.jobs[own]);
      }
    }
  }

  lemma InViewIsVisible<V(!new)>(c: Config<V>, s: State<V>, i: nat, k: nat)
    requires Sound(c) && Safe(c, s) && InView(c, s)
    requires i < |s.log| && s.log[i].fate.Acked? && k < |s.log[i].metric.points|
    ensures Visible(s, s.log[i].metric.name, Row(i, k)) ||
            HiddenByFailure(s.jobs, s.order.drop.frontier, c.route(s.log[i].metric.name), Row(i, k))
  {
    var sh, e := c.route(s.log[i].metric.name), s.log[i].fate.epoch;
    if Sealed(s.jobs, s.order.drop.frontier, sh, e) {
      SealedIsPublished(c, s, i, k);
    } else {
      assert Seen(c, s.buffer, s.jobs, s.order.drop.frontier, s.log[i], Row(i, k));
      assert Tagged(Row(i, k), MB.Tag(sh, e)).row == Row(i, k);
    }
  }

  // ------------------------------------------------------------------- the steps

  /** Among the first `n` flushes, what was sealed and whether it failed is settled. */
  ghost predicate SameSeals(jobs: seq<Job>, jobs': seq<Job>, n: nat) {
    |jobs| <= |jobs'| &&
    forall j | 0 <= j < n && j < |jobs| :: jobs'[j].bounds == jobs[j].bounds && jobs'[j].failed == jobs[j].failed
  }

  lemma MoreSealed(jobs: seq<Job>, n: nat, jobs': seq<Job>, n': nat, k: nat, e: nat)
    requires Sealed(jobs, n, k, e) && n <= n'
    requires SameSeals(jobs, jobs', n)
    ensures Sealed(jobs', n', k, e)
  {
    var j :| 0 <= j < n && j < |jobs| && !jobs[j].failed && k < |jobs[j].bounds| && e <= jobs[j].bounds[k];
    assert !jobs'[j].failed && e <= jobs'[j].bounds[k];
  }

  /** The drop order may advance and flushes be added; nobody becomes unseen. */
  lemma MoreSeen<V(!new)>(c: Config<V>, buffer: map<string, seq<Tagged>>, jobs: seq<Job>, n: nat, log: seq<Logged<V>>,
                          jobs': seq<Job>, n': nat)
    requires SeenInv(c, buffer, jobs, n, log) && n <= n'
    requires SameSeals(jobs, jobs', n)
    ensures SeenInv(c, buffer, jobs', n', log)
  {
    forall i, k | 0 <= i < |log| && log[i].fate.Acked? && 0 <= k < |log[i].metric.points|
      ensures Seen(c, buffer, jobs', n', log[i], Row(i, k))
    {
      assert Seen(c, buffer, jobs, n, log[i], Row(i, k));
      var sh := c.route(log[i].metric.name);
      if Sealed(jobs, n, sh, log[i].fate.epoch) {
        MoreSealed(jobs, n, jobs', n', sh, log[i].fate.epoch);
      }
    }
  }

  lemma MoreBacked(jobs: seq<Job>, n: nat, jobs': seq<Job>, n': nat, v: seq<nat>)
    requires Backed(jobs, n, v) && n <= n'
    requires SameSeals(jobs, jobs', n)
    ensures Backed(jobs', n', v)
  {
    forall k | 0 <= k < |v| && v[k] > 0 ensures Sealed(jobs', n', k, v[k]) {
      MoreSealed(jobs, n, jobs', n', k, v[k]);
    }
  }

  lemma LogKeepsView<V(!new)>(c: Config<V>, s: State<V>, m: Metric<V>, synced: bool)
    requires Sound(c) && InView(c, s) && Enabled(c, s, Log(m, synced))
    ensures InView(c, DoLog(c, s, m, synced))
  {
    var s' := DoLog(c, s, m, synced);
    var rec := s'.log[|s.log|];
    LogKeepsEpochs(c, s.shards, s.jobs, s.log, s'.shards, rec);
    LogKeepsSeen(c, s.buffer, s.jobs, s.order.drop.frontier, s.log, rec);
  }

  lemma LogKeepsEpochs<V(!new)>(c: Config<V>, shards: seq<Shard>, jobs: seq<Job>, log: seq<Logged<V>>,
                                shards': seq<Shard>, rec: Logged<V>)
    requires EpochInv(c, shards, jobs, log) && BoundsInv(shards, jobs) && |shards'| == |shards|
    requires forall k | 0 <= k < |shards| :: shards'[k].w == shards[k].w
    ensures EpochInv(c, shards', jobs, log + [rec]) && BoundsInv(shards', jobs)
  {
  }

  lemma LogKeepsSeen<V(!new)>(c: Config<V>, buffer: map<string, seq<Tagged>>, jobs: seq<Job>, n: nat,
                              log: seq<Logged<V>>, rec: Logged<V>)
    requires SeenInv(c, buffer, jobs, n, log) && !rec.fate.Acked?
    ensures SeenInv(c, buffer, jobs, n, log + [rec])
  {
    var log' := log + [rec];
    forall i, k | 0 <= i < |log'| && log'[i].fate.Acked? && 0 <= k < |log'[i].metric.points|
      ensures Seen(c, buffer, jobs, n, log'[i], Row(i, k))
    {
      assert Seen(c, buffer, jobs, n, log[i], Row(i, k));
    }
  }

  /** A push that fits is the writer's rows with the new ones behind, and nothing
      closed. */
  lemma FittingPush(w: Writer.Writer<Row>, rows: seq<Row>, writes: nat)
    requires |w.rows| <= w.capacity && |rows| <= Writer.Room(w)
    ensures Writer.Push(w, rows, writes) == Writer.Pushed(w.(rows := w.rows + rows), [], true)
  {
    if rows == [] {
      Seqs.EmptyRight(w.rows);
    } else {
      Writer.PushFits(w, rows, writes);
    }
  }

  lemma InsertKeepsEpochs<V(!new)>(c: Config<V>, shards: seq<Shard>, jobs: seq<Job>, log: seq<Logged<V>>,
                                   k: nat, i: nat, rows: seq<Row>)
    requires EpochInv(c, shards, jobs, log) && k < |shards| && i < |log|
    requires log[i].fate == Pending && c.route(log[i].metric.name) == k
    requires forall r | r in rows :: r.rec == i
    ensures var w := shards[k].w;
            EpochInv(c, shards[k := Shard(w.(rows := w.rows + rows), None)], jobs,
                     log[i := log[i].(fate := Acked(w.epoch))])
  {
  }

  /** The pushed points are buffered under the writer's tag and nobody else's go. */
  lemma InsertKeepsSeen<V(!new)>(c: Config<V>, buffer: map<string, seq<Tagged>>, jobs: seq<Job>, n: nat,
                                 log: seq<Logged<V>>, i: nat, epoch: nat, buffer': map<string, seq<Tagged>>,
                                 log': seq<Logged<V>>)
    requires SeenInv(c, buffer, jobs, n, log) && i < |log| && epoch >= 1
    requires log' == log[i := log[i].(fate := Acked(epoch))]
    requires var m := log[i].metric;
             var rows := RowsOf(i, |m.points|);
             buffer' == if rows == [] then buffer
               else buffer[m.name := Buffered(buffer, m.name) + TagAll(rows, MB.Tag(c.route(m.name), epoch))]
    ensures SeenInv(c, buffer', jobs, n, log')
  {
    var m := log[i].metric;
    forall a, b | 0 <= a < |log'| && log'[a].fate.Acked? && 0 <= b < |log'[a].metric.points|
      ensures Seen(c, buffer', jobs, n, log'[a], Row(a, b))
    {
      if a == i {
        var added := TagAll(RowsOf(i, |m.points|), MB.Tag(c.route(m.name), epoch));
        assert added[b] == Tagged(Row(a, b), MB.Tag(c.route(m.name), epoch));
        assert added[b] in buffer'[m.name];
      } else {
        assert Seen(c, buffer, jobs, n, log[a], Row(a, b));
      }
    }
  }

  /** What a push that fits does. */
  lemma QuietInsert<V(!new)>(c: Config<V>, s: State<V>, k: nat, writes: nat)
    requires Sound(c) && WriterInv(c, s.shards) && Enabled(c, s, Insert(k, writes)) && Quiet(c, s, Insert(k, writes))
    ensures var s' := DoInsert(s, k, writes);
            var i, w := s.shards[k].held.value, s.shards[k].w;
            var m := s.log[i].metric;
            var rows := RowsOf(i, |m.points|);
            s'.shards == s.shards[k := Shard(w.(rows := w.rows + rows), None)] &&
            s'.log == s.log[i := s.log[i].(fate := Acked(w.epoch))] &&
            s'.jobs == s.jobs && s'.order == s.order && s'.blocks == s.blocks &&
            s'.buffer == if rows == [] then s.buffer
              else s.buffer[m.name := Buffered(s.buffer, m.name) + TagAll(rows, MB.Tag(k, w.epoch))]
  {
    var i := s.shards[k].held.value;
    FittingPush(s.shards[k].w, RowsOf(i, |s.log[i].metric.points|), writes);
    Seqs.EmptyRight(s.blocks);
    assert Closed([], true) == [];
  }

  lemma InsertKeepsView<V(!new)>(c: Config<V>, s: State<V>, k: nat, writes: nat)
    requires Sound(c) && HeldInv(c, s.shards, s.log, s.cursor) && WriterInv(c, s.shards) && InView(c, s)
    requires Enabled(c, s, Insert(k, writes)) && Quiet(c, s, Insert(k, writes))
    ensures InView(c, DoInsert(s, k, writes))
  {
    var s' := DoInsert(s, k, writes);
    var i, w := s.shards[k].held.value, s.shards[k].w;
    assert c.route(s.log[i].metric.name) == k && s.log[i].fate == Pending;
    QuietInsert(c, s, k, writes);
    InsertKeepsEpochs(c, s.shards, s.jobs, s.log, k, i, RowsOf(i, |s.log[i].metric.points|));
    InsertKeepsSeen(c, s.buffer, s.jobs, s.order.drop.frontier, s.log, i, w.epoch, s'.buffer, s'.log);
  }

  lemma SwapKeepsEpochs<V(!new)>(c: Config<V>, shards: seq<Shard>, jobs: seq<Job>, log: seq<Logged<V>>, job: Job)
    requires EpochInv(c, shards, jobs, log)
    requires job.rows == Seqs.Flatten(OpenRows(shards)) && job.bounds == SealedAt(shards)
    ensures EpochInv(c, FreshShards(shards), jobs + [job], log)
  {
    var open := OpenRows(shards);
    forall r: Row | r in job.rows
      ensures r.rec < |log| && log[r.rec].fate.Acked?
      ensures var k := c.route(log[r.rec].metric.name);
              k < |job.bounds| && job.bounds[k] == log[r.rec].fate.epoch
    {
      Seqs.FlattenHas(open, r);
      var k :| 0 <= k < |open| && r in open[k];
      assert r in shards[k].w.rows;
    }
  }

  lemma SwapKeepsBounds(shards: seq<Shard>, jobs: seq<Job>, job: Job)
    requires BoundsInv(shards, jobs) && job.bounds == SealedAt(shards)
    ensures BoundsInv(FreshShards(shards), jobs + [job])
  {
  }

  /** A flush that begins has released nothing. */
  lemma SwapKeepsDrop(drop: FlushOrder.Queue<seq<nat>>, jobs: seq<Job>, job: Job)
    requires DropInv(drop, jobs) && job.stage == Encoding
    ensures DropInv(drop, jobs + [job])
  {
    var jobs' := jobs + [job];
    assert ReleasedJobs(jobs') == ReleasedJobs(jobs);
    forall j | 0 <= j < |jobs'| && jobs'[j].stage.Dropping? && jobs'[j].stage.upTo.Some?
      ensures Backed(jobs', drop.frontier, jobs'[j].stage.upTo.value)
    {
      MoreBacked(jobs, drop.frontier, jobs', drop.frontier, jobs[j].stage.upTo.value);
    }
  }

  lemma SwapKeepsView<V(!new)>(c: Config<V>, s: State<V>)
    requires Sound(c) && InView(c, s) && Enabled(c, s, Swap)
    ensures InView(c, DoSwap(s))
  {
    if Seqs.Flatten(OpenRows(s.shards)) != [] {
      var s' := DoSwap(s);
      var job := s'.jobs[|s.jobs|];
      SwapKeepsEpochs(c, s.shards, s.jobs, s.log, job);
      SwapKeepsBounds(s.shards, s.jobs, job);
      SwapKeepsDrop(s.order.drop, s.jobs, job);
      MoreSeen(c, s.buffer, s.jobs, s.order.drop.frontier, s.log, s'.jobs, s.order.drop.frontier);
    }
  }

  /** A flush that moves on keeps its rows and what it sealed; it may only fail before it
      took its place in the drop order. */
  ghost predicate Onward(jobs: seq<Job>, j: nat, job: Job) {
    j < |jobs| && job.rows == jobs[j].rows && job.bounds == jobs[j].bounds &&
    (IsReleased(jobs[j]) ==> job.failed == jobs[j].failed)
  }

  lemma OnwardKeepsSeals(drop: FlushOrder.Queue<seq<nat>>, jobs: seq<Job>, j: nat, job: Job)
    requires DropInv(drop, jobs) && Onward(jobs, j, job)
    ensures SameSeals(jobs, jobs[j := job], drop.frontier)
  {
    if j < drop.frontier {
      ReleasedPrefix(drop, jobs, j);
    }
  }

  lemma OnwardKeepsEpochs<V(!new)>(c: Config<V>, shards: seq<Shard>, jobs: seq<Job>, log: seq<Logged<V>>, j: nat,
                                   job: Job)
    requires EpochInv(c, shards, jobs, log) && BoundsInv(shards, jobs) && Onward(jobs, j, job)
    ensures EpochInv(c, shards, jobs[j := job], log) && BoundsInv(shards, jobs[j := job])
  {
  }

  lemma OnwardKeepsDrop(drop: FlushOrder.Queue<seq<nat>>, jobs: seq<Job>, j: nat, job: Job)
    requires DropInv(drop, jobs) && Onward(jobs, j, job) && IsReleased(job) == IsReleased(jobs[j])
    requires !job.stage.Dropping?
    ensures DropInv(drop, jobs[j := job])
  {
    var jobs' := jobs[j := job];
    assert ReleasedJobs(jobs') == ReleasedJobs(jobs);
    OnwardKeepsSeals(drop, jobs, j, job);
    forall i | 0 <= i < |jobs'| && jobs'[i].stage.Dropping? && jobs'[i].stage.upTo.Some?
      ensures Backed(jobs', drop.frontier, jobs'[i].stage.upTo.value)
    {
      MoreBacked(jobs, drop.frontier, jobs', drop.frontier, jobs[i].stage.upTo.value);
    }
  }

  /** Encoding, indexing and committing touch neither buffer nor drop order. */
  lemma OnwardKeepsView<V(!new)>(c: Config<V>, s: State<V>, s': State<V>, j: nat, job: Job)
    requires Sound(c) && InView(c, s) && Onward(s.jobs, j, job)
    requires IsReleased(job) == IsReleased(s.jobs[j]) && !job.stage.Dropping?
    requires s'.jobs == s.jobs[j := job] && s'.shards == s.shards && s'.log == s.log && s'.buffer == s.buffer
    requires s'.order.drop == s.order.drop && PublishedInv(s'.blocks)
    ensures InView(c, s')
  {
    OnwardKeepsEpochs(c, s.shards, s.jobs, s.log, j, job);
    OnwardKeepsDrop(s.order.drop, s.jobs, j, job);
    OnwardKeepsSeals(s.order.drop, s.jobs, j, job);
    MoreSeen(c, s.buffer, s.jobs, s.order.drop.frontier, s.log, s'.jobs, s.order.drop.frontier);
  }

  lemma EncodeKeepsView<V(!new)>(c: Config<V>, s: State<V>, step: Step<V>)
    requires Sound(c) && InView(c, s) && Enabled(c, s, step)
    requires step.Encode? || step.Index? || step.Commit?
    ensures InView(c, Next(c, s, step))
  {
    var s' := Next(c, s, step);
    OnwardKeepsView(c, s, s', step.job, s'.jobs[step.job]);
  }

  /** A release is backed by the flushes the frontier moved over. */
  lemma ReleaseIsBacked(jobs: seq<Job>, lo: nat, hi: nat, v: Option<seq<nat>>, shards: nat)
    requires lo <= hi <= |jobs| && forall j | 0 <= j < |jobs| :: |jobs[j].bounds| == shards
    requires forall j | lo <= j < hi :: j in ReleasedJobs(jobs)
    requires v == FlushOrder.Fold(FlushOrder.MaxVec, ReleasedJobs(jobs), lo, hi)
    ensures v.Some? ==> Backed(jobs, hi, v.value)
  {
    var done := ReleasedJobs(jobs);
    forall j | lo <= j < hi ensures |done[j]| == shards {
      assert done[j] == DropVec(jobs[j]);
    }
    FlushOrder.FoldMaxVec(done, lo, hi, shards);
    if v.Some? {
      forall k | 0 <= k < |v.value| && v.value[k] > 0 ensures Sealed(jobs, hi, k, v.value[k]) {
        var j :| lo <= j < hi && done[j][k] == v.value[k];
        assert !jobs[j].failed && v.value[k] <= jobs[j].bounds[k];
      }
    }
  }

  lemma ReleasedMore(jobs: seq<Job>, j: nat, job: Job)
    requires j < |jobs| && IsReleased(job)
    ensures ReleasedJobs(jobs[j := job]) == ReleasedJobs(jobs)[j := DropVec(job)]
  {
  }

  /** A flush takes its place in the drop order. */
  lemma ReleaseKeepsDrop(drop: FlushOrder.Queue<seq<nat>>, jobs: seq<Job>, j: nat, job: Job, shards: nat,
                         drop': FlushOrder.Queue<seq<nat>>)
    requires DropInv(drop, jobs) && Onward(jobs, j, job) && !IsReleased(jobs[j])
    requires job.failed == jobs[j].failed
    requires forall i | 0 <= i < |jobs| :: |jobs[i].bounds| == shards
    requires job.stage == Dropping(FlushOrder.Release(FlushOrder.MaxVec, drop, j, DropVec(job)))
    requires drop' == FlushOrder.Complete(drop, j, DropVec(job))
    ensures DropInv(drop', jobs[j := job]) && drop.frontier <= drop'.frontier
  {
    var jobs' := jobs[j := job];
    ReleasedMore(jobs, j, job);
    FlushOrder.TracksComplete(FlushOrder.MaxVec, drop, ReleasedJobs(jobs), j, DropVec(job));
    assert drop'.frontier <= |jobs'| by {
      assert |jobs'| !in ReleasedJobs(jobs');
    }
    var v := FlushOrder.Release(FlushOrder.MaxVec, drop, j, DropVec(job));
    ReleaseIsBacked(jobs', drop.frontier, drop'.frontier, v, shards);
    forall i | 0 <= i < |jobs'| && jobs'[i].stage.Dropping? && jobs'[i].stage.upTo.Some?
      ensures Backed(jobs', drop'.frontier, jobs'[i].stage.upTo.value)
    {
      if i != j {
        MoreBacked(jobs, drop.frontier, jobs', drop'.frontier, jobs[i].stage.upTo.value);
      }
    }
  }

  lemma ReleaseKeepsView<V(!new)>(c: Config<V>, s: State<V>, j: nat)
    requires Sound(c) && InView(c, s) && Enabled(c, s, Release(j))
    ensures InView(c, DoRelease(s, j))
  {
    var s' := DoRelease(s, j);
    var job := s'.jobs[j];
    assert DropVec(s.jobs[j]) == DropVec(job);
    ReleaseKeepsDrop(s.order.drop, s.jobs, j, job, |s.shards|, s'.order.drop);
    OnwardKeepsEpochs(c, s.shards, s.jobs, s.log, j, job);
    MoreSeen(c, s.buffer, s.jobs, s.order.drop.frontier, s.log, s'.jobs, s'.order.drop.frontier);
  }

  /** Only points with a dropped epoch leave a slot. */
  lemma DropKeepsOthers(buffer: map<string, seq<Tagged>>, v: seq<nat>, name: string, t: Tagged)
    requires t in Buffered(buffer, name) && !MB.Droppable(t.tag, v)
    ensures t in Buffered(DropBuffered(buffer, v), name)
  {
    if exists i | 0 <= i < |v| :: v[i] != 0 {
      var slot := buffer[name];
      var i :| 0 <= i < |slot| && slot[i] == t;
      var n := MB.DropLen(TagsOf(slot), v);
      assert TagsOf(slot)[i] == t.tag;
      assert slot[n..][i - n] == t;
    }
  }

  lemma DropKeepsSeen<V(!new)>(c: Config<V>, buffer: map<string, seq<Tagged>>, jobs: seq<Job>, n: nat,
                               log: seq<Logged<V>>, v: seq<nat>)
    requires SeenInv(c, buffer, jobs, n, log) && Backed(jobs, n, v)
    ensures SeenInv(c, DropBuffered(buffer, v), jobs, n, log)
  {
    forall i, k | 0 <= i < |log| && log[i].fate.Acked? && 0 <= k < |log[i].metric.points|
      ensures Seen(c, DropBuffered(buffer, v), jobs, n, log[i], Row(i, k))
    {
      assert Seen(c, buffer, jobs, n, log[i], Row(i, k));
      var name, e := log[i].metric.name, log[i].fate.epoch;
      var t := Tagged(Row(i, k), MB.Tag(c.route(name), e));
      if MB.Droppable(t.tag, v) {
        SealedBelow(jobs, n, t.tag.shard, v[t.tag.shard], e);
      } else if t in Buffered(buffer, name) {
        DropKeepsOthers(buffer, v, name, t);
      }
    }
  }

  lemma SealedBelow(jobs: seq<Job>, n: nat, k: nat, epoch: nat, e: nat)
    requires Sealed(jobs, n, k, epoch) && e <= epoch
    ensures Sealed(jobs, n, k, e)
  {
    var j :| 0 <= j < n && j < |jobs| && !jobs[j].failed && k < |jobs[j].bounds| && epoch <= jobs[j].bounds[k];
  }

  lemma DropKeepsView<V(!new)>(c: Config<V>, s: State<V>, j: nat)
    requires Sound(c) && InView(c, s) && Enabled(c, s, Drop(j))
    ensures InView(c, DoDrop(s, j))
  {
    var s' := DoDrop(s, j);
    OnwardKeepsView(c, s, s'.(buffer := s.buffer), j, s'.jobs[j]);
    if s.jobs[j].stage.upTo.Some? {
      var v := s.jobs[j].stage.upTo.value;
      MoreBacked(s.jobs, s.order.drop.frontier, s'.jobs, s.order.drop.frontier, v);
      DropKeepsSeen(c, s.buffer, s'.jobs, s.order.drop.frontier, s.log, v);
    }
  }

  lemma StepKeepsView<V(!new)>(c: Config<V>, s: State<V>, step: Step<V>)
    requires Sound(c) && Safe(c, s) && InView(c, s) && Enabled(c, s, step) && Quiet(c, s, step)
    ensures InView(c, Next(c, s, step))
  {
    match step
    case Log(m, synced) => LogKeepsView(c, s, m, synced);
    case LogFail(_, _) =>
    case Insert(k, writes) => InsertKeepsView(c, s, k, writes);
    case Swap => SwapKeepsView(c, s);
    case Encode(_, _) => EncodeKeepsView(c, s, step);
    case Index(_, _) => EncodeKeepsView(c, s, step);
    case Commit(_, _, _) => EncodeKeepsView(c, s, step);
    case Release(j) => ReleaseKeepsView(c, s, j);
    case Drop(j) => DropKeepsView(c, s, j);
  }

  lemma {:induction false} RunKeepsView<V(!new)>(c: Config<V>, s: State<V>, steps: seq<Step<V>>)
    requires Sound(c) && Safe(c, s) && InView(c, s) && IsRun(c, s, steps) && IsQuietRun(c, s, steps)
    ensures Safe(c, RunFrom(c, s, steps)) && InView(c, RunFrom(c, s, steps))
    decreases |steps|
  {
    if steps != [] {
      StepIsSafe(c, s, steps[0]);
      StepKeepsView(c, s, steps[0]);
      RunKeepsView(c, Next(c, s, steps[0]), steps[1..]);
    }
  }

  /** Whatever order the encodes finish in and whichever fail, an acknowledged point is
      after any number of steps in the memory buffer, in a published block, or in a flush
      that failed before a later one of the same shard succeeded. */
  lemma AcknowledgedIsVisibleUnless<V(!new)>(c: Config<V>, steps: seq<Step<V>>, s: State<V>, i: nat, k: nat)
    requires Sound(c) && IsRun(c, Init(c), steps) && IsQuietRun(c, Init(c), steps) && s == RunFrom(c, Init(c), steps)
    requires i < |s.log| && s.log[i].fate.Acked? && k < |s.log[i].metric.points|
    ensures Visible(s, s.log[i].metric.name, Row(i, k)) ||
            HiddenByFailure(s.jobs, s.order.drop.frontier, c.route(s.log[i].metric.name), Row(i, k))
  {
    InitIsSafe(c);
    InitIsInView(c);
    RunKeepsView(c, Init(c), steps);
    InViewIsVisible(c, s, i, k);
  }

  ghost predicate NoEncodeFails<V>(steps: seq<Step<V>>) {
    forall i | 0 <= i < |steps| && steps[i].Encode? :: steps[i].ok
  }

  ghost predicate NoneFailed(jobs: seq<Job>) {
    forall j | 0 <= j < |jobs| :: !jobs[j].failed
  }

  lemma {:induction false} NoFlushFailed<V(!new)>(c: Config<V>, s: State<V>, steps: seq<Step<V>>)
    requires Sound(c) && IsRun(c, s, steps) && NoEncodeFails(steps) && NoneFailed(s.jobs)
    ensures NoneFailed(RunFrom(c, s, steps).jobs)
    decreases |steps|
  {
    if steps != [] {
      assert steps[0].Encode? ==> steps[0].ok;
      assert NoneFailed(Next(c, s, steps[0]).jobs);
      assert NoEncodeFails(steps[1..]);
      NoFlushFailed(c, Next(c, s, steps[0]), steps[1..]);
    }
  }

  /** So while encodes succeed, every acknowledged point is visible at every step. */
  lemma AcknowledgedIsVisible<V(!new)>(c: Config<V>, steps: seq<Step<V>>, s: State<V>, i: nat, k: nat)
    requires Sound(c) && IsRun(c, Init(c), steps) && IsQuietRun(c, Init(c), steps) && s == RunFrom(c, Init(c), steps)
    requires NoEncodeFails(steps)
    requires i < |s.log| && s.log[i].fate.Acked? && k < |s.log[i].metric.points|
    ensures Visible(s, s.log[i].metric.name, Row(i, k))
  {
    AcknowledgedIsVisibleUnless(c, steps, s, i, k);
    NoFlushFailed(c, Init(c), steps);
  }
}

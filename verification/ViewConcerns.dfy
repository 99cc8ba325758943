/** What keeps acknowledged points visible to queries, one predicate per concern. */
module ViewConcerns {
  import opened Options
  import opened Coverage
  import opened Ingest
  import FlushOrder
  import MB = MemoryBuffer

  /** An open row belongs to its writer's current epoch, a flushed row to the epoch
      its flush sealed for that shard. */
  ghost predicate EpochInv<V(!new)>(c: Config<V>, shards: seq<Shard>, jobs: seq<Job>, log: seq<Logged<V>>) {
    && (forall k, r | 0 <= k < |shards| && r in shards[k].w.rows ::
          r.rec < |log| && log[r.rec].fate == Acked(shards[k].w.epoch) && c.route(log[r.rec].metric.name) == k)
    && (forall j, r | 0 <= j < |jobs| && r in jobs[j].rows ::
          r.rec < |log| && log[r.rec].fate.Acked? &&
          var k := c.route(log[r.rec].metric.name);
          k < |jobs[j].bounds| && jobs[j].bounds[k] == log[r.rec].fate.epoch)
  }

  /** Epochs start at 1; those a shard sealed grow from flush to flush and stay below
      its current one. 0 means the shard was not flushed. */
  ghost predicate BoundsInv(shards: seq<Shard>, jobs: seq<Job>) {
    && (forall k | 0 <= k < |shards| :: shards[k].w.epoch >= 1)
    && (forall j | 0 <= j < |jobs| :: |jobs[j].bounds| == |shards|)
    && (forall j, k | 0 <= j < |jobs| && 0 <= k < |shards| :: jobs[j].bounds[k] < shards[k].w.epoch)
    && (forall i, j, k | 0 <= i < j < |jobs| && 0 <= k < |shards| && 0 < jobs[i].bounds[k] && 0 < jobs[j].bounds[k] ::
          jobs[i].bounds[k] < jobs[j].bounds[k])
  }

  /** A flush among the first `n` that did not fail sealed shard `k` at `epoch` or
      later. */
  ghost predicate Sealed(jobs: seq<Job>, n: nat, k: nat, epoch: nat) {
    exists j | 0 <= j < n && j < |jobs| :: !jobs[j].failed && k < |jobs[j].bounds| && epoch <= jobs[j].bounds[k]
  }

  /** Every acknowledged point is in the buffer under its writer's tag, unless its
      epoch was sealed by a flush that may drop it. */
  ghost predicate SeenInv<V(!new)>(c: Config<V>, buffer: map<string, seq<Tagged>>, jobs: seq<Job>, n: nat,
                                   log: seq<Logged<V>>) {
    && (forall i | 0 <= i < |log| && log[i].fate.Acked? :: log[i].fate.epoch >= 1)
    && (forall i, k | 0 <= i < |log| && log[i].fate.Acked? && 0 <= k < |log[i].metric.points| ::
          Seen(c, buffer, jobs, n, log[i], Row(i, k)))
  }

  ghost predicate Seen<V(!new)>(c: Config<V>, buffer: map<string, seq<Tagged>>, jobs: seq<Job>, n: nat,
                                rec: Logged<V>, row: Row)
    requires rec.fate.Acked?
  {
    var k := c.route(rec.metric.name);
    Tagged(row, MB.Tag(k, rec.fate.epoch)) in Buffered(buffer, rec.metric.name) || Sealed(jobs, n, k, rec.fate.epoch)
  }

  predicate IsReleased(job: Job) {
    job.stage.Dropping? || job.stage.Done?
  }

  /** The flushes that took their place in the drop order; a failed one drops nothing. */
  ghost function ReleasedJobs(jobs: seq<Job>): map<nat, seq<nat>> {
    map j: nat | j < |jobs| && IsReleased(jobs[j]) :: DropVec(jobs[j])
  }

  /** The drop order is in step, and a drop that is still to happen is bounded by flushes
      of the finished prefix. */
  ghost predicate DropInv(drop: FlushOrder.Queue<seq<nat>>, jobs: seq<Job>) {
    && FlushOrder.Tracks(drop, ReleasedJobs(jobs))
    && (forall j | 0 <= j < |jobs| && jobs[j].stage.Dropping? && jobs[j].stage.upTo.Some? ::
          Backed(jobs, drop.frontier, jobs[j].stage.upTo.value))
  }

  ghost predicate Backed(jobs: seq<Job>, n: nat, v: seq<nat>) {
    forall k | 0 <= k < |v| && v[k] > 0 :: Sealed(jobs, n, k, v[k])
  }

  ghost predicate PublishedInv(blocks: seq<Block>) {
    forall b | 0 <= b < |blocks| :: blocks[b].published
  }
}

/** The invariant behind visibility. */
module ViewInvariant {
  import opened Ingest
  import opened ViewConcerns

  ghost predicate InView<V(!new)>(c: Config<V>, s: State<V>) {
    && EpochInv(c, s.shards, s.jobs, s.log)
    && BoundsInv(s.shards, s.jobs)
    && SeenInv(c, s.buffer, s.jobs, s.order.drop.frontier, s.log)
    && DropInv(s.order.drop, s.jobs)
    && PublishedInv(s.blocks)
  }
}

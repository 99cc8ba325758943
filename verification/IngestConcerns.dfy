/** What every state of the metric ingest keeps, one predicate per concern. */
module IngestConcerns {
  import opened Options
  import opened WalFrame
  import opened WalLog
  import opened Coverage
  import opened Ingest
  import FlushOrder

  /** The log as entries. */
  ghost function EntriesOf<V>(c: Config<V>, log: seq<Logged<V>>): (es: seq<Entry>)
    ensures |es| == |log| && forall i | 0 <= i < |log| :: es[i] == Entry(log[i].pos, c.enc(log[i].metric))
  {
    seq(|log|, i requires 0 <= i < |log| => Entry(log[i].pos, c.enc(log[i].metric)))
  }

  /** A record waits for its writer exactly while its shard's lock is held for it. */
  ghost predicate HeldInv<V(!new)>(c: Config<V>, shards: seq<Shard>, log: seq<Logged<V>>, cursor: nat)
    requires Sound(c)
  {
    && |shards| == c.shards
    && (forall k | 0 <= k < |shards| && shards[k].held.Some? ::
          var i := shards[k].held.value;
          i < |log| && log[i].fate == Pending && c.route(log[i].metric.name) == k && cursor < log[i].pos)
    && (forall i | 0 <= i < |log| && log[i].fate == Pending ::
          shards[c.route(log[i].metric.name)].held == Some(i))
  }

  ghost predicate WriterInv<V(!new)>(c: Config<V>, shards: seq<Shard>) {
    forall k | 0 <= k < |shards| :: shards[k].w.capacity == c.capacity && |shards[k].w.rows| <= c.capacity
  }

  /** In a block that a writer closed by itself. */
  ghost predicate SelfClosed(blocks: seq<Block>, row: Row) {
    exists b | 0 <= b < |blocks| :: blocks[b].range == None && row in blocks[b].rows
  }

  ghost predicate InJob(jobs: seq<Job>, row: Row) {
    exists j | 0 <= j < |jobs| :: row in jobs[j].rows
  }

  /** Every point of an acknowledged record is in a block its writer closed, in a
      flush, or still open in its shard. */
  ghost predicate PlaceInv<V(!new)>(c: Config<V>, s: State<V>)
    requires Sound(c) && |s.shards| == c.shards
  {
    forall i, k | 0 <= i < |s.log| && s.log[i].fate.Acked? && 0 <= k < |s.log[i].metric.points| ::
      SelfClosed(s.blocks, Row(i, k)) || InJob(s.jobs, Row(i, k)) ||
      Row(i, k) in s.shards[c.route(s.log[i].metric.name)].w.rows
  }

  /** A flush holds only records of its own range. */
  ghost predicate JobRowsInv<V>(jobs: seq<Job>, log: seq<Logged<V>>) {
    forall j, r | 0 <= j < |jobs| && r in jobs[j].rows ::
      r.rec < |log| && jobs[j].range.from < log[r.rec].pos <= jobs[j].range.to
  }

  /** Open writers hold only records past the last flush. */
  ghost predicate OpenRowsInv<V>(shards: seq<Shard>, log: seq<Logged<V>>, cursor: nat) {
    forall k, r | 0 <= k < |shards| && r in shards[k].w.rows :: r.rec < |log| && cursor < log[r.rec].pos
  }

  /** Flush ranges chain from the start of the log to the cursor. */
  ghost predicate ChainInv(jobs: seq<Job>, cursor: nat) {
    && (forall j | 0 <= j < |jobs| :: jobs[j].range.from <= jobs[j].range.to)
    && (forall i, j | 0 <= i < |jobs| && j == i + 1 && j < |jobs| :: jobs[j].range.from == jobs[i].range.to)
    && (jobs != [] ==> jobs[0].range.from == START && jobs[|jobs| - 1].range.to == cursor)
    && (jobs == [] ==> cursor == START)
  }

  ghost predicate BlockOf(blocks: seq<Block>, job: Job) {
    exists b | 0 <= b < |blocks| ::
      blocks[b].range == Some(job.range) && blocks[b].rows == job.rows && blocks[b].published
  }

  ghost predicate JobOf(jobs: seq<Job>, range: Range) {
    exists j | 0 <= j < |jobs| :: OnDisk(jobs[j]) && jobs[j].range == range
  }

  /** A flush that is on disk has its block there, and every block with a range is
      the block of such a flush. */
  ghost predicate DiskInv(jobs: seq<Job>, blocks: seq<Block>) {
    && (forall j | 0 <= j < |jobs| && OnDisk(jobs[j]) :: BlockOf(blocks, jobs[j]))
    && (forall b | 0 <= b < |blocks| && blocks[b].range.Some? :: JobOf(jobs, blocks[b].range.value))
  }

  /** The flushes whose index acknowledgement arrived. */
  ghost function IndexedJobs(jobs: seq<Job>): map<nat, nat> {
    map j: nat | j < |jobs| && jobs[j].indexed :: jobs[j].range.to
  }

  ghost predicate OrderInv(order: FlushOrder.Order, jobs: seq<Job>) {
    && order.nextSeq == |jobs|
    && FlushOrder.Tracks(order.wal, IndexedJobs(jobs))
    && (forall j | 0 <= j < |jobs| && jobs[j].indexed :: OnDisk(jobs[j]))
    && (forall j | 0 <= j < |jobs| && (jobs[j].stage == Encoding || jobs[j].stage == AwaitIndex) ::
          !jobs[j].indexed && !jobs[j].failed)
  }

  /** How far the contiguous prefix of completed flushes reaches. */
  ghost function Bound(order: FlushOrder.Order, jobs: seq<Job>): nat {
    var f := order.wal.frontier;
    if 0 < f <= |jobs| then jobs[f - 1].range.to else START
  }

  ghost predicate CommitInv(commit: nat, jobs: seq<Job>, bound: nat) {
    && commit <= bound
    && (forall j | 0 <= j < |jobs| && jobs[j].stage.Committing? && jobs[j].stage.release.Some? ::
          jobs[j].stage.release.value <= bound)
  }
}

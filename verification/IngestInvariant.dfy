/** The invariant of the metric ingest protocol. */
module IngestInvariant {
  import opened WalLog
  import opened Coverage
  import opened LogFiles
  import opened Ingest
  import opened IngestConcerns
  import FlushOrder

  /** The log files and the records waiting under a shard lock. */
  ghost predicate LogSafe<V(!new)>(c: Config<V>, s: State<V>, bound: nat)
    requires Sound(c)
  {
    && Keeps(c.crc, s.wal, EntriesOf(c, s.log), bound)
    && Below(EntriesOf(c, s.log), Position(s.wal))
    && HeldInv(c, s.shards, s.log, s.cursor)
    && s.cursor <= Position(s.wal) <= U64_MAX
  }

  /** Where every row is. */
  ghost predicate RowsSafe<V(!new)>(c: Config<V>, s: State<V>)
    requires Sound(c)
  {
    && |s.shards| == c.shards
    && WriterInv(c, s.shards)
    && PlaceInv(c, s)
    && JobRowsInv(s.jobs, s.log)
    && OpenRowsInv(s.shards, s.log, s.cursor)
  }

  /** The flushes, their blocks, their order and the commit point. */
  ghost predicate FlushSafe(jobs: seq<Job>, blocks: seq<Block>, order: FlushOrder.Order, commit: nat, cursor: nat) {
    && ChainInv(jobs, cursor)
    && DiskInv(jobs, blocks)
    && OrderInv(order, jobs)
    && CommitInv(commit, jobs, Bound(order, jobs))
  }

  ghost predicate Safe<V(!new)>(c: Config<V>, s: State<V>)
    requires Sound(c)
  {
    && LogSafe(c, s, Bound(s.order, s.jobs))
    && RowsSafe(c, s)
    && FlushSafe(s.jobs, s.blocks, s.order, s.commit, s.cursor)
  }
}

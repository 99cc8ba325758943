/** Crash safety of the metric ingest: every step keeps the invariant, whatever order
    flushes finish in and whichever of them fail. */
module IngestSafety {
  import opened Options
  import opened WalFrame
  import opened WalLog
  import opened Coverage
  import opened LogFiles
  import opened Ingest
  import opened IngestConcerns
  import opened IngestInvariant
  import FlushOrder
  import Writer
  import Seqs

  lemma InitIsSafe<V(!new)>(c: Config<V>)
    requires Sound(c)
    ensures Safe(c, Init(c))
  {
    InitLog(c);
    InitRows(c);
    InitFlush();
  }

  lemma InitRows<V(!new)>(c: Config<V>)
    requires Sound(c)
    ensures RowsSafe(c, Init(c))
  {
  }

  lemma InitFlush()
    ensures FlushSafe([], [], FlushOrder.EMPTY, START, START)
  {
    assert IndexedJobs([]) == map[];
  }

  lemma InitLog<V(!new)>(c: Config<V>)
    requires Sound(c)
    ensures LogSafe(c, Init(c), START)
  {
    NothingLogged(c.crc, c.limit);
    assert EntriesOf(c, []) == [];
  }

  // -------------------------------------------------------- chain and frontier

  /** Ranges of earlier flushes end no later than those of later ones begin. */
  lemma {:induction false} ChainMonotone(jobs: seq<Job>, cursor: nat, i: nat, j: nat)
    requires ChainInv(jobs, cursor) && i <= j < |jobs|
    ensures jobs[i].range.to <= jobs[j].range.to <= cursor
    ensures i < j ==> jobs[i].range.to <= jobs[j].range.from
    decreases |jobs| - i
  {
    if i < j {
      ChainMonotone(jobs, cursor, i + 1, j);
      assert jobs[i + 1].range.from == jobs[i].range.to;
    } else if j + 1 < |jobs| {
      ChainMonotone(jobs, cursor, j + 1, |jobs| - 1);
      assert jobs[j + 1].range.from == jobs[j].range.to;
    }
  }

  lemma FrontierBounds(order: FlushOrder.Order, jobs: seq<Job>)
    requires OrderInv(order, jobs)
    ensures order.wal.frontier <= |jobs|
    ensures forall j | 0 <= j < order.wal.frontier :: jobs[j].indexed
  {
    var keys := IndexedJobs(jobs).Keys;
    assert |jobs| !in keys;
    forall j: nat | j < order.wal.frontier ensures jobs[j].indexed {
      assert j in keys;
    }
  }

  lemma BoundBelowCursor(order: FlushOrder.Order, jobs: seq<Job>, cursor: nat)
    requires OrderInv(order, jobs) && ChainInv(jobs, cursor)
    ensures Bound(order, jobs) <= cursor
  {
    FrontierBounds(order, jobs);
    var f := order.wal.frontier;
    if f > 0 {
      ChainMonotone(jobs, cursor, f - 1, |jobs| - 1);
    }
  }

  // ------------------------------------------------------------------- logging

  lemma OneFrame(crc: Checksum, p: Bytes)
    requires Framable(p)
    ensures AllFramable([p]) && Framed(crc, [p]) == Frame(crc, p)
  {
    Seqs.EmptyRight(Frame(crc, p));
  }

  /** The log grows by the record at the position the append returned. */
  lemma LogAddsRecord<V(!new)>(c: Config<V>, wal: Wal, log: seq<Logged<V>>, m: Metric<V>, fate: Fate)
    requires Framable(c.enc(m)) && |wal.segs| >= 1
    ensures var f := Frame(c.crc, c.enc(m));
            EntriesOf(c, log + [Logged(AppendPos(wal, f), m, fate)]) ==
            EntriesOf(c, log) + NewEntries(wal, [c.enc(m)]) &&
            Position(wal) < AppendPos(wal, f)
  {
    var p := c.enc(m);
    OneFrame(c.crc, p);
    NewEntriesBounds(c.crc, wal, Frame(c.crc, p), [p]);
    var added := NewEntries(wal, [p]);
    assert added[0].payload == PayloadsOf(added)[0] == p;
  }

  lemma PositionBounded<V(!new)>(c: Config<V>, s: State<V>, m: Metric<V>)
    requires Sound(c) && FitsLog(c, s, m)
    ensures Position(Append(s.wal, Frame(c.crc, c.enc(m)))) <= U64_MAX
  {
  }

  lemma LogKeepsHeld<V(!new)>(c: Config<V>, shards: seq<Shard>, log: seq<Logged<V>>, cursor: nat, rec: Logged<V>)
    requires Sound(c) && HeldInv(c, shards, log, cursor) && cursor < rec.pos
    requires rec.fate != Pending || shards[c.route(rec.metric.name)].held == None
    ensures var k := c.route(rec.metric.name);
            HeldInv(c, if rec.fate == Pending then shards[k := shards[k].(held := Some(|log|))] else shards,
                    log + [rec], cursor)
  {
  }

  lemma LogKeepsLog<V(!new)>(c: Config<V>, s: State<V>, m: Metric<V>, synced: bool, bound: nat)
    requires Sound(c) && LogSafe(c, s, bound) && Enabled(c, s, Log(m, synced))
    ensures LogSafe(c, DoLog(c, s, m, synced), bound)
  {
    var s' := DoLog(c, s, m, synced);
    var rec := s'.log[|s.log|];
    var f := Frame(c.crc, c.enc(m));
    OneFrame(c.crc, c.enc(m));
    AppendKeeps(c.crc, s.wal, EntriesOf(c, s.log), bound, f, [c.enc(m)]);
    LogAddsRecord(c, s.wal, s.log, m, rec.fate);
    assert HeldInv(c, s'.shards, s'.log, s.cursor) by {
      LogKeepsHeld(c, s.shards, s.log, s.cursor, rec);
    }
    PositionBounded(c, s, m);
  }

  lemma LogKeepsRows<V(!new)>(c: Config<V>, s: State<V>, m: Metric<V>, synced: bool)
    requires Sound(c) && RowsSafe(c, s) && Enabled(c, s, Log(m, synced))
    ensures RowsSafe(c, DoLog(c, s, m, synced))
  {
  }

  lemma LogFailKeepsLog<V(!new)>(c: Config<V>, s: State<V>, m: Metric<V>, written: nat, bound: nat)
    requires Sound(c) && LogSafe(c, s, bound) && Enabled(c, s, LogFail(m, written))
    ensures LogSafe(c, Next(c, s, LogFail(m, written)), bound)
  {
    var p := c.enc(m);
    OneFrame(c.crc, p);
    assert WholeCount([p], written) == 0;
    TornKeeps(c.crc, s.wal, EntriesOf(c, s.log), bound, Frame(c.crc, p), [p], written, []);
    assert NewEntries(s.wal, []) == [];
    Seqs.EmptyRight(EntriesOf(c, s.log));
  }

  // ----------------------------------------------------------------- insertion

  /** A record's log entry does not depend on its fate. */
  lemma InsertKeepsLog<V(!new)>(c: Config<V>, s: State<V>, k: nat, writes: nat, bound: nat)
    requires Sound(c) && LogSafe(c, s, bound) && Enabled(c, s, Insert(k, writes))
    ensures LogSafe(c, DoInsert(s, k, writes), bound)
  {
    assert EntriesOf(c, DoInsert(s, k, writes).log) == EntriesOf(c, s.log);
  }

  /** Nothing leaves a shard except into a block, and every point of a successful
      push is in one or the other. */
  lemma PushPlaces(w: Writer.Writer<Row>, rows: seq<Row>, writes: nat, blocks: seq<Block>, row: Row)
    requires |w.rows| <= w.capacity
    requires var r := Writer.Push(w, rows, writes); row in w.rows || (r.ok && row in rows)
    ensures var r := Writer.Push(w, rows, writes);
            SelfClosed(blocks + Closed(r.closed, r.ok), row) || row in r.w.rows
  {
    var r := Writer.Push(w, rows, writes);
    Writer.PushConserves(w, rows, writes);
    var n := |Writer.Held(r)| - |w.rows|;
    assert r.ok ==> rows[..n] == rows;
    assert row in Writer.Held(r);
    if row in Seqs.Flatten(r.closed) {
      Seqs.FlattenHas(r.closed, row);
      var i :| 0 <= i < |r.closed| && row in r.closed[i];
      var all := blocks + Closed(r.closed, r.ok);
      assert all[|blocks| + i].range == None && row in all[|blocks| + i].rows;
    }
  }

  /** A writer only ever holds its old rows and the pushed points. */
  lemma PushRowsFrom(w: Writer.Writer<Row>, rows: seq<Row>, writes: nat, row: Row)
    requires |w.rows| <= w.capacity && row in Writer.Push(w, rows, writes).w.rows
    ensures row in w.rows || row in rows
  {
    Writer.PushConserves(w, rows, writes);
    assert row in Writer.Held(Writer.Push(w, rows, writes));
  }

  lemma MoreBlocksKeepSelfClosed(blocks: seq<Block>, more: seq<Block>, row: Row)
    requires SelfClosed(blocks, row)
    ensures SelfClosed(blocks + more, row)
  {
    var b :| 0 <= b < |blocks| && blocks[b].range == None && row in blocks[b].rows;
    assert (blocks + more)[b] == blocks[b];
  }

  lemma MoreBlocksKeepBlock(blocks: seq<Block>, more: seq<Block>, job: Job)
    requires BlockOf(blocks, job)
    ensures BlockOf(blocks + more, job)
  {
    var b :| 0 <= b < |blocks| &&
      blocks[b].range == Some(job.range) && blocks[b].rows == job.rows && blocks[b].published;
    assert (blocks + more)[b] == blocks[b];
  }

  /** Blocks without a range concern no flush. */
  lemma MoreBlocksKeepDisk(jobs: seq<Job>, blocks: seq<Block>, more: seq<Block>)
    requires DiskInv(jobs, blocks) && forall b | 0 <= b < |more| :: more[b].range == None
    ensures DiskInv(jobs, blocks + more)
  {
    var all := blocks + more;
    forall j | 0 <= j < |jobs| && OnDisk(jobs[j]) ensures BlockOf(all, jobs[j]) {
      MoreBlocksKeepBlock(blocks, more, jobs[j]);
    }
    forall b | 0 <= b < |all| && all[b].range.Some? ensures JobOf(jobs, all[b].range.value) {
      assert all[b] == blocks[b];
    }
  }

  lemma InsertKeepsPlace<V(!new)>(c: Config<V>, s: State<V>, k: nat, writes: nat)
    requires Sound(c) && HeldInv(c, s.shards, s.log, s.cursor) && RowsSafe(c, s) && Enabled(c, s, Insert(k, writes))
    ensures PlaceInv(c, DoInsert(s, k, writes))
  {
    var s' := DoInsert(s, k, writes);
    var i := s.shards[k].held.value;
    var w, rows := s.shards[k].w, RowsOf(i, |s.log[i].metric.points|);
    var r := Writer.Push(w, rows, writes);
    forall a, b | 0 <= a < |s'.log| && s'.log[a].fate.Acked? && 0 <= b < |s'.log[a].metric.points|
      ensures SelfClosed(s'.blocks, Row(a, b)) || InJob(s'.jobs, Row(a, b)) ||
              Row(a, b) in s'.shards[c.route(s'.log[a].metric.name)].w.rows
    {
      var row := Row(a, b);
      if a == i {
        assert rows[b] == row;
        PushPlaces(w, rows, writes, s.blocks, row);
      } else if SelfClosed(s.blocks, row) {
        MoreBlocksKeepSelfClosed(s.blocks, Closed(r.closed, r.ok), row);
      } else if row in w.rows && c.route(s.log[a].metric.name) == k {
        PushPlaces(w, rows, writes, s.blocks, row);
      }
    }
  }

  lemma InsertKeepsOpenRows<V(!new)>(c: Config<V>, s: State<V>, k: nat, writes: nat)
    requires Sound(c) && HeldInv(c, s.shards, s.log, s.cursor) && RowsSafe(c, s) && Enabled(c, s, Insert(k, writes))
    ensures var s' := DoInsert(s, k, writes);
            OpenRowsInv(s'.shards, s'.log, s'.cursor) && WriterInv(c, s'.shards)
  {
    var s' := DoInsert(s, k, writes);
    var i := s.shards[k].held.value;
    var w, rows := s.shards[k].w, RowsOf(i, |s.log[i].metric.points|);
    Writer.PushBounds(w, rows, writes);
    forall a, row | 0 <= a < |s'.shards| && row in s'.shards[a].w.rows
      ensures row.rec < |s'.log| && s'.cursor < s'.log[row.rec].pos
    {
      if a == k {
        PushRowsFrom(w, rows, writes, row);
      }
    }
  }

  lemma InsertKeepsRows<V(!new)>(c: Config<V>, s: State<V>, k: nat, writes: nat)
    requires Sound(c) && HeldInv(c, s.shards, s.log, s.cursor) && RowsSafe(c, s) && Enabled(c, s, Insert(k, writes))
    ensures RowsSafe(c, DoInsert(s, k, writes))
  {
    InsertKeepsPlace(c, s, k, writes);
    InsertKeepsOpenRows(c, s, k, writes);
  }

  // ---------------------------------------------------------------------- swap

  lemma SwapKeepsPlace<V(!new)>(c: Config<V>, s: State<V>)
    requires Sound(c) && RowsSafe(c, s) && |s.wal.segs| >= 1 && Seqs.Flatten(OpenRows(s.shards)) != []
    ensures PlaceInv(c, DoSwap(s))
  {
    var s' := DoSwap(s);
    var open := OpenRows(s.shards);
    forall a, b | 0 <= a < |s.log| && s.log[a].fate.Acked? && 0 <= b < |s.log[a].metric.points|
      ensures SelfClosed(s.blocks, Row(a, b)) || InJob(s'.jobs, Row(a, b))
    {
      var row, k := Row(a, b), c.route(s.log[a].metric.name);
      if InJob(s.jobs, row) {
        var j :| 0 <= j < |s.jobs| && row in s.jobs[j].rows;
        assert s'.jobs[j] == s.jobs[j];
      } else if row in s.shards[k].w.rows {
        assert row in open[k];
        Seqs.FlattenHas(open, row);
        assert row in s'.jobs[|s.jobs|].rows;
      }
    }
  }

  /** Every open row arrived after the last flush and before this one. */
  lemma SwapKeepsJobRows<V(!new)>(c: Config<V>, s: State<V>)
    requires Sound(c) && RowsSafe(c, s) && Seqs.Flatten(OpenRows(s.shards)) != []
    requires |s.wal.segs| >= 1 && Below(EntriesOf(c, s.log), Position(s.wal))
    ensures JobRowsInv(DoSwap(s).jobs, s.log)
  {
    var open := OpenRows(s.shards);
    forall row: Row | row in Seqs.Flatten(open)
      ensures row.rec < |s.log| && s.cursor < s.log[row.rec].pos <= Position(s.wal)
    {
      Seqs.FlattenHas(open, row);
      assert EntriesOf(c, s.log)[row.rec].pos <= Position(s.wal);
    }
  }

  lemma SwapKeepsRows<V(!new)>(c: Config<V>, s: State<V>)
    requires Sound(c) && RowsSafe(c, s) && |s.wal.segs| >= 1 && Below(EntriesOf(c, s.log), Position(s.wal))
    ensures RowsSafe(c, DoSwap(s))
  {
    if Seqs.Flatten(OpenRows(s.shards)) != [] {
      SwapKeepsPlace(c, s);
      SwapKeepsJobRows(c, s);
    }
  }

  /** No record waits for a writer at the instant of the swap. */
  lemma SwapKeepsLog<V(!new)>(c: Config<V>, s: State<V>, bound: nat)
    requires Sound(c) && LogSafe(c, s, bound) && Enabled(c, s, Swap)
    ensures LogSafe(c, DoSwap(s), bound)
  {
  }

  /** A flush that has only just begun is neither on disk nor indexed. */
  lemma SwapKeepsOrder(order: FlushOrder.Order, jobs: seq<Job>, blocks: seq<Block>, job: Job)
    requires OrderInv(order, jobs) && DiskInv(jobs, blocks)
    requires job.stage == Encoding && !job.indexed && !job.failed
    ensures var order', jobs' := order.(nextSeq := order.nextSeq + 1), jobs + [job];
            OrderInv(order', jobs') && DiskInv(jobs', blocks) && Bound(order', jobs') == Bound(order, jobs)
  {
    var jobs' := jobs + [job];
    FrontierBounds(order, jobs);
    assert IndexedJobs(jobs') == IndexedJobs(jobs);
    forall b | 0 <= b < |blocks| && blocks[b].range.Some? ensures JobOf(jobs', blocks[b].range.value) {
      var j :| 0 <= j < |jobs| && OnDisk(jobs[j]) && jobs[j].range == blocks[b].range.value;
      assert jobs'[j] == jobs[j];
    }
  }

  lemma SwapKeepsFlush(jobs: seq<Job>, blocks: seq<Block>, order: FlushOrder.Order, commit: nat, cursor: nat, job: Job)
    requires FlushSafe(jobs, blocks, order, commit, cursor) && job.range.from == cursor <= job.range.to
    requires job.stage == Encoding && !job.indexed && !job.failed
    ensures var order' := order.(nextSeq := order.nextSeq + 1);
            FlushSafe(jobs + [job], blocks, order', commit, job.range.to) &&
            Bound(order', jobs + [job]) == Bound(order, jobs)
  {
    SwapKeepsOrder(order, jobs, blocks, job);
  }

  lemma SwapIsSafe<V(!new)>(c: Config<V>, s: State<V>)
    requires Sound(c) && Safe(c, s) && Enabled(c, s, Swap)
    ensures Safe(c, DoSwap(s))
  {
    var bound := Bound(s.order, s.jobs);
    SwapKeepsLog(c, s, bound);
    SwapKeepsRows(c, s);
    if Seqs.Flatten(OpenRows(s.shards)) != [] {
      SwapKeepsFlush(s.jobs, s.blocks, s.order, s.commit, s.cursor, DoSwap(s).jobs[|s.jobs|]);
    }
  }

  // --------------------------------------------------------------- flush steps

  /** A flush moves on, keeping its range and its rows. */
  ghost predicate Moved(jobs: seq<Job>, j: nat, job: Job) {
    j < |jobs| && job.range == jobs[j].range && job.rows == jobs[j].rows
  }

  /** Nothing moves when a flush moves on; blocks may be added. */
  lemma MovedKeepsPlace<V(!new)>(c: Config<V>, s: State<V>, s': State<V>, j: nat, job: Job, more: seq<Block>)
    requires Sound(c) && |s.shards| == c.shards && PlaceInv(c, s) && Moved(s.jobs, j, job)
    requires s'.jobs == s.jobs[j := job] && s'.log == s.log && s'.shards == s.shards && s'.blocks == s.blocks + more
    ensures PlaceInv(c, s')
  {
    forall a, b | 0 <= a < |s.log| && s.log[a].fate.Acked? && 0 <= b < |s.log[a].metric.points|
      ensures SelfClosed(s'.blocks, Row(a, b)) || InJob(s'.jobs, Row(a, b)) ||
              Row(a, b) in s'.shards[c.route(s.log[a].metric.name)].w.rows
    {
      var row := Row(a, b);
      if SelfClosed(s.blocks, row) {
        MoreBlocksKeepSelfClosed(s.blocks, more, row);
      } else if InJob(s.jobs, row) {
        var i :| 0 <= i < |s.jobs| && row in s.jobs[i].rows;
        assert row in s'.jobs[i].rows;
      }
    }
  }

  lemma MovedKeepsJobRows<V(!new)>(jobs: seq<Job>, log: seq<Logged<V>>, j: nat, job: Job)
    requires JobRowsInv(jobs, log) && Moved(jobs, j, job)
    ensures JobRowsInv(jobs[j := job], log)
  {
  }

  lemma MovedKeepsRows<V(!new)>(c: Config<V>, s: State<V>, s': State<V>, j: nat, job: Job, more: seq<Block>)
    requires Sound(c) && RowsSafe(c, s) && Moved(s.jobs, j, job)
    requires s'.jobs == s.jobs[j := job] && s'.log == s.log && s'.shards == s.shards && s'.blocks == s.blocks + more
    requires s'.cursor == s.cursor
    ensures RowsSafe(c, s')
  {
    MovedKeepsPlace(c, s, s', j, job, more);
    MovedKeepsJobRows(s.jobs, s.log, j, job);
  }

  /** Moving a flush that stays on disk, or stays off it, changes no block. */
  lemma MovedKeepsDisk(jobs: seq<Job>, blocks: seq<Block>, j: nat, job: Job)
    requires DiskInv(jobs, blocks) && Moved(jobs, j, job) && OnDisk(job) == OnDisk(jobs[j])
    ensures DiskInv(jobs[j := job], blocks)
  {
    var jobs' := jobs[j := job];
    forall i | 0 <= i < |jobs'| && OnDisk(jobs'[i]) ensures BlockOf(blocks, jobs'[i]) {
      assert BlockOf(blocks, jobs[i]);
    }
    forall b | 0 <= b < |blocks| && blocks[b].range.Some? ensures JobOf(jobs', blocks[b].range.value) {
      var i :| 0 <= i < |jobs| && OnDisk(jobs[i]) && jobs[i].range == blocks[b].range.value;
      assert OnDisk(jobs'[i]) && jobs'[i].range == jobs[i].range;
    }
  }

  lemma EncodeKeepsDisk(jobs: seq<Job>, blocks: seq<Block>, j: nat, job: Job)
    requires DiskInv(jobs, blocks) && Moved(jobs, j, job) && OnDisk(job)
    ensures DiskInv(jobs[j := job], blocks + [Block(Some(job.range), job.rows, true)])
  {
    var jobs', all := jobs[j := job], blocks + [Block(Some(job.range), job.rows, true)];
    forall i | 0 <= i < |jobs'| && OnDisk(jobs'[i]) ensures BlockOf(all, jobs'[i]) {
      if i == j {
        assert all[|blocks|].range == Some(job.range);
      } else {
        MoreBlocksKeepBlock(blocks, [Block(Some(job.range), job.rows, true)], jobs[i]);
      }
    }
    forall b | 0 <= b < |all| && all[b].range.Some? ensures JobOf(jobs', all[b].range.value) {
      if b == |blocks| {
        assert OnDisk(jobs'[j]) && jobs'[j].range == all[b].range.value;
      } else {
        var i :| 0 <= i < |jobs| && OnDisk(jobs[i]) && jobs[i].range == blocks[b].range.value;
        assert OnDisk(jobs'[i]) && jobs'[i].range == jobs[i].range;
      }
    }
  }

  lemma MovedKeepsChain(jobs: seq<Job>, cursor: nat, j: nat, job: Job)
    requires ChainInv(jobs, cursor) && Moved(jobs, j, job)
    ensures ChainInv(jobs[j := job], cursor)
  {
  }

  lemma MovedKeepsOrder(order: FlushOrder.Order, jobs: seq<Job>, j: nat, job: Job)
    requires OrderInv(order, jobs) && Moved(jobs, j, job) && job.indexed == jobs[j].indexed
    requires (job.indexed ==> OnDisk(job)) && (job.stage == AwaitIndex ==> !job.indexed && !job.failed)
    requires job.stage != Encoding
    ensures OrderInv(order, jobs[j := job]) && Bound(order, jobs[j := job]) == Bound(order, jobs)
  {
    assert IndexedJobs(jobs[j := job]) == IndexedJobs(jobs);
  }

  /** A flush that moves on without an index acknowledgement. */
  lemma MovedKeepsFlush(jobs: seq<Job>, blocks: seq<Block>, order: FlushOrder.Order, commit: nat, cursor: nat,
                        j: nat, job: Job, commit': nat)
    requires FlushSafe(jobs, blocks, order, commit, cursor) && Moved(jobs, j, job)
    requires OnDisk(job) == OnDisk(jobs[j]) && job.indexed == jobs[j].indexed
    requires job.stage != AwaitIndex && job.stage != Encoding && !job.stage.Committing?
    requires commit' <= Bound(order, jobs)
    ensures FlushSafe(jobs[j := job], blocks, order, commit', cursor)
    ensures Bound(order, jobs[j := job]) == Bound(order, jobs)
  {
    MovedKeepsChain(jobs, cursor, j, job);
    MovedKeepsDisk(jobs, blocks, j, job);
    MovedKeepsOrder(order, jobs, j, job);
  }

  lemma EncodeKeepsFlush(jobs: seq<Job>, blocks: seq<Block>, order: FlushOrder.Order, commit: nat, cursor: nat, j: nat)
    requires FlushSafe(jobs, blocks, order, commit, cursor) && j < |jobs| && jobs[j].stage == Encoding
    ensures var jobs' := jobs[j := jobs[j].(stage := AwaitIndex)];
            FlushSafe(jobs', blocks + [Block(Some(jobs[j].range), jobs[j].rows, true)], order, commit, cursor) &&
            Bound(order, jobs') == Bound(order, jobs)
  {
    var job := jobs[j].(stage := AwaitIndex);
    MovedKeepsChain(jobs, cursor, j, job);
    EncodeKeepsDisk(jobs, blocks, j, job);
    MovedKeepsOrder(order, jobs, j, job);
  }

  lemma EncodeIsSafe<V(!new)>(c: Config<V>, s: State<V>, j: nat, ok: bool)
    requires Sound(c) && Safe(c, s) && Enabled(c, s, Encode(j, ok))
    ensures Safe(c, DoEncode(s, j, ok))
  {
    var s' := DoEncode(s, j, ok);
    MovedKeepsRows(c, s, s', j, s'.jobs[j], s'.blocks[|s.blocks|..]);
    if ok {
      EncodeKeepsFlush(s.jobs, s.blocks, s.order, s.commit, s.cursor, j);
    } else {
      MovedKeepsFlush(s.jobs, s.blocks, s.order, s.commit, s.cursor, j, s'.jobs[j], s.commit);
    }
  }

  lemma IndexedMore(jobs: seq<Job>, j: nat, job: Job)
    requires j < |jobs| && job.indexed
    ensures IndexedJobs(jobs[j := job]) == IndexedJobs(jobs)[j := job.range.to]
  {
  }

  /** An index acknowledgement completes the flush in order. */
  lemma IndexKeepsOrder(order: FlushOrder.Order, jobs: seq<Job>, j: nat, job: Job, order': FlushOrder.Order)
    requires OrderInv(order, jobs) && Moved(jobs, j, job)
    requires !jobs[j].indexed && job.indexed && OnDisk(job) && job.stage.Committing?
    requires order' == order.(wal := FlushOrder.Complete(order.wal, j, job.range.to))
    ensures OrderInv(order', jobs[j := job]) && order.wal.frontier <= order'.wal.frontier
  {
    IndexedMore(jobs, j, job);
    FlushOrder.TracksComplete<nat>(FlushOrder.Max, order.wal, IndexedJobs(jobs), j, job.range.to);
  }

  /** The bound moves over the finished prefix. */
  lemma BoundGrows(order: FlushOrder.Order, order': FlushOrder.Order, jobs: seq<Job>, cursor: nat)
    requires OrderInv(order', jobs) && ChainInv(jobs, cursor)
    requires order.wal.frontier <= order'.wal.frontier
    ensures Bound(order, jobs) <= Bound(order', jobs)
  {
    FrontierBounds(order', jobs);
    if order.wal.frontier > 0 {
      ChainMonotone(jobs, cursor, order.wal.frontier - 1, order'.wal.frontier - 1);
    }
  }

  /** What is released is at most the new bound. */
  lemma ReleaseIsBounded(jobs: seq<Job>, order': FlushOrder.Order, cursor: nat, lo: nat, p: Option<nat>)
    requires OrderInv(order', jobs) && ChainInv(jobs, cursor) && lo <= order'.wal.frontier
    requires forall k | 0 <= k < order'.wal.frontier :: k in IndexedJobs(jobs)
    requires p == FlushOrder.Fold<nat>(FlushOrder.Max, IndexedJobs(jobs), lo, order'.wal.frontier)
    ensures p.Some? ==> p.value <= Bound(order', jobs)
  {
    FrontierBounds(order', jobs);
    var hi := order'.wal.frontier;
    FlushOrder.FoldMax(IndexedJobs(jobs), lo, hi);
    if p.Some? {
      var k :| lo <= k < hi && IndexedJobs(jobs)[k] == p.value;
      assert p.value == jobs[k].range.to;
      ChainMonotone(jobs, cursor, k, hi - 1);
    }
  }

  lemma SameBound(order: FlushOrder.Order, jobs: seq<Job>, j: nat, job: Job)
    requires Moved(jobs, j, job)
    ensures Bound(order, jobs[j := job]) == Bound(order, jobs)
  {
  }

  lemma IndexKeepsFlush(jobs: seq<Job>, blocks: seq<Block>, order: FlushOrder.Order, commit: nat, cursor: nat,
                        j: nat, job: Job, order': FlushOrder.Order)
    requires FlushSafe(jobs, blocks, order, commit, cursor) && j < |jobs| && jobs[j].stage == AwaitIndex
    requires order' == order.(wal := FlushOrder.Complete(order.wal, j, job.range.to))
    requires var p := FlushOrder.Release<nat>(FlushOrder.Max, order.wal, j, job.range.to);
             job == jobs[j].(stage := Committing(p), indexed := true)
    ensures FlushSafe(jobs[j := job], blocks, order', commit, cursor)
    ensures Bound(order, jobs) <= Bound(order', jobs[j := job])
  {
    var jobs' := jobs[j := job];
    MovedKeepsChain(jobs, cursor, j, job);
    MovedKeepsDisk(jobs, blocks, j, job);
    IndexKeepsOrder(order, jobs, j, job, order');
    BoundGrows(order, order', jobs', cursor);
    SameBound(order, jobs, j, job);
    IndexedMore(jobs, j, job);
    FlushOrder.TracksComplete<nat>(FlushOrder.Max, order.wal, IndexedJobs(jobs), j, job.range.to);
    ReleaseIsBounded(jobs', order', cursor, order.wal.frontier,
                     FlushOrder.Release<nat>(FlushOrder.Max, order.wal, j, job.range.to));
  }

  lemma LargerBoundKeepsLog<V(!new)>(c: Config<V>, s: State<V>, s': State<V>, bound: nat, bound': nat)
    requires Sound(c) && LogSafe(c, s, bound) && bound <= bound'
    requires s'.wal == s.wal && s'.log == s.log && s'.shards == s.shards && s'.cursor == s.cursor
    ensures LogSafe(c, s', bound')
  {
  }

  lemma IndexIsSafe<V(!new)>(c: Config<V>, s: State<V>, j: nat, acked: bool)
    requires Sound(c) && Safe(c, s) && Enabled(c, s, Index(j, acked))
    ensures Safe(c, DoIndex(s, j, acked))
  {
    var s' := DoIndex(s, j, acked);
    MovedKeepsRows(c, s, s', j, s'.jobs[j], []);
    if acked {
      IndexKeepsFlush(s.jobs, s.blocks, s.order, s.commit, s.cursor, j, s'.jobs[j], s'.order);
    } else {
      MovedKeepsFlush(s.jobs, s.blocks, s.order, s.commit, s.cursor, j, s'.jobs[j], s.commit);
    }
    LargerBoundKeepsLog(c, s, s', Bound(s.order, s.jobs), Bound(s'.order, s'.jobs));
  }

  lemma CommitIsSafe<V(!new)>(c: Config<V>, s: State<V>, j: nat, ok: bool, removed: nat)
    requires Sound(c) && Safe(c, s) && Enabled(c, s, Commit(j, ok, removed))
    ensures Safe(c, DoCommit(c, s, j, ok, removed))
  {
    var s' := DoCommit(c, s, j, ok, removed);
    MovedKeepsRows(c, s, s', j, s'.jobs[j], []);
    MovedKeepsFlush(s.jobs, s.blocks, s.order, s.commit, s.cursor, j, s'.jobs[j], s'.commit);
    if s'.wal != s.wal {
      var bound := Bound(s.order, s.jobs);
      CommitKeeps(c.crc, s.wal, EntriesOf(c, s.log), bound, removed, bound);
    }
  }

  /** The drop order is not the commit order. */
  lemma DropKeepsFlush(jobs: seq<Job>, blocks: seq<Block>, order: FlushOrder.Order, commit: nat, cursor: nat,
                       j: nat, job: Job, order': FlushOrder.Order)
    requires FlushSafe(jobs, blocks, order, commit, cursor) && Moved(jobs, j, job)
    requires job.failed == jobs[j].failed && job.indexed == jobs[j].indexed && !jobs[j].stage.Encoding?
    requires job.stage.Dropping? || job.stage.Done?
    requires order'.wal == order.wal && order'.nextSeq == order.nextSeq
    ensures FlushSafe(jobs[j := job], blocks, order', commit, cursor)
    ensures Bound(order', jobs[j := job]) == Bound(order, jobs)
  {
    MovedKeepsFlush(jobs, blocks, order, commit, cursor, j, job, commit);
    SameWalOrder(jobs[j := job], order, order');
  }

  lemma SameWalOrder(jobs: seq<Job>, order: FlushOrder.Order, order': FlushOrder.Order)
    requires OrderInv(order, jobs) && order'.wal == order.wal && order'.nextSeq == order.nextSeq
    ensures OrderInv(order', jobs) && Bound(order', jobs) == Bound(order, jobs)
  {
  }

  /** Buffer drops touch nothing durable. */
  lemma DropStepIsSafe<V(!new)>(c: Config<V>, s: State<V>, s': State<V>, j: nat, job: Job)
    requires Sound(c) && Safe(c, s) && Moved(s.jobs, j, job)
    requires job.failed == s.jobs[j].failed && job.indexed == s.jobs[j].indexed && !s.jobs[j].stage.Encoding?
    requires job.stage.Dropping? || job.stage.Done?
    requires s'.jobs == s.jobs[j := job] && s'.order.wal == s.order.wal && s'.order.nextSeq == s.order.nextSeq
    requires s'.wal == s.wal && s'.log == s.log && s'.shards == s.shards && s'.blocks == s.blocks
    requires s'.cursor == s.cursor && s'.commit == s.commit
    ensures Safe(c, s')
  {
    var bound := Bound(s.order, s.jobs);
    DropKeepsFlush(s.jobs, s.blocks, s.order, s.commit, s.cursor, j, job, s'.order);
    assert RowsSafe(c, s') by {
      Seqs.EmptyRight(s.blocks);
      MovedKeepsRows(c, s, s', j, job, []);
    }
    LargerBoundKeepsLog(c, s, s', bound, bound);
  }

  // ---------------------------------------------------------------- every step

  lemma LogIsSafe<V(!new)>(c: Config<V>, s: State<V>, m: Metric<V>, synced: bool)
    requires Sound(c) && Safe(c, s) && Enabled(c, s, Log(m, synced))
    ensures Safe(c, DoLog(c, s, m, synced))
  {
    LogKeepsLog(c, s, m, synced, Bound(s.order, s.jobs));
    LogKeepsRows(c, s, m, synced);
  }

  lemma InsertIsSafe<V(!new)>(c: Config<V>, s: State<V>, k: nat, writes: nat)
    requires Sound(c) && Safe(c, s) && Enabled(c, s, Insert(k, writes))
    ensures Safe(c, DoInsert(s, k, writes))
  {
    var i := s.shards[k].held.value;
    var r := Writer.Push(s.shards[k].w, RowsOf(i, |s.log[i].metric.points|), writes);
    InsertKeepsLog(c, s, k, writes, Bound(s.order, s.jobs));
    InsertKeepsRows(c, s, k, writes);
    MoreBlocksKeepDisk(s.jobs, s.blocks, Closed(r.closed, r.ok));
  }

  lemma FlushStepIsSafe<V(!new)>(c: Config<V>, s: State<V>, step: Step<V>)
    requires Sound(c) && Safe(c, s) && Enabled(c, s, step)
    requires step.Encode? || step.Index? || step.Commit? || step.Release? || step.Drop?
    ensures Safe(c, Next(c, s, step))
  {
    match step
    case Encode(j, ok) => EncodeIsSafe(c, s, j, ok);
    case Index(j, acked) => IndexIsSafe(c, s, j, acked);
    case Commit(j, ok, removed) => CommitIsSafe(c, s, j, ok, removed);
    case Release(j) => DropStepIsSafe(c, s, DoRelease(s, j), j, DoRelease(s, j).jobs[j]);
    case Drop(j) => DropStepIsSafe(c, s, DoDrop(s, j), j, DoDrop(s, j).jobs[j]);
  }

  lemma StepIsSafe<V(!new)>(c: Config<V>, s: State<V>, step: Step<V>)
    requires Sound(c) && Safe(c, s) && Enabled(c, s, step)
    ensures Safe(c, Next(c, s, step))
  {
    match step
    case Log(m, synced) => LogIsSafe(c, s, m, synced);
    case LogFail(m, written) => LogFailKeepsLog(c, s, m, written, Bound(s.order, s.jobs));
    case Insert(k, writes) => InsertIsSafe(c, s, k, writes);
    case Swap => SwapIsSafe(c, s);
    case _ => FlushStepIsSafe(c, s, step);
  }

  /** The invariant holds after every run. */
  lemma {:induction false} RunIsSafe<V(!new)>(c: Config<V>, s: State<V>, steps: seq<Step<V>>)
    requires Sound(c) && Safe(c, s) && IsRun(c, s, steps)
    ensures Safe(c, RunFrom(c, s, steps))
    decreases |steps|
  {
    if steps != [] {
      StepIsSafe(c, s, steps[0]);
      RunIsSafe(c, Next(c, s, steps[0]), steps[1..]);
    }
  }
}

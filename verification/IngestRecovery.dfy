/** What a crash leaves and what recovery makes of it, in every reachable state. */
module IngestRecovery {
  import opened Options
  import opened WalFrame
  import opened WalLog
  import opened Coverage
  import opened LogFiles
  import opened Ingest
  import opened IngestConcerns
  import opened IngestInvariant
  import opened IngestSafety
  import Writer
  import Seqs

  // ------------------------------------------------------------- block footers

  function Spans(blocks: seq<Block>): (spans: seq<Option<Range>>)
    ensures |spans| == |blocks| && forall b | 0 <= b < |blocks| :: spans[b] == blocks[b].range
  {
    seq(|blocks|, b requires 0 <= b < |blocks| => blocks[b].range)
  }

  // ---------------------------------------------------------- how far it reaches

  /** Where recovery starts replaying. */
  function Reach<V>(s: State<V>): nat {
    Through(s.commit, FooterRanges(Spans(s.blocks)))
  }

  lemma BlocksAreWellRanged(jobs: seq<Job>, blocks: seq<Block>, cursor: nat)
    requires ChainInv(jobs, cursor) && DiskInv(jobs, blocks) && cursor <= U64_MAX
    ensures WellRanged(Spans(blocks))
  {
    var spans := Spans(blocks);
    forall b | 0 <= b < |spans| && spans[b].Some? ensures spans[b].value.from <= spans[b].value.to <= U64_MAX
    {
      assert JobOf(jobs, blocks[b].range.value);
      var j :| 0 <= j < |jobs| && OnDisk(jobs[j]) && jobs[j].range == blocks[b].range.value;
      ChainMonotone(jobs, cursor, j, |jobs| - 1);
    }
  }

  /** A position a footer covers belongs to a flush that is on disk. */
  lemma CoveredByJob(jobs: seq<Job>, blocks: seq<Block>, cursor: nat, y: nat) returns (j: nat)
    requires ChainInv(jobs, cursor) && DiskInv(jobs, blocks) && cursor <= U64_MAX
    requires InSome(FooterRanges(Spans(blocks)), y)
    ensures j < |jobs| && OnDisk(jobs[j]) && jobs[j].range.from < y <= jobs[j].range.to
  {
    BlocksAreWellRanged(jobs, blocks, cursor);
    var rs := FooterRanges(Spans(blocks));
    var i :| 0 <= i < |rs| && rs[i].from < y <= rs[i].to;
    FootersReadBack(Spans(blocks), rs[i]);
    var b :| 0 <= b < |blocks| && Spans(blocks)[b] == Some(rs[i]);
    assert JobOf(jobs, rs[i]);
    j :| 0 <= j < |jobs| && OnDisk(jobs[j]) && jobs[j].range == rs[i];
  }

  lemma JobIsCovered(jobs: seq<Job>, blocks: seq<Block>, cursor: nat, j: nat, y: nat)
    requires ChainInv(jobs, cursor) && DiskInv(jobs, blocks) && cursor <= U64_MAX
    requires j < |jobs| && OnDisk(jobs[j]) && jobs[j].range.from < y <= jobs[j].range.to
    ensures InSome(FooterRanges(Spans(blocks)), y)
  {
    BlocksAreWellRanged(jobs, blocks, cursor);
    var b :| 0 <= b < |blocks| &&
      blocks[b].range == Some(jobs[j].range) && blocks[b].rows == jobs[j].rows && blocks[b].published;
    FootersReadBack(Spans(blocks), jobs[j].range);
  }

  /** The flush ranges partition the log up to the cursor: no gap. */
  lemma {:induction false} RangesCover(jobs: seq<Job>, cursor: nat, n: nat, y: nat) returns (j: nat)
    requires ChainInv(jobs, cursor) && 0 < n <= |jobs| && START < y <= jobs[n - 1].range.to
    ensures j < n && jobs[j].range.from < y <= jobs[j].range.to
    decreases n
  {
    if jobs[n - 1].range.from < y {
      j := n - 1;
    } else {
      assert n > 1 ==> jobs[n - 1].range.from == jobs[n - 2].range.to;
      j := RangesCover(jobs, cursor, n - 1, y);
    }
  }

  /** And no overlap. */
  lemma RangesDisjoint(jobs: seq<Job>, cursor: nat, i: nat, j: nat, y: nat)
    requires ChainInv(jobs, cursor) && i < |jobs| && j < |jobs|
    requires jobs[i].range.from < y <= jobs[i].range.to && jobs[j].range.from < y <= jobs[j].range.to
    ensures i == j
  {
    if i < j {
      ChainMonotone(jobs, cursor, i, j);
    } else if j < i {
      ChainMonotone(jobs, cursor, j, i);
    }
  }

  /** Everything up to the end of the finished prefix is reached, even when the commit
      file was overtaken and stands further back. */
  lemma ReachesBound<V(!new)>(c: Config<V>, s: State<V>)
    requires Sound(c) && Safe(c, s)
    ensures s.commit <= Bound(s.order, s.jobs) <= Reach(s)
  {
    var x := Reach(s);
    ThroughIsReach(s.commit, FooterRanges(Spans(s.blocks)));
    FrontierBounds(s.order, s.jobs);
    if x < Bound(s.order, s.jobs) {
      var j := RangesCover(s.jobs, s.cursor, s.order.wal.frontier, x + 1);
      JobIsCovered(s.jobs, s.blocks, s.cursor, j, x + 1);
      assert false;
    }
  }

  /** Nothing past the last flush is reached. */
  lemma ReachBelowCursor<V(!new)>(c: Config<V>, s: State<V>)
    requires Sound(c) && Safe(c, s)
    ensures Reach(s) <= s.cursor
  {
    var x := Reach(s);
    ThroughIsReach(s.commit, FooterRanges(Spans(s.blocks)));
    BoundBelowCursor(s.order, s.jobs, s.cursor);
    if x > s.commit {
      assert InSome(FooterRanges(Spans(s.blocks)), x);
      var j := CoveredByJob(s.jobs, s.blocks, s.cursor, x);
      ChainMonotone(s.jobs, s.cursor, j, |s.jobs| - 1);
    }
  }

  // ------------------------------------------------------------ what is replayed

  /** What recovery replays from the segment files `files`. */
  function Replayed<V>(c: Config<V>, s: State<V>, files: seq<Bytes>): seq<Bytes> {
    After(Entries(c.crc, s.wal.base, files), Reach(s))
  }

  /** Exact replay boundary: recovery replays, in log order, precisely the records
      ever logged past the point it reaches, although segments were deleted. */
  lemma ReplayIsExact<V(!new)>(c: Config<V>, s: State<V>)
    requires Sound(c) && Safe(c, s)
    ensures Replayed(c, s, s.wal.segs) == After(EntriesOf(c, s.log), Reach(s))
  {
    ReachesBound(c, s);
    ReplaysAll(c.crc, s.wal, EntriesOf(c, s.log), Bound(s.order, s.jobs), Reach(s));
  }

  /** The same for a crash in the middle of an append: the interrupted record is
      replayed exactly when all of its bytes were written. */
  lemma TornReplayIsExact<V(!new)>(c: Config<V>, s: State<V>, m: Metric<V>, k: nat)
    requires Sound(c) && Safe(c, s) && !s.wal.poisoned && FitsLog(c, s, m) && k <= |Frame(c.crc, c.enc(m))|
    ensures var f := Frame(c.crc, c.enc(m));
            Replayed(c, s, AppendFailed(s.wal, f, k).segs) ==
            After(EntriesOf(c, s.log), Reach(s)) + if k == |f| then [c.enc(m)] else []
  {
    var p := c.enc(m);
    var f := Frame(c.crc, p);
    var whole := [p][..WholeCount([p], k)];
    OneFrame(c.crc, p);
    FailedAppendAdds(c.crc, s.wal, f, [p], k, whole);
    ReplayIsExact(c, s);
    ReachBelowCursor(c, s);
    var had, added := Entries(c.crc, s.wal.base, s.wal.segs), NewEntries(s.wal, whole);
    AfterConcat(had, added, Reach(s));
    NewEntriesBounds(c.crc, s.wal, Framed(c.crc, whole), whole);
    AfterAll(added, Reach(s));
    assert whole == if k == |f| then [p] else [];
  }

  // -------------------------------------------------------------- nothing is lost

  ghost predicate Durable(blocks: seq<Block>, row: Row) {
    exists b | 0 <= b < |blocks| :: row in blocks[b].rows
  }

  /** A flush whose range holds a position that recovery does not replay is on disk. */
  lemma ReachedJobIsOnDisk<V(!new)>(c: Config<V>, s: State<V>, j: nat, y: nat)
    requires Sound(c) && Safe(c, s) && j < |s.jobs|
    requires s.jobs[j].range.from < y <= s.jobs[j].range.to && y <= Reach(s)
    ensures OnDisk(s.jobs[j])
  {
    ThroughIsReach(s.commit, FooterRanges(Spans(s.blocks)));
    if y <= s.commit {
      FrontierBounds(s.order, s.jobs);
      var f := s.order.wal.frontier;
      if f <= j && f > 0 {
        ChainMonotone(s.jobs, s.cursor, f - 1, j);
      }
    } else {
      assert InSome(FooterRanges(Spans(s.blocks)), y);
      var i := CoveredByJob(s.jobs, s.blocks, s.cursor, y);
      RangesDisjoint(s.jobs, s.cursor, i, j, y);
    }
  }

  /** Every point of an acknowledged record that recovery does not replay is in a
      block on disk. */
  lemma ReachedIsDurable<V(!new)>(c: Config<V>, s: State<V>, i: nat, k: nat)
    requires Sound(c) && Safe(c, s)
    requires i < |s.log| && s.log[i].fate.Acked? && s.log[i].pos <= Reach(s) && k < |s.log[i].metric.points|
    ensures Durable(s.blocks, Row(i, k))
  {
    var row := Row(i, k);
    ReachBelowCursor(c, s);
    if SelfClosed(s.blocks, row) {
      var b :| 0 <= b < |s.blocks| && s.blocks[b].range == None && row in s.blocks[b].rows;
    } else {
      assert InJob(s.jobs, row);
      var j :| 0 <= j < |s.jobs| && row in s.jobs[j].rows;
      ReachedJobIsOnDisk(c, s, j, s.log[i].pos);
      assert BlockOf(s.blocks, s.jobs[j]);
    }
  }

  /** Crash safety: from an empty log, after any run, whatever order encodes finished
      in and whichever failed or timed out, a crash followed by recovery loses no
      acknowledged record. Each is replayed as it was, or all of its points are in
      blocks on disk; the latter for every record at or below the commit point. */
  lemma NothingIsLost<V(!new)>(c: Config<V>, steps: seq<Step<V>>, i: nat)
    requires Sound(c) && IsRun(c, Init(c), steps)
    requires var s := RunFrom(c, Init(c), steps); i < |s.log| && s.log[i].fate.Acked?
    ensures var s := RunFrom(c, Init(c), steps);
            var m := s.log[i].metric;
            if s.log[i].pos > Reach(s)
            then c.enc(m) in Replayed(c, s, s.wal.segs) && c.dec(c.enc(m)) == Some(m)
            else forall k | 0 <= k < |m.points| :: Durable(s.blocks, Row(i, k))
    ensures var s := RunFrom(c, Init(c), steps);
            s.log[i].pos <= s.commit ==> forall k | 0 <= k < |s.log[i].metric.points| :: Durable(s.blocks, Row(i, k))
  {
    InitIsSafe(c);
    RunIsSafe(c, Init(c), steps);
    var s := RunFrom(c, Init(c), steps);
    ReachesBound(c, s);
    if s.log[i].pos > Reach(s) {
      ReplayIsExact(c, s);
      AfterHas(EntriesOf(c, s.log), Reach(s), i);
    } else {
      forall k | 0 <= k < |s.log[i].metric.points| ensures Durable(s.blocks, Row(i, k)) {
        ReachedIsDurable(c, s, i, k);
      }
    }
  }

  /** The exact replay boundary after any run. */
  lemma RecoveryIsExact<V(!new)>(c: Config<V>, steps: seq<Step<V>>)
    requires Sound(c) && IsRun(c, Init(c), steps)
    ensures var s := RunFrom(c, Init(c), steps);
            Replayed(c, s, s.wal.segs) == After(EntriesOf(c, s.log), Reach(s))
  {
    InitIsSafe(c);
    RunIsSafe(c, Init(c), steps);
    ReplayIsExact(c, RunFrom(c, Init(c), steps));
  }

  /** And when the crash cuts an append short after `k` bytes. */
  lemma TornRecoveryIsExact<V(!new)>(c: Config<V>, steps: seq<Step<V>>, s: State<V>, m: Metric<V>, k: nat)
    requires Sound(c) && IsRun(c, Init(c), steps) && s == RunFrom(c, Init(c), steps)
    requires !s.wal.poisoned && FitsLog(c, s, m) && k <= |Frame(c.crc, c.enc(m))|
    ensures var f := Frame(c.crc, c.enc(m));
            Replayed(c, s, AppendFailed(s.wal, f, k).segs) ==
            After(EntriesOf(c, s.log), Reach(s)) + if k == |f| then [c.enc(m)] else []
  {
    InitIsSafe(c);
    RunIsSafe(c, Init(c), steps);
    TornReplayIsExact(c, s, m, k);
  }

  // ----------------------------------------------------------- the swap instant

  /** Flushes keep their place, range and rows; blocks and log records stay. */
  ghost predicate Later<V>(s: State<V>, t: State<V>) {
    && |s.jobs| <= |t.jobs| && |s.log| <= |t.log| && s.blocks <= t.blocks
    && (forall j | 0 <= j < |s.jobs| :: t.jobs[j].range == s.jobs[j].range && t.jobs[j].rows == s.jobs[j].rows)
    && (forall i | 0 <= i < |s.log| :: t.log[i].pos == s.log[i].pos && t.log[i].metric == s.log[i].metric)
  }

  lemma StepIsLater<V(!new)>(c: Config<V>, s: State<V>, step: Step<V>)
    requires Sound(c) && Enabled(c, s, step)
    ensures Later(s, Next(c, s, step))
  {
  }

  lemma {:induction false} RunIsLater<V(!new)>(c: Config<V>, s: State<V>, steps: seq<Step<V>>)
    requires Sound(c) && IsRun(c, s, steps)
    ensures Later(s, RunFrom(c, s, steps))
    decreases |steps|
  {
    if steps != [] {
      StepIsLater(c, s, steps[0]);
      RunIsLater(c, Next(c, s, steps[0]), steps[1..]);
    }
  }

  /** Blocks hold rows of logged records only. */
  ghost predicate BlockRowsKnown<V>(s: State<V>) {
    forall b, r | 0 <= b < |s.blocks| && r in s.blocks[b].rows :: r.rec < |s.log|
  }

  lemma ClosedRowsKnown<V(!new)>(c: Config<V>, s: State<V>, k: nat, writes: nat)
    requires Sound(c) && Safe(c, s) && BlockRowsKnown(s) && Enabled(c, s, Insert(k, writes))
    ensures BlockRowsKnown(DoInsert(s, k, writes))
  {
    var i := s.shards[k].held.value;
    var w, rows := s.shards[k].w, RowsOf(i, |s.log[i].metric.points|);
    var r := Writer.Push(w, rows, writes);
    Writer.PushConserves(w, rows, writes);
    forall b, row: Row | 0 <= b < |r.closed| && row in r.closed[b] ensures row.rec < |s.log| {
      Seqs.FlattenHas(r.closed, row);
      assert row in Writer.Held(r);
      assert row in w.rows || row in rows;
    }
  }

  lemma StepBlockRowsKnown<V(!new)>(c: Config<V>, s: State<V>, step: Step<V>)
    requires Sound(c) && Safe(c, s) && BlockRowsKnown(s) && Enabled(c, s, step)
    ensures BlockRowsKnown(Next(c, s, step))
  {
    if step.Insert? {
      ClosedRowsKnown(c, s, step.shard, step.writes);
    }
  }

  lemma {:induction false} RunBlockRowsKnown<V(!new)>(c: Config<V>, s: State<V>, steps: seq<Step<V>>)
    requires Sound(c) && Safe(c, s) && BlockRowsKnown(s) && IsRun(c, s, steps)
    ensures BlockRowsKnown(RunFrom(c, s, steps))
    decreases |steps|
  {
    if steps != [] {
      StepBlockRowsKnown(c, s, steps[0]);
      StepIsSafe(c, s, steps[0]);
      RunBlockRowsKnown(c, Next(c, s, steps[0]), steps[1..]);
    }
  }

  /** Every acknowledged record is at or below the position read at the swap, and is
      wholly in a writer taken now, an earlier flush, or a block a writer closed. */
  lemma SwapTakesAll<V(!new)>(c: Config<V>, s: State<V>, i: nat, k: nat)
    requires Sound(c) && Safe(c, s) && Enabled(c, s, Swap) && Seqs.Flatten(OpenRows(s.shards)) != []
    requires i < |s.log| && s.log[i].fate.Acked? && k < |s.log[i].metric.points|
    ensures s.log[i].pos <= Position(s.wal)
    ensures SelfClosed(s.blocks, Row(i, k)) || InJob(DoSwap(s).jobs, Row(i, k))
  {
    SwapIsSafe(c, s);
    var s', sh := DoSwap(s), c.route(s.log[i].metric.name);
    assert s'.shards[sh].w.rows == [];
    assert EntriesOf(c, s.log)[i].pos <= Position(s.wal);
  }

  /** Whatever happens later, a record past that position is in none of them. */
  lemma SwapTakesNoLater<V(!new)>(c: Config<V>, s: State<V>, steps: seq<Step<V>>, i: nat, k: nat)
    requires Sound(c) && Safe(c, s) && BlockRowsKnown(s)
    requires Enabled(c, s, Swap) && Seqs.Flatten(OpenRows(s.shards)) != [] && IsRun(c, DoSwap(s), steps)
    requires var t := RunFrom(c, DoSwap(s), steps);
             i < |t.log| && t.log[i].pos > Position(s.wal)
    ensures var t := RunFrom(c, DoSwap(s), steps);
            |s.jobs| < |t.jobs| && s.blocks <= t.blocks &&
            (forall j | 0 <= j <= |s.jobs| :: Row(i, k) !in t.jobs[j].rows) &&
            (forall b | 0 <= b < |s.blocks| :: Row(i, k) !in s.blocks[b].rows)
  {
    var s' := DoSwap(s);
    var t := RunFrom(c, s', steps);
    SwapIsSafe(c, s);
    RunIsSafe(c, s', steps);
    RunIsLater(c, s', steps);
    forall j | 0 <= j <= |s.jobs| ensures Row(i, k) !in t.jobs[j].rows {
      ChainMonotone(t.jobs, t.cursor, j, |s.jobs|);
    }
    forall x | 0 <= x < |s.log| ensures t.log[x].pos <= Position(s.wal) {
      assert EntriesOf(c, s.log)[x].pos <= Position(s.wal);
    }
  }

  lemma Reachable<V(!new)>(c: Config<V>, steps: seq<Step<V>>, s: State<V>)
    requires Sound(c) && IsRun(c, Init(c), steps) && s == RunFrom(c, Init(c), steps)
    ensures Safe(c, s) && BlockRowsKnown(s)
  {
    InitIsSafe(c);
    RunIsSafe(c, Init(c), steps);
    RunBlockRowsKnown(c, Init(c), steps);
  }

  /** The swap instant, in any run: the position read there splits the log exactly.
      A record acknowledged before lies at or below it and is wholly in a writer taken
      now, an earlier flush or a block a writer closed by itself. */
  lemma SwapCoversAcknowledged<V(!new)>(c: Config<V>, steps: seq<Step<V>>, s: State<V>, i: nat, k: nat)
    requires Sound(c) && IsRun(c, Init(c), steps) && s == RunFrom(c, Init(c), steps)
    requires Enabled(c, s, Swap) && Seqs.Flatten(OpenRows(s.shards)) != []
    requires i < |s.log| && s.log[i].fate.Acked? && k < |s.log[i].metric.points|
    ensures s.log[i].pos <= Position(s.wal)
    ensures SelfClosed(s.blocks, Row(i, k)) || InJob(DoSwap(s).jobs, Row(i, k))
  {
    Reachable(c, steps, s);
    SwapTakesAll(c, s, i, k);
  }

  /** A record past that position is in none of them, then or ever after. */
  lemma SwapExcludesLater<V(!new)>(c: Config<V>, before: seq<Step<V>>, s: State<V>, after: seq<Step<V>>, t: State<V>,
                                   i: nat, k: nat)
    requires Sound(c) && IsRun(c, Init(c), before) && s == RunFrom(c, Init(c), before)
    requires Enabled(c, s, Swap) && Seqs.Flatten(OpenRows(s.shards)) != []
    requires IsRun(c, DoSwap(s), after) && t == RunFrom(c, DoSwap(s), after)
    requires i < |t.log| && t.log[i].pos > Position(s.wal)
    ensures |s.jobs| < |t.jobs| && s.blocks <= t.blocks
    ensures forall j | 0 <= j <= |s.jobs| :: Row(i, k) !in t.jobs[j].rows
    ensures forall b | 0 <= b < |s.blocks| :: Row(i, k) !in s.blocks[b].rows
  {
    Reachable(c, before, s);
    SwapTakesNoLater(c, s, after, i, k);
  }

  ghost predicate InRange(job: Job, y: nat) {
    job.range.from < y <= job.range.to
  }

  /** Flush ranges chain: in every reachable state each position up to the last flush
      lies in the range of exactly one flush. */
  lemma RangesPartitionTheLog<V(!new)>(c: Config<V>, steps: seq<Step<V>>, s: State<V>, y: nat)
    requires Sound(c) && IsRun(c, Init(c), steps) && s == RunFrom(c, Init(c), steps)
    requires START < y <= s.cursor
    ensures exists j | 0 <= j < |s.jobs| :: InRange(s.jobs[j], y)
    ensures forall i, j | 0 <= i < |s.jobs| && 0 <= j < |s.jobs| && InRange(s.jobs[i], y) &&
            InRange(s.jobs[j], y) :: i == j
  {
    Reachable(c, steps, s);
    RangesPartition(s.jobs, s.cursor, y);
  }

  lemma RangesPartition(jobs: seq<Job>, cursor: nat, y: nat)
    requires ChainInv(jobs, cursor) && START < y <= cursor
    ensures exists j | 0 <= j < |jobs| :: InRange(jobs[j], y)
    ensures forall i, j | 0 <= i < |jobs| && 0 <= j < |jobs| && InRange(jobs[i], y) && InRange(jobs[j], y) :: i == j
  {
    var found := RangesCover(jobs, cursor, |jobs|, y);
    assert InRange(jobs[found], y);
    forall i, j | 0 <= i < |jobs| && 0 <= j < |jobs| && InRange(jobs[i], y) && InRange(jobs[j], y)
      ensures i == j
    {
      RangesDisjoint(jobs, cursor, i, j, y);
    }
  }
}

/** A log file whose newest whole record has a bad checksum. */
module LogFailures {
  import opened LittleEndian
  import opened WalFrame
  import opened WalLog

  /** A header that announces an empty payload, with a checksum that is not its own. */
  function BadFile(crc: Checksum): (b: Bytes)
    ensures |b| == HEADER_LEN
  {
    Le32(0) + Le32(if crc([]) == 0 then 1 else 0)
  }

  /** Replay stops before the record, reopening keeps it. */
  lemma BadFileIsKept(crc: Checksum)
    ensures WholeAt(BadFile(crc), 0) && ScanStop(crc, BadFile(crc), 0) == 0
    ensures LastComplete(BadFile(crc), 0) == HEADER_LEN
  {
    var b := BadFile(crc);
    Le32RoundTrip(0);
    Le32RoundTrip(1);
    assert b[0..4] == Le32(0) && b[4..8] == Le32(if crc([]) == 0 then 1 else 0);
    assert LenAt(b, 0) == 0 && PayloadAt(b, 0) == [];
  }

  /** Whatever is appended to that file after reopening it, replay finds nothing. */
  lemma AppendedIsUnreadable(crc: Checksum, limit: nat, f: Bytes, qs: seq<Bytes>)
    requires limit > HEADER_LEN && qs != [] && AllFramable(qs) && f == Framed(crc, qs) && HEADER_LEN + |f| + 1 < SPAN
    ensures var w := Append(Open(0, [BadFile(crc)], limit), f); Entries(crc, w.base, w.segs) == []
  {
    var segs := [BadFile(crc)];
    BadFileIsKept(crc);
    assert segs[1..] == [] && Scan(crc, segs[0], 0) == [];
    assert Entries(crc, 1, segs[1..]) == [];
    ReopenReadsBackIff(crc, 0, segs, limit, f, qs);
  }
}

/** Runs of the metric ingest that break what its comments promise. */
module MetricFailures {
  import opened Options
  import opened WalFrame
  import opened WalLog
  import opened Ingest
  import opened IngestConcerns
  import opened IngestVisibility
  import opened ViewConcerns
  import opened ExactVisibility
  import opened SelfClosing
  import opened RowCounter
  import opened Witness
  import FlushOrder
  import Seqs
  import Writer

  /** Segment numbers below this fit a position; each record starts at most one segment. */
  const SEGMENTS: nat := 0xFFFF_FFFD

  // ------------------------------------------------------------- building runs

  /** A run whose pushes fit, and where it ends. */
  ghost predicate Leads<V(!new)>(c: Config<V>, s: State<V>, steps: seq<Step<V>>, t: State<V>)
    requires Sound(c)
  {
    IsRun(c, s, steps) && IsQuietRun(c, s, steps) && t == RunFrom(c, s, steps)
  }

  lemma {:induction false} RunsJoin<V(!new)>(c: Config<V>, s: State<V>, a: seq<Step<V>>, t: State<V>, b: seq<Step<V>>,
                                             all: seq<Step<V>>)
    requires Sound(c) && all == a + b && IsRun(c, s, a) && t == RunFrom(c, s, a) && IsRun(c, t, b)
    ensures IsRun(c, s, all) && RunFrom(c, s, all) == RunFrom(c, t, b)
    decreases |a|
  {
    if a == [] {
      Seqs.EmptyLeft(b);
    } else {
      Seqs.ConcatHead(a, b, all);
      RunsJoin(c, Next(c, s, a[0]), a[1..], t, b, all[1..]);
    }
  }

  lemma {:induction false} QuietRunsJoin<V(!new)>(c: Config<V>, s: State<V>, a: seq<Step<V>>, t: State<V>,
                                                  b: seq<Step<V>>,
                                                  all: seq<Step<V>>)
    requires Sound(c) && all == a + b && IsRun(c, s, all) && Leads(c, s, a, t) && IsRun(c, t, b) && IsQuietRun(c, t, b)
    ensures IsQuietRun(c, s, all)
    decreases |a|
  {
    if a == [] {
      Seqs.EmptyLeft(b);
    } else {
      Seqs.ConcatHead(a, b, all);
      QuietRunsJoin(c, Next(c, s, a[0]), a[1..], t, b, all[1..]);
    }
  }

  lemma Joined<V(!new)>(c: Config<V>, s: State<V>, a: seq<Step<V>>, t: State<V>, b: seq<Step<V>>, u: State<V>)
    requires Sound(c) && Leads(c, s, a, t) && Leads(c, t, b, u)
    ensures Leads(c, s, a + b, u)
  {
    RunsJoin(c, s, a, t, b, a + b);
    QuietRunsJoin(c, s, a, t, b, a + b);
  }

  lemma Steps<V(!new)>(c: Config<V>, s: State<V>, step: Step<V>)
    requires Sound(c) && Enabled(c, s, step) && Quiet(c, s, step)
    ensures Leads(c, s, [step], Next(c, s, step))
  {
    var t := Next(c, s, step);
    assert [step][1..] == [];
    assert IsRun(c, t, []) && IsQuietRun(c, t, []) && RunFrom(c, t, []) == t;
  }

  lemma Extended<V(!new)>(c: Config<V>, s: State<V>, steps: seq<Step<V>>, t: State<V>, step: Step<V>)
    requires Sound(c) && Leads(c, s, steps, t) && Enabled(c, t, step) && Quiet(c, t, step)
    ensures Leads(c, s, steps + [step], Next(c, t, step))
  {
    Steps(c, t, step);
    Joined(c, s, steps, t, [step], Next(c, t, step));
  }

  // ------------------------------------------------------------- pushes too big

  /** The first push of a metric, up to where its writer takes over. */
  ghost function FirstLogged<V(!new)>(c: Config<V>, m: Metric<V>): State<V>
    requires Sound(c) && HEADER_LEN + |c.enc(m)| + 1 < SPAN
  {
    assert Enabled(c, Init(c), Log(m, true));
    DoLog(c, Init(c), m, true)
  }

  lemma FirstIsLogged<V(!new)>(c: Config<V>, m: Metric<V>)
    requires Sound(c) && HEADER_LEN + |c.enc(m)| + 1 < SPAN
    ensures var s, k := FirstLogged(c, m), c.route(m.name);
            Leads(c, Init(c), [Log(m, true)], s) && CanInsert(s, k) && s.shards[k].held == Some(0) &&
            s.shards[k].w == Writer.Writer([], c.capacity, 1) && |s.log| == 1 && s.log[0].metric == m
  {
    assert Enabled(c, Init(c), Log(m, true));
    Steps(c, Init(c), Log(m, true));
  }

  lemma FirstKeepsView<V(!new)>(c: Config<V>, m: Metric<V>)
    requires Sound(c) && HEADER_LEN + |c.enc(m)| + 1 < SPAN
    ensures var s := FirstLogged(c, m);
            HeldInv(c, s.shards, s.log, s.cursor) && WriterInv(c, s.shards) && Started(s.shards) &&
            SlotInv(c, s.buffer, s.shards) && SettledInv(s.shards, s.jobs, s.blocks, s.log)
  {
    FirstIsLogged(c, m);
    RunHasSlots(c, [Log(m, true)]);
  }

  /** A first push of more points than a block holds is acknowledged, and its last point
      cannot be seen right after. */
  lemma SelfClosingHidesTail<V(!new)>(c: Config<V>, m: Metric<V>)
    requires Sound(c) && HEADER_LEN + |c.enc(m)| + 1 < SPAN && c.capacity < |m.points| <= 2 * c.capacity
    ensures Leads(c, Init(c), [Log(m, true)], FirstLogged(c, m)) && CanInsert(FirstLogged(c, m), c.route(m.name))
    ensures var s := DoInsert(FirstLogged(c, m), c.route(m.name), 1);
            |s.log| == 1 && s.log[0].fate.Acked? && !Visible(s, m.name, Row(0, |m.points| - 1))
  {
    var s, k := FirstLogged(c, m), c.route(m.name);
    FirstIsLogged(c, m);
    FirstKeepsView(c, m);
    assert Writer.Push(s.shards[k].w, RowsOf(0, |m.points|), 1).ok by {
      Writer.PushOkIff(s.shards[k].w, RowsOf(0, |m.points|), 1);
    }
    LastIsHidden(c, s, k, 1);
  }

  /** A first push of more points than a block holds, whose block write fails, leaves open
      rows that the counter does not count. */
  lemma FailedPushMiscounts<V(!new)>(c: Config<V>, m: Metric<V>)
    requires Sound(c) && HEADER_LEN + |c.enc(m)| + 1 < SPAN && 0 < c.capacity < |m.points|
    ensures Leads(c, Init(c), [Log(m, true)], FirstLogged(c, m)) && CanInsert(FirstLogged(c, m), c.route(m.name))
    ensures var s := DoInsert(FirstLogged(c, m), c.route(m.name), 0); s.counter == 0 && Total(s.shards) == c.capacity
  {
    var s, k, rows := FirstLogged(c, m), c.route(m.name), RowsOf(0, |m.points|);
    FirstIsLogged(c, m);
    FlattenEmpty(OpenRows(s.shards));
    PushCounts(s.shards[k].w, rows, 0);
    Writer.PushOkIff(s.shards[k].w, rows, 0);
    TotalUpdate(s.shards, k, Shard(Writer.Push(s.shards[k].w, rows, 0).w, None));
  }

  /** The next swap takes the counter below zero. */
  lemma FailedPushUnderflows<V(!new)>(c: Config<V>, m: Metric<V>)
    requires Sound(c) && HEADER_LEN + |c.enc(m)| + 1 < SPAN && 0 < c.capacity < |m.points|
    ensures CanInsert(FirstLogged(c, m), c.route(m.name))
    ensures var s := DoInsert(FirstLogged(c, m), c.route(m.name), 0);
            Enabled(c, s, Swap) && DoSwap(s).counter + c.capacity == 0 && DoSwap(s).counter < 0
  {
    FirstIsLogged(c, m);
    FailedPushMiscounts(c, m);
    SwapEmpties(DoInsert(FirstLogged(c, m), c.route(m.name), 0));
  }

  // ---------------------------------------------------------- a flush at a time

  /** Nothing is open, and the log has room for `room` more bytes. */
  ghost predicate Idle<V(!new)>(c: Config<V>, s: State<V>, room: nat) {
    && |s.shards| == c.shards
    && (forall k | 0 <= k < |s.shards| ::
          s.shards[k].held == None && s.shards[k].w.rows == [] && s.shards[k].w.capacity == c.capacity &&
          s.shards[k].w.epoch >= 1)
    && |s.wal.segs| >= 1 && !s.wal.poisoned && s.wal.offset + room + 1 < SPAN && Current(s.wal) <= |s.log|
  }

  lemma InitIsIdle<V(!new)>(c: Config<V>, room: nat)
    requires Sound(c) && room + 1 < SPAN
    ensures Idle(c, Init(c), room)
  {
  }

  function PushSteps<V>(c: Config<V>, m: Metric<V>): seq<Step<V>> {
    [Log(m, true), Insert(c.route(m.name), 0), Swap]
  }

  lemma IdleIsLogged<V(!new)>(c: Config<V>, s: State<V>, m: Metric<V>, room: nat)
    requires Sound(c) && Idle(c, s, room + HEADER_LEN + |c.enc(m)|) && |s.log| < SEGMENTS
    ensures Enabled(c, s, Log(m, true))
    ensures var s', k := DoLog(c, s, m, true), c.route(m.name);
            CanInsert(s', k) && s'.shards == s.shards[k := s.shards[k].(held := Some(|s.log|))] &&
            |s'.log| == |s.log| + 1 && s'.log[..|s.log|] == s.log && s'.log[|s.log|].metric == m &&
            s'.jobs == s.jobs && s'.blocks == s.blocks && |s'.wal.segs| >= 1 && !s'.wal.poisoned &&
            s'.wal.offset + room + 1 < SPAN && Current(s'.wal) <= |s'.log|
  {
  }

  /** The metric's rows become flush `|s.jobs|`. */
  lemma OpenIsTaken<V(!new)>(s: State<V>, k: nat, row: Row)
    requires k < |s.shards| && row in s.shards[k].w.rows && |s.wal.segs| >= 1
    ensures var t := DoSwap(s);
            |t.jobs| == |s.jobs| + 1 && t.jobs[..|s.jobs|] == s.jobs && t.log == s.log && t.wal == s.wal &&
            t.blocks == s.blocks && t.shards == FreshShards(s.shards) &&
            var job := t.jobs[|s.jobs|];
            job.stage == Encoding && !job.failed && !job.indexed && row in job.rows && job.bounds == SealedAt(s.shards)
  {
    var open := OpenRows(s.shards);
    assert open[k] == s.shards[k].w.rows;
    Seqs.FlattenHas(open, row);
  }

  lemma PushedOpen<V(!new)>(c: Config<V>, s: State<V>, m: Metric<V>, room: nat) returns (t: State<V>)
    requires Sound(c) && Idle(c, s, room + HEADER_LEN + |c.enc(m)|) && 0 < |m.points| <= c.capacity &&
             |s.log| < SEGMENTS
    ensures Leads(c, s, [Log(m, true), Insert(c.route(m.name), 0)], t)
    ensures var k := c.route(m.name);
            t.shards == s.shards[k := Shard(s.shards[k].w.(rows := RowsOf(|s.log|, |m.points|)), None)]
    ensures |t.log| == |s.log| + 1 && t.log[..|s.log|] == s.log && t.log[|s.log|].metric == m &&
            t.log[|s.log|].fate.Acked?
    ensures t.jobs == s.jobs && t.blocks == s.blocks && |t.wal.segs| >= 1 && !t.wal.poisoned &&
            t.wal.offset + room + 1 < SPAN &&
            Current(t.wal) <= |t.log|
  {
    var k := c.route(m.name);
    IdleIsLogged(c, s, m, room);
    Steps(c, s, Log(m, true));
    var s1 := DoLog(c, s, m, true);
    Extended(c, s, [Log(m, true)], s1, Insert(k, 0));
    assert [Log(m, true)] + [Insert(k, 0)] == [Log(m, true), Insert(k, 0)];
    QuietInsert(c, s1, k, 0);
    Seqs.EmptyLeft(RowsOf(|s.log|, |m.points|));
    t := DoInsert(s1, k, 0);
  }

  /** A metric is pushed and swapped out. */
  lemma PushedAndTaken<V(!new)>(c: Config<V>, s: State<V>, m: Metric<V>, room: nat) returns (t: State<V>)
    requires Sound(c) && Idle(c, s, room + HEADER_LEN + |c.enc(m)|) && 0 < |m.points| <= c.capacity &&
             |s.log| < SEGMENTS
    ensures Leads(c, s, PushSteps(c, m), t) && Idle(c, t, room)
    ensures |t.log| == |s.log| + 1 && t.log[..|s.log|] == s.log && t.log[|s.log|].metric == m &&
            t.log[|s.log|].fate.Acked?
    ensures |t.jobs| == |s.jobs| + 1 && t.jobs[..|s.jobs|] == s.jobs && t.blocks == s.blocks
    ensures var job, k := t.jobs[|s.jobs|], c.route(m.name);
            job.stage == Encoding && !job.failed && !job.indexed && Row(|s.log|, 0) in job.rows &&
            k < |job.bounds| && 0 < job.bounds[k]
  {
    var k, i := c.route(m.name), |s.log|;
    var s2 := PushedOpen(c, s, m, room);
    assert RowsOf(i, |m.points|)[0] == Row(i, 0);
    OpenIsTaken(s2, k, Row(i, 0));
    Extended(c, s, [Log(m, true), Insert(k, 0)], s2, Swap);
    assert [Log(m, true), Insert(k, 0)] + [Swap] == PushSteps(c, m);
    t := DoSwap(s2);
  }

  function EncodeSteps<V>(j: nat, ok: bool): seq<Step<V>> {
    if ok then [Encode(j, true), Index(j, false)] else [Encode(j, false)]
  }

  /** The flush has passed its encode, one way or the other, and was not acknowledged. */
  lemma Encoded<V(!new)>(c: Config<V>, s: State<V>, j: nat, ok: bool) returns (t: State<V>)
    requires Sound(c) && j < |s.jobs| && s.jobs[j].stage == Encoding
    ensures Leads(c, s, EncodeSteps(j, ok), t)
    ensures t.jobs == s.jobs[j := s.jobs[j].(stage := Releasing, failed := if ok then s.jobs[j].failed else true)]
    ensures t.shards == s.shards && t.wal == s.wal && t.log == s.log && (!ok ==> t.blocks == s.blocks)
  {
    Steps(c, s, Encode(j, ok));
    t := DoEncode(s, j, ok);
    if ok {
      Extended(c, s, [Encode(j, true)], t, Index(j, false));
      assert [Encode(j, true)] + [Index(j, false)] == EncodeSteps<V>(j, ok);
      t := DoIndex(t, j, false);
    }
  }

  function DropSteps<V>(j: nat): seq<Step<V>> {
    [Release(j), Drop(j)]
  }

  lemma Dropped<V(!new)>(c: Config<V>, s: State<V>, j: nat) returns (t: State<V>)
    requires Sound(c) && j < |s.jobs| && s.jobs[j].stage == Releasing
    ensures Leads(c, s, DropSteps(j), t)
    ensures t.jobs == s.jobs[j := s.jobs[j].(stage := Done)]
    ensures t.shards == s.shards && t.wal == s.wal && t.log == s.log && t.blocks == s.blocks
  {
    Steps(c, s, Release(j));
    t := DoRelease(s, j);
    Extended(c, s, [Release(j)], t, Drop(j));
    assert [Release(j)] + [Drop(j)] == DropSteps<V>(j);
    t := DoDrop(t, j);
  }

  function FlushSteps<V>(c: Config<V>, m: Metric<V>, j: nat, ok: bool): seq<Step<V>> {
    PushSteps(c, m) + EncodeSteps(j, ok) + DropSteps(j)
  }

  /** One metric from push to drop, with an encode that succeeds or fails and no
      acknowledgement from the index. */
  lemma Flushed<V(!new)>(c: Config<V>, s: State<V>, m: Metric<V>, ok: bool, room: nat) returns (t: State<V>)
    requires Sound(c) && Idle(c, s, room + HEADER_LEN + |c.enc(m)|) && 0 < |m.points| <= c.capacity &&
             |s.log| < SEGMENTS
    ensures Leads(c, s, FlushSteps(c, m, |s.jobs|, ok), t) && Idle(c, t, room)
    ensures |t.log| == |s.log| + 1 && t.log[..|s.log|] == s.log && t.log[|s.log|].metric == m &&
            t.log[|s.log|].fate.Acked?
    ensures |t.jobs| == |s.jobs| + 1 && t.jobs[..|s.jobs|] == s.jobs
    ensures var job, k := t.jobs[|s.jobs|], c.route(m.name);
            job.stage == Done && job.failed == !ok && !job.indexed && Row(|s.log|, 0) in job.rows &&
            k < |job.bounds| && 0 < job.bounds[k]
  {
    var j := |s.jobs|;
    var a := PushedAndTaken(c, s, m, room);
    var b := Encoded(c, a, j, ok);
    Joined(c, s, PushSteps(c, m), a, EncodeSteps(j, ok), b);
    t := Dropped(c, b, j);
    Joined(c, s, PushSteps(c, m) + EncodeSteps(j, ok), b, DropSteps(j), t);
  }

  /** When every flush is done the drop order has passed them all. */
  lemma DoneFrontier(drop: FlushOrder.Queue<seq<nat>>, jobs: seq<Job>)
    requires DropInv(drop, jobs) && forall j | 0 <= j < |jobs| :: jobs[j].stage == Done
    ensures drop.frontier == |jobs|
  {
    FrontierInRange(drop, jobs);
    assert drop.frontier !in ReleasedJobs(jobs);
  }

  lemma AllDone<V(!new)>(c: Config<V>, steps: seq<Step<V>>, s: State<V>)
    requires Sound(c) && Leads(c, Init(c), steps, s) && forall j | 0 <= j < |s.jobs| :: s.jobs[j].stage == Done
    ensures s.order.drop.frontier == |s.jobs|
  {
    assert DropInv(s.order.drop, s.jobs) by {
      RunFromStart(c, steps);
    }
    DoneFrontier(s.order.drop, s.jobs);
  }

  function FailedThenFlushed<V>(c: Config<V>, m: Metric<V>): seq<Step<V>> {
    FlushSteps(c, m, 0, false) + FlushSteps(c, m, 1, true)
  }

  lemma FailsThenFlushes<V(!new)>(c: Config<V>, m: Metric<V>) returns (s: State<V>)
    requires Sound(c) && 2 * (HEADER_LEN + |c.enc(m)|) + 1 < SPAN && 0 < |m.points| <= c.capacity
    ensures Leads(c, Init(c), FailedThenFlushed(c, m), s)
    ensures |s.log| == 2 && s.log[0].metric == m && s.log[0].fate.Acked?
    ensures |s.jobs| == 2 && s.jobs[0].stage == Done && s.jobs[1].stage == Done
    ensures s.jobs[0].failed && Row(0, 0) in s.jobs[0].rows
    ensures var k := c.route(m.name); !s.jobs[1].failed && k < |s.jobs[1].bounds| && 0 < s.jobs[1].bounds[k]
  {
    var n := HEADER_LEN + |c.enc(m)|;
    InitIsIdle(c, 2 * n);
    var a := Flushed(c, Init(c), m, false, n);
    s := Flushed(c, a, m, true, 0);
    Joined(c, Init(c), FlushSteps(c, m, 0, false), a, FlushSteps(c, m, 1, true), s);
    assert s.jobs[0] == s.jobs[..1][0] && s.log[0] == s.log[..1][0];
  }

  /** Two pushes of a metric, flushed one after the other. The first encode fails, the
      second succeeds: the first push, still acknowledged, is gone from the buffer and in
      no block. */
  lemma FailedFlushIsDropped<V(!new)>(c: Config<V>, m: Metric<V>) returns (s: State<V>)
    requires Sound(c) && 2 * (HEADER_LEN + |c.enc(m)|) + 1 < SPAN && 0 < |m.points| <= c.capacity
    ensures Leads(c, Init(c), FailedThenFlushed(c, m), s)
    ensures |s.log| == 2 && s.log[0].metric == m && s.log[0].fate.Acked? && !Visible(s, m.name, Row(0, 0))
  {
    s := FailsThenFlushes(c, m);
    AllDone(c, FailedThenFlushed(c, m), s);
    assert HiddenByFailure(s.jobs, s.order.drop.frontier, c.route(m.name), Row(0, 0));
    SettledVisibleIff(c, FailedThenFlushed(c, m), s, 0, 0);
  }

  /** One push whose encode succeeds but is not acknowledged in time: its points are
      dropped from the buffer although the index never reported them. */
  lemma UnacknowledgedIsDropped<V(!new)>(c: Config<V>, m: Metric<V>) returns (s: State<V>)
    requires Sound(c) && HEADER_LEN + |c.enc(m)| + 1 < SPAN && 0 < |m.points| <= c.capacity
    ensures Leads(c, Init(c), FlushSteps(c, m, 0, true), s)
    ensures |s.log| == 1 && s.log[0].metric == m && s.log[0].fate.Acked? &&
            !InBuffer(s, m.name, Row(0, 0)) && !IndexKnows(s, Row(0, 0))
  {
    InitIsIdle(c, HEADER_LEN + |c.enc(m)|);
    s := Flushed(c, Init(c), m, true, 0);
    AllDone(c, FlushSteps(c, m, 0, true), s);
    assert SealedFrom(s.jobs, s.order.drop.frontier, c.route(m.name), 0);
    assert HiddenUnindexed(s.jobs, s.order.drop.frontier, c.route(m.name), Row(0, 0));
    KnownIffAcknowledged(c, FlushSteps(c, m, 0, true), s, 0, 0);
  }

  // ---------------------------------------------- hidden by another push's block

  /** A first record is flushed, in whatever state, but in no block, and nothing is open. */
  ghost predicate Unwritten<V(!new)>(c: Config<V>, steps: seq<Step<V>>, s: State<V>, room: nat)
    requires Sound(c)
  {
    IsRun(c, Init(c), steps) && s == RunFrom(c, Init(c), steps) && Idle(c, s, room) && s.blocks == [] && |s.log| == 1
  }

  function BigSteps<V>(c: Config<V>, big: Metric<V>): seq<Step<V>> {
    [Log(big, true), Insert(c.route(big.name), 1)]
  }

  /** No block that the second push closes holds the first record. */
  lemma OthersUnpublished<V(!new)>(s: State<V>, k: nat, writes: nat, row: Row)
    requires CanInsert(s, k) && s.shards[k].w.rows == [] && s.blocks == [] && s.shards[k].held.value != row.rec
    ensures !Published(DoInsert(s, k, writes), row)
  {
    var i, s' := s.shards[k].held.value, DoInsert(s, k, writes);
    var w, rows := s.shards[k].w, RowsOf(i, |s.log[i].metric.points|);
    forall b | 0 <= b < |s'.blocks| ensures row !in s'.blocks[b].rows {
      assert s'.blocks[b].rows == Closing(s, k, writes).closed[b];
      if row in s'.blocks[b].rows {
        ClosedIsPushed(w, rows, writes, row);
      }
    }
  }

  /** A later push of the shard that closes a block, and is acknowledged, hides it. */
  lemma HiddenByClosing<V(!new)>(c: Config<V>, steps: seq<Step<V>>, s: State<V>, big: Metric<V>, name: string, x: nat)
    returns (z: State<V>)
    requires Sound(c) && Unwritten(c, steps, s, HEADER_LEN + |c.enc(big)|) && c.route(name) == c.route(big.name)
    requires c.capacity < |big.points| <= 2 * c.capacity
    ensures IsRun(c, Init(c), steps + BigSteps(c, big)) && z == RunFrom(c, Init(c), steps + BigSteps(c, big))
    ensures z.jobs == s.jobs && |z.log| == 2 && z.log[0] == s.log[0] && z.log[1].fate.Acked?
    ensures !Visible(z, name, Row(0, x))
  {
    var k := c.route(big.name);
    IdleIsLogged(c, s, big, 0);
    var u := DoLog(c, s, big, true);
    Steps(c, s, Log(big, true));
    RunsJoin(c, Init(c), steps, s, [Log(big, true)], steps + [Log(big, true)]);
    assert Writer.Push(u.shards[k].w, RowsOf(1, |big.points|), 1).ok by {
      Writer.PushOkIff(u.shards[k].w, RowsOf(1, |big.points|), 1);
    }
    z := DoInsert(u, k, 1);
    OnlyPublishedIsVisible(c, steps + [Log(big, true)], u, k, 1, name, Row(0, x));
    OthersUnpublished(u, k, 1, Row(0, x));
    LastStep(c, steps + [Log(big, true)], u, Insert(k, 1));
    assert steps + [Log(big, true)] + [Insert(k, 1)] == steps + BigSteps(c, big);
  }

  lemma LastStep<V(!new)>(c: Config<V>, steps: seq<Step<V>>, s: State<V>, step: Step<V>)
    requires Sound(c) && IsRun(c, Init(c), steps) && s == RunFrom(c, Init(c), steps) && Enabled(c, s, step)
    ensures IsRun(c, Init(c), steps + [step]) && RunFrom(c, Init(c), steps + [step]) == Next(c, s, step)
  {
    var t := Next(c, s, step);
    assert [step][1..] == [];
    assert IsRun(c, t, []) && RunFrom(c, t, []) == t;
    RunsJoin(c, Init(c), steps, s, [step], steps + [step]);
  }

  /** Nothing has failed: while the first flush is still encoding, a second push that closes
      a block hides the first, which is then neither in the buffer nor in any block. */
  lemma EncodingIsHidden<V(!new)>(c: Config<V>, m: Metric<V>, big: Metric<V>) returns (z: State<V>)
    requires Sound(c) && 2 * HEADER_LEN + |c.enc(m)| + |c.enc(big)| + 1 < SPAN && c.route(m.name) == c.route(big.name)
    requires 0 < |m.points| <= c.capacity < |big.points| <= 2 * c.capacity
    ensures IsRun(c, Init(c), PushSteps(c, m) + BigSteps(c, big))
    ensures z == RunFrom(c, Init(c), PushSteps(c, m) + BigSteps(c, big))
    ensures |z.jobs| == 1 && z.jobs[0].stage == Encoding && !z.jobs[0].failed
    ensures |z.log| == 2 && z.log[0].metric == m && z.log[0].fate.Acked? && z.log[1].fate.Acked?
    ensures !Visible(z, m.name, Row(0, 0))
  {
    var n := HEADER_LEN + |c.enc(big)|;
    InitIsIdle(c, n + HEADER_LEN + |c.enc(m)|);
    var s := PushedAndTaken(c, Init(c), m, n);
    z := HiddenByClosing(c, PushSteps(c, m), s, big, m.name, 0);
  }

  function FailedSteps<V>(c: Config<V>, m: Metric<V>): seq<Step<V>> {
    PushSteps(c, m) + EncodeSteps(0, false) + DropSteps(0)
  }

  /** A failed flush's points go with the next block its shard closes, without any later
      flush. */
  lemma FailedIsHiddenByClosing<V(!new)>(c: Config<V>, m: Metric<V>, big: Metric<V>) returns (z: State<V>)
    requires Sound(c) && 2 * HEADER_LEN + |c.enc(m)| + |c.enc(big)| + 1 < SPAN && c.route(m.name) == c.route(big.name)
    requires 0 < |m.points| <= c.capacity < |big.points| <= 2 * c.capacity
    ensures IsRun(c, Init(c), FailedSteps(c, m) + BigSteps(c, big))
    ensures z == RunFrom(c, Init(c), FailedSteps(c, m) + BigSteps(c, big))
    ensures |z.jobs| == 1 && z.jobs[0].failed
    ensures |z.log| == 2 && z.log[0].metric == m && z.log[0].fate.Acked? && z.log[1].fate.Acked?
    ensures !Visible(z, m.name, Row(0, 0))
  {
    var n := HEADER_LEN + |c.enc(big)|;
    InitIsIdle(c, n + HEADER_LEN + |c.enc(m)|);
    var a := PushedAndTaken(c, Init(c), m, n);
    var b := Encoded(c, a, 0, false);
    Joined(c, Init(c), PushSteps(c, m), a, EncodeSteps(0, false), b);
    var s := Dropped(c, b, 0);
    Joined(c, Init(c), PushSteps(c, m) + EncodeSteps(0, false), b, DropSteps(0), s);
    z := HiddenByClosing(c, FailedSteps(c, m), s, big, m.name, 0);
  }

  /** A service with one shard and blocks of one point, pushed a metric of one or two
      points, meets the conditions of all these runs. */
  lemma TinyService(crc: Checksum, n: nat)
    requires 1 <= n <= 2
    ensures var c, m := Unrouted(1, 1, 1, crc), Metric("", Points(n));
            Sound(c) && 2 * (HEADER_LEN + |c.enc(m)|) + 1 < SPAN && |m.points| == n * c.capacity
  {
    SoundConfigExists(1, 1, 1, crc);
    ShortPayload(n);
  }
}

/** Runs of the log and trace ingest that break what its comments promise. */
module SerialFailures {
  import opened Options
  import opened WalFrame
  import opened WalLog
  import opened SerialIngest
  import opened SerialRecovery

  /** Segment numbers below this fit a position; each record starts at most one segment. */
  const SEGMENTS: nat := 0xFFFF_FFFD

  ghost predicate Leads(c: Config, s: State, steps: seq<Step>, t: State) {
    IsRun(c, s, steps) && t == RunFrom(c, s, steps)
  }

  lemma {:induction false} Extended(c: Config, s: State, steps: seq<Step>, t: State, step: Step)
    requires Leads(c, s, steps, t) && Enabled(c, t, step)
    ensures Leads(c, s, steps + [step], Next(c, t, step))
    decreases |steps|
  {
    if steps == [] {
      var u := Next(c, t, step);
      assert [] + [step] == [step] && [step][1..] == [];
      assert IsRun(c, u, []) && RunFrom(c, u, []) == u;
    } else {
      Extended(c, Next(c, s, steps[0]), steps[1..], t, step);
      assert (steps + [step])[0] == steps[0] && (steps + [step])[1..] == steps[1..] + [step];
    }
  }

  /** A first batch larger than a block, whose block write fails, leaves rows in the buffer
      that no writer took. */
  lemma FailedWriteMisaligns(c: Config, ps: seq<Bytes>)
    requires AllFramable(ps) && |Framed(c.crc, ps)| + 1 < SPAN && |ps| > c.capacity
    ensures Enabled(c, Init(c), Push(ps, 0)) && !Aligned(DoPush(c, Init(c), ps, 0))
  {
    assert Enabled(c, Init(c), Push(ps, 0));
    PushAligns(c, Init(c), ps, 0);
  }

  // ---------------------------------------------------------- a flush at a time

  /** Nothing is open or in flight, and the log has room for `room` more bytes. */
  ghost predicate Idle(s: State, room: nat) {
    && s.flight == None && s.writer == []
    && |s.wal.segs| >= 1 && !s.wal.poisoned && s.wal.offset + room + 1 < SPAN && Current(s.wal) <= |s.log|
  }

  /** A batch of one row is logged and taken. */
  lemma OneIsPushed(c: Config, s: State, p: Bytes, room: nat)
    requires c.capacity >= 1 && Framable(p) && Idle(s, room + HEADER_LEN + |p|) && |s.log| < SEGMENTS
    ensures Enabled(c, s, Push([p], 0))
    ensures var t := DoPush(c, s, [p], 0);
            t.writer == [|s.log|] && Idle(t.(writer := []), room) &&
            |t.log| == |s.log| + 1 && t.log[..|s.log|] == s.log && t.log[|s.log|].acked &&
            Position(s.wal) < t.log[|s.log|].pos == t.covered <= Position(t.wal) &&
            t.pieces == s.pieces && t.commit == s.commit
  {
    var ps, f := [p], Framed(c.crc, [p]);
    assert |f| == HEADER_LEN + |p| by {
      assert ps[1..] == [] && f == Frame(c.crc, p) + Framed(c.crc, []);
    }
    var ids := NewRows(|s.log|, 1);
    assert ids == [|s.log|];
    PushRowsFit([], c.capacity, ids, 0);
    PushRowsConserves([], c.capacity, ids, 0);
    NewEntriesBounds(c.crc, s.wal, f, ps);
  }

  /** And becomes the flush in flight. */
  lemma Started(c: Config, s: State, p: Bytes, room: nat) returns (t: State)
    requires c.capacity >= 1 && Framable(p) && Idle(s, room + HEADER_LEN + |p|) && |s.log| < SEGMENTS
    ensures Leads(c, s, [Push([p], 0), Start], t) && Idle(t.(flight := None), room)
    ensures |t.log| == |s.log| + 1 && t.log[..|s.log|] == s.log && t.log[|s.log|].acked
    ensures t.flight.Some? && t.flight.value.rows == [|s.log|] && t.flight.value.stage == Encoding
    ensures Position(s.wal) < t.log[|s.log|].pos == t.flight.value.range.to <= Position(t.wal)
    ensures t.pieces == s.pieces && t.commit == s.commit
  {
    OneIsPushed(c, s, p, room);
    var s1 := DoPush(c, s, [p], 0);
    assert IsRun(c, s, []) && RunFrom(c, s, []) == s;
    Extended(c, s, [], s, Push([p], 0));
    assert [] + [Push([p], 0)] == [Push([p], 0)];
    Extended(c, s, [Push([p], 0)], s1, Start);
    assert [Push([p], 0)] + [Start] == [Push([p], 0), Start];
    t := DoStart(s1);
  }

  function FailSteps(p: Bytes): seq<Step> {
    [Push([p], 0), Start, Encode(false), Drop]
  }

  function CommitSteps(p: Bytes): seq<Step> {
    [Push([p], 0), Start, Encode(true), Index(true), Commit(true, 0)]
  }

  lemma {:induction false} Joined(c: Config, s: State, a: seq<Step>, t: State, b: seq<Step>, u: State)
    requires Leads(c, s, a, t) && Leads(c, t, b, u)
    ensures Leads(c, s, a + b, u)
    decreases |a|
  {
    if a == [] {
      assert a + b == b;
    } else {
      Joined(c, Next(c, s, a[0]), a[1..], t, b, u);
      assert (a + b)[0] == a[0] && (a + b)[1..] == a[1..] + b;
    }
  }

  /** A flush whose encode fails. */
  lemma Fails(c: Config, s: State, p: Bytes, room: nat) returns (t: State)
    requires c.capacity >= 1 && Framable(p) && Idle(s, room + HEADER_LEN + |p|) && |s.log| < SEGMENTS
    ensures Leads(c, s, FailSteps(p), t) && Idle(t, room)
    ensures |t.log| == |s.log| + 1 && t.log[..|s.log|] == s.log && t.log[|s.log|].acked &&
            t.log[|s.log|].pos <= Position(t.wal)
    ensures |t.pieces| == |s.pieces| + 1 && t.pieces[|s.pieces|].rows == [|s.log|] && !t.pieces[|s.pieces|].onDisk
  {
    var a := Started(c, s, p, room);
    var b := DoEncode(a, false);
    Extended(c, s, [Push([p], 0), Start], a, Encode(false));
    assert [Push([p], 0), Start] + [Encode(false)] == [Push([p], 0), Start, Encode(false)];
    Extended(c, s, [Push([p], 0), Start, Encode(false)], b, Drop);
    assert [Push([p], 0), Start, Encode(false)] + [Drop] == FailSteps(p);
    t := DoDrop(b);
  }

  /** A flush that is committed. */
  lemma Commits(c: Config, s: State, p: Bytes) returns (t: State)
    requires c.capacity >= 1 && Framable(p) && Idle(s, HEADER_LEN + |p|) && |s.log| < SEGMENTS
    ensures Leads(c, s, CommitSteps(p), t)
    ensures |t.log| == |s.log| + 1 && t.log[..|s.log|] == s.log
    ensures |s.pieces| <= |t.pieces| && t.pieces[..|s.pieces|] == s.pieces && Position(s.wal) < t.commit
  {
    var a := Started(c, s, p, 0);
    var b := DoEncode(a, true);
    Extended(c, s, [Push([p], 0), Start], a, Encode(true));
    assert [Push([p], 0), Start] + [Encode(true)] == [Push([p], 0), Start, Encode(true)];
    Extended(c, s, [Push([p], 0), Start, Encode(true)], b, Index(true));
    assert [Push([p], 0), Start, Encode(true)] + [Index(true)] == [Push([p], 0), Start, Encode(true), Index(true)];
    var d := DoIndex(b, true);
    Extended(c, s, [Push([p], 0), Start, Encode(true), Index(true)], d, Commit(true, 0));
    assert [Push([p], 0), Start, Encode(true), Index(true)] + [Commit(true, 0)] == CommitSteps(p);
    t := DoCommit(d, true, 0);
  }

  /** Two batches of one row. The first flush fails to encode, the second is committed: a
      crash then loses the first row, which was acknowledged. */
  lemma FailedFlushIsLost(c: Config, p: Bytes) returns (s: State)
    requires c.capacity >= 1 && 2 * (HEADER_LEN + |p|) + 1 < SPAN
    ensures Leads(c, Init(c), FailSteps(p) + CommitSteps(p), s)
    ensures |s.log| == 2 && s.log[0].acked && Lost(c, s, 0)
  {
    var a := Fails(c, Init(c), p, HEADER_LEN + |p|);
    s := Commits(c, a, p);
    Joined(c, Init(c), FailSteps(p), a, CommitSteps(p), s);
    assert s.log[0] == s.log[..1][0] && s.pieces[0] == s.pieces[..1][0];
    assert InFailedFlush(s.pieces, 0);
    LostIffFailedAndCommitted(c, FailSteps(p) + CommitSteps(p), s, 0);
  }
}

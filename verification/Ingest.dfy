/** The metric ingest protocol as a state machine.

    A push takes its shard's lock, logs the metric, then feeds the buffer and the
    shard's writer and is acknowledged. A flush takes every shard's lock, swaps all
    writers at once and numbers itself. Encodes then finish in any order and may
    fail, the index may or may not acknowledge a block in time, and commits and
    buffer drops follow the flush order. Every lock-protected section is one step. */
module Ingest {
  import opened Options
  import opened WalFrame
  import opened WalLog
  import opened Coverage
  import FlushOrder
  import Writer
  import Seqs
  import MB = MemoryBuffer

  datatype Metric<V> = Metric(name: string, points: seq<V>)

  /** What the service is configured with: shard routing, the payload codec and the
      checksum are parameters of the model. */
  datatype Config<!V> = Config(
    shards: nat, capacity: nat, limit: nat,
    route: string -> nat,
    crc: Checksum,
    enc: Metric<V> -> Bytes,
    dec: Bytes -> Option<Metric<V>>)

  ghost predicate Sound<V(!new)>(c: Config<V>) {
    && 1 <= c.shards <= 256
    && (forall name :: c.route(name) < c.shards)
    && (forall m :: c.dec(c.enc(m)) == Some(m))
  }

  /** A point, named by the record it arrived in and its place there. */
  datatype Row = Row(rec: nat, idx: nat)

  function RowsOf(rec: nat, n: nat): (rows: seq<Row>)
    ensures |rows| == n && forall k | 0 <= k < n :: rows[k] == Row(rec, k)
  {
    seq(n, k requires 0 <= k < n => Row(rec, k))
  }

  datatype Tagged = Tagged(row: Row, tag: MB.Tag)

  /** A record that reached the log: waiting for its writer, acknowledged into a
      writer generation, or refused after it was logged. */
  datatype Fate = Pending | Acked(epoch: nat) | Refused

  datatype Logged<V> = Logged(pos: nat, metric: Metric<V>, fate: Fate)

  /** A writer and, while its lock is held by a push, the record being pushed. */
  datatype Shard = Shard(w: Writer.Writer<Row>, held: Option<nat>)

  /** A block on disk; only those the index was told of are published. Blocks that a
      writer closed by itself carry no log range. */
  datatype Block = Block(range: Option<Range>, rows: seq<Row>, published: bool)

  datatype Stage =
    | Encoding
    | AwaitIndex
    | Committing(release: Option<nat>)
    | Releasing
    | Dropping(upTo: Option<seq<nat>>)
    | Done

  datatype Job = Job(range: Range, bounds: seq<nat>, rows: seq<Row>, stage: Stage, failed: bool, indexed: bool)

  predicate OnDisk(j: Job) {
    !j.failed && !j.stage.Encoding?
  }

  datatype State<V> = State(
    wal: Wal, commit: nat, blocks: seq<Block>,
    shards: seq<Shard>, counter: int,
    order: FlushOrder.Order, cursor: nat, jobs: seq<Job>,
    buffer: map<string, seq<Tagged>>,
    log: seq<Logged<V>>)

  datatype Step<V> =
    | Log(metric: Metric<V>, synced: bool)
    | LogFail(metric: Metric<V>, written: nat)
    | Insert(shard: nat, writes: nat)
    | Swap
    | Encode(job: nat, ok: bool)
    | Index(job: nat, acked: bool)
    | Commit(job: nat, ok: bool, removed: nat)
    | Release(job: nat)
    | Drop(job: nat)

  function Init<V>(c: Config<V>): State<V> {
    State(
      Open(0, [], c.limit), START, [],
      seq(c.shards, _ => Shard(Writer.Writer([], c.capacity, 1), None)), 0,
      FlushOrder.EMPTY, START, [],
      map[], [])
  }

  // ---------------------------------------------------------------- the steps

  /** The payload's length fits its header field and the position encoding. */
  ghost predicate FitsLog<V(!new)>(c: Config<V>, s: State<V>, m: Metric<V>)
    requires Sound(c)
  {
    Framable(c.enc(m)) && |s.wal.segs| >= 1 && Fits(s.wal, Frame(c.crc, c.enc(m))) &&
    (Current(s.wal) + 2) * SPAN <= U64_MAX
  }

  /** The shard's lock is held for a logged record. */
  predicate CanInsert<V>(s: State<V>, k: nat) {
    k < |s.shards| && s.shards[k].held.Some? && s.shards[k].held.value < |s.log|
  }

  ghost predicate Enabled<V(!new)>(c: Config<V>, s: State<V>, step: Step<V>)
    requires Sound(c)
  {
    match step
    case Log(m, _) =>
      !s.wal.poisoned && FitsLog(c, s, m) &&
      c.route(m.name) < |s.shards| && s.shards[c.route(m.name)].held == None
    case LogFail(m, written) =>
      !s.wal.poisoned && FitsLog(c, s, m) && written < |Frame(c.crc, c.enc(m))| &&
      c.route(m.name) < |s.shards| && s.shards[c.route(m.name)].held == None
    case Insert(k, _) => CanInsert(s, k)
    case Swap =>
      |s.wal.segs| >= 1 && forall k | 0 <= k < |s.shards| :: s.shards[k].held == None
    case Encode(j, _) => j < |s.jobs| && s.jobs[j].stage == Encoding
    case Index(j, _) => j < |s.jobs| && s.jobs[j].stage == AwaitIndex
    case Commit(j, _, removed) =>
      j < |s.jobs| && s.jobs[j].stage.Committing? && |s.wal.segs| >= 1 && s.wal.offset + 1 < SPAN &&
      removed <= Position(s.wal) &&
      (s.jobs[j].stage.release.Some? ==> removed <= s.jobs[j].stage.release.value)
    case Release(j) => j < |s.jobs| && s.jobs[j].stage == Releasing
    case Drop(j) => j < |s.jobs| && s.jobs[j].stage.Dropping?
  }

  /** Logged under the shard lock, so log order and writer order agree. When the
      bytes are written but syncing them fails, the push is refused there. */
  ghost function DoLog<V(!new)>(c: Config<V>, s: State<V>, m: Metric<V>, synced: bool): State<V>
    requires Sound(c) && Enabled(c, s, Log(m, synced))
  {
    var k, f := c.route(m.name), Frame(c.crc, c.enc(m));
    s.(wal := Append(s.wal, f),
       log := s.log + [Logged(AppendPos(s.wal, f), m, if synced then Pending else Refused)],
       shards := if synced then s.shards[k := s.shards[k].(held := Some(|s.log|))] else s.shards)
  }

  function Buffered(buffer: map<string, seq<Tagged>>, name: string): seq<Tagged> {
    if name in buffer then buffer[name] else []
  }

  function TagAll(rows: seq<Row>, tag: MB.Tag): (ts: seq<Tagged>)
    ensures |ts| == |rows| && forall i | 0 <= i < |rows| :: ts[i] == Tagged(rows[i], tag)
  {
    seq(|rows|, i requires 0 <= i < |rows| => Tagged(rows[i], tag))
  }

  function TagsOf(ts: seq<Tagged>): (tags: seq<MB.Tag>)
    ensures |tags| == |ts|
  {
    seq(|ts|, i requires 0 <= i < |ts| => ts[i].tag)
  }

  /** Each metric's longest prefix of points with covered epochs goes. */
  function DropBuffered(buffer: map<string, seq<Tagged>>, bounds: seq<nat>): map<string, seq<Tagged>> {
    if forall i | 0 <= i < |bounds| :: bounds[i] == 0 then buffer
    else map name | name in buffer :: buffer[name][MB.DropLen(TagsOf(buffer[name]), bounds)..]
  }

  function Only(n: nat, k: nat, bound: nat): (v: seq<nat>)
    ensures |v| == n
  {
    seq(n, i => if i == k then bound else 0)
  }

  function SaturatingPred(n: nat): nat {
    if n == 0 then 0 else n - 1
  }

  function Closed(blocks: seq<seq<Row>>, published: bool): (bs: seq<Block>)
    ensures |bs| == |blocks|
  {
    seq(|blocks|, i requires 0 <= i < |blocks| => Block(None, blocks[i], published))
  }

  /** The rest of a push, still under the shard lock: the buffer is fed with the
      writer's epoch, the writer takes the points and may close blocks by itself,
      and the record is acknowledged. When a block write fails the push is refused:
      blocks already written are on disk but nobody is told, and the counter is not
      touched. */
  function DoInsert<V>(s: State<V>, k: nat, writes: nat): State<V>
    requires CanInsert(s, k)
  {
    var i := s.shards[k].held.value;
    var m := s.log[i].metric;
    var w := s.shards[k].w;
    var rows := RowsOf(i, |m.points|);
    var fed := if rows == [] then s.buffer
      else s.buffer[m.name := Buffered(s.buffer, m.name) + TagAll(rows, MB.Tag(k, w.epoch))];
    var r := Writer.Push(w, rows, writes);
    s.(shards := s.shards[k := Shard(r.w, None)],
       blocks := s.blocks + Closed(r.closed, r.ok),
       buffer :=
         if r.ok && r.closed != [] then DropBuffered(fed, Only(|s.shards|, k, SaturatingPred(r.w.epoch))) else fed,
       counter := if r.ok then s.counter + |rows| - |Seqs.Flatten(r.closed)| else s.counter,
       log := s.log[i := s.log[i].(fate := if r.ok then Acked(w.epoch) else Refused)])
  }

  function OpenRows(shards: seq<Shard>): (rs: seq<seq<Row>>)
    ensures |rs| == |shards| && forall k | 0 <= k < |shards| :: rs[k] == shards[k].w.rows
  {
    seq(|shards|, k requires 0 <= k < |shards| => shards[k].w.rows)
  }

  /** The epoch each flushed shard is sealed at; 0 for a shard with nothing open. */
  function SealedAt(shards: seq<Shard>): (v: seq<nat>)
    ensures |v| == |shards|
  {
    seq(|shards|, k requires 0 <= k < |shards| => if shards[k].w.rows == [] then 0 else shards[k].w.epoch)
  }

  /** A flushed shard starts over in the next epoch. */
  function FreshShard(sh: Shard): Shard {
    if sh.w.rows == [] then sh else sh.(w := sh.w.(rows := [], epoch := sh.w.epoch + 1))
  }

  function FreshShards(shards: seq<Shard>): (ss: seq<Shard>)
    ensures |ss| == |shards| && forall k | 0 <= k < |shards| :: ss[k] == FreshShard(shards[k])
  {
    seq(|shards|, k requires 0 <= k < |shards| => FreshShard(shards[k]))
  }

  /** With every shard lock held, all open writers are taken at one instant and the
      log position read there ends this flush's range. */
  function DoSwap<V>(s: State<V>): State<V>
    requires |s.wal.segs| >= 1
  {
    var rows := Seqs.Flatten(OpenRows(s.shards));
    if rows == [] then s
    else
      var covered := Position(s.wal);
      s.(shards := FreshShards(s.shards),
         counter := s.counter - |rows|,
         cursor := covered,
         order := s.order.(nextSeq := s.order.nextSeq + 1),
         jobs := s.jobs + [Job(Range(s.cursor, covered), SealedAt(s.shards), rows, Encoding, false, false)])
  }

  function WithJob<V>(s: State<V>, j: nat, job: Job): State<V>
    requires j < |s.jobs|
  {
    s.(jobs := s.jobs[j := job])
  }

  /** The block is renamed into place and the index is told, or the encode fails. */
  function DoEncode<V>(s: State<V>, j: nat, ok: bool): State<V>
    requires j < |s.jobs|
  {
    var job := s.jobs[j];
    if ok
    then WithJob(s, j, job.(stage := AwaitIndex)).(blocks := s.blocks + [Block(Some(job.range), job.rows, true)])
    else WithJob(s, j, job.(stage := Releasing, failed := true))
  }

  /** Once the index is durable the flush completes in flush order; without an
      acknowledgement in time it never does. */
  function DoIndex<V>(s: State<V>, j: nat, acked: bool): State<V>
    requires j < |s.jobs|
  {
    var job := s.jobs[j];
    if acked then
      var p := FlushOrder.Release(FlushOrder.Max, s.order.wal, j, job.range.to);
      WithJob(s, j, job.(stage := Committing(p), indexed := true))
      .(order := s.order.(wal := FlushOrder.Complete(s.order.wal, j, job.range.to)))
    else WithJob(s, j, job.(stage := Releasing))
  }

  /** The commit file is written after the order lock is gone, so commits of
      different flushes may overtake each other; a failed commit changes nothing.
      `removed` is how far the deletion of covered segments got, so that a crash
      between the commit and the deletions is one of the states of a run. */
  ghost function DoCommit<V(!new)>(c: Config<V>, s: State<V>, j: nat, ok: bool, removed: nat): State<V>
    requires Sound(c) && Enabled(c, s, Commit(j, ok, removed))
  {
    var job := s.jobs[j];
    var s1 := WithJob(s, j, job.(stage := Releasing));
    match job.stage.release
    case Some(p) =>
      if ok && p != START then s1.(commit := p, wal := RemoveCovered(s.wal, removed)) else s1
    case None => s1
  }

  function Zeros(n: nat): (v: seq<nat>)
    ensures |v| == n && forall i | 0 <= i < n :: v[i] == 0
  {
    seq(n, _ => 0)
  }

  /** A failed flush releases its place in the drop order with nothing to drop. */
  function DropVec(job: Job): (v: seq<nat>)
    ensures |v| == |job.bounds|
  {
    if job.failed then Zeros(|job.bounds|) else job.bounds
  }

  function DoRelease<V>(s: State<V>, j: nat): State<V>
    requires j < |s.jobs|
  {
    var job := s.jobs[j];
    var v := FlushOrder.Release(FlushOrder.MaxVec, s.order.drop, j, DropVec(job));
    WithJob(s, j, job.(stage := Dropping(v)))
    .(order := s.order.(drop := FlushOrder.Complete(s.order.drop, j, DropVec(job))))
  }

  function DoDrop<V>(s: State<V>, j: nat): State<V>
    requires j < |s.jobs| && s.jobs[j].stage.Dropping?
  {
    var s1 := WithJob(s, j, s.jobs[j].(stage := Done));
    match s.jobs[j].stage.upTo
    case Some(v) => s1.(buffer := DropBuffered(s.buffer, v))
    case None => s1
  }

  ghost function Next<V(!new)>(c: Config<V>, s: State<V>, step: Step<V>): State<V>
    requires Sound(c) && Enabled(c, s, step)
  {
    match step
    case Log(m, synced) => DoLog(c, s, m, synced)
    case LogFail(m, written) => s.(wal := AppendFailed(s.wal, Frame(c.crc, c.enc(m)), written))
    case Insert(k, writes) => DoInsert(s, k, writes)
    case Swap => DoSwap(s)
    case Encode(j, ok) => DoEncode(s, j, ok)
    case Index(j, acked) => DoIndex(s, j, acked)
    case Commit(j, ok, removed) => DoCommit(c, s, j, ok, removed)
    case Release(j) => DoRelease(s, j)
    case Drop(j) => DoDrop(s, j)
  }

  /** A sequence of steps, each enabled where it is taken. */
  ghost predicate IsRun<V(!new)>(c: Config<V>, s: State<V>, steps: seq<Step<V>>)
    requires Sound(c)
    decreases |steps|
  {
    steps == [] || (Enabled(c, s, steps[0]) && IsRun(c, Next(c, s, steps[0]), steps[1..]))
  }

  ghost function RunFrom<V(!new)>(c: Config<V>, s: State<V>, steps: seq<Step<V>>): State<V>
    requires Sound(c) && IsRun(c, s, steps)
    decreases |steps|
  {
    if steps == [] then s else RunFrom(c, Next(c, s, steps[0]), steps[1..])
  }
}

/** Where visibility ends: a push that makes its writer close a block by itself. The
    points are buffered under the epoch the writer had before the push, so dropping
    what was closed drops the still open tail as well, and every earlier epoch of the
    shard with it. */
module SelfClosing {
  import opened Ingest
  import opened IngestConcerns
  import opened IngestInvariant
  import opened IngestSafety
  import opened IngestVisibility
  import MB = MemoryBuffer
  import Seqs
  import Writer

  /** A slot holds points of one shard, of its writer's epoch or earlier ones. */
  ghost predicate SlotInv<V(!new)>(c: Config<V>, buffer: map<string, seq<Tagged>>, shards: seq<Shard>)
    requires Sound(c) && |shards| == c.shards
  {
    forall name, t | t in Buffered(buffer, name) ::
      t.tag.shard == c.route(name) && t.tag.epoch <= shards[c.route(name)].w.epoch
  }

  ghost predicate AllSettled<V(!new)>(rows: seq<Row>, log: seq<Logged<V>>) {
    forall r | r in rows :: r.rec < |log| && log[r.rec].fate != Pending
  }

  /** No row is open, flushed or in a block before its record was acknowledged or refused. */
  ghost predicate SettledInv<V(!new)>(shards: seq<Shard>, jobs: seq<Job>, blocks: seq<Block>, log: seq<Logged<V>>) {
    && (forall k | 0 <= k < |shards| :: AllSettled(shards[k].w.rows, log))
    && (forall j | 0 <= j < |jobs| :: AllSettled(jobs[j].rows, log))
    && (forall b | 0 <= b < |blocks| :: AllSettled(blocks[b].rows, log))
  }

  // --------------------------------------------------------------- kept by all runs

  lemma DropShrinks(buffer: map<string, seq<Tagged>>, v: seq<nat>, name: string, t: Tagged)
    requires t in Buffered(DropBuffered(buffer, v), name)
    ensures t in Buffered(buffer, name)
  {
  }

  lemma LaterEpochsKeepSlots<V(!new)>(c: Config<V>, buffer: map<string, seq<Tagged>>, shards: seq<Shard>,
                                      buffer': map<string, seq<Tagged>>, shards': seq<Shard>)
    requires Sound(c) && |shards| == c.shards && |shards'| == c.shards && SlotInv(c, buffer, shards)
    requires forall name, t | t in Buffered(buffer', name) :: t in Buffered(buffer, name)
    requires forall k | 0 <= k < |shards| :: shards[k].w.epoch <= shards'[k].w.epoch
    ensures SlotInv(c, buffer', shards')
  {
  }

  lemma DropKeepsSlots<V(!new)>(c: Config<V>, buffer: map<string, seq<Tagged>>, shards: seq<Shard>, v: seq<nat>)
    requires Sound(c) && |shards| == c.shards && SlotInv(c, buffer, shards)
    ensures SlotInv(c, DropBuffered(buffer, v), shards)
  {
    forall name, t | t in Buffered(DropBuffered(buffer, v), name) ensures t in Buffered(buffer, name) {
      DropShrinks(buffer, v, name, t);
    }
    LaterEpochsKeepSlots(c, buffer, shards, DropBuffered(buffer, v), shards);
  }

  /** The buffer after a push feeds it. */
  function Fed(buffer: map<string, seq<Tagged>>, name: string, rows: seq<Row>, tag: MB.Tag): map<string, seq<Tagged>> {
    if rows == [] then buffer else buffer[name := Buffered(buffer, name) + TagAll(rows, tag)]
  }

  lemma TaggedHas(rows: seq<Row>, tag: MB.Tag, t: Tagged)
    requires t in TagAll(rows, tag)
    ensures t.row in rows && t.tag == tag
  {
    var x :| 0 <= x < |rows| && TagAll(rows, tag)[x] == t;
    assert t.row == rows[x];
  }

  lemma FedIsNew(buffer: map<string, seq<Tagged>>, name: string, rows: seq<Row>, tag: MB.Tag, other: string, t: Tagged)
    requires t in Buffered(Fed(buffer, name, rows, tag), other)
    ensures t in Buffered(buffer, other) || (other == name && t.row in rows && t.tag == tag)
  {
    if other == name && t !in Buffered(buffer, name) {
      TaggedHas(rows, tag, t);
    }
  }

  lemma FeedKeepsSlots<V(!new)>(c: Config<V>, buffer: map<string, seq<Tagged>>, shards: seq<Shard>, name: string,
                                rows: seq<Row>)
    requires Sound(c) && |shards| == c.shards && SlotInv(c, buffer, shards)
    ensures var k := c.route(name); SlotInv(c, Fed(buffer, name, rows, MB.Tag(k, shards[k].w.epoch)), shards)
  {
    var tag := MB.Tag(c.route(name), shards[c.route(name)].w.epoch);
    forall other, t | t in Buffered(Fed(buffer, name, rows, tag), other)
      ensures t.tag.shard == c.route(other) && t.tag.epoch <= shards[c.route(other)].w.epoch
    {
      FedIsNew(buffer, name, rows, tag, other, t);
    }
  }

  /** What the push held at shard `k` does to its writer. */
  ghost function Closing<V(!new)>(s: State<V>, k: nat, writes: nat): Writer.Pushed<Row>
    requires CanInsert(s, k)
  {
    var i := s.shards[k].held.value;
    Writer.Push(s.shards[k].w, RowsOf(i, |s.log[i].metric.points|), writes)
  }

  /** A push feeds its metric's slot and, when its writer closed a block, drops what it
      sealed. */
  lemma InsertedBuffer<V(!new)>(s: State<V>, k: nat, writes: nat)
    requires CanInsert(s, k)
    ensures var i, w, r := s.shards[k].held.value, s.shards[k].w, Closing(s, k, writes);
            var m := s.log[i].metric;
            var fed := Fed(s.buffer, m.name, RowsOf(i, |m.points|), MB.Tag(k, w.epoch));
            DoInsert(s, k, writes).buffer ==
            if r.ok && r.closed != [] then DropBuffered(fed, Only(|s.shards|, k, SaturatingPred(r.w.epoch))) else fed
  {
  }

  lemma InsertKeepsSlots<V(!new)>(c: Config<V>, s: State<V>, k: nat, writes: nat)
    requires Sound(c) && HeldInv(c, s.shards, s.log, s.cursor) && WriterInv(c, s.shards)
    requires SlotInv(c, s.buffer, s.shards) && CanInsert(s, k)
    ensures var s' := DoInsert(s, k, writes); SlotInv(c, s'.buffer, s'.shards)
  {
    var i, w, r := s.shards[k].held.value, s.shards[k].w, Closing(s, k, writes);
    var m, s' := s.log[i].metric, DoInsert(s, k, writes);
    var rows := RowsOf(i, |m.points|);
    var fed := Fed(s.buffer, m.name, rows, MB.Tag(k, w.epoch));
    FeedKeepsSlots(c, s.buffer, s.shards, m.name, rows);
    if r.ok && r.closed != [] {
      DropKeepsSlots(c, fed, s.shards, Only(|s.shards|, k, SaturatingPred(r.w.epoch)));
    }
    InsertedBuffer(s, k, writes);
    Writer.PushBounds(w, rows, writes);
    LaterEpochsKeepSlots(c, s'.buffer, s.shards, s'.buffer, s'.shards);
  }

  lemma DropStepKeepsSlots<V(!new)>(c: Config<V>, s: State<V>, j: nat)
    requires Sound(c) && |s.shards| == c.shards && SlotInv(c, s.buffer, s.shards) && Enabled(c, s, Drop(j))
    ensures SlotInv(c, DoDrop(s, j).buffer, s.shards)
  {
    if s.jobs[j].stage.upTo.Some? {
      DropKeepsSlots(c, s.buffer, s.shards, s.jobs[j].stage.upTo.value);
    }
  }

  lemma StepKeepsSlots<V(!new)>(c: Config<V>, s: State<V>, step: Step<V>)
    requires Sound(c) && Safe(c, s) && Enabled(c, s, step) && SlotInv(c, s.buffer, s.shards)
    ensures var s' := Next(c, s, step); |s'.shards| == c.shards && SlotInv(c, s'.buffer, s'.shards)
  {
    var s' := Next(c, s, step);
    match step
    case Insert(k, writes) => InsertKeepsSlots(c, s, k, writes);
    case Drop(j) => DropStepKeepsSlots(c, s, j);
    case _ => LaterEpochsKeepSlots(c, s.buffer, s.shards, s'.buffer, s'.shards);
  }

  /** Once settled, a record stays so. */
  lemma StaysSettled<V(!new)>(shards: seq<Shard>, jobs: seq<Job>, blocks: seq<Block>, log: seq<Logged<V>>,
                              log': seq<Logged<V>>)
    requires SettledInv(shards, jobs, blocks, log) && |log| <= |log'|
    requires forall i | 0 <= i < |log| && log[i].fate != Pending :: log'[i].fate != Pending
    ensures SettledInv(shards, jobs, blocks, log')
  {
  }

  lemma ClosedIsPushed(w: Writer.Writer<Row>, rows: seq<Row>, writes: nat, row: Row)
    requires |w.rows| <= w.capacity
    requires var r := Writer.Push(w, rows, writes);
             row in r.w.rows || exists b | 0 <= b < |r.closed| :: row in r.closed[b]
    ensures row in w.rows || row in rows
  {
    var r := Writer.Push(w, rows, writes);
    Writer.PushConserves(w, rows, writes);
    if row !in r.w.rows {
      Seqs.FlattenHas(r.closed, row);
    }
    assert row in Writer.Held(r);
  }

  lemma PushedIsSettled<V(!new)>(w: Writer.Writer<Row>, rows: seq<Row>, writes: nat, log: seq<Logged<V>>)
    requires |w.rows| <= w.capacity && AllSettled(w.rows, log) && AllSettled(rows, log)
    ensures var r := Writer.Push(w, rows, writes);
            AllSettled(r.w.rows, log) && forall b | 0 <= b < |r.closed| :: AllSettled(r.closed[b], log)
  {
    var r := Writer.Push(w, rows, writes);
    forall row | row in r.w.rows ensures row in w.rows || row in rows {
      ClosedIsPushed(w, rows, writes, row);
    }
    forall b | 0 <= b < |r.closed| ensures AllSettled(r.closed[b], log) {
      forall row | row in r.closed[b] ensures row in w.rows || row in rows {
        ClosedIsPushed(w, rows, writes, row);
      }
    }
  }

  lemma InsertKeepsSettled<V(!new)>(c: Config<V>, s: State<V>, k: nat, writes: nat)
    requires WriterInv(c, s.shards) && CanInsert(s, k) && SettledInv(s.shards, s.jobs, s.blocks, s.log)
    ensures var s' := DoInsert(s, k, writes); SettledInv(s'.shards, s'.jobs, s'.blocks, s'.log)
  {
    var s', i := DoInsert(s, k, writes), s.shards[k].held.value;
    var w, rows, r := s.shards[k].w, RowsOf(i, |s.log[i].metric.points|), Closing(s, k, writes);
    StaysSettled(s.shards, s.jobs, s.blocks, s.log, s'.log);
    assert AllSettled(w.rows, s'.log) && AllSettled(rows, s'.log);
    PushedIsSettled(w, rows, writes, s'.log);
    forall b | 0 <= b < |s'.blocks| ensures AllSettled(s'.blocks[b].rows, s'.log) {
      if b >= |s.blocks| {
        assert s'.blocks[b].rows == r.closed[b - |s.blocks|];
      }
    }
  }

  lemma SwapKeepsSettled<V(!new)>(c: Config<V>, s: State<V>)
    requires |s.wal.segs| >= 1 && SettledInv(s.shards, s.jobs, s.blocks, s.log)
    ensures var s' := DoSwap(s); SettledInv(s'.shards, s'.jobs, s'.blocks, s'.log)
  {
    var open := OpenRows(s.shards);
    assert AllSettled(Seqs.Flatten(open), s.log) by {
      forall row: Row | row in Seqs.Flatten(open) ensures row.rec < |s.log| && s.log[row.rec].fate != Pending {
        Seqs.FlattenHas(open, row);
        var k :| 0 <= k < |open| && row in open[k];
        assert AllSettled(s.shards[k].w.rows, s.log);
      }
    }
  }

  lemma StepKeepsSettled<V(!new)>(c: Config<V>, s: State<V>, step: Step<V>)
    requires Sound(c) && WriterInv(c, s.shards) && Enabled(c, s, step) && SettledInv(s.shards, s.jobs, s.blocks, s.log)
    ensures var s' := Next(c, s, step); SettledInv(s'.shards, s'.jobs, s'.blocks, s'.log)
  {
    match step
    case Insert(k, writes) => InsertKeepsSettled(c, s, k, writes);
    case Swap => SwapKeepsSettled(c, s);
    case _ => StaysSettled(s.shards, s.jobs, s.blocks, s.log, Next(c, s, step).log);
  }

  /** Epochs start at 1 and only grow. */
  ghost predicate Started(shards: seq<Shard>) {
    forall k | 0 <= k < |shards| :: shards[k].w.epoch >= 1
  }

  lemma StepKeepsStarted<V(!new)>(c: Config<V>, s: State<V>, step: Step<V>)
    requires Sound(c) && WriterInv(c, s.shards) && Enabled(c, s, step) && Started(s.shards)
    ensures Started(Next(c, s, step).shards)
  {
    if step.Insert? {
      var i := s.shards[step.shard].held.value;
      Writer.PushBounds(s.shards[step.shard].w, RowsOf(i, |s.log[i].metric.points|), step.writes);
    }
  }

  lemma {:induction false} RunKeepsSlots<V(!new)>(c: Config<V>, s: State<V>, steps: seq<Step<V>>)
    requires Sound(c) && Safe(c, s) && IsRun(c, s, steps)
    requires Started(s.shards) && SlotInv(c, s.buffer, s.shards) && SettledInv(s.shards, s.jobs, s.blocks, s.log)
    ensures var t := RunFrom(c, s, steps);
            Safe(c, t) && Started(t.shards) && SlotInv(c, t.buffer, t.shards) &&
            SettledInv(t.shards, t.jobs, t.blocks, t.log)
    decreases |steps|
  {
    if steps != [] {
      StepIsSafe(c, s, steps[0]);
      StepKeepsStarted(c, s, steps[0]);
      StepKeepsSlots(c, s, steps[0]);
      StepKeepsSettled(c, s, steps[0]);
      RunKeepsSlots(c, Next(c, s, steps[0]), steps[1..]);
    }
  }

  lemma InitHasSlots<V(!new)>(c: Config<V>)
    requires Sound(c)
    ensures var s := Init(c);
            |s.shards| == c.shards && Started(s.shards) && SlotInv(c, s.buffer, s.shards) &&
            SettledInv(s.shards, s.jobs, s.blocks, s.log)
  {
  }

  lemma RunHasSlots<V(!new)>(c: Config<V>, steps: seq<Step<V>>)
    requires Sound(c) && IsRun(c, Init(c), steps)
    ensures var t := RunFrom(c, Init(c), steps);
            Safe(c, t) && Started(t.shards) && SlotInv(c, t.buffer, t.shards) &&
            SettledInv(t.shards, t.jobs, t.blocks, t.log)
  {
    InitIsSafe(c);
    InitHasSlots(c);
    RunKeepsSlots(c, Init(c), steps);
  }

  // --------------------------------------------------------------- the hidden tail

  /** The last pushed point stays open, outside every block just closed. */
  lemma LastStaysOpen(w: Writer.Writer<Row>, i: nat, n: nat, writes: nat)
    requires |w.rows| <= w.capacity && n > 0 && Writer.Push(w, RowsOf(i, n), writes).ok
    requires forall r | r in w.rows :: r.rec != i
    ensures var r := Writer.Push(w, RowsOf(i, n), writes);
            forall b | 0 <= b < |r.closed| :: Row(i, n - 1) !in r.closed[b]
  {
    var rows := RowsOf(i, n);
    var r := Writer.Push(w, rows, writes);
    Writer.PushConserves(w, rows, writes);
    Writer.PushFits(w, rows, writes);
    var all, gone := w.rows + rows, Seqs.Flatten(r.closed);
    assert Writer.Held(r) == all by {
      assert rows[..n] == rows;
    }
    assert gone == all[..|gone|];
    forall b | 0 <= b < |r.closed| ensures Row(i, n - 1) !in r.closed[b] {
      Seqs.FlattenHas(r.closed, Row(i, n - 1));
      assert Row(i, n - 1) !in gone;
    }
  }

  /** A slot whose epochs are all at or below the bound is emptied. */
  lemma DropEmptiesSlot(buffer: map<string, seq<Tagged>>, n: nat, k: nat, bound: nat, name: string)
    requires k < n <= 256 && bound >= 1 && name in buffer
    requires forall t | t in buffer[name] :: t.tag.shard == k && t.tag.epoch <= bound
    ensures Buffered(DropBuffered(buffer, Only(n, k, bound)), name) == []
  {
    var v, slot := Only(n, k, bound), buffer[name];
    assert v[k] == bound;
    forall i | 0 <= i < |slot| ensures MB.Droppable(TagsOf(slot)[i], v) {
      assert slot[i] in slot;
    }
    MB.DropLenIs(TagsOf(slot), v, |slot|);
  }

  /** After a successful push that closed a block, no slot of the shard has a point left. */
  lemma SelfClosingEmptiesShard<V(!new)>(c: Config<V>, s: State<V>, k: nat, writes: nat, name: string)
    requires Sound(c) && HeldInv(c, s.shards, s.log, s.cursor) && WriterInv(c, s.shards)
    requires Started(s.shards) && SlotInv(c, s.buffer, s.shards) && CanInsert(s, k) && c.route(name) == k
    requires Closing(s, k, writes).ok && Closing(s, k, writes).closed != []
    ensures Buffered(DoInsert(s, k, writes).buffer, name) == []
  {
    var i, w, r := s.shards[k].held.value, s.shards[k].w, Closing(s, k, writes);
    var m := s.log[i].metric;
    var rows := RowsOf(i, |m.points|);
    var fed, bound := Fed(s.buffer, m.name, rows, MB.Tag(k, w.epoch)), SaturatingPred(r.w.epoch);
    FeedKeepsSlots(c, s.buffer, s.shards, m.name, rows);
    InsertedBuffer(s, k, writes);
    assert 1 <= w.epoch <= bound by {
      Writer.PushBounds(w, rows, writes);
    }
    if name in fed {
      assert fed[name] == Buffered(fed, name);
      DropEmptiesSlot(fed, |s.shards|, k, bound, name);
    }
  }

  /** Nor is its last point in any block. */
  lemma LastIsUnpublished<V(!new)>(c: Config<V>, s: State<V>, k: nat, i: nat, n: nat, writes: nat)
    requires k < |s.shards| && |s.shards[k].w.rows| <= s.shards[k].w.capacity
    requires SettledInv(s.shards, s.jobs, s.blocks, s.log)
    requires i < |s.log| && s.log[i].fate == Pending && n > 0
    requires Writer.Push(s.shards[k].w, RowsOf(i, n), writes).ok
    ensures var r := Writer.Push(s.shards[k].w, RowsOf(i, n), writes);
            forall b | 0 <= b < |s.blocks| + |r.closed| :: Row(i, n - 1) !in (s.blocks + Closed(r.closed, r.ok))[b].rows
  {
    var r := Writer.Push(s.shards[k].w, RowsOf(i, n), writes);
    var all := s.blocks + Closed(r.closed, r.ok);
    LastStaysOpen(s.shards[k].w, i, n, writes);
    forall b | 0 <= b < |s.blocks| + |r.closed| ensures Row(i, n - 1) !in all[b].rows {
      if b >= |s.blocks| {
        assert all[b].rows == r.closed[b - |s.blocks|];
      }
    }
  }

  ghost predicate Published<V(!new)>(s: State<V>, row: Row) {
    exists b | 0 <= b < |s.blocks| :: s.blocks[b].published && row in s.blocks[b].rows
  }

  lemma LastIsHidden<V(!new)>(c: Config<V>, s: State<V>, k: nat, writes: nat)
    requires Sound(c) && HeldInv(c, s.shards, s.log, s.cursor) && WriterInv(c, s.shards)
    requires Started(s.shards) && SlotInv(c, s.buffer, s.shards) && SettledInv(s.shards, s.jobs, s.blocks, s.log)
    requires CanInsert(s, k) && Closing(s, k, writes).ok
    requires |s.log[s.shards[k].held.value].metric.points| > Writer.Room(s.shards[k].w)
    ensures var i := s.shards[k].held.value;
            var m := s.log[i].metric;
            !Visible(DoInsert(s, k, writes), m.name, Row(i, |m.points| - 1))
  {
    var i, w := s.shards[k].held.value, s.shards[k].w;
    var n := |s.log[i].metric.points|;
    Writer.PushFits(w, RowsOf(i, n), writes);
    SelfClosingEmptiesShard(c, s, k, writes, s.log[i].metric.name);
    LastIsUnpublished(c, s, k, i, n, writes);
  }

  lemma FittingIsBuffered<V(!new)>(c: Config<V>, s: State<V>, k: nat, writes: nat, x: nat)
    requires Sound(c) && WriterInv(c, s.shards) && Enabled(c, s, Insert(k, writes)) && Quiet(c, s, Insert(k, writes))
    requires x < |s.log[s.shards[k].held.value].metric.points|
    ensures var i := s.shards[k].held.value; Visible(DoInsert(s, k, writes), s.log[i].metric.name, Row(i, x))
  {
    var i := s.shards[k].held.value;
    var m := s.log[i].metric;
    var name, added := m.name, TagAll(RowsOf(i, |m.points|), MB.Tag(k, s.shards[k].w.epoch));
    QuietInsert(c, s, k, writes);
    assert added[x].row == Row(i, x) && added[x] in Buffered(DoInsert(s, k, writes).buffer, name);
  }

  /** Exactly the pushes that fit stay visible. After any run, a push that succeeds leaves
      all its points visible if and only if they fit the room its shard's writer has. */
  lemma VisibleIffItFits<V(!new)>(c: Config<V>, steps: seq<Step<V>>, s: State<V>, k: nat, writes: nat)
    requires Sound(c) && IsRun(c, Init(c), steps) && s == RunFrom(c, Init(c), steps)
    requires Enabled(c, s, Insert(k, writes)) && DoInsert(s, k, writes).log[s.shards[k].held.value].fate.Acked?
    ensures var i := s.shards[k].held.value;
            var m := s.log[i].metric;
            (forall x | 0 <= x < |m.points| :: Visible(DoInsert(s, k, writes), m.name, Row(i, x))) <==>
            |m.points| <= Writer.Room(s.shards[k].w)
  {
    RunHasSlots(c, steps);
    var i := s.shards[k].held.value;
    var m, s' := s.log[i].metric, DoInsert(s, k, writes);
    if |m.points| <= Writer.Room(s.shards[k].w) {
      forall x | 0 <= x < |m.points| ensures Visible(s', m.name, Row(i, x)) {
        FittingIsBuffered(c, s, k, writes, x);
      }
    } else {
      LastIsHidden(c, s, k, writes);
    }
  }

  /** Such a push hides more than its own tail. After any run, once a push with more points
      than its writer's room has succeeded, a point of that shard, of whatever push, is
      visible if and only if a published block holds it: what is open, still encoding or
      in a failed flush is gone. */
  lemma OnlyPublishedIsVisible<V(!new)>(c: Config<V>, steps: seq<Step<V>>, s: State<V>, k: nat, writes: nat,
                                        name: string, row: Row)
    requires Sound(c) && IsRun(c, Init(c), steps) && s == RunFrom(c, Init(c), steps)
    requires Enabled(c, s, Insert(k, writes)) && DoInsert(s, k, writes).log[s.shards[k].held.value].fate.Acked?
    requires |s.log[s.shards[k].held.value].metric.points| > Writer.Room(s.shards[k].w) && c.route(name) == k
    ensures var s' := DoInsert(s, k, writes); Visible(s', name, row) <==> Published(s', row)
  {
    RunHasSlots(c, steps);
    var i := s.shards[k].held.value;
    Writer.PushFits(s.shards[k].w, RowsOf(i, |s.log[i].metric.points|), writes);
    SelfClosingEmptiesShard(c, s, k, writes, name);
  }
}

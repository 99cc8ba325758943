/** The metric block rotator as the service runs it, one method per lock-protected
    section, each refining a step of the protocol. */
module Rotator {
  import opened Options
  import opened WalFrame
  import opened WalLog
  import opened Coverage
  import opened Ingest
  import opened RowCounter
  import FlushOrder
  import MB = MemoryBuffer
  import Seqs
  import Writer

  lemma FlattenPrefix<T>(ss: seq<seq<T>>, i: nat)
    requires i < |ss|
    ensures Seqs.Flatten(ss[..i + 1]) == Seqs.Flatten(ss[..i]) + ss[i]
    ensures |Seqs.Flatten(ss[..i + 1])| <= |Seqs.Flatten(ss)|
  {
    assert ss[..i + 1] == ss[..i] + [ss[i]];
    Seqs.FlattenSnoc(ss[..i], ss[i]);
    assert ss == ss[..i + 1] + ss[i + 1..];
    Seqs.FlattenConcat(ss[..i + 1], ss[i + 1..]);
  }

  lemma PushKeepsCount(shards: seq<Shard>, k: nat, rows: seq<Row>, writes: nat)
    requires k < |shards| && |shards[k].w.rows| <= shards[k].w.capacity
    ensures var w := shards[k].w;
            var r := Writer.Push(w, rows, writes);
            (forall b | 0 <= b < |r.closed| :: r.closed[b] != []) && |r.w.rows| <= r.w.capacity &&
            (r.ok ==> Total(shards[k := Shard(r.w, None)]) + |Seqs.Flatten(r.closed)| == Total(shards) + |rows|)
  {
    var w := shards[k].w;
    PushCounts(w, rows, writes);
    Writer.PushBounds(w, rows, writes);
    TotalUpdate(shards, k, Shard(Writer.Push(w, rows, writes).w, None));
  }

  class BlockRotator<V> {
    var wal: Wal
    var commit: nat
    var blocks: seq<Block>
    var shards: seq<Shard>
    var buffered: nat
    var order: FlushOrder.Order
    var cursor: nat
    var jobs: seq<Job>
    var buffer: map<string, seq<Tagged>>
    var log: seq<Logged<V>>

    ghost predicate Valid()
      reads this
    {
      |wal.segs| >= 1 && buffered == Total(shards) &&
      forall k | 0 <= k < |shards| :: |shards[k].w.rows| <= shards[k].w.capacity
    }

    ghost function View(): State<V>
      reads this
    {
      State(wal, commit, blocks, shards, buffered, order, cursor, jobs, buffer, log)
    }

    /** Numbers a flush of every non-empty shard's writer; nothing happens when all
        are empty. */
    method FlushLocked()
      requires Valid()
      modifies this
      ensures Valid() && View() == DoSwap(old(View()))
    {
      var covered := Position(wal);
      var swapped, sealed, writers, left := TakeWriters(shards, buffered);
      if writers == [] {
        return;
      }
      FlattenEmpty(OpenRows(swapped));
      var range := Range(cursor, covered);
      var rows := MergeRows(writers);
      shards, buffered, cursor := swapped, left, covered;
      jobs := jobs + [Job(range, sealed, rows, Encoding, false, false)];
      order := order.(nextSeq := order.nextSeq + 1);
    }

    /** The rest of a push under its shard's lock: feeds the buffer, lets the writer
        take the points, publishes what it closed, drops that from the buffer and
        counts. */
    method InsertHeld(k: nat, writes: nat) returns (ok: bool)
      requires Valid() && CanInsert(View(), k)
      modifies this
      ensures View() == DoInsert(old(View()), k, writes)
      ensures ok <==> View().log[old(shards)[k].held.value].fate.Acked?
      ensures ok ==> Valid()
    {
      var i := shards[k].held.value;
      var m, w := log[i].metric, shards[k].w;
      var rows := RowsOf(i, |m.points|);
      var fed := buffer;
      if rows != [] {
        fed := fed[m.name := Buffered(fed, m.name) + TagAll(rows, MB.Tag(k, w.epoch))];
      }
      var r := Writer.Push(w, rows, writes);
      PushKeepsCount(shards, k, rows, writes);
      ok := r.ok;
      var published, closed := Publish(r.closed, ok);
      if ok && closed > 0 {
        fed := DropBuffered(fed, Only(|shards|, k, SaturatingPred(r.w.epoch)));
      }
      var counted := if ok then buffered + |rows| - closed else buffered;
      var fate := if ok then Acked(w.epoch) else Refused;
      shards, buffer, blocks, buffered, log :=
        shards[k := Shard(r.w, None)], fed, blocks + published, counted, log[i := log[i].(fate := fate)];
    }
  }

  /** Takes every non-empty shard's writer and seals its epoch. The counter gives up
      each writer's rows as it goes and never underflows. */
  method TakeWriters(shards: seq<Shard>, buffered: nat)
    returns (swapped: seq<Shard>, sealed: seq<nat>, writers: seq<seq<Row>>, left: nat)
    requires buffered == Total(shards)
    ensures swapped == FreshShards(shards) && sealed == SealedAt(shards) && left == 0
    ensures Seqs.Flatten(writers) == Seqs.Flatten(OpenRows(shards))
    ensures writers == [] <==> Seqs.Flatten(OpenRows(shards)) == []
  {
    ghost var open := OpenRows(shards);
    swapped, sealed, writers, left := shards, Zeros(|shards|), [], buffered;
    for i := 0 to |shards|
      invariant |swapped| == |shards| == |sealed|
      invariant forall k | 0 <= k < i :: swapped[k] == FreshShard(shards[k]) && sealed[k] == SealedAt(shards)[k]
      invariant forall k | i <= k < |shards| :: swapped[k] == shards[k] && sealed[k] == 0
      invariant Seqs.Flatten(writers) == Seqs.Flatten(open[..i])
      invariant writers == [] <==> Seqs.Flatten(writers) == []
      invariant left + |Seqs.Flatten(writers)| == |Seqs.Flatten(open)|
    {
      FlattenPrefix(open, i);
      var w := swapped[i].w;
      if w.rows != [] {
        Seqs.FlattenSnoc(writers, w.rows);
        left := left - |w.rows|;
        sealed := sealed[i := w.epoch];
        writers := writers + [w.rows];
        swapped := swapped[i := swapped[i].(w := Writer.Writer([], w.capacity, w.epoch + 1))];
      } else {
        Seqs.EmptyRight(Seqs.Flatten(open[..i]));
      }
    }
    assert open[..|shards|] == open;
  }

  /** Announces the blocks a writer closed by itself and counts their rows. */
  method Publish(closed: seq<seq<Row>>, ok: bool) returns (blocks: seq<Block>, count: nat)
    requires forall b | 0 <= b < |closed| :: closed[b] != []
    ensures blocks == Closed(closed, ok)
    ensures count == |Seqs.Flatten(closed)| && (count > 0 <==> closed != [])
  {
    blocks, count := [], 0;
    for b := 0 to |closed|
      invariant blocks == Closed(closed, ok)[..b]
      invariant count == |Seqs.Flatten(closed[..b])| && (count > 0 <==> b > 0)
    {
      FlattenPrefix(closed, b);
      blocks := blocks + [Block(None, closed[b], ok)];
      count := count + |closed[b]|;
    }
    assert closed[..|closed|] == closed;
  }

  /** One block holds every taken writer's rows, in shard order. */
  method MergeRows(writers: seq<seq<Row>>) returns (rows: seq<Row>)
    ensures rows == Seqs.Flatten(writers)
  {
    rows := [];
    for i := 0 to |writers|
      invariant rows == Seqs.Flatten(writers[..i])
    {
      FlattenPrefix(writers, i);
      rows := rows + writers[i];
    }
    assert writers[..|writers|] == writers;
  }
}

/** The memory buffer's epoch runs behind the protocol: a `Buffer` that is fed and dropped
    alongside the ingest's steps holds the tagged points the protocol speaks of. */
module BufferRefinement {
  import opened Ingest
  import opened ExactVisibility
  import opened SelfClosing
  import opened Options
  import MB = MemoryBuffer
  import Writer

  /** The points behind tagged rows. */
  function Data<L>(ts: seq<Tagged>, data: Row -> MB.DataPoint<L>): (ps: seq<MB.DataPoint<L>>)
    ensures |ps| == |ts| && forall i | 0 <= i < |ts| :: ps[i] == data(ts[i].row)
  {
    seq(|ts|, i requires 0 <= i < |ts| => data(ts[i].row))
  }

  function DataOf<L>(rows: seq<Row>, data: Row -> MB.DataPoint<L>): (ps: seq<MB.DataPoint<L>>)
    ensures |ps| == |rows| && forall i | 0 <= i < |rows| :: ps[i] == data(rows[i])
  {
    seq(|rows|, i requires 0 <= i < |rows| => data(rows[i]))
  }

  /** The same points with the same tags in the same order. */
  ghost predicate SlotFollows<L>(metrics: map<string, MB.Slot<L>>, name: string, slot: seq<Tagged>,
                                 data: Row -> MB.DataPoint<L>)
    requires MB.ValidMetrics(metrics)
  {
    MB.TagsOf(metrics, name) == TagsOf(slot) && MB.PointsOf(metrics, name) == Data(slot, data)
  }

  /** Metric by metric. */
  ghost predicate Follows<L>(metrics: map<string, MB.Slot<L>>, buffer: map<string, seq<Tagged>>,
                             data: Row -> MB.DataPoint<L>)
    requires MB.ValidMetrics(metrics)
  {
    forall name :: SlotFollows(metrics, name, Buffered(buffer, name), data)
  }

  lemma FedSlot<L>(slot: seq<Tagged>, rows: seq<Row>, tag: MB.Tag, data: Row -> MB.DataPoint<L>)
    ensures TagsOf(slot + TagAll(rows, tag)) == TagsOf(slot) + seq(|rows|, _ => tag)
    ensures Data(slot + TagAll(rows, tag), data) == Data(slot, data) + DataOf(rows, data)
  {
  }

  lemma FeedFollows<L>(before: map<string, MB.Slot<L>>, after: map<string, MB.Slot<L>>, name: string, rows: seq<Row>,
                       tag: MB.Tag, data: Row -> MB.DataPoint<L>, buffer: map<string, seq<Tagged>>)
    requires MB.ValidMetrics(before) && MB.ValidMetrics(after) && Follows(before, buffer, data)
    requires MB.PointsOf(after, name) == MB.PointsOf(before, name) + DataOf(rows, data)
    requires MB.TagsOf(after, name) == MB.TagsOf(before, name) + seq(|rows|, _ => tag)
    requires forall other | other != name ::
               MB.PointsOf(after, other) == MB.PointsOf(before, other) &&
               MB.TagsOf(after, other) == MB.TagsOf(before, other)
    ensures Follows(after, Fed(buffer, name, rows, tag), data)
  {
    var slot := Buffered(buffer, name);
    FedSlot(slot, rows, tag, data);
    assert Buffered(Fed(buffer, name, rows, tag), name) == slot + TagAll(rows, tag);
    assert SlotFollows(before, name, slot, data);
    forall other ensures SlotFollows(after, other, Buffered(Fed(buffer, name, rows, tag), other), data) {
      assert SlotFollows(before, other, Buffered(buffer, other), data);
    }
  }

  /** Pushing points with a writer's tag follows the feed. */
  method Feed<L>(b: MB.Buffer<L>, name: string, rows: seq<Row>, tag: MB.Tag, data: Row -> MB.DataPoint<L>,
                 ghost buffer: map<string, seq<Tagged>>)
    requires b.Valid() && Follows(b.metrics, buffer, data)
    requires MB.Live(MB.PointsOf(b.metrics, name) + DataOf(rows, data), MB.SeriesOf(b.metrics, name))
    modifies b
    ensures b.Valid() && Follows(b.metrics, Fed(buffer, name, rows, tag), data)
  {
    ghost var before := b.metrics;
    b.PushTagged(name, DataOf(rows, data), tag);
    FeedFollows(before, b.metrics, name, rows, tag, data, buffer);
  }

  lemma DroppedSlot<L>(slot: seq<Tagged>, k: nat, data: Row -> MB.DataPoint<L>)
    requires k <= |slot|
    ensures TagsOf(slot[k..]) == TagsOf(slot)[k..] && Data(slot[k..], data) == Data(slot, data)[k..]
  {
  }

  /** What the protocol's drop removes from one slot. */
  function Dropped(slot: seq<Tagged>, bounds: seq<nat>): (k: nat)
    ensures k <= |slot|
  {
    if forall i | 0 <= i < |bounds| :: bounds[i] == 0 then 0 else MB.DropLen(TagsOf(slot), bounds)
  }

  lemma DropsFromSlot(buffer: map<string, seq<Tagged>>, bounds: seq<nat>, name: string)
    ensures var slot := Buffered(buffer, name);
            Buffered(DropBuffered(buffer, bounds), name) == slot[Dropped(slot, bounds)..]
  {
  }

  lemma ShedFollows<L>(before: map<string, MB.Slot<L>>, after: map<string, MB.Slot<L>>, name: string, k: nat,
                       slot: seq<Tagged>, data: Row -> MB.DataPoint<L>)
    requires MB.ValidMetrics(before) && MB.ValidMetrics(after) && SlotFollows(before, name, slot, data)
    requires k <= |slot| && MB.Shed(before, after, name, k)
    ensures SlotFollows(after, name, slot[k..], data)
  {
    DroppedSlot(slot, k, data);
  }

  lemma DropFollowsAt<L>(before: map<string, MB.Slot<L>>, after: map<string, MB.Slot<L>>, bounds: seq<nat>,
                         name: string,
                         slot: seq<Tagged>, data: Row -> MB.DataPoint<L>)
    requires MB.ValidMetrics(before) && MB.ValidMetrics(after) && SlotFollows(before, name, slot, data)
    requires MB.Shed(before, after, name, MB.DropCount(before, name, bounds))
    ensures SlotFollows(after, name, slot[Dropped(slot, bounds)..], data)
  {
    assert MB.DropCount(before, name, bounds) == Dropped(slot, bounds);
    ShedFollows(before, after, name, Dropped(slot, bounds), slot, data);
  }

  /** Dropping whole epoch runs follows the protocol's drop. */
  lemma DropFollows<L>(before: map<string, MB.Slot<L>>, after: map<string, MB.Slot<L>>, bounds: seq<nat>,
                       data: Row -> MB.DataPoint<L>, buffer: map<string, seq<Tagged>>)
    requires MB.ValidMetrics(before) && MB.ValidMetrics(after) && Follows(before, buffer, data)
    requires forall name :: MB.Shed(before, after, name, MB.DropCount(before, name, bounds))
    ensures Follows(after, DropBuffered(buffer, bounds), data)
  {
    forall name ensures SlotFollows(after, name, Buffered(DropBuffered(buffer, bounds), name), data) {
      var slot := Buffered(buffer, name);
      assert SlotFollows(before, name, slot, data);
      assert MB.Shed(before, after, name, MB.DropCount(before, name, bounds));
      DropFollowsAt(before, after, bounds, name, slot, data);
      DropsFromSlot(buffer, bounds, name);
    }
  }

  method Drop<L>(b: MB.Buffer<L>, bounds: seq<nat>, ghost data: Row -> MB.DataPoint<L>, ghost buffer: map<string,
                 seq<Tagged>>)
    requires b.Valid() && Follows(b.metrics, buffer, data)
    modifies b
    ensures b.Valid() && Follows(b.metrics, DropBuffered(buffer, bounds), data)
  {
    ghost var before := b.metrics;
    b.DropSealed(bounds);
    DropFollows(before, b.metrics, bounds, data, buffer);
  }

  /** A row the protocol has buffered is among the points a scan of the buffer reads. */
  lemma BufferedIsHeld<V(!new), L>(s: State<V>, metrics: map<string, MB.Slot<L>>, data: Row -> MB.DataPoint<L>,
                                   name: string, row: Row)
    requires MB.ValidMetrics(metrics) && Follows(metrics, s.buffer, data) && InBuffer(s, name, row)
    ensures data(row) in MB.PointsOf(metrics, name)
  {
    var slot := Buffered(s.buffer, name);
    var t :| t in slot && t.row == row;
    var i :| 0 <= i < |slot| && slot[i] == t;
    assert SlotFollows(metrics, name, slot, data);
    assert Data(slot, data)[i] == data(row);
  }

  /** The rest of a push with the objects it works on: the buffer is fed with the block
      writer's epoch, the block writer takes the points and, when it closed blocks, the
      buffer drops what they sealed. Together they follow the insert step. */
  method PushHeld<V(!new), L>(b: MB.Buffer<L>, w: Writer.BlockWriter<Row>, name: string, n: nat, i: nat, k: nat,
                              shards: nat, writes: nat, data: Row -> MB.DataPoint<L>, ghost s: State<V>)
    returns (ok: bool, closed: seq<seq<Row>>)
    requires b.Valid() && w.Valid() && CanInsert(s, k) && s.shards[k].held == Some(i) && shards == |s.shards|
    requires name == s.log[i].metric.name && n == |s.log[i].metric.points|
    requires Follows(b.metrics, s.buffer, data) && w.View() == s.shards[k].w
    requires MB.Live(MB.PointsOf(b.metrics, name) + DataOf(RowsOf(i, n), data), MB.SeriesOf(b.metrics, name))
    modifies b, w
    ensures var s' := DoInsert(s, k, writes);
            b.Valid() && w.Valid() && Follows(b.metrics, s'.buffer, data) && w.View() == s'.shards[k].w &&
            (ok <==> s'.log[i].fate.Acked?) && s'.blocks == s.blocks + Closed(closed, ok)
  {
    var rows, tag := RowsOf(i, n), MB.Tag(k, w.epoch);
    Feed(b, name, rows, tag, data, s.buffer);
    ok, closed := w.PushMetric(name, rows, writes);
    if ok && closed != [] {
      Drop(b, Only(shards, k, SaturatingPred(w.epoch)), data, Fed(s.buffer, name, rows, tag));
    }
    InsertedBuffer(s, k, writes);
  }
}

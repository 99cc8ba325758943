/** The writers that accumulate rows until they become a block. Writing a block can
    fail; how many writes succeed is a parameter. */
module Writer {
  import opened Seqs

  /** A metric writer: open rows in push order and the generation they belong to. */
  datatype Writer<P> = Writer(rows: seq<P>, capacity: nat, epoch: nat)

  function Room<P>(w: Writer<P>): nat {
    if |w.rows| < w.capacity then w.capacity - |w.rows| else 0
  }

  /** What a push leaves behind: the writer, the blocks it closed on the way, and
      whether every point was accepted. */
  datatype Pushed<P> = Pushed(w: Writer<P>, closed: seq<seq<P>>, ok: bool)

  /** Points fill the open block; a full block is closed before the next point goes
      in. `writes` is how many block writes succeed before one fails, and a writer
      with no rows cannot be closed at all. */
  function Push<P>(w: Writer<P>, points: seq<P>, writes: nat): Pushed<P>
    decreases |points|, writes
  {
    if points == [] then Pushed(w, [], true)
    else if Room(w) == 0 then
      if w.rows == [] || writes == 0 then Pushed(w, [], false)
      else
        var rest := Push(w.(rows := [], epoch := w.epoch + 1), points, writes - 1);
        Pushed(rest.w, [w.rows] + rest.closed, rest.ok)
    else
      var take := if |points| > Room(w) then Room(w) else |points|;
      Push(w.(rows := w.rows + points[..take]), points[take..], writes)
  }

  /** Everything the writer holds or has closed, in order. */
  function Held<P>(r: Pushed<P>): seq<P> {
    Flatten(r.closed) + r.w.rows
  }

  /** Nothing is lost, duplicated or reordered: closed blocks and open rows are the
      old rows followed by the accepted points, which are all of them unless a block
      write failed. */
  lemma {:induction false} PushConserves<P>(w: Writer<P>, points: seq<P>, writes: nat)
    requires |w.rows| <= w.capacity
    ensures var r := Push(w, points, writes);
            |w.rows| <= |Held(r)| <= |w.rows| + |points| &&
            Held(r) == w.rows + points[..|Held(r)| - |w.rows|] &&
            (r.ok <==> |Held(r)| == |w.rows| + |points|)
    decreases |points|, writes
  {
    var r := Push(w, points, writes);
    if points == [] {
      EmptyRight(w.rows);
    } else if Room(w) == 0 {
      if w.rows != [] && writes > 0 {
        var w1 := w.(rows := [], epoch := w.epoch + 1);
        PushConserves(w1, points, writes - 1);
        HeldBehind(w.rows, Push(w1, points, writes - 1), r, points);
      } else {
        HeldNothing(w.rows, points, r);
      }
    } else {
      var take := if |points| > Room(w) then Room(w) else |points|;
      var w1 := w.(rows := w.rows + points[..take]);
      PushConserves(w1, points[take..], writes);
      HeldJoin(w.rows, points, take, Held(r));
    }
  }

  lemma HeldBehind<P>(rows: seq<P>, rest: Pushed<P>, r: Pushed<P>, points: seq<P>)
    requires r.closed == [rows] + rest.closed && r.w == rest.w && |Held(rest)| <= |points|
    requires Held(rest) == [] + points[..|Held(rest)|]
    ensures |Held(r)| == |rows| + |Held(rest)| && Held(r) == rows + points[..|Held(r)| - |rows|]
  {
    assert Flatten(r.closed) == rows + Flatten(rest.closed) by {
      assert r.closed[1..] == rest.closed;
    }
    Assoc(rows, Flatten(rest.closed), rest.w.rows);
    EmptyLeft(points[..|Held(rest)|]);
  }

  lemma HeldNothing<P>(rows: seq<P>, points: seq<P>, r: Pushed<P>)
    requires r.closed == [] && r.w.rows == rows
    ensures Held(r) == rows == rows + points[..|Held(r)| - |rows|]
  {
    EmptyLeft(rows);
    EmptyRight(rows);
  }

  lemma HeldJoin<P>(rows: seq<P>, points: seq<P>, take: nat, held: seq<P>)
    requires take <= |points| && |rows| + take <= |held| <= |rows| + |points|
    requires held == (rows + points[..take]) + points[take..][..|held| - |rows| - take]
    ensures held == rows + points[..|held| - |rows|]
  {
    PrefixesJoin(rows, points, take, |held| - |rows| - take);
  }

  /** Only full blocks are closed, one epoch each, and the open block never exceeds
      its capacity. */
  lemma {:induction false} PushBounds<P>(w: Writer<P>, points: seq<P>, writes: nat)
    requires |w.rows| <= w.capacity
    ensures var r := Push(w, points, writes);
            (forall i | 0 <= i < |r.closed| :: |r.closed[i]| == w.capacity) &&
            |r.w.rows| <= w.capacity && r.w.capacity == w.capacity &&
            r.w.epoch == w.epoch + |r.closed| && |r.closed| <= writes &&
            (r.closed != [] ==> w.capacity > 0)
    decreases |points|, writes
  {
    if points == [] {
    } else if Room(w) == 0 {
      if w.rows != [] && writes > 0 {
        PushBounds(w.(rows := [], epoch := w.epoch + 1), points, writes - 1);
      }
    } else {
      var take := if |points| > Room(w) then Room(w) else |points|;
      PushBounds(w.(rows := w.rows + points[..take]), points[take..], writes);
    }
  }

  lemma PrefixesJoin<P>(a: seq<P>, b: seq<P>, i: nat, j: nat)
    requires i <= |b| && j <= |b| - i
    ensures a + b[..i] + b[i..][..j] == a + b[..i + j]
  {
  }

  /** A push that fits leaves one open block; any other successful push closes at
      least one and never leaves the open block empty. */
  lemma {:induction false} PushFits<P>(w: Writer<P>, points: seq<P>, writes: nat)
    requires |w.rows| <= w.capacity && points != []
    ensures var r := Push(w, points, writes);
            (|points| <= Room(w) ==> r == Pushed(w.(rows := w.rows + points), [], true)) &&
            (r.ok ==> r.w.rows != []) &&
            (r.ok && |points| > Room(w) ==> r.closed != [])
    decreases |points|, writes
  {
    if |points| <= Room(w) {
      assert points[..|points|] == points;
    } else if Room(w) == 0 {
      if w.rows != [] && writes > 0 {
        PushFits(w.(rows := [], epoch := w.epoch + 1), points, writes - 1);
      }
    } else {
      PushFits(w.(rows := w.rows + points[..Room(w)]), points[Room(w)..], writes);
    }
  }

  /** Which pushes succeed: those that fit the open block and as many blocks behind it as
      there are successful writes. */
  lemma PushOkIff<P>(w: Writer<P>, points: seq<P>, writes: nat)
    requires |w.rows| <= w.capacity
    ensures Push(w, points, writes).ok <==> |points| <= Room(w) + writes * w.capacity
  {
    PushOkFor(w, points, writes);
    BlocksIsProduct(writes, w.capacity);
  }

  /** The rows of that many blocks. */
  function Blocks(writes: nat, capacity: nat): nat {
    if writes == 0 then 0 else capacity + Blocks(writes - 1, capacity)
  }

  lemma {:induction false} BlocksIsProduct(writes: nat, capacity: nat)
    ensures Blocks(writes, capacity) == writes * capacity
  {
    if writes > 0 {
      BlocksIsProduct(writes - 1, capacity);
      Distribute(writes, capacity);
    }
  }

  lemma {:induction false} PushOkFor<P>(w: Writer<P>, points: seq<P>, writes: nat)
    requires |w.rows| <= w.capacity
    ensures Push(w, points, writes).ok <==> |points| <= Room(w) + Blocks(writes, w.capacity)
    decreases |points|, writes
  {
    if points == [] {
    } else if Room(w) == 0 {
      if w.rows != [] && writes > 0 {
        PushOkFor(w.(rows := [], epoch := w.epoch + 1), points, writes - 1);
      } else if writes > 0 {
        BlocksIsProduct(writes, 0);
      }
    } else {
      var take := if |points| > Room(w) then Room(w) else |points|;
      PushOkFor(w.(rows := w.rows + points[..take]), points[take..], writes);
    }
  }

  lemma Distribute(writes: nat, capacity: nat)
    requires writes > 0
    ensures writes * capacity == capacity + (writes - 1) * capacity
  {
  }

  // ------------------------------------------------------------- BlockWriter

  datatype Batch<P> = Batch(metric: string, points: seq<P>)

  function PointsOf<P>(bs: seq<Batch<P>>): seq<P> {
    if bs == [] then [] else PointsOf(bs[..|bs| - 1]) + bs[|bs| - 1].points
  }

  /** The metric writer keeps pushed points as they came, one batch per push or per
      capacity split, and counts their rows. */
  class BlockWriter<P> {
    var batches: seq<Batch<P>>
    var rows: nat
    var capacity: nat
    var epoch: nat

    ghost predicate Valid()
      reads this
    {
      rows == |PointsOf(batches)|
    }

    ghost function View(): Writer<P>
      reads this
    {
      Writer(PointsOf(batches), capacity, epoch)
    }

    constructor (capacity: nat, epoch: nat)
      ensures Valid() && View() == Writer([], capacity, epoch)
    {
      this.batches, this.rows, this.capacity, this.epoch := [], 0, capacity, epoch;
    }

    /** Writes the open rows as a block; an empty writer has nothing to write. */
    method Flush(written: bool) returns (ok: bool, block: seq<P>)
      requires Valid()
      modifies this
      ensures Valid()
      ensures ok <==> old(rows) > 0 && written
      ensures ok ==> block == old(View()).rows && View() == old(View()).(rows := [], epoch := old(epoch) + 1)
      ensures !ok ==> block == [] && View() == old(View())
    {
      if rows == 0 || !written {
        return false, [];
      }
      block := ConcatPoints(batches);
      batches, rows, epoch := [], 0, epoch + 1;
      ok := true;
    }

    method PushMetric(metric: string, points: seq<P>, writes: nat) returns (ok: bool, closed: seq<seq<P>>)
      requires Valid()
      modifies this
      ensures Valid()
      ensures var r := Push(old(View()), points, writes);
              View() == r.w && ok == r.ok && closed == r.closed
    {
      closed := [];
      var remaining, left := points, writes;
      while remaining != []
        invariant Valid()
        invariant var r, now := Push(old(View()), points, writes), Push(View(), remaining, left);
                  now.w == r.w && now.ok == r.ok && closed + now.closed == r.closed
        decreases |remaining|, left
      {
        var room := if rows < capacity then capacity - rows else 0;
        if room == 0 {
          ghost var now := Push(View(), remaining, left);
          var flushed, block := Flush(left > 0);
          if !flushed {
            EmptyRight(closed);
            return false, closed;
          }
          Assoc(closed, [block], Push(View(), remaining, left - 1).closed);
          closed, left := closed + [block], left - 1;
        } else {
          var take := if |remaining| > room then room else |remaining|;
          var batch := Batch(metric, remaining[..take]);
          assert (batches + [batch])[..|batches|] == batches;
          rows := rows + take;
          batches := batches + [batch];
          remaining := remaining[take..];
        }
      }
      EmptyRight(closed);
      ok := true;
    }
  }

  method ConcatPoints<P>(bs: seq<Batch<P>>) returns (points: seq<P>)
    ensures points == PointsOf(bs)
  {
    points := [];
    for i := 0 to |bs|
      invariant points == PointsOf(bs[..i])
    {
      assert bs[..i + 1][..i] == bs[..i];
      points := points + bs[i].points;
    }
    assert bs[..|bs|] == bs;
  }

  lemma {:induction false} PointsOfConcat<P>(a: seq<Batch<P>>, b: seq<Batch<P>>)
    ensures PointsOf(a + b) == PointsOf(a) + PointsOf(b)
    decreases |b|
  {
    if b == [] {
      assert a + b == a;
    } else {
      var n := |b| - 1;
      PointsOfConcat(a, b[..n]);
      assert (a + b)[..|a + b| - 1] == a + b[..n];
      Assoc(PointsOf(a), PointsOf(b[..n]), b[n].points);
    }
  }

  /** Merging shard writers appends their batches, so the one block a flush writes
      holds every shard's rows in shard order. */
  method Merge<P>(writers: seq<seq<Batch<P>>>) returns (batches: seq<Batch<P>>, rows: nat)
    ensures PointsOf(batches) == Flatten(seq(|writers|, i requires 0 <= i < |writers| => PointsOf(writers[i])))
    ensures rows == |PointsOf(batches)|
  {
    batches, rows := [], 0;
    ghost var parts := seq(|writers|, i requires 0 <= i < |writers| => PointsOf(writers[i]));
    for i := 0 to |writers|
      invariant PointsOf(batches) == Flatten(parts[..i])
      invariant rows == |PointsOf(batches)|
    {
      PointsOfConcat(batches, writers[i]);
      FlattenSnoc(parts[..i], parts[i]);
      assert parts[..i + 1] == parts[..i] + [parts[i]];
      var points := ConcatPoints(writers[i]);
      batches, rows := batches + writers[i], rows + |points|;
    }
    assert parts[..|writers|] == parts;
  }

  // --------------------------------------------------------- LogWriter, TraceWriter

  /** One row into a log or trace writer: a full block is closed first. */
  datatype RowPushed<P> = RowPushed(buffer: seq<P>, closed: seq<P>, ok: bool)

  function PushRow<P>(buffer: seq<P>, capacity: nat, row: P, written: bool): RowPushed<P> {
    if |buffer| >= capacity then
      if buffer == [] || !written then RowPushed(buffer, [], false)
      else RowPushed([row], buffer, true)
    else RowPushed(buffer + [row], [], true)
  }
}

/** The log and trace rotator as the service runs it: each method is one section under
    the rotator's lock or one act of the flush task, and refines a protocol step. */
module SerialRotator {
  import opened Options
  import opened WalFrame
  import opened WalLog
  import opened Coverage
  import opened SerialIngest
  import Seqs
  import Writer

  lemma DropTwice(buffer: seq<nat>, m: nat, n: nat)
    ensures DropOldest(DropOldest(buffer, m), n) == DropOldest(buffer, m + n)
  {
  }

  lemma DropNext(buffer: seq<nat>, closed: seq<seq<nat>>, block: seq<nat>)
    ensures DropOldest(DropOldest(buffer, |Seqs.Flatten(closed)|), |block|) ==
            DropOldest(buffer, |Seqs.Flatten(closed + [block])|)
  {
    Seqs.FlattenSnoc(closed, block);
    DropTwice(buffer, |Seqs.Flatten(closed)|, |block|);
  }

  /** A push of rows after others continues where those left off, or stops with them. */
  lemma {:induction false} PushConcat(w: seq<nat>, capacity: nat, a: seq<nat>, b: seq<nat>, writes: nat)
    ensures var ra, r := PushRows(w, capacity, a, writes), PushRows(w, capacity, a + b, writes);
            |ra.closed| <= writes &&
            (!ra.ok ==> r == ra) &&
            (ra.ok ==>
               var rb := PushRows(ra.w, capacity, b, writes - |ra.closed|);
               r.w == rb.w && r.ok == rb.ok && r.closed == ra.closed + rb.closed)
    decreases |a|
  {
    var ra := PushRows(w, capacity, a, writes);
    if a == [] {
      assert a + b == b;
      Seqs.EmptyLeft(PushRows(w, capacity, b, writes).closed);
    } else {
      assert (a + b)[1..] == a[1..] + b;
      var p := Writer.PushRow(w, capacity, a[0], writes > 0);
      if p.ok {
        var more := if p.closed == [] then writes else writes - 1;
        PushConcat(p.buffer, capacity, a[1..], b, more);
        var rest := PushRows(p.buffer, capacity, a[1..], more);
        if rest.ok && p.closed != [] {
          Seqs.Assoc([p.closed], rest.closed, PushRows(rest.w, capacity, b, more - |rest.closed|).closed);
        }
      }
    }
  }

  lemma PushNext(w: seq<nat>, capacity: nat, rows: seq<nat>, i: nat, writes: nat)
    requires i < |rows| && PushRows(w, capacity, rows[..i], writes).ok
    ensures var r, r' := PushRows(w, capacity, rows[..i], writes), PushRows(w, capacity, rows[..i + 1], writes);
            |r.closed| <= writes &&
            var p := Writer.PushRow(r.w, capacity, rows[i], writes - |r.closed| > 0);
            if p.ok
            then r'.ok && r'.w == p.buffer && r'.closed == if p.closed == [] then r.closed else r.closed + [p.closed]
            else !r'.ok && r'.w == r.w && r'.closed == r.closed
  {
    var r := PushRows(w, capacity, rows[..i], writes);
    assert rows[..i + 1] == rows[..i] + [rows[i]];
    PushConcat(w, capacity, rows[..i], [rows[i]], writes);
    Seqs.EmptyRight(r.closed);
  }

  lemma PushStops(w: seq<nat>, capacity: nat, rows: seq<nat>, i: nat, writes: nat)
    requires i <= |rows| && !PushRows(w, capacity, rows[..i], writes).ok
    ensures PushRows(w, capacity, rows, writes) == PushRows(w, capacity, rows[..i], writes)
  {
    assert rows == rows[..i] + rows[i..];
    PushConcat(w, capacity, rows[..i], rows[i..], writes);
  }

  /** Rows go into the writer one by one; each block it closes by itself is published
      and its rows leave the front of the buffer. */
  method PushEach(w: seq<nat>, capacity: nat, rows: seq<nat>, writes: nat, buffer: seq<nat>)
    returns (open: seq<nat>, closed: seq<seq<nat>>, left: seq<nat>, ok: bool)
    ensures var r := PushRows(w, capacity, rows, writes);
            open == r.w && closed == r.closed && ok == r.ok &&
            left == DropOldest(buffer, |Seqs.Flatten(r.closed)|)
  {
    open, closed, left, ok := w, [], buffer, true;
    for i := 0 to |rows|
      invariant var r := PushRows(w, capacity, rows[..i], writes);
                ok && r.ok && open == r.w && closed == r.closed && |closed| <= writes
      invariant left == DropOldest(buffer, |Seqs.Flatten(closed)|)
    {
      PushNext(w, capacity, rows, i, writes);
      var p := Writer.PushRow(open, capacity, rows[i], writes - |closed| > 0);
      if !p.ok {
        PushStops(w, capacity, rows, i + 1, writes);
        ok := false;
        return;
      }
      if p.closed != [] {
        DropNext(buffer, closed, p.closed);
        left, closed := DropOldest(left, |p.closed|), closed + [p.closed];
      }
      open := p.buffer;
    }
    assert rows[..|rows|] == rows;
  }

  class SerialRotator {
    var wal: Wal
    var commit: nat
    var pieces: seq<Piece>
    var flight: Option<Flight>
    var writer: seq<nat>
    var buffer: seq<nat>
    var covered: nat
    var cursor: nat
    var log: seq<Logged>

    ghost function View(): State
      reads this
    {
      State(wal, commit, pieces, flight, writer, buffer, covered, cursor, log)
    }

    constructor (c: Config)
      ensures View() == SerialIngest.Init(c)
    {
      wal, commit, pieces, flight := Open(0, [], c.limit), START, [], None;
      writer, buffer, covered, cursor, log := [], [], START, START, [];
    }

    /** Whether a batch has to close the open block first, so as not to be split. */
    method Overflows(c: Config, n: nat) returns (yes: bool)
      ensures yes <==> writer != [] && !(|writer| + n <= MaxRows(c))
      ensures !yes && (n < MaxRows(c) || flight == None) ==> CanPush(c, View(), n)
    {
      var max := if c.capacity == 0 then 1 else c.capacity;
      yes := |writer| > 0 && |writer| + n > max;
    }

    /** Logs the batch with one write, feeds the buffer, then the writer. */
    method PushBatch(c: Config, ps: seq<Bytes>, records: Bytes, writes: nat) returns (ok: bool)
      requires Enabled(c, View(), Push(ps, writes)) && records == Framed(c.crc, ps)
      modifies this
      ensures View() == DoPush(c, old(View()), ps, writes)
      ensures ok <==> PushRows(old(writer), c.capacity, NewRows(|old(log)|, |ps|), writes).ok
    {
      var ids := NewRows(|log|, |ps|);
      var entries := NewEntries(wal, ps);
      covered := AppendPos(wal, records);
      wal := Append(wal, records);
      var open, closed, left, all := PushEach(writer, c.capacity, ids, writes, buffer + ids);
      writer, pieces, buffer, ok := open, pieces + Closed(closed), left, all;
      log := log + Records(entries, ok);
    }

    /** Swaps the writer out; nothing happens when it is empty. The gate admits one
        flush at a time. */
    method StartFlush()
      requires flight == None
      modifies this
      ensures old(writer) == [] ==> View() == old(View())
      ensures old(writer) != [] ==> View() == DoStart(old(View()))
    {
      if |writer| == 0 {
        return;
      }
      flight := Some(Flight(writer, Range(cursor, covered), Encoding));
      cursor, covered, writer := covered, START, [];
    }

    /** The task's last act: the buffer drops as many rows as the block had. */
    method DropFromBuffer()
      requires flight.Some?
      modifies this
      ensures View() == DoDrop(old(View()))
    {
      var n := |flight.value.rows|;
      buffer := buffer[if n < |buffer| then n else |buffer|..];
      flight := None;
    }
  }
}

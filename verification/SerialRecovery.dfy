/** What the log and trace ingest loses in a crash, exactly, and when its buffer stays
    in step with its writer. */
module SerialRecovery {
  import opened Options
  import opened WalFrame
  import opened WalLog
  import opened Coverage
  import opened LogFiles
  import opened SerialIngest
  import opened SerialConcerns
  import opened SerialInvariant
  import opened SerialSafety
  import Seqs

  // ------------------------------------------------------------------- recovery

  /** The footers on disk: those of flushes whose encode failed are not there. */
  function Spans(pieces: seq<Piece>): (spans: seq<Option<Range>>)
    ensures |spans| == |pieces|
    ensures forall p | 0 <= p < |pieces| :: spans[p] == if pieces[p].onDisk then pieces[p].range else None
  {
    seq(|pieces|, p requires 0 <= p < |pieces| => if pieces[p].onDisk then pieces[p].range else None)
  }

  function Reach(s: State): nat {
    Through(s.commit, FooterRanges(Spans(s.pieces)))
  }

  ghost predicate Durable(pieces: seq<Piece>, row: nat) {
    exists p | 0 <= p < |pieces| :: pieces[p].onDisk && row in pieces[p].rows
  }

  ghost predicate InFailedFlush(pieces: seq<Piece>, row: nat) {
    exists p | 0 <= p < |pieces| :: !pieces[p].onDisk && row in pieces[p].rows
  }

  /** Neither replayed nor in a block on disk. */
  ghost predicate Lost(c: Config, s: State, row: nat)
    requires row < |s.log|
  {
    s.log[row].pos <= Reach(s) && !Durable(s.pieces, row)
  }

  /** A position the footers cover is in the range of a flush on disk. */
  lemma CoveredByPiece(pieces: seq<Piece>, cursor: nat, log: seq<Logged>, y: nat) returns (p: nat)
    requires SpanInv(pieces, cursor, log) && cursor <= U64_MAX && InSome(FooterRanges(Spans(pieces)), y)
    ensures p < |pieces| && pieces[p].onDisk && pieces[p].range.Some?
    ensures pieces[p].range.value.from < y <= pieces[p].range.value.to
  {
    var rs := FooterRanges(Spans(pieces));
    var i :| 0 <= i < |rs| && rs[i].from < y <= rs[i].to;
    assert WellRanged(Spans(pieces));
    FootersReadBack(Spans(pieces), rs[i]);
    p :| 0 <= p < |Spans(pieces)| && Spans(pieces)[p] == Some(rs[i]);
  }

  lemma ReachBelowCursor(c: Config, s: State)
    requires Safe(c, s)
    ensures s.commit <= Reach(s) <= s.cursor
    ensures s.flight.Some? && s.flight.value.stage == Encoding ==> Reach(s) <= s.flight.value.range.from
  {
    var x := Reach(s);
    ThroughIsReach(s.commit, FooterRanges(Spans(s.pieces)));
    CommitBelowCursor(s);
    if x > s.commit {
      assert InSome(FooterRanges(Spans(s.pieces)), x);
      var p := CoveredByPiece(s.pieces, s.cursor, s.log, x);
    } else if s.commit != START {
      var p :| 0 <= p < |s.pieces| && s.pieces[p].onDisk && s.pieces[p].range.Some? &&
        s.pieces[p].range.value.to == s.commit;
    }
  }

  /** Exact replay boundary: recovery replays, in log order, precisely the rows ever
      logged past the point it reaches. */
  lemma ReplayIsExact(c: Config, s: State)
    requires Safe(c, s)
    ensures After(Entries(c.crc, s.wal.base, s.wal.segs), Reach(s)) == After(EntriesOf(s.log), Reach(s))
  {
    ReachBelowCursor(c, s);
    ReplaysAll(c.crc, s.wal, EntriesOf(s.log), s.commit, Reach(s));
  }

  /** An acknowledged row that is not replayed left the writer in some piece. */
  lemma ReachedIsInPiece(c: Config, s: State, row: nat)
    requires Safe(c, s) && row < |s.log| && s.log[row].acked && s.log[row].pos <= Reach(s)
    ensures Durable(s.pieces, row) || InFailedFlush(s.pieces, row)
  {
    ReachBelowCursor(c, s);
    assert row in AllRows(s.pieces, s.flight, s.writer);
    assert row !in s.writer && row !in EncodingRows(s.flight);
    Seqs.FlattenHas(PieceRows(s.pieces), row);
  }

  lemma {:induction false} FlattenAscends(ss: seq<seq<nat>>, p: nat, q: nat, x: nat)
    requires Ascending(Seqs.Flatten(ss)) && p < q < |ss| && x in ss[p]
    ensures x !in ss[q]
  {
    var all, rest := Seqs.Flatten(ss), Seqs.Flatten(ss[1..]);
    assert all == ss[0] + rest;
    assert Ascending(rest) by {
      assert forall i | 0 <= i < |rest| :: rest[i] == all[|ss[0]| + i];
    }
    if p > 0 {
      FlattenAscends(ss[1..], p - 1, q - 1, x);
    } else {
      var i :| 0 <= i < |ss[0]| && ss[0][i] == x;
      assert forall j | 0 <= j < |rest| :: all[i] < all[|ss[0]| + j] == rest[j];
      Seqs.FlattenHas(ss[1..], x);
      assert ss[1..][q - 1] == ss[q];
    }
  }

  /** No row is in two pieces. */
  lemma OnePieceEach(s: State, p: nat, q: nat, row: nat)
    requires RowsSafe(s) && p < |s.pieces| && q < |s.pieces| && row in s.pieces[p].rows && row in s.pieces[q].rows
    ensures p == q
  {
    var past, all := Seqs.Flatten(PieceRows(s.pieces)), AllRows(s.pieces, s.flight, s.writer);
    assert Ascending(past) by {
      assert forall i | 0 <= i < |past| :: past[i] == all[i];
    }
    if p < q {
      FlattenAscends(PieceRows(s.pieces), p, q, row);
    } else if q < p {
      FlattenAscends(PieceRows(s.pieces), q, p, row);
    }
  }

  /** A failed flush's rows are reached only by a commit past them. */
  lemma FailedIsReachedByCommit(c: Config, s: State, p: nat, row: nat)
    requires Safe(c, s) && p < |s.pieces| && !s.pieces[p].onDisk && row in s.pieces[p].rows
    ensures row < |s.log| && (s.log[row].pos <= Reach(s) <==> s.log[row].pos <= s.commit)
  {
    var pos := s.log[row].pos;
    ReachBelowCursor(c, s);
    if s.commit < pos <= Reach(s) {
      ReachedIsOnDisk(c, s, p, pos);
    }
  }

  lemma ReachedIsOnDisk(c: Config, s: State, p: nat, pos: nat)
    requires Safe(c, s) && s.commit < pos <= Reach(s) && p < |s.pieces| && s.pieces[p].range.Some?
    requires s.pieces[p].range.value.from < pos <= s.pieces[p].range.value.to
    ensures s.pieces[p].onDisk
  {
    var q := ReachedByPiece(c, s, pos);
    OneSpanEach(s.pieces, s.cursor, s.log, p, q, pos);
  }

  /** A position lies in the range of one flush at most. */
  lemma OneSpanEach(pieces: seq<Piece>, cursor: nat, log: seq<Logged>, p: nat, q: nat, pos: nat)
    requires SpanInv(pieces, cursor, log) && p < |pieces| && q < |pieces| && pieces[p].range.Some? &&
             pieces[q].range.Some?
    requires pieces[p].range.value.from < pos <= pieces[p].range.value.to
    requires pieces[q].range.value.from < pos <= pieces[q].range.value.to
    ensures p == q
  {
  }

  /** What recovery reaches past the commit is in the range of a flush on disk. */
  lemma ReachedByPiece(c: Config, s: State, pos: nat) returns (q: nat)
    requires Safe(c, s) && s.commit < pos <= Reach(s)
    ensures q < |s.pieces| && s.pieces[q].onDisk && s.pieces[q].range.Some?
    ensures s.pieces[q].range.value.from < pos <= s.pieces[q].range.value.to
  {
    ReachBelowCursor(c, s);
    ThroughIsReach(s.commit, FooterRanges(Spans(s.pieces)));
    q := CoveredByPiece(s.pieces, s.cursor, s.log, pos);
  }

  /** The exact loss. After any run, an acknowledged row is lost in a crash if and only
      if the encode of its flush failed and the commit point has passed it. */
  lemma LostIffFailedAndCommitted(c: Config, steps: seq<Step>, s: State, row: nat)
    requires IsRun(c, Init(c), steps) && s == RunFrom(c, Init(c), steps)
    requires row < |s.log| && s.log[row].acked
    ensures Lost(c, s, row) <==> InFailedFlush(s.pieces, row) && s.log[row].pos <= s.commit
  {
    InitIsSafe(c);
    RunIsSafe(c, Init(c), steps);
    if InFailedFlush(s.pieces, row) {
      var p :| 0 <= p < |s.pieces| && !s.pieces[p].onDisk && row in s.pieces[p].rows;
      FailedIsReachedByCommit(c, s, p, row);
      FailedIsNotDurable(s, p, row);
    } else if s.log[row].pos <= Reach(s) {
      ReachedIsInPiece(c, s, row);
    }
  }

  lemma FailedIsNotDurable(s: State, p: nat, row: nat)
    requires RowsSafe(s) && p < |s.pieces| && !s.pieces[p].onDisk && row in s.pieces[p].rows
    ensures !Durable(s.pieces, row)
  {
    forall q | 0 <= q < |s.pieces| && row in s.pieces[q].rows ensures !s.pieces[q].onDisk {
      OnePieceEach(s, p, q, row);
    }
  }

  ghost predicate NoEncodeFails(steps: seq<Step>) {
    forall i | 0 <= i < |steps| :: steps[i] != Encode(false)
  }

  lemma {:induction false} AllOnDisk(c: Config, s: State, steps: seq<Step>)
    requires IsRun(c, s, steps) && NoEncodeFails(steps) && forall p | 0 <= p < |s.pieces| :: s.pieces[p].onDisk
    ensures forall p | 0 <= p < |RunFrom(c, s, steps).pieces| :: RunFrom(c, s, steps).pieces[p].onDisk
    decreases |steps|
  {
    if steps != [] {
      assert NoEncodeFails(steps[1..]);
      AllOnDisk(c, Next(c, s, steps[0]), steps[1..]);
    }
  }

  /** No loss while encodes succeed, whatever the index and the commits do. */
  lemma NothingIsLost(c: Config, steps: seq<Step>, s: State, row: nat)
    requires IsRun(c, Init(c), steps) && NoEncodeFails(steps) && s == RunFrom(c, Init(c), steps)
    requires row < |s.log| && s.log[row].acked
    ensures if s.log[row].pos > Reach(s)
            then s.log[row].payload in After(Entries(c.crc, s.wal.base, s.wal.segs), Reach(s))
            else Durable(s.pieces, row)
  {
    InitIsSafe(c);
    RunIsSafe(c, Init(c), steps);
    AllOnDisk(c, Init(c), steps);
    LostIffFailedAndCommitted(c, steps, s, row);
    if s.log[row].pos > Reach(s) {
      ReplayIsExact(c, s);
      AfterHas(EntriesOf(s.log), Reach(s), row);
    }
  }

  // ------------------------------------------------------------------ alignment

  function FlightRows(flight: Option<Flight>): seq<nat> {
    if flight.Some? then flight.value.rows else []
  }

  /** The buffer holds the rows in flight followed by the open ones, in push order. */
  ghost predicate Aligned(s: State) {
    s.buffer == FlightRows(s.flight) + s.writer
  }

  /** A batch fits the open block and as many blocks behind it as there are successful
      block writes. */
  predicate CanTake(c: Config, s: State, n: nat, writes: nat) {
    |s.writer| + n <= c.capacity + writes * c.capacity
  }

  /** From an aligned state, a push stays aligned if and only if its rows can all be
      taken: a failed block write leaves rows in the buffer that no writer took. */
  lemma PushAligns(c: Config, s: State, ps: seq<Bytes>, writes: nat)
    requires Aligned(s) && |s.writer| <= c.capacity && Enabled(c, s, Push(ps, writes))
    ensures Aligned(DoPush(c, s, ps, writes)) <==> CanTake(c, s, |ps|, writes)
    ensures |DoPush(c, s, ps, writes).writer| <= c.capacity
  {
    var ids := NewRows(|s.log|, |ps|);
    var r := PushRows(s.writer, c.capacity, ids, writes);
    PushRowsConserves(s.writer, c.capacity, ids, writes);
    PushRowsOkIff(s.writer, c.capacity, ids, writes);
    ClosesAlone(c, s, |ps|, ids, writes);
    DropClosed(FlightRows(s.flight), s.writer, ids, r);
  }

  lemma DropClosed(flying: seq<nat>, w: seq<nat>, ids: seq<nat>, r: RowsPushed)
    requires r.taken <= |ids| && Seqs.Flatten(r.closed) + r.w == w + ids[..r.taken]
    requires r.closed != [] ==> flying == []
    ensures DropOldest(flying + w + ids, |Seqs.Flatten(r.closed)|) == flying + r.w + ids[r.taken..]
  {
    var gone, taken, left := Seqs.Flatten(r.closed), ids[..r.taken], ids[r.taken..];
    assert ids == taken + left;
    Seqs.Assoc(flying + w, taken, left);
    Seqs.Assoc(flying, w, taken);
    assert flying + w + ids == flying + (gone + r.w) + left;
    if r.closed == [] {
      Seqs.EmptyLeft(r.w);
    } else {
      Seqs.EmptyLeft(gone + r.w);
      Seqs.EmptyLeft(r.w);
      Seqs.Assoc(gone, r.w, left);
      DropPrefix(gone, r.w + left);
    }
  }

  lemma DropPrefix(a: seq<nat>, b: seq<nat>)
    ensures DropOldest(a + b, |a|) == b
  {
  }

  /** A finished flush, on disk or failed, drops exactly its own rows. */
  lemma DropAligns(s: State)
    requires Aligned(s) && s.flight.Some?
    ensures Aligned(DoDrop(s)) && s.buffer == s.flight.value.rows + DoDrop(s).buffer
  {
  }

  /** Every batch along the way can be taken. */
  ghost predicate AllTaken(c: Config, s: State, steps: seq<Step>)
    requires IsRun(c, s, steps)
    decreases |steps|
  {
    steps == [] ||
    ((steps[0].Push? ==> CanTake(c, s, |steps[0].ps|, steps[0].writes)) &&
     AllTaken(c, Next(c, s, steps[0]), steps[1..]))
  }

  lemma {:induction false} RunStaysAligned(c: Config, s: State, steps: seq<Step>)
    requires Aligned(s) && |s.writer| <= c.capacity && IsRun(c, s, steps) && AllTaken(c, s, steps)
    ensures Aligned(RunFrom(c, s, steps))
    decreases |steps|
  {
    if steps != [] {
      var step := steps[0];
      match step {
        case Push(ps, writes) => PushAligns(c, s, ps, writes);
        case Start => Seqs.EmptyRight(s.writer);
        case Drop => DropAligns(s);
        case _ =>
      }
      RunStaysAligned(c, Next(c, s, step), steps[1..]);
    }
  }

  /** Alignment holds after every run whose batches can be taken, with oversized batches
      that the writer splits itself, failed encodes, timeouts and failed commits. */
  lemma StaysAligned(c: Config, steps: seq<Step>)
    requires IsRun(c, Init(c), steps) && AllTaken(c, Init(c), steps)
    ensures Aligned(RunFrom(c, Init(c), steps))
  {
    RunStaysAligned(c, Init(c), steps);
  }
}

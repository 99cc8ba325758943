/** Every step of the log and trace ingest keeps the invariant. */
module SerialSafety {
  import opened Options
  import opened WalFrame
  import opened WalLog
  import opened Coverage
  import opened LogFiles
  import opened SerialIngest
  import opened SerialConcerns
  import opened SerialInvariant
  import Seqs

  lemma InitIsSafe(c: Config)
    ensures Safe(c, Init(c))
  {
    InitLog(c);
    InitRows(c);
  }

  lemma InitLog(c: Config)
    ensures LogSafe(c, Init(c))
  {
    NothingLogged(c.crc, c.limit);
    assert EntriesOf([]) == [];
  }

  lemma InitRows(c: Config)
    ensures RowsSafe(Init(c))
  {
    assert PieceRows([]) == [];
  }

  // ------------------------------------------------------------------ log files

  lemma RecordsOf(log: seq<Logged>, es: seq<Entry>, acked: bool)
    ensures EntriesOf(log + Records(es, acked)) == EntriesOf(log) + es
  {
  }

  lemma PushKeepsLog(c: Config, s: State, ps: seq<Bytes>, acked: bool)
    requires LogSafe(c, s) && FitsLog(c, s, ps)
    ensures var f := Framed(c.crc, ps);
            var all := EntriesOf(s.log + Records(NewEntries(s.wal, ps), acked));
            Keeps(c.crc, Append(s.wal, f), all, s.commit) && Below(all, AppendPos(s.wal, f)) &&
            Position(s.wal) <= AppendPos(s.wal, f) <= Position(Append(s.wal, f)) <= U64_MAX
  {
    var f := Framed(c.crc, ps);
    AppendKeeps(c.crc, s.wal, EntriesOf(s.log), s.commit, f, ps);
    RecordsOf(s.log, NewEntries(s.wal, ps), acked);
    PositionBounded(s, f);
  }

  lemma PositionBounded(s: State, f: Bytes)
    requires |s.wal.segs| >= 1 && Fits(s.wal, f) && (Current(s.wal) + 2) * SPAN <= U64_MAX
    ensures Position(Append(s.wal, f)) <= U64_MAX
  {
  }

  // ---------------------------------------------------------------------- pushes

  /** More log behind changes nothing about the rows already placed. */
  lemma LongerLog(s: State, more: seq<Logged>)
    requires RowsSafe(s) && forall i | 0 <= i < |more| :: !more[i].acked
    ensures RowsSafe(s.(log := s.log + more))
  {
    LongerSpans(s.pieces, s.flight, s.cursor, s.log, more);
  }

  lemma LongerSpans(pieces: seq<Piece>, flight: Option<Flight>, cursor: nat, log: seq<Logged>, more: seq<Logged>)
    requires SpanInv(pieces, cursor, log) && FlightInv(pieces, flight, cursor, log)
    ensures SpanInv(pieces, cursor, log + more) && FlightInv(pieces, flight, cursor, log + more)
  {
  }

  /** A push closes a block only when no flush is in flight. */
  lemma ClosesAlone(c: Config, s: State, n: nat, ids: seq<nat>, writes: nat)
    requires CanPush(c, s, n) && |ids| == n
    ensures PushRows(s.writer, c.capacity, ids, writes).closed != [] ==> s.flight == None
  {
    if n < MaxRows(c) {
      if c.capacity > 0 {
        PushRowsFit(s.writer, c.capacity, ids, writes);
      }
    }
  }

  lemma PieceRowsConcat(pieces: seq<Piece>, closed: seq<seq<nat>>)
    ensures Seqs.Flatten(PieceRows(pieces + Closed(closed))) == Seqs.Flatten(PieceRows(pieces)) + Seqs.Flatten(closed)
  {
    assert PieceRows(pieces + Closed(closed)) == PieceRows(pieces) + closed;
    Seqs.FlattenConcat(PieceRows(pieces), closed);
  }

  /** A push adds the rows it took behind all earlier ones. */
  lemma PushAddsRows(c: Config, s: State, ids: seq<nat>, writes: nat)
    requires CanPush(c, s, |ids|)
    ensures var r := PushRows(s.writer, c.capacity, ids, writes);
            AllRows(s.pieces + Closed(r.closed), s.flight, r.w) ==
            AllRows(s.pieces, s.flight, s.writer) + ids[..r.taken]
  {
    var r := PushRows(s.writer, c.capacity, ids, writes);
    PushRowsConserves(s.writer, c.capacity, ids, writes);
    ClosesAlone(c, s, |ids|, ids, writes);
    PieceRowsConcat(s.pieces, r.closed);
    var past, enc, gone := Seqs.Flatten(PieceRows(s.pieces)), EncodingRows(s.flight), Seqs.Flatten(r.closed);
    if r.closed == [] {
      Seqs.EmptyRight(past);
      assert gone + r.w == r.w;
      Seqs.Assoc(past + enc, s.writer, ids[..r.taken]);
    } else {
      Seqs.EmptyRight(past);
      Seqs.EmptyRight(past + gone);
      Seqs.Assoc(past, gone, r.w);
      Seqs.Assoc(past, s.writer, ids[..r.taken]);
    }
  }

  lemma PushKeepsTaken(all: seq<nat>, log: seq<Logged>, es: seq<Entry>, taken: nat, acked: bool)
    requires TakenInv(all, log) && taken <= |es| && (acked ==> taken == |es|)
    ensures TakenInv(all + NewRows(|log|, |es|)[..taken], log + Records(es, acked))
  {
    var all', log' := all + NewRows(|log|, |es|)[..taken], log + Records(es, acked);
    forall i | 0 <= i < |all| ensures all'[i] == all[i] < |log| {
      assert all[i] in all;
    }
    forall i | 0 <= i < |log'| && log'[i].acked ensures i in all' {
      if i >= |log| {
        assert all'[|all| + i - |log|] == i;
      }
    }
  }

  lemma PushKeepsOpen(w: seq<nat>, w': seq<nat>, covered: nat, cursor: nat, log: seq<Logged>, es: seq<Entry>,
                      acked: bool, at: nat, covered': nat)
    requires OpenInv(w, covered, cursor, log) && covered <= at <= covered' && cursor <= at
    requires forall i | 0 <= i < |es| :: at < es[i].pos <= covered'
    requires forall r | r in w' :: r in w || r in NewRows(|log|, |es|)
    ensures OpenInv(w', covered', cursor, log + Records(es, acked))
  {
  }

  lemma PushKeepsRows(c: Config, s: State, ps: seq<Bytes>, writes: nat)
    requires LogSafe(c, s) && RowsSafe(s) && Enabled(c, s, Push(ps, writes))
    ensures RowsSafe(DoPush(c, s, ps, writes))
  {
    var f, ids := Framed(c.crc, ps), NewRows(|s.log|, |ps|);
    var r, es := PushRows(s.writer, c.capacity, ids, writes), NewEntries(s.wal, ps);
    NewEntriesBounds(c.crc, s.wal, f, ps);
    PushAddsRows(c, s, ids, writes);
    PushRowsConserves(s.writer, c.capacity, ids, writes);
    PushKeepsTaken(AllRows(s.pieces, s.flight, s.writer), s.log, es, r.taken, r.ok);
    assert forall x | x in r.w :: x in Seqs.Flatten(r.closed) + r.w;
    PushKeepsOpen(s.writer, r.w, s.covered, s.cursor, s.log, es, r.ok, Position(s.wal), AppendPos(s.wal, f));
    LongerSpans(s.pieces, s.flight, s.cursor, s.log, Records(es, r.ok));
    MorePieces(s.pieces, Closed(r.closed), s.flight, s.cursor, s.log + Records(es, r.ok), s.commit);
  }

  /** Blocks without a range concern no flush. */
  lemma MorePieces(pieces: seq<Piece>, more: seq<Piece>, flight: Option<Flight>, cursor: nat, log: seq<Logged>,
                   commit: nat)
    requires SpanInv(pieces, cursor, log) && FlightInv(pieces, flight, cursor, log) && CommitInv(commit, pieces)
    requires forall p | 0 <= p < |more| :: more[p].range == None && more[p].onDisk
    ensures SpanInv(pieces + more, cursor, log) && FlightInv(pieces + more, flight, cursor, log)
    ensures CommitInv(commit, pieces + more)
  {
    if flight.Some? && Landed(pieces, flight.value.range) {
      MoreLanded(pieces, more, flight.value.range);
    }
    if EndsAt(pieces, commit) {
      MoreEnds(pieces, more, commit);
    }
  }

  lemma MoreLanded(pieces: seq<Piece>, more: seq<Piece>, range: Range)
    requires Landed(pieces, range)
    ensures Landed(pieces + more, range)
  {
    var p :| 0 <= p < |pieces| && pieces[p].onDisk && pieces[p].range == Some(range);
    assert (pieces + more)[p] == pieces[p];
  }

  lemma MoreEnds(pieces: seq<Piece>, more: seq<Piece>, pos: nat)
    requires EndsAt(pieces, pos)
    ensures EndsAt(pieces + more, pos)
  {
    var p :| 0 <= p < |pieces| && pieces[p].onDisk && pieces[p].range.Some? && pieces[p].range.value.to == pos;
    assert (pieces + more)[p] == pieces[p];
  }

  // --------------------------------------------------------------- flush steps

  lemma StartKeepsRows(s: State)
    requires RowsSafe(s) && s.writer != [] && s.flight == None
    ensures RowsSafe(DoStart(s)) && s.cursor <= s.covered
  {
    var past := Seqs.Flatten(PieceRows(s.pieces));
    assert s.writer[0] in s.writer;
    Seqs.EmptyRight(past);
    Seqs.EmptyRight(past + s.writer);
  }

  lemma EncodeKeepsRows(s: State, ok: bool)
    requires RowsSafe(s) && s.flight.Some? && s.flight.value.stage == Encoding
    ensures RowsSafe(DoEncode(s, ok))
  {
    var fl := s.flight.value;
    var piece := Piece(fl.rows, Some(fl.range), ok);
    var past := Seqs.Flatten(PieceRows(s.pieces));
    assert PieceRows(s.pieces + [piece]) == PieceRows(s.pieces) + [fl.rows];
    Seqs.FlattenSnoc(PieceRows(s.pieces), fl.rows);
    Seqs.EmptyRight(past + fl.rows);
    assert (s.pieces + [piece])[|s.pieces|] == piece;
    if EndsAt(s.pieces, s.commit) {
      MoreEnds(s.pieces, [piece], s.commit);
    }
  }

  /** The commit point lies at or before the end of the latest flush. */
  lemma CommitBelowCursor(s: State)
    requires RowsSafe(s)
    ensures s.commit <= s.cursor
  {
    if s.commit != START {
      var p :| 0 <= p < |s.pieces| && s.pieces[p].onDisk && s.pieces[p].range.Some? &&
        s.pieces[p].range.value.to == s.commit;
    }
  }

  lemma CommitIsSafe(c: Config, s: State, ok: bool, removed: nat)
    requires Safe(c, s) && Enabled(c, s, Commit(ok, removed))
    ensures Safe(c, DoCommit(s, ok, removed))
  {
    var fl := s.flight.value;
    if ok && fl.range.to != START {
      CommitBelowCursor(s);
      CommitKeeps(c.crc, s.wal, EntriesOf(s.log), s.commit, removed, fl.range.to);
      var p :| 0 <= p < |s.pieces| && s.pieces[p].onDisk && s.pieces[p].range == Some(fl.range);
      assert EndsAt(s.pieces, fl.range.to);
    }
  }

  lemma StepIsSafe(c: Config, s: State, step: Step)
    requires Safe(c, s) && Enabled(c, s, step)
    ensures Safe(c, Next(c, s, step))
  {
    match step
    case Push(ps, writes) =>
      PushKeepsLog(c, s, ps, PushRows(s.writer, c.capacity, NewRows(|s.log|, |ps|), writes).ok);
      PushKeepsRows(c, s, ps, writes);
    case PushFail(ps, written) => PushFailIsSafe(c, s, ps, written);
    case Start => StartKeepsRows(s);
    case Encode(ok) => EncodeKeepsRows(s, ok);
    case Index(_) =>
    case Commit(ok, removed) => CommitIsSafe(c, s, ok, removed);
    case Drop =>
  }

  lemma PushFailIsSafe(c: Config, s: State, ps: seq<Bytes>, written: nat)
    requires Safe(c, s) && Enabled(c, s, PushFail(ps, written))
    ensures Safe(c, DoPushFail(c, s, ps, written))
  {
    var f := Framed(c.crc, ps);
    var whole := if written < |f| then ps[..WholeCount(ps, written)] else ps;
    if written < |f| {
      TornKeeps(c.crc, s.wal, EntriesOf(s.log), s.commit, f, ps, written, whole);
    } else {
      PushKeepsLog(c, s, ps, false);
    }
    RecordsOf(s.log, NewEntries(s.wal, whole), false);
    LongerLog(s, Records(NewEntries(s.wal, whole), false));
  }

  lemma {:induction false} RunIsSafe(c: Config, s: State, steps: seq<Step>)
    requires Safe(c, s) && IsRun(c, s, steps)
    ensures Safe(c, RunFrom(c, s, steps))
    decreases |steps|
  {
    if steps != [] {
      StepIsSafe(c, s, steps[0]);
      RunIsSafe(c, Next(c, s, steps[0]), steps[1..]);
    }
  }
}

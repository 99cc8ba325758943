/** What every state of the log and trace ingest keeps, one predicate per concern. */
module SerialConcerns {
  import opened Options
  import opened WalLog
  import opened Coverage
  import opened SerialIngest
  import Seqs

  function EntriesOf(log: seq<Logged>): (es: seq<Entry>)
    ensures |es| == |log| && forall i | 0 <= i < |log| :: es[i] == Entry(log[i].pos, log[i].payload)
  {
    seq(|log|, i requires 0 <= i < |log| => Entry(log[i].pos, log[i].payload))
  }

  function PieceRows(pieces: seq<Piece>): (rs: seq<seq<nat>>)
    ensures |rs| == |pieces| && forall p | 0 <= p < |pieces| :: rs[p] == pieces[p].rows
  {
    seq(|pieces|, p requires 0 <= p < |pieces| => pieces[p].rows)
  }

  function EncodingRows(flight: Option<Flight>): seq<nat> {
    if flight.Some? && flight.value.stage == Encoding then flight.value.rows else []
  }

  /** Every row a writer ever took, in the order it was pushed. */
  function AllRows(pieces: seq<Piece>, flight: Option<Flight>, writer: seq<nat>): seq<nat> {
    Seqs.Flatten(PieceRows(pieces)) + EncodingRows(flight) + writer
  }

  ghost predicate Ascending(rows: seq<nat>) {
    forall i, j | 0 <= i < j < |rows| :: rows[i] < rows[j]
  }

  /** Rows are taken in log order, each once, and acknowledged rows were all taken. */
  ghost predicate TakenInv(all: seq<nat>, log: seq<Logged>) {
    && Ascending(all)
    && (forall r | r in all :: r < |log|)
    && (forall i | 0 <= i < |log| && log[i].acked :: i in all)
  }

  ghost predicate Within(rows: seq<nat>, range: Range, log: seq<Logged>) {
    forall r | r in rows :: r < |log| && range.from < log[r].pos <= range.to
  }

  /** Flush ranges follow one another up to the cursor and hold their own rows. */
  ghost predicate SpanInv(pieces: seq<Piece>, cursor: nat, log: seq<Logged>) {
    && (forall p | 0 <= p < |pieces| && pieces[p].range.Some? ::
          pieces[p].range.value.from <= pieces[p].range.value.to <= cursor &&
          Within(pieces[p].rows, pieces[p].range.value, log))
    && (forall p, q | 0 <= p < q < |pieces| && pieces[p].range.Some? && pieces[q].range.Some? ::
          pieces[p].range.value.to <= pieces[q].range.value.from)
    && (forall p | 0 <= p < |pieces| && pieces[p].range == None :: pieces[p].onDisk)
  }

  ghost predicate Landed(pieces: seq<Piece>, range: Range) {
    exists p | 0 <= p < |pieces| :: pieces[p].onDisk && pieces[p].range == Some(range)
  }

  /** The flush in flight is the latest: until it is encoded everything before it ends
      where it begins, and until it is committed its block is on disk. */
  ghost predicate FlightInv(pieces: seq<Piece>, flight: Option<Flight>, cursor: nat, log: seq<Logged>) {
    flight.Some? ==>
      var fl := flight.value;
      && fl.range.from <= fl.range.to == cursor
      && (fl.stage == Encoding ==>
            Within(fl.rows, fl.range, log) &&
            forall p | 0 <= p < |pieces| && pieces[p].range.Some? :: pieces[p].range.value.to <= fl.range.from)
      && (fl.stage == AwaitIndex || fl.stage == Committing ==> Landed(pieces, fl.range))
  }

  /** Open rows lie past the cursor, at or below the covered position. */
  ghost predicate OpenInv(writer: seq<nat>, covered: nat, cursor: nat, log: seq<Logged>) {
    && (forall r | r in writer :: r < |log| && cursor < log[r].pos <= covered)
    && (covered == START || cursor <= covered)
  }

  ghost predicate EndsAt(pieces: seq<Piece>, pos: nat) {
    exists p | 0 <= p < |pieces| :: pieces[p].onDisk && pieces[p].range.Some? && pieces[p].range.value.to == pos
  }

  /** The commit point is the end of a flush that is on disk. */
  ghost predicate CommitInv(commit: nat, pieces: seq<Piece>) {
    commit == START || EndsAt(pieces, commit)
  }
}

/** The invariant of the log and trace ingest. */
module SerialInvariant {
  import opened WalLog
  import opened Coverage
  import opened SerialIngest
  import opened SerialConcerns
  import opened LogFiles

  ghost predicate LogSafe(c: Config, s: State) {
    && Keeps(c.crc, s.wal, EntriesOf(s.log), s.commit)
    && (!s.wal.poisoned ==> Below(EntriesOf(s.log), Position(s.wal)))
    && s.cursor <= Position(s.wal) && s.covered <= Position(s.wal) <= U64_MAX
  }

  ghost predicate RowsSafe(s: State) {
    && TakenInv(AllRows(s.pieces, s.flight, s.writer), s.log)
    && SpanInv(s.pieces, s.cursor, s.log)
    && FlightInv(s.pieces, s.flight, s.cursor, s.log)
    && OpenInv(s.writer, s.covered, s.cursor, s.log)
    && CommitInv(s.commit, s.pieces)
  }

  ghost predicate Safe(c: Config, s: State) {
    LogSafe(c, s) && RowsSafe(s)
  }
}

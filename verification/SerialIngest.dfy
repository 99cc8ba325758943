/** The log and trace ingest as a state machine: one open writer, at most one flush in
    flight behind a gate, and a memory buffer that drops its oldest rows by count. Rows
    are named by their place in the log. */
module SerialIngest {
  import opened Options
  import opened WalFrame
  import opened WalLog
  import opened Coverage
  import Seqs
  import Writer

  datatype Config = Config(crc: Checksum, capacity: nat, limit: nat)

  /** A logged row and whether its request was acknowledged. */
  datatype Logged = Logged(pos: nat, payload: Bytes, acked: bool)

  /** Rows that left the writer together: a block the writer closed by itself, which
      has no log range, or a flush, which is on disk unless its encode failed. */
  datatype Piece = Piece(rows: seq<nat>, range: Option<Range>, onDisk: bool)

  datatype Stage = Encoding | AwaitIndex | Committing | Dropping

  datatype Flight = Flight(rows: seq<nat>, range: Range, stage: Stage)

  datatype State = State(
    wal: Wal, commit: nat, pieces: seq<Piece>,
    flight: Option<Flight>, writer: seq<nat>, buffer: seq<nat>,
    covered: nat, cursor: nat, log: seq<Logged>)

  datatype Step =
    | Push(ps: seq<Bytes>, writes: nat)
    | PushFail(ps: seq<Bytes>, written: nat)
    | Start
    | Encode(ok: bool)
    | Index(acked: bool)
    | Commit(ok: bool, removed: nat)
    | Drop

  function Init(c: Config): State {
    State(Open(0, [], c.limit), START, [], None, [], [], START, START, [])
  }

  // ------------------------------------------------------------ the row writer

  datatype RowsPushed = RowsPushed(w: seq<nat>, closed: seq<seq<nat>>, taken: nat, ok: bool)

  /** Rows go in one at a time; a full writer closes its block first. `writes` is how
      many block writes succeed before one fails, which ends the push. */
  function PushRows(w: seq<nat>, capacity: nat, rows: seq<nat>, writes: nat): (r: RowsPushed)
    ensures r.taken <= |rows|
    decreases |rows|
  {
    if rows == [] then RowsPushed(w, [], 0, true)
    else
      var p := Writer.PushRow(w, capacity, rows[0], writes > 0);
      if !p.ok then RowsPushed(w, [], 0, false)
      else if p.closed == [] then
        var rest := PushRows(p.buffer, capacity, rows[1..], writes);
        rest.(taken := rest.taken + 1)
      else
        var rest := PushRows(p.buffer, capacity, rows[1..], writes - 1);
        rest.(closed := [p.closed] + rest.closed, taken := rest.taken + 1)
  }

  /** Removes the oldest `n` rows, or all of them. */
  function DropOldest(buffer: seq<nat>, n: nat): seq<nat> {
    buffer[if n < |buffer| then n else |buffer|..]
  }

  // ------------------------------------------------------------------ the steps

  /** The rows of a batch appended to a log of length `n`. */
  function NewRows(n: nat, count: nat): (ids: seq<nat>)
    ensures |ids| == count && forall i | 0 <= i < count :: ids[i] == n + i
  {
    seq(count, i requires 0 <= i < count => n + i)
  }

  function Records(es: seq<Entry>, acked: bool): (rs: seq<Logged>)
    ensures |rs| == |es|
  {
    seq(|es|, i requires 0 <= i < |es| => Logged(es[i].pos, es[i].payload, acked))
  }

  function Closed(blocks: seq<seq<nat>>): (ps: seq<Piece>)
    ensures |ps| == |blocks|
  {
    seq(|blocks|, i requires 0 <= i < |blocks| => Piece(blocks[i], None, true))
  }

  ghost predicate FitsLog(c: Config, s: State, ps: seq<Bytes>) {
    !s.wal.poisoned && |s.wal.segs| >= 1 && AllFramable(ps) && Fits(s.wal, Framed(c.crc, ps)) &&
    (Current(s.wal) + 2) * SPAN <= U64_MAX
  }

  ghost predicate Enabled(c: Config, s: State, step: Step) {
    match step
    case Push(ps, _) => FitsLog(c, s, ps) && CanPush(c, s, |ps|)
    case PushFail(ps, written) => FitsLog(c, s, ps) && written <= |Framed(c.crc, ps)|
    case Start => s.writer != [] && s.flight == None
    case Encode(_) => s.flight.Some? && s.flight.value.stage == Encoding
    case Index(_) => s.flight.Some? && s.flight.value.stage == AwaitIndex
    case Commit(_, removed) =>
      s.flight.Some? && s.flight.value.stage == Committing && removed <= s.flight.value.range.to &&
      |s.wal.segs| >= 1 && s.wal.offset + 1 < SPAN && removed <= Position(s.wal)
    case Drop => s.flight.Some? && s.flight.value.stage == Dropping
  }

  function MaxRows(c: Config): nat {
    if c.capacity == 0 then 1 else c.capacity
  }

  /** Where a batch of `n` rows stands once it has closed a block it would overflow and,
      when it is as big as a whole block, waited for the flush in flight. */
  predicate CanPush(c: Config, s: State, n: nat) {
    (s.writer == [] || |s.writer| + n <= MaxRows(c)) && (n >= MaxRows(c) ==> s.flight == None)
  }

  /** Logged, buffered and written under the rotator's lock. A block that the writer
      closes by itself drops its rows from the buffer; a failed block write refuses
      the request with the rows before it taken. */
  ghost function DoPush(c: Config, s: State, ps: seq<Bytes>, writes: nat): State
    requires Enabled(c, s, Push(ps, writes))
  {
    var f, ids := Framed(c.crc, ps), NewRows(|s.log|, |ps|);
    var r := PushRows(s.writer, c.capacity, ids, writes);
    s.(wal := Append(s.wal, f),
       covered := AppendPos(s.wal, f),
       log := s.log + Records(NewEntries(s.wal, ps), r.ok),
       pieces := s.pieces + Closed(r.closed),
       writer := r.w,
       buffer := DropOldest(s.buffer + ids, |Seqs.Flatten(r.closed)|))
  }

  /** An append that returns an error, before or after all its bytes were written,
      refuses the request there. */
  ghost function DoPushFail(c: Config, s: State, ps: seq<Bytes>, written: nat): State
    requires Enabled(c, s, PushFail(ps, written))
  {
    var f := Framed(c.crc, ps);
    var whole := if written < |f| then ps[..WholeCount(ps, written)] else ps;
    s.(wal := if written < |f| then AppendFailed(s.wal, f, written) else Append(s.wal, f),
       log := s.log + Records(NewEntries(s.wal, whole), false))
  }

  function DoStart(s: State): State {
    s.(flight := Some(Flight(s.writer, Range(s.cursor, s.covered), Encoding)),
       writer := [], cursor := s.covered, covered := START)
  }

  function DoEncode(s: State, ok: bool): State
    requires s.flight.Some?
  {
    var fl := s.flight.value;
    s.(pieces := s.pieces + [Piece(fl.rows, Some(fl.range), ok)],
       flight := Some(fl.(stage := if ok then AwaitIndex else Dropping)))
  }

  function DoIndex(s: State, acked: bool): State
    requires s.flight.Some?
  {
    s.(flight := Some(s.flight.value.(stage := if acked then Committing else Dropping)))
  }

  function DoCommit(s: State, ok: bool, removed: nat): State
    requires s.flight.Some? && |s.wal.segs| >= 1 && s.wal.offset + 1 < SPAN && removed <= Position(s.wal)
  {
    var fl := s.flight.value;
    var s1 := s.(flight := Some(fl.(stage := Dropping)));
    if ok && fl.range.to != START then s1.(commit := fl.range.to, wal := RemoveCovered(s.wal, removed)) else s1
  }

  /** Whether the encode succeeded or not, as many rows as the block had are dropped. */
  function DoDrop(s: State): State
    requires s.flight.Some?
  {
    s.(buffer := DropOldest(s.buffer, |s.flight.value.rows|), flight := None)
  }

  ghost function Next(c: Config, s: State, step: Step): State
    requires Enabled(c, s, step)
  {
    match step
    case Push(ps, writes) => DoPush(c, s, ps, writes)
    case PushFail(ps, written) => DoPushFail(c, s, ps, written)
    case Start => DoStart(s)
    case Encode(ok) => DoEncode(s, ok)
    case Index(acked) => DoIndex(s, acked)
    case Commit(ok, removed) => DoCommit(s, ok, removed)
    case Drop => DoDrop(s)
  }

  ghost predicate IsRun(c: Config, s: State, steps: seq<Step>)
    decreases |steps|
  {
    steps == [] || (Enabled(c, s, steps[0]) && IsRun(c, Next(c, s, steps[0]), steps[1..]))
  }

  ghost function RunFrom(c: Config, s: State, steps: seq<Step>): State
    requires IsRun(c, s, steps)
    decreases |steps|
  {
    if steps == [] then s else RunFrom(c, Next(c, s, steps[0]), steps[1..])
  }

  // ----------------------------------------------------------- the writer's laws

  /** Nothing is lost or reordered on the way through the writer. */
  lemma {:induction false} PushRowsConserves(w: seq<nat>, capacity: nat, rows: seq<nat>, writes: nat)
    ensures var r := PushRows(w, capacity, rows, writes);
            Seqs.Flatten(r.closed) + r.w == w + rows[..r.taken] && (r.ok <==> r.taken == |rows|)
    decreases |rows|
  {
    var r := PushRows(w, capacity, rows, writes);
    if rows == [] {
      Seqs.EmptyRight(w);
    } else {
      var p := Writer.PushRow(w, capacity, rows[0], writes > 0);
      if !p.ok {
        Seqs.EmptyRight(w);
      } else {
        var left := if p.closed == [] then writes else writes - 1;
        var rest := PushRows(p.buffer, capacity, rows[1..], left);
        PushRowsConserves(p.buffer, capacity, rows[1..], left);
        ClosedFirst(p.closed, rest.closed, r.closed);
        PushRowStep(w, p, rows, rest);
      }
    }
  }

  lemma ClosedFirst(first: seq<nat>, rest: seq<seq<nat>>, all: seq<seq<nat>>)
    requires all == if first == [] then rest else [first] + rest
    ensures Seqs.Flatten(all) == first + Seqs.Flatten(rest)
  {
    if first != [] {
      assert all[1..] == rest;
    }
  }

  lemma PushRowStep(w: seq<nat>, p: Writer.RowPushed<nat>, rows: seq<nat>, rest: RowsPushed)
    requires rows != [] && p.closed + p.buffer == w + [rows[0]] && rest.taken < |rows|
    requires Seqs.Flatten(rest.closed) + rest.w == p.buffer + rows[1..][..rest.taken]
    ensures p.closed + Seqs.Flatten(rest.closed) + rest.w == w + rows[..rest.taken + 1]
  {
    Seqs.Assoc(p.closed, Seqs.Flatten(rest.closed), rest.w);
    Seqs.Assoc(p.closed, p.buffer, rows[1..][..rest.taken]);
    Seqs.Assoc(w, [rows[0]], rows[1..][..rest.taken]);
    assert [rows[0]] + rows[1..][..rest.taken] == rows[..rest.taken + 1];
  }

  /** Rows that fit close nothing. */
  lemma {:induction false} PushRowsFit(w: seq<nat>, capacity: nat, rows: seq<nat>, writes: nat)
    requires |w| + |rows| <= capacity
    ensures var r := PushRows(w, capacity, rows, writes); r.closed == [] && r.ok
    decreases |rows|
  {
    if rows != [] {
      PushRowsFit(w + [rows[0]], capacity, rows[1..], writes);
    }
  }

  /** Which pushes succeed: those that fit the open block and as many blocks behind it as
      there are successful writes. */
  lemma {:induction false} PushRowsOkIff(w: seq<nat>, capacity: nat, rows: seq<nat>, writes: nat)
    requires |w| <= capacity
    ensures PushRows(w, capacity, rows, writes).ok <==> |rows| <= capacity - |w| + writes * capacity
    ensures |PushRows(w, capacity, rows, writes).w| <= capacity
    decreases |rows|
  {
    if rows != [] {
      if |w| < capacity {
        PushRowsOkIff(w + [rows[0]], capacity, rows[1..], writes);
      } else if w != [] && writes > 0 {
        PushRowsOkIff([rows[0]], capacity, rows[1..], writes - 1);
        Writer.Distribute(writes, capacity);
      } else if writes > 0 {
        assert capacity == 0;
      }
    }
  }
}

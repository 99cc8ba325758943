/** The segmented write-ahead log: positions, appends with rollover, commits that
    delete covered segments, reopening after a crash, and replay. */
module WalLog {
  import opened WalFrame
  import Seqs

  /** Positions are `(segment << 32) | (offset + 1)`; the model keeps `offset + 1`
      below 2^32, where the bitwise or is an addition. */
  const SPAN: nat := 0x1_0000_0000

  /** Before any record. */
  const START: nat := 0

  function Pos(segment: nat, end: nat): nat {
    segment * SPAN + end + 1
  }

  function SegmentOf(pos: nat): nat {
    pos / SPAN
  }

  /** A record as replay labels it. */
  datatype Entry = Entry(pos: nat, payload: Bytes)

  function SegEntries(segment: nat, rs: seq<Rec>): (es: seq<Entry>)
    ensures |es| == |rs|
  {
    seq(|rs|, i requires 0 <= i < |rs| => Entry(Pos(segment, rs[i].end), rs[i].payload))
  }

  /** Everything the segment files `base`, `base + 1`, ... hold, oldest first. */
  function Entries(crc: Checksum, base: nat, segs: seq<Bytes>): seq<Entry>
    decreases |segs|
  {
    if segs == [] then []
    else SegEntries(base, Scan(crc, segs[0], 0)) + Entries(crc, base + 1, segs[1..])
  }

  /** The payloads replay hands out: those past the commit point, in order. */
  function After(es: seq<Entry>, commit: nat): seq<Bytes> {
    if es == [] then []
    else (if es[0].pos <= commit then [] else [es[0].payload]) + After(es[1..], commit)
  }

  ghost predicate Increasing(es: seq<Entry>) {
    forall i, j | 0 <= i < j < |es| :: es[i].pos < es[j].pos
  }

  // ------------------------------------------------------------------ writer

  /** `offset` is where the next append goes in the newest of the segment files. */
  datatype Wal = Wal(base: nat, segs: seq<Bytes>, offset: nat, limit: nat, poisoned: bool)

  ghost predicate SmallSegments(segs: seq<Bytes>) {
    forall i | 0 <= i < |segs| :: |segs[i]| + 1 < SPAN
  }

  /** A failed append may leave torn bytes behind, but only a poisoned writer has
      them, and it never appends again. */
  ghost predicate Valid(crc: Checksum, w: Wal) {
    && |w.segs| >= 1 && w.limit >= 1
    && SmallSegments(w.segs)
    && var last := w.segs[|w.segs| - 1];
    && w.offset <= |last|
    && Clean(crc, last[..w.offset])
    && (!w.poisoned ==> w.offset == |last|)
  }

  function Current(w: Wal): nat
    requires |w.segs| >= 1
  {
    w.base + |w.segs| - 1
  }

  /** Highest position written so far. */
  function Position(w: Wal): nat
    requires |w.segs| >= 1
  {
    Pos(Current(w), w.offset)
  }

  ghost predicate Fits(w: Wal, records: Bytes) {
    w.offset + |records| + 1 < SPAN
  }

  /** One append of framed records, rolling afterwards when the segment is full. */
  function Append(w: Wal, records: Bytes): Wal
    requires |w.segs| >= 1
  {
    var n := |w.segs| - 1;
    var offset := w.offset + |records|;
    var segs := w.segs[..n] + [w.segs[n] + records];
    if offset >= w.limit
    then w.(segs := segs + [[]], offset := 0)
    else w.(segs := segs, offset := offset)
  }

  /** The position `Append` returns: the end of the last record appended. */
  function AppendPos(w: Wal, records: Bytes): nat
    requires |w.segs| >= 1
  {
    Pos(Current(w), w.offset + |records|)
  }

  /** An append whose write failed after `k` bytes: the writer is poisoned. */
  function AppendFailed(w: Wal, records: Bytes, k: nat): Wal
    requires |w.segs| >= 1 && k <= |records|
  {
    var n := |w.segs| - 1;
    w.(segs := w.segs[..n] + [w.segs[n] + records[..k]], poisoned := true)
  }

  /** Deletes the segments before the one `commit` lies in. */
  function RemoveCovered(w: Wal, commit: nat): Wal
    requires |w.segs| >= 1 && commit <= Position(w) && w.offset + 1 < SPAN
  {
    var k := SegmentOf(commit) - w.base;
    if k <= 0 then w else
    SegmentOfPos(w, commit);
    w.(base := w.base + k, segs := w.segs[k..])
  }

  lemma SegmentOfPos(w: Wal, commit: nat)
    requires |w.segs| >= 1 && commit <= Position(w) && w.offset + 1 < SPAN
    ensures SegmentOf(commit) <= Current(w)
  {
  }

  function Max1(n: nat): nat {
    if n == 0 then 1 else n
  }

  /** Opening reuses the newest segment, cut back to its last whole record, unless
      its size already reaches the limit. */
  function Open(base: nat, segs: seq<Bytes>, limit: nat): Wal {
    if segs == [] then Wal(0, [[]], 0, Max1(limit), false)
    else
      var n := |segs| - 1;
      if |segs[n]| >= Max1(limit) then Wal(base, segs + [[]], 0, Max1(limit), false)
      else
        var offset := LastComplete(segs[n], 0);
        Wal(base, segs[..n] + [segs[n][..offset]], offset, Max1(limit), false)
  }

  datatype Result = Ok(pos: nat) | Err

  /** The writer as the service holds it, over the segment files on disk. */
  class WalWriter {
    var base: nat
    var files: seq<Bytes>
    var segment: nat
    var offset: nat
    var limit: nat
    var poisoned: bool

    ghost predicate Shaped()
      reads this
    {
      |files| >= 1 && segment == base + |files| - 1
    }

    ghost function View(): Wal
      reads this
    {
      Wal(base, files, offset, limit, poisoned)
    }

    constructor (base: nat, segs: seq<Bytes>, maxSegmentBytes: nat)
      ensures Shaped() && View() == Open(base, segs, maxSegmentBytes)
    {
      this.limit := if maxSegmentBytes == 0 then 1 else maxSegmentBytes;
      this.poisoned := false;
      if segs == [] {
        this.base, this.files, this.segment, this.offset := 0, [[]], 0, 0;
      } else {
        this.base := base;
        var n := |segs| - 1;
        if |segs[n]| >= (if maxSegmentBytes == 0 then 1 else maxSegmentBytes) {
          this.files, this.segment, this.offset := segs + [[]], base + n + 1, 0;
        } else {
          var at := LastCompleteOffset(segs[n]);
          this.files := segs[..n] + [segs[n][..at]];
          this.segment, this.offset := base + n, at;
        }
      }
    }

    method Roll()
      requires Shaped()
      modifies this
      ensures Shaped()
      ensures View() == old(View()).(segs := old(files) + [[]], offset := 0)
    {
      segment := segment + 1;
      files := files + [[]];
      offset := 0;
    }

    /** `written` is how many of the bytes the operating system took; fewer than
        all of them is a failed write. */
    method AppendEncoded(records: Bytes, written: nat) returns (r: Result)
      requires Shaped() && written <= |records|
      modifies this
      ensures Shaped()
      ensures old(poisoned) ==> r == Err && View() == old(View())
      ensures !old(poisoned) && written < |records| ==>
                r == Err && View() == AppendFailed(old(View()), records, written)
      ensures !old(poisoned) && written == |records| ==>
                r == Ok(AppendPos(old(View()), records)) && View() == Append(old(View()), records)
    {
      if poisoned {
        return Err;
      }
      var n := |files| - 1;
      if written < |records| {
        files := files[..n] + [files[n] + records[..written]];
        poisoned := true;
        return Err;
      }
      files := files[..n] + [files[n] + records];
      offset := offset + |records|;
      r := Ok(segment * SPAN + (offset + 1));
      if offset >= limit {
        Roll();
      }
    }

    method RemoveCoveredSegments(commit: nat)
      requires Shaped() && commit <= Position(View()) && offset + 1 < SPAN
      modifies this
      ensures Shaped() && View() == RemoveCovered(old(View()), commit)
    {
      ghost var before := View();
      SegmentOfPos(before, commit);
      while base < SegmentOf(commit)
        invariant Shaped() && before.base <= base <= segment
        invariant base <= SegmentOf(commit) || base == before.base
        invariant files == before.segs[base - before.base..]
        invariant View() == before.(base := base, segs := files)
        invariant segment == Current(before)
        decreases segment - base
      {
        files := files[1..];
        base := base + 1;
      }
    }
  }

  /** One segment's records: those past the commit point are handed out. */
  method ReplayRecords(segment: nat, recs: seq<Rec>, commit: nat)
    returns (out: seq<Bytes>, skipped: nat)
    ensures out == After(SegEntries(segment, recs), commit)
    ensures |out| + skipped == |recs|
  {
    out, skipped := [], 0;
    ghost var es := SegEntries(segment, recs);
    for j := 0 to |recs|
      invariant out == After(es[..j], commit)
      invariant |out| + skipped == j
    {
      var pos := segment * SPAN + (recs[j].end + 1);
      AfterSnoc(es[..j], es[j], commit);
      assert es[..j + 1] == es[..j] + [es[j]];
      if pos <= commit {
        skipped := skipped + 1;
      } else {
        out := out + [recs[j].payload];
      }
    }
    assert es[..|recs|] == es;
  }

  /** A segment as replay leaves it: an unusable tail behind a full header is cut. */
  function Cut(crc: Checksum, b: Bytes): Bytes {
    var stop := ScanStop(crc, b, 0);
    if stop + HEADER_LEN <= |b| then b[..stop] else b
  }

  method ReplaySegment(crc: Checksum, segment: nat, b: Bytes, commit: nat)
    returns (out: seq<Bytes>, skipped: nat, kept: Bytes)
    ensures out == After(SegEntries(segment, Scan(crc, b, 0)), commit)
    ensures |out| + skipped == |Scan(crc, b, 0)|
    ensures kept == Cut(crc, b)
  {
    var recs, stop, bad := ScanSegment(crc, b);
    out, skipped := ReplayRecords(segment, recs, commit);
    kept := if bad then b[..stop] else b;
  }

  /** Replay over every segment: records past the commit point are handed out, the
      others counted, and a segment's unusable tail is cut off. */
  method Replay(crc: Checksum, base: nat, segs: seq<Bytes>, commit: nat)
    returns (out: seq<Bytes>, skipped: nat, kept: seq<Bytes>)
    ensures out == After(Entries(crc, base, segs), commit)
    ensures |out| + skipped == |Entries(crc, base, segs)|
    ensures |kept| == |segs| && forall i | 0 <= i < |segs| :: kept[i] == Cut(crc, segs[i])
  {
    out, skipped, kept := [], 0, [];
    var i := 0;
    while i < |segs|
      invariant i <= |segs|
      invariant out == After(Entries(crc, base, segs[..i]), commit)
      invariant |out| + skipped == |Entries(crc, base, segs[..i])|
      invariant |kept| == i && forall k | 0 <= k < i :: kept[k] == Cut(crc, segs[k])
    {
      var more, less, cut := ReplaySegment(crc, base + i, segs[i], commit);
      ReplayOneMore(crc, base, segs, i, commit);
      out, skipped, kept, i := out + more, skipped + less, kept + [cut], i + 1;
    }
    assert segs[..|segs|] == segs;
  }

  // ----------------------------------------------------- entries and replay

  lemma {:induction false} EntriesConcat(crc: Checksum, base: nat, a: seq<Bytes>, b: seq<Bytes>)
    ensures Entries(crc, base, a + b) == Entries(crc, base, a) + Entries(crc, base + |a|, b)
    decreases |a|
  {
    if a == [] {
      assert a + b == b;
    } else {
      var first, rest := SegEntries(base, Scan(crc, a[0], 0)), Entries(crc, base + 1, a[1..]);
      var last := Entries(crc, base + |a|, b);
      assert Entries(crc, base, a + b) == first + (rest + last) by {
        assert (a + b)[0] == a[0] && (a + b)[1..] == a[1..] + b;
        assert base + 1 + |a[1..]| == base + |a|;
        EntriesConcat(crc, base + 1, a[1..], b);
      }
      Seqs.Assoc(first, rest, last);
    }
  }

  lemma EntriesSnoc(crc: Checksum, base: nat, a: seq<Bytes>, b: Bytes)
    ensures Entries(crc, base, a + [b]) == Entries(crc, base, a) + SegEntries(base + |a|, Scan(crc, b, 0))
  {
    EntriesConcat(crc, base, a, [b]);
    Seqs.EmptyRight(SegEntries(base + |a|, Scan(crc, b, 0)));
  }

  lemma ReplayOneMore(crc: Checksum, base: nat, segs: seq<Bytes>, i: nat, commit: nat)
    requires i < |segs|
    ensures var es := SegEntries(base + i, Scan(crc, segs[i], 0));
            |Entries(crc, base, segs[..i + 1])| == |Entries(crc, base, segs[..i])| + |es| &&
            After(Entries(crc, base, segs[..i + 1]), commit) ==
            After(Entries(crc, base, segs[..i]), commit) + After(es, commit)
  {
    assert segs[..i + 1] == segs[..i] + [segs[i]];
    EntriesSnoc(crc, base, segs[..i], segs[i]);
    AfterConcat(Entries(crc, base, segs[..i]), SegEntries(base + i, Scan(crc, segs[i], 0)), commit);
  }

  lemma {:induction false} AfterConcat(a: seq<Entry>, b: seq<Entry>, commit: nat)
    ensures After(a + b, commit) == After(a, commit) + After(b, commit)
    decreases |a|
  {
    if a == [] {
      assert a + b == b;
    } else {
      AfterConcat(a[1..], b, commit);
      assert (a + b)[1..] == a[1..] + b;
      Seqs.Assoc(if a[0].pos <= commit then [] else [a[0].payload], After(a[1..], commit), After(b, commit));
    }
  }

  lemma AfterSnoc(a: seq<Entry>, e: Entry, commit: nat)
    ensures After(a + [e], commit) == After(a, commit) + if e.pos <= commit then [] else [e.payload]
  {
    AfterConcat(a, [e], commit);
  }

  function PayloadsOf(es: seq<Entry>): (ps: seq<Bytes>)
    ensures |ps| == |es|
  {
    seq(|es|, i requires 0 <= i < |es| => es[i].payload)
  }

  lemma {:induction false} AfterNone(es: seq<Entry>, commit: nat)
    requires forall i | 0 <= i < |es| :: es[i].pos <= commit
    ensures After(es, commit) == []
  {
    if es != [] {
      AfterNone(es[1..], commit);
    }
  }

  lemma {:induction false} AfterAll(es: seq<Entry>, commit: nat)
    requires forall i | 0 <= i < |es| :: es[i].pos > commit
    ensures After(es, commit) == PayloadsOf(es)
  {
    if es != [] {
      AfterAll(es[1..], commit);
      assert PayloadsOf(es) == [es[0].payload] + PayloadsOf(es[1..]);
    }
  }

  lemma {:induction false} AfterHas(es: seq<Entry>, commit: nat, i: nat)
    requires i < |es| && es[i].pos > commit
    ensures es[i].payload in After(es, commit)
  {
    if i > 0 {
      AfterHas(es[1..], commit, i - 1);
    }
  }

  lemma FirstRecBounds(rs: seq<Rec>, first: Rec, rest: seq<Rec>, at: nat, end: nat)
    requires rs == [first] + rest && at < first.end <= end
    requires forall i | 0 <= i < |rest| :: first.end < rest[i].end <= end
    requires forall i, j | 0 <= i < j < |rest| :: rest[i].end < rest[j].end
    requires if rest == [] then first.end == end else rest[|rest| - 1].end == end
    ensures forall i | 0 <= i < |rs| :: at < rs[i].end <= end
    ensures forall i, j | 0 <= i < j < |rs| :: rs[i].end < rs[j].end
    ensures rs[|rs| - 1].end == end
  {
    assert forall i | 0 < i < |rs| :: rs[i] == rest[i - 1];
  }

  lemma {:induction false} RecsBounds(crc: Checksum, ps: seq<Bytes>, at: nat)
    requires AllFramable(ps)
    ensures var rs := Recs(ps, at);
            |rs| == |ps| &&
            (forall i | 0 <= i < |rs| :: at < rs[i].end <= at + |Framed(crc, ps)|) &&
            (forall i, j | 0 <= i < j < |rs| :: rs[i].end < rs[j].end) &&
            (ps != [] ==> rs[|rs| - 1].end == at + |Framed(crc, ps)|)
    decreases |ps|
  {
    if ps != [] {
      var end := at + HEADER_LEN + |ps[0]|;
      var rest := Recs(ps[1..], end);
      RecsBounds(crc, ps[1..], end);
      FirstRecBounds(Recs(ps, at), Rec(ps[0], end), rest, at, end + |Framed(crc, ps[1..])|);
    }
  }

  lemma ScanBounds(crc: Checksum, b: Bytes)
    ensures var rs := Scan(crc, b, 0);
            (forall i | 0 <= i < |rs| :: 0 < rs[i].end <= |b|) &&
            (forall i, j | 0 <= i < j < |rs| :: rs[i].end < rs[j].end)
  {
    ScanIsFramed(crc, b, 0);
    RecsBounds(crc, Payloads(Scan(crc, b, 0)), 0);
  }

  /** Positions of one segment's records. */
  lemma SegEntriesBounds(crc: Checksum, segment: nat, b: Bytes)
    ensures var es := SegEntries(segment, Scan(crc, b, 0));
            Increasing(es) && forall i | 0 <= i < |es| :: segment * SPAN < es[i].pos <= Pos(segment, |b|)
  {
    ScanBounds(crc, b);
  }

  lemma IncreasingConcat(a: seq<Entry>, b: seq<Entry>, mid: nat)
    requires Increasing(a) && Increasing(b)
    requires forall i | 0 <= i < |a| :: a[i].pos <= mid
    requires forall i | 0 <= i < |b| :: mid < b[i].pos
    ensures Increasing(a + b)
  {
  }

  /** Positions grow strictly along the whole log and tell segments apart. */
  lemma {:induction false} EntriesIncreasing(crc: Checksum, base: nat, segs: seq<Bytes>)
    requires SmallSegments(segs)
    ensures var es := Entries(crc, base, segs);
            Increasing(es) &&
            (forall i | 0 <= i < |es| :: base * SPAN < es[i].pos < (base + |segs|) * SPAN)
    decreases |segs|
  {
    if segs != [] {
      SegEntriesBounds(crc, base, segs[0]);
      assert SmallSegments(segs[1..]);
      EntriesIncreasing(crc, base + 1, segs[1..]);
      IncreasingConcat(SegEntries(base, Scan(crc, segs[0], 0)), Entries(crc, base + 1, segs[1..]), (base + 1) * SPAN);
    }
  }

  /** The records before the newest segment, and those in it. */
  lemma SplitNewest(crc: Checksum, w: Wal)
    requires |w.segs| >= 1 && SmallSegments(w.segs)
    ensures var n := |w.segs| - 1;
            var older := Entries(crc, w.base, w.segs[..n]);
            var newest := SegEntries(Current(w), Scan(crc, w.segs[n], 0));
            Entries(crc, w.base, w.segs) == older + newest &&
            Increasing(older) && Increasing(newest) &&
            (forall i | 0 <= i < |older| :: 0 < older[i].pos < Current(w) * SPAN) &&
            (forall i | 0 <= i < |newest| :: Current(w) * SPAN < newest[i].pos <= Pos(Current(w), |w.segs[n]|))
  {
    var n := |w.segs| - 1;
    assert w.segs == w.segs[..n] + [w.segs[n]];
    EntriesSnoc(crc, w.base, w.segs[..n], w.segs[n]);
    assert SmallSegments(w.segs[..n]);
    EntriesIncreasing(crc, w.base, w.segs[..n]);
    SegEntriesBounds(crc, Current(w), w.segs[n]);
  }

  /** Every record in the log is at or below the writer's position. */
  lemma EntriesBelowPosition(crc: Checksum, w: Wal)
    requires Valid(crc, w) && !w.poisoned
    ensures var es := Entries(crc, w.base, w.segs);
            Increasing(es) && forall i | 0 <= i < |es| :: 0 < es[i].pos <= Position(w)
  {
    SplitNewest(crc, w);
    var n := |w.segs| - 1;
    IncreasingConcat(Entries(crc, w.base, w.segs[..n]),
                     SegEntries(Current(w), Scan(crc, w.segs[n], 0)), Current(w) * SPAN);
  }

  // ------------------------------------------------------- what appends add

  /** The entries a batch becomes when appended at the writer's position. */
  function NewEntries(w: Wal, ps: seq<Bytes>): seq<Entry>
    requires |w.segs| >= 1
  {
    SegEntries(Current(w), Recs(ps, w.offset))
  }

  /** The positions of a batch lie between the writer's position before the append
      and the position the append returns, which is the last record's. */
  lemma NewEntriesBounds(crc: Checksum, w: Wal, f: Bytes, ps: seq<Bytes>)
    requires |w.segs| >= 1 && AllFramable(ps) && f == Framed(crc, ps)
    ensures var es := NewEntries(w, ps);
            var pos := AppendPos(w, f);
            PayloadsOf(es) == ps && Increasing(es) && Position(w) <= pos &&
            (forall i | 0 <= i < |es| :: Position(w) < es[i].pos <= pos) &&
            (ps != [] ==> es[|es| - 1].pos == pos)
  {
    RecsBounds(crc, ps, w.offset);
    RecsPayloads(ps, w.offset);
  }

  /** An append adds exactly its records to the log and keeps the writer valid. */
  lemma AppendAdds(crc: Checksum, w: Wal, f: Bytes, ps: seq<Bytes>)
    requires Valid(crc, w) && !w.poisoned && AllFramable(ps) && f == Framed(crc, ps) && Fits(w, f)
    ensures var w' := Append(w, f);
            Valid(crc, w') && !w'.poisoned &&
            Entries(crc, w'.base, w'.segs) == Entries(crc, w.base, w.segs) + NewEntries(w, ps) &&
            AppendPos(w, f) <= Position(w')
  {
    var n := |w.segs| - 1;
    var last := w.segs[n];
    WholeSlice(last);
    AppendFramed(crc, last, f, ps);
    AppendToNewest(crc, w.base, w.segs, last + f, Recs(ps, |last|));
    AppendValid(crc, w, f);
  }

  lemma WholeSlice(b: Bytes)
    ensures b[..|b|] == b
  {
  }

  /** Rolling adds an empty segment, which holds nothing. */
  lemma AppendValid(crc: Checksum, w: Wal, f: Bytes)
    requires Valid(crc, w) && !w.poisoned && Fits(w, f) && Clean(crc, w.segs[|w.segs| - 1] + f)
    ensures var n := |w.segs| - 1;
            var w' := Append(w, f);
            Valid(crc, w') && !w'.poisoned && AppendPos(w, f) <= Position(w') &&
            Entries(crc, w'.base, w'.segs) == Entries(crc, w.base, w.segs[..n] + [w.segs[n] + f])
  {
    var n := |w.segs| - 1;
    var grown := w.segs[n] + f;
    if w.offset + |f| >= w.limit {
      EntriesSnoc(crc, w.base, w.segs[..n] + [grown], []);
      ScanAtEnd(crc, []);
      Seqs.EmptyRight(Entries(crc, w.base, w.segs[..n] + [grown]));
      WholeSlice([]);
    } else {
      WholeSlice(grown);
    }
  }

  lemma SegEntriesConcat(segment: nat, a: seq<Rec>, b: seq<Rec>)
    ensures SegEntries(segment, a + b) == SegEntries(segment, a) + SegEntries(segment, b)
  {
  }

  /** Records added to the newest segment are added to the log. */
  lemma AppendToNewest(crc: Checksum, base: nat, segs: seq<Bytes>, grown: Bytes, added: seq<Rec>)
    requires |segs| >= 1
    requires Scan(crc, grown, 0) == Scan(crc, segs[|segs| - 1], 0) + added
    ensures var n := |segs| - 1;
            Entries(crc, base, segs[..n] + [grown]) ==
            Entries(crc, base, segs) + SegEntries(base + n, added)
  {
    var n := |segs| - 1;
    assert segs == segs[..n] + [segs[n]];
    GrowNewest(crc, base, segs[..n], segs[n], grown, added);
  }

  lemma GrowNewest(crc: Checksum, base: nat, older: seq<Bytes>, last: Bytes, grown: Bytes, added: seq<Rec>)
    requires Scan(crc, grown, 0) == Scan(crc, last, 0) + added
    ensures Entries(crc, base, older + [grown]) ==
            Entries(crc, base, older + [last]) + SegEntries(base + |older|, added)
  {
    var es, had := Entries(crc, base, older), Scan(crc, last, 0);
    EntriesSnoc(crc, base, older, last);
    EntriesSnoc(crc, base, older, grown);
    SegEntriesConcat(base + |older|, had, added);
    Seqs.Assoc(es, SegEntries(base + |older|, had), SegEntries(base + |older|, added));
  }

  /** A failed append leaves every earlier record readable and adds at most the
      records that were written whole. */
  lemma FailedAppendAdds(crc: Checksum, w: Wal, f: Bytes, ps: seq<Bytes>, k: nat, whole: seq<Bytes>)
    requires Valid(crc, w) && !w.poisoned && AllFramable(ps) && f == Framed(crc, ps) && Fits(w, f)
    requires k <= |f| && whole == ps[..WholeCount(ps, k)]
    ensures var w' := AppendFailed(w, f, k);
            Valid(crc, w') && Position(w') == Position(w) &&
            Entries(crc, w'.base, w'.segs) == Entries(crc, w.base, w.segs) + NewEntries(w, whole)
  {
    TornEntries(crc, w, f, ps, k, whole);
    TornValid(crc, w, f[..k]);
  }

  lemma TornEntries(crc: Checksum, w: Wal, f: Bytes, ps: seq<Bytes>, k: nat, whole: seq<Bytes>)
    requires Valid(crc, w) && !w.poisoned && AllFramable(ps) && f == Framed(crc, ps)
    requires k <= |f| && whole == ps[..WholeCount(ps, k)]
    ensures var n := |w.segs| - 1;
            Entries(crc, w.base, w.segs[..n] + [w.segs[n] + f[..k]]) ==
            Entries(crc, w.base, w.segs) + NewEntries(w, whole)
  {
    var last := w.segs[|w.segs| - 1];
    WholeSlice(last);
    TornNewest(crc, w.base, w.segs, f, ps, k, whole);
  }

  lemma TornNewest(crc: Checksum, base: nat, segs: seq<Bytes>, f: Bytes, ps: seq<Bytes>, k: nat, whole: seq<Bytes>)
    requires segs != [] && Clean(crc, segs[|segs| - 1]) && AllFramable(ps) && f == Framed(crc, ps)
    requires k <= |f| && whole == ps[..WholeCount(ps, k)]
    ensures var n := |segs| - 1;
            Entries(crc, base, segs[..n] + [segs[n] + f[..k]]) ==
            Entries(crc, base, segs) + SegEntries(base + n, Recs(whole, |segs[n]|))
  {
    var n := |segs| - 1;
    AppendTornAs(crc, segs[n], f, ps, k, whole, Framed(crc, whole));
    AppendToNewest(crc, base, segs, segs[n] + f[..k], Recs(whole, |segs[n]|));
  }

  lemma TornValid(crc: Checksum, w: Wal, tail: Bytes)
    requires Valid(crc, w) && !w.poisoned && Fits(w, tail)
    ensures var n := |w.segs| - 1;
            Valid(crc, w.(segs := w.segs[..n] + [w.segs[n] + tail], poisoned := true))
  {
    var last := w.segs[|w.segs| - 1];
    WholeSlice(last);
    PrefixOfConcat(last, tail);
  }

  lemma PrefixOfConcat(a: Bytes, b: Bytes)
    ensures (a + b)[..|a|] == a
  {
  }

  // ----------------------------------------------------------------- commits

  lemma RemoveCoveredValid(crc: Checksum, w: Wal, commit: nat)
    requires Valid(crc, w) && commit <= Position(w)
    ensures var w' := RemoveCovered(w, commit);
            Valid(crc, w') && Position(w') == Position(w) && w'.poisoned == w.poisoned
  {
    var k := SegmentOf(commit) - w.base;
    if k > 0 {
      SegmentOfPos(w, commit);
      DropOlderValid(crc, w, k);
    }
  }

  /** Committing deletes only records at or below the commit point. */
  lemma RemoveCoveredKeeps(crc: Checksum, w: Wal, commit: nat)
    requires Valid(crc, w) && commit <= Position(w)
    ensures var w', gone := RemoveCovered(w, commit), Removed(crc, w, commit);
            Entries(crc, w.base, w.segs) == gone + Entries(crc, w'.base, w'.segs) &&
            forall i | 0 <= i < |gone| :: gone[i].pos <= commit
  {
    var k := SegmentOf(commit) - w.base;
    if k > 0 {
      SegmentOfPos(w, commit);
      SegmentStart(commit);
      DropOlderEntries(crc, w.base, w.segs, k);
    } else {
      Seqs.EmptyLeft(Entries(crc, w.base, w.segs));
    }
  }

  lemma SegmentStart(pos: nat)
    ensures SegmentOf(pos) * SPAN <= pos
  {
  }

  lemma DropOlderValid(crc: Checksum, w: Wal, k: nat)
    requires Valid(crc, w) && k < |w.segs|
    ensures var w' := w.(base := w.base + k, segs := w.segs[k..]);
            Valid(crc, w') && Position(w') == Position(w)
  {
  }

  lemma DropOlderEntries(crc: Checksum, base: nat, segs: seq<Bytes>, k: nat)
    requires SmallSegments(segs) && k <= |segs|
    ensures var gone := Entries(crc, base, segs[..k]);
            Entries(crc, base, segs) == gone + Entries(crc, base + k, segs[k..]) &&
            forall i | 0 <= i < |gone| :: gone[i].pos < (base + k) * SPAN
  {
    assert segs == segs[..k] + segs[k..];
    EntriesConcat(crc, base, segs[..k], segs[k..]);
    EntriesIncreasing(crc, base, segs[..k]);
  }

  /** What `RemoveCovered` deletes. */
  function Removed(crc: Checksum, w: Wal, commit: nat): seq<Entry>
    requires |w.segs| >= 1 && commit <= Position(w) && w.offset + 1 < SPAN
  {
    SegmentOfPos(w, commit);
    var k := SegmentOf(commit) - w.base;
    if k <= 0 then [] else Entries(crc, w.base, w.segs[..k])
  }

  /** Deleting covered segments changes no replay from at or after the commit. */
  lemma RemoveCoveredReplays(crc: Checksum, w: Wal, commit: nat, from: nat)
    requires Valid(crc, w) && commit <= Position(w) && commit <= from
    ensures var w' := RemoveCovered(w, commit);
            After(Entries(crc, w'.base, w'.segs), from) == After(Entries(crc, w.base, w.segs), from)
  {
    var w' := RemoveCovered(w, commit);
    RemoveCoveredKeeps(crc, w, commit);
    AfterConcat(Removed(crc, w, commit), Entries(crc, w'.base, w'.segs), from);
    AfterNone(Removed(crc, w, commit), from);
  }

  // -------------------------------------------------------------- whole runs

  datatype Op = Appended(ps: seq<Bytes>) | Committed(pos: nat)

  /** An append of framed records that fits the position encoding, or a commit no
      later than `through`. */
  ghost predicate OpOk(crc: Checksum, w: Wal, op: Op, through: nat) {
    |w.segs| >= 1 && w.offset + 1 < SPAN &&
    match op
    case Appended(ps) => AllFramable(ps) && Fits(w, Framed(crc, ps))
    case Committed(pos) => pos <= Position(w) && pos <= through
  }

  ghost function DoOp(crc: Checksum, w: Wal, op: Op, through: nat): Wal
    requires OpOk(crc, w, op, through)
  {
    match op
    case Appended(ps) => Append(w, Framed(crc, ps))
    case Committed(pos) => RemoveCovered(w, pos)
  }

  ghost predicate RunOk(crc: Checksum, w: Wal, ops: seq<Op>, through: nat)
    decreases |ops|
  {
    ops == [] || (OpOk(crc, w, ops[0], through) && RunOk(crc, DoOp(crc, w, ops[0], through), ops[1..], through))
  }

  ghost function Run(crc: Checksum, w: Wal, ops: seq<Op>, through: nat): Wal
    requires RunOk(crc, w, ops, through)
    decreases |ops|
  {
    if ops == [] then w else Run(crc, DoOp(crc, w, ops[0], through), ops[1..], through)
  }

  /** Everything a run appended, in order. */
  ghost function AppendedBy(ops: seq<Op>): seq<Bytes> {
    if ops == [] then []
    else (if ops[0].Appended? then ops[0].ps else []) + AppendedBy(ops[1..])
  }

  /** One operation: an append adds to what replay delivers, a commit does not
      change it. */
  lemma ReplayStep(crc: Checksum, w: Wal, op: Op, from: nat)
    requires Valid(crc, w) && !w.poisoned && from <= Position(w) && OpOk(crc, w, op, from)
    ensures var w' := DoOp(crc, w, op, from);
            Valid(crc, w') && !w'.poisoned && from <= Position(w') &&
            After(Entries(crc, w'.base, w'.segs), from) ==
            After(Entries(crc, w.base, w.segs), from) + if op.Appended? then op.ps else []
  {
    match op
    case Appended(ps) =>
      var f := Framed(crc, ps);
      AppendAdds(crc, w, f, ps);
      NewEntriesBounds(crc, w, f, ps);
      AfterConcat(Entries(crc, w.base, w.segs), NewEntries(w, ps), from);
      AfterAll(NewEntries(w, ps), from);
    case Committed(pos) =>
      RemoveCoveredValid(crc, w, pos);
      RemoveCoveredReplays(crc, w, pos, from);
      Seqs.EmptyRight(After(Entries(crc, w.base, w.segs), from));
  }

  /** Over any run of appends and commits, replay from a fixed point delivers what
      it delivered before and then everything the run appended, in order. */
  lemma {:induction false} ReplayFollows(crc: Checksum, w: Wal, ops: seq<Op>, from: nat)
    requires Valid(crc, w) && !w.poisoned && from <= Position(w) && RunOk(crc, w, ops, from)
    ensures var w' := Run(crc, w, ops, from);
            Valid(crc, w') && !w'.poisoned &&
            After(Entries(crc, w'.base, w'.segs), from) ==
            After(Entries(crc, w.base, w.segs), from) + AppendedBy(ops)
    decreases |ops|
  {
    var had := After(Entries(crc, w.base, w.segs), from);
    if ops == [] {
      Seqs.EmptyRight(had);
    } else {
      ReplayStep(crc, w, ops[0], from);
      ReplayFollows(crc, DoOp(crc, w, ops[0], from), ops[1..], from);
      Seqs.Assoc(had, if ops[0].Appended? then ops[0].ps else [], AppendedBy(ops[1..]));
    }
  }

  /** Replay from the position an append returned delivers exactly the records
      appended later, in order, across rollovers and segment deletions. */
  lemma ReplayExact(crc: Checksum, w: Wal, f: Bytes, ps: seq<Bytes>, ops: seq<Op>)
    requires Valid(crc, w) && !w.poisoned && AllFramable(ps) && f == Framed(crc, ps) && Fits(w, f)
    requires RunOk(crc, Append(w, f), ops, AppendPos(w, f))
    ensures var p := AppendPos(w, f);
            var w' := Run(crc, Append(w, f), ops, p);
            After(Entries(crc, w'.base, w'.segs), p) == AppendedBy(ops)
  {
    var p, w1 := AppendPos(w, f), Append(w, f);
    assert After(Entries(crc, w1.base, w1.segs), p) == [] by {
      AppendAdds(crc, w, f, ps);
      EntriesBelowPosition(crc, w);
      NewEntriesBounds(crc, w, f, ps);
      AfterNone(Entries(crc, w1.base, w1.segs), p);
    }
    AppendAdds(crc, w, f, ps);
    ReplayFollows(crc, w1, ops, p);
  }

  /** From the start of an empty log, replay delivers everything ever appended. */
  lemma ReplayFromStart(crc: Checksum, limit: nat, ops: seq<Op>)
    requires RunOk(crc, Open(0, [], limit), ops, START)
    ensures var w' := Run(crc, Open(0, [], limit), ops, START);
            After(Entries(crc, w'.base, w'.segs), START) == AppendedBy(ops)
  {
    EmptyLog(crc, limit);
    ReplayFollows(crc, Open(0, [], limit), ops, START);
  }

  lemma EmptyLog(crc: Checksum, limit: nat)
    ensures var w := Open(0, [], limit); Valid(crc, w) && Entries(crc, w.base, w.segs) == []
  {
    ScanAtEnd(crc, []);
    WholeSlice([]);
    assert Entries(crc, 0, [[]]) == [];
  }

  // ------------------------------------------------------------------ reopen

  /** Cutting a file at or after the point where its scan stops changes nothing
      that replay reads. */
  lemma CutKeepsScan(crc: Checksum, b: Bytes, n: nat)
    requires ScanStop(crc, b, 0) <= n <= |b|
    ensures Scan(crc, b[..n], 0) == Scan(crc, b, 0)
    ensures ScanStop(crc, b[..n], 0) == ScanStop(crc, b, 0)
  {
    var stop := ScanStop(crc, b, 0);
    var ps := Payloads(Scan(crc, b, 0));
    ScanIsFramed(crc, b, 0);
    CutHas(b, n, stop);
    CutKeepsBad(crc, b, n, stop);
    ReadsExactly(crc, b[..n], 0, b[0..stop], ps);
  }

  lemma CutHas(b: Bytes, n: nat, stop: nat)
    requires stop <= n <= |b|
    ensures HasAt(b[..n], 0, b[0..stop])
  {
  }

  lemma CutKeepsBad(crc: Checksum, b: Bytes, n: nat, off: nat)
    requires n <= |b| && !IntactAt(crc, b, off)
    ensures !IntactAt(crc, b[..n], off)
  {
    var c := b[..n];
    if WholeAt(c, off) {
      assert c[off..off + 4] == b[off..off + 4];
      assert c[off + 4..off + 8] == b[off + 4..off + 8];
      assert PayloadAt(c, off) == PayloadAt(b, off);
    }
  }

  /** Reopening loses no readable record. It leaves a healthy log exactly when replay of
      the newest file does not stop at a whole record, or the file is full and so left
      alone. */
  lemma ReopenSound(crc: Checksum, base: nat, segs: seq<Bytes>, limit: nat)
    requires segs != [] && SmallSegments(segs)
    ensures var w := Open(base, segs, limit);
            var last := segs[|segs| - 1];
            Entries(crc, w.base, w.segs) == Entries(crc, base, segs) && !w.poisoned &&
            (Valid(crc, w) <==> |last| >= Max1(limit) || !WholeAt(last, ScanStop(crc, last, 0)))
  {
    ReopenKeepsEntries(crc, base, segs, limit);
    ReopenValidIff(crc, base, segs, limit);
  }

  lemma ReopenKeepsEntries(crc: Checksum, base: nat, segs: seq<Bytes>, limit: nat)
    requires segs != []
    ensures var w := Open(base, segs, limit); Entries(crc, w.base, w.segs) == Entries(crc, base, segs)
  {
    var n := |segs| - 1;
    var older, last := segs[..n], segs[n];
    if |last| >= Max1(limit) {
      EntriesSnoc(crc, base, segs, []);
      ScanAtEnd(crc, []);
      Seqs.EmptyRight(Entries(crc, base, segs));
    } else {
      var at := LastComplete(last, 0);
      ReopenAgreesWithReplay(crc, last, 0);
      CutKeepsScan(crc, last, at);
      assert segs == older + [last];
      EntriesSnoc(crc, base, older, last);
      EntriesSnoc(crc, base, older, last[..at]);
    }
  }

  lemma ReopenValidIff(crc: Checksum, base: nat, segs: seq<Bytes>, limit: nat)
    requires segs != [] && SmallSegments(segs)
    ensures var last := segs[|segs| - 1];
            Valid(crc, Open(base, segs, limit)) <==> |last| >= Max1(limit) || !WholeAt(last, ScanStop(crc, last, 0))
  {
    var last := segs[|segs| - 1];
    if |last| >= Max1(limit) {
      ScanAtEnd(crc, []);
      WholeSlice([]);
    } else {
      var at := LastComplete(last, 0);
      ReopenAgreesWithReplay(crc, last, 0);
      CutKeepsScan(crc, last, at);
      WholeSlice(last[..at]);
    }
  }

  /** Behind a whole record with a bad checksum nothing is ever read. */
  lemma BadRecordBlocks(crc: Checksum, b: Bytes, tail: Bytes)
    requires WholeAt(b, ScanStop(crc, b, 0))
    ensures Scan(crc, b + tail, 0) == Scan(crc, b, 0)
  {
    var stop := ScanStop(crc, b, 0);
    var ps := Payloads(Scan(crc, b, 0));
    ScanIsFramed(crc, b, 0);
    BadStaysBad(crc, b, tail, stop);
    PrefixHas(b, tail, stop);
    ReadsExactly(crc, b + tail, 0, b[0..stop], ps);
  }

  lemma PrefixHas(b: Bytes, tail: Bytes, stop: nat)
    requires stop <= |b|
    ensures HasAt(b + tail, 0, b[0..stop])
  {
  }

  lemma BadStaysBad(crc: Checksum, b: Bytes, tail: Bytes, off: nat)
    requires WholeAt(b, off) && !IntactAt(crc, b, off)
    ensures !IntactAt(crc, b + tail, off)
  {
    var c := b + tail;
    assert c[off..off + 4] == b[off..off + 4];
    assert c[off + 4..off + 8] == b[off + 4..off + 8];
    assert PayloadAt(c, off) == PayloadAt(b, off);
  }

  /** Reopening keeps a whole record that replay stopped at, and replay stops there again. */
  lemma ReopenKeepsBad(crc: Checksum, b: Bytes)
    requires WholeAt(b, ScanStop(crc, b, 0))
    ensures var kept := b[..LastComplete(b, 0)];
            Scan(crc, kept, 0) == Scan(crc, b, 0) && WholeAt(kept, ScanStop(crc, kept, 0))
  {
    var stop, at := ScanStop(crc, b, 0), LastComplete(b, 0);
    BadIsComplete(crc, b, 0);
    CutKeepsScan(crc, b, at);
    WholeInPrefix(b, stop, at);
  }

  lemma {:induction false} BadIsComplete(crc: Checksum, b: Bytes, off: nat)
    requires off <= |b| && WholeAt(b, ScanStop(crc, b, off))
    ensures EndAt(b, ScanStop(crc, b, off)) <= LastComplete(b, off)
    decreases |b| - off
  {
    if IntactAt(crc, b, off) {
      BadIsComplete(crc, b, EndAt(b, off));
    }
  }

  lemma WholeInPrefix(b: Bytes, off: nat, at: nat)
    requires WholeAt(b, off) && EndAt(b, off) <= at <= |b|
    ensures WholeAt(b[..at], off)
  {
    assert b[..at][off..off + 4] == b[off..off + 4];
  }

  /** An append to such a log is unreadable, all of it. */
  lemma BadTailSwallows(crc: Checksum, w: Wal, f: Bytes)
    requires |w.segs| >= 1 && WholeAt(w.segs[|w.segs| - 1], ScanStop(crc, w.segs[|w.segs| - 1], 0))
    ensures var w' := Append(w, f); Entries(crc, w'.base, w'.segs) == Entries(crc, w.base, w.segs)
  {
    var n := |w.segs| - 1;
    var older, last := w.segs[..n], w.segs[n];
    assert w.segs == older + [last];
    BadRecordBlocks(crc, last, f);
    EntriesSnoc(crc, w.base, older, last);
    EntriesSnoc(crc, w.base, older, last + f);
    EntriesSnoc(crc, w.base, older + [last + f], []);
    ScanAtEnd(crc, []);
    Seqs.EmptyRight(Entries(crc, w.base, older + [last + f]));
  }

  /** What is appended after reopening is read back if and only if the newest file was
      full, or replay of it does not stop at a whole record; otherwise none of it is. */
  lemma ReopenReadsBackIff(crc: Checksum, base: nat, segs: seq<Bytes>, limit: nat, f: Bytes, qs: seq<Bytes>)
    requires segs != [] && SmallSegments(segs) && qs != [] && AllFramable(qs) && f == Framed(crc, qs)
    requires Fits(Open(base, segs, limit), f)
    ensures var w := Open(base, segs, limit);
            var w' := Append(w, f);
            var last := segs[|segs| - 1];
            var healthy := |last| >= Max1(limit) || !WholeAt(last, ScanStop(crc, last, 0));
            (Entries(crc, w'.base, w'.segs) == Entries(crc, base, segs) + NewEntries(w, qs) <==> healthy) &&
            (!healthy ==> Entries(crc, w'.base, w'.segs) == Entries(crc, base, segs))
  {
    var w, last := Open(base, segs, limit), segs[|segs| - 1];
    ReopenSound(crc, base, segs, limit);
    NewEntriesBounds(crc, w, f, qs);
    assert |PayloadsOf(NewEntries(w, qs))| == |qs|;
    if |last| >= Max1(limit) || !WholeAt(last, ScanStop(crc, last, 0)) {
      AppendAdds(crc, w, f, qs);
    } else {
      ReopenKeepsBad(crc, last);
      BadTailSwallows(crc, w, f);
    }
  }

  /** Replaying first heals the log: replay cuts a segment where it stopped, and what it
      leaves reopens into a log whose later appends are read back. */
  lemma ReplayHealsReopen(crc: Checksum, b: Bytes)
    ensures Scan(crc, Cut(crc, b), 0) == Scan(crc, b, 0)
    ensures !WholeAt(Cut(crc, b), ScanStop(crc, Cut(crc, b), 0))
  {
    var stop := ScanStop(crc, b, 0);
    if stop + HEADER_LEN <= |b| {
      CutKeepsScan(crc, b, stop);
    }
  }

  /** Torn tail, end to end: cut the newest segment of a healthy log at any byte,
      reopen and append. The log then holds the older segments, the records wholly
      inside the cut, and the new records. */
  lemma CutReopenAppend(crc: Checksum, w: Wal, k: nat, limit: nat, f: Bytes, qs: seq<Bytes>)
    requires Valid(crc, w) && !w.poisoned && k <= w.offset
    requires AllFramable(qs) && f == Framed(crc, qs)
    requires Fits(Open(w.base, CutNewest(w, k), limit), f)
    ensures var n := |w.segs| - 1;
            var ps := Payloads(Scan(crc, w.segs[n], 0));
            var w1 := Open(w.base, CutNewest(w, k), limit);
            var w2 := Append(w1, f);
            Valid(crc, w2) && !w2.poisoned &&
            Entries(crc, w2.base, w2.segs) ==
            Entries(crc, w.base, w.segs[..n]) +
            SegEntries(Current(w), Recs(ps[..WholeCount(ps, k)], 0)) + NewEntries(w1, qs)
  {
    var cut := CutNewest(w, k);
    CutEntries(crc, w, k);
    CutIsSound(crc, w, k, limit);
    AppendAdds(crc, Open(w.base, cut, limit), f, qs);
  }

  /** What is left of a healthy log after the cut. */
  lemma CutEntries(crc: Checksum, w: Wal, k: nat)
    requires Valid(crc, w) && !w.poisoned && k <= w.offset
    ensures var n := |w.segs| - 1;
            var ps := Payloads(Scan(crc, w.segs[n], 0));
            Entries(crc, w.base, CutNewest(w, k)) ==
            Entries(crc, w.base, w.segs[..n]) + SegEntries(Current(w), Recs(ps[..WholeCount(ps, k)], 0))
  {
    var n := |w.segs| - 1;
    EntriesSnoc(crc, w.base, w.segs[..n], w.segs[n][..k]);
    CutReads(crc, w.segs[n], k);
  }

  lemma CutIsSound(crc: Checksum, w: Wal, k: nat, limit: nat)
    requires Valid(crc, w) && !w.poisoned && k <= w.offset
    ensures var w1 := Open(w.base, CutNewest(w, k), limit);
            Valid(crc, w1) && !w1.poisoned &&
            Entries(crc, w1.base, w1.segs) == Entries(crc, w.base, CutNewest(w, k))
  {
    CutReads(crc, w.segs[|w.segs| - 1], k);
    ReopenSound(crc, w.base, CutNewest(w, k), limit);
  }

  function CutNewest(w: Wal, k: nat): seq<Bytes>
    requires |w.segs| >= 1 && k <= |w.segs[|w.segs| - 1]|
  {
    w.segs[..|w.segs| - 1] + [w.segs[|w.segs| - 1][..k]]
  }

  lemma CutReads(crc: Checksum, last: Bytes, k: nat)
    requires Clean(crc, last[..|last|]) && k <= |last|
    ensures var ps := Payloads(Scan(crc, last, 0));
            Scan(crc, last[..k], 0) == Recs(ps[..WholeCount(ps, k)], 0) &&
            !WholeAt(last[..k], ScanStop(crc, last[..k], 0))
  {
    WholeSlice(last);
    var ps := Payloads(Scan(crc, last, 0));
    ScanIsFramed(crc, last, 0);
    assert last[0..|last|] == last;
    TornTail(crc, last, ps, k);
    ScanIsFramed(crc, last[..k], 0);
    ReopenAgreesWithReplay(crc, last[..k], 0);
  }
}

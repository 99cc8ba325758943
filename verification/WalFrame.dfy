/** The byte layout of one write-ahead-log segment.

    A record is a little-endian u32 length, a little-endian u32 checksum and the
    payload. A segment file is a run of records, possibly followed by the torn
    remains of an append that a crash cut short. The checksum is a parameter: every
    result holds for any checksum function. */
module WalFrame {
  import opened LittleEndian
  import Seqs

  type byte = LittleEndian.byte
  type u32 = LittleEndian.u32
  type Bytes = LittleEndian.Bytes
  type Checksum = Bytes -> u32

  const HEADER_LEN: nat := 8

  /** A payload whose length fits the u32 length field. */
  predicate Framable(p: Bytes) {
    |p| < 0x1_0000_0000
  }

  // ------------------------------------------------------------------ writing

  /** `encode_record_into` appends this to its output. */
  function Frame(crc: Checksum, p: Bytes): (f: Bytes)
    requires Framable(p)
    ensures |f| == HEADER_LEN + |p|
  {
    Le32(|p|) + Le32(crc(p)) + p
  }

  ghost predicate AllFramable(ps: seq<Bytes>) {
    forall i | 0 <= i < |ps| :: Framable(ps[i])
  }

  /** A batch of records framed back to back. */
  function Framed(crc: Checksum, ps: seq<Bytes>): Bytes
    requires AllFramable(ps)
  {
    if ps == [] then [] else Frame(crc, ps[0]) + Framed(crc, ps[1..])
  }

  /** The header is written as zeros first and patched once the payload, and so
      its length and checksum, is known. */
  method EncodeRecordInto(crc: Checksum, payload: Bytes, out: Bytes) returns (r: Bytes)
    requires Framable(payload)
    ensures r == out + Frame(crc, payload)
  {
    var start := |out|;
    r := out + [0, 0, 0, 0, 0, 0, 0, 0];
    r := r + payload;
    var payloadLen := |r| - start - HEADER_LEN;
    assert r[start + HEADER_LEN..] == payload;
    var sum := crc(r[start + HEADER_LEN..]);
    r := r[..start] + Le32(payloadLen) + r[start + 4..];
    r := r[..start + 4] + Le32(sum) + r[start + 8..];
  }

  /** A request's records share one output buffer. */
  method EncodeBatch(crc: Checksum, ps: seq<Bytes>) returns (r: Bytes)
    requires AllFramable(ps)
    ensures r == Framed(crc, ps)
  {
    r := [];
    for i := 0 to |ps|
      invariant r == Framed(crc, ps[..i])
    {
      r := EncodeRecordInto(crc, ps[i], r);
      FramedAppend(crc, ps[..i], [ps[i]]);
      assert ps[..i + 1] == ps[..i] + [ps[i]];
      assert Framed(crc, [ps[i]]) == Frame(crc, ps[i]);
    }
    assert ps[..|ps|] == ps;
  }

  lemma {:induction false} FramedAppend(crc: Checksum, ps: seq<Bytes>, qs: seq<Bytes>)
    requires AllFramable(ps) && AllFramable(qs)
    ensures AllFramable(ps + qs)
    ensures Framed(crc, ps + qs) == Framed(crc, ps) + Framed(crc, qs)
  {
    if ps == [] {
      assert ps + qs == qs;
    } else {
      var f, rest, more := Frame(crc, ps[0]), Framed(crc, ps[1..]), Framed(crc, qs);
      assert AllFramable(ps + qs) && Framed(crc, ps + qs) == f + (rest + more) by {
        assert (ps + qs)[0] == ps[0] && (ps + qs)[1..] == ps[1..] + qs;
        FramedAppend(crc, ps[1..], qs);
      }
      Seqs.Assoc(f, rest, more);
    }
  }

  // ------------------------------------------------------------------ reading

  function LenAt(b: Bytes, off: nat): u32
    requires off + HEADER_LEN <= |b|
  {
    FromLe32(b[off..off + 4])
  }

  /** A header at `off` and as many bytes behind it as it announces. */
  predicate WholeAt(b: Bytes, off: nat) {
    off + HEADER_LEN <= |b| && off + HEADER_LEN + LenAt(b, off) <= |b|
  }

  function EndAt(b: Bytes, off: nat): (end: nat)
    requires WholeAt(b, off)
    ensures off < end <= |b|
  {
    off + HEADER_LEN + LenAt(b, off)
  }

  function PayloadAt(b: Bytes, off: nat): Bytes
    requires WholeAt(b, off)
  {
    b[off + HEADER_LEN..EndAt(b, off)]
  }

  /** A whole record whose checksum matches. */
  predicate IntactAt(crc: Checksum, b: Bytes, off: nat) {
    WholeAt(b, off) && crc(PayloadAt(b, off)) == FromLe32(b[off + 4..off + 8])
  }

  /** A record found in a segment and the offset just past it. */
  datatype Rec = Rec(payload: Bytes, end: nat)

  /** The intact records from `off` up to the first that is not. */
  function Scan(crc: Checksum, b: Bytes, off: nat): seq<Rec>
    decreases |b| - off
  {
    if IntactAt(crc, b, off)
    then [Rec(PayloadAt(b, off), EndAt(b, off))] + Scan(crc, b, EndAt(b, off))
    else []
  }

  /** Where the scan stops: the boundary replay truncates a segment to. */
  function ScanStop(crc: Checksum, b: Bytes, off: nat): (stop: nat)
    requires off <= |b|
    ensures off <= stop <= |b|
    ensures !IntactAt(crc, b, stop)
    decreases |b| - off
  {
    if IntactAt(crc, b, off) then ScanStop(crc, b, EndAt(b, off)) else off
  }

  /** Where reopening a segment puts the next append; checksums are not looked at. */
  function LastComplete(b: Bytes, off: nat): (stop: nat)
    requires off <= |b|
    ensures off <= stop <= |b|
    ensures !WholeAt(b, stop)
    decreases |b| - off
  {
    if WholeAt(b, off) then LastComplete(b, EndAt(b, off)) else off
  }

  /** The inner loop of replay over one segment. `badAt` is set when the scan
      stopped on a record with a full header, and the file is then cut there. */
  method ScanSegment(crc: Checksum, b: Bytes)
    returns (recs: seq<Rec>, stop: nat, bad: bool)
    ensures recs == Scan(crc, b, 0) && stop == ScanStop(crc, b, 0)
    ensures bad <==> stop + HEADER_LEN <= |b|
  {
    var offset := 0;
    recs, bad := [], false;
    while offset + HEADER_LEN <= |b| && !bad
      invariant offset <= |b|
      invariant recs + Scan(crc, b, offset) == Scan(crc, b, 0)
      invariant ScanStop(crc, b, offset) == ScanStop(crc, b, 0)
      invariant bad ==> offset + HEADER_LEN <= |b| && !IntactAt(crc, b, offset)
      decreases |b| - offset, !bad
    {
      var ok, rec := ReadRecord(crc, b, offset);
      if !ok {
        bad := true;
      } else {
        ScanStep(crc, b, offset, recs, rec);
        recs, offset := recs + [rec], rec.end;
      }
    }
    stop := offset;
    Seqs.EmptyRight(recs);
  }

  /** One record behind a full header: torn or corrupt ones are refused. */
  method ReadRecord(crc: Checksum, b: Bytes, offset: nat) returns (ok: bool, rec: Rec)
    requires offset + HEADER_LEN <= |b|
    ensures ok <==> IntactAt(crc, b, offset)
    ensures ok ==> rec == Rec(PayloadAt(b, offset), EndAt(b, offset))
  {
    var len := FromLe32(b[offset..offset + 4]);
    var wantCrc := FromLe32(b[offset + 4..offset + 8]);
    var bodyEnd := offset + HEADER_LEN + len;
    if bodyEnd > |b| {
      return false, Rec([], 0);
    }
    var payload := b[offset + HEADER_LEN..bodyEnd];
    return crc(payload) == wantCrc, Rec(payload, bodyEnd);
  }

  lemma ScanStep(crc: Checksum, b: Bytes, off: nat, before: seq<Rec>, rec: Rec)
    requires IntactAt(crc, b, off) && rec == Rec(PayloadAt(b, off), EndAt(b, off))
    ensures before + [rec] + Scan(crc, b, rec.end) == before + Scan(crc, b, off)
    ensures ScanStop(crc, b, rec.end) == ScanStop(crc, b, off)
  {
    Seqs.Assoc(before, [rec], Scan(crc, b, rec.end));
  }

  /** `last_complete_offset`. */
  method LastCompleteOffset(b: Bytes) returns (offset: nat)
    ensures offset == LastComplete(b, 0)
  {
    offset := 0;
    while WholeAt(b, offset)
      invariant offset <= |b|
      invariant LastComplete(b, offset) == LastComplete(b, 0)
      decreases |b| - offset
    {
      offset := EndAt(b, offset);
    }
  }

  // ------------------------------------------------- what scanning reads back

  /** The records `ps` occupy when the first of them starts at `at`. */
  function Recs(ps: seq<Bytes>, at: nat): seq<Rec> {
    if ps == [] then []
    else
      var end := at + HEADER_LEN + |ps[0]|;
      [Rec(ps[0], end)] + Recs(ps[1..], end)
  }

  function Payloads(rs: seq<Rec>): (ps: seq<Bytes>)
    ensures |ps| == |rs|
  {
    seq(|rs|, i requires 0 <= i < |rs| => rs[i].payload)
  }

  lemma {:induction false} RecsPayloads(ps: seq<Bytes>, at: nat)
    ensures Payloads(Recs(ps, at)) == ps
  {
    if ps != [] {
      RecsPayloads(ps[1..], at + HEADER_LEN + |ps[0]|);
    }
  }

  lemma {:induction false} RecsAppend(crc: Checksum, ps: seq<Bytes>, qs: seq<Bytes>, at: nat)
    requires AllFramable(ps)
    ensures Recs(ps + qs, at) == Recs(ps, at) + Recs(qs, at + |Framed(crc, ps)|)
  {
    if ps == [] {
      assert ps + qs == qs;
    } else {
      RecsAppend(crc, ps[1..], qs, at + HEADER_LEN + |ps[0]|);
      assert (ps + qs)[1..] == ps[1..] + qs;
    }
  }

  /** The bytes `f` stand at offset `at` of `b`. */
  predicate HasAt(b: Bytes, at: nat, f: Bytes) {
    at + |f| <= |b| && b[at..at + |f|] == f
  }

  lemma SplitAt(b: Bytes, at: nat, f: Bytes, g: Bytes)
    requires HasAt(b, at, f + g)
    ensures HasAt(b, at, f) && HasAt(b, at + |f|, g)
  {
    var whole := b[at..at + |f + g|];
    assert b[at..at + |f|] == whole[..|f|] == f;
    assert b[at + |f|..at + |f| + |g|] == whole[|f|..] == g;
  }

  lemma HasAtEnd(b: Bytes, f: Bytes, g: Bytes)
    ensures HasAt(b + (f + g), |b|, f)
  {
  }

  lemma HasAtTail(b: Bytes, f: Bytes)
    ensures HasAt(b + f, |b|, f)
  {
  }

  lemma FrameIsIntact(crc: Checksum, b: Bytes, at: nat, p: Bytes)
    requires Framable(p) && HasAt(b, at, Frame(crc, p))
    ensures IntactAt(crc, b, at) && PayloadAt(b, at) == p && EndAt(b, at) == at + HEADER_LEN + |p|
  {
    SplitAt(b, at, Le32(|p|) + Le32(crc(p)), p);
    SplitAt(b, at, Le32(|p|), Le32(crc(p)));
    Le32RoundTrip(|p|);
    Le32RoundTrip(crc(p));
  }

  /** The intact records of `b` from `at` on begin with `ps`, which end at `end`. */
  predicate RecordsAt(crc: Checksum, b: Bytes, at: nat, ps: seq<Bytes>, end: nat)
    decreases |ps|
  {
    if ps == [] then at == end <= |b|
    else IntactAt(crc, b, at) && PayloadAt(b, at) == ps[0] && RecordsAt(crc, b, EndAt(b, at), ps[1..], end)
  }

  lemma {:induction false} FramedRecordsAt(crc: Checksum, b: Bytes, at: nat, f: Bytes, ps: seq<Bytes>)
    requires AllFramable(ps) && f == Framed(crc, ps) && HasAt(b, at, f)
    ensures RecordsAt(crc, b, at, ps, at + |f|)
    decreases |ps|
  {
    if ps != [] {
      var first, rest := Frame(crc, ps[0]), Framed(crc, ps[1..]);
      SplitAt(b, at, first, rest);
      FrameIsIntact(crc, b, at, ps[0]);
      FramedRecordsAt(crc, b, at + |first|, rest, ps[1..]);
    }
  }

  lemma {:induction false} ScanRecordsAt(crc: Checksum, b: Bytes, at: nat, ps: seq<Bytes>, end: nat)
    requires RecordsAt(crc, b, at, ps, end)
    ensures at <= end <= |b|
    ensures Scan(crc, b, at) == Recs(ps, at) + Scan(crc, b, end)
    ensures ScanStop(crc, b, at) == ScanStop(crc, b, end)
    ensures LastComplete(b, at) == LastComplete(b, end)
    decreases |ps|
  {
    if ps != [] {
      var next := EndAt(b, at);
      ScanRecordsAt(crc, b, next, ps[1..], end);
      Seqs.Assoc([Rec(ps[0], next)], Recs(ps[1..], next), Scan(crc, b, end));
    }
  }

  /** Scanning over framed records reads exactly them and goes on behind them. */
  lemma ScanOver(crc: Checksum, b: Bytes, at: nat, f: Bytes, ps: seq<Bytes>)
    requires AllFramable(ps) && f == Framed(crc, ps) && HasAt(b, at, f)
    ensures var end := at + |f|;
            Scan(crc, b, at) == Recs(ps, at) + Scan(crc, b, end) &&
            ScanStop(crc, b, at) == ScanStop(crc, b, end) &&
            LastComplete(b, at) == LastComplete(b, end)
  {
    FramedRecordsAt(crc, b, at, f, ps);
    ScanRecordsAt(crc, b, at, ps, at + |f|);
  }

  /** A proper prefix of a frame, with nothing behind it, is never a whole record. */
  lemma TornIsNotWhole(crc: Checksum, b: Bytes, at: nat, p: Bytes)
    requires Framable(p) && at <= |b| < at + HEADER_LEN + |p|
    requires b[at..] == Frame(crc, p)[..|b| - at]
    ensures !WholeAt(b, at)
  {
    if at + HEADER_LEN <= |b| {
      assert b[at..at + 4] == b[at..][..4] == Le32(|p|);
      Le32RoundTrip(|p|);
    }
  }

  /** How many of the records `ps` lie wholly inside their first `k` bytes. */
  function WholeCount(ps: seq<Bytes>, k: nat): (m: nat)
    ensures m <= |ps|
  {
    if ps == [] || HEADER_LEN + |ps[0]| > k then 0
    else 1 + WholeCount(ps[1..], k - HEADER_LEN - |ps[0]|)
  }

  /** The first `k` bytes are the whole records in them and a torn rest. */
  ghost predicate CutAt(crc: Checksum, ps: seq<Bytes>, k: nat)
    requires AllFramable(ps) && k <= |Framed(crc, ps)|
  {
    var m := WholeCount(ps, k);
    var done := Framed(crc, ps[..m]);
    |done| <= k &&
    (m == |ps| ==> k == |done|) &&
    (m < |ps| ==> k - |done| < HEADER_LEN + |ps[m]| &&
                  Framed(crc, ps)[..k] == done + Frame(crc, ps[m])[..k - |done|])
  }

  /** Cutting framed records at byte `k` leaves the whole ones and a torn rest. */
  lemma {:induction false} CutFramed(crc: Checksum, ps: seq<Bytes>, k: nat)
    requires AllFramable(ps) && k <= |Framed(crc, ps)|
    ensures CutAt(crc, ps, k)
    decreases |ps|
  {
    if ps == [] {
    } else if HEADER_LEN + |ps[0]| > k {
      assert ps[..0] == [];
      CutFirst(Frame(crc, ps[0]), Framed(crc, ps[1..]), k);
    } else {
      CutFramed(crc, ps[1..], k - HEADER_LEN - |ps[0]|);
      CutBehindFirst(crc, ps, k);
    }
  }

  lemma CutBehindFirst(crc: Checksum, ps: seq<Bytes>, k: nat)
    requires AllFramable(ps) && ps != [] && HEADER_LEN + |ps[0]| <= k <= |Framed(crc, ps)|
    requires CutAt(crc, ps[1..], k - HEADER_LEN - |ps[0]|)
    ensures CutAt(crc, ps, k)
  {
    var f, tail := Frame(crc, ps[0]), ps[1..];
    var rest, m := Framed(crc, tail), WholeCount(tail, k - |f|);
    var done := Framed(crc, tail[..m]);
    assert Framed(crc, ps) == f + rest && WholeCount(ps, k) == m + 1;
    FramedHead(crc, ps, m + 1);
    if m < |tail| {
      assert tail[m] == ps[m + 1];
      CutBehind(f, rest, done, Frame(crc, tail[m])[..k - |f| - |done|], k);
    }
  }

  lemma FramedHead(crc: Checksum, ps: seq<Bytes>, m: nat)
    requires AllFramable(ps) && 0 < m <= |ps|
    ensures Framed(crc, ps[..m]) == Frame(crc, ps[0]) + Framed(crc, ps[1..][..m - 1])
  {
    assert ps[..m][0] == ps[0] && ps[..m][1..] == ps[1..][..m - 1];
  }

  lemma CutFirst(f: Bytes, rest: Bytes, k: nat)
    requires k <= |f|
    ensures (f + rest)[..k] == [] + f[..k]
  {
  }

  lemma CutBehind(f: Bytes, rest: Bytes, done: Bytes, torn: Bytes, k: nat)
    requires |f| <= k <= |f| + |rest| && rest[..k - |f|] == done + torn
    ensures (f + rest)[..k] == f + done + torn
  {
    assert (f + rest)[..k] == f + rest[..k - |f|];
    Seqs.Assoc(f, done, torn);
  }

  /** Every scanned prefix is the framing of the payloads it yields, so a file that
      scans to its end is nothing but intact records. */
  lemma {:induction false} ScanIsFramed(crc: Checksum, b: Bytes, off: nat)
    requires off <= |b|
    ensures var ps := Payloads(Scan(crc, b, off));
            AllFramable(ps) &&
            b[off..ScanStop(crc, b, off)] == Framed(crc, ps) &&
            Scan(crc, b, off) == Recs(ps, off)
    decreases |b| - off
  {
    var ps := Payloads(Scan(crc, b, off));
    if IntactAt(crc, b, off) {
      var end, stop := EndAt(b, off), ScanStop(crc, b, off);
      var rest := Payloads(Scan(crc, b, end));
      ScanIsFramed(crc, b, end);
      FrameOfIntact(crc, b, off);
      assert ps[0] == PayloadAt(b, off) && ps[1..] == rest;
      SlicesJoin(b, off, end, stop);
    }
  }

  lemma SlicesJoin(b: Bytes, lo: nat, mid: nat, hi: nat)
    requires lo <= mid <= hi <= |b|
    ensures b[lo..hi] == b[lo..mid] + b[mid..hi]
  {
  }

  lemma FrameOfIntact(crc: Checksum, b: Bytes, off: nat)
    requires IntactAt(crc, b, off)
    ensures Framable(PayloadAt(b, off))
    ensures b[off..EndAt(b, off)] == Frame(crc, PayloadAt(b, off))
  {
    FromLe32RoundTrip(b[off..off + 4]);
    FromLe32RoundTrip(b[off + 4..off + 8]);
  }

  /** On arbitrary bytes reopening may keep more than replay does. They agree
      exactly when replay did not stop on a whole record with a bad checksum. */
  lemma {:induction false} ReopenAgreesWithReplay(crc: Checksum, b: Bytes, off: nat)
    requires off <= |b|
    ensures ScanStop(crc, b, off) <= LastComplete(b, off)
    ensures LastComplete(b, off) == ScanStop(crc, b, off) <==> !WholeAt(b, ScanStop(crc, b, off))
    decreases |b| - off
  {
    if IntactAt(crc, b, off) {
      ReopenAgreesWithReplay(crc, b, EndAt(b, off));
    }
  }

  /** A file of nothing but intact records. */
  predicate Clean(crc: Checksum, b: Bytes) {
    ScanStop(crc, b, 0) == |b|
  }

  /** Appending to a clean file adds what the appended bytes hold. */
  lemma AppendToClean(crc: Checksum, b: Bytes, tail: Bytes)
    requires Clean(crc, b)
    ensures Scan(crc, b + tail, 0) == Scan(crc, b, 0) + Scan(crc, b + tail, |b|)
    ensures ScanStop(crc, b + tail, 0) == ScanStop(crc, b + tail, |b|)
  {
    var had := Payloads(Scan(crc, b, 0));
    assert AllFramable(had) && b == Framed(crc, had) && Scan(crc, b, 0) == Recs(had, 0) by {
      ScanIsFramed(crc, b, 0);
      assert b[0..|b|] == b;
    }
    assert HasAt(b + tail, 0, b);
    ScanOver(crc, b + tail, 0, b, had);
  }

  lemma ScanAtEnd(crc: Checksum, b: Bytes)
    ensures Scan(crc, b, |b|) == [] && ScanStop(crc, b, |b|) == |b|
  {
  }

  lemma AppendRecords(crc: Checksum, b: Bytes, tail: Bytes, f: Bytes, ps: seq<Bytes>)
    requires Clean(crc, b) && AllFramable(ps) && f == Framed(crc, ps)
    requires HasAt(b + tail, |b|, f) && !WholeAt(b + tail, |b| + |f|)
    ensures Scan(crc, b + tail, 0) == Scan(crc, b, 0) + Recs(ps, |b|)
    ensures ScanStop(crc, b + tail, 0) == |b| + |f|
  {
    AppendToClean(crc, b, tail);
    ContinuesWith(crc, b + tail, |b|, Scan(crc, b, 0), f, ps);
  }

  lemma ContinuesWith(crc: Checksum, c: Bytes, at: nat, had: seq<Rec>, f: Bytes, ps: seq<Bytes>)
    requires at <= |c| && Scan(crc, c, 0) == had + Scan(crc, c, at) && ScanStop(crc, c, 0) == ScanStop(crc, c, at)
    requires AllFramable(ps) && f == Framed(crc, ps) && HasAt(c, at, f) && !WholeAt(c, at + |f|)
    ensures Scan(crc, c, 0) == had + Recs(ps, at) && ScanStop(crc, c, 0) == at + |f|
  {
    ReadsExactly(crc, c, at, f, ps);
  }

  /** Appending framed records to a clean file adds exactly those records. */
  lemma AppendFramed(crc: Checksum, b: Bytes, f: Bytes, ps: seq<Bytes>)
    requires Clean(crc, b) && AllFramable(ps) && f == Framed(crc, ps)
    ensures Clean(crc, b + f)
    ensures Scan(crc, b + f, 0) == Scan(crc, b, 0) + Recs(ps, |b|)
  {
    HasAtTail(b, f);
    AppendRecords(crc, b, f, f, ps);
  }

  /** A torn append to a clean file adds exactly the records that made it whole. */
  lemma AppendTornAs(crc: Checksum, b: Bytes, f: Bytes, ps: seq<Bytes>, k: nat, whole: seq<Bytes>, done: Bytes)
    requires Clean(crc, b) && AllFramable(ps) && f == Framed(crc, ps) && k <= |f|
    requires whole == ps[..WholeCount(ps, k)] && done == Framed(crc, whole)
    ensures Scan(crc, b + f[..k], 0) == Scan(crc, b, 0) + Recs(whole, |b|)
    ensures ScanStop(crc, b + f[..k], 0) == |b| + |done|
  {
    TornHead(crc, b, f, ps, k, done);
    TornRest(crc, b, f, ps, k, done);
    AppendRecords(crc, b, f[..k], done, whole);
  }

  lemma TornHead(crc: Checksum, b: Bytes, f: Bytes, ps: seq<Bytes>, k: nat, done: Bytes)
    requires AllFramable(ps) && f == Framed(crc, ps) && k <= |f|
    requires done == Framed(crc, ps[..WholeCount(ps, k)])
    ensures HasAt(b + f[..k], |b|, done)
  {
    var tail := f[..k];
    CutFramed(crc, ps, k);
    assert ps[..|ps|] == ps;
    assert tail == done + tail[|done|..];
    HasAtEnd(b, done, tail[|done|..]);
  }

  lemma TornRest(crc: Checksum, b: Bytes, f: Bytes, ps: seq<Bytes>, k: nat, done: Bytes)
    requires AllFramable(ps) && f == Framed(crc, ps) && k <= |f|
    requires done == Framed(crc, ps[..WholeCount(ps, k)])
    ensures !WholeAt(b + f[..k], |b| + |done|)
  {
    var m := WholeCount(ps, k);
    CutFramed(crc, ps, k);
    if m < |ps| {
      assert (b + f[..k])[|b| + |done|..] == f[..k][|done|..] == Frame(crc, ps[m])[..k - |done|];
      TornIsNotWhole(crc, b + f[..k], |b| + |done|, ps[m]);
    }
  }

  /** Torn tail: cut anywhere, a file of records still reads back exactly the
      records wholly inside the cut, and replaying and reopening agree on where the
      next append goes. */
  lemma TornTail(crc: Checksum, f: Bytes, ps: seq<Bytes>, k: nat)
    requires AllFramable(ps) && f == Framed(crc, ps) && k <= |f|
    ensures var m := WholeCount(ps, k);
            Payloads(Scan(crc, f[..k], 0)) == ps[..m] &&
            ScanStop(crc, f[..k], 0) == |Framed(crc, ps[..m])| &&
            LastComplete(f[..k], 0) == ScanStop(crc, f[..k], 0)
  {
    var whole := ps[..WholeCount(ps, k)];
    var done := Framed(crc, whole);
    TornStart(crc, f, ps, k, done);
    ReadsExactly(crc, f[..k], 0, done, whole);
    RecsPayloads(whole, 0);
    ReopenAgreesWithReplay(crc, f[..k], 0);
  }

  lemma TornStart(crc: Checksum, f: Bytes, ps: seq<Bytes>, k: nat, done: Bytes)
    requires AllFramable(ps) && f == Framed(crc, ps) && k <= |f|
    requires done == Framed(crc, ps[..WholeCount(ps, k)])
    ensures HasAt(f[..k], 0, done) && !WholeAt(f[..k], |done|)
  {
    Seqs.EmptyLeft(f[..k]);
    TornHead(crc, [], f, ps, k, done);
    TornRest(crc, [], f, ps, k, done);
  }

  /** A file that starts with framed records and has no whole record behind them. */
  lemma ReadsExactly(crc: Checksum, b: Bytes, at: nat, f: Bytes, ps: seq<Bytes>)
    requires AllFramable(ps) && f == Framed(crc, ps)
    requires HasAt(b, at, f) && !IntactAt(crc, b, at + |f|)
    ensures Scan(crc, b, at) == Recs(ps, at) && ScanStop(crc, b, at) == at + |f|
  {
    ScanOver(crc, b, at, f, ps);
    Seqs.EmptyRight(Recs(ps, at));
  }
}

/** The per-block skip index of log blocks. A query reads only granules that might hold a
    match. */
module LogSkipIndex {
  import opened LogGranules
  import opened LogPrefilter
  import opened LogQuery
  import opened Options
  import opened TextSearch
  import opened WalFrame

  class LogIndexBuilder {
    const env: Env
    const h: Hashing
    var granules: seq<Granule>
    var open: Gathered
    var inGranule: nat
    ghost var rows: seq<Entry>

    ghost predicate Valid()
      reads this
    {
      Built(env, h, granules, open, rows) && inGranule == |rows| - GRANULE_ROWS * |granules|
    }

    constructor (env: Env, h: Hashing)
      ensures Valid() && rows == [] && open == EMPTY_GRANULE && this.env == env && this.h == h
    {
      this.env, this.h := env, h;
      granules, open, inGranule := [], EMPTY_GRANULE, 0;
      rows := [];
    }

    method PushRecord(e: Entry)
      requires Valid()
      requires SameSet(open.attrs, e.attrAddr) ==> open.attrs.value.1 == e.log.attributes
      requires SameSet(open.resource, e.resAddr) ==> open.resource.value.1 == e.log.resource
      modifies this
      ensures Valid() && rows == old(rows) + [e]
      ensures open == EMPTY_GRANULE ||
              (open.attrs == Some((e.attrAddr, e.log.attributes)) && open.resource == Some((e.resAddr, e.log.resource)))
    {
      var next := Gather(env, h, open, e, rows[GRANULE_ROWS * |granules|..]);
      if inGranule + 1 < GRANULE_ROWS {
        StaysOpen(env, h, granules, open, next, rows, e);
        open, inGranule, rows := next, inGranule + 1, rows + [e];
      } else {
        var g := CloseGranule(h, next);
        Closes(env, h, granules, g, open, next, rows, e);
        granules, open, inGranule, rows := granules + [g], EMPTY_GRANULE, 0, rows + [e];
      }
    }

    method Finish() returns (table: seq<Granule>)
      requires Valid()
      ensures Indexes(env, h, table, rows)
    {
      table := granules;
      if inGranule > 0 {
        var g := CloseGranule(h, open);
        CloseNext(env, h, granules, g, open, rows);
        table := granules + [g];
      }
    }
  }

  /** The granule's filter is sized by its terms and holds exactly their probes. */
  method CloseGranule(h: Hashing, o: Gathered) returns (g: Granule)
    ensures g == Granule(o.minTs, o.maxTs, o.maxSeverity, h.bits(|o.terms|), g.filter)
    ensures forall p :: p in g.filter <==> Probed(h, o.terms, g.bits, p)
  {
    var bits := h.bits(|o.terms|);
    var filter := FillFilter(h, o.terms, bits);
    g := Granule(o.minTs, o.maxTs, o.maxSeverity, bits, filter);
  }

  /** A finished table accounts for every row of the block, and for nothing else. */
  ghost predicate Indexes(env: Env, h: Hashing, table: seq<Granule>, rows: seq<Entry>) {
    |rows| <= GRANULE_ROWS * |table| < |rows| + GRANULE_ROWS && SummarisesAll(env, h, table, rows)
  }

  // ------------------------------------------------------------------- querying

  predicate MayContain(h: Hashing, g: Granule, term: nat) {
    h.probes(term, g.bits) <= g.filter
  }

  predicate Kept(h: Hashing, g: Granule, start: int, end: int, minSeverity: Option<int>, terms: set<nat>) {
    && g.maxTs >= start && g.minTs <= end
    && (minSeverity.Some? ==> g.maxSeverity >= minSeverity.value)
    && forall t | t in terms :: MayContain(h, g, t)
  }

  ghost predicate InSome(ranges: seq<(nat, nat)>, x: nat) {
    exists r | 0 <= r < |ranges| :: ranges[r].0 <= x < ranges[r].1
  }

  /** Row ranges of the kept granules, merged where adjacent: exactly their rows. */
  method CandidateRanges(h: Hashing, table: seq<Granule>, rows: nat, start: int, end: int,
                         minSeverity: Option<int>, terms: set<nat>)
    returns (out: seq<(nat, nat)>)
    requires rows <= GRANULE_ROWS * |table| < rows + GRANULE_ROWS
    ensures forall x: nat | x < rows ::
              InSome(out, x) <==> Kept(h, table[x / GRANULE_ROWS], start, end, minSeverity, terms)
    ensures forall r | 0 <= r < |out| :: out[r].0 < out[r].1 <= rows
    ensures forall r, s | 0 <= r < s < |out| :: out[r].1 < out[s].0
  {
    out := [];
    for g := 0 to |table|
      invariant forall r | 0 <= r < |out| :: out[r].0 < out[r].1 <= rows && out[r].1 <= GRANULE_ROWS * g
      invariant forall r, s | 0 <= r < s < |out| :: out[r].1 < out[s].0
      invariant forall x: nat | x < GRANULE_ROWS * g && x < rows ::
                  InSome(out, x) <==> Kept(h, table[x / GRANULE_ROWS], start, end, minSeverity, terms)
    {
      var a := g * GRANULE_ROWS;
      var b := if a + GRANULE_ROWS < rows then a + GRANULE_ROWS else rows;
      ghost var before := out;
      if Kept(h, table[g], start, end, minSeverity, terms) {
        var n := |out|;
        if n > 0 && out[n - 1].1 == a {
          out := out[n - 1 := (out[n - 1].0, b)];
        } else {
          out := out + [(a, b)];
        }
        Extended(before, out, a, b);
      }
      NewRange(h, table, g, rows, before, out, start, end, minSeverity, terms);
    }
  }

  lemma Extended(before: seq<(nat, nat)>, out: seq<(nat, nat)>, a: nat, b: nat)
    requires a < b && forall r | 0 <= r < |before| :: before[r].0 < before[r].1 <= a
    requires var n := |before|;
             if n > 0 && before[n - 1].1 == a then out == before[n - 1 := (before[n - 1].0, b)]
             else out == before + [(a, b)]
    ensures forall x: nat :: InSome(out, x) <==> InSome(before, x) || a <= x < b
  {
    var n := |before|;
    forall x: nat ensures InSome(out, x) <==> InSome(before, x) || a <= x < b {
      if InSome(before, x) {
        var r :| 0 <= r < n && before[r].0 <= x < before[r].1;
        assert out[r].0 <= x < out[r].1;
      }
      if a <= x < b {
        assert out[|out| - 1].0 <= x < out[|out| - 1].1;
      }
      if InSome(out, x) {
        var r :| 0 <= r < |out| && out[r].0 <= x < out[r].1;
        assert r < n ==> before[r].0 <= x < before[r].1 || a <= x < b;
      }
    }
  }

  lemma NewRange(h: Hashing, table: seq<Granule>, g: nat, rows: nat, before: seq<(nat, nat)>, out: seq<(nat, nat)>,
                 start: int, end: int, minSeverity: Option<int>, terms: set<nat>)
    requires g < |table| && rows <= GRANULE_ROWS * |table|
    requires forall r | 0 <= r < |before| :: before[r].1 <= GRANULE_ROWS * g
    requires forall x: nat | x < GRANULE_ROWS * g && x < rows ::
               InSome(before, x) <==> Kept(h, table[x / GRANULE_ROWS], start, end, minSeverity, terms)
    requires var a := g * GRANULE_ROWS;
             var b := if a + GRANULE_ROWS < rows then a + GRANULE_ROWS else rows;
             if Kept(h, table[g], start, end, minSeverity, terms)
             then forall x: nat :: InSome(out, x) <==> InSome(before, x) || a <= x < b
             else out == before
    ensures forall x: nat | x < GRANULE_ROWS * (g + 1) && x < rows ::
              InSome(out, x) <==> Kept(h, table[x / GRANULE_ROWS], start, end, minSeverity, terms)
  {
    forall x: nat | x < GRANULE_ROWS * (g + 1) && x < rows
      ensures InSome(out, x) <==> Kept(h, table[x / GRANULE_ROWS], start, end, minSeverity, terms)
    {
      if x >= GRANULE_ROWS * g {
        assert x / GRANULE_ROWS == g;
        assert !InSome(before, x);
      }
    }
  }

  // ------------------------------------------------------------- nothing is lost

  /** The record meets the pair condition through something the index records: a label,
      or an id that is not all zero. */
  predicate PairIndexed(env: Env, log: Record, name: string, value: string) {
    || Get(log.attributes, name) == Some(value)
    || Get(log.resource, name) == Some(value)
    || (name == "trace_id" && env.hex(log.traceId) == value && !AllZero(log.traceId))
    || (name == "span_id" && env.hex(log.spanId) == value && !AllZero(log.spanId))
  }

  ghost predicate PairsIndexed(env: Env, pre: Prefilter, log: Record) {
    forall i | 0 <= i < |pre.pairs| :: PairIndexed(env, log, pre.pairs[i].0, pre.pairs[i].1)
  }

  /** A needle found in the body brings all its windows. */
  lemma NeedleWindows(h: Hashing, body: Bytes, needle: Bytes)
    requires Found(body, needle)
    ensures Windows(h, needle) <= Windows(h, LowerAll(body))
  {
    var at: nat :| MatchesAt(body, needle, at);
    var l := LowerAll(body);
    forall j | 0 <= j <= |needle| - 3 ensures Trigram(h, needle, j) in Windows(h, l) {
      assert l[at + j..at + j + 3] == needle[j..j + 3];
      assert Trigram(h, l, at + j) == Trigram(h, needle, j);
    }
  }

  lemma PairTermPresent(env: Env, h: Hashing, log: Record, name: string, value: string)
    requires PairIndexed(env, log, name, value) && Short(env, name, value)
    ensures h.pair(name, value) in RowTerms(env, h, log)
  {
  }

  /** A matching row has every term its query needs. */
  lemma TermsArePresent(env: Env, h: Hashing, pre: Prefilter, row: Row)
    requires Accepts(env, pre, row) && PairsIndexed(env, pre, row.log)
    ensures QueryTerms(env, h, pre) <= RowTerms(env, h, row.log)
  {
    forall t | t in QueryTerms(env, h, pre) ensures t in RowTerms(env, h, row.log) {
      if i :| 0 <= i < |pre.needles| && t in Windows(h, env.utf8(pre.needles[i])) {
        NeedleWindows(h, env.utf8(row.log.body), env.utf8(pre.needles[i]));
      } else {
        var i :| 0 <= i < |pre.pairs| && Short(env, pre.pairs[i].0, pre.pairs[i].1) &&
                 t == h.pair(pre.pairs[i].0, pre.pairs[i].1);
        PairTermPresent(env, h, row.log, pre.pairs[i].0, pre.pairs[i].1);
      }
    }
  }

  /** Every bit a query term needs is set by some term of the granule's own rows. */
  ghost predicate Covered(h: Hashing, needed: set<nat>, own: set<nat>, bits: nat) {
    forall t, p | t in needed && p in h.probes(t, bits) :: Probed(h, own, bits, p)
  }

  lemma CoveredIffContained(env: Env, h: Hashing, g: Granule, rows: seq<Entry>, needed: set<nat>)
    requires Summarises(env, h, g, rows)
    ensures Covered(h, needed, AllTerms(env, h, rows), g.bits) <==> forall t | t in needed :: MayContain(h, g, t)
  {
    var own := AllTerms(env, h, rows);
    if Covered(h, needed, own, g.bits) {
      forall t | t in needed ensures MayContain(h, g, t) {
        forall p | p in h.probes(t, g.bits) ensures p in g.filter {
          assert Probed(h, own, g.bits, p);
        }
      }
    }
    if forall t | t in needed :: MayContain(h, g, t) {
      forall t, p | t in needed && p in h.probes(t, g.bits) ensures Probed(h, own, g.bits, p) {
        assert MayContain(h, g, t);
        assert p in g.filter;
      }
    }
  }

  /** Skipping, exactly: of a built table, the granule of a row in the time window that
      meets the conditions is kept if and only if the terms of the granule's own rows
      set every bit that the query's terms need. */
  lemma MatchIsKeptIff(env: Env, h: Hashing, table: seq<Granule>, rows: seq<Entry>, k: nat, extra: map<string, string>,
                       start: int, end: int, pre: Prefilter)
    requires Indexes(env, h, table, rows) && k < |rows| && start <= rows[k].ts <= end
    requires Accepts(env, pre, Row(rows[k].log, extra))
    ensures var g := k / GRANULE_ROWS;
            Kept(h, table[g], start, end, pre.minSeverity, QueryTerms(env, h, pre)) <==>
            Covered(h, QueryTerms(env, h, pre), AllTerms(env, h, Chunk(rows, g)), table[g].bits)
  {
    var g := k / GRANULE_ROWS;
    ChunkAt(rows, k);
    CoveredIffContained(env, h, table[g], Chunk(rows, g), QueryTerms(env, h, pre));
  }

  lemma OwnTermsAreCovered(h: Hashing, needed: set<nat>, own: set<nat>, bits: nat)
    requires needed <= own
    ensures Covered(h, needed, own, bits)
  {
  }

  lemma MatchIsKept(env: Env, h: Hashing, table: seq<Granule>, rows: seq<Entry>, k: nat, extra: map<string, string>,
                    start: int, end: int, pre: Prefilter)
    requires Indexes(env, h, table, rows) && k < |rows| && start <= rows[k].ts <= end
    requires Accepts(env, pre, Row(rows[k].log, extra)) && PairsIndexed(env, pre, rows[k].log)
    ensures Kept(h, table[k / GRANULE_ROWS], start, end, pre.minSeverity, QueryTerms(env, h, pre))
  {
    var g := k / GRANULE_ROWS;
    ChunkAt(rows, k);
    TermsArePresent(env, h, pre, Row(rows[k].log, extra));
    AllTermsHas(env, h, Chunk(rows, g), k - GRANULE_ROWS * g);
    OwnTermsAreCovered(h, QueryTerms(env, h, pre), AllTerms(env, h, Chunk(rows, g)), table[g].bits);
    MatchIsKeptIff(env, h, table, rows, k, extra, start, end, pre);
  }

  function Zeros(n: nat): (id: Bytes)
    ensures |id| == n && AllZero(id)
  {
    seq(n, _ => 0)
  }

  /** Trace ids have 16 bytes and span ids 8. */
  predicate WellSized(log: Record) {
    |log.traceId| == 16 && |log.spanId| == 8
  }

  /** The query asks for an id that is all zero. */
  predicate AsksForZeroId(env: Env, pre: Prefilter) {
    exists i | 0 <= i < |pre.pairs| ::
      pre.pairs[i] == ("trace_id", env.hex(Zeros(16))) || pre.pairs[i] == ("span_id", env.hex(Zeros(8)))
  }

  lemma NonZeroIsIndexed(env: Env, pre: Prefilter, row: Row)
    requires Accepts(env, pre, row) && WellSized(row.log) && !AsksForZeroId(env, pre)
    ensures PairsIndexed(env, pre, row.log)
  {
    forall i | 0 <= i < |pre.pairs| ensures PairIndexed(env, row.log, pre.pairs[i].0, pre.pairs[i].1) {
      assert Carries(env, row.log, pre.pairs[i].0, pre.pairs[i].1);
      assert AllZero(row.log.traceId) ==> row.log.traceId == Zeros(16);
      assert AllZero(row.log.spanId) ==> row.log.spanId == Zeros(8);
    }
  }

  /** From predicate to granule: unless a query asks for an all-zero id, a row it matches
      is never skipped. */
  lemma MatchIsNotSkipped(env: Env, h: Hashing, table: seq<Granule>, rows: seq<Entry>, k: nat, extra: map<string,
                          string>,
                          start: int, end: int, p: Prepared, bareOk: bool)
    requires Indexes(env, h, table, rows) && k < |rows| && start <= rows[k].ts <= end && WellSized(rows[k].log)
    requires bareOk ==> NoVisibleExtra(Row(rows[k].log, extra))
    requires Matches(env, p, Row(rows[k].log, extra)) && !AsksForZeroId(env, ColumnPrefilter(p, bareOk))
    ensures var pre := ColumnPrefilter(p, bareOk);
            Kept(h, table[k / GRANULE_ROWS], start, end, pre.minSeverity, QueryTerms(env, h, pre))
  {
    var pre := ColumnPrefilter(p, bareOk);
    PrefilterIsSound(env, p, Row(rows[k].log, extra), bareOk);
    NonZeroIsIndexed(env, pre, Row(rows[k].log, extra));
    MatchIsKept(env, h, table, rows, k, extra, start, end, pre);
  }

  // --------------------------------------------------------------- a lost row

  /** A record with nothing but an all-zero trace and span id. */
  function BareEntry(ts: int): Entry {
    Entry(ts, Record(0, "", "", Zeros(16), Zeros(8), map[], map[]), 0, 0)
  }

  lemma BareTerms(env: Env, h: Hashing, ts: int)
    requires env.utf8("") == []
    ensures AllTerms(env, h, [BareEntry(ts)]) == {}
  {
    assert [BareEntry(ts)][..0] == [];
  }

  function TraceIdQuery(env: Env): Prepared {
    PClause(PEq("trace_id", env.hex(Zeros(16))))
  }

  lemma TraceIdPair(env: Env)
    ensures ColumnPrefilter(TraceIdQuery(env), false) == NOTHING.(pairs := [("trace_id", env.hex(Zeros(16)))])
  {
    assert NOTHING.pairs + [("trace_id", env.hex(Zeros(16)))] == [("trace_id", env.hex(Zeros(16)))];
  }

  lemma PairIsNeeded(env: Env, h: Hashing, pre: Prefilter, name: string, value: string)
    requires pre.needles == [] && pre.pairs == [(name, value)] && Short(env, name, value)
    ensures QueryTerms(env, h, pre) == {h.pair(name, value)}
  {
    assert pre.pairs[0] == (name, value);
  }

  /** A record with an all-zero trace id matches the equality on that id, but its granule
      is read only if other terms happen to set the bits of the term it was not given. */
  lemma ZeroIdIsSkipped(env: Env, h: Hashing, table: seq<Granule>, rows: seq<Entry>, k: nat, extra: map<string, string>,
                        start: int, end: int)
    requires Indexes(env, h, table, rows) && k < |rows| && start <= rows[k].ts <= end
    requires rows[k].log.traceId == Zeros(16) && Short(env, "trace_id", env.hex(Zeros(16)))
    ensures Matches(env, TraceIdQuery(env), Row(rows[k].log, extra))
    ensures var g, pre := k / GRANULE_ROWS, ColumnPrefilter(TraceIdQuery(env), false);
            Kept(h, table[g], start, end, pre.minSeverity, QueryTerms(env, h, pre)) <==>
            Covered(h, {h.pair("trace_id", env.hex(Zeros(16)))}, AllTerms(env, h, Chunk(rows, g)), table[g].bits)
  {
    var pre := ColumnPrefilter(TraceIdQuery(env), false);
    TraceIdPair(env);
    PairIsNeeded(env, h, pre, "trace_id", env.hex(Zeros(16)));
    PrefilterIsSound(env, TraceIdQuery(env), Row(rows[k].log, extra), false);
    MatchIsKeptIff(env, h, table, rows, k, extra, start, end, pre);
  }

  /** No term, no bit: nothing that sets a bit can be found. */
  lemma EmptyIsSkipped(env: Env, h: Hashing, table: seq<Granule>, e: Entry, t: nat)
    requires Indexes(env, h, table, [e]) && AllTerms(env, h, [e]) == {}
    requires forall bits :: h.probes(t, bits) != {}
    ensures |table| == 1 && !MayContain(h, table[0], t)
  {
    assert Chunk([e], 0) == [e];
    var p :| p in h.probes(t, table[0].bits);
    assert !Probed(h, {}, table[0].bits, p);
  }

  /** A block that loses its row: it holds one record, whose trace id is all zero. The
      equality on that id matches the record, but no row range is left to read, however
      good the hashes are. */
  method LosesZeroId(env: Env, h: Hashing, ts: int) returns (ranges: seq<(nat, nat)>)
    requires env.utf8("") == [] && Short(env, "trace_id", env.hex(Zeros(16)))
    requires forall t, bits :: h.probes(t, bits) != {}
    ensures Matches(env, TraceIdQuery(env), Row(BareEntry(ts).log, map[]))
    ensures ranges == []
  {
    var e, v := BareEntry(ts), env.hex(Zeros(16));
    var pre := ColumnPrefilter(TraceIdQuery(env), false);
    var builder := new LogIndexBuilder(env, h);
    builder.PushRecord(e);
    var table := builder.Finish();
    assert builder.rows == [e];
    BareTerms(env, h, ts);
    TraceIdPair(env);
    PairIsNeeded(env, h, pre, "trace_id", v);
    EmptyIsSkipped(env, h, table, e, h.pair("trace_id", v));
    ranges := CandidateRanges(h, table, 1, ts, ts, pre.minSeverity, QueryTerms(env, h, pre));
    assert !InSome(ranges, 0);
    assert |ranges| > 0 ==> ranges[0].0 == 0;
  }
}

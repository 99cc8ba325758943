/** The terms of log rows, and the granules that summarise them: runs of rows, each with
    its time bounds, highest severity and a bloom filter over the terms its rows contain.
    Hashes, probe positions and filter sizes are parameters, so nothing depends on how
    well they mix. */
module LogGranules {
  import opened LogPrefilter
  import opened LogQuery
  import opened Options
  import opened TextSearch
  import opened WalFrame

  const GRANULE_ROWS: nat := 4096
  const MAX_PAIR_BYTES: nat := 256
  const I64_MAX: int := 0x7FFF_FFFF_FFFF_FFFF
  const I64_MIN: int := -0x8000_0000_0000_0000
  const I32_MIN: int := -0x8000_0000

  datatype Hashing = Hashing(
    trigram: Bytes -> nat,
    pair: (string, string) -> nat,
    probes: (nat, nat) -> set<nat>,
    bits: nat -> nat)

  /** A record with its timestamp and the addresses of its shared label sets. */
  datatype Entry = Entry(ts: int, log: Record, attrAddr: nat, resAddr: nat)

  datatype Granule = Granule(minTs: int, maxTs: int, maxSeverity: int, bits: nat, filter: set<nat>)

  // --------------------------------------------------------------------- terms

  function Trigram(h: Hashing, b: Bytes, i: nat): nat
    requires i + 3 <= |b|
  {
    h.trigram(b[i..i + 3])
  }

  /** Every three-byte window. */
  function Windows(h: Hashing, b: Bytes): set<nat> {
    set i | 0 <= i <= |b| - 3 :: Trigram(h, b, i)
  }

  predicate Short(env: Env, name: string, value: string) {
    |env.utf8(name)| + |env.utf8(value)| <= MAX_PAIR_BYTES
  }

  function PairTerms(env: Env, h: Hashing, labels: map<string, string>): set<nat> {
    set k | k in labels && Short(env, k, labels[k]) :: h.pair(k, labels[k])
  }

  predicate AllZero(id: Bytes) {
    forall i | 0 <= i < |id| :: id[i] == 0
  }

  /** An all-zero id stands for none and gets no term. */
  function IdTerms(env: Env, h: Hashing, log: Record): set<nat> {
    (if AllZero(log.traceId) then {} else {h.pair("trace_id", env.hex(log.traceId))}) +
    (if AllZero(log.spanId) then {} else {h.pair("span_id", env.hex(log.spanId))})
  }

  function RowTerms(env: Env, h: Hashing, log: Record): set<nat> {
    Windows(h, LowerAll(env.utf8(log.body))) +
    PairTerms(env, h, log.attributes) + PairTerms(env, h, log.resource) + IdTerms(env, h, log)
  }

  /** What a query's conditions need a granule to contain. */
  function QueryTerms(env: Env, h: Hashing, pre: Prefilter): set<nat> {
    (set i, t | 0 <= i < |pre.needles| && t in Windows(h, env.utf8(pre.needles[i])) :: t) +
    (set i | 0 <= i < |pre.pairs| && Short(env, pre.pairs[i].0, pre.pairs[i].1) ::
       h.pair(pre.pairs[i].0, pre.pairs[i].1))
  }

  // ------------------------------------------------------------------- building

  /** All terms of a run of rows. */
  function AllTerms(env: Env, h: Hashing, rows: seq<Entry>): set<nat> {
    if rows == [] then {} else AllTerms(env, h, rows[..|rows| - 1]) + RowTerms(env, h, rows[|rows| - 1].log)
  }

  lemma {:induction false} AllTermsHas(env: Env, h: Hashing, rows: seq<Entry>, k: nat)
    requires k < |rows|
    ensures RowTerms(env, h, rows[k].log) <= AllTerms(env, h, rows)
  {
    if k < |rows| - 1 {
      AllTermsHas(env, h, rows[..|rows| - 1], k);
    }
  }

  /** Some term sets this bit. */
  ghost predicate Probed(h: Hashing, terms: set<nat>, bits: nat, p: nat) {
    exists t | t in terms :: p in h.probes(t, bits)
  }

  /** The granule bounds its rows' times and severities, and its filter holds the probes
      of their terms and nothing else. */
  ghost predicate Summarises(env: Env, h: Hashing, g: Granule, rows: seq<Entry>) {
    && (forall k | 0 <= k < |rows| :: g.minTs <= rows[k].ts <= g.maxTs && rows[k].log.severity <= g.maxSeverity)
    && (forall p :: p in g.filter <==> Probed(h, AllTerms(env, h, rows), g.bits, p))
  }

  /** A trigram seen in the open granule is already among its terms. */
  ghost predicate Seen(h: Hashing, seen: set<Bytes>, terms: set<nat>) {
    forall w | w in seen :: h.trigram(w) in terms
  }

  /** Slides a three-byte window over the lower-cased body, skipping trigrams that the
      granule has already seen. */
  method BodyTerms(h: Hashing, body: Bytes, terms: set<nat>, seen: set<Bytes>)
    returns (more: set<nat>, seen': set<Bytes>)
    requires Seen(h, seen, terms)
    ensures more == terms + Windows(h, LowerAll(body)) && Seen(h, seen', more)
  {
    more, seen' := terms, seen;
    ghost var l := LowerAll(body);
    if |body| < 3 {
      return;
    }
    var w := [Lower(body[0]), Lower(body[1]), Lower(body[2])];
    var i := 3;
    while true
      invariant 3 <= i <= |body| && w == l[i - 3..i]
      invariant Seen(h, seen', more)
      invariant more == terms + set k | 0 <= k < i - 3 && k <= |l| - 3 :: Trigram(h, l, k)
      decreases |body| - i
    {
      assert h.trigram(w) == Trigram(h, l, i - 3);
      if w !in seen' {
        seen' := seen' + {w};
        more := more + {h.trigram(w)};
      }
      if i == |body| {
        break;
      }
      w := [w[1], w[2], Lower(body[i])];
      i := i + 1;
    }
  }

  method FillFilter(h: Hashing, terms: set<nat>, bits: nat) returns (filter: set<nat>)
    ensures forall p :: p in filter <==> Probed(h, terms, bits, p)
  {
    filter := {};
    var left := terms;
    while left != {}
      invariant left <= terms
      invariant forall t | t in terms - left :: h.probes(t, bits) <= filter
      invariant forall p | p in filter :: Probed(h, terms, bits, p)
      decreases left
    {
      var t :| t in left;
      filter := filter + h.probes(t, bits);
      left := left - {t};
    }
  }

  /** A label set already hashed for the open granule. */
  ghost predicate Hashed(env: Env, h: Hashing, last: Option<(nat, map<string, string>)>, terms: set<nat>) {
    last.Some? ==> PairTerms(env, h, last.value.1) <= terms
  }

  /** Same storage as the previous row's set. */
  predicate SameSet(last: Option<(nat, map<string, string>)>, addr: nat) {
    last.Some? && last.value.0 == addr
  }

  /** What the open granule has gathered from its rows. */
  datatype Gathered = Gathered(
    terms: set<nat>, seen: set<Bytes>, minTs: int, maxTs: int, maxSeverity: int,
    attrs: Option<(nat, map<string, string>)>, resource: Option<(nat, map<string, string>)>)

  const EMPTY_GRANULE := Gathered({}, {}, I64_MAX, I64_MIN, I32_MIN, None, None)

  ghost predicate Gathers(env: Env, h: Hashing, o: Gathered, rows: seq<Entry>) {
    && o.terms == AllTerms(env, h, rows)
    && Seen(h, o.seen, o.terms) && Hashed(env, h, o.attrs, o.terms) && Hashed(env, h, o.resource, o.terms)
    && forall k | 0 <= k < |rows| :: o.minTs <= rows[k].ts <= o.maxTs && rows[k].log.severity <= o.maxSeverity
  }

  /** Adds one row's terms. A label set at the previous row's address is that set, and is
      not hashed again. */
  method GatherTerms(env: Env, h: Hashing, o: Gathered, e: Entry) returns (terms: set<nat>, seen: set<Bytes>)
    requires Seen(h, o.seen, o.terms) && Hashed(env, h, o.attrs, o.terms) && Hashed(env, h, o.resource, o.terms)
    requires SameSet(o.attrs, e.attrAddr) ==> o.attrs.value.1 == e.log.attributes
    requires SameSet(o.resource, e.resAddr) ==> o.resource.value.1 == e.log.resource
    ensures terms == o.terms + RowTerms(env, h, e.log) && Seen(h, seen, terms)
  {
    terms, seen := BodyTerms(h, env.utf8(e.log.body), o.terms, o.seen);
    if !SameSet(o.attrs, e.attrAddr) {
      terms := terms + PairTerms(env, h, e.log.attributes);
    }
    if !SameSet(o.resource, e.resAddr) {
      terms := terms + PairTerms(env, h, e.log.resource);
    }
    terms := terms + IdTerms(env, h, e.log);
  }

  method Gather(env: Env, h: Hashing, o: Gathered, e: Entry, ghost rows: seq<Entry>) returns (next: Gathered)
    requires Gathers(env, h, o, rows)
    requires SameSet(o.attrs, e.attrAddr) ==> o.attrs.value.1 == e.log.attributes
    requires SameSet(o.resource, e.resAddr) ==> o.resource.value.1 == e.log.resource
    ensures Gathers(env, h, next, rows + [e])
    ensures next.attrs == Some((e.attrAddr, e.log.attributes)) && next.resource == Some((e.resAddr, e.log.resource))
  {
    var terms, seen := GatherTerms(env, h, o, e);
    next := Gathered(
      terms, seen,
      if e.ts < o.minTs then e.ts else o.minTs,
      if e.ts > o.maxTs then e.ts else o.maxTs,
      if e.log.severity > o.maxSeverity then e.log.severity else o.maxSeverity,
      Some((e.attrAddr, e.log.attributes)), Some((e.resAddr, e.log.resource)));
    assert (rows + [e])[..|rows|] == rows;
  }

  /** The rows of the `g`th granule. */
  function Chunk(rows: seq<Entry>, g: nat): (chunk: seq<Entry>)
    requires GRANULE_ROWS * g <= |rows|
  {
    rows[GRANULE_ROWS * g..if GRANULE_ROWS * (g + 1) < |rows| then GRANULE_ROWS * (g + 1) else |rows|]
  }

  /** Every granule so far accounts for its rows. */
  ghost predicate SummarisesAll(env: Env, h: Hashing, granules: seq<Granule>, rows: seq<Entry>) {
    forall g | 0 <= g < |granules| :: GRANULE_ROWS * g <= |rows| && Summarises(env, h, granules[g], Chunk(rows, g))
  }

  lemma ChunkAt(rows: seq<Entry>, k: nat)
    requires k < |rows|
    ensures var g := k / GRANULE_ROWS;
            GRANULE_ROWS * g <= k && k - GRANULE_ROWS * g < |Chunk(rows, g)| &&
            Chunk(rows, g)[k - GRANULE_ROWS * g] == rows[k]
  {
  }

  lemma MoreRows(env: Env, h: Hashing, granules: seq<Granule>, rows: seq<Entry>, e: Entry)
    requires SummarisesAll(env, h, granules, rows) && GRANULE_ROWS * |granules| <= |rows|
    ensures SummarisesAll(env, h, granules, rows + [e])
  {
    forall g | 0 <= g < |granules| ensures Summarises(env, h, granules[g], Chunk(rows + [e], g)) {
      assert Chunk(rows + [e], g) == Chunk(rows, g);
    }
  }

  lemma CloseNext(env: Env, h: Hashing, granules: seq<Granule>, g: Granule, o: Gathered, rows: seq<Entry>)
    requires SummarisesAll(env, h, granules, rows)
    requires GRANULE_ROWS * |granules| <= |rows| <= GRANULE_ROWS * (|granules| + 1)
    requires Gathers(env, h, o, rows[GRANULE_ROWS * |granules|..])
    requires g.minTs == o.minTs && g.maxTs == o.maxTs && g.maxSeverity == o.maxSeverity
    requires forall p :: p in g.filter <==> Probed(h, o.terms, g.bits, p)
    ensures SummarisesAll(env, h, granules + [g], rows)
  {
    assert Chunk(rows, |granules|) == rows[GRANULE_ROWS * |granules|..];
  }

  /** Closed granules account for their rows, and the open one has gathered the rest. */
  ghost predicate Built(env: Env, h: Hashing, granules: seq<Granule>, open: Gathered, rows: seq<Entry>) {
    && GRANULE_ROWS * |granules| <= |rows| < GRANULE_ROWS * (|granules| + 1)
    && SummarisesAll(env, h, granules, rows)
    && Gathers(env, h, open, rows[GRANULE_ROWS * |granules|..])
  }

  lemma StaysOpen(env: Env, h: Hashing, granules: seq<Granule>, open: Gathered, next: Gathered,
                  rows: seq<Entry>, e: Entry)
    requires Built(env, h, granules, open, rows) && |rows| + 1 < GRANULE_ROWS * (|granules| + 1)
    requires Gathers(env, h, next, rows[GRANULE_ROWS * |granules|..] + [e])
    ensures Built(env, h, granules, next, rows + [e])
  {
    MoreRows(env, h, granules, rows, e);
    assert (rows + [e])[GRANULE_ROWS * |granules|..] == rows[GRANULE_ROWS * |granules|..] + [e];
  }

  lemma Closes(env: Env, h: Hashing, granules: seq<Granule>, g: Granule, open: Gathered, next: Gathered,
               rows: seq<Entry>, e: Entry)
    requires Built(env, h, granules, open, rows) && |rows| + 1 == GRANULE_ROWS * (|granules| + 1)
    requires Gathers(env, h, next, rows[GRANULE_ROWS * |granules|..] + [e])
    requires g.minTs == next.minTs && g.maxTs == next.maxTs && g.maxSeverity == next.maxSeverity
    requires forall p :: p in g.filter <==> Probed(h, next.terms, g.bits, p)
    ensures Built(env, h, granules + [g], EMPTY_GRANULE, rows + [e])
  {
    MoreRows(env, h, granules, rows, e);
    assert (rows + [e])[GRANULE_ROWS * |granules|..] == rows[GRANULE_ROWS * |granules|..] + [e];
    CloseNext(env, h, granules, g, next, rows + [e]);
  }
}

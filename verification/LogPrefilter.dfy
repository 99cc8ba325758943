/** Conditions on single columns, taken from a prepared predicate, that reject rows
    before they are decoded. */
module LogPrefilter {
  import opened LogQuery
  import opened Options

  datatype Prefilter = Prefilter(
    minSeverity: Option<int>, needles: seq<string>, pairs: seq<(string, string)>, exact: bool)

  const NOTHING := Prefilter(None, [], [], false)

  /** The record itself carries the pair, in its attributes or as one of its ids. */
  predicate Carries(env: Env, log: Record, name: string, value: string) {
    || Get(log.attributes, name) == Some(value)
    || Get(log.resource, name) == Some(value)
    || (name == "trace_id" && env.hex(log.traceId) == value)
    || (name == "span_id" && env.hex(log.spanId) == value)
  }

  /** Every condition collected so far. */
  ghost predicate Accepts(env: Env, pre: Prefilter, row: Row) {
    && (pre.minSeverity.Some? ==> row.log.severity >= pre.minSeverity.value)
    && (forall i | 0 <= i < |pre.needles| :: BodyHas(env, row, pre.needles[i]))
    && (forall i | 0 <= i < |pre.pairs| :: Carries(env, row.log, pre.pairs[i].0, pre.pairs[i].1))
  }

  // ---------------------------------------------------------------- collecting

  /** The name under which a record carries the value an equality on `field` looks at.
      A bare name counts only when the caller has no extra fields. */
  function IndexedPairName(field: string, bareOk: bool): Option<string> {
    if field == "service" || field == "service.name" then Some("service.name")
    else if field == "trace_id" || field == "span_id" then Some(field)
    else if field == "body" || field == "severity" || field == "severity_text" then None
    else match OrElse(StripPrefix(field, "attr."), StripPrefix(field, "res."))
      case Some(key) => Some(key)
      case None => if bareOk then Some(field) else None
  }

  function AddClause(pre: Prefilter, c: PreparedClause, bareOk: bool): Prefilter {
    match c
    case PSeverityMin(n) =>
      pre.(minSeverity := Some(if pre.minSeverity.Some? && pre.minSeverity.value > n then pre.minSeverity.value else n))
    case PBodyContains(needle, false) => pre.(needles := pre.needles + [needle])
    case PEq(field, value) =>
      (match IndexedPairName(field, bareOk)
       case Some(name) => pre.(pairs := pre.pairs + [(name, value)])
       case None => pre)
    case _ => pre
  }

  function AddTerm(pre: Prefilter, t: PreparedTerm): Prefilter {
    match t
    case PContains(needle, false) => pre.(needles := pre.needles + [needle])
    case _ => pre
  }

  predicate ClauseIsExact(c: PreparedClause) {
    c.PSeverityMin? || (c.PBodyContains? && !c.negate)
  }

  predicate TermIsExact(t: PreparedTerm) {
    t.PContains? && !t.negate
  }

  predicate IsExact(p: Prepared) {
    match p
    case PAnd(parts) => forall i | 0 <= i < |parts| :: IsExact(parts[i])
    case PClause(c) => ClauseIsExact(c)
    case PTerm(t) => TermIsExact(t)
    case _ => false
  }

  /** Only conjuncts contribute. */
  function Collect(p: Prepared, pre: Prefilter, bareOk: bool): Prefilter
    decreases p, 1, 0
  {
    match p
    case PAnd(parts) => CollectEach(p, 0, pre, bareOk)
    case PClause(c) => AddClause(pre, c, bareOk)
    case PTerm(t) => AddTerm(pre, t)
    case POr(_) => pre
    case PNot(_) => pre
  }

  function CollectEach(p: Prepared, from: nat, pre: Prefilter, bareOk: bool): Prefilter
    requires p.PAnd? && from <= |p.parts|
    decreases p, 0, |p.parts| - from
  {
    if from == |p.parts| then pre
    else CollectEach(p, from + 1, Collect(p.parts[from], pre, bareOk), bareOk)
  }

  function ColumnPrefilter(p: Prepared, bareOk: bool): Prefilter {
    Collect(p, NOTHING, bareOk).(exact := IsExact(p))
  }

  // ------------------------------------------------------------- bare field names

  /** Names whose value never comes from the extra fields. */
  predicate Dedicated(field: string) {
    || field in {"body", "severity", "severity_text", "service", "service.name", "trace_id", "span_id"}
    || "attr." <= field || "res." <= field
  }

  /** No extra field is what a bare name resolves to. */
  predicate NoVisibleExtra(row: Row) {
    forall f | f in row.extra :: Dedicated(f) || f in row.log.attributes || f in row.log.resource
  }

  /** An equality can only hold if the record carries that pair. */
  lemma EqualityCarries(env: Env, row: Row, field: string, value: string, bareOk: bool)
    requires bareOk ==> NoVisibleExtra(row)
    requires FieldValue(env, row, field) == Some(value) && IndexedPairName(field, bareOk).Some?
    ensures Carries(env, row.log, IndexedPairName(field, bareOk).value, value)
  {
  }

  // ---------------------------------------------------- necessary and, if exact, enough

  lemma MoreNeedles(env: Env, pre: Prefilter, needle: string, row: Row)
    ensures Accepts(env, pre.(needles := pre.needles + [needle]), row) <==>
            Accepts(env, pre, row) && BodyHas(env, row, needle)
  {
    var more := pre.needles + [needle];
    assert more[|pre.needles|] == needle;
    assert forall i | 0 <= i < |pre.needles| :: more[i] == pre.needles[i];
  }

  lemma MorePairs(env: Env, pre: Prefilter, name: string, value: string, row: Row)
    ensures Accepts(env, pre.(pairs := pre.pairs + [(name, value)]), row) <==>
            Accepts(env, pre, row) && Carries(env, row.log, name, value)
  {
    var more := pre.pairs + [(name, value)];
    assert more[|pre.pairs|] == (name, value);
    assert forall i | 0 <= i < |pre.pairs| :: more[i] == pre.pairs[i];
  }

  lemma AddClauseMeans(env: Env, pre: Prefilter, c: PreparedClause, row: Row, bareOk: bool)
    ensures Accepts(env, AddClause(pre, c, bareOk), row) ==> Accepts(env, pre, row)
    ensures (bareOk ==> NoVisibleExtra(row)) && Accepts(env, pre, row) && ClauseMatches(env, c, row) ==>
              Accepts(env, AddClause(pre, c, bareOk), row)
    ensures ClauseIsExact(c) && Accepts(env, AddClause(pre, c, bareOk), row) ==> ClauseMatches(env, c, row)
  {
    match c
    case PBodyContains(needle, negate) => MoreNeedles(env, pre, needle, row);
    case PEq(field, value) =>
      if IndexedPairName(field, bareOk).Some? {
        MorePairs(env, pre, IndexedPairName(field, bareOk).value, value, row);
        if (bareOk ==> NoVisibleExtra(row)) && ClauseMatches(env, c, row) {
          EqualityCarries(env, row, field, value, bareOk);
        }
      }
    case _ =>
  }

  lemma AddTermMeans(env: Env, pre: Prefilter, t: PreparedTerm, row: Row)
    ensures Accepts(env, AddTerm(pre, t), row) ==> Accepts(env, pre, row)
    ensures Accepts(env, pre, row) && TermMatches(env, t, row) ==> Accepts(env, AddTerm(pre, t), row)
    ensures TermIsExact(t) && Accepts(env, AddTerm(pre, t), row) ==> TermMatches(env, t, row)
  {
    if t.PContains? {
      MoreNeedles(env, pre, t.needle, row);
    }
  }

  lemma {:induction false} CollectMeans(env: Env, p: Prepared, pre: Prefilter, row: Row, bareOk: bool)
    ensures Accepts(env, Collect(p, pre, bareOk), row) ==> Accepts(env, pre, row)
    ensures (bareOk ==> NoVisibleExtra(row)) && Accepts(env, pre, row) && Matches(env, p, row) ==>
              Accepts(env, Collect(p, pre, bareOk), row)
    ensures IsExact(p) && Accepts(env, Collect(p, pre, bareOk), row) ==> Matches(env, p, row)
    decreases p, 1, 0
  {
    match p
    case PAnd(parts) => CollectEachMeans(env, p, 0, pre, row, bareOk);
    case PClause(c) => AddClauseMeans(env, pre, c, row, bareOk);
    case PTerm(t) => AddTermMeans(env, pre, t, row);
    case _ =>
  }

  lemma {:induction false} CollectEachMeans(env: Env, p: Prepared, from: nat, pre: Prefilter, row: Row, bareOk: bool)
    requires p.PAnd? && from <= |p.parts|
    ensures Accepts(env, CollectEach(p, from, pre, bareOk), row) ==> Accepts(env, pre, row)
    ensures (bareOk ==> NoVisibleExtra(row)) && Accepts(env, pre, row) &&
            (forall i | from <= i < |p.parts| :: Matches(env, p.parts[i], row)) ==>
              Accepts(env, CollectEach(p, from, pre, bareOk), row)
    ensures (forall i | from <= i < |p.parts| :: IsExact(p.parts[i])) &&
            Accepts(env, CollectEach(p, from, pre, bareOk), row) ==>
              forall i | from <= i < |p.parts| :: Matches(env, p.parts[i], row)
    decreases p, 0, |p.parts| - from
  {
    if from < |p.parts| {
      CollectMeans(env, p.parts[from], pre, row, bareOk);
      CollectEachMeans(env, p, from + 1, Collect(p.parts[from], pre, bareOk), row, bareOk);
    }
  }

  /** Every row the predicate accepts meets the conditions; when they are marked exact,
      they accept no other row. The bare-name variant asks for no visible extra field. */
  lemma PrefilterIsSound(env: Env, p: Prepared, row: Row, bareOk: bool)
    ensures (bareOk ==> NoVisibleExtra(row)) && Matches(env, p, row) ==> Accepts(env, ColumnPrefilter(p, bareOk), row)
    ensures ColumnPrefilter(p, bareOk).exact && Accepts(env, ColumnPrefilter(p, bareOk), row) ==> Matches(env, p, row)
  {
    CollectMeans(env, p, NOTHING, row, bareOk);
  }

  /** For the bare-name variant that condition cannot be relaxed: it is sound for all
      predicates if and only if no extra field is visible. */
  lemma BareNamesAreSoundIff(env: Env, row: Row)
    ensures (forall p :: Matches(env, p, row) ==> Accepts(env, ColumnPrefilter(p, true), row)) <==> NoVisibleExtra(row)
  {
    if NoVisibleExtra(row) {
      forall p | Matches(env, p, row) ensures Accepts(env, ColumnPrefilter(p, true), row) {
        PrefilterIsSound(env, p, row, true);
      }
    } else {
      var f :| f in row.extra && !Dedicated(f) && f !in row.log.attributes && f !in row.log.resource;
      HiddenPair(env, row, f);
      assert Matches(env, PClause(PEq(f, row.extra[f])), row);
    }
  }

  lemma HiddenPair(env: Env, row: Row, f: string)
    requires f in row.extra && !Dedicated(f) && f !in row.log.attributes && f !in row.log.resource
    ensures var p := PClause(PEq(f, row.extra[f]));
            Matches(env, p, row) && !Accepts(env, ColumnPrefilter(p, true), row)
  {
    MorePairs(env, NOTHING, f, row.extra[f], row);
  }

  // --------------------------------------------------------------- flat queries

  function AddClauses(pre: Prefilter, cs: seq<PreparedClause>, bareOk: bool): Prefilter {
    if cs == [] then pre else AddClause(AddClauses(pre, cs[..|cs| - 1], bareOk), cs[|cs| - 1], bareOk)
  }

  function AddTerms(pre: Prefilter, ts: seq<PreparedTerm>): Prefilter {
    if ts == [] then pre else AddTerm(AddTerms(pre, ts[..|ts| - 1]), ts[|ts| - 1])
  }

  method FlatPrefilter(q: PreparedQuery, bareOk: bool) returns (pre: Prefilter)
    ensures pre == AddTerms(AddClauses(NOTHING, q.clauses, bareOk), q.terms).(exact := QueryIsExact(q))
    ensures forall env, row | (bareOk ==> NoVisibleExtra(row)) && QueryMatches(env, q, row) :: Accepts(env, pre, row)
    ensures pre.exact ==> forall env, row | Accepts(env, pre, row) :: QueryMatches(env, q, row)
  {
    pre := NOTHING;
    for i := 0 to |q.clauses|
      invariant pre == AddClauses(NOTHING, q.clauses[..i], bareOk)
    {
      assert q.clauses[..i + 1][..i] == q.clauses[..i];
      pre := AddClause(pre, q.clauses[i], bareOk);
    }
    assert q.clauses[..|q.clauses|] == q.clauses;
    ghost var clauses := pre;
    for i := 0 to |q.terms|
      invariant pre == AddTerms(clauses, q.terms[..i])
    {
      assert q.terms[..i + 1][..i] == q.terms[..i];
      pre := AddTerm(pre, q.terms[i]);
    }
    assert q.terms[..|q.terms|] == q.terms;
    pre := pre.(exact := (forall i | 0 <= i < |q.clauses| :: ClauseIsExact(q.clauses[i])) &&
                         (forall i | 0 <= i < |q.terms| :: TermIsExact(q.terms[i])));
    forall env, row
      ensures (bareOk ==> NoVisibleExtra(row)) && QueryMatches(env, q, row) ==> Accepts(env, pre, row)
      ensures pre.exact && Accepts(env, pre, row) ==> QueryMatches(env, q, row)
    {
      FlatPrefilterIsSound(env, q, pre, row, bareOk);
    }
  }

  lemma {:induction false} AddClausesMeans(env: Env, pre: Prefilter, cs: seq<PreparedClause>, row: Row, bareOk: bool)
    ensures Accepts(env, AddClauses(pre, cs, bareOk), row) ==> Accepts(env, pre, row)
    ensures (bareOk ==> NoVisibleExtra(row)) && Accepts(env, pre, row) &&
            (forall i | 0 <= i < |cs| :: ClauseMatches(env, cs[i], row)) ==>
              Accepts(env, AddClauses(pre, cs, bareOk), row)
    ensures (forall i | 0 <= i < |cs| :: ClauseIsExact(cs[i])) && Accepts(env, AddClauses(pre, cs, bareOk), row) ==>
              forall i | 0 <= i < |cs| :: ClauseMatches(env, cs[i], row)
  {
    if cs != [] {
      var n := |cs| - 1;
      AddClausesMeans(env, pre, cs[..n], row, bareOk);
      AddClauseMeans(env, AddClauses(pre, cs[..n], bareOk), cs[n], row, bareOk);
      assert forall i | 0 <= i < n :: cs[..n][i] == cs[i];
    }
  }

  lemma {:induction false} AddTermsMeans(env: Env, pre: Prefilter, ts: seq<PreparedTerm>, row: Row)
    ensures Accepts(env, AddTerms(pre, ts), row) ==> Accepts(env, pre, row)
    ensures Accepts(env, pre, row) && (forall i | 0 <= i < |ts| :: TermMatches(env, ts[i], row)) ==>
              Accepts(env, AddTerms(pre, ts), row)
    ensures (forall i | 0 <= i < |ts| :: TermIsExact(ts[i])) && Accepts(env, AddTerms(pre, ts), row) ==>
              forall i | 0 <= i < |ts| :: TermMatches(env, ts[i], row)
  {
    if ts != [] {
      var n := |ts| - 1;
      AddTermsMeans(env, pre, ts[..n], row);
      AddTermMeans(env, AddTerms(pre, ts[..n]), ts[n], row);
      assert forall i | 0 <= i < n :: ts[..n][i] == ts[i];
    }
  }

  predicate QueryIsExact(q: PreparedQuery) {
    && (forall i | 0 <= i < |q.clauses| :: ClauseIsExact(q.clauses[i]))
    && (forall i | 0 <= i < |q.terms| :: TermIsExact(q.terms[i]))
  }

  /** The same two guarantees for a flat query. */
  lemma FlatPrefilterIsSound(env: Env, q: PreparedQuery, pre: Prefilter, row: Row, bareOk: bool)
    requires pre == AddTerms(AddClauses(NOTHING, q.clauses, bareOk), q.terms).(exact := QueryIsExact(q))
    ensures (bareOk ==> NoVisibleExtra(row)) && QueryMatches(env, q, row) ==> Accepts(env, pre, row)
    ensures pre.exact && Accepts(env, pre, row) ==> QueryMatches(env, q, row)
  {
    AddClausesMeans(env, NOTHING, q.clauses, row, bareOk);
    AddTermsMeans(env, AddClauses(NOTHING, q.clauses, bareOk), q.terms, row);
  }
}

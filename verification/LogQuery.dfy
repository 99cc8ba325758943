/** Search predicates over log records: their meaning, flattening of conjunctions, and
    the prepared form that rows are matched against. Regex matching, number parsing,
    Unicode lower-casing and text encodings come from libraries and are parameters. */
module LogQuery {
  import opened Options
  import opened TextSearch
  import opened WalFrame

  // ------------------------------------------------------------------- queries

  datatype CmpOp = Gt | Ge | Lt | Le

  /** IEEE numbers as far as comparisons tell them apart. */
  datatype Float = NaN | Finite(r: real) | PosInf | NegInf

  predicate Less(a: Float, b: Float) {
    match (a, b)
    case (NaN, _) => false
    case (_, NaN) => false
    case (Finite(x), Finite(y)) => x < y
    case (NegInf, _) => b != NegInf
    case (_, PosInf) => a != PosInf
    case _ => false
  }

  predicate AtMost(a: Float, b: Float) {
    Less(a, b) || (a == b && a != NaN)
  }

  datatype Clause =
    | Eq(field: string, value: string)
    | Ne(field: string, value: string)
    | Re(field: string, regex: string)
    | Cmp(field: string, op: CmpOp, bound: Float)
    | InRange(field: string, min: Float, max: Float)
    | Exists(field: string)
    | SeverityMin(name: string)
    | Negated(clause: Clause)

  datatype SearchTerm = SearchTerm(text: string, negate: bool, phrase: bool, wildcard: bool)

  datatype Predicate =
    | And(parts: seq<Predicate>)
    | Or(parts: seq<Predicate>)
    | Not(inner: Predicate)
    | ClauseAtom(clause: Clause)
    | TermAtom(term: SearchTerm)

  /** A flat conjunction. */
  datatype SearchQuery = SearchQuery(clauses: seq<Clause>, terms: seq<SearchTerm>)

  // ---------------------------------------------------------------------- rows

  datatype Record = Record(
    severity: int, severityText: string, body: string,
    traceId: Bytes, spanId: Bytes,
    attributes: map<string, string>, resource: map<string, string>)

  /** A record and the fields a pipeline added. */
  datatype Row = Row(log: Record, extra: map<string, string>)

  /** Library behaviour. A pattern that does not compile is `None`. */
  datatype Env = Env(
    utf8: string -> Bytes,
    toLower: string -> string,
    toUpperAscii: string -> string,
    hex: Bytes -> string,
    compiles: string -> bool,
    isMatch: (string, string) -> bool,
    parse: string -> Option<Float>,
    fromInt: int -> Float)

  function Get(m: map<string, string>, key: string): Option<string> {
    if key in m then Some(m[key]) else None
  }

  function StripPrefix(s: string, prefix: string): Option<string> {
    if prefix <= s then Some(s[|prefix|..]) else None
  }

  function OrElse<T>(a: Option<T>, b: Option<T>): Option<T> {
    if a.Some? then a else b
  }

  /** Dedicated names first, then `attr.` and `res.` names, then attributes before
      resource attributes before extra fields. */
  function FieldValue(env: Env, row: Row, field: string): Option<string> {
    if field == "body" then Some(row.log.body)
    else if field == "severity" || field == "severity_text" then Some(row.log.severityText)
    else if field == "service" || field == "service.name" then Get(row.log.resource, "service.name")
    else if field == "trace_id" then Some(env.hex(row.log.traceId))
    else if field == "span_id" then Some(env.hex(row.log.spanId))
    else ResolveOther(row, field)
  }

  function ResolveOther(row: Row, field: string): Option<string> {
    match (StripPrefix(field, "attr."), StripPrefix(field, "res."))
    case (Some(key), _) => Get(row.log.attributes, key)
    case (None, Some(key)) => Get(row.log.resource, key)
    case (None, None) =>
      OrElse(Get(row.log.attributes, field), OrElse(Get(row.log.resource, field), Get(row.extra, field)))
  }

  function NumericField(env: Env, row: Row, field: string): Option<Float> {
    if field == "severity_number" then Some(env.fromInt(row.log.severity))
    else match FieldValue(env, row, field)
      case Some(v) => env.parse(v)
      case None => None
  }

  function SeverityRank(env: Env, name: string): Option<int> {
    var up := env.toUpperAscii(name);
    if up == "TRACE" || up == "VERBOSE" then Some(1)
    else if up == "DEBUG" then Some(5)
    else if up == "INFO" then Some(9)
    else if up == "WARN" || up == "WARNING" then Some(13)
    else if up == "ERROR" || up == "SEVERE" || up == "FATAL" then Some(17)
    else None
  }

  function Threshold(env: Env, name: string): int {
    match SeverityRank(env, name)
    case Some(n) => n
    case None => 9
  }

  /** ASCII-case-insensitive search of the body's bytes. */
  ghost predicate BodyHas(env: Env, row: Row, needle: string) {
    Found(env.utf8(row.log.body), env.utf8(needle))
  }

  // ------------------------------------------------------ what a predicate means

  ghost predicate ClauseHolds(env: Env, c: Clause, row: Row) {
    match c
    case Eq(field, value) =>
      if field == "body" then BodyHas(env, row, env.toLower(value))
      else FieldValue(env, row, field) == Some(value)
    case Ne(field, value) =>
      if field == "body" then !BodyHas(env, row, env.toLower(value))
      else FieldValue(env, row, field) != Some(value)
    case Re(field, regex) =>
      FieldValue(env, row, field).Some? && env.compiles(regex) &&
      env.isMatch(regex, FieldValue(env, row, field).value)
    case Cmp(field, op, bound) =>
      NumericField(env, row, field).Some? && Compare(op, NumericField(env, row, field).value, bound)
    case InRange(field, min, max) =>
      NumericField(env, row, field).Some? &&
      AtMost(min, NumericField(env, row, field).value) && AtMost(NumericField(env, row, field).value, max)
    case Exists(field) => FieldValue(env, row, field).Some?
    case SeverityMin(name) => row.log.severity >= Threshold(env, name)
    case Negated(inner) => !ClauseHolds(env, inner, row)
  }

  predicate Compare(op: CmpOp, n: Float, bound: Float) {
    match op
    case Gt => Less(bound, n)
    case Ge => AtMost(bound, n)
    case Lt => Less(n, bound)
    case Le => AtMost(n, bound)
  }

  /** `*` and `?` as a case-insensitive pattern. */
  function WildcardPattern(pattern: string): string {
    "(?i)" + WildcardBody(pattern)
  }

  function WildcardBody(pattern: string): string {
    if pattern == "" then ""
    else
      (if pattern[0] == '*' then ".*" else if pattern[0] == '?' then "." else [pattern[0]]) +
      WildcardBody(pattern[1..])
  }

  ghost predicate TermFound(env: Env, t: SearchTerm, row: Row) {
    if t.wildcard
    then env.compiles(WildcardPattern(t.text)) && env.isMatch(WildcardPattern(t.text), row.log.body)
    else BodyHas(env, row, env.toLower(t.text))
  }

  ghost predicate TermHolds(env: Env, t: SearchTerm, row: Row) {
    TermFound(env, t, row) != t.negate
  }

  ghost predicate Holds(env: Env, p: Predicate, row: Row) {
    match p
    case And(parts) => forall i | 0 <= i < |parts| :: Holds(env, parts[i], row)
    case Or(parts) => exists i | 0 <= i < |parts| :: Holds(env, parts[i], row)
    case Not(inner) => !Holds(env, inner, row)
    case ClauseAtom(c) => ClauseHolds(env, c, row)
    case TermAtom(t) => TermHolds(env, t, row)
  }

  ghost predicate QueryHolds(env: Env, q: SearchQuery, row: Row) {
    && (forall i | 0 <= i < |q.clauses| :: ClauseHolds(env, q.clauses[i], row))
    && (forall i | 0 <= i < |q.terms| :: TermHolds(env, q.terms[i], row))
  }

  // ---------------------------------------------------------------- flattening

  const EMPTY := SearchQuery([], [])

  datatype Collected = Collected(q: SearchQuery, ok: bool)

  /** Adds a conjunct's clauses and terms to the query, or gives up. */
  function CollectAnd(p: Predicate, q: SearchQuery): Collected
    decreases p, 1, 0
  {
    match p
    case And(parts) => CollectParts(p, 0, q)
    case Or(_) => Collected(q, false)
    case ClauseAtom(c) => Collected(q.(clauses := q.clauses + [c]), true)
    case TermAtom(t) => Collected(q.(terms := q.terms + [t]), true)
    case Not(inner) =>
      match inner
      case ClauseAtom(c) => Collected(q.(clauses := q.clauses + [Negated(c)]), true)
      case TermAtom(t) => Collected(q.(terms := q.terms + [t.(negate := !t.negate)]), true)
      case _ => Collected(q, false)
  }

  function CollectParts(p: Predicate, from: nat, q: SearchQuery): Collected
    requires p.And? && from <= |p.parts|
    decreases p, 0, |p.parts| - from
  {
    if from == |p.parts| then Collected(q, true)
    else
      var first := CollectAnd(p.parts[from], q);
      if first.ok then CollectParts(p, from + 1, first.q) else first
  }

  function FlattenAnd(p: Predicate): Option<SearchQuery> {
    var r := CollectAnd(p, EMPTY);
    if r.ok then Some(r.q) else None
  }

  /** ANDs, however nested, of clauses, terms and negations of a clause or term. */
  predicate IsFlat(p: Predicate) {
    match p
    case And(parts) => forall i | 0 <= i < |parts| :: IsFlat(parts[i])
    case Or(_) => false
    case Not(inner) => inner.ClauseAtom? || inner.TermAtom?
    case _ => true
  }

  lemma MoreClauses(env: Env, q: SearchQuery, c: Clause, row: Row)
    ensures QueryHolds(env, q.(clauses := q.clauses + [c]), row) <==>
            QueryHolds(env, q, row) && ClauseHolds(env, c, row)
  {
    var more := q.clauses + [c];
    assert more[|q.clauses|] == c;
    assert forall i | 0 <= i < |q.clauses| :: more[i] == q.clauses[i];
  }

  lemma MoreTerms(env: Env, q: SearchQuery, t: SearchTerm, row: Row)
    ensures QueryHolds(env, q.(terms := q.terms + [t]), row) <==> QueryHolds(env, q, row) && TermHolds(env, t, row)
  {
    var more := q.terms + [t];
    assert more[|q.terms|] == t;
    assert forall i | 0 <= i < |q.terms| :: more[i] == q.terms[i];
  }

  lemma {:induction false} CollectMeans(env: Env, p: Predicate, q: SearchQuery, row: Row)
    ensures var r := CollectAnd(p, q);
            r.ok ==> (QueryHolds(env, r.q, row) <==> QueryHolds(env, q, row) && Holds(env, p, row))
    ensures CollectAnd(p, q).ok <==> IsFlat(p)
    decreases p, 1, 0
  {
    match p
    case And(parts) => CollectPartsMeans(env, p, 0, q, row);
    case Or(_) =>
    case ClauseAtom(c) => MoreClauses(env, q, c, row);
    case TermAtom(t) => MoreTerms(env, q, t, row);
    case Not(inner) =>
      match inner {
        case ClauseAtom(c) => MoreClauses(env, q, Negated(c), row);
        case TermAtom(t) => MoreTerms(env, q, t.(negate := !t.negate), row);
        case _ =>
      }
  }

  lemma {:induction false} CollectPartsMeans(env: Env, p: Predicate, from: nat, q: SearchQuery, row: Row)
    requires p.And? && from <= |p.parts|
    ensures var r := CollectParts(p, from, q);
            r.ok ==> (QueryHolds(env, r.q, row) <==>
                      QueryHolds(env, q, row) && forall i | from <= i < |p.parts| :: Holds(env, p.parts[i], row))
    ensures CollectParts(p, from, q).ok <==> forall i | from <= i < |p.parts| :: IsFlat(p.parts[i])
    decreases p, 0, |p.parts| - from
  {
    if from < |p.parts| {
      CollectMeans(env, p.parts[from], q, row);
      var first := CollectAnd(p.parts[from], q);
      if first.ok {
        CollectPartsMeans(env, p, from + 1, first.q, row);
      }
    }
  }

  /** Flattening preserves meaning, and succeeds exactly on flat predicates. */
  lemma FlattenMeans(env: Env, p: Predicate, row: Row)
    ensures FlattenAnd(p).Some? <==> IsFlat(p)
    ensures FlattenAnd(p).Some? ==> (QueryHolds(env, FlattenAnd(p).value, row) <==> Holds(env, p, row))
  {
    CollectMeans(env, p, EMPTY, row);
  }

  // ------------------------------------------------------------ prepared queries

  datatype PreparedClause =
    | PSeverityMin(atLeast: int)
    | PBodyContains(needle: string, negate: bool)
    | PEq(field: string, value: string)
    | PNe(field: string, value: string)
    | PRe(field: string, pattern: Option<string>)
    | PCmp(field: string, op: CmpOp, bound: Float)
    | PRange(field: string, min: Float, max: Float)
    | PExists(field: string)
    | PNegated(clause: PreparedClause)

  datatype PreparedTerm =
    | PContains(needle: string, negate: bool)
    | PWildcard(pattern: Option<string>, negate: bool)

  datatype Prepared =
    | PAnd(parts: seq<Prepared>)
    | POr(parts: seq<Prepared>)
    | PNot(inner: Prepared)
    | PClause(clause: PreparedClause)
    | PTerm(term: PreparedTerm)

  datatype PreparedQuery = PreparedQuery(clauses: seq<PreparedClause>, terms: seq<PreparedTerm>)

  function Compile(env: Env, regex: string): Option<string> {
    if env.compiles(regex) then Some(regex) else None
  }

  function PrepareClause(env: Env, c: Clause): PreparedClause {
    match c
    case SeverityMin(name) => PSeverityMin(Threshold(env, name))
    case Eq(field, value) => if field == "body" then PBodyContains(env.toLower(value), false) else PEq(field, value)
    case Ne(field, value) => if field == "body" then PBodyContains(env.toLower(value), true) else PNe(field, value)
    case Re(field, regex) => PRe(field, Compile(env, regex))
    case Cmp(field, op, bound) => PCmp(field, op, bound)
    case InRange(field, min, max) => PRange(field, min, max)
    case Exists(field) => PExists(field)
    case Negated(inner) => PNegated(PrepareClause(env, inner))
  }

  function PrepareTerm(env: Env, t: SearchTerm): PreparedTerm {
    if t.wildcard then PWildcard(Compile(env, WildcardPattern(t.text)), t.negate)
    else PContains(env.toLower(t.text), t.negate)
  }

  function Prepare(env: Env, p: Predicate): Prepared {
    match p
    case And(parts) => PAnd(seq(|parts|, i requires 0 <= i < |parts| => Prepare(env, parts[i])))
    case Or(parts) => POr(seq(|parts|, i requires 0 <= i < |parts| => Prepare(env, parts[i])))
    case Not(inner) => PNot(Prepare(env, inner))
    case ClauseAtom(c) => PClause(PrepareClause(env, c))
    case TermAtom(t) => PTerm(PrepareTerm(env, t))
  }

  function PrepareQuery(env: Env, q: SearchQuery): PreparedQuery {
    PreparedQuery(seq(|q.clauses|, i requires 0 <= i < |q.clauses| => PrepareClause(env, q.clauses[i])),
                  seq(|q.terms|, i requires 0 <= i < |q.terms| => PrepareTerm(env, q.terms[i])))
  }

  ghost predicate ClauseMatches(env: Env, c: PreparedClause, row: Row) {
    match c
    case PSeverityMin(min) => row.log.severity >= min
    case PBodyContains(needle, negate) => if negate then !BodyHas(env, row, needle) else BodyHas(env, row, needle)
    case PEq(field, value) =>
      (match FieldValue(env, row, field) case Some(v) => v == value case None => false)
    case PNe(field, value) =>
      (match FieldValue(env, row, field) case Some(v) => v != value case None => true)
    case PRe(field, pattern) =>
      (match (FieldValue(env, row, field), pattern) case (Some(v), Some(re)) => env.isMatch(re, v) case _ => false)
    case PCmp(field, op, bound) =>
      (match NumericField(env, row, field) case Some(n) => Compare(op, n, bound) case None => false)
    case PRange(field, min, max) =>
      (match NumericField(env, row, field) case Some(n) => AtMost(min, n) && AtMost(n, max) case None => false)
    case PExists(field) => FieldValue(env, row, field).Some?
    case PNegated(inner) => !ClauseMatches(env, inner, row)
  }

  ghost predicate TermMatches(env: Env, t: PreparedTerm, row: Row) {
    match t
    case PContains(needle, negate) => if negate then !BodyHas(env, row, needle) else BodyHas(env, row, needle)
    case PWildcard(pattern, negate) =>
      var found := pattern.Some? && env.isMatch(pattern.value, row.log.body);
      if negate then !found else found
  }

  ghost predicate Matches(env: Env, p: Prepared, row: Row) {
    match p
    case PAnd(parts) => forall i | 0 <= i < |parts| :: Matches(env, parts[i], row)
    case POr(parts) => exists i | 0 <= i < |parts| :: Matches(env, parts[i], row)
    case PNot(inner) => !Matches(env, inner, row)
    case PClause(c) => ClauseMatches(env, c, row)
    case PTerm(t) => TermMatches(env, t, row)
  }

  ghost predicate QueryMatches(env: Env, q: PreparedQuery, row: Row) {
    && (forall i | 0 <= i < |q.clauses| :: ClauseMatches(env, q.clauses[i], row))
    && (forall i | 0 <= i < |q.terms| :: TermMatches(env, q.terms[i], row))
  }

  lemma {:induction false} PrepareClauseMeans(env: Env, c: Clause, row: Row)
    ensures ClauseMatches(env, PrepareClause(env, c), row) <==> ClauseHolds(env, c, row)
  {
    if c.Negated? {
      PrepareClauseMeans(env, c.clause, row);
    }
  }

  lemma PrepareTermMeans(env: Env, t: SearchTerm, row: Row)
    ensures TermMatches(env, PrepareTerm(env, t), row) <==> TermHolds(env, t, row)
  {
  }

  /** Preparing a predicate does not change what it matches. */
  lemma {:induction false} PrepareMeans(env: Env, p: Predicate, row: Row)
    ensures Matches(env, Prepare(env, p), row) <==> Holds(env, p, row)
    decreases p, 1
  {
    match p
    case And(_) => PreparePartsMean(env, p, row);
    case Or(_) => PreparePartsMean(env, p, row);
    case Not(inner) => PrepareMeans(env, inner, row);
    case ClauseAtom(c) => PrepareClauseMeans(env, c, row);
    case TermAtom(t) => PrepareTermMeans(env, t, row);
  }

  lemma {:induction false} PreparePartsMean(env: Env, p: Predicate, row: Row)
    requires p.And? || p.Or?
    ensures forall i | 0 <= i < |p.parts| :: Matches(env, Prepare(env, p).parts[i], row) <==>
            Holds(env, p.parts[i], row)
    decreases p, 0
  {
    forall i | 0 <= i < |p.parts|
      ensures Matches(env, Prepare(env, p).parts[i], row) <==> Holds(env, p.parts[i], row)
    {
      PrepareMeans(env, p.parts[i], row);
    }
  }

  lemma PrepareQueryMeans(env: Env, q: SearchQuery, row: Row)
    ensures QueryMatches(env, PrepareQuery(env, q), row) <==> QueryHolds(env, q, row)
  {
    forall i | 0 <= i < |q.clauses|
      ensures ClauseMatches(env, PrepareQuery(env, q).clauses[i], row) <==> ClauseHolds(env, q.clauses[i], row)
    {
      PrepareClauseMeans(env, q.clauses[i], row);
    }
    forall i | 0 <= i < |q.terms|
      ensures TermMatches(env, PrepareQuery(env, q).terms[i], row) <==> TermHolds(env, q.terms[i], row)
    {
      PrepareTermMeans(env, q.terms[i], row);
    }
  }

  /** The flat path and the tree path accept the same rows. */
  lemma FlatPathAgrees(env: Env, p: Predicate, row: Row)
    requires FlattenAnd(p).Some?
    ensures QueryMatches(env, PrepareQuery(env, FlattenAnd(p).value), row) <==> Matches(env, Prepare(env, p), row)
  {
    FlattenMeans(env, p, row);
    PrepareMeans(env, p, row);
    PrepareQueryMeans(env, FlattenAnd(p).value, row);
  }
}

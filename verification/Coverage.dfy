/** How far the log is already durable in blocks: `covered_through` and the block
    footer that carries a block's log span. */
module Coverage {
  import opened Options

  /** A block covers the positions `(from, to]`. */
  datatype Range = Range(from: nat, to: nat)

  predicate Extends(r: Range, at: nat) {
    r.from <= at < r.to
  }

  ghost predicate InSome(ranges: seq<Range>, y: nat) {
    exists i | 0 <= i < |ranges| :: ranges[i].from < y <= ranges[i].to
  }

  /** Every position in `(commit, x]` lies in some block. */
  ghost predicate CoveredTo(commit: nat, ranges: seq<Range>, x: nat) {
    commit <= x && forall y | commit < y <= x :: InSome(ranges, y)
  }

  /** `x` is the greatest position the blocks cover without a gap from `commit`. */
  ghost predicate IsReach(commit: nat, ranges: seq<Range>, x: nat) {
    CoveredTo(commit, ranges, x) && !InSome(ranges, x + 1)
  }

  /** Furthest end among the blocks that extend `at`, or `at` when none does. */
  function Furthest(ranges: seq<Range>, at: nat): (next: nat)
    ensures at <= next
    ensures next == at <==> forall i | 0 <= i < |ranges| :: !Extends(ranges[i], at)
    ensures next > at ==> exists i | 0 <= i < |ranges| :: Extends(ranges[i], at) && ranges[i].to == next
    ensures forall i | 0 <= i < |ranges| && Extends(ranges[i], at) :: ranges[i].to <= next
  {
    if ranges == [] then at
    else
      var n := |ranges| - 1;
      var r, best := ranges[n], Furthest(ranges[..n], at);
      assert forall i | 0 <= i < n :: ranges[..n][i] == ranges[i];
      if Extends(r, at) && r.to > best then r.to else best
  }

  function MaxTo(ranges: seq<Range>): (m: nat)
    ensures forall i | 0 <= i < |ranges| :: ranges[i].to <= m
  {
    if ranges == [] then 0
    else
      var n := |ranges| - 1;
      var best := MaxTo(ranges[..n]);
      assert forall i | 0 <= i < n :: ranges[..n][i] == ranges[i];
      if ranges[n].to > best then ranges[n].to else best
  }

  /** The chain walk. */
  function Through(at: nat, ranges: seq<Range>): (x: nat)
    ensures at <= x
    decreases MaxTo(ranges) - at
  {
    var next := Furthest(ranges, at);
    if next == at then at else Through(next, ranges)
  }

  /** One pass over the blocks: the furthest end of those that extend `at`. */
  method FurthestEnd(ranges: seq<Range>, at: nat) returns (next: nat, found: bool)
    ensures found <==> Furthest(ranges, at) > at
    ensures found ==> next == Furthest(ranges, at)
  {
    next, found := 0, false;
    for i := 0 to |ranges|
      invariant found ==> next == Furthest(ranges[..i], at) && next > at
      invariant !found ==> Furthest(ranges[..i], at) == at
    {
      assert ranges[..i + 1][..i] == ranges[..i];
      if ranges[i].from <= at && ranges[i].to > at {
        if !found || ranges[i].to > next {
          next := ranges[i].to;
        }
        found := true;
      }
    }
    assert ranges[..|ranges|] == ranges;
  }

  /** `covered_through`: follows the chain of blocks until none extends it. */
  method CoveredThrough(commit: nat, ranges: seq<Range>) returns (at: nat)
    ensures at == Through(commit, ranges)
    ensures IsReach(commit, ranges, at)
  {
    at := commit;
    var next, found := FurthestEnd(ranges, at);
    while found
      invariant Through(at, ranges) == Through(commit, ranges)
      invariant found <==> Furthest(ranges, at) > at
      invariant found ==> next == Furthest(ranges, at)
      decreases MaxTo(ranges) - at, found
    {
      at := next;
      next, found := FurthestEnd(ranges, at);
    }
    ThroughIsReach(commit, ranges);
  }

  /** The walk ends at the greatest position covered without a gap. */
  lemma {:induction false} ThroughIsReach(commit: nat, ranges: seq<Range>)
    ensures IsReach(commit, ranges, Through(commit, ranges))
    decreases MaxTo(ranges) - commit
  {
    var next := Furthest(ranges, commit);
    if next == commit {
      assert forall i | 0 <= i < |ranges| :: !Extends(ranges[i], commit);
    } else {
      ThroughIsReach(next, ranges);
      var i :| 0 <= i < |ranges| && Extends(ranges[i], commit) && ranges[i].to == next;
      forall y | commit < y <= next ensures InSome(ranges, y) {
        assert ranges[i].from < y <= ranges[i].to;
      }
    }
  }

  /** Nothing past a gap is covered. */
  lemma GapBounds(commit: nat, ranges: seq<Range>, x: nat, gap: nat)
    requires CoveredTo(commit, ranges, x) && commit <= gap && !InSome(ranges, gap + 1)
    ensures x <= gap
  {
  }

  /** That position is unique, so the order of the blocks cannot matter. */
  lemma ReachIsUnique(commit: nat, ranges: seq<Range>, other: seq<Range>, x: nat)
    requires forall r :: r in ranges <==> r in other
    requires IsReach(commit, ranges, x)
    ensures Through(commit, other) == x
  {
    ThroughIsReach(commit, other);
    var z := Through(commit, other);
    SameRanges(ranges, other, z + 1);
    GapBounds(commit, ranges, x, z);
    SameRanges(ranges, other, x + 1);
    GapBounds(commit, other, z, x);
  }

  lemma SameRanges(ranges: seq<Range>, other: seq<Range>, y: nat)
    requires forall r :: r in ranges <==> r in other
    ensures InSome(ranges, y) <==> InSome(other, y)
  {
    MoreRanges(ranges, other, y);
    MoreRanges(other, ranges, y);
  }

  lemma MoreRanges(ranges: seq<Range>, more: seq<Range>, y: nat)
    requires forall r :: r in ranges ==> r in more
    ensures InSome(ranges, y) ==> InSome(more, y)
  {
    if InSome(ranges, y) {
      var i :| 0 <= i < |ranges| && ranges[i].from < y <= ranges[i].to;
      assert ranges[i] in more;
    }
  }

  /** Starting over from the result finds nothing more. */
  lemma ThroughIsIdempotent(commit: nat, ranges: seq<Range>)
    ensures Through(Through(commit, ranges), ranges) == Through(commit, ranges)
  {
    ThroughIsReach(commit, ranges);
    ReachIsUnique(Through(commit, ranges), ranges, ranges, Through(commit, ranges));
  }

  /** A later commit point or more blocks never shorten the reach. */
  lemma ThroughIsMonotone(commit: nat, later: nat, ranges: seq<Range>, more: seq<Range>)
    requires commit <= later
    requires forall r :: r in ranges ==> r in more
    ensures Through(commit, ranges) <= Through(later, more)
  {
    ThroughIsReach(commit, ranges);
    ThroughIsReach(later, more);
    var z := Through(later, more);
    MoreRanges(ranges, more, z + 1);
    GapBounds(commit, ranges, Through(commit, ranges), z);
  }

  // ------------------------------------------------------------ block footer

  const U64_MAX: nat := 0xFFFF_FFFF_FFFF_FFFF

  predicate IsDigit(c: char) {
    '0' <= c <= '9'
  }

  function Digit(n: nat): (c: char)
    requires n < 10
    ensures IsDigit(c)
  {
    '0' + n as char
  }

  function DigitValue(c: char): (n: nat)
    requires IsDigit(c)
    ensures n < 10
  {
    (c - '0') as nat
  }

  /** Decimal text of a number, without leading zeros. */
  function Decimal(n: nat): (s: string)
    ensures s != "" && forall i | 0 <= i < |s| :: IsDigit(s[i])
  {
    if n < 10 then [Digit(n)] else Decimal(n / 10) + [Digit(n % 10)]
  }

  /** Value of a run of digits. */
  function Value(s: string): nat
    requires forall i | 0 <= i < |s| :: IsDigit(s[i])
  {
    if s == "" then 0 else 10 * Value(s[..|s| - 1]) + DigitValue(s[|s| - 1])
  }

  /** Parsing a u64: an optional plus sign, then digits, no overflow. */
  function ParseU64(s: string): Option<nat> {
    var digits := if s != "" && s[0] == '+' then s[1..] else s;
    if digits != "" && (forall i | 0 <= i < |digits| :: IsDigit(digits[i])) && Value(digits) <= U64_MAX
    then Some(Value(digits)) else None
  }

  function EncodeRange(r: Range): string {
    Decimal(r.from) + "-" + Decimal(r.to)
  }

  /** Index of the first dash, or the length when there is none. */
  function FirstDash(s: string): (i: nat)
    ensures i <= |s| && (forall k | 0 <= k < i :: s[k] != '-') && (i < |s| ==> s[i] == '-')
  {
    if s == "" || s[0] == '-' then 0
    else
      assert forall k | 0 < k < |s| :: s[k] == s[1..][k - 1];
      1 + FirstDash(s[1..])
  }

  function DecodeRange(s: string): Option<Range> {
    var i := FirstDash(s);
    if i == |s| then None
    else
      match (ParseU64(s[..i]), ParseU64(s[i + 1..]))
      case (Some(from), Some(to)) => if from <= to then Some(Range(from, to)) else None
      case _ => None
  }

  lemma {:induction false} DecimalRoundTrip(n: nat)
    ensures Value(Decimal(n)) == n
  {
    var s := Decimal(n);
    if n < 10 {
      assert s[..|s| - 1] == "";
    } else {
      DecimalRoundTrip(n / 10);
      assert s[..|s| - 1] == Decimal(n / 10);
    }
  }

  lemma ParseDecimal(n: nat)
    requires n <= U64_MAX
    ensures ParseU64(Decimal(n)) == Some(n)
  {
    DecimalRoundTrip(n);
  }

  lemma FirstDashIs(s: string, i: nat)
    requires i < |s| && s[i] == '-' && forall k | 0 <= k < i :: s[k] != '-'
    ensures FirstDash(s) == i
  {
  }

  /** What a block's footer says is read back exactly, unless it runs backwards. */
  lemma RangeRoundTrip(r: Range)
    requires r.from <= U64_MAX && r.to <= U64_MAX
    ensures DecodeRange(EncodeRange(r)) == if r.from <= r.to then Some(r) else None
  {
    var a, b := Decimal(r.from), Decimal(r.to);
    var s := EncodeRange(r);
    assert s[..|a|] == a && s[|a| + 1..] == b;
    FirstDashIs(s, |a|);
    ParseDecimal(r.from);
    ParseDecimal(r.to);
  }

  /** The ranges that the footers of the blocks on disk are read back as; a block
      that carries no range has no footer to read. */
  function FooterRanges(spans: seq<Option<Range>>): seq<Range> {
    if spans == [] then []
    else
      var rest := FooterRanges(spans[1..]);
      match spans[0]
      case None => rest
      case Some(r) =>
        match DecodeRange(EncodeRange(r))
        case Some(q) => [q] + rest
        case None => rest
  }

  ghost predicate WellRanged(spans: seq<Option<Range>>) {
    forall b | 0 <= b < |spans| && spans[b].Some? :: spans[b].value.from <= spans[b].value.to <= U64_MAX
  }

  /** Recovery sees exactly the ranges that were written. */
  lemma {:induction false} FootersReadBack(spans: seq<Option<Range>>, r: Range)
    requires WellRanged(spans)
    ensures r in FooterRanges(spans) <==> Some(r) in spans
  {
    if spans != [] {
      FootersReadBack(spans[1..], r);
      assert spans == [spans[0]] + spans[1..];
      if spans[0].Some? {
        RangeRoundTrip(spans[0].value);
      }
    }
  }
}

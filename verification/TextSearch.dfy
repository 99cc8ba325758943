/** ASCII-case-insensitive substring search that looks for the needle's rarest byte
    first. */
module TextSearch {
  import opened WalFrame

  function Lower(b: byte): byte {
    if 'A' as int <= b as int <= 'Z' as int then b + 32 else b
  }

  function Upper(b: byte): byte {
    if 'a' as int <= b as int <= 'z' as int then b - 32 else b
  }

  function LowerAll(h: Bytes): (l: Bytes)
    ensures |l| == |h| && forall i | 0 <= i < |h| :: l[i] == Lower(h[i])
  {
    seq(|h|, i requires 0 <= i < |h| => Lower(h[i]))
  }

  /** Naive search: the needle somewhere in the text. */
  ghost predicate Contains(text: Bytes, needle: Bytes) {
    exists i | 0 <= i <= |text| :: needle <= text[i..]
  }

  /** The window of the haystack at `start`, lower-cased, is the needle. */
  predicate MatchesAt(h: Bytes, n: Bytes, start: nat) {
    start + |n| <= |h| && forall k | 0 <= k < |n| :: Lower(h[start + k]) == n[k]
  }

  ghost predicate Found(h: Bytes, n: Bytes) {
    exists start: nat :: MatchesAt(h, n, start)
  }

  /** Looking at windows is searching the lower-cased haystack. */
  lemma FoundIsContains(h: Bytes, n: Bytes)
    ensures Found(h, n) <==> Contains(LowerAll(h), n)
  {
    var l := LowerAll(h);
    if Found(h, n) {
      var start: nat :| MatchesAt(h, n, start);
      assert n == l[start..][..|n|];
    }
    if Contains(l, n) {
      var i :| 0 <= i <= |l| && n <= l[i..];
      assert forall k | 0 <= k < |n| :: n[k] == l[i..][k];
      assert MatchesAt(h, n, i);
    }
  }

  // ------------------------------------------------------------- choosing a byte

  predicate IsOneOf(c: int, letters: string) {
    exists i | 0 <= i < |letters| :: c == letters[i] as int
  }

  /** Rough frequency of a byte in log text. */
  function Commonness(b: byte): nat {
    var c := Lower(b) as int;
    if c == ' ' as int then 255
    else if c == 'e' as int then 250
    else if c == 't' as int then 240
    else if c == 'a' as int then 235
    else if c == 'o' as int then 230
    else if c == 'i' as int then 225
    else if c == 'n' as int then 220
    else if c == 's' as int then 215
    else if c == 'r' as int then 210
    else if IsOneOf(c, "hld") then 190
    else if IsOneOf(c, "cum") then 170
    else if '0' as int <= c <= '9' as int then 150
    else if IsOneOf(c, "fpgwy") then 140
    else if IsOneOf(c, ".-_/:,") then 120
    else if IsOneOf(c, "bvk") then 100
    else if IsOneOf(c, "xjqz") then 40
    else 20
  }

  /** The first of the needle's least common bytes. */
  method AnchorOf(needle: Bytes) returns (a: nat)
    ensures needle == [] ==> a == 0
    ensures needle != [] ==> a < |needle|
    ensures forall i | 0 <= i < |needle| :: Commonness(needle[a]) <= Commonness(needle[i])
    ensures forall i | 0 <= i < a :: i < |needle| && Commonness(needle[a]) < Commonness(needle[i])
  {
    a := 0;
    for i := 0 to |needle|
      invariant a <= i && (needle != [] ==> a < |needle|) && (needle == [] ==> a == 0)
      invariant forall k | 0 <= k < i :: Commonness(needle[a]) <= Commonness(needle[k])
      invariant forall k | 0 <= k < a :: Commonness(needle[a]) < Commonness(needle[k])
    {
      if Commonness(needle[i]) < Commonness(needle[a]) {
        a := i;
      }
    }
  }

  // ------------------------------------------------------------------ the search

  /** First place in `[from, last]` holding one of two bytes. */
  method FindByte(h: Bytes, lo: byte, up: byte, from: nat, last: nat) returns (found: bool, at: nat)
    requires from <= last < |h|
    ensures found ==> from <= at <= last && (h[at] == lo || h[at] == up)
    ensures found ==> forall k | from <= k < at :: h[k] != lo && h[k] != up
    ensures !found ==> forall k | from <= k <= last :: h[k] != lo && h[k] != up
  {
    at := from;
    while at <= last
      invariant from <= at <= last + 1
      invariant forall k | from <= k < at :: h[k] != lo && h[k] != up
    {
      if h[at] == lo || h[at] == up {
        return true, at;
      }
      at := at + 1;
    }
    return false, at;
  }

  /** A byte whose lower case is the needle's byte is that byte in either case. */
  lemma EitherCase(x: byte, y: byte)
    requires Lower(x) == y
    ensures x == Lower(y) || x == Upper(y)
  {
  }

  /** No window matches around a place that holds neither case of the anchor byte. */
  lemma NoMatchBefore(h: Bytes, n: Bytes, a: nat, from: nat, until: nat)
    requires a < |n| && from <= until && until <= |h|
    requires forall k | from <= k < until :: h[k] != Lower(n[a]) && h[k] != Upper(n[a])
    ensures forall start: nat | from <= start + a < until :: !MatchesAt(h, n, start)
  {
    forall start: nat | from <= start + a < until ensures !MatchesAt(h, n, start) {
      if MatchesAt(h, n, start) {
        EitherCase(h[start + a], n[a]);
        assert false;
      }
    }
  }

  /** The search is the naive one whatever byte it anchors on. */
  method FindCi(h: Bytes, n: Bytes, anchor: nat) returns (found: bool)
    requires n != [] ==> anchor < |n|
    ensures found <==> Found(h, n)
  {
    if n == [] {
      assert MatchesAt(h, n, 0);
      return true;
    }
    if |n| > |h| {
      return false;
    }
    var lo, up := Lower(n[anchor]), Upper(n[anchor]);
    var last := |h| - (|n| - anchor);
    var from := anchor;
    while from <= last
      invariant anchor <= from <= last + 1
      invariant forall start: nat | start + anchor < from :: !MatchesAt(h, n, start)
    {
      var hit, at := FindByte(h, lo, up, from, last);
      if !hit {
        NoMatchBefore(h, n, anchor, from, last + 1);
        return false;
      }
      NoMatchBefore(h, n, anchor, from, at);
      var start := at - anchor;
      if MatchesAt(h, n, start) {
        return true;
      }
      from := at + 1;
    }
    return false;
  }

  /** A needle prepared for repeated tests. */
  datatype CiNeedle = CiNeedle(lower: Bytes, anchor: nat)

  method Prepare(needle: Bytes) returns (p: CiNeedle)
    ensures p.lower == needle && (needle != [] ==> p.anchor < |needle|)
  {
    var a := AnchorOf(needle);
    p := CiNeedle(needle, a);
  }

  method ContainsAsciiCi(h: Bytes, needle: Bytes) returns (found: bool)
    ensures found <==> Contains(LowerAll(h), needle)
  {
    var p := Prepare(needle);
    found := FindCi(h, p.lower, p.anchor);
    FoundIsContains(h, needle);
  }
}

/** The segment files against everything ever logged: they hold a suffix of it. */
module LogFiles {
  import opened WalFrame
  import opened WalLog

  ghost predicate Below(es: seq<Entry>, top: nat) {
    forall i | 0 <= i < |es| :: es[i].pos <= top
  }

  ghost predicate Above(es: seq<Entry>, at: nat) {
    forall i | 0 <= i < |es| :: at < es[i].pos
  }

  /** `left` is a suffix of `all`; what is gone lies at or below `bound`. */
  ghost predicate SuffixLeft(all: seq<Entry>, left: seq<Entry>, bound: nat) {
    && |left| <= |all|
    && left == all[|all| - |left|..]
    && Below(all[..|all| - |left|], bound)
  }

  /** `all` was logged in order and the files hold a suffix of it. */
  ghost predicate Keeps(crc: Checksum, wal: Wal, all: seq<Entry>, bound: nat) {
    && Valid(crc, wal)
    && Increasing(all) && Above(all, START)
    && SuffixLeft(all, Entries(crc, wal.base, wal.segs), bound)
  }

  lemma NothingLogged(crc: Checksum, limit: nat)
    ensures Keeps(crc, Open(0, [], limit), [], START)
  {
    EmptyLog(crc, limit);
  }

  lemma OrderGrows(all: seq<Entry>, added: seq<Entry>, at: nat)
    requires Increasing(all) && Above(all, START) && Below(all, at) && Increasing(added) && Above(added, at)
    ensures Increasing(all + added) && Above(all + added, START)
  {
    IncreasingConcat(all, added, at);
  }

  lemma SuffixGrows(all: seq<Entry>, left: seq<Entry>, bound: nat, added: seq<Entry>)
    requires SuffixLeft(all, left, bound)
    ensures SuffixLeft(all + added, left + added, bound)
  {
    var d := |all| - |left|;
    assert (all + added)[..d] == all[..d] && (all + added)[d..] == all[d..] + added;
  }

  lemma SuffixShrinks(all: seq<Entry>, gone: seq<Entry>, left: seq<Entry>, bound: nat, bound': nat)
    requires SuffixLeft(all, gone + left, bound) && bound <= bound' && Below(gone, bound')
    ensures SuffixLeft(all, left, bound')
  {
    var d := |all| - |gone + left|;
    assert all[..d + |gone|] == all[..d] + gone;
    assert all[d + |gone|..] == left;
  }

  /** An append logs its records, between the writer's position and the one it returns. */
  lemma AppendKeeps(crc: Checksum, wal: Wal, all: seq<Entry>, bound: nat, f: Bytes, ps: seq<Bytes>)
    requires Keeps(crc, wal, all, bound) && Below(all, Position(wal)) && !wal.poisoned
    requires AllFramable(ps) && f == Framed(crc, ps) && Fits(wal, f)
    ensures var all' := all + NewEntries(wal, ps);
            Keeps(crc, Append(wal, f), all', bound) && Below(all', AppendPos(wal, f)) &&
            Position(wal) <= AppendPos(wal, f) <= Position(Append(wal, f))
  {
    AppendAdds(crc, wal, f, ps);
    NewEntriesBounds(crc, wal, f, ps);
    OrderGrows(all, NewEntries(wal, ps), Position(wal));
    SuffixGrows(all, Entries(crc, wal.base, wal.segs), bound, NewEntries(wal, ps));
  }

  /** A torn append logs the records that were written whole. */
  lemma TornKeeps(crc: Checksum, wal: Wal, all: seq<Entry>, bound: nat, f: Bytes, ps: seq<Bytes>, k: nat,
                  whole: seq<Bytes>)
    requires Keeps(crc, wal, all, bound) && Below(all, Position(wal)) && !wal.poisoned
    requires AllFramable(ps) && f == Framed(crc, ps) && Fits(wal, f) && k <= |f| && whole == ps[..WholeCount(ps, k)]
    ensures var wal' := AppendFailed(wal, f, k);
            Keeps(crc, wal', all + NewEntries(wal, whole), bound) && Position(wal') == Position(wal)
  {
    FailedAppendAdds(crc, wal, f, ps, k, whole);
    NewEntriesBounds(crc, wal, Framed(crc, whole), whole);
    OrderGrows(all, NewEntries(wal, whole), Position(wal));
    SuffixGrows(all, Entries(crc, wal.base, wal.segs), bound, NewEntries(wal, whole));
  }

  /** Deleting covered segments leaves a shorter suffix. */
  lemma CommitKeeps(crc: Checksum, wal: Wal, all: seq<Entry>, bound: nat, removed: nat, bound': nat)
    requires Keeps(crc, wal, all, bound) && removed <= Position(wal) && removed <= bound' && bound <= bound'
    ensures Keeps(crc, RemoveCovered(wal, removed), all, bound')
    ensures Position(RemoveCovered(wal, removed)) == Position(wal)
  {
    RemoveCoveredValid(crc, wal, removed);
    RemoveCoveredKeeps(crc, wal, removed);
    var wal' := RemoveCovered(wal, removed);
    SuffixShrinks(all, Removed(crc, wal, removed), Entries(crc, wal'.base, wal'.segs), bound, bound');
  }

  /** From any point past what was deleted, replay delivers what replaying the whole
      log would. */
  lemma ReplaysAll(crc: Checksum, wal: Wal, all: seq<Entry>, bound: nat, from: nat)
    requires Keeps(crc, wal, all, bound) && bound <= from
    ensures After(Entries(crc, wal.base, wal.segs), from) == After(all, from)
  {
    var left := Entries(crc, wal.base, wal.segs);
    var d := |all| - |left|;
    assert all == all[..d] + left;
    AfterConcat(all[..d], left, from);
    AfterNone(all[..d], from);
  }
}

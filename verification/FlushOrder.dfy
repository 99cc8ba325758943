/** Orders the effects of flushes that finish in any order: log commits and buffer
    drops take hold only for the contiguous prefix of finished flushes. */
module FlushOrder {
  import opened Options

  /** The least number at or above `f` that is not in `keys`. */
  function FirstMissing(f: nat, keys: set<nat>): (r: nat)
    ensures f <= r && r !in keys && forall k | f <= k < r :: k in keys
    decreases keys
  {
    if f in keys then FirstMissing(f + 1, keys - {f}) else f
  }

  function Without<T>(m: map<nat, T>, lo: nat, hi: nat): map<nat, T> {
    map k | k in m && !(lo <= k < hi) :: m[k]
  }

  function Max(a: nat, b: nat): nat {
    if a < b then b else a
  }

  /** Element-wise maximum, of the first vector's length. */
  function MaxVec(a: seq<nat>, b: seq<nat>): (c: seq<nat>)
    ensures |c| == |a|
  {
    seq(|a|, i requires 0 <= i < |a| => if i < |b| then Max(a[i], b[i]) else a[i])
  }

  /** The values at `[lo, hi)` combined from the left; nothing for an empty range. */
  function Fold<T>(op: (T, T) -> T, m: map<nat, T>, lo: nat, hi: nat): Option<T>
    requires lo <= hi && forall k | lo <= k < hi :: k in m
  {
    if lo == hi then None
    else match Fold(op, m, lo, hi - 1)
      case None => Some(m[hi - 1])
      case Some(a) => Some(op(a, m[hi - 1]))
  }

  /** Completions past the first unfinished flush are held back. */
  datatype Queue<T> = Queue(frontier: nat, held: map<nat, T>)

  function Advance<T>(q: Queue<T>, seqNo: nat): nat {
    FirstMissing(q.frontier, q.held.Keys + {seqNo})
  }

  function Complete<T>(q: Queue<T>, seqNo: nat, v: T): Queue<T> {
    var f := Advance(q, seqNo);
    Queue(f, Without(q.held[seqNo := v], q.frontier, f))
  }

  /** What completing `seqNo` releases: the values the frontier moves over. */
  function Release<T>(op: (T, T) -> T, q: Queue<T>, seqNo: nat, v: T): Option<T> {
    var all := q.held[seqNo := v];
    assert all.Keys == q.held.Keys + {seqNo};
    Fold(op, all, q.frontier, Advance(q, seqNo))
  }

  datatype Order = Order(nextSeq: nat, wal: Queue<nat>, drop: Queue<seq<nat>>)

  const EMPTY := Order(0, Queue(0, map[]), Queue(0, map[]))

  // ------------------------------------------------------------- the tracker

  lemma WithoutStep<T>(m: map<nat, T>, lo: nat, hi: nat)
    requires lo <= hi
    ensures Without(m, lo, hi) - {hi} == Without(m, lo, hi + 1)
    ensures hi in m ==> hi in Without(m, lo, hi) && Without(m, lo, hi)[hi] == m[hi]
  {
  }

  lemma WithoutNone<T>(m: map<nat, T>, lo: nat)
    ensures Without(m, lo, lo) == m
  {
  }

  lemma FirstMissingIs(f: nat, keys: set<nat>, r: nat)
    requires f <= r && r !in keys && forall k | f <= k < r :: k in keys
    ensures FirstMissing(f, keys) == r
  {
  }

  /** A frontier that moved over everything finished is where completing ends. */
  lemma CompletesTo<T>(op: (T, T) -> T, q: Queue<T>, seqNo: nat, v: T, all: map<nat, T>, f: nat)
    requires all == q.held[seqNo := v] && q.frontier <= f && f !in all && forall k | q.frontier <= k < f :: k in all
    ensures Complete(q, seqNo, v) == Queue(f, Without(all, q.frontier, f))
    ensures Release(op, q, seqNo, v) == Fold(op, all, q.frontier, f)
  {
    assert all.Keys == q.held.Keys + {seqNo};
    FirstMissingIs(q.frontier, all.Keys, f);
  }

  /** Raises each element of `acc` to the one of `s` beside it. */
  method RaiseTo(acc: seq<nat>, s: seq<nat>) returns (out: seq<nat>)
    ensures out == MaxVec(acc, s)
  {
    out := acc;
    var i := 0;
    while i < |acc| && i < |s|
      invariant i <= |acc| && i <= |s| && |out| == |acc|
      invariant forall k | 0 <= k < i :: out[k] == Max(acc[k], s[k])
      invariant forall k | i <= k < |acc| :: out[k] == acc[k]
    {
      if out[i] < s[i] {
        out := out[i := s[i]];
      }
      i := i + 1;
    }
  }

  class Tracker {
    var nextSeq: nat
    var walFrontier: nat
    var walDone: map<nat, nat>
    var dropFrontier: nat
    var dropDone: map<nat, seq<nat>>

    ghost function View(): Order
      reads this
    {
      Order(nextSeq, Queue(walFrontier, walDone), Queue(dropFrontier, dropDone))
    }

    constructor ()
      ensures View() == EMPTY
    {
      nextSeq, walFrontier, walDone, dropFrontier, dropDone := 0, 0, map[], 0, map[];
    }

    /** Numbers a new flush. */
    method Begin() returns (seqNo: nat)
      modifies this
      ensures seqNo == old(nextSeq) && View() == old(View()).(nextSeq := seqNo + 1)
    {
      seqNo := nextSeq;
      nextSeq := nextSeq + 1;
    }

    /** Flush `seqNo` is durable; returns the position that may now be committed. */
    method WalComplete(seqNo: nat, covered: nat) returns (advanced: Option<nat>)
      modifies `walFrontier, `walDone
      ensures View() == old(View()).(wal := Complete(old(View()).wal, seqNo, covered))
      ensures advanced == Release(Max, old(View()).wal, seqNo, covered)
    {
      walDone := walDone[seqNo := covered];
      advanced := None;
      ghost var start, all := walFrontier, walDone;
      WithoutNone(all, start);
      while walFrontier in walDone
        invariant start <= walFrontier
        invariant forall k | start <= k < walFrontier :: k in all
        invariant walDone == Without(all, start, walFrontier)
        invariant advanced == Fold(Max, all, start, walFrontier)
        decreases walDone.Keys
      {
        WithoutStep(all, start, walFrontier);
        var p := walDone[walFrontier];
        walDone := walDone - {walFrontier};
        advanced := match advanced
          case None => Some(p)
          case Some(a) => Some(if a < p then p else a);
        walFrontier := walFrontier + 1;
      }
      CompletesTo(Max, Queue(start, old(walDone)), seqNo, covered, all, walFrontier);
    }

    /** Flush `seqNo` sealed these buffer epochs (zeros when it failed); returns the
        epochs that may now be dropped. */
    method DropComplete(seqNo: nat, epochs: seq<nat>) returns (released: Option<seq<nat>>)
      modifies `dropFrontier, `dropDone
      ensures View() == old(View()).(drop := Complete(old(View()).drop, seqNo, epochs))
      ensures released == Release(MaxVec, old(View()).drop, seqNo, epochs)
    {
      dropDone := dropDone[seqNo := epochs];
      released := None;
      ghost var start, all := dropFrontier, dropDone;
      WithoutNone(all, start);
      while dropFrontier in dropDone
        invariant start <= dropFrontier
        invariant forall k | start <= k < dropFrontier :: k in all
        invariant dropDone == Without(all, start, dropFrontier)
        invariant released == Fold(MaxVec, all, start, dropFrontier)
        decreases dropDone.Keys
      {
        WithoutStep(all, start, dropFrontier);
        var s := dropDone[dropFrontier];
        dropDone := dropDone - {dropFrontier};
        match released {
          case None => released := Some(s);
          case Some(acc) =>
            var raised := RaiseTo(acc, s);
            released := Some(raised);
        }
        dropFrontier := dropFrontier + 1;
      }
      CompletesTo(MaxVec, Queue(start, old(dropDone)), seqNo, epochs, all, dropFrontier);
    }
  }

  // ------------------------------------------- what any order of finishing does

  /** The queue that a set of finished flushes stands for: the frontier is the least
      unfinished flush and only flushes past it are held back. */
  ghost predicate Tracks<T(!new)>(q: Queue<T>, finished: map<nat, T>) {
    && q.frontier !in finished
    && (forall k | 0 <= k < q.frontier :: k in finished)
    && q.held == Without(finished, 0, q.frontier)
  }

  /** One more completion keeps the queue in step, and releases the finished flushes
      the frontier moved over. */
  lemma TracksComplete<T(!new)>(op: (T, T) -> T, q: Queue<T>, finished: map<nat, T>, seqNo: nat, v: T)
    requires Tracks(q, finished) && seqNo !in finished
    ensures var q' := Complete(q, seqNo, v);
            var finished' := finished[seqNo := v];
            Tracks(q', finished') && q.frontier <= q'.frontier &&
            (forall k | 0 <= k < q'.frontier :: k in finished') &&
            Release(op, q, seqNo, v) == Fold(op, finished', q.frontier, q'.frontier)
  {
    var all, finished' := q.held[seqNo := v], finished[seqNo := v];
    var f := Advance(q, seqNo);
    assert all.Keys == q.held.Keys + {seqNo};
    forall k | 0 <= k < f ensures k in finished' {
      if k >= q.frontier { assert k in all; }
    }
    FoldAgrees(op, all, finished', q.frontier, f);
  }

  lemma {:induction false} FoldAgrees<T>(op: (T, T) -> T, a: map<nat, T>, b: map<nat, T>, lo: nat, hi: nat)
    requires lo <= hi && forall k | lo <= k < hi :: k in a && k in b && a[k] == b[k]
    ensures Fold(op, a, lo, hi) == Fold(op, b, lo, hi)
    decreases hi
  {
    if lo < hi {
      FoldAgrees(op, a, b, lo, hi - 1);
    }
  }

  /** Two releases as one. */
  function Combine<T>(op: (T, T) -> T, a: Option<T>, b: Option<T>): Option<T> {
    match (a, b)
    case (None, _) => b
    case (_, None) => a
    case (Some(x), Some(y)) => Some(op(x, y))
  }

  ghost predicate Associative<T(!new)>(op: (T, T) -> T, ok: T -> bool) {
    && (forall a, b | ok(a) && ok(b) :: ok(op(a, b)))
    && (forall a, b, c {:trigger op(op(a, b), c)} | ok(a) && ok(b) && ok(c) ::
          op(op(a, b), c) == op(a, op(b, c)))
  }

  lemma {:induction false} FoldIsOk<T(!new)>(op: (T, T) -> T, ok: T -> bool, m: map<nat, T>, lo: nat, hi: nat)
    requires Associative(op, ok) && lo <= hi && forall k | lo <= k < hi :: k in m && ok(m[k])
    ensures Fold(op, m, lo, hi).Some? ==> ok(Fold(op, m, lo, hi).value)
    decreases hi
  {
    if lo < hi {
      FoldIsOk(op, ok, m, lo, hi - 1);
    }
  }

  lemma {:induction false} FoldSplits<T(!new)>(op: (T, T) -> T, ok: T -> bool, m: map<nat, T>, mid: nat, hi: nat)
    requires Associative(op, ok) && mid <= hi && forall k | 0 <= k < hi :: k in m && ok(m[k])
    ensures Fold(op, m, 0, hi) == Combine(op, Fold(op, m, 0, mid), Fold(op, m, mid, hi))
    decreases hi
  {
    if mid < hi {
      FoldSplits(op, ok, m, mid, hi - 1);
      FoldIsOk(op, ok, m, 0, mid);
      FoldIsOk(op, ok, m, mid, hi - 1);
    }
  }

  datatype Completion<T> = Completion(seqNo: nat, v: T)

  ghost function Finished<T>(cs: seq<Completion<T>>): map<nat, T> {
    if cs == [] then map[]
    else Finished(cs[..|cs| - 1])[cs[|cs| - 1].seqNo := cs[|cs| - 1].v]
  }

  ghost predicate Distinct<T>(cs: seq<Completion<T>>) {
    forall i, j | 0 <= i < j < |cs| :: cs[i].seqNo != cs[j].seqNo
  }

  ghost function QueueAfter<T>(cs: seq<Completion<T>>): Queue<T> {
    if cs == [] then Queue(0, map[])
    else Complete(QueueAfter(cs[..|cs| - 1]), cs[|cs| - 1].seqNo, cs[|cs| - 1].v)
  }

  /** Everything released along the way, combined in the order it was released. */
  ghost function Released<T>(op: (T, T) -> T, cs: seq<Completion<T>>): Option<T> {
    if cs == [] then None
    else
      var c, before := cs[|cs| - 1], cs[..|cs| - 1];
      Combine(op, Released(op, before), Release(op, QueueAfter(before), c.seqNo, c.v))
  }

  lemma {:induction false} FinishedFrom<T>(cs: seq<Completion<T>>, k: nat)
    ensures k in Finished(cs) ==> exists i | 0 <= i < |cs| :: cs[i].seqNo == k && cs[i].v == Finished(cs)[k]
  {
    if cs != [] {
      var n := |cs| - 1;
      FinishedFrom(cs[..n], k);
      assert forall i | 0 <= i < n :: cs[..n][i] == cs[i];
    }
  }

  /** After distinct completions in any order the frontier is the least unfinished
      flush, and what has been released is the combination over exactly the finished
      prefix: nothing past an unfinished flush. */
  lemma {:induction false} ReleasesThePrefix<T(!new)>(op: (T, T) -> T, ok: T -> bool, cs: seq<Completion<T>>)
    requires Associative(op, ok) && Distinct(cs) && forall i | 0 <= i < |cs| :: ok(cs[i].v)
    ensures Tracks(QueueAfter(cs), Finished(cs))
    ensures Released(op, cs) == Fold(op, Finished(cs), 0, QueueAfter(cs).frontier)
  {
    if cs != [] {
      var n := |cs| - 1;
      var c, before := cs[n], cs[..n];
      ReleasesThePrefix(op, ok, before);
      FinishedFrom(before, c.seqNo);
      var q, finished := QueueAfter(before), Finished(cs);
      TracksComplete(op, q, Finished(before), c.seqNo, c.v);
      FoldAgrees(op, Finished(before), finished, 0, q.frontier);
      forall k | k in finished ensures ok(finished[k]) {
        FinishedFrom(cs, k);
      }
      FoldSplits(op, ok, finished, q.frontier, QueueAfter(cs).frontier);
    }
  }

  /** The order of finishing does not matter: the same flushes leave the same queue
      and release the same in total. */
  lemma OrderDoesNotMatter<T(!new)>(op: (T, T) -> T, ok: T -> bool, cs: seq<Completion<T>>, ds: seq<Completion<T>>)
    requires Associative(op, ok) && Distinct(cs) && Distinct(ds) && Finished(cs) == Finished(ds)
    requires forall i | 0 <= i < |cs| :: ok(cs[i].v)
    requires forall i | 0 <= i < |ds| :: ok(ds[i].v)
    ensures QueueAfter(cs) == QueueAfter(ds) && Released(op, cs) == Released(op, ds)
  {
    ReleasesThePrefix(op, ok, cs);
    ReleasesThePrefix(op, ok, ds);
  }

  /** Both of the tracker's ways to combine qualify: positions by maximum, and epoch
      vectors of one length by element-wise maximum. */
  lemma MaximaAreAssociative(shards: nat)
    ensures Associative<nat>(Max, p => true)
    ensures Associative<seq<nat>>(MaxVec, v => |v| == shards)
  {
    forall a: seq<nat>, b: seq<nat>, c: seq<nat> | |a| == shards && |b| == shards && |c| == shards
      ensures MaxVec(MaxVec(a, b), c) == MaxVec(a, MaxVec(b, c))
    {
    }
  }

  /** For log positions the release is an upper bound that one flush attains. */
  lemma {:induction false} FoldMax(m: map<nat, nat>, lo: nat, hi: nat)
    requires lo <= hi && forall k | lo <= k < hi :: k in m
    ensures var r := Fold(Max, m, lo, hi);
            (r.None? <==> lo == hi) &&
            (r.Some? ==> (forall k | lo <= k < hi :: m[k] <= r.value) &&
                         exists k | lo <= k < hi :: m[k] == r.value)
    decreases hi
  {
    if lo < hi {
      FoldMax(m, lo, hi - 1);
    }
  }

  /** For epoch vectors, shard by shard. */
  lemma {:induction false} FoldMaxVec(m: map<nat, seq<nat>>, lo: nat, hi: nat, shards: nat)
    requires lo <= hi && forall k | lo <= k < hi :: k in m && |m[k]| == shards
    ensures var r := Fold(MaxVec, m, lo, hi);
            (r.None? <==> lo == hi) &&
            (r.Some? ==> |r.value| == shards && forall s | 0 <= s < shards ::
               (forall k | lo <= k < hi :: m[k][s] <= r.value[s]) &&
               exists k | lo <= k < hi :: m[k][s] == r.value[s])
    decreases hi
  {
    if lo < hi {
      FoldMaxVec(m, lo, hi - 1, shards);
      if lo < hi - 1 {
        var r, last := Fold(MaxVec, m, lo, hi), m[hi - 1];
        var before := Fold(MaxVec, m, lo, hi - 1).value;
        forall s | 0 <= s < shards
          ensures forall k | lo <= k < hi :: m[k][s] <= r.value[s]
          ensures exists k | lo <= k < hi :: m[k][s] == r.value[s]
        {
          var k :| lo <= k < hi - 1 && m[k][s] == before[s];
          assert r.value[s] == m[if before[s] < last[s] then hi - 1 else k][s];
        }
      }
    }
  }
}

/** The protocol is not empty: sound configurations exist, and from a fresh start a push
    that fits is logged, inserted and acknowledged. */
module Witness {
  import opened Options
  import opened WalFrame
  import opened WalLog
  import opened Ingest
  import Seqs
  import Writer

  /** A number as that many zeros and a one. */
  function Unary(n: nat): (b: Bytes)
    ensures |b| == n + 1 && b[n] == 1 && forall i | 0 <= i < n :: b[i] == 0
  {
    if n == 0 then [1] else [0] + Unary(n - 1)
  }

  /** Numbers one after another. */
  function UnaryAll(ns: seq<nat>): Bytes {
    if ns == [] then [] else Unary(ns[0]) + UnaryAll(ns[1..])
  }

  lemma UnaryInjective(a: nat, x: Bytes, b: nat, y: Bytes)
    requires Unary(a) + x == Unary(b) + y
    ensures a == b && x == y
  {
    var s, t := Unary(a) + x, Unary(b) + y;
    assert s[a] == 1 && t[b] == 1;
    assert forall i | 0 <= i < a :: s[i] == 0;
    assert forall i | 0 <= i < b :: t[i] == 0;
    assert x == s[a + 1..] && y == t[b + 1..];
  }

  lemma {:induction false} UnaryAllInjective(ms: seq<nat>, x: Bytes, ns: seq<nat>, y: Bytes)
    requires |ms| == |ns| && UnaryAll(ms) + x == UnaryAll(ns) + y
    ensures ms == ns && x == y
    decreases |ms|
  {
    if ms == [] {
      Seqs.EmptyLeft(x);
      Seqs.EmptyLeft(y);
    } else {
      assert UnaryAll(ms) + x == Unary(ms[0]) + (UnaryAll(ms[1..]) + x);
      assert UnaryAll(ns) + y == Unary(ns[0]) + (UnaryAll(ns[1..]) + y);
      UnaryInjective(ms[0], UnaryAll(ms[1..]) + x, ns[0], UnaryAll(ns[1..]) + y);
      UnaryAllInjective(ms[1..], x, ns[1..], y);
    }
  }

  function Codes(name: string): (ns: seq<nat>)
    ensures |ns| == |name| && forall i | 0 <= i < |name| :: ns[i] == name[i] as nat
  {
    seq(|name|, i requires 0 <= i < |name| => name[i] as nat)
  }

  function Encode(m: Metric<nat>): Bytes {
    Unary(|m.name|) + (UnaryAll(Codes(m.name)) + (Unary(|m.points|) + UnaryAll(m.points)))
  }

  lemma EncodeInjective(m: Metric<nat>, k: Metric<nat>)
    requires Encode(m) == Encode(k)
    ensures m == k
  {
    var pm, pk := Unary(|m.points|) + UnaryAll(m.points), Unary(|k.points|) + UnaryAll(k.points);
    UnaryInjective(|m.name|, UnaryAll(Codes(m.name)) + pm, |k.name|, UnaryAll(Codes(k.name)) + pk);
    UnaryAllInjective(Codes(m.name), pm, Codes(k.name), pk);
    UnaryInjective(|m.points|, UnaryAll(m.points), |k.points|, UnaryAll(k.points));
    assert UnaryAll(m.points) + [] == UnaryAll(k.points) + [];
    UnaryAllInjective(m.points, [], k.points, []);
    assert forall i | 0 <= i < |m.name| :: m.name[i] == k.name[i] by {
      assert forall i | 0 <= i < |m.name| :: Codes(m.name)[i] == Codes(k.name)[i];
    }
  }

  ghost function Decode(b: Bytes): Option<Metric<nat>> {
    if exists m :: Encode(m) == b then
      var m :| Encode(m) == b;
      Some(m)
    else None
  }

  ghost function Unrouted(shards: nat, capacity: nat, limit: nat, crc: Checksum): Config<nat> {
    Config(shards, capacity, limit, (name: string) => 0, crc, Encode, Decode)
  }

  /** Any shard count, capacity and segment limit has a sound configuration. */
  lemma SoundConfigExists(shards: nat, capacity: nat, limit: nat, crc: Checksum)
    requires 1 <= shards <= 256
    ensures Sound(Unrouted(shards, capacity, limit, crc))
  {
    var c := Unrouted(shards, capacity, limit, crc);
    forall m ensures c.dec(c.enc(m)) == Some(m) {
      var k := Decode(Encode(m)).value;
      EncodeInjective(k, m);
    }
  }

  function Points(n: nat): (ns: seq<nat>)
    ensures |ns| == n
  {
    if n == 0 then [] else [0] + Points(n - 1)
  }

  /** And it has short payloads for any number of points. */
  lemma {:induction false} ShortPayload(n: nat)
    ensures |Encode(Metric("", Points(n)))| == 2 * n + 2
  {
    assert Codes("") == [];
    assert |Encode(Metric("", Points(n)))| == n + 2 + |UnaryAll(Points(n))|;
    UnaryZeros(n);
  }

  lemma {:induction false} UnaryZeros(n: nat)
    ensures |UnaryAll(Points(n))| == n
  {
    if n > 0 {
      UnaryZeros(n - 1);
      assert Points(n)[1..] == Points(n - 1);
    }
  }

  /** A first push of at most a block's worth of points, with a payload that fits a
      segment, is acknowledged in two steps. */
  lemma FirstPushIsAcknowledged<V(!new)>(c: Config<V>, m: Metric<V>)
    requires Sound(c) && |c.enc(m)| + HEADER_LEN + 1 < SPAN && 0 < |m.points| <= c.capacity
    ensures var steps := [Log(m, true), Insert(c.route(m.name), 0)];
            IsRun(c, Init(c), steps) && |RunFrom(c, Init(c), steps).log| == 1 &&
            RunFrom(c, Init(c), steps).log[0] == Logged(Pos(0, HEADER_LEN + |c.enc(m)|), m, Acked(1))
  {
    var k := c.route(m.name);
    var steps := [Log(m, true), Insert(k, 0)];
    var s0 := Init(c);
    assert Enabled(c, s0, steps[0]);
    var s1 := Next(c, s0, steps[0]);
    assert Enabled(c, s1, steps[1]);
    Writer.PushFits(s1.shards[k].w, RowsOf(0, |m.points|), 0);
    var s2 := Next(c, s1, steps[1]);
    var last := steps[1..];
    assert last == [steps[1]] && last[1..] == [];
    assert IsRun(c, s2, last[1..]) && RunFrom(c, s2, last[1..]) == s2;
    assert IsRun(c, s1, last) && RunFrom(c, s1, last) == s2;
    assert IsRun(c, s0, steps) && RunFrom(c, s0, steps) == s2;
  }
}

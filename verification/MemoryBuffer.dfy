/** The in-memory metric buffer: points tagged with the writer shard and epoch they
    went into, stored as epoch runs, and a registry of the series among them. */
module MemoryBuffer {
  import opened Options

  /** A shared label set: equal addresses are the same storage while both live. */
  datatype Handle<L> = Handle(addr: nat, labels: L)

  datatype DataPoint<L> = DataPoint(ts: int, labels: Handle<L>, value: real)

  /** Which writer shard and generation a point went into. */
  datatype Tag = Tag(shard: nat, epoch: nat)

  /** A run of points with one tag, by the index of its first point. */
  datatype Mark = Mark(start: nat, tag: Tag)

  /** The shard of points buffered without epoch tracking. */
  const UNTRACKED: nat := 0xFFFF

  datatype Slot<L> = Slot(points: seq<DataPoint<L>>, marks: seq<Mark>, series: seq<Handle<L>>, seen: set<nat>)

  // -------------------------------------------------------------- epoch runs

  /** Runs start at 0, are non-empty, cover all points and differ from their
      neighbours. */
  ghost predicate WellMarked(marks: seq<Mark>, n: nat) {
    && (marks == [] <==> n == 0)
    && (marks != [] ==> marks[0].start == 0 && marks[|marks| - 1].start < n)
    && (forall i, j | 0 <= i < j < |marks| :: marks[i].start < marks[j].start)
    && (forall i | 0 < i < |marks| :: marks[i - 1].tag != marks[i].tag)
  }

  /** The tag of point `i`: that of the last run starting at or before it. */
  ghost function TagOf(marks: seq<Mark>, i: nat): Tag
    requires marks != [] && marks[0].start == 0
  {
    var n := |marks| - 1;
    if n == 0 || marks[n].start <= i then marks[n].tag else TagOf(marks[..n], i)
  }

  ghost function Tags(marks: seq<Mark>, n: nat): (tags: seq<Tag>)
    requires WellMarked(marks, n)
    ensures |tags| == n
  {
    seq(n, i requires 0 <= i < n => TagOf(marks, i))
  }

  lemma {:induction false} TagOfRun(marks: seq<Mark>, n: nat, r: nat, i: nat)
    requires WellMarked(marks, n) && r < |marks| && marks[r].start <= i
    requires r + 1 < |marks| ==> i < marks[r + 1].start
    ensures TagOf(marks, i) == marks[r].tag
  {
    TagOfRunOf(marks, r, i);
  }

  lemma {:induction false} TagOfRunOf(marks: seq<Mark>, r: nat, i: nat)
    requires marks != [] && marks[0].start == 0
    requires forall i, j | 0 <= i < j < |marks| :: marks[i].start < marks[j].start
    requires r < |marks| && marks[r].start <= i && (r + 1 < |marks| ==> i < marks[r + 1].start)
    ensures TagOf(marks, i) == marks[r].tag
    decreases |marks|
  {
    var n := |marks| - 1;
    if r < n {
      assert marks[r + 1].start <= marks[n].start;
      TagOfRunOf(marks[..n], r, i);
    }
  }

  /** Every point lies in some run. */
  lemma {:induction false} RunExists(marks: seq<Mark>, n: nat, i: nat) returns (r: nat)
    requires WellMarked(marks, n) && i < n
    ensures r < |marks| && marks[r].start <= i && (r + 1 < |marks| ==> i < marks[r + 1].start)
  {
    r := |marks| - 1;
    while marks[r].start > i
      invariant r < |marks|
      invariant r + 1 < |marks| ==> i < marks[r + 1].start
    {
      r := r - 1;
    }
  }

  /** A new run begins only when the tag changes. */
  function MarksAfter(marks: seq<Mark>, n: nat, tag: Tag): seq<Mark> {
    if marks == [] || marks[|marks| - 1].tag != tag then marks + [Mark(n, tag)] else marks
  }

  lemma PushMarks(marks: seq<Mark>, n: nat, more: nat, tag: Tag)
    requires WellMarked(marks, n) && more > 0
    ensures WellMarked(MarksAfter(marks, n, tag), n + more)
  {
  }

  lemma PushTagOf(marks: seq<Mark>, n: nat, more: nat, tag: Tag, i: nat)
    requires WellMarked(marks, n) && more > 0 && i < n + more
    requires WellMarked(MarksAfter(marks, n, tag), n + more)
    ensures TagOf(MarksAfter(marks, n, tag), i) == if i < n then TagOf(marks, i) else tag
  {
    var marks' := MarksAfter(marks, n, tag);
    if i < n {
      var r := RunExists(marks, n, i);
      TagOfRun(marks, n, r, i);
      TagOfRun(marks', n + more, r, i);
    } else {
      TagOfRun(marks', n + more, |marks'| - 1, i);
    }
  }

  /** Pushing keeps the runs well formed and tags exactly the new points. */
  lemma PushTags(marks: seq<Mark>, n: nat, more: nat, tag: Tag)
    requires WellMarked(marks, n) && more > 0
    ensures var marks' := MarksAfter(marks, n, tag);
            WellMarked(marks', n + more) &&
            Tags(marks', n + more) == Tags(marks, n) + seq(more, _ => tag)
  {
    PushMarks(marks, n, more, tag);
    forall i | 0 <= i < n + more
      ensures TagOf(MarksAfter(marks, n, tag), i) == if i < n then TagOf(marks, i) else tag
    {
      PushTagOf(marks, n, more, tag, i);
    }
  }

  // ------------------------------------------------------------------- drops

  predicate Droppable(tag: Tag, bounds: seq<nat>) {
    tag.shard < |bounds| && tag.shard != UNTRACKED && tag.epoch <= bounds[tag.shard]
  }

  /** Length of the longest prefix of droppable points. */
  function DropLen(tags: seq<Tag>, bounds: seq<nat>): (k: nat)
    ensures k <= |tags|
    ensures forall i | 0 <= i < k :: Droppable(tags[i], bounds)
    ensures k < |tags| ==> !Droppable(tags[k], bounds)
  {
    if tags == [] || !Droppable(tags[0], bounds) then 0
    else
      var k := DropLen(tags[1..], bounds);
      assert forall i | 0 < i < |tags| :: tags[i] == tags[1..][i - 1];
      1 + k
  }

  lemma DropLenIs(tags: seq<Tag>, bounds: seq<nat>, k: nat)
    requires k <= |tags| && (forall i | 0 <= i < k :: Droppable(tags[i], bounds))
    requires k < |tags| ==> !Droppable(tags[k], bounds)
    ensures DropLen(tags, bounds) == k
  {
  }

  /** How many leading runs go. */
  function DropRuns(marks: seq<Mark>, bounds: seq<nat>): (d: nat)
    ensures d <= |marks|
    ensures forall i | 0 <= i < d :: Droppable(marks[i].tag, bounds)
    ensures d < |marks| ==> !Droppable(marks[d].tag, bounds)
  {
    if marks == [] || !Droppable(marks[0].tag, bounds) then 0
    else
      var d := DropRuns(marks[1..], bounds);
      assert forall i | 0 < i < |marks| :: marks[i] == marks[1..][i - 1];
      1 + d
  }

  function CutAt(marks: seq<Mark>, d: nat, n: nat): nat {
    if d < |marks| then marks[d].start else n
  }

  function Rebased(marks: seq<Mark>, d: nat, cut: nat): (rest: seq<Mark>)
    requires d <= |marks| && forall i | d <= i < |marks| :: cut <= marks[i].start
  {
    seq(|marks| - d, i requires 0 <= i < |marks| - d => Mark(marks[d + i].start - cut, marks[d + i].tag))
  }

  /** Dropping whole runs is dropping the longest droppable prefix of points. */
  lemma DropRunsIsDropLen(marks: seq<Mark>, n: nat, bounds: seq<nat>)
    requires WellMarked(marks, n)
    ensures DropLen(Tags(marks, n), bounds) == CutAt(marks, DropRuns(marks, bounds), n)
  {
    var d := DropRuns(marks, bounds);
    var cut := CutAt(marks, d, n);
    forall i | 0 <= i < cut ensures Droppable(TagOf(marks, i), bounds) {
      var r := RunExists(marks, n, i);
      TagOfRun(marks, n, r, i);
      assert d < |marks| ==> r < d;
    }
    if d < |marks| {
      TagOfRun(marks, n, d, cut);
    }
    DropLenIs(Tags(marks, n), bounds, cut);
  }

  lemma DropMarks(marks: seq<Mark>, n: nat, d: nat)
    requires WellMarked(marks, n) && d <= |marks|
    ensures var cut := CutAt(marks, d, n);
            cut <= n && (forall i | d <= i < |marks| :: cut <= marks[i].start) &&
            WellMarked(Rebased(marks, d, cut), n - cut)
  {
  }

  lemma DropTagOf(marks: seq<Mark>, n: nat, d: nat, cut: nat, i: nat)
    requires WellMarked(marks, n) && d <= |marks| && cut == CutAt(marks, d, n) && cut <= i < n
    requires (forall i | d <= i < |marks| :: cut <= marks[i].start) && WellMarked(Rebased(marks, d, cut), n - cut)
    ensures TagOf(Rebased(marks, d, cut), i - cut) == TagOf(marks, i)
  {
    var rest := Rebased(marks, d, cut);
    var r := RunExists(marks, n, i);
    assert d <= r;
    assert TagOf(marks, i) == marks[r].tag by {
      TagOfRun(marks, n, r, i);
    }
    assert rest[r - d] == Mark(marks[r].start - cut, marks[r].tag);
    assert r + 1 < |marks| ==> rest[r + 1 - d].start == marks[r + 1].start - cut;
    TagOfRun(rest, n - cut, r - d, i - cut);
  }

  /** What is left keeps its tags, and its runs are well formed again. */
  lemma DropTags(marks: seq<Mark>, n: nat, d: nat)
    requires WellMarked(marks, n) && d <= |marks|
    ensures var cut := CutAt(marks, d, n);
            cut <= n && (forall i | d <= i < |marks| :: cut <= marks[i].start) &&
            WellMarked(Rebased(marks, d, cut), n - cut) &&
            Tags(Rebased(marks, d, cut), n - cut) == Tags(marks, n)[cut..]
  {
    var cut := CutAt(marks, d, n);
    DropMarks(marks, n, d);
    forall i | cut <= i < n ensures TagOf(Rebased(marks, d, cut), i - cut) == TagOf(marks, i) {
      DropTagOf(marks, n, d, cut, i);
    }
    TagsSuffix(Rebased(marks, d, cut), marks, n, cut);
  }

  lemma TagsSuffix(rest: seq<Mark>, marks: seq<Mark>, n: nat, cut: nat)
    requires WellMarked(marks, n) && cut <= n && WellMarked(rest, n - cut)
    requires forall i | cut <= i < n :: TagOf(rest, i - cut) == TagOf(marks, i)
    ensures Tags(rest, n - cut) == Tags(marks, n)[cut..]
  {
    var a, b := Tags(rest, n - cut), Tags(marks, n)[cut..];
    forall j | 0 <= j < n - cut ensures a[j] == b[j] {
      assert TagOf(rest, cut + j - cut) == TagOf(marks, cut + j);
    }
  }

  /** For points of one shard in epoch order the drop is exact: a point goes if and
      only if its epoch is at most the shard's bound. */
  lemma DropIsExact(tags: seq<Tag>, bounds: seq<nat>, shard: nat)
    requires shard < |bounds| && shard != UNTRACKED
    requires forall i | 0 <= i < |tags| :: tags[i].shard == shard
    requires forall i, j | 0 <= i < j < |tags| :: tags[i].epoch <= tags[j].epoch
    ensures forall i | 0 <= i < |tags| :: i < DropLen(tags, bounds) <==> tags[i].epoch <= bounds[shard]
  {
    var k := DropLen(tags, bounds);
    forall i | k <= i < |tags| ensures tags[i].epoch > bounds[shard] {
      assert !Droppable(tags[k], bounds);
      assert i > k ==> tags[k].epoch <= tags[i].epoch;
    }
  }

  // ------------------------------------------------------------ the registry

  ghost predicate SameStorage<L>(a: Handle<L>, b: Handle<L>) {
    a.addr == b.addr ==> a == b
  }

  /** Handles alive together with equal addresses are the same label set. */
  ghost predicate Live<L>(points: seq<DataPoint<L>>, series: seq<Handle<L>>) {
    && (forall p, q | p in points && q in points :: SameStorage(p.labels, q.labels))
    && (forall p, h | p in points && h in series :: SameStorage(p.labels, h))
    && (forall g, h | g in series && h in series :: SameStorage(g, h))
  }

  /** `seen` is the registry's addresses and every buffered point is registered. */
  ghost predicate Registered<L>(s: Slot<L>) {
    && (forall a :: a in s.seen <==> exists h :: h in s.series && h.addr == a)
    && (forall p | p in s.points :: p.labels in s.series)
  }

  ghost predicate ValidSlot<L>(s: Slot<L>) {
    WellMarked(s.marks, |s.points|) && Live(s.points, s.series) && Registered(s)
  }

  /** Registers the series of `points`, each distinct handle once. */
  method Register<L>(points: seq<DataPoint<L>>, series: seq<Handle<L>>, seen: set<nat>)
    returns (series': seq<Handle<L>>, seen': set<nat>)
    requires Live(points, series)
    requires forall a :: a in seen <==> exists h :: h in series && h.addr == a
    ensures Live(points, series')
    ensures forall a :: a in seen' <==> exists h :: h in series' && h.addr == a
    ensures forall h :: h in series' <==> h in series || exists p :: p in points && p.labels == h
  {
    series', seen' := series, seen;
    for i := 0 to |points|
      invariant forall a :: a in seen' <==> exists h :: h in series' && h.addr == a
      invariant forall h :: h in series' <==> h in series || exists p :: p in points[..i] && p.labels == h
    {
      var h := points[i].labels;
      assert points[..i + 1] == points[..i] + [points[i]];
      ghost var before := series';
      if h.addr in seen' {
        ghost var g :| g in series' && g.addr == h.addr;
        assert SameStorage(points[i].labels, g);
      } else {
        seen' := seen' + {h.addr};
        series' := series' + [h];
        assert forall g :: g in series' <==> g in before || g == h;
      }
    }
    assert points[..|points|] == points;
  }

  /** `push_metrics_tagged` on one slot. */
  method PushSlot<L>(s: Slot<L>, more: seq<DataPoint<L>>, tag: Tag) returns (s': Slot<L>)
    requires ValidSlot(s) && more != [] && Live(s.points + more, s.series)
    ensures ValidSlot(s') && s'.points == s.points + more
    ensures Tags(s'.marks, |s'.points|) == Tags(s.marks, |s.points|) + seq(|more|, _ => tag)
  {
    var newRun := s.marks == [] || s.marks[|s.marks| - 1].tag != tag;
    var marks := if newRun then s.marks + [Mark(|s.points|, tag)] else s.marks;
    LivePart(s.points, more, s.series);
    var series, seen := Register(more, s.series, s.seen);
    s' := Slot(s.points + more, marks, series, seen);
    PushedIsValid(s, more, tag, s');
  }

  lemma PushedIsValid<L>(s: Slot<L>, more: seq<DataPoint<L>>, tag: Tag, s': Slot<L>)
    requires ValidSlot(s) && more != [] && Live(s.points + more, s.series) && s'.points == s.points + more
    requires s'.marks == MarksAfter(s.marks, |s.points|, tag)
    requires forall a :: a in s'.seen <==> exists h :: h in s'.series && h.addr == a
    requires forall h :: h in s'.series <==> h in s.series || exists p :: p in more && p.labels == h
    ensures ValidSlot(s')
    ensures Tags(s'.marks, |s'.points|) == Tags(s.marks, |s.points|) + seq(|more|, _ => tag)
  {
    PushTags(s.marks, |s.points|, |more|, tag);
    RegisteredAfterPush(s, more, s');
  }

  lemma LivePart<L>(a: seq<DataPoint<L>>, b: seq<DataPoint<L>>, series: seq<Handle<L>>)
    requires Live(a + b, series)
    ensures Live(b, series)
  {
    assert forall p | p in b :: p in a + b;
  }

  lemma RegisteredAfterPush<L>(s: Slot<L>, more: seq<DataPoint<L>>, s': Slot<L>)
    requires Registered(s) && Live(s.points + more, s.series) && s'.points == s.points + more
    requires forall a :: a in s'.seen <==> exists h :: h in s'.series && h.addr == a
    requires forall h :: h in s'.series <==> h in s.series || exists p :: p in more && p.labels == h
    ensures Registered(s') && Live(s'.points, s'.series)
  {
    assert forall p :: p in s'.points <==> p in s.points || p in more;
  }

  /** `drop_sealed_metrics` on one slot: leading runs go, the rest is rebased, and a
      registry that outgrew the points is rebuilt. */
  method DropSlot<L>(s: Slot<L>, bounds: seq<nat>) returns (s': Slot<L>, keep: bool)
    requires ValidSlot(s)
    ensures ValidSlot(s')
    ensures var k := DropLen(Tags(s.marks, |s.points|), bounds);
            s'.points == s.points[k..] &&
            Tags(s'.marks, |s'.points|) == Tags(s.marks, |s.points|)[k..] &&
            (keep <==> k == 0 || s'.points != [])
  {
    var n := |s.points|;
    var d := 0;
    while d < |s.marks| && Droppable(s.marks[d].tag, bounds)
      invariant d <= |s.marks| && forall i | 0 <= i < d :: Droppable(s.marks[i].tag, bounds)
    {
      d := d + 1;
    }
    DropRunsIs(s.marks, bounds, d);
    DropRunsIsDropLen(s.marks, n, bounds);
    DropTags(s.marks, n, d);
    if d == 0 {
      assert s.points[0..] == s.points;
      return s, true;
    }
    var cut := if d < |s.marks| then s.marks[d].start else n;
    var marks := RebaseMarks(s.marks, d, cut);
    var points := s.points[cut..];
    LiveSuffix(s.points, cut, s.series);
    var series, seen := ShedSeries(points, s.series, s.seen);
    s' := Slot(points, marks, series, seen);
    keep := |points| > 0;
  }

  /** The registry is rebuilt from the points that remain once it outnumbers them. */
  method ShedSeries<L>(points: seq<DataPoint<L>>, series: seq<Handle<L>>, seen: set<nat>)
    returns (series': seq<Handle<L>>, seen': set<nat>)
    requires Live(points, series)
    requires forall a :: a in seen <==> exists h :: h in series && h.addr == a
    requires forall p | p in points :: p.labels in series
    ensures Live(points, series')
    ensures forall a :: a in seen' <==> exists h :: h in series' && h.addr == a
    ensures forall p | p in points :: p.labels in series'
  {
    series', seen' := series, seen;
    if |series| > (if |points| > 16 then |points| else 16) {
      series', seen' := Register(points, [], {});
    }
  }

  lemma DropRunsIs(marks: seq<Mark>, bounds: seq<nat>, d: nat)
    requires d <= |marks| && forall i | 0 <= i < d :: Droppable(marks[i].tag, bounds)
    requires d < |marks| ==> !Droppable(marks[d].tag, bounds)
    ensures DropRuns(marks, bounds) == d
  {
  }

  lemma LiveSuffix<L>(points: seq<DataPoint<L>>, cut: nat, series: seq<Handle<L>>)
    requires Live(points, series) && cut <= |points|
    ensures Live(points[cut..], series) && Live(points[cut..], [])
    ensures forall p | p in points[cut..] :: p in points
  {
    assert forall p | p in points[cut..] :: p in points;
  }

  method RebaseMarks(marks: seq<Mark>, d: nat, cut: nat) returns (rest: seq<Mark>)
    requires d <= |marks| && forall i | d <= i < |marks| :: cut <= marks[i].start
    ensures rest == Rebased(marks, d, cut)
  {
    rest := [];
    for i := d to |marks|
      invariant |rest| == i - d
      invariant forall k | 0 <= k < i - d :: rest[k] == Mark(marks[d + k].start - cut, marks[d + k].tag)
    {
      rest := rest + [Mark(marks[i].start - cut, marks[i].tag)];
    }
  }

  // ------------------------------------------------------------------- scans

  predicate InWindow<L>(p: DataPoint<L>, lo: int, hi: int) {
    lo <= p.ts <= hi
  }

  /** The points in a time window whose label set the filter accepts, in order. */
  function Select<L>(points: seq<DataPoint<L>>, lo: int, hi: int, accept: L -> bool): seq<DataPoint<L>> {
    if points == [] then []
    else
      var n := |points| - 1;
      var p := points[n];
      Select(points[..n], lo, hi, accept) + if InWindow(p, lo, hi) && accept(p.labels.labels) then [p] else []
  }

  function Anything<L>(): L -> bool {
    _ => true
  }

  /** `scan_metrics`. */
  method ScanMetrics<L>(s: Slot<L>, lo: int, hi: int) returns (out: seq<DataPoint<L>>)
    ensures out == Select(s.points, lo, hi, Anything())
  {
    out := [];
    for i := 0 to |s.points|
      invariant out == Select(s.points[..i], lo, hi, Anything())
    {
      assert s.points[..i + 1][..i] == s.points[..i];
      if lo <= s.points[i].ts && s.points[i].ts <= hi {
        out := out + [s.points[i]];
      }
    }
    assert s.points[..|s.points|] == s.points;
  }

  /** Addresses of the registered series that the filter accepts. */
  method Accepted<L>(series: seq<Handle<L>>, accept: L -> bool) returns (addrs: set<nat>)
    ensures forall a :: a in addrs <==> exists h :: h in series && h.addr == a && accept(h.labels)
  {
    addrs := {};
    for i := 0 to |series|
      invariant forall a :: a in addrs <==> exists h :: h in series[..i] && h.addr == a && accept(h.labels)
    {
      assert series[..i + 1] == series[..i] + [series[i]];
      if accept(series[i].labels) {
        addrs := addrs + {series[i].addr};
      }
    }
    assert series[..|series|] == series;
  }

  /** A registered point's address is accepted exactly when its own labels are. */
  lemma AddressDecides<L>(s: Slot<L>, addrs: set<nat>, accept: L -> bool, p: DataPoint<L>)
    requires Live(s.points, s.series) && Registered(s) && p in s.points
    requires forall a :: a in addrs <==> exists h :: h in s.series && h.addr == a && accept(h.labels)
    ensures p.labels.addr in addrs <==> accept(p.labels.labels)
  {
    if p.labels.addr in addrs {
      var h :| h in s.series && h.addr == p.labels.addr && accept(h.labels);
      assert SameStorage(p.labels, h);
    }
  }

  /** `scan_metrics_filtered`: the filter is judged once per registered series, each
      point by its handle's address alone, and the result is nevertheless the plain
      scan filtered point by point. `considered` counts the window, except that a
      filter no series meets stops the scan before it starts. */
  method ScanFiltered<L>(s: Slot<L>, lo: int, hi: int, accept: L -> bool)
    returns (out: seq<DataPoint<L>>, considered: nat)
    requires Live(s.points, s.series) && Registered(s)
    ensures out == Select(s.points, lo, hi, accept)
    ensures considered == |Select(s.points, lo, hi, Anything())| ||
            (considered == 0 && forall h | h in s.series :: !accept(h.labels))
  {
    var addrs := Accepted(s.series, accept);
    out, considered := [], 0;
    if addrs == {} {
      forall h | h in s.series ensures !accept(h.labels) {
        assert h.addr !in addrs;
      }
      SelectNothing(s.points, lo, hi, accept);
      return;
    }
    var last: Option<(nat, bool)> := None;
    for i := 0 to |s.points|
      invariant out == Select(s.points[..i], lo, hi, accept)
      invariant considered == |Select(s.points[..i], lo, hi, Anything())|
      invariant last.Some? ==> last.value.1 == (last.value.0 in addrs)
    {
      assert s.points[..i + 1][..i] == s.points[..i];
      var p := s.points[i];
      if p.ts < lo || p.ts > hi {
        continue;
      }
      considered := considered + 1;
      AddressDecides(s, addrs, accept, p);
      if last.None? || last.value.0 != p.labels.addr {
        last := Some((p.labels.addr, p.labels.addr in addrs));
      }
      if last.value.1 {
        out := out + [p];
      }
    }
    assert s.points[..|s.points|] == s.points;
  }

  lemma {:induction false} SelectNothing<L>(points: seq<DataPoint<L>>, lo: int, hi: int, accept: L -> bool)
    requires forall p | p in points :: !accept(p.labels.labels)
    ensures Select(points, lo, hi, accept) == []
  {
    if points != [] {
      var n := |points| - 1;
      SelectNothing(points[..n], lo, hi, accept);
    }
  }

  // -------------------------------------------------------------- the buffer

  ghost predicate ValidMetrics<L>(m: map<string, Slot<L>>) {
    forall name | name in m :: ValidSlot(m[name]) && m[name].points != []
  }

  /** The points of a metric; an unknown metric has none. */
  function PointsOf<L>(m: map<string, Slot<L>>, name: string): seq<DataPoint<L>> {
    if name in m then m[name].points else []
  }

  ghost function TagsOf<L>(m: map<string, Slot<L>>, name: string): (tags: seq<Tag>)
    ensures ValidMetrics(m) ==> |tags| == |PointsOf(m, name)|
  {
    if name in m && WellMarked(m[name].marks, |m[name].points|) then Tags(m[name].marks, |m[name].points|) else []
  }

  /** How many points of a metric a drop removes. */
  ghost function DropCount<L>(m: map<string, Slot<L>>, name: string, bounds: seq<nat>): nat {
    if forall i | 0 <= i < |bounds| :: bounds[i] == 0 then 0 else DropLen(TagsOf(m, name), bounds)
  }

  /** Metric `name` after a drop: what is left of its points, with their tags. */
  ghost predicate Shed<L>(before: map<string, Slot<L>>, after: map<string, Slot<L>>, name: string, k: nat)
  {
    k <= |PointsOf(before, name)| && k <= |TagsOf(before, name)| &&
    PointsOf(after, name) == PointsOf(before, name)[k..] &&
    TagsOf(after, name) == TagsOf(before, name)[k..]
  }

  lemma ShedNothing<L>(m: map<string, Slot<L>>, name: string)
    requires ValidMetrics(m)
    ensures Shed(m, m, name, 0)
  {
  }

  /** Registered handles of a metric, for what a push may share storage with. */
  function SeriesOf<L>(m: map<string, Slot<L>>, name: string): seq<Handle<L>> {
    if name in m then m[name].series else []
  }

  lemma OthersKept<L>(m: map<string, Slot<L>>, name: string, slot: Slot<L>)
    requires ValidMetrics(m) && ValidSlot(slot) && slot.points != []
    ensures ValidMetrics(m[name := slot])
    ensures forall other | other != name ::
              PointsOf(m[name := slot], other) == PointsOf(m, other) &&
              TagsOf(m[name := slot], other) == TagsOf(m, other)
  {
  }

  class Buffer<L> {
    var metrics: map<string, Slot<L>>

    ghost predicate Valid()
      reads this
    {
      ValidMetrics(metrics)
    }

    constructor ()
      ensures Valid() && metrics == map[]
    {
      metrics := map[];
    }

    method PushTagged(name: string, more: seq<DataPoint<L>>, tag: Tag)
      requires Valid() && Live(PointsOf(metrics, name) + more, SeriesOf(metrics, name))
      modifies this
      ensures Valid()
      ensures PointsOf(metrics, name) == PointsOf(old(metrics), name) + more
      ensures TagsOf(metrics, name) == TagsOf(old(metrics), name) + seq(|more|, _ => tag)
      ensures forall other | other != name ::
                PointsOf(metrics, other) == PointsOf(old(metrics), other) &&
                TagsOf(metrics, other) == TagsOf(old(metrics), other)
    {
      if more == [] {
        return;
      }
      var slot := if name in metrics then metrics[name] else Slot([], [], [], {});
      var pushed := PushSlot(slot, more, tag);
      OthersKept(metrics, name, pushed);
      metrics := metrics[name := pushed];
    }

    /** Every metric loses its longest prefix of points whose epochs are covered. */
    method DropSealed(bounds: seq<nat>)
      requires Valid()
      modifies this
      ensures Valid()
      ensures forall name :: Shed(old(metrics), metrics, name, DropCount(old(metrics), name, bounds))
    {
      if forall i | 0 <= i < |bounds| :: bounds[i] == 0 {
        forall name ensures Shed(metrics, metrics, name, DropCount(metrics, name, bounds)) {
          ShedNothing(metrics, name);
        }
        return;
      }
      metrics := DropMetrics(metrics, bounds);
    }
  }

  /** A metric that is still to do is as it was; one that is done has shed its prefix. */
  ghost predicate Handled<L>(before: map<string, Slot<L>>, m: map<string, Slot<L>>, todo: set<string>, bounds: seq<nat>,
                             name: string)
  {
    if name in todo then name in before && name in m && m[name] == before[name]
    else Shed(before, m, name, DropLen(TagsOf(before, name), bounds))
  }

  ghost predicate Partway<L>(before: map<string, Slot<L>>, m: map<string, Slot<L>>, todo: set<string>,
                             bounds: seq<nat>) {
    forall name :: Handled(before, m, todo, bounds, name)
  }

  method DropMetrics<L>(before: map<string, Slot<L>>, bounds: seq<nat>) returns (m: map<string, Slot<L>>)
    requires ValidMetrics(before)
    ensures ValidMetrics(m)
    ensures forall name :: Shed(before, m, name, DropLen(TagsOf(before, name), bounds))
  {
    m := before;
    var todo := m.Keys;
    PartwayStart(before, bounds);
    while todo != {}
      invariant ValidMetrics(m) && Partway(before, m, todo, bounds)
      decreases todo
    {
      var name :| name in todo;
      assert Handled(before, m, todo, bounds, name);
      var slot, keep := DropSlot(m[name], bounds);
      PartwayStep(before, m, todo, name, slot, bounds);
      m := if keep then m[name := slot] else m - {name};
      todo := todo - {name};
    }
    forall name ensures Shed(before, m, name, DropLen(TagsOf(before, name), bounds)) {
      assert Handled(before, m, {}, bounds, name);
    }
  }

  lemma PartwayStart<L>(before: map<string, Slot<L>>, bounds: seq<nat>)
    requires ValidMetrics(before)
    ensures Partway(before, before, before.Keys, bounds)
  {
  }

  /** The map with one metric's slot replaced, or removed when it is empty. */
  function WithSlot<L>(m: map<string, Slot<L>>, name: string, slot: Slot<L>): map<string, Slot<L>> {
    if |slot.points| > 0 then m[name := slot] else m - {name}
  }

  lemma PartwayStep<L>(before: map<string, Slot<L>>, m: map<string, Slot<L>>, todo: set<string>,
                       name: string, slot: Slot<L>, bounds: seq<nat>)
    requires ValidMetrics(before) && ValidMetrics(m) && Partway(before, m, todo, bounds)
    requires name in todo && name in before && ValidSlot(slot)
    requires var k := DropLen(TagsOf(before, name), bounds);
             slot.points == before[name].points[k..] &&
             Tags(slot.marks, |slot.points|) == TagsOf(before, name)[k..]
    ensures ValidMetrics(WithSlot(m, name, slot))
    ensures Partway(before, WithSlot(m, name, slot), todo - {name}, bounds)
  {
    var m' := WithSlot(m, name, slot);
    assert Handled(before, m, todo, bounds, name);
    DropOne(before, m, m', name, slot, bounds);
    PartwayFrame(before, m, todo, name, m', bounds);
  }

  lemma PartwayFrame<L>(before: map<string, Slot<L>>, m: map<string, Slot<L>>, todo: set<string>, name: string,
                        m': map<string, Slot<L>>, bounds: seq<nat>)
    requires Partway(before, m, todo, bounds)
    requires forall other | other != name :: (other in m <==> other in m') && (other in m ==> m[other] == m'[other])
    requires name in todo && Shed(before, m', name, DropLen(TagsOf(before, name), bounds))
    ensures Partway(before, m', todo - {name}, bounds)
  {
    forall other ensures Handled(before, m', todo - {name}, bounds, other) {
      assert Handled(before, m, todo, bounds, other);
      if other !in todo {
        ShedFrame(before, m, m', other, DropLen(TagsOf(before, other), bounds));
      }
    }
  }

  lemma ShedFrame<L>(before: map<string, Slot<L>>, now: map<string, Slot<L>>, after: map<string, Slot<L>>,
                     name: string, k: nat)
    requires Shed(before, now, name, k)
    requires name in now <==> name in after
    requires name in now ==> now[name] == after[name]
    ensures Shed(before, after, name, k)
  {
  }

  lemma DropOne<L>(before: map<string, Slot<L>>, now: map<string, Slot<L>>, after: map<string, Slot<L>>,
                   name: string, slot: Slot<L>, bounds: seq<nat>)
    requires ValidMetrics(before) && ValidMetrics(now) && ValidSlot(slot)
    requires name in before && name in now && now[name] == before[name]
    requires after == if slot.points != [] then now[name := slot] else now - {name}
    requires var k := DropLen(TagsOf(before, name), bounds);
             slot.points == before[name].points[k..] &&
             Tags(slot.marks, |slot.points|) == TagsOf(before, name)[k..]
    ensures ValidMetrics(after) && Shed(before, after, name, DropLen(TagsOf(before, name), bounds))
  {
  }
}

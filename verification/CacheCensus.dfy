/**
 The memory census (backend/app/runtime/cache_census.py): a budgeted, iterative
 depth-first walk over a possibly cyclic object graph. One visited set is shared by
 every target, so that an object is charged to the first target that reaches it.
 */
module CacheCensus {
  import opened Wrappers
  import Sets

  /** The `id()` of a live object. */
  type Id = nat

  /** One element of a container: an item, or the key and value of a mapping. */
  datatype Entry = Item(item: Id) | Pair(key: Id, value: Id) {
    /** The object whose identity decides whether the entry is sampled. */
    function Subject(): Id {
      match this
      case Item(i) => i
      case Pair(_, v) => v
    }

    function Objects(): seq<Id> {
      match this
      case Item(i) => [i]
      case Pair(k, v) => [k, v]
    }
  }

  datatype Shape = Leaf | Container(entries: seq<Entry>) | Record(attributes: seq<Id>)

  /** What the walk can observe of an object: its shallow size (None when `getsizeof` raises),
      its children, and whether iterating over them raises after the last one listed. */
  datatype Node = Node(size: Option<nat>, shape: Shape, fails: bool)

  type Heap = map<Id, Node>

  function Flatten(entries: seq<Entry>): seq<Id> {
    if entries == [] then [] else entries[0].Objects() + Flatten(entries[1..])
  }

  function Children(n: Node): seq<Id> {
    match n.shape
    case Leaf => []
    case Container(entries) => Flatten(entries)
    case Record(attributes) => attributes
  }

  // ---------- sampling of large containers ----------

  const SAMPLE_THRESHOLD := 2000
  const SAMPLE_MODULUS := 16
  const SAMPLE_MULTIPLIER := 2654435761

  /** The sampling hash: a multiplicative hash of `id >> 4`, cut to 32 bits. */
  predicate Selected(e: Entry) {
    ((e.Subject() / 16) * SAMPLE_MULTIPLIER % 0x1_0000_0000) % SAMPLE_MODULUS == 0
  }

  function SelectedOf(entries: seq<Entry>): seq<Entry> {
    if entries == [] then []
    else if Selected(entries[0]) then [entries[0]] + SelectedOf(entries[1..])
    else SelectedOf(entries[1..])
  }

  /** The sample of a scan that got to entry `i`, which is the end unless it was cut short: the selected
      entries so far, or the first entry when a full scan selects none. */
  predicate ScannedTo(entries: seq<Entry>, i: nat, truncated: bool, chosen: seq<Entry>) {
    && i <= |entries| && (i < |entries| ==> truncated)
    && chosen == if SelectedOf(entries[..i]) == [] && !truncated && entries != [] then [entries[0]] else SelectedOf(entries[..i])
  }

  lemma {:induction false} SelectedOfAppend(a: seq<Entry>, e: Entry)
    ensures SelectedOf(a + [e]) == SelectedOf(a) + (if Selected(e) then [e] else [])
  {
    hide Selected;
    if a == [] {
      assert [e][1..] == [] && a + [e] == [e];
    } else {
      assert (a + [e])[1..] == a[1..] + [e];
      SelectedOfAppend(a[1..], e);
      var more := if Selected(e) then [e] else [];
      assert [a[0]] + (SelectedOf(a[1..]) + more) == [a[0]] + SelectedOf(a[1..]) + more;
    }
  }

  lemma ModOfMod(a: nat, q: nat)
    ensures (a % 0x1_0000_0000) % 16 == a % 16
    ensures (q * SAMPLE_MULTIPLIER) % 16 == q % 16
  {
    var d, r := a / 0x1_0000_0000, a % 0x1_0000_0000;
    assert a == 16 * (d * 0x1000_0000) + r;
    assert SAMPLE_MULTIPLIER == 16 * 165902235 + 1;
    assert q * SAMPLE_MULTIPLIER == 16 * (q * 165902235) + q;
  }

  /** The multiplier is 1 modulo 16, so multiplying and masking change nothing:
      exactly the objects whose address bits 4 to 7 are zero are sampled. */
  lemma SelectedIsAddressBits(e: Entry)
    ensures Selected(e) <==> (e.Subject() / 16) % 16 == 0
  {
    var q := e.Subject() / 16;
    ModOfMod(q * SAMPLE_MULTIPLIER, q);
  }

  predicate Large(n: Node) { n.shape.Container? && |n.shape.entries| > 2000 }

  /** The entries of a large container that a full scan follows: the selected ones, or else the first. */
  function Sample(entries: seq<Entry>): (r: seq<Entry>)
    requires entries != []
    ensures r != []
  {
    if SelectedOf(entries) == [] then [entries[0]] else SelectedOf(entries)
  }

  /** The children that the walk follows: all of them, or the sample of a large container. */
  function Followed(n: Node): seq<Id> {
    if Large(n) then Flatten(Sample(n.shape.entries)) else Children(n)
  }

  function Sampled(n: Node): nat {
    if Large(n) then |Sample(n.shape.entries)| else 0
  }

  /** What an object found with `weight` passes on: a sample stands for all entries. */
  function PassedOn(n: Node, weight: real): real {
    if Large(n) then weight * (|n.shape.entries| as real / Sampled(n) as real) else weight
  }

  lemma {:induction false} SelectedOfIsFilter(entries: seq<Entry>, e: Entry)
    ensures e in SelectedOf(entries) <==> e in entries && ((if e.Item? then e.item else e.value) / 16) % 16 == 0
    ensures |SelectedOf(entries)| <= |entries|
  {
    hide Selected;
    if entries != [] {
      SelectedOfIsFilter(entries[1..], e);
      SelectedIsAddressBits(entries[0]);
      assert e in entries <==> e == entries[0] || e in entries[1..];
    }
  }

  lemma {:induction false} FlattenMember(all: seq<Entry>, e: Entry)
    requires e in all
    ensures forall c :: c in e.Objects() ==> c in Flatten(all)
  {
    if all[0] != e {
      assert e in all[1..];
      FlattenMember(all[1..], e);
    }
  }

  lemma {:induction false} FlattenSubset(some: seq<Entry>, all: seq<Entry>)
    requires forall e :: e in some ==> e in all
    ensures forall c :: c in Flatten(some) ==> c in Flatten(all)
  {
    if some != [] {
      FlattenMember(all, some[0]);
      FlattenSubset(some[1..], all);
    }
  }

  /** The children of a container are its items, and of a mapping each key and then its value. */
  lemma {:induction false} FlattenIs(entries: seq<Entry>, c: Id)
    ensures c in Flatten(entries) <==>
            exists e :: e in entries && (if e.Item? then c == e.item else c == e.key || c == e.value)
    ensures entries != [] ==>
              var first := entries[0];
              Flatten(entries) == (if first.Item? then [first.item] else [first.key, first.value]) + Flatten(entries[1..])
  {
    if entries != [] {
      FlattenIs(entries[1..], c);
      assert forall e :: e in entries <==> e == entries[0] || e in entries[1..];
      assert entries[0] in entries;
    }
  }

  lemma FollowedInside(n: Node)
    ensures forall c :: c in Followed(n) ==> c in Children(n)
  {
    if Large(n) {
      var entries := n.shape.entries;
      forall e | e in Sample(entries) ensures e in entries {
        if SelectedOf(entries) != [] { SelectedOfIsFilter(entries, e); }
      }
      FlattenSubset(Sample(entries), entries);
    }
  }

  ghost predicate Closed(h: Heap) {
    forall x, c :: x in h && c in Children(h[x]) ==> c in h
  }

  // ---------- reachability over the followed children, stated independently of the walk ----------

  ghost predicate IsPath(h: Heap, p: seq<Id>) {
    && p != []
    && (forall i :: 0 <= i < |p| ==> p[i] in h)
    && (forall i :: 0 <= i < |p| - 1 ==> p[i + 1] in Followed(h[p[i]]))
  }

  ghost predicate Reachable(h: Heap, from: Id, to: Id) {
    exists p :: IsPath(h, p) && p[0] == from && p[|p| - 1] == to
  }

  lemma ReachRefl(h: Heap, x: Id)
    requires x in h
    ensures Reachable(h, x, x)
  {
    assert IsPath(h, [x]);
  }

  lemma ReachStep(h: Heap, from: Id, x: Id, c: Id)
    requires Closed(h) && Reachable(h, from, x) && x in h && c in Followed(h[x])
    ensures Reachable(h, from, c)
  {
    FollowedInside(h[x]);
    hide Followed;
    var p :| IsPath(h, p) && p[0] == from && p[|p| - 1] == x;
    assert IsPath(h, p + [c]);
    assert (p + [c])[0] == from && (p + [c])[|p + [c]| - 1] == c;
  }

  function Elements(xs: seq<Id>): set<Id> { set x | x in xs }

  ghost function ChildSet(h: Heap, x: Id): set<Id> {
    if x in h then Elements(Followed(h[x])) else {}
  }

  ghost predicate ClosedUnder(h: Heap, s: set<Id>) {
    forall x :: x in s ==> ChildSet(h, x) <= s
  }

  lemma {:induction false} ClosedHoldsPath(h: Heap, s: set<Id>, p: seq<Id>)
    requires IsPath(h, p) && ClosedUnder(h, s) && p[0] in s
    ensures p[|p| - 1] in s
    decreases |p|
  {
    if |p| > 1 {
      assert p[1] in ChildSet(h, p[0]);
      assert IsPath(h, p[1..]) by {
        forall i | 0 <= i < |p[1..]| - 1 ensures p[1..][i + 1] in Followed(h[p[1..][i]]) {
          assert p[1..][i] == p[i + 1] && p[1..][i + 1] == p[i + 2];
        }
      }
      ClosedHoldsPath(h, s, p[1..]);
    }
  }

  /** Whatever a closed set can reach lies in it. */
  lemma ClosedHoldsReachable(h: Heap, s: set<Id>, from: Id, to: Id)
    requires ClosedUnder(h, s) && from in s && Reachable(h, from, to)
    ensures to in s
  {
    var p :| IsPath(h, p) && p[0] == from && p[|p| - 1] == to;
    ClosedHoldsPath(h, s, p);
  }

  /** Everything reachable from `root`. */
  ghost function ReachSet(h: Heap, root: Id): set<Id> {
    set x | x in h && Reachable(h, root, x)
  }

  lemma ReachSetIsClosed(h: Heap, root: Id)
    requires Closed(h) && root in h
    ensures root in ReachSet(h, root) && ClosedUnder(h, ReachSet(h, root))
  {
    ReachRefl(h, root);
    forall x, c | x in ReachSet(h, root) && c in ChildSet(h, x) ensures c in ReachSet(h, root) {
      ReachStep(h, root, x, c);
    }
    forall x | x in ReachSet(h, root) ensures ChildSet(h, x) <= ReachSet(h, root) {}
  }

  ghost predicate ClosedUnderAll(h: Heap, s: set<Id>) {
    forall x, c :: x in s && x in h && c in Children(h[x]) ==> c in s
  }

  /** Where no large container is met, the followed edges reach exactly what all edges reach: the least
      set around the root that no edge leaves. */
  lemma ReachSetIsLeast(h: Heap, root: Id, s: set<Id>)
    requires Closed(h) && root in h && root in s && ClosedUnderAll(h, s)
    ensures ReachSet(h, root) <= s
    ensures (forall x :: x in ReachSet(h, root) ==> !Large(h[x])) ==> ClosedUnderAll(h, ReachSet(h, root))
  {
    forall x | x in s ensures ChildSet(h, x) <= s {
      if x in h { FollowedInside(h[x]); }
    }
    forall x | x in ReachSet(h, root) ensures x in s {
      ClosedHoldsReachable(h, s, root, x);
    }
    ReachSetIsClosed(h, root);
    hide ReachSet, Large;
    if forall x :: x in ReachSet(h, root) ==> !Large(h[x]) {
      forall x, c | x in ReachSet(h, root) && x in h && c in Children(h[x]) ensures c in ReachSet(h, root) {
        assert c in ChildSet(h, x);
      }
    }
  }

  // ---------- sums of shallow sizes ----------

  ghost function SizeOf(h: Heap, x: Id): nat {
    if x in h && h[x].size.Some? then h[x].size.value else 0
  }

  ghost function SumSizes(h: Heap, s: set<Id>): nat {
    if s == {} then 0
    else
      var x :| x in s;
      SizeOf(h, x) + SumSizes(h, s - {x})
  }

  lemma {:induction false} SumRemove(h: Heap, s: set<Id>, x: Id)
    requires x in s
    ensures SumSizes(h, s) == SizeOf(h, x) + SumSizes(h, s - {x})
    decreases s
  {
    var y :| y in s && SumSizes(h, s) == SizeOf(h, y) + SumSizes(h, s - {y});
    if y != x {
      SumRemove(h, s - {y}, x);
      SumRemove(h, s - {x}, y);
      assert s - {y} - {x} == s - {x} - {y};
    }
  }

  lemma SumAdd(h: Heap, s: set<Id>, x: Id)
    requires x !in s
    ensures SumSizes(h, s + {x}) == SumSizes(h, s) + SizeOf(h, x)
  {
    SumRemove(h, s + {x}, x);
    assert s + {x} - {x} == s;
  }

  // ---------- the walk ----------

  datatype Measurement = Measurement(
    size: real, objects: nat, truncated: bool, failed: bool, sampled: bool, sampleSize: nat)

  /** A child iterator on the stack, with the factor its objects are weighted by. */
  datatype Frame = Frame(left: seq<Id>, fails: bool, weight: real)

  datatype Stack = Empty | Push(top: Frame, below: Stack)

  ghost function PendingCount(stack: Stack): nat {
    match stack
    case Empty => 0
    case Push(top, below) => |top.left| + PendingCount(below)
  }

  ghost function Pending(stack: Stack): set<Id> {
    match stack
    case Empty => {}
    case Push(top, below) => Elements(top.left) + Pending(below)
  }

  /** Every weight extrapolates (is at least 1); `unit` when none was scaled at all. */
  ghost predicate Weights(stack: Stack, unit: bool) {
    match stack
    case Empty => true
    case Push(top, below) => top.weight >= 1.0 && (unit ==> top.weight == 1.0) && Weights(below, unit)
  }

  lemma WeightedAtLeast(amount: nat, weight: real)
    requires weight >= 1.0
    ensures amount as real * weight >= amount as real
  {}

  lemma FactorAtLeastOne(count: nat, chosen: nat)
    requires 0 < chosen <= count
    ensures count as real / chosen as real >= 1.0
  {
    var f := count as real / chosen as real;
    assert f * chosen as real == count as real;
  }

  lemma FactorScales(weight: real, factor: real)
    requires weight >= 1.0 && factor >= 1.0
    ensures weight * factor >= 1.0
  {
    assert weight * factor >= factor;
  }

  // ---------- what every iteration of the walk keeps ----------

  /** `news` are the objects this walk has visited, `shared` all objects visited so far, `pending`
      what the stack still holds, `reach` a closed set around the root. When `complete`, every edge
      out of a new object leads to a visited or a pending one. */
  ghost predicate Explored(h: Heap, root: Id, reach: set<Id>, news: set<Id>, shared: set<Id>,
                           pending: set<Id>, complete: bool) {
    && news <= reach
    && pending <= reach
    && (complete ==>
          && root in shared + pending
          && forall x :: x in news ==> ChildSet(h, x) <= shared + pending)
  }

  /** The running total against `count` new objects whose shallow sizes sum to `sum`. */
  ghost predicate Tallied(m: Measurement, count: nat, sum: nat) {
    && m.objects == count
    && m.size >= sum as real
    && (m.failed ==> m.truncated)
    && (!m.sampled ==> m.size == sum as real)
  }

  // ---------- the order of discovery ----------

  /** A visited object, and the weight its size is counted with. */
  datatype Visit = Visit(id: Id, weight: real)

  ghost predicate Parent(h: Heap, u: Visit, v: Visit) {
    u.id in h && v.id in ChildSet(h, u.id) && v.weight == PassedOn(h[u.id], u.weight)
  }

  /** `v` is the root, or a followed child of an object visited before, which passes its weight on. */
  ghost predicate Found(h: Heap, root: Id, log: seq<Visit>, v: Visit) {
    if log == [] then v == Visit(root, 1.0) else exists j :: 0 <= j < |log| && Parent(h, log[j], v)
  }

  ghost predicate Discovered(h: Heap, root: Id, log: seq<Visit>) {
    log == [] || (Discovered(h, root, log[..|log| - 1]) && Found(h, root, log[..|log| - 1], log[|log| - 1]))
  }

  /** The shallow sizes of the visited objects, each times its weight. */
  ghost function Weighed(h: Heap, log: seq<Visit>): real {
    if log == [] then 0.0
    else
      var last := log[|log| - 1];
      Weighed(h, log[..|log| - 1]) + SizeOf(h, last.id) as real * last.weight
  }

  /** The entries that stand for others in the visited objects. */
  ghost function SampledEntries(h: Heap, log: seq<Visit>): nat {
    if log == [] then 0
    else
      var last := log[|log| - 1];
      SampledEntries(h, log[..|log| - 1]) + if last.id in h then Sampled(h[last.id]) else 0
  }

  ghost function Ids(log: seq<Visit>): set<Id> { set v | v in log :: v.id }

  /** What is left of a frame are children of an object visited before. */
  ghost predicate Source(h: Heap, log: seq<Visit>, f: Frame) {
    f.left == [] || exists j :: 0 <= j < |log| && SourceIs(h, log[j], f)
  }

  ghost predicate SourceIs(h: Heap, u: Visit, f: Frame) {
    u.id in h && Elements(f.left) <= ChildSet(h, u.id) && f.weight == PassedOn(h[u.id], u.weight)
  }

  ghost predicate Sources(h: Heap, log: seq<Visit>, stack: Stack) {
    match stack
    case Empty => true
    case Push(top, below) => Source(h, log, top) && Sources(h, log, below)
  }

  function Begin(root: Id): Stack { Push(Frame([root], false, 1.0), Empty) }

  /** Until something cuts the walk short, its total is that of the discovery so far. */
  ghost predicate Totals(h: Heap, root: Id, log: seq<Visit>, m: Measurement) {
    Discovered(h, root, log) && m.size == Weighed(h, log) && m.sampleSize == SampledEntries(h, log)
  }

  ghost predicate Listed(log: seq<Visit>, news: set<Id>) { Ids(log) == news && |log| == |news| }

  ghost predicate Logged(h: Heap, root: Id, log: seq<Visit>, news: set<Id>, stack: Stack, m: Measurement) {
    && Listed(log, news)
    && (!m.truncated ==> Totals(h, root, log, m) && (Sources(h, log, stack) || (log == [] && stack == Begin(root))))
  }

  /** The same between drawing `v` and dealing with it. */
  ghost predicate LoggedDrawn(h: Heap, root: Id, log: seq<Visit>, news: set<Id>, stack: Stack, v: Visit, m: Measurement) {
    && Listed(log, news)
    && (!m.truncated ==> Totals(h, root, log, m) && Sources(h, log, stack) && Found(h, root, log, v))
  }

  lemma LoggedStart(h: Heap, root: Id, m: Measurement)
    requires m == Measurement(0.0, 0, false, false, false, 0)
    ensures Logged(h, root, [], {}, Begin(root), m)
  {
    assert Ids([]) == {};
  }

  lemma LoggedPop(h: Heap, root: Id, log: seq<Visit>, news: set<Id>, stack: Stack, m: Measurement)
    requires Logged(h, root, log, news, stack, m) && stack.Push? && stack.top.left == []
    ensures Logged(h, root, log, news, stack.below, m)
  {}

  lemma LoggedDraw(h: Heap, root: Id, log: seq<Visit>, news: set<Id>, stack: Stack, m: Measurement)
    requires Logged(h, root, log, news, stack, m) && stack.Push? && stack.top.left != []
    ensures LoggedDrawn(h, root, log, news, Advance(stack), Visit(stack.top.left[0], stack.top.weight), m)
  {
    hide Totals, Listed, ChildSet, PassedOn;
    if !m.truncated {
      var top := stack.top;
      var v := Visit(top.left[0], top.weight);
      if stack == Begin(root) && log == [] {
        assert Advance(stack) == Push(Frame([], false, 1.0), Empty);
        assert Sources(h, log, Empty);
      } else {
        var j :| 0 <= j < |log| && SourceIs(h, log[j], top);
        assert v.id in Elements(top.left) && Elements(top.left[1..]) <= Elements(top.left);
        assert Parent(h, log[j], v);
        assert SourceIs(h, log[j], Advance(stack).top);
      }
    }
  }

  lemma {:induction stack} SourcesRemain(h: Heap, log: seq<Visit>, v: Visit, stack: Stack)
    requires Sources(h, log, stack)
    ensures Sources(h, log + [v], stack)
  {
    if stack.Push? && stack.top.left != [] {
      var j :| 0 <= j < |log| && SourceIs(h, log[j], stack.top);
      assert (log + [v])[j] == log[j];
    }
  }

  lemma ListedAppend(log: seq<Visit>, news: set<Id>, v: Visit)
    requires Listed(log, news) && v.id !in news
    ensures Listed(log + [v], news + {v.id})
  {
    assert v in log + [v] && forall u :: u in log + [v] <==> u in log || u == v;
  }

  lemma TotalsAppend(h: Heap, root: Id, log: seq<Visit>, v: Visit, m: Measurement, m': Measurement)
    requires Totals(h, root, log, m) && Found(h, root, log, v) && v.id in h
    requires m'.size == Counted(m, SizeOf(h, v.id), v.weight).size && m'.sampleSize == m.sampleSize + Sampled(h[v.id])
    ensures Totals(h, root, log + [v], m')
  {
    hide Found, Sampled;
    assert (log + [v])[..|log|] == log;
  }

  /** Visiting `v` and pushing what it passes on. */
  lemma LoggedVisit(h: Heap, root: Id, log: seq<Visit>, news: set<Id>, stack: Stack, v: Visit, m: Measurement, m': Measurement, f: Frame)
    requires LoggedDrawn(h, root, log, news, stack, v, m) && v.id !in news && v.id in h
    requires !m'.truncated ==>
               && !m.truncated && Elements(f.left) <= ChildSet(h, v.id) && f.weight == PassedOn(h[v.id], v.weight)
               && m'.size == Counted(m, SizeOf(h, v.id), v.weight).size && m'.sampleSize == m.sampleSize + Sampled(h[v.id])
    ensures Logged(h, root, log + [v], news + {v.id}, Push(f, stack), m')
  {
    hide Totals, Listed, ChildSet, PassedOn, Found, Counted, Sampled;
    ListedAppend(log, news, v);
    if !m'.truncated {
      TotalsAppend(h, root, log, v, m, m');
      SourcesRemain(h, log, v, stack);
      assert SourceIs(h, (log + [v])[|log|], f);
    }
  }

  /** What one measurement promises: every new object lies in `reach` and is counted once, and without
      sampling the size is the sum of the shallow sizes of the new objects. When nothing cut the walk
      short, no followed edge of a new object leads to an unvisited one, and the size is that of the
      order of discovery. */
  ghost predicate Attributed(h: Heap, root: Id, reach: set<Id>, news: set<Id>, shared: set<Id>, m: Measurement, log: seq<Visit>) {
    && news <= reach
    && m.objects == |news| && Listed(log, news)
    && m.size >= SumSizes(h, news) as real
    && (m.failed ==> m.truncated)
    && (!m.sampled ==> m.size == SumSizes(h, news) as real)
    && (!m.truncated ==>
          && root in shared && (forall x :: x in news ==> ChildSet(h, x) <= shared)
          && Totals(h, root, log, m))
  }

  lemma Finish(h: Heap, root: Id, reach: set<Id>, news: set<Id>, shared: set<Id>, stack: Stack, m: Measurement, log: seq<Visit>)
    requires Going(h, root, reach, news, shared, stack, m, log)
    requires !m.truncated ==> stack == Empty
    ensures Attributed(h, root, reach, news, shared, m, log)
  {
    hide Totals, Listed, Honest;
    if !m.truncated {
      assert shared + Pending(stack) == shared;
    }
  }

  lemma Start(h: Heap, root: Id, reach: set<Id>, shared: set<Id>, m: Measurement)
    requires root in reach && m == Measurement(0.0, 0, false, false, false, 0)
    ensures Tallied(m, 0, SumSizes(h, {})) && Weights(Begin(root), true)
    ensures Explored(h, root, reach, {}, shared, Pending(Begin(root)), true)
  {
    assert root in Elements([root]);
  }

  lemma AfterPop(stack: Stack, unit: bool)
    requires stack.Push? && stack.top.left == [] && Weights(stack, unit)
    ensures Pending(stack) == Pending(stack.below) && PendingCount(stack.below) == PendingCount(stack)
    ensures Weights(stack.below, unit)
  {}

  /** Draw the next object from the topmost iterator. */
  function Advance(stack: Stack): Stack
    requires stack.Push? && stack.top.left != []
  {
    stack.(top := stack.top.(left := stack.top.left[1..]))
  }

  lemma AfterDraw(stack: Stack, unit: bool)
    requires stack.Push? && stack.top.left != [] && Weights(stack, unit)
    ensures Pending(stack) == Pending(Advance(stack)) + {stack.top.left[0]}
    ensures PendingCount(Advance(stack)) < PendingCount(stack)
    ensures Weights(Advance(stack), unit) && stack.top.weight >= 1.0 && (unit ==> stack.top.weight == 1.0)
  {
    assert stack.top.left == [stack.top.left[0]] + stack.top.left[1..];
  }

  lemma ExploredSkip(h: Heap, root: Id, reach: set<Id>, news: set<Id>, shared: set<Id>,
                     pending: set<Id>, pending': set<Id>, x: Id, complete: bool)
    requires Explored(h, root, reach, news, shared, pending, complete)
    requires x in shared && pending == pending' + {x}
    ensures Explored(h, root, reach, news, shared, pending', complete)
  {
    assert shared + pending' == shared + pending;
  }

  /** Visiting `x` and pushing some of its children; all of them, to stay complete. */
  lemma ExploredVisit(h: Heap, root: Id, reach: set<Id>, news: set<Id>, shared: set<Id>,
                      pending: set<Id>, pending': set<Id>, x: Id, kids: set<Id>, complete: bool, complete': bool)
    requires ClosedUnder(h, reach)
    requires Explored(h, root, reach, news, shared, pending, complete)
    requires pending == pending' + {x} && kids <= ChildSet(h, x)
    requires complete' ==> complete && kids == ChildSet(h, x)
    ensures Explored(h, root, reach, news + {x}, shared + {x}, kids + pending', complete')
  {
    assert x in reach && kids <= reach;
    var open := shared + {x} + (kids + pending');
    if complete' {
      assert shared + pending <= open;
      forall y | y in news + {x} ensures ChildSet(h, y) <= open {
        if y != x { assert ChildSet(h, y) <= shared + pending; }
      }
    }
  }

  /** An object's shallow size is counted with the weight of its frame. */
  function Counted(m: Measurement, amount: nat, weight: real): Measurement {
    m.(size := m.size + amount as real * weight, objects := m.objects + 1)
  }

  lemma TalliedVisit(m: Measurement, count: nat, sum: nat, amount: nat, weight: real)
    requires Tallied(m, count, sum)
    requires weight >= 1.0 && (!m.sampled ==> weight == 1.0)
    ensures Tallied(Counted(m, amount, weight), count + 1, sum + amount)
    ensures Counted(m, amount, weight) == m.(size := Counted(m, amount, weight).size, objects := m.objects + 1)
  {
    WeightedAtLeast(amount, weight);
  }

  /** Sampling and truncation do not change what was tallied. */
  lemma TalliedFlags(m: Measurement, m': Measurement, count: nat, sum: nat)
    requires Tallied(m, count, sum)
    requires m' == m.(sampled := m'.sampled, truncated := m'.truncated, sampleSize := m'.sampleSize)
    requires (m.sampled ==> m'.sampled) && (m.truncated ==> m'.truncated)
    ensures Tallied(m', count, sum) && Tallied(m'.(truncated := true), count, sum)
    ensures m'.failed ==> m'.truncated
    ensures Tallied(m'.(truncated := true, failed := true), count, sum)
  {}

  lemma ExploredInside(h: Heap, root: Id, reach: set<Id>, news: set<Id>, shared: set<Id>, pending: set<Id>, complete: bool)
    requires Explored(h, root, reach, news, shared, pending, complete)
    ensures pending <= reach && Explored(h, root, reach, news, shared, pending, false)
  {}

  lemma ExploredLess(h: Heap, root: Id, reach: set<Id>, news: set<Id>, shared: set<Id>, pending: set<Id>, less: set<Id>)
    requires Explored(h, root, reach, news, shared, pending, false) && less <= pending
    ensures Explored(h, root, reach, news, shared, less, false)
  {}

  lemma {:induction stack} WeightsWeaken(stack: Stack)
    requires Weights(stack, true)
    ensures Weights(stack, false)
  {}

  lemma AfterPush(stack: Stack, f: Frame, unit: bool, unit': bool)
    requires Weights(stack, unit) && (unit' ==> unit)
    requires f.weight >= 1.0 && (unit' ==> f.weight == 1.0)
    ensures Weights(Push(f, stack), unit')
    ensures Pending(Push(f, stack)) == Elements(f.left) + Pending(stack)
  {
    if unit && !unit' { WeightsWeaken(stack); }
  }

  function MinReal(a: real, b: real): (m: real)
    ensures m <= a && m <= b && (m == a || m == b)
  {
    if a <= b then a else b
  }

  // ---------- why a walk stops or samples ----------

  /** A clock reading numbered from `from` up to `to` is at or past the limit. */
  ghost predicate Late(clock: nat -> real, from: nat, to: nat, limit: real) {
    exists t: nat :: from <= t < to && clock(t) >= limit
  }

  lemma LateSplits(clock: nat -> real, a: nat, b: nat, c: nat, limit: real)
    requires a <= b <= c
    ensures Late(clock, a, c, limit) <==> Late(clock, a, b, limit) || Late(clock, b, c, limit)
  {
    if t: nat :| a <= t < c && clock(t) >= limit { assert t < b || b <= t; }
  }

  lemma NothingRead(clock: nat -> real, t: nat, limit: real)
    ensures !Late(clock, t, t, limit)
  {}

  lemma OneReading(clock: nat -> real, t: nat, limit: real)
    ensures Late(clock, t, t + 1, limit) <==> clock(t) >= limit
  {}

  /** Every visited object has a size. */
  ghost predicate Sized(h: Heap, s: set<Id>) { forall x :: x in s ==> x in h && h[x].size.Some? }

  lemma SizedAdd(h: Heap, s: set<Id>, x: Id)
    requires Sized(h, s) && x in h && h[x].size.Some?
    ensures Sized(h, s + {x})
  {}

  /** Measuring it raises. */
  predicate Broken(n: Node) { n.size.None? || n.fails }

  ghost predicate HasLarge(h: Heap, s: set<Id>) { exists x :: x in s && x in h && Large(h[x]) }

  ghost predicate HasBroken(h: Heap, s: set<Id>) { exists x :: x in s && x in h && Broken(h[x]) }

  ghost predicate HasFailing(h: Heap, s: set<Id>) { exists x :: x in s && x in h && h[x].fails }

  /** An iterator on the stack will raise. */
  ghost predicate Failing(stack: Stack) {
    match stack
    case Empty => false
    case Push(top, below) => top.fails || Failing(below)
  }

  /** The flags tell what was met: a walk samples exactly when it visits a large container, fails only on an
      object that cannot be measured, and overlooks no visited object whose iteration raises. */
  ghost predicate Honest(h: Heap, reach: set<Id>, news: set<Id>, m: Measurement, failing: bool) {
    && (m.sampled <==> HasLarge(h, news))
    && (m.failed || failing ==> HasBroken(h, reach))
    && (HasFailing(h, news) ==> m.truncated || failing)
  }

  lemma HonestVisit(h: Heap, reach: set<Id>, news: set<Id>, x: Id, m: Measurement, m': Measurement, failing: bool, failing': bool)
    requires Honest(h, reach, news, m, failing) && x in h && x in reach
    requires m'.sampled == (m.sampled || Large(h[x])) && (m.truncated ==> m'.truncated)
    requires (failing ==> failing') && (failing' ==> failing || h[x].fails)
    requires m'.failed ==> m.failed || h[x].fails
    requires h[x].fails ==> m'.truncated || failing'
    ensures Honest(h, reach, news + {x}, m', failing')
  {}

  lemma HonestStop(h: Heap, reach: set<Id>, news: set<Id>, m: Measurement, m': Measurement, failing: bool)
    requires Honest(h, reach, news, m, failing)
    requires m'.sampled == m.sampled && m'.truncated && (m'.failed ==> m.failed || HasBroken(h, reach))
    ensures Honest(h, reach, news, m', failing) && Honest(h, reach, news, m', false)
  {}

  /** The clock's part in cutting a walk short; `full` is whether it stopped at a full visited set. */
  ghost predicate Timed(clock: nat -> real, from: nat, to: nat, limit: real, m: Measurement, full: bool) {
    && (Late(clock, from, to, limit) ==> m.truncated)
    && (m.truncated && !m.failed ==> Late(clock, from, to, limit) || full)
  }

  lemma TimedStart(clock: nat -> real, t: nat, limit: real, m: Measurement)
    requires !m.truncated
    ensures Timed(clock, t, t, limit, m, false)
  {}

  lemma TimedRead(clock: nat -> real, from: nat, t: nat, limit: real, m: Measurement, full: bool)
    requires Timed(clock, from, t, limit, m, full) && from <= t
    ensures if clock(t) >= limit then Timed(clock, from, t + 1, limit, m.(truncated := true), full)
            else Timed(clock, from, t + 1, limit, m, full)
    ensures Timed(clock, from, t + 1, limit, m.(truncated := true, failed := true), full)
  {
    hide Late;
    LateSplits(clock, from, t, t + 1, limit);
    OneReading(clock, t, limit);
  }

  lemma TimedFull(clock: nat -> real, from: nat, t: nat, limit: real, m: Measurement)
    requires Timed(clock, from, t, limit, m, false)
    ensures Timed(clock, from, t, limit, m.(truncated := true), true)
  {}

  lemma TimedFailed(clock: nat -> real, from: nat, t: nat, limit: real, m: Measurement, full: bool)
    requires m.failed && m.truncated
    ensures Timed(clock, from, t, limit, m, full)
  {}

  lemma TimedCharge(clock: nat -> real, from: nat, a: nat, b: nat, limit: real, m: Measurement, m': Measurement, full: bool)
    requires Timed(clock, from, a, limit, m, false) && from <= a <= b && !m.failed
    requires m.truncated || Late(clock, a, b, limit) ==> m'.truncated
    requires m'.truncated && !m'.failed ==> m.truncated || Late(clock, a, b, limit) || full
    ensures Timed(clock, from, b, limit, m', full)
  {
    hide Late;
    LateSplits(clock, from, a, b, limit);
  }

  lemma TimedCaused(clock: nat -> real, from: nat, to: nat, limit: real, m: Measurement, full: bool)
    requires Timed(clock, from, to, limit, m, full)
    ensures (Late(clock, from, to, limit) ==> m.truncated) && (m.truncated && !m.failed ==> Late(clock, from, to, limit) || full)
  {}

  lemma HonestStart(h: Heap, reach: set<Id>, m: Measurement, root: Id)
    requires m == Measurement(0.0, 0, false, false, false, 0)
    ensures Honest(h, reach, {}, m, Failing(Begin(root)))
  {
    assert !Failing(Empty);
  }

  lemma EmptyNotFailing()
    ensures !Failing(Empty)
  {}

  lemma PopFailing(stack: Stack)
    requires stack.Push?
    ensures Failing(stack) <==> stack.top.fails || Failing(stack.below)
  {}

  lemma DrawFailing(stack: Stack)
    requires stack.Push? && stack.top.left != []
    ensures Failing(Advance(stack)) <==> Failing(stack)
  {}

  lemma FailingIsBroken(h: Heap, reach: set<Id>, news: set<Id>, m: Measurement, stack: Stack)
    requires Honest(h, reach, news, m, Failing(stack)) && Failing(stack)
    ensures HasBroken(h, reach)
  {}

  lemma BrokenAt(h: Heap, s: set<Id>, x: Id)
    requires x in s && x in h && Broken(h[x])
    ensures HasBroken(h, s)
  {}

  /** A walk is cut short only by a late clock reading, by a full visited set while something is unvisited,
      or by an object that cannot be measured; and a late reading always cuts it short. */
  ghost predicate Caused(h: Heap, clock: nat -> real, from: nat, to: nat, limit: real, reach: set<Id>, news: set<Id>,
                         shared: set<Id>, maxObjects: nat, m: Measurement) {
    && Honest(h, reach, news, m, false)
    && (m.truncated ==> Late(clock, from, to, limit) || Full(reach, shared, maxObjects) || m.failed)
    && (Late(clock, from, to, limit) ==> m.truncated)
  }

  ghost predicate Full(reach: set<Id>, shared: set<Id>, maxObjects: nat) { |shared| == maxObjects && !(reach <= shared) }

  // ---------- the steps of the walk ----------

  /** Everything that every iteration of the walk keeps. */
  ghost predicate Going(h: Heap, root: Id, reach: set<Id>, news: set<Id>, shared: set<Id>, stack: Stack, m: Measurement, log: seq<Visit>) {
    && Explored(h, root, reach, news, shared, Pending(stack), !m.truncated)
    && Tallied(m, |news|, SumSizes(h, news)) && Weights(stack, !m.sampled)
    && Honest(h, reach, news, m, Failing(stack))
    && Logged(h, root, log, news, stack, m)
  }

  /** The same between drawing `v` and dealing with it. */
  ghost predicate Drawn(h: Heap, root: Id, reach: set<Id>, news: set<Id>, shared: set<Id>, stack: Stack, v: Visit, m: Measurement,
                        log: seq<Visit>) {
    && Explored(h, root, reach, news, shared, Pending(stack) + {v.id}, !m.truncated)
    && Tallied(m, |news|, SumSizes(h, news)) && Weights(stack, !m.sampled)
    && v.weight >= 1.0 && (!m.sampled ==> v.weight == 1.0)
    && Honest(h, reach, news, m, Failing(stack))
    && LoggedDrawn(h, root, log, news, stack, v, m)
  }

  lemma Begins(h: Heap, root: Id, reach: set<Id>, shared: set<Id>, m: Measurement)
    requires root in reach && m == Measurement(0.0, 0, false, false, false, 0)
    ensures Going(h, root, reach, {}, shared, Begin(root), m, [])
  {
    hide Explored, Tallied, Honest, Logged, Weights, Pending, Failing;
    Start(h, root, reach, shared, m);
    HonestStart(h, reach, m, root);
    LoggedStart(h, root, m);
  }

  lemma Pops(h: Heap, root: Id, reach: set<Id>, news: set<Id>, shared: set<Id>, stack: Stack, m: Measurement, log: seq<Visit>)
    requires Going(h, root, reach, news, shared, stack, m, log) && stack.Push? && stack.top.left == [] && !stack.top.fails
    ensures Going(h, root, reach, news, shared, stack.below, m, log)
    ensures PendingCount(stack.below) == PendingCount(stack)
  {
    hide Explored, Tallied, Honest, Logged, Weights, Pending, Failing, PendingCount;
    AfterPop(stack, !m.sampled);
    PopFailing(stack);
    LoggedPop(h, root, log, news, stack, m);
  }

  lemma Draws(h: Heap, root: Id, reach: set<Id>, news: set<Id>, shared: set<Id>, stack: Stack, m: Measurement, log: seq<Visit>)
    requires Going(h, root, reach, news, shared, stack, m, log) && stack.Push? && stack.top.left != []
    ensures Drawn(h, root, reach, news, shared, Advance(stack), Visit(stack.top.left[0], stack.top.weight), m, log)
    ensures stack.top.left[0] in reach && stack.top.weight >= 1.0
    ensures PendingCount(Advance(stack)) < PendingCount(stack)
  {
    hide Explored, Tallied, Honest, Logged, LoggedDrawn, Weights, Pending, Failing, PendingCount, Advance;
    AfterDraw(stack, !m.sampled);
    DrawFailing(stack);
    LoggedDraw(h, root, log, news, stack, m);
    ExploredInside(h, root, reach, news, shared, Pending(stack), !m.truncated);
  }

  lemma Skips(h: Heap, root: Id, reach: set<Id>, news: set<Id>, shared: set<Id>, stack: Stack, v: Visit, m: Measurement, log: seq<Visit>)
    requires Drawn(h, root, reach, news, shared, stack, v, m, log) && v.id in shared
    ensures Going(h, root, reach, news, shared, stack, m, log)
  {
    hide Explored, Tallied, Honest, Weights, Pending, Failing, Totals, Listed, Sources, Found;
    ExploredSkip(h, root, reach, news, shared, Pending(stack) + {v.id}, Pending(stack), v.id, !m.truncated);
  }

  /** Cutting the walk short, because of a broken object if it failed. */
  lemma Stops(h: Heap, root: Id, reach: set<Id>, news: set<Id>, shared: set<Id>, stack: Stack, m: Measurement, m': Measurement, log: seq<Visit>)
    requires Going(h, root, reach, news, shared, stack, m, log)
    requires m' == m.(truncated := true, failed := m'.failed) && (m'.failed ==> m.failed || HasBroken(h, reach)) && (m.failed ==> m'.failed)
    ensures Going(h, root, reach, news, shared, stack, m', log)
  {
    hide Explored, Tallied, Honest, Weights, Pending, Failing, HasBroken, Totals, Listed, Sources;
    TalliedFlags(m, m, |news|, SumSizes(h, news));
    assert m' == m.(truncated := true) || m' == m.(truncated := true, failed := true);
    HonestStop(h, reach, news, m, m', Failing(stack));
    ExploredInside(h, root, reach, news, shared, Pending(stack), !m.truncated);
  }

  lemma DrawnStops(h: Heap, root: Id, reach: set<Id>, news: set<Id>, shared: set<Id>, stack: Stack, v: Visit, m: Measurement,
                   m': Measurement, log: seq<Visit>)
    requires Drawn(h, root, reach, news, shared, stack, v, m, log)
    requires m' == m.(truncated := true, failed := m'.failed) && (m'.failed ==> m.failed || HasBroken(h, reach)) && (m.failed ==> m'.failed)
    ensures Going(h, root, reach, news, shared, stack, m', log)
  {
    hide Explored, Tallied, Honest, Weights, Pending, Failing, HasBroken, Totals, Listed, Sources, Found;
    TalliedFlags(m, m, |news|, SumSizes(h, news));
    assert m' == m.(truncated := true) || m' == m.(truncated := true, failed := true);
    HonestStop(h, reach, news, m, m', Failing(stack));
    ExploredInside(h, root, reach, news, shared, Pending(stack) + {v.id}, !m.truncated);
    ExploredLess(h, root, reach, news, shared, Pending(stack) + {v.id}, Pending(stack));
  }

  /** What pushing the children of `v` does to the measurement that counted its size. */
  ghost predicate Expanded(h: Heap, v: Visit, m: Measurement, m': Measurement, f: Frame, raised: bool) {
    && v.id in h
    && m' == m.(sampled := m.sampled || Large(h[v.id]), truncated := m'.truncated, sampleSize := m'.sampleSize)
    && (m.truncated ==> m'.truncated)
    && f.weight >= 1.0 && Elements(f.left) <= ChildSet(h, v.id)
    && (!m'.sampled ==> f.weight == v.weight)
    && (!m'.truncated && !raised ==>
          && Elements(f.left) == ChildSet(h, v.id) && f.weight == PassedOn(h[v.id], v.weight)
          && m'.sampleSize == m.sampleSize + Sampled(h[v.id]))
    && f.fails == (h[v.id].fails && !Large(h[v.id]))
    && (raised ==> h[v.id].fails && Large(h[v.id]))
    && (h[v.id].fails && Large(h[v.id]) && !raised ==> m'.truncated)
  }

  /** Visiting `v`: its size is counted, then its children are pushed, sampled or not. */
  lemma Visits(h: Heap, root: Id, reach: set<Id>, news: set<Id>, shared: set<Id>, stack: Stack, v: Visit, m: Measurement,
               m1: Measurement, f: Frame, raised: bool, log: seq<Visit>)
    requires Drawn(h, root, reach, news, shared, stack, v, m, log)
    requires v.id in h && h[v.id].size.Some? && v.id in reach && v.id !in news && ClosedUnder(h, reach)
    requires Expanded(h, v, Counted(m, SizeOf(h, v.id), v.weight), m1, f, raised)
    ensures var m' := if raised then m1.(truncated := true, failed := true) else m1;
            Going(h, root, reach, news + {v.id}, shared + {v.id}, Push(f, stack), m', log + [v])
  {
    hide Explored, Tallied, ClosedUnder, Pending, Weights, Elements, ChildSet, Honest, Failing, Large, Counted, SumSizes;
    hide Logged, LoggedDrawn, PassedOn, Sampled;
    var sum := SumSizes(h, news);
    var counted, m' := Counted(m, SizeOf(h, v.id), v.weight), if raised then m1.(truncated := true, failed := true) else m1;
    SumAdd(h, news, v.id);
    TalliedVisit(m, |news|, sum, SizeOf(h, v.id), v.weight);
    TalliedFlags(counted, m1, |news| + 1, sum + SizeOf(h, v.id));
    AfterPush(stack, f, !m.sampled, !m1.sampled);
    ExploredVisit(h, root, reach, news, shared, Pending(stack) + {v.id}, Pending(stack), v.id, Elements(f.left), !m.truncated, !m'.truncated);
    PopFailing(Push(f, stack));
    HonestVisit(h, reach, news, v.id, m, m', Failing(stack), Failing(Push(f, stack)));
    LoggedVisit(h, root, log, news, stack, v, m, m', f);
  }

  lemma ScannedIsSample(entries: seq<Entry>, i: nat, truncated: bool, chosen: seq<Entry>)
    requires ScannedTo(entries, i, truncated, chosen) && entries != []
    ensures forall e :: e in chosen ==> e in Sample(entries)
    ensures !truncated ==> chosen == Sample(entries)
  {
    hide SelectedOf;
    assert entries[..|entries|] == entries;
    forall e | e in SelectedOf(entries[..i]) ensures e in SelectedOf(entries) {
      SelectedOfIsFilter(entries[..i], e);
      SelectedOfIsFilter(entries, e);
    }
  }

  lemma NothingFlat()
    ensures Flatten([]) == [] && Elements([]) == {}
  {}

  lemma SizeIs(h: Heap, x: Id)
    requires x in h && h[x].size.Some?
    ensures SizeOf(h, x) == h[x].size.value
  {}

  lemma CountedFlags(m: Measurement, amount: nat, weight: real)
    ensures var m' := Counted(m, amount, weight);
            m'.truncated == m.truncated && m'.failed == m.failed && m'.sampled == m.sampled && m'.sampleSize == m.sampleSize
  {}

  lemma TopIsBroken(h: Heap, root: Id, reach: set<Id>, news: set<Id>, shared: set<Id>, stack: Stack, m: Measurement, log: seq<Visit>)
    requires Going(h, root, reach, news, shared, stack, m, log) && stack.Push? && stack.top.fails
    ensures HasBroken(h, reach)
  {
    hide Explored, Tallied, Weights, Logged, Pending;
    PopFailing(stack);
    FailingIsBroken(h, reach, news, m, stack);
  }

  lemma WalkEnds(h: Heap, root: Id, reach: set<Id>, news: set<Id>, shared: set<Id>, stack: Stack, m: Measurement, log: seq<Visit>)
    requires Going(h, root, reach, news, shared, stack, m, log) && (!m.truncated ==> stack == Empty)
    ensures Honest(h, reach, news, m, false) && m.objects == |news|
  {
    hide Explored, Weights, Logged, Pending;
    if m.truncated { HonestStop(h, reach, news, m, m, Failing(stack)); } else { EmptyNotFailing(); }
  }

  /** The budget and the visited set that `run_census` threads through its targets. */
  class Walk {
    const heap: Heap
    /** Successive readings of `time.monotonic`, in any order. */
    const clock: nat -> real
    const maxObjects: nat
    const deadline: real
    var ticks: nat
    var visits: nat
    var shared: set<Id>

    constructor (heap: Heap, clock: nat -> real, maxObjects: nat, budgetSeconds: real)
      ensures this.heap == heap && this.clock == clock && this.maxObjects == maxObjects
      ensures deadline == clock(0) + budgetSeconds && ticks == 1
      ensures visits == 0 && shared == {}
    {
      this.heap, this.clock, this.maxObjects := heap, clock, maxObjects;
      deadline := clock(0) + budgetSeconds;
      ticks, visits, shared := 1, 0, {};
    }

    ghost predicate Valid()
      reads this
    {
      && shared <= heap.Keys
      && |shared| <= maxObjects
      && Sized(heap, shared)
    }

    /** Read the clock. */
    method Now() returns (t: real)
      modifies `ticks
      ensures t == clock(old(ticks)) && ticks == old(ticks) + 1
    {
      t := clock(ticks);
      ticks := ticks + 1;
    }

    /** Choose the entries of a large container to follow, and the extrapolation factor.
        `raised` when the container's own iterator raised before the deadline stopped the scan. */
    method SampledChildren(entries: seq<Entry>, fails: bool, m: Measurement, limit: real)
      returns (chosen: seq<Entry>, factor: real, m': Measurement, raised: bool)
      requires |entries| > SAMPLE_THRESHOLD
      modifies `ticks
      ensures !raised ==> exists i: nat :: ScannedTo(entries, i, m'.truncated, chosen)
      ensures forall e :: e in chosen ==> e in entries
      ensures raised ==> fails && m' == m && chosen == []
      ensures !raised ==> m' == m.(truncated := m'.truncated, sampleSize := m.sampleSize + |chosen|)
      ensures m.truncated ==> m'.truncated
      ensures fails && !raised ==> m'.truncated
      ensures ticks > old(ticks)
      ensures m'.truncated <==> m.truncated || Late(clock, old(ticks), ticks, limit)
      ensures factor == if chosen == [] then 1.0 else |entries| as real / |chosen| as real
      ensures factor >= 1.0
    {
      hide Selected, Late;
      NothingRead(clock, ticks, limit);
      chosen, factor, m', raised := [], 1.0, m, false;
      var i := 0;
      while i < |entries|
        invariant 0 <= i <= |entries|
        invariant m' == m && ticks == old(ticks) + i && !Late(clock, old(ticks), ticks, limit)
        invariant chosen == SelectedOf(entries[..i])
        invariant |chosen| <= i
        invariant forall e :: e in chosen ==> e in entries
      {
        var now := Now();
        LateSplits(clock, old(ticks), ticks - 1, ticks, limit);
        OneReading(clock, ticks - 1, limit);
        if now >= limit {
          m' := m'.(truncated := true);
          break;
        }
        SelectedOfAppend(entries[..i], entries[i]);
        assert entries[..i + 1] == entries[..i] + [entries[i]];
        if Selected(entries[i]) {
          chosen := chosen + [entries[i]];
        }
        i := i + 1;
      }
      assert i == |entries| ==> entries[..i] == entries;
      if i == |entries| && fails {
        raised, chosen := true, [];
        return;
      }
      if chosen == [] && !m'.truncated {
        chosen := [entries[0]];
      }
      assert ScannedTo(entries, i, m'.truncated, chosen);
      m' := m'.(sampleSize := m'.sampleSize + |chosen|);
      if chosen != [] {
        factor := |entries| as real / |chosen| as real;
        FactorAtLeastOne(|entries|, |chosen|);
      }
    }

    /** The child iterator of a newly visited object: sampled when the object is a large container. */
    method Expand(current: Id, weight: real, limit: real, m: Measurement)
      returns (m': Measurement, f: Frame, raised: bool)
      requires current in heap && weight >= 1.0
      modifies `ticks
      ensures Expanded(heap, Visit(current, weight), m, m', f, raised)
      ensures ticks >= old(ticks) && (m'.truncated <==> m.truncated || Late(clock, old(ticks), ticks, limit))
    {
      hide Late, ScannedTo, SelectedOf, Flatten;
      NothingRead(clock, ticks, limit);
      var node := heap[current];
      if node.shape.Container? && |node.shape.entries| > SAMPLE_THRESHOLD {
        var entries, chosen, factor := node.shape.entries, [], 1.0;
        chosen, factor, m', raised := SampledChildren(entries, node.fails, m.(sampled := true), limit);
        FactorScales(weight, factor);
        f := Frame(Flatten(chosen), false, weight * factor);
        if raised {
          NothingFlat();
        } else {
          ghost var i: nat :| ScannedTo(entries, i, m'.truncated, chosen);
          ScannedIsSample(entries, i, m'.truncated, chosen);
          FlattenSubset(chosen, Sample(entries));
        }
      } else {
        m', raised := m, false;
        f := Frame(Children(node), node.fails, weight);
      }
    }

    /** Charge `current` to this target and push its children. */
    method Take(current: Id, weight: real, limit: real, m: Measurement, stack: Stack,
                ghost root: Id, ghost reach: set<Id>, ghost news: set<Id>, ghost log: seq<Visit>)
      returns (m': Measurement, stack': Stack)
      requires Valid() && |shared| < maxObjects
      requires current in heap && current !in shared && heap[current].size.Some?
      requires ClosedUnder(heap, reach) && current in reach && news <= shared && weight >= 1.0 && !m.failed
      requires Drawn(heap, root, reach, news, shared, stack, Visit(current, weight), m, log)
      modifies `shared, `ticks
      ensures Valid() && shared == old(shared) + {current}
      ensures Going(heap, root, reach, news + {current}, shared, stack', m', log + [Visit(current, weight)])
      ensures m'.failed ==> m'.truncated
      ensures ticks >= old(ticks) && (m.truncated || Late(clock, old(ticks), ticks, limit) ==> m'.truncated)
      ensures m'.truncated ==> m.truncated || m'.failed || Late(clock, old(ticks), ticks, limit)
    {
      hide Going, Drawn, ClosedUnder, Late, Sized, ChildSet, Elements, PassedOn, Sampled, Large, SizeOf, Counted;
      SizedAdd(heap, shared, current);
      SizeIs(heap, current);
      var counted := Counted(m, heap[current].size.value, weight);
      CountedFlags(m, heap[current].size.value, weight);
      var f, raised;
      m', f, raised := Expand(current, weight, limit, counted);
      Visits(heap, root, reach, news, shared, stack, Visit(current, weight), m, m', f, raised, log);
      stack' := Push(f, stack);
      shared := shared + {current};
      if raised {
        m' := m'.(truncated := true, failed := true);
      }
    }

    /** One drawn object: skip it when visited, stop at the budget or on an unreadable size,
        visit it otherwise. */
    method Charge(current: Id, weight: real, limit: real, m: Measurement, stack: Stack,
                  ghost root: Id, ghost reach: set<Id>, ghost news: set<Id>, ghost log: seq<Visit>, ghost from: nat)
      returns (m': Measurement, stack': Stack, stop: bool, ghost news': set<Id>, ghost log': seq<Visit>, ghost full: bool)
      requires Valid() && current in heap && !m.failed
      requires ClosedUnder(heap, reach) && current in reach && news <= shared && weight >= 1.0
      requires Drawn(heap, root, reach, news, shared, stack, Visit(current, weight), m, log)
      requires Timed(clock, from, ticks, limit, m, false) && from <= ticks
      modifies `shared, `ticks
      ensures Valid()
      ensures Going(heap, root, reach, news', shared, stack', m', log')
      ensures ticks >= old(ticks) && Timed(clock, from, ticks, limit, m', full) && (full ==> stop && Full(reach, shared, maxObjects))
      ensures (m'.failed ==> stop) && (stop ==> m'.truncated)
      ensures if news' == news then shared == old(shared) && (stop || stack' == stack)
              else current !in old(shared) && news' == news + {current} && shared == old(shared) + {current} && |shared| == |old(shared)| + 1
    {
      hide Going, Drawn, ClosedUnder, Late, Sized, Timed;
      m', stack', stop, news', log', full := m, stack, false, news, log, false;
      if current in shared {
        Skips(heap, root, reach, news, shared, stack, Visit(current, weight), m, log);
        return;
      }
      if |shared| >= maxObjects {
        m', stop, full := m.(truncated := true), true, true;
        TimedFull(clock, from, ticks, limit, m);
        DrawnStops(heap, root, reach, news, shared, stack, Visit(current, weight), m, m', log);
        return;
      }
      if heap[current].size.None? {
        m', stop := m.(truncated := true, failed := true), true;
        TimedFailed(clock, from, ticks, limit, m', false);
        BrokenAt(heap, reach, current);
        DrawnStops(heap, root, reach, news, shared, stack, Visit(current, weight), m, m', log);
        return;
      }
      m', stack' := Take(current, weight, limit, m, stack, root, reach, news, log);
      news', log', stop := news + {current}, log + [Visit(current, weight)], m'.failed;
      TimedCharge(clock, from, old(ticks), ticks, limit, m, m', false);
    }

    /** Walk everything reachable from `root` that no earlier target was charged for. `reach` is
        any set around the root that no edge leaves, such as the set of reachable objects. */
    method Measure(root: Id, deadline: real, ghost reach: set<Id>) returns (m: Measurement, ghost log: seq<Visit>)
      requires Valid()
      requires root in reach && reach <= heap.Keys && ClosedUnder(heap, reach)
      modifies this
      ensures Valid() && old(shared) <= shared
      ensures Attributed(heap, root, reach, shared - old(shared), shared, m, log)
      ensures Caused(heap, clock, old(ticks), ticks, MinReal(deadline, this.deadline), reach, shared - old(shared), shared, maxObjects, m)
      // Every draw follows a clock reading, and every object is drawn.
      ensures ticks - old(ticks) >= visits - old(visits) >= m.objects && ticks > old(ticks)
    {
      hide Going, Drawn, Attributed, ClosedUnder, Late, Full, Timed, Sized, MinReal, PendingCount, Advance, Honest, Failing;
      ghost var news: set<Id> := {};
      m, log := Measurement(0.0, 0, false, false, false, 0), [];
      var limit := MinReal(deadline, this.deadline);
      var stack := Begin(root);
      var stop := false;
      ghost var full := false;
      Begins(heap, root, reach, shared, m);
      TimedStart(clock, ticks, limit, m);
      while stack != Empty && !stop
        invariant Valid()
        invariant old(shared) <= shared && news == shared - old(shared)
        invariant Going(heap, root, reach, news, shared, stack, m, log)
        invariant stop ==> m.truncated
        invariant m.failed ==> stop
        invariant Timed(clock, old(ticks), ticks, limit, m, full) && (full ==> stop && Full(reach, shared, maxObjects))
        invariant ticks - old(ticks) >= visits - old(visits) >= |news|
        invariant ticks == old(ticks) ==> stack != Empty && !stop
        decreases !stop, maxObjects - |shared|, PendingCount(stack), stack
      {
        ghost var read := ticks;
        var now := Now();
        TimedRead(clock, old(ticks), read, limit, m, false);
        if now >= limit {
          Stops(heap, root, reach, news, shared, stack, m, m.(truncated := true), log);
          m, stop := m.(truncated := true), true;
        } else if stack.top.left == [] {
          if stack.top.fails {
            TopIsBroken(heap, root, reach, news, shared, stack, m, log);
            Stops(heap, root, reach, news, shared, stack, m, m.(truncated := true, failed := true), log);
            m, stop := m.(truncated := true, failed := true), true;
          } else {
            Pops(heap, root, reach, news, shared, stack, m, log);
            stack := stack.below;
          }
        } else {
          Draws(heap, root, reach, news, shared, stack, m, log);
          var current, weight := stack.top.left[0], stack.top.weight;
          stack := Advance(stack);
          visits := visits + 1;
          m, stack, stop, news, log, full := Charge(current, weight, limit, m, stack, root, reach, news, log, old(ticks));
        }
      }
      Finish(heap, root, reach, news, shared, stack, m, log);
      WalkEnds(heap, root, reach, news, shared, stack, m, log);
      TimedCaused(clock, old(ticks), ticks, limit, m, full);
    }
  }

  // ---------- the census over all targets ----------

  /** What a target's getter does. */
  datatype Got = Raises | Missing | LruCache(currentSize: nat) | Object(root: Id)

  datatype Target = Target(name: string, got: Got)

  datatype Row = Row(
    name: string, entries: Option<nat>, uniqueKb: Option<real>, objects: nat, truncated: bool,
    missing: bool, sampled: bool, sampleSize: nat)

  datatype Report =
    | SkippedLowHeadroom
    | Census(rows: seq<Row>, visitedObjects: nat, visits: nat, errors: nat)

  predicate Clean(r: Row) { !r.truncated }

  ghost predicate AllClean(rows: seq<Row>) {
    rows == [] || (AllClean(rows[..|rows| - 1]) && Clean(rows[|rows| - 1]))
  }

  ghost predicate NoneSampled(rows: seq<Row>) {
    rows == [] || (NoneSampled(rows[..|rows| - 1]) && !rows[|rows| - 1].sampled)
  }

  ghost function SumKb(h: Heap, s: set<Id>): real {
    SumSizes(h, s) as real / 1024.0
  }

  function TotalObjects(rows: seq<Row>): nat {
    if rows == [] then 0 else TotalObjects(rows[..|rows| - 1]) + rows[|rows| - 1].objects
  }

  function Kb(r: Row): real { if r.uniqueKb.Some? then r.uniqueKb.value else 0.0 }

  function TotalKb(rows: seq<Row>): real {
    if rows == [] then 0.0 else TotalKb(rows[..|rows| - 1]) + Kb(rows[|rows| - 1])
  }

  ghost function ReachOf(h: Heap, t: Target): set<Id> {
    if t.got.Object? then ReachSet(h, t.got.root) else {}
  }

  /** Everything that one of the targets reaches. */
  ghost function ReachOfAll(h: Heap, targets: seq<Target>): set<Id> {
    if targets == [] then {}
    else ReachOfAll(h, targets[..|targets| - 1]) + ReachOf(h, targets[|targets| - 1])
  }

  /** What target `i` is charged for: everything it reaches that no earlier target does. */
  ghost function FirstReached(h: Heap, targets: seq<Target>, i: nat): set<Id>
    requires i < |targets|
  {
    ReachOf(h, targets[i]) - ReachOfAll(h, targets[..i])
  }

  ghost predicate Rooted(h: Heap, targets: seq<Target>) {
    forall t :: t in targets && t.got.Object? ==> t.got.root in h
  }

  lemma {:induction false} ReachOfAllClosed(h: Heap, targets: seq<Target>)
    requires Closed(h) && Rooted(h, targets)
    ensures ClosedUnder(h, ReachOfAll(h, targets))
  {
    if targets != [] {
      var last := targets[|targets| - 1];
      ReachOfAllClosed(h, targets[..|targets| - 1]);
      if last.got.Object? { ReachSetIsClosed(h, last.got.root); }
      var rest := ReachOfAll(h, targets[..|targets| - 1]);
      forall x | x in ReachOfAll(h, targets) ensures ChildSet(h, x) <= ReachOfAll(h, targets) {
        if x in rest { assert ChildSet(h, x) <= rest; } else { assert ChildSet(h, x) <= ReachOf(h, last); }
      }
    }
  }

  lemma {:induction false} SumDisjoint(h: Heap, a: set<Id>, b: set<Id>)
    requires a !! b
    ensures SumSizes(h, a + b) == SumSizes(h, a) + SumSizes(h, b)
    decreases b
  {
    if b == {} {
      assert a + b == a;
    } else {
      var x :| x in b;
      SumRemove(h, b, x);
      SumRemove(h, a + b, x);
      assert a + b - {x} == a + (b - {x});
      SumDisjoint(h, a, b - {x});
    }
  }

  /** A walk that nothing cut short, from a closed visited set, adds exactly what is newly reachable. */
  lemma CleanWalkReachesAll(h: Heap, root: Id, before: set<Id>, shared: set<Id>, m: Measurement, log: seq<Visit>)
    requires Closed(h) && root in h && ClosedUnder(h, before) && before <= shared
    requires Attributed(h, root, ReachSet(h, root), shared - before, shared, m, log)
    requires !m.truncated
    ensures shared == before + ReachSet(h, root)
  {
    forall x | x in shared ensures ChildSet(h, x) <= shared {
      if x in before { assert ChildSet(h, x) <= before; }
    }
    forall x | x in ReachSet(h, root) ensures x in shared {
      ClosedHoldsReachable(h, shared, root, x);
    }
  }

  /** What a row says, given the visited set before and after its target and the order of discovery. */
  ghost predicate RowOk(h: Heap, row: Row, t: Target, before: set<Id>, shared: set<Id>, log: seq<Visit>) {
    var news := shared - before;
    && before <= shared
    && row.name == t.name
    && row.objects == |news|
    && news <= ReachOf(h, t)
    && Kb(row) >= SumKb(h, news)
    && (!row.sampled ==> Kb(row) == SumKb(h, news))
    && (Clean(row) && ClosedUnder(h, before) ==> shared == before + ReachOf(h, t))
    && Listed(log, news)
    && (Clean(row) && t.got.Object? ==>
          && Discovered(h, t.got.root, log)
          && Kb(row) == Weighed(h, log) / 1024.0
          && (row.sampled ==> row.sampleSize == SampledEntries(h, log)))
  }

  /** Why a row says what it does: `from` is the number of the clock reading its target starts with, `to` that
      of the next target's; `news` are the objects visited for it, and `failed` is counted as an error. */
  ghost predicate RowCaused(h: Heap, clock: nat -> real, from: nat, to: nat, census: real, targetSeconds: real, maxObjects: nat,
                            t: Target, row: Row, failed: bool, news: set<Id>, shared: set<Id>) {
    var blank := Row(t.name, None, Some(0.0), 0, false, false, false, 0);
    if clock(from) >= census then row == blank.(truncated := true) && !failed
    else
      match t.got
      case Raises => row == blank.(truncated := true) && failed
      case Missing => row == blank.(missing := true) && !failed
      case LruCache(size) => row == blank.(entries := Some(size), uniqueKb := None) && !failed
      case Object(root) =>
        var limit := MinReal(census, clock(from) + targetSeconds);
        && !row.missing && row.uniqueKb.Some?
        && row.entries == (if root in h && h[root].shape.Container? then Some(|h[root].shape.entries|) else None)
        && (row.truncated ==> Late(clock, from + 1, to, limit) || Full(ReachOf(h, t), shared, maxObjects) || failed)
        && (Late(clock, from + 1, to, limit) || failed ==> row.truncated)
        && (failed ==> HasBroken(h, ReachOf(h, t)))
        && (HasFailing(h, news) ==> row.truncated)
        && (row.sampled <==> HasLarge(h, news)) && (!row.sampled ==> row.sampleSize == 0)
  }

  /** A row for which nothing was measured. */
  lemma UnmeasuredRow(h: Heap, t: Target, row: Row, shared: set<Id>)
    requires row.name == t.name && row.objects == 0 && Kb(row) == 0.0 && !row.sampled
    requires Clean(row) ==> !t.got.Object?
    ensures RowOk(h, row, t, shared, shared, [])
  {
    NothingSummed(h);
    assert shared - shared == {} && Ids([]) == {};
    assert Clean(row) ==> shared == shared + ReachOf(h, t);
  }

  /** The row of a measured object. */
  lemma MeasuredRow(h: Heap, clock: nat -> real, from: nat, to: nat, census: real, targetSeconds: real, maxObjects: nat,
                    t: Target, root: Id, row: Row, before: set<Id>, shared: set<Id>, m: Measurement, log: seq<Visit>)
    requires Closed(h) && root in h && t.got == Object(root) && before <= shared && clock(from) < census
    requires Attributed(h, root, ReachSet(h, root), shared - before, shared, m, log)
    requires Caused(h, clock, from + 1, to, MinReal(census, clock(from) + targetSeconds), ReachSet(h, root), shared - before,
                    shared, maxObjects, m)
    requires row == Row(t.name, if h[root].shape.Container? then Some(|h[root].shape.entries|) else None,
                        Some(m.size / 1024.0), m.objects, m.truncated, false, m.sampled, if m.sampled then m.sampleSize else 0)
    ensures RowOk(h, row, t, before, shared, log)
    ensures RowCaused(h, clock, from, to, census, targetSeconds, maxObjects, t, row, m.failed, shared - before, shared)
  {
    hide SumSizes, Late, Full, HasFailing, HasLarge, HasBroken, ReachSet, MinReal;
    if !m.truncated && ClosedUnder(h, before) { CleanWalkReachesAll(h, root, before, shared, m, log); }
    hide ClosedUnder, ChildSet, Closed;
  }

  /** The row of one target. */
  method MeasureTarget(walk: Walk, target: Target, targetSeconds: real) returns (row: Row, failed: bool, ghost log: seq<Visit>)
    requires walk.Valid() && Closed(walk.heap) && Rooted(walk.heap, [target])
    modifies walk
    ensures walk.Valid()
    ensures RowOk(walk.heap, row, target, old(walk.shared), walk.shared, log)
    ensures failed ==> row.truncated
    ensures walk.ticks > old(walk.ticks) && walk.visits - old(walk.visits) >= row.objects
    ensures RowCaused(walk.heap, walk.clock, old(walk.ticks), walk.ticks, walk.deadline, targetSeconds, walk.maxObjects,
                      target, row, failed, walk.shared - old(walk.shared), walk.shared)
  {
    hide RowOk, SumSizes, Attributed, Caused, MinReal, ReachSet, Late, Full, HasFailing, HasLarge, HasBroken;
    row, failed, log := Row(target.name, None, Some(0.0), 0, false, false, false, 0), false, [];
    var now := walk.Now();
    if now >= walk.deadline {
      row := row.(truncated := true);
      UnmeasuredRow(walk.heap, target, row, walk.shared);
      return;
    }
    var deadline := MinReal(walk.deadline, now + targetSeconds);
    match target.got
    case Raises =>
      row, failed := row.(truncated := true), true;
      UnmeasuredRow(walk.heap, target, row, walk.shared);
    case Missing =>
      row := row.(missing := true);
      UnmeasuredRow(walk.heap, target, row, walk.shared);
    case LruCache(size) =>
      row := row.(entries := Some(size), uniqueKb := None);
      UnmeasuredRow(walk.heap, target, row, walk.shared);
    case Object(root) =>
      assert target in [target];
      var shape := walk.heap[root].shape;
      if shape.Container? {
        row := row.(entries := Some(|shape.entries|));
      }
      ReachSetIsClosed(walk.heap, root);
      ReachSetInside(walk.heap, root);
      var m;
      m, log := walk.Measure(root, deadline, ReachSet(walk.heap, root));
      MinTwice(walk.deadline, now + targetSeconds);
      failed := m.failed;
      row := row.(uniqueKb := Some(m.size / 1024.0), objects := m.objects, truncated := m.truncated);
      if m.sampled {
        row := row.(sampled := true, sampleSize := m.sampleSize);
      }
      MeasuredRow(walk.heap, walk.clock, old(walk.ticks), walk.ticks, walk.deadline, targetSeconds, walk.maxObjects, target, root,
                  row, old(walk.shared), walk.shared, m, log);
      FailedIsTruncated(walk.heap, root, ReachSet(walk.heap, root), walk.shared - old(walk.shared), walk.shared, m, log);
  }

  lemma ReachSetInside(h: Heap, root: Id)
    ensures ReachSet(h, root) <= h.Keys
  {}

  lemma MinTwice(a: real, b: real)
    ensures MinReal(MinReal(a, b), a) == MinReal(a, b)
  {}

  lemma FailedIsTruncated(h: Heap, root: Id, reach: set<Id>, news: set<Id>, shared: set<Id>, m: Measurement, log: seq<Visit>)
    requires Attributed(h, root, reach, news, shared, m, log)
    ensures m.failed ==> m.truncated
  {}

  /** A row charged for exactly the objects its target is the first to reach. */
  ghost predicate ChargedExactly(h: Heap, row: Row, charged: set<Id>) {
    row.objects == |charged| && Kb(row) >= SumKb(h, charged) && (!row.sampled ==> Kb(row) == SumKb(h, charged))
  }

  /** Each row up to the first truncated one is charged for what its target is the first to reach. */
  ghost predicate SharesExact(h: Heap, targets: seq<Target>, rows: seq<Row>)
    requires |rows| <= |targets|
  {
    var i := |rows| - 1;
    rows == [] || (SharesExact(h, targets, rows[..i])
                   && (AllClean(rows) ==> ChargedExactly(h, rows[i], FirstReached(h, targets, i))))
  }

  lemma {:induction false} ShareOfRow(h: Heap, targets: seq<Target>, rows: seq<Row>, i: nat)
    requires i < |rows| <= |targets| && SharesExact(h, targets, rows) && AllClean(rows[..i + 1])
    ensures ChargedExactly(h, rows[i], FirstReached(h, targets, i))
    decreases |rows|
  {
    if i + 1 == |rows| {
      assert rows[..i + 1] == rows;
    } else {
      assert rows[..|rows| - 1][..i + 1] == rows[..i + 1];
      ShareOfRow(h, targets, rows[..|rows| - 1], i);
    }
  }

  lemma TotalsAfterRow(h: Heap, rows: seq<Row>, row: Row, t: Target, before: set<Id>, shared: set<Id>, log: seq<Visit>)
    requires RowOk(h, row, t, before, shared, log)
    requires TotalObjects(rows) == |before| && TotalKb(rows) >= SumKb(h, before)
    requires NoneSampled(rows) ==> TotalKb(rows) == SumKb(h, before)
    ensures TotalObjects(rows + [row]) == |shared| && TotalKb(rows + [row]) >= SumKb(h, shared)
    ensures NoneSampled(rows + [row]) ==> TotalKb(rows + [row]) == SumKb(h, shared)
  {
    hide SumSizes, RowOk, Kb;
    RowAdds(h, row, t, before, shared, log);
    assert (rows + [row])[..|rows|] == rows;
  }

  /** What one row adds to the totals. */
  lemma RowAdds(h: Heap, row: Row, t: Target, before: set<Id>, shared: set<Id>, log: seq<Visit>)
    requires RowOk(h, row, t, before, shared, log)
    ensures |shared| == |before| + row.objects && SumKb(h, shared) <= SumKb(h, before) + Kb(row)
    ensures !row.sampled ==> SumKb(h, shared) == SumKb(h, before) + Kb(row)
  {
    hide SumSizes, Kb, Listed, Discovered, Weighed, SampledEntries, ClosedUnder, ReachOf;
    assert shared == before + (shared - before);
    SumDisjoint(h, before, shared - before);
  }

  lemma ReachOfAllAppend(h: Heap, targets: seq<Target>, i: nat)
    requires i < |targets|
    ensures ReachOfAll(h, targets[..i + 1]) == ReachOfAll(h, targets[..i]) + ReachOf(h, targets[i])
  {
    assert targets[..i + 1][..i] == targets[..i];
  }

  lemma ReachAfterRow(h: Heap, targets: seq<Target>, i: nat, row: Row, clean: bool, before: set<Id>, shared: set<Id>, log: seq<Visit>)
    requires Closed(h) && Rooted(h, targets) && i < |targets|
    requires RowOk(h, row, targets[i], before, shared, log)
    requires before <= ReachOfAll(h, targets[..i])
    requires clean ==> before == ReachOfAll(h, targets[..i])
    ensures shared <= ReachOfAll(h, targets[..i + 1])
    ensures clean && Clean(row) ==>
              && shared == ReachOfAll(h, targets[..i + 1])
              && ChargedExactly(h, row, FirstReached(h, targets, i))
  {
    hide SumSizes, ReachSet, ChildSet, Closed;
    ReachOfAllAppend(h, targets, i);
    if clean && Clean(row) {
      assert Rooted(h, targets[..i]);
      ReachOfAllClosed(h, targets[..i]);
      assert shared - before == FirstReached(h, targets, i);
    }
  }

  lemma NothingSummed(h: Heap)
    ensures SumKb(h, {}) == 0.0
  {}

  const BYTES_PER_ID := 80
  const RESERVE := 64 * 1024 * 1024

  /** The history of one target: its first clock reading and the next target's, whether it counted as an
      error, the visited set before and after it, and the order of discovery. */
  datatype Stage = Stage(from: nat, to: nat, failed: bool, before: set<Id>, after: set<Id>, log: seq<Visit>)

  function Failures(stages: seq<Stage>): nat {
    if stages == [] then 0 else Failures(stages[..|stages| - 1]) + if stages[|stages| - 1].failed then 1 else 0
  }

  ghost predicate StageOk(h: Heap, clock: nat -> real, census: real, targetSeconds: real, maxObjects: nat,
                          t: Target, row: Row, s: Stage) {
    && s.from < s.to && s.before <= s.after
    && RowOk(h, row, t, s.before, s.after, s.log)
    && RowCaused(h, clock, s.from, s.to, census, targetSeconds, maxObjects, t, row, s.failed, s.after - s.before, s.after)
  }

  ghost function VisitedBy(stages: seq<Stage>): set<Id> { if stages == [] then {} else stages[|stages| - 1].after }

  /** The number of the next clock reading; the first one set the deadline of the census. */
  ghost function ReadBy(stages: seq<Stage>): nat { if stages == [] then 1 else stages[|stages| - 1].to }

  /** Every row has its causes, and each stage begins where the one before it ended, the first with nothing visited. */
  ghost predicate Explained(h: Heap, clock: nat -> real, census: real, targetSeconds: real, maxObjects: nat,
                            targets: seq<Target>, rows: seq<Row>, stages: seq<Stage>) {
    var i := |rows| - 1;
    && |rows| == |stages| <= |targets|
    && (rows == [] || (
          && Explained(h, clock, census, targetSeconds, maxObjects, targets, rows[..i], stages[..i])
          && StageOk(h, clock, census, targetSeconds, maxObjects, targets[i], rows[i], stages[i])
          && stages[i].from == ReadBy(stages[..i]) && stages[i].before == VisitedBy(stages[..i])))
  }

  lemma {:induction false} ExplainedAt(h: Heap, clock: nat -> real, census: real, targetSeconds: real, maxObjects: nat,
                                       targets: seq<Target>, rows: seq<Row>, stages: seq<Stage>, i: nat)
    requires Explained(h, clock, census, targetSeconds, maxObjects, targets, rows, stages) && i < |rows|
    ensures StageOk(h, clock, census, targetSeconds, maxObjects, targets[i], rows[i], stages[i])
    decreases |rows|
  {
    hide StageOk;
    if i + 1 < |rows| {
      ExplainedAt(h, clock, census, targetSeconds, maxObjects, targets, rows[..|rows| - 1], stages[..|rows| - 1], i);
    }
  }

  /** Every reading is before the census deadline, and before the deadline of a target begun at any earlier one. */
  ghost predicate OnTime(clock: nat -> real, readings: nat, budgetSeconds: real, targetSeconds: real) {
    forall t: nat, s: nat :: s <= t < readings ==> clock(t) < clock(0) + budgetSeconds && clock(t) < clock(s) + targetSeconds
  }

  /** Nothing stands in the way of a full census. */
  ghost predicate Unhindered(h: Heap, targets: seq<Target>, maxObjects: nat) {
    && |ReachOfAll(h, targets)| <= maxObjects
    && (forall i :: 0 <= i < |targets| ==> !targets[i].got.Raises?)
    && !HasBroken(h, ReachOfAll(h, targets))
  }

  lemma {:induction false} ReachOfOne(h: Heap, targets: seq<Target>, i: nat)
    requires i < |targets|
    ensures ReachOf(h, targets[i]) <= ReachOfAll(h, targets)
    decreases |targets|
  {
    if i + 1 < |targets| { ReachOfOne(h, targets[..|targets| - 1], i); }
  }

  lemma OnTimeIsNotLate(clock: nat -> real, readings: nat, budgetSeconds: real, targetSeconds: real, from: nat, to: nat)
    requires OnTime(clock, readings, budgetSeconds, targetSeconds) && from < to <= readings
    ensures clock(from) < clock(0) + budgetSeconds
    ensures !Late(clock, from + 1, to, MinReal(clock(0) + budgetSeconds, clock(from) + targetSeconds))
  {}

  lemma FullHoldsAll(all: set<Id>, shared: set<Id>, reach: set<Id>, maxObjects: nat)
    requires shared <= all && reach <= all && |all| <= maxObjects
    ensures !Full(reach, shared, maxObjects)
  {
    if |shared| == maxObjects { Sets.SubsetSize(shared, all); }
  }

  /** A census on time with nothing in its way leaves only clean rows and counts no error. */
  lemma RowIsClean(h: Heap, clock: nat -> real, readings: nat, budgetSeconds: real, targetSeconds: real, maxObjects: nat,
                   targets: seq<Target>, rows: seq<Row>, stages: seq<Stage>, i: nat)
    requires Explained(h, clock, clock(0) + budgetSeconds, targetSeconds, maxObjects, targets, rows, stages) && i < |rows|
    requires OnTime(clock, readings, budgetSeconds, targetSeconds) && stages[i].to <= readings
    requires Unhindered(h, targets, maxObjects) && stages[i].after <= ReachOfAll(h, targets)
    ensures Clean(rows[i]) && !stages[i].failed
  {
    hide Late, Full, HasFailing, OnTime, SumSizes, MinReal, ReachOfAll, ReachOf, RowOk;
    var all := ReachOfAll(h, targets);
    ExplainedAt(h, clock, clock(0) + budgetSeconds, targetSeconds, maxObjects, targets, rows, stages, i);
    OnTimeIsNotLate(clock, readings, budgetSeconds, targetSeconds, stages[i].from, stages[i].to);
    ReachOfOne(h, targets, i);
    FullHoldsAll(all, stages[i].after, ReachOf(h, targets[i]), maxObjects);
  }

  /** A row is marked as sampled only for a large container. */
  lemma {:induction false} SampledForLarge(h: Heap, clock: nat -> real, census: real, targetSeconds: real, maxObjects: nat,
                                           targets: seq<Target>, rows: seq<Row>, stages: seq<Stage>, visited: set<Id>)
    requires Explained(h, clock, census, targetSeconds, maxObjects, targets, rows, stages) && !HasLarge(h, visited)
    requires forall k :: 0 <= k < |stages| ==> stages[k].after <= visited
    ensures NoneSampled(rows)
  {
    hide RowOk, Late, Full, HasBroken, HasFailing;
    if rows != [] {
      var i := |rows| - 1;
      SampledForLarge(h, clock, census, targetSeconds, maxObjects, targets, rows[..i], stages[..i], visited);
    }
  }

  lemma ExplainedMore(h: Heap, clock: nat -> real, census: real, targetSeconds: real, maxObjects: nat, targets: seq<Target>,
                      rows: seq<Row>, stages: seq<Stage>, row: Row, stage: Stage)
    requires Explained(h, clock, census, targetSeconds, maxObjects, targets, rows, stages) && |rows| < |targets|
    requires stage.from == ReadBy(stages) && stage.before == VisitedBy(stages)
    requires StageOk(h, clock, census, targetSeconds, maxObjects, targets[|rows|], row, stage)
    ensures Explained(h, clock, census, targetSeconds, maxObjects, targets, rows + [row], stages + [stage])
    ensures Failures(stages + [stage]) == Failures(stages) + if stage.failed then 1 else 0
    ensures ReadBy(stages + [stage]) == stage.to && VisitedBy(stages + [stage]) == stage.after
  {
    hide StageOk;
    assert (stages + [stage])[..|stages|] == stages && (rows + [row])[..|rows|] == rows;
  }

  lemma {:induction false} AllRowsClean(rows: seq<Row>, stages: seq<Stage>)
    requires |rows| == |stages| && forall i :: 0 <= i < |rows| ==> Clean(rows[i]) && !stages[i].failed
    ensures AllClean(rows) && Failures(stages) == 0
  {
    if rows != [] { AllRowsClean(rows[..|rows| - 1], stages[..|stages| - 1]); }
  }

  /** What the rows add up to, given their causes. */
  ghost predicate AddsUp(h: Heap, targets: seq<Target>, rows: seq<Row>, visited: set<Id>) {
    && |rows| <= |targets|
    && TotalObjects(rows) == |visited| && visited <= ReachOfAll(h, targets[..|rows|])
    && TotalKb(rows) >= SumKb(h, visited)
    && (NoneSampled(rows) ==> TotalKb(rows) == SumKb(h, visited))
    && (AllClean(rows) ==> visited == ReachOfAll(h, targets[..|rows|]))
    && SharesExact(h, targets, rows)
  }

  lemma RowAddsUp(h: Heap, targets: seq<Target>, rows: seq<Row>, row: Row, before: set<Id>, shared: set<Id>, log: seq<Visit>)
    requires Closed(h) && Rooted(h, targets) && AddsUp(h, targets, rows, before) && |rows| < |targets|
    requires RowOk(h, row, targets[|rows|], before, shared, log)
    ensures AddsUp(h, targets, rows + [row], shared)
  {
    hide RowOk, SumSizes, ReachOfAll, ReachOf, FirstReached, ChargedExactly, Closed, Rooted;
    assert (rows + [row])[..|rows|] == rows;
    TotalsAfterRow(h, rows, row, targets[|rows|], before, shared, log);
    ReachAfterRow(h, targets, |rows|, row, AllClean(rows), before, shared, log);
  }

  lemma NothingAddsUp(h: Heap, clock: nat -> real, census: real, targetSeconds: real, maxObjects: nat, targets: seq<Target>,
                      stages: seq<Stage>)
    requires Explained(h, clock, census, targetSeconds, maxObjects, targets, [], stages)
    ensures stages == [] && AddsUp(h, targets, [], VisitedBy(stages))
  {
    NothingSummed(h);
  }

  /** The last row and its stage. */
  lemma ExplainedEnds(h: Heap, clock: nat -> real, census: real, targetSeconds: real, maxObjects: nat,
                      targets: seq<Target>, rows: seq<Row>, stages: seq<Stage>)
    requires Explained(h, clock, census, targetSeconds, maxObjects, targets, rows, stages) && rows != []
    ensures |rows| == |stages| <= |targets|
    ensures var (i, last) := (|rows| - 1, stages[|rows| - 1]);
            && Explained(h, clock, census, targetSeconds, maxObjects, targets, rows[..i], stages[..i])
            && RowOk(h, rows[i], targets[i], last.before, last.after, last.log) && last.before <= last.after
            && last.before == VisitedBy(stages[..i]) && last.after == VisitedBy(stages)
            && ReadBy(stages[..i]) <= last.to == ReadBy(stages)
  {
    hide RowOk, RowCaused;
  }

  /** However the walk was cut short, the rows of an explained census add up. */
  lemma {:induction false} ExplainedAddsUp(h: Heap, clock: nat -> real, census: real, targetSeconds: real, maxObjects: nat,
                                           targets: seq<Target>, rows: seq<Row>, stages: seq<Stage>)
    requires Closed(h) && Rooted(h, targets)
    requires Explained(h, clock, census, targetSeconds, maxObjects, targets, rows, stages)
    ensures AddsUp(h, targets, rows, VisitedBy(stages))
    ensures forall k :: 0 <= k < |stages| ==> stages[k].to <= ReadBy(stages) && stages[k].after <= VisitedBy(stages)
  {
    hide Explained, RowOk, Closed, Rooted, AddsUp, ReadBy, VisitedBy;
    if rows == [] {
      NothingAddsUp(h, clock, census, targetSeconds, maxObjects, targets, stages);
    } else {
      ExplainedEnds(h, clock, census, targetSeconds, maxObjects, targets, rows, stages);
      var i := |rows| - 1;
      ExplainedAddsUp(h, clock, census, targetSeconds, maxObjects, targets, rows[..i], stages[..i]);
      RowAddsUp(h, targets, rows[..i], rows[i], stages[i].before, stages[i].after, stages[i].log);
      assert rows[..i] + [rows[i]] == rows;
      assert forall k :: 0 <= k < i ==> stages[..i][k] == stages[k];
    }
  }

  /** The whole census. `visited` is the final visited set. */
  method RunCensus(heap: Heap, clock: nat -> real, targets: seq<Target>, headroom: Option<int>,
                   maxObjects: nat, budgetSeconds: real, targetSeconds: real)
    returns (report: Report, ghost visited: set<Id>, ghost stages: seq<Stage>, ghost readings: nat)
    requires Closed(heap) && Rooted(heap, targets)
    ensures report.SkippedLowHeadroom? <==>
              headroom.Some? && headroom.value < maxObjects * 80 + 67_108_864
    // However the walk was cut short, the rows account for each visited object exactly once.
    ensures report.Census? ==>
              && |report.rows| == |targets|
              && TotalObjects(report.rows) == report.visitedObjects == |visited| <= maxObjects
              && visited <= ReachOfAll(heap, targets)
              && TotalKb(report.rows) >= SumKb(heap, visited)
              && (NoneSampled(report.rows) ==> TotalKb(report.rows) == SumKb(heap, visited))
              && report.visits >= report.visitedObjects
    // Up to the first truncated row, each row is its target's share of what is reachable.
    ensures report.Census? ==> SharesExact(heap, targets, report.rows)
    ensures report.Census? && AllClean(report.rows) ==> visited == ReachOfAll(heap, targets)
    ensures report.Census? && !HasLarge(heap, visited) ==> NoneSampled(report.rows)
    // Every row has its causes, and the errors are the targets that could not be measured.
    ensures report.Census? ==>
              && Explained(heap, clock, clock(0) + budgetSeconds, targetSeconds, maxObjects, targets, report.rows, stages)
              && report.errors == Failures(stages) <= |targets|
    // On time, with room for everything and nothing that raises, the census is complete.
    ensures report.Census? && OnTime(clock, readings, budgetSeconds, targetSeconds) && Unhindered(heap, targets, maxObjects) ==>
              AllClean(report.rows) && visited == ReachOfAll(heap, targets) && report.errors == 0
  {
    hide RowOk, RowCaused, OnTime, Unhindered, Explained, ReachOfAll, Closed, HasLarge, NoneSampled, ReadBy, VisitedBy, Failures,
      SumKb, TotalKb, TotalObjects, SharesExact, AllClean;
    visited, stages, readings := {}, [], 1;
    if headroom.Some? && headroom.value < maxObjects * BYTES_PER_ID + RESERVE {
      return SkippedLowHeadroom, {}, [], 1;
    }
    var walk := new Walk(heap, clock, maxObjects, budgetSeconds);
    var rows, errors := [], 0;
    NothingExplained(heap, clock, clock(0) + budgetSeconds, targetSeconds, maxObjects, targets);
    var i := 0;
    while i < |targets|
      invariant 0 <= i <= |targets| && |rows| == |stages| == i && errors == Failures(stages) <= i
      invariant walk.Valid() && walk.heap == heap && walk.clock == clock && walk.maxObjects == maxObjects && fresh(walk)
      invariant walk.deadline == clock(0) + budgetSeconds && |walk.shared| <= walk.visits
      invariant Explained(heap, clock, walk.deadline, targetSeconds, maxObjects, targets, rows, stages)
      invariant walk.ticks == ReadBy(stages) && walk.shared == VisitedBy(stages)
    {
      ghost var before, from := walk.shared, walk.ticks;
      assert targets[i] in targets;
      var row, failed;
      ghost var log;
      row, failed, log := MeasureTarget(walk, targets[i], targetSeconds);
      GrowsAfterRow(heap, row, targets[i], before, walk.shared, log);
      ghost var stage := Stage(from, walk.ticks, failed, before, walk.shared, log);
      ExplainedMore(heap, clock, walk.deadline, targetSeconds, maxObjects, targets, rows, stages, row, stage);
      rows, stages := rows + [row], stages + [stage];
      errors := errors + if failed then 1 else 0;
      i := i + 1;
    }
    ExplainedAddsUp(heap, clock, walk.deadline, targetSeconds, maxObjects, targets, rows, stages);
    assert targets[..i] == targets;
    if !HasLarge(heap, walk.shared) {
      SampledForLarge(heap, clock, walk.deadline, targetSeconds, maxObjects, targets, rows, stages, walk.shared);
    }
    report, visited, readings := Census(rows, |walk.shared|, walk.visits, errors), walk.shared, walk.ticks;
    if OnTime(clock, readings, budgetSeconds, targetSeconds) && Unhindered(heap, targets, maxObjects) {
      forall k | 0 <= k < |rows| ensures Clean(rows[k]) && !stages[k].failed {
        RowIsClean(heap, clock, readings, budgetSeconds, targetSeconds, maxObjects, targets, rows, stages, k);
      }
      AllRowsClean(rows, stages);
    }
  }

  lemma NothingExplained(h: Heap, clock: nat -> real, census: real, targetSeconds: real, maxObjects: nat, targets: seq<Target>)
    ensures Explained(h, clock, census, targetSeconds, maxObjects, targets, [], []) && Failures([]) == 0
    ensures ReadBy([]) == 1 && VisitedBy([]) == {}
  {}

  lemma GrowsAfterRow(h: Heap, row: Row, t: Target, before: set<Id>, shared: set<Id>, log: seq<Visit>)
    requires RowOk(h, row, t, before, shared, log)
    ensures before <= shared && |shared| == |before| + row.objects
  {
    assert shared == before + (shared - before);
  }
}

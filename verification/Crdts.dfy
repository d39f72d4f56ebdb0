/**
 * The replicated data types as values: their replicated state, their merge and its laws. Pending
 * deltas are not part of the replicated state.
 */
module Crdts {
  import opened Prelude
  import opened Semilattice

  type Counts = map<string, nat>
  type Tags = set<nat>

  predicate Any<T>(x: T) { true }

  lemma {:induction false} WithinAll<T(!new)>(dom: T -> bool, plan: Plan<T>)
    requires forall x :: dom(x)
    ensures Within(dom, plan)
  {
    match plan
    case State(_) =>
    case Merged(into, from) =>
      WithinAll(dom, into);
      WithinAll(dom, from);
  }

  // ----- building blocks ------------------------------------------------------

  function MaxNat(a: nat, b: nat): nat
  {
    Max(a, b)
  }

  function CountOf(m: Counts, k: string): nat
  {
    if k in m then m[k] else 0
  }

  /** The sum of all counts. */
  ghost function Total(m: Counts): nat
    decreases |m|
  {
    if m == map[] then 0
    else
      var k :| k in m;
      assert (m - {k}).Keys == m.Keys - {k};
      m[k] + Total(m - {k})
  }

  lemma {:induction false} TotalSplit(m: Counts, k: string)
    requires k in m
    ensures Total(m) == m[k] + Total(m - {k})
    decreases |m|
  {
    var x :| x in m && Total(m) == m[x] + Total(m - {x});
    assert (m - {x}).Keys == m.Keys - {x};
    if x != k {
      TotalSplit(m - {x}, k);
      assert (m - {k}).Keys == m.Keys - {k};
      TotalSplit(m - {k}, x);
      assert m - {x} - {k} == m - {k} - {x};
    }
  }

  lemma TotalEmpty()
    ensures Total(map[]) == 0
  {
  }

  function Union<T>(a: set<T>, b: set<T>): set<T>
  {
    a + b
  }

  /** `GSet` and the tag sets of `OrSet`. */
  lemma UnionLaws<T(!new)>()
    ensures IsSemilattice((s: set<T>) => Any(s), (a: set<T>, b: set<T>) => Union(a, b))
  {
    forall a: set<T>, b: set<T> ensures Union(a, b) == Union(b, a) {}
    forall a: set<T>, b: set<T>, c: set<T> ensures Union(Union(a, b), c) == Union(a, Union(b, c)) {}
    forall a: set<T> ensures Union(a, a) == a {}
  }

  // ----- counters -------------------------------------------------------------

  /** `GCounter::merge`: the larger count of each node. */
  function JoinCounts<K(!new)>(a: map<K, nat>, b: map<K, nat>): map<K, nat>
  {
    Pointwise(MaxNat, a, b)
  }

  lemma CountsCommute<K(!new)>(a: map<K, nat>, b: map<K, nat>)
    ensures JoinCounts(a, b) == JoinCounts(b, a)
  {
    PointwiseCommutes(x => Any(x), MaxNat, a, b);
  }

  lemma CountsAssociate<K(!new)>(a: map<K, nat>, b: map<K, nat>, c: map<K, nat>)
    ensures JoinCounts(JoinCounts(a, b), c) == JoinCounts(a, JoinCounts(b, c))
  {
    PointwiseAssociates(x => Any(x), MaxNat, a, b, c);
  }

  lemma CountsAbsorb<K(!new)>(a: map<K, nat>)
    ensures JoinCounts(a, a) == a
  {
  }

  lemma GCounterLaws<K(!new)>()
    ensures IsSemilattice(x => Any(x), (a: map<K, nat>, b: map<K, nat>) => JoinCounts(a, b))
  {
    hide JoinCounts;
    forall a: map<K, nat>, b: map<K, nat> ensures JoinCounts(a, b) == JoinCounts(b, a) { CountsCommute(a, b); }
    forall a: map<K, nat>, b: map<K, nat>, c: map<K, nat>
      ensures JoinCounts(JoinCounts(a, b), c) == JoinCounts(a, JoinCounts(b, c))
    {
      CountsAssociate(a, b, c);
    }
    forall a: map<K, nat> ensures JoinCounts(a, a) == a { CountsAbsorb(a); }
  }

  /** The replicated part of `PNCounter` and of `SignedSum`: two grow-only accumulators per node. */
  datatype PosNeg = PosNeg(pos: Counts, neg: Counts)

  function JoinPosNeg(a: PosNeg, b: PosNeg): PosNeg
  {
    PosNeg(JoinCounts(a.pos, b.pos), JoinCounts(a.neg, b.neg))
  }

  lemma PosNegLaws()
    ensures IsSemilattice(x => Any(x), JoinPosNeg)
  {
    hide JoinCounts;
    forall a, b ensures JoinPosNeg(a, b) == JoinPosNeg(b, a) {
      CountsCommute(a.pos, b.pos);
      CountsCommute(a.neg, b.neg);
    }
    forall a, b, c ensures JoinPosNeg(JoinPosNeg(a, b), c) == JoinPosNeg(a, JoinPosNeg(b, c)) {
      CountsAssociate(a.pos, b.pos, c.pos);
      CountsAssociate(a.neg, b.neg, c.neg);
    }
    forall a ensures JoinPosNeg(a, a) == a {
      CountsAbsorb(a.pos);
      CountsAbsorb(a.neg);
    }
  }

  // ----- observed-remove set --------------------------------------------------

  datatype OrSet<T> = OrSet(adds: map<T, Tags>, removes: map<T, Tags>, counter: nat)

  function JoinTags<T(!new)>(a: map<T, Tags>, b: map<T, Tags>): map<T, Tags>
  {
    Pointwise((x: Tags, y: Tags) => Union(x, y), a, b)
  }

  function JoinOrSet<T(!new)>(a: OrSet<T>, b: OrSet<T>): OrSet<T>
  {
    OrSet(JoinTags(a.adds, b.adds), JoinTags(a.removes, b.removes), MaxNat(a.counter, b.counter))
  }

  lemma TagsLaws<T(!new)>(a: map<T, Tags>, b: map<T, Tags>, c: map<T, Tags>)
    ensures JoinTags(a, b) == JoinTags(b, a)
    ensures JoinTags(JoinTags(a, b), c) == JoinTags(a, JoinTags(b, c))
    ensures JoinTags(a, a) == a
  {
    hide Pointwise;
    UnionLaws<nat>();
    var any := (s: Tags) => Any(s);
    var union := (x: Tags, y: Tags) => Union(x, y);
    PointwiseCommutes(any, union, a, b);
    PointwiseAssociates(any, union, a, b, c);
    PointwiseAbsorbs(any, union, a);
  }

  lemma OrSetLaws<T(!new)>()
    ensures IsSemilattice((s: OrSet<T>) => Any(s), (a: OrSet<T>, b: OrSet<T>) => JoinOrSet(a, b))
  {
    hide JoinTags;
    forall a: OrSet<T>, b: OrSet<T> ensures JoinOrSet(a, b) == JoinOrSet(b, a) {
      TagsLaws(a.adds, b.adds, b.adds);
      TagsLaws(a.removes, b.removes, b.removes);
    }
    forall a: OrSet<T>, b: OrSet<T>, c: OrSet<T>
      ensures JoinOrSet(JoinOrSet(a, b), c) == JoinOrSet(a, JoinOrSet(b, c))
    {
      TagsLaws(a.adds, b.adds, c.adds);
      TagsLaws(a.removes, b.removes, c.removes);
    }
    forall a: OrSet<T> ensures JoinOrSet(a, a) == a {
      TagsLaws(a.adds, a.adds, a.adds);
      TagsLaws(a.removes, a.removes, a.removes);
    }
  }

  // ----- observed-remove map --------------------------------------------------

  datatype Entry<V> = Entry(tag: nat, value: V)

  datatype ORMap<K, V> = ORMap(entries: map<K, Entry<V>>, tombstones: map<K, nat>, counter: nat)

  function JoinEntry<V>(join: (V, V) -> V, a: Entry<V>, b: Entry<V>): Entry<V>
  {
    Entry(MaxNat(a.tag, b.tag), join(a.value, b.value))
  }

  function JoinORMap<K(!new), V(!new)>(join: (V, V) -> V, a: ORMap<K, V>, b: ORMap<K, V>): ORMap<K, V>
  {
    ORMap(Pointwise((x: Entry<V>, y: Entry<V>) => JoinEntry(join, x, y), a.entries, b.entries),
          JoinCounts(a.tombstones, b.tombstones),
          MaxNat(a.counter, b.counter))
  }

  /** Entries whose values lie in the value type's domain. */
  ghost predicate ValuesIn<K(!new), V(!new)>(dom: V -> bool, m: ORMap<K, V>)
  {
    Everywhere((e: Entry<V>) => dom(e.value), m.entries)
  }

  lemma EntryLaws<V(!new)>(dom: V -> bool, join: (V, V) -> V)
    requires IsSemilattice(dom, join)
    ensures IsSemilattice((e: Entry<V>) => dom(e.value), (a: Entry<V>, b: Entry<V>) => JoinEntry(join, a, b))
  {
  }

  /** `ORMap` over any convergent value type. */
  lemma ORMapLaws<K(!new), V(!new)>(dom: V -> bool, join: (V, V) -> V)
    requires IsSemilattice(dom, join)
    ensures IsSemilattice((m: ORMap<K, V>) => ValuesIn(dom, m),
                          (a: ORMap<K, V>, b: ORMap<K, V>) => JoinORMap(join, a, b))
  {
    hide Pointwise, JoinCounts, Everywhere;
    EntryLaws(dom, join);
    var edom := (e: Entry<V>) => dom(e.value);
    var ejoin := (x: Entry<V>, y: Entry<V>) => JoinEntry(join, x, y);
    forall a: ORMap<K, V>, b: ORMap<K, V> | ValuesIn(dom, a) && ValuesIn(dom, b)
      ensures JoinORMap(join, a, b) == JoinORMap(join, b, a) && ValuesIn(dom, JoinORMap(join, a, b))
    {
      PointwiseCommutes(edom, ejoin, a.entries, b.entries);
      PointwiseClosed(edom, ejoin, a.entries, b.entries);
      CountsCommute(a.tombstones, b.tombstones);
    }
    forall a: ORMap<K, V>, b: ORMap<K, V>, c: ORMap<K, V> | ValuesIn(dom, a) && ValuesIn(dom, b) && ValuesIn(dom, c)
      ensures JoinORMap(join, JoinORMap(join, a, b), c) == JoinORMap(join, a, JoinORMap(join, b, c))
    {
      PointwiseAssociates(edom, ejoin, a.entries, b.entries, c.entries);
      CountsAssociate(a.tombstones, b.tombstones, c.tombstones);
    }
    forall a: ORMap<K, V> | ValuesIn(dom, a) ensures JoinORMap(join, a, a) == a {
      PointwiseAbsorbs(edom, ejoin, a.entries);
      CountsAbsorb(a.tombstones);
    }
  }

  // ----- any merge schedule ---------------------------------------------------

  /** `GCounter` converges whatever the schedule. */
  lemma GCounterConverges(p: Plan<Counts>, q: Plan<Counts>)
    requires States(p) == States(q)
    ensures Run((a: Counts, b: Counts) => JoinCounts(a, b), p) == Run((a: Counts, b: Counts) => JoinCounts(a, b), q)
  {
    GCounterLaws<string>();
    WithinAll(x => Any(x), p);
    WithinAll(x => Any(x), q);
    SchedulesAgree(x => Any(x), (a: Counts, b: Counts) => JoinCounts(a, b), p, q);
  }

  /** `PNCounter` and `SignedSum`. */
  lemma PosNegConverges(p: Plan<PosNeg>, q: Plan<PosNeg>)
    requires States(p) == States(q)
    ensures Run(JoinPosNeg, p) == Run(JoinPosNeg, q)
  {
    PosNegLaws();
    WithinAll(x => Any(x), p);
    WithinAll(x => Any(x), q);
    SchedulesAgree(x => Any(x), JoinPosNeg, p, q);
  }

  lemma OrSetConverges<T(!new)>(p: Plan<OrSet<T>>, q: Plan<OrSet<T>>)
    requires States(p) == States(q)
    ensures var join := (a: OrSet<T>, b: OrSet<T>) => JoinOrSet(a, b); Run(join, p) == Run(join, q)
  {
    OrSetLaws<T>();
    WithinAll(x => Any(x), p);
    WithinAll(x => Any(x), q);
    SchedulesAgree(x => Any(x), (a: OrSet<T>, b: OrSet<T>) => JoinOrSet(a, b), p, q);
  }

  lemma ORMapConverges<K(!new), V(!new)>(dom: V -> bool, vjoin: (V, V) -> V, p: Plan<ORMap<K, V>>, q: Plan<ORMap<K, V>>)
    requires IsSemilattice(dom, vjoin) && States(p) == States(q)
    requires Within((m: ORMap<K, V>) => ValuesIn(dom, m), p) && Within((m: ORMap<K, V>) => ValuesIn(dom, m), q)
    ensures var join := (a: ORMap<K, V>, b: ORMap<K, V>) => JoinORMap(vjoin, a, b); Run(join, p) == Run(join, q)
  {
    ORMapLaws<K, V>(dom, vjoin);
    SchedulesAgree((m: ORMap<K, V>) => ValuesIn(dom, m), (a: ORMap<K, V>, b: ORMap<K, V>) => JoinORMap(vjoin, a, b),
                   p, q);
  }

  /** Maps of a type that converges on every state, merged key by key. */
  lemma MapConverges<K(!new), V(!new)>(vjoin: (V, V) -> V, p: Plan<map<K, V>>, q: Plan<map<K, V>>)
    requires IsSemilattice((v: V) => Any(v), vjoin) && States(p) == States(q)
    ensures var join := (a: map<K, V>, b: map<K, V>) => Pointwise(vjoin, a, b); Run(join, p) == Run(join, q)
  {
    var any := (v: V) => Any(v);
    var dom := (m: map<K, V>) => Everywhere(any, m);
    MapLaws<K, V>(any, vjoin);
    WithinAll(dom, p);
    WithinAll(dom, q);
    SchedulesAgree(dom, (a: map<K, V>, b: map<K, V>) => Pointwise(vjoin, a, b), p, q);
  }

  /** `PNCounterMap` and `SignedSumMap`. */
  lemma PosNegMapConverges<K(!new)>(p: Plan<map<K, PosNeg>>, q: Plan<map<K, PosNeg>>)
    requires States(p) == States(q)
    ensures var join := (a: map<K, PosNeg>, b: map<K, PosNeg>) => Pointwise(JoinPosNeg, a, b);
            Run(join, p) == Run(join, q)
  {
    PosNegLaws();
    MapConverges(JoinPosNeg, p, q);
  }

  lemma ORMultiMapConverges<K(!new), T(!new)>(p: Plan<map<K, OrSet<T>>>, q: Plan<map<K, OrSet<T>>>)
    requires States(p) == States(q)
    ensures var vjoin := (a: OrSet<T>, b: OrSet<T>) => JoinOrSet(a, b);
            var join := (a: map<K, OrSet<T>>, b: map<K, OrSet<T>>) => Pointwise(vjoin, a, b);
            Run(join, p) == Run(join, q)
  {
    OrSetLaws<T>();
    MapConverges((a: OrSet<T>, b: OrSet<T>) => JoinOrSet(a, b), p, q);
  }
}

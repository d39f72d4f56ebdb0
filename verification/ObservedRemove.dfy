/** Local operations of the observed-remove set and map, and what every reachable replica satisfies. */
module ObservedRemove {
  import opened Prelude
  import opened Semilattice
  import opened Crdts

  // ----- OrSet ----------------------------------------------------------------

  function TagsOf<T(!new)>(m: map<T, Tags>, x: T): Tags
  {
    if x in m then m[x] else {}
  }

  function Add<T(!new)>(s: OrSet<T>, x: T): OrSet<T>
  {
    OrSet(s.adds[x := TagsOf(s.adds, x) + {s.counter + 1}], s.removes, s.counter + 1)
  }

  function Remove<T(!new)>(s: OrSet<T>, x: T): OrSet<T>
  {
    if x in s.adds then s.(removes := s.removes[x := TagsOf(s.removes, x) + s.adds[x]]) else s
  }

  /** An add tag that has not been removed is left. */
  predicate Contains<T(!new)>(s: OrSet<T>, x: T)
  {
    x in s.adds && if x in s.removes then s.adds[x] - s.removes[x] != {} else s.adds[x] != {}
  }

  /** `iter`: the items kept. */
  function Elements<T(!new)>(s: OrSet<T>): set<T>
  {
    set x | x in s.adds && Contains(s, x)
  }

  class OrSetReplica<T(==, !new)> {
    var adds: map<T, Tags>
    var removes: map<T, Tags>
    var counter: nat

    function View(): OrSet<T>
      reads this
    {
      OrSet(adds, removes, counter)
    }

    constructor ()
      ensures View() == OrSet(map[], map[], 0)
    {
      adds, removes, counter := map[], map[], 0;
    }

    method AddItem(x: T)
      modifies this
      ensures View() == Add(old(View()), x)
    {
      counter := counter + 1;
      var tags := if x in adds then adds[x] else {};
      adds := adds[x := tags + {counter}];
    }

    method RemoveItem(x: T)
      modifies this
      ensures View() == Remove(old(View()), x)
    {
      if x in adds {
        var gone := if x in removes then removes[x] else {};
        removes := removes[x := gone + adds[x]];
      }
    }

    method MergeFrom(other: OrSetReplica<T>)
      modifies this
      ensures View() == JoinOrSet(old(View()), old(other.View()))
    {
      var theirs := other.View();
      adds := MergeEntries((a: Tags, b: Tags) => Union(a, b), adds, theirs.adds);
      removes := MergeEntries((a: Tags, b: Tags) => Union(a, b), removes, theirs.removes);
      counter := MaxNat(counter, theirs.counter);
    }
  }

  /** How a replica's state came about: local operations, and merges of other replicas' states. */
  datatype SetHistory<T> =
    | Fresh
    | Added(before: SetHistory<T>, item: T)
    | Removed(before: SetHistory<T>, item: T)
    | Joined(before: SetHistory<T>, other: SetHistory<T>)

  function SetAfter<T(!new)>(h: SetHistory<T>): OrSet<T>
  {
    match h
    case Fresh => OrSet(map[], map[], 0)
    case Added(before, x) => Add(SetAfter(before), x)
    case Removed(before, x) => Remove(SetAfter(before), x)
    case Joined(before, other) => JoinOrSet(SetAfter(before), SetAfter(other))
  }

  /** Tags never exceed the counter, and only added tags are removed. */
  ghost predicate SetOk<T(!new)>(s: OrSet<T>)
  {
    (forall x, tag :: x in s.adds && tag in s.adds[x] ==> tag <= s.counter) &&
    (forall x :: x in s.removes ==> x in s.adds && s.removes[x] <= s.adds[x])
  }

  lemma JoinTagsAt<T(!new)>(a: map<T, Tags>, b: map<T, Tags>, x: T)
    ensures x in JoinTags(a, b) <==> x in a || x in b
    ensures TagsOf(JoinTags(a, b), x) == TagsOf(a, x) + TagsOf(b, x)
  {
  }

  lemma JoinSetOk<T(!new)>(a: OrSet<T>, b: OrSet<T>)
    requires SetOk(a) && SetOk(b)
    ensures SetOk(JoinOrSet(a, b))
  {
    hide JoinTags;
    var s := JoinOrSet(a, b);
    forall x, tag | x in s.adds && tag in s.adds[x] ensures tag <= s.counter {
      JoinTagsAt(a.adds, b.adds, x);
    }
    forall x | x in s.removes ensures x in s.adds && s.removes[x] <= s.adds[x] {
      JoinTagsAt(a.adds, b.adds, x);
      JoinTagsAt(a.removes, b.removes, x);
    }
  }

  lemma {:induction false} ReachableSetOk<T(!new)>(h: SetHistory<T>)
    ensures SetOk(SetAfter(h))
  {
    match h
    case Fresh =>
    case Added(before, _) => ReachableSetOk(before);
    case Removed(before, _) => ReachableSetOk(before);
    case Joined(before, other) =>
      ReachableSetOk(before);
      ReachableSetOk(other);
      JoinSetOk(SetAfter(before), SetAfter(other));
  }

  /** On every reachable replica a local add shows the item and touches no other. */
  lemma AddShows<T(!new)>(h: SetHistory<T>, x: T)
    ensures var s, t := SetAfter(h), Add(SetAfter(h), x);
            Contains(t, x) && Elements(t) == Elements(s) + {x}
  {
    ReachableSetOk(h);
    hide SetAfter;
    var s, t := SetAfter(h), Add(SetAfter(h), x);
    assert s.counter + 1 in t.adds[x] && s.counter + 1 !in TagsOf(s.removes, x);
    assert Contains(t, x) by {
      if x in t.removes { assert s.counter + 1 in t.adds[x] - t.removes[x]; }
    }
    assert forall y :: y != x ==> (y in Elements(t) <==> y in Elements(s));
    assert Elements(t) == Elements(s) + {x};
  }

  /** On every reachable replica a local remove hides the item and touches no other. */
  lemma RemoveHides<T(!new)>(h: SetHistory<T>, x: T)
    ensures var s, t := SetAfter(h), Remove(SetAfter(h), x);
            !Contains(t, x) && Elements(t) == Elements(s) - {x}
  {
    ReachableSetOk(h);
    hide SetAfter;
    var s, t := SetAfter(h), Remove(SetAfter(h), x);
    ContainsIffLive(t, x);
    assert TagsOf(t.adds, x) - TagsOf(t.removes, x) == {};
    assert forall y :: y != x ==> (y in Elements(t) <==> y in Elements(s));
    assert Elements(t) == Elements(s) - {x};
  }

  lemma HiddenTags<T(!new)>(s: OrSet<T>, x: T)
    requires SetOk(s) && !Contains(s, x)
    ensures TagsOf(s.removes, x) == TagsOf(s.adds, x)
  {
    if x in s.adds && x in s.removes {
      assert forall t :: t in s.adds[x] && t !in s.removes[x] ==> t in s.adds[x] - s.removes[x];
      assert s.adds[x] <= s.removes[x];
    }
  }

  lemma ContainsIffLive<T(!new)>(s: OrSet<T>, x: T)
    ensures Contains(s, x) <==> TagsOf(s.adds, x) - TagsOf(s.removes, x) != {}
  {
  }

  /** The tags that make an item visible. */
  function LiveTags<T(!new)>(s: OrSet<T>, x: T): Tags
  {
    TagsOf(s.adds, x) - TagsOf(s.removes, x)
  }

  /** A tag once removed stays removed, and a remove retires every tag of its item and of no other. */
  lemma RemoveRetires<T(!new)>(s: OrSet<T>, x: T, y: T)
    ensures TagsOf(s.removes, y) <= TagsOf(Remove(s, x).removes, y)
    ensures TagsOf(s.adds, x) <= TagsOf(Remove(s, x).removes, x)
    ensures y != x ==> TagsOf(Remove(s, x).removes, y) == TagsOf(s.removes, y)
    ensures Remove(s, x).adds == s.adds && Remove(s, x).counter == s.counter
  {}

  /** A merge shows an item exactly when one side has a live tag for it that the other has not removed. */
  lemma JoinShowsIff<T(!new)>(g: SetHistory<T>, h: SetHistory<T>, x: T)
    ensures var p, q := SetAfter(g), SetAfter(h);
            Contains(JoinOrSet(p, q), x) <==>
            !(LiveTags(p, x) <= TagsOf(q.removes, x)) || !(LiveTags(q, x) <= TagsOf(p.removes, x))
  {
    ReachableSetOk(g);
    ReachableSetOk(h);
    hide SetAfter, JoinTags;
    var p, q := SetAfter(g), SetAfter(h);
    JoinTagsAt(p.adds, q.adds, x);
    JoinTagsAt(p.removes, q.removes, x);
    ContainsIffLive(JoinOrSet(p, q), x);
    var left, right := LiveTags(p, x) - TagsOf(q.removes, x), LiveTags(q, x) - TagsOf(p.removes, x);
    assert LiveTags(JoinOrSet(p, q), x) == left + right;
    NotSubset(LiveTags(p, x), TagsOf(q.removes, x));
    NotSubset(LiveTags(q, x), TagsOf(p.removes, x));
    if t :| t in left + right {
      assert t in left || t in right;
    }
  }

  lemma NotSubset(a: Tags, b: Tags)
    ensures a - b == {} <==> a <= b
  {
    if a - b == {} {
      forall t | t in a
        ensures t in b
      {
        assert t !in a - b;
      }
    }
  }

  /**
   * Tags are only unique per replica. An add, of an item shown or not, survives the merge with a
   * replica that does not show the item exactly when a live tag of the adder is unused over there.
   */
  lemma ConcurrentAddSurvivesIff<T(!new)>(g: SetHistory<T>, h: SetHistory<T>, x: T)
    requires !Contains(SetAfter(g), x)
    ensures var a, b := SetAfter(g), SetAfter(h);
            Contains(JoinOrSet(Add(b, x), a), x) <==> !(LiveTags(Add(b, x), x) <= TagsOf(a.adds, x))
  {
    ReachableSetOk(g);
    JoinShowsIff(Added(h, x), g, x);
    assert SetAfter(Added(h, x)) == Add(SetAfter(h), x);
    hide SetAfter, JoinTags;
    HiddenTags(SetAfter(g), x);
  }

  /** An add the other replica never observed is lost when both counters stood at the same value. */
  lemma ConcurrentAddLost<T(!new)>(x: T)
    ensures var a := SetAfter(Removed(Added(Fresh, x), x)); var b := SetAfter(Added(Fresh, x));
            Contains(b, x) && !Contains(JoinOrSet(b, a), x)
  {
    var g := Removed(Added(Fresh, x), x);
    RemoveHides(Added(Fresh, x), x);
    ConcurrentAddSurvivesIff(g, Fresh, x);
    assert TagsOf(SetAfter(g).adds, x) == {1};
    assert LiveTags(Add(SetAfter(Fresh), x), x) == {1};
    AddShows(Fresh, x);
  }

  /** So is a second add of an item already shown, when the remover has counted as far on its own. */
  lemma RepeatedAddLost<T(!new)>(x: T)
    ensures var a := SetAfter(Removed(Added(Added(Fresh, x), x), x)); var b := SetAfter(Added(Fresh, x));
            Contains(b, x) && Contains(Add(b, x), x) && !Contains(JoinOrSet(Add(b, x), a), x)
  {
    var once := Added(Fresh, x);
    var g := Removed(Added(once, x), x);
    RemoveHides(Added(once, x), x);
    ConcurrentAddSurvivesIff(g, once, x);
    TwoAdds(x);
    AddShows(Fresh, x);
    AddShows(once, x);
  }

  lemma TwoAdds<T(!new)>(x: T)
    ensures var twice := SetAfter(Added(Added(Fresh, x), x));
            TagsOf(twice.adds, x) == {1, 2} && LiveTags(twice, x) == {1, 2} &&
            TagsOf(Remove(twice, x).adds, x) == {1, 2}
  {
    var none: Tags := {};
    assert none + {1} == {1} && {1} + {2} == {1, 2};
    var start: SetHistory<T> := Fresh;
    assert SetAfter(start) == OrSet(map[], map[], 0);
    var once := SetAfter(Added(start, x));
    assert once == Add(SetAfter(start), x);
    assert once.adds[x] == {1} && once.removes == map[] && once.counter == 1;
    var twice := Add(once, x);
    assert twice.adds[x] == {1, 2} && twice.removes == map[];
  }

  // ----- ORMap ----------------------------------------------------------------

  function Put<K(!new), V>(m: ORMap<K, V>, k: K, v: V): ORMap<K, V>
  {
    m.(entries := m.entries[k := Entry(m.counter + 1, v)], counter := m.counter + 1)
  }

  function Update<K(!new), V>(join: (V, V) -> V, m: ORMap<K, V>, k: K, v: V): ORMap<K, V>
  {
    Put(m, k, if k in m.entries then join(m.entries[k].value, v) else v)
  }

  function Delete<K(!new), V>(m: ORMap<K, V>, k: K): ORMap<K, V>
  {
    if k in m.entries then m.(tombstones := m.tombstones[k := m.entries[k].tag]) else m
  }

  function Lookup<K(!new), V>(m: ORMap<K, V>, k: K): Option<V>
  {
    if k !in m.entries then None
    else if k in m.tombstones && m.tombstones[k] >= m.entries[k].tag then None
    else Some(m.entries[k].value)
  }

  /** `iter`: the visible pairs. */
  function Items<K(!new), V>(m: ORMap<K, V>): map<K, V>
  {
    map k | k in m.entries && !(k in m.tombstones && m.tombstones[k] >= m.entries[k].tag) :: m.entries[k].value
  }

  class ORMapReplica<K(==, !new), V(!new)> {
    const join: (V, V) -> V
    var entries: map<K, Entry<V>>
    var tombstones: map<K, nat>
    var counter: nat

    function View(): ORMap<K, V>
      reads this
    {
      ORMap(entries, tombstones, counter)
    }

    constructor (join: (V, V) -> V)
      ensures View() == ORMap(map[], map[], 0) && this.join == join
    {
      this.join := join;
      entries, tombstones, counter := map[], map[], 0;
    }

    method PutEntry(k: K, v: V)
      modifies this
      ensures View() == Put(old(View()), k, v)
    {
      counter := counter + 1;
      entries := entries[k := Entry(counter, v)];
    }

    method UpdateEntry(k: K, v: V)
      modifies this
      ensures View() == Update(join, old(View()), k, v)
    {
      counter := counter + 1;
      if k in entries {
        entries := entries[k := Entry(counter, join(entries[k].value, v))];
      } else {
        entries := entries[k := Entry(counter, v)];
      }
    }

    method RemoveEntry(k: K)
      modifies this
      ensures View() == Delete(old(View()), k)
    {
      if k in entries {
        tombstones := tombstones[k := entries[k].tag];
      }
    }

    method MergeFrom(other: ORMapReplica<K, V>)
      modifies this
      ensures View() == JoinORMap(join, old(View()), old(other.View()))
    {
      var theirs := other.View();
      var f := join;
      entries := MergeEntries((a: Entry<V>, b: Entry<V>) => JoinEntry(f, a, b), entries, theirs.entries);
      tombstones := MergeEntries(MaxNat, tombstones, theirs.tombstones);
      counter := MaxNat(counter, theirs.counter);
    }
  }

  datatype MapHistory<K, V> =
    | Empty
    | Stored(before: MapHistory<K, V>, key: K, value: V)
    | Updated(before: MapHistory<K, V>, key: K, value: V)
    | Deleted(before: MapHistory<K, V>, key: K)
    | Joined(before: MapHistory<K, V>, other: MapHistory<K, V>)

  function MapAfter<K(!new), V(!new)>(join: (V, V) -> V, h: MapHistory<K, V>): ORMap<K, V>
  {
    match h
    case Empty => ORMap(map[], map[], 0)
    case Stored(before, k, v) => Put(MapAfter(join, before), k, v)
    case Updated(before, k, v) => Update(join, MapAfter(join, before), k, v)
    case Deleted(before, k) => Delete(MapAfter(join, before), k)
    case Joined(before, other) => JoinORMap(join, MapAfter(join, before), MapAfter(join, other))
  }

  /** A tombstone belongs to an entry and never outruns its tag, which never outruns the counter. */
  ghost predicate MapOk<K(!new), V(!new)>(m: ORMap<K, V>)
  {
    (forall k :: k in m.entries ==> m.entries[k].tag <= m.counter) &&
    (forall k :: k in m.tombstones ==> k in m.entries && m.tombstones[k] <= m.entries[k].tag)
  }

  lemma JoinMapOk<K(!new), V(!new)>(join: (V, V) -> V, a: ORMap<K, V>, b: ORMap<K, V>)
    requires MapOk(a) && MapOk(b)
    ensures MapOk(JoinORMap(join, a, b))
  {
    hide Pointwise;
    var f := (x: Entry<V>, y: Entry<V>) => JoinEntry(join, x, y);
    var m := JoinORMap(join, a, b);
    forall k | k in m.entries ensures m.entries[k].tag <= m.counter {
      AtKey(f, a.entries, b.entries, k);
    }
    forall k | k in m.tombstones ensures k in m.entries && m.tombstones[k] <= m.entries[k].tag {
      AtKey(f, a.entries, b.entries, k);
      AtKey(MaxNat, a.tombstones, b.tombstones, k);
    }
  }

  lemma {:induction false} ReachableMapOk<K(!new), V(!new)>(join: (V, V) -> V, h: MapHistory<K, V>)
    ensures MapOk(MapAfter(join, h))
  {
    match h
    case Empty =>
    case Stored(before, _, _) => ReachableMapOk(join, before);
    case Updated(before, _, _) => ReachableMapOk(join, before);
    case Deleted(before, _) => ReachableMapOk(join, before);
    case Joined(before, other) =>
      ReachableMapOk(join, before);
      ReachableMapOk(join, other);
      JoinMapOk(join, MapAfter(join, before), MapAfter(join, other));
  }

  /** `iter` and `get` agree on every map, reachable or not. */
  lemma ItemsAgree<K(!new), V(!new)>(m: ORMap<K, V>, k: K)
    ensures Lookup(m, k) == if k in Items(m) then Some(Items(m)[k]) else None
  {
  }

  /** On every reachable map a local put shows exactly the new value and touches no other key. */
  lemma PutShows<K(!new), V(!new)>(join: (V, V) -> V, h: MapHistory<K, V>, k: K, v: V)
    ensures Items(Put(MapAfter(join, h), k, v)) == Items(MapAfter(join, h))[k := v]
  {
    ReachableMapOk(join, h);
    hide MapAfter;
    var m, n := MapAfter(join, h), Put(MapAfter(join, h), k, v);
    forall j ensures j in Items(n) <==> j in Items(m)[k := v] {}
  }

  /** A local update shows the value joined to the stored one, removed or not, and touches no other key. */
  lemma UpdateShows<K(!new), V(!new)>(join: (V, V) -> V, h: MapHistory<K, V>, k: K, v: V)
    ensures var m := MapAfter(join, h);
            Items(Update(join, m, k, v)) ==
            Items(m)[k := if k in m.entries then join(m.entries[k].value, v) else v]
  {
    PutShows(join, h, k, if k in MapAfter(join, h).entries then join(MapAfter(join, h).entries[k].value, v) else v);
  }

  /** On every reachable map a local remove hides the key and touches no other. */
  lemma DeleteHides<K(!new), V(!new)>(join: (V, V) -> V, h: MapHistory<K, V>, k: K)
    ensures Items(Delete(MapAfter(join, h), k)) == Items(MapAfter(join, h)) - {k}
  {
    hide MapAfter;
    var m, n := MapAfter(join, h), Delete(MapAfter(join, h), k);
    forall j ensures j in Items(n) <==> j in Items(m) - {k} {}
  }

  function TagAt<K(!new), V>(m: ORMap<K, V>, k: K): nat
  {
    if k in m.entries then m.entries[k].tag else 0
  }

  /** What a merge stores: both values joined, even one that was removed. */
  function JoinedValue<K(!new), V>(join: (V, V) -> V, p: ORMap<K, V>, q: ORMap<K, V>, k: K): V
    requires k in p.entries || k in q.entries
  {
    if k !in q.entries then p.entries[k].value
    else if k !in p.entries then q.entries[k].value
    else join(p.entries[k].value, q.entries[k].value)
  }

  /** A merge shows a key exactly when the larger tag is past both tombstones, and then the joined value. */
  lemma JoinLookupIff<K(!new), V(!new)>(join: (V, V) -> V, p: ORMap<K, V>, q: ORMap<K, V>, k: K)
    ensures Lookup(JoinORMap(join, p, q), k).Some? <==>
            (k in p.entries || k in q.entries) &&
            !(k in p.tombstones && p.tombstones[k] >= MaxNat(TagAt(p, k), TagAt(q, k))) &&
            !(k in q.tombstones && q.tombstones[k] >= MaxNat(TagAt(p, k), TagAt(q, k)))
    ensures var r := Lookup(JoinORMap(join, p, q), k);
            r.Some? ==> (k in p.entries || k in q.entries) && r.value == JoinedValue(join, p, q, k)
  {
    hide Pointwise;
    AtKey((x: Entry<V>, y: Entry<V>) => JoinEntry(join, x, y), p.entries, q.entries, k);
    AtKey(MaxNat, p.tombstones, q.tombstones, k);
  }

  /** A put survives a merge exactly when the other side's tombstone is below the new tag or below its own. */
  lemma ConcurrentPutSurvivesIff<K(!new), V(!new)>(join: (V, V) -> V, g: MapHistory<K, V>, h: MapHistory<K, V>, k: K,
      v: V)
    ensures var a, b := MapAfter(join, g), MapAfter(join, h);
            Lookup(JoinORMap(join, Put(b, k, v), a), k).Some? <==>
            !(k in a.tombstones && a.tombstones[k] >= MaxNat(b.counter + 1, TagAt(a, k)))
  {
    ReachableMapOk(join, h);
    hide MapAfter, JoinORMap;
    JoinLookupIff(join, Put(MapAfter(join, h), k, v), MapAfter(join, g), k);
  }

  /** A put the other side never observed, lost because that side has counted as far. */
  lemma ConcurrentPutLost<K(!new), V(!new)>(join: (V, V) -> V, k: K, v: V)
    ensures var a := MapAfter(join, Deleted(Stored(Empty, k, v), k)); var b := MapAfter(join, Empty);
            Lookup(Put(b, k, v), k) == Some(v) && Lookup(JoinORMap(join, Put(b, k, v), a), k) == None
  {
    hide JoinORMap;
    ConcurrentPutSurvivesIff(join, Deleted(Stored(Empty, k, v), k), Empty, k, v);
  }

  /** A put that survives a merge shows its own value exactly when the other side stores none that changes it. */
  lemma PutValueShowsIff<K(!new), V(!new)>(join: (V, V) -> V, a: ORMap<K, V>, b: ORMap<K, V>, k: K, v: V)
    requires Lookup(JoinORMap(join, Put(b, k, v), a), k).Some?
    ensures Lookup(JoinORMap(join, Put(b, k, v), a), k) == Some(v) <==>
            k !in a.entries || join(v, a.entries[k].value) == v
  {
    hide JoinORMap;
    JoinLookupIff(join, Put(b, k, v), a, k);
  }

  /** A value seen and removed before the put comes back joined to the new one. */
  lemma RemovedValueReturns<K(!new), V(!new)>(join: (V, V) -> V, k: K, stale: V, v: V)
    ensures var a := MapAfter(join, Stored(Empty, k, stale));
            var b := MapAfter(join, Deleted(MapHistory.Joined(Empty, Stored(Empty, k, stale)), k));
            Lookup(b, k) == None && Lookup(JoinORMap(join, Put(b, k, v), a), k) == Some(join(v, stale))
  {
    hide Pointwise;
    var start: MapHistory<K, V> := Empty;
    var h := Stored(start, k, stale);
    var none: ORMap<K, V> := ORMap(map[], map[], 0);
    assert MapAfter(join, start) == none;
    var a := MapAfter(join, h);
    assert a == Put(none, k, stale);
    var seen := MapAfter(join, MapHistory.Joined(start, h));
    assert seen == JoinORMap(join, none, a);
    AtKey((x: Entry<V>, y: Entry<V>) => JoinEntry(join, x, y), none.entries, a.entries, k);
    AtKey(MaxNat, none.tombstones, a.tombstones, k);
    var b := Delete(seen, k);
    assert b.entries[k] == Entry(1, stale) && b.tombstones[k] == 1 && b.counter == 1;
    JoinLookupIff(join, Put(b, k, v), a, k);
  }
}

/**
 * Join semilattices and merge schedules. A schedule is any tree of merges; the order, the grouping
 * and the repetitions in it do not matter, only which states it starts from.
 */
module Semilattice {

  ghost predicate Commutes<T(!new)>(dom: T -> bool, join: (T, T) -> T)
  {
    forall a, b :: dom(a) && dom(b) ==> join(a, b) == join(b, a)
  }

  ghost predicate Associates<T(!new)>(dom: T -> bool, join: (T, T) -> T)
  {
    forall a, b, c :: dom(a) && dom(b) && dom(c) ==> join(join(a, b), c) == join(a, join(b, c))
  }

  ghost predicate Absorbs<T(!new)>(dom: T -> bool, join: (T, T) -> T)
  {
    forall a :: dom(a) ==> join(a, a) == a
  }

  ghost predicate Closed<T(!new)>(dom: T -> bool, join: (T, T) -> T)
  {
    forall a, b :: dom(a) && dom(b) ==> dom(join(a, b))
  }

  /** `join` is commutative, associative and idempotent on the states in `dom`. */
  ghost predicate IsSemilattice<T(!new)>(dom: T -> bool, join: (T, T) -> T)
  {
    Closed(dom, join) && Commutes(dom, join) && Associates(dom, join) && Absorbs(dom, join)
  }

  // ----- schedules ------------------------------------------------------------

  datatype Plan<T> = State(state: T) | Merged(into: Plan<T>, from: Plan<T>)

  function Run<T>(join: (T, T) -> T, plan: Plan<T>): T
  {
    match plan
    case State(s) => s
    case Merged(into, from) => join(Run(join, into), Run(join, from))
  }

  ghost function States<T(!new)>(plan: Plan<T>): iset<T>
  {
    match plan
    case State(s) => iset{s}
    case Merged(into, from) => States(into) + States(from)
  }

  ghost predicate Within<T(!new)>(dom: T -> bool, plan: Plan<T>)
  {
    match plan
    case State(s) => dom(s)
    case Merged(into, from) => Within(dom, into) && Within(dom, from)
  }

  ghost predicate Below<T>(join: (T, T) -> T, a: T, b: T)
  {
    join(a, b) == b
  }

  lemma {:induction false} RunInDomain<T(!new)>(dom: T -> bool, join: (T, T) -> T, plan: Plan<T>)
    requires IsSemilattice(dom, join) && Within(dom, plan)
    ensures dom(Run(join, plan))
  {
    match plan
    case State(_) =>
    case Merged(into, from) =>
      RunInDomain(dom, join, into);
      RunInDomain(dom, join, from);
  }

  /** The result of a schedule is above every state that went in. */
  lemma {:induction false} StateBelowRun<T(!new)>(dom: T -> bool, join: (T, T) -> T, plan: Plan<T>, s: T)
    requires IsSemilattice(dom, join) && Within(dom, plan) && s in States(plan)
    ensures dom(s) && Below(join, s, Run(join, plan))
  {
    match plan
    case State(_) =>
    case Merged(into, from) =>
      RunInDomain(dom, join, into);
      RunInDomain(dom, join, from);
      var a, b := Run(join, into), Run(join, from);
      if s in States(into) {
        StateBelowRun(dom, join, into, s);
        assert join(s, join(a, b)) == join(join(s, a), b);
      } else {
        StateBelowRun(dom, join, from, s);
        assert join(a, b) == join(b, a);
        assert join(s, join(b, a)) == join(join(s, b), a);
      }
  }

  /** Nothing above every state that went in is below the result. */
  lemma {:induction false} RunIsLeast<T(!new)>(dom: T -> bool, join: (T, T) -> T, plan: Plan<T>, u: T)
    requires IsSemilattice(dom, join) && Within(dom, plan) && dom(u)
    requires forall s :: s in States(plan) ==> Below(join, s, u)
    ensures Below(join, Run(join, plan), u)
  {
    match plan
    case State(s) => assert s in States(plan);
    case Merged(into, from) =>
      RunInDomain(dom, join, into);
      RunInDomain(dom, join, from);
      RunIsLeast(dom, join, into, u);
      RunIsLeast(dom, join, from, u);
      var a, b := Run(join, into), Run(join, from);
      assert join(join(a, b), u) == join(a, join(b, u));
  }

  /** Any two schedules over the same set of states end in the same state. */
  lemma SchedulesAgree<T(!new)>(dom: T -> bool, join: (T, T) -> T, p: Plan<T>, q: Plan<T>)
    requires IsSemilattice(dom, join) && Within(dom, p) && Within(dom, q)
    requires States(p) == States(q)
    ensures Run(join, p) == Run(join, q)
  {
    var a, b := Run(join, p), Run(join, q);
    RunInDomain(dom, join, p);
    RunInDomain(dom, join, q);
    forall s | s in States(p) ensures Below(join, s, a) && Below(join, s, b) {
      StateBelowRun(dom, join, p, s);
      StateBelowRun(dom, join, q, s);
    }
    RunIsLeast(dom, join, p, b);
    RunIsLeast(dom, join, q, a);
    assert join(a, b) == join(b, a);
  }

  // ----- maps and pairs of semilattices ---------------------------------------

  /** Key by key; a key on one side only keeps its value. */
  function Pointwise<K(!new), V>(join: (V, V) -> V, a: map<K, V>, b: map<K, V>): (r: map<K, V>)
  {
    map k | k in a.Keys + b.Keys ::
      if k in a && k in b then join(a[k], b[k]) else if k in a then a[k] else b[k]
  }

  ghost predicate Everywhere<K(!new), V(!new)>(dom: V -> bool, m: map<K, V>)
  {
    forall k :: k in m ==> dom(m[k])
  }

  /** Maps of a semilattice form one, key by key. */
  lemma PointwiseClosed<K(!new), V(!new)>(dom: V -> bool, join: (V, V) -> V, a: map<K, V>, b: map<K, V>)
    requires Closed(dom, join) && Everywhere(dom, a) && Everywhere(dom, b)
    ensures Everywhere(dom, Pointwise(join, a, b))
  {
  }

  lemma PointwiseCommutes<K(!new), V(!new)>(dom: V -> bool, join: (V, V) -> V, a: map<K, V>, b: map<K, V>)
    requires Commutes(dom, join) && Everywhere(dom, a) && Everywhere(dom, b)
    ensures Pointwise(join, a, b) == Pointwise(join, b, a)
  {
    assert Pointwise(join, a, b).Keys == Pointwise(join, b, a).Keys;
  }

  lemma PointwiseAbsorbs<K(!new), V(!new)>(dom: V -> bool, join: (V, V) -> V, a: map<K, V>)
    requires Absorbs(dom, join) && Everywhere(dom, a)
    ensures Pointwise(join, a, a) == a
  {
  }

  lemma PointwiseAssociates<K(!new), V(!new)>(dom: V -> bool, join: (V, V) -> V, a: map<K, V>, b: map<K, V>,
                                              c: map<K, V>)
    requires Associates(dom, join) && Everywhere(dom, a) && Everywhere(dom, b) && Everywhere(dom, c)
    ensures Pointwise(join, Pointwise(join, a, b), c) == Pointwise(join, a, Pointwise(join, b, c))
  {
    var l, r := Pointwise(join, Pointwise(join, a, b), c), Pointwise(join, a, Pointwise(join, b, c));
    assert l.Keys == r.Keys;
    forall k | k in l ensures l[k] == r[k] {
      AtKey(join, a, b, k);
      AtKey(join, b, c, k);
      AtKey(join, Pointwise(join, a, b), c, k);
      AtKey(join, a, Pointwise(join, b, c), k);
      hide Pointwise;
    }
  }

  lemma MapLaws<K(!new), V(!new)>(dom: V -> bool, join: (V, V) -> V)
    requires IsSemilattice(dom, join)
    ensures IsSemilattice((m: map<K, V>) => Everywhere(dom, m), (a: map<K, V>, b: map<K, V>) => Pointwise(join, a, b))
  {
    hide Pointwise, Everywhere;
    forall a: map<K, V>, b: map<K, V> | Everywhere(dom, a) && Everywhere(dom, b)
      ensures Everywhere(dom, Pointwise(join, a, b)) && Pointwise(join, a, b) == Pointwise(join, b, a)
    {
      PointwiseClosed(dom, join, a, b);
      PointwiseCommutes(dom, join, a, b);
    }
    forall a: map<K, V>, b: map<K, V>, c: map<K, V> | Everywhere(dom, a) && Everywhere(dom, b) && Everywhere(dom, c)
      ensures Pointwise(join, Pointwise(join, a, b), c) == Pointwise(join, a, Pointwise(join, b, c))
    {
      PointwiseAssociates(dom, join, a, b, c);
    }
    forall a: map<K, V> | Everywhere(dom, a) ensures Pointwise(join, a, a) == a {
      PointwiseAbsorbs(dom, join, a);
    }
  }

  lemma AtKey<K(!new), V>(join: (V, V) -> V, a: map<K, V>, b: map<K, V>, k: K)
    ensures k in Pointwise(join, a, b) <==> k in a || k in b
    ensures k in a && k in b ==> Pointwise(join, a, b)[k] == join(a[k], b[k])
    ensures k in a && k !in b ==> Pointwise(join, a, b)[k] == a[k]
    ensures k !in a && k in b ==> Pointwise(join, a, b)[k] == b[k]
  {
  }

  /** The source's merge loop: every entry of `theirs` is joined into `mine`. */
  method MergeEntries<K(==, !new), V>(join: (V, V) -> V, mine: map<K, V>, theirs: map<K, V>) returns (out: map<K, V>)
    ensures out == Pointwise(join, mine, theirs)
  {
    hide Pointwise;
    out := mine;
    var todo := theirs.Keys;
    assert out == Pointwise(join, mine, theirs - todo) by { NothingMerged(join, mine, theirs); }
    while todo != {}
      invariant todo <= theirs.Keys
      invariant out == Pointwise(join, mine, theirs - todo)
      decreases |todo|
    {
      var k :| k in todo;
      OneMoreEntry(join, mine, theirs - todo, k, theirs[k]);
      AllButOne(theirs, todo, k);
      out := out[k := if k in out then join(out[k], theirs[k]) else theirs[k]];
      todo := todo - {k};
    }
    assert theirs - {} == theirs;
  }

  lemma NothingMerged<K(!new), V>(join: (V, V) -> V, mine: map<K, V>, theirs: map<K, V>)
    ensures Pointwise(join, mine, theirs - theirs.Keys) == mine
  {}

  lemma AllButOne<K(!new), V>(theirs: map<K, V>, todo: set<K>, k: K)
    requires todo <= theirs.Keys && k in todo
    ensures k !in theirs - todo && theirs - (todo - {k}) == (theirs - todo)[k := theirs[k]]
  {}

  lemma OneMoreEntry<K(!new), V>(join: (V, V) -> V, mine: map<K, V>, done: map<K, V>, k: K, v: V)
    requires k !in done
    ensures var out := Pointwise(join, mine, done);
            Pointwise(join, mine, done[k := v]) == out[k := if k in out then join(out[k], v) else v]
  {
    var out, next := Pointwise(join, mine, done), Pointwise(join, mine, done[k := v]);
    assert next.Keys == out.Keys + {k};
  }
}

/** Version vectors: order, join and the local tick. */
module VectorClocks {
  import opened Prelude

  type Clock = map<string, nat>

  datatype Relation = Before | After | Same | Concurrent

  function At(c: Clock, node: string): nat
  {
    if node in c then c[node] else 0
  }

  /** The pointwise order; a missing component is zero. */
  ghost predicate Leq(a: Clock, b: Clock)
  {
    forall node: string :: At(a, node) <= At(b, node)
  }

  ghost function Related(a: Clock, b: Clock): Relation
  {
    if Leq(a, b) then (if Leq(b, a) then Same else Before)
    else if Leq(b, a) then After
    else Concurrent
  }

  /** `compare`, over the keys of both clocks in any order. */
  method Compare(a: Clock, b: Clock) returns (r: Relation)
    ensures r == Related(a, b)
  {
    var aLe, bLe := true, true;
    var todo := a.Keys + b.Keys;
    while todo != {}
      invariant todo <= a.Keys + b.Keys
      invariant aLe <==> forall node :: node in a.Keys + b.Keys - todo ==> At(a, node) <= At(b, node)
      invariant bLe <==> forall node :: node in a.Keys + b.Keys - todo ==> At(b, node) <= At(a, node)
      decreases |todo|
    {
      var k :| k in todo;
      var x, y := At(a, k), At(b, k);
      if x > y {
        aLe := false;
      }
      if x < y {
        bLe := false;
      }
      todo := todo - {k};
    }
    KeysDecide(a, b);
    KeysDecide(b, a);
    assert a.Keys + b.Keys - todo == a.Keys + b.Keys;
    return if aLe && bLe then Same else if aLe then Before else if bLe then After else Concurrent;
  }

  /** The order shows at the keys the clocks have. */
  lemma KeysDecide(a: Clock, b: Clock)
    ensures Leq(a, b) <==> forall node :: node in a.Keys + b.Keys ==> At(a, node) <= At(b, node)
  {
    if forall node :: node in a.Keys + b.Keys ==> At(a, node) <= At(b, node) {
      forall node: string
        ensures At(a, node) <= At(b, node)
      {
        assert node !in a ==> At(a, node) == 0;
      }
    }
  }

  function Join(a: Clock, b: Clock): Clock
  {
    map k | k in a.Keys + b.Keys :: Max(At(a, k), At(b, k)) as nat
  }

  /** The join once the entries in `done` have been looked at. */
  ghost function JoinedOn(a: Clock, b: Clock, done: set<string>): Clock
  {
    map k | k in a.Keys + done :: if k in done then Max(At(a, k), At(b, k)) as nat else At(a, k)
  }

  lemma JoinedOnStep(a: Clock, b: Clock, done: set<string>, k: string)
    requires k !in done
    ensures JoinedOn(a, b, done + {k}) == JoinedOn(a, b, done)[k := Max(At(JoinedOn(a, b, done), k), At(b, k))]
  {}

  /** The body of the loop of `merge`. */
  method Raise(c: Clock, k: string, v: nat) returns (out: Clock)
    ensures out == c[k := Max(At(c, k), v)]
  {
    out := c;
    if k !in out {
      out := out[k := 0];
    }
    if v > out[k] {
      out := out[k := v];
    }
  }

  /** `merge`, over the entries of the other clock in any order. */
  method Merge(a: Clock, b: Clock) returns (out: Clock)
    ensures out == Join(a, b)
  {
    hide JoinedOn, Join;
    out := a;
    var todo := b.Keys;
    JoinedOnEnds(a, b);
    assert b.Keys - todo == {};
    while todo != {}
      invariant todo <= b.Keys && out == JoinedOn(a, b, b.Keys - todo)
      decreases |todo|
    {
      var k :| k in todo;
      JoinedOnStep(a, b, b.Keys - todo, k);
      assert b.Keys - (todo - {k}) == b.Keys - todo + {k};
      out := Raise(out, k, b[k]);
      todo := todo - {k};
    }
    assert b.Keys - todo == b.Keys;
  }

  lemma JoinedOnEnds(a: Clock, b: Clock)
    ensures JoinedOn(a, b, {}) == a && JoinedOn(a, b, b.Keys) == Join(a, b)
  {}

  lemma JoinAt(a: Clock, b: Clock, node: string)
    ensures At(Join(a, b), node) == Max(At(a, node), At(b, node))
  {}

  /** The join is the least upper bound. */
  lemma JoinIsLeastUpperBound(a: Clock, b: Clock, u: Clock)
    ensures Leq(a, Join(a, b)) && Leq(b, Join(a, b))
    ensures Leq(Join(a, b), u) <==> Leq(a, u) && Leq(b, u)
  {
    hide Join;
    forall node: string
      ensures At(Join(a, b), node) == Max(At(a, node), At(b, node))
    {
      JoinAt(a, b, node);
    }
    if Leq(Join(a, b), u) {
      forall node: string
        ensures At(a, node) <= At(u, node) && At(b, node) <= At(u, node)
      {
        assert At(Join(a, b), node) <= At(u, node);
      }
    }
  }

  lemma LeqTransitive(a: Clock, b: Clock, c: Clock)
    requires Leq(a, b) && Leq(b, c)
    ensures Leq(a, c)
  {
    forall node: string
      ensures At(a, node) <= At(c, node)
    {
      assert At(a, node) <= At(b, node) <= At(c, node);
    }
  }

  function Ticked(c: Clock, node: string): Clock
  {
    c[node := At(c, node) + 1]
  }

  /** A tick moves strictly up, at one component only. */
  lemma TickIsAfter(c: Clock, node: string)
    ensures Related(Ticked(c, node), c) == After
    ensures forall other: string :: At(Ticked(c, node), other) == At(c, other) + if other == node then 1 else 0
  {
    assert At(Ticked(c, node), node) > At(c, node);
  }

  /** Every entry counts something. */
  predicate Proper(c: Clock)
  {
    forall k :: k in c ==> c[k] > 0
  }

  /** Clocks built by ticks and joins are equal when the order says so. */
  lemma SameIsEqual(a: Clock, b: Clock)
    requires Proper(a) && Proper(b) && Leq(a, b) && Leq(b, a)
    ensures a == b
  {
    forall k: string
      ensures k in a <==> k in b
      ensures k in a ==> a[k] == b[k]
    {
      assert At(a, k) == At(b, k);
    }
  }

  lemma ProperKept(a: Clock, b: Clock, node: string)
    requires Proper(a) && Proper(b)
    ensures Proper(Join(a, b)) && Proper(Ticked(a, node))
  {}
}

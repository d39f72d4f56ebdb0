/** `GCounter` as an object, and what shipping its deltas achieves. */
module CounterDeltas {
  import opened Prelude
  import opened Semilattice
  import opened Crdts

  function Plus(a: nat, b: nat): nat
  {
    a + b
  }

  /** `merge_delta`: the amounts of a delta are added, key by key. */
  function AddCounts(m: Counts, delta: Counts): Counts
  {
    Pointwise(Plus, m, delta)
  }

  datatype Counter = Counter(state: Counts, pending: Counts)

  function Increment(c: Counter, node: string, amount: nat): Counter
  {
    Counter(AddCounts(c.state, map[node := amount]), AddCounts(c.pending, map[node := amount]))
  }

  lemma SingleCount(m: Counts, node: string, amount: nat)
    ensures AddCounts(m, map[node := amount]) == m[node := CountOf(m, node) + amount]
  {}

  class GCounterReplica {
    var state: Counts
    var pending: Counts

    function View(): Counter
      reads this
    {
      Counter(state, pending)
    }

    constructor ()
      ensures View() == Counter(map[], map[])
    {
      state, pending := map[], map[];
    }

    method Add(node: string, amount: nat)
      modifies this
      ensures View() == Increment(old(View()), node, amount)
    {
      hide AddCounts;
      SingleCount(state, node, amount);
      SingleCount(pending, node, amount);
      state := state[node := (if node in state then state[node] else 0) + amount];
      pending := pending[node := (if node in pending then pending[node] else 0) + amount];
    }

    /** The sum over the map's values, in whatever order the map yields them. */
    method Value() returns (sum: nat)
      ensures sum == Total(state)
    {
      hide Total;
      sum := 0;
      var todo := state;
      while todo != map[]
        invariant sum + Total(todo) == Total(state)
        decreases |todo|
      {
        var k :| k in todo;
        TotalSplit(todo, k);
        sum := sum + todo[k];
        assert (todo - {k}).Keys == todo.Keys - {k};
        todo := todo - {k};
      }
      TotalEmpty();
    }

    method MergeFrom(other: GCounterReplica)
      modifies this
      ensures state == JoinCounts(old(state), old(other.state)) && pending == old(pending)
    {
      var theirs := other.state;
      state := MergeEntries(MaxNat, state, theirs);
    }

    method TakeDelta() returns (delta: Option<Counts>)
      modifies this
      ensures state == old(state) && pending == map[]
      ensures delta == if old(pending) == map[] then None else Some(old(pending))
    {
      if pending == map[] {
        return None;
      }
      delta := Some(pending);
      pending := map[];
    }

    method MergeDelta(delta: Counts)
      modifies this
      ensures state == AddCounts(old(state), delta) && pending == old(pending)
    {
      state := MergeEntries(Plus, state, delta);
    }
  }

  // ----- shipping every delta once --------------------------------------------

  /** What a source does: count, or hand out what has accumulated. */
  datatype Op = Inc(node: string, amount: nat) | Take

  datatype Source = Source(counter: Counter, shipped: seq<Counts>)

  function Perform(s: Source, op: Op): Source
  {
    match op
    case Inc(node, amount) => s.(counter := Increment(s.counter, node, amount))
    case Take =>
      if s.counter.pending == map[] then s
      else Source(s.counter.(pending := map[]), s.shipped + [s.counter.pending])
  }

  function PerformAll(ops: seq<Op>): Source
  {
    if ops == [] then Source(Counter(map[], map[]), [])
    else Perform(PerformAll(ops[..|ops| - 1]), ops[|ops| - 1])
  }

  function ApplyAll(deltas: seq<Counts>): Counts
  {
    if deltas == [] then map[] else AddCounts(ApplyAll(deltas[..|deltas| - 1]), deltas[|deltas| - 1])
  }

  /** All that was counted, and what was counted for one node. */
  function Counted(ops: seq<Op>): nat
  {
    if ops == [] then 0
    else Counted(ops[..|ops| - 1]) + if ops[|ops| - 1].Inc? then ops[|ops| - 1].amount else 0
  }

  function CountedFor(ops: seq<Op>, node: string): nat
  {
    if ops == [] then 0
    else
      var last := ops[|ops| - 1];
      CountedFor(ops[..|ops| - 1], node) + if last.Inc? && last.node == node then last.amount else 0
  }

  lemma TotalAdds(m: Counts, node: string, amount: nat)
    ensures Total(m[node := CountOf(m, node) + amount]) == Total(m) + amount
  {
    hide Total;
    var next := m[node := CountOf(m, node) + amount];
    TotalSplit(next, node);
    assert next - {node} == m - {node};
    if node in m {
      TotalSplit(m, node);
    } else {
      assert m - {node} == m;
    }
  }

  /** The counter holds, for each node and in all, exactly what was counted; taking deltas changes nothing of it. */
  lemma {:induction false} CountsWhatWasCounted(ops: seq<Op>, node: string)
    ensures var state := PerformAll(ops).counter.state;
            CountOf(state, node) == CountedFor(ops, node) && Total(state) == Counted(ops)
  {
    hide Total, AddCounts;
    if ops == [] {
      TotalEmpty();
    } else {
      var front, last := ops[..|ops| - 1], ops[|ops| - 1];
      CountsWhatWasCounted(front, node);
      if last.Inc? {
        var state := PerformAll(front).counter.state;
        SingleCount(state, last.node, last.amount);
        TotalAdds(state, last.node, last.amount);
      }
    }
  }

  /** A receiver that gets every delta once, in the order they were taken, lags by exactly what is pending. */
  lemma {:induction false} ReceiverLagsByPending(ops: seq<Op>)
    ensures var s := PerformAll(ops); s.counter.state == AddCounts(ApplyAll(s.shipped), s.counter.pending)
  {
    if ops != [] {
      var before := PerformAll(ops[..|ops| - 1]);
      ReceiverLagsByPending(ops[..|ops| - 1]);
      var applied := ApplyAll(before.shipped);
      match ops[|ops| - 1] {
        case Inc(node, amount) =>
          AddAssociates(applied, before.counter.pending, map[node := amount]);
        case Take =>
          assert (before.shipped + [before.counter.pending])[..|before.shipped|] == before.shipped;
          AddNothing(AddCounts(applied, before.counter.pending));
      }
    }
  }

  lemma AddAssociates(a: Counts, b: Counts, c: Counts)
    ensures AddCounts(AddCounts(a, b), c) == AddCounts(a, AddCounts(b, c))
  {
    PointwiseAssociates(x => Any(x), Plus, a, b, c);
  }

  lemma AddCommutes(a: Counts, b: Counts)
    ensures AddCounts(a, b) == AddCounts(b, a)
  {
    PointwiseCommutes(x => Any(x), Plus, a, b);
  }

  lemma AddNothing(a: Counts)
    ensures AddCounts(a, map[]) == a && AddCounts(map[], a) == a
  {}

  lemma {:induction false} ApplyConcat(a: seq<Counts>, b: seq<Counts>)
    ensures ApplyAll(a + b) == AddCounts(ApplyAll(a), ApplyAll(b))
    decreases |b|
  {
    if b == [] {
      assert a + b == a;
      AddNothing(ApplyAll(a));
    } else {
      var front, last := b[..|b| - 1], b[|b| - 1];
      assert (a + b)[..|a + b| - 1] == a + front && (a + b)[|a + b| - 1] == last;
      ApplyConcat(a, front);
      AddAssociates(ApplyAll(a), ApplyAll(front), last);
    }
  }

  /** The order in which deltas arrive does not matter. */
  lemma {:induction false} OrderDoesNotMatter(a: seq<Counts>, b: seq<Counts>)
    requires multiset(a) == multiset(b)
    ensures ApplyAll(a) == ApplyAll(b)
    decreases |a|
  {
    hide AddCounts;
    if a == [] {
      assert |multiset(b)| == |b|;
      assert b == [];
    } else {
      var front, x := a[..|a| - 1], a[|a| - 1];
      assert a == front + [x];
      var j := Matching(front, x, b);
      var left, right := b[..j], b[j + 1..];
      assert b == left + [x] + right;
      OrderDoesNotMatter(front, left + right);
      MoveToEnd(left, x, right);
    }
  }

  lemma MoveToEnd(left: seq<Counts>, x: Counts, right: seq<Counts>)
    ensures ApplyAll(left + [x] + right) == AddCounts(ApplyAll(left + right), x)
  {
    hide AddCounts;
    var l, r := ApplyAll(left), ApplyAll(right);
    ApplyConcat(left + [x], right);
    ApplyConcat(left, right);
    assert (left + [x])[..|left|] == left;
    AddAssociates(l, x, r);
    AddCommutes(x, r);
    AddAssociates(l, r, x);
  }

  /** So an empty replica that applies every delta once, in any order, becomes the source. */
  lemma DeltasRebuildSource(ops: seq<Op>, order: seq<Counts>)
    requires var s := PerformAll(ops); multiset(order) == multiset(s.shipped) && s.counter.pending == map[]
    ensures ApplyAll(order) == PerformAll(ops).counter.state
  {
    hide AddCounts, ApplyAll, PerformAll;
    var s := PerformAll(ops);
    OrderDoesNotMatter(order, s.shipped);
    ReceiverLagsByPending(ops);
    AddNothing(ApplyAll(s.shipped));
  }

  /** Applying a delta a second time is harmless only when it holds nothing but zeros. */
  lemma TwiceIsOnceIff(m: Counts, delta: Counts)
    ensures AddCounts(AddCounts(m, delta), delta) == AddCounts(m, delta) <==> forall k :: k in delta ==> delta[k] == 0
  {
    var once, twice := AddCounts(m, delta), AddCounts(AddCounts(m, delta), delta);
    assert once.Keys == twice.Keys;
    forall k | k in once
      ensures twice[k] == once[k] + CountOf(delta, k)
    {}
    if once == twice {
      forall k | k in delta
        ensures delta[k] == 0
      {
        assert k in once;
      }
    }
  }
}

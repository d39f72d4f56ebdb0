/** Whole runs of signed sums: single-writer accumulators, the converged value, delta shipping. */
module SignedSumRuns {
  import opened Prelude
  import opened Semilattice
  import opened Crdts
  import opened SignedSums

  // ----- what a node's deltas add up to ---------------------------------------

  /** Exact total of the non-negative deltas. */
  function Gains(ds: seq<int>): nat
  {
    if ds == [] then 0 else Gains(ds[..|ds| - 1]) + Max(0, ds[|ds| - 1])
  }

  /** Exact total of the magnitudes of the negative deltas. */
  function Losses(ds: seq<int>): nat
  {
    if ds == [] then 0 else Losses(ds[..|ds| - 1]) + Max(0, -ds[|ds| - 1])
  }

  // ----- a system of replicas -------------------------------------------------

  /** One replica per node, states ever published, and the deltas each node has added. */
  datatype System = System(replicas: map<string, PosNeg>, published: set<PosNeg>, deltas: map<string, seq<int>>)

  datatype Step =
    | Adds(node: string, delta: int)
    | Publishes(node: string)
    | Receives(node: string, state: PosNeg)

  predicate Enabled(sys: System, step: Step)
  {
    step.node in sys.replicas && step.node in sys.deltas &&
    match step
    case Adds(_, delta) => IsI128(delta)
    case Publishes(_) => true
    case Receives(_, state) => state in sys.published
  }

  function Next(sys: System, step: Step): System
    requires Enabled(sys, step)
  {
    var mine := sys.replicas[step.node];
    match step
    case Adds(node, delta) =>
      sys.(replicas := sys.replicas[node := Credit(mine, node, delta)],
           deltas := sys.deltas[node := sys.deltas[node] + [delta]])
    case Publishes(_) => sys.(published := sys.published + {mine})
    case Receives(node, state) => sys.(replicas := sys.replicas[node := JoinPosNeg(mine, state)])
  }

  predicate IsRun(sys: System, steps: seq<Step>)
    decreases |steps|
  {
    steps == [] || (Enabled(sys, steps[0]) && IsRun(Next(sys, steps[0]), steps[1..]))
  }

  function After(sys: System, steps: seq<Step>): System
    requires IsRun(sys, steps)
    decreases |steps|
  {
    if steps == [] then sys else After(Next(sys, steps[0]), steps[1..])
  }

  function Initial(nodes: set<string>): System
  {
    System(map n | n in nodes :: NOTHING, {}, map n | n in nodes :: [])
  }

  // ----- the single-writer invariant ------------------------------------------

  /** `p` knows no more of any node than the node itself, and nothing of strangers. */
  predicate Behind(p: PosNeg, sys: System)
  {
    p.pos.Keys <= sys.replicas.Keys && p.neg.Keys <= sys.replicas.Keys &&
    forall n :: n in sys.replicas ==>
      CountOf(p.pos, n) <= CountOf(sys.replicas[n].pos, n) && CountOf(p.neg, n) <= CountOf(sys.replicas[n].neg, n)
  }

  /** A node's own accumulators are the saturated totals of its deltas. */
  predicate OwnTotals(sys: System)
  {
    forall n :: n in sys.replicas ==>
      n in sys.deltas &&
      CountOf(sys.replicas[n].pos, n) == Min(I128_MAX, Gains(sys.deltas[n])) &&
      CountOf(sys.replicas[n].neg, n) == Min(I128_MAX, Losses(sys.deltas[n]))
  }

  predicate SystemOk(sys: System)
  {
    OwnTotals(sys) &&
    (forall r :: r in sys.replicas ==> Behind(sys.replicas[r], sys)) &&
    (forall p :: p in sys.published ==> Behind(p, sys))
  }

  lemma JoinCountsGet(a: Counts, b: Counts, k: string)
    ensures CountOf(JoinCounts(a, b), k) == Max(CountOf(a, k), CountOf(b, k))
    ensures JoinCounts(a, b).Keys == a.Keys + b.Keys
  {
  }

  lemma JoinBehind(a: PosNeg, b: PosNeg, sys: System)
    requires Behind(a, sys) && Behind(b, sys)
    ensures Behind(JoinPosNeg(a, b), sys)
  {
    hide JoinCounts;
    forall n ensures CountOf(JoinPosNeg(a, b).pos, n) == Max(CountOf(a.pos, n), CountOf(b.pos, n))
                  && CountOf(JoinPosNeg(a, b).neg, n) == Max(CountOf(a.neg, n), CountOf(b.neg, n)) {
      JoinCountsGet(a.pos, b.pos, n);
      JoinCountsGet(a.neg, b.neg, n);
    }
    JoinCountsGet(a.pos, b.pos, "");
    JoinCountsGet(a.neg, b.neg, "");
  }

  /** Crediting a node raises only its own accumulators, to the saturated sums. */
  lemma CreditGet(p: PosNeg, node: string, d: int)
    requires IsI128(d)
    ensures var q := Credit(p, node, d);
            (forall n :: n != node ==>
             CountOf(q.pos, n) == CountOf(p.pos, n) && CountOf(q.neg, n) == CountOf(p.neg, n)) &&
            q.pos.Keys <= p.pos.Keys + {node} && q.neg.Keys <= p.neg.Keys + {node} &&
            (CountOf(p.pos, node) <= I128_MAX ==>
             CountOf(q.pos, node) == Min(I128_MAX, CountOf(p.pos, node) + Max(0, d))) &&
            (CountOf(p.neg, node) <= I128_MAX ==>
             CountOf(q.neg, node) == Min(I128_MAX, CountOf(p.neg, node) + Max(0, -d)))
  {
  }

  /** No node's own accumulators have gone down. */
  predicate Grown(sys: System, next: System)
  {
    next.replicas.Keys == sys.replicas.Keys &&
    forall n :: n in sys.replicas ==>
      CountOf(sys.replicas[n].pos, n) <= CountOf(next.replicas[n].pos, n) &&
        CountOf(sys.replicas[n].neg, n) <= CountOf(next.replicas[n].neg, n)
  }

  lemma BehindGrown(sys: System, next: System)
    requires Grown(sys, next)
    ensures forall p :: Behind(p, sys) ==> Behind(p, next)
  {
    hide CountOf;
  }

  /** Replacing one replica keeps the invariant when the node's own totals and the order are kept. */
  lemma ReplaceKeeps(sys: System, next: System, node: string)
    requires SystemOk(sys) && node in sys.replicas && Grown(sys, next) && OwnTotals(next)
    requires next.published == sys.published && next.replicas == sys.replicas[node := next.replicas[node]]
    requires Behind(next.replicas[node], next)
    ensures SystemOk(next)
  {
    hide CountOf, OwnTotals, Behind, Grown;
    BehindGrown(sys, next);
  }

  lemma AddKeeps(sys: System, node: string, d: int)
    requires SystemOk(sys) && Enabled(sys, Adds(node, d))
    ensures SystemOk(Next(sys, Adds(node, d)))
  {
    hide OwnTotals, Behind, Grown, Credit;
    AddTotals(sys, node, d);
    ReplaceKeeps(sys, Next(sys, Adds(node, d)), node);
  }

  lemma AddTotals(sys: System, node: string, d: int)
    requires OwnTotals(sys) && Enabled(sys, Adds(node, d)) && Behind(sys.replicas[node], sys)
    ensures var next := Next(sys, Adds(node, d));
            OwnTotals(next) && Grown(sys, next) && Behind(next.replicas[node], next)
  {
    hide Credit, CountOf, Gains, Losses, Min, Behind;
    var next := Next(sys, Adds(node, d));
    OwnAfterAdd(sys.replicas[node], sys.deltas[node], node, d);
    assert OwnTotals(next) && Grown(sys, next);
    AddBehind(sys, next, node, d);
  }

  lemma AddBehind(sys: System, next: System, node: string, d: int)
    requires IsI128(d) && node in sys.replicas && Behind(sys.replicas[node], sys) && Grown(sys, next)
    requires next.replicas == sys.replicas[node := Credit(sys.replicas[node], node, d)]
    ensures Behind(next.replicas[node], next)
  {
    hide Credit, CountOf;
    CreditElsewhere(sys.replicas[node], node, d);
    var q := next.replicas[node];
    forall n | n in next.replicas
      ensures CountOf(q.pos, n) <= CountOf(next.replicas[n].pos, n) &&
              CountOf(q.neg, n) <= CountOf(next.replicas[n].neg, n)
    {
      if n != node {
        assert next.replicas[n] == sys.replicas[n];
      }
    }
  }

  lemma CreditElsewhere(p: PosNeg, node: string, d: int)
    requires IsI128(d)
    ensures var q := Credit(p, node, d);
            (forall n :: n != node ==>
             CountOf(q.pos, n) == CountOf(p.pos, n) && CountOf(q.neg, n) == CountOf(p.neg, n)) &&
            q.pos.Keys <= p.pos.Keys + {node} && q.neg.Keys <= p.neg.Keys + {node}
  {
    CreditGet(p, node, d);
  }

  lemma OwnAfterAdd(p: PosNeg, ds: seq<int>, node: string, d: int)
    requires IsI128(d)
    requires CountOf(p.pos, node) == Min(I128_MAX, Gains(ds)) && CountOf(p.neg, node) == Min(I128_MAX, Losses(ds))
    ensures var q := Credit(p, node, d);
            CountOf(q.pos, node) == Min(I128_MAX, Gains(ds + [d])) &&
              CountOf(q.neg, node) == Min(I128_MAX, Losses(ds + [d])) &&
            CountOf(p.pos, node) <= CountOf(q.pos, node) && CountOf(p.neg, node) <= CountOf(q.neg, node)
  {
    CreditGet(p, node, d);
    assert (ds + [d])[..|ds|] == ds;
  }

  lemma ReceiveKeeps(sys: System, node: string, state: PosNeg)
    requires SystemOk(sys) && Enabled(sys, Receives(node, state))
    ensures SystemOk(Next(sys, Receives(node, state)))
  {
    hide OwnTotals, Behind, Grown, JoinPosNeg;
    ReceiveTotals(sys, node, state);
    ReplaceKeeps(sys, Next(sys, Receives(node, state)), node);
  }

  lemma ReceiveTotals(sys: System, node: string, state: PosNeg)
    requires OwnTotals(sys) && Enabled(sys, Receives(node, state)) && Behind(sys.replicas[node], sys) &&
             Behind(state, sys)
    ensures var next := Next(sys, Receives(node, state));
            OwnTotals(next) && Grown(sys, next) && Behind(next.replicas[node], next)
  {
    hide JoinPosNeg, CountOf, Gains, Losses, Min, Behind;
    var next := Next(sys, Receives(node, state));
    JoinBehind(sys.replicas[node], state, sys);
    OwnUnchanged(sys.replicas[node], state, sys, node);
    assert Grown(sys, next);
    BehindGrown(sys, next);
  }

  /** Nothing in flight is ahead of the node itself, so receiving never changes its own accumulators. */
  lemma OwnUnchanged(mine: PosNeg, state: PosNeg, sys: System, node: string)
    requires node in sys.replicas && mine == sys.replicas[node] && Behind(state, sys)
    ensures CountOf(JoinPosNeg(mine, state).pos, node) == CountOf(mine.pos, node)
    ensures CountOf(JoinPosNeg(mine, state).neg, node) == CountOf(mine.neg, node)
  {
    hide JoinCounts, CountOf;
    JoinCountsGet(mine.pos, state.pos, node);
    JoinCountsGet(mine.neg, state.neg, node);
  }

  lemma {:induction false} RunKeeps(sys: System, steps: seq<Step>)
    requires SystemOk(sys) && IsRun(sys, steps)
    ensures SystemOk(After(sys, steps)) && After(sys, steps).replicas.Keys == sys.replicas.Keys
    decreases |steps|
  {
    hide SystemOk;
    if steps != [] {
      match steps[0] {
        case Adds(node, d) => AddKeeps(sys, node, d);
        case Publishes(node) => PublishKeeps(sys, node);
        case Receives(node, state) => ReceiveKeeps(sys, node, state);
      }
      RunKeeps(Next(sys, steps[0]), steps[1..]);
    }
  }

  lemma PublishKeeps(sys: System, node: string)
    requires SystemOk(sys) && Enabled(sys, Publishes(node))
    ensures SystemOk(Next(sys, Publishes(node)))
  {
    var next := Next(sys, Publishes(node));
    forall p | Behind(p, sys) ensures Behind(p, next) {}
  }

  /**
   * In every run every replica's accumulators for a node are at most the node's own, which are the
   * saturated totals of the node's deltas.
   */
  lemma EveryRunIsSingleWriter(nodes: set<string>, steps: seq<Step>)
    requires IsRun(Initial(nodes), steps)
    ensures SystemOk(After(Initial(nodes), steps))
  {
    RunKeeps(Initial(nodes), steps);
  }

  // ----- the converged value --------------------------------------------------

  /** Exact gains and losses per node. */
  function GainsByNode(sys: System): Counts
  {
    map n | n in sys.deltas && n in sys.replicas :: Gains(sys.deltas[n])
  }

  function LossesByNode(sys: System): Counts
  {
    map n | n in sys.deltas && n in sys.replicas :: Losses(sys.deltas[n])
  }

  ghost predicate MergesAll(plan: Plan<PosNeg>, sys: System)
  {
    (forall n :: n in sys.replicas ==> sys.replicas[n] in States(plan)) &&
    (forall p :: p in States(plan) ==> exists n :: n in sys.replicas && sys.replicas[n] == p)
  }

  lemma {:induction false} RunBehind(plan: Plan<PosNeg>, sys: System)
    requires forall p :: p in States(plan) ==> Behind(p, sys)
    ensures Behind(Run(JoinPosNeg, plan), sys)
  {
    hide Behind, JoinPosNeg;
    match plan
    case State(p) => assert p in States(plan);
    case Merged(into, from) =>
      RunBehind(into, sys);
      RunBehind(from, sys);
      JoinBehind(Run(JoinPosNeg, into), Run(JoinPosNeg, from), sys);
  }

  lemma {:induction false} RunAbove(plan: Plan<PosNeg>, p: PosNeg, k: string)
    requires p in States(plan)
    ensures CountOf(p.pos, k) <= CountOf(Run(JoinPosNeg, plan).pos, k) &&
            CountOf(p.neg, k) <= CountOf(Run(JoinPosNeg, plan).neg, k)
  {
    hide CountOf, JoinCounts;
    match plan
    case State(_) =>
    case Merged(into, from) =>
      if p in States(into) { RunAbove(into, p, k); } else { RunAbove(from, p, k); }
      var a, b := Run(JoinPosNeg, into), Run(JoinPosNeg, from);
      JoinCountsGet(a.pos, b.pos, k);
      JoinCountsGet(a.neg, b.neg, k);
  }

  /** Saturating each part does not change the saturated whole. */
  lemma {:induction false} SaturatedParts(parts: Counts, exact: Counts)
    requires parts.Keys <= exact.Keys
    requires forall n :: n in exact ==> CountOf(parts, n) == Min(I128_MAX, exact[n])
    ensures Min(I128_MAX, Total(parts)) == Min(I128_MAX, Total(exact))
    decreases |exact|
  {
    hide Total;
    if exact == map[] {
      assert parts == map[];
    } else {
      var n :| n in exact;
      Shrinks(exact, n);
      TotalSplit(exact, n);
      SaturatedParts(parts - {n}, exact - {n});
      if n in parts {
        TotalSplit(parts, n);
      } else {
        assert parts - {n} == parts;
      }
    }
  }

  /**
   * However the replicas are merged, the value is the saturated sum of all gains less the saturated
   * sum of all losses.
   */
  lemma ConvergedValue(sys: System, plan: Plan<PosNeg>)
    requires SystemOk(sys) && MergesAll(plan, sys)
    ensures Net(Run(JoinPosNeg, plan)) ==
            Min(I128_MAX, Total(GainsByNode(sys))) - Min(I128_MAX, Total(LossesByNode(sys)))
  {
    hide Total, JoinPosNeg, CountOf, Gains, Losses, Run, Min;
    var j := Run(JoinPosNeg, plan);
    RunBehind(plan, sys);
    forall n | n in sys.replicas
      ensures CountOf(j.pos, n) == CountOf(sys.replicas[n].pos, n) &&
              CountOf(j.neg, n) == CountOf(sys.replicas[n].neg, n)
    {
      RunAbove(plan, sys.replicas[n], n);
    }
    SaturatedParts(j.pos, GainsByNode(sys));
    SaturatedParts(j.neg, LossesByNode(sys));
  }

  /** The two facts together, for every run from empty replicas. */
  lemma EveryRunConverges(nodes: set<string>, steps: seq<Step>, plan: Plan<PosNeg>)
    requires IsRun(Initial(nodes), steps) && MergesAll(plan, After(Initial(nodes), steps))
    ensures var sys := After(Initial(nodes), steps);
            Net(Run(JoinPosNeg, plan)) ==
            Min(I128_MAX, Total(GainsByNode(sys))) - Min(I128_MAX, Total(LossesByNode(sys)))
  {
    EveryRunIsSingleWriter(nodes, steps);
    ConvergedValue(After(Initial(nodes), steps), plan);
  }

  // ----- delta shipping -------------------------------------------------------

  datatype Op = Add(node: string, delta: int) | Take

  predicate OpsOk(ops: seq<Op>)
  {
    forall i :: 0 <= i < |ops| && ops[i].Add? ==> IsI128(ops[i].delta)
  }

  datatype Shipping = Shipping(source: SignedSum, taken: seq<PosNeg>)

  /** `add` and `take_delta` at the source; an empty delta is not emitted. */
  function Perform(st: Shipping, op: Op): Shipping
    requires op.Add? ==> IsI128(op.delta)
  {
    match op
    case Add(node, d) => st.(source := AddDelta(st.source, node, d))
    case Take =>
      if st.source.pending == NOTHING then st
      else Shipping(st.source.(pending := NOTHING), st.taken + [st.source.pending])
  }

  function PerformAll(ops: seq<Op>): Shipping
    requires OpsOk(ops)
  {
    if ops == [] then Shipping(SignedSum(NOTHING, NOTHING), [])
    else Perform(PerformAll(ops[..|ops| - 1]), ops[|ops| - 1])
  }

  function ApplyAll(deltas: seq<PosNeg>): PosNeg
  {
    if deltas == [] then NOTHING else ApplyDelta(ApplyAll(deltas[..|deltas| - 1]), deltas[|deltas| - 1])
  }

  /** The positive or the negative accumulator. */
  function Half(p: PosNeg, gain: bool): Counts
  {
    if gain then p.pos else p.neg
  }

  /** Total of one accumulator entry over a list of deltas, and the nodes that occur. */
  function SumAt(ds: seq<PosNeg>, gain: bool, k: string): nat
  {
    if ds == [] then 0 else SumAt(ds[..|ds| - 1], gain, k) + CountOf(Half(ds[|ds| - 1], gain), k)
  }

  function KeysIn(ds: seq<PosNeg>, gain: bool): set<string>
  {
    if ds == [] then {} else KeysIn(ds[..|ds| - 1], gain) + Half(ds[|ds| - 1], gain).Keys
  }

  /** `m` holds exactly the saturated totals of the deltas together with `pending`. */
  predicate Holds(m: Counts, ds: seq<PosNeg>, gain: bool, pending: Counts)
  {
    m.Keys == KeysIn(ds, gain) + pending.Keys &&
    forall k :: k in m ==> m[k] == Min(I128_MAX, SumAt(ds, gain, k) + CountOf(pending, k))
  }

  lemma {:induction false} NoKeyNoSum(ds: seq<PosNeg>, gain: bool, k: string)
    requires k !in KeysIn(ds, gain)
    ensures SumAt(ds, gain, k) == 0
  {
    if ds != [] {
      NoKeyNoSum(ds[..|ds| - 1], gain, k);
    }
  }

  lemma HoldsAdd(m: Counts, ds: seq<PosNeg>, gain: bool, pending: Counts, node: string, amount: nat)
    requires Holds(m, ds, gain, pending)
    ensures Holds(AddInto(m, node, amount), ds, gain, AddInto(pending, node, amount))
  {
    hide KeysIn, SumAt;
    if node !in m {
      NoKeyNoSum(ds, gain, node);
    }
  }

  lemma HoldsTake(m: Counts, ds: seq<PosNeg>, gain: bool, delta: PosNeg)
    requires Holds(m, ds, gain, Half(delta, gain))
    ensures Holds(m, ds + [delta], gain, map[])
  {
    hide Min, CountOf;
    assert (ds + [delta])[..|ds|] == ds;
    assert forall k :: CountOf(map[], k) == 0 by { forall k ensures CountOf(map[], k) == 0 { EmptyGet(k); } }
  }

  lemma EmptyGet(k: string)
    ensures CountOf(map[], k) == 0
  {
  }

  lemma HoldsApply(m: Counts, ds: seq<PosNeg>, gain: bool, delta: PosNeg)
    requires Holds(m, ds, gain, map[]) && Bounded(Half(delta, gain))
    ensures Holds(Pointwise(AddSat, m, Half(delta, gain)), ds + [delta], gain, map[])
  {
    hide KeysIn, SumAt, Pointwise;
    var d := Half(delta, gain);
    var out := Pointwise(AddSat, m, d);
    SnocTotals(ds, delta, gain);
    forall k ensures k in out <==> k in m || k in d { AtKey(AddSat, m, d, k); }
    forall k | k in out ensures out[k] == Min(I128_MAX, SumAt(ds + [delta], gain, k) + CountOf(map[], k)) {
      AtKey(AddSat, m, d, k);
      if k !in m {
        NoKeyNoSum(ds, gain, k);
      }
    }
  }

  lemma SnocTotals(ds: seq<PosNeg>, delta: PosNeg, gain: bool)
    ensures KeysIn(ds + [delta], gain) == KeysIn(ds, gain) + Half(delta, gain).Keys
    ensures forall k :: SumAt(ds + [delta], gain, k) == SumAt(ds, gain, k) + CountOf(Half(delta, gain), k)
  {
    assert (ds + [delta])[..|ds|] == ds;
  }

  predicate BothBounded(p: PosNeg)
  {
    Bounded(p.pos) && Bounded(p.neg)
  }

  /** What the source holds is what it shipped plus what it still has pending. */
  lemma {:induction false} SourceHolds(ops: seq<Op>, gain: bool)
    requires OpsOk(ops)
    ensures var st := PerformAll(ops);
            Holds(Half(st.source.shared, gain), st.taken, gain, Half(st.source.pending, gain)) &&
            BothBounded(st.source.pending) && forall i :: 0 <= i < |st.taken| ==> BothBounded(st.taken[i])
  {
    hide Holds;
    if ops == [] {
      HoldsNothing(gain);
    } else {
      SourceHolds(ops[..|ops| - 1], gain);
      var st := PerformAll(ops[..|ops| - 1]);
      match ops[|ops| - 1] {
        case Add(node, d) =>
          var amount := if d >= 0 then d else Magnitude(d);
          HoldsAdd(Half(st.source.shared, gain), st.taken, gain, Half(st.source.pending, gain), node, amount);
        case Take =>
          HoldsTake(Half(st.source.shared, gain), st.taken, gain, st.source.pending);
      }
    }
  }

  lemma HoldsNothing(gain: bool)
    ensures Holds(map[], [], gain, map[])
  {
  }

  lemma {:induction false} AppliedHolds(ds: seq<PosNeg>, gain: bool)
    requires forall i :: 0 <= i < |ds| ==> BothBounded(ds[i])
    ensures Holds(Half(ApplyAll(ds), gain), ds, gain, map[])
  {
    hide Holds;
    if ds == [] {
      HoldsNothing(gain);
    } else {
      var front, last := ds[..|ds| - 1], ds[|ds| - 1];
      AppliedHolds(front, gain);
      assert BothBounded(last);
      HoldsApply(Half(ApplyAll(front), gain), front, gain, last);
      assert front + [last] == ds;
    }
  }

  /** Taking one delta out of the list, wherever it stands. */
  lemma {:induction false} WithoutOne(ds: seq<PosNeg>, j: nat, gain: bool, k: string)
    requires j < |ds|
    ensures var rest := ds[..j] + ds[j + 1..];
            SumAt(ds, gain, k) == SumAt(rest, gain, k) + CountOf(Half(ds[j], gain), k) &&
            KeysIn(ds, gain) == KeysIn(rest, gain) + Half(ds[j], gain).Keys
  {
    hide SumAt, KeysIn, CountOf, Half;
    var n := |ds| - 1;
    var front, last := ds[..n], ds[n];
    var rest := ds[..j] + ds[j + 1..];
    assert ds == front + [last];
    SnocTotals(front, last, gain);
    if j == n {
      assert rest == front;
    } else {
      var less := front[..j] + front[j + 1..];
      WithoutOne(front, j, gain, k);
      assert rest == less + [last];
      SnocTotals(less, last, gain);
    }
  }

  lemma {:induction false} OrderDoesNotMatter(a: seq<PosNeg>, b: seq<PosNeg>, gain: bool, k: string)
    requires multiset(a) == multiset(b)
    ensures SumAt(a, gain, k) == SumAt(b, gain, k) && KeysIn(a, gain) == KeysIn(b, gain)
    decreases |a|
  {
    hide SumAt, KeysIn, CountOf, Half;
    if a == [] {
      assert |multiset(b)| == |b|;
      assert b == [];
    } else {
      var front, x := a[..|a| - 1], a[|a| - 1];
      assert a == front + [x];
      var j := Matching(front, x, b);
      SnocTotals(front, x, gain);
      OrderDoesNotMatter(front, b[..j] + b[j + 1..], gain, k);
      WithoutOne(b, j, gain, k);
    }
  }

  lemma HoldsUnique(m: Counts, n: Counts, a: seq<PosNeg>, b: seq<PosNeg>, gain: bool)
    requires Holds(m, a, gain, map[]) && Holds(n, b, gain, map[]) && multiset(a) == multiset(b)
    ensures m == n
  {
    hide KeysIn, SumAt;
    OrderDoesNotMatter(a, b, gain, "");
    forall k | k in m ensures m[k] == n[k] {
      OrderDoesNotMatter(a, b, gain, k);
    }
  }

  /**
   * Deltas taken from a source that only adds, each applied once and in any order to an empty
   * replica, rebuild the source once nothing is pending.
   */
  lemma DeltasRebuildSource(ops: seq<Op>, order: seq<PosNeg>)
    requires OpsOk(ops) && PerformAll(ops).source.pending == NOTHING
    requires multiset(order) == multiset(PerformAll(ops).taken)
    ensures ApplyAll(order) == PerformAll(ops).source.shared
  {
    hide Holds, PerformAll;
    var st := PerformAll(ops);
    forall i | 0 <= i < |order| ensures BothBounded(order[i]) {
      assert order[i] in multiset(order);
      SourceHolds(ops, true);
    }
    forall gain: bool ensures Half(ApplyAll(order), gain) == Half(st.source.shared, gain) {
      SourceHolds(ops, gain);
      AppliedHolds(order, gain);
      HoldsUnique(Half(ApplyAll(order), gain), Half(st.source.shared, gain), order, st.taken, gain);
    }
    assert Half(ApplyAll(order), true) == ApplyAll(order).pos && Half(ApplyAll(order), false) == ApplyAll(order).neg;
  }
}

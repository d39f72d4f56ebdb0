/**
 * Rebalancing that moves every shard it names before it looks again. A batch can undo some of its
 * own progress, but never all of it: the loop settles for every batch size.
 */
module BatchRebalancing {
  import opened Prelude
  import opened Sharding
  import opened Rebalancing

  // ----- ranks of region names ------------------------------------------------

  ghost function Rank(all: set<string>, r: string): nat
  {
    |set x | x in all && LexLess(x, r)|
  }

  lemma RankLess(all: set<string>, p: string, q: string)
    requires p in all && LexLess(p, q)
    ensures Rank(all, p) < Rank(all, q)
  {
    var below, upTo := set x | x in all && LexLess(x, p), set x | x in all && LexLess(x, q);
    forall x | x in below
      ensures x in upTo
    {
      LexTransitive(x, p, q);
    }
    if LexLess(p, p) {
      LexAsymmetric(p, p);
    }
    assert p in upTo && p !in below;
    Smaller(below, upTo, p);
  }

  lemma Smaller(a: set<string>, b: set<string>, p: string)
    requires a <= b && p in b && p !in a
    ensures |a| < |b|
  {
    assert |b - a| + |a| == |b|;
    assert p in b - a;
  }

  ghost function RankSum(all: set<string>, s: set<string>): nat
  {
    if s == {} then 0
    else
      var r :| r in s;
      Rank(all, r) + RankSum(all, s - {r})
  }

  lemma {:induction false} RankSplit(all: set<string>, s: set<string>, r: string)
    requires r in s
    ensures RankSum(all, s) == Rank(all, r) + RankSum(all, s - {r})
    decreases |s|
  {
    hide Rank;
    var x :| x in s && RankSum(all, s) == Rank(all, x) + RankSum(all, s - {x});
    if x != r {
      RankSplit(all, s - {x}, r);
      RankSplit(all, s - {r}, x);
      assert s - {x} - {r} == s - {r} - {x};
    }
  }

  lemma RankAdd(all: set<string>, s: set<string>, r: string)
    requires r !in s
    ensures RankSum(all, s + {r}) == RankSum(all, s) + Rank(all, r)
  {
    RankSplit(all, s + {r}, r);
    assert s + {r} - {r} == s;
  }

  // ----- one move -------------------------------------------------------------

  /** The region with fewer shards than any other. */
  ghost predicate Alone(t: Table, u: string)
  {
    u in t.Values && forall r :: r in t.Values && r != u ==> Load(t, u) < Load(t, r)
  }

  lemma LeastIsMinimum(t: Table, region: string)
    requires IsLeast(Counts(t), region)
    ensures region in t.Values
    ensures forall r :: r in t.Values && r != region ==>
              Load(t, region) < Load(t, r) || (Load(t, region) == Load(t, r) && LexLess(region, r))
  {
    hide Load, LexLess;
    assert forall r :: r in t.Values ==> r in Counts(t);
    assert forall r :: r in Counts(t) && r != region ==> Precedes(Counts(t), region, r);
  }

  lemma AloneIsLeast(t: Table, u: string, region: string)
    requires Alone(t, u) && IsLeast(Counts(t), region)
    ensures u == region
  {
    hide Load, LexLess;
    LeastIsMinimum(t, region);
  }

  /** A shard goes to the least-loaded region, and no region loses its last shard. */
  ghost predicate Step(t: Table, shard: string, to: string, next: Table)
  {
    shard in t && t[shard] != to && IsLeast(Counts(t), to) && next == t[shard := to] && next.Values == t.Values
  }

  /** What a step changes. */
  lemma StepLoads(t: Table, shard: string, to: string, next: Table)
    requires Step(t, shard, to, next)
    ensures shard in t
    ensures var from := t[shard];
            from in t.Values && to in t.Values && from != to &&
            Load(next, from) == Load(t, from) - 1 && Load(next, to) == Load(t, to) + 1 &&
            (forall r :: r in t.Values && r != from && r != to ==> Load(next, r) == Load(t, r)) &&
            (forall r :: r in t.Values && r != to ==>
               Load(t, to) < Load(t, r) || (Load(t, to) == Load(t, r) && LexLess(to, r))) &&
            Energy(next) == Energy(t) + 2 - 2 * (Load(t, from) - Load(t, to))
  {
    hide Load, LexLess, Energy, IsLeast;
    LeastIsMinimum(t, to);
    MoveLoads(t, shard, to);
    assert t[shard] in t.Values;
    LoadPositive(next, t[shard]);
    MoveEnergy(t, shard, to);
  }

  /** The energy is at most `e`, or at most one step above it with one region left behind alone. */
  ghost predicate Phase(t: Table, e: int)
  {
    Energy(t) <= e || (Energy(t) <= e + 2 && exists u :: Alone(t, u))
  }

  lemma LeftBehind(t: Table, shard: string, to: string, next: Table)
    requires Step(t, shard, to, next)
    requires Load(t, t[shard]) == Load(t, to) || (Load(t, t[shard]) == Load(t, to) + 1 && Alone(t, to))
    ensures Alone(next, t[shard])
  {
    hide Load, LexLess, Energy, IsLeast;
    StepLoads(t, shard, to, next);
  }

  /** A step never takes the energy further than that. */
  lemma PhaseStep(t: Table, shard: string, to: string, next: Table, e: int)
    requires Step(t, shard, to, next) && Phase(t, e)
    ensures Phase(next, e)
  {
    hide Load, LexLess, Energy, IsLeast, Step;
    StepLoads(t, shard, to, next);
    if Energy(t) <= e {
      if Load(t, t[shard]) == Load(t, to) {
        LeftBehind(t, shard, to, next);
      }
    } else {
      var u :| Alone(t, u);
      assert Alone(t, to) by { StepIsLeast(t, shard, to, next); AloneIsLeast(t, u, to); }
      if Load(t, t[shard]) == Load(t, to) + 1 {
        LeftBehind(t, shard, to, next);
      }
    }
  }

  lemma StepIsLeast(t: Table, shard: string, to: string, next: Table)
    requires Step(t, shard, to, next)
    ensures IsLeast(Counts(t), to)
  {}

  // ----- batches that gain nothing in energy ----------------------------------

  ghost function Above(t: Table, l: nat): set<string>
  {
    set r | r in t.Values && Load(t, r) > l
  }

  /** All loads reach `l`; the regions above it, with the next one to join them, rank no higher than `high`. */
  ghost predicate Even(t: Table, high: set<string>, l: nat)
  {
    (forall r :: r in t.Values ==> Load(t, r) >= l) &&
    forall z :: IsLeast(Counts(t), z) ==>
      Load(t, z) == l && RankSum(t.Values, Above(t, l)) + Rank(t.Values, z) <= RankSum(t.Values, high) &&
      (RankSum(t.Values, Above(t, l)) + Rank(t.Values, z) == RankSum(t.Values, high) ==> Above(t, l) + {z} == high)
  }

  /** One region is alone just below `l`; the regions above it rank lower than `high`. */
  ghost predicate Odd(t: Table, high: set<string>, l: nat)
  {
    (exists u :: Alone(t, u) && Load(t, u) + 1 == l) &&
    RankSum(t.Values, Above(t, l)) < RankSum(t.Values, high)
  }

  ghost predicate Tight(t: Table, high: set<string>, l: nat, e: int)
  {
    (Energy(t) <= e && Even(t, high, l)) || (Energy(t) <= e + 2 && Odd(t, high, l))
  }

  /** How a region dropping to `l` from just above it, or not, and one joining those above change their ranks. */
  lemma AboveDrops(t: Table, next: Table, l: nat, from: string)
    requires next.Values == t.Values && from in t.Values && Load(t, from) == l + 1 && Load(next, from) == l
    requires forall r :: r in t.Values && r != from ==> (Load(next, r) > l <==> Load(t, r) > l)
    ensures Above(next, l) == Above(t, l) - {from} && from in Above(t, l)
    ensures RankSum(t.Values, Above(t, l)) == RankSum(t.Values, Above(next, l)) + Rank(t.Values, from)
  {
    hide Load, Rank, RankSum;
    assert Above(next, l) == Above(t, l) - {from};
    RankSplit(t.Values, Above(t, l), from);
  }

  lemma AboveJoins(t: Table, next: Table, l: nat, to: string)
    requires next.Values == t.Values && to in t.Values && Load(t, to) == l && Load(next, to) == l + 1
    requires forall r :: r in t.Values && r != to ==> (Load(next, r) > l <==> Load(t, r) > l)
    ensures Above(next, l) == Above(t, l) + {to} && to !in Above(t, l)
    ensures RankSum(t.Values, Above(next, l)) == RankSum(t.Values, Above(t, l)) + Rank(t.Values, to)
  {
    hide Load, Rank, RankSum;
    assert Above(next, l) == Above(t, l) + {to};
    RankAdd(t.Values, Above(t, l), to);
  }

  /** A region that comes down to the lowest load bounds the rank of the next one to be chosen. */
  lemma NextChosen(next: Table, l: nat, from: string, z: string)
    requires IsLeast(Counts(next), z) && from in next.Values && Load(next, from) == l
    requires forall r :: r in next.Values ==> Load(next, r) >= l
    ensures z in next.Values && Load(next, z) == l && Rank(next.Values, z) <= Rank(next.Values, from)
    ensures Rank(next.Values, z) == Rank(next.Values, from) ==> z == from
  {
    hide Load, LexLess, Rank, IsLeast;
    LeastIsMinimum(next, z);
    if z != from {
      assert LexLess(z, from);
      RankLess(next.Values, z, from);
    }
  }

  /** The lowest load is shared by the region that gives up a shard. */
  lemma EvenToOdd(t: Table, shard: string, to: string, next: Table, high: set<string>, l: nat)
    requires Step(t, shard, to, next) && Even(t, high, l) && Load(t, t[shard]) == l && t[shard] in high
    ensures Odd(next, high, l)
  {
    hide Load, LexLess, Energy, IsLeast, Rank, RankSum, Above;
    StepLoads(t, shard, to, next);
    assert Load(t, to) == l;
    LoadPositive(next, t[shard]);
    AboveJoins(t, next, l, to);
    LeftBehind(t, shard, to, next);
    assert t[shard] !in Above(t, l) by { NotAbove(t, l, t[shard]); }
  }

  lemma NotAbove(t: Table, l: nat, r: string)
    requires Load(t, r) <= l
    ensures r !in Above(t, l)
  {}

  lemma EvenToEven(t: Table, shard: string, to: string, next: Table, high: set<string>, l: nat)
    requires Step(t, shard, to, next) && Even(t, high, l) && Load(t, t[shard]) == l + 1
    ensures Even(next, high, l)
  {
    hide Load, LexLess, Energy, IsLeast, Rank, RankSum, Above;
    StepLoads(t, shard, to, next);
    var from := t[shard];
    assert Load(t, to) == l;
    SwapAbove(t, next, l, from, to);
    forall z | IsLeast(Counts(next), z)
      ensures Load(next, z) == l && RankSum(t.Values, Above(next, l)) + Rank(t.Values, z) <= RankSum(t.Values, high)
      ensures RankSum(t.Values, Above(next, l)) + Rank(t.Values, z) == RankSum(t.Values, high) ==>
                Above(next, l) + {z} == high
    {
      NextChosen(next, l, from, z);
      assert Above(t, l) - {from} + {to} + {from} == Above(t, l) + {to};
    }
  }

  lemma SwapAbove(t: Table, next: Table, l: nat, from: string, to: string)
    requires next.Values == t.Values && from in t.Values && to in t.Values && from != to
    requires Load(t, from) == l + 1 && Load(next, from) == l && Load(t, to) == l && Load(next, to) == l + 1
    requires forall r :: r in t.Values && r != from && r != to ==> Load(next, r) == Load(t, r)
    ensures from in Above(t, l) && Above(next, l) == Above(t, l) - {from} + {to}
    ensures RankSum(t.Values, Above(next, l)) ==
            RankSum(t.Values, Above(t, l)) - Rank(t.Values, from) + Rank(t.Values, to)
  {
    hide Load, Rank, RankSum;
    assert Above(next, l) == Above(t, l) - {from} + {to};
    RankSplit(t.Values, Above(t, l), from);
    RankAdd(t.Values, Above(t, l) - {from}, to);
  }

  /** The region alone takes a shard from one at the lowest shared load, which is alone then. */
  lemma OddToOdd(t: Table, shard: string, to: string, next: Table, high: set<string>, l: nat)
    requires Step(t, shard, to, next) && Odd(t, high, l) && Load(t, t[shard]) == l
    ensures Odd(next, high, l)
  {
    hide Load, LexLess, Energy, IsLeast, Rank, RankSum;
    StepLoads(t, shard, to, next);
    assert Alone(t, to) && Load(t, to) + 1 == l by { OddIsAlone(t, shard, to, next, high, l); }
    LeftBehind(t, shard, to, next);
    assert Above(next, l) == Above(t, l);
  }

  lemma OddIsAlone(t: Table, shard: string, to: string, next: Table, high: set<string>, l: nat)
    requires Step(t, shard, to, next) && Odd(t, high, l)
    ensures Alone(t, to) && Load(t, to) + 1 == l
  {
    hide Load, LexLess, IsLeast, RankSum;
    var u :| Alone(t, u) && Load(t, u) + 1 == l;
    AloneIsLeast(t, u, to);
  }

  /** It takes one from above: all loads reach `l` again. */
  lemma OddToEven(t: Table, shard: string, to: string, next: Table, high: set<string>, l: nat)
    requires Step(t, shard, to, next) && Odd(t, high, l) && Load(t, t[shard]) == l + 1
    ensures Even(next, high, l)
  {
    hide Load, LexLess, Energy, IsLeast, Rank, RankSum, Above;
    StepLoads(t, shard, to, next);
    assert Alone(t, to) && Load(t, to) + 1 == l by { OddIsAlone(t, shard, to, next, high, l); }
    var from := t[shard];
    AboveDrops(t, next, l, from);
    forall z | IsLeast(Counts(next), z)
      ensures Load(next, z) == l && RankSum(t.Values, Above(next, l)) + Rank(t.Values, z) < RankSum(t.Values, high)
    {
      NextChosen(next, l, from, z);
    }
  }

  /** A step keeps this up, or gains energy for good. */
  lemma TightStep(t: Table, shard: string, to: string, next: Table, high: set<string>, l: nat, e: int)
    requires Step(t, shard, to, next) && Tight(t, high, l, e) && t[shard] in high
    ensures Tight(next, high, l, e) || Phase(next, e - 2)
  {
    hide Load, LexLess, Energy, IsLeast, Even, Odd, Step;
    StepLoads(t, shard, to, next);
    var load := Load(t, t[shard]);
    if Energy(t) <= e && Even(t, high, l) {
      assert Load(t, to) == l && load >= l by { EvenLevel(t, shard, to, next, high, l); }
      if load == l {
        EvenToOdd(t, shard, to, next, high, l);
      } else if load == l + 1 {
        EvenToEven(t, shard, to, next, high, l);
      }
    } else {
      assert Alone(t, to) && Load(t, to) + 1 == l by { OddIsAlone(t, shard, to, next, high, l); }
      if load == l {
        OddToOdd(t, shard, to, next, high, l);
      } else if load == l + 1 {
        OddToEven(t, shard, to, next, high, l);
      }
    }
  }

  lemma EvenLevel(t: Table, shard: string, to: string, next: Table, high: set<string>, l: nat)
    requires Step(t, shard, to, next) && Even(t, high, l)
    ensures Load(t, to) == l && Load(t, t[shard]) >= l
  {
    hide Load, LexLess, IsLeast, Rank, RankSum, Above;
    assert t[shard] in t.Values;
  }

  // ----- batches --------------------------------------------------------------

  /** 0 when one region has fewer shards than any other. */
  ghost function Shared(t: Table): nat
  {
    if exists u :: Alone(t, u) then 0 else 1
  }

  /** Where the loads well above that region sit, by name. */
  ghost function Skew(t: Table): nat
  {
    if exists u :: Alone(t, u) then
      var u :| Alone(t, u);
      RankSum(t.Values, Above(t, Load(t, u) + 1))
    else 0
  }

  lemma SkewOf(t: Table, u: string)
    requires Alone(t, u)
    ensures Shared(t) == 0 && Skew(t) == RankSum(t.Values, Above(t, Load(t, u) + 1))
  {
    hide Load, RankSum, Above;
    assert forall v :: Alone(t, v) ==> v == u;
  }

  /** Fewer regions, or lower energy, or one region alone, or a lower skew, in this order. */
  ghost predicate Drops(t: Table, next: Table)
  {
    |next.Values| < |t.Values| ||
    (next.Values == t.Values &&
     (Energy(next) < Energy(t) ||
      (Energy(next) == Energy(t) && (Shared(next) < Shared(t) || (Shared(next) == Shared(t) && Skew(next) < Skew(t))))))
  }

  /** The named shards: some, all on most-loaded regions of a table that is unbalanced. */
  ghost predicate Batch(start: Table, todo: seq<string>, threshold: nat)
  {
    threshold >= 2 && Unbalanced(Counts(start), threshold) && todo != [] &&
    (forall j :: 0 <= j < |todo| ==> todo[j] in Movable(start, Counts(start))) &&
    (forall j, k :: 0 <= j < k < |todo| ==> todo[j] != todo[k])
  }

  /** A named shard sits on a region that is well ahead of the least-loaded one. */
  lemma NamedIsAhead(start: Table, threshold: nat, shard: string, region: string)
    requires Unbalanced(Counts(start), threshold) && shard in Movable(start, Counts(start)) &&
             IsLeast(Counts(start), region)
    ensures shard in start && region in start.Values
    ensures Load(start, start[shard]) >= Load(start, region) + threshold && Load(start, region) >= 1
  {
    hide Load, LexLess;
    LeastHasMinimum(Counts(start), region);
    LoadPositive(start, region);
  }

  /** So it is well ahead of any region that is alone. */
  lemma NamedIsAbove(start: Table, threshold: nat, shard: string, u: string)
    requires threshold >= 2 && Unbalanced(Counts(start), threshold) && shard in Movable(start, Counts(start))
    requires Alone(start, u)
    ensures shard in start && start[shard] in Above(start, Load(start, u) + 1)
  {
    hide Load;
    assert start[shard] in start.Values;
    var p, q :| p in Counts(start) && q in Counts(start) && IsMostLoaded(Counts(start), p) &&
                Counts(start)[p] - Counts(start)[q] >= threshold;
    assert Load(start, u) <= Load(start, q);
  }

  /** What holds after some moves that kept every region. */
  ghost predicate Gaining(start: Table, t: Table)
  {
    var e := Energy(start) - 2;
    Phase(t, e - 2) ||
    (Phase(t, e) &&
     forall u :: Alone(start, u) ==> Tight(t, Above(start, Load(start, u) + 1), Load(start, u) + 1, e))
  }

  lemma FirstMoveEven(start: Table, shard: string, to: string, next: Table)
    requires Step(start, shard, to, next) && Alone(start, to) && Load(start, start[shard]) == Load(start, to) + 2
    ensures Even(next, Above(start, Load(start, to) + 1), Load(start, to) + 1)
  {
    hide Load, LexLess, Energy, IsLeast, Rank, RankSum, Above;
    StepLoads(start, shard, to, next);
    var from, l := start[shard], Load(start, to) + 1;
    AboveDrops(start, next, l, from);
    forall z | IsLeast(Counts(next), z)
      ensures Load(next, z) == l
      ensures RankSum(start.Values, Above(next, l)) + Rank(start.Values, z) <= RankSum(start.Values, Above(start, l))
      ensures RankSum(start.Values, Above(next, l)) + Rank(start.Values, z) ==
              RankSum(start.Values, Above(start, l)) ==>
                Above(next, l) + {z} == Above(start, l)
    {
      NextChosen(next, l, from, z);
      assert Above(start, l) - {from} + {from} == Above(start, l);
    }
  }

  lemma FirstMoveGains(start: Table, shard: string, to: string, next: Table)
    requires Step(start, shard, to, next) && Load(start, start[shard]) >= Load(start, to) + 2
    ensures Gaining(start, next)
  {
    hide Load, LexLess, Energy, IsLeast, Even, Step, Above;
    StepLoads(start, shard, to, next);
    forall u | Alone(start, u) && Load(start, start[shard]) == Load(start, to) + 2
      ensures Tight(next, Above(start, Load(start, u) + 1), Load(start, u) + 1, Energy(start) - 2)
    {
      StepIsLeast(start, shard, to, next);
      AloneIsLeast(start, u, to);
      FirstMoveEven(start, shard, to, next);
    }
  }

  lemma MoveGains(start: Table, t: Table, shard: string, to: string, next: Table)
    requires Step(t, shard, to, next) && Gaining(start, t)
    requires forall u :: Alone(start, u) ==> t[shard] in Above(start, Load(start, u) + 1)
    ensures Gaining(start, next)
  {
    hide Load, LexLess, Energy, IsLeast, Step, Above, Tight, Phase;
    var e := Energy(start) - 2;
    if Phase(t, e - 2) {
      PhaseStep(t, shard, to, next, e - 2);
    } else {
      PhaseStep(t, shard, to, next, e);
      forall u | Alone(start, u)
        ensures Phase(next, e - 2) || Tight(next, Above(start, Load(start, u) + 1), Load(start, u) + 1, e)
      {
        TightStep(t, shard, to, next, Above(start, Load(start, u) + 1), Load(start, u) + 1, e);
      }
    }
  }

  /** Moves that kept every region leave the table further on its way. */
  lemma GainingDrops(start: Table, t: Table)
    requires Gaining(start, t) && t.Values == start.Values
    ensures Drops(start, t)
  {
    hide Load, Energy, Even, RankSum, Above, Alone;
    var e := Energy(start) - 2;
    if Energy(t) >= Energy(start) {
      assert Energy(t) == Energy(start) && exists u :: Alone(t, u);
      if u :| Alone(start, u) {
        var l := Load(start, u) + 1;
        assert Tight(t, Above(start, l), l, e);
        var v :| Alone(t, v) && Load(t, v) + 1 == l;
        SkewOf(start, u);
        SkewOf(t, v);
      }
    }
  }

  /** The state of a batch after `i` moves out of `start`. */
  ghost predicate Progress(start: Table, t: Table, i: nat)
  {
    t.Keys == start.Keys && t.Values <= start.Values &&
    (forall r :: r in start.Values ==> Load(t, r) + i >= Load(start, r)) &&
    (i == 0 ==> t == start) &&
    (i > 0 && t.Values == start.Values ==> Gaining(start, t))
  }

  lemma MoveShrinks(t: Table, shard: string, to: string)
    requires shard in t && to in t.Values
    ensures t[shard := to].Keys == t.Keys && t[shard := to].Values <= t.Values
  {}

  lemma BatchStep(start: Table, t: Table, todo: seq<string>, threshold: nat, i: nat, region: string)
    requires Batch(start, todo, threshold) && i < |todo| && Progress(start, t, i)
    requires todo[i] in start && todo[i] in t && t[todo[i]] == start[todo[i]] && IsLeast(Counts(t), region)
    ensures Progress(start, t[todo[i] := region], i + 1)
  {
    hide Energy, Load, LexLess, IsLeast, Movable, Unbalanced, Gaining;
    var shard := todo[i];
    var from, next := t[shard], t[shard := region];
    LeastIsMinimum(t, region);
    MoveShrinks(t, shard, region);
    if region == from {
      assert next == t;
      if i == 0 {
        NamedIsAhead(start, threshold, shard, region);
      }
    } else {
      MoveLoads(t, shard, region);
      if next.Values == start.Values {
        StepGains(start, t, todo, threshold, i, region);
      }
    }
  }

  lemma StepGains(start: Table, t: Table, todo: seq<string>, threshold: nat, i: nat, region: string)
    requires Batch(start, todo, threshold) && i < |todo| && Progress(start, t, i)
    requires todo[i] in start && todo[i] in t && t[todo[i]] == start[todo[i]] && IsLeast(Counts(t), region)
    requires region != t[todo[i]] && region in t.Values && t[todo[i] := region].Values == start.Values
    ensures Gaining(start, t[todo[i] := region])
  {
    hide Energy, Load, LexLess, IsLeast, Movable, Unbalanced, Gaining, Above;
    var shard := todo[i];
    MoveShrinks(t, shard, region);
    assert Step(t, shard, region, t[shard := region]);
    if i == 0 {
      NamedIsAhead(start, threshold, shard, region);
      FirstMoveGains(start, shard, region, t[shard := region]);
    } else {
      forall u | Alone(start, u)
        ensures t[shard] in Above(start, Load(start, u) + 1)
      {
        NamedIsAbove(start, threshold, shard, u);
      }
      MoveGains(start, t, shard, region, t[shard := region]);
    }
  }

  /** The shards are allocated again one after the other. */
  ghost predicate Reallocated(start: Table, todo: seq<string>, end: Table)
    decreases |todo|
  {
    if todo == [] then end == start
    else
      var front, last := todo[..|todo| - 1], todo[|todo| - 1];
      exists t, region :: Reallocated(start, front, t) && Chosen(t, last, region, end)
  }

  ghost predicate Chosen(t: Table, shard: string, region: string, next: Table)
  {
    IsLeast(Counts(t), region) && next == t[shard := region]
  }

  lemma OneMore(start: Table, todo: seq<string>, t: Table, shard: string, region: string, next: Table)
    requires Reallocated(start, todo, t) && Chosen(t, shard, region, next)
    ensures Reallocated(start, todo + [shard], next)
  {
    hide Chosen;
    var all := todo + [shard];
    var front, last := all[..|all| - 1], all[|all| - 1];
    assert front == todo && last == shard;
    assert Reallocated(start, front, t) && Chosen(t, last, region, next);
  }

  /** The state of a batch after its first `i` moves, with the shards still to be moved in place. */
  ghost predicate Underway(start: Table, todo: seq<string>, threshold: nat, i: nat, t: Table)
    requires i <= |todo|
  {
    Progress(start, t, i) && (i <= threshold ==> t.Values == start.Values) &&
    forall j :: i <= j < |todo| ==> todo[j] in start && todo[j] in t && t[todo[j]] == start[todo[j]]
  }

  lemma UnderwayStep(start: Table, todo: seq<string>, threshold: nat, i: nat, t: Table, region: string, next: Table)
    requires Batch(start, todo, threshold) && i < |todo| && Underway(start, todo, threshold, i, t)
    requires Chosen(t, todo[i], region, next)
    ensures Underway(start, todo, threshold, i + 1, next)
  {
    hide Load, LexLess, IsLeast, Movable, Unbalanced, Counts, Progress;
    BatchStep(start, t, todo, threshold, i, region);
    if i < threshold {
      KeepsRegions(start, t, todo, threshold, i, region);
    }
  }

  lemma {:induction false} ReallocatedProgress(start: Table, todo: seq<string>, threshold: nat, i: nat, t: Table)
    requires Batch(start, todo, threshold) && i <= |todo| && Reallocated(start, todo[..i], t)
    ensures Underway(start, todo, threshold, i, t)
    decreases i
  {
    hide Progress, Chosen, Batch;
    if i == 0 {
      NamedAreShards(start, todo, threshold);
      BatchStart(start);
    } else {
      var before := todo[..i];
      assert before[..i - 1] == todo[..i - 1] && before[i - 1] == todo[i - 1];
      var mid, region :| Reallocated(start, before[..i - 1], mid) && Chosen(mid, before[i - 1], region, t);
      ReallocatedProgress(start, todo, threshold, i - 1, mid);
      UnderwayStep(start, todo, threshold, i - 1, mid, region, t);
    }
  }

  lemma NamedAreShards(start: Table, todo: seq<string>, threshold: nat)
    requires Batch(start, todo, threshold)
    ensures forall j :: 0 <= j < |todo| ==> todo[j] in start
  {
    hide Counts, Unbalanced;
  }

  lemma BatchStart(t: Table)
    ensures Progress(t, t, 0)
  {
    hide Load, Gaining;
  }

  /** Loads on most-loaded regions exceed the threshold. */
  lemma NamedLoad(start: Table, threshold: nat, shard: string)
    requires Unbalanced(Counts(start), threshold) && shard in Movable(start, Counts(start))
    ensures shard in start && Load(start, start[shard]) > threshold
  {
    hide Load;
    var p, q :| p in Counts(start) && q in Counts(start) && IsMostLoaded(Counts(start), p) &&
                Counts(start)[p] - Counts(start)[q] >= threshold;
    LoadPositive(start, q);
  }

  /** Within the first moves of a batch, no more than the threshold, no region loses its last shard. */
  lemma KeepsRegions(start: Table, t: Table, todo: seq<string>, threshold: nat, i: nat, region: string)
    requires Batch(start, todo, threshold) && i < |todo| && i < threshold && Progress(start, t, i)
    requires todo[i] in start && todo[i] in t && t[todo[i]] == start[todo[i]] && IsLeast(Counts(t), region)
    requires t.Values == start.Values
    ensures t[todo[i] := region].Values == start.Values
  {
    hide Energy, Load, LexLess, IsLeast, Movable, Unbalanced, Gaining;
    var shard := todo[i];
    NamedLoad(start, threshold, shard);
    LeastIsMinimum(t, region);
    assert t[shard] in t.Values;
    if region == t[shard] {
      assert t[shard := region] == t;
    } else {
      MoveRegions(t, shard, region);
    }
  }

  /** Every batch leaves the table further on its way; small ones keep every region. */
  lemma BatchDrops(start: Table, todo: seq<string>, threshold: nat, end: Table)
    requires Batch(start, todo, threshold) && Reallocated(start, todo, end)
    ensures end.Keys == start.Keys && end.Values <= start.Values && Drops(start, end)
    ensures |todo| <= threshold ==> end.Values == start.Values
  {
    hide Energy, Load, Unbalanced, Gaining, Movable, Reallocated, Shared, Skew;
    var n := |todo|;
    assert todo[..n] == todo;
    ReallocatedProgress(start, todo, threshold, n, end);
    if end.Values == start.Values {
      GainingDrops(start, end);
    } else {
      var r :| r in start.Values && r !in end.Values;
      Smaller(end.Values, start.Values, r);
    }
  }

  // ----- the loop -------------------------------------------------------------

  /** Hands off and allocates the named shards one after the other. */
  method MoveBatch(c: ShardCoordinator, todo: seq<string>, ghost threshold: nat)
    requires Batch(c.allocation, todo, threshold)
    modifies c
    ensures Reallocated(old(c.allocation), todo, c.allocation)
    ensures c.allocation.Keys == old(c.allocation).Keys && c.allocation.Values <= old(c.allocation).Values
    ensures Drops(old(c.allocation), c.allocation)
    ensures |todo| <= threshold ==> c.allocation.Values == old(c.allocation).Values
  {
    hide Energy, Load, Counts, IsLeast, Movable, LexLess, Unbalanced, Progress, Drops;
    ghost var start := c.allocation;
    for i := 0 to |todo|
      invariant Reallocated(start, todo[..i], c.allocation)
    {
      ghost var t := c.allocation;
      ReallocatedProgress(start, todo, threshold, i, t);
      var chosen := c.AllocateWithStrategy(todo[i]);
      OneMore(start, todo[..i], t, todo[i], chosen.value, c.allocation);
      assert todo[..i] + [todo[i]] == todo[..i + 1];
    }
    assert todo[..|todo|] == todo;
    BatchDrops(start, todo, threshold, c.allocation);
  }

  lemma SortedIsBatch(out: seq<string>, t: Table, strategy: LeastShard)
    requires strategy.threshold >= 2 && Unbalanced(Counts(t), strategy.threshold) && strategy.maxSimultaneous >= 1
    requires SmallestSorted(out, Movable(t, Counts(t)), strategy.maxSimultaneous)
    ensures Batch(t, out, strategy.threshold) && |out| <= strategy.maxSimultaneous
  {
    hide LexLess, Movable, Counts, Unbalanced;
    MovableExists(t, strategy.threshold);
    forall j, k | 0 <= j < k < |out|
      ensures out[j] != out[k]
    {
      if out[j] == out[k] {
        LexAsymmetric(out[j], out[k]);
      }
    }
  }

  /**
   * Moving all the named shards in every round settles for every batch size once the threshold is at
   * least two. Shards are kept; regions are kept by batches no larger than the threshold.
   */
  method SettleInBatches(c: ShardCoordinator, strategy: LeastShard)
    requires strategy.threshold >= 2 && strategy.maxSimultaneous >= 1
    modifies c
    ensures c.allocation.Keys == old(c.allocation).Keys && c.allocation.Values <= old(c.allocation).Values
    ensures strategy.maxSimultaneous <= strategy.threshold ==> c.allocation.Values == old(c.allocation).Values
    ensures Balanced(c.allocation, strategy.threshold)
  {
    hide Energy, Balanced, Counts, IsLeast, Movable, LexLess, Batch, Reallocated, Shared, Skew;
    var todo := c.RebalanceWithStrategy(strategy);
    while todo != []
      invariant c.allocation.Keys == old(c.allocation).Keys && c.allocation.Values <= old(c.allocation).Values
      invariant strategy.maxSimultaneous <= strategy.threshold ==> c.allocation.Values == old(c.allocation).Values
      invariant Unbalanced(Counts(c.allocation), strategy.threshold) ==>
                  SmallestSorted(todo, Movable(c.allocation, Counts(c.allocation)), strategy.maxSimultaneous)
      invariant !Unbalanced(Counts(c.allocation), strategy.threshold) ==> todo == []
      decreases |c.allocation.Values|, Energy(c.allocation), Shared(c.allocation), Skew(c.allocation)
    {
      SortedIsBatch(todo, c.allocation, strategy);
      MoveBatch(c, todo, strategy.threshold);
      todo := c.RebalanceWithStrategy(strategy);
    }
    if Unbalanced(Counts(c.allocation), strategy.threshold) {
      MovableExists(c.allocation, strategy.threshold);
    }
    BalancedIff(c.allocation, strategy.threshold);
  }

  // ----- exactly when it always settles ---------------------------------------

  /** One round: all the named shards are allocated again. */
  ghost predicate BatchRound(t: Table, strategy: LeastShard, next: Table)
  {
    Unbalanced(Counts(t), strategy.threshold) &&
    exists todo :: SmallestSorted(todo, Movable(t, Counts(t)), strategy.maxSimultaneous) && Reallocated(t, todo, next)
  }

  ghost predicate Continues(f: nat -> Table, strategy: LeastShard, i: nat)
  {
    BatchRound(f(i), strategy, f(i + 1))
  }

  ghost predicate Ends(f: nat -> Table, strategy: LeastShard)
  {
    exists i: nat :: !Continues(f, strategy, i)
  }

  /** No sequence of rounds goes on for ever. */
  ghost predicate AlwaysSettlesInBatches(strategy: LeastShard)
  {
    forall f: nat -> Table :: Ends(f, strategy)
  }

  lemma {:induction false} RoundsEnd(f: nat -> Table, strategy: LeastShard, i: nat) returns (n: nat)
    requires strategy.threshold >= 2 && strategy.maxSimultaneous >= 1
    ensures !Continues(f, strategy, n)
    decreases |f(i).Values|, Energy(f(i)), Shared(f(i)), Skew(f(i))
  {
    hide Energy, Counts, Movable, Batch, Reallocated, Shared, Skew, Unbalanced, SmallestSorted;
    if Continues(f, strategy, i) {
      var t, next := f(i), f(i + 1);
      var todo :| SmallestSorted(todo, Movable(t, Counts(t)), strategy.maxSimultaneous) && Reallocated(t, todo, next);
      SortedIsBatch(todo, t, strategy);
      BatchDrops(t, todo, strategy.threshold, next);
      n := RoundsEnd(f, strategy, i + 1);
    } else {
      n := i;
    }
  }

  /** With a lower threshold the first shard named travels and the second stays, whatever the batch size. */
  lemma HopInBatch(t: Table, heavy: string, light: string, first: string, second: string, strategy: LeastShard)
    requires strategy.threshold <= 1 && strategy.maxSimultaneous >= 1 && heavy != light
    requires Counts(t) == map[heavy := 2, light := 1] && Counts(t[first := light]) == map[light := 2, heavy := 1]
    requires ShardsOn(t, heavy) == {first, second} && LexLess(first, second)
    ensures BatchRound(t, strategy, t[first := light])
  {
    hide LexLess, Unbalanced, IsMostLoaded, Counts, IsLeast;
    var next := t[first := light];
    TwoAndOne(Counts(t), heavy, light, strategy.threshold);
    TwoAndOne(Counts(next), light, heavy, strategy.threshold);
    assert Movable(t, Counts(t)) == ShardsOn(t, heavy);
    LexAsymmetric(first, second);
    assert first in ShardsOn(t, heavy) && second in ShardsOn(t, heavy);
    OneMore(t, [], t, first, light, next);
    assert [] + [first] == [first];
    if strategy.maxSimultaneous == 1 {
      assert SmallestSorted([first], {first, second}, 1);
    } else {
      assert next[second := heavy] == next;
      OneMore(t, [first], next, second, heavy, next);
      assert [first] + [second] == [first, second];
      assert SmallestSorted([first, second], {first, second}, strategy.maxSimultaneous);
    }
  }

  lemma ForthAndBackInBatches(strategy: LeastShard)
    requires strategy.threshold <= 1 && strategy.maxSimultaneous >= 1
    ensures BatchRound(Here(), strategy, There()) && BatchRound(There(), strategy, Here())
  {
    hide BatchRound, Counts;
    HereAndThere();
    var h, t := Here(), There();
    assert h["a"] == "x" && h["b"] == "x" && h["c"] == "y" && t["a"] == "y" && t["b"] == "x" && t["c"] == "y";
    assert ShardsOn(h, "x") == {"a", "b"} && ShardsOn(t, "y") == {"a", "c"};
    assert LexLess("a", "b") && LexLess("a", "c");
    assert h["a" := "y"] == t && t["a" := "x"] == h;
    HopInBatch(h, "x", "y", "a", "b", strategy);
    HopInBatch(t, "y", "x", "a", "c", strategy);
  }

  /** Whatever the batch size, the loop settles from every table exactly when the threshold is at least two. */
  lemma SettlesInBatchesIff(strategy: LeastShard)
    requires strategy.maxSimultaneous >= 1
    ensures AlwaysSettlesInBatches(strategy) <==> strategy.threshold >= 2
  {
    hide BatchRound;
    if strategy.threshold >= 2 {
      forall f: nat -> Table
        ensures Ends(f, strategy)
      {
        var n := RoundsEnd(f, strategy, 0);
      }
    } else {
      ForthAndBackInBatches(strategy);
      var f: nat -> Table := i => if i % 2 == 0 then Here() else There();
      assert forall i: nat :: Continues(f, strategy, i);
      assert !Ends(f, strategy);
    }
  }

  // ----- a region that is lost ------------------------------------------------

  /** Six shards on four regions, three of them on the last. */
  function Crowded(): Table { map["1" := "a", "2" := "b", "3" := "c", "4" := "d", "5" := "d", "6" := "d"] }

  lemma OneMove(t: Table, counts: map<string, nat>, shard: string, from: string, to: string)
    requires Counts(t) == counts && shard in t && t[shard] == from && from != to && to in counts && counts[from] >= 2
    ensures Counts(t[shard := to]) == counts[from := counts[from] - 1][to := counts[to] + 1]
  {
    hide Load;
    assert Load(t, from) == counts[from];
    MoveLoads(t, shard, to);
    MoveRegions(t, shard, to);
    var next := Counts(t[shard := to]);
    assert next.Keys == counts.Keys;
    assert forall r :: r in next && r != from && r != to ==> next[r] == counts[r];
  }

  lemma CrowdedCounts()
    ensures Counts(Crowded()) == map["a" := 1, "b" := 1, "c" := 1, "d" := 3]
  {
    var t := Crowded();
    assert t["1"] == "a" && t["2"] == "b" && t["3"] == "c" && t["4"] == "d" && t["5"] == "d" && t["6"] == "d";
    assert ShardsOn(t, "a") == {"1"} && ShardsOn(t, "b") == {"2"} && ShardsOn(t, "c") == {"3"};
    assert ShardsOn(t, "d") == {"4", "5", "6"};
    assert t.Values == {"a", "b", "c", "d"};
  }

  lemma Letters()
    ensures LexLess("a", "b") && LexLess("a", "c") && LexLess("a", "d")
    ensures LexLess("b", "c") && LexLess("b", "d") && LexLess("c", "d")
  {}

  lemma CrowdedMoves()
    ensures var t := Crowded();
            Chosen(t, "4", "a", t["4" := "a"]) && Chosen(t["4" := "a"], "5", "b", t["4" := "a"]["5" := "b"]) &&
            Chosen(t["4" := "a"]["5" := "b"], "6", "c", t["4" := "a"]["5" := "b"]["6" := "c"])
  {
    hide LexLess, Counts;
    var t := Crowded();
    CrowdedCounts();
    Letters();
    OneMove(t, Counts(t), "4", "d", "a");
    OneMove(t["4" := "a"], Counts(t["4" := "a"]), "5", "d", "b");
  }

  /** A batch larger than the threshold moves the last shard of a region away: the region is lost. */
  lemma RegionLost()
    ensures var end := Crowded()["4" := "a"]["5" := "b"]["6" := "c"];
            BatchRound(Crowded(), LeastShard(3, 2), end) && "d" in Crowded().Values && "d" !in end.Values
  {
    hide LexLess, Counts, Reallocated, Chosen, SmallestSorted, Unbalanced;
    var t := Crowded();
    var t1 := t["4" := "a"];
    var t2 := t1["5" := "b"];
    var end := t2["6" := "c"];
    CrowdedMoves();
    NoneMoved(t);
    OneMore(t, [], t, "4", "a", t1);
    OneMore(t, [] + ["4"], t1, "5", "b", t2);
    OneMore(t, [] + ["4"] + ["5"], t2, "6", "c", end);
    assert [] + ["4"] + ["5"] + ["6"] == ["4", "5", "6"];
    CrowdedNames();
    assert t["4"] == "d";
    assert end == map["1" := "a", "2" := "b", "3" := "c", "4" := "a", "5" := "b", "6" := "c"];
  }

  lemma NoneMoved(t: Table)
    ensures Reallocated(t, [], t)
  {}

  lemma CrowdedNames()
    ensures var t := Crowded();
            Unbalanced(Counts(t), 2) && SmallestSorted(["4", "5", "6"], Movable(t, Counts(t)), 3)
  {
    hide Counts, LexLess, Movable, Unbalanced;
    CrowdedMovable();
    Digits();
    var names := ["4", "5", "6"];
    assert names[0] == "4" && names[1] == "5" && names[2] == "6";
    assert |{"4", "5", "6"}| == 3;
  }

  lemma CrowdedMovable()
    ensures var t := Crowded();
            Unbalanced(Counts(t), 2) && Movable(t, Counts(t)) == {"4", "5", "6"}
  {
    hide Counts;
    var t := Crowded();
    CrowdedCounts();
    assert t["1"] == "a" && t["2"] == "b" && t["3"] == "c" && t["4"] == "d" && t["5"] == "d" && t["6"] == "d";
    var counts := Counts(t);
    assert counts["a"] == 1 && counts["d"] == 3;
    assert IsMostLoaded(counts, "d");
    TwoKeys(counts, "a", "d");
    assert forall r :: IsMostLoaded(counts, r) <==> r == "d";
    assert Movable(t, counts) == {"4", "5", "6"};
  }

  lemma Digits()
    ensures LexLess("4", "5") && LexLess("4", "6") && LexLess("5", "6")
  {}
}

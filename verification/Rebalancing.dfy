/** The rebalance-then-allocate loop: when it settles, where, and when it never does. */
module Rebalancing {
  import opened Prelude
  import opened Sharding

  // ----- one round ------------------------------------------------------------

  /** The first shard `rebalance` names. */
  ghost predicate FirstToMove(t: Table, threshold: nat, shard: string)
  {
    Unbalanced(Counts(t), threshold) && shard in Movable(t, Counts(t)) &&
    forall s :: s in Movable(t, Counts(t)) && s != shard ==> LexLess(shard, s)
  }

  /** One round: the first named shard is allocated again. */
  ghost predicate Round(t: Table, threshold: nat, next: Table)
  {
    exists shard, region ::
      FirstToMove(t, threshold, shard) && IsLeast(Counts(t), region) && next == t[shard := region]
  }

  ghost predicate IsRounds(ts: seq<Table>, threshold: nat)
  {
    forall i :: 0 <= i < |ts| - 1 ==> Round(ts[i], threshold, ts[i + 1])
  }

  /** The spread of the loads is below the threshold. */
  ghost predicate Balanced(t: Table, threshold: nat)
  {
    forall p, q :: p in t.Values && q in t.Values && p != q ==> Load(t, p) - Load(t, q) < threshold
  }

  // ----- the measure ----------------------------------------------------------

  ghost function Square(n: nat): nat
  {
    n * n
  }

  ghost function SumOfSquares(regions: set<string>, t: Table): nat
  {
    if regions == {} then 0
    else
      var r :| r in regions;
      Square(Load(t, r)) + SumOfSquares(regions - {r}, t)
  }

  ghost function Energy(t: Table): nat
  {
    SumOfSquares(t.Values, t)
  }

  lemma {:induction false} SumSplit(regions: set<string>, t: Table, r: string)
    requires r in regions
    ensures SumOfSquares(regions, t) == Square(Load(t, r)) + SumOfSquares(regions - {r}, t)
    decreases |regions|
  {
    hide Square, Load;
    var x :| x in regions && SumOfSquares(regions, t) == Square(Load(t, x)) + SumOfSquares(regions - {x}, t);
    if x != r {
      SumSplit(regions - {x}, t, r);
      SumSplit(regions - {r}, t, x);
      assert regions - {x} - {r} == regions - {r} - {x};
    }
  }

  lemma {:induction false} SumUnchanged(regions: set<string>, t: Table, u: Table)
    requires forall r :: r in regions ==> Load(t, r) == Load(u, r)
    ensures SumOfSquares(regions, t) == SumOfSquares(regions, u)
    decreases |regions|
  {
    hide Square, Load;
    if regions != {} {
      var r :| r in regions;
      SumUnchanged(regions - {r}, t, u);
      SumSplit(regions, t, r);
      SumSplit(regions, u, r);
    }
  }

  // ----- moving one shard -----------------------------------------------------

  lemma MoveLoads(t: Table, shard: string, to: string)
    requires shard in t && t[shard] != to
    ensures var u := t[shard := to];
            Load(u, t[shard]) == Load(t, t[shard]) - 1 && Load(u, to) == Load(t, to) + 1 &&
            forall r :: r != t[shard] && r != to ==> Load(u, r) == Load(t, r)
  {
    var u := t[shard := to];
    assert ShardsOn(t, t[shard]) == ShardsOn(u, t[shard]) + {shard};
    assert ShardsOn(u, to) == ShardsOn(t, to) + {shard};
    forall r | r != t[shard] && r != to ensures ShardsOn(u, r) == ShardsOn(t, r) {}
  }

  lemma MoveRegions(t: Table, shard: string, to: string)
    requires shard in t && to in t.Values && t[shard] != to && Load(t, t[shard]) >= 2
    ensures t[shard := to].Values == t.Values
  {
    var u, from := t[shard := to], t[shard];
    forall r | r in t.Values ensures r in u.Values {
      if r == from {
        assert |ShardsOn(t, from) - {shard}| == Load(t, from) - 1;
        var other :| other in ShardsOn(t, from) - {shard};
        assert u[other] == from;
      } else {
        var k :| k in t && t[k] == r;
        assert u[k] == r;
      }
    }
    assert u[shard] == to;
  }

  lemma LoadPositive(t: Table, r: string)
    requires r in t.Values
    ensures Load(t, r) >= 1
  {
    var s :| s in t && t[s] == r;
    assert s in ShardsOn(t, r);
  }

  lemma SquaresShift(p: nat, q: nat)
    requires p >= 1
    ensures Square(p - 1) + Square(q + 1) == Square(p) + Square(q) + 2 - 2 * (p - q)
  {
    assert Square(p - 1) == Square(p) - 2 * p + 1;
    assert Square(q + 1) == Square(q) + 2 * q + 1;
  }

  /** What a move does to the sum of squared loads, from a region that keeps a shard. */
  lemma MoveEnergy(t: Table, shard: string, to: string)
    requires shard in t && to in t.Values && t[shard] != to && Load(t, t[shard]) >= 2
    ensures Energy(t[shard := to]) == Energy(t) + 2 - 2 * (Load(t, t[shard]) - Load(t, to))
    ensures t[shard := to].Keys == t.Keys && t[shard := to].Values == t.Values
  {
    hide Square, SumOfSquares, Load;
    var u, from := t[shard := to], t[shard];
    MoveLoads(t, shard, to);
    MoveRegions(t, shard, to);
    var rest := t.Values - {from} - {to};
    SumSplit(t.Values, t, from);
    SumSplit(t.Values - {from}, t, to);
    SumSplit(t.Values, u, from);
    SumSplit(t.Values - {from}, u, to);
    SumUnchanged(rest, t, u);
    SquaresShift(Load(t, from), Load(t, to));
  }

  /** Moving a shard from a region at least two ahead lowers the sum of squared loads. */
  lemma MoveLowersEnergy(t: Table, shard: string, to: string)
    requires shard in t && to in t.Values && Load(t, t[shard]) >= Load(t, to) + 2
    ensures Energy(t[shard := to]) + 2 <= Energy(t)
    ensures t[shard := to].Keys == t.Keys && t[shard := to].Values == t.Values
  {
    hide Energy, Load;
    LoadPositive(t, to);
    MoveEnergy(t, shard, to);
  }

  /** What a round does when the threshold is at least two. */
  lemma RoundProgresses(t: Table, threshold: nat, shard: string, region: string)
    requires threshold >= 2 && FirstToMove(t, threshold, shard) && IsLeast(Counts(t), region)
    ensures Energy(t[shard := region]) + 2 <= Energy(t)
    ensures t[shard := region].Keys == t.Keys && t[shard := region].Values == t.Values
  {
    hide Energy, Load, LexLess;
    LeastHasMinimum(Counts(t), region);
    MoveLowersEnergy(t, shard, region);
  }

  lemma LeastHasMinimum(counts: map<string, nat>, region: string)
    requires IsLeast(counts, region)
    ensures forall r :: r in counts ==> counts[region] <= counts[r]
  {
    hide LexLess;
    assert forall r :: r in counts && r != region ==> Precedes(counts, region, r);
  }

  // ----- settling -------------------------------------------------------------

  lemma BalancedIff(t: Table, threshold: nat)
    requires threshold >= 1
    ensures Unbalanced(Counts(t), threshold) <==> !Balanced(t, threshold)
  {
    if !Balanced(t, threshold) {
      SpreadIsUnbalanced(t, threshold);
    }
    if Unbalanced(Counts(t), threshold) {
      hide Load;
      var p, q :| p in Counts(t) && q in Counts(t) && Counts(t)[p] - Counts(t)[q] >= threshold;
      assert Load(t, p) - Load(t, q) >= threshold;
    }
  }

  lemma SpreadIsUnbalanced(t: Table, threshold: nat)
    requires !Balanced(t, threshold)
    ensures Unbalanced(Counts(t), threshold)
  {
    hide Load;
    var counts := Counts(t);
    var p, q :| p in t.Values && q in t.Values && p != q && Load(t, p) - Load(t, q) >= threshold;
    assert p in counts && q in counts;
    TwoKeys(counts, p, q);
    var hi := Heaviest(counts);
    var lo := Lightest(counts);
    assert counts[hi] >= counts[p] && counts[lo] <= counts[q];
  }

  lemma TwoKeys(counts: map<string, nat>, p: string, q: string)
    requires p in counts && q in counts && p != q
    ensures |counts| >= 2
  {
    assert counts.Keys == {p, q} + (counts.Keys - {p, q});
  }

  lemma {:induction false} Heaviest(counts: map<string, nat>) returns (p: string)
    requires counts != map[]
    ensures IsMostLoaded(counts, p)
    decreases |counts|
  {
    p :| p in counts;
    if r :| r in counts && counts[r] > counts[p] {
      var smaller := counts - {p};
      assert |smaller.Keys| < |counts.Keys|;
      assert r in smaller;
      var first := p;
      p := Heaviest(smaller);
      assert forall x :: x in counts ==> x == first || (x in smaller && smaller[x] == counts[x]);
    }
  }

  lemma {:induction false} Lightest(counts: map<string, nat>) returns (q: string)
    requires counts != map[]
    ensures q in counts && forall r :: r in counts ==> counts[q] <= counts[r]
    decreases |counts|
  {
    q :| q in counts;
    if r :| r in counts && counts[r] < counts[q] {
      var smaller := counts - {q};
      assert |smaller.Keys| < |counts.Keys|;
      assert r in smaller;
      var first := q;
      q := Lightest(smaller);
      assert forall x :: x in counts ==> x == first || (x in smaller && smaller[x] == counts[x]);
    }
  }

  /** Some shard is always named while the table is unbalanced. */
  lemma MovableExists(t: Table, threshold: nat)
    requires Unbalanced(Counts(t), threshold)
    ensures Movable(t, Counts(t)) != {}
  {
    hide Load;
    var p :| p in Counts(t) && IsMostLoaded(Counts(t), p);
    var s :| s in t && t[s] == p;
    assert s in Movable(t, Counts(t));
  }

  /**
   * Repeating a rebalance and the allocation of the first named shard terminates, keeps the shards
   * and the regions, and ends with a spread below the threshold.
   */
  method Settle(c: ShardCoordinator, strategy: LeastShard)
    requires strategy.threshold >= 2 && strategy.maxSimultaneous >= 1
    modifies c
    ensures c.allocation.Keys == old(c.allocation).Keys && c.allocation.Values == old(c.allocation).Values
    ensures Balanced(c.allocation, strategy.threshold)
  {
    hide Energy, Balanced, Counts, IsLeast, Movable, LexLess;
    var todo := c.RebalanceWithStrategy(strategy);
    while todo != []
      invariant c.allocation.Keys == old(c.allocation).Keys && c.allocation.Values == old(c.allocation).Values
      invariant Unbalanced(Counts(c.allocation), strategy.threshold) ==>
                  SmallestSorted(todo, Movable(c.allocation, Counts(c.allocation)), strategy.maxSimultaneous)
      invariant !Unbalanced(Counts(c.allocation), strategy.threshold) ==> todo == []
      decreases Energy(c.allocation)
    {
      ghost var t := c.allocation;
      var shard := todo[0];
      FirstOfSorted(todo, t, strategy);
      FirstIsAllocated(t, strategy.threshold, shard);
      var chosen := c.AllocateWithStrategy(shard);
      RoundProgresses(t, strategy.threshold, shard, chosen.value);
      todo := c.RebalanceWithStrategy(strategy);
    }
    if Unbalanced(Counts(c.allocation), strategy.threshold) {
      MovableExists(c.allocation, strategy.threshold);
    }
    BalancedIff(c.allocation, strategy.threshold);
  }

  lemma FirstIsAllocated(t: Table, threshold: nat, shard: string)
    requires FirstToMove(t, threshold, shard)
    ensures shard in t && t != map[]
  {
  }

  lemma FirstOfSorted(out: seq<string>, t: Table, strategy: LeastShard)
    requires Unbalanced(Counts(t), strategy.threshold) && out != []
    requires SmallestSorted(out, Movable(t, Counts(t)), strategy.maxSimultaneous)
    ensures FirstToMove(t, strategy.threshold, out[0])
  {
    hide LexLess, Movable, Counts, Unbalanced;
    forall s | s in Movable(t, Counts(t)) && s != out[0] ensures LexLess(out[0], s) {
      if s in out {
        var j :| 0 <= j < |out| && out[j] == s;
      }
    }
  }

  // ----- exactly when the loop always settles ---------------------------------

  /** From `t`, no sequence of rounds is longer than `n` tables. */
  ghost predicate StopsWithin(t: Table, threshold: nat, n: nat)
  {
    forall ts: seq<Table> :: IsRounds(ts, threshold) && ts != [] && ts[0] == t ==> |ts| <= n
  }

  ghost predicate Stops(t: Table, threshold: nat)
  {
    exists n: nat :: StopsWithin(t, threshold, n)
  }

  ghost predicate AlwaysSettles(threshold: nat)
  {
    forall t: Table :: Stops(t, threshold)
  }

  /** With a threshold of two or more a run of rounds is bounded by its first table's energy. */
  lemma {:induction false} RoundsAreBounded(ts: seq<Table>, threshold: nat)
    requires threshold >= 2 && ts != [] && IsRounds(ts, threshold)
    ensures |ts| <= Energy(ts[0]) + 1
    decreases |ts|
  {
    hide Energy;
    if |ts| > 1 {
      assert Round(ts[0], threshold, ts[1]);
      var shard, region :| FirstToMove(ts[0], threshold, shard) && IsLeast(Counts(ts[0]), region) &&
          ts[1] == ts[0][shard := region];
      RoundProgresses(ts[0], threshold, shard, region);
      var rest := ts[1..];
      forall i | 0 <= i < |rest| - 1 ensures Round(rest[i], threshold, rest[i + 1]) {
        assert Round(ts[i + 1], threshold, ts[i + 2]);
      }
      RoundsAreBounded(rest, threshold);
    }
  }

  /** Two tables that differ in where shard "a" lives: loads 2 and 1, the other way round after its move. */
  function Here(): Table { map["a" := "x", "b" := "x", "c" := "y"] }
  function There(): Table { map["a" := "y", "b" := "x", "c" := "y"] }

  lemma HereAndThere()
    ensures Counts(Here()) == map["x" := 2, "y" := 1] && Counts(There()) == map["x" := 1, "y" := 2]
  {
    var h, t := Here(), There();
    assert h["a"] == "x" && h["b"] == "x" && h["c"] == "y";
    assert t["a"] == "y" && t["b"] == "x" && t["c"] == "y";
    assert ShardsOn(h, "x") == {"a", "b"} && ShardsOn(h, "y") == {"c"};
    assert ShardsOn(t, "x") == {"b"} && ShardsOn(t, "y") == {"a", "c"};
    assert h.Values == {"x", "y"} && t.Values == {"x", "y"};
  }

  /** With loads two and one and a threshold of at most one, the table is unbalanced and its parts are known. */
  lemma TwoAndOne(counts: map<string, nat>, heavy: string, light: string, threshold: nat)
    requires threshold <= 1 && heavy != light && counts == map[heavy := 2, light := 1]
    ensures Unbalanced(counts, threshold) && IsLeast(counts, light)
    ensures forall r :: IsMostLoaded(counts, r) <==> r == heavy
  {
    assert counts.Keys == {heavy, light};
    assert IsMostLoaded(counts, heavy) && counts[light] == 1;
  }

  /** The first of two movable shards goes to the lighter region. */
  lemma OneHop(t: Table, heavy: string, light: string, first: string, second: string, threshold: nat)
    requires threshold <= 1 && heavy != light && Counts(t) == map[heavy := 2, light := 1]
    requires ShardsOn(t, heavy) == {first, second} && LexLess(first, second)
    ensures Round(t, threshold, t[first := light])
  {
    hide LexLess, Unbalanced, IsMostLoaded, Counts;
    TwoAndOne(Counts(t), heavy, light, threshold);
    assert Movable(t, Counts(t)) == ShardsOn(t, heavy);
    assert FirstToMove(t, threshold, first);
  }

  lemma ForthAndBack(threshold: nat)
    requires threshold <= 1
    ensures Round(Here(), threshold, There()) && Round(There(), threshold, Here())
  {
    hide Round;
    HereAndThere();
    var h, t := Here(), There();
    assert h["a"] == "x" && h["b"] == "x" && h["c"] == "y" && t["a"] == "y" && t["b"] == "x" && t["c"] == "y";
    assert ShardsOn(h, "x") == {"a", "b"} && ShardsOn(t, "y") == {"a", "c"};
    assert LexLess("a", "b") && LexLess("a", "c");
    OneHop(h, "x", "y", "a", "b", threshold);
    OneHop(t, "y", "x", "a", "c", threshold);
    assert h["a" := "y"] == t && t["a" := "x"] == h;
  }

  /** Shard "a" travels for `n` rounds. */
  function Travels(n: nat): seq<Table>
  {
    seq(n + 1, i => if i % 2 == 0 then Here() else There())
  }

  /** The loop settles from every table exactly when the threshold is at least two. */
  lemma SettlesIff(threshold: nat)
    ensures AlwaysSettles(threshold) <==> threshold >= 2
  {
    hide Energy, Counts, Round;
    if threshold >= 2 {
      forall t: Table ensures Stops(t, threshold) {
        forall ts: seq<Table> | IsRounds(ts, threshold) && ts != [] && ts[0] == t ensures |ts| <= Energy(t) + 1 {
          RoundsAreBounded(ts, threshold);
        }
        assert StopsWithin(t, threshold, Energy(t) + 1);
      }
    } else {
      ForthAndBack(threshold);
      forall n: nat ensures !StopsWithin(Here(), threshold, n) {
        var ts := Travels(n);
        assert IsRounds(ts, threshold);
        assert ts[0] == Here() && |ts| == n + 1;
      }
      assert !Stops(Here(), threshold);
    }
  }
}

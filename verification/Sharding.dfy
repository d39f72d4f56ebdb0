/** Shard allocation: the least-loaded strategy and the coordinator's table. */
module Sharding {
  import opened Prelude

  type Table = map<string, string>   // shard -> region

  /** `max_simultaneous_rebalance` and `rebalance_threshold`. */
  datatype LeastShard = LeastShard(maxSimultaneous: nat, threshold: nat)

  // ----- loads ----------------------------------------------------------------

  function ShardsOn(t: Table, region: string): set<string>
  {
    set s | s in t && t[s] == region
  }

  function Load(t: Table, region: string): nat
  {
    |ShardsOn(t, region)|
  }

  /** `region_shard_counts`: regions without shards are omitted. */
  function Counts(t: Table): map<string, nat>
  {
    map region | region in t.Values :: Load(t, region)
  }

  method RegionShardCounts(t: Table) returns (out: map<string, nat>)
    ensures out == Counts(t)
  {
    hide Counts;
    out := map[];
    var todo := t.Keys;
    assert out == Counts(t - todo) by { CountsEmpty(t - todo); }
    while todo != {}
      invariant todo <= t.Keys
      invariant out == Counts(t - todo)
      decreases |todo|
    {
      var s :| s in todo;
      var region := t[s];
      CountOneMore(t - todo, s, region);
      assert t - (todo - {s}) == (t - todo)[s := region];
      out := out[region := (if region in out then out[region] else 0) + 1];
      todo := todo - {s};
    }
    assert t - {} == t;
  }

  lemma CountOneMore(t: Table, s: string, region: string)
    requires s !in t
    ensures Counts(t[s := region]) ==
            Counts(t)[region := (if region in Counts(t) then Counts(t)[region] else 0) + 1]
  {
    hide Load;
    var next := t[s := region];
    ValuesOneMore(t, s, region);
    LoadOneMore(t, s, region);
    assert forall r :: r in t.Values && r != region ==> Counts(next)[r] == Counts(t)[r];
  }

  lemma LoadOneMore(t: Table, s: string, region: string)
    requires s !in t
    ensures Load(t[s := region], region) == Load(t, region) + 1
    ensures forall r :: r != region ==> Load(t[s := region], r) == Load(t, r)
    ensures region !in t.Values ==> Load(t, region) == 0
  {
    var next := t[s := region];
    assert ShardsOn(next, region) == ShardsOn(t, region) + {s};
    forall r | r != region ensures ShardsOn(next, r) == ShardsOn(t, r) {}
    if region !in t.Values {
      assert ShardsOn(t, region) == {};
    }
  }

  lemma ValuesOneMore(t: Table, s: string, region: string)
    requires s !in t
    ensures t[s := region].Values == t.Values + {region}
  {
    var next := t[s := region];
    assert next[s] == region;
    forall r | r in t.Values ensures r in next.Values {
      var k :| k in t && t[k] == r;
      assert next[k] == r;
    }
  }

  // ----- allocation -----------------------------------------------------------

  /** First in the order by count, then by name. */
  ghost predicate Precedes(counts: map<string, nat>, p: string, q: string)
    requires p in counts && q in counts
  {
    counts[p] < counts[q] || (counts[p] == counts[q] && LexLess(p, q))
  }

  ghost predicate LeastAmong(counts: map<string, nat>, seen: set<string>, region: string)
    requires seen <= counts.Keys
  {
    region in seen && forall r :: r in seen && r != region ==> Precedes(counts, region, r)
  }

  ghost predicate IsLeast(counts: map<string, nat>, region: string)
  {
    LeastAmong(counts, counts.Keys, region)
  }

  method AllocateShard(counts: map<string, nat>) returns (chosen: Option<string>)
    ensures chosen.None? <==> counts == map[]
    ensures chosen.Some? ==> IsLeast(counts, chosen.value)
  {
    if counts == map[] {
      return None;
    }
    hide LeastAmong, LexLess;
    var best :| best in counts;
    var todo := counts.Keys - {best};
    LeastAlone(counts, best);
    assert counts.Keys - todo == {best};
    while todo != {}
      invariant todo <= counts.Keys && best in counts
      invariant LeastAmong(counts, counts.Keys - todo, best)
      decreases |todo|
    {
      var r :| r in todo;
      ghost var seen := counts.Keys - todo;
      todo := todo - {r};
      assert counts.Keys - todo == seen + {r};
      if counts[r] < counts[best] || (counts[r] == counts[best] && LexLess(r, best)) {
        Displaces(counts, seen, best, r);
        best := r;
      } else {
        Stays(counts, seen, best, r);
      }
    }
    assert counts.Keys - {} == counts.Keys;
    chosen := Some(best);
  }

  lemma LeastAlone(counts: map<string, nat>, r: string)
    requires r in counts
    ensures LeastAmong(counts, {r}, r)
  {
  }

  lemma Stays(counts: map<string, nat>, seen: set<string>, best: string, r: string)
    requires seen <= counts.Keys && LeastAmong(counts, seen, best) && r in counts && r !in seen &&
             !Precedes(counts, r, best)
    ensures LeastAmong(counts, seen + {r}, best)
  {
    LexTotal(r, best);
  }

  lemma Displaces(counts: map<string, nat>, seen: set<string>, best: string, r: string)
    requires seen <= counts.Keys && LeastAmong(counts, seen, best) && r in counts && Precedes(counts, r, best)
    ensures LeastAmong(counts, seen + {r}, r)
  {
    forall q | q in seen && q != r ensures Precedes(counts, r, q) {
      if q != best && counts[r] == counts[q] {
        LexTransitive(r, best, q);
      }
    }
  }

  lemma LeastIsUnique(counts: map<string, nat>, p: string, q: string)
    requires IsLeast(counts, p) && IsLeast(counts, q)
    ensures p == q
  {
    if p != q {
      assert Precedes(counts, p, q) && Precedes(counts, q, p);
      LexAsymmetric(p, q);
    }
  }

  // ----- rebalancing ----------------------------------------------------------

  ghost predicate IsMostLoaded(counts: map<string, nat>, region: string)
  {
    region in counts && forall r :: r in counts ==> counts[r] <= counts[region]
  }

  /** Shards that live on a most-loaded region. */
  ghost function Movable(t: Table, counts: map<string, nat>): set<string>
  {
    set s | s in t && IsMostLoaded(counts, t[s])
  }

  /** Whether the spread reaches the threshold, so that `rebalance` looks for shards. */
  ghost predicate Unbalanced(counts: map<string, nat>, threshold: nat)
  {
    |counts| >= 2 &&
    exists p, q :: p in counts && q in counts && IsMostLoaded(counts, p) &&
                   (forall r :: r in counts ==> counts[q] <= counts[r]) && counts[p] - counts[q] >= threshold
  }

  /** The `k` smallest elements of `pool` in ascending order. */
  ghost predicate SmallestSorted(out: seq<string>, pool: set<string>, k: nat)
  {
    |out| == Min(k, |pool|) &&
    (forall i :: 0 <= i < |out| ==> out[i] in pool) &&
    (forall i, j :: 0 <= i < j < |out| ==> LexLess(out[i], out[j])) &&
    (forall s, i :: s in pool && s !in out && 0 <= i < |out| ==> LexLess(out[i], s))
  }

  method MinMax(counts: map<string, nat>) returns (lo: nat, hi: nat)
    requires counts != map[]
    ensures exists p :: IsMostLoaded(counts, p) && counts[p] == hi
    ensures exists q :: q in counts && counts[q] == lo && forall r :: r in counts ==> lo <= counts[r]
  {
    var first :| first in counts;
    lo, hi := counts[first], counts[first];
    var p, q := first, first;
    var todo := counts.Keys - {first};
    while todo != {}
      invariant todo <= counts.Keys && p in counts && q in counts && counts[p] == hi && counts[q] == lo
      invariant forall r :: r in counts && r !in todo ==> lo <= counts[r] <= hi
      decreases |todo|
    {
      var r :| r in todo;
      todo := todo - {r};
      if counts[r] < lo {
        lo, q := counts[r], r;
      }
      if counts[r] > hi {
        hi, p := counts[r], r;
      }
    }
    assert IsMostLoaded(counts, p);
  }

  method Least(pool: set<string>) returns (s: string)
    requires pool != {}
    ensures s in pool && forall x :: x in pool && x != s ==> LexLess(s, x)
  {
    s :| s in pool;
    var todo := pool - {s};
    while todo != {}
      invariant s in pool && todo <= pool && s !in todo
      invariant forall x :: x in pool && x !in todo && x != s ==> LexLess(s, x)
      decreases |todo|
    {
      var x :| x in todo;
      todo := todo - {x};
      if LexLess(x, s) {
        forall y | y in pool && y !in todo && y != x ensures LexLess(x, y) {
          if y != s {
            LexTransitive(x, s, y);
          }
        }
        s := x;
      } else {
        LexTotal(x, s);
      }
    }
  }

  /** `sort` then `truncate(k)`. */
  method SortedPrefix(pool: set<string>, k: nat) returns (out: seq<string>)
    ensures SmallestSorted(out, pool, k)
  {
    out := [];
    var rest := pool;
    while rest != {} && |out| < k
      invariant |out| <= k && rest <= pool && |out| + |rest| == |pool|
      invariant forall i :: 0 <= i < |out| ==> out[i] in pool && out[i] !in rest
      invariant forall i, j :: 0 <= i < j < |out| ==> LexLess(out[i], out[j])
      invariant forall s, i :: s in rest && 0 <= i < |out| ==> LexLess(out[i], s)
      invariant forall s :: s in pool && s !in out ==> s in rest
      decreases |rest|
    {
      var s := Least(rest);
      out := out + [s];
      rest := rest - {s};
    }
  }

  method Rebalance(strategy: LeastShard, t: Table, counts: map<string, nat>) returns (out: seq<string>)
    ensures Unbalanced(counts, strategy.threshold) ==> SmallestSorted(out, Movable(t, counts), strategy.maxSimultaneous)
    ensures !Unbalanced(counts, strategy.threshold) ==> out == []
  {
    if |counts| < 2 {
      return [];
    }
    var lo, hi := MinMax(counts);
    if hi - lo < strategy.threshold {
      return [];
    }
    var maxRegions := set r | r in counts && counts[r] == hi;
    var pool := set s | s in t && t[s] in maxRegions;
    assert pool == Movable(t, counts);
    out := SortedPrefix(pool, strategy.maxSimultaneous);
  }

  // ----- the coordinator ------------------------------------------------------

  class ShardCoordinator {
    var allocation: Table

    constructor ()
      ensures allocation == map[]
    {
      allocation := map[];
    }

    method Allocate(shard: string, defaultRegion: string) returns (region: string)
      modifies this
      ensures allocation ==
              if shard in old(allocation) then old(allocation) else old(allocation)[shard := defaultRegion]
      ensures region == allocation[shard]
    {
      if shard !in allocation {
        allocation := allocation[shard := defaultRegion];
      }
      region := allocation[shard];
    }

    method AllocateWithStrategy(shard: string) returns (chosen: Option<string>)
      modifies this
      ensures chosen.None? <==> old(allocation) == map[]
      ensures chosen.None? ==> allocation == old(allocation)
      ensures chosen.Some? ==> IsLeast(Counts(old(allocation)), chosen.value) &&
                               allocation == old(allocation)[shard := chosen.value]
    {
      var counts := RegionShardCounts(allocation);
      CountsEmpty(allocation);
      chosen := AllocateShard(counts);
      if chosen.Some? {
        allocation := allocation[shard := chosen.value];
      }
    }

    method RebalanceWithStrategy(strategy: LeastShard) returns (out: seq<string>)
      ensures Unbalanced(Counts(allocation), strategy.threshold) ==>
                SmallestSorted(out, Movable(allocation, Counts(allocation)), strategy.maxSimultaneous)
      ensures !Unbalanced(Counts(allocation), strategy.threshold) ==> out == []
    {
      var counts := RegionShardCounts(allocation);
      out := Rebalance(strategy, allocation, counts);
    }
  }

  lemma CountsEmpty(t: Table)
    ensures Counts(t) == map[] <==> t == map[]
  {
    if t != map[] {
      var s :| s in t;
      assert t[s] in t.Values;
      assert t[s] in Counts(t);
    }
  }
}

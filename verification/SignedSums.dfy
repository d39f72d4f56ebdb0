/** The signed exposure sum: saturating per-node accumulators, their value and their deltas. */
module SignedSums {
  import opened Prelude
  import opened Semilattice
  import opened Crdts

  const I128_MAX: nat := 0x7FFF_FFFF_FFFF_FFFF_FFFF_FFFF_FFFF_FFFF

  const I128_MIN: int := -0x8000_0000_0000_0000_0000_0000_0000_0000

  /** A signed 128-bit amount. */
  predicate IsI128(d: int)
  {
    I128_MIN <= d <= I128_MAX
  }

  predicate Bounded(m: Counts)
  {
    forall k :: k in m ==> m[k] <= I128_MAX
  }

  /** `saturating_add` on non-negative amounts. */
  function AddSat(a: nat, b: nat): nat
  {
    Min(I128_MAX, a + b)
  }

  function AddInto(m: Counts, k: string, amount: nat): Counts
  {
    m[k := AddSat(CountOf(m, k), amount)]
  }

  /** The magnitude that goes into the negative accumulator: `checked_neg` or the maximum. */
  function Magnitude(d: int): nat
    requires IsI128(d) && d < 0
  {
    if d == I128_MIN then I128_MAX else -d
  }

  /** Replicated accumulators and the increments since the last delta was taken. */
  datatype SignedSum = SignedSum(shared: PosNeg, pending: PosNeg)

  const NOTHING: PosNeg := PosNeg(map[], map[])

  function Credit(p: PosNeg, node: string, d: int): PosNeg
    requires IsI128(d)
  {
    if d >= 0 then p.(pos := AddInto(p.pos, node, d)) else p.(neg := AddInto(p.neg, node, Magnitude(d)))
  }

  function AddDelta(s: SignedSum, node: string, d: int): SignedSum
    requires IsI128(d)
  {
    SignedSum(Credit(s.shared, node, d), Credit(s.pending, node, d))
  }

  /** `merge_delta`: the increments are added, so each delta counts every time it is applied. */
  function ApplyDelta(p: PosNeg, delta: PosNeg): PosNeg
  {
    PosNeg(Pointwise(AddSat, p.pos, delta.pos), Pointwise(AddSat, p.neg, delta.neg))
  }

  // ----- sums over a map ------------------------------------------------------

  /** What `value` computes. */
  ghost function Net(p: PosNeg): int
  {
    Min(I128_MAX, Total(p.pos)) - Min(I128_MAX, Total(p.neg))
  }

  /** The fold over the map's values, in whatever order the map yields them. */
  method SaturatingSum(m: Counts) returns (sum: nat)
    requires Bounded(m)
    ensures sum == Min(I128_MAX, Total(m))
  {
    hide Total;
    sum := 0;
    var todo := m;
    while todo != map[]
      invariant sum <= I128_MAX && Min(I128_MAX, sum + Total(todo)) == Min(I128_MAX, Total(m))
      decreases |todo|
    {
      var k :| k in todo;
      TotalSplit(todo, k);
      Shrinks(todo, k);
      sum := AddSat(sum, todo[k]);
      todo := todo - {k};
    }
    TotalEmpty();
  }

  lemma Shrinks(m: Counts, k: string)
    requires k in m
    ensures |m - {k}| < |m|
  {
    assert (m - {k}).Keys == m.Keys - {k};
  }

  // ----- the object -----------------------------------------------------------

  class SignedSumReplica {
    var pos: Counts
    var neg: Counts
    var pendingPos: Counts
    var pendingNeg: Counts

    ghost function View(): SignedSum
      reads this
    {
      SignedSum(PosNeg(pos, neg), PosNeg(pendingPos, pendingNeg))
    }

    constructor ()
      ensures View() == SignedSum(NOTHING, NOTHING)
    {
      pos, neg, pendingPos, pendingNeg := map[], map[], map[], map[];
    }

    method Add(node: string, d: int)
      requires IsI128(d)
      modifies this
      ensures View() == AddDelta(old(View()), node, d)
    {
      if d >= 0 {
        pos := AddInto(pos, node, d);
        pendingPos := AddInto(pendingPos, node, d);
      } else {
        neg := AddInto(neg, node, Magnitude(d));
        pendingNeg := AddInto(pendingNeg, node, Magnitude(d));
      }
    }

    method Value() returns (v: int)
      requires Bounded(pos) && Bounded(neg)
      ensures v == Net(View().shared) && IsI128(v)
    {
      var p := SaturatingSum(pos);
      var n := SaturatingSum(neg);
      v := Max(I128_MIN, Min(I128_MAX, p as int - n as int));
    }

    method Merge(other: SignedSumReplica)
      modifies this
      ensures View() == old(View()).(shared := JoinPosNeg(old(View().shared), old(other.View().shared)))
    {
      var theirPos, theirNeg := other.pos, other.neg;
      pos := MergeEntries(MaxNat, pos, theirPos);
      neg := MergeEntries(MaxNat, neg, theirNeg);
    }

    method TakeDelta() returns (delta: Option<PosNeg>)
      modifies this
      ensures delta == (if old(View()).pending == NOTHING then None else Some(old(View()).pending))
      ensures View() == old(View()).(pending := NOTHING)
    {
      if pendingPos == map[] && pendingNeg == map[] {
        return None;
      }
      delta := Some(PosNeg(pendingPos, pendingNeg));
      pendingPos, pendingNeg := map[], map[];
    }

    method MergeDelta(delta: PosNeg)
      modifies this
      ensures View() == old(View()).(shared := ApplyDelta(old(View()).shared, delta))
    {
      pos := MergeEntries(AddSat, pos, delta.pos);
      neg := MergeEntries(AddSat, neg, delta.neg);
    }
  }
}

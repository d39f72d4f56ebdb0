/** The hash chain of the write-once journal: row hashes and the verifier. */
module WormChain {
  import opened Prelude

  type Bytes = seq<Byte>

  /**
   * The text encoding of ids and the digest, both outside the repository. `Sound` holds what every
   * use of SHA-256 may rely on: 32 bytes of output. Collision freedom is never assumed of the whole
   * function, only of the finitely many inputs at hand.
   */
  datatype Hasher = Hasher(utf8: string -> Bytes, digest: Bytes -> Bytes) {
    ghost predicate Sound()
    {
      forall x :: |digest(x)| == 32
    }
  }

  datatype Row = Row(
    pid: string, seqNr: nat, payload: Bytes, manifest: string, writer: string, createdAt: int,
    prevHash: Option<Bytes>, rowHash: Option<Bytes>)
  {
    /** What the column types hold. */
    predicate Typed()
    {
      seqNr < TWO_64 && IsI64(createdAt)
    }
  }

  predicate IsI64(n: int)
  {
    -0x8000_0000_0000_0000 <= n < 0x8000_0000_0000_0000
  }

  // ----- little-endian integers -----------------------------------------------

  /** The low `k` bytes of `n`, lowest first. */
  function LittleEndian(n: nat, k: nat): (s: Bytes)
    ensures |s| == k
  {
    if k == 0 then [] else [n % 256] + LittleEndian(n / 256, k - 1)
  }

  function FromLittleEndian(s: Bytes): nat
  {
    if s == [] then 0 else s[0] + 256 * FromLittleEndian(s[1..])
  }

  function Capacity(k: nat): nat
  {
    if k == 0 then 1 else 256 * Capacity(k - 1)
  }

  lemma {:induction false} LittleEndianRoundTrip(n: nat, k: nat)
    requires n < Capacity(k)
    ensures FromLittleEndian(LittleEndian(n, k)) == n
    decreases k
  {
    if k > 0 {
      LittleEndianRoundTrip(n / 256, k - 1);
      assert LittleEndian(n, k)[1..] == LittleEndian(n / 256, k - 1);
    }
  }

  lemma EightBytesHold64Bits()
    ensures Capacity(8) == TWO_64
  {
    assert Capacity(4) == 256 * Capacity(3) && Capacity(3) == 256 * Capacity(2) && Capacity(2) == 256 * Capacity(1);
    assert Capacity(8) == 256 * Capacity(7) && Capacity(7) == 256 * Capacity(6) && Capacity(6) == 256 * Capacity(5);
    assert Capacity(5) == 256 * Capacity(4);
  }

  /** `u64::to_le_bytes`. */
  function U64Bytes(n: nat): Bytes
  {
    LittleEndian(n, 8)
  }

  /** `i64::to_le_bytes`: two's complement. */
  function I64Bytes(n: int): Bytes
  {
    LittleEndian(n % TWO_64, 8)
  }

  lemma IntegersEncodeInjectively(a: nat, b: nat, c: int, d: int)
    requires a < TWO_64 && b < TWO_64 && IsI64(c) && IsI64(d)
    ensures U64Bytes(a) == U64Bytes(b) ==> a == b
    ensures I64Bytes(c) == I64Bytes(d) ==> c == d
  {
    hide LittleEndian, FromLittleEndian;
    EightBytesHold64Bits();
    LittleEndianRoundTrip(a, 8);
    LittleEndianRoundTrip(b, 8);
    LittleEndianRoundTrip(c % TWO_64, 8);
    LittleEndianRoundTrip(d % TWO_64, 8);
  }

  // ----- row hashes -----------------------------------------------------------

  /** The bytes that are hashed for a row. */
  function Preimage(h: Hasher, prev: Bytes, pid: string, seqNr: nat, payload: Bytes, createdAt: int): Bytes
  {
    prev + h.utf8(pid) + U64Bytes(seqNr) + payload + I64Bytes(createdAt)
  }

  function RowHash(h: Hasher, prev: Bytes, pid: string, seqNr: nat, payload: Bytes, createdAt: int): Bytes
  {
    h.digest(Preimage(h, prev, pid, seqNr, payload, createdAt))
  }

  /** For one id and previous hashes of one length, the preimage determines every part. */
  lemma PreimageInjective(h: Hasher, pid: string, p: Bytes, s: nat, x: Bytes, c: int, q: Bytes, t: nat, y: Bytes,
                          d: int)
    requires |p| == |q| && s < TWO_64 && t < TWO_64 && IsI64(c) && IsI64(d)
    requires Preimage(h, p, pid, s, x, c) == Preimage(h, q, pid, t, y, d)
    ensures p == q && s == t && x == y && c == d
  {
    hide LittleEndian;
    var a, b := Preimage(h, p, pid, s, x, c), Preimage(h, q, pid, t, y, d);
    var n, m := |p|, |p| + |h.utf8(pid)|;
    assert |x| == |y|;
    assert a[..n] == p && b[..n] == q;
    assert a[m..m + 8] == U64Bytes(s) && b[m..m + 8] == U64Bytes(t);
    assert a[m + 8..|a| - 8] == x && b[m + 8..|b| - 8] == y;
    assert a[|a| - 8..] == I64Bytes(c) && b[|b| - 8..] == I64Bytes(d);
    IntegersEncodeInjectively(s, t, c, d);
  }

  // ----- the verifier ---------------------------------------------------------

  datatype ChainProof = Intact(rows: nat) | Tampered(firstBad: nat)

  function OrEmpty(o: Option<Bytes>): Bytes
  {
    if o.Some? then o.value else []
  }

  /** Whether a row passes, given the running hash. */
  predicate RowPasses(h: Hasher, pid: string, prev: Bytes, row: Row)
  {
    OrEmpty(row.prevHash) == prev &&
    row.rowHash == Some(RowHash(h, prev, pid, row.seqNr, row.payload, row.createdAt))
  }

  /** The running hash in front of row `i`. */
  function PrevOf(rows: seq<Row>, i: nat): Bytes
    requires i <= |rows|
  {
    if i == 0 then [] else OrEmpty(rows[i - 1].rowHash)
  }

  /** Row `i` passes and so do all before it. */
  predicate PassesUpTo(h: Hasher, pid: string, rows: seq<Row>, i: nat)
    requires i <= |rows|
  {
    forall k :: 0 <= k < i ==> RowPasses(h, pid, PrevOf(rows, k), rows[k])
  }

  lemma PassesNone(h: Hasher, pid: string, rows: seq<Row>)
    ensures PassesUpTo(h, pid, rows, 0)
  {
  }

  lemma PassesOneMore(h: Hasher, pid: string, rows: seq<Row>, i: nat)
    requires i < |rows| && PassesUpTo(h, pid, rows, i) && RowPasses(h, pid, PrevOf(rows, i), rows[i])
    ensures PassesUpTo(h, pid, rows, i + 1)
  {
  }

  /** The verifier's loop over the rows of one id in sequence order. */
  method VerifyRows(h: Hasher, pid: string, rows: seq<Row>) returns (proof: ChainProof)
    ensures proof == Verdict(h, pid, rows)
  {
    hide RowHash, Verdict, PassesUpTo;
    var expectedPrev: Bytes := [];
    assert PassesUpTo(h, pid, rows, 0) by { PassesNone(h, pid, rows); }
    var count: nat := 0;
    for i := 0 to |rows|
      invariant count == i && expectedPrev == PrevOf(rows, i)
      invariant PassesUpTo(h, pid, rows, i)
    {
      var row := rows[i];
      count := count + 1;
      if OrEmpty(row.prevHash) != expectedPrev {
        FirstFailure(h, pid, rows, i);
        return Tampered(row.seqNr);
      }
      var recomputed := RowHash(h, expectedPrev, pid, row.seqNr, row.payload, row.createdAt);
      if row.rowHash.Some? && row.rowHash.value == recomputed {
        PassesOneMore(h, pid, rows, i);
        expectedPrev := recomputed;
      } else {
        FirstFailure(h, pid, rows, i);
        return Tampered(row.seqNr);
      }
    }
    AllPass(h, pid, rows);
    return Intact(count);
  }

  /** Number of leading rows that pass. */
  function GoodPrefix(h: Hasher, pid: string, rows: seq<Row>, i: nat): (n: nat)
    requires i <= |rows|
    ensures i <= n <= |rows|
    ensures forall k :: i <= k < n ==> RowPasses(h, pid, PrevOf(rows, k), rows[k])
    ensures n < |rows| ==> !RowPasses(h, pid, PrevOf(rows, n), rows[n])
    decreases |rows| - i
  {
    if i < |rows| && RowPasses(h, pid, PrevOf(rows, i), rows[i]) then GoodPrefix(h, pid, rows, i + 1) else i
  }

  /** The answer: intact, or the number of the first row that does not pass. */
  function Verdict(h: Hasher, pid: string, rows: seq<Row>): ChainProof
  {
    var n := GoodPrefix(h, pid, rows, 0);
    if n == |rows| then Intact(n) else Tampered(rows[n].seqNr)
  }

  lemma FirstFailure(h: Hasher, pid: string, rows: seq<Row>, i: nat)
    requires i < |rows| && PassesUpTo(h, pid, rows, i) && !RowPasses(h, pid, PrevOf(rows, i), rows[i])
    ensures Verdict(h, pid, rows) == Tampered(rows[i].seqNr)
  {
    hide RowPasses;
    var n := GoodPrefix(h, pid, rows, 0);
    assert n >= i;
  }

  lemma AllPass(h: Hasher, pid: string, rows: seq<Row>)
    requires PassesUpTo(h, pid, rows, |rows|)
    ensures Verdict(h, pid, rows) == Intact(|rows|)
  {
    hide RowPasses;
    assert GoodPrefix(h, pid, rows, 0) == |rows|;
  }

  /** An intact answer means that every row passes. */
  lemma IntactMeansPasses(h: Hasher, pid: string, rows: seq<Row>)
    ensures Verdict(h, pid, rows).Intact? <==> PassesUpTo(h, pid, rows, |rows|)
  {
    if PassesUpTo(h, pid, rows, |rows|) {
      AllPass(h, pid, rows);
    }
  }
}

/** Whether a chain of hashes fixes the id it was written for: one row does not, two rows do. */
module WormIdentity {
  import opened Prelude
  import opened WormChain
  import opened WormIntegrity

  /** Nothing separates the id from the number, so a longer id can swallow it: one digest, two readings. */
  lemma PreimagesCollide(h: Hasher, prev: Bytes, p: string, q: string, s: nat, t: nat, payload: Bytes, createdAt: int)
    requires h.utf8(q) == h.utf8(p) + U64Bytes(s)
    ensures Preimage(h, prev, p, s, U64Bytes(t) + payload, createdAt) == Preimage(h, prev, q, t, payload, createdAt)
  {
    hide LittleEndian;
    var id, n, m, c := h.utf8(p), U64Bytes(s), U64Bytes(t), I64Bytes(createdAt);
    assert prev + id + n + (m + payload) + c == prev + (id + n) + m + payload + c;
  }

  function Lone(h: Hasher, pid: string, seqNr: nat, payload: Bytes, createdAt: int): Row
  {
    Row(pid, seqNr, payload, "", "", createdAt, None, Some(RowHash(h, [], pid, seqNr, payload, createdAt)))
  }

  /** So a chain of one row has the same hash as one of another id, and both are intact. */
  lemma OneRowTwoIds(h: Hasher, p: string, q: string, s: nat, t: nat, payload: Bytes, createdAt: int)
    requires h.utf8(q) == h.utf8(p) + U64Bytes(s)
    ensures var a, b := Lone(h, p, s, U64Bytes(t) + payload, createdAt), Lone(h, q, t, payload, createdAt);
            a.rowHash == b.rowHash && Verdict(h, p, [a]).Intact? && Verdict(h, q, [b]).Intact?
  {
    PreimagesCollide(h, [], p, q, s, t, payload, createdAt);
    hide Preimage, U64Bytes;
  }

  /** No two different inputs at the same position of the two chains, each of its own id, have the same digest. */
  ghost predicate NoCollisionAcross(h: Hasher, p: string, a: seq<Row>, q: string, b: seq<Row>)
    requires |a| == |b|
  {
    forall i :: 0 <= i < |a| && h.digest(PreimageAt(h, p, a, i)) == h.digest(PreimageAt(h, q, b, i)) ==>
      PreimageAt(h, p, a, i) == PreimageAt(h, q, b, i)
  }

  /** What is hashed after the running hash. */
  function Content(h: Hasher, pid: string, row: Row): Bytes
  {
    h.utf8(pid) + (U64Bytes(row.seqNr) + row.payload + I64Bytes(row.createdAt))
  }

  lemma PreimageSplits(h: Hasher, pid: string, rows: seq<Row>, i: nat)
    requires i < |rows|
    ensures PreimageAt(h, pid, rows, i) == PrevOf(rows, i) + Content(h, pid, rows[i])
  {
    hide LittleEndian;
    var prev, id, n, x, c :=
      PrevOf(rows, i), h.utf8(pid), U64Bytes(rows[i].seqNr), rows[i].payload, I64Bytes(rows[i].createdAt);
    assert prev + id + n + x + c == prev + (id + (n + x + c));
  }

  lemma Halves(a: Bytes, b: Bytes, c: Bytes, d: Bytes)
    requires a + b == c + d && |a| == |c|
    ensures a == c && b == d
  {
    assert (a + b)[..|a|] == a && (c + d)[..|c|] == c;
    assert (a + b)[|a|..] == b && (c + d)[|c|..] == d;
  }

  lemma LinkAcross(h: Hasher, p: string, a: seq<Row>, q: string, b: seq<Row>, i: nat)
    requires h.Sound() && |a| == |b| && NoCollisionAcross(h, p, a, q, b) && i < |a|
    requires PassesUpTo(h, p, a, |a|) && PassesUpTo(h, q, b, |b|) && a[i].rowHash == b[i].rowHash
    ensures PrevOf(a, i) == PrevOf(b, i) && Content(h, p, a[i]) == Content(h, q, b[i])
  {
    hide PassesUpTo, PreimageAt, PrevOf, Content;
    PassingRow(h, p, a, i);
    PassingRow(h, q, b, i);
    PrevLength(h, p, a, i);
    PrevLength(h, q, b, i);
    PreimageSplits(h, p, a, i);
    PreimageSplits(h, q, b, i);
    Halves(PrevOf(a, i), Content(h, p, a[i]), PrevOf(b, i), Content(h, q, b[i]));
  }

  /** Equal last hashes give equal content all the way back, ids included. */
  lemma {:induction false} TipFixesContent(h: Hasher, p: string, a: seq<Row>, q: string, b: seq<Row>, i: nat, last: nat)
    requires h.Sound() && |a| == |b| && NoCollisionAcross(h, p, a, q, b) && i <= last < |a|
    requires PassesUpTo(h, p, a, |a|) && PassesUpTo(h, q, b, |b|) && a[last].rowHash == b[last].rowHash
    ensures Content(h, p, a[i]) == Content(h, q, b[i])
    decreases last
  {
    hide PassesUpTo, NoCollisionAcross, Content;
    LinkAcross(h, p, a, q, b, last);
    if i < last {
      PassingRow(h, p, a, last - 1);
      PassingRow(h, q, b, last - 1);
      TipFixesContent(h, p, a, q, b, i, last - 1);
    }
  }

  /** The byte behind the shorter id is the low byte of its number. */
  lemma LowByte(h: Hasher, p: string, row: Row)
    ensures |Content(h, p, row)| > |h.utf8(p)| && Content(h, p, row)[|h.utf8(p)|] == row.seqNr % 256
  {
    var tail := U64Bytes(row.seqNr) + row.payload + I64Bytes(row.createdAt);
    assert tail[0] == U64Bytes(row.seqNr)[0] == row.seqNr % 256;
  }

  lemma IdByte(h: Hasher, q: string, row: Row, n: nat)
    requires n < |h.utf8(q)|
    ensures |Content(h, q, row)| > n && Content(h, q, row)[n] == h.utf8(q)[n]
  {}

  lemma NotShorter(h: Hasher, p: string, a0: Row, a1: Row, q: string, b0: Row, b1: Row)
    requires a1.seqNr == a0.seqNr + 1
    requires Content(h, p, a0) == Content(h, q, b0) && Content(h, p, a1) == Content(h, q, b1)
    ensures |h.utf8(p)| >= |h.utf8(q)|
  {
    hide Content;
    var n := |h.utf8(p)|;
    LowByte(h, p, a0);
    LowByte(h, p, a1);
    if n < |h.utf8(q)| {
      IdByte(h, q, b0, n);
      IdByte(h, q, b1, n);
    }
  }

  /**
   * Two chains of two or more rows, numbered consecutively and each intact for its own id, that end
   * in the same hash have one id and the same content.
   */
  lemma OneIdOnly(h: Hasher, p: string, a: seq<Row>, q: string, b: seq<Row>)
    requires h.Sound() && |a| == |b| >= 2 && NoCollisionAcross(h, p, a, q, b)
    requires Verdict(h, p, a).Intact? && Verdict(h, q, b).Intact?
    requires a[1].seqNr == a[0].seqNr + 1 && b[1].seqNr == b[0].seqNr + 1
    requires a[|a| - 1].rowHash == b[|b| - 1].rowHash
    ensures h.utf8(p) == h.utf8(q)
    ensures forall i :: 0 <= i < |a| ==> Content(h, p, a[i]) == Content(h, q, b[i])
  {
    hide PassesUpTo, NoCollisionAcross, Verdict, Content;
    IntactMeansPasses(h, p, a);
    IntactMeansPasses(h, q, b);
    forall i | 0 <= i < |a|
      ensures Content(h, p, a[i]) == Content(h, q, b[i])
    {
      TipFixesContent(h, p, a, q, b, i, |a| - 1);
    }
    NotShorter(h, p, a[0], a[1], q, b[0], b[1]);
    NotShorter(h, q, b[0], b[1], p, a[0], a[1]);
    SameId(h, p, a[0], q, b[0]);
  }

  lemma SameId(h: Hasher, p: string, a: Row, q: string, b: Row)
    requires Content(h, p, a) == Content(h, q, b) && |h.utf8(p)| == |h.utf8(q)|
    ensures h.utf8(p) == h.utf8(q)
  {
    hide U64Bytes, I64Bytes;
    Halves(h.utf8(p), U64Bytes(a.seqNr) + a.payload + I64Bytes(a.createdAt),
           h.utf8(q), U64Bytes(b.seqNr) + b.payload + I64Bytes(b.createdAt));
  }
}

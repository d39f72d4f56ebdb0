/** What an intact chain proves about the rows, and what it does not. */
module WormIntegrity {
  import opened Prelude
  import opened WormChain

  predicate AllTyped(rows: seq<Row>)
  {
    forall i :: 0 <= i < |rows| ==> rows[i].Typed()
  }

  /** The bytes whose digest row `i` must carry. */
  function PreimageAt(h: Hasher, pid: string, rows: seq<Row>, i: nat): Bytes
    requires i < |rows|
  {
    Preimage(h, PrevOf(rows, i), pid, rows[i].seqNr, rows[i].payload, rows[i].createdAt)
  }

  /** No two different inputs at the same position of the two chains have the same digest. */
  ghost predicate NoCollision(h: Hasher, pid: string, a: seq<Row>, b: seq<Row>)
    requires |a| == |b|
  {
    forall i :: 0 <= i < |a| && h.digest(PreimageAt(h, pid, a, i)) == h.digest(PreimageAt(h, pid, b, i)) ==>
      PreimageAt(h, pid, a, i) == PreimageAt(h, pid, b, i)
  }

  /** The columns the chain covers. */
  predicate SameCovered(a: Row, b: Row)
  {
    a.seqNr == b.seqNr && a.payload == b.payload && a.createdAt == b.createdAt &&
    a.rowHash == b.rowHash && OrEmpty(a.prevHash) == OrEmpty(b.prevHash)
  }

  lemma PassingRow(h: Hasher, pid: string, rows: seq<Row>, i: nat)
    requires PassesUpTo(h, pid, rows, |rows|) && i < |rows|
    ensures rows[i].rowHash == Some(h.digest(PreimageAt(h, pid, rows, i))) &&
            OrEmpty(rows[i].prevHash) == PrevOf(rows, i)
  {
    hide Preimage;
    assert RowPasses(h, pid, PrevOf(rows, i), rows[i]);
  }

  lemma PrevLength(h: Hasher, pid: string, rows: seq<Row>, i: nat)
    requires h.Sound() && PassesUpTo(h, pid, rows, |rows|) && i < |rows|
    ensures |PrevOf(rows, i)| == if i == 0 then 0 else 32
  {
    hide Preimage;
    if i > 0 {
      PassingRow(h, pid, rows, i - 1);
    }
  }

  /** Equal digests at one position give equal columns there and equal running hashes in front. */
  lemma OneLinkBack(h: Hasher, pid: string, a: seq<Row>, b: seq<Row>, i: nat)
    requires h.Sound() && |a| == |b| && AllTyped(a) && AllTyped(b) && NoCollision(h, pid, a, b) && i < |a|
    requires PassesUpTo(h, pid, a, |a|) && PassesUpTo(h, pid, b, |b|) && a[i].rowHash == b[i].rowHash
    ensures SameCovered(a[i], b[i]) && PrevOf(a, i) == PrevOf(b, i)
  {
    hide Preimage, PassesUpTo;
    PassingRow(h, pid, a, i);
    PassingRow(h, pid, b, i);
    PrevLength(h, pid, a, i);
    PrevLength(h, pid, b, i);
    assert PreimageAt(h, pid, a, i) == PreimageAt(h, pid, b, i);
    assert a[i].Typed() && b[i].Typed();
    PreimageInjective(h, pid, PrevOf(a, i), a[i].seqNr, a[i].payload, a[i].createdAt,
                      PrevOf(b, i), b[i].seqNr, b[i].payload, b[i].createdAt);
  }

  /** Two intact chains of one id and length that end in the same row hash are equal row by row. */
  lemma {:induction false} TipFixesChain(h: Hasher, pid: string, a: seq<Row>, b: seq<Row>, i: nat, last: nat)
    requires h.Sound() && |a| == |b| && AllTyped(a) && AllTyped(b) && NoCollision(h, pid, a, b)
    requires Verdict(h, pid, a).Intact? && Verdict(h, pid, b).Intact?
    requires i <= last < |a| && a[last].rowHash == b[last].rowHash
    ensures SameCovered(a[i], b[i])
    decreases last
  {
    hide Preimage, Verdict, NoCollision, PassesUpTo, PreimageAt, SameCovered, AllTyped;
    IntactMeansPasses(h, pid, a);
    IntactMeansPasses(h, pid, b);
    OneLinkBack(h, pid, a, b, last);
    if i < last {
      PassingRow(h, pid, a, last - 1);
      PassingRow(h, pid, b, last - 1);
      TipFixesChain(h, pid, a, b, i, last - 1);
    }
  }

  /** `edited` differs from `rows` in payloads and timestamps only. */
  predicate EditOf(rows: seq<Row>, edited: seq<Row>)
  {
    |edited| == |rows| &&
    forall i :: 0 <= i < |rows| ==>
      edited[i] == rows[i].(payload := edited[i].payload, createdAt := edited[i].createdAt)
  }

  lemma EditKeepsPrev(rows: seq<Row>, edited: seq<Row>, i: nat)
    requires EditOf(rows, edited) && i <= |rows|
    ensures PrevOf(edited, i) == PrevOf(rows, i)
  {
    if i > 0 {
      assert edited[i - 1].rowHash == rows[i - 1].rowHash;
    }
  }

  /** Edits without the hashes are reported at the earliest edited number. */
  lemma EarliestEditReported(h: Hasher, pid: string, rows: seq<Row>, edited: seq<Row>, e: nat)
    requires AllTyped(rows) && AllTyped(edited) && EditOf(rows, edited) && NoCollision(h, pid, rows, edited)
    requires Verdict(h, pid, rows).Intact?
    requires e < |rows| && edited[e] != rows[e] && edited[..e] == rows[..e]
    ensures Verdict(h, pid, edited) == Tampered(rows[e].seqNr)
  {
    hide Preimage, Verdict;
    IntactMeansPasses(h, pid, rows);
    forall k | 0 <= k < e ensures RowPasses(h, pid, PrevOf(edited, k), edited[k]) {
      EditKeepsPrev(rows, edited, k);
      assert edited[..e][k] == rows[..e][k];
      assert RowPasses(h, pid, PrevOf(rows, k), rows[k]);
    }
    EditKeepsPrev(rows, edited, e);
    EditedRowFails(h, pid, rows, edited, e);
    FirstFailure(h, pid, edited, e);
  }

  lemma EditedRowFails(h: Hasher, pid: string, rows: seq<Row>, edited: seq<Row>, e: nat)
    requires AllTyped(rows) && AllTyped(edited) && EditOf(rows, edited) && NoCollision(h, pid, rows, edited)
    requires e < |rows| && RowPasses(h, pid, PrevOf(rows, e), rows[e]) && edited[e] != rows[e]
    ensures !RowPasses(h, pid, PrevOf(edited, e), edited[e])
  {
    hide Preimage;
    EditKeepsPrev(rows, edited, e);
    assert rows[e].Typed() && edited[e].Typed();
    if RowPasses(h, pid, PrevOf(edited, e), edited[e]) {
      assert PreimageAt(h, pid, rows, e) == PreimageAt(h, pid, edited, e);
      PreimageInjective(h, pid, PrevOf(rows, e), rows[e].seqNr, rows[e].payload, rows[e].createdAt,
                        PrevOf(rows, e), edited[e].seqNr, edited[e].payload, edited[e].createdAt);
    }
  }

  // ----- what the chain does not cover ----------------------------------------

  /** Cutting rows off the end leaves an intact chain. */
  lemma TruncationUndetected(h: Hasher, pid: string, rows: seq<Row>, n: nat)
    requires Verdict(h, pid, rows).Intact? && n <= |rows|
    ensures Verdict(h, pid, rows[..n]) == Intact(n)
  {
    hide Verdict, RowPasses;
    IntactMeansPasses(h, pid, rows);
    var cut := rows[..n];
    forall k | 0 <= k < n ensures RowPasses(h, pid, PrevOf(cut, k), cut[k]) {
      assert RowPasses(h, pid, PrevOf(rows, k), rows[k]);
    }
    AllPass(h, pid, cut);
  }

  /** The rows without those from `i` up to `j`. */
  function Without(rows: seq<Row>, i: nat, j: nat): seq<Row>
    requires i <= j <= |rows|
  {
    rows[..i] + rows[j..]
  }

  /** Every row left passes after a cut between equal running hashes, and every row in front of any cut. */
  lemma PassesAfterCut(h: Hasher, pid: string, rows: seq<Row>, i: nat, j: nat, k: nat)
    requires PassesUpTo(h, pid, rows, |rows|) && i <= j <= |rows| && k < |Without(rows, i, j)|
    requires k < i || PrevOf(rows, i) == PrevOf(rows, j)
    ensures RowPasses(h, pid, PrevOf(Without(rows, i, j), k), Without(rows, i, j)[k])
  {
    hide RowPasses, PassesUpTo, PrevOf, Without;
    var at := if k < i then k else j + k - i;
    RowAfterCut(rows, i, j, k);
    RowOfChain(h, pid, rows, at);
  }

  lemma RowOfChain(h: Hasher, pid: string, rows: seq<Row>, k: nat)
    requires PassesUpTo(h, pid, rows, |rows|) && k < |rows|
    ensures RowPasses(h, pid, PrevOf(rows, k), rows[k])
  {
    hide RowPasses;
  }

  lemma RowAfterCut(rows: seq<Row>, i: nat, j: nat, k: nat)
    requires i <= j <= |rows| && k < |Without(rows, i, j)|
    ensures var at := if k < i then k else j + k - i;
            at < |rows| && Without(rows, i, j)[k] == rows[at] &&
            PrevOf(Without(rows, i, j), k) == PrevOf(rows, if k == i then i else at)
  {}

  /**
   * Missing rows go unnoticed exactly when they were the last ones or the running hash is the same on
   * both sides of the cut; otherwise the row behind the cut is reported.
   */
  lemma CutUnnoticedIff(h: Hasher, pid: string, rows: seq<Row>, i: nat, j: nat)
    requires Verdict(h, pid, rows).Intact? && i <= j <= |rows|
    ensures Verdict(h, pid, Without(rows, i, j)).Intact? <==> j == |rows| || PrevOf(rows, i) == PrevOf(rows, j)
    ensures j < |rows| && PrevOf(rows, i) != PrevOf(rows, j) ==>
              Verdict(h, pid, Without(rows, i, j)) == Tampered(rows[j].seqNr)
  {
    hide Verdict, RowHash;
    IntactMeansPasses(h, pid, rows);
    var cut := Without(rows, i, j);
    var upTo := if j == |rows| || PrevOf(rows, i) == PrevOf(rows, j) then |cut| else i;
    forall k | 0 <= k < upTo
      ensures RowPasses(h, pid, PrevOf(cut, k), cut[k])
    {
      PassesAfterCut(h, pid, rows, i, j, k);
    }
    if upTo == |cut| {
      AllPass(h, pid, cut);
    } else {
      assert RowPasses(h, pid, PrevOf(rows, j), rows[j]);
      assert cut[i] == rows[j] && PrevOf(cut, i) == PrevOf(rows, i);
      FirstFailure(h, pid, cut, i);
    }
  }

  /** Rows missing from the front are always reported, unless none are left. */
  lemma MissingFrontReported(h: Hasher, pid: string, rows: seq<Row>, j: nat)
    requires h.Sound() && Verdict(h, pid, rows).Intact? && 0 < j < |rows|
    ensures Verdict(h, pid, rows[j..]) == Tampered(rows[j].seqNr)
  {
    hide Verdict, RowPasses, PassesUpTo;
    IntactMeansPasses(h, pid, rows);
    PrevLength(h, pid, rows, j);
    CutUnnoticedIff(h, pid, rows, 0, j);
    assert Without(rows, 0, j) == rows[j..];
  }

  /** The answer depends on the covered columns alone: manifest and writer can change unnoticed. */
  lemma OnlyCoveredColumnsCount(h: Hasher, pid: string, a: seq<Row>, b: seq<Row>)
    requires |a| == |b| && forall i :: 0 <= i < |a| ==> SameCovered(a[i], b[i])
    ensures Verdict(h, pid, a) == Verdict(h, pid, b)
  {
    hide Verdict, RowHash;
    forall k | 0 <= k < |a| ensures RowPasses(h, pid, PrevOf(a, k), a[k]) <==> RowPasses(h, pid, PrevOf(b, k), b[k]) {
      assert SameCovered(a[k], b[k]);
      if k > 0 { assert SameCovered(a[k - 1], b[k - 1]); }
    }
    var n := GoodPrefix(h, pid, a, 0);
    if n == |a| {
      AllPass(h, pid, a);
      AllPass(h, pid, b);
    } else {
      FirstFailure(h, pid, a, n);
      FirstFailure(h, pid, b, n);
    }
  }
}

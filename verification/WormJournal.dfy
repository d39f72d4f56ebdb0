/** `write_messages` over the event table: grouping by id, sequence checks, chaining, all or nothing. */
module WormJournal {
  import opened Prelude
  import opened WormChain

  datatype Message = Message(pid: string, seqNr: nat, payload: Bytes, manifest: string, writer: string)

  datatype JournalError = SequenceOutOfOrder(expected: nat, got: nat) | Backend

  // ----- queries --------------------------------------------------------------

  function RowsOf(table: seq<Row>, pid: string): seq<Row>
  {
    if table == [] then []
    else
      var last := table[|table| - 1];
      RowsOf(table[..|table| - 1], pid) + if last.pid == pid then [last] else []
  }

  function MessagesOf(messages: seq<Message>, pid: string): seq<Message>
  {
    if messages == [] then []
    else
      var last := messages[|messages| - 1];
      MessagesOf(messages[..|messages| - 1], pid) + if last.pid == pid then [last] else []
  }

  /** The row with the highest sequence number: what `MAX` and `ORDER BY ... DESC LIMIT 1` see. */
  function Latest(rows: seq<Row>): Row
    requires rows != []
  {
    if |rows| == 1 then rows[0]
    else
      var best := Latest(rows[..|rows| - 1]);
      if rows[|rows| - 1].seqNr > best.seqNr then rows[|rows| - 1] else best
  }

  function NextSeq(rows: seq<Row>): nat
  {
    if rows == [] then 1 else Latest(rows).seqNr + 1
  }

  function LastHash(rows: seq<Row>): Bytes
  {
    if rows == [] then [] else OrEmpty(Latest(rows).rowHash)
  }

  /** `ORDER BY sequence_nr ASC`. */
  function SortedInsert(rows: seq<Row>, row: Row): seq<Row>
  {
    if rows == [] || rows[|rows| - 1].seqNr <= row.seqNr then rows + [row]
    else SortedInsert(rows[..|rows| - 1], row) + [rows[|rows| - 1]]
  }

  function BySeq(rows: seq<Row>): seq<Row>
  {
    if rows == [] then [] else SortedInsert(BySeq(rows[..|rows| - 1]), rows[|rows| - 1])
  }

  // ----- what a batch adds ----------------------------------------------------

  /** The row inserted for a message. An empty running hash is stored as NULL. */
  function NewRow(h: Hasher, chain: bool, msg: Message, prev: Bytes, now: int): Row
  {
    Row(msg.pid, msg.seqNr, msg.payload, msg.manifest, msg.writer, now,
        if chain && prev != [] then Some(prev) else None,
        if chain then Some(RowHash(h, prev, msg.pid, msg.seqNr, msg.payload, now)) else None)
  }

  /** Rows `added` for the messages `msgs` of one id, chained from `prev` and numbered from `next`. */
  predicate Written(h: Hasher, chain: bool, msgs: seq<Message>, added: seq<Row>, prev: Bytes, next: nat)
  {
    |added| == |msgs| && forall i :: 0 <= i < |msgs| ==> WrittenAt(h, chain, msgs, added, prev, next, i)
  }

  predicate WrittenAt(h: Hasher, chain: bool, msgs: seq<Message>, added: seq<Row>, prev: Bytes, next: nat, i: nat)
    requires |added| == |msgs| && i < |msgs|
  {
    msgs[i].seqNr == next + i && IsI64(added[i].createdAt) &&
    var before := if i == 0 || !chain then prev else OrEmpty(added[i - 1].rowHash);
    added[i] == NewRow(h, chain, msgs[i], before, added[i].createdAt)
  }

  /** The messages of one id carry consecutive numbers. */
  predicate InOrder(msgs: seq<Message>, next: nat)
  {
    forall i :: 0 <= i < |msgs| ==> msgs[i].seqNr == next + i
  }

  /** One id's rows are followed by exactly its messages' rows. */
  ghost predicate GroupDone(h: Hasher, chain: bool, before: seq<Row>, after: seq<Row>, messages: seq<Message>,
                            pid: string)
  {
    exists added ::
      RowsOf(after, pid) == RowsOf(before, pid) + added &&
      Written(h, chain, MessagesOf(messages, pid), added, SeedHash(chain, RowsOf(before, pid)),
              NextSeq(RowsOf(before, pid)))
  }

  function SeedHash(chain: bool, rows: seq<Row>): Bytes
  {
    if chain then LastHash(rows) else []
  }

  /** A committed call: every id got exactly its messages. */
  ghost predicate Committed(h: Hasher, chain: bool, before: seq<Row>, after: seq<Row>, messages: seq<Message>)
  {
    forall pid :: GroupDone(h, chain, before, after, messages, pid)
  }

  lemma NoMessagesDone(h: Hasher, chain: bool, table: seq<Row>, messages: seq<Message>, pid: string)
    requires MessagesOf(messages, pid) == []
    ensures GroupDone(h, chain, table, table, messages, pid)
  {
    hide NextSeq, LastHash, MessagesOf, NewRow;
    var none: seq<Row> := [];
    assert RowsOf(table, pid) == RowsOf(table, pid) + none;
    assert Written(h, chain, [], none, SeedHash(chain, RowsOf(table, pid)), NextSeq(RowsOf(table, pid)));
  }

  lemma AppendGroup(h: Hasher, chain: bool, before: seq<Row>, tx: seq<Row>, messages: seq<Message>, pid: string,
                    added: seq<Row>)
    requires RowsOf(tx, pid) == RowsOf(before, pid)
    requires forall i :: 0 <= i < |added| ==> added[i].pid == pid
    requires Written(h, chain, MessagesOf(messages, pid), added, SeedHash(chain, RowsOf(before, pid)),
                     NextSeq(RowsOf(before, pid)))
    ensures GroupDone(h, chain, before, tx + added, messages, pid)
    ensures forall p :: p != pid ==> RowsOf(tx + added, p) == RowsOf(tx, p)
  {
    hide Written, NextSeq, SeedHash, MessagesOf, RowsOf;
    forall p ensures RowsOf(tx + added, p) == RowsOf(tx, p) + (if p == pid then added else []) {
      RowsOfConcat(tx, added, p);
      RowsOfUniform(added, pid, p);
    }
  }

  lemma DoneInOrder(h: Hasher, chain: bool, before: seq<Row>, after: seq<Row>, messages: seq<Message>, pid: string)
    requires GroupDone(h, chain, before, after, messages, pid)
    ensures InOrder(MessagesOf(messages, pid), NextSeq(RowsOf(before, pid)))
  {
    hide NextSeq, SeedHash, MessagesOf, RowsOf, NewRow;
    var msgs, next := MessagesOf(messages, pid), NextSeq(RowsOf(before, pid));
    var added :| Written(h, chain, msgs, added, SeedHash(chain, RowsOf(before, pid)), next);
    WrittenInOrder(h, chain, msgs, added, SeedHash(chain, RowsOf(before, pid)), next);
  }

  lemma {:induction false} RowsOfConcat(a: seq<Row>, b: seq<Row>, pid: string)
    ensures RowsOf(a + b, pid) == RowsOf(a, pid) + RowsOf(b, pid)
  {
    if b == [] {
      assert a + b == a;
    } else {
      var front, last := b[..|b| - 1], b[|b| - 1];
      RowsOfConcat(a, front, pid);
      var all := a + b;
      assert all[..|all| - 1] == a + front && all[|all| - 1] == last;
    }
  }

  lemma {:induction false} RowsOfUniform(rows: seq<Row>, owner: string, pid: string)
    requires forall i :: 0 <= i < |rows| ==> rows[i].pid == owner
    ensures RowsOf(rows, pid) == if pid == owner then rows else []
  {
    if rows != [] {
      RowsOfUniform(rows[..|rows| - 1], owner, pid);
      assert rows == rows[..|rows| - 1] + [rows[|rows| - 1]];
    }
  }

  // ----- the loops ------------------------------------------------------------

  /** The inner loop: one id's messages against the running number and hash. */
  method WriteGroup(h: Hasher, chain: bool, pid: string, msgs: seq<Message>, rows: seq<Row>, clock: nat -> int,
                    used: nat)
    returns (r: Result<seq<Row>, JournalError>)
    requires forall k :: IsI64(clock(k))
    requires forall i :: 0 <= i < |msgs| ==> msgs[i].pid == pid
    ensures r.Ok? <==> InOrder(msgs, NextSeq(rows))
    ensures r.Ok? ==> Written(h, chain, msgs, r.value, SeedHash(chain, rows), NextSeq(rows))
    ensures r.Ok? ==> forall i :: 0 <= i < |r.value| ==> r.value[i].pid == pid
    ensures r.Err? ==> exists i :: 0 <= i < |msgs| && msgs[i].seqNr != NextSeq(rows) + i &&
                                   r.error == SequenceOutOfOrder(NextSeq(rows) + i, msgs[i].seqNr)
  {
    hide RowHash, Written, NextSeq, SeedHash;
    var start := NextSeq(rows);
    var prevHash := SeedHash(chain, rows);
    ghost var first := prevHash;
    var added: seq<Row> := [];
    WrittenNothing(h, chain, first, start);
    assert msgs[..0] == [];
    for i := 0 to |msgs|
      invariant |added| == i && Written(h, chain, msgs[..i], added, first, start)
      invariant prevHash == if i == 0 || !chain then first else OrEmpty(added[i - 1].rowHash)
      invariant forall k :: 0 <= k < i ==> added[k].pid == pid
    {
      var msg := msgs[i];
      if msg.seqNr != start + i {
        return Err(SequenceOutOfOrder(start + i, msg.seqNr));
      }
      var row := NewRow(h, chain, msg, prevHash, clock(used + i));
      assert msgs[..i + 1] == msgs[..i] + [msg];
      WrittenOneMore(h, chain, msgs[..i], added, first, start, msg, prevHash, clock(used + i));
      added := added + [row];
      if chain {
        prevHash := row.rowHash.value;
      }
    }
    assert msgs[..|msgs|] == msgs;
    WrittenInOrder(h, chain, msgs, added, first, start);
    r := Ok(added);
  }

  lemma WrittenNothing(h: Hasher, chain: bool, prev: Bytes, next: nat)
    ensures Written(h, chain, [], [], prev, next)
  {
  }

  lemma WrittenOneMore(h: Hasher, chain: bool, msgs: seq<Message>, added: seq<Row>, first: Bytes, next: nat,
                       msg: Message, prev: Bytes, now: int)
    requires Written(h, chain, msgs, added, first, next) && msg.seqNr == next + |msgs| && IsI64(now)
    requires |added| == |msgs| && prev == if |msgs| == 0 || !chain then first else OrEmpty(added[|msgs| - 1].rowHash)
    ensures Written(h, chain, msgs + [msg], added + [NewRow(h, chain, msg, prev, now)], first, next)
  {
    hide RowHash;
    var ms, rs := msgs + [msg], added + [NewRow(h, chain, msg, prev, now)];
    forall i | 0 <= i < |ms| ensures WrittenAt(h, chain, ms, rs, first, next, i) {
      if i < |msgs| {
        assert WrittenAt(h, chain, msgs, added, first, next, i);
      }
    }
  }

  lemma WrittenInOrder(h: Hasher, chain: bool, msgs: seq<Message>, added: seq<Row>, prev: Bytes, next: nat)
    requires Written(h, chain, msgs, added, prev, next)
    ensures InOrder(msgs, next) && |added| == |msgs|
  {
    hide NewRow;
    forall i | 0 <= i < |msgs| ensures msgs[i].seqNr == next + i {
      assert WrittenAt(h, chain, msgs, added, prev, next, i);
    }
  }

  method GroupByPid(messages: seq<Message>) returns (groups: map<string, seq<Message>>)
    ensures forall pid :: pid in groups <==> MessagesOf(messages, pid) != []
    ensures forall pid :: pid in groups ==> groups[pid] == MessagesOf(messages, pid)
  {
    groups := map[];
    for i := 0 to |messages|
      invariant forall pid :: pid in groups <==> MessagesOf(messages[..i], pid) != []
      invariant forall pid :: pid in groups ==> groups[pid] == MessagesOf(messages[..i], pid)
    {
      var m := messages[i];
      assert messages[..i + 1][..i] == messages[..i];
      groups := groups[m.pid := (if m.pid in groups then groups[m.pid] else []) + [m]];
    }
    assert messages[..|messages|] == messages;
  }

  lemma {:induction false} MessagesHavePid(messages: seq<Message>, pid: string)
    ensures forall i :: 0 <= i < |MessagesOf(messages, pid)| ==> MessagesOf(messages, pid)[i].pid == pid
  {
    if messages != [] {
      MessagesHavePid(messages[..|messages| - 1], pid);
    }
  }

  class SqlJournal {
    const h: Hasher
    const chain: bool
    var table: seq<Row>

    constructor (h: Hasher, chain: bool)
      ensures this.h == h && this.chain == chain && table == []
    {
      this.h, this.chain, this.table := h, chain, [];
    }

    /**
     * One call: all groups in id order inside a transaction. `fault` stands for a statement the
     * database refuses; an error of either kind leaves the table as it was.
     */
    method WriteMessages(messages: seq<Message>, clock: nat -> int, fault: bool) returns (r: Result<(), JournalError>)
      requires forall k :: IsI64(clock(k))
      modifies this
      ensures r.Err? ==> table == old(table)
      ensures r.Ok? ==> Committed(h, chain, old(table), table, messages)
      ensures r == Err(Backend) ==> fault
      ensures !fault ==> (r.Ok? <==> forall pid :: InOrder(MessagesOf(messages, pid), NextSeq(RowsOf(old(table), pid))))
    {
      hide Written, NextSeq, SeedHash, RowsOf, MessagesOf, InOrder, GroupDone;
      var groups := GroupByPid(messages);
      var tx := table;
      var used: nat := 0;
      var todo := groups.Keys;
      forall pid | pid !in groups ensures GroupDone(h, chain, table, tx, messages, pid) {
        NoMessagesDone(h, chain, table, messages, pid);
      }
      while todo != {}
        invariant table == old(table) && todo <= groups.Keys
        invariant forall pid :: pid in todo ==> RowsOf(tx, pid) == RowsOf(table, pid)
        invariant forall pid :: pid !in todo ==> GroupDone(h, chain, table, tx, messages, pid)
        decreases |todo|
      {
        var pid := First(todo);
        MessagesHavePid(messages, pid);
        var w := WriteGroup(h, chain, pid, groups[pid], RowsOf(tx, pid), clock, used);
        if w.Err? {
          return Err(w.error);
        }
        AppendGroup(h, chain, table, tx, messages, pid, w.value);
        KeepDone(h, chain, table, tx, tx + w.value, messages, pid);
        used := used + |w.value|;
        tx := tx + w.value;
        todo := todo - {pid};
      }
      forall pid ensures InOrder(MessagesOf(messages, pid), NextSeq(RowsOf(table, pid))) {
        DoneInOrder(h, chain, table, tx, messages, pid);
      }
      if fault {
        return Err(Backend);
      }
      table := tx;
      return Ok(());
    }
  }

  lemma KeepDone(h: Hasher, chain: bool, before: seq<Row>, tx: seq<Row>, next: seq<Row>, messages: seq<Message>,
                 pid: string)
    requires forall p :: p != pid ==> RowsOf(next, p) == RowsOf(tx, p)
    ensures forall p :: p != pid && GroupDone(h, chain, before, tx, messages, p) ==>
              GroupDone(h, chain, before, next, messages, p)
  {
    hide Written, RowsOf, MessagesOf, NextSeq, SeedHash;
  }

  /** The id that comes first in the ordered map of groups. */
  method First(pids: set<string>) returns (pid: string)
    requires pids != {}
    ensures pid in pids && forall p :: p in pids && p != pid ==> LexLess(pid, p)
  {
    pid :| pid in pids;
    var todo := pids - {pid};
    while todo != {}
      invariant pid in pids && todo <= pids && pid !in todo
      invariant forall p :: p in pids && p !in todo && p != pid ==> LexLess(pid, p)
      decreases |todo|
    {
      var p :| p in todo;
      todo := todo - {p};
      if LexLess(p, pid) {
        forall q | q in pids && q !in todo && q != p ensures LexLess(p, q) {
          if q != pid { LexTransitive(p, pid, q); }
        }
        pid := p;
      } else {
        LexTotal(p, pid);
      }
    }
  }

  // ----- every run ------------------------------------------------------------

  /** Each id holds rows 1, 2, 3, ... chained one to the next. */
  ghost predicate Chained(h: Hasher, rows: seq<Row>, pid: string)
  {
    forall i :: 0 <= i < |rows| ==> ChainedAt(h, rows, pid, i)
  }

  ghost predicate ChainedAt(h: Hasher, rows: seq<Row>, pid: string, i: nat)
    requires i < |rows|
  {
    rows[i].pid == pid && rows[i].seqNr == i + 1 && IsI64(rows[i].createdAt) &&
      RowPasses(h, pid, PrevOf(rows, i), rows[i])
  }

  ghost predicate TableOk(h: Hasher, table: seq<Row>)
  {
    forall pid :: Chained(h, RowsOf(table, pid), pid)
  }

  lemma {:induction false} LatestIsLast(h: Hasher, rows: seq<Row>, pid: string, n: nat)
    requires Chained(h, rows, pid) && 0 < n <= |rows|
    ensures Latest(rows[..n]) == rows[n - 1]
    decreases n
  {
    hide RowPasses;
    assert ChainedAt(h, rows, pid, n - 1);
    if n > 1 {
      LatestIsLast(h, rows, pid, n - 1);
      assert ChainedAt(h, rows, pid, n - 2);
      assert rows[..n][..n - 1] == rows[..n - 1];
    }
  }

  lemma SeedOfChain(h: Hasher, rows: seq<Row>, pid: string)
    requires Chained(h, rows, pid)
    ensures NextSeq(rows) == |rows| + 1 && LastHash(rows) == PrevOf(rows, |rows|)
  {
    hide RowPasses;
    if rows != [] {
      LatestIsLast(h, rows, pid, |rows|);
      assert rows[..|rows|] == rows;
      assert ChainedAt(h, rows, pid, |rows| - 1);
    }
  }

  /** A committed group continues its chain. */
  lemma GroupKeepsChain(h: Hasher, before: seq<Row>, msgs: seq<Message>, added: seq<Row>, pid: string)
    requires Chained(h, before, pid) && forall i :: 0 <= i < |msgs| ==> msgs[i].pid == pid
    requires Written(h, true, msgs, added, SeedHash(true, before), NextSeq(before))
    ensures Chained(h, before + added, pid)
  {
    hide RowHash;
    SeedOfChain(h, before, pid);
    var all := before + added;
    forall i | 0 <= i < |all| ensures ChainedAt(h, all, pid, i) {
      if i < |before| {
        assert ChainedAt(h, before, pid, i);
        assert PrevOf(all, i) == PrevOf(before, i);
      } else {
        var k := i - |before|;
        assert WrittenAt(h, true, msgs, added, SeedHash(true, before), NextSeq(before), k);
        assert all[i] == added[k];
      }
    }
  }

  lemma CommitKeepsTable(h: Hasher, before: seq<Row>, after: seq<Row>, messages: seq<Message>)
    requires TableOk(h, before) && Committed(h, true, before, after, messages)
    ensures TableOk(h, after)
  {
    hide Chained, Written, RowsOf, MessagesOf, SeedHash, NextSeq;
    forall pid ensures Chained(h, RowsOf(after, pid), pid) {
      assert GroupDone(h, true, before, after, messages, pid);
      var added :| RowsOf(after, pid) == RowsOf(before, pid) + added &&
        Written(h, true, MessagesOf(messages, pid), added, SeedHash(true, RowsOf(before, pid)),
                NextSeq(RowsOf(before, pid)));
      MessagesHavePid(messages, pid);
      GroupKeepsChain(h, RowsOf(before, pid), MessagesOf(messages, pid), added, pid);
    }
  }

  /** Ascending rows come out of `ORDER BY` as they are. */
  lemma {:induction false} BySeqOfChain(h: Hasher, rows: seq<Row>, pid: string, n: nat)
    requires Chained(h, rows, pid) && n <= |rows|
    ensures BySeq(rows[..n]) == rows[..n]
    decreases n
  {
    hide RowPasses, SortedInsert, Chained;
    if n > 0 {
      BySeqOfChain(h, rows, pid, n - 1);
      var front := rows[..n - 1];
      assert rows[..n][..n - 1] == front && rows[..n][n - 1] == rows[n - 1];
      if n > 1 {
        NumbersAscend(h, rows, pid, n - 1);
      }
      InsertLast(front, rows[n - 1]);
      assert front + [rows[n - 1]] == rows[..n];
    }
  }

  lemma NumbersAscend(h: Hasher, rows: seq<Row>, pid: string, n: nat)
    requires Chained(h, rows, pid) && 0 < n < |rows|
    ensures rows[n - 1].seqNr <= rows[n].seqNr
  {
    hide RowPasses;
    assert ChainedAt(h, rows, pid, n - 1) && ChainedAt(h, rows, pid, n);
  }

  lemma InsertLast(rows: seq<Row>, row: Row)
    requires rows == [] || rows[|rows| - 1].seqNr <= row.seqNr
    ensures SortedInsert(rows, row) == rows + [row]
  {}

  /** What `verify_chain` answers for an id of a table. */
  function VerifyChain(h: Hasher, table: seq<Row>, pid: string): ChainProof
  {
    Verdict(h, pid, BySeq(RowsOf(table, pid)))
  }

  lemma ChainIsIntact(h: Hasher, table: seq<Row>, pid: string)
    requires TableOk(h, table)
    ensures VerifyChain(h, table, pid) == Intact(|RowsOf(table, pid)|)
    ensures forall i :: 0 <= i < |RowsOf(table, pid)| ==> BySeq(RowsOf(table, pid))[i].seqNr == i + 1
  {
    hide RowPasses, Verdict, BySeq;
    var rows := RowsOf(table, pid);
    assert Chained(h, rows, pid);
    BySeqOfChain(h, rows, pid, |rows|);
    assert rows[..|rows|] == rows;
    forall k | 0 <= k < |rows| ensures RowPasses(h, pid, PrevOf(rows, k), rows[k]) && rows[k].seqNr == k + 1 {
      assert ChainedAt(h, rows, pid, k);
    }
    AllPass(h, pid, rows);
  }

  /** The effect of one call on the table: a committed batch or nothing. */
  ghost predicate CallEffect(h: Hasher, before: seq<Row>, after: seq<Row>)
  {
    after == before || exists messages :: Committed(h, true, before, after, messages)
  }

  /** Tables after successive calls, starting empty. */
  ghost predicate CallSequence(h: Hasher, tables: seq<seq<Row>>)
  {
    tables != [] && tables[0] == [] &&
    forall i :: 0 <= i < |tables| - 1 ==> CallEffect(h, tables[i], tables[i + 1])
  }

  /** After any calls, accepted or refused, each id holds exactly 1..n and verifies as intact with n rows. */
  lemma {:induction false} EveryRunVerifies(h: Hasher, tables: seq<seq<Row>>, i: nat, pid: string)
    requires CallSequence(h, tables) && i < |tables|
    ensures TableOk(h, tables[i]) && VerifyChain(h, tables[i], pid) == Intact(|RowsOf(tables[i], pid)|)
    ensures forall k :: 0 <= k < |RowsOf(tables[i], pid)| ==> BySeq(RowsOf(tables[i], pid))[k].seqNr == k + 1
    decreases i
  {
    hide VerifyChain, RowsOf, Chained, Committed;
    if i == 0 {
      EmptyTableOk(h);
    } else {
      EveryRunVerifies(h, tables, i - 1, pid);
      assert CallEffect(h, tables[i - 1], tables[i - 1 + 1]);
      if tables[i] != tables[i - 1] {
        var messages :| Committed(h, true, tables[i - 1], tables[i], messages);
        CommitKeepsTable(h, tables[i - 1], tables[i], messages);
      }
    }
    ChainIsIntact(h, tables[i], pid);
  }

  lemma EmptyTableOk(h: Hasher)
    ensures TableOk(h, [])
  {
  }
}

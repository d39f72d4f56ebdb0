/** What the journal stores: after any calls, each id holds exactly the messages of the accepted ones. */
module WormContents {
  import opened WormChain
  import opened WormJournal

  // ----- the queries ----------------------------------------------------------

  /** Selecting by id splits over concatenation and keeps a row or message exactly when it has the id. */
  lemma SelectOne(pid: string, row: Row, msg: Message)
    ensures RowsOf([], pid) == [] && RowsOf([row], pid) == if row.pid == pid then [row] else []
    ensures MessagesOf([], pid) == [] && MessagesOf([msg], pid) == if msg.pid == pid then [msg] else []
  {
    assert [row][..0] == [] && [msg][..0] == [];
  }

  lemma {:induction false} MessagesOfConcat(a: seq<Message>, b: seq<Message>, pid: string)
    ensures MessagesOf(a + b, pid) == MessagesOf(a, pid) + MessagesOf(b, pid)
  {
    if b == [] {
      assert a + b == a;
    } else {
      var front, last := b[..|b| - 1], b[|b| - 1];
      MessagesOfConcat(a, front, pid);
      var all := a + b;
      assert all[..|all| - 1] == a + front && all[|all| - 1] == last;
    }
  }

  /** `MAX(sequence_nr)`: a row of the table, and none has a higher number. */
  lemma {:induction false} LatestIsMaximum(rows: seq<Row>)
    requires rows != []
    ensures Latest(rows) in rows && forall r :: r in rows ==> r.seqNr <= Latest(rows).seqNr
  {
    var n := |rows| - 1;
    if n > 0 {
      LatestIsMaximum(rows[..n]);
      assert forall r :: r in rows ==> r in rows[..n] || r == rows[n];
    }
  }

  predicate Ascending(rows: seq<Row>)
  {
    forall i, j :: 0 <= i < j < |rows| ==> rows[i].seqNr <= rows[j].seqNr
  }

  lemma {:induction false} InsertKeeps(rows: seq<Row>, row: Row)
    ensures multiset(SortedInsert(rows, row)) == multiset(rows) + multiset{row}
    decreases |rows|
  {
    if rows != [] && rows[|rows| - 1].seqNr > row.seqNr {
      var front, last := rows[..|rows| - 1], rows[|rows| - 1];
      InsertKeeps(front, row);
      assert rows == front + [last];
    }
  }

  lemma AscendingSnoc(rows: seq<Row>, last: Row)
    requires Ascending(rows) && forall r :: r in rows ==> r.seqNr <= last.seqNr
    ensures Ascending(rows + [last])
  {
    var all := rows + [last];
    forall i, j | 0 <= i < j < |all|
      ensures all[i].seqNr <= all[j].seqNr
    {
      if j == |rows| {
        assert rows[i] in rows;
      }
    }
  }

  lemma AscendingFront(rows: seq<Row>)
    requires rows != [] && Ascending(rows)
    ensures Ascending(rows[..|rows| - 1]) && forall r :: r in rows ==> r.seqNr <= rows[|rows| - 1].seqNr
  {}

  lemma {:induction false} InsertSorts(rows: seq<Row>, row: Row)
    requires Ascending(rows)
    ensures Ascending(SortedInsert(rows, row))
    decreases |rows|
  {
    hide Ascending;
    if rows == [] {
      AscendingOne(row);
    } else {
      AscendingFront(rows);
      var front, last := rows[..|rows| - 1], rows[|rows| - 1];
      if last.seqNr <= row.seqNr {
        AscendingSnoc(rows, row);
      } else {
        InsertSorts(front, row);
        InsertKeeps(front, row);
        var inner := SortedInsert(front, row);
        forall r | r in inner
          ensures r.seqNr <= last.seqNr
        {
          assert r in multiset(inner);
          assert r in multiset(front) || r == row;
        }
        AscendingSnoc(inner, last);
      }
    }
  }

  lemma AscendingOne(row: Row)
    ensures Ascending([] + [row])
  {}

  /** `ORDER BY sequence_nr`: the same rows, ascending. */
  lemma {:induction false} BySeqSorts(rows: seq<Row>)
    ensures Ascending(BySeq(rows)) && multiset(BySeq(rows)) == multiset(rows)
    decreases |rows|
  {
    hide SortedInsert;
    if rows == [] {
      assert BySeq(rows) == [];
    } else {
      var front, last := rows[..|rows| - 1], rows[|rows| - 1];
      BySeqSorts(front);
      InsertSorts(BySeq(front), last);
      InsertKeeps(BySeq(front), last);
      assert rows == front + [last];
    }
  }

  // ----- one call -------------------------------------------------------------

  /** The message a row holds. */
  function Held(row: Row): Message
  {
    Message(row.pid, row.seqNr, row.payload, row.manifest, row.writer)
  }

  function HeldAll(rows: seq<Row>): seq<Message>
  {
    seq(|rows|, i requires 0 <= i < |rows| => Held(rows[i]))
  }

  lemma WrittenHolds(h: Hasher, chain: bool, msgs: seq<Message>, added: seq<Row>, prev: Bytes, next: nat)
    requires Written(h, chain, msgs, added, prev, next)
    ensures HeldAll(added) == msgs
    ensures !chain ==> forall i :: 0 <= i < |added| ==> added[i].prevHash.None? && added[i].rowHash.None?
  {
    hide RowHash;
    forall i | 0 <= i < |msgs|
      ensures Held(added[i]) == msgs[i] && (!chain ==> added[i].prevHash.None? && added[i].rowHash.None?)
    {
      assert WrittenAt(h, chain, msgs, added, prev, next, i);
    }
  }

  /** After an accepted call an id holds what it held before, and then the call's messages of that id in order. */
  lemma CommitStores(h: Hasher, chain: bool, before: seq<Row>, after: seq<Row>, messages: seq<Message>, pid: string)
    requires Committed(h, chain, before, after, messages)
    ensures HeldAll(RowsOf(after, pid)) == HeldAll(RowsOf(before, pid)) + MessagesOf(messages, pid)
    ensures RowsOf(before, pid) <= RowsOf(after, pid)
  {
    hide Written, RowsOf, MessagesOf, SeedHash, NextSeq;
    assert GroupDone(h, chain, before, after, messages, pid);
    var added :| RowsOf(after, pid) == RowsOf(before, pid) + added &&
      Written(h, chain, MessagesOf(messages, pid), added, SeedHash(chain, RowsOf(before, pid)),
              NextSeq(RowsOf(before, pid)));
    WrittenHolds(h, chain, MessagesOf(messages, pid), added, SeedHash(chain, RowsOf(before, pid)),
                 NextSeq(RowsOf(before, pid)));
    assert HeldAll(RowsOf(before, pid) + added) == HeldAll(RowsOf(before, pid)) + HeldAll(added);
  }

  // ----- every run ------------------------------------------------------------

  /** A call of `write_messages` and whether it was accepted. */
  datatype Call = Call(messages: seq<Message>, accepted: bool)

  /** Tables around successive calls, starting empty; a refused call changes nothing. */
  ghost predicate IsRun(h: Hasher, chain: bool, calls: seq<Call>, tables: seq<seq<Row>>)
  {
    |tables| == |calls| + 1 && tables[0] == [] &&
    forall i :: 0 <= i < |calls| ==> CallMade(h, chain, calls, tables, i)
  }

  ghost predicate CallMade(h: Hasher, chain: bool, calls: seq<Call>, tables: seq<seq<Row>>, i: nat)
    requires |tables| == |calls| + 1 && i < |calls|
  {
    if calls[i].accepted then Committed(h, chain, tables[i], tables[i + 1], calls[i].messages)
    else tables[i + 1] == tables[i]
  }

  /** The messages of the accepted calls, one after the other. */
  function Accepted(calls: seq<Call>): seq<Message>
  {
    if calls == [] then []
    else
      var last := calls[|calls| - 1];
      Accepted(calls[..|calls| - 1]) + if last.accepted then last.messages else []
  }

  /** After any calls, accepted or refused, each id holds exactly its messages of the accepted ones, in order. */
  lemma {:induction false} EveryRunStores(h: Hasher, chain: bool, calls: seq<Call>, tables: seq<seq<Row>>, i: nat,
                                          pid: string)
    requires IsRun(h, chain, calls, tables) && i <= |calls|
    ensures HeldAll(RowsOf(tables[i], pid)) == MessagesOf(Accepted(calls[..i]), pid)
    decreases i
  {
    hide Committed, RowsOf, MessagesOf;
    if i == 0 {
      NothingHeld(pid);
      assert calls[..0] == [];
    } else {
      EveryRunStores(h, chain, calls, tables, i - 1, pid);
      assert CallMade(h, chain, calls, tables, i - 1);
      var done, call := calls[..i], calls[i - 1];
      assert done[..i - 1] == calls[..i - 1] && done[i - 1] == call;
      var more := if call.accepted then call.messages else [];
      MessagesOfConcat(Accepted(calls[..i - 1]), more, pid);
      if call.accepted {
        CommitStores(h, chain, tables[i - 1], tables[i], call.messages, pid);
      } else {
        NothingHeld(pid);
        assert MessagesOf(Accepted(calls[..i - 1]), pid) + [] == MessagesOf(Accepted(calls[..i - 1]), pid);
      }
    }
  }

  lemma NothingHeld(pid: string)
    ensures RowsOf([], pid) == [] && MessagesOf([], pid) == [] && HeldAll([]) == []
  {}
}

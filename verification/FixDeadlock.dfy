/** When two sessions that both miss a message can recover, over every run of the network. */
module FixDeadlock {
  import opened Prelude
  import opened FixDecimal
  import opened FixMessage
  import opened FixCodecLaws
  import opened FixSession
  import opened FixMessageFacts
  import opened FixNetwork
  import opened FixDelivery

  /** A message that would raise an expected number of `e`: the awaited one, or a gap-fill past it. */
  predicate Helps(m: FixMessage, e: nat)
  {
    Numbered(m, e) ||
    (m.Kind() == Some(SequenceReset) && m.GetU64(NEW_SEQ_NO).Some? && m.GetU64(NEW_SEQ_NO).value > e)
  }

  predicate NoHelp(inFlight: set<FixMessage>, e: nat)
  {
    forall m :: m in inFlight ==> !Helps(m, e)
  }

  /** Each side waits for a number the other has passed, and nothing in flight helps either. */
  predicate Deadlocked(net: Net)
  {
    net.left.session.expected < net.right.session.out && net.right.session.expected < net.left.session.out &&
    NoHelp(net.toLeft, net.left.session.expected) && NoHelp(net.toRight, net.right.session.expected)
  }

  /** Neither side has accepted anything. */
  predicate SameProgress(a: Net, b: Net)
  {
    a.left.session.expected == b.left.session.expected && a.right.session.expected == b.right.session.expected &&
    a.left.surfaced == b.left.surfaced && a.right.surfaced == b.right.surfaced
  }

  lemma OwnNumberOnly(m: FixMessage, n: nat, e: nat)
    requires Numbered(m, n) && n != e
    ensures !Helps(m, e)
  {
    hide CleanMessage, FirstValue, ParseUnsigned, FromCode;
  }

  /** Emitting a message with the next number helps nobody who waits for an earlier one. */
  lemma EmitKeepsDeadlock(net: Net, s: Session, outs: seq<FixMessage>)
    requires Deadlocked(net) && s.expected == net.left.session.expected && net.left.session.out <= s.out
    requires forall k :: 0 <= k < |outs| ==> Numbered(outs[k], net.left.session.out)
    ensures Deadlocked(Emit(net, s, outs, None)) && SameProgress(net, Emit(net, s, outs, None))
  {
    hide Helps, Numbered, NumberedOnly;
    var next := Emit(net, s, outs, None);
    forall m | m in next.toRight
      ensures !Helps(m, net.right.session.expected)
    {
      if m !in net.toRight {
        var k :| 0 <= k < |outs| && outs[k] == m;
        OwnNumberOnly(m, net.left.session.out, net.right.session.expected);
      }
    }
    assert next.left.surfaced == net.left.surfaced;
  }

  /** What receiving a message that does not help does: nothing, or one more resend request. */
  lemma UselessReception(net: Net, m: FixMessage, now: Text) returns (s: Session, outs: seq<FixMessage>)
    requires Inv(net) && net.left.session.out < U64_MAX && CleanText(now) && m in net.toLeft
    requires !Helps(m, net.left.session.expected)
    ensures Act(net, Receives(m, now)) == Emit(net, s, outs, None)
    ensures s.expected == net.left.session.expected && net.left.session.out <= s.out
    ensures forall k :: 0 <= k < |outs| ==> Numbered(outs[k], net.left.session.out)
  {
    hide Direction, Numbered, Emit, SideOk, CleanText, HandleInbound, Ready, Framed, Parsed, Wire;
    DirectionFacts(net.right, net.left, net.toLeft);
    ReadyOf(net);
    var was := net.left.session;
    s, outs := HandleInbound(was, Framed(m), now).0, HandleInbound(was, Framed(m), now).1.outbound;
    if m in net.right.log {
      var n := InFlightNumber(net.right, m);
      NumberedOnWire(m, n);
      if n > was.expected {
        ReactionToGap(was, m, n, now);
      } else {
        assert n != was.expected;
        ReactionToDuplicate(was, m, n, now);
      }
    } else {
      FillOnWire(m, net.right.session.out);
      ReactionToFill(was, m, net.right.session.out, now);
    }
  }

  lemma ActKeepsDeadlock(net: Net, ev: Event)
    requires Inv(net) && Allowed(net, ev) && Deadlocked(net)
    ensures Deadlocked(Act(net, ev)) && SameProgress(net, Act(net, ev))
  {
    hide Numbered, Emit, Direction, Helps;
    match ev {
      case Receives(msg, now) =>
        var s, outs := UselessReception(net, msg, now);
        EmitKeepsDeadlock(net, s, outs);
      case Loses(msg) =>
      case _ =>
        var s, m := SendStep(net, ev);
        EmitKeepsDeadlock(net, s, [m]);
    }
  }

  /** Whatever is sent, delivered, repeated or lost: a deadlock stays, and nothing is accepted on either side. */
  lemma {:induction false} DeadlockStays(net: Net, turns: seq<Turn>)
    requires Inv(net) && IsRun(net, turns) && Deadlocked(net)
    ensures Deadlocked(After(net, turns)) && SameProgress(net, After(net, turns))
    decreases |turns|
  {
    hide Direction, Act, Allowed, NoHelp;
    if turns != [] {
      var t := turns[0];
      var acting := if t.leftActs then net else Swap(net);
      ActKeeps(acting, t.ev);
      ActKeepsDeadlock(acting, t.ev);
      DeadlockStays(Take(net, t), turns[1..]);
    }
  }

  // ----- and only a deadlock does ---------------------------------------------

  ghost predicate NeverMoves(net: Net)
  {
    forall turns :: IsRun(net, turns) ==>
      After(net, turns).left.session.expected == net.left.session.expected &&
      After(net, turns).right.session.expected == net.right.session.expected
  }

  predicate Moved(net: Net, turns: seq<Turn>)
  {
    IsRun(net, turns) && net.left.session.expected < After(net, turns).left.session.expected
  }

  lemma EmptyTextIsClean()
    ensures CleanText([])
  {
    AsciiClean([]);
  }

  /** A message that helps moves the receiver at once. */
  lemma HelpMoves(net: Net, m: FixMessage)
    requires Inv(net) && net.left.session.out < U64_MAX && m in net.toLeft && Helps(m, net.left.session.expected)
    ensures Moved(net, [Turn(true, Receives(m, []))])
  {
    hide Direction, Numbered, Emit, SideOk, HandleInbound, Ready, Framed, Parsed, Wire;
    hide CleanText;
    EmptyTextIsClean();
    DirectionFacts(net.right, net.left, net.toLeft);
    ReadyOf(net);
    var was := net.left.session;
    if m in net.right.log {
      var n := InFlightNumber(net.right, m);
      NumberedOnWire(m, n);
      HelpIsAwaited(m, n, was.expected);
      ReactionInSequence(was, m, n, []);
    } else {
      FillOnWire(m, net.right.session.out);
      FillIsNotNumbered(m, net.right.session.out, was.expected);
      ReactionToFill(was, m, net.right.session.out, []);
    }
    ReceptionIs(net, m, []);
    MovedByOne(net, m);
  }

  lemma ReceptionIs(net: Net, m: FixMessage, now: Text)
    requires Parsed(Wire(m)) == Ok(Framed(m))
    ensures var (s, o) := HandleInbound(net.left.session, Framed(m), now);
            Act(net, Receives(m, now)) == Emit(net, s, o.outbound, o.application) &&
            Act(net, Receives(m, now)).left.session == s
  {
    hide Parsed, Wire, Framed, HandleInbound;
  }

  lemma HelpIsAwaited(m: FixMessage, n: nat, e: nat)
    requires Numbered(m, n) && Helps(m, e)
    ensures n == e
  {
    hide CleanMessage, FirstValue, ParseUnsigned, FromCode;
  }

  lemma FillIsNotNumbered(m: FixMessage, limit: nat, e: nat)
    requires Fills(m, limit)
    ensures !Numbered(m, e)
  {
    hide CleanMessage, FirstValue, ParseUnsigned, FromCode;
  }

  lemma MovedByOne(net: Net, m: FixMessage)
    requires m in net.toLeft && net.left.session.out < U64_MAX && CleanText([])
    requires net.left.session.expected < Act(net, Receives(m, [])).left.session.expected
    ensures Moved(net, [Turn(true, Receives(m, []))])
  {
    hide Act, CleanText;
    var t := Turn(true, Receives(m, []));
    assert [t][1..] == [];
    assert TurnAllowed(net, t) && IsRun(Take(net, t), []);
    assert After(net, [t]) == After(Take(net, t), []) == Take(net, t);
  }

  // ----- sides exchanged ------------------------------------------------------

  function Flip(turns: seq<Turn>): seq<Turn>
  {
    seq(|turns|, i requires 0 <= i < |turns| => turns[i].(leftActs := !turns[i].leftActs))
  }

  lemma {:induction false} FlipRun(net: Net, turns: seq<Turn>)
    ensures IsRun(Swap(net), Flip(turns)) == IsRun(net, turns)
    ensures After(Swap(net), Flip(turns)) == Swap(After(net, turns))
    decreases |turns|
  {
    hide Act, Allowed;
    if turns != [] {
      FlipRun(Take(net, turns[0]), turns[1..]);
      assert Flip(turns)[1..] == Flip(turns[1..]);
      assert Swap(Swap(net)) == net;
      assert Take(Swap(net), Flip(turns)[0]) == Swap(Take(net, turns[0]));
    }
  }

  lemma SwapInv(net: Net)
    ensures Inv(Swap(net)) <==> Inv(net)
  {
    hide Direction;
  }

  // ----- a side that misses nothing -------------------------------------------

  /** The other side sends a heartbeat. */
  const BEAT: Turn := Turn(false, SendsHeartbeat(None, []))

  lemma Beat(net: Net) returns (m: FixMessage)
    requires Inv(net) && net.right.session.out < U64_MAX
    ensures TurnAllowed(net, BEAT) && Inv(Take(net, BEAT)) && Numbered(m, net.right.session.out)
    ensures var next := Take(net, BEAT);
            next.left == net.left && next.toRight == net.toRight && next.toLeft == net.toLeft + {m} &&
            next.right.session.out == net.right.session.out + 1 &&
            next.right.session.expected == net.right.session.expected
  {
    hide Numbered, Direction, NumberedOnly, CleanText, SendNumbered, Stamp, HeartbeatBody;
    EmptyTextIsClean();
    SwapInv(net);
    var s;
    s, m := SendStep(Swap(net), BEAT.ev);
    ActKeeps(Swap(net), BEAT.ev);
    SwapInv(Act(Swap(net), BEAT.ev));
    assert (set x | x in [m]) == {m};
  }

  /** A side that has seen everything takes the next message. */
  lemma CaughtUpMoves(net: Net) returns (turns: seq<Turn>)
    requires Inv(net) && net.left.session.out < U64_MAX && net.right.session.out < U64_MAX
    requires net.left.session.expected == net.right.session.out
    ensures Moved(net, turns)
  {
    hide Inv, Numbered, Take, TurnAllowed;
    var m := Beat(net);
    var next := Take(net, BEAT);
    assert Helps(m, next.left.session.expected);
    HelpMoves(next, m);
    turns := [BEAT] + [Turn(true, Receives(m, []))];
    assert turns[1..] == [Turn(true, Receives(m, []))];
  }

  lemma LeftCanMove(net: Net) returns (turns: seq<Turn>)
    requires Inv(net) && net.left.session.out < U64_MAX && net.right.session.out < U64_MAX
    requires net.left.session.expected == net.right.session.out || !NoHelp(net.toLeft, net.left.session.expected)
    ensures Moved(net, turns)
  {
    hide Inv, Helps, Moved;
    if net.left.session.expected == net.right.session.out {
      turns := CaughtUpMoves(net);
    } else {
      var m :| m in net.toLeft && Helps(m, net.left.session.expected);
      HelpMoves(net, m);
      turns := [Turn(true, Receives(m, []))];
    }
  }

  lemma BehindOrLevel(net: Net)
    requires Inv(net)
    ensures net.left.session.expected <= net.right.session.out && net.right.session.expected <= net.left.session.out
  {
    hide SideOk, SurfacedFrom, Fills;
  }

  /** No run moves either side exactly when the two are deadlocked. */
  lemma NeverMovesIff(net: Net)
    requires Inv(net) && net.left.session.out < U64_MAX && net.right.session.out < U64_MAX
    ensures NeverMoves(net) <==> Deadlocked(net)
  {
    hide Inv, IsRun, After, NoHelp;
    BehindOrLevel(net);
    SwapInv(net);
    if Deadlocked(net) {
      forall turns | IsRun(net, turns)
        ensures SameProgress(net, After(net, turns))
      {
        DeadlockStays(net, turns);
      }
    } else if net.left.session.expected == net.right.session.out || !NoHelp(net.toLeft, net.left.session.expected) {
      var turns := LeftCanMove(net);
    } else {
      var turns := LeftCanMove(Swap(net));
      FlipRun(Swap(net), turns);
      assert Swap(Swap(net)) == net;
      assert IsRun(net, Flip(turns));
    }
  }

  // ----- recovery -------------------------------------------------------------

  /** Neither side waits for anything the other has sent. */
  predicate Level(net: Net)
  {
    net.left.session.expected == net.right.session.out && net.right.session.expected == net.left.session.out
  }

  ghost predicate CanRecover(net: Net)
  {
    exists turns :: IsRun(net, turns) && Level(After(net, turns))
  }

  lemma PrependTurn(net: Net, t: Turn, rest: seq<Turn>)
    requires TurnAllowed(net, t) && IsRun(Take(net, t), rest)
    ensures IsRun(net, [t] + rest) && After(net, [t] + rest) == After(Take(net, t), rest)
  {
    hide Take, TurnAllowed;
    assert ([t] + rest)[1..] == rest;
  }

  lemma NoMoreTurns(net: Net)
    ensures IsRun(net, []) && After(net, []) == net
  {}

  lemma EmitFacts(net: Net, s: Session, outs: seq<FixMessage>, app: Option<FixMessage>)
    ensures var next := Emit(net, s, outs, app);
            next.left.session == s && next.right == net.right && next.toLeft == net.toLeft &&
            forall k :: 0 <= k < |outs| ==> outs[k] in next.toRight
  {}

  /** The left side sees a later number and asks. */
  lemma Asks(net: Net, m: FixMessage, n: nat) returns (request: FixMessage)
    requires Inv(net) && net.left.session.out < U64_MAX && m in net.toLeft && Numbered(m, n) &&
             net.left.session.expected < n
    ensures var t := Turn(true, Receives(m, []));
            TurnAllowed(net, t) && Numbered(request, net.left.session.out) && request.Kind() == Some(ResendRequest) &&
            Inv(Take(net, t)) && request in Take(net, t).toRight && Take(net, t).right == net.right &&
            Take(net, t).left.session == net.left.session.(out := net.left.session.out + 1)
  {
    hide Inv, Act, Emit, Numbered, HandleInbound, Ready, Framed, Parsed, Wire, CleanText, Stamp, FirstValue, FromCode,
         ParseUnsigned;
    EmptyTextIsClean();
    ReadyOf(net);
    NumberedOnWire(m, n);
    ReactionToGap(net.left.session, m, n, []);
    ReceptionIs(net, m, []);
    ActKeeps(net, Receives(m, []));
    var o := HandleInbound(net.left.session, Framed(m), []).1;
    request := o.outbound[0];
    EmitFacts(net, HandleInbound(net.left.session, Framed(m), []).0, o.outbound, o.application);
  }

  /** The other side accepts the request and answers with a gap-fill up to its next number. */
  lemma Answers(net: Net, request: FixMessage) returns (fill: FixMessage)
    requires Inv(net) && net.right.session.out < U64_MAX && request in net.toRight &&
             request.Kind() == Some(ResendRequest)
    requires Numbered(request, net.right.session.expected) && net.right.session.expected < U64_MAX
    ensures var t := Turn(false, Receives(request, []));
            TurnAllowed(net, t) && Fills(fill, net.right.session.out) &&
            fill.GetU64(NEW_SEQ_NO) == Some(net.right.session.out) &&
            Inv(Take(net, t)) && fill in Take(net, t).toLeft && Take(net, t).left == net.left &&
            Take(net, t).right.session == net.right.session.(expected := net.right.session.expected + 1)
  {
    hide Inv, Act, Emit, Numbered, HandleInbound, Ready, Framed, Parsed, Wire, CleanText, Fills, FirstValue, FromCode,
         ParseUnsigned;
    EmptyTextIsClean();
    var mirror := Swap(net);
    SwapInv(net);
    ReadyOf(mirror);
    var n := net.right.session.expected;
    NumberedOnWire(request, n);
    ReactionToResend(mirror.left.session, request, n, []);
    ReceptionIs(mirror, request, []);
    ActKeeps(mirror, Receives(request, []));
    SwapInv(Act(mirror, Receives(request, [])));
    var o := HandleInbound(mirror.left.session, Framed(request), []).1;
    fill := o.outbound[0];
    EmitFacts(mirror, HandleInbound(mirror.left.session, Framed(request), []).0, o.outbound, o.application);
  }

  /** The left side follows the gap-fill. */
  lemma Follows(net: Net, fill: FixMessage)
    requires Inv(net) && net.left.session.out < U64_MAX && fill in net.toLeft && Fills(fill, net.right.session.out)
    requires fill.GetU64(NEW_SEQ_NO) == Some(net.right.session.out)
    ensures var t := Turn(true, Receives(fill, []));
            TurnAllowed(net, t) && Take(net, t).right == net.right &&
            Take(net, t).left.session == net.left.session.(expected := net.right.session.out)
  {
    hide Inv, Act, Emit, HandleInbound, Ready, Framed, Parsed, Wire, CleanText, Fills, FirstValue, FromCode,
         ParseUnsigned;
    EmptyTextIsClean();
    BehindOrLevel(net);
    FillOnWire(fill, net.right.session.out);
    ReactionToFill(net.left.session, fill, net.right.session.out, []);
    ReceptionIs(net, fill, []);
    EmitFacts(net, HandleInbound(net.left.session, Framed(fill), []).0, [], None);
  }

  /** If only the left side is behind, one message of the other side starts a recovery that ends level. */
  lemma OneSidedGapCloses(net: Net)
    requires Inv(net) && net.left.session.out + 1 < U64_MAX && net.right.session.out + 1 < U64_MAX
    requires net.left.session.expected < net.right.session.out && net.right.session.expected == net.left.session.out
    ensures CanRecover(net)
  {
    hide Inv, Numbered, Fills, Take, TurnAllowed, IsRun, After;
    var m := Beat(net);
    var n1 := Take(net, BEAT);
    var request := Asks(n1, m, net.right.session.out);
    var t2 := Turn(true, Receives(m, []));
    var n2 := Take(n1, t2);
    var fill := Answers(n2, request);
    var t3 := Turn(false, Receives(request, []));
    var n3 := Take(n2, t3);
    Follows(n3, fill);
    var t4 := Turn(true, Receives(fill, []));
    NoMoreTurns(Take(n3, t4));
    PrependTurn(n3, t4, []);
    PrependTurn(n2, t3, [t4] + []);
    PrependTurn(n1, t2, [t3] + ([t4] + []));
    PrependTurn(net, BEAT, [t2] + ([t3] + ([t4] + [])));
  }

  lemma RecoverSwapped(net: Net)
    requires CanRecover(Swap(net))
    ensures CanRecover(net)
  {
    hide IsRun, After;
    var turns :| IsRun(Swap(net), turns) && Level(After(Swap(net), turns));
    FlipRun(Swap(net), turns);
    assert Swap(Swap(net)) == net;
    assert IsRun(net, Flip(turns)) && Level(After(net, Flip(turns)));
  }

  /**
   * Once the missing messages are lost for good, the sessions can get level again exactly when one
   * of them has seen everything the other sent.
   */
  lemma CanRecoverIff(net: Net)
    requires Inv(net) && net.left.session.out + 1 < U64_MAX && net.right.session.out + 1 < U64_MAX
    requires NoHelp(net.toLeft, net.left.session.expected) && NoHelp(net.toRight, net.right.session.expected)
    ensures CanRecover(net) <==>
            net.left.session.expected == net.right.session.out || net.right.session.expected == net.left.session.out
  {
    hide Inv, IsRun, After, NoHelp;
    BehindOrLevel(net);
    SwapInv(net);
    if Level(net) {
      NoMoreTurns(net);
    } else if net.right.session.expected == net.left.session.out {
      OneSidedGapCloses(net);
    } else if net.left.session.expected == net.right.session.out {
      OneSidedGapCloses(Swap(net));
      RecoverSwapped(net);
    } else {
      forall turns | IsRun(net, turns)
        ensures !Level(After(net, turns))
      {
        DeadlockStays(net, turns);
      }
    }
  }

  // ----- a deadlock is two losses away ----------------------------------------

  lemma BeatLost(net: Net) returns (turns: seq<Turn>)
    requires Inv(net) && net.left.session.out < U64_MAX && net.right.session.out < U64_MAX && net.toLeft == {}
    ensures IsRun(net, turns) && Inv(After(net, turns))
    ensures var next := After(net, turns);
            next.left == net.left && next.toRight == net.toRight && next.toLeft == {} &&
            next.right.session.out == net.right.session.out + 1 &&
            next.right.session.expected == net.right.session.expected
  {
    hide Inv, Numbered, IsRun, After, SendNumbered, NumberedOnly;
    var m := Beat(net);
    var n1 := Take(net, BEAT);
    var lose := Turn(true, Loses(m));
    assert TurnAllowed(n1, lose);
    ActKeeps(n1, lose.ev);
    NoMoreTurns(Take(n1, lose));
    PrependTurn(n1, lose, []);
    turns := [BEAT] + ([lose] + []);
    PrependTurn(net, BEAT, [lose] + []);
  }

  /** From any level start, one message lost each way is enough. */
  lemma TwoLossesDeadlock(net: Net) returns (turns: seq<Turn>)
    requires Inv(net) && Level(net) && net.toLeft == {} && net.toRight == {}
    requires net.left.session.out < U64_MAX && net.right.session.out + 1 < U64_MAX
    ensures IsRun(net, turns) && Deadlocked(After(net, turns))
  {
    hide Inv, IsRun, After, Helps;
    var first := BeatLost(net);
    var n1 := After(net, first);
    SwapInv(n1);
    var second := BeatLost(Swap(n1));
    FlipRun(Swap(n1), second);
    assert Swap(Swap(n1)) == n1;
    turns := first + Flip(second);
    RunsConcat(net, first, Flip(second));
  }

  lemma {:induction false} RunsConcat(net: Net, a: seq<Turn>, b: seq<Turn>)
    requires IsRun(net, a) && IsRun(After(net, a), b)
    ensures IsRun(net, a + b) && After(net, a + b) == After(After(net, a), b)
    decreases |a|
  {
    hide Take, TurnAllowed;
    if a == [] {
      assert a + b == b;
    } else {
      RunsConcat(Take(net, a[0]), a[1..], b);
      assert (a + b)[1..] == a[1..] + b;
    }
  }
}

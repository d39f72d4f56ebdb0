/** Logging on and off over the network: both sides get there, with one message each. */
module FixHandshake {
  import opened Prelude
  import opened FixDecimal
  import opened FixMessage
  import opened FixCodecLaws
  import opened FixSession
  import opened FixMessageFacts
  import opened FixReactions
  import opened FixNetwork
  import opened FixDelivery
  import opened FixDeadlock

  /** Opening or closing a session. */
  datatype Greeting = Open | Close(reason: Option<Text>) {
    function Kind(): MsgType
    {
      if Open? then Logon else Logout
    }

    /** The state of the side that spoke first, and of both at the end. */
    function Waiting(): SessionState
    {
      if Open? then LogonSent else LogoutSent
    }

    function Done(): SessionState
    {
      if Open? then Active else Disconnected
    }

    function Event(now: Text): Event
    {
      if Open? then SendsLogon(now) else SendsLogout(reason, now)
    }

    predicate Clean()
    {
      Close? ==> CleanOption(reason)
    }
  }

  /** The left side has numbered one message more than before, of the given kind. */
  predicate LoggedOne(before: Side, after: Side, kind: MsgType)
  {
    |after.log| == |before.log| + 1 && after.log[..|before.log|] == before.log &&
    after.log[|before.log|].Kind() == Some(kind)
  }

  /** The left side greets. */
  lemma Greets(net: Net, g: Greeting, now: Text) returns (m: FixMessage)
    requires Inv(net) && net.left.session.out < U64_MAX && CleanText(now) && g.Clean()
    ensures Allowed(net, g.Event(now))
    ensures var next := Act(net, g.Event(now));
            Inv(next) && next.right == net.right && next.toLeft == net.toLeft && next.toRight == net.toRight + {m} &&
            Numbered(m, net.left.session.out) && m.Kind() == Some(g.Kind()) &&
            LoggedOne(net.left, next.left, g.Kind()) &&
            next.left.session == net.left.session.(out := net.left.session.out + 1, state := g.Waiting())
  {
    hide Numbered, Direction, CleanText, Stamp, LogonBody, LogoutBody, FirstValue, FromCode, NumberedOnly, CleanOption,
         CleanConfig;
    var ev, was := g.Event(now), net.left.session;
    ActKeeps(net, ev);
    ReadyOf(net);
    if g.Open? {
      m := Stamp(was.config, LogonBody(was.config), was.out, now);
      LogonStampable(was.config);
      StampNumbered(was.config, LogonBody(was.config), was.out, now);
      LogonFields(was.config);
      StampedFields(was.config, LogonBody(was.config), was.out, now);
    } else {
      m := Stamp(was.config, LogoutBody(g.reason), was.out, now);
      LogoutStampable(g.reason);
      StampNumbered(was.config, LogoutBody(g.reason), was.out, now);
      LogoutFields(g.reason);
      StampedFields(was.config, LogoutBody(g.reason), was.out, now);
    }
    LogsOne(net, m);
  }

  lemma LogsOne(net: Net, m: FixMessage)
    requires m.Kind().Some? && m.Kind() != Some(SequenceReset)
    ensures NumberedOnly([m]) == [m] && (set x | x in [m]) == {m}
  {
    hide FirstValue, FromCode;
    assert [m][1..] == [];
  }

  /** What the session makes of a greeting that arrives in sequence. */
  lemma GreetingHandled(s: Session, g: Greeting, m: FixMessage, now: Text)
    requires Ready(s) && CleanText(now) && Numbered(m, s.expected) && s.expected < U64_MAX
    requires m.Kind() == Some(g.Kind())
    ensures var (s', o) := HandleInbound(s, Framed(m), now);
            |o.outbound| == (if s.state == g.Waiting() then 0 else 1) && o.application.None? &&
            (o.outbound != [] ==> Numbered(o.outbound[0], s.out) && o.outbound[0].Kind() == Some(g.Kind())) &&
            s' == s.(out := s.out + |o.outbound|, expected := s.expected + 1, state := g.Done())
  {
    hide Numbered, Framed, HandleInbound, CleanText, CleanConfig, FirstValue, FromCode, ParseUnsigned, Sequenced;
    DeliveredView(m, s.expected);
    ResetFlag(Framed(m));
    InSequenceReaction(s, Framed(m), now);
    ReactionInSequence(s, m, s.expected, now);
    var o := HandleInbound(s, Framed(m), now).1;
    if o.outbound != [] {
      NotAFill(o.outbound[0], s.out);
    }
  }

  lemma NotAFill(m: FixMessage, limit: nat)
    ensures Fills(m, limit) ==> m.Kind() == Some(SequenceReset)
  {}

  /** The left side hears a greeting: it answers unless it is waiting for one. */
  lemma Hears(net: Net, g: Greeting, m: FixMessage, now: Text) returns (answer: seq<FixMessage>)
    requires Inv(net) && net.left.session.out < U64_MAX && CleanText(now) && m in net.toLeft
    requires Numbered(m, net.left.session.expected) && net.left.session.expected < U64_MAX
    requires m.Kind() == Some(g.Kind())
    ensures Allowed(net, Receives(m, now)) && |answer| == if net.left.session.state == g.Waiting() then 0 else 1
    ensures var next := Act(net, Receives(m, now));
            Inv(next) && next.right == net.right && next.toLeft == net.toLeft &&
            next.left.session == net.left.session.(out := net.left.session.out + |answer|,
                                                   expected := net.left.session.expected + 1, state := g.Done()) &&
            if answer == [] then next.left.log == net.left.log && next.toRight == net.toRight
            else
              next.toRight == net.toRight + {answer[0]} && LoggedOne(net.left, next.left, g.Kind()) &&
              Numbered(answer[0], net.left.session.out) && answer[0].Kind() == Some(g.Kind())
  {
    hide Numbered, Direction, CleanText, Framed, HandleInbound, NumberedOnly, FirstValue, FromCode, Ready, Parsed, Wire;
    ActKeeps(net, Receives(m, now));
    ReadyOf(net);
    NumberedOnWire(m, net.left.session.expected);
    GreetingHandled(net.left.session, g, m, now);
    var o := HandleInbound(net.left.session, Framed(m), now).1;
    answer := o.outbound;
    if answer == [] {
      NothingLogged();
    } else {
      assert answer == [answer[0]];
      LogsOne(net, answer[0]);
    }
  }

  lemma NothingLogged()
    ensures NumberedOnly([]) == []
  {}

  /** Three turns: one side greets, the other answers, the first hears the answer. */
  lemma Handshake(net: Net, g: Greeting, now: Text) returns (turns: seq<Turn>)
    requires Inv(net) && Level(net) && CleanText(now) && g.Clean()
    requires net.left.session.out + 1 < U64_MAX && net.right.session.out + 1 < U64_MAX
    requires net.right.session.state != g.Waiting()
    ensures IsRun(net, turns) && |turns| == 3
    ensures var end := After(net, turns);
            end.left.session.state == g.Done() && end.right.session.state == g.Done() && Level(end) &&
            LoggedOne(net.left, end.left, g.Kind()) && LoggedOne(net.right, end.right, g.Kind())
  {
    hide Inv, Numbered, IsRun, After, Act, Allowed, CleanText, FirstValue, FromCode;
    var first := Turn(true, g.Event(now));
    var m := Greets(net, g, now);
    var n1 := Take(net, first);
    var second := Turn(false, Receives(m, now));
    SwapInv(n1);
    var answer := Hears(Swap(n1), g, m, now);
    var n2 := Take(n1, second);
    SwapInv(n2);
    assert Swap(n2) == Act(Swap(n1), second.ev);
    var third := Turn(true, Receives(answer[0], now));
    var none := Hears(n2, g, answer[0], now);
    var end := Take(n2, third);
    turns := [first] + ([second] + ([third] + []));
    NoMoreTurns(end);
    PrependTurn(n2, third, []);
    PrependTurn(n1, second, [third] + []);
    PrependTurn(net, first, [second] + ([third] + []));
  }

  /** Four turns: both greet at once, and neither answers the other's greeting. */
  lemma GreetingsCross(net: Net, g: Greeting, now: Text) returns (turns: seq<Turn>)
    requires Inv(net) && Level(net) && CleanText(now) && g.Clean()
    requires net.left.session.out + 1 < U64_MAX && net.right.session.out + 1 < U64_MAX
    ensures IsRun(net, turns) && |turns| == 4
    ensures var end := After(net, turns);
            end.left.session.state == g.Done() && end.right.session.state == g.Done() && Level(end) &&
            LoggedOne(net.left, end.left, g.Kind()) && LoggedOne(net.right, end.right, g.Kind())
  {
    hide Inv, Numbered, IsRun, After, Act, Allowed, CleanText, FirstValue, FromCode;
    var first := Turn(true, g.Event(now));
    var m := Greets(net, g, now);
    var n1 := Take(net, first);
    var second := Turn(false, g.Event(now));
    SwapInv(n1);
    var k := Greets(Swap(n1), g, now);
    var n2 := Take(n1, second);
    SwapInv(n2);
    assert Swap(n2) == Act(Swap(n1), second.ev);
    var third := Turn(true, Receives(k, now));
    var a := Hears(n2, g, k, now);
    var n3 := Take(n2, third);
    SwapInv(n3);
    var fourth := Turn(false, Receives(m, now));
    var b := Hears(Swap(n3), g, m, now);
    var end := Take(n3, fourth);
    assert Swap(end) == Act(Swap(n3), fourth.ev);
    turns := [first] + ([second] + ([third] + ([fourth] + [])));
    NoMoreTurns(end);
    PrependTurn(n3, fourth, []);
    PrependTurn(n2, third, [fourth] + []);
    PrependTurn(n1, second, [third] + ([fourth] + []));
    PrependTurn(net, first, [second] + ([third] + ([fourth] + [])));
  }
}

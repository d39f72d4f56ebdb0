/** Every run of the network keeps the numbering invariant; what follows for delivery. */
module FixDelivery {
  import opened Prelude
  import opened FixDecimal
  import opened FixMessage
  import opened FixCodecLaws
  import opened FixSession
  import opened FixMessageFacts
  import opened FixNetwork

  // ----- built messages -------------------------------------------------------

  /** What a message must be for its stamped form to be `Numbered`. */
  predicate Stampable(body: FixMessage)
  {
    CleanMessage(body) && body.Kind().Some? && TakesNumber(body) && !IsResetLogon(body) &&
    (body.Kind() == Some(ResendRequest) ==> body.GetU64(END_SEQ_NO) == Some(0))
  }

  lemma StampNumbered(config: Config, body: FixMessage, n: nat, now: Text)
    requires CleanConfig(config) && CleanText(now) && n <= U64_MAX && Stampable(body)
    ensures Numbered(Stamp(config, body, n, now), n)
  {
    hide FirstValue, ParseUnsigned, CleanMessage, Stamp, FromCode;
    StampFacts(config, body, n, now);
  }

  lemma LogonStampable(config: Config)
    requires !config.resetOnLogon
    ensures Stampable(LogonBody(config))
  {
    hide FirstValue, ParseUnsigned, CleanMessage, SetFirst, Digits, FromCode;
    OfTypeFacts(Logon);
    AsciiClean([48]);
    AsciiClean([57]);
    DigitsClean(config.heartbeat);
    var m1 := OfType(Logon).Set(ENCRYPT_METHOD, [48]);
    SetFacts(OfType(Logon), ENCRYPT_METHOD, [48]);
    var m2 := m1.Set(HEART_BT_INT, Digits(config.heartbeat));
    SetFacts(m1, HEART_BT_INT, Digits(config.heartbeat));
    SetFacts(m2, DEFAULT_APPL_VER_ID, [57]);
  }

  lemma LogoutStampable(reason: Option<Text>)
    requires CleanOption(reason)
    ensures Stampable(LogoutBody(reason))
  {
    hide FirstValue, ParseUnsigned, CleanMessage, SetFirst, FromCode;
    OfTypeFacts(Logout);
    if reason.Some? {
      SetFacts(OfType(Logout), TEXT, reason.value);
    }
  }

  lemma HeartbeatStampable(id: Option<Text>)
    requires CleanOption(id)
    ensures Stampable(HeartbeatBody(id))
  {
    hide FirstValue, ParseUnsigned, CleanMessage, SetFirst, FromCode;
    OfTypeFacts(Heartbeat);
    if id.Some? {
      SetFacts(OfType(Heartbeat), TEST_REQ_ID, id.value);
    }
  }

  lemma ResendStampable(begin: nat)
    ensures Stampable(ResendRequestBody(begin, 0)) && ResendRequestBody(begin, 0).Kind() == Some(ResendRequest)
  {
    hide FirstValue, ParseUnsigned, CleanMessage, SetFirst, Digits, FromCode;
    OfTypeFacts(ResendRequest);
    DigitsClean(begin);
    DigitsClean(0);
    ParseDigits(0, U64_MAX);
    var m1 := OfType(ResendRequest).Set(BEGIN_SEQ_NO, Digits(begin));
    SetFacts(OfType(ResendRequest), BEGIN_SEQ_NO, Digits(begin));
    SetFacts(m1, END_SEQ_NO, Digits(0));
  }

  lemma GapFillFills(config: Config, begin: nat, newSeqNo: nat, now: Text)
    requires CleanConfig(config) && CleanText(now) && begin <= U64_MAX && 1 <= newSeqNo <= U64_MAX
    ensures Fills(GapFill(config, begin, newSeqNo, now), newSeqNo)
    ensures GapFill(config, begin, newSeqNo, now).GetU64(NEW_SEQ_NO) == Some(newSeqNo)
  {
    hide FirstValue, ParseUnsigned, CleanMessage, SetFirst, Digits, FromCode, Stamp;
    OfTypeFacts(SequenceReset);
    AsciiClean([89]);
    DigitsClean(newSeqNo);
    ParseDigits(newSeqNo, U64_MAX);
    var m1 := OfType(SequenceReset).Set(GAP_FILL_FLAG, [89]);
    SetFacts(OfType(SequenceReset), GAP_FILL_FLAG, [89]);
    var m2 := m1.Set(POSS_DUP_FLAG, [89]);
    SetFacts(m1, POSS_DUP_FLAG, [89]);
    var m3 := m2.Set(NEW_SEQ_NO, Digits(newSeqNo));
    SetFacts(m2, NEW_SEQ_NO, Digits(newSeqNo));
    StampFacts(config, m3, begin, now);
  }

  // ----- reactions ------------------------------------------------------------

  predicate Ready(s: Session)
  {
    CleanConfig(s.config) && !s.config.resetOnLogon && 1 <= s.out < U64_MAX && s.expected <= U64_MAX
  }

  /** What a session may emit in one reaction: nothing, one numbered message, or one gap-fill up to `out`. */
  predicate Reply(s: Session, s': Session, outs: seq<FixMessage>)
  {
    s'.config == s.config &&
    ((outs == [] && s'.out == s.out)
     || (|outs| == 1 && Numbered(outs[0], s.out) && s'.out == s.out + 1)
     || (|outs| == 1 && Fills(outs[0], s.out) && s'.out == s.out))
  }

  /** A gap-fill only raises the expected number, to its NewSeqNo. */
  lemma ReactionToFill(s: Session, m: FixMessage, limit: nat, now: Text)
    requires Fills(m, limit)
    ensures var (s', o) := HandleInbound(s, Framed(m), now);
            s' == s.(expected := Max(s.expected, m.GetU64(NEW_SEQ_NO).value)) && o == QUIET
  {
    hide FirstValue, ParseUnsigned, CleanMessage, FromCode, Framed, Stamp, GapFill, SendLogon, SendLogout, SendNumbered;
    OnTheWire(m);
    assert !IsFraming(NEW_SEQ_NO);
    U64Bound(m, NEW_SEQ_NO);
  }

  lemma U64Bound(m: FixMessage, tag: nat)
    requires m.GetU64(tag).Some?
    ensures m.GetU64(tag).value <= U64_MAX
  {
  }

  /** What the session reads of a delivered numbered message. */
  lemma DeliveredView(m: FixMessage, n: nat)
    requires Numbered(m, n)
    ensures var f := Framed(m);
            f.Kind() == m.Kind() && f.GetU64(MSG_SEQ_NUM) == Some(n) && Sequenced(f) && !IsResetLogon(f) &&
            f.GetU64(END_SEQ_NO) == m.GetU64(END_SEQ_NO) && f.Get(TEST_REQ_ID) == m.Get(TEST_REQ_ID)
  {
    hide FirstValue, ParseUnsigned, CleanMessage, FromCode, Framed;
    OnTheWire(m);
    assert !IsFraming(END_SEQ_NO) && !IsFraming(MSG_SEQ_NUM) && !IsFraming(RESET_SEQ_NUM_FLAG) &&
           !IsFraming(TEST_REQ_ID);
  }

  lemma ResendNumbered(config: Config, begin: nat, n: nat, now: Text)
    requires CleanConfig(config) && CleanText(now) && n <= U64_MAX
    ensures var m := Stamp(config, ResendRequestBody(begin, 0), n, now);
            Numbered(m, n) && m.Kind() == Some(ResendRequest)
  {
    hide FirstValue, ParseUnsigned, CleanMessage, FromCode, Stamp, ResendRequestBody;
    ResendStampable(begin);
    StampNumbered(config, ResendRequestBody(begin, 0), n, now);
    StampFacts(config, ResendRequestBody(begin, 0), n, now);
  }

  /** Too high a number: the only effect is a resend request from the expected number to infinity. */
  lemma ReactionToGap(s: Session, m: FixMessage, n: nat, now: Text)
    requires Ready(s) && CleanText(now) && Numbered(m, n) && n > s.expected
    ensures var (s', o) := HandleInbound(s, Framed(m), now);
            s' == s.(out := s.out + 1) && o.application.None? && o.gap == Some((s.expected, n)) && !o.ignored &&
            o.outbound == [Stamp(s.config, ResendRequestBody(s.expected, 0), s.out, now)] &&
            Numbered(o.outbound[0], s.out) && o.outbound[0].Kind() == Some(ResendRequest)
  {
    hide Numbered, Sequenced, Framed, Stamp, ResendRequestBody, Accept, CleanConfig, CleanText;
    DeliveredView(m, n);
    ResendNumbered(s.config, s.expected, s.out, now);
  }

  /** Too low a number: ignored. */
  lemma ReactionToDuplicate(s: Session, m: FixMessage, n: nat, now: Text)
    requires Numbered(m, n) && n < s.expected
    ensures HandleInbound(s, Framed(m), now) == (s, QUIET.(ignored := true))
  {
    hide Numbered, Sequenced, Framed, Accept;
    DeliveredView(m, n);
  }

  /** Answers to an accepted request are a gap-fill up to the responder's next number. */
  lemma ReactionToResend(s: Session, m: FixMessage, n: nat, now: Text)
    requires Ready(s) && CleanText(now) && Numbered(m, n) && m.Kind() == Some(ResendRequest)
    requires n == s.expected && n < U64_MAX
    ensures var (s', o) := HandleInbound(s, Framed(m), now);
            s' == s.(expected := n + 1) && o.gap.None? && !o.ignored && o.application.None? &&
            |o.outbound| == 1 && Fills(o.outbound[0], s.out) && o.outbound[0].GetU64(NEW_SEQ_NO) == Some(s.out)
  {
    hide Sequenced, Framed, GapFill, Fills, FirstValue, ParseUnsigned, FromCode, CleanMessage, CleanConfig, CleanText;
    var f := Framed(m);
    DeliveredView(m, n);
    if f.GetU64(BEGIN_SEQ_NO).Some? {
      U64Bound(f, BEGIN_SEQ_NO);
    }
    GapFillFills(s.config, GetOr(f.GetU64(BEGIN_SEQ_NO), 1), s.out, now);
  }

  /** The expected number: accepted, one step forward, surfaced exactly when it is an application message. */
  lemma ReactionInSequence(s: Session, m: FixMessage, n: nat, now: Text)
    requires Ready(s) && CleanText(now) && Numbered(m, n) && n == s.expected && n < U64_MAX
    ensures var (s', o) := HandleInbound(s, Framed(m), now);
            s'.expected == n + 1 && Reply(s, s', o.outbound) && o.gap.None? && !o.ignored &&
            o.application == if IsApplication(m.Kind()) then Some(Framed(m)) else None
  {
    hide Sequenced, Framed, Accept, Numbered, FirstValue, ParseUnsigned, FromCode, CleanMessage, CleanConfig,
         CleanText, Fills;
    DeliveredView(m, n);
    NumberedFacts(m, n);
    if m.Kind() == Some(ResendRequest) {
      ReactionToResend(s, m, n, now);
    } else if m.Kind() == Some(Logon) || m.Kind() == Some(Logout) || m.Kind() == Some(TestRequest) {
      AcceptWithReply(s, m, Framed(m), n, now);
    } else {
      AcceptQuietly(s, m, Framed(m), n, now);
    }
  }

  lemma NumberedFacts(m: FixMessage, n: nat)
    requires Numbered(m, n)
    ensures m.Kind().Some? && m.Kind() != Some(SequenceReset) && CleanMessage(m)
  {
  }

  lemma AcceptWithReply(s: Session, m: FixMessage, f: FixMessage, n: nat, now: Text)
    requires Ready(s) && CleanText(now) && CleanMessage(m) && n == s.expected && n < U64_MAX
    requires f.Kind() == m.Kind() && f.GetU64(MSG_SEQ_NUM) == Some(n) && !IsResetLogon(f) &&
             f.Get(TEST_REQ_ID) == m.Get(TEST_REQ_ID)
    requires m.Kind() == Some(Logon) || m.Kind() == Some(Logout) || m.Kind() == Some(TestRequest)
    ensures var (s', o) := Accept(s, f, now);
            s'.expected == n + 1 && Reply(s, s', o.outbound) && o.gap.None? && !o.ignored && o.application.None?
  {
    hide FirstValue, ParseUnsigned, FromCode, CleanMessage, CleanConfig, CleanText, Fills, Stamp, LogonBody, LogoutBody,
         HeartbeatBody, Numbered, IsResetLogon, GapFill;
    LogonStampable(s.config);
    StampNumbered(s.config, LogonBody(s.config), s.out, now);
    LogoutStampable(None);
    StampNumbered(s.config, LogoutBody(None), s.out, now);
    EchoNumbered(s.config, m, s.out, now);
  }

  lemma AcceptQuietly(s: Session, m: FixMessage, f: FixMessage, n: nat, now: Text)
    requires Ready(s) && n == s.expected && n < U64_MAX && f.GetU64(MSG_SEQ_NUM) == Some(n) && !IsResetLogon(f)
    requires f.Kind() == m.Kind() && (m.Kind() == Some(Heartbeat) || IsApplication(m.Kind()))
    ensures var (s', o) := Accept(s, f, now);
            s'.expected == n + 1 && Reply(s, s', o.outbound) && o.gap.None? && !o.ignored &&
            o.application == if IsApplication(m.Kind()) then Some(f) else None
  {
    hide FirstValue, ParseUnsigned, FromCode, CleanMessage, CleanConfig, Fills, Stamp, LogonBody, LogoutBody,
         HeartbeatBody, Numbered, IsResetLogon, GapFill;
  }

  lemma EchoNumbered(config: Config, m: FixMessage, n: nat, now: Text)
    requires CleanConfig(config) && CleanText(now) && n <= U64_MAX && CleanMessage(m)
    ensures Numbered(Stamp(config, HeartbeatBody(m.Get(TEST_REQ_ID)), n, now), n)
  {
    hide FirstValue, ParseUnsigned, CleanMessage, FromCode, Stamp, HeartbeatBody;
    if m.Get(TEST_REQ_ID).Some? {
      GetClean(m, TEST_REQ_ID);
    }
    HeartbeatStampable(m.Get(TEST_REQ_ID));
    StampNumbered(config, HeartbeatBody(m.Get(TEST_REQ_ID)), n, now);
  }

  // ----- one step -------------------------------------------------------------

  lemma NumberedOnlyOne(m: FixMessage)
    ensures NumberedOnly([m]) == if TakesNumber(m) then [m] else []
  {
    assert [m][1..] == [];
  }

  /** The sender's log and the frames in flight after a reaction. */
  lemma SenderKeeps(net: Net, s: Session, outs: seq<FixMessage>, app: Option<FixMessage>)
    requires Direction(net.left, net.right, net.toRight) && net.left.session.out < U64_MAX
    requires Reply(net.left.session, s, outs)
    ensures var next := Emit(net, s, outs, app); Direction(next.left, next.right, next.toRight)
  {
    hide Numbered, Fills, CleanConfig, Framed, IsApplication, SeqOf, TakesNumber;
    var next := Emit(net, s, outs, app);
    if outs != [] {
      NumberedOnlyOne(outs[0]);
      OutIsNumberedOrFill(outs[0], s.out);
      assert outs == [outs[0]];
    }
    assert next.left.log[..|net.left.log|] == net.left.log;
    FillsMonotone(net.left.session.out, s.out);
  }

  lemma OutIsNumberedOrFill(m: FixMessage, n: nat)
    ensures forall k :: Numbered(m, k) ==> TakesNumber(m)
    ensures forall k :: Fills(m, k) ==> !TakesNumber(m)
  {
  }

  lemma FillsMonotone(a: nat, b: nat)
    requires a <= b
    ensures forall m :: Fills(m, a) ==> Fills(m, b)
  {
  }

  /** The receiver's counter and what it surfaced after a reaction. */
  lemma ReceiverKeeps(net: Net, s: Session, outs: seq<FixMessage>, app: Option<FixMessage>)
    requires Direction(net.right, net.left, net.toLeft)
    requires net.left.session.expected <= s.expected <= net.right.session.out
    requires app.Some? ==>
             SurfacedFrom(app.value, net.right) && net.left.session.expected <= SeqOf(app.value) < s.expected
    ensures var next := Emit(net, s, outs, app); Direction(next.right, next.left, next.toLeft)
  {
    hide Numbered, Fills, CleanConfig, SurfacedFrom, SideOk, NumberedOnly, SeqOf;
  }

  /** Sending a numbered message keeps the invariant. */
  lemma SendKeeps(net: Net, s: Session, m: FixMessage)
    requires Inv(net) && net.left.session.out < U64_MAX
    requires s.config == net.left.session.config && s.expected == net.left.session.expected
    requires s.out == net.left.session.out + 1 && Numbered(m, net.left.session.out)
    ensures Inv(Emit(net, s, [m], None))
  {
    hide Direction, Numbered, Emit, SideOk;
    assert Direction(net.left, net.right, net.toRight) && Direction(net.right, net.left, net.toLeft);
    SenderKeeps(net, s, [m], None);
    DirectionFacts(net.right, net.left, net.toLeft);
    ReceiverKeeps(net, s, [m], None);
  }

  lemma DirectionFacts(sender: Side, receiver: Side, inFlight: set<FixMessage>)
    requires Direction(sender, receiver, inFlight)
    ensures receiver.session.expected <= sender.session.out <= U64_MAX && SideOk(sender)
    ensures forall m :: m in inFlight ==> m in sender.log || Fills(m, sender.session.out)
  {
  }

  lemma ReadyOf(net: Net)
    requires Inv(net) && net.left.session.out < U64_MAX
    ensures Ready(net.left.session) && SideOk(net.right)
  {
  }

  /** A numbered message in flight is somewhere in its sender's log. */
  lemma InFlightNumber(sender: Side, m: FixMessage) returns (n: nat)
    requires SideOk(sender) && m in sender.log
    ensures sender.base <= n < sender.session.out && m == sender.log[n - sender.base] && Numbered(m, n)
  {
    var k :| 0 <= k < |sender.log| && sender.log[k] == m;
    n := sender.base + k;
  }

  lemma FramedSeq(m: FixMessage, n: nat)
    requires Numbered(m, n)
    ensures SeqOf(Framed(m)) == n
  {
    hide Numbered, Framed, Sequenced, IsResetLogon;
    DeliveredView(m, n);
  }

  lemma ReceiveKeeps(net: Net, m: FixMessage, now: Text)
    requires Inv(net) && net.left.session.out < U64_MAX && CleanText(now) && m in net.toLeft
    ensures Inv(Act(net, Receives(m, now)))
  {
    hide Direction, Numbered, Emit, SideOk, CleanText, HandleInbound, Fills, Ready, Framed, Parsed, Wire;
    assert Direction(net.left, net.right, net.toRight) && Direction(net.right, net.left, net.toLeft);
    DirectionFacts(net.right, net.left, net.toLeft);
    ReadyOf(net);
    var s := net.left.session;
    if m in net.right.log {
      var n := InFlightNumber(net.right, m);
      NumberedOnWire(m, n);
      var (s', o) := HandleInbound(s, Framed(m), now);
      if n > s.expected {
        ReactionToGap(s, m, n, now);
        SenderKeeps(net, s', o.outbound, o.application);
        ReceiverKeeps(net, s', o.outbound, o.application);
      } else if n < s.expected {
        ReactionToDuplicate(s, m, n, now);
        SenderKeeps(net, s', o.outbound, o.application);
        ReceiverKeeps(net, s', o.outbound, o.application);
      } else {
        ReactionInSequence(s, m, n, now);
        FramedSeq(m, n);
        SurfacedAt(net.right, m, n);
        SenderKeeps(net, s', o.outbound, o.application);
        ReceiverKeeps(net, s', o.outbound, o.application);
      }
    } else {
      FillOnWire(m, net.right.session.out);
      ReactionToFill(s, m, net.right.session.out, now);
      var (s', o) := HandleInbound(s, Framed(m), now);
      SenderKeeps(net, s', o.outbound, o.application);
      ReceiverKeeps(net, s', o.outbound, o.application);
    }
  }

  lemma NumberedOnWire(m: FixMessage, n: nat)
    requires Numbered(m, n)
    ensures Parsed(Wire(m)) == Ok(Framed(m))
  {
    hide Parsed, Wire, Framed;
    OnTheWire(m);
  }

  lemma FillOnWire(m: FixMessage, limit: nat)
    requires Fills(m, limit)
    ensures Parsed(Wire(m)) == Ok(Framed(m)) && 1 <= m.GetU64(NEW_SEQ_NO).value <= limit
  {
    hide Parsed, Wire, Framed;
    OnTheWire(m);
  }

  lemma SurfacedAt(sender: Side, m: FixMessage, n: nat)
    requires SideOk(sender) && sender.base <= n < sender.session.out && m == sender.log[n - sender.base] &&
             SeqOf(Framed(m)) == n
    ensures IsApplication(m.Kind()) ==> SurfacedFrom(Framed(m), sender)
  {
    hide Framed, SeqOf, Numbered, IsApplication, CleanConfig;
  }

  /** Whatever a side sends of its own accord is one message that takes the next number. */
  lemma SendStep(net: Net, ev: Event) returns (s: Session, m: FixMessage)
    requires Inv(net) && Allowed(net, ev) && !ev.Receives? && !ev.Loses?
    ensures Act(net, ev) == Emit(net, s, [m], None) && Numbered(m, net.left.session.out)
    ensures s.config == net.left.session.config && s.expected == net.left.session.expected
    ensures s.out == net.left.session.out + 1
  {
    hide Numbered, Emit, Direction, CleanText, Stamp, LogonBody, LogoutBody, HeartbeatBody, CleanConfig, FirstValue,
         FromCode;
    var was := net.left.session;
    ReadyOf(net);
    match ev {
      case SendsLogon(now) =>
        LogonStampable(was.config);
        StampNumbered(was.config, LogonBody(was.config), was.out, now);
        s, m := SendLogon(was, now).0, SendLogon(was, now).1;
      case SendsLogout(reason, now) =>
        LogoutStampable(reason);
        StampNumbered(was.config, LogoutBody(reason), was.out, now);
        s, m := SendLogout(was, reason, now).0, SendLogout(was, reason, now).1;
      case SendsHeartbeat(id, now) =>
        HeartbeatStampable(id);
        StampNumbered(was.config, HeartbeatBody(id), was.out, now);
        s, m := SendNumbered(was, HeartbeatBody(id), now).0, SendNumbered(was, HeartbeatBody(id), now).1;
      case SendsMessage(msg, now) =>
        StampNumbered(was.config, msg, was.out, now);
        s, m := SendNumbered(was, msg, now).0, SendNumbered(was, msg, now).1;
    }
  }

  lemma LossKeeps(net: Net, m: FixMessage)
    requires Inv(net)
    ensures Inv(net.(toLeft := net.toLeft - {m}))
  {
    hide SideOk, SurfacedFrom, SeqOf, Fills;
  }

  /** Every step of either side keeps the invariant. */
  lemma ActKeeps(net: Net, ev: Event)
    requires Inv(net) && Allowed(net, ev)
    ensures Inv(Act(net, ev))
  {
    hide Numbered, Emit, Direction;
    match ev {
      case Receives(msg, now) => ReceiveKeeps(net, msg, now);
      case Loses(msg) => LossKeeps(net, msg);
      case _ =>
        var s, m := SendStep(net, ev);
        SendKeeps(net, s, m);
    }
  }

  lemma {:induction false} RunKeeps(net: Net, turns: seq<Turn>)
    requires Inv(net) && IsRun(net, turns)
    ensures Inv(After(net, turns))
    decreases |turns|
  {
    hide Direction, Act, Allowed;
    if turns != [] {
      var t := turns[0];
      ActKeeps(if t.leftActs then net else Swap(net), t.ev);
      RunKeeps(Take(net, t), turns[1..]);
    }
  }
}

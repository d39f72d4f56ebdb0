/** What each built message says, and how a session reacts to every kind of message in every state. */
module FixReactions {
  import opened Prelude
  import opened FixDecimal
  import opened FixMessage
  import opened FixSession
  import opened FixMessageFacts

  // ----- names on the wire ----------------------------------------------------

  function Bytes(s: string): Text
    requires forall i :: 0 <= i < |s| ==> s[i] < 128 as char
  {
    seq(|s|, i requires 0 <= i < |s| => s[i] as int)
  }

  lemma VersionNames()
    ensures Fix42.BeginString() == Bytes("FIX.4.2")
    ensures Fix44.BeginString() == Bytes("FIX.4.4")
    ensures Fix50Sp2.BeginString() == Bytes("FIXT.1.1")
    ensures DEFAULT_BEGIN_STRING == Bytes("FIX.4.4")
  {
    assert Fix42.BeginString() == Bytes("FIX.4.2");
    assert Fix44.BeginString() == Bytes("FIX.4.4");
    assert Fix50Sp2.BeginString() == Bytes("FIXT.1.1");
  }

  predicate IsLetter(code: Text, letter: char)
  {
    code == [letter as int]
  }

  /** The types the session knows, by their letters; any other text is a type of its own, and none is changed. */
  lemma TypeLetters(code: Text)
    ensures FromCode(code).Logon? <==> IsLetter(code, 'A')
    ensures FromCode(code).Heartbeat? <==> IsLetter(code, '0')
    ensures FromCode(code).TestRequest? <==> IsLetter(code, '1')
    ensures FromCode(code).ResendRequest? <==> IsLetter(code, '2')
    ensures FromCode(code).SequenceReset? <==> IsLetter(code, '4')
    ensures FromCode(code).Logout? <==> IsLetter(code, '5')
    ensures FromCode(code).NewOrderSingle? <==> IsLetter(code, 'D')
    ensures FromCode(code).ExecutionReport? <==> IsLetter(code, '8')
    ensures FromCode(code).Code() == code
  {}

  // ----- fields of built messages ---------------------------------------------

  lemma Stored(m: FixMessage, tag: nat, value: Text)
    ensures forall t: nat :: m.Set(tag, value).Get(t) == if t == tag then Some(value) else m.Get(t)
  {
    forall t: nat
      ensures m.Set(tag, value).Get(t) == if t == tag then Some(value) else m.Get(t)
    {
      SetFirstGet(m.fields, tag, value, t);
    }
  }

  /** `set` changes one field in place, the first of its tag, or appends it. */
  lemma {:induction false} SetInPlace(fields: seq<FixField>, tag: nat, value: Text)
    ensures var r := SetFirst(fields, tag, value);
            (FirstValue(fields, tag).None? ==> r == fields + [FixField(tag, value)]) &&
            (FirstValue(fields, tag).Some? ==>
             |r| == |fields| && exists i: nat :: FirstAt(fields, tag, i) && r == fields[i := FixField(tag, value)])
  {
    var r := SetFirst(fields, tag, value);
    if fields != [] {
      if fields[0].tag == tag {
        assert FirstAt(fields, tag, 0) && r == fields[0 := FixField(tag, value)];
      } else {
        var rest := fields[1..];
        SetInPlace(rest, tag, value);
        if FirstValue(rest, tag).Some? {
          var i: nat :| FirstAt(rest, tag, i) && SetFirst(rest, tag, value) == rest[i := FixField(tag, value)];
          assert FirstAt(fields, tag, i + 1);
          assert r == fields[i + 1 := FixField(tag, value)];
        }
      }
    }
  }

  predicate FirstAt(fields: seq<FixField>, tag: nat, i: nat)
  {
    i < |fields| && fields[i].tag == tag && forall k :: 0 <= k < i ==> fields[k].tag != tag
  }

  /** Reading gives the value of the first field of the tag, and nothing when there is none. */
  lemma {:induction false} GetIsFirst(fields: seq<FixField>, tag: nat)
    ensures FirstValue(fields, tag).None? <==> forall f :: f in fields ==> f.tag != tag
    ensures forall i: nat :: FirstAt(fields, tag, i) ==> FirstValue(fields, tag) == Some(fields[i].value)
  {
    if fields != [] {
      var rest := fields[1..];
      GetIsFirst(rest, tag);
      forall i: nat | FirstAt(fields, tag, i)
        ensures FirstValue(fields, tag) == Some(fields[i].value)
      {
        if i > 0 {
          assert FirstAt(rest, tag, i - 1);
        }
      }
      assert fields[0] in fields;
      assert forall f :: f in rest ==> f in fields;
    }
  }

  /** The header of a stamped message, and the rest of it untouched. */
  lemma StampedFields(config: Config, body: FixMessage, n: nat, now: Text)
    ensures var m := Stamp(config, body, n, now);
            m.Get(8) == Some(config.version.BeginString()) && m.Get(49) == Some(config.sender) &&
            m.Get(56) == Some(config.target) && m.Get(34) == Some(Digits(n)) && m.Get(52) == Some(now) &&
            m.Kind() == body.Kind() &&
            forall t: nat :: t != 8 && t != 49 && t != 56 && t != 34 && t != 52 ==> m.Get(t) == body.Get(t)
  {
    hide FirstValue, SetFirst, Digits, FromCode;
    var m1 := body.Set(8, config.version.BeginString());
    Stored(body, 8, config.version.BeginString());
    var m2 := m1.Set(49, config.sender);
    Stored(m1, 49, config.sender);
    var m3 := m2.Set(56, config.target);
    Stored(m2, 56, config.target);
    var m4 := m3.Set(34, Digits(n));
    Stored(m3, 34, Digits(n));
    Stored(m4, 52, now);
  }

  lemma OfTypeIs(kind: MsgType)
    requires !kind.Other?
    ensures OfType(kind).Kind() == Some(kind) && forall t: nat :: t != 35 ==> OfType(kind).Get(t).None?
  {
    OfTypeFacts(kind);
  }

  /** A logon: no encryption, the heartbeat interval, and the flags its configuration asks for. */
  lemma LogonFields(config: Config)
    ensures var m := LogonBody(config);
            m.Kind() == Some(Logon) && m.Get(98) == Some(Bytes("0")) && m.Get(108) == Some(Digits(config.heartbeat)) &&
            m.Get(141) == (if config.resetOnLogon then Some(Bytes("Y")) else None) &&
            m.Get(1137) == if config.version.Fix50Sp2? then Some(Bytes("9")) else None
  {
    hide FirstValue, SetFirst, Digits, FromCode;
    OfTypeIs(Logon);
    assert Bytes("0") == [48] && Bytes("Y") == [89] && Bytes("9") == [57];
    var m0 := OfType(Logon);
    var m1 := m0.Set(98, [48]);
    Stored(m0, 98, [48]);
    var m2 := m1.Set(108, Digits(config.heartbeat));
    Stored(m1, 108, Digits(config.heartbeat));
    var m3 := if config.resetOnLogon then m2.Set(141, [89]) else m2;
    Stored(m2, 141, [89]);
    Stored(m3, 1137, [57]);
  }

  lemma LogoutFields(reason: Option<Text>)
    ensures LogoutBody(reason).Kind() == Some(Logout) && LogoutBody(reason).Get(58) == reason
  {
    hide FirstValue, SetFirst, FromCode;
    OfTypeIs(Logout);
    if reason.Some? {
      Stored(OfType(Logout), 58, reason.value);
    }
  }

  lemma HeartbeatFields(id: Option<Text>)
    ensures HeartbeatBody(id).Kind() == Some(Heartbeat) && HeartbeatBody(id).Get(112) == id
  {
    hide FirstValue, SetFirst, FromCode;
    OfTypeIs(Heartbeat);
    if id.Some? {
      Stored(OfType(Heartbeat), 112, id.value);
    }
  }

  lemma ResendRequestFields(begin: nat, end: nat)
    ensures var m := ResendRequestBody(begin, end);
            m.Kind() == Some(ResendRequest) && m.Get(7) == Some(Digits(begin)) && m.Get(16) == Some(Digits(end))
  {
    hide FirstValue, SetFirst, FromCode, Digits;
    OfTypeIs(ResendRequest);
    var m := OfType(ResendRequest);
    Stored(m, 7, Digits(begin));
    Stored(m.Set(7, Digits(begin)), 16, Digits(end));
  }

  /** A gap-fill: numbered as the first message it stands for, marked as a possible duplicate. */
  lemma GapFillFields(config: Config, begin: nat, newSeqNo: nat, now: Text)
    ensures var m := GapFill(config, begin, newSeqNo, now);
            m.Kind() == Some(SequenceReset) && m.Get(34) == Some(Digits(begin)) &&
            m.Get(36) == Some(Digits(newSeqNo)) && m.Get(123) == Some(Bytes("Y")) && m.Get(43) == Some(Bytes("Y")) &&
            m.Get(8) == Some(config.version.BeginString()) && m.Get(49) == Some(config.sender) &&
            m.Get(56) == Some(config.target) && m.Get(52) == Some(now)
  {
    hide FirstValue, SetFirst, FromCode, Digits, Stamp;
    OfTypeIs(SequenceReset);
    assert Bytes("Y") == [89];
    var m0 := OfType(SequenceReset);
    var m1 := m0.Set(123, [89]);
    Stored(m0, 123, [89]);
    var m2 := m1.Set(43, [89]);
    Stored(m1, 43, [89]);
    var m3 := m2.Set(36, Digits(newSeqNo));
    Stored(m2, 36, Digits(newSeqNo));
    StampedFields(config, m3, begin, now);
  }

  // ----- reactions ------------------------------------------------------------

  /** Gap detection lets the message through: it carries the expected number, or none that counts. */
  predicate InSequence(s: Session, msg: FixMessage)
  {
    var n := msg.GetU64(34);
    n == None || n == Some(s.expected) || msg.Kind() == Some(SequenceReset) || ResetsNumbers(msg)
  }

  /** A logon that asks for a reset. */
  predicate ResetsNumbers(msg: FixMessage)
  {
    msg.Kind() == Some(Logon) && (msg.Get(141) == Some(Bytes("Y")) || msg.Get(141) == Some(Bytes("y")))
  }

  /** The messages that are answered: a logon or logout the session did not itself ask for, tests and requests. */
  predicate Answered(state: SessionState, kind: Option<MsgType>)
  {
    kind == Some(TestRequest) || kind == Some(ResendRequest) || (kind == Some(Logon) && state != LogonSent) ||
    (kind == Some(Logout) && state != LogoutSent)
  }

  /** The kind of the answer. */
  function AnswerTo(kind: MsgType): MsgType
  {
    if kind == TestRequest then Heartbeat else if kind == ResendRequest then SequenceReset else kind
  }

  lemma ResetFlag(msg: FixMessage)
    ensures IsResetLogon(msg) <==> ResetsNumbers(msg)
  {
    hide FirstValue, FromCode;
    assert Bytes("Y") == [89] && Bytes("y") == [121];
  }

  lemma PassesDetection(s: Session, msg: FixMessage, now: Text)
    ensures InSequence(s, msg) ==> HandleInbound(s, msg, now) == Accept(s, msg, now)
    ensures !InSequence(s, msg) <==> Sequenced(msg) && msg.GetU64(34).value != s.expected
  {
    hide FirstValue, FromCode, Accept, ParseUnsigned, Stamp;
    ResetFlag(msg);
  }

  /**
   * A message that passes gap detection, in any state: whether it is answered and by what kind, the
   * state after it, and what is surfaced.
   */
  lemma InSequenceReaction(s: Session, msg: FixMessage, now: Text)
    requires InSequence(s, msg)
    ensures var (s', o) := HandleInbound(s, msg, now); var kind := msg.Kind();
            s'.config == s.config && o.gap.None? && |o.outbound| == (if Answered(s.state, kind) then 1 else 0) &&
            (Answered(s.state, kind) ==> o.outbound[0].Kind() == Some(AnswerTo(kind.value))) &&
            s'.state == (if kind == Some(Logon) then Active
                         else if kind == Some(Logout) then Disconnected else s.state) &&
            (o.ignored <==> kind.None?) &&
            o.application == if IsApplication(kind) then Some(msg) else None
  {
    hide FirstValue, FromCode, ParseUnsigned, Stamp, LogonBody, LogoutBody, HeartbeatBody, GapFill, IsResetLogon,
         HandleInbound;
    PassesDetection(s, msg, now);
    AnswerKinds(s, msg, now);
  }

  lemma AnswerKinds(s: Session, msg: FixMessage, now: Text)
    ensures forall n: nat :: Stamp(s.config, LogonBody(s.config), n, now).Kind() == Some(Logon)
    ensures forall n: nat :: Stamp(s.config, LogoutBody(None), n, now).Kind() == Some(Logout)
    ensures forall n: nat :: Stamp(s.config, HeartbeatBody(msg.Get(112)), n, now).Kind() == Some(Heartbeat)
    ensures forall b: nat, n: nat :: GapFill(s.config, b, n, now).Kind() == Some(SequenceReset)
  {
    hide FirstValue, FromCode, Stamp, LogonBody, LogoutBody, HeartbeatBody, GapFill;
    LogonFields(s.config);
    LogoutFields(None);
    HeartbeatFields(msg.Get(112));
    forall n: nat
      ensures Stamp(s.config, LogonBody(s.config), n, now).Kind() == Some(Logon)
      ensures Stamp(s.config, LogoutBody(None), n, now).Kind() == Some(Logout)
      ensures Stamp(s.config, HeartbeatBody(msg.Get(112)), n, now).Kind() == Some(Heartbeat)
    {
      StampedFields(s.config, LogonBody(s.config), n, now);
      StampedFields(s.config, LogoutBody(None), n, now);
      StampedFields(s.config, HeartbeatBody(msg.Get(112)), n, now);
    }
    forall b: nat, n: nat
      ensures GapFill(s.config, b, n, now).Kind() == Some(SequenceReset)
    {
      GapFillFields(s.config, b, n, now);
    }
  }

  /** The expected number after a message with the number `n`, if it carries one. */
  function Advanced(expected: nat, n: Option<nat>): nat
  {
    if n.Some? then Max(expected, Min(n.value + 1, U64_MAX)) else expected
  }

  /** What the two counters are after such a message. */
  lemma InSequenceNumbers(s: Session, msg: FixMessage, now: Text)
    requires InSequence(s, msg)
    ensures var (s', o) := HandleInbound(s, msg, now); var kind, n := msg.Kind(), msg.GetU64(34);
            var out, expected := if ResetsNumbers(msg) then 1 else s.out, if ResetsNumbers(msg) then 1 else s.expected;
            var answered := Answered(s.state, kind);
            if kind.None? then s'.out == s.out && s'.expected == s.expected
            else if kind == Some(SequenceReset) then
              s'.out == s.out &&
              s'.expected == Max(s.expected, Min(GetOr(msg.GetU64(36), 0), U64_MAX))
            else if kind == Some(Logon) && answered && s.config.resetOnLogon then s'.out == 2 && s'.expected == 1
            else
              s'.expected == Advanced(expected, n) &&
              s'.out == if answered && kind != Some(ResendRequest) then (out + 1) % TWO_64 else out
  {
    hide FirstValue, FromCode, ParseUnsigned, Stamp, LogonBody, LogoutBody, HeartbeatBody, GapFill, HandleInbound,
         IsResetLogon, ResetsNumbers;
    PassesDetection(s, msg, now);
    ResetFlag(msg);
    OnlyLogonsReset(msg);
  }

  lemma OnlyLogonsReset(msg: FixMessage)
    ensures ResetsNumbers(msg) ==> msg.Kind() == Some(Logon)
  {}

  /** What the answer says. */
  lemma AnswerSays(s: Session, msg: FixMessage, now: Text)
    requires InSequence(s, msg) && Answered(s.state, msg.Kind())
    ensures var (s', o) := HandleInbound(s, msg, now);
            |o.outbound| == 1 && var answer := o.outbound[0];
            answer.Get(8) == Some(s.config.version.BeginString()) &&
            answer.Get(49) == Some(s.config.sender) && answer.Get(56) == Some(s.config.target) &&
            answer.Get(52) == Some(now) &&
            match msg.Kind().value
            case TestRequest => answer.Get(34) == Some(Digits(s.out)) && answer.Get(112) == msg.Get(112)
            case ResendRequest =>
              var end := GetOr(msg.GetU64(16), 0);
              answer.Get(34) == Some(Digits(GetOr(msg.GetU64(7), 1))) &&
              answer.Get(36) == Some(Digits(if end == 0 then s.out else Max((end + 1) % TWO_64, s.out))) &&
              answer.Get(123) == Some(Bytes("Y")) && answer.Get(43) == Some(Bytes("Y"))
            case Logon =>
              answer.Get(34) == Some(Digits(if ResetsNumbers(msg) || s.config.resetOnLogon then 1 else s.out)) &&
              answer.Get(108) == Some(Digits(s.config.heartbeat))
            case _ => answer.Get(34) == Some(Digits(s.out)) && answer.Get(58) == None
  {
    hide FirstValue, FromCode, ParseUnsigned, Stamp, LogonBody, LogoutBody, HeartbeatBody, GapFill, HandleInbound,
         IsResetLogon, ResetsNumbers, Digits, Bytes;
    PassesDetection(s, msg, now);
    ResetFlag(msg);
    OnlyLogonsReset(msg);
    match msg.Kind().value {
      case TestRequest =>
        HeartbeatFields(msg.Get(112));
        StampedFields(s.config, HeartbeatBody(msg.Get(112)), s.out, now);
      case ResendRequest =>
        var end := GetOr(msg.GetU64(16), 0);
        GapFillFields(s.config, GetOr(msg.GetU64(7), 1), if end == 0 then s.out else Max((end + 1) % TWO_64, s.out),
                      now);
      case Logon =>
        LogonFields(s.config);
        StampedFields(s.config, LogonBody(s.config), if ResetsNumbers(msg) || s.config.resetOnLogon then 1 else s.out,
                      now);
      case _ =>
        LogoutFields(None);
        StampedFields(s.config, LogoutBody(None), s.out, now);
    }
  }

  /** A number past the expected one changes nothing but the outbound counter; the answer asks for the rest. */
  lemma GapReaction(s: Session, msg: FixMessage, now: Text)
    requires !InSequence(s, msg) && msg.GetU64(34).value > s.expected
    ensures var (s', o) := HandleInbound(s, msg, now);
            s' == s.(out := (s.out + 1) % TWO_64) && o.gap == Some((s.expected, msg.GetU64(34).value)) && !o.ignored &&
            o.application.None? && |o.outbound| == 1 &&
            var request := o.outbound[0];
            request.Kind() == Some(ResendRequest) && request.Get(34) == Some(Digits(s.out)) &&
            request.Get(7) == Some(Digits(s.expected)) && request.Get(16) == Some(Digits(0))
  {
    hide FirstValue, FromCode, ParseUnsigned, Stamp, ResendRequestBody, Accept, Digits;
    PassesDetection(s, msg, now);
    ResendRequestFields(s.expected, 0);
    StampedFields(s.config, ResendRequestBody(s.expected, 0), s.out, now);
  }

  /** A number below it changes nothing at all. */
  lemma StaleReaction(s: Session, msg: FixMessage, now: Text)
    requires !InSequence(s, msg) && msg.GetU64(34).value < s.expected
    ensures var (s', o) := HandleInbound(s, msg, now);
            s' == s && o.outbound == [] && o.application.None? && o.gap.None? && o.ignored
  {
    hide FirstValue, FromCode, ParseUnsigned, Accept;
    PassesDetection(s, msg, now);
  }
}

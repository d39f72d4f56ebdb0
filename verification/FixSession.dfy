/** The sequence store and the session state machine. */
module FixSession {
  import opened Prelude
  import opened FixDecimal
  import opened FixMessage

  const BEGIN_SEQ_NO: nat := 7
  const END_SEQ_NO: nat := 16
  const MSG_SEQ_NUM: nat := 34
  const NEW_SEQ_NO: nat := 36
  const POSS_DUP_FLAG: nat := 43
  const SENDER_COMP_ID: nat := 49
  const SENDING_TIME: nat := 52
  const TARGET_COMP_ID: nat := 56
  const TEXT: nat := 58
  const ENCRYPT_METHOD: nat := 98
  const HEART_BT_INT: nat := 108
  const TEST_REQ_ID: nat := 112
  const GAP_FILL_FLAG: nat := 123
  const RESET_SEQ_NUM_FLAG: nat := 141
  const DEFAULT_APPL_VER_ID: nat := 1137

  datatype FixVersion = Fix42 | Fix44 | Fix50Sp2 {
    function BeginString(): Text
    {
      match this
      case Fix42 => [70, 73, 88, 46, 52, 46, 50]         // "FIX.4.2"
      case Fix44 => [70, 73, 88, 46, 52, 46, 52]         // "FIX.4.4"
      case Fix50Sp2 => [70, 73, 88, 84, 46, 49, 46, 49]  // "FIXT.1.1"
    }
  }

  datatype Config = Config(version: FixVersion, sender: Text, target: Text, heartbeat: nat, resetOnLogon: bool)

  datatype SessionState = Disconnected | LogonSent | Active | LogoutSent

  /** A session and its store as one value. */
  datatype Session = Session(config: Config, out: nat, expected: nat, state: SessionState)

  datatype Outcome = Outcome(
    outbound: seq<FixMessage>, application: Option<FixMessage>, gap: Option<(nat, nat)>, ignored: bool)

  const QUIET: Outcome := Outcome([], None, None, false)

  // ----- sequence numbers -----------------------------------------------------

  /** `next_out` after handing out the current number: the 64-bit counter wraps. */
  function NextOut(s: Session): Session
  {
    s.(out := (s.out + 1) % TWO_64)
  }

  /** `observed_in`: the high-water mark, with a saturating increment. */
  function Observe(s: Session, n: nat): Session
  {
    s.(expected := Max(s.expected, Min(n + 1, U64_MAX)))
  }

  function ObserveSome(s: Session, seqNum: Option<nat>): Session
  {
    if seqNum.Some? then Observe(s, seqNum.value) else s
  }

  function ResetCounters(s: Session): Session
  {
    s.(out := 1, expected := 1)
  }

  // ----- building messages ----------------------------------------------------

  function OfType(kind: MsgType): FixMessage
  {
    FixMessage([FixField(MSG_TYPE, kind.Code())])
  }

  function Stamp(config: Config, msg: FixMessage, seqNum: nat, now: Text): FixMessage
  {
    msg.Set(BEGIN_STRING, config.version.BeginString())
       .Set(SENDER_COMP_ID, config.sender)
       .Set(TARGET_COMP_ID, config.target)
       .Set(MSG_SEQ_NUM, Digits(seqNum))
       .Set(SENDING_TIME, now)
  }

  function LogonBody(config: Config): FixMessage
  {
    var m := OfType(Logon).Set(ENCRYPT_METHOD, [48]).Set(HEART_BT_INT, Digits(config.heartbeat));
    var m := if config.resetOnLogon then m.Set(RESET_SEQ_NUM_FLAG, [89]) else m;
    if config.version.Fix50Sp2? then m.Set(DEFAULT_APPL_VER_ID, [57]) else m
  }

  function LogoutBody(reason: Option<Text>): FixMessage
  {
    if reason.Some? then OfType(Logout).Set(TEXT, reason.value) else OfType(Logout)
  }

  function HeartbeatBody(id: Option<Text>): FixMessage
  {
    if id.Some? then OfType(Heartbeat).Set(TEST_REQ_ID, id.value) else OfType(Heartbeat)
  }

  function ResendRequestBody(begin: nat, end: nat): FixMessage
  {
    OfType(ResendRequest).Set(BEGIN_SEQ_NO, Digits(begin)).Set(END_SEQ_NO, Digits(end))
  }

  function GapFill(config: Config, begin: nat, newSeqNo: nat, now: Text): FixMessage
  {
    Stamp(config,
          OfType(SequenceReset).Set(GAP_FILL_FLAG, [89]).Set(POSS_DUP_FLAG, [89]).Set(NEW_SEQ_NO, Digits(newSeqNo)),
          begin, now)
  }

  /** The logon a session sends, and the session after it. */
  function SendLogon(s: Session, now: Text): (Session, FixMessage)
  {
    var s := if s.config.resetOnLogon then ResetCounters(s) else s;
    (NextOut(s).(state := LogonSent), Stamp(s.config, LogonBody(s.config), s.out, now))
  }

  function SendLogout(s: Session, reason: Option<Text>, now: Text): (Session, FixMessage)
  {
    (NextOut(s).(state := LogoutSent), Stamp(s.config, LogoutBody(reason), s.out, now))
  }

  /** Any message that takes a number and leaves the state alone. */
  function SendNumbered(s: Session, body: FixMessage, now: Text): (Session, FixMessage)
  {
    (NextOut(s), Stamp(s.config, body, s.out, now))
  }

  // ----- inbound --------------------------------------------------------------

  predicate IsResetLogon(msg: FixMessage)
  {
    msg.Kind() == Some(Logon) &&
    (msg.Get(RESET_SEQ_NUM_FLAG) == Some([89]) || msg.Get(RESET_SEQ_NUM_FLAG) == Some([121]))
  }

  predicate IsApplication(kind: Option<MsgType>)
  {
    kind.Some? && (kind.value.NewOrderSingle? || kind.value.ExecutionReport? || kind.value.Other?)
  }

  function GetOr(o: Option<nat>, default: nat): nat
  {
    if o.Some? then o.value else default
  }

  /** Whether the message takes part in gap detection. */
  predicate Sequenced(msg: FixMessage)
  {
    msg.GetU64(MSG_SEQ_NUM).Some? && msg.Kind() != Some(SequenceReset) && !IsResetLogon(msg)
  }

  /** The reaction to a message that passed gap detection. */
  function Accept(s: Session, msg: FixMessage, now: Text): (Session, Outcome)
  {
    var seqNum := msg.GetU64(MSG_SEQ_NUM);
    match msg.Kind()
    case None => (s, QUIET.(ignored := true))
    case Some(Logon) =>
      var s := ObserveSome(if IsResetLogon(msg) then ResetCounters(s) else s, seqNum);
      if s.state == LogonSent then (s.(state := Active), QUIET)
      else
        var (s, reply) := SendLogon(s, now);
        (s.(state := Active), QUIET.(outbound := [reply]))
    case Some(TestRequest) =>
      var (s, reply) := SendNumbered(ObserveSome(s, seqNum), HeartbeatBody(msg.Get(TEST_REQ_ID)), now);
      (s, QUIET.(outbound := [reply]))
    case Some(Heartbeat) => (ObserveSome(s, seqNum), QUIET)
    case Some(ResendRequest) =>
      var s := ObserveSome(s, seqNum);
      var begin := GetOr(msg.GetU64(BEGIN_SEQ_NO), 1);
      var end := GetOr(msg.GetU64(END_SEQ_NO), 0);
      var newSeqNo := if end == 0 then s.out else Max((end + 1) % TWO_64, s.out);
      (s, QUIET.(outbound := [GapFill(s.config, begin, newSeqNo, now)]))
    case Some(SequenceReset) =>
      var newSeqNo := msg.GetU64(NEW_SEQ_NO);
      (if newSeqNo.Some? && newSeqNo.value >= 1 then Observe(s, newSeqNo.value - 1) else s, QUIET)
    case Some(Logout) =>
      var s := ObserveSome(s, seqNum);
      if s.state == LogoutSent then (s.(state := Disconnected), QUIET)
      else
        var (s, reply) := SendLogout(s, None, now);
        (s.(state := Disconnected), QUIET.(outbound := [reply]))
    case Some(_) => (ObserveSome(s, seqNum), QUIET.(application := Some(msg)))
  }

  /** `handle_inbound`: gap detection, then the reaction by message type. */
  function HandleInbound(s: Session, msg: FixMessage, now: Text): (Session, Outcome)
  {
    if Sequenced(msg) && msg.GetU64(MSG_SEQ_NUM).value > s.expected then
      var (s', request) := SendNumbered(s, ResendRequestBody(s.expected, 0), now);
      (s', QUIET.(outbound := [request], gap := Some((s.expected, msg.GetU64(MSG_SEQ_NUM).value))))
    else if Sequenced(msg) && msg.GetU64(MSG_SEQ_NUM).value < s.expected then
      (s, QUIET.(ignored := true))
    else Accept(s, msg, now)
  }

  // ----- the objects ----------------------------------------------------------

  class SeqStore {
    var out: nat
    var expected: nat

    constructor ()
      ensures out == 1 && expected == 1
    {
      out, expected := 1, 1;
    }

    constructor WithCounters(nextOut: nat, nextIn: nat)
      ensures out == Max(nextOut, 1) && expected == Max(nextIn, 1)
    {
      out, expected := Max(nextOut, 1), Max(nextIn, 1);
    }

    method TakeOut() returns (seqNum: nat)
      modifies this`out
      ensures seqNum == old(out) && out == (old(out) + 1) % TWO_64
    {
      seqNum := out;
      out := (out + 1) % TWO_64;
    }

    /** The compare-exchange loop as one step of one thread: the mark never moves back. */
    method ObservedIn(n: nat)
      modifies this`expected
      ensures expected == Max(old(expected), Min(n + 1, U64_MAX))
    {
      var want := Min(n + 1, U64_MAX);
      var cur := expected;
      if want > cur {
        expected := want;
      }
    }

    method Reset()
      modifies this
      ensures out == 1 && expected == 1
    {
      out, expected := 1, 1;
    }
  }

  class FixEndpoint {
    const config: Config
    const store: SeqStore
    var state: SessionState

    ghost function View(): Session
      reads this, store
    {
      Session(config, store.out, store.expected, state)
    }

    constructor (config: Config, store: SeqStore)
      ensures this.config == config && this.store == store && state == Disconnected
    {
      this.config, this.store, this.state := config, store, Disconnected;
    }

    method FinalizeOutbound(body: FixMessage, now: Text) returns (msg: FixMessage)
      modifies store`out
      ensures (View(), msg) == SendNumbered(old(View()), body, now)
    {
      var seqNum := store.TakeOut();
      msg := body.Set(BEGIN_STRING, config.version.BeginString());
      msg := msg.Set(SENDER_COMP_ID, config.sender);
      msg := msg.Set(TARGET_COMP_ID, config.target);
      msg := msg.Set(MSG_SEQ_NUM, Digits(seqNum));
      msg := msg.Set(SENDING_TIME, now);
    }

    method BuildLogon(now: Text) returns (msg: FixMessage)
      modifies this, store
      ensures (View(), msg) == SendLogon(old(View()), now)
    {
      if config.resetOnLogon {
        store.Reset();
      }
      var body := OfType(Logon).Set(ENCRYPT_METHOD, [48]).Set(HEART_BT_INT, Digits(config.heartbeat));
      if config.resetOnLogon {
        body := body.Set(RESET_SEQ_NUM_FLAG, [89]);
      }
      if config.version.Fix50Sp2? {
        body := body.Set(DEFAULT_APPL_VER_ID, [57]);
      }
      msg := FinalizeOutbound(body, now);
      state := LogonSent;
    }

    method BuildLogout(reason: Option<Text>, now: Text) returns (msg: FixMessage)
      modifies this, store
      ensures (View(), msg) == SendLogout(old(View()), reason, now)
    {
      msg := FinalizeOutbound(LogoutBody(reason), now);
      state := LogoutSent;
    }

    method ReactTo(msg: FixMessage, now: Text) returns (outcome: Outcome)
      modifies this, store
      ensures (View(), outcome) == Accept(old(View()), msg, now)
    {
      hide Stamp, LogonBody, LogoutBody, HeartbeatBody, FirstValue, ParseUnsigned, FromCode;
      outcome := QUIET;
      var seqNum := msg.GetU64(MSG_SEQ_NUM);
      if msg.Kind().Some? && msg.Kind() != Some(SequenceReset) {
        if IsResetLogon(msg) {
          store.Reset();
        }
        if seqNum.Some? {
          store.ObservedIn(seqNum.value);
        }
      }
      match msg.Kind() {
        case None =>
          outcome := outcome.(ignored := true);
        case Some(Logon) =>
          if state != LogonSent {
            var reply := BuildLogon(now);
            outcome := outcome.(outbound := [reply]);
          }
          state := Active;
        case Some(TestRequest) =>
          var reply := FinalizeOutbound(HeartbeatBody(msg.Get(TEST_REQ_ID)), now);
          outcome := outcome.(outbound := [reply]);
        case Some(Heartbeat) =>
        case Some(ResendRequest) =>
          var begin := GetOr(msg.GetU64(BEGIN_SEQ_NO), 1);
          var end := GetOr(msg.GetU64(END_SEQ_NO), 0);
          var newSeqNo := if end == 0 then store.out else Max((end + 1) % TWO_64, store.out);
          outcome := outcome.(outbound := [GapFill(config, begin, newSeqNo, now)]);
        case Some(SequenceReset) =>
          var newSeqNo := msg.GetU64(NEW_SEQ_NO);
          if newSeqNo.Some? && newSeqNo.value >= 1 {
            store.ObservedIn(newSeqNo.value - 1);
          }
        case Some(Logout) =>
          if state != LogoutSent {
            var reply := BuildLogout(None, now);
            outcome := outcome.(outbound := [reply]);
          }
          state := Disconnected;
        case Some(_) =>
          outcome := outcome.(application := Some(msg));
      }
    }

    method Handle(msg: FixMessage, now: Text) returns (outcome: Outcome)
      modifies this, store
      ensures (View(), outcome) == HandleInbound(old(View()), msg, now)
    {
      hide Accept;
      var seqNum := msg.GetU64(MSG_SEQ_NUM);
      if Sequenced(msg) && seqNum.value > store.expected {
        var expected := store.expected;
        var request := FinalizeOutbound(ResendRequestBody(expected, 0), now);
        outcome := QUIET.(outbound := [request], gap := Some((expected, seqNum.value)));
      } else if Sequenced(msg) && seqNum.value < store.expected {
        outcome := QUIET.(ignored := true);
      } else {
        outcome := ReactTo(msg, now);
      }
    }
  }
}

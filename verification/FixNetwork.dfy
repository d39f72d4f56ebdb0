/**
 * Two sessions joined by a network that may lose, duplicate and reorder frames. A message once
 * emitted stays in flight until it is lost: delivering it twice is a duplicate, delivering it late
 * a reordering. What is delivered is the parse of its bytes.
 */
module FixNetwork {
  import opened Prelude
  import opened FixDecimal
  import opened FixMessage
  import opened FixCodecLaws
  import opened FixSession
  import opened FixMessageFacts

  // ----- the system -----------------------------------------------------------

  /** A session, the messages it numbered since the start (the first had number `base`), what it surfaced. */
  datatype Side = Side(session: Session, base: nat, log: seq<FixMessage>, surfaced: seq<FixMessage>)

  datatype Net = Net(left: Side, right: Side, toLeft: set<FixMessage>, toRight: set<FixMessage>)

  datatype Event =
    | SendsLogon(now: Text)
    | SendsLogout(reason: Option<Text>, now: Text)
    | SendsHeartbeat(id: Option<Text>, now: Text)
    | SendsMessage(msg: FixMessage, now: Text)
    | Receives(msg: FixMessage, now: Text)
    | Loses(msg: FixMessage)

  /** Messages the application may hand to `build_app_message`. */
  predicate Sendable(m: FixMessage)
  {
    CleanMessage(m) && m.Kind().Some? && !m.Kind().value.SequenceReset? && !m.Kind().value.ResendRequest? &&
    !IsResetLogon(m)
  }

  predicate CleanOption(v: Option<Text>)
  {
    v.Some? ==> CleanText(v.value)
  }

  /** The left side may take the step; its 64-bit counter is not exhausted. */
  predicate Allowed(net: Net, ev: Event)
  {
    net.left.session.out < U64_MAX && (ev.Loses? || CleanText(ev.now)) &&
    match ev
    case SendsLogon(_) => true
    case SendsLogout(reason, _) => CleanOption(reason)
    case SendsHeartbeat(id, _) => CleanOption(id)
    case SendsMessage(msg, _) => Sendable(msg)
    case Receives(msg, _) => msg in net.toLeft
    case Loses(msg) => msg in net.toLeft
  }

  predicate TakesNumber(m: FixMessage)
  {
    m.Kind() != Some(SequenceReset)
  }

  function NumberedOnly(ms: seq<FixMessage>): seq<FixMessage>
  {
    if ms == [] then []
    else (if TakesNumber(ms[0]) then [ms[0]] else []) + NumberedOnly(ms[1..])
  }

  /** The left side becomes `s`, emits `outs` and surfaces `app`. */
  function Emit(net: Net, s: Session, outs: seq<FixMessage>, app: Option<FixMessage>): Net
  {
    net.(left := net.left.(session := s,
                           log := net.left.log + NumberedOnly(outs),
                           surfaced := net.left.surfaced + if app.Some? then [app.value] else []),
         toRight := net.toRight + set m | m in outs)
  }

  /** One step of the left side, or the loss of a frame on its way there. A frame that does not parse is dropped. */
  function Act(net: Net, ev: Event): Net
  {
    var s := net.left.session;
    match ev
    case SendsLogon(now) => var (s', m) := SendLogon(s, now); Emit(net, s', [m], None)
    case SendsLogout(reason, now) => var (s', m) := SendLogout(s, reason, now); Emit(net, s', [m], None)
    case SendsHeartbeat(id, now) => var (s', m) := SendNumbered(s, HeartbeatBody(id), now); Emit(net, s', [m], None)
    case SendsMessage(msg, now) => var (s', m) := SendNumbered(s, msg, now); Emit(net, s', [m], None)
    case Loses(msg) => net.(toLeft := net.toLeft - {msg})
    case Receives(msg, now) =>
      match Parsed(Wire(msg))
      case Err(_) => net
      case Ok(read) => var (s', o) := HandleInbound(s, read, now); Emit(net, s', o.outbound, o.application)
  }

  function Swap(net: Net): Net
  {
    Net(net.right, net.left, net.toRight, net.toLeft)
  }

  datatype Turn = Turn(leftActs: bool, ev: Event)

  predicate TurnAllowed(net: Net, t: Turn)
  {
    if t.leftActs then Allowed(net, t.ev) else Allowed(Swap(net), t.ev)
  }

  function Take(net: Net, t: Turn): Net
  {
    if t.leftActs then Act(net, t.ev) else Swap(Act(Swap(net), t.ev))
  }

  predicate IsRun(net: Net, turns: seq<Turn>)
    decreases |turns|
  {
    turns == [] || (TurnAllowed(net, turns[0]) && IsRun(Take(net, turns[0]), turns[1..]))
  }

  function After(net: Net, turns: seq<Turn>): Net
    decreases |turns|
  {
    if turns == [] then net else After(Take(net, turns[0]), turns[1..])
  }

  // ----- the invariant --------------------------------------------------------

  /** A message that took number `n`. */
  predicate Numbered(m: FixMessage, n: nat)
  {
    CleanMessage(m) && m.GetU64(MSG_SEQ_NUM) == Some(n) && m.Kind().Some? && TakesNumber(m) && !IsResetLogon(m) &&
    (m.Kind() == Some(ResendRequest) ==> m.GetU64(END_SEQ_NO) == Some(0))
  }

  /** A gap-fill that does not reach past `limit`. */
  predicate Fills(m: FixMessage, limit: nat)
  {
    CleanMessage(m) && m.Kind() == Some(SequenceReset) &&
    m.GetU64(NEW_SEQ_NO).Some? && 1 <= m.GetU64(NEW_SEQ_NO).value <= limit
  }

  predicate SideOk(side: Side)
  {
    CleanConfig(side.session.config) && !side.session.config.resetOnLogon &&
    1 <= side.base && side.session.out == side.base + |side.log| && side.session.out <= U64_MAX &&
    forall k :: 0 <= k < |side.log| ==> Numbered(side.log[k], side.base + k)
  }

  function SeqOf(m: FixMessage): nat
  {
    GetOr(m.GetU64(MSG_SEQ_NUM), 0)
  }

  /** A surfaced message is the framed form of the application message with its number in the sender's log. */
  predicate SurfacedFrom(m: FixMessage, sender: Side)
  {
    sender.base <= SeqOf(m) < sender.base + |sender.log| &&
    m == Framed(sender.log[SeqOf(m) - sender.base]) &&
    IsApplication(sender.log[SeqOf(m) - sender.base].Kind())
  }

  /** One direction of the traffic. */
  predicate Direction(sender: Side, receiver: Side, inFlight: set<FixMessage>)
  {
    SideOk(sender) &&
    receiver.session.expected <= sender.session.out &&
    (forall m :: m in inFlight ==> m in sender.log || Fills(m, sender.session.out)) &&
    (forall j :: 0 <= j < |receiver.surfaced| ==>
       SurfacedFrom(receiver.surfaced[j], sender) && SeqOf(receiver.surfaced[j]) < receiver.session.expected) &&
    (forall i, j :: 0 <= i < j < |receiver.surfaced| ==> SeqOf(receiver.surfaced[i]) < SeqOf(receiver.surfaced[j]))
  }

  predicate Inv(net: Net)
  {
    Direction(net.left, net.right, net.toRight) && Direction(net.right, net.left, net.toLeft)
  }
}

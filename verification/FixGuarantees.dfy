/** What the two sessions guarantee, and where resynchronisation stops working. */
module FixGuarantees {
  import opened Prelude
  import opened FixDecimal
  import opened FixMessage
  import opened FixCodecLaws
  import opened FixSession
  import opened FixMessageFacts
  import opened FixNetwork
  import opened FixDelivery

  // ----- delivery -------------------------------------------------------------

  /** `xs` is obtained from `ys` by dropping elements. */
  predicate IsSubsequence<T(==)>(xs: seq<T>, ys: seq<T>)
    decreases |ys|
  {
    xs == [] ||
    (ys != [] &&
     ((xs[|xs| - 1] == ys[|ys| - 1] && IsSubsequence(xs[..|xs| - 1], ys[..|ys| - 1]))
      || IsSubsequence(xs, ys[..|ys| - 1])))
  }

  /** The application messages of a log, in the framed form the peer reads. */
  function ApplicationsSent(log: seq<FixMessage>): seq<FixMessage>
  {
    if log == [] then []
    else
      var last := log[|log| - 1];
      ApplicationsSent(log[..|log| - 1]) + if IsApplication(last.Kind()) then [Framed(last)] else []
  }

  lemma {:induction false} SurfacedIsSubsequence(surfaced: seq<FixMessage>, sender: Side, upTo: nat)
    requires upTo <= |sender.log|
    requires forall j :: 0 <= j < |surfaced| ==>
               SurfacedFrom(surfaced[j], sender) && SeqOf(surfaced[j]) < sender.base + upTo
    requires forall i, j :: 0 <= i < j < |surfaced| ==> SeqOf(surfaced[i]) < SeqOf(surfaced[j])
    ensures IsSubsequence(surfaced, ApplicationsSent(sender.log[..upTo]))
    decreases upTo
  {
    hide Framed, SeqOf, IsApplication;
    if surfaced != [] {
      var m := surfaced[|surfaced| - 1];
      assert SurfacedFrom(m, sender);
      var log := sender.log[..upTo];
      assert log[..|log| - 1] == sender.log[..upTo - 1];
      if SeqOf(m) == sender.base + upTo - 1 {
        SurfacedIsSubsequence(surfaced[..|surfaced| - 1], sender, upTo - 1);
        var ys := ApplicationsSent(log);
        assert ys[..|ys| - 1] == ApplicationsSent(sender.log[..upTo - 1]);
      } else {
        SurfacedIsSubsequence(surfaced, sender, upTo - 1);
        var ys := ApplicationsSent(log);
        assert ys == ApplicationsSent(sender.log[..upTo - 1])
            || ys[..|ys| - 1] == ApplicationsSent(sender.log[..upTo - 1]);
      }
    }
  }

  /** Two stores brought together at the start of a run: nothing sent yet, neither side ahead of the other. */
  predicate Start(net: Net)
  {
    SideOk(net.left) && SideOk(net.right) &&
    net.left.log == [] && net.right.log == [] && net.left.surfaced == [] && net.right.surfaced == [] &&
    net.toLeft == {} && net.toRight == {} &&
    net.left.session.expected <= net.right.session.out && net.right.session.expected <= net.left.session.out
  }

  /** One receiver's view of the traffic. */
  predicate Delivered(receiver: Side, sender: Side)
  {
    receiver.session.expected <= sender.session.out &&
    IsSubsequence(receiver.surfaced, ApplicationsSent(sender.log)) &&
    forall i, j :: 0 <= i < j < |receiver.surfaced| ==> SeqOf(receiver.surfaced[i]) < SeqOf(receiver.surfaced[j])
  }

  lemma DirectionDelivers(sender: Side, receiver: Side, inFlight: set<FixMessage>)
    requires Direction(sender, receiver, inFlight)
    ensures Delivered(receiver, sender)
  {
    hide Numbered, Fills, SeqOf, IsSubsequence, ApplicationsSent, CleanConfig;
    assert forall j :: 0 <= j < |receiver.surfaced| ==>
             SurfacedFrom(receiver.surfaced[j], sender) && SeqOf(receiver.surfaced[j]) < sender.base + |sender.log|;
    SurfacedIsSubsequence(receiver.surfaced, sender, |sender.log|);
    assert sender.log[..|sender.log|] == sender.log;
  }

  /**
   * In every run over a lossy, duplicating, reordering network neither side expects a number the
   * other has not reached, and each surfaces a subsequence of what the other sent, in order, once.
   */
  lemma EveryRunDelivers(net: Net, turns: seq<Turn>)
    requires Start(net) && IsRun(net, turns)
    ensures var end := After(net, turns); Delivered(end.left, end.right) && Delivered(end.right, end.left)
  {
    RunKeeps(net, turns);
    hide Delivered, Direction, After, IsRun, SideOk;
    var end := After(net, turns);
    DirectionDelivers(end.left, end.right, end.toRight);
    DirectionDelivers(end.right, end.left, end.toLeft);
  }

  // ----- recovery -------------------------------------------------------------

  /** The other side's next message after `s`. */
  function NextFrom(s: Session, body: FixMessage, now: Text): FixMessage
  {
    SendNumbered(s, body, now).1
  }

  /** The request a session emits when it sees a gap. */
  function Request(s: Session, now: Text): FixMessage
  {
    NextFrom(s, ResendRequestBody(s.expected, 0), now)
  }

  /**
   * A gap seen by `a`, its request accepted in sequence by `b`, and `b`'s gap-fill handled by `a`:
   * `a` expects exactly `b`'s next number and accepts whatever `b` sends next.
   */
  lemma GapIsClosed(a: Session, b: Session, m: FixMessage, n: nat, now: Text, body: FixMessage)
    requires Ready(a) && Ready(b) && CleanText(now) && Stampable(body) && a.out + 1 < U64_MAX
    requires Numbered(m, n) && a.expected < n < b.out   // a message of b's beyond the one a waits for
    requires a.out == b.expected                        // the request arrives in sequence
    ensures var (a1, seen) := HandleInbound(a, Framed(m), now);
            var (b1, answer) := HandleInbound(b, Framed(Request(a, now)), now);
            seen.outbound == [Request(a, now)] && seen.gap == Some((a.expected, n)) && |answer.outbound| == 1 &&
            var (a2, quiet) := HandleInbound(a1, Framed(answer.outbound[0]), now);
            a2.expected == b1.out &&
            var accepted := HandleInbound(a2, Framed(NextFrom(b1, body, now)), now);
            accepted.0.expected == b1.out + 1 && accepted.1.gap.None? && !accepted.1.ignored
  {
    hide HandleInbound, Framed, Numbered, Fills, CleanText, CleanConfig, Stamp, Stampable;
    var (a1, seen) := HandleInbound(a, Framed(m), now);
    ReactionToGap(a, m, n, now);
    var request := Request(a, now);
    var (b1, answer) := HandleInbound(b, Framed(request), now);
    ReactionToResend(b, request, a.out, now);
    var fill := answer.outbound[0];
    var (a2, quiet) := HandleInbound(a1, Framed(fill), now);
    ReactionToFill(a1, fill, b.out, now);
    StampNumbered(b1.config, body, b1.out, now);
    ReactionInSequence(a2, NextFrom(b1, body, now), b1.out, now);
  }

  /** A request is answered by a gap-fill exactly when it arrives in sequence. */
  lemma RequestAnsweredIff(b: Session, request: FixMessage, n: nat, now: Text)
    requires Ready(b) && CleanText(now) && Numbered(request, n) && request.Kind() == Some(ResendRequest) && n < U64_MAX
    ensures var answer := HandleInbound(b, Framed(request), now).1;
            (|answer.outbound| == 1 && Fills(answer.outbound[0], b.out)) <==> n == b.expected
  {
    hide HandleInbound, Framed, Numbered, CleanText, CleanConfig, Stamp;
    if n == b.expected {
      ReactionToResend(b, request, n, now);
    } else if n > b.expected {
      ReactionToGap(b, request, n, now);
    } else {
      ReactionToDuplicate(b, request, n, now);
    }
  }

  /** `x` receives `m`; whatever it emits is delivered at once to `y`, and so on for `k` deliveries. */
  function Bounce(x: Session, y: Session, m: FixMessage, k: nat, now: Text): (Session, Session)
    decreases k
  {
    if k == 0 then (x, y)
    else
      var (x', o) := HandleInbound(x, Framed(m), now);
      if o.outbound == [] then (x', y)
      else
        var (y', x'') := Bounce(y, x', o.outbound[0], k - 1, now);
        (x'', y')
  }

  /**
   * When each side waits for a number the other has already passed, every request is itself out of
   * sequence: over a perfect network the sessions answer requests with requests for ever, and
   * neither expected number moves.
   */
  lemma {:induction false} MutualGapNeverCloses(x: Session, y: Session, m: FixMessage, n: nat, k: nat, now: Text)
    requires Ready(x) && Ready(y) && CleanText(now) && x.out + k < U64_MAX && y.out + k < U64_MAX
    requires Numbered(m, n) && x.expected < n && x.expected < y.out && y.expected < x.out
    ensures Bounce(x, y, m, k, now) == (x.(out := x.out + (k + 1) / 2), y.(out := y.out + k / 2))
    decreases k
  {
    hide HandleInbound, Framed, Numbered, CleanText, CleanConfig, Stamp;
    if k > 0 {
      var (x', o) := HandleInbound(x, Framed(m), now);
      ReactionToGap(x, m, n, now);
      MutualGapNeverCloses(y, x', o.outbound[0], x.out, k - 1, now);
    }
  }
}

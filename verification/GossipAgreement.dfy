/** What exchanges of gossip between two nodes achieve, and when they agree on their version. */
module GossipAgreement {
  import opened VectorClocks
  import opened Gossip

  /** A step that neither changes `x` or `y` locally nor merges a third node's state into them. */
  predicate Quiet(x: string, y: string, step: Step)
  {
    match step
    case Change(n) => n != x && n != y
    case Send(_, _) => true
    case Deliver(p) => (p.to == x || p.to == y) && p.pdu.Envelope? ==> p.pdu.from == x || p.pdu.from == y
  }

  predicate AllQuiet(x: string, y: string, steps: seq<Step>)
  {
    forall i :: 0 <= i < |steps| ==> Quiet(x, y, steps[i])
  }

  ghost predicate Below(net: Net, x: string, y: string, top: Clock)
  {
    x in net.versions && y in net.versions && Leq(net.versions[x], top) && Leq(net.versions[y], top)
  }

  lemma QuietKeepsBelow(net: Net, x: string, y: string, top: Clock, step: Step)
    requires Inv(net) && Enabled(net, step) && Quiet(x, y, step) && Below(net, x, y, top)
    ensures Below(Next(net, step), x, y, top)
  {
    hide Leq, Join, Related, Informed, Proper;
    if step.Deliver? {
      var p := step.packet;
      if (p.to == x || p.to == y) && p.pdu.Envelope? {
        assert PacketOk(net, p);
        LeqTransitive(p.pdu.version, net.versions[p.pdu.from], top);
        JoinIsLeastUpperBound(net.versions[p.to], p.pdu.version, top);
      }
    }
  }

  lemma {:induction false} QuietRunBelow(net: Net, x: string, y: string, top: Clock, steps: seq<Step>)
    requires Inv(net) && IsRun(net, steps) && AllQuiet(x, y, steps) && Below(net, x, y, top)
    ensures Below(Gossip.After(net, steps), x, y, top)
    decreases |steps|
  {
    hide Inv, Next, Below, Quiet, Enabled;
    if steps != [] {
      NextKeeps(net, steps[0]);
      QuietKeepsBelow(net, x, y, top, steps[0]);
      QuietRunBelow(Next(net, steps[0]), x, y, top, steps[1..]);
    }
  }

  /** What the two nodes knew together at the start. */
  ghost function Top(net: Net, x: string, y: string): Clock
    requires x in net.versions && y in net.versions
  {
    Join(net.versions[x], net.versions[y])
  }

  /** A stretch of a run from a state the cluster can be in, with any traffic. */
  ghost predicate Traffic(net: Net, steps: seq<Step>, x: string, y: string)
  {
    Inv(net) && IsRun(net, steps) && x in net.versions && y in net.versions
  }

  /** A quiet one. */
  ghost predicate Stretch(net: Net, steps: seq<Step>, x: string, y: string)
  {
    Traffic(net, steps, x, y) && AllQuiet(x, y, steps)
  }

  ghost function Version(net: Net, steps: seq<Step>, i: nat, n: string): Clock
    requires IsRun(net, steps) && i <= |steps|
  {
    if n in StateAt(net, steps, i).versions then StateAt(net, steps, i).versions[n] else map[]
  }

  /** Versions in a quiet stretch lie between where they started and what the nodes knew together. */
  lemma StretchBounds(net: Net, steps: seq<Step>, x: string, y: string, i: nat, j: nat)
    requires Stretch(net, steps, x, y) && i <= j <= |steps|
    ensures x in StateAt(net, steps, i).versions && y in StateAt(net, steps, i).versions
    ensures Leq(Version(net, steps, i, x), Version(net, steps, j, x)) &&
            Leq(Version(net, steps, i, y), Version(net, steps, j, y))
    ensures Leq(Version(net, steps, i, x), Top(net, x, y)) && Leq(Version(net, steps, i, y), Top(net, x, y))
  {
    hide Inv, Leq, Join, Quiet, Next;
    Between(net, steps, 0, i);
    Between(net, steps, i, j);
    assert steps[..0] == [];
    JoinIsLeastUpperBound(net.versions[x], net.versions[y], net.versions[x]);
    RunSplits(net, steps, i);
    QuietRunBelow(net, x, y, Top(net, x, y), steps[..i]);
  }

  /** An exchange that node `x` starts with `y`, by the steps at which its packets are sent and handled. */
  datatype Exchange = Exchange(x: string, y: string, sent: nat, seen: nat, asked: nat, done: nat)

  /** The exchange takes place in the run, every packet of it being delivered. */
  ghost predicate Completed(net: Net, steps: seq<Step>, e: Exchange)
    requires IsRun(net, steps)
  {
    e.sent < e.seen <= e.done < |steps| &&
    var v, w := Version(net, steps, e.sent, e.x), Version(net, steps, e.seen, e.y);
    steps[e.sent] == Send(e.x, e.y) && steps[e.seen] == Deliver(Packet(e.y, Status(e.x, v))) &&
    match Related(w, v)
    case Same => e.done == e.seen
    case Before =>
      e.seen < e.asked < e.done && steps[e.asked] == Deliver(Packet(e.x, MergeRequest(e.y, w))) &&
      steps[e.done] == Deliver(Packet(e.y, Envelope(e.x, Version(net, steps, e.asked, e.x))))
    case _ =>
      e.seen < e.done && steps[e.done] == Deliver(Packet(e.x, Envelope(e.y, w)))
  }

  /** Everything the nodes knew at the start has arrived. */
  ghost predicate Full(net: Net, x: string, y: string, c: Clock)
    requires x in net.versions && y in net.versions
  {
    Leq(net.versions[x], c) && Leq(net.versions[y], c)
  }

  lemma FullGrows(net: Net, x: string, y: string, c: Clock, d: Clock)
    requires x in net.versions && y in net.versions && Full(net, x, y, c) && Leq(c, d)
    ensures Full(net, x, y, d)
  {
    hide Leq;
    LeqTransitive(net.versions[x], c, d);
    LeqTransitive(net.versions[y], c, d);
  }

  /** Delivering an envelope makes the receiver dominate the version in it. */
  lemma EnvelopeArrives(net: Net, steps: seq<Step>, i: nat, from: string, to: string, c: Clock)
    requires Inv(net) && IsRun(net, steps) && i < |steps| && steps[i] == Deliver(Packet(to, Envelope(from, c)))
    ensures Leq(c, Version(net, steps, i + 1, to)) && Leq(Version(net, steps, i, to), Version(net, steps, i + 1, to))
  {
    hide Leq, Join, Inv;
    StepAt(net, steps, i);
    var v := Version(net, steps, i, to);
    JoinIsLeastUpperBound(v, c, v);
  }

  lemma VersionsGrow(net: Net, steps: seq<Step>, x: string, y: string, i: nat, j: nat)
    requires Traffic(net, steps, x, y) && i <= j <= |steps|
    ensures Leq(net.versions[x], Version(net, steps, i, x)) && Leq(net.versions[y], Version(net, steps, i, y))
    ensures Leq(Version(net, steps, i, x), Version(net, steps, j, x)) &&
            Leq(Version(net, steps, i, y), Version(net, steps, j, y))
  {
    hide Inv, Leq, Next;
    Between(net, steps, 0, i);
    Between(net, steps, i, j);
    assert steps[..0] == [];
  }

  /**
   * Whatever the traffic, after a completed exchange the node that started it has everything both
   * knew at the start; so has the other unless the versions compared were concurrent.
   */
  lemma OneExchange(net: Net, steps: seq<Step>, e: Exchange)
    requires Traffic(net, steps, e.x, e.y) && Completed(net, steps, e)
    ensures Full(net, e.x, e.y, Version(net, steps, e.done + 1, e.x))
    ensures Related(Version(net, steps, e.seen, e.y), Version(net, steps, e.sent, e.x)) != Concurrent ==>
              Full(net, e.x, e.y, Version(net, steps, e.done + 1, e.y))
  {
    hide Leq, Version, Inv, IsRun;
    var v, w := Version(net, steps, e.sent, e.x), Version(net, steps, e.seen, e.y);
    var a, b := Version(net, steps, e.done + 1, e.x), Version(net, steps, e.done + 1, e.y);
    var x0, y0 := net.versions[e.x], net.versions[e.y];
    VersionsGrow(net, steps, e.x, e.y, e.sent, e.done + 1);
    VersionsGrow(net, steps, e.x, e.y, e.seen, e.done + 1);
    if Leq(v, w) {
      LeqTransitive(x0, v, w);
      FullGrows(net, e.x, e.y, w, b);
    }
    if Leq(w, v) {
      LeqTransitive(y0, w, v);
      FullGrows(net, e.x, e.y, v, a);
    }
    if Related(w, v) == Before {
      EnvelopeArrives(net, steps, e.done, e.x, e.y, Version(net, steps, e.asked, e.x));
      VersionsGrow(net, steps, e.x, e.y, e.asked, e.done + 1);
      LeqTransitive(x0, Version(net, steps, e.asked, e.x), b);
      LeqTransitive(y0, w, b);
    } else if Related(w, v) != Same {
      EnvelopeArrives(net, steps, e.done, e.y, e.x, w);
      LeqTransitive(y0, w, a);
      LeqTransitive(x0, v, a);
    }
  }

  /**
   * Whatever the traffic, one completed exchange started by each node, in any order or at the same
   * time, leaves both with everything they knew at the start.
   */
  lemma EachStartsOne(net: Net, steps: seq<Step>, e: Exchange, f: Exchange)
    requires Traffic(net, steps, e.x, e.y) && Completed(net, steps, e) && Completed(net, steps, f)
    requires f.x == e.y && f.y == e.x
    ensures var end := Gossip.After(net, steps);
            e.x in end.versions && e.y in end.versions &&
            Full(net, e.x, e.y, end.versions[e.x]) && Full(net, e.x, e.y, end.versions[e.y])
  {
    hide Leq, Inv, IsRun, Completed, Related, Next;
    var n := |steps|;
    OneExchange(net, steps, e);
    OneExchange(net, steps, f);
    assert e.done < n && f.done < n by { InTime(net, steps, e); InTime(net, steps, f); }
    VersionsGrow(net, steps, e.x, e.y, e.done + 1, n);
    VersionsGrow(net, steps, e.x, e.y, f.done + 1, n);
    FullGrows(net, e.x, e.y, Version(net, steps, e.done + 1, e.x), Version(net, steps, n, e.x));
    FullGrows(net, e.x, e.y, Version(net, steps, f.done + 1, e.y), Version(net, steps, n, e.y));
    AtTheEnd(net, steps, e.x);
    AtTheEnd(net, steps, e.y);
  }

  lemma InTime(net: Net, steps: seq<Step>, e: Exchange)
    requires IsRun(net, steps) && Completed(net, steps, e)
    ensures e.done < |steps|
  {}

  lemma AtTheEnd(net: Net, steps: seq<Step>, n: string)
    requires Inv(net) && IsRun(net, steps) && n in net.versions
    ensures n in Gossip.After(net, steps).versions
    ensures Version(net, steps, |steps|, n) == Gossip.After(net, steps).versions[n]
  {
    hide Inv, Next;
    RunKeeps(net, steps);
    assert steps[..|steps|] == steps;
  }

  lemma StartVersions(net: Net, steps: seq<Step>, x: string, y: string, i: nat, j: nat)
    requires Stretch(net, steps, x, y) && i <= j <= |steps|
    ensures Leq(net.versions[x], Version(net, steps, i, x)) && Leq(net.versions[y], Version(net, steps, i, y))
    ensures Leq(Version(net, steps, i, x), Version(net, steps, j, x)) &&
            Leq(Version(net, steps, i, y), Version(net, steps, j, y))
    ensures Leq(Version(net, steps, i, x), Top(net, x, y)) && Leq(Version(net, steps, i, y), Top(net, x, y))
  {
    hide Leq, Inv, AllQuiet, Top, Next;
    StretchBounds(net, steps, x, y, 0, i);
    StretchBounds(net, steps, x, y, i, j);
    assert steps[..0] == [];
  }

  lemma FullIsTop(net: Net, x: string, y: string, c: Clock)
    requires x in net.versions && y in net.versions && Full(net, x, y, c)
    ensures Leq(Top(net, x, y), c)
  {
    hide Leq, Join;
    JoinIsLeastUpperBound(net.versions[x], net.versions[y], c);
  }

  /** If one side has everything when an exchange starts, the versions it compares are not concurrent. */
  lemma FullIsComparable(net: Net, steps: seq<Step>, e: Exchange, i: nat)
    requires Stretch(net, steps, e.x, e.y) && Completed(net, steps, e) && i <= e.sent
    requires Full(net, e.x, e.y, Version(net, steps, i, e.x)) || Full(net, e.x, e.y, Version(net, steps, i, e.y))
    ensures Related(Version(net, steps, e.seen, e.y), Version(net, steps, e.sent, e.x)) != Concurrent
  {
    hide Leq, Version, Inv, IsRun, AllQuiet, Top;
    var v, w := Version(net, steps, e.sent, e.x), Version(net, steps, e.seen, e.y);
    StartVersions(net, steps, e.x, e.y, i, e.sent);
    StartVersions(net, steps, e.x, e.y, i, e.seen);
    StartVersions(net, steps, e.x, e.y, e.sent, e.seen);
    StartVersions(net, steps, e.x, e.y, e.seen, e.seen);
    if Full(net, e.x, e.y, Version(net, steps, i, e.x)) {
      FullGrows(net, e.x, e.y, Version(net, steps, i, e.x), v);
      FullIsTop(net, e.x, e.y, v);
      LeqTransitive(w, Top(net, e.x, e.y), v);
    } else {
      FullGrows(net, e.x, e.y, Version(net, steps, i, e.y), w);
      FullIsTop(net, e.x, e.y, w);
      LeqTransitive(v, Top(net, e.x, e.y), w);
    }
  }

  /** Once both have everything they hold the same version, and keep it. */
  lemma BothFull(net: Net, steps: seq<Step>, x: string, y: string, i: nat)
    requires Stretch(net, steps, x, y) && i <= |steps|
    requires Full(net, x, y, Version(net, steps, i, x)) && Full(net, x, y, Version(net, steps, i, y))
    ensures var end := Gossip.After(net, steps);
            x in end.versions && y in end.versions && end.versions[x] == end.versions[y] == Top(net, x, y)
  {
    hide Leq, AllQuiet, Next, Join, Proper, Informed;
    var n := |steps|;
    assert steps[..n] == steps;
    var end := StateAt(net, steps, n);
    StartVersions(net, steps, x, y, i, n);
    StartVersions(net, steps, x, y, n, n);
    StretchBounds(net, steps, x, y, n, n);
    FullGrows(net, x, y, Version(net, steps, i, x), end.versions[x]);
    FullGrows(net, x, y, Version(net, steps, i, y), end.versions[y]);
    FullIsTop(net, x, y, end.versions[x]);
    FullIsTop(net, x, y, end.versions[y]);
    RunKeeps(net, steps);
    assert NodeOk(end, x) && NodeOk(end, y) && NodeOk(net, x) && NodeOk(net, y);
    ProperKept(net.versions[x], net.versions[y], "");
    SameIsEqual(end.versions[x], Top(net, x, y));
    SameIsEqual(end.versions[y], Top(net, x, y));
  }

  /** One completed exchange that found comparable versions is enough. */
  lemma OneExchangeAgrees(net: Net, steps: seq<Step>, e: Exchange)
    requires Stretch(net, steps, e.x, e.y) && Completed(net, steps, e)
    requires Related(Version(net, steps, e.seen, e.y), Version(net, steps, e.sent, e.x)) != Concurrent
    ensures var end := Gossip.After(net, steps);
            e.x in end.versions && e.y in end.versions && end.versions[e.x] == end.versions[e.y] == Top(net, e.x, e.y)
  {
    hide Version, Full, Top, IsRun, Related, Inv, AllQuiet;
    OneExchange(net, steps, e);
    BothFull(net, steps, e.x, e.y, e.done + 1);
  }

  /**
   * Whatever the packets in flight, the other nodes' activity and the order of delivery: two
   * completed exchanges, started by either node, leave both with the join of what they had.
   */
  lemma TwoExchangesAgree(net: Net, steps: seq<Step>, first: Exchange, second: Exchange)
    requires Stretch(net, steps, first.x, first.y) && Completed(net, steps, first) && Completed(net, steps, second)
    requires first.done < second.sent
    requires (second.x == first.x && second.y == first.y) || (second.x == first.y && second.y == first.x)
    ensures var end := Gossip.After(net, steps);
            first.x in end.versions && first.y in end.versions &&
            end.versions[first.x] == end.versions[first.y] == Top(net, first.x, first.y)
  {
    hide Version, Leq, Join, Related, IsRun, Inv, Next;
    OneExchange(net, steps, first);
    assert Stretch(net, steps, second.x, second.y);
    FullIsComparable(net, steps, second, first.done + 1);
    OneExchange(net, steps, second);
    BothFull(net, steps, first.x, first.y, second.done + 1);
  }

  lemma StepsSplit(net: Net, first: Step, rest: seq<Step>)
    requires Enabled(net, first) && IsRun(Next(net, first), rest)
    ensures IsRun(net, [first] + rest)
    ensures StateAt(net, [first] + rest, 0) == net
    ensures forall i :: 0 <= i <= |rest| ==>
              StateAt(net, [first] + rest, i + 1) == StateAt(Next(net, first), rest, i)
  {
    hide Next, Enabled;
    var steps := [first] + rest;
    assert steps[1..] == rest && steps[..0] == [];
    forall i | 0 <= i <= |rest|
      ensures StateAt(net, steps, i + 1) == StateAt(Next(net, first), rest, i)
    {
      var part := steps[..i + 1];
      assert part[0] == first && part[1..] == rest[..i];
    }
  }

  lemma NoSteps(net: Net)
    ensures IsRun(net, []) && StateAt(net, [], 0) == net
  {
    var none: seq<Step> := [];
    assert none[..0] == [];
  }

  /** From every state, an exchange between any two nodes can take place and be completed. */
  lemma ExchangeCanComplete(net: Net, x: string, y: string) returns (steps: seq<Step>, e: Exchange)
    requires Inv(net) && x in net.versions && y in net.versions
    ensures Traffic(net, steps, x, y) && Completed(net, steps, e) && e.x == x && e.y == y
  {
    hide Leq, Join, Inv, IsRun, StateAt;
    var v, w := net.versions[x], net.versions[y];
    var send, status := Send(x, y), Deliver(Packet(y, Status(x, v)));
    var n1 := Next(net, send);
    var n2 := Next(n1, status);
    assert n2.versions == net.versions;
    match Related(w, v) {
      case Same =>
        NoSteps(n2);
        StepsSplit(n1, status, []);
        StepsSplit(net, send, [status] + []);
        steps, e := [send] + ([status] + []), Exchange(x, y, 0, 1, 0, 1);
      case Before =>
        var request, envelope := Deliver(Packet(x, MergeRequest(y, w))), Deliver(Packet(y, Envelope(x, v)));
        assert request.packet in n2.wire;
        var n3 := Next(n2, request);
        assert n3.versions == net.versions && envelope.packet in n3.wire;
        NoSteps(Next(n3, envelope));
        StepsSplit(n3, envelope, []);
        StepsSplit(n2, request, [envelope] + []);
        StepsSplit(n1, status, [request] + ([envelope] + []));
        StepsSplit(net, send, [status] + ([request] + ([envelope] + [])));
        steps, e := [send] + ([status] + ([request] + ([envelope] + []))), Exchange(x, y, 0, 1, 2, 3);
      case _ =>
        var envelope := Deliver(Packet(x, Envelope(y, w)));
        assert envelope.packet in n2.wire;
        NoSteps(Next(n2, envelope));
        StepsSplit(n2, envelope, []);
        StepsSplit(n1, status, [envelope] + []);
        StepsSplit(net, send, [status] + ([envelope] + []));
        steps, e := [send] + ([status] + ([envelope] + [])), Exchange(x, y, 0, 1, 0, 2);
    }
  }

  /** On concurrent versions a lone exchange updates only the node that started it. */
  lemma OneIsNotEnough(net: Net, x: string, y: string)
    requires Inv(net) && x in net.versions && y in net.versions && x != y
    requires Related(net.versions[y], net.versions[x]) == Concurrent
    ensures var v, w := net.versions[x], net.versions[y];
            var steps := [Send(x, y), Deliver(Packet(y, Status(x, v))), Deliver(Packet(x, Envelope(y, w)))];
            IsRun(net, steps) && Gossip.After(net, steps).versions == net.versions[x := Join(v, w)] && Join(v, w) != w
  {
    hide Leq, Join, Inv;
    var v, w := net.versions[x], net.versions[y];
    var s1, s2, s3 := Send(x, y), Deliver(Packet(y, Status(x, v))), Deliver(Packet(x, Envelope(y, w)));
    var n1 := Next(net, s1);
    var n2 := Next(n1, s2);
    assert n2.versions == net.versions;
    assert Packet(x, Envelope(y, w)) in n2.wire;
    var n3 := Next(n2, s3);
    assert [s1, s2, s3][1..] == [s2, s3] && [s2, s3][1..] == [s3] && [s3][1..] == [];
    assert IsRun(n2, [s3]) && IsRun(n1, [s2, s3]) && IsRun(net, [s1, s2, s3]);
    assert Gossip.After(net, [s1, s2, s3]) == Gossip.After(n1, [s2, s3]) == Gossip.After(n2, [s3]) == n3;
    JoinIsLeastUpperBound(v, w, w);
  }
}

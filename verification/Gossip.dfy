/** The gossip exchange: what nodes send and do, and where their versions end up. */
module Gossip {
  import opened Prelude
  import opened VectorClocks

  /** The protocol messages; the membership state an envelope carries is not modelled. */
  datatype Pdu =
    | Status(from: string, version: Clock)
    | Envelope(from: string, version: Clock)
    | MergeRequest(from: string, version: Clock)

  datatype Packet = Packet(to: string, pdu: Pdu)

  /** What a node sends in answer to a message. */
  ghost function Replies(self: string, version: Clock, pdu: Pdu): seq<Packet>
  {
    match pdu
    case Status(from, their) =>
      (match Related(version, their)
       case Same => []
       case Before => [Packet(from, MergeRequest(self, version))]
       case _ => [Packet(from, Envelope(self, version))])
    case Envelope(_, _) => []
    case MergeRequest(from, _) => [Packet(from, Envelope(self, version))]
  }

  function Updated(version: Clock, pdu: Pdu): Clock
  {
    if pdu.Envelope? then Join(version, pdu.version) else version
  }

  /**
   * Who says what: a status is answered with a request exactly when the other side knows strictly
   * more, with the own version when it misses something, and not at all when the two are equal; a
   * request is always answered, an envelope never.
   */
  lemma WhoAnswers(self: string, version: Clock, pdu: Pdu)
    ensures var out := Replies(self, version, pdu); var their := pdu.version;
            match pdu
            case Status(from, _) =>
              (out == [] <==> forall n: string :: At(version, n) == At(their, n)) &&
              (out == [Packet(from, MergeRequest(self, version))] <==>
               (forall n: string :: At(version, n) <= At(their, n)) &&
               exists n: string :: At(version, n) < At(their, n)) &&
              (out == [Packet(from, Envelope(self, version))] <==>
               exists n: string :: At(version, n) > At(their, n)) && |out| <= 1
            case MergeRequest(from, _) => out == [Packet(from, Envelope(self, version))]
            case Envelope(_, _) => out == []
  {
    if !Leq(version, pdu.version) {
      var n: string :| At(version, n) > At(pdu.version, n);
    }
    if !Leq(pdu.version, version) {
      var n: string :| At(version, n) < At(pdu.version, n);
    }
  }

  /** Only an envelope changes what a node knows: it then knows what either knew, component by component. */
  lemma WhatIsLearnt(version: Clock, pdu: Pdu, n: string)
    ensures At(Updated(version, pdu), n) ==
            if pdu.Envelope? then Max(At(version, n), At(pdu.version, n)) else At(version, n)
  {}

  /** The peer looked at after `offset` steps from the cursor. */
  function PeerAt(peers: seq<string>, cursor: nat, offset: nat): string
    requires peers != []
  {
    peers[(cursor + offset) % |peers|]
  }

  /** The walk starts at the cursor and takes the peers in order, from the last on to the first. */
  lemma PeersInOrder(peers: seq<string>, cursor: nat, offset: nat)
    requires peers != []
    ensures cursor < |peers| ==> PeerAt(peers, cursor, 0) == peers[cursor]
    ensures var i := (cursor + offset) % |peers|;
            PeerAt(peers, cursor, offset + 1) == peers[if i + 1 == |peers| then 0 else i + 1]
  {
    StepAround(cursor + offset, |peers|);
  }

  lemma StepAround(at: nat, n: nat)
    requires n > 0
    ensures (at + 1) % n == if at % n + 1 == n then 0 else at % n + 1
  {
    var q, i := at / n, at % n;
    assert at == q * n + i;
    if i + 1 == n {
      assert (q + 1) * n == q * n + n;
      RemainderIsUnique(at + 1, n, q + 1, 0);
    } else {
      RemainderIsUnique(at + 1, n, q, i + 1);
    }
  }

  /** After `offset` steps comes `p`, and only the node itself before. */
  predicate OtherAt(peers: seq<string>, self: string, cursor: nat, offset: nat, p: string)
    requires peers != []
  {
    PeerAt(peers, cursor, offset) == p != self && forall i :: 0 <= i < offset ==> PeerAt(peers, cursor, i) == self
  }

  /** The first peer from the cursor onwards that is not the node itself. */
  ghost predicate FirstOther(peers: seq<string>, self: string, cursor: nat, p: string)
  {
    peers != [] && exists offset: nat :: OtherAt(peers, self, cursor, offset, p)
  }

  lemma FirstOtherIsUnique(peers: seq<string>, self: string, cursor: nat, p: string, q: string)
    requires FirstOther(peers, self, cursor, p) && FirstOther(peers, self, cursor, q)
    ensures p == q
  {
    hide PeerAt;
    var i: nat :| OtherAt(peers, self, cursor, i, p);
    var j: nat :| OtherAt(peers, self, cursor, j, q);
  }

  /** The next peer from the cursor onwards, cyclically, that is not the node itself. */
  method PickTarget(peers: seq<string>, self: string, cursor: nat) returns (target: Option<string>)
    ensures target.None? <==> forall i :: 0 <= i < |peers| ==> peers[i] == self
    ensures target.Some? ==> target.value in peers && FirstOther(peers, self, cursor, target.value)
  {
    if peers == [] {
      return None;
    }
    for offset := 0 to |peers|
      invariant forall i :: 0 <= i < offset ==> PeerAt(peers, cursor, i) == self
    {
      var p := PeerAt(peers, cursor, offset);
      if p != self {
        assert OtherAt(peers, self, cursor, offset, p);
        return Some(p);
      }
    }
    forall i | 0 <= i < |peers|
      ensures peers[i] == self
    {
      var offset := Wraps(cursor, |peers|, i);
      assert PeerAt(peers, cursor, offset) == self;
    }
    return None;
  }

  /** Every index is reached within one round. */
  lemma Wraps(cursor: nat, total: nat, i: nat) returns (offset: nat)
    requires i < total
    ensures offset < total && (cursor + offset) % total == i
  {
    var c, q := cursor % total, cursor / total;
    assert cursor == q * total + c;
    if i >= c {
      offset := i - c;
      RemainderIsUnique(cursor + offset, total, q, i);
    } else {
      offset := i + total - c;
      assert (q + 1) * total == q * total + total;
      RemainderIsUnique(cursor + offset, total, q + 1, i);
    }
  }

  class Daemon {
    const self: string
    var version: Clock
    var cursor: nat

    constructor (self: string)
      ensures this.self == self && version == map[] && cursor == 0
    {
      this.self, version, cursor := self, map[], 0;
    }

    /** A join, leave or down that changed the membership. */
    method LocalChange()
      modifies this
      ensures version == Ticked(old(version), self) && cursor == old(cursor)
    {
      version := version[self := (if self in version then version[self] else 0) + 1];
    }

    /** A periodic tick: leader actions and downing may each have changed the membership, then a status goes out. */
    method DoTick(mutated: bool, downed: bool, peers: seq<string>) returns (sent: seq<Packet>)
      modifies this
      ensures version == (var v := if mutated then Ticked(old(version), self) else old(version);
                          if downed then Ticked(v, self) else v)
      ensures sent == [] <==> forall i :: 0 <= i < |peers| ==> peers[i] == self
      ensures sent != [] ==> |sent| == 1 && sent[0].pdu == Status(self, version) &&
                             sent[0].to in peers && FirstOther(peers, self, old(cursor), sent[0].to)
      ensures cursor == old(cursor) + |sent|
    {
      if mutated {
        LocalChange();
      }
      if downed {
        LocalChange();
      }
      var target := PickTarget(peers, self, cursor);
      if target.None? {
        return [];
      }
      sent := [Packet(target.value, Status(self, version))];
      cursor := cursor + 1;
    }

    method Handle(pdu: Pdu) returns (sent: seq<Packet>)
      modifies this
      ensures version == Updated(old(version), pdu) && sent == Replies(self, old(version), pdu) && cursor == old(cursor)
    {
      match pdu {
        case Status(from, their) =>
          var relation := Compare(version, their);
          match relation {
            case Same => sent := [];
            case Before => sent := [Packet(from, MergeRequest(self, version))];
            case _ => sent := [Packet(from, Envelope(self, version))];
          }
        case Envelope(_, their) =>
          version := Merge(version, their);
          sent := [];
        case MergeRequest(from, _) =>
          sent := [Packet(from, Envelope(self, version))];
      }
    }
  }

  // ----- the cluster ----------------------------------------------------------

  /** Every packet ever sent stays deliverable: loss, duplication and reordering are all runs. */
  datatype Net = Net(versions: map<string, Clock>, wire: set<Packet>)

  datatype Step = Change(node: string) | Send(node: string, to: string) | Deliver(packet: Packet)

  predicate Enabled(net: Net, step: Step)
  {
    match step
    case Change(n) => n in net.versions
    case Send(n, _) => n in net.versions
    case Deliver(p) => p in net.wire && p.to in net.versions
  }

  ghost function Next(net: Net, step: Step): Net
    requires Enabled(net, step)
  {
    match step
    case Change(n) => net.(versions := net.versions[n := Ticked(net.versions[n], n)])
    case Send(n, to) => net.(wire := net.wire + {Packet(to, Status(n, net.versions[n]))})
    case Deliver(p) =>
      var v := net.versions[p.to];
      Net(net.versions[p.to := Updated(v, p.pdu)], net.wire + (set r | r in Replies(p.to, v, p.pdu)))
  }

  /** The component a node counts itself, zero for a name that is not a node. */
  function Own(net: Net, n: string): nat
  {
    if n in net.versions then At(net.versions[n], n) else 0
  }

  /** Nobody is ahead of a node about that node. */
  ghost predicate Informed(net: Net, c: Clock)
  {
    forall n: string :: At(c, n) <= Own(net, n)
  }

  ghost predicate PacketOk(net: Net, p: Packet)
  {
    p.pdu.from in net.versions && Proper(p.pdu.version) && Leq(p.pdu.version, net.versions[p.pdu.from])
  }

  ghost predicate NodeOk(net: Net, n: string)
    requires n in net.versions
  {
    Proper(net.versions[n]) && Informed(net, net.versions[n])
  }

  ghost predicate Inv(net: Net)
  {
    (forall n :: n in net.versions ==> NodeOk(net, n)) && (forall p :: p in net.wire ==> PacketOk(net, p))
  }

  /** Versions only go up. */
  ghost predicate Grows(a: Net, b: Net)
  {
    a.versions.Keys == b.versions.Keys && forall n :: n in a.versions ==> Leq(a.versions[n], b.versions[n])
  }

  lemma GrowsTransitive(a: Net, b: Net, c: Net)
    requires Grows(a, b) && Grows(b, c)
    ensures Grows(a, c)
  {
    hide Leq;
    forall n | n in a.versions
      ensures Leq(a.versions[n], c.versions[n])
    {
      LeqTransitive(a.versions[n], b.versions[n], c.versions[n]);
    }
  }

  lemma OwnGrows(a: Net, b: Net, c: Clock)
    requires Grows(a, b) && Informed(a, c)
    ensures Informed(b, c)
  {
    forall n: string
      ensures At(c, n) <= Own(b, n)
    {
      assert At(c, n) <= Own(a, n);
      if n in a.versions {
        assert Leq(a.versions[n], b.versions[n]);
      }
    }
  }

  lemma PacketKept(a: Net, b: Net, p: Packet)
    requires Grows(a, b) && PacketOk(a, p)
    ensures PacketOk(b, p)
  {
    hide Leq, Proper;
    LeqTransitive(p.pdu.version, a.versions[p.pdu.from], b.versions[p.pdu.from]);
  }

  /** Replacing one version by a greater, informed one keeps every other node and packet in order. */
  lemma RaiseKeeps(net: Net, next: Net, n: string, c: Clock)
    requires Inv(net) && n in net.versions && next.versions == net.versions[n := c] && Leq(net.versions[n], c)
    requires Proper(c) && Informed(next, c)
    requires forall p :: p in next.wire ==> p in net.wire || PacketOk(next, p)
    ensures Inv(next) && Grows(net, next)
  {
    hide Leq, Proper, Informed, PacketOk;
    assert Grows(net, next) by {
      forall m | m in net.versions
        ensures Leq(net.versions[m], next.versions[m])
      {
        LeqReflexive(net.versions[m]);
      }
    }
    forall m | m in next.versions
      ensures NodeOk(next, m)
    {
      if m != n {
        assert NodeOk(net, m);
        OwnGrows(net, next, net.versions[m]);
      }
    }
    forall p | p in next.wire
      ensures PacketOk(next, p)
    {
      if p in net.wire {
        PacketKept(net, next, p);
      }
    }
  }

  lemma LeqReflexive(c: Clock)
    ensures Leq(c, c)
  {}

  lemma ChangeKeeps(net: Net, n: string)
    requires Inv(net) && n in net.versions
    ensures Inv(Next(net, Change(n))) && Grows(net, Next(net, Change(n)))
  {
    var c := Ticked(net.versions[n], n);
    var next := Next(net, Change(n));
    assert NodeOk(net, n);
    ProperKept(net.versions[n], net.versions[n], n);
    TickIsAfter(net.versions[n], n);
    assert Leq(net.versions[n], c);
    forall m: string
      ensures At(c, m) <= Own(next, m)
    {
      assert At(net.versions[n], m) <= Own(net, m);
    }
    RaiseKeeps(net, next, n, c);
  }

  lemma SendKeeps(net: Net, n: string, to: string)
    requires Inv(net) && n in net.versions
    ensures Inv(Next(net, Send(n, to))) && Grows(net, Next(net, Send(n, to)))
  {
    hide Leq, Proper, Informed;
    var next := Next(net, Send(n, to));
    assert NodeOk(net, n);
    LeqReflexive(net.versions[n]);
    assert next.versions == net.versions[n := net.versions[n]];
    InformedSame(net, next, net.versions[n]);
    RaiseKeeps(net, next, n, net.versions[n]);
  }

  lemma InformedSame(a: Net, b: Net, c: Clock)
    requires a.versions == b.versions && Informed(a, c)
    ensures Informed(b, c)
  {
    forall n: string
      ensures At(c, n) <= Own(b, n)
    {
      assert Own(a, n) == Own(b, n);
    }
  }

  /** A received version is informed, because its sender is. */
  lemma PacketInformed(net: Net, p: Packet)
    requires Inv(net) && p in net.wire
    ensures Informed(net, p.pdu.version)
  {
    assert PacketOk(net, p) && NodeOk(net, p.pdu.from);
    forall n: string
      ensures At(p.pdu.version, n) <= Own(net, n)
    {
      assert At(p.pdu.version, n) <= At(net.versions[p.pdu.from], n) <= Own(net, n);
    }
  }

  lemma JoinInformed(net: Net, a: Clock, b: Clock)
    requires Informed(net, a) && Informed(net, b)
    ensures Informed(net, Join(a, b))
  {
    forall n: string
      ensures At(Join(a, b), n) <= Own(net, n)
    {
      JoinAt(a, b, n);
    }
  }

  lemma DeliverKeeps(net: Net, p: Packet)
    requires Inv(net) && p in net.wire && p.to in net.versions
    ensures Inv(Next(net, Deliver(p))) && Grows(net, Next(net, Deliver(p)))
  {
    hide Leq, Proper, Informed, Join, Related, Own;
    var v := net.versions[p.to];
    var c := Updated(v, p.pdu);
    var next := Next(net, Deliver(p));
    assert NodeOk(net, p.to) && PacketOk(net, p);
    LeqReflexive(v);
    JoinIsLeastUpperBound(v, p.pdu.version, v);
    ProperKept(v, p.pdu.version, "");
    PacketInformed(net, p);
    JoinInformed(net, v, p.pdu.version);
    assert Informed(net, c) && Leq(v, c) && Proper(c);
    InformedRaised(net, next, p.to, c);
    RaiseKeeps(net, next, p.to, c);
  }

  lemma InformedRaised(net: Net, next: Net, n: string, c: Clock)
    requires n in net.versions && next.versions == net.versions[n := c] && Leq(net.versions[n], c) && Informed(net, c)
    ensures Informed(next, c)
  {
    forall m: string
      ensures At(c, m) <= Own(next, m)
    {
      assert At(c, m) <= Own(net, m);
    }
  }

  lemma NextKeeps(net: Net, step: Step)
    requires Inv(net) && Enabled(net, step)
    ensures Inv(Next(net, step)) && Grows(net, Next(net, step))
  {
    match step {
      case Change(n) => ChangeKeeps(net, n);
      case Send(n, to) => SendKeeps(net, n, to);
      case Deliver(p) => DeliverKeeps(net, p);
    }
  }

  // ----- runs -----------------------------------------------------------------

  ghost predicate IsRun(net: Net, steps: seq<Step>)
    decreases |steps|
  {
    steps == [] || (Enabled(net, steps[0]) && IsRun(Next(net, steps[0]), steps[1..]))
  }

  ghost function After(net: Net, steps: seq<Step>): Net
    requires IsRun(net, steps)
    decreases |steps|
  {
    if steps == [] then net else After(Next(net, steps[0]), steps[1..])
  }

  lemma {:induction false} RunSplits(net: Net, steps: seq<Step>, i: nat)
    requires IsRun(net, steps) && i <= |steps|
    ensures IsRun(net, steps[..i]) && IsRun(After(net, steps[..i]), steps[i..])
    ensures After(net, steps) == After(After(net, steps[..i]), steps[i..])
    decreases i
  {
    if i > 0 {
      RunSplits(Next(net, steps[0]), steps[1..], i - 1);
      assert steps[1..][..i - 1] == steps[..i][1..];
      assert steps[1..][i - 1..] == steps[i..];
    } else {
      assert steps[..0] == [] && steps[0..] == steps;
    }
  }

  /** In every run the invariant is kept and every version grows. */
  lemma {:induction false} RunKeeps(net: Net, steps: seq<Step>)
    requires Inv(net) && IsRun(net, steps)
    ensures Inv(After(net, steps)) && Grows(net, After(net, steps))
    decreases |steps|
  {
    hide Inv, Next, Leq;
    if steps != [] {
      NextKeeps(net, steps[0]);
      RunKeeps(Next(net, steps[0]), steps[1..]);
      GrowsTransitive(net, Next(net, steps[0]), After(net, steps));
    } else {
      forall n | n in net.versions
        ensures Leq(net.versions[n], net.versions[n])
      {
        LeqReflexive(net.versions[n]);
      }
    }
  }

  /** A cluster before anything happened. */
  function Fresh(nodes: set<string>): Net
  {
    Net(map n | n in nodes :: map[], {})
  }

  lemma FreshOk(nodes: set<string>)
    ensures Inv(Fresh(nodes))
  {}

  /** The state before step `i`. */
  ghost function StateAt(net: Net, steps: seq<Step>, i: nat): Net
    requires IsRun(net, steps) && i <= |steps|
  {
    RunSplits(net, steps, i);
    After(net, steps[..i])
  }

  /**
   * In every run of every cluster versions never decrease, and no node and no packet holds a
   * component for a node above that node's own.
   */
  lemma EveryRunIsInformed(nodes: set<string>, steps: seq<Step>, i: nat, j: nat)
    requires IsRun(Fresh(nodes), steps) && i <= j <= |steps|
    ensures var a, b := StateAt(Fresh(nodes), steps, i), StateAt(Fresh(nodes), steps, j);
            Grows(a, b) && (forall n :: n in b.versions ==> Informed(b, b.versions[n])) &&
            (forall p :: p in b.wire ==> Informed(b, p.pdu.version))
  {
    hide Leq, Informed, Next, Proper;
    var net := Fresh(nodes);
    FreshOk(nodes);
    Between(net, steps, i, j);
    var b := StateAt(net, steps, j);
    RunSplits(net, steps, j);
    RunKeeps(net, steps[..j]);
    forall n | n in b.versions
      ensures Informed(b, b.versions[n])
    {
      assert NodeOk(b, n);
    }
    forall p | p in b.wire
      ensures Informed(b, p.pdu.version)
    {
      PacketInformed(b, p);
    }
  }

  /** Versions grow between any two points of a run. */
  lemma Between(net: Net, steps: seq<Step>, i: nat, j: nat)
    requires Inv(net) && IsRun(net, steps) && i <= j <= |steps|
    ensures Inv(StateAt(net, steps, i)) && Grows(StateAt(net, steps, i), StateAt(net, steps, j))
  {
    hide Inv, Next, Leq, Grows;
    RunSplits(net, steps, j);
    RunSplits(net, steps[..j], i);
    assert steps[..j][..i] == steps[..i];
    RunKeeps(net, steps[..i]);
    RunKeeps(After(net, steps[..i]), steps[..j][i..]);
  }

  lemma StepAt(net: Net, steps: seq<Step>, i: nat)
    requires IsRun(net, steps) && i < |steps|
    ensures Enabled(StateAt(net, steps, i), steps[i]) &&
            StateAt(net, steps, i + 1) == Next(StateAt(net, steps, i), steps[i])
  {
    hide Next, Enabled;
    RunSplits(net, steps, i + 1);
    RunSplits(net, steps[..i + 1], i);
    assert steps[..i + 1][..i] == steps[..i];
    assert steps[..i + 1][i..] == [steps[i]];
    assert [steps[i]][1..] == [];
  }
}

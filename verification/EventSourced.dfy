/** Event-sourced actors: persist, snapshot and recover, over a journal and a snapshot store. */
module EventSourced {
  import opened Prelude

  datatype Repr<B> = Repr(sequenceNr: nat, payload: B)

  datatype Snap<B> = Snap(sequenceNr: nat, payload: B)

  datatype Effect<E, V> =
    | Persist(events: seq<E>)
    | SaveNow
    | Every(count: int)
    | Reply(value: V)
    | Stop
    | Nothing

  /** What a subclass supplies: its handlers and its codecs, which may refuse a value. */
  datatype Behaviour<!S, !E, !B> = Behaviour(
    initial: S,
    handler: (S, E, bool) -> S,
    encodeEvent: E -> Option<B>,
    decodeEvent: B -> Option<E>,
    encodeState: S -> Option<B>,
    decodeState: B -> Option<S>)

  /** How an instance is set up: whether it has a snapshot store, and its configured cadence. */
  datatype Setup = Setup(hasStore: bool, every: Option<int>)

  /** An instance together with the stores it writes. */
  datatype Actor<S, B> = Actor(
    journal: seq<Repr<B>>,
    snaps: seq<Snap<B>>,
    state: S,
    sequenceNr: nat,
    lastSnapshot: nat,
    every: Option<int>)

  /** An operation either completes or raises, having changed what it changed by then. */
  datatype Outcome<S, B> = Outcome(actor: Actor<S, B>, ok: bool)

  function Expected<B>(journal: seq<Repr<B>>): nat
  {
    if journal == [] then 1 else journal[|journal| - 1].sequenceNr + 1
  }

  function SaveSnapshot<S, E, B>(b: Behaviour<S, E, B>, setup: Setup, a: Actor<S, B>): Outcome<S, B>
  {
    if !setup.hasStore then Outcome(a, true)
    else match b.encodeState(a.state)
      case None => Outcome(a, false)
      case Some(blob) => Outcome(a.(snaps := a.snaps + [Snap(a.sequenceNr, blob)], lastSnapshot := a.sequenceNr), true)
  }

  /** The cadence calls for a snapshot at number `n` when the last one was taken at `last`. */
  predicate DueAt(setup: Setup, every: Option<int>, last: nat, n: nat)
  {
    every.Some? && every.value != 0 && setup.hasStore && n as int - last as int >= every.value
  }

  predicate Due<S, B>(setup: Setup, a: Actor<S, B>)
  {
    DueAt(setup, a.every, a.lastSnapshot, a.sequenceNr)
  }

  /** One event: the number is taken before the write, which `fault` or the numbering may refuse. */
  function PersistOne<S, E, B>(b: Behaviour<S, E, B>, setup: Setup, a: Actor<S, B>, event: E,
                               fault: nat -> bool): Outcome<S, B>
  {
    match b.encodeEvent(event)
    case None => Outcome(a, false)
    case Some(blob) =>
      var n := a.sequenceNr + 1;
      if fault(n) || n != Expected(a.journal) then Outcome(a.(sequenceNr := n), false)
      else
        var written := a.(sequenceNr := n, journal := a.journal + [Repr(n, blob)],
                          state := b.handler(a.state, event, false));
        if Due(setup, written) then SaveSnapshot(b, setup, written) else Outcome(written, true)
  }

  function PersistAll<S, E, B>(b: Behaviour<S, E, B>, setup: Setup, a: Actor<S, B>, events: seq<E>,
                               fault: nat -> bool): Outcome<S, B>
    decreases |events|
  {
    if events == [] then Outcome(a, true)
    else
      var first := PersistOne(b, setup, a, events[0], fault);
      if first.ok then PersistAll(b, setup, first.actor, events[1..], fault) else first
  }

  function ApplyOne<S, E, B, V>(b: Behaviour<S, E, B>, setup: Setup, a: Actor<S, B>, effect: Effect<E, V>,
                                fault: nat -> bool): Outcome<S, B>
  {
    match effect
    case Persist(events) => PersistAll(b, setup, a, events, fault)
    case SaveNow => SaveSnapshot(b, setup, a)
    case Every(count) => Outcome(a.(every := if count > 0 then Some(count) else None), true)
    case _ => Outcome(a, true)
  }

  function ApplyAll<S, E, B, V>(b: Behaviour<S, E, B>, setup: Setup, a: Actor<S, B>, effects: seq<Effect<E, V>>,
                                fault: nat -> bool): Outcome<S, B>
    decreases |effects|
  {
    if effects == [] then Outcome(a, true)
    else
      var first := ApplyOne(b, setup, a, effects[0], fault);
      if first.ok then ApplyAll(b, setup, first.actor, effects[1..], fault) else first
  }

  function LastReply<E, V>(effects: seq<Effect<E, V>>): Option<V>
  {
    if effects == [] then None
    else if effects[|effects| - 1].Reply? then Some(effects[|effects| - 1].value)
    else LastReply(effects[..|effects| - 1])
  }

  lemma {:induction false} PersistKeepsEvery<S, E, B>(b: Behaviour<S, E, B>, setup: Setup, a: Actor<S, B>,
                                                      events: seq<E>, fault: nat -> bool)
    ensures PersistAll(b, setup, a, events, fault).actor.every == a.every
    decreases |events|
  {
    if events != [] {
      var first := PersistOne(b, setup, a, events[0], fault);
      if first.ok {
        PersistKeepsEvery(b, setup, first.actor, events[1..], fault);
      }
    }
  }

  /** The cadence effect after which no other comes stands at position `i`. */
  predicate LastEvery<E, V>(effects: seq<Effect<E, V>>, i: nat)
  {
    i < |effects| && effects[i].Every? && forall j :: i < j < |effects| ==> !effects[j].Every?
  }

  /**
   * The cadence after a command that completes: the last one asked for, where zero and less mean
   * none, or the one before when none is asked for.
   */
  lemma {:induction false} LastCadenceHolds<S, E, B, V>(b: Behaviour<S, E, B>, setup: Setup, a: Actor<S, B>,
      effects: seq<Effect<E, V>>, fault: nat -> bool)
    requires ApplyAll(b, setup, a, effects, fault).ok
    ensures var every := ApplyAll(b, setup, a, effects, fault).actor.every;
            ((forall i :: 0 <= i < |effects| ==> !effects[i].Every?) ==> every == a.every) &&
            forall i: nat :: LastEvery(effects, i) ==>
              every == if effects[i].count >= 1 then Some(effects[i].count) else None
    decreases |effects|
  {
    hide PersistAll;
    if effects != [] {
      var first, rest := ApplyOne(b, setup, a, effects[0], fault).actor, effects[1..];
      if effects[0].Persist? {
        PersistKeepsEvery(b, setup, a, effects[0].events, fault);
      }
      LastCadenceHolds(b, setup, first, rest, fault);
      forall i: nat | LastEvery(effects, i)
        ensures i == 0 ==> forall j :: 0 <= j < |rest| ==> !rest[j].Every?
        ensures i > 0 ==> LastEvery(rest, i - 1)
      {
        if i == 0 {
          assert forall j :: 0 <= j < |rest| ==> rest[j] == effects[j + 1];
        }
      }
    }
  }

  /** The reply after which no other comes, or none when no effect replies. */
  lemma {:induction false} LastReplyIsLast<E, V>(effects: seq<Effect<E, V>>)
    ensures LastReply(effects).None? <==> forall i :: 0 <= i < |effects| ==> !effects[i].Reply?
    ensures LastReply(effects).Some? ==>
              exists i :: 0 <= i < |effects| && effects[i] == Reply(LastReply(effects).value) &&
                forall j :: i < j < |effects| ==> !effects[j].Reply?
  {
    if effects != [] {
      var n := |effects| - 1;
      if effects[n].Reply? {
        assert effects[n] == Reply(LastReply(effects).value);
      } else {
        var front := effects[..n];
        LastReplyIsLast(front);
        if LastReply(front).Some? {
          var i :| 0 <= i < |front| && front[i] == Reply(LastReply(front).value) &&
                   forall j :: i < j < |front| ==> !front[j].Reply?;
          assert effects[i] == Reply(LastReply(effects).value);
        }
        assert forall i :: 0 <= i < n ==> effects[i] == front[i];
      }
    }
  }

  // ----- recovery -------------------------------------------------------------

  datatype Recovered<S> = Recovered(state: S, sequenceNr: nat, lastSnapshot: nat)

  /** The events of a stream from a number onwards. */
  function From<B>(journal: seq<Repr<B>>, from: nat): seq<Repr<B>>
  {
    if journal == [] then []
    else
      var last := journal[|journal| - 1];
      From(journal[..|journal| - 1], from) + if last.sequenceNr >= from then [last] else []
  }

  function Base<S, E, B>(b: Behaviour<S, E, B>, setup: Setup, snaps: seq<Snap<B>>): Option<Recovered<S>>
  {
    if !setup.hasStore || snaps == [] then Some(Recovered(b.initial, 0, 0))
    else
      var snap := snaps[|snaps| - 1];
      match b.decodeState(snap.payload)
      case None => None
      case Some(state) => Some(Recovered(state, snap.sequenceNr, snap.sequenceNr))
  }

  function Replay<S, E, B>(b: Behaviour<S, E, B>, start: Recovered<S>, events: seq<Repr<B>>): Option<Recovered<S>>
  {
    if events == [] then Some(start)
    else
      var last := events[|events| - 1];
      match Replay(b, start, events[..|events| - 1])
      case None => None
      case Some(r) =>
        match b.decodeEvent(last.payload)
        case None => None
        case Some(event) =>
          Some(Recovered(b.handler(r.state, event, true), Max(r.sequenceNr, last.sequenceNr), r.lastSnapshot))
  }

  /** What `pre_start` of a new instance rebuilds; `None` when a blob does not decode. */
  function Recover<S, E, B>(b: Behaviour<S, E, B>, setup: Setup, journal: seq<Repr<B>>,
                            snaps: seq<Snap<B>>): Option<Recovered<S>>
  {
    match Base(b, setup, snaps)
    case None => None
    case Some(start) => Replay(b, start, From(journal, start.sequenceNr + 1))
  }

  // ----- the stores and the actor as objects ----------------------------------

  class InMemoryJournal<B> {
    var streams: map<string, seq<Repr<B>>>

    constructor ()
      ensures streams == map[]
    {
      streams := map[];
    }

    function Stream(pid: string): seq<Repr<B>>
      reads this
    {
      if pid in streams then streams[pid] else []
    }

    method WriteEvent(pid: string, sequenceNr: nat, payload: B, fault: bool) returns (ok: bool)
      modifies this
      ensures ok <==> !fault && sequenceNr == Expected(old(Stream(pid)))
      ensures Stream(pid) == old(Stream(pid)) + if ok then [Repr(sequenceNr, payload)] else []
      ensures forall other :: other != pid ==> Stream(other) == old(Stream(other))
    {
      if fault {
        return false;
      }
      if pid !in streams {
        streams := streams[pid := []];
      }
      var entry := streams[pid];
      if sequenceNr != Expected(entry) {
        return false;
      }
      streams := streams[pid := entry + [Repr(sequenceNr, payload)]];
      return true;
    }

    method ReplayEvents(pid: string, from: nat) returns (events: seq<Repr<B>>)
      ensures events == From(Stream(pid), from)
    {
      var stream := Stream(pid);
      events := [];
      for i := 0 to |stream|
        invariant events == From(stream[..i], from)
      {
        assert stream[..i + 1][..i] == stream[..i];
        if stream[i].sequenceNr >= from {
          events := events + [stream[i]];
        }
      }
      assert stream[..|stream|] == stream;
    }
  }

  class InMemorySnapshotStore<B> {
    var snapshots: map<string, seq<Snap<B>>>

    constructor ()
      ensures snapshots == map[]
    {
      snapshots := map[];
    }

    function Entries(pid: string): seq<Snap<B>>
      reads this
    {
      if pid in snapshots then snapshots[pid] else []
    }

    method Save(pid: string, snap: Snap<B>)
      modifies this
      ensures Entries(pid) == old(Entries(pid)) + [snap]
      ensures forall other :: other != pid ==> Entries(other) == old(Entries(other))
    {
      snapshots := snapshots[pid := Entries(pid) + [snap]];
    }

    method Load(pid: string) returns (snap: Option<Snap<B>>)
      ensures snap == if Entries(pid) == [] then None else Some(Entries(pid)[|Entries(pid)| - 1])
    {
      var entries := Entries(pid);
      return if entries == [] then None else Some(entries[|entries| - 1]);
    }
  }

  class EventSourcedActor<!S, !E, !B> {
    const behaviour: Behaviour<S, E, B>
    const pid: string
    const journal: InMemoryJournal<B>
    const store: InMemorySnapshotStore?<B>
    const configured: Option<int>
    var state: S
    var sequenceNr: nat
    var lastSnapshot: nat
    var every: Option<int>

    ghost function Snapshots(): seq<Snap<B>>
      reads store
    {
      if store == null then [] else store.Entries(pid)
    }

    ghost function View(): Actor<S, B>
      reads this, journal, store
    {
      Actor(journal.Stream(pid), Snapshots(), state, sequenceNr, lastSnapshot, every)
    }

    ghost function Config(): Setup
    {
      Setup(store != null, configured)
    }

    constructor (behaviour: Behaviour<S, E, B>, pid: string, journal: InMemoryJournal<B>,
                 store: InMemorySnapshotStore?<B>, every: Option<int>)
      ensures this.behaviour == behaviour && this.pid == pid && this.journal == journal
      ensures this.store == store && this.configured == every
      ensures View() == Actor(journal.Stream(pid), Snapshots(), behaviour.initial, 0, 0, every)
    {
      this.behaviour, this.pid, this.journal, this.store := behaviour, pid, journal, store;
      this.configured := every;
      state, sequenceNr, lastSnapshot, this.every := behaviour.initial, 0, 0, every;
    }

    method TakeSnapshot() returns (ok: bool)
      modifies this, store
      ensures Outcome(View(), ok) == SaveSnapshot(behaviour, Config(), old(View()))
    {
      if store == null {
        return true;
      }
      var blob := behaviour.encodeState(state);
      if blob.None? {
        return false;
      }
      store.Save(pid, Snap(sequenceNr, blob.value));
      lastSnapshot := sequenceNr;
      return true;
    }

    /** The body of the persist loop. */
    method PersistEvent(event: E, fault: nat -> bool) returns (ok: bool)
      modifies this, journal, store
      ensures Outcome(View(), ok) == PersistOne(behaviour, Config(), old(View()), event, fault)
    {
      hide SaveSnapshot;
      var blob := behaviour.encodeEvent(event);
      if blob.None? {
        return false;
      }
      sequenceNr := sequenceNr + 1;
      var written := journal.WriteEvent(pid, sequenceNr, blob.value, fault(sequenceNr));
      if !written {
        return false;
      }
      state := behaviour.handler(state, event, false);
      if every.Some? && every.value != 0 && store != null && sequenceNr as int - lastSnapshot as int >= every.value {
        ok := TakeSnapshot();
      } else {
        ok := true;
      }
    }

    method PersistEvents(events: seq<E>, fault: nat -> bool) returns (ok: bool)
      modifies this, journal, store
      ensures Outcome(View(), ok) == PersistAll(behaviour, Config(), old(View()), events, fault)
    {
      hide PersistOne;
      for i := 0 to |events|
        invariant PersistAll(behaviour, Config(), old(View()), events, fault) ==
                  PersistAll(behaviour, Config(), View(), events[i..], fault)
      {
        assert events[i..][0] == events[i] && events[i..][1..] == events[i + 1..];
        ok := PersistEvent(events[i], fault);
        if !ok {
          return;
        }
      }
      ok := true;
    }

    method ApplyEffects<V>(effects: seq<Effect<E, V>>, fault: nat -> bool)
      returns (ok: bool, reply: Option<V>, stop: bool)
      modifies this, journal, store
      ensures Outcome(View(), ok) == ApplyAll(behaviour, Config(), old(View()), effects, fault)
      ensures ok ==> reply == LastReply(effects) && (stop <==> Effect.Stop in effects)
    {
      hide PersistAll, SaveSnapshot;
      reply, stop := None, false;
      for i := 0 to |effects|
        invariant ApplyAll(behaviour, Config(), old(View()), effects, fault) ==
                  ApplyAll(behaviour, Config(), View(), effects[i..], fault)
        invariant reply == LastReply(effects[..i]) && (stop <==> Effect.Stop in effects[..i])
      {
        assert effects[i..][0] == effects[i] && effects[i..][1..] == effects[i + 1..];
        assert effects[..i + 1] == effects[..i] + [effects[i]] && effects[..i + 1][..i] == effects[..i];
        match effects[i] {
          case Persist(events) =>
            ok := PersistEvents(events, fault);
            if !ok {
              return;
            }
          case SaveNow =>
            ok := TakeSnapshot();
            if !ok {
              return;
            }
          case Every(count) =>
            every := if count > 0 then Some(count) else None;
          case Reply(value) =>
            reply := Some(value);
          case Stop =>
            stop := true;
          case Nothing =>
        }
      }
      assert effects[..|effects|] == effects;
      ok := true;
    }

    /** Start of recovery: the latest snapshot, if there is one. */
    method LoadSnapshot() returns (ok: bool)
      requires sequenceNr == 0 && lastSnapshot == 0
      modifies this
      ensures every == old(every)
      ensures Base(behaviour, Config(), Snapshots()) ==
              if ok then Some(Recovered(state, sequenceNr, lastSnapshot)) else None
    {
      state := behaviour.initial;
      if store != null {
        var loaded := store.Load(pid);
        if loaded.Some? {
          var snapshot := behaviour.decodeState(loaded.value.payload);
          if snapshot.None? {
            return false;
          }
          state, sequenceNr, lastSnapshot := snapshot.value, loaded.value.sequenceNr, loaded.value.sequenceNr;
        }
      }
      return true;
    }

    method ReplayAll(events: seq<Repr<B>>) returns (ok: bool)
      modifies this
      ensures every == old(every)
      ensures var r := Replay(behaviour, old(Recovered(state, sequenceNr, lastSnapshot)), events);
              ok == r.Some? && (ok ==> Recovered(state, sequenceNr, lastSnapshot) == r.value)
    {
      ghost var start := Recovered(state, sequenceNr, lastSnapshot);
      for i := 0 to |events|
        invariant every == old(every)
        invariant Replay(behaviour, start, events[..i]) == Some(Recovered(state, sequenceNr, lastSnapshot))
      {
        assert events[..i + 1][..i] == events[..i];
        var event := behaviour.decodeEvent(events[i].payload);
        if event.None? {
          ReplayStops(behaviour, start, events, i + 1);
          return false;
        }
        state := behaviour.handler(state, event.value, true);
        sequenceNr := Max(sequenceNr, events[i].sequenceNr);
      }
      assert events[..|events|] == events;
      return true;
    }

    /** Recovery of a new instance, before its first command. */
    method PreStart() returns (ok: bool)
      requires sequenceNr == 0 && lastSnapshot == 0
      modifies this
      ensures var r := Recover(behaviour, Config(), journal.Stream(pid), Snapshots());
              ok == r.Some? && every == old(every) &&
              (ok ==> Recovered(state, sequenceNr, lastSnapshot) == r.value)
    {
      hide From, Replay, Base;
      ok := LoadSnapshot();
      if !ok {
        return;
      }
      var events := journal.ReplayEvents(pid, sequenceNr + 1);
      ok := ReplayAll(events);
    }
  }

  lemma {:induction false} ReplayStops<S, E, B>(b: Behaviour<S, E, B>, start: Recovered<S>, events: seq<Repr<B>>,
                                                i: nat)
    requires i <= |events| && Replay(b, start, events[..i]) == None
    ensures Replay(b, start, events) == None
    decreases |events| - i
  {
    if i < |events| {
      assert events[..i + 1][..i] == events[..i];
      ReplayStops(b, start, events, i + 1);
    } else {
      assert events[..i] == events;
    }
  }
}

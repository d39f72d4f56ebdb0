/** What recovery guarantees over every run of commands, write failures and restarts. */
module EventRecovery {
  import opened Prelude
  import opened EventSourced

  predicate Storable<S, E, B>(b: Behaviour<S, E, B>, events: seq<E>)
  {
    forall i :: 0 <= i < |events| ==> b.encodeEvent(events[i]).Some?
  }

  /** The state reached by handling events live. */
  function Live<S, E, B>(b: Behaviour<S, E, B>, events: seq<E>): S
  {
    if events == [] then b.initial
    else b.handler(Live(b, events[..|events| - 1]), events[|events| - 1], false)
  }

  function Stored<S, E, B>(b: Behaviour<S, E, B>, events: seq<E>): seq<Repr<B>>
    requires Storable(b, events)
  {
    seq(|events|, i requires 0 <= i < |events| => Repr(i + 1, b.encodeEvent(events[i]).value))
  }

  /** Replaying the stored form of an event has the effect the event had live. */
  predicate ReplaysLike<S(==), E, B>(b: Behaviour<S, E, B>, state: S, event: E)
  {
    b.encodeEvent(event).Some? ==>
      var decoded := b.decodeEvent(b.encodeEvent(event).value);
      decoded.Some? && b.handler(state, decoded.value, true) == b.handler(state, event, false)
  }

  /** The snapshot of a state, when it can be taken, restores that state. */
  predicate RestoresLike<S(==), E, B>(b: Behaviour<S, E, B>, state: S)
  {
    b.encodeState(state).Some? ==> b.decodeState(b.encodeState(state).value) == Some(state)
  }

  ghost predicate FaithfulAt<S(!new), E(!new), B>(b: Behaviour<S, E, B>, state: S)
  {
    RestoresLike(b, state) && forall event :: ReplaysLike(b, state, event)
  }

  /** Handlers and codecs are faithful at every state that storable events lead to. */
  ghost predicate Faithful<S(!new), E(!new), B(!new)>(b: Behaviour<S, E, B>)
  {
    forall events: seq<E> :: Storable(b, events) ==> FaithfulAt(b, Live(b, events))
  }

  // ----- runs -----------------------------------------------------------------

  datatype Step<!E, V> = Command(effects: seq<Effect<E, V>>, fault: nat -> bool) | Restart

  function Start<S, E, B>(b: Behaviour<S, E, B>, setup: Setup): Actor<S, B>
  {
    Actor([], [], b.initial, 0, 0, setup.every)
  }

  /** A restart replaces the instance by a recovered one; it may fail to come up. */
  function Next<S, E, B, V>(b: Behaviour<S, E, B>, setup: Setup, a: Actor<S, B>, step: Step<E, V>): Option<Actor<S, B>>
  {
    match step
    case Command(effects, fault) => Some(ApplyAll(b, setup, a, effects, fault).actor)
    case Restart =>
      match Recover(b, setup, a.journal, a.snaps)
      case None => None
      case Some(r) => Some(Actor(a.journal, a.snaps, r.state, r.sequenceNr, r.lastSnapshot, setup.every))
  }

  function After<S, E, B, V>(b: Behaviour<S, E, B>, setup: Setup, a: Actor<S, B>,
                             steps: seq<Step<E, V>>): Option<Actor<S, B>>
    decreases |steps|
  {
    if steps == [] then Some(a)
    else
      match Next(b, setup, a, steps[0])
      case None => None
      case Some(next) => After(b, setup, next, steps[1..])
  }

  // ----- the invariant --------------------------------------------------------

  ghost predicate SnapshotOk<S, E, B>(b: Behaviour<S, E, B>, setup: Setup, a: Actor<S, B>, events: seq<E>)
  {
    if a.snaps == [] then a.lastSnapshot == 0
    else
      var snap := a.snaps[|a.snaps| - 1];
      setup.hasStore && snap.sequenceNr == a.lastSnapshot <= a.sequenceNr &&
      b.encodeState(Live(b, events[..Min(snap.sequenceNr, |events|)])) == Some(snap.payload)
  }

  /** The instance is the live result of the journalled events; its counter may have run ahead. */
  ghost predicate Inv<S, E, B>(b: Behaviour<S, E, B>, setup: Setup, a: Actor<S, B>, events: seq<E>)
  {
    Storable(b, events) && a.journal == Stored(b, events) && a.state == Live(b, events) &&
    |events| <= a.sequenceNr && SnapshotOk(b, setup, a, events)
  }

  /** The counter is past the journal, so the journal refuses the next number. */
  predicate Ahead<S, B>(a: Actor<S, B>)
  {
    a.sequenceNr > |a.journal|
  }

  ghost predicate FaultFree(fault: nat -> bool)
  {
    forall n: nat :: !fault(n)
  }

  /** What every operation keeps: an instance that is ahead writes nothing; without faults it never gets ahead. */
  ghost predicate Moves<S, B>(a: Actor<S, B>, next: Actor<S, B>, fault: nat -> bool)
  {
    a.lastSnapshot <= next.lastSnapshot &&
    (Ahead(a) ==> next.journal == a.journal && Ahead(next)) &&
    (FaultFree(fault) && !Ahead(a) ==> !Ahead(next))
  }

  lemma SaveKeeps<S, E, B>(b: Behaviour<S, E, B>, setup: Setup, a: Actor<S, B>, events: seq<E>, fault: nat -> bool)
    requires Inv(b, setup, a, events)
    ensures var o := SaveSnapshot(b, setup, a).actor;
            Inv(b, setup, o, events) && Moves(a, o, fault) && o.journal == a.journal && o.every == a.every
  {
    hide Live, Stored;
    assert events[..|events|] == events;
  }

  /** A write that goes through extends the journal by the event. */
  lemma WriteKeeps<S, E, B>(b: Behaviour<S, E, B>, setup: Setup, a: Actor<S, B>, events: seq<E>, event: E,
                            fault: nat -> bool)
    requires Inv(b, setup, a, events) && b.encodeEvent(event).Some? && a.sequenceNr + 1 == Expected(a.journal)
    ensures var n := a.sequenceNr + 1;
            var written := a.(sequenceNr := n, journal := a.journal + [Repr(n, b.encodeEvent(event).value)],
                              state := b.handler(a.state, event, false));
            Inv(b, setup, written, events + [event]) && Moves(a, written, fault)
  {
    var longer := events + [event];
    assert longer[..|events|] == events;
    assert a.sequenceNr == |events|;
    assert Stored(b, longer) == Stored(b, events) + [Repr(|events| + 1, b.encodeEvent(event).value)];
    if a.snaps != [] {
      assert longer[..a.lastSnapshot] == events[..a.lastSnapshot];
    }
  }

  lemma PersistOneKeeps<S, E, B>(b: Behaviour<S, E, B>, setup: Setup, a: Actor<S, B>, events: seq<E>, event: E,
                                 fault: nat -> bool)
    returns (events': seq<E>)
    requires Inv(b, setup, a, events)
    ensures var o := PersistOne(b, setup, a, event, fault).actor;
            Inv(b, setup, o, events') && Moves(a, o, fault) && o.every == a.every
  {
    hide Live, SaveSnapshot, Due;
    events' := events;
    if b.encodeEvent(event).Some? {
      var n := a.sequenceNr + 1;
      if !fault(n) && n == Expected(a.journal) {
        WriteKeeps(b, setup, a, events, event, fault);
        events' := events + [event];
        var written := a.(sequenceNr := n, journal := a.journal + [Repr(n, b.encodeEvent(event).value)],
                          state := b.handler(a.state, event, false));
        SaveKeeps(b, setup, written, events', fault);
      }
    }
  }

  lemma {:induction false} PersistAllKeeps<S, E, B>(b: Behaviour<S, E, B>, setup: Setup, a: Actor<S, B>, events: seq<E>,
      more: seq<E>, fault: nat -> bool)
    returns (events': seq<E>)
    requires Inv(b, setup, a, events)
    ensures var o := PersistAll(b, setup, a, more, fault).actor;
            Inv(b, setup, o, events') && Moves(a, o, fault) && o.every == a.every
    decreases |more|
  {
    hide Inv, PersistOne;
    events' := events;
    if more != [] {
      events' := PersistOneKeeps(b, setup, a, events, more[0], fault);
      var first := PersistOne(b, setup, a, more[0], fault);
      if first.ok {
        events' := PersistAllKeeps(b, setup, first.actor, events', more[1..], fault);
      }
    }
  }

  predicate ChangesCadence<E, V>(effects: seq<Effect<E, V>>)
  {
    exists i :: 0 <= i < |effects| && effects[i].Every?
  }

  lemma {:induction false} ApplyKeeps<S, E, B, V>(b: Behaviour<S, E, B>, setup: Setup, a: Actor<S, B>, events: seq<E>,
                                                  effects: seq<Effect<E, V>>, fault: nat -> bool)
    returns (events': seq<E>)
    requires Inv(b, setup, a, events)
    ensures var o := ApplyAll(b, setup, a, effects, fault).actor;
            Inv(b, setup, o, events') && Moves(a, o, fault)
    decreases |effects|
  {
    hide SaveSnapshot, PersistAll, Live, Stored;
    events' := events;
    if effects != [] {
      match effects[0] {
        case Persist(more) => events' := PersistAllKeeps(b, setup, a, events, more, fault);
        case SaveNow => SaveKeeps(b, setup, a, events, fault);
        case _ =>
      }
      var first := ApplyOne(b, setup, a, effects[0], fault);
      if first.ok {
        events' := ApplyKeeps(b, setup, first.actor, events', effects[1..], fault);
      }
    }
  }

  // ----- recovery -------------------------------------------------------------

  predicate GapFree<B>(journal: seq<Repr<B>>)
  {
    forall i :: 0 <= i < |journal| ==> journal[i].sequenceNr == i + 1
  }

  lemma FromSnoc<B>(journal: seq<Repr<B>>, from: nat)
    requires journal != []
    ensures var n := |journal| - 1;
            From(journal, from) == From(journal[..n], from) + if journal[n].sequenceNr >= from then [journal[n]] else []
  {}

  lemma FromNone<B>(from: nat)
    ensures From<B>([], from) == []
  {}

  lemma SuffixSnoc<T>(s: seq<T>, k: nat)
    requires s != []
    ensures var n := |s| - 1;
            s[Min(k, |s|)..] == s[..n][Min(k, n)..] + if k <= n then [s[n]] else []
  {}

  /** In a gap-free journal the events from a number onwards are a suffix. */
  lemma {:induction false} FromIsSuffix<B>(journal: seq<Repr<B>>, from: nat)
    requires from >= 1 && GapFree(journal)
    ensures From(journal, from) == journal[Min(from - 1, |journal|)..]
    decreases |journal|
  {
    hide From, GapFree;
    if journal == [] {
      FromNone<B>(from);
    } else {
      var n := |journal| - 1;
      GapFreePrefix(journal, n);
      FromIsSuffix(journal[..n], from);
      FromSnoc(journal, from);
      SuffixSnoc(journal, from - 1);
    }
  }

  lemma GapFreePrefix<B>(journal: seq<Repr<B>>, n: nat)
    requires GapFree(journal) && n < |journal|
    ensures GapFree(journal[..n]) && journal[n].sequenceNr == n + 1
  {}

  /** Replay of the stored events after the first `k` catches up with the live state. */
  lemma {:induction false} ReplayCatchesUp<S(!new), E(!new), B(!new)>(b: Behaviour<S, E, B>, events: seq<E>, k: nat,
      start: Recovered<S>)
    requires Faithful(b) && Storable(b, events) && k <= |events| && start.state == Live(b, events[..k]) &&
             k <= start.sequenceNr
    ensures Replay(b, start, Stored(b, events)[k..]) ==
            Some(Recovered(Live(b, events),
                           if k == |events| then start.sequenceNr else Max(start.sequenceNr, |events|),
                           start.lastSnapshot))
    decreases |events|
  {
    hide Faithful, Stored;
    if k < |events| {
      var before := events[..|events| - 1];
      assert before[..k] == events[..k];
      StoredSnoc(b, events, k);
      ReplayCatchesUp(b, before, k, start);
      FaithfulReplay(b, before, events[|events| - 1]);
    } else {
      StoredLength(b, events);
      assert Stored(b, events)[k..] == [] && events[..k] == events;
    }
  }

  lemma StoredLength<S, E, B>(b: Behaviour<S, E, B>, events: seq<E>)
    requires Storable(b, events)
    ensures |Stored(b, events)| == |events|
  {}

  /** The stored tail ends with the stored last event. */
  lemma StoredSnoc<S, E, B>(b: Behaviour<S, E, B>, events: seq<E>, k: nat)
    requires Storable(b, events) && k < |events|
    ensures var n := |events| - 1;
            var tail := Stored(b, events)[k..];
            |Stored(b, events)| == n + 1 && |Stored(b, events[..n])| == n &&
            tail[..|tail| - 1] == Stored(b, events[..n])[k..] &&
            tail[|tail| - 1] == Repr(n + 1, b.encodeEvent(events[n]).value)
  {}

  lemma FaithfulReplay<S(!new), E(!new), B(!new)>(b: Behaviour<S, E, B>, events: seq<E>, event: E)
    requires Faithful(b) && Storable(b, events)
    ensures ReplaysLike(b, Live(b, events), event)
  {
    assert FaithfulAt(b, Live(b, events));
  }

  /** The latest snapshot restores the state of the events it covers. */
  lemma BaseIsLive<S(!new), E(!new), B(!new)>(b: Behaviour<S, E, B>, setup: Setup, a: Actor<S, B>, events: seq<E>)
    requires Faithful(b) && Inv(b, setup, a, events)
    ensures Base(b, setup, a.snaps) ==
            Some(Recovered(Live(b, events[..Min(a.lastSnapshot, |events|)]), a.lastSnapshot, a.lastSnapshot))
  {
    hide Faithful, Stored;
    if a.snaps != [] {
      var covered := events[..Min(a.lastSnapshot, |events|)];
      assert Storable(b, covered);
      FaithfulRestore(b, covered);
    }
  }

  lemma FaithfulRestore<S(!new), E(!new), B(!new)>(b: Behaviour<S, E, B>, events: seq<E>)
    requires Faithful(b) && Storable(b, events)
    ensures RestoresLike(b, Live(b, events))
  {
    assert FaithfulAt(b, Live(b, events));
  }

  /** A fresh instance recovers the live state, the greater of the two stored numbers, and replays only the tail. */
  lemma RecoverIsLive<S(!new), E(!new), B(!new)>(b: Behaviour<S, E, B>, setup: Setup, a: Actor<S, B>, events: seq<E>)
    requires Faithful(b) && Inv(b, setup, a, events)
    ensures Recover(b, setup, a.journal, a.snaps) ==
            Some(Recovered(a.state, Max(a.lastSnapshot, |a.journal|), a.lastSnapshot))
    ensures |From(a.journal, a.lastSnapshot + 1)| == |a.journal| - Min(a.lastSnapshot, |a.journal|)
  {
    hide Faithful, SnapshotOk, Base, Live, Replay, From;
    var k := Min(a.lastSnapshot, |events|);
    BaseIsLive(b, setup, a, events);
    FromIsSuffix(a.journal, a.lastSnapshot + 1);
    ReplayCatchesUp(b, events, k, Recovered(Live(b, events[..k]), a.lastSnapshot, a.lastSnapshot));
  }

  lemma NextKeeps<S(!new), E(!new), B(!new), V>(b: Behaviour<S, E, B>, setup: Setup, a: Actor<S, B>, events: seq<E>,
                                                step: Step<E, V>)
    returns (events': seq<E>)
    requires Faithful(b) && Inv(b, setup, a, events)
    ensures var next := Next(b, setup, a, step);
            next.Some? && Inv(b, setup, next.value, events') && a.lastSnapshot <= next.value.lastSnapshot
    ensures step.Restart? ==> !Ahead(a) ==> !Ahead(Next(b, setup, a, step).value)
    ensures step.Command? ==> Moves(a, Next(b, setup, a, step).value, step.fault)
    ensures step.Restart? ==> Next(b, setup, a, step).value.journal == a.journal
  {
    hide Faithful, ApplyAll, Recover, Live;
    match step {
      case Command(effects, fault) =>
        events' := ApplyKeeps(b, setup, a, events, effects, fault);
      case Restart =>
        events' := events;
        RecoverIsLive(b, setup, a, events);
    }
  }

  lemma {:induction false} AfterKeeps<S(!new), E(!new), B(!new), V>(b: Behaviour<S, E, B>, setup: Setup,
      a: Actor<S, B>, events: seq<E>, steps: seq<Step<E, V>>)
    returns (events': seq<E>)
    requires Faithful(b) && Inv(b, setup, a, events)
    ensures var last := After(b, setup, a, steps);
            last.Some? && Inv(b, setup, last.value, events') && a.lastSnapshot <= last.value.lastSnapshot
    decreases |steps|
  {
    hide Faithful, Inv, Next;
    events' := events;
    if steps != [] {
      events' := NextKeeps(b, setup, a, events, steps[0]);
      events' := AfterKeeps(b, setup, Next(b, setup, a, steps[0]).value, events', steps[1..]);
    }
  }

  // ----- every run ------------------------------------------------------------

  /** A fresh instance would come up in the state of the live one. */
  predicate Recovers<S(==), E, B>(b: Behaviour<S, E, B>, setup: Setup, a: Actor<S, B>)
  {
    var r := Recover(b, setup, a.journal, a.snaps);
    r.Some? && r.value.state == a.state
  }

  /** In every run, whatever the set-up, the commands, the write failures and the restarts. */
  ghost predicate AlwaysRecovers<S(!new), E(!new), B(!new), V(!new)>(b: Behaviour<S, E, B>)
  {
    forall setup: Setup, steps: seq<Step<E, V>> ::
      After(b, setup, Start(b, setup), steps).Some? ==>
        Recovers(b, setup, After(b, setup, Start(b, setup), steps).value)
  }

  lemma StartInv<S, E, B>(b: Behaviour<S, E, B>, setup: Setup)
    ensures Inv(b, setup, Start(b, setup), [])
  {}

  /** A run of commands with no write fault. */
  ghost predicate Undisturbed<E, V>(steps: seq<Step<E, V>>)
  {
    forall i :: 0 <= i < |steps| && steps[i].Command? ==> FaultFree(steps[i].fault)
  }

  lemma {:induction false} UndisturbedNeverAhead<S(!new), E(!new), B(!new), V>(b: Behaviour<S, E, B>, setup: Setup,
      a: Actor<S, B>, events: seq<E>, steps: seq<Step<E, V>>)
    requires Faithful(b) && Inv(b, setup, a, events) && !Ahead(a) && Undisturbed(steps)
    ensures var last := After(b, setup, a, steps); last.Some? && !Ahead(last.value)
    decreases |steps|
  {
    hide Faithful, Inv, Next, FaultFree;
    if steps != [] {
      var events' := NextKeeps(b, setup, a, events, steps[0]);
      UndisturbedNeverAhead(b, setup, Next(b, setup, a, steps[0]).value, events', steps[1..]);
    }
  }

  /**
   * Without write faults, a fresh instance recovering between any two commands of any run reaches
   * the state, the sequence number and the snapshot mark of the live one.
   */
  lemma EveryRunRecovers<S(!new), E(!new), B(!new), V>(b: Behaviour<S, E, B>, setup: Setup, steps: seq<Step<E, V>>)
    requires Faithful(b) && Undisturbed(steps)
    ensures var a := After(b, setup, Start(b, setup), steps);
            a.Some? &&
            Recover(b, setup, a.value.journal, a.value.snaps) ==
              Some(Recovered(a.value.state, a.value.sequenceNr, a.value.lastSnapshot))
  {
    hide Faithful, After, Recover, Undisturbed;
    StartInv(b, setup);
    var events := AfterKeeps(b, setup, Start(b, setup), [], steps);
    UndisturbedNeverAhead(b, setup, Start(b, setup), [], steps);
    RecoverIsLive(b, setup, After(b, setup, Start(b, setup), steps).value, events);
  }

  /**
   * With write faults the state still agrees; the numbers agree exactly when the counter is not
   * ahead of both stores.
   */
  lemma RecoveredNumber<S(!new), E(!new), B(!new), V>(b: Behaviour<S, E, B>, setup: Setup, steps: seq<Step<E, V>>)
    requires Faithful(b)
    ensures var a := After(b, setup, Start(b, setup), steps);
            a.Some? && Recovers(b, setup, a.value) &&
            (Recover(b, setup, a.value.journal, a.value.snaps).value.sequenceNr == a.value.sequenceNr <==>
             !Ahead(a.value) || a.value.lastSnapshot == a.value.sequenceNr)
  {
    hide Faithful, After, Recover;
    StartInv(b, setup);
    var events := AfterKeeps(b, setup, Start(b, setup), [], steps);
    RecoverIsLive(b, setup, After(b, setup, Start(b, setup), steps).value, events);
  }

  // ----- after a failed write -------------------------------------------------

  /** Once a snapshot carries a number past the journal, no run ever writes again. */
  lemma {:induction false} WedgedForever<S(!new), E(!new), B(!new), V>(b: Behaviour<S, E, B>, setup: Setup,
      a: Actor<S, B>, events: seq<E>, steps: seq<Step<E, V>>)
    requires Faithful(b) && Inv(b, setup, a, events) && a.lastSnapshot > |a.journal|
    ensures var last := After(b, setup, a, steps); last.Some? && last.value.journal == a.journal
    decreases |steps|
  {
    hide Faithful, Next, Live, Stored;
    if steps != [] {
      var events' := NextKeeps(b, setup, a, events, steps[0]);
      WedgedForever(b, setup, Next(b, setup, a, steps[0]).value, events', steps[1..]);
    }
  }

  lemma RefusedStep<S, E, B, V>(b: Behaviour<S, E, B>, event: E, step: Step<E, V>)
    requires b.encodeEvent(event).Some? && step.Command? && step.effects == [Persist([event])] && step.fault(1)
    ensures Next(b, Setup(true, None), Start(b, Setup(true, None)), step) == Some(Actor([], [], b.initial, 1, 0, None))
  {}

  lemma SavedStep<S, E, B, V>(b: Behaviour<S, E, B>, step: Step<E, V>)
    requires b.encodeState(b.initial).Some? && step.Command? && step.effects == [SaveNow]
    ensures Next(b, Setup(true, None), Actor([], [], b.initial, 1, 0, None), step) ==
            Some(Actor([], [Snap(1, b.encodeState(b.initial).value)], b.initial, 1, 1, None))
  {
    var setup := Setup(true, None);
    var a := Actor([], [], b.initial, 1, 0, None);
    var saved := Actor([], [Snap(1, b.encodeState(b.initial).value)], b.initial, 1, 1, None);
    assert ApplyOne(b, setup, a, step.effects[0], step.fault) == Outcome(saved, true);
    assert step.effects[1..] == [];
    assert ApplyAll(b, setup, saved, step.effects[1..], step.fault) == Outcome(saved, true);
  }

  /** One refused write followed by one snapshot is enough to get there, for every behaviour that can do both. */
  lemma WedgeHappens<S(!new), E(!new), B(!new), V>(b: Behaviour<S, E, B>, event: E, refused: Step<E, V>,
      saving: Step<E, V>, steps: seq<Step<E, V>>)
    requires Faithful(b) && b.encodeEvent(event).Some? && b.encodeState(b.initial).Some?
    requires refused.Command? && refused.effects == [Persist([event])] && refused.fault(1)
    requires saving.Command? && saving.effects == [SaveNow]
    ensures var setup := Setup(true, None);
            var last := After(b, setup, Start(b, setup), [refused, saving] + steps);
            last.Some? && last.value.journal == []
  {
    hide Faithful, Next;
    var setup := Setup(true, None);
    var ahead := Actor([], [Snap(1, b.encodeState(b.initial).value)], b.initial, 1, 1, None);
    RefusedStep(b, event, refused);
    SavedStep(b, saving);
    assert ([refused, saving] + steps)[1..] == [saving] + steps;
    assert ([saving] + steps)[1..] == steps;
    assert After(b, setup, Start(b, setup), [refused, saving] + steps) == After(b, setup, ahead, steps);
    WedgedForever(b, setup, ahead, [], steps);
  }

  predicate Never(n: nat)
  {
    false
  }

  /** An instance that is not ahead writes a storable event when nothing goes wrong. */
  lemma NextEventIsWritten<S, E, B, V>(b: Behaviour<S, E, B>, setup: Setup, a: Actor<S, B>, events: seq<E>, event: E)
    requires Inv(b, setup, a, events) && !Ahead(a) && b.encodeEvent(event).Some?
    ensures var effects: seq<Effect<E, V>> := [Persist([event])];
            |ApplyAll(b, setup, a, effects, Never).actor.journal| == |a.journal| + 1
  {
    hide Live, SnapshotOk;
    var effects: seq<Effect<E, V>> := [Persist([event])];
    var one := PersistOne(b, setup, a, event, Never);
    assert [event][1..] == [] && effects[1..] == [];
    assert PersistAll(b, setup, a, [event], Never).actor == one.actor;
    assert ApplyAll(b, setup, a, effects, Never).actor == one.actor;
  }

  /** A command of this instance can still write. */
  ghost predicate CanWrite<S(!new), E(!new), B(!new), V(!new)>(b: Behaviour<S, E, B>, setup: Setup, a: Actor<S, B>)
  {
    exists effects: seq<Effect<E, V>>, fault: nat -> bool ::
      ApplyAll(b, setup, a, effects, fault).actor.journal != a.journal
  }

  /** Every write of an instance is refused exactly when its counter is ahead of the journal. */
  lemma CanWriteIff<S(!new), E(!new), B(!new), V(!new)>(b: Behaviour<S, E, B>, setup: Setup, a: Actor<S, B>,
      events: seq<E>, event: E)
    requires Inv(b, setup, a, events) && b.encodeEvent(event).Some?
    ensures CanWrite<S, E, B, V>(b, setup, a) <==> !Ahead(a)
  {
    hide Inv, ApplyAll;
    if Ahead(a) {
      forall effects: seq<Effect<E, V>>, fault: nat -> bool
        ensures ApplyAll(b, setup, a, effects, fault).actor.journal == a.journal
      {
        var _ := ApplyKeeps(b, setup, a, events, effects, fault);
      }
    } else {
      NextEventIsWritten<S, E, B, V>(b, setup, a, events, event);
    }
  }

  /** Some continuation, restarts included, writes again. */
  ghost predicate WritesAgain<S(!new), E(!new), B(!new), V(!new)>(b: Behaviour<S, E, B>, setup: Setup, a: Actor<S, B>)
  {
    exists steps: seq<Step<E, V>> ::
      After(b, setup, a, steps).Some? && After(b, setup, a, steps).value.journal != a.journal
  }

  /** Restarts bring a writer back exactly when no snapshot carries a number past the journal. */
  lemma WritesAgainIff<S(!new), E(!new), B(!new), V(!new)>(b: Behaviour<S, E, B>, setup: Setup, a: Actor<S, B>,
      events: seq<E>, event: E)
    requires Faithful(b) && Inv(b, setup, a, events) && b.encodeEvent(event).Some?
    ensures WritesAgain<S, E, B, V>(b, setup, a) <==> a.lastSnapshot <= |a.journal|
  {
    hide Faithful, After, Inv;
    if a.lastSnapshot <= |a.journal| {
      RestartWrites<S, E, B, V>(b, setup, a, events, event);
    } else {
      forall steps: seq<Step<E, V>>
        ensures After(b, setup, a, steps).Some? ==> After(b, setup, a, steps).value.journal == a.journal
      {
        WedgedForever(b, setup, a, events, steps);
      }
    }
  }

  lemma RestartWrites<S(!new), E(!new), B(!new), V>(b: Behaviour<S, E, B>, setup: Setup, a: Actor<S, B>,
      events: seq<E>, event: E)
    requires Faithful(b) && Inv(b, setup, a, events) && b.encodeEvent(event).Some? && a.lastSnapshot <= |a.journal|
    ensures var steps: seq<Step<E, V>> := [Restart, Command([Persist([event])], Never)];
            After(b, setup, a, steps).Some? && |After(b, setup, a, steps).value.journal| == |a.journal| + 1
  {
    hide Faithful, Recover, ApplyAll, Live, SnapshotOk;
    var write: Step<E, V> := Command([Persist([event])], Never);
    var steps: seq<Step<E, V>> := [Restart, write];
    RecoverIsLive(b, setup, a, events);
    var events' := NextKeeps(b, setup, a, events, steps[0]);
    var back := Next(b, setup, a, steps[0]).value;
    assert !Ahead(back);
    NextEventIsWritten<S, E, B, V>(b, setup, back, events', event);
    assert steps[1..] == [write] && [write][1..] == [];
    assert After(b, setup, back, [write]) == Next(b, setup, back, write);
  }

  // ----- snapshot cadence -----------------------------------------------------

  /** Every state that storable events lead to can be snapshot. */
  ghost predicate Snapshottable<S(!new), E(!new), B(!new)>(b: Behaviour<S, E, B>)
  {
    forall events: seq<E> :: Storable(b, events) ==> b.encodeState(Live(b, events)).Some?
  }

  ghost predicate CadenceOk<S, B>(a: Actor<S, B>, k: int)
  {
    a.every == Some(k) && |a.journal| - a.lastSnapshot < k
  }

  lemma {:induction false} PersistKeepsCadence<S(!new), E(!new), B(!new)>(b: Behaviour<S, E, B>, setup: Setup,
      a: Actor<S, B>, events: seq<E>, more: seq<E>, fault: nat -> bool, k: int)
    requires Snapshottable(b) && Inv(b, setup, a, events) && setup.hasStore && k > 0 && CadenceOk(a, k)
    ensures CadenceOk(PersistAll(b, setup, a, more, fault).actor, k)
    decreases |more|
  {
    hide Snapshottable, Inv, PersistOne;
    if more != [] {
      PersistOneCadence(b, setup, a, events, more[0], fault, k);
      var first := PersistOne(b, setup, a, more[0], fault);
      if first.ok {
        var events' := PersistOneKeeps(b, setup, a, events, more[0], fault);
        PersistKeepsCadence(b, setup, first.actor, events', more[1..], fault, k);
      }
    }
  }

  lemma PersistOneCadence<S(!new), E(!new), B(!new)>(b: Behaviour<S, E, B>, setup: Setup, a: Actor<S, B>,
      events: seq<E>, event: E, fault: nat -> bool, k: int)
    requires Snapshottable(b) && Inv(b, setup, a, events) && setup.hasStore && k > 0 && CadenceOk(a, k)
    ensures CadenceOk(PersistOne(b, setup, a, event, fault).actor, k)
  {
    hide Live, SnapshotOk;
    if b.encodeEvent(event).Some? {
      var n := a.sequenceNr + 1;
      if !fault(n) && n == Expected(a.journal) {
        WriteKeeps(b, setup, a, events, event, fault);
        assert Storable(b, events + [event]);
      }
    }
  }

  predicate KeepsCadence<E, V>(steps: seq<Step<E, V>>)
  {
    forall i :: 0 <= i < |steps| && steps[i].Command? ==> !ChangesCadence(steps[i].effects)
  }

  lemma {:induction false} ApplyKeepsCadence<S(!new), E(!new), B(!new), V>(b: Behaviour<S, E, B>, setup: Setup,
      a: Actor<S, B>, events: seq<E>, effects: seq<Effect<E, V>>, fault: nat -> bool, k: int)
    requires Snapshottable(b) && Inv(b, setup, a, events) && setup.hasStore && k > 0 && CadenceOk(a, k)
    requires !ChangesCadence(effects)
    ensures CadenceOk(ApplyAll(b, setup, a, effects, fault).actor, k)
    decreases |effects|
  {
    hide Snapshottable, PersistAll, SaveSnapshot, Live, Stored;
    if effects != [] {
      var events' := events;
      match effects[0] {
        case Persist(more) =>
          PersistKeepsCadence(b, setup, a, events, more, fault, k);
          events' := PersistAllKeeps(b, setup, a, events, more, fault);
        case SaveNow => SaveKeeps(b, setup, a, events, fault);
        case _ =>
      }
      assert !effects[0].Every?;
      var first := ApplyOne(b, setup, a, effects[0], fault);
      if first.ok {
        ApplyKeepsCadence(b, setup, first.actor, events', effects[1..], fault, k);
      }
    }
  }

  lemma {:induction false} RunKeepsCadence<S(!new), E(!new), B(!new), V>(b: Behaviour<S, E, B>, setup: Setup,
      a: Actor<S, B>, events: seq<E>, steps: seq<Step<E, V>>, k: int)
    requires Faithful(b) && Snapshottable(b) && Inv(b, setup, a, events) && KeepsCadence(steps)
    requires setup == Setup(true, Some(k)) && k > 0 && CadenceOk(a, k)
    ensures var last := After(b, setup, a, steps); last.Some? && CadenceOk(last.value, k)
    decreases |steps|
  {
    hide Faithful, Snapshottable, Inv, ApplyAll, Recover, ChangesCadence;
    if steps != [] {
      match steps[0] {
        case Command(effects, fault) => ApplyKeepsCadence(b, setup, a, events, effects, fault, k);
        case Restart => RecoverIsLive(b, setup, a, events);
      }
      var events' := NextKeeps(b, setup, a, events, steps[0]);
      RunKeepsCadence(b, setup, Next(b, setup, a, steps[0]).value, events', steps[1..], k);
    }
  }

  /**
   * With a snapshot store and a constant cadence `k`, recovery at any point of any run replays
   * fewer than `k` events.
   */
  lemma ReplayIsBounded<S(!new), E(!new), B(!new), V>(b: Behaviour<S, E, B>, steps: seq<Step<E, V>>, k: int)
    requires Faithful(b) && Snapshottable(b) && KeepsCadence(steps) && k > 0
    ensures var setup := Setup(true, Some(k));
            var a := After(b, setup, Start(b, setup), steps);
            a.Some? && Base(b, setup, a.value.snaps).Some? &&
            |From(a.value.journal, Base(b, setup, a.value.snaps).value.sequenceNr + 1)| < k
  {
    hide Faithful, Snapshottable, KeepsCadence, After, Recover, Base, From;
    var setup := Setup(true, Some(k));
    StartInv(b, setup);
    RunKeepsCadence(b, setup, Start(b, setup), [], steps, k);
    var events := AfterKeeps(b, setup, Start(b, setup), [], steps);
    var a := After(b, setup, Start(b, setup), steps).value;
    BaseIsLive(b, setup, a, events);
    RecoverIsLive(b, setup, a, events);
  }

  // ----- the condition is exact -----------------------------------------------

  /** The instance that has persisted `events` and nothing else. */
  function Persisted<S, E, B>(b: Behaviour<S, E, B>, events: seq<E>): Actor<S, B>
    requires Storable(b, events)
  {
    Actor(Stored(b, events), [], Live(b, events), |events|, 0, None)
  }

  lemma {:induction false} PersistFrom<S, E, B>(b: Behaviour<S, E, B>, events: seq<E>, k: nat, fault: nat -> bool)
    requires Storable(b, events) && k <= |events| && FaultFree(fault)
    ensures PersistAll(b, Setup(true, None), Persisted(b, events[..k]), events[k..], fault) ==
            Outcome(Persisted(b, events), true)
    decreases |events| - k
  {
    if k < |events| {
      assert events[..k + 1][..k] == events[..k];
      assert Stored(b, events[..k + 1]) == Stored(b, events[..k]) + [Repr(k + 1, b.encodeEvent(events[k]).value)];
      assert events[k..][1..] == events[k + 1..];
      PersistFrom(b, events, k + 1, fault);
    } else {
      assert events[..k] == events;
    }
  }

  /** The run that persists `events`, and takes a snapshot if asked to. */
  function Writing<E, V>(events: seq<E>, save: bool): seq<Step<E, V>>
  {
    [Command([Persist(events)] + if save then [SaveNow] else [], Never)]
  }

  lemma WritingReaches<S, E, B, V>(b: Behaviour<S, E, B>, events: seq<E>, save: bool)
    requires Storable(b, events)
    ensures var setup := Setup(true, None);
            After(b, setup, Start(b, setup), Writing<E, V>(events, save)) ==
            Some(if save then SaveSnapshot(b, setup, Persisted(b, events)).actor else Persisted(b, events))
  {
    hide PersistAll, SaveSnapshot;
    var setup := Setup(true, None);
    assert events[..0] == [] && events[0..] == events;
    assert Start(b, setup) == Persisted(b, []);
    PersistFrom(b, events, 0, Never);
    var effects: seq<Effect<E, V>> := [Persist(events)] + if save then [SaveNow] else [];
    var a := Persisted(b, events);
    assert effects[1..] == if save then [SaveNow] else [];
    assert ApplyAll(b, setup, Start(b, setup), effects, Never) == ApplyAll(b, setup, a, effects[1..], Never);
    if save {
      assert effects[1..][1..] == [];
      assert ApplyAll(b, setup, a, effects[1..], Never).actor == SaveSnapshot(b, setup, a).actor;
    }
  }

  /** A snapshot of everything leaves nothing to replay. */
  lemma EmptyReplay<S, E, B>(b: Behaviour<S, E, B>, setup: Setup, a: Actor<S, B>)
    requires setup.hasStore && a.snaps != [] && Recovers(b, setup, a)
    requires From(a.journal, a.snaps[|a.snaps| - 1].sequenceNr + 1) == []
    ensures b.decodeState(a.snaps[|a.snaps| - 1].payload) == Some(a.state)
  {}

  lemma SnapshotMustRestore<S(!new), E(!new), B(!new), V(!new)>(b: Behaviour<S, E, B>, events: seq<E>)
    requires AlwaysRecovers<S, E, B, V>(b) && Storable(b, events)
    ensures RestoresLike(b, Live(b, events))
  {
    hide PersistAll, Replay, Live;
    var setup := Setup(true, None);
    WritingReaches<S, E, B, V>(b, events, true);
    var a := SaveSnapshot(b, setup, Persisted(b, events)).actor;
    assert Recovers(b, setup, a);
    FromIsSuffix(a.journal, |events| + 1);
    if b.encodeState(Live(b, events)).Some? {
      assert a.snaps == [Snap(|events|, b.encodeState(Live(b, events)).value)];
      EmptyReplay(b, setup, a);
    }
  }

  /** Without snapshots recovery replays the whole journal. */
  lemma WritingReplays<S(!new), E(!new), B(!new), V(!new)>(b: Behaviour<S, E, B>, events: seq<E>)
    requires AlwaysRecovers<S, E, B, V>(b) && Storable(b, events)
    ensures var r := Replay(b, Recovered(b.initial, 0, 0), Stored(b, events));
            r.Some? && r.value.state == Live(b, events)
  {
    hide PersistAll, Replay, Live, From;
    WritingReaches<S, E, B, V>(b, events, false);
    var a := Persisted(b, events);
    assert Recovers(b, Setup(true, None), a);
    FromIsSuffix(a.journal, 1);
    assert a.journal[0..] == a.journal;
  }

  lemma EventMustReplay<S(!new), E(!new), B(!new), V(!new)>(b: Behaviour<S, E, B>, events: seq<E>, event: E)
    requires AlwaysRecovers<S, E, B, V>(b) && Storable(b, events)
    ensures ReplaysLike(b, Live(b, events), event)
  {
    hide AlwaysRecovers;
    if b.encodeEvent(event).Some? {
      var longer := events + [event];
      WritingReplays<S, E, B, V>(b, events);
      WritingReplays<S, E, B, V>(b, longer);
      assert longer[..|events|] == events;
      assert Stored(b, longer)[..|events|] == Stored(b, events);
    }
  }

  /**
   * Recovery reaches the live state in every run exactly when handlers and codecs are faithful at
   * every state that storable events lead to.
   */
  lemma RecoveryExact<S(!new), E(!new), B(!new), V(!new)>(b: Behaviour<S, E, B>)
    ensures AlwaysRecovers<S, E, B, V>(b) <==> Faithful(b)
  {
    hide Recovers, ReplaysLike, RestoresLike, After;
    if Faithful(b) {
      forall setup: Setup, steps: seq<Step<E, V>>
        ensures After(b, setup, Start(b, setup), steps).Some? &&
                Recovers(b, setup, After(b, setup, Start(b, setup), steps).value)
      {
        RecoveredNumber(b, setup, steps);
      }
    }
    if AlwaysRecovers<S, E, B, V>(b) {
      forall events: seq<E> | Storable(b, events)
        ensures FaithfulAt(b, Live(b, events))
      {
        SnapshotMustRestore<S, E, B, V>(b, events);
        forall event: E
          ensures ReplaysLike(b, Live(b, events), event)
        {
          EventMustReplay<S, E, B, V>(b, events, event);
        }
      }
    }
  }
}

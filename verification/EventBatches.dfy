/** How much of a batch is written when something in it fails. */
module EventBatches {
  import opened Prelude
  import opened EventSourced
  import opened EventRecovery

  // ----- what a batch needs ---------------------------------------------------

  /** Event `i` of a batch encodes and its write, numbered after `n`, is not refused. */
  predicate Taken<S, E, B>(b: Behaviour<S, E, B>, events: seq<E>, fault: nat -> bool, n: nat, i: nat)
    requires i < |events|
  {
    b.encodeEvent(events[i]).Some? && !fault(n + 1 + i)
  }

  predicate AllTaken<S, E, B>(b: Behaviour<S, E, B>, events: seq<E>, fault: nat -> bool, n: nat)
  {
    forall i :: 0 <= i < |events| ==> Taken(b, events, fault, n, i)
  }

  /** Every cadence snapshot that falls due before the last event encodes. */
  predicate Goes<S, E, B>(b: Behaviour<S, E, B>, setup: Setup, every: Option<int>, state: S, last: nat, n: nat,
                          events: seq<E>)
    decreases |events|
  {
    |events| <= 1 ||
    var next := b.handler(state, events[0], false);
    if DueAt(setup, every, last, n + 1) then
      b.encodeState(next).Some? && Goes(b, setup, every, next, n + 1, n + 1, events[1..])
    else
      Goes(b, setup, every, next, last, n + 1, events[1..])
  }

  /** Nothing in the batch fails before its last event is written. */
  predicate Ready<S, E, B>(b: Behaviour<S, E, B>, setup: Setup, a: Actor<S, B>, events: seq<E>, fault: nat -> bool)
  {
    AllTaken(b, events, fault, a.sequenceNr) &&
    Goes(b, setup, a.every, a.state, a.lastSnapshot, a.sequenceNr, events)
  }

  lemma AllTakenSplits<S, E, B>(b: Behaviour<S, E, B>, events: seq<E>, fault: nat -> bool, n: nat)
    requires events != []
    ensures AllTaken(b, events, fault, n) <==>
            Taken(b, events, fault, n, 0) && AllTaken(b, events[1..], fault, n + 1)
  {
    var rest, next := events[1..], n + 1;
    if AllTaken(b, events, fault, n) {
      forall i | 0 <= i < |rest|
        ensures Taken(b, rest, fault, next, i)
      {
        assert Taken(b, events, fault, n, i + 1);
      }
    }
    if Taken(b, events, fault, n, 0) && AllTaken(b, rest, fault, next) {
      forall i | 0 <= i < |events|
        ensures Taken(b, events, fault, n, i)
      {
        if i > 0 {
          assert Taken(b, rest, fault, next, i - 1);
        }
      }
    }
  }

  // ----- one event ------------------------------------------------------------

  lemma OneIsWritten<S(!new), E(!new), B(!new)>(b: Behaviour<S, E, B>, setup: Setup, a: Actor<S, B>, done: seq<E>,
                                                event: E, fault: nat -> bool)
    requires Inv(b, setup, a, done) && !Ahead(a) && b.encodeEvent(event).Some? && !fault(a.sequenceNr + 1)
    ensures var o := PersistOne(b, setup, a, event, fault);
            var due := DueAt(setup, a.every, a.lastSnapshot, a.sequenceNr + 1);
            |o.actor.journal| == |a.journal| + 1 && o.actor.sequenceNr == a.sequenceNr + 1 &&
            o.actor.every == a.every && o.actor.state == b.handler(a.state, event, false) &&
            (o.ok <==> due ==> b.encodeState(o.actor.state).Some?) &&
            (o.ok ==> o.actor.lastSnapshot == if due then a.sequenceNr + 1 else a.lastSnapshot)
  {
    hide Live, SnapshotOk;
    WriteKeeps(b, setup, a, done, event, fault);
  }

  /** The needs of a longer batch: those of its first event and, from there, of the rest. */
  lemma ReadySplits<S(!new), E(!new), B(!new)>(b: Behaviour<S, E, B>, setup: Setup, a: Actor<S, B>, done: seq<E>,
      events: seq<E>, fault: nat -> bool)
    requires Inv(b, setup, a, done) && !Ahead(a) && events != [] && Taken(b, events, fault, a.sequenceNr, 0)
    ensures var first := PersistOne(b, setup, a, events[0], fault);
            Ready(b, setup, a, events, fault) <==>
            |events| == 1 || (first.ok && Ready(b, setup, first.actor, events[1..], fault))
  {
    hide Inv, Ahead, PersistOne, AllTaken;
    OneIsWritten(b, setup, a, done, events[0], fault);
    AllTakenSplits(b, events, fault, a.sequenceNr);
    if |events| == 1 {
      NoneIsTaken(b, events[1..], fault, a.sequenceNr + 1);
    }
  }

  lemma NoneIsTaken<S, E, B>(b: Behaviour<S, E, B>, events: seq<E>, fault: nat -> bool, n: nat)
    requires events == []
    ensures AllTaken(b, events, fault, n)
  {}

  // ----- a batch --------------------------------------------------------------

  function Written<S, E, B>(b: Behaviour<S, E, B>, setup: Setup, a: Actor<S, B>, events: seq<E>,
                            fault: nat -> bool): int
  {
    |PersistAll(b, setup, a, events, fault).actor.journal| - |a.journal|
  }

  lemma FirstFails<S(!new), E(!new), B(!new)>(b: Behaviour<S, E, B>, setup: Setup, a: Actor<S, B>, events: seq<E>,
                                              fault: nat -> bool, k: nat)
    requires 0 < |events| && k <= |events| && !Taken(b, events, fault, a.sequenceNr, 0)
    ensures Written(b, setup, a, events, fault) == 0
    ensures k > 0 ==> !Ready(b, setup, a, events[..k], fault)
  {
    if k > 0 {
      assert !Taken(b, events[..k], fault, a.sequenceNr, 0);
    }
  }

  /**
   * A batch is written event by event: at least `k` of them exactly when nothing fails before
   * number `k` is written.
   */
  lemma {:induction false} BatchWrites<S(!new), E(!new), B(!new)>(b: Behaviour<S, E, B>, setup: Setup, a: Actor<S, B>,
      done: seq<E>, events: seq<E>, fault: nat -> bool, k: nat)
    requires Inv(b, setup, a, done) && k <= |events|
    ensures 0 <= Written(b, setup, a, events, fault) <= |events|
    ensures k <= Written(b, setup, a, events, fault) <==>
            k == 0 || (!Ahead(a) && Ready(b, setup, a, events[..k], fault))
    decreases |events|
  {
    hide Inv, PersistOne, Ready, Taken;
    if Ahead(a) {
      var _ := PersistAllKeeps(b, setup, a, done, events, fault);
    } else if events != [] {
      if !Taken(b, events, fault, a.sequenceNr, 0) {
        FirstFails(b, setup, a, events, fault, k);
      } else {
        var first := PersistOne(b, setup, a, events[0], fault);
        TakenFirst(b, setup, a, done, events, fault, k);
        if first.ok {
          var done' := PersistOneKeeps(b, setup, a, done, events[0], fault);
          BatchWrites(b, setup, first.actor, done', events[1..], fault, if k == 0 then 0 else k - 1);
        }
      }
    }
  }

  lemma TakenFirst<S(!new), E(!new), B(!new)>(b: Behaviour<S, E, B>, setup: Setup, a: Actor<S, B>, done: seq<E>,
      events: seq<E>, fault: nat -> bool, k: nat)
    requires Inv(b, setup, a, done) && !Ahead(a) && events != [] && Taken(b, events, fault, a.sequenceNr, 0)
    requires k <= |events|
    ensures var first := PersistOne(b, setup, a, events[0], fault);
            |first.actor.journal| == |a.journal| + 1 && !Ahead(first.actor) &&
            (k > 0 ==>
             (Ready(b, setup, a, events[..k], fault) <==>
              k == 1 || (first.ok && Ready(b, setup, first.actor, events[1..][..k - 1], fault))))
  {
    hide Inv, PersistOne, Ready;
    OneIsWritten(b, setup, a, done, events[0], fault);
    if k > 0 {
      var front := events[..k];
      assert front[1..] == events[1..][..k - 1];
      ReadySplits(b, setup, a, done, front, fault);
    }
  }

  predicate AllOrNothing<S, E, B>(b: Behaviour<S, E, B>, setup: Setup, a: Actor<S, B>, events: seq<E>,
                                  fault: nat -> bool)
  {
    Written(b, setup, a, events, fault) == 0 || Written(b, setup, a, events, fault) == |events|
  }

  /**
   * A batch is written whole or not at all exactly when the instance is ahead of the journal, the
   * first event fails, or no event fails and no snapshot that falls due before the last one.
   */
  lemma AllOrNothingIff<S(!new), E(!new), B(!new)>(b: Behaviour<S, E, B>, setup: Setup, a: Actor<S, B>, done: seq<E>,
      events: seq<E>, fault: nat -> bool)
    requires Inv(b, setup, a, done)
    ensures AllOrNothing(b, setup, a, events, fault) <==>
            Ahead(a) || events == [] || !Taken(b, events, fault, a.sequenceNr, 0) ||
            (AllTaken(b, events, fault, a.sequenceNr) &&
             Goes(b, setup, a.every, a.state, a.lastSnapshot, a.sequenceNr, events))
  {
    hide Inv, Written, AllTaken, Goes;
    BatchWrites(b, setup, a, done, events, fault, |events|);
    assert events[..|events|] == events;
    if events != [] {
      BatchWrites(b, setup, a, done, events, fault, 1);
      OneIsReady(b, setup, a, events[..1], fault);
    }
  }

  lemma OneIsReady<S, E, B>(b: Behaviour<S, E, B>, setup: Setup, a: Actor<S, B>, events: seq<E>, fault: nat -> bool)
    requires |events| == 1
    ensures Ready(b, setup, a, events, fault) <==> Taken(b, events, fault, a.sequenceNr, 0)
  {}

  /** Two events, the second refused: one is written. */
  lemma HalfABatch<S(!new), E(!new), B(!new)>(b: Behaviour<S, E, B>, event: E, fault: nat -> bool)
    requires b.encodeEvent(event).Some? && !fault(1) && fault(2)
    ensures var setup := Setup(false, None);
            Written(b, setup, Start(b, setup), [event, event], fault) == 1
  {
    hide Written, Inv;
    OneOfTwo(b, Setup(false, None), event, fault);
    assert !Taken(b, [event, event], fault, 0, 1);
  }

  /** Two events, nothing refused, but the snapshot due after the first does not encode: one is written. */
  lemma SnapshotStopsBatch<S(!new), E(!new), B(!new)>(b: Behaviour<S, E, B>, event: E, fault: nat -> bool)
    requires b.encodeEvent(event).Some? && FaultFree(fault)
    requires b.encodeState(b.handler(b.initial, event, false)).None?
    ensures var setup := Setup(true, Some(1));
            AllTaken(b, [event, event], fault, 0) && Written(b, setup, Start(b, setup), [event, event], fault) == 1
  {
    hide Written, Inv;
    OneOfTwo(b, Setup(true, Some(1)), event, fault);
  }

  lemma OneOfTwo<S(!new), E(!new), B(!new)>(b: Behaviour<S, E, B>, setup: Setup, event: E, fault: nat -> bool)
    requires b.encodeEvent(event).Some? && !fault(1)
    ensures var start, batch := Start(b, setup), [event, event];
            start.sequenceNr == 0 && start.lastSnapshot == 0 && start.state == b.initial &&
            start.every == setup.every &&
            Written(b, setup, start, batch, fault) == if Ready(b, setup, start, batch, fault) then 2 else 1
  {
    hide Written, Inv;
    var start, batch := Start(b, setup), [event, event];
    StartInv(b, setup);
    BatchWrites(b, setup, start, [], batch, fault, 1);
    BatchWrites(b, setup, start, [], batch, fault, 2);
    assert batch[..2] == batch;
    OneIsReady(b, setup, start, batch[..1], fault);
  }
}

/** The timed runtime around a strategy: the stability window and the quorum notifications. */
module SbrRuntime {
  import opened Prelude
  import opened SplitBrain

  /** The membership a tick sees: members and the addresses somebody observes as unreachable. */
  datatype Membership = Membership(members: seq<Member>, unreachable: set<string>)

  datatype Action = NoAction | DownThese(addresses: seq<string>) | DownAllOf(addresses: seq<string>) | DownMyself

  datatype Note = Lost | Regained

  datatype Runtime = Runtime(strategy: Strategy, stableAfter: nat, since: Option<nat>, quorumLost: bool)

  /** A runtime that has not ticked yet. */
  function Fresh(strategy: Strategy, stableAfter: nat): Runtime
  {
    Runtime(strategy, stableAfter, None, false)
  }

  predicate Gone(m: Member)
  {
    m.status == Down || m.status == Removed
  }

  /** Members still counted, on the wanted side of the failure detector. */
  function Side(state: Membership, ms: seq<Member>, reachable: bool): seq<Member>
  {
    if ms == [] then []
    else
      var last := ms[|ms| - 1];
      Side(state, ms[..|ms| - 1], reachable) +
      if !Gone(last) && (last.address !in state.unreachable) == reachable then [last] else []
  }

  function Reachable(state: Membership): seq<Member>
  {
    Side(state, state.members, true)
  }

  function Unreachable(state: Membership): seq<Member>
  {
    Side(state, state.members, false)
  }

  function Addresses(ms: seq<Member>): seq<string>
  {
    seq(|ms|, i requires 0 <= i < |ms| => ms[i].address)
  }

  /** What a decision becomes. */
  function ActionFor(d: Decision, state: Membership): Action
  {
    match d
    case Stay => NoAction
    case DownUnreachable => DownThese(Addresses(Unreachable(state)))
    case DownAll => DownAllOf(Addresses(state.members))
    case DownSelf => DownMyself
  }

  datatype Ticked = Ticked(next: Runtime, action: Action, notes: seq<Note>)

  /** `Instant::duration_since`: zero when the argument is later. */
  function Elapsed(now: nat, since: nat): nat
  {
    if now >= since then now - since else 0
  }

  function Tick(rt: Runtime, state: Membership, now: nat): Ticked
  {
    if Unreachable(state) == [] then
      Ticked(rt.(since := None, quorumLost := false), NoAction, if rt.quorumLost then [Regained] else [])
    else
      var since := if rt.since.Some? then rt.since.value else now;
      var waiting := rt.(since := Some(since));
      if Elapsed(now, since) < rt.stableAfter then Ticked(waiting, NoAction, [])
      else
        var d := Decide(rt.strategy, Reachable(state), Unreachable(state));
        if d == DownSelf then
          Ticked(waiting.(quorumLost := true), DownMyself, if rt.quorumLost then [] else [Lost])
        else Ticked(waiting, ActionFor(d, state), [])
  }

  class Resolver {
    const strategy: Strategy
    const stableAfter: nat
    const watched: bool       // an observer is attached
    var since: Option<nat>
    var quorumLost: bool
    var observed: seq<Note>   // the calls made on the observer

    ghost function View(): Runtime
      reads this
    {
      Runtime(strategy, stableAfter, since, quorumLost)
    }

    constructor (strategy: Strategy, stableAfter: nat, watched: bool)
      ensures View() == Fresh(strategy, stableAfter) && this.watched == watched && observed == []
    {
      this.strategy, this.stableAfter, this.watched := strategy, stableAfter, watched;
      since, quorumLost, observed := None, false, [];
    }

    method NoteQuorumLost()
      modifies this
      ensures quorumLost && since == old(since)
      ensures observed == old(observed) + if old(quorumLost) || !watched then [] else [Lost]
    {
      if !quorumLost {
        quorumLost := true;
        if watched {
          observed := observed + [Lost];
        }
      }
    }

    method NoteQuorumRegained()
      modifies this
      ensures !quorumLost && since == old(since)
      ensures observed == old(observed) + if old(quorumLost) && watched then [Regained] else []
    {
      if quorumLost {
        quorumLost := false;
        if watched {
          observed := observed + [Regained];
        }
      }
    }

    method DoTick(state: Membership, now: nat) returns (action: Action)
      modifies this
      ensures var t := Tick(old(View()), state, now);
              View() == t.next && action == t.action &&
              observed == old(observed) + if watched then t.notes else []
    {
      hide Decide, Side;
      var reachable, unreachable := SplitMembers(state);
      if unreachable == [] {
        since := None;
        NoteQuorumRegained();
        return NoAction;
      }
      if since.None? {
        since := Some(now);
      }
      if Elapsed(now, since.value) < stableAfter {
        return NoAction;
      }
      match Decide(strategy, reachable, unreachable) {
        case Stay => action := NoAction;
        case DownUnreachable => action := DownThese(Addresses(unreachable));
        case DownAll => action := DownAllOf(Addresses(state.members));
        case DownSelf =>
          NoteQuorumLost();
          action := DownMyself;
      }
    }
  }

  /** The partitioning loop at the head of `tick`. */
  method SplitMembers(state: Membership) returns (reachable: seq<Member>, unreachable: seq<Member>)
    ensures reachable == Reachable(state) && unreachable == Unreachable(state)
  {
    reachable, unreachable := [], [];
    for i := 0 to |state.members|
      invariant reachable == Side(state, state.members[..i], true) &&
                unreachable == Side(state, state.members[..i], false)
    {
      var m := state.members[i];
      assert state.members[..i + 1][..i] == state.members[..i];
      if Gone(m) {
        continue;
      }
      if m.address !in state.unreachable {
        reachable := reachable + [m];
      } else {
        unreachable := unreachable + [m];
      }
    }
    assert state.members[..|state.members|] == state.members;
  }

  // ----- sequences of ticks ---------------------------------------------------

  datatype Input = Input(state: Membership, now: nat)

  predicate Partitioned(x: Input)
  {
    Unreachable(x.state) != []
  }

  function After(rt: Runtime, inputs: seq<Input>): Runtime
  {
    if inputs == [] then rt
    else Tick(After(rt, inputs[..|inputs| - 1]), inputs[|inputs| - 1].state, inputs[|inputs| - 1].now).next
  }

  function TickAt(rt: Runtime, inputs: seq<Input>, i: nat): Ticked
    requires i < |inputs|
  {
    Tick(After(rt, inputs[..i]), inputs[i].state, inputs[i].now)
  }

  function Notes(rt: Runtime, inputs: seq<Input>): seq<Note>
  {
    if inputs == [] then []
    else Notes(rt, inputs[..|inputs| - 1]) + TickAt(rt, inputs, |inputs| - 1).notes
  }

  predicate ClockRuns(inputs: seq<Input>)
  {
    forall i, j :: 0 <= i < j < |inputs| ==> inputs[i].now <= inputs[j].now
  }

  /** An unbroken stretch of partitioned ticks from `j` to `i`. */
  predicate Stretch(inputs: seq<Input>, j: nat, i: nat)
    requires i < |inputs|
  {
    j <= i && forall k :: j <= k <= i ==> Partitioned(inputs[k])
  }

  /** First tick of the stretch that ends at `i`. */
  function StretchStart(inputs: seq<Input>, i: nat): (j: nat)
    requires i < |inputs| && Partitioned(inputs[i])
    ensures Stretch(inputs, j, i) && (j == 0 || !Partitioned(inputs[j - 1]))
  {
    if i == 0 || !Partitioned(inputs[i - 1]) then i else StretchStart(inputs, i - 1)
  }

  lemma {:induction false} SinceIsStretchStart(strategy: Strategy, stableAfter: nat, inputs: seq<Input>, n: nat)
    requires n <= |inputs|
    ensures var rt := After(Fresh(strategy, stableAfter), inputs[..n]);
            rt.strategy == strategy && rt.stableAfter == stableAfter &&
            rt.since == if n == 0 || !Partitioned(inputs[n - 1]) then None
                        else Some(inputs[StretchStart(inputs, n - 1)].now)
    decreases n
  {
    hide Decide, Side;
    if n > 0 {
      SinceIsStretchStart(strategy, stableAfter, inputs, n - 1);
      assert inputs[..n][..n - 1] == inputs[..n - 1];
    }
  }

  /** The stretch from `j` to `i` lasts for the stability window. */
  predicate LongEnough(inputs: seq<Input>, j: nat, i: nat, stableAfter: nat)
    requires i < |inputs|
  {
    Stretch(inputs, j, i) && inputs[j].now + stableAfter <= inputs[i].now
  }

  /** Ticks up to `i` have been partitioned without a break for at least the stability window. */
  ghost predicate StableSince(inputs: seq<Input>, i: nat, stableAfter: nat)
    requires i < |inputs|
  {
    exists j: nat :: LongEnough(inputs, j, i, stableAfter)
  }

  /** No stretch ending at `i` starts earlier. */
  lemma {:induction false} StartIsFirst(inputs: seq<Input>, j: nat, i: nat)
    requires i < |inputs| && Partitioned(inputs[i]) && Stretch(inputs, j, i)
    ensures StretchStart(inputs, i) <= j
  {
    hide Partitioned;
    if j < i {
      StartIsFirst(inputs, j, i - 1);
    }
  }

  /** The window is measured from the start of the stretch. */
  lemma StableFromStart(inputs: seq<Input>, i: nat, stableAfter: nat)
    requires i < |inputs| && ClockRuns(inputs) && Partitioned(inputs[i])
    ensures StableSince(inputs, i, stableAfter) <==> inputs[StretchStart(inputs, i)].now + stableAfter <= inputs[i].now
  {
    hide Partitioned, StretchStart;
    var start := StretchStart(inputs, i);
    if StableSince(inputs, i, stableAfter) {
      var j: nat :| LongEnough(inputs, j, i, stableAfter);
      StartIsFirst(inputs, j, i);
      assert start < j ==> inputs[start].now <= inputs[j].now;
    } else {
      assert !LongEnough(inputs, start, i, stableAfter);
    }
  }

  /**
   * The runtime acts at a tick exactly when the partition has been unbroken for the stability
   * window, and then with the strategy's decision on what it sees.
   */
  lemma ActsExactlyWhenStable(strategy: Strategy, stableAfter: nat, inputs: seq<Input>, i: nat)
    requires i < |inputs| && ClockRuns(inputs)
    ensures var x := inputs[i];
            TickAt(Fresh(strategy, stableAfter), inputs, i).action ==
            if Partitioned(x) && StableSince(inputs, i, stableAfter)
            then ActionFor(Decide(strategy, Reachable(x.state), Unreachable(x.state)), x.state)
            else NoAction
  {
    hide Decide, Side, After, StableSince;
    SinceIsStretchStart(strategy, stableAfter, inputs, i);
    if Partitioned(inputs[i]) {
      StableFromStart(inputs, i, stableAfter);
      var start := StretchStart(inputs, i);
      assert start < i ==> inputs[start].now <= inputs[i].now;
    }
  }

  // ----- notifications --------------------------------------------------------

  predicate Alternates(notes: seq<Note>)
  {
    forall k :: 0 <= k < |notes| ==> notes[k] == if k % 2 == 0 then Lost else Regained
  }

  /** A tick notifies exactly when it flips the flag. */
  lemma TickNotes(rt: Runtime, state: Membership, now: nat)
    ensures var t := Tick(rt, state, now);
            t.notes == if t.next.quorumLost == rt.quorumLost then [] else if rt.quorumLost then [Regained] else [Lost]
  {
    hide Decide, Side;
  }

  /** Notifications alternate, starting with a loss; the flag says which one is next. */
  lemma {:induction false} NotesAlternate(strategy: Strategy, stableAfter: nat, inputs: seq<Input>)
    ensures var notes := Notes(Fresh(strategy, stableAfter), inputs);
            Alternates(notes) && (After(Fresh(strategy, stableAfter), inputs).quorumLost <==> |notes| % 2 == 1)
    decreases |inputs|
  {
    hide Tick;
    if inputs != [] {
      var before := inputs[..|inputs| - 1];
      NotesAlternate(strategy, stableAfter, before);
      TickNotes(After(Fresh(strategy, stableAfter), before), inputs[|inputs| - 1].state, inputs[|inputs| - 1].now);
    }
  }

  // ----- who is downed --------------------------------------------------------

  /** A member that is still counted and that nobody, or somebody, observes as unreachable. */
  predicate OnSide(state: Membership, m: Member, reachable: bool)
  {
    m.status != Down && m.status != Removed && (m.address in state.unreachable <==> !reachable)
  }

  /** A side is the members that belong to it, in order. */
  lemma SideOfOne(state: Membership, m: Member, reachable: bool)
    ensures Side(state, [], reachable) == []
    ensures Side(state, [m], reachable) == if OnSide(state, m, reachable) then [m] else []
  {
    assert [m][..0] == [];
  }

  lemma {:induction false} SideConcat(state: Membership, a: seq<Member>, b: seq<Member>, reachable: bool)
    ensures Side(state, a + b, reachable) == Side(state, a, reachable) + Side(state, b, reachable)
    decreases |b|
  {
    if b == [] {
      assert a + b == a;
    } else {
      var all := a + b;
      SideConcat(state, a, b[..|b| - 1], reachable);
      assert all[..|all| - 1] == a + b[..|b| - 1];
    }
  }

  lemma {:induction false} SideIs(state: Membership, ms: seq<Member>, reachable: bool, m: Member)
    ensures m in Side(state, ms, reachable) <==> m in ms && OnSide(state, m, reachable)
    decreases |ms|
  {
    if ms != [] {
      SideIs(state, ms[..|ms| - 1], reachable, m);
      assert ms == ms[..|ms| - 1] + [ms[|ms| - 1]];
    }
  }

  /** Downing the other side names exactly the members on it; downing all names every member. */
  lemma WhoIsDowned(state: Membership, d: Decision, address: string)
    ensures match ActionFor(d, state)
            case NoAction => d == Stay
            case DownMyself => d == DownSelf
            case DownThese(downed) =>
              d == DownUnreachable &&
              (address in downed <==> exists m :: m in state.members && OnSide(state, m, false) && m.address == address)
            case DownAllOf(downed) =>
              d == DownAll && (address in downed <==> exists m :: m in state.members && m.address == address)
  {
    hide Side;
    AddressesOf(Unreachable(state), address);
    AddressesOf(state.members, address);
    forall m: Member
      ensures m in Unreachable(state) <==> m in state.members && OnSide(state, m, false)
    {
      SideIs(state, state.members, false, m);
    }
  }

  lemma AddressesOf(ms: seq<Member>, address: string)
    ensures |Addresses(ms)| == |ms| && forall i :: 0 <= i < |ms| ==> Addresses(ms)[i] == ms[i].address
    ensures address in Addresses(ms) <==> exists m :: m in ms && m.address == address
  {
    if address in Addresses(ms) {
      var i :| 0 <= i < |ms| && Addresses(ms)[i] == address;
      assert ms[i] in ms;
    }
    if m :| m in ms && m.address == address {
      var i :| 0 <= i < |ms| && ms[i] == m;
      assert Addresses(ms)[i] == address;
    }
  }

  /** A partition is seen exactly when a member still counted is observed as unreachable. */
  lemma PartitionedIff(x: Input)
    ensures Partitioned(x) <==> exists m :: m in x.state.members && OnSide(x.state, m, false)
  {
    hide Side;
    if m :| m in x.state.members && OnSide(x.state, m, false) {
      SideIs(x.state, x.state.members, false, m);
    }
    if Partitioned(x) {
      var m := Unreachable(x.state)[0];
      SideIs(x.state, x.state.members, false, m);
    }
  }

  /** A loss is noted exactly at the first acting tick that steps down, a recovery at the next one without partition. */
  lemma NotedWhen(strategy: Strategy, stableAfter: nat, inputs: seq<Input>, i: nat)
    requires i < |inputs|
    ensures var t, was := TickAt(Fresh(strategy, stableAfter), inputs, i),
                          After(Fresh(strategy, stableAfter), inputs[..i]).quorumLost;
            t.notes == if !Partitioned(inputs[i]) then (if was then [Regained] else [])
                       else if t.action == DownMyself && !was then [Lost] else []
  {
    hide Decide, Side, After;
  }

  /** A clock that was set back counts as no time: the runtime waits, or acts at once when it has no window. */
  lemma ClockSetBack(rt: Runtime, state: Membership, now: nat)
    requires Unreachable(state) != [] && rt.since.Some? && now < rt.since.value
    ensures var t := Tick(rt, state, now);
            t.next.since == rt.since && (rt.stableAfter > 0 ==> t == Ticked(rt, NoAction, [])) &&
            (rt.stableAfter == 0 ==>
             t.action == ActionFor(Decide(rt.strategy, Reachable(state), Unreachable(state)), state))
  {
    hide Decide, Side;
  }
}

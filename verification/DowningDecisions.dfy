/** What each downing strategy decides for each side of a partition, in terms of the whole membership. */
module DowningDecisions {
  import opened Prelude
  import opened SplitBrain

  function DecisionAt(s: Strategy, sides: seq<seq<Member>>, i: nat): Decision
    requires i < |sides|
  {
    Decide(s, sides[i], Others(sides, i))
  }

  // ----- counts and weights ---------------------------------------------------

  ghost function UpPositions(ms: seq<Member>): set<int>
  {
    set i | 0 <= i < |ms| && ms[i].status == Up
  }

  /** The count is the number of Up members. */
  lemma {:induction false} CountUpCounts(ms: seq<Member>)
    ensures CountUp(ms) == |UpPositions(ms)|
    decreases |ms|
  {
    if ms == [] {
      assert UpPositions(ms) == {};
    } else {
      var n := |ms| - 1;
      var front, last := ms[..n], ms[n..];
      assert ms == front + last && last[1..] == [];
      CountUpConcat(front, last);
      CountUpCounts(front);
      assert UpPositions(ms) == UpPositions(front) + if ms[n].status == Up then {n} else {};
    }
  }

  /** A member weighs as much as its heaviest weighted role. */
  lemma {:induction false} WeightIsMaximum(w: map<string, nat>, roles: seq<string>)
    ensures forall r :: r in roles && r in w ==> w[r] <= WeightOf(w, roles)
    ensures WeightOf(w, roles) == 0 || exists r :: r in roles && r in w && w[r] == WeightOf(w, roles)
  {
    if roles != [] {
      WeightIsMaximum(w, roles[1..]);
      if WeightOf(w, roles) != WeightOf(w, roles[1..]) {
        assert roles[0] in roles && roles[0] in w && w[roles[0]] == WeightOf(w, roles);
      }
    }
  }

  /** Only Up members weigh anything. */
  lemma WeightOfOne(w: map<string, nat>, m: Member)
    ensures UpWeight(w, [m]) == if m.status == Up then WeightOf(w, m.roles) else 0
  {
    assert [m][1..] == [];
  }

  lemma WholeCount(sides: seq<seq<Member>>, i: nat)
    requires i < |sides|
    ensures CountUp(Flatten(sides)) == CountUp(sides[i]) + CountUp(Others(sides, i))
  {
    hide Flatten;
    var before, after := Flatten(sides[..i]), Flatten(sides[i + 1..]);
    assert sides == sides[..i] + sides[i..] && sides[i..] == [sides[i]] + sides[i + 1..];
    FlattenConcat(sides[..i], sides[i..]);
    FlattenHead(sides[i..]);
    CountUpConcat(before, sides[i] + after);
    CountUpConcat(sides[i], after);
    CountUpConcat(before, after);
  }

  // ----- majorities -----------------------------------------------------------

  /** KeepMajority: more than half of the Up members go on, exactly half go down with all, fewer step down. */
  lemma MajorityDecides(sides: seq<seq<Member>>, i: nat)
    requires i < |sides|
    ensures var mine, all := CountUp(sides[i]), CountUp(Flatten(sides));
            DecisionAt(KeepMajority, sides, i) ==
            if 2 * mine > all then DownUnreachable else if 2 * mine == all then DownAll else DownSelf
  {
    hide Others, Flatten, CountUp;
    WholeCount(sides, i);
  }

  /** LeaseMajority: the same, except that a half with the lease goes on. */
  lemma LeaseMajorityDecides(lease: bool, sides: seq<seq<Member>>, i: nat)
    requires i < |sides|
    ensures var mine, all := CountUp(sides[i]), CountUp(Flatten(sides));
            DecisionAt(LeaseMajority(lease), sides, i) ==
            if 2 * mine > all || (2 * mine == all && lease) then DownUnreachable
            else if 2 * mine == all then DownAll else DownSelf
  {
    hide Others, Flatten, CountUp;
    WholeCount(sides, i);
  }

  /** A side with more than half of the Up members goes on, and every other side steps down. */
  lemma MajorityWins(sides: seq<seq<Member>>, i: nat, j: nat)
    requires i < |sides| && j < |sides| && i != j && 2 * CountUp(sides[i]) > CountUp(Flatten(sides))
    ensures Survives(KeepMajority, sides, i) && DecisionAt(KeepMajority, sides, j) == DownSelf
  {
    hide Others, Flatten, CountUp;
    MajorityDecides(sides, i);
    MajorityDecides(sides, j);
    WholeCount(sides, i);
    OthersCount(sides, i, j);
  }

  // ----- the other strategies -------------------------------------------------

  lemma QuorumDecides(q: nat, sides: seq<seq<Member>>, i: nat)
    requires i < |sides|
    ensures Survives(StaticQuorum(q), sides, i) <==> |sides[i]| >= q
    ensures DecisionAt(StaticQuorum(q), sides, i) == DownSelf <==> |sides[i]| < q
  {}

  ghost predicate IsOn(sides: seq<seq<Member>>, i: nat, address: string)
    requires i < |sides|
  {
    exists m :: m in sides[i] && m.address == address
  }

  /** KeepReferee: the side of the referee decides by its size, every other side steps down. */
  lemma RefereeDecides(referee: string, least: nat, sides: seq<seq<Member>>, i: nat)
    requires i < |sides|
    ensures DecisionAt(KeepReferee(referee, least), sides, i) ==
            if !IsOn(sides, i, referee) then DownSelf else if |sides[i]| < least then DownAll else DownUnreachable
  {
    hide Others;
    if m :| m in sides[i] && m.address == referee {
      var k :| 0 <= k < |sides[i]| && sides[i][k] == m;
      assert HasAddress(sides[i], referee);
    }
    if HasAddress(sides[i], referee) {
      var k :| 0 <= k < |sides[i]| && sides[i][k].address == referee;
      assert sides[i][k] in sides[i];
    }
  }

  /** DownAll: every side goes down unless it is alone in the world. */
  lemma EverythingDecides(sides: seq<seq<Member>>, i: nat)
    requires i < |sides|
    ensures DecisionAt(DownEverything, sides, i) ==
            if forall j :: 0 <= j < |sides| && j != i ==> sides[j] == [] then Stay else DownAll
  {
    hide Flatten;
    var u := Others(sides, i);
    if u != [] {
      var k, x := OtherSideOfMember(sides, i, 0);
      assert sides[k] != [];
    }
    if j :| 0 <= j < |sides| && j != i && sides[j] != [] {
      var before, after := PartOfOthers(sides, i, j);
    }
  }

  /** RoleWeightedQuorum: by the weight of the side's Up members in 32 bits. */
  lemma WeightDecides(w: map<string, nat>, least: nat, sides: seq<seq<Member>>, i: nat)
    requires i < |sides|
    ensures Survives(RoleWeightedQuorum(w, least), sides, i) <==> UpWeight(w, sides[i]) % TWO_32 >= least
    ensures !Survives(RoleWeightedQuorum(w, least), sides, i) ==>
              DecisionAt(RoleWeightedQuorum(w, least), sides, i) == DownSelf
  {}

  /** KeepOldest: besides the survivors, a lone oldest member takes all down and every other side steps down. */
  lemma OldestDecides(alone: bool, sides: seq<seq<Member>>, i: nat)
    requires i < |sides| && sides[i] != []
    ensures DecisionAt(KeepOldest(alone), sides, i) ==
            if !HoldsOldest(sides, i) then DownSelf else if Lone(alone, sides, i) then DownAll else DownUnreachable
  {
    hide Others, Oldest;
    HolderSurvives(alone, sides, i);
    if HoldsOldest(sides, i) && Lone(alone, sides, i) {
      HolderSurvives(false, sides, i);
    } else if !HoldsOldest(sides, i) {
      HolderSurvives(false, sides, i);
    }
  }

  lemma EmptySideDecides(alone: bool, sides: seq<seq<Member>>, i: nat)
    requires i < |sides| && sides[i] == []
    ensures DecisionAt(KeepOldest(alone), sides, i) == if Others(sides, i) == [] then Stay else DownSelf
  {}
}

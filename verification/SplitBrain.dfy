/** The downing strategies and how many sides of a partition they let survive. */
module SplitBrain {
  import opened Prelude

  datatype MemberStatus = Joining | WeaklyUp | Up | Leaving | Exiting | Down | Removed

  datatype Member = Member(address: string, upNumber: int, status: MemberStatus, roles: seq<string>)

  datatype Decision = DownUnreachable | DownAll | DownSelf | Stay

  datatype Strategy =
    | KeepMajority
    | StaticQuorum(quorumSize: nat)
    | KeepOldest(downIfAlone: bool)
    | KeepReferee(referee: string, downAllIfLessThan: nat)
    | DownEverything
    | LeaseMajority(leaseAcquired: bool)
    | RoleWeightedQuorum(weights: map<string, nat>, minQuorumWeight: nat)

  // ----- decisions ------------------------------------------------------------

  function CountUp(ms: seq<Member>): nat
  {
    if ms == [] then 0 else (if ms[0].status == Up then 1 else 0) + CountUp(ms[1..])
  }

  function MajorityDecision(r: seq<Member>, u: seq<Member>): Decision
  {
    if CountUp(r) > CountUp(u) then DownUnreachable
    else if CountUp(r) < CountUp(u) then DownSelf
    else DownAll
  }

  /** The lowest `up_number` of a non-empty side, whatever the members' status. */
  function Oldest(ms: seq<Member>): int
    requires ms != []
  {
    if |ms| == 1 then ms[0].upNumber else Min(ms[0].upNumber, Oldest(ms[1..]))
  }

  function OldestDecision(downIfAlone: bool, r: seq<Member>, u: seq<Member>): Decision
  {
    if r == [] then (if u == [] then Stay else DownSelf)
    else if u == [] then DownUnreachable
    else if Oldest(r) <= Oldest(u) then (if |r| == 1 && downIfAlone then DownAll else DownUnreachable)
    else DownSelf
  }

  predicate HasAddress(ms: seq<Member>, address: string)
  {
    exists i :: 0 <= i < |ms| && ms[i].address == address
  }

  /** The largest weight among a member's roles, 0 when none is weighted. */
  function WeightOf(weights: map<string, nat>, roles: seq<string>): nat
  {
    if roles == [] then 0
    else
      var rest := WeightOf(weights, roles[1..]);
      if roles[0] in weights && weights[roles[0]] > rest then weights[roles[0]] else rest
  }

  function UpWeight(weights: map<string, nat>, ms: seq<Member>): nat
  {
    if ms == [] then 0
    else (if ms[0].status == Up then WeightOf(weights, ms[0].roles) else 0) + UpWeight(weights, ms[1..])
  }

  /** The sum is kept in 32 bits and wraps around. */
  predicate Reaches(weights: map<string, nat>, ms: seq<Member>, least: nat)
  {
    UpWeight(weights, ms) % TWO_32 >= least
  }

  function Decide(s: Strategy, r: seq<Member>, u: seq<Member>): Decision
  {
    match s
    case KeepMajority => MajorityDecision(r, u)
    case StaticQuorum(q) => if |r| >= q then DownUnreachable else DownSelf
    case KeepOldest(alone) => OldestDecision(alone, r, u)
    case KeepReferee(referee, least) =>
      if !HasAddress(r, referee) then DownSelf
      else if |r| < least then DownAll
      else DownUnreachable
    case DownEverything => if u == [] then Stay else DownAll
    case LeaseMajority(lease) =>
      if MajorityDecision(r, u) == DownAll && lease then DownUnreachable else MajorityDecision(r, u)
    case RoleWeightedQuorum(weights, least) => if Reaches(weights, r, least) then DownUnreachable else DownSelf
  }

  // ----- a partition ----------------------------------------------------------

  function Flatten(sides: seq<seq<Member>>): seq<Member>
  {
    if sides == [] then [] else sides[0] + Flatten(sides[1..])
  }

  /** What side `i` cannot reach. */
  function Others(sides: seq<seq<Member>>, i: nat): seq<Member>
    requires i < |sides|
  {
    Flatten(sides[..i]) + Flatten(sides[i + 1..])
  }

  /** Side `i` keeps running and downs everyone else. */
  predicate Survives(s: Strategy, sides: seq<seq<Member>>, i: nat)
    requires i < |sides|
  {
    Decide(s, sides[i], Others(sides, i)) == DownUnreachable
  }

  ghost predicate AtMostOne(s: Strategy, sides: seq<seq<Member>>)
  {
    forall i, j :: 0 <= i < |sides| && 0 <= j < |sides| && Survives(s, sides, i) && Survives(s, sides, j) ==> i == j
  }

  // ----- additive measures over a partition -----------------------------------

  lemma {:induction false} CountUpConcat(a: seq<Member>, b: seq<Member>)
    ensures CountUp(a + b) == CountUp(a) + CountUp(b)
  {
    if a == [] {
      assert a + b == b;
    } else {
      CountUpConcat(a[1..], b);
      assert (a + b)[1..] == a[1..] + b;
    }
  }

  lemma {:induction false} UpWeightConcat(w: map<string, nat>, a: seq<Member>, b: seq<Member>)
    ensures UpWeight(w, a + b) == UpWeight(w, a) + UpWeight(w, b)
  {
    if a == [] {
      assert a + b == b;
    } else {
      UpWeightConcat(w, a[1..], b);
      assert (a + b)[1..] == a[1..] + b;
    }
  }

  /** Any side is part of what another side cannot reach. */
  lemma {:induction false} PartOfFlatten(sides: seq<seq<Member>>, j: nat)
    returns (before: seq<Member>, after: seq<Member>)
    requires j < |sides|
    ensures Flatten(sides) == before + sides[j] + after
  {
    if j == 0 {
      before, after := [], Flatten(sides[1..]);
    } else {
      before, after := PartOfFlatten(sides[1..], j - 1);
      before := sides[0] + before;
    }
  }

  lemma PartOfOthers(sides: seq<seq<Member>>, i: nat, j: nat) returns (before: seq<Member>, after: seq<Member>)
    requires i < |sides| && j < |sides| && i != j
    ensures Others(sides, i) == before + sides[j] + after
  {
    if j < i {
      before, after := PartOfFlatten(sides[..i], j);
      after := after + Flatten(sides[i + 1..]);
    } else {
      before, after := PartOfFlatten(sides[i + 1..], j - i - 1);
      before := Flatten(sides[..i]) + before;
    }
  }

  lemma FlattenNone()
    ensures Flatten([]) == []
  {}

  lemma FlattenHead(sides: seq<seq<Member>>)
    requires sides != []
    ensures Flatten(sides) == sides[0] + Flatten(sides[1..])
  {}

  lemma {:induction false} FlattenConcat(a: seq<seq<Member>>, b: seq<seq<Member>>)
    ensures Flatten(a + b) == Flatten(a) + Flatten(b)
  {
    hide Flatten;
    if a == [] {
      assert a + b == b;
      FlattenNone();
    } else {
      FlattenConcat(a[1..], b);
      assert (a + b)[1..] == a[1..] + b;
      FlattenHead(a);
      FlattenHead(a + b);
      assert a[0] + (Flatten(a[1..]) + Flatten(b)) == a[0] + Flatten(a[1..]) + Flatten(b);
    }
  }

  /** Two different sides are disjoint parts of the whole. */
  lemma TwoSides(sides: seq<seq<Member>>, i: nat, j: nat) returns (a: seq<Member>, b: seq<Member>, c: seq<Member>)
    requires i < j < |sides|
    ensures Flatten(sides) == a + sides[i] + b + sides[j] + c
  {
    a := Flatten(sides[..i]);
    var rest := sides[i + 1..];
    b, c := PartOfFlatten(rest, j - i - 1);
    assert sides == sides[..i] + sides[i..] && sides[i..] == [sides[i]] + rest;
    FlattenConcat(sides[..i], sides[i..]);
    assert sides[i..][1..] == rest;
    assert rest[j - i - 1] == sides[j];
  }

  /** Members of two different sides stand at two different places of the whole. */
  lemma TwoPositions(sides: seq<seq<Member>>, i: nat, j: nat, x: nat, y: nat) returns (p: nat, q: nat)
    requires i < j < |sides| && x < |sides[i]| && y < |sides[j]|
    ensures p < q < |Flatten(sides)| && Flatten(sides)[p] == sides[i][x] && Flatten(sides)[q] == sides[j][y]
  {
    hide Flatten;
    var a, b, c := TwoSides(sides, i, j);
    p, q := |a| + x, |a| + |sides[i]| + |b| + y;
  }

  // ----- at most one survivor -------------------------------------------------

  lemma OthersCount(sides: seq<seq<Member>>, i: nat, j: nat)
    requires i < |sides| && j < |sides| && i != j
    ensures CountUp(Others(sides, i)) >= CountUp(sides[j])
  {
    var before, after := PartOfOthers(sides, i, j);
    CountUpConcat(before + sides[j], after);
    CountUpConcat(before, sides[j]);
  }

  /** KeepMajority: always. */
  lemma MajorityAtMostOne(sides: seq<seq<Member>>)
    ensures AtMostOne(KeepMajority, sides)
  {
    hide Others;
    forall i, j | 0 <= i < |sides| && 0 <= j < |sides| && Survives(KeepMajority, sides, i) &&
      Survives(KeepMajority, sides, j)
      ensures i == j
    {
      if i != j {
        OthersCount(sides, i, j);
        OthersCount(sides, j, i);
      }
    }
  }

  /** LeaseMajority: whenever at most one side holds the lease. */
  lemma LeaseAtMostOne(lease: seq<bool>, sides: seq<seq<Member>>, i: nat, j: nat)
    requires |lease| == |sides| && i < |sides| && j < |sides|
    requires forall k, l :: 0 <= k < |lease| && 0 <= l < |lease| && lease[k] && lease[l] ==> k == l
    requires Decide(LeaseMajority(lease[i]), sides[i], Others(sides, i)) == DownUnreachable
    requires Decide(LeaseMajority(lease[j]), sides[j], Others(sides, j)) == DownUnreachable
    ensures i == j
  {
    hide Others;
    if i != j {
      OthersCount(sides, i, j);
      OthersCount(sides, j, i);
    }
  }

  /** StaticQuorum: two sides can both survive some split exactly when twice the quorum fits the members. */
  lemma QuorumAtMostOneIff(members: seq<Member>, q: nat)
    ensures (forall sides :: Flatten(sides) == members ==> AtMostOne(StaticQuorum(q), sides)) <==> 2 * q > |members|
  {
    if 2 * q > |members| {
      forall sides | Flatten(sides) == members ensures AtMostOne(StaticQuorum(q), sides) {
        QuorumDisjoint(sides, q);
      }
    } else {
      var sides := [members[..q], members[q..]];
      assert sides[1..] == [members[q..]] && sides[1..][1..] == [];
      assert Flatten(sides[1..]) == members[q..] + [];
      assert Flatten(sides) == members;
      assert Survives(StaticQuorum(q), sides, 0) && Survives(StaticQuorum(q), sides, 1);
    }
  }

  lemma QuorumDisjoint(sides: seq<seq<Member>>, q: nat)
    requires 2 * q > |Flatten(sides)|
    ensures AtMostOne(StaticQuorum(q), sides)
  {
    hide Others, Flatten;
    forall i, j | 0 <= i < |sides| && 0 <= j < |sides| && Survives(StaticQuorum(q), sides, i) &&
      Survives(StaticQuorum(q), sides, j)
      ensures i == j
    {
      if i < j {
        var a, b, c := TwoSides(sides, i, j);
      } else if j < i {
        var a, b, c := TwoSides(sides, j, i);
      }
    }
  }

  /** RoleWeightedQuorum: when twice the required weight exceeds the weight of all Up members. */
  lemma WeightedAtMostOne(w: map<string, nat>, least: nat, sides: seq<seq<Member>>)
    requires 2 * least > UpWeight(w, Flatten(sides))
    ensures AtMostOne(RoleWeightedQuorum(w, least), sides)
  {
    hide Others, Flatten, UpWeight;
    var s := RoleWeightedQuorum(w, least);
    forall i, j | 0 <= i < |sides| && 0 <= j < |sides| && Survives(s, sides, i) && Survives(s, sides, j)
      ensures i == j
    {
      if i < j {
        PairWeight(w, sides, i, j);
      } else if j < i {
        PairWeight(w, sides, j, i);
      }
    }
  }

  lemma PairWeight(w: map<string, nat>, sides: seq<seq<Member>>, i: nat, j: nat)
    requires i < j < |sides|
    ensures UpWeight(w, sides[i]) + UpWeight(w, sides[j]) <= UpWeight(w, Flatten(sides))
  {
    hide Flatten, UpWeight;
    var a, b, c := TwoSides(sides, i, j);
    UpWeightConcat(w, a + sides[i] + b + sides[j], c);
    UpWeightConcat(w, a + sides[i] + b, sides[j]);
    UpWeightConcat(w, a + sides[i], b);
    UpWeightConcat(w, a, sides[i]);
  }

  /** KeepReferee: whenever no two members have the same address. */
  lemma RefereeAtMostOne(referee: string, least: nat, sides: seq<seq<Member>>)
    requires forall x, y :: 0 <= x < y < |Flatten(sides)| ==> Flatten(sides)[x].address != Flatten(sides)[y].address
    ensures AtMostOne(KeepReferee(referee, least), sides)
  {
    hide Others, Flatten;
    var s := KeepReferee(referee, least);
    forall i, j | 0 <= i < |sides| && 0 <= j < |sides| && Survives(s, sides, i) && Survives(s, sides, j)
      ensures i == j
    {
      if i < j {
        OneReferee(referee, sides, i, j);
      } else if j < i {
        OneReferee(referee, sides, j, i);
      }
    }
  }

  lemma OneReferee(referee: string, sides: seq<seq<Member>>, i: nat, j: nat)
    requires i < j < |sides|
    requires forall x, y :: 0 <= x < y < |Flatten(sides)| ==> Flatten(sides)[x].address != Flatten(sides)[y].address
    ensures !(HasAddress(sides[i], referee) && HasAddress(sides[j], referee))
  {
    hide Flatten;
    if HasAddress(sides[i], referee) && HasAddress(sides[j], referee) {
      var x :| 0 <= x < |sides[i]| && sides[i][x].address == referee;
      var y :| 0 <= y < |sides[j]| && sides[j][y].address == referee;
      var p, q := TwoPositions(sides, i, j, x, y);
    }
  }

  // ----- KeepOldest -----------------------------------------------------------

  lemma {:induction false} OldestIsMinimum(ms: seq<Member>)
    requires ms != []
    ensures forall k :: 0 <= k < |ms| ==> Oldest(ms) <= ms[k].upNumber
    ensures exists k :: 0 <= k < |ms| && ms[k].upNumber == Oldest(ms)
  {
    if |ms| == 1 {
      assert ms[0].upNumber == Oldest(ms);
    } else {
      OldestIsMinimum(ms[1..]);
      var k :| 0 <= k < |ms[1..]| && ms[1..][k].upNumber == Oldest(ms[1..]);
      assert ms[1..][k] == ms[k + 1];
      assert ms[0].upNumber == Oldest(ms) || ms[k + 1].upNumber == Oldest(ms);
      forall l | 0 <= l < |ms| ensures Oldest(ms) <= ms[l].upNumber {
        if l > 0 { assert ms[l] == ms[1..][l - 1]; }
      }
    }
  }

  /** A surviving side is at least as old as any other non-empty side. */
  lemma SurvivorIsOldest(alone: bool, sides: seq<seq<Member>>, i: nat, j: nat)
    requires i < |sides| && j < |sides| && i != j && Survives(KeepOldest(alone), sides, i) && sides[j] != []
    ensures sides[i] != [] && Oldest(sides[i]) <= Oldest(sides[j])
  {
    hide Oldest;
    var before, after := PartOfOthers(sides, i, j);
    var u := Others(sides, i);
    assert u != [];
    OldestIsMinimum(u);
    OldestIsMinimum(sides[j]);
    var k :| 0 <= k < |sides[j]| && sides[j][k].upNumber == Oldest(sides[j]);
    assert u[|before| + k] == sides[j][k];
  }

  lemma {:induction false} SideOfMember(sides: seq<seq<Member>>, p: nat) returns (k: nat, x: nat)
    requires p < |Flatten(sides)|
    ensures k < |sides| && x < |sides[k]| && sides[k][x] == Flatten(sides)[p]
  {
    if p < |sides[0]| {
      k, x := 0, p;
    } else {
      k, x := SideOfMember(sides[1..], p - |sides[0]|);
      k := k + 1;
    }
  }

  lemma OtherSideOfMember(sides: seq<seq<Member>>, i: nat, p: nat) returns (k: nat, x: nat)
    requires i < |sides| && p < |Others(sides, i)|
    ensures k < |sides| && k != i && x < |sides[k]| && sides[k][x] == Others(sides, i)[p]
  {
    hide Flatten;
    if p < |Flatten(sides[..i])| {
      k, x := SideOfMember(sides[..i], p);
    } else {
      k, x := SideOfMember(sides[i + 1..], p - |Flatten(sides[..i])|);
      k := k + i + 1;
    }
  }

  /** Side `i` holds a member as old as any. */
  predicate HoldsOldest(sides: seq<seq<Member>>, i: nat)
    requires i < |sides|
  {
    sides[i] != [] && forall k :: 0 <= k < |sides| && sides[k] != [] ==> Oldest(sides[i]) <= Oldest(sides[k])
  }

  /** Side `i` is a lone member that is to be downed. */
  predicate Lone(alone: bool, sides: seq<seq<Member>>, i: nat)
    requires i < |sides|
  {
    alone && |sides[i]| == 1 && Others(sides, i) != []
  }

  /** Side `i` holds a member as old as any, and is not a lone member that is to be downed. */
  predicate Stays(alone: bool, sides: seq<seq<Member>>, i: nat)
    requires i < |sides|
  {
    HoldsOldest(sides, i) && !Lone(alone, sides, i)
  }

  lemma HolderSurvives(alone: bool, sides: seq<seq<Member>>, i: nat)
    requires i < |sides|
    ensures Survives(KeepOldest(alone), sides, i) <==> Stays(alone, sides, i)
  {
    hide Oldest, Others;
    var u := Others(sides, i);
    if Survives(KeepOldest(alone), sides, i) {
      forall k | 0 <= k < |sides| && sides[k] != [] ensures Oldest(sides[i]) <= Oldest(sides[k]) {
        if k != i { SurvivorIsOldest(alone, sides, i, k); }
      }
    } else if Stays(alone, sides, i) {
      assert u != [];
      OldestIsMinimum(u);
      var p :| 0 <= p < |u| && u[p].upNumber == Oldest(u);
      var k, x := OtherSideOfMember(sides, i, p);
      OldestIsMinimum(sides[k]);
    }
  }

  /** Two sides share the lowest number of all. */
  predicate Tied(sides: seq<seq<Member>>, i: nat, j: nat)
    requires i < |sides| && j < |sides|
  {
    sides[i] != [] && sides[j] != [] && Oldest(sides[i]) == Oldest(sides[j]) &&
    forall k :: 0 <= k < |sides| && sides[k] != [] ==> Oldest(sides[i]) <= Oldest(sides[k])
  }

  lemma TiedSidesSurvive(alone: bool, sides: seq<seq<Member>>, i: nat, j: nat)
    requires i < |sides| && j < |sides| && i != j
    ensures Survives(KeepOldest(alone), sides, i) && Survives(KeepOldest(alone), sides, j) <==>
            Tied(sides, i, j) && !(alone && (|sides[i]| == 1 || |sides[j]| == 1))
  {
    hide Oldest, Others, Survives;
    HolderSurvives(alone, sides, i);
    HolderSurvives(alone, sides, j);
    var b1, a1 := PartOfOthers(sides, i, j);
    var b2, a2 := PartOfOthers(sides, j, i);
  }

  /**
   * KeepOldest keeps at most one side exactly when no two sides share the lowest number, or lone
   * members are downed and one of any two such sides is a lone member.
   */
  lemma OldestAtMostOneIff(alone: bool, sides: seq<seq<Member>>)
    ensures AtMostOne(KeepOldest(alone), sides) <==>
            forall i, j :: 0 <= i < j < |sides| && Tied(sides, i, j) ==> alone && (|sides[i]| == 1 || |sides[j]| == 1)
  {
    hide Survives, Tied;
    forall i, j | 0 <= i < |sides| && 0 <= j < |sides| && i != j
      ensures Survives(KeepOldest(alone), sides, i) && Survives(KeepOldest(alone), sides, j) <==>
              Tied(sides, i, j) && !(alone && (|sides[i]| == 1 || |sides[j]| == 1))
    {
      TiedSidesSurvive(alone, sides, i, j);
    }
    if !AtMostOne(KeepOldest(alone), sides) {
      var i, j :| 0 <= i < |sides| && 0 <= j < |sides| && i != j &&
                  Survives(KeepOldest(alone), sides, i) && Survives(KeepOldest(alone), sides, j);
      TiedSidesSurvive(alone, sides, j, i);
      assert Tied(sides, i, j) && Tied(sides, j, i);
    }
  }

  /** Members that all carry one number, as new ones do: every non-empty side is kept. */
  lemma EqualNumbersAllSurvive(n: int, sides: seq<seq<Member>>, i: nat)
    requires forall k, x :: 0 <= k < |sides| && 0 <= x < |sides[k]| ==> sides[k][x].upNumber == n
    requires i < |sides| && sides[i] != []
    ensures Survives(KeepOldest(false), sides, i)
  {
    hide Others, Oldest, Survives;
    forall k | 0 <= k < |sides| && sides[k] != []
      ensures Oldest(sides[k]) == n
    {
      OldestIsMinimum(sides[k]);
    }
    HolderSurvives(false, sides, i);
  }

  /** `Member::new`. */
  function NewMember(address: string, roles: seq<string>): Member
  {
    Member(address, 0, Joining, roles)
  }

  /** Two new members that lose sight of each other both stay. */
  lemma TwoNewMembersBothSurvive(a: string, b: string)
    ensures var sides := [[NewMember(a, [])], [NewMember(b, [])]];
            Survives(KeepOldest(false), sides, 0) && Survives(KeepOldest(false), sides, 1)
  {
    hide Survives;
    var sides := [[NewMember(a, [])], [NewMember(b, [])]];
    EqualNumbersAllSurvive(0, sides, 0);
    EqualNumbersAllSurvive(0, sides, 1);
  }

  // ----- KeepOldest and member status -----------------------------------------

  function UpOnly(ms: seq<Member>): seq<Member>
  {
    if ms == [] then [] else (if ms[0].status == Up then [ms[0]] else []) + UpOnly(ms[1..])
  }

  function UpSides(sides: seq<seq<Member>>): seq<seq<Member>>
  {
    seq(|sides|, i requires 0 <= i < |sides| => UpOnly(sides[i]))
  }

  /** The documented rule: the side with the lowest-numbered Up member, lone members downed where asked. */
  predicate DocumentedKeeps(alone: bool, sides: seq<seq<Member>>, i: nat)
    requires i < |sides|
  {
    HoldsOldest(UpSides(sides), i) && !Lone(alone, sides, i)
  }

  ghost predicate KeepsAsDocumented(alone: bool, sides: seq<seq<Member>>)
  {
    forall i :: 0 <= i < |sides| ==> (Survives(KeepOldest(alone), sides, i) <==> DocumentedKeeps(alone, sides, i))
  }

  /**
   * The code keeps the documented sides exactly when the lowest number of all and of the Up members
   * are on the same sides.
   */
  lemma KeepsAsDocumentedIff(alone: bool, sides: seq<seq<Member>>)
    ensures KeepsAsDocumented(alone, sides) <==>
            forall i :: 0 <= i < |sides| && !Lone(alone, sides, i) ==>
              (HoldsOldest(sides, i) <==> HoldsOldest(UpSides(sides), i))
  {
    hide Survives, HoldsOldest, Others, UpSides;
    forall i | 0 <= i < |sides|
      ensures Survives(KeepOldest(alone), sides, i) <==> HoldsOldest(sides, i) && !Lone(alone, sides, i)
    {
      HolderSurvives(alone, sides, i);
    }
  }

  /** A joining member with the lower number: its side is kept and the only Up member's side is downed. */
  lemma JoiningMemberDecides()
    ensures var sides := [[Member("a", 0, Joining, [])], [Member("b", 1, Up, [])]];
            Survives(KeepOldest(false), sides, 0) && !DocumentedKeeps(false, sides, 0) &&
            !Survives(KeepOldest(false), sides, 1) && DocumentedKeeps(false, sides, 1)
  {
    var sides := [[Member("a", 0, Joining, [])], [Member("b", 1, Up, [])]];
    assert UpOnly(sides[0]) == [] && UpOnly(sides[1]) == sides[1];
    HolderSurvives(false, sides, 0);
    HolderSurvives(false, sides, 1);
    assert Oldest(sides[0]) == 0 && Oldest(sides[1]) == 1;
  }

  /** KeepOldest: whenever `up_number`s are distinct. */
  lemma OldestAtMostOne(alone: bool, sides: seq<seq<Member>>)
    requires forall x, y :: 0 <= x < y < |Flatten(sides)| ==> Flatten(sides)[x].upNumber != Flatten(sides)[y].upNumber
    ensures AtMostOne(KeepOldest(alone), sides)
  {
    hide Others, Flatten, Oldest;
    var s := KeepOldest(alone);
    forall i, j | 0 <= i < |sides| && 0 <= j < |sides| && Survives(s, sides, i) && Survives(s, sides, j)
      ensures i == j
    {
      if i < j {
        OneOldest(alone, sides, i, j);
      } else if j < i {
        OneOldest(alone, sides, j, i);
      }
    }
  }

  lemma OneOldest(alone: bool, sides: seq<seq<Member>>, i: nat, j: nat)
    requires i < j < |sides|
    requires forall x, y :: 0 <= x < y < |Flatten(sides)| ==> Flatten(sides)[x].upNumber != Flatten(sides)[y].upNumber
    ensures !(Survives(KeepOldest(alone), sides, i) && Survives(KeepOldest(alone), sides, j))
  {
    hide Flatten, Oldest, Others;
    if Survives(KeepOldest(alone), sides, i) && Survives(KeepOldest(alone), sides, j) {
      assert sides[i] != [] && sides[j] != [];
      SurvivorIsOldest(alone, sides, i, j);
      SurvivorIsOldest(alone, sides, j, i);
      OldestIsMinimum(sides[i]);
      OldestIsMinimum(sides[j]);
      var x :| 0 <= x < |sides[i]| && sides[i][x].upNumber == Oldest(sides[i]);
      var y :| 0 <= y < |sides[j]| && sides[j][y].upNumber == Oldest(sides[j]);
      var p, q := TwoPositions(sides, i, j, x, y);
    }
  }
}

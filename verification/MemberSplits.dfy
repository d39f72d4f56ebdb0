/** KeepReferee and RoleWeightedQuorum over every way of splitting the members. */
module MemberSplits {
  import opened Prelude
  import opened SplitBrain

  function CountAddress(ms: seq<Member>, address: string): nat
  {
    if ms == [] then 0 else (if ms[0].address == address then 1 else 0) + CountAddress(ms[1..], address)
  }

  lemma {:induction false} CountAddressConcat(a: seq<Member>, b: seq<Member>, address: string)
    ensures CountAddress(a + b, address) == CountAddress(a, address) + CountAddress(b, address)
  {
    if a == [] {
      assert a + b == b;
    } else {
      CountAddressConcat(a[1..], b, address);
      assert (a + b)[1..] == a[1..] + b;
    }
  }

  lemma {:induction false} CountAddressRearranged(a: seq<Member>, b: seq<Member>, address: string)
    requires multiset(a) == multiset(b)
    ensures CountAddress(a, address) == CountAddress(b, address)
    decreases |a|
  {
    hide CountAddress;
    if a == [] {
      assert |multiset(b)| == |b|;
      assert b == [];
    } else {
      var front, x := a[..|a| - 1], a[|a| - 1];
      assert a == front + [x];
      var j := Matching(front, x, b);
      var left, right := b[..j], b[j + 1..];
      assert b == left + [x] + right;
      CountAddressRearranged(front, left + right, address);
      CountAddressConcat(front, [x], address);
      CountAddressConcat(left, right, address);
      CountAddressConcat(left + [x], right, address);
      CountAddressConcat(left, [x], address);
    }
  }

  lemma {:induction false} AddressCounted(ms: seq<Member>, address: string)
    ensures HasAddress(ms, address) <==> CountAddress(ms, address) >= 1
    decreases |ms|
  {
    if ms != [] {
      AddressCounted(ms[1..], address);
      if HasAddress(ms, address) {
        var i :| 0 <= i < |ms| && ms[i].address == address;
        assert i > 0 ==> ms[1..][i - 1].address == address;
      } else {
        assert ms[0].address != address;
        assert forall i :: 0 <= i < |ms| - 1 ==> ms[1..][i] == ms[i + 1];
      }
      if CountAddress(ms[1..], address) >= 1 {
        var i :| 0 <= i < |ms[1..]| && ms[1..][i].address == address;
        assert ms[i + 1].address == address;
      }
    }
  }

  /** Takes one member with the address out of the list. */
  lemma TakeAddress(ms: seq<Member>, address: string) returns (m: Member, rest: seq<Member>)
    requires CountAddress(ms, address) >= 1
    ensures m.address == address && multiset(ms) == multiset{m} + multiset(rest) && |rest| == |ms| - 1
    ensures CountAddress(rest, address) == CountAddress(ms, address) - 1
  {
    AddressCounted(ms, address);
    var i :| 0 <= i < |ms| && ms[i].address == address;
    m, rest := ms[i], ms[..i] + ms[i + 1..];
    assert ms == ms[..i] + [m] + ms[i + 1..];
    CountAddressConcat(ms[..i], ms[i + 1..], address);
    CountAddressConcat(ms[..i] + [m], ms[i + 1..], address);
    CountAddressConcat(ms[..i], [m], address);
    assert [m][1..] == [];
  }

  /** Two sides with a referee each, when there are two referees and members enough. */
  lemma TwoReferees(members: seq<Member>, referee: string, least: nat) returns (a: seq<Member>, b: seq<Member>)
    requires CountAddress(members, referee) >= 2 && 2 * least <= |members|
    ensures multiset(a + b) == multiset(members) && |a| >= least && |b| >= least
    ensures HasAddress(a, referee) && HasAddress(b, referee)
  {
    hide CountAddress;
    var m, without := TakeAddress(members, referee);
    var n, rest := TakeAddress(without, referee);
    var k := Max(least, 1) - 1;
    a, b := [m] + rest[..k], [n] + rest[k..];
    assert rest == rest[..k] + rest[k..];
    assert multiset(a + b) == multiset{m} + multiset{n} + multiset(rest);
    assert a[0].address == referee && b[0].address == referee;
  }

  ghost predicate RefereeIsSafe(members: seq<Member>, referee: string, least: nat)
  {
    forall sides :: multiset(Flatten(sides)) == multiset(members) ==> AtMostOne(KeepReferee(referee, least), sides)
  }

  /**
   * KeepReferee keeps at most one side in every split of the members exactly when at most one of
   * them has the referee's address, or they are too few for two sides of the required size.
   */
  lemma RefereeAtMostOneIff(members: seq<Member>, referee: string, least: nat)
    ensures RefereeIsSafe(members, referee, least) <==> CountAddress(members, referee) <= 1 || |members| < 2 * least
  {
    hide CountAddress, Flatten, HasAddress;
    if CountAddress(members, referee) <= 1 || |members| < 2 * least {
      forall sides | multiset(Flatten(sides)) == multiset(members)
        ensures AtMostOne(KeepReferee(referee, least), sides)
      {
        RefereesApart(members, referee, least, sides);
      }
    } else {
      var a, b := TwoReferees(members, referee, least);
      FlattenTwo(a, b);
      assert Survives(KeepReferee(referee, least), [a, b], 0) && Survives(KeepReferee(referee, least), [a, b], 1);
    }
  }

  lemma FlattenTwo(a: seq<Member>, b: seq<Member>)
    ensures Flatten([a, b]) == a + b
  {
    assert [a, b][1..] == [b] && [b][1..] == [];
    assert Flatten([b]) == b + [];
  }

  lemma RefereesApart(members: seq<Member>, referee: string, least: nat, sides: seq<seq<Member>>)
    requires multiset(Flatten(sides)) == multiset(members)
    requires CountAddress(members, referee) <= 1 || |members| < 2 * least
    ensures AtMostOne(KeepReferee(referee, least), sides)
  {
    hide CountAddress, Flatten, HasAddress, Others;
    var s := KeepReferee(referee, least);
    CountAddressRearranged(members, Flatten(sides), referee);
    assert |multiset(Flatten(sides))| == |Flatten(sides)| && |multiset(members)| == |members|;
    forall i, j | 0 <= i < |sides| && 0 <= j < |sides| && Survives(s, sides, i) && Survives(s, sides, j)
      ensures i == j
    {
      if i < j {
        RefereePair(sides, i, j, referee);
      } else if j < i {
        RefereePair(sides, j, i, referee);
      }
    }
  }

  lemma RefereePair(sides: seq<seq<Member>>, i: nat, j: nat, referee: string)
    requires i < j < |sides|
    ensures |sides[i]| + |sides[j]| <= |Flatten(sides)|
    ensures HasAddress(sides[i], referee) && HasAddress(sides[j], referee) ==>
            CountAddress(Flatten(sides), referee) >= 2
  {
    hide CountAddress, Flatten, HasAddress;
    var a, b, c := TwoSides(sides, i, j);
    CountAddressConcat(a + sides[i] + b + sides[j], c, referee);
    CountAddressConcat(a + sides[i] + b, sides[j], referee);
    CountAddressConcat(a + sides[i], b, referee);
    CountAddressConcat(a, sides[i], referee);
    AddressCounted(sides[i], referee);
    AddressCounted(sides[j], referee);
  }

  // ----- RoleWeightedQuorum ---------------------------------------------------

  ghost predicate WeightIsSafe(members: seq<Member>, w: map<string, nat>, least: nat)
  {
    forall sides :: multiset(Flatten(sides)) == multiset(members) ==> AtMostOne(RoleWeightedQuorum(w, least), sides)
  }

  /** Two groups among the members, and the rest of them; both groups reach the weight. */
  ghost predicate Groups(members: seq<Member>, w: map<string, nat>, least: nat, a: seq<Member>, b: seq<Member>,
                         rest: seq<Member>)
  {
    multiset(a + b + rest) == multiset(members) && Reaches(w, a, least) && Reaches(w, b, least)
  }

  ghost predicate Divides(members: seq<Member>, w: map<string, nat>, least: nat)
  {
    exists a, b, rest :: Groups(members, w, least, a, b, rest)
  }

  /** However many sides there are, what matters is whether two groups reach the weight. */
  lemma WeightedAtMostOneIff(members: seq<Member>, w: map<string, nat>, least: nat)
    ensures WeightIsSafe(members, w, least) <==> !Divides(members, w, least)
  {
    hide Flatten, Reaches, Others, Groups;
    var s := RoleWeightedQuorum(w, least);
    if Divides(members, w, least) {
      var a, b, rest :| Groups(members, w, least, a, b, rest);
      GroupsSurvive(members, w, least, a, b, rest);
    } else {
      forall sides | multiset(Flatten(sides)) == multiset(members)
        ensures AtMostOne(s, sides)
      {
        forall i, j | 0 <= i < |sides| && 0 <= j < |sides| && Survives(s, sides, i) && Survives(s, sides, j)
          ensures i == j
        {
          if i < j {
            SurvivorsDivide(members, w, least, sides, i, j);
          } else if j < i {
            SurvivorsDivide(members, w, least, sides, j, i);
          }
        }
      }
    }
  }

  lemma GroupsSurvive(members: seq<Member>, w: map<string, nat>, least: nat, a: seq<Member>, b: seq<Member>,
                      rest: seq<Member>)
    requires Groups(members, w, least, a, b, rest)
    ensures !WeightIsSafe(members, w, least)
  {
    hide Flatten, Reaches, Others;
    var s, sides := RoleWeightedQuorum(w, least), [a, b, rest];
    FlattenThree(a, b, rest);
    assert Survives(s, sides, 0) && Survives(s, sides, 1);
    assert !AtMostOne(s, sides);
  }

  lemma FlattenThree(a: seq<Member>, b: seq<Member>, c: seq<Member>)
    ensures Flatten([a, b, c]) == a + b + c
  {
    assert [a, b, c][1..] == [b, c];
    FlattenTwo(b, c);
  }

  lemma Rearranged(a: seq<Member>, x: seq<Member>, b: seq<Member>, y: seq<Member>, c: seq<Member>)
    ensures multiset(x + y + (a + b + c)) == multiset(a + x + b + y + c)
  {}

  lemma SurvivorsDivide(members: seq<Member>, w: map<string, nat>, least: nat, sides: seq<seq<Member>>, i: nat, j: nat)
    requires i < j < |sides| && multiset(Flatten(sides)) == multiset(members)
    requires Reaches(w, sides[i], least) && Reaches(w, sides[j], least)
    ensures Divides(members, w, least)
  {
    hide Flatten, Reaches;
    var a, b, c := TwoSides(sides, i, j);
    Rearranged(a, sides[i], b, sides[j], c);
    assert Groups(members, w, least, sides[i], sides[j], a + b + c);
  }

  /** The members in two halves that both weigh enough. */
  ghost predicate Halves(members: seq<Member>, w: map<string, nat>, least: nat, a: seq<Member>, b: seq<Member>)
  {
    multiset(a + b) == multiset(members) && UpWeight(w, a) >= least && UpWeight(w, b) >= least
  }

  /** While the weights of all members fit 32 bits, it is enough to look at divisions in two. */
  lemma DividesInTwo(members: seq<Member>, w: map<string, nat>, least: nat)
    requires UpWeight(w, members) < TWO_32
    ensures Divides(members, w, least) <==> exists a, b :: Halves(members, w, least, a, b)
  {
    hide Groups, Halves;
    if a, b, rest :| Groups(members, w, least, a, b, rest) {
      GroupsAreHalves(members, w, least, a, b, rest);
    }
    if a, b :| Halves(members, w, least, a, b) {
      HalvesAreGroups(members, w, least, a, b);
    }
  }

  lemma GroupsAreHalves(members: seq<Member>, w: map<string, nat>, least: nat, a: seq<Member>, b: seq<Member>,
                        rest: seq<Member>)
    requires UpWeight(w, members) < TWO_32 && Groups(members, w, least, a, b, rest)
    ensures Halves(members, w, least, a, b + rest)
  {
    hide UpWeight;
    SameWeight(w, a + b + rest, members);
    UpWeightConcat(w, a + b, rest);
    UpWeightConcat(w, a, b);
    UpWeightConcat(w, b, rest);
    assert a + (b + rest) == a + b + rest;
  }

  lemma HalvesAreGroups(members: seq<Member>, w: map<string, nat>, least: nat, a: seq<Member>, b: seq<Member>)
    requires UpWeight(w, members) < TWO_32 && Halves(members, w, least, a, b)
    ensures Groups(members, w, least, a, b, [])
  {
    hide UpWeight;
    SameWeight(w, a + b, members);
    UpWeightConcat(w, a, b);
    assert a + b + [] == a + b;
  }

  lemma {:induction false} SameWeight(w: map<string, nat>, a: seq<Member>, b: seq<Member>)
    requires multiset(a) == multiset(b)
    ensures UpWeight(w, a) == UpWeight(w, b)
    decreases |a|
  {
    hide UpWeight;
    if a == [] {
      assert |multiset(b)| == 0;
    } else {
      assert a[0] in multiset(b);
      var i :| 0 <= i < |b| && b[i] == a[0];
      var x, y := b[..i], b[i + 1..];
      assert a == [a[0]] + a[1..];
      assert b == x + [b[i]] + y;
      OneLess(a[0], a[1..], x, y);
      SameWeight(w, a[1..], x + y);
      UpWeightConcat(w, x + [b[i]], y);
      UpWeightConcat(w, x, [b[i]]);
      UpWeightConcat(w, x, y);
      UpWeightConcat(w, [a[0]], a[1..]);
    }
  }

  lemma OneLess(m: Member, a: seq<Member>, x: seq<Member>, y: seq<Member>)
    requires multiset([m] + a) == multiset(x + [m] + y)
    ensures multiset(a) == multiset(x + y)
  {
    assert multiset([m] + a) == multiset{m} + multiset(a);
    assert multiset(x + [m] + y) == multiset{m} + multiset(x + y);
    assert multiset(a) == multiset([m] + a) - multiset{m};
    assert multiset(x + y) == multiset(x + [m] + y) - multiset{m};
  }
}

/** Last-writer-wins: the map that keeps its own value on a tie, and the register that compares nodes. */
module LastWriter {
  import opened Prelude
  import opened Semilattice

  // ----- LWWMap ---------------------------------------------------------------

  datatype Stamped<V> = Stamped(timestamp: nat, value: V)

  /** The entry `merge` keeps: ours unless theirs is strictly later. */
  function Later<V>(mine: Stamped<V>, theirs: Stamped<V>): Stamped<V>
  {
    if mine.timestamp >= theirs.timestamp then mine else theirs
  }

  function MergeLww<K(!new), V>(a: map<K, Stamped<V>>, b: map<K, Stamped<V>>): map<K, Stamped<V>>
  {
    Pointwise((x: Stamped<V>, y: Stamped<V>) => Later(x, y), a, b)
  }

  ghost predicate Agree<K(!new), V(!new)>(a: map<K, Stamped<V>>, b: map<K, Stamped<V>>)
  {
    forall k :: k in a && k in b && a[k].timestamp == b[k].timestamp ==> a[k].value == b[k].value
  }

  /** Merging commutes exactly when equal timestamps carry equal values. */
  lemma LwwMapCommutesIff<K(!new), V(!new)>(a: map<K, Stamped<V>>, b: map<K, Stamped<V>>)
    ensures MergeLww(a, b) == MergeLww(b, a) <==> Agree(a, b)
  {
    var l, r := MergeLww(a, b), MergeLww(b, a);
    assert l.Keys == r.Keys;
    if l == r {
      forall k | k in a && k in b && a[k].timestamp == b[k].timestamp ensures a[k].value == b[k].value {
        assert l[k] == a[k] && r[k] == b[k];
      }
    }
  }

  lemma LwwMapAssociates<K(!new), V(!new)>(a: map<K, Stamped<V>>, b: map<K, Stamped<V>>, c: map<K, Stamped<V>>)
    ensures MergeLww(MergeLww(a, b), c) == MergeLww(a, MergeLww(b, c))
    ensures MergeLww(a, a) == a
  {
    var any := (x: Stamped<V>) => true;
    var later := (x: Stamped<V>, y: Stamped<V>) => Later(x, y);
    PointwiseAssociates(any, later, a, b, c);
    PointwiseAbsorbs(any, later, a);
  }

  /** Every entry of `m` is an entry of one of the states. */
  ghost predicate DrawnFrom<K(!new), V(!new)>(states: iset<map<K, Stamped<V>>>, m: map<K, Stamped<V>>)
  {
    forall k :: k in m ==> exists s :: s in states && k in s && s[k] == m[k]
  }

  lemma DrawnAgree<K(!new), V(!new)>(states: iset<map<K, Stamped<V>>>, a: map<K, Stamped<V>>, b: map<K, Stamped<V>>)
    requires forall s, t :: s in states && t in states ==> Agree(s, t)
    requires DrawnFrom(states, a) && DrawnFrom(states, b)
    ensures Agree(a, b)
  {
    forall k | k in a && k in b && a[k].timestamp == b[k].timestamp ensures a[k].value == b[k].value {
      var s :| s in states && k in s && s[k] == a[k];
      var t :| t in states && k in t && t[k] == b[k];
      assert Agree(s, t);
    }
  }

  lemma DrawnClosed<K(!new), V(!new)>(states: iset<map<K, Stamped<V>>>, a: map<K, Stamped<V>>, b: map<K, Stamped<V>>)
    requires DrawnFrom(states, a) && DrawnFrom(states, b)
    ensures DrawnFrom(states, MergeLww(a, b))
  {
    var m := MergeLww(a, b);
    forall k | k in m ensures exists s :: s in states && k in s && s[k] == m[k] {
      if k in a && m[k] == a[k] {
        var s :| s in states && k in s && s[k] == a[k];
      } else {
        var s :| s in states && k in s && s[k] == b[k];
      }
    }
  }

  lemma {:induction false} WithinDrawn<K(!new), V(!new)>(states: iset<map<K, Stamped<V>>>, p: Plan<map<K, Stamped<V>>>)
    requires States(p) <= states
    ensures Within((m: map<K, Stamped<V>>) => DrawnFrom(states, m), p)
  {
    match p
    case State(s) => assert s in States(p);
    case Merged(into, from) =>
      WithinDrawn(states, into);
      WithinDrawn(states, from);
  }

  /** Pairwise agreeing replicas converge under any schedule. */
  lemma LwwMapConverges<K(!new), V(!new)>(p: Plan<map<K, Stamped<V>>>, q: Plan<map<K, Stamped<V>>>)
    requires States(p) == States(q)
    requires forall s, t :: s in States(p) && t in States(p) ==> Agree(s, t)
    ensures var merge := (a: map<K, Stamped<V>>, b: map<K, Stamped<V>>) => MergeLww(a, b);
            Run(merge, p) == Run(merge, q)
  {
    hide MergeLww, DrawnFrom, Agree;
    var states := States(p);
    var dom := (m: map<K, Stamped<V>>) => DrawnFrom(states, m);
    var merge := (a: map<K, Stamped<V>>, b: map<K, Stamped<V>>) => MergeLww(a, b);
    forall a, b | dom(a) && dom(b) ensures dom(merge(a, b)) && merge(a, b) == merge(b, a) {
      DrawnClosed(states, a, b);
      DrawnAgree(states, a, b);
      LwwMapCommutesIff(a, b);
    }
    forall a, b, c | dom(a) && dom(b) && dom(c) ensures merge(merge(a, b), c) == merge(a, merge(b, c)) {
      LwwMapAssociates(a, b, c);
    }
    forall a | dom(a) ensures merge(a, a) == a {
      LwwMapAssociates(a, a, a);
    }
    WithinDrawn(states, p);
    WithinDrawn(states, q);
    SchedulesAgree(dom, merge, p, q);
  }

  /** `put`: dropped unless strictly later than what is there. */
  function PutLww<K(!new), V>(m: map<K, Stamped<V>>, k: K, v: V, timestamp: nat): map<K, Stamped<V>>
  {
    if k in m && m[k].timestamp >= timestamp then m else m[k := Stamped(timestamp, v)]
  }

  class LwwMapReplica<K(==, !new), V> {
    var entries: map<K, Stamped<V>>

    constructor ()
      ensures entries == map[]
    {
      entries := map[];
    }

    method Put(k: K, v: V, timestamp: nat)
      modifies this
      ensures entries == PutLww(old(entries), k, v, timestamp)
    {
      if k in entries && entries[k].timestamp >= timestamp {
        return;
      }
      entries := entries[k := Stamped(timestamp, v)];
    }

    method MergeFrom(other: LwwMapReplica<K, V>)
      modifies this
      ensures entries == MergeLww(old(entries), old(other.entries))
    {
      var theirs := other.entries;
      entries := MergeEntries((x: Stamped<V>, y: Stamped<V>) => Later(x, y), entries, theirs);
    }
  }

  /** How a replica of the map came about. */
  datatype LwwHistory<K, V> =
    | NoWrites
    | Wrote(before: LwwHistory<K, V>, key: K, value: V, timestamp: nat)
    | Joined(before: LwwHistory<K, V>, other: LwwHistory<K, V>)

  function LwwAfter<K(!new), V>(h: LwwHistory<K, V>): map<K, Stamped<V>>
  {
    match h
    case NoWrites => map[]
    case Wrote(before, k, v, t) => PutLww(LwwAfter(before), k, v, t)
    case Joined(before, other) => MergeLww(LwwAfter(before), LwwAfter(other))
  }

  /** A write of this value and timestamp under the key is part of the history. */
  ghost predicate WrittenIn<K(!new), V(!new)>(h: LwwHistory<K, V>, k: K, w: Stamped<V>)
  {
    match h
    case NoWrites => false
    case Wrote(before, key, v, t) => (key == k && w == Stamped(t, v)) || WrittenIn(before, k, w)
    case Joined(before, other) => WrittenIn(before, k, w) || WrittenIn(other, k, w)
  }

  /** Whatever the order of writes and merges, a key holds one of its writes and none of them is later. */
  lemma {:induction false} LatestWriteWins<K(!new), V(!new)>(h: LwwHistory<K, V>, k: K, w: Stamped<V>)
    ensures WrittenIn(h, k, w) ==> k in LwwAfter(h) && w.timestamp <= LwwAfter(h)[k].timestamp
    ensures k in LwwAfter(h) ==> WrittenIn(h, k, LwwAfter(h)[k])
  {
    match h
    case NoWrites =>
    case Wrote(before, _, _, _) =>
      LatestWriteWins(before, k, w);
    case Joined(before, other) =>
      LatestWriteWins(before, k, w);
      LatestWriteWins(other, k, w);
  }

  /** A merge takes the other side's entry exactly when there is none of its own as late; every other one stays. */
  lemma MergeTakesLater<K(!new), V(!new)>(mine: map<K, Stamped<V>>, theirs: map<K, Stamped<V>>, k: K)
    ensures var m := MergeLww(mine, theirs);
            (k in m <==> k in mine || k in theirs) &&
            (k in theirs && (k !in mine || mine[k].timestamp < theirs[k].timestamp) ==> m[k] == theirs[k]) &&
            (k in mine && (k !in theirs || theirs[k].timestamp <= mine[k].timestamp) ==> m[k] == mine[k])
  {}

  /** A put takes effect exactly when there is no entry as late; no other key changes. */
  lemma PutTakesLater<K(!new), V(!new)>(m: map<K, Stamped<V>>, k: K, v: V, timestamp: nat)
    ensures var n := PutLww(m, k, v, timestamp);
            n.Keys == m.Keys + {k} && (forall j :: j in m && j != k ==> n[j] == m[j]) &&
            (k !in m || m[k].timestamp < timestamp ==> n[k] == Stamped(timestamp, v)) &&
            (k in m && timestamp <= m[k].timestamp ==> n[k] == m[k])
  {}

  // ----- LwwRegister ----------------------------------------------------------

  datatype Register<V> = Register(value: V, timestamp: nat, node: string)

  predicate Wins<V>(theirs: Register<V>, mine: Register<V>)
  {
    theirs.timestamp > mine.timestamp || (theirs.timestamp == mine.timestamp && LexLess(mine.node, theirs.node))
  }

  function MergeRegister<V>(mine: Register<V>, theirs: Register<V>): Register<V>
  {
    if Wins(theirs, mine) then theirs else mine
  }

  ghost predicate RegistersAgree<V(!new)>(a: Register<V>, b: Register<V>)
  {
    a.timestamp == b.timestamp && a.node == b.node ==> a.value == b.value
  }

  lemma RegisterCommutesIff<V(!new)>(a: Register<V>, b: Register<V>)
    ensures MergeRegister(a, b) == MergeRegister(b, a) <==> RegistersAgree(a, b)
  {
    LexTotal(a.node, b.node);
    if LexLess(a.node, b.node) {
      LexAsymmetric(a.node, b.node);
    } else if LexLess(b.node, a.node) {
      LexAsymmetric(b.node, a.node);
    }
  }

  lemma RegisterAssociates<V(!new)>(a: Register<V>, b: Register<V>, c: Register<V>)
    ensures MergeRegister(MergeRegister(a, b), c) == MergeRegister(a, MergeRegister(b, c))
    ensures MergeRegister(a, a) == a
  {
    hide LexLess;
    LexTotal(a.node, b.node);
    LexTotal(b.node, c.node);
    LexTotal(a.node, c.node);
    if LexLess(a.node, b.node) && LexLess(b.node, c.node) { LexTransitive(a.node, b.node, c.node); }
    if LexLess(b.node, a.node) { LexAsymmetric(b.node, a.node); }
    if LexLess(c.node, b.node) { LexAsymmetric(c.node, b.node); }
    if LexLess(c.node, b.node) && LexLess(b.node, a.node) {
      LexTransitive(c.node, b.node, a.node);
      LexAsymmetric(c.node, a.node);
    }
    if LexLess(a.node, a.node) { LexAsymmetric(a.node, a.node); }
  }

  lemma {:induction false} WithinStates<T(!new)>(states: iset<T>, p: Plan<T>)
    requires States(p) <= states
    ensures Within((s: T) => s in states, p)
  {
    match p
    case State(s) => assert s in States(p);
    case Merged(into, from) =>
      WithinStates(states, into);
      WithinStates(states, from);
  }

  lemma MergePicks<V(!new)>(a: Register<V>, b: Register<V>)
    ensures MergeRegister(a, b) == a || MergeRegister(a, b) == b
  {
  }

  lemma RegisterConverges<V(!new)>(p: Plan<Register<V>>, q: Plan<Register<V>>)
    requires States(p) == States(q)
    requires forall s, t :: s in States(p) && t in States(p) ==> RegistersAgree(s, t)
    ensures var merge := (a: Register<V>, b: Register<V>) => MergeRegister(a, b); Run(merge, p) == Run(merge, q)
  {
    hide MergeRegister, RegistersAgree;
    var states := States(p);
    var dom := (s: Register<V>) => s in states;
    var merge := (a: Register<V>, b: Register<V>) => MergeRegister(a, b);
    forall a, b | dom(a) && dom(b) ensures dom(merge(a, b)) && merge(a, b) == merge(b, a) {
      MergePicks(a, b);
      RegisterCommutesIff(a, b);
    }
    forall a, b, c | dom(a) && dom(b) && dom(c) ensures merge(merge(a, b), c) == merge(a, merge(b, c)) {
      RegisterAssociates(a, b, c);
    }
    forall a | dom(a) ensures merge(a, a) == a { RegisterAssociates(a, a, a); }
    WithinStates(states, p);
    WithinStates(states, q);
    SchedulesAgree(dom, merge, p, q);
  }

  /** `set`: takes a strictly later write, whatever its node. */
  function SetRegister<V>(mine: Register<V>, v: V, timestamp: nat, node: string): Register<V>
  {
    if timestamp > mine.timestamp then Register(v, timestamp, node) else mine
  }

  /** Setting is merging the written register, except that `set` ignores the node on equal timestamps. */
  lemma SetIsMergeIff<V(!new)>(mine: Register<V>, v: V, timestamp: nat, node: string)
    ensures SetRegister(mine, v, timestamp, node) == MergeRegister(mine, Register(v, timestamp, node)) <==>
            !(timestamp == mine.timestamp && LexLess(mine.node, node))
  {
    if LexLess(mine.node, node) {
      LexAsymmetric(mine.node, node);
    }
  }

  class LwwRegisterReplica<V> {
    var value: V
    var timestamp: nat
    var node: string

    function View(): Register<V>
      reads this
    {
      Register(value, timestamp, node)
    }

    constructor (node: string, value: V, timestamp: nat)
      ensures View() == Register(value, timestamp, node)
    {
      this.value, this.timestamp, this.node := value, timestamp, node;
    }

    method Set(value: V, timestamp: nat, node: string)
      modifies this
      ensures View() == SetRegister(old(View()), value, timestamp, node)
    {
      if timestamp > this.timestamp {
        this.value, this.timestamp, this.node := value, timestamp, node;
      }
    }

    method MergeFrom(other: LwwRegisterReplica<V>)
      modifies this
      ensures View() == MergeRegister(old(View()), old(other.View()))
    {
      if other.timestamp > timestamp || (other.timestamp == timestamp && LexLess(node, other.node)) {
        value, timestamp, node := other.value, other.timestamp, other.node;
      }
    }
  }

  /** How a replica of the register came about. */
  datatype RegisterHistory<V> =
    | Created(value: V, timestamp: nat, node: string)
    | Changed(before: RegisterHistory<V>, value: V, timestamp: nat, node: string)
    | Combined(before: RegisterHistory<V>, other: RegisterHistory<V>)

  function RegisterAfter<V>(h: RegisterHistory<V>): Register<V>
  {
    match h
    case Created(v, t, node) => Register(v, t, node)
    case Changed(before, v, t, node) => SetRegister(RegisterAfter(before), v, t, node)
    case Combined(before, other) => MergeRegister(RegisterAfter(before), RegisterAfter(other))
  }

  /** A write of this value, timestamp and node is part of the history. */
  ghost predicate WrittenTo<V(!new)>(h: RegisterHistory<V>, w: Register<V>)
  {
    match h
    case Created(v, t, node) => w == Register(v, t, node)
    case Changed(before, v, t, node) => w == Register(v, t, node) || WrittenTo(before, w)
    case Combined(before, other) => WrittenTo(before, w) || WrittenTo(other, w)
  }

  /** Whatever the order of writes and merges, the register holds one of the writes and none of them is later. */
  lemma {:induction false} LatestRegisterWins<V(!new)>(h: RegisterHistory<V>, w: Register<V>)
    ensures WrittenTo(h, RegisterAfter(h))
    ensures WrittenTo(h, w) ==> w.timestamp <= RegisterAfter(h).timestamp
  {
    match h
    case Created(_, _, _) =>
    case Changed(before, _, _, _) =>
      LatestRegisterWins(before, w);
    case Combined(before, other) =>
      LatestRegisterWins(before, w);
      LatestRegisterWins(other, w);
  }

  /** Merging keeps one of the two: the later one, on equal timestamps the one of the larger node, else its own. */
  lemma MergeKeepsLater<V(!new)>(mine: Register<V>, theirs: Register<V>)
    ensures var r := MergeRegister(mine, theirs);
            (mine.timestamp > theirs.timestamp ==> r == mine) && (mine.timestamp < theirs.timestamp ==> r == theirs) &&
            (mine.timestamp == theirs.timestamp && LexLess(mine.node, theirs.node) ==> r == theirs) &&
            (mine.timestamp == theirs.timestamp && LexLess(theirs.node, mine.node) ==> r == mine) &&
            (mine.timestamp == theirs.timestamp && mine.node == theirs.node ==> r == mine)
  {
    hide LexLess;
    if LexLess(theirs.node, mine.node) {
      LexAsymmetric(theirs.node, mine.node);
    }
    if LexLess(mine.node, theirs.node) {
      LexAsymmetric(mine.node, theirs.node);
    }
  }

  /** Setting takes a later write as it is, and keeps the register on an equal or earlier one. */
  lemma SetTakesLater<V(!new)>(mine: Register<V>, v: V, timestamp: nat, node: string)
    ensures var r := SetRegister(mine, v, timestamp, node);
            r.timestamp == Max(mine.timestamp, timestamp) &&
            (timestamp > mine.timestamp ==> r.value == v && r.node == node) &&
            (timestamp <= mine.timestamp ==> r.value == mine.value && r.node == mine.node)
  {}
}

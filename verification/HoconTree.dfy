/** Configuration trees: layering, dotted keys and lookup. */
module HoconTree {
  import opened Prelude

  /** Text as its UTF-8 bytes. */
  type Text = seq<Byte>

  datatype Value =
    | Null
    | Bool(flag: bool)
    | Int(number: int)
    | Float(bits: int)
    | Str(text: Text)
    | Array(items: seq<Value>)
    | Object(fields: map<Text, Value>)

  type Fields = map<Text, Value>

  /** Two values at the same place: objects combine key by key, otherwise one side wins. */
  function Merge(a: Value, b: Value, rightWins: bool): Value
    decreases a
  {
    if a.Object? && b.Object? then
      Object(map k | k in a.fields.Keys + b.fields.Keys ::
        if k !in b.fields then a.fields[k]
        else if k !in a.fields then b.fields[k]
        else Merge(a.fields[k], b.fields[k], rightWins))
    else if rightWins then b
    else a
  }

  /** `deep_merge`: the right-hand object on top. */
  function DeepMerge(into: Fields, from: Fields): Fields
  {
    Merge(Object(into), Object(from), true).fields
  }

  function WithFallback(a: Value, fallback: Value): Value
  {
    Merge(a, fallback, false)
  }

  function MergedWith(a: Value, other: Value): Value
  {
    Merge(a, other, true)
  }

  // ----- the loops ------------------------------------------------------------

  /** What a key holds after a merge. */
  function MergedAt(dst: Fields, src: Fields, rightWins: bool, k: Text): Value
    requires k in dst || k in src
  {
    if k !in src then dst[k] else if k !in dst then src[k] else Merge(dst[k], src[k], rightWins)
  }

  lemma MergeIsPointwise(dst: Fields, src: Fields, rightWins: bool)
    ensures Merge(Object(dst), Object(src), rightWins) ==
            Object(map k | k in dst.Keys + src.Keys :: MergedAt(dst, src, rightWins, k))
  {}

  /** The keys in `done` have been merged, the others are as they were. */
  ghost predicate MergedOn(dst: Fields, src: Fields, rightWins: bool, done: set<Text>, now: Fields)
  {
    done <= src.Keys && now.Keys == dst.Keys + done &&
    forall k :: k in now ==> now[k] == if k in done then MergedAt(dst, src, rightWins, k) else dst[k]
  }

  lemma MergedOnAll(dst: Fields, src: Fields, rightWins: bool, now: Fields)
    requires MergedOn(dst, src, rightWins, src.Keys, now)
    ensures Object(now) == Merge(Object(dst), Object(src), rightWins)
  {
    hide Merge;
    MergeIsPointwise(dst, src, rightWins);
    assert now == map k | k in dst.Keys + src.Keys :: MergedAt(dst, src, rightWins, k);
  }

  lemma MergedOnStep(dst: Fields, src: Fields, rightWins: bool, done: set<Text>, now: Fields, k: Text)
    requires MergedOn(dst, src, rightWins, done, now) && k in src && k !in done
    ensures MergedOn(dst, src, rightWins, done + {k},
                     now[k := if k in now then Merge(now[k], src[k], rightWins) else src[k]])
  {
    hide Merge;
  }

  /** `merge_object`, for any order of iteration over the source. */
  method MergeObject(dst: Fields, src: Fields, rightWins: bool) returns (now: Fields)
    ensures Object(now) == Merge(Object(dst), Object(src), rightWins)
    decreases Object(src), 1
  {
    hide Merge, MergedOn;
    now := dst;
    var todo := src.Keys;
    assert MergedOn(dst, src, rightWins, {}, now) by {
      NothingMerged(dst, src, rightWins);
    }
    assert src.Keys - todo == {};
    while todo != {}
      invariant todo <= src.Keys && MergedOn(dst, src, rightWins, src.Keys - todo, now)
      decreases |todo|
    {
      var k :| k in todo;
      MergedOnStep(dst, src, rightWins, src.Keys - todo, now, k);
      assert src.Keys - todo + {k} == src.Keys - (todo - {k});
      now := MergeEntry(now, k, src[k], rightWins);
      todo := todo - {k};
    }
    assert src.Keys - todo == src.Keys;
    MergedOnAll(dst, src, rightWins, now);
  }

  lemma NothingMerged(dst: Fields, src: Fields, rightWins: bool)
    ensures MergedOn(dst, src, rightWins, {}, dst)
  {}

  /** The body of the loop of `merge_object`. */
  method MergeEntry(dst: Fields, k: Text, v: Value, rightWins: bool) returns (now: Fields)
    ensures now == dst[k := if k in dst then Merge(dst[k], v, rightWins) else v]
    decreases v, 2
  {
    now := dst;
    if k in dst {
      if dst[k].Object? {
        if v.Object? {
          var inner := MergeObject(dst[k].fields, v.fields, rightWins);
          now := dst[k := Object(inner)];
        } else if rightWins {
          now := dst[k := v];
        }
      } else if rightWins {
        now := dst[k := v];
      }
    } else {
      now := dst[k := v];
    }
  }

  method DeepMergeInto(into: Fields, from: Fields) returns (now: Fields)
    ensures now == DeepMerge(into, from)
    decreases Object(from), 1
  {
    hide Merge, MergedOn;
    now := into;
    var todo := from.Keys;
    NothingMerged(into, from, true);
    assert from.Keys - todo == {};
    while todo != {}
      invariant todo <= from.Keys && MergedOn(into, from, true, from.Keys - todo, now)
      decreases |todo|
    {
      var k :| k in todo;
      MergedOnStep(into, from, true, from.Keys - todo, now, k);
      assert from.Keys - todo + {k} == from.Keys - (todo - {k});
      now := DeepMergeEntry(now, k, from[k]);
      todo := todo - {k};
    }
    assert from.Keys - todo == from.Keys;
    MergedOnAll(into, from, true, now);
  }

  /** The body of the loop of `deep_merge`. */
  method DeepMergeEntry(into: Fields, k: Text, v: Value) returns (now: Fields)
    ensures now == into[k := if k in into then Merge(into[k], v, true) else v]
    decreases v, 2
  {
    if k in into && into[k].Object? && v.Object? {
      var inner := DeepMergeInto(into[k].fields, v.fields);
      now := into[k := Object(inner)];
    } else {
      now := into[k := v];
    }
  }

  // ----- layering laws --------------------------------------------------------

  /** Overriding and falling back are one operation seen from two sides. */
  lemma {:induction false} FallbackIsOverride(a: Value, b: Value)
    ensures MergedWith(a, b) == WithFallback(b, a)
    decreases a
  {
    if a.Object? && b.Object? {
      forall k | k in a.fields && k in b.fields
        ensures Merge(a.fields[k], b.fields[k], true) == Merge(b.fields[k], a.fields[k], false)
      {
        FallbackIsOverride(a.fields[k], b.fields[k]);
      }
      assert a.fields.Keys + b.fields.Keys == b.fields.Keys + a.fields.Keys;
    }
  }

  /** Everything an object of `c` could add below an object of `a` is already there. */
  ghost predicate Covers(a: Value, c: Value)
    decreases a
  {
    a.Object? && c.Object? ==> forall k :: k in c.fields ==> k in a.fields && Covers(a.fields[k], c.fields[k])
  }

  lemma {:induction false} CoversIff(a: Value, c: Value)
    ensures WithFallback(a, c) == a <==> Covers(a, c)
    decreases a
  {
    if a.Object? && c.Object? {
      forall k | k in a.fields && k in c.fields
        ensures Merge(a.fields[k], c.fields[k], false) == a.fields[k] <==> Covers(a.fields[k], c.fields[k])
      {
        CoversIff(a.fields[k], c.fields[k]);
      }
      var m := Merge(a, c, false).fields;
      if Covers(a, c) {
        assert m == a.fields;
      } else {
        var k :| k in c.fields && !(k in a.fields && Covers(a.fields[k], c.fields[k]));
        assert k in m;
        assert k in a.fields ==> m[k] != a.fields[k];
      }
    }
  }

  /** No plain value of the middle layer separates an object above it from a richer one below. */
  ghost predicate Layers(a: Value, b: Value, c: Value)
    decreases a
  {
    a.Object? && c.Object? ==>
      if b.Object? then
        forall k :: k in a.fields && k in b.fields && k in c.fields ==> Layers(a.fields[k], b.fields[k], c.fields[k])
      else Covers(a, c)
  }

  /** Stacking three layers is independent of grouping exactly when they stack without such a separation. */
  lemma {:induction false} FallbackAssociatesIff(a: Value, b: Value, c: Value)
    ensures WithFallback(WithFallback(a, b), c) == WithFallback(a, WithFallback(b, c)) <==> Layers(a, b, c)
    decreases a
  {
    if a.Object? && c.Object? {
      if b.Object? {
        AssociatesPointwise(a.fields, b.fields, c.fields);
        forall k | k in a.fields && k in b.fields && k in c.fields
          ensures AssociatesAt(a.fields, b.fields, c.fields, k) <==> Layers(a.fields[k], b.fields[k], c.fields[k])
        {
          FallbackAssociatesIff(a.fields[k], b.fields[k], c.fields[k]);
        }
      } else {
        CoversIff(a, c);
      }
    }
  }

  ghost predicate AssociatesAt(a: Fields, b: Fields, c: Fields, k: Text)
  {
    k in a && k in b && k in c ==>
      Merge(Merge(a[k], b[k], false), c[k], false) == Merge(a[k], Merge(b[k], c[k], false), false)
  }

  lemma LayeredAt(a: Fields, b: Fields, c: Fields, k: Text)
    requires k in a || k in b || k in c
    ensures var ab := Merge(Object(a), Object(b), false).fields;
            var bc := Merge(Object(b), Object(c), false).fields;
            MergedAt(ab, c, false, k) == MergedAt(a, bc, false, k) <==> AssociatesAt(a, b, c, k)
  {
    hide Merge;
    MergeIsPointwise(a, b, false);
    MergeIsPointwise(b, c, false);
  }

  lemma SameFields(f: Fields, g: Fields)
    requires f.Keys == g.Keys
    ensures f == g <==> forall k :: k in f ==> f[k] == g[k]
  {}

  /** Grouping can only matter at keys all three objects have. */
  lemma AssociatesPointwise(a: Fields, b: Fields, c: Fields)
    ensures Merge(Merge(Object(a), Object(b), false), Object(c), false) ==
            Merge(Object(a), Merge(Object(b), Object(c), false), false) <==>
            forall k :: k in a && k in b && k in c ==> AssociatesAt(a, b, c, k)
  {
    hide Merge;
    MergeIsPointwise(a, b, false);
    MergeIsPointwise(b, c, false);
    var ab := Merge(Object(a), Object(b), false).fields;
    var bc := Merge(Object(b), Object(c), false).fields;
    MergeIsPointwise(ab, c, false);
    MergeIsPointwise(a, bc, false);
    var left := Merge(Object(ab), Object(c), false).fields;
    var right := Merge(Object(a), Object(bc), false).fields;
    assert left.Keys == right.Keys;
    forall k | k in left
      ensures left[k] == right[k] <==> AssociatesAt(a, b, c, k)
    {
      LayeredAt(a, b, c, k);
    }
    SameFields(left, right);
  }

  /** The trees agree on which places are objects. */
  ghost predicate SameShape(a: Value, b: Value)
    decreases a
  {
    (a.Object? <==> b.Object?) &&
    (a.Object? ==> forall k :: k in a.fields && k in b.fields ==> SameShape(a.fields[k], b.fields[k]))
  }

  /** Layers whose neighbours agree on shape always stack. */
  lemma {:induction false} SameShapeLayers(a: Value, b: Value, c: Value)
    requires SameShape(a, b)
    ensures Layers(a, b, c)
    decreases a
  {
    if a.Object? && c.Object? {
      forall k | k in a.fields && k in b.fields && k in c.fields
        ensures Layers(a.fields[k], b.fields[k], c.fields[k])
      {
        SameShapeLayers(a.fields[k], b.fields[k], c.fields[k]);
      }
    }
  }

  /** A plain value between two objects with different keys: the grouping shows. */
  lemma FallbackNeedNotAssociate(k: Text, l: Text)
    requires k != l
    ensures var a, b, c := Object(map[k := Int(1)]), Int(2), Object(map[l := Int(3)]);
            WithFallback(WithFallback(a, b), c) == Object(map[k := Int(1), l := Int(3)]) &&
            WithFallback(a, WithFallback(b, c)) == a
  {
    var a, c := Object(map[k := Int(1)]), Object(map[l := Int(3)]);
    assert Merge(a, c, false).fields == map[k := Int(1), l := Int(3)];
  }

  // ----- dotted keys ----------------------------------------------------------

  /** The object that holds a value at the end of a path. */
  function Nested(path: seq<Text>, v: Value): Fields
  {
    if path == [] then map[]
    else map[path[0] := if |path| == 1 then v else Object(Nested(path[1..], v))]
  }

  function Child(obj: Fields, k: Text): Fields
  {
    if k in obj && obj[k].Object? then obj[k].fields else map[]
  }

  method InsertDotted(obj: Fields, key: seq<Text>, v: Value) returns (now: Fields)
    ensures now == DeepMerge(obj, Nested(key, v))
    decreases |key|
  {
    hide Merge;
    now := obj;
    MergeNested(obj, key, v);
    if key == [] {
      return;
    }
    if |key| == 1 {
      if key[0] in obj && obj[key[0]].Object? && v.Object? {
        var existing := DeepMergeInto(obj[key[0]].fields, v.fields);
        return obj[key[0] := Object(existing)];
      }
      return obj[key[0] := v];
    }
    if key[0] !in now {
      now := now[key[0] := Object(map[])];
    }
    if now[key[0]].Object? {
      var child := InsertDotted(now[key[0]].fields, key[1..], v);
      now := now[key[0] := Object(child)];
    } else {
      var child := InsertDotted(map[], key[1..], v);
      now := now[key[0] := Object(child)];
    }
  }

  /** Merging a nested object changes one key, and below it merges the rest of the path. */
  lemma MergeNested(obj: Fields, key: seq<Text>, v: Value)
    ensures key == [] ==> DeepMerge(obj, Nested(key, v)) == obj
    ensures |key| == 1 ==>
              DeepMerge(obj, Nested(key, v)) ==
              obj[key[0] := if key[0] in obj && obj[key[0]].Object? && v.Object?
                            then Object(DeepMerge(obj[key[0]].fields, v.fields)) else v]
    ensures |key| > 1 ==>
              DeepMerge(obj, Nested(key, v)) ==
              obj[key[0] := Object(DeepMerge(Child(obj, key[0]), Nested(key[1..], v)))]
  {
    hide Merge;
    MergeIsPointwise(obj, Nested(key, v), true);
    if key != [] {
      var below := Nested(key, v)[key[0]];
      MergeCases(if key[0] in obj then obj[key[0]] else Null, below);
      MergeIntoNothing(Nested(key[1..], v));
    }
  }

  lemma MergeCases(a: Value, b: Value)
    ensures Merge(a, b, true) == if a.Object? && b.Object? then Object(DeepMerge(a.fields, b.fields)) else b
  {}

  lemma MergeIntoNothing(from: Fields)
    ensures DeepMerge(map[], from) == from
  {
    hide Merge;
    MergeIsPointwise(map[], from, true);
  }

  /** Following a path from an object; the empty path leads nowhere. */
  function Lookup(root: Fields, path: seq<Text>): Option<Value>
    decreases |path|
  {
    if path == [] || path[0] !in root then None
    else if |path| == 1 then Some(root[path[0]])
    else if root[path[0]].Object? then Lookup(root[path[0]].fields, path[1..])
    else None
  }

  /** A plain value sits on the way to the end of the path. */
  predicate Blocked(root: Fields, path: seq<Text>)
    decreases |path|
  {
    |path| > 1 && path[0] in root &&
    (!root[path[0]].Object? || Blocked(root[path[0]].fields, path[1..]))
  }

  /** What any path holds after a merge, from what it held in the two objects. */
  lemma {:induction false} LookupMerged(a: Fields, b: Fields, path: seq<Text>)
    ensures Lookup(DeepMerge(a, b), path) ==
            var x, y := Lookup(a, path), Lookup(b, path);
            if y.None? then (if Blocked(b, path) then None else x)
            else if x.None? then y
            else Some(Merge(x.value, y.value, true))
    decreases |path|
  {
    hide Merge;
    MergeIsPointwise(a, b, true);
    if path != [] && path[0] in a && path[0] in b {
      MergeCases(a[path[0]], b[path[0]]);
      if |path| > 1 && a[path[0]].Object? && b[path[0]].Object? {
        LookupMerged(a[path[0]].fields, b[path[0]].fields, path[1..]);
      }
    }
  }

  lemma {:induction false} LookupNested(path: seq<Text>, v: Value)
    requires path != []
    ensures Lookup(Nested(path, v), path) == Some(v)
  {
    if |path| > 1 {
      LookupNested(path[1..], v);
    }
  }

  /** Reading back what was just set: the value, on top of an object that was there. */
  lemma SetThenGet(obj: Fields, path: seq<Text>, v: Value)
    requires path != []
    ensures Lookup(DeepMerge(obj, Nested(path, v)), path) ==
            match Lookup(obj, path)
            case None => Some(v)
            case Some(was) => Some(MergedWith(was, v))
  {
    hide Merge, DeepMerge, Nested, Lookup;
    LookupNested(path, v);
    LookupMerged(obj, Nested(path, v), path);
  }

  /** The paths part ways at a key both of them have. */
  predicate PartWays(p: seq<Text>, q: seq<Text>)
  {
    p != [] && q != [] && (p[0] != q[0] || PartWays(p[1..], q[1..]))
  }

  lemma {:induction false} NestedElsewhere(p: seq<Text>, q: seq<Text>, v: Value)
    requires PartWays(p, q)
    ensures Lookup(Nested(p, v), q) == None && !Blocked(Nested(p, v), q)
    decreases |p|
  {
    if p[0] == q[0] {
      NestedElsewhere(p[1..], q[1..], v);
    }
  }

  /** Setting one path leaves every other path as it was. */
  lemma SetElsewhere(obj: Fields, p: seq<Text>, q: seq<Text>, v: Value)
    requires PartWays(p, q)
    ensures Lookup(DeepMerge(obj, Nested(p, v)), q) == Lookup(obj, q)
  {
    hide Merge, DeepMerge, Nested, Lookup;
    NestedElsewhere(p, q, v);
    LookupMerged(obj, Nested(p, v), q);
  }

  method AppendDotted(obj: Fields, key: seq<Text>, v: Value) returns (now: Fields)
    ensures now == Appended(obj, key, v)
    decreases |key|
  {
    hide Merge;
    now := obj;
    MergeNested(obj, key, Array(ItemsAt(obj, key) + [v]));
    if key == [] {
      return;
    }
    if |key| == 1 {
      if key[0] !in now {
        now := now[key[0] := Array([])];
      }
      if now[key[0]].Array? {
        now := now[key[0] := Array(now[key[0]].items + [v])];
      } else {
        now := now[key[0] := Array([v])];
      }
      assert now[key[0]].items == ItemsAt(obj, key) + [v];
      assert now == obj[key[0] := Array(ItemsAt(obj, key) + [v])];
      return;
    }
    if key[0] !in now {
      now := now[key[0] := Object(map[])];
    }
    if now[key[0]].Object? {
      var child := AppendDotted(now[key[0]].fields, key[1..], v);
      now := now[key[0] := Object(child)];
    } else {
      var child := AppendDotted(map[], key[1..], v);
      now := now[key[0] := Object(child)];
    }
  }

  /** The array at a path, when there is one. */
  function ItemsAt(obj: Fields, path: seq<Text>): seq<Value>
  {
    var found := Lookup(obj, path);
    if found.Some? && found.value.Array? then found.value.items else []
  }

  /** `+=` sets the path to the array found there, extended by the value. */
  function Appended(obj: Fields, key: seq<Text>, v: Value): Fields
  {
    DeepMerge(obj, Nested(key, Array(ItemsAt(obj, key) + [v])))
  }

  /** Reading back after `+=`: the array that was there with the value behind it, or an array of its own. */
  lemma AppendThenGet(obj: Fields, path: seq<Text>, v: Value)
    requires path != []
    ensures Lookup(Appended(obj, path, v), path) ==
            match Lookup(obj, path)
            case Some(Array(items)) => Some(Array(items + [v]))
            case _ => Some(Array([v]))
  {
    hide DeepMerge, Nested, Lookup;
    var items := ItemsAt(obj, path);
    SetThenGet(obj, path, Array(items + [v]));
    assert [] + [v] == [v];
    assert forall was :: MergedWith(was, Array(items + [v])) == Array(items + [v]);
  }

  /** Appending at one path leaves every other path as it was. */
  lemma AppendElsewhere(obj: Fields, p: seq<Text>, q: seq<Text>, v: Value)
    requires PartWays(p, q)
    ensures Lookup(Appended(obj, p, v), q) == Lookup(obj, q)
  {
    hide DeepMerge, Nested, Lookup;
    SetElsewhere(obj, p, q, Array(ItemsAt(obj, p) + [v]));
  }
}

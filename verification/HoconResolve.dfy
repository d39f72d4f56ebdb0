/** The second pass: replacing substitution markers. */
module HoconResolve {
  import opened Prelude
  import opened HoconTree
  import opened HoconGrammar

  /** `str::split('.')`. */
  function Segments(t: Text): (r: seq<Text>)
    ensures r != []
  {
    if t == [] then [[]]
    else
      var before, c := Segments(t[..|t| - 1]), t[|t| - 1];
      if c == DOT then before + [[]]
      else before[..|before| - 1] + [before[|before| - 1] + [c]]
  }

  function Follow(v: Value, path: seq<Text>): Option<Value>
    decreases |path|
  {
    if path == [] then Some(v)
    else if v.Object? && path[0] in v.fields then Follow(v.fields[path[0]], path[1..])
    else None
  }

  method LookupPath(root: Value, path: Text) returns (r: Option<Value>)
    ensures r == Follow(root, Segments(path))
  {
    var current, segments := root, Segments(path);
    for i := 0 to |segments|
      invariant Follow(root, segments) == Follow(current, segments[i..])
    {
      assert segments[i..][0] == segments[i] && segments[i..][1..] == segments[i + 1..];
      if !current.Object? || segments[i] !in current.fields {
        return None;
      }
      current := current.fields[segments[i]];
    }
    return Some(current);
  }

  /** The same walk as a lookup from an object. */
  lemma {:induction false} FollowIsLookup(f: Fields, path: seq<Text>)
    requires path != []
    ensures Follow(Object(f), path) == Lookup(f, path)
    decreases |path|
  {
    if path[0] in f && |path| > 1 {
      if f[path[0]].Object? {
        FollowIsLookup(f[path[0]].fields, path[1..]);
      }
    } else {
      assert path[0] in f ==> Follow(f[path[0]], path[1..]) == Some(f[path[0]]);
    }
  }

  type Environment = Text -> Option<Text>

  function ResolveText(t: Text, root: Value, env: Environment): Option<Value>
  {
    if STRICT <= t then Follow(root, Segments(t[|STRICT|..]))
    else if OPTIONAL <= t then
      match env(t[|OPTIONAL|..])
      case None => Some(Null)
      case Some(x) => Some(Str(x))
    else Some(Str(t))
  }

  /** One pass over a tree; `None` when a strict substitution has no target. */
  function Resolve(v: Value, root: Value, env: Environment): Option<Value>
    decreases v
  {
    match v
    case Str(t) => ResolveText(t, root, env)
    case Array(items) =>
      if forall i :: 0 <= i < |items| ==> Resolve(items[i], root, env).Some? then
        Some(Array(seq(|items|, i requires 0 <= i < |items| && Resolve(items[i], root, env).Some? =>
                                  Resolve(items[i], root, env).value)))
      else None
    case Object(fields) =>
      if forall k :: k in fields ==> Resolve(fields[k], root, env).Some? then
        Some(Object(map k | k in fields :: Resolve(fields[k], root, env).value))
      else None
    case _ => Some(v)
  }

  /** The tree holds a strict substitution of the key that has no target. */
  predicate Unresolved(v: Value, root: Value, key: Text)
    decreases v
  {
    match v
    case Str(t) => t == STRICT + key && Follow(root, Segments(key)).None?
    case Array(items) => exists i :: 0 <= i < |items| && Unresolved(items[i], root, key)
    case Object(fields) => exists k :: k in fields && Unresolved(fields[k], root, key)
    case _ => false
  }

  /** A result of the pass: the resolved tree, or the key of a substitution without target. */
  ghost predicate Outcome(v: Value, root: Value, env: Environment, r: Result<Value, Text>)
  {
    match r
    case Ok(resolved) => Resolve(v, root, env) == Some(resolved)
    case Err(key) => Resolve(v, root, env).None? && Unresolved(v, root, key)
  }

  /** `resolve_in`; objects are visited in any order. */
  method ResolveIn(v: Value, root: Value, env: Environment) returns (r: Result<Value, Text>)
    ensures Outcome(v, root, env, r)
    decreases v, 1
  {
    match v {
      case Str(t) =>
        r := ResolveString(t, root, env);
      case Array(items) =>
        r := ResolveItems(v, root, env);
      case Object(fields) =>
        r := ResolveFields(v, root, env);
      case _ =>
        r := Ok(v);
    }
  }

  method ResolveString(t: Text, root: Value, env: Environment) returns (r: Result<Value, Text>)
    ensures Outcome(Str(t), root, env, r)
  {
    if STRICT <= t {
      var key := t[|STRICT|..];
      var target := LookupPath(root, key);
      assert t == STRICT + key;
      r := if target.Some? then Ok(target.value) else Err(key);
    } else {
      r := Ok(ResolveText(t, root, env).value);
    }
  }

  lemma ItemFails(items: seq<Value>, root: Value, env: Environment, i: nat, key: Text)
    requires i < |items| && Outcome(items[i], root, env, Err(key))
    ensures Outcome(Array(items), root, env, Err(key))
  {}

  method ResolveItems(v: Value, root: Value, env: Environment) returns (r: Result<Value, Text>)
    requires v.Array?
    ensures Outcome(v, root, env, r)
    decreases v, 0
  {
    hide Unresolved;
    var out: seq<Value> := [];
    for i := 0 to |v.items|
      invariant |out| == i
      invariant forall j :: 0 <= j < i ==> Resolve(v.items[j], root, env) == Some(out[j])
    {
      var item := ResolveIn(v.items[i], root, env);
      if item.Err? {
        ItemFails(v.items, root, env, i, item.error);
        return item;
      }
      out := out + [item.value];
    }
    assert Resolve(v, root, env).Some? && Resolve(v, root, env).value.items == out;
    return Ok(Array(out));
  }

  lemma FieldsDone(fields: Fields, root: Value, env: Environment, out: Fields)
    requires out.Keys == fields.Keys && forall k :: k in out ==> Resolve(fields[k], root, env) == Some(out[k])
    ensures Resolve(Object(fields), root, env) == Some(Object(out))
  {
    assert Resolve(Object(fields), root, env).Some? && Resolve(Object(fields), root, env).value.fields == out;
  }

  lemma FieldFails(fields: Fields, root: Value, env: Environment, k: Text, key: Text)
    requires k in fields && Outcome(fields[k], root, env, Err(key))
    ensures Outcome(Object(fields), root, env, Err(key))
  {}

  method ResolveFields(v: Value, root: Value, env: Environment) returns (r: Result<Value, Text>)
    requires v.Object?
    ensures Outcome(v, root, env, r)
    decreases v, 0
  {
    hide Resolve, Unresolved;
    var out: Fields := map[];
    var todo := v.fields.Keys;
    while todo != {}
      invariant todo <= v.fields.Keys && out.Keys == v.fields.Keys - todo
      invariant forall k :: k in out ==> Resolve(v.fields[k], root, env) == Some(out[k])
      decreases |todo|
    {
      var k :| k in todo;
      var field := ResolveIn(v.fields[k], root, env);
      if field.Err? {
        FieldFails(v.fields, root, env, k, field.error);
        return field;
      }
      out := out[k := field.value];
      todo := todo - {k};
    }
    FieldsDone(v.fields, root, env, out);
    return Ok(Object(out));
  }

  // ----- what one pass achieves -----------------------------------------------

  predicate Marker(t: Text)
  {
    STRICT <= t || OPTIONAL <= t
  }

  /** No substitution marker anywhere in the tree. */
  predicate Clean(v: Value)
  {
    match v
    case Str(t) => !Marker(t)
    case Array(items) => forall i :: 0 <= i < |items| ==> Clean(items[i])
    case Object(fields) => forall k :: k in fields ==> Clean(fields[k])
    case _ => true
  }

  /** Every substitution in the tree finds something that is itself free of markers. */
  predicate TargetsClean(v: Value, root: Value, env: Environment)
    decreases v
  {
    match v
    case Str(t) =>
      (STRICT <= t ==>
        var target := Follow(root, Segments(t[|STRICT|..]));
        target.Some? && Clean(target.value)) &&
      (OPTIONAL <= t ==> env(t[|OPTIONAL|..]).Some? ==> !Marker(env(t[|OPTIONAL|..]).value))
    case Array(items) => forall i :: 0 <= i < |items| ==> TargetsClean(items[i], root, env)
    case Object(fields) => forall k :: k in fields ==> TargetsClean(fields[k], root, env)
    case _ => true
  }

  lemma MarkersDiffer(t: Text)
    ensures !(STRICT <= t && OPTIONAL <= t)
  {
    if STRICT <= t {
      assert t[11] == STRICT[11];
    }
  }

  /** The pass succeeds with a tree free of markers exactly when no substitution leads to another one. */
  lemma {:induction false} ResolvedIff(v: Value, root: Value, env: Environment)
    ensures Resolve(v, root, env).Some? && Clean(Resolve(v, root, env).value) <==> TargetsClean(v, root, env)
    decreases v
  {
    match v {
      case Str(t) => MarkersDiffer(t);
      case Array(items) =>
        forall i | 0 <= i < |items|
          ensures Resolve(items[i], root, env).Some? && Clean(Resolve(items[i], root, env).value) <==>
                  TargetsClean(items[i], root, env)
        {
          ResolvedIff(items[i], root, env);
        }
        ItemsResolved(items, root, env);
      case Object(fields) =>
        forall k | k in fields
          ensures Resolve(fields[k], root, env).Some? && Clean(Resolve(fields[k], root, env).value) <==>
                  TargetsClean(fields[k], root, env)
        {
          ResolvedIff(fields[k], root, env);
        }
        FieldsResolved(fields, root, env);
      case _ =>
    }
  }

  lemma ItemsResolved(items: seq<Value>, root: Value, env: Environment)
    ensures var r := Resolve(Array(items), root, env);
            r.Some? && Clean(r.value) <==>
            forall i :: 0 <= i < |items| ==>
              Resolve(items[i], root, env).Some? && Clean(Resolve(items[i], root, env).value)
  {
    var r := Resolve(Array(items), root, env);
    if r.Some? {
      assert forall i :: 0 <= i < |items| ==> r.value.items[i] == Resolve(items[i], root, env).value;
    }
  }

  lemma FieldsResolved(fields: Fields, root: Value, env: Environment)
    ensures var r := Resolve(Object(fields), root, env);
            r.Some? && Clean(r.value) <==>
            forall k :: k in fields ==>
              Resolve(fields[k], root, env).Some? && Clean(Resolve(fields[k], root, env).value)
  {
    var r := Resolve(Object(fields), root, env);
    if r.Some? {
      assert forall k :: k in fields ==> r.value.fields[k] == Resolve(fields[k], root, env).value;
    }
  }

  lemma OneSegment(c: Byte)
    requires c != DOT
    ensures Segments([c]) == [[c]]
  {
    var t: Text := [c];
    assert t[..|t| - 1] == [];
    assert Segments(t[..|t| - 1]) == [[]];
    assert [] + [c] == t;
  }

  lemma OneStep(f: Fields, k: Text)
    requires k in f
    ensures Follow(Object(f), [k]) == Some(f[k])
  {
    assert [k][1..] == [];
  }

  lemma StrictStep(f: Fields, c: Byte, env: Environment)
    requires c != DOT && [c] in f
    ensures Resolve(Str(STRICT + [c]), Object(f), env) == Some(f[[c]])
  {
    OneSegment(c);
    OneStep(f, [c]);
    assert (STRICT + [c])[|STRICT|..] == [c];
  }

  const A: Text := [97]
  const B: Text := [98]
  const C: Text := [99]

  /** A substitution whose target is a substitution: the marker of the second comes out as a string. */
  lemma ChainLeaksMarker(env: Environment)
    ensures var root := Object(map[A := Str(STRICT + B), B := Str(STRICT + C), C := Int(1)]);
            Resolve(root, root, env) == Some(Object(map[A := Str(STRICT + C), B := Int(1), C := Int(1)]))
  {
    var f: Fields := map[A := Str(STRICT + B), B := Str(STRICT + C), C := Int(1)];
    var r: Fields := map[A := Str(STRICT + C), B := Int(1), C := Int(1)];
    assert A[0] != B[0] && A[0] != C[0] && B[0] != C[0];
    StrictStep(f, 98, env);
    StrictStep(f, 99, env);
    assert forall k :: k in f ==> Resolve(f[k], Object(f), env) == Some(r[k]);
    assert Resolve(Object(f), Object(f), env).value.fields == r;
  }

  // ----- trees the pass leaves alone ------------------------------------------

  /** A string that is no marker, or one whose target or variable is that very string. */
  predicate NamesItself(t: Text, root: Value, env: Environment)
  {
    !Marker(t) ||
    (STRICT <= t && Follow(root, Segments(t[|STRICT|..])) == Some(Str(t))) ||
    (OPTIONAL <= t && env(t[|OPTIONAL|..]) == Some(t))
  }

  /** Every string of the tree is no marker or names itself. */
  predicate Settled(v: Value, root: Value, env: Environment)
    decreases v
  {
    match v
    case Str(t) => NamesItself(t, root, env)
    case Array(items) => forall i :: 0 <= i < |items| ==> Settled(items[i], root, env)
    case Object(fields) => forall k :: k in fields ==> Settled(fields[k], root, env)
    case _ => true
  }

  /** The pass leaves a tree alone exactly when every string in it is no marker or names itself. */
  lemma {:induction false} UnchangedIff(v: Value, root: Value, env: Environment)
    ensures Resolve(v, root, env) == Some(v) <==> Settled(v, root, env)
    decreases v
  {
    match v {
      case Str(t) => MarkersDiffer(t);
      case Array(items) =>
        forall i | 0 <= i < |items|
          ensures Resolve(items[i], root, env) == Some(items[i]) <==> Settled(items[i], root, env)
        {
          UnchangedIff(items[i], root, env);
        }
        ItemsUnchanged(items, root, env);
      case Object(fields) =>
        forall k | k in fields
          ensures Resolve(fields[k], root, env) == Some(fields[k]) <==> Settled(fields[k], root, env)
        {
          UnchangedIff(fields[k], root, env);
        }
        FieldsUnchanged(fields, root, env);
      case _ =>
    }
  }

  lemma ItemsUnchanged(items: seq<Value>, root: Value, env: Environment)
    ensures Resolve(Array(items), root, env) == Some(Array(items)) <==>
            forall i :: 0 <= i < |items| ==> Resolve(items[i], root, env) == Some(items[i])
  {
    var r := Resolve(Array(items), root, env);
    if r.Some? {
      assert forall i :: 0 <= i < |items| ==> r.value.items[i] == Resolve(items[i], root, env).value;
      if forall i :: 0 <= i < |items| ==> Resolve(items[i], root, env) == Some(items[i]) {
        assert r.value.items == items;
      }
    }
  }

  lemma FieldsUnchanged(fields: Fields, root: Value, env: Environment)
    ensures Resolve(Object(fields), root, env) == Some(Object(fields)) <==>
            forall k :: k in fields ==> Resolve(fields[k], root, env) == Some(fields[k])
  {
    var r := Resolve(Object(fields), root, env);
    if r.Some? {
      assert forall k :: k in fields ==> r.value.fields[k] == Resolve(fields[k], root, env).value;
      if forall k :: k in fields ==> Resolve(fields[k], root, env) == Some(fields[k]) {
        assert r.value.fields == fields;
      }
    }
  }

  lemma {:induction false} CleanIsSettled(v: Value, root: Value, env: Environment)
    requires Clean(v)
    ensures Settled(v, root, env)
    decreases v
  {
    match v {
      case Array(items) =>
        forall i | 0 <= i < |items|
          ensures Settled(items[i], root, env)
        {
          CleanIsSettled(items[i], root, env);
        }
      case Object(fields) =>
        forall k | k in fields
          ensures Settled(fields[k], root, env)
        {
          CleanIsSettled(fields[k], root, env);
        }
      case _ =>
    }
  }

  /** A string that merely spells a marker is replaced by what it names. */
  lemma SpelledMarkerReplaced(env: Environment)
    ensures var root := Object(map[A := Str(STRICT + B), B := Int(1)]);
            Resolve(root, root, env) == Some(Object(map[A := Int(1), B := Int(1)]))
  {
    var f: Fields := map[A := Str(STRICT + B), B := Int(1)];
    var r: Fields := map[A := Int(1), B := Int(1)];
    assert A[0] != B[0];
    StrictStep(f, 98, env);
    assert forall k :: k in f ==> Resolve(f[k], Object(f), env) == Some(r[k]);
    assert Resolve(Object(f), Object(f), env).value.fields == r;
  }
}

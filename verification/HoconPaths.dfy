/** Dotted paths in substitutions: how they are split, and what a document reads where they stand. */
module HoconPaths {
  import opened Prelude
  import opened HoconTree
  import opened HoconGrammar
  import opened HoconScalars
  import opened HoconRoundTrip
  import opened HoconResolve
  import opened HoconDocuments

  /** The parts with a dot between any two. */
  function Dotted(path: seq<Text>): Text
    requires path != []
  {
    if |path| == 1 then path[0] else Dotted(path[..|path| - 1]) + [DOT] + path[|path| - 1]
  }

  predicate DotFree(path: seq<Text>)
  {
    forall i :: 0 <= i < |path| ==> DOT !in path[i]
  }

  /** Splitting cuts at every dot and nowhere else. */
  lemma {:induction false} SegmentsAreParts(t: Text)
    ensures DotFree(Segments(t)) && Dotted(Segments(t)) == t
    decreases |t|
  {
    if t != [] {
      var front, c := t[..|t| - 1], t[|t| - 1];
      SegmentsAreParts(front);
      var before := Segments(front);
      var n := |before| - 1;
      assert t == front + [c];
      if c == DOT {
        var all := before + [[]];
        assert all[..|all| - 1] == before;
        assert Dotted(all) == front + [DOT] + [];
      } else {
        var last := before[n] + [c];
        var all := before[..n] + [last];
        if n > 0 {
          assert all[..n] == before[..n];
          assert front == Dotted(before[..n]) + [DOT] + before[n];
          assert Dotted(before[..n]) + [DOT] + last == front + [c];
        } else {
          assert all == [last];
        }
      }
    }
  }

  lemma {:induction false} SplitAfter(path: seq<Text>, part: Text)
    requires path != [] && DotFree(path) && DOT !in part && Segments(Dotted(path)) == path
    ensures Segments(Dotted(path) + [DOT] + part) == path + [part]
    decreases |part|
  {
    hide Segments, Dotted;
    var start := Dotted(path) + [DOT];
    if part == [] {
      assert start + part == start;
      SegmentsStep(Dotted(path), DOT);
    } else {
      var less, c := part[..|part| - 1], part[|part| - 1];
      SplitAfter(path, less);
      assert less + [c] == part;
      assert start + part == start + less + [c];
      SegmentsStep(start + less, c);
      LastPart(path, less, c);
    }
  }

  lemma SegmentsStep(t: Text, c: Byte)
    ensures var before := Segments(t);
            Segments(t + [c]) ==
            if c == DOT then before + [[]] else before[..|before| - 1] + [before[|before| - 1] + [c]]
  {
    var all := t + [c];
    assert all[..|all| - 1] == t && all[|all| - 1] == c;
  }

  lemma LastPart(path: seq<Text>, less: Text, c: Byte)
    ensures var before := path + [less];
            before[..|before| - 1] + [before[|before| - 1] + [c]] == path + [less + [c]]
  {}

  lemma {:induction false} OnePart(part: Text)
    requires DOT !in part
    ensures Segments(part) == [part]
    decreases |part|
  {
    if part != [] {
      var less, c := part[..|part| - 1], part[|part| - 1];
      OnePart(less);
      assert less + [c] == part;
      assert [less][..0] + [less + [c]] == [part];
    }
  }

  /** Joining and splitting are inverse on parts without dots. */
  lemma {:induction false} PartsAreSegments(path: seq<Text>)
    requires path != [] && DotFree(path)
    ensures Segments(Dotted(path)) == path
    decreases |path|
  {
    if |path| == 1 {
      OnePart(path[0]);
      assert path == [path[0]];
    } else {
      var front, last := path[..|path| - 1], path[|path| - 1];
      PartsAreSegments(front);
      SplitAfter(front, last);
      assert front + [last] == path;
    }
  }

  /** A strict substitution of a dotted path gives what the path leads to, and fails when it leads nowhere. */
  lemma ReferenceIsLookup(f: Fields, path: seq<Text>, env: Environment)
    requires path != [] && DotFree(path)
    ensures Resolve(Str(MarkerOf(false, Dotted(path))), Object(f), env) == Lookup(f, path)
  {
    hide Follow, Segments, Dotted;
    PartsAreSegments(path);
    FollowIsLookup(f, path);
    assert (STRICT + Dotted(path))[|STRICT|..] == Dotted(path);
  }

  /** An optional one gives the variable of that name, or null. */
  lemma OptionalIsVariable(name: Text, root: Value, env: Environment)
    ensures Resolve(Str(MarkerOf(true, name)), root, env) ==
            Some(if env(name).Some? then Str(env(name).value) else Null)
  {
    MarkersDiffer(OPTIONAL + name);
    assert (OPTIONAL + name)[|OPTIONAL|..] == name;
  }

  /** The pass works at every path: what is found there is the resolved form of what was. */
  lemma {:induction false} ResolvedAt(f: Fields, g: Fields, root: Value, env: Environment, path: seq<Text>)
    requires Resolve(Object(f), root, env) == Some(Object(g)) && Lookup(f, path).Some?
    ensures Lookup(g, path) == Resolve(Lookup(f, path).value, root, env)
    decreases |path|
  {
    hide ResolveText;
    var k := path[0];
    assert k in g && Resolve(f[k], root, env) == Some(g[k]);
    if |path| > 1 {
      ResolvedAt(f[k].fields, g[k].fields, root, env, path[1..]);
    }
  }

  /** Documents are read, then resolved against themselves. */
  lemma DocumentResolves(h: Host, env: Environment, ms: Members)
    requires MembersOk(h, ms)
    ensures var v := Meaning(DObject(ms)); ParseDocument(WriteMembers(ms), h, env) == Resolve(v, v, env)
  {
    hide ParseRoot, Resolve, WriteMembers, Assign;
    DocumentReads(h, ms, false);
  }

  /**
   * Where a written document has a dotted substitution, the configuration read from it has what the
   * dotted path leads to in the document.
   */
  lemma ReferenceReadsTarget(h: Host, env: Environment, ms: Members, g: Fields, at: seq<Text>, path: seq<Text>)
    requires MembersOk(h, ms) && ParseDocument(WriteMembers(ms), h, env) == Some(Object(g))
    requires path != [] && DotFree(path)
    requires Lookup(Assign(ms, map[]), at) == Some(Str(MarkerOf(false, Dotted(path))))
    ensures Lookup(g, at) == Lookup(Assign(ms, map[]), path)
  {
    hide ParseDocument, Resolve, WriteMembers, Assign, Lookup, Dotted, MarkerOf;
    var f := Assign(ms, map[]);
    DocumentResolves(h, env, ms);
    ResolvedAt(f, g, Object(f), env, at);
    ReferenceIsLookup(f, path, env);
  }
}

/** Reading a whole document: the parser, then the substitutions. */
module HoconDocuments {
  import opened Prelude
  import opened FixUtf8
  import opened HoconTree
  import opened HoconGrammar
  import opened HoconStrings
  import opened HoconRoundTrip
  import opened HoconSpelling
  import opened HoconResolve

  /** `hocon::parse`; `None` for any error of either pass. */
  function ParseDocument(s: Text, h: Host, env: Environment): Option<Value>
  {
    match ParseRoot(s, h)
    case Bad(_) => None
    case Got(v, _) => Resolve(v, v, env)
  }

  /** Written configurations come back exactly when every string in them is no marker or names itself. */
  lemma DocumentSurvivesIff(h: Host, env: Environment, ms: Members)
    requires MembersOk(h, ms)
    ensures var v := Meaning(DObject(ms));
            ParseDocument(WriteMembers(ms), h, env) == Some(v) <==> Settled(v, v, env)
  {
    hide ParseRoot, Resolve, Settled, WriteMembers, Assign;
    var v := Meaning(DObject(ms));
    DocumentReads(h, ms, false);
    UnchangedIff(v, v, env);
  }

  /** So every configuration that can be spelled, without markers, has a text that reads as it. */
  lemma CleanConfigurationSurvives(h: Host, env: Environment, v: Value) returns (s: Text)
    requires v.Object? && ValueOk(h, v) && Clean(v)
    ensures ValidUtf8(s) && ParseDocument(s, h, env) == Some(v)
  {
    hide ParseRoot, Resolve, Settled, ValueOk, Clean, ValidUtf8;
    s := ConfigurationReads(h, v);
    CleanIsSettled(v, v, env);
    UnchangedIff(v, v, env);
  }

  /** The document `{a: "__atomr_sub::b", b: 1}`, written with quotes, does not survive. */
  lemma QuotedMarkerDoesNotSurvive(h: Host, env: Environment)
    ensures var ms := Put([A], false, DText(STRICT + B), Put([B], false, DInt(1), NoMembers));
            MembersOk(h, ms) && Meaning(DObject(ms)) == Object(map[A := Str(STRICT + B), B := Int(1)]) &&
            ParseDocument(WriteMembers(ms), h, env) == Some(Object(map[A := Int(1), B := Int(1)]))
  {
    hide ParseRoot, Resolve, WriteMembers;
    var ms := Put([A], false, DText(STRICT + B), Put([B], false, DInt(1), NoMembers));
    QuotedMarkerMeaning(h);
    DocumentReads(h, ms, false);
    SpelledMarkerReplaced(env);
  }

  lemma QuotedMarkerMeaning(h: Host)
    ensures var ms := Put([A], false, DText(STRICT + B), Put([B], false, DInt(1), NoMembers));
            MembersOk(h, ms) && Meaning(DObject(ms)) == Object(map[A := Str(STRICT + B), B := Int(1)])
  {
    hide DeepMerge, Nested, TextOk, QuoteOk;
    var rest := Put([B], false, DInt(1), NoMembers);
    var ms := Put([A], false, DText(STRICT + B), rest);
    AsciiIsOk(A);
    AsciiIsOk(B);
    AsciiIsOk(STRICT + B);
    assert MembersOk(h, rest) && MembersOk(h, ms);
    assert A[0] != B[0];
    var first: Fields := map[A := Str(STRICT + B)];
    SingleKey(map[], A, Str(STRICT + B));
    SingleKey(first, B, Int(1));
    assert Assign(rest, first) == Assign(NoMembers, first[B := Int(1)]);
    assert Assign(ms, map[]) == Assign(rest, first);
  }
}

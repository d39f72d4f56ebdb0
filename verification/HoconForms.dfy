/** The forms a member, an array and an object body may take, by the characters they are written with. */
module HoconForms {
  import opened Prelude
  import opened HoconTree
  import opened HoconGrammar
  import opened HoconStrings
  import opened HoconLayout

  // ----- what may stand between members and items -----------------------------

  /** Blanks, comments and separators. */
  datatype Gap = Blank(piece: Piece) | Separator(byte: Byte) {
    ghost predicate Fine(separators: string)
    {
      match this
      case Blank(piece) => piece.Ok()
      case Separator(b) => OneOf(b, separators)
    }

    function Written(): Text
    {
      match this
      case Blank(piece) => piece.Written()
      case Separator(b) => [b]
    }
  }

  function WrittenGaps(gaps: seq<Gap>): Text
  {
    if gaps == [] then [] else gaps[0].Written() + WrittenGaps(gaps[1..])
  }

  ghost predicate GapsOk(gaps: seq<Gap>, separators: string)
  {
    forall i :: 0 <= i < |gaps| ==> gaps[i].Fine(separators)
  }

  lemma BodyAfterSkip(s: Text, h: Host, p: nat, q: nat, terminator: Byte, obj: Fields)
    requires p <= |s| && q <= |s| && SkipSpace(s, p) == SkipSpace(s, q)
    ensures ParseBody(s, h, p, terminator, obj) == ParseBody(s, h, q, terminator, obj)
  {
    hide ParseEntry, SkipSpace, Line;
  }

  lemma ArrayAfterSkip(s: Text, h: Host, p: nat, q: nat, items: seq<Value>)
    requires p <= |s| && q <= |s| && SkipSpace(s, p) == SkipSpace(s, q)
    ensures ParseArray(s, h, p, items) == ParseArray(s, h, q, items)
  {
    hide ParseValue, SkipSpace, Line;
  }

  lemma SeparatorIs(b: Byte)
    ensures OneOf(b, ",;\n") <==> b == COMMA || b == SEMICOLON || b == NEWLINE
    ensures OneOf(b, ",\n") <==> b == COMMA || b == NEWLINE
  {
    var three, two := ",;\n", ",\n";
    assert three[0] == ',' && three[1] == ';' && three[2] == '\n' && two[0] == ',' && two[1] == '\n';
  }

  lemma BodySeparator(s: Text, h: Host, p: nat, b: Byte, terminator: Byte, obj: Fields)
    requires StartsWith(s, p, [b]) && OneOf(b, ",;\n") && (terminator == 0 || terminator == CLOSE_BRACE)
    ensures p < |s| && ParseBody(s, h, p, terminator, obj) == ParseBody(s, h, p + 1, terminator, obj)
  {
    hide ParseEntry, Line;
    SeparatorIs(b);
    Sees(s, p, b);
  }

  lemma ArraySeparator(s: Text, h: Host, p: nat, b: Byte, items: seq<Value>)
    requires StartsWith(s, p, [b]) && OneOf(b, ",\n")
    ensures p < |s| && ParseArray(s, h, p, items) == ParseArray(s, h, p + 1, items)
  {
    hide ParseValue, Line;
    SeparatorIs(b);
    Sees(s, p, b);
  }

  lemma BodyGap(s: Text, h: Host, p: nat, gap: Gap, terminator: Byte, obj: Fields)
    requires p <= |s| && StartsWith(s, p, gap.Written()) && gap.Fine(",;\n")
    requires terminator == 0 || terminator == CLOSE_BRACE
    ensures var q := p + |gap.Written()|;
            q <= |s| && ParseBody(s, h, p, terminator, obj) == ParseBody(s, h, q, terminator, obj)
  {
    hide ParseBody, StartsWith, SkipSpace, OneOf, Piece.Ok, Piece.Written;
    if gap.Blank? {
      PieceSkipped(s, p, gap.piece);
      BodyAfterSkip(s, h, p, p + |gap.Written()|, terminator, obj);
    } else {
      BodySeparator(s, h, p, gap.byte, terminator, obj);
    }
  }

  /** In an object any run of blanks, comments, commas, semicolons and newlines changes nothing. */
  lemma {:induction false} BodyGaps(s: Text, h: Host, p: nat, gaps: seq<Gap>, terminator: Byte, obj: Fields)
    requires p <= |s| && StartsWith(s, p, WrittenGaps(gaps)) && GapsOk(gaps, ",;\n")
    requires terminator == 0 || terminator == CLOSE_BRACE
    ensures p + |WrittenGaps(gaps)| <= |s|
    ensures ParseBody(s, h, p, terminator, obj) == ParseBody(s, h, p + |WrittenGaps(gaps)|, terminator, obj)
    decreases |gaps|
  {
    hide ParseBody, StartsWith, Gap.Written, Gap.Fine;
    if gaps != [] {
      var w := gaps[0].Written();
      Splits(s, p, w, WrittenGaps(gaps[1..]));
      BodyGap(s, h, p, gaps[0], terminator, obj);
      BodyGaps(s, h, p + |w|, gaps[1..], terminator, obj);
    } else {
      Fits(s, p, WrittenGaps(gaps));
    }
  }

  lemma ArrayGap(s: Text, h: Host, p: nat, gap: Gap, items: seq<Value>)
    requires p <= |s| && StartsWith(s, p, gap.Written()) && gap.Fine(",\n")
    ensures var q := p + |gap.Written()|; q <= |s| && ParseArray(s, h, p, items) == ParseArray(s, h, q, items)
  {
    hide ParseArray, StartsWith, SkipSpace, OneOf, Piece.Ok, Piece.Written;
    if gap.Blank? {
      PieceSkipped(s, p, gap.piece);
      ArrayAfterSkip(s, h, p, p + |gap.Written()|, items);
    } else {
      ArraySeparator(s, h, p, gap.byte, items);
    }
  }

  /** In an array the same without the semicolons. */
  lemma {:induction false} ArrayGaps(s: Text, h: Host, p: nat, gaps: seq<Gap>, items: seq<Value>)
    requires p <= |s| && StartsWith(s, p, WrittenGaps(gaps)) && GapsOk(gaps, ",\n")
    ensures p + |WrittenGaps(gaps)| <= |s|
    ensures ParseArray(s, h, p, items) == ParseArray(s, h, p + |WrittenGaps(gaps)|, items)
    decreases |gaps|
  {
    hide ParseArray, StartsWith, Gap.Written, Gap.Fine;
    if gaps != [] {
      var w := gaps[0].Written();
      Splits(s, p, w, WrittenGaps(gaps[1..]));
      ArrayGap(s, h, p, gaps[0], items);
      ArrayGaps(s, h, p + |w|, gaps[1..], items);
    } else {
      Fits(s, p, WrittenGaps(gaps));
    }
  }

  /** A semicolon is no separator in an array. */
  lemma SemicolonEndsArray(s: Text, h: Host, p: nat, items: seq<Value>)
    requires At(s, p, ';')
    ensures ParseArray(s, h, p, items) == Bad(Expected("value", [], Line(s, p)))
  {
    hide Line;
    assert s[p..p] == [];
    assert Trim([]) == [];
    assert SkipSpace(s, p) == p && SkipInline(s, p) == p && ScalarEnd(s, p) == p;
  }

  // ----- what follows a key ---------------------------------------------------

  /** The value read is set at the key, on top of what is there. */
  function Assigned(obj: Fields, key: seq<Text>, read: Parse<Value>): Parse<Fields>
  {
    match read
    case Bad(f) => Bad(f)
    case Got(v, end) => Got(DeepMerge(obj, Nested(key, v)), end)
  }

  /** The value read is appended at the key. */
  function Extended(obj: Fields, key: seq<Text>, read: Parse<Value>): Parse<Fields>
  {
    match read
    case Bad(f) => Bad(f)
    case Got(v, end) => Got(Appended(obj, key, v), end)
  }

  /** After a key and blanks, `=` and `:` assign. */
  lemma AssignmentForms(s: Text, h: Host, p: nat, obj: Fields, key: seq<Text>, e: nat)
    requires p <= |s| && ParseKey(s, p, []) == Got(key, e)
    ensures var q := SkipInline(s, e);
            At(s, q, '=') || At(s, q, ':') ==>
              ParseMember(s, h, p, obj) ==
              Assigned(obj, key, ParseValue(s, h, q + 1))
  {
    hide ParseKey, ParseValue, ParseBody, SkipInline, DeepMerge, Nested, Line;
    var q := SkipInline(s, e);
    if q < |s| {
      InlineTwice(s, h, q + 1);
    }
  }

  lemma {:induction false} InlineOnce(s: Text, p: nat)
    requires p <= |s|
    ensures SkipInline(s, SkipInline(s, p)) == SkipInline(s, p)
    decreases |s| - p
  {
    if Is(s, p, SPACE) || Is(s, p, TAB) {
      InlineOnce(s, p + 1);
    }
  }

  lemma InlineTwice(s: Text, h: Host, p: nat)
    requires p <= |s|
    ensures ParseValue(s, h, SkipInline(s, p)) == ParseValue(s, h, p)
  {
    hide SkipInline, ParseString, ParseArray, ParseBody, ParseScalar, ParseSubstitution, Line;
    InlineOnce(s, p);
  }

  /** `+=` appends. */
  lemma AppendForm(s: Text, h: Host, p: nat, obj: Fields, key: seq<Text>, e: nat)
    requires p <= |s| && ParseKey(s, p, []) == Got(key, e)
    ensures var q := SkipInline(s, e);
            At(s, q, '+') && At(s, q + 1, '=') ==>
              ParseMember(s, h, p, obj) ==
              Extended(obj, key, ParseValue(s, h, q + 2))
  {
    hide ParseKey, ParseValue, ParseBody, SkipInline, DeepMerge, Nested, Appended, Line;
    var q := SkipInline(s, e);
    if q + 1 < |s| {
      InlineTwice(s, h, q + 2);
    }
  }

  /** A body right behind the key means what it means behind an equals sign. */
  lemma BodyForm(s: Text, h: Host, p: nat, obj: Fields, key: seq<Text>, e: nat)
    requires p <= |s| && ParseKey(s, p, []) == Got(key, e)
    ensures var q := SkipInline(s, e);
            At(s, q, '{') ==>
              ParseMember(s, h, p, obj) ==
              Assigned(obj, key, ParseValue(s, h, q))
  {
    hide ParseKey, ParseBody, DeepMerge, Nested, Line;
    InlineOnce(s, e);
  }

  /** Anything else behind a key is refused. */
  lemma OtherwiseRefused(s: Text, h: Host, p: nat, obj: Fields, key: seq<Text>, e: nat)
    requires p <= |s| && ParseKey(s, p, []) == Got(key, e)
    ensures var q := SkipInline(s, e);
            !At(s, q, '=') && !At(s, q, ':') && !At(s, q, '{') && !(At(s, q, '+') && At(s, q + 1, '=')) ==>
              ParseMember(s, h, p, obj).Bad?
  {
    hide ParseKey, SkipInline, Line;
  }

  // ----- includes -------------------------------------------------------------

  /** An included object goes on top of what was read before it, path by path. */
  lemma IncludeOverrides(s: Text, h: Host, p: nat, obj: Fields, file: Text, f: Fields, path: seq<Text>)
    requires p + 7 <= |s| && StartsKeyword(s, p, INCLUDE)
    requires var q := ParseString(s, SkipInline(s, p + 7)); q.Got? && q.value == file
    requires h.included(file) == Ok(Object(f))
    ensures ParseEntry(s, h, p, obj).Got?
    ensures Lookup(f, path).Some? && !Lookup(f, path).value.Object? ==>
              Lookup(ParseEntry(s, h, p, obj).value, path) == Lookup(f, path)
    ensures Lookup(f, path).None? && !Blocked(f, path) ==>
              Lookup(ParseEntry(s, h, p, obj).value, path) == Lookup(obj, path)
  {
    hide ParseMember, ParseString, SkipInline, Lookup, DeepMerge, Blocked, Line, StartsKeyword;
    LookupMerged(obj, f, path);
    PlainWins(Lookup(obj, path), Lookup(f, path));
  }

  lemma PlainWins(was: Option<Value>, now: Option<Value>)
    ensures was.Some? && now.Some? && !now.value.Object? ==> Merge(was.value, now.value, true) == now.value
  {}
}

/** Documents written out and read back: the parser computes the meaning of the document. */
module HoconRoundTrip {
  import opened Prelude
  import opened FixDecimal
  import opened FixUtf8
  import opened HoconTree
  import opened HoconGrammar
  import opened HoconStrings
  import opened HoconScalars

  /** Documents as written: dotted keys, repeated keys, `+=`, unquoted scalars and substitutions included. */
  datatype Doc =
    | DNull
    | DBool(flag: bool)
    | DInt(number: int)
    | DText(text: Text)
    | DScalar(literal: Text, value: Value)
    | DReference(optional: bool, name: Text)
    | DArray(items: Docs)
    | DObject(members: Members)

  datatype Docs = NoDocs | Docs(head: Doc, tail: Docs)

  datatype Members = NoMembers | Put(path: seq<Text>, append: bool, value: Doc, rest: Members)

  // ----- meaning --------------------------------------------------------------

  function Meaning(d: Doc): Value
  {
    match d
    case DNull => Null
    case DBool(flag) => Bool(flag)
    case DInt(number) => Int(number)
    case DText(text) => Str(text)
    case DScalar(_, value) => value
    case DReference(optional, name) => Str(MarkerOf(optional, name))
    case DArray(items) => Array(Meanings(items))
    case DObject(members) => Object(Assign(members, map[]))
  }

  function Meanings(ds: Docs): seq<Value>
  {
    match ds
    case NoDocs => []
    case Docs(head, tail) => [Meaning(head)] + Meanings(tail)
  }

  /** The members in order, each merged into or appended to what is there. */
  function Assign(ms: Members, obj: Fields): Fields
  {
    match ms
    case NoMembers => obj
    case Put(path, append, value, rest) =>
      Assign(rest, if append then Appended(obj, path, Meaning(value)) else DeepMerge(obj, Nested(path, Meaning(value))))
  }

  // ----- writing --------------------------------------------------------------

  predicate PathOk(path: seq<Text>)
  {
    path != [] && forall i :: 0 <= i < |path| ==> TextOk(path[i])
  }

  /** Documents the writer can express; what an unquoted scalar reads as is up to the host. */
  predicate DocOk(h: Host, d: Doc)
  {
    match d
    case DInt(number) => IntOk(number)
    case DText(text) => TextOk(text)
    case DScalar(literal, value) => Literal(literal) && ScalarOf(h, literal) == value
    case DReference(_, name) => NameOk(name)
    case DArray(items) => DocsOk(h, items)
    case DObject(members) => MembersOk(h, members)
    case _ => true
  }

  predicate DocsOk(h: Host, ds: Docs)
  {
    ds.NoDocs? || (DocOk(h, ds.head) && DocsOk(h, ds.tail))
  }

  predicate MembersOk(h: Host, ms: Members)
  {
    ms.NoMembers? || (PathOk(ms.path) && DocOk(h, ms.value) && MembersOk(h, ms.rest))
  }

  function WritePath(path: seq<Text>): Text
  {
    if path == [] then []
    else if |path| == 1 then WriteText(path[0])
    else WriteText(path[0]) + ([DOT] + WritePath(path[1..]))
  }

  function WriteInt(i: int): Text
  {
    if i < 0 then [MINUS] + Digits(-i) else Digits(i)
  }

  function Write(d: Doc): Text
  {
    match d
    case DNull => NULL
    case DBool(flag) => if flag then TRUE else FALSE
    case DInt(number) => WriteInt(number)
    case DText(text) => WriteText(text)
    case DScalar(literal, _) => WriteLiteral(literal)
    case DReference(optional, name) => WriteReference(optional, name)
    case DArray(items) => [OPEN_BRACKET] + (WriteAll(items) + [CLOSE_BRACKET])
    case DObject(members) => [OPEN_BRACE] + (WriteMembers(members) + [CLOSE_BRACE])
  }

  function WriteAll(ds: Docs): Text
  {
    match ds
    case NoDocs => []
    case Docs(head, tail) => Write(head) + ([COMMA] + WriteAll(tail))
  }

  function WriteMembers(ms: Members): Text
  {
    match ms
    case NoMembers => []
    case Put(path, append, value, rest) =>
      WritePath(path) + ((if append then [PLUS, EQUALS] else [EQUALS]) +
                         (Write(value) + ([COMMA] + WriteMembers(rest))))
  }

  // ----- reading keys ---------------------------------------------------------

  lemma PartReads(s: Text, p: nat, t: Text)
    requires p <= |s| && TextOk(t) && StartsWith(s, p, WriteText(t)) && !Is(s, p + |WriteText(t)|, QUOTE)
    ensures Is(s, p, QUOTE) && KeyPart(s, SkipInline(s, p)) == Got(t, p + |WriteText(t)|)
  {
    hide ParseString, WriteText, TextOk, StartsWith;
    TextReads(s, p, t);
  }

  lemma KeyStep(s: Text, p: nat, parts: seq<Text>, t: Text, e: nat)
    requires p <= |s| && KeyPart(s, SkipInline(s, p)) == Got(t, e)
    ensures ParseKey(s, p, parts) ==
            if Is(s, e, DOT) then ParseKey(s, e + 1, parts + [t]) else Got(parts + [t], e)
  {
    hide KeyPart, SkipInline;
  }

  /** A written path, followed by an assignment, reads as its parts. */
  lemma {:induction false} PathReads(s: Text, p: nat, path: seq<Text>, parts: seq<Text>)
    requires p <= |s| && PathOk(path) && StartsWith(s, p, WritePath(path))
    requires Is(s, p + |WritePath(path)|, EQUALS) || Is(s, p + |WritePath(path)|, PLUS)
    ensures Is(s, p, QUOTE) && ParseKey(s, p, parts) == Got(parts + path, p + |WritePath(path)|)
    decreases |path|
  {
    hide KeyPart, SkipInline, WriteText, TextOk, ParseKey, StartsWith;
    assert TextOk(path[0]);
    if |path| == 1 {
      PartReads(s, p, path[0]);
      KeyStep(s, p, parts, path[0], p + |WriteText(path[0])|);
      assert parts + [path[0]] == parts + path;
    } else {
      var first := WriteText(path[0]);
      Splits(s, p, first, [DOT] + WritePath(path[1..]));
      Splits(s, p + |first|, [DOT], WritePath(path[1..]));
      Sees(s, p + |first|, DOT);
      PartReads(s, p, path[0]);
      KeyStep(s, p, parts, path[0], p + |first|);
      PathReads(s, p + |first| + 1, path[1..], parts + [path[0]]);
      assert parts + [path[0]] + path[1..] == parts + path;
    }
  }

  // ----- reading scalars ------------------------------------------------------

  predicate Plain(w: Text)
  {
    w != [] && forall i :: 0 <= i < |w| ==> Alphanumeric(w[i]) || w[i] == MINUS
  }

  lemma {:induction false} PlainEnds(s: Text, p: nat, w: Text)
    requires StartsWith(s, p, w) && (w == [] || Plain(w)) && Is(s, p + |w|, COMMA)
    ensures ScalarEnd(s, p) == p + |w|
    decreases |w|
  {
    if w != [] {
      assert w == [w[0]] + w[1..];
      Splits(s, p, [w[0]], w[1..]);
      Sees(s, p, w[0]);
      assert !EndsScalar(s, p);
      PlainEnds(s, p + 1, w[1..]);
    }
  }

  lemma PlainTrims(w: Text)
    requires Plain(w)
    ensures Trim(w) == w && ValidUtf8(w)
  {
    hide ValidUtf8, SpaceAtStart, SpaceAtEnd;
    PlainEdges(w);
    AsciiIsUtf8(w);
  }

  lemma PlainEdges(w: Text)
    requires Plain(w)
    ensures SpaceAtStart(w) == 0 && SpaceAtEnd(w) == 0
  {
    assert Alphanumeric(w[0]) || w[0] == MINUS;
    assert Alphanumeric(w[|w| - 1]) || w[|w| - 1] == MINUS;
    assert |w| >= 3 ==> w[..3][0] == w[0] && w[|w| - 3..][2] == w[|w| - 1];
  }

  lemma ScalarReads(s: Text, h: Host, p: nat, w: Text)
    requires StartsWith(s, p, w) && Plain(w) && Is(s, p + |w|, COMMA)
    ensures ParseValue(s, h, p) == Got(ScalarOf(h, w), p + |w|) && Opens(s, p)
  {
    hide ScalarOf, Trim, ValidUtf8, ParseString, ParseArray, ParseBody, ParseSubstitution, ScalarEnd, Line, Col;
    PlainEnds(s, p, w);
    PlainTrims(w);
    assert s[p] == s[p..p + |w|][0] == w[0];
  }

  lemma NotAWord(w: Text)
    requires w != [] && (IsDigit(w[0]) || w[0] == MINUS)
    ensures w != NULL && w != TRUE && w != FALSE
  {
    assert NULL[0] == 110 && TRUE[0] == 116 && FALSE[0] == 102;
  }

  lemma IntParses(i: int)
    requires IntOk(i)
    ensures ParseInt(WriteInt(i)) == Some(i)
  {
    hide Digits, DigitsValue;
    var n := if i < 0 then -i else i;
    DigitsRoundTrip(n);
    ParseDigits(n, I64_MAX);
    assert IsDigit(Digits(n)[0]);
    if i < 0 {
      assert WriteInt(i)[1..] == Digits(n);
    }
  }

  lemma IntReads(h: Host, i: int)
    requires IntOk(i)
    ensures Plain(WriteInt(i)) && ScalarOf(h, WriteInt(i)) == Int(i)
  {
    hide ParseInt, Digits, DigitsValue;
    var n := if i < 0 then -i else i;
    DigitsRoundTrip(n);
    assert IsDigit(Digits(n)[0]);
    NotAWord(WriteInt(i));
    IntParses(i);
  }

  /** A byte no white space or comment starts with, and neither a separator nor a closing bracket. */
  predicate Opens(s: Text, p: nat)
  {
    p < |s| &&
    (Alphanumeric(s[p]) || s[p] == MINUS || s[p] == QUOTE || s[p] == OPEN_BRACKET || s[p] == OPEN_BRACE ||
     s[p] == VERTICAL_TAB || s[p] == DOLLAR)
  }

  lemma OpensReads(s: Text, p: nat)
    requires Opens(s, p)
    ensures SkipSpace(s, p) == p && SkipInline(s, p) == p
  {}

  lemma CommaReads(s: Text, p: nat)
    requires Is(s, p, COMMA) || Is(s, p, CLOSE_BRACKET) || Is(s, p, CLOSE_BRACE)
    ensures SkipSpace(s, p) == p
  {}

  // ----- reading documents ----------------------------------------------------

  lemma {:induction false} ValueReads(s: Text, h: Host, p: nat, d: Doc)
    requires p <= |s| && DocOk(h, d) && StartsWith(s, p, Write(d)) && Is(s, p + |Write(d)|, COMMA)
    ensures Opens(s, p) && ParseValue(s, h, p) == Got(Meaning(d), p + |Write(d)|)
    decreases d
  {
    hide ParseString, ParseArray, ParseBody, ParseScalar, ParseSubstitution, ScalarOf, WriteText, Line, TextOk,
         StartsWith, SkipInline, WriteAll, WriteMembers, WriteInt, WriteLiteral, WriteReference, MarkerOf, Literal,
         NameOk, Meanings, Assign;
    match d {
      case DNull =>
        ScalarReads(s, h, p, NULL);
        ConstantsRead(h);
      case DBool(flag) =>
        ScalarReads(s, h, p, if flag then TRUE else FALSE);
        ConstantsRead(h);
      case DInt(number) =>
        IntReads(h, number);
        ScalarReads(s, h, p, WriteInt(number));
      case DText(text) =>
        TextReads(s, p, text);
        OpensReads(s, p);
      case DScalar(literal, _) =>
        LiteralReads(s, h, p, literal);
      case DReference(optional, name) =>
        ReferenceReads(s, h, p, optional, name);
      case DArray(items) =>
        Splits(s, p, [OPEN_BRACKET], WriteAll(items) + [CLOSE_BRACKET]);
        Sees(s, p, OPEN_BRACKET);
        OpensReads(s, p);
        ItemsRead(s, h, p + 1, items, []);
        assert [] + Meanings(items) == Meanings(items);
      case DObject(members) =>
        Splits(s, p, [OPEN_BRACE], WriteMembers(members) + [CLOSE_BRACE]);
        Sees(s, p, OPEN_BRACE);
        OpensReads(s, p);
        Splits(s, p + 1, WriteMembers(members), [CLOSE_BRACE]);
        Sees(s, p + 1 + |WriteMembers(members)|, CLOSE_BRACE);
        MembersRead(s, h, p + 1, members, CLOSE_BRACE, map[]);
    }
  }

  lemma ConstantsRead(h: Host)
    ensures Plain(NULL) && Plain(TRUE) && Plain(FALSE)
    ensures ScalarOf(h, NULL) == Null && ScalarOf(h, TRUE) == Bool(true) && ScalarOf(h, FALSE) == Bool(false)
  {
    assert TRUE[0] != NULL[0] && FALSE[0] != NULL[0] && FALSE[0] != TRUE[0];
  }

  lemma ItemStep(s: Text, h: Host, p: nat, items: seq<Value>, v: Value, e: nat)
    requires Opens(s, p) && ParseValue(s, h, p) == Got(v, e) && Is(s, e, COMMA)
    ensures ParseArray(s, h, p, items) == ParseArray(s, h, e + 1, items + [v])
  {
    hide ParseValue, SkipSpace, Line;
    OpensReads(s, p);
    CommaReads(s, e);
  }

  lemma ItemsEnd(s: Text, h: Host, p: nat, items: seq<Value>)
    requires Is(s, p, CLOSE_BRACKET)
    ensures ParseArray(s, h, p, items) == Got(Array(items), p + 1)
  {
    hide ParseValue, Line;
  }

  lemma {:induction false} ItemsRead(s: Text, h: Host, p: nat, ds: Docs, items: seq<Value>)
    requires p <= |s| && DocsOk(h, ds) && StartsWith(s, p, WriteAll(ds) + [CLOSE_BRACKET])
    ensures ParseArray(s, h, p, items) == Got(Array(items + Meanings(ds)), p + |WriteAll(ds)| + 1)
    decreases ds
  {
    hide ParseValue, ParseArray, Write, Meaning, StartsWith;
    match ds {
      case NoDocs =>
        assert WriteAll(ds) + [CLOSE_BRACKET] == [CLOSE_BRACKET];
        Sees(s, p, CLOSE_BRACKET);
        ItemsEnd(s, h, p, items);
        assert items + Meanings(ds) == items;
      case Docs(head, tail) =>
        var written := Write(head);
        var after := WriteAll(tail) + [CLOSE_BRACKET];
        assert WriteAll(ds) + [CLOSE_BRACKET] == written + ([COMMA] + after);
        Splits(s, p, written, [COMMA] + after);
        Splits(s, p + |written|, [COMMA], after);
        Sees(s, p + |written|, COMMA);
        ValueReads(s, h, p, head);
        ItemStep(s, h, p, items, Meaning(head), p + |written|);
        ItemsRead(s, h, p + |written| + 1, tail, items + [Meaning(head)]);
        assert items + [Meaning(head)] + Meanings(tail) == items + Meanings(ds);
    }
  }

  /** Where the operator, the value and the comma of a written member are. */
  lemma MemberLayout(s: Text, p: nat, ms: Members) returns (o: nat, v: nat, e: nat)
    requires ms.Put? && StartsWith(s, p, WriteMembers(ms))
    ensures o == p + |WritePath(ms.path)| && v == o + (if ms.append then 2 else 1) && e == v + |Write(ms.value)|
    ensures StartsWith(s, p, WritePath(ms.path)) && StartsWith(s, o, if ms.append then [PLUS, EQUALS] else [EQUALS])
    ensures StartsWith(s, v, Write(ms.value)) && Is(s, e, COMMA) && StartsWith(s, e + 1, WriteMembers(ms.rest))
    ensures e + 1 + |WriteMembers(ms.rest)| == p + |WriteMembers(ms)|
  {
    hide StartsWith, Write, WritePath;
    var path, op := WritePath(ms.path), if ms.append then [PLUS, EQUALS] else [EQUALS];
    var tail := [COMMA] + WriteMembers(ms.rest);
    Splits(s, p, path, op + (Write(ms.value) + tail));
    o := p + |path|;
    Splits(s, o, op, Write(ms.value) + tail);
    v := o + |op|;
    Splits(s, v, Write(ms.value), tail);
    e := v + |Write(ms.value)|;
    Splits(s, e, [COMMA], WriteMembers(ms.rest));
    Sees(s, e, COMMA);
  }

  function Step(obj: Fields, ms: Members): Fields
    requires ms.Put?
  {
    if ms.append then Appended(obj, ms.path, Meaning(ms.value)) else DeepMerge(obj, Nested(ms.path, Meaning(ms.value)))
  }

  /** One member, up to the comma after it. */
  lemma {:induction false} MemberReads(s: Text, h: Host, p: nat, ms: Members, obj: Fields) returns (e: nat)
    requires p <= |s| && MembersOk(h, ms) && ms.Put? && StartsWith(s, p, WriteMembers(ms))
    ensures Opens(s, p) && !StartsKeyword(s, p, INCLUDE) && Is(s, e, COMMA) &&
            StartsWith(s, e + 1, WriteMembers(ms.rest))
    ensures e + 1 + |WriteMembers(ms.rest)| == p + |WriteMembers(ms)|
    ensures ParseMember(s, h, p, obj) == Got(Step(obj, ms), e)
    decreases ms, 0
  {
    hide ParseKey, ParseValue, ParseBody, Write, Meaning, SkipInline, Line, WritePath, DeepMerge, Appended, Nested,
      StartsWith, WriteMembers, StartsKeyword;
    var o, v;
    o, v, e := MemberLayout(s, p, ms);
    OperatorReads(s, o, ms.append);
    PathReads(s, p, ms.path, []);
    assert [] + ms.path == ms.path;
    ValueReads(s, h, v, ms.value);
    OpensReads(s, v);
    NotInclude(s, p);
  }

  lemma OperatorReads(s: Text, p: nat, append: bool)
    requires StartsWith(s, p, if append then [PLUS, EQUALS] else [EQUALS])
    ensures SkipInline(s, p) == p
    ensures if append then Is(s, p, PLUS) && Is(s, p + 1, EQUALS) else Is(s, p, EQUALS)
  {
    if append {
      assert s[p..p + 2][0] == PLUS && s[p..p + 2][1] == EQUALS;
    } else {
      Sees(s, p, EQUALS);
    }
  }

  lemma NotInclude(s: Text, p: nat)
    requires !Is(s, p, INCLUDE[0])
    ensures !StartsKeyword(s, p, INCLUDE)
  {
    IncludeMeans(s, p);
  }

  lemma IncludeMeans(s: Text, p: nat)
    ensures StartsWith(s, p, INCLUDE) ==> Is(s, p, INCLUDE[0])
  {
    if StartsWith(s, p, INCLUDE) {
      assert s[p] == s[p..p + 7][0];
    }
  }

  lemma BodyStep(s: Text, h: Host, p: nat, terminator: Byte, obj: Fields, next: Fields, e: nat)
    requires Opens(s, p) && !StartsKeyword(s, p, INCLUDE) && ParseMember(s, h, p, obj) == Got(next, e)
    requires Is(s, e, COMMA) && (terminator == 0 || terminator == CLOSE_BRACE)
    ensures ParseBody(s, h, p, terminator, obj) == ParseBody(s, h, e + 1, terminator, next)
  {
    hide ParseMember, ParseInclude, SkipSpace, StartsKeyword, Line;
    OpensReads(s, p);
    CommaReads(s, e);
  }

  /** A body stops at its terminator, or at the end of the text when it has none, that is, the terminator 0. */
  predicate Ends(s: Text, p: nat, terminator: Byte)
  {
    (terminator == 0 || terminator == CLOSE_BRACE) && (Is(s, p, terminator) || (terminator == 0 && p == |s|))
  }

  lemma BodyEnd(s: Text, h: Host, p: nat, terminator: Byte, obj: Fields)
    requires Ends(s, p, terminator)
    ensures ParseBody(s, h, p, terminator, obj) == Got(obj, if p == |s| then p else p + 1)
  {
    hide ParseMember, ParseInclude, Line;
  }

  /** The members of an object, up to its closing brace or, at the root, the end of the text. */
  lemma {:induction false} MembersRead(s: Text, h: Host, p: nat, ms: Members, terminator: Byte, obj: Fields)
    requires p <= |s| && MembersOk(h, ms) && StartsWith(s, p, WriteMembers(ms))
    requires Ends(s, p + |WriteMembers(ms)|, terminator)
    ensures var e := p + |WriteMembers(ms)|;
            ParseBody(s, h, p, terminator, obj) == Got(Assign(ms, obj), if e == |s| then e else e + 1)
    decreases ms
  {
    hide ParseMember, ParseBody, Write, Meaning, WritePath, DeepMerge, Appended, Nested, PathOk, Opens, StartsKeyword;
    match ms {
      case NoMembers =>
        BodyEnd(s, h, p, terminator, obj);
      case Put(_, _, _, rest) =>
        var e := MemberReads(s, h, p, ms, obj);
        BodyStep(s, h, p, terminator, obj, Step(obj, ms), e);
        MembersRead(s, h, e + 1, rest, terminator, Step(obj, ms));
    }
  }

  /** A written document, with or without the outer braces, parses to its meaning. */
  lemma DocumentReads(h: Host, ms: Members, braces: bool)
    requires MembersOk(h, ms)
    ensures var s := if braces then [OPEN_BRACE] + WriteMembers(ms) + [CLOSE_BRACE] else WriteMembers(ms);
            ParseRoot(s, h) == Got(Meaning(DObject(ms)), |s|)
  {
    hide ParseBody, WriteMembers, Line, Col;
    var body := WriteMembers(ms);
    if braces {
      var s := [OPEN_BRACE] + body + [CLOSE_BRACE];
      assert s[1..1 + |body|] == body;
      MembersRead(s, h, 1, ms, CLOSE_BRACE, map[]);
    } else {
      assert body[0..|body|] == body;
      MembersRead(body, h, 0, ms, 0, map[]);
      StartsNeutral(h, ms);
    }
  }

  /**
   * A zero byte after a document without outer braces ends it; only white space and comments may
   * follow, anything else is reported at its place.
   */
  lemma ZeroEndsDocument(h: Host, ms: Members, rest: Text)
    requires MembersOk(h, ms)
    ensures var s := WriteMembers(ms) + [0] + rest;
            var end := SkipSpace(s, |WriteMembers(ms)| + 1);
            ParseRoot(s, h) == if end == |s| then Got(Meaning(DObject(ms)), |s|)
                               else Bad(Unexpected(s[end], Line(s, end), Col(s, end)))
  {
    hide ParseBody, WriteMembers, Line, Col;
    var body := WriteMembers(ms);
    var s := body + [0] + rest;
    assert s[0..|body|] == body;
    assert Is(s, |body|, 0);
    MembersRead(s, h, 0, ms, 0, map[]);
    StartsNeutral(h, ms);
    SameStart(body, rest);
  }

  lemma SameStart(body: Text, rest: Text)
    requires body == [] || body[0] == QUOTE
    ensures var s := body + [0] + rest; SkipSpace(s, 0) == 0 && !Is(s, 0, OPEN_BRACE)
  {
    var s := body + [0] + rest;
    assert body != [] ==> s[0] == body[0];
  }

  /** Whatever the text, a document without outer braces that parses was read to its end or to a zero byte. */
  lemma RootStops(s: Text, h: Host)
    requires ParseRoot(s, h).Got? && !Is(s, SkipSpace(s, 0), OPEN_BRACE)
    ensures var body := ParseBody(s, h, SkipSpace(s, 0), 0, map[]);
            body.Got? && ParseRoot(s, h).value == Object(body.value) && SkipSpace(s, body.pos) == |s| &&
            (body.pos == |s| || (body.pos > 0 && s[body.pos - 1] == 0))
  {
    hide SkipSpace, ParseBody, Line, Col;
    BodyStops(s, h, SkipSpace(s, 0), 0, map[]);
  }

  /** A body that parses ended at its terminator, or at the end of the text when that is 0. */
  lemma {:induction false} BodyStops(s: Text, h: Host, p: nat, terminator: Byte, obj: Fields)
    requires p <= |s|
    ensures var r := ParseBody(s, h, p, terminator, obj);
            r.Got? ==> (p < r.pos && s[r.pos - 1] == terminator) || (terminator == 0 && r.pos == |s|)
    decreases |s| - p
  {
    hide SkipSpace, ParseEntry, Line, Col;
    var q := SkipSpace(s, p);
    if q < |s| && s[q] != terminator {
      if s[q] == COMMA || s[q] == NEWLINE || s[q] == SEMICOLON {
        BodyStops(s, h, q + 1, terminator, obj);
      } else {
        var next := ParseEntry(s, h, q, obj);
        if next.Got? {
          BodyStops(s, h, next.pos, terminator, next.value);
        }
      }
    }
  }

  lemma StartsNeutral(h: Host, ms: Members)
    requires MembersOk(h, ms)
    ensures WriteMembers(ms) == [] || WriteMembers(ms)[0] == QUOTE
    ensures SkipSpace(WriteMembers(ms), 0) == 0 && !Is(WriteMembers(ms), 0, OPEN_BRACE)
  {
    if ms.Put? {
      var s := WriteMembers(ms);
      assert s[0] == WritePath(ms.path)[0] == QUOTE;
    }
  }
}

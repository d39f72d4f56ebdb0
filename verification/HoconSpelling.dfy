/** Which configurations have a text: the writer covers exactly what the parser can produce. */
module HoconSpelling {
  import opened Prelude
  import opened FixDecimal
  import opened FixUtf8
  import opened HoconTree
  import opened HoconGrammar
  import opened HoconStrings
  import opened HoconScalars
  import opened HoconRoundTrip

  // ----- what can be spelled --------------------------------------------------

  /** A string: in quotes, unquoted, or left behind by a substitution. */
  predicate StringOk(h: Host, t: Text)
  {
    TextOk(t) || (Literal(t) && ScalarOf(h, t) == Str(t)) ||
    (STRICT <= t && NameOk(t[|STRICT|..])) || (OPTIONAL <= t && NameOk(t[|OPTIONAL|..]))
  }

  /** Some unquoted scalar reads as the number. */
  ghost predicate FloatOk(h: Host, f: int)
  {
    exists w :: Literal(w) && ScalarOf(h, w) == Float(f)
  }

  ghost predicate ValueOk(h: Host, v: Value)
  {
    match v
    case Null => true
    case Bool(_) => true
    case Int(number) => IntOk(number)
    case Float(f) => FloatOk(h, f)
    case Str(text) => StringOk(h, text)
    case Array(items) => forall i :: 0 <= i < |items| ==> ValueOk(h, items[i])
    case Object(fields) => forall k :: k in fields ==> TextOk(k) && ValueOk(h, fields[k])
  }

  /** Included files yield nothing that could not be spelled in place. */
  ghost predicate IncludesOk(h: Host)
  {
    forall path :: h.included(path).Ok? ==> ValueOk(h, h.included(path).value)
  }

  ghost predicate HasText(h: Host, v: Value)
  {
    exists s: Text :: ValidUtf8(s) && ParseRoot(s, h) == Got(v, |s|)
  }

  // ----- a document for every such configuration ------------------------------

  lemma StringDocument(h: Host, t: Text) returns (d: Doc)
    requires StringOk(h, t)
    ensures DocOk(h, d) && Meaning(d) == Str(t)
  {
    hide TextOk, Literal, NameOk, ScalarOf;
    if TextOk(t) {
      d := DText(t);
    } else if Literal(t) && ScalarOf(h, t) == Str(t) {
      d := DScalar(t, Str(t));
    } else if STRICT <= t && NameOk(t[|STRICT|..]) {
      d := DReference(false, t[|STRICT|..]);
    } else {
      d := DReference(true, t[|OPTIONAL|..]);
    }
  }

  lemma {:induction false} Document(h: Host, v: Value) returns (d: Doc)
    requires ValueOk(h, v)
    ensures DocOk(h, d) && Meaning(d) == v
    decreases v, 1, 0
  {
    hide StringOk, Literal, ScalarOf;
    match v {
      case Null => d := DNull;
      case Bool(flag) => d := DBool(flag);
      case Int(number) => d := DInt(number);
      case Float(f) =>
        var w :| Literal(w) && ScalarOf(h, w) == Float(f);
        d := DScalar(w, v);
      case Str(text) =>
        d := StringDocument(h, text);
      case Array(items) =>
        var ds := ItemDocuments(h, v, 0);
        d := DArray(ds);
        assert items[0..] == items;
      case Object(fields) =>
        var ms := FieldDocuments(h, v, fields.Keys, map[]);
        d := DObject(ms);
        assert Extended(map[], fields, fields.Keys) == fields;
    }
  }

  lemma {:induction false} ItemDocuments(h: Host, v: Value, i: nat) returns (ds: Docs)
    requires ValueOk(h, v) && v.Array? && i <= |v.items|
    ensures DocsOk(h, ds) && Meanings(ds) == v.items[i..]
    decreases v, 0, |v.items| - i
  {
    hide Meaning, DocOk;
    if i == |v.items| {
      ds := NoDocs;
    } else {
      var d := Document(h, v.items[i]);
      var tail := ItemDocuments(h, v, i + 1);
      ds := Docs(d, tail);
    }
  }

  function Extended(obj: Fields, f: Fields, keys: set<Text>): Fields
    requires keys <= f.Keys
  {
    map k | k in obj.Keys + keys :: if k in keys then f[k] else obj[k]
  }

  lemma {:induction false} FieldDocuments(h: Host, v: Value, keys: set<Text>, obj: Fields) returns (ms: Members)
    requires ValueOk(h, v) && v.Object? && keys <= v.fields.Keys && keys !! obj.Keys
    ensures MembersOk(h, ms) && Assign(ms, obj) == Extended(obj, v.fields, keys)
    decreases v, 0, |keys|
  {
    hide Meaning, DocOk, DeepMerge, Nested, TextOk, ValueOk, Extended;
    if keys == {} {
      ms := NoMembers;
      ExtendedByNone(obj, v.fields);
    } else {
      var k :| k in keys;
      FieldOk(h, v, k);
      ExtendedByOne(obj, v.fields, keys, k);
      SingleKey(obj, k, v.fields[k]);
      var d := Document(h, v.fields[k]);
      var rest := FieldDocuments(h, v, keys - {k}, obj[k := v.fields[k]]);
      ms := Put([k], false, d, rest);
    }
  }

  lemma FieldOk(h: Host, v: Value, k: Text)
    requires ValueOk(h, v) && v.Object? && k in v.fields
    ensures TextOk(k) && ValueOk(h, v.fields[k])
  {}

  lemma ExtendedByNone(obj: Fields, f: Fields)
    ensures Extended(obj, f, {}) == obj
  {}

  lemma ExtendedByOne(obj: Fields, f: Fields, keys: set<Text>, k: Text)
    requires keys <= f.Keys && k in keys
    ensures Extended(obj[k := f[k]], f, keys - {k}) == Extended(obj, f, keys)
  {}

  lemma SingleKey(obj: Fields, k: Text, v: Value)
    requires k !in obj
    ensures DeepMerge(obj, Nested([k], v)) == obj[k := v]
  {
    MergeNested(obj, [k], v);
  }

  // ----- written documents are well-formed text -------------------------------

  lemma Joined(a: Text, b: Text)
    requires ValidUtf8(a) && ValidUtf8(b)
    ensures ValidUtf8(a + b)
  {
    Utf8Concat(a, b);
  }

  lemma {:induction false} PathIsValid(path: seq<Text>)
    requires PathOk(path)
    ensures ValidUtf8(WritePath(path))
    decreases |path|
  {
    hide ValidUtf8, WriteText, TextOk;
    assert TextOk(path[0]);
    WrittenTextIsValid(path[0]);
    if |path| > 1 {
      PathIsValid(path[1..]);
      AsciiIsUtf8([DOT]);
      Joined([DOT], WritePath(path[1..]));
      Joined(WriteText(path[0]), [DOT] + WritePath(path[1..]));
    }
  }

  lemma LiteralIsValid(w: Text)
    requires Literal(w)
    ensures ValidUtf8(WriteLiteral(w))
  {
    hide ValidUtf8, Trim, EndsScalar;
    AsciiIsUtf8([VERTICAL_TAB]);
    Joined([VERTICAL_TAB], w);
  }

  lemma ReferenceIsValid(optional: bool, name: Text)
    requires NameOk(name)
    ensures ValidUtf8(WriteReference(optional, name))
  {
    hide ValidUtf8, Trim;
    var start := if optional then [DOLLAR, OPEN_BRACE, QUESTION] else [DOLLAR, OPEN_BRACE];
    AsciiIsUtf8(start);
    AsciiIsUtf8([SPACE]);
    AsciiIsUtf8([CLOSE_BRACE]);
    Joins([SPACE], name, [CLOSE_BRACE]);
    Joined(start, ([SPACE] + name) + [CLOSE_BRACE]);
  }

  lemma NumberIsValid(i: int)
    ensures ValidUtf8(WriteInt(i))
  {
    hide ValidUtf8, Digits, DigitsValue;
    DigitsRoundTrip(if i < 0 then -i else i);
    AsciiIsUtf8(WriteInt(i));
  }

  lemma {:induction false} DocIsValid(h: Host, d: Doc)
    requires DocOk(h, d)
    ensures ValidUtf8(Write(d))
    decreases d
  {
    hide ValidUtf8, WriteText, TextOk, Literal, NameOk, ScalarOf, WriteInt, WriteLiteral, WriteReference, WriteAll,
         WriteMembers;
    match d {
      case DNull => AsciiIsUtf8(NULL);
      case DBool(flag) => AsciiIsUtf8(if flag then TRUE else FALSE);
      case DInt(number) => NumberIsValid(number);
      case DText(text) => WrittenTextIsValid(text);
      case DScalar(literal, _) => LiteralIsValid(literal);
      case DReference(optional, name) => ReferenceIsValid(optional, name);
      case DArray(items) =>
        DocsAreValid(h, items);
        Wrapped(OPEN_BRACKET, WriteAll(items), CLOSE_BRACKET);
      case DObject(members) =>
        MembersAreValid(h, members);
        Wrapped(OPEN_BRACE, WriteMembers(members), CLOSE_BRACE);
    }
  }

  lemma Wrapped(a: Byte, t: Text, b: Byte)
    requires a < 128 && b < 128 && ValidUtf8(t)
    ensures ValidUtf8([a] + (t + [b]))
  {
    hide ValidUtf8;
    AsciiIsUtf8([a]);
    AsciiIsUtf8([b]);
    Joined(t, [b]);
    Joined([a], t + [b]);
  }

  lemma {:induction false} DocsAreValid(h: Host, ds: Docs)
    requires DocsOk(h, ds)
    ensures ValidUtf8(WriteAll(ds))
    decreases ds
  {
    hide ValidUtf8, Write, DocOk;
    match ds {
      case NoDocs => AsciiIsUtf8([]);
      case Docs(head, tail) =>
        DocIsValid(h, head);
        DocsAreValid(h, tail);
        Separated(COMMA, WriteAll(tail));
        Joined(Write(head), [COMMA] + WriteAll(tail));
    }
  }

  lemma Separated(a: Byte, t: Text)
    requires a < 128 && ValidUtf8(t)
    ensures ValidUtf8([a] + t)
  {
    hide ValidUtf8;
    AsciiIsUtf8([a]);
    Joined([a], t);
  }

  lemma {:induction false} MembersAreValid(h: Host, ms: Members)
    requires MembersOk(h, ms)
    ensures ValidUtf8(WriteMembers(ms))
    decreases ms
  {
    hide ValidUtf8, Write, WritePath, DocOk, PathOk;
    match ms {
      case NoMembers => AsciiIsUtf8([]);
      case Put(path, append, value, rest) =>
        var op := if append then [PLUS, EQUALS] else [EQUALS];
        PathIsValid(path);
        AsciiIsUtf8(op);
        DocIsValid(h, value);
        MembersAreValid(h, rest);
        var tail := [COMMA] + WriteMembers(rest);
        Separated(COMMA, WriteMembers(rest));
        Joined(Write(value), tail);
        Joined(op, Write(value) + tail);
        Joined(WritePath(path), op + (Write(value) + tail));
    }
  }

  /** Every configuration whose keys, strings and numbers can be spelled has a text that parses to it. */
  lemma ConfigurationReads(h: Host, v: Value) returns (s: Text)
    requires v.Object? && ValueOk(h, v)
    ensures ValidUtf8(s) && ParseRoot(s, h) == Got(v, |s|)
  {
    hide ValueOk, ParseRoot, Assign, ValidUtf8;
    var ms := FieldDocuments(h, v, v.fields.Keys, map[]);
    assert Extended(map[], v.fields, v.fields.Keys) == v.fields;
    s := WriteMembers(ms);
    DocumentReads(h, ms, false);
    MembersAreValid(h, ms);
  }

  // ----- the parser produces nothing else -------------------------------------

  lemma {:induction false} MergeOk(h: Host, a: Value, b: Value)
    requires ValueOk(h, a) && ValueOk(h, b)
    ensures ValueOk(h, Merge(a, b, true))
    decreases a
  {
    hide TextOk, StringOk, FloatOk;
    if a.Object? && b.Object? {
      forall k | k in a.fields && k in b.fields
        ensures ValueOk(h, Merge(a.fields[k], b.fields[k], true))
      {
        MergeOk(h, a.fields[k], b.fields[k]);
      }
    }
  }

  predicate PartsOk(path: seq<Text>)
  {
    forall i :: 0 <= i < |path| ==> TextOk(path[i])
  }

  lemma {:induction false} NestedOk(h: Host, path: seq<Text>, v: Value)
    requires PartsOk(path) && ValueOk(h, v)
    ensures ValueOk(h, Object(Nested(path, v)))
    decreases |path|
  {
    hide TextOk, StringOk, FloatOk;
    if |path| > 1 {
      NestedOk(h, path[1..], v);
    }
  }

  lemma {:induction false} LookupOk(h: Host, obj: Fields, path: seq<Text>)
    requires ValueOk(h, Object(obj))
    ensures Lookup(obj, path).Some? ==> ValueOk(h, Lookup(obj, path).value)
    decreases |path|
  {
    hide TextOk, StringOk, FloatOk;
    if |path| > 1 && path[0] in obj && obj[path[0]].Object? {
      LookupOk(h, obj[path[0]].fields, path[1..]);
    }
  }

  lemma AssignOk(h: Host, obj: Fields, path: seq<Text>, v: Value)
    requires ValueOk(h, Object(obj)) && PartsOk(path) && ValueOk(h, v)
    ensures ValueOk(h, Object(DeepMerge(obj, Nested(path, v))))
  {
    hide ValueOk, Nested, Merge;
    NestedOk(h, path, v);
    MergeOk(h, Object(obj), Object(Nested(path, v)));
    MergeIsPointwise(obj, Nested(path, v), true);
  }

  lemma AppendOk(h: Host, obj: Fields, path: seq<Text>, v: Value)
    requires ValueOk(h, Object(obj)) && PartsOk(path) && ValueOk(h, v)
    ensures ValueOk(h, Object(Appended(obj, path, v)))
  {
    hide TextOk, StringOk, FloatOk, DeepMerge, Nested, Lookup;
    LookupOk(h, obj, path);
    var items := ItemsAt(obj, path) + [v];
    assert ValueOk(h, Array(items));
    AssignOk(h, obj, path, Array(items));
  }

  lemma {:induction false} KeyParsed(s: Text, p: nat, parts: seq<Text>)
    requires p <= |s| && ValidUtf8(s) && PartsOk(parts) && ParseKey(s, p, parts).Got?
    ensures PartsOk(ParseKey(s, p, parts).value)
    decreases |s| - p
  {
    hide ValidUtf8, KeyPart, SkipInline, TextOk;
    var q := SkipInline(s, p);
    KeyIsSpelled(s, q);
    var part := KeyPart(s, q);
    if Is(s, part.pos, DOT) {
      KeyParsed(s, part.pos + 1, parts + [part.value]);
    }
  }

  lemma ScalarParsed(s: Text, h: Host, p: nat)
    requires p <= |s| && ParseScalar(s, h, p).Got?
    ensures ValueOk(h, ParseScalar(s, h, p).value)
  {
    hide ParseScalar, Literal, ParseInt, TextOk, NameOk;
    var w := ScalarIsSpelled(s, h, p);
    if ParseInt(w).Some? {
      IntIsSpelled(w);
    }
  }

  lemma ReferenceParsed(s: Text, h: Host, p: nat)
    requires p <= |s| && ParseSubstitution(s, p).Got?
    ensures ValueOk(h, ParseSubstitution(s, p).value)
  {
    hide ParseSubstitution, Literal, TextOk, NameOk, ScalarOf;
    var optional, name := ReferenceIsSpelled(s, p);
    var t := MarkerOf(optional, name);
    assert t[|if optional then OPTIONAL else STRICT|..] == name;
  }

  /** Whatever is read from well-formed text can be spelled. */
  lemma {:induction false} ValueParsed(s: Text, h: Host, p: nat)
    requires p <= |s| && ValidUtf8(s) && IncludesOk(h) && ParseValue(s, h, p).Got?
    ensures ValueOk(h, ParseValue(s, h, p).value)
    decreases |s| - p, 1
  {
    hide ValidUtf8, IncludesOk, ParseString, ParseArray, ParseBody, ParseScalar, ParseSubstitution, SkipInline, Line,
         TextOk;
    var q := SkipInline(s, p);
    if s[q] == QUOTE {
      StringIsSpelled(s, q);
    } else if s[q] == OPEN_BRACKET {
      ArrayParsed(s, h, q + 1, []);
    } else if s[q] == OPEN_BRACE {
      BodyParsed(s, h, q + 1, CLOSE_BRACE, map[]);
    } else if s[q] == DOLLAR && Is(s, q + 1, OPEN_BRACE) {
      ReferenceParsed(s, h, q + 2);
    } else {
      ScalarParsed(s, h, q);
    }
  }

  lemma {:induction false} ArrayParsed(s: Text, h: Host, p: nat, items: seq<Value>)
    requires p <= |s| && ValidUtf8(s) && IncludesOk(h) && ParseArray(s, h, p, items).Got?
    requires ValueOk(h, Array(items))
    ensures ValueOk(h, ParseArray(s, h, p, items).value)
    decreases |s| - p, 2
  {
    hide ValidUtf8, IncludesOk, ParseValue, SkipSpace, Line, TextOk, StringOk, FloatOk;
    var q := SkipSpace(s, p);
    if s[q] == COMMA || s[q] == NEWLINE {
      ArrayParsed(s, h, q + 1, items);
    } else if s[q] != CLOSE_BRACKET {
      ValueParsed(s, h, q);
      var v := ParseValue(s, h, q);
      ArrayParsed(s, h, v.pos, items + [v.value]);
    }
  }

  lemma {:induction false} BodyParsed(s: Text, h: Host, p: nat, terminator: Byte, obj: Fields)
    requires p <= |s| && ValidUtf8(s) && IncludesOk(h) && ParseBody(s, h, p, terminator, obj).Got?
    requires ValueOk(h, Object(obj))
    ensures ValueOk(h, Object(ParseBody(s, h, p, terminator, obj).value))
    decreases |s| - p, 4
  {
    hide ValidUtf8, IncludesOk, ParseEntry, SkipSpace, Line, ValueOk;
    var q := SkipSpace(s, p);
    if q < |s| && s[q] != terminator {
      if s[q] == COMMA || s[q] == NEWLINE || s[q] == SEMICOLON {
        BodyParsed(s, h, q + 1, terminator, obj);
      } else {
        EntryParsed(s, h, q, obj);
        var next := ParseEntry(s, h, q, obj);
        BodyParsed(s, h, next.pos, terminator, next.value);
      }
    }
  }

  lemma {:induction false} EntryParsed(s: Text, h: Host, p: nat, obj: Fields)
    requires p <= |s| && ValidUtf8(s) && IncludesOk(h) && ParseEntry(s, h, p, obj).Got?
    requires ValueOk(h, Object(obj))
    ensures ValueOk(h, Object(ParseEntry(s, h, p, obj).value))
    decreases |s| - p, 3
  {
    hide ValidUtf8, ParseMember, ParseString, SkipInline, ValueOk, Merge;
    if StartsKeyword(s, p, INCLUDE) {
      var path := ParseString(s, SkipInline(s, p + 7)).value;
      var v := h.included(path).value;
      MergeOk(h, Object(obj), v);
      MergeIsPointwise(obj, v.fields, true);
    } else {
      MemberParsed(s, h, p, obj);
    }
  }

  lemma {:induction false} MemberParsed(s: Text, h: Host, p: nat, obj: Fields)
    requires p <= |s| && ValidUtf8(s) && IncludesOk(h) && ParseMember(s, h, p, obj).Got?
    requires ValueOk(h, Object(obj))
    ensures ValueOk(h, Object(ParseMember(s, h, p, obj).value))
    decreases |s| - p, 2
  {
    hide ValidUtf8, IncludesOk, ParseKey, ParseValue, ParseBody, SkipInline, Line, ValueOk, DeepMerge, Appended, Nested,
         TextOk;
    KeyParsed(s, p, []);
    var key := ParseKey(s, p, []);
    var q := SkipInline(s, key.pos);
    if s[q] == OPEN_BRACE {
      EmptyOk(h);
      BodyParsed(s, h, q + 1, CLOSE_BRACE, map[]);
      AssignOk(h, obj, key.value, Object(ParseBody(s, h, q + 1, CLOSE_BRACE, map[]).value));
    } else if s[q] == PLUS && Is(s, q + 1, EQUALS) {
      var from := SkipInline(s, q + 2);
      ValueParsed(s, h, from);
      AppendOk(h, obj, key.value, ParseValue(s, h, from).value);
    } else {
      var from := SkipInline(s, q + 1);
      ValueParsed(s, h, from);
      AssignOk(h, obj, key.value, ParseValue(s, h, from).value);
    }
  }

  lemma EmptyOk(h: Host)
    ensures ValueOk(h, Object(map[]))
  {}

  /** A configuration has a text exactly when each of its keys, strings and numbers can be spelled. */
  lemma HasTextIff(h: Host, v: Value)
    requires v.Object? && IncludesOk(h)
    ensures HasText(h, v) <==> ValueOk(h, v)
  {
    hide ValidUtf8, ValueOk, IncludesOk, ParseBody, SkipSpace, Line, Col;
    if ValueOk(h, v) {
      var s := ConfigurationReads(h, v);
    }
    if s: Text :| ValidUtf8(s) && ParseRoot(s, h) == Got(v, |s|) {
      var q := SkipSpace(s, 0);
      EmptyOk(h);
      if Is(s, q, OPEN_BRACE) {
        BodyParsed(s, h, q + 1, CLOSE_BRACE, map[]);
      } else {
        BodyParsed(s, h, q, 0, map[]);
      }
    }
  }

  /** So a key of an accented letter and a quote has no text, though well formed. */
  lemma AccentQuoteKeyHasNoText(h: Host, v: Value)
    requires IncludesOk(h)
    ensures !HasText(h, Object(map[ACCENT_QUOTE := v]))
  {
    hide HasText, IncludesOk, TextOk;
    AccentQuoteIsNotOk();
    var f: Fields := map[ACCENT_QUOTE := v];
    HasTextIff(h, Object(f));
    assert ACCENT_QUOTE in f;
  }
}

/** The cursor-based parser. */
module HoconParser {
  import opened Prelude
  import opened FixUtf8
  import opened HoconTree
  import opened HoconGrammar

  /** A method's result and final position are what the grammar prescribes. */
  ghost predicate Agrees<T>(spec: Parse<T>, r: Result<T, Fault>, pos: nat)
  {
    match spec
    case Got(v, q) => r == Ok(v) && pos == q
    case Bad(f) => r == Err(f)
  }

  class Parser {
    const src: Text
    const host: Host
    var pos: nat
    var line: nat
    var col: nat

    /** The cursor is inside the text and its line and column are those of the position. */
    ghost predicate Valid()
      reads this
    {
      pos <= |src| && line == Line(src, pos) && col == Col(src, pos)
    }

    constructor (src: Text, host: Host)
      ensures Valid() && this.src == src && this.host == host && pos == 0
    {
      this.src, this.host := src, host;
      pos, line, col := 0, 1, 1;
    }

    predicate Sees(c: Byte)
      reads this
    {
      Is(src, pos, c)
    }

    method Advance(n: nat)
      requires Valid()
      modifies this
      ensures Valid() && pos == Min(old(pos) + n, |src|)
    {
      for i := 0 to n
        invariant Valid() && pos == Min(old(pos) + i, |src|)
      {
        if pos >= |src| {
          break;
        }
        if src[pos] == NEWLINE {
          line := line + 1;
          col := 1;
        } else {
          col := col + 1;
        }
        pos := pos + 1;
      }
    }

    method SkipWsInline()
      requires Valid()
      modifies this
      ensures Valid() && pos == SkipInline(src, old(pos))
    {
      while pos < |src|
        invariant Valid() && SkipInline(src, old(pos)) == SkipInline(src, pos)
        decreases |src| - pos
      {
        if src[pos] == SPACE || src[pos] == TAB {
          Advance(1);
        } else {
          break;
        }
      }
    }

    method SkipLine()
      requires Valid()
      modifies this
      ensures Valid() && pos == LineEnd(src, old(pos))
    {
      while pos < |src|
        invariant Valid() && LineEnd(src, old(pos)) == LineEnd(src, pos)
        decreases |src| - pos
      {
        if src[pos] == NEWLINE {
          break;
        }
        Advance(1);
      }
    }

    method SkipBlock()
      requires Valid()
      modifies this
      ensures Valid() && pos == BlockEnd(src, old(pos))
    {
      while !(Sees(STAR) && Is(src, pos + 1, SLASH))
        invariant Valid() && BlockEnd(src, old(pos)) == BlockEnd(src, pos)
        decreases |src| - pos
      {
        if pos == |src| {
          return;
        }
        Advance(1);
      }
      Advance(2);
    }

    method SkipWsAndComments()
      requires Valid()
      modifies this
      ensures Valid() && pos == SkipSpace(src, old(pos))
    {
      hide Line, Col, LineEnd, BlockEnd;
      while pos < |src|
        invariant Valid() && SkipSpace(src, old(pos)) == SkipSpace(src, pos)
        decreases |src| - pos
      {
        if White(src[pos]) {
          Advance(1);
        } else if src[pos] == HASH || (src[pos] == SLASH && Is(src, pos + 1, SLASH)) {
          SkipLine();
        } else if src[pos] == SLASH && Is(src, pos + 1, STAR) {
          Advance(2);
          SkipBlock();
        } else {
          return;
        }
      }
    }

    // ----- strings ------------------------------------------------------------

    method SeekTriple()
      requires Valid()
      modifies this
      ensures Valid() && pos == TripleEnd(src, old(pos))
    {
      while pos + 2 < |src| && src[pos..pos + 3] != [QUOTE, QUOTE, QUOTE]
        invariant Valid() && TripleEnd(src, old(pos)) == TripleEnd(src, pos)
        decreases |src| - pos
      {
        if src[pos] == NEWLINE {
          line := line + 1;
          col := 1;
        } else {
          col := col + 1;
        }
        pos := pos + 1;
      }
    }

    method ReadTriple() returns (r: Result<Text, Fault>)
      requires Valid() && StartsWith(src, pos, [QUOTE, QUOTE, QUOTE])
      modifies this
      ensures Valid() && Agrees(ParseString(src, old(pos)), r, pos)
    {
      hide Line, Col, Quoted, TripleEnd, ValidUtf8;
      Advance(3);
      var start := pos;
      SeekTriple();
      if pos + 2 >= |src| {
        return Err(Unterminated("string", line));
      }
      if !ValidUtf8(src[start..pos]) {
        return Err(Unterminated("string", line));
      }
      r := Ok(src[start..pos]);
      Advance(3);
    }

    method ReadString() returns (r: Result<Text, Fault>)
      requires Valid()
      modifies this
      ensures Valid() && Agrees(ParseString(src, old(pos)), r, pos)
    {
      hide Line, Col, TripleEnd;
      if StartsWith(src, pos, [QUOTE, QUOTE, QUOTE]) {
        r := ReadTriple();
        return;
      }
      if !Sees(QUOTE) {
        return Err(Expected("\"", Found(src, pos), line));
      }
      Advance(1);
      r := ReadQuoted();
    }

    method ReadQuoted() returns (r: Result<Text, Fault>)
      requires Valid()
      modifies this
      ensures Valid() && Agrees(Quoted(src, old(pos), []), r, pos)
    {
      hide Line, Col;
      var out: Text := [];
      while true
        invariant Valid() && Quoted(src, old(pos), []) == Quoted(src, pos, out)
        decreases |src| - pos
      {
        if pos == |src| || src[pos] == NEWLINE {
          return Err(Unterminated("string", line));
        } else if src[pos] == QUOTE {
          Advance(1);
          return Ok(out);
        } else if src[pos] == BACKSLASH {
          Advance(1);
          if pos == |src| {
            return Err(Unterminated("string-escape", line));
          }
          out := out + Escape(src[pos]);
          Advance(1);
        } else {
          out := out + Latin1(src[pos]);
          Advance(1);
        }
      }
    }

    // ----- keys ---------------------------------------------------------------

    method ReadKeyPart() returns (r: Result<Text, Fault>)
      requires Valid()
      modifies this
      ensures Valid() && Agrees(KeyPart(src, old(pos)), r, pos)
    {
      hide Line, Col, ParseString;
      if Sees(QUOTE) {
        r := ReadString();
        return;
      }
      var start := pos;
      while pos < |src|
        invariant Valid() && start <= pos && BareEnd(src, start) == BareEnd(src, pos)
        decreases |src| - pos
      {
        if BareByte(src[pos]) {
          Advance(1);
        } else {
          break;
        }
      }
      if start == pos {
        return Err(Expected("key", Found(src, pos), line));
      }
      if !ValidUtf8(src[start..pos]) {
        return Err(Unexpected(0, line, col));
      }
      return Ok(src[start..pos]);
    }

    method ReadKey() returns (r: Result<seq<Text>, Fault>)
      requires Valid()
      modifies this
      ensures Valid() && Agrees(ParseKey(src, old(pos), []), r, pos)
    {
      hide Line, Col, KeyPart, SkipInline;
      var parts: seq<Text> := [];
      while true
        invariant Valid() && ParseKey(src, old(pos), []) == ParseKey(src, pos, parts)
        decreases |src| - pos
      {
        SkipWsInline();
        var part := ReadKeyPart();
        if part.Err? {
          return Err(part.error);
        }
        parts := parts + [part.value];
        if Sees(DOT) {
          Advance(1);
        } else {
          return Ok(parts);
        }
      }
    }

    // ----- scalars and substitutions ------------------------------------------

    method ReadScalar() returns (r: Result<Value, Fault>)
      requires Valid()
      modifies this
      ensures Valid() && Agrees(ParseScalar(src, host, old(pos)), r, pos)
    {
      hide Line, Col, Trim, ScalarOf;
      var start := pos;
      while pos < |src|
        invariant Valid() && start <= pos && ScalarEnd(src, start) == ScalarEnd(src, pos)
        decreases |src| - pos
      {
        if EndsScalar(src, pos) {
          break;
        }
        Advance(1);
      }
      if !ValidUtf8(src[start..pos]) {
        return Err(Unexpected(0, line, col));
      }
      var raw := Trim(src[start..pos]);
      if raw == [] {
        return Err(Expected("value", [], line));
      }
      return Ok(ScalarOf(host, raw));
    }

    method SeekBrace()
      requires Valid()
      modifies this
      ensures Valid() && pos == BraceEnd(src, old(pos))
    {
      hide Line, Col;
      while pos < |src|
        invariant Valid() && BraceEnd(src, old(pos)) == BraceEnd(src, pos)
        decreases |src| - pos
      {
        if src[pos] == CLOSE_BRACE {
          break;
        }
        Advance(1);
      }
    }

    method ReadSubstitution() returns (r: Result<Value, Fault>)
      requires Valid() && Sees(DOLLAR) && Is(src, pos + 1, OPEN_BRACE)
      modifies this
      ensures Valid() && Agrees(ParseSubstitution(src, old(pos) + 2), r, pos)
    {
      hide Line, Col, Trim, BraceEnd, ValidUtf8;
      Advance(1);
      Advance(1);
      var optional := Sees(QUESTION);
      if optional {
        Advance(1);
      }
      var start := pos;
      SeekBrace();
      if !Sees(CLOSE_BRACE) || !ValidUtf8(src[start..pos]) {
        return Err(Unterminated("substitution", line));
      }
      r := Ok(Str((if optional then OPTIONAL else STRICT) + Trim(src[start..pos])));
      Advance(1);
    }

    // ----- values, arrays and objects -----------------------------------------

    method ReadValue() returns (r: Result<Value, Fault>)
      requires Valid()
      modifies this
      ensures Valid() && Agrees(ParseValue(src, host, old(pos)), r, pos)
      decreases |src| - pos, 1
    {
      hide Line, Col, ParseString, ParseScalar, ParseSubstitution, SkipInline, ParseArray, ParseBody;
      SkipWsInline();
      if pos == |src| {
        return Err(Unterminated("value", line));
      }
      if Sees(QUOTE) {
        var text := ReadString();
        return if text.Ok? then Ok(Str(text.value)) else Err(text.error);
      }
      if Sees(OPEN_BRACKET) {
        r := ReadArray();
      } else if Sees(OPEN_BRACE) {
        Advance(1);
        var inner := ReadBody(CLOSE_BRACE);
        return if inner.Ok? then Ok(Object(inner.value)) else Err(inner.error);
      } else if Sees(DOLLAR) && Is(src, pos + 1, OPEN_BRACE) {
        r := ReadSubstitution();
      } else {
        r := ReadScalar();
      }
    }

    method ReadArray() returns (r: Result<Value, Fault>)
      requires Valid() && Sees(OPEN_BRACKET)
      modifies this
      ensures Valid() && Agrees(ParseArray(src, host, old(pos) + 1, []), r, pos)
      decreases |src| - pos, 0
    {
      hide Line, Col, ParseValue, SkipSpace;
      Advance(1);
      var items: seq<Value> := [];
      while true
        invariant Valid() && old(pos) < pos &&
                  ParseArray(src, host, old(pos) + 1, []) == ParseArray(src, host, pos, items)
        decreases |src| - pos
      {
        SkipWsAndComments();
        if pos == |src| {
          return Err(Unterminated("array", line));
        } else if src[pos] == CLOSE_BRACKET {
          Advance(1);
          return Ok(Array(items));
        } else if src[pos] == COMMA || src[pos] == NEWLINE {
          Advance(1);
        } else {
          var v := ReadValue();
          if v.Err? {
            return Err(v.error);
          }
          items := items + [v.value];
        }
      }
    }

    method ReadBody(terminator: Byte) returns (r: Result<Fields, Fault>)
      requires Valid()
      modifies this
      ensures Valid() && Agrees(ParseBody(src, host, old(pos), terminator, map[]), r, pos)
      decreases |src| - pos, 3
    {
      hide Line, Col, ParseMember, ParseInclude, SkipSpace, StartsKeyword;
      var obj: Fields := map[];
      while true
        invariant Valid() && old(pos) <= pos
        invariant ParseBody(src, host, old(pos), terminator, map[]) == ParseBody(src, host, pos, terminator, obj)
        decreases |src| - pos
      {
        SkipWsAndComments();
        if pos == |src| {
          if terminator != 0 {
            return Err(Unterminated("object", line));
          }
          return Ok(obj);
        } else if src[pos] == terminator {
          Advance(1);
          return Ok(obj);
        } else if src[pos] == COMMA || src[pos] == NEWLINE || src[pos] == SEMICOLON {
          Advance(1);
          continue;
        }
        var next;
        if StartsKeyword(src, pos, INCLUDE) {
          next := ReadInclude(obj);
        } else {
          next := ReadMember(obj);
        }
        if next.Err? {
          return Err(next.error);
        }
        obj := next.value;
      }
    }

    method ReadInclude(obj: Fields) returns (r: Result<Fields, Fault>)
      requires Valid() && StartsKeyword(src, pos, INCLUDE)
      modifies this
      ensures Valid() && Agrees(ParseInclude(src, host, old(pos), obj), r, pos)
    {
      hide Line, Col, ParseString, SkipInline, Merge;
      Advance(7);
      SkipWsInline();
      var path := ReadString();
      if path.Err? {
        return Err(path.error);
      }
      var included := host.included(path.value);
      if included.Err? {
        return Err(included.error);
      }
      if !included.value.Object? {
        return Err(NotAnObject(path.value));
      }
      var merged := DeepMergeInto(obj, included.value.fields);
      return Ok(merged);
    }

    method ReadMember(obj: Fields) returns (r: Result<Fields, Fault>)
      requires Valid()
      modifies this
      ensures Valid() && Agrees(ParseMember(src, host, old(pos), obj), r, pos)
      decreases |src| - pos, 2
    {
      hide Line, Col, ParseKey, ParseBody, ParseValue, SkipInline, Merge, DeepMerge, Appended, Nested;
      var key := ReadKey();
      if key.Err? {
        return Err(key.error);
      }
      SkipWsInline();
      if pos == |src| {
        return Err(Unterminated("assignment", line));
      }
      var now;
      if src[pos] == OPEN_BRACE {
        Advance(1);
        var inner := ReadBody(CLOSE_BRACE);
        if inner.Err? {
          return Err(inner.error);
        }
        now := InsertDotted(obj, key.value, Object(inner.value));
      } else if src[pos] == PLUS && Is(src, pos + 1, EQUALS) {
        Advance(2);
        SkipWsInline();
        var v := ReadValue();
        if v.Err? {
          return Err(v.error);
        }
        now := AppendDotted(obj, key.value, v.value);
      } else if src[pos] == EQUALS || src[pos] == COLON {
        Advance(1);
        SkipWsInline();
        var v := ReadValue();
        if v.Err? {
          return Err(v.error);
        }
        now := InsertDotted(obj, key.value, v.value);
      } else {
        return Err(Expected("= or : or { or +=", Latin1(src[pos]), line));
      }
      return Ok(now);
    }

    method ReadRoot() returns (r: Result<Value, Fault>)
      requires Valid() && pos == 0
      modifies this
      ensures Valid() && Agrees(ParseRoot(src, host), r, pos)
      ensures r.Ok? ==> pos == |src|
    {
      hide Line, Col, ParseBody, SkipSpace;
      SkipWsAndComments();
      var body;
      if Sees(OPEN_BRACE) {
        Advance(1);
        body := ReadBody(CLOSE_BRACE);
        if body.Ok? {
          SkipTwice(src, pos);
          SkipWsAndComments();
        }
      } else {
        body := ReadBody(0);
      }
      if body.Err? {
        return Err(body.error);
      }
      SkipWsAndComments();
      if pos < |src| {
        return Err(Unexpected(src[pos], line, col));
      }
      return Ok(Object(body.value));
    }
  }

  /** Skipping white space and comments leaves none to skip. */
  lemma {:induction false} SkipTwice(s: Text, p: nat)
    requires p <= |s|
    ensures SkipSpace(s, SkipSpace(s, p)) == SkipSpace(s, p)
    decreases |s| - p
  {
    var q := SkipSpace(s, p);
    if p < |s| && q != p {
      if White(s[p]) {
        SkipTwice(s, p + 1);
      } else if s[p] == HASH || Is(s, p + 1, SLASH) {
        SkipTwice(s, LineEnd(s, p));
      } else {
        SkipTwice(s, BlockEnd(s, p + 2));
      }
    }
  }
}

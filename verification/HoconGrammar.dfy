/** What the byte parser reads, as functions of the source text and a position. */
module HoconGrammar {
  import opened Prelude
  import opened FixDecimal
  import opened FixUtf8
  import opened HoconTree

  const TAB: Byte := 9
  const NEWLINE: Byte := 10
  const RETURN: Byte := 13
  const SPACE: Byte := 32
  const QUOTE: Byte := 34
  const HASH: Byte := 35
  const DOLLAR: Byte := 36
  const STAR: Byte := 42
  const PLUS: Byte := 43
  const COMMA: Byte := 44
  const MINUS: Byte := 45
  const DOT: Byte := 46
  const SLASH: Byte := 47
  const COLON: Byte := 58
  const SEMICOLON: Byte := 59
  const EQUALS: Byte := 61
  const QUESTION: Byte := 63
  const OPEN_BRACKET: Byte := 91
  const BACKSLASH: Byte := 92
  const CLOSE_BRACKET: Byte := 93
  const UNDERSCORE: Byte := 95
  const OPEN_BRACE: Byte := 123
  const CLOSE_BRACE: Byte := 125

  const INCLUDE: Text := [105, 110, 99, 108, 117, 100, 101]
  const NULL: Text := [110, 117, 108, 108]
  const TRUE: Text := [116, 114, 117, 101]
  const FALSE: Text := [102, 97, 108, 115, 101]

  // "__atomr_sub::" and "__atomr_sub_opt::"
  const STRICT: Text := [95, 95, 97, 116, 111, 109, 114, 95, 115, 117, 98, 58, 58]
  const OPTIONAL: Text := [95, 95, 97, 116, 111, 109, 114, 95, 115, 117, 98, 95, 111, 112, 116, 58, 58]

  const I64_MAX: nat := 0x7FFF_FFFF_FFFF_FFFF

  datatype Fault =
    | Unexpected(ch: Byte, line: nat, col: nat)
    | Unterminated(kind: string, line: nat)
    | Expected(expected: string, found: Text, line: nat)
    | NotAnObject(path: Text)
    | Elsewhere(code: int)   // raised while reading an included file

  /** What the parser asks of its surroundings: included files and floating-point literals. */
  datatype Host = Host(included: Text -> Result<Value, Fault>, float: Text -> Option<int>)

  datatype Parse<+T> = Got(value: T, pos: nat) | Bad(fault: Fault)

  // ----- places ---------------------------------------------------------------

  function Line(s: Text, p: nat): nat
    requires p <= |s|
  {
    if p == 0 then 1 else Line(s, p - 1) + if s[p - 1] == NEWLINE then 1 else 0
  }

  function Col(s: Text, p: nat): nat
    requires p <= |s|
  {
    if p == 0 || s[p - 1] == NEWLINE then 1 else Col(s, p - 1) + 1
  }

  predicate Is(s: Text, p: nat, c: Byte)
  {
    p < |s| && s[p] == c
  }

  predicate StartsWith(s: Text, p: nat, needle: Text)
  {
    p + |needle| <= |s| && s[p..p + |needle|] == needle
  }

  /** A byte pushed onto a string as the character with that code. */
  function Latin1(c: Byte): Text
  {
    if c < 128 then [c] else [192 + c / 64, 128 + c % 64]
  }

  function Found(s: Text, p: nat): Text
  {
    if p < |s| then Latin1(s[p]) else []
  }

  // ----- white space and comments ---------------------------------------------

  function SkipInline(s: Text, p: nat): (q: nat)
    requires p <= |s|
    ensures p <= q <= |s|
    decreases |s| - p
  {
    if Is(s, p, SPACE) || Is(s, p, TAB) then SkipInline(s, p + 1) else p
  }

  function LineEnd(s: Text, p: nat): (q: nat)
    requires p <= |s|
    ensures p <= q <= |s| && (q == p ==> q == |s| || s[p] == NEWLINE)
    decreases |s| - p
  {
    if p == |s| || s[p] == NEWLINE then p else LineEnd(s, p + 1)
  }

  /** Past the end of a block comment, or the end of the text when it is not closed. */
  function BlockEnd(s: Text, p: nat): (q: nat)
    requires p <= |s|
    ensures p <= q <= |s|
    decreases |s| - p
  {
    if p == |s| then p
    else if s[p] == STAR && Is(s, p + 1, SLASH) then p + 2
    else BlockEnd(s, p + 1)
  }

  predicate White(c: Byte)
  {
    c == SPACE || c == TAB || c == NEWLINE || c == RETURN
  }

  function SkipSpace(s: Text, p: nat): (q: nat)
    requires p <= |s|
    ensures p <= q <= |s|
    decreases |s| - p
  {
    if p == |s| then p
    else if White(s[p]) then SkipSpace(s, p + 1)
    else if s[p] == HASH || (s[p] == SLASH && Is(s, p + 1, SLASH)) then SkipSpace(s, LineEnd(s, p))
    else if s[p] == SLASH && Is(s, p + 1, STAR) then SkipSpace(s, BlockEnd(s, p + 2))
    else p
  }

  // ----- strings --------------------------------------------------------------

  function TripleEnd(s: Text, p: nat): (q: nat)
    requires p <= |s|
    ensures p <= q <= |s|
    ensures q + 2 < |s| ==> StartsWith(s, q, [QUOTE, QUOTE, QUOTE])
    decreases |s| - p
  {
    if p + 2 < |s| && !StartsWith(s, p, [QUOTE, QUOTE, QUOTE]) then TripleEnd(s, p + 1) else p
  }

  function Escape(c: Byte): Text
  {
    if c == 110 then [NEWLINE] else if c == 116 then [TAB] else if c == 114 then [RETURN] else Latin1(c)
  }

  function Quoted(s: Text, p: nat, out: Text): (r: Parse<Text>)
    requires p <= |s|
    ensures r.Got? ==> p < r.pos <= |s|
    decreases |s| - p
  {
    if p == |s| || s[p] == NEWLINE then Bad(Unterminated("string", Line(s, p)))
    else if s[p] == QUOTE then Got(out, p + 1)
    else if s[p] == BACKSLASH then
      if p + 1 == |s| then Bad(Unterminated("string-escape", Line(s, p + 1)))
      else Quoted(s, p + 2, out + Escape(s[p + 1]))
    else Quoted(s, p + 1, out + Latin1(s[p]))
  }

  function ParseString(s: Text, p: nat): (r: Parse<Text>)
    requires p <= |s|
    ensures r.Got? ==> p < r.pos <= |s|
  {
    if StartsWith(s, p, [QUOTE, QUOTE, QUOTE]) then
      var q := TripleEnd(s, p + 3);
      if q + 2 >= |s| || !ValidUtf8(s[p + 3..q]) then Bad(Unterminated("string", Line(s, q)))
      else Got(s[p + 3..q], q + 3)
    else if !Is(s, p, QUOTE) then Bad(Expected("\"", Found(s, p), Line(s, p)))
    else Quoted(s, p + 1, [])
  }

  // ----- keys -----------------------------------------------------------------

  predicate Alphanumeric(c: Byte)
  {
    48 <= c <= 57 || 65 <= c <= 90 || 97 <= c <= 122
  }

  predicate BareByte(c: Byte)
  {
    Alphanumeric(c) || c == UNDERSCORE || c == MINUS
  }

  function BareEnd(s: Text, p: nat): (q: nat)
    requires p <= |s|
    ensures p <= q <= |s|
    decreases |s| - p
  {
    if p < |s| && BareByte(s[p]) then BareEnd(s, p + 1) else p
  }

  function KeyPart(s: Text, p: nat): (r: Parse<Text>)
    requires p <= |s|
    ensures r.Got? ==> p < r.pos <= |s|
  {
    if Is(s, p, QUOTE) then ParseString(s, p)
    else
      var q := BareEnd(s, p);
      if q == p then Bad(Expected("key", Found(s, p), Line(s, p)))
      else if !ValidUtf8(s[p..q]) then Bad(Unexpected(0, Line(s, q), Col(s, q)))
      else Got(s[p..q], q)
  }

  function ParseKey(s: Text, p: nat, parts: seq<Text>): (r: Parse<seq<Text>>)
    requires p <= |s|
    ensures r.Got? ==> p < r.pos <= |s|
    decreases |s| - p
  {
    match KeyPart(s, SkipInline(s, p))
    case Bad(f) => Bad(f)
    case Got(part, q) =>
      if Is(s, q, DOT) then ParseKey(s, q + 1, parts + [part]) else Got(parts + [part], q)
  }

  // ----- unquoted scalars and substitutions -----------------------------------

  /** Length of the white-space character at the front, by the Unicode White_Space property. */
  function SpaceAtStart(t: Text): (n: nat)
    ensures n <= |t|
  {
    if |t| >= 1 && (9 <= t[0] <= 13 || t[0] == SPACE) then 1
    else if |t| >= 2 && t[0] == 0xC2 && (t[1] == 0x85 || t[1] == 0xA0) then 2
    else if |t| >= 3 && WideSpace(t[..3]) then 3
    else 0
  }

  function SpaceAtEnd(t: Text): (n: nat)
    ensures n <= |t|
  {
    var e := |t|;
    if e >= 1 && (9 <= t[e - 1] <= 13 || t[e - 1] == SPACE) then 1
    else if e >= 2 && t[e - 2] == 0xC2 && (t[e - 1] == 0x85 || t[e - 1] == 0xA0) then 2
    else if e >= 3 && WideSpace(t[e - 3..]) then 3
    else 0
  }

  predicate WideSpace(t: Text)
    requires |t| == 3
  {
    t == [0xE1, 0x9A, 0x80] || t == [0xE3, 0x80, 0x80] || t == [0xE2, 0x81, 0x9F] ||
    (t[..2] == [0xE2, 0x80] && (0x80 <= t[2] <= 0x8A || t[2] == 0xA8 || t[2] == 0xA9 || t[2] == 0xAF))
  }

  /** `str::trim`. */
  function Trim(t: Text): (r: Text)
    ensures |r| <= |t|
    decreases |t|
  {
    if SpaceAtStart(t) > 0 then Trim(t[SpaceAtStart(t)..])
    else if SpaceAtEnd(t) > 0 then Trim(t[..|t| - SpaceAtEnd(t)])
    else t
  }

  /** `str::parse::<i64>`. */
  function ParseInt(t: Text): Option<int>
  {
    if t != [] && t[0] == MINUS then
      var body := t[1..];
      if body == [] || !AllDigits(body) || DigitsValue(body) > I64_MAX + 1 then None
      else Some(0 - DigitsValue(body) as int)
    else
      match ParseUnsigned(t, I64_MAX)
      case None => None
      case Some(n) => Some(n)
  }

  function ScalarOf(h: Host, t: Text): Value
  {
    if t == NULL then Null
    else if t == TRUE then Bool(true)
    else if t == FALSE then Bool(false)
    else if ParseInt(t).Some? then Int(ParseInt(t).value)
    else if h.float(t).Some? then Float(h.float(t).value)
    else Str(t)
  }

  predicate EndsScalar(s: Text, p: nat)
    requires p < |s|
  {
    s[p] == COMMA || s[p] == NEWLINE || s[p] == CLOSE_BRACE || s[p] == CLOSE_BRACKET ||
    s[p] == SEMICOLON || s[p] == HASH || (s[p] == SLASH && Is(s, p + 1, SLASH))
  }

  function ScalarEnd(s: Text, p: nat): (q: nat)
    requires p <= |s|
    ensures p <= q <= |s|
    decreases |s| - p
  {
    if p == |s| || EndsScalar(s, p) then p else ScalarEnd(s, p + 1)
  }

  function ParseScalar(s: Text, h: Host, p: nat): (r: Parse<Value>)
    requires p <= |s|
    ensures r.Got? ==> p < r.pos <= |s|
  {
    var q := ScalarEnd(s, p);
    if !ValidUtf8(s[p..q]) then Bad(Unexpected(0, Line(s, q), Col(s, q)))
    else
      var raw := Trim(s[p..q]);
      if raw == [] then Bad(Expected("value", [], Line(s, q)))
      else Got(ScalarOf(h, raw), q)
  }

  function BraceEnd(s: Text, p: nat): (q: nat)
    requires p <= |s|
    ensures p <= q <= |s| && (q < |s| ==> s[q] == CLOSE_BRACE)
    decreases |s| - p
  {
    if p == |s| || s[p] == CLOSE_BRACE then p else BraceEnd(s, p + 1)
  }

  /** After the opening brace of a substitution: a marker for the second pass. */
  function ParseSubstitution(s: Text, p: nat): (r: Parse<Value>)
    requires p <= |s|
    ensures r.Got? ==> p < r.pos <= |s|
  {
    var optional := Is(s, p, QUESTION);
    var start := if optional then p + 1 else p;
    var q := BraceEnd(s, start);
    if q == |s| || !ValidUtf8(s[start..q]) then Bad(Unterminated("substitution", Line(s, q)))
    else Got(Str((if optional then OPTIONAL else STRICT) + Trim(s[start..q])), q + 1)
  }

  // ----- values, arrays and objects -------------------------------------------

  predicate StartsKeyword(s: Text, p: nat, word: Text)
  {
    StartsWith(s, p, word) &&
    (p + |word| < |s| ==> !Alphanumeric(s[p + |word|]) && s[p + |word|] != UNDERSCORE)
  }

  function ParseValue(s: Text, h: Host, p: nat): (r: Parse<Value>)
    requires p <= |s|
    ensures r.Got? ==> p < r.pos <= |s|
    decreases |s| - p, 1
  {
    var q := SkipInline(s, p);
    if q == |s| then Bad(Unterminated("value", Line(s, q)))
    else if s[q] == QUOTE then
      match ParseString(s, q)
      case Bad(f) => Bad(f)
      case Got(t, e) => Got(Str(t), e)
    else if s[q] == OPEN_BRACKET then ParseArray(s, h, q + 1, [])
    else if s[q] == OPEN_BRACE then
      match ParseBody(s, h, q + 1, CLOSE_BRACE, map[])
      case Bad(f) => Bad(f)
      case Got(fields, e) => Got(Object(fields), e)
    else if s[q] == DOLLAR && Is(s, q + 1, OPEN_BRACE) then ParseSubstitution(s, q + 2)
    else ParseScalar(s, h, q)
  }

  /** After the opening bracket, with the items read so far. */
  function ParseArray(s: Text, h: Host, p: nat, items: seq<Value>): (r: Parse<Value>)
    requires p <= |s|
    ensures r.Got? ==> p < r.pos <= |s|
    decreases |s| - p, 2
  {
    var q := SkipSpace(s, p);
    if q == |s| then Bad(Unterminated("array", Line(s, q)))
    else if s[q] == CLOSE_BRACKET then Got(Array(items), q + 1)
    else if s[q] == COMMA || s[q] == NEWLINE then ParseArray(s, h, q + 1, items)
    else
      match ParseValue(s, h, q)
      case Bad(f) => Bad(f)
      case Got(v, e) => ParseArray(s, h, e, items + [v])
  }

  /** Up to `terminator`, or to the end of the text when that is 0, with the fields read so far. */
  function ParseBody(s: Text, h: Host, p: nat, terminator: Byte, obj: Fields): (r: Parse<Fields>)
    requires p <= |s|
    ensures r.Got? ==> p <= r.pos <= |s| && (terminator != 0 ==> p < r.pos)
    decreases |s| - p, 4
  {
    var q := SkipSpace(s, p);
    if q == |s| then
      if terminator != 0 then Bad(Unterminated("object", Line(s, q))) else Got(obj, q)
    else if s[q] == terminator then Got(obj, q + 1)
    else if s[q] == COMMA || s[q] == NEWLINE || s[q] == SEMICOLON then ParseBody(s, h, q + 1, terminator, obj)
    else
      match ParseEntry(s, h, q, obj)
      case Bad(f) => Bad(f)
      case Got(next, e) => ParseBody(s, h, e, terminator, next)
  }

  function ParseEntry(s: Text, h: Host, p: nat, obj: Fields): (r: Parse<Fields>)
    requires p <= |s|
    ensures r.Got? ==> p < r.pos <= |s|
    decreases |s| - p, 3
  {
    if StartsKeyword(s, p, INCLUDE) then ParseInclude(s, h, p, obj) else ParseMember(s, h, p, obj)
  }

  function ParseInclude(s: Text, h: Host, p: nat, obj: Fields): (r: Parse<Fields>)
    requires p + 7 <= |s|
    ensures r.Got? ==> p < r.pos <= |s|
  {
    match ParseString(s, SkipInline(s, p + 7))
    case Bad(f) => Bad(f)
    case Got(path, e) =>
      match h.included(path)
      case Err(f) => Bad(f)
      case Ok(v) => if v.Object? then Got(DeepMerge(obj, v.fields), e) else Bad(NotAnObject(path))
  }

  function ParseMember(s: Text, h: Host, p: nat, obj: Fields): (r: Parse<Fields>)
    requires p <= |s|
    ensures r.Got? ==> p < r.pos <= |s|
    decreases |s| - p, 2
  {
    match ParseKey(s, p, [])
    case Bad(f) => Bad(f)
    case Got(key, e) =>
      var q := SkipInline(s, e);
      if q == |s| then Bad(Unterminated("assignment", Line(s, q)))
      else if s[q] == OPEN_BRACE then
        match ParseBody(s, h, q + 1, CLOSE_BRACE, map[])
        case Bad(f) => Bad(f)
        case Got(inner, end) => Got(DeepMerge(obj, Nested(key, Object(inner))), end)
      else if s[q] == PLUS && Is(s, q + 1, EQUALS) then
        match ParseValue(s, h, SkipInline(s, q + 2))
        case Bad(f) => Bad(f)
        case Got(v, end) => Got(Appended(obj, key, v), end)
      else if s[q] == EQUALS || s[q] == COLON then
        match ParseValue(s, h, SkipInline(s, q + 1))
        case Bad(f) => Bad(f)
        case Got(v, end) => Got(DeepMerge(obj, Nested(key, v)), end)
      else Bad(Expected("= or : or { or +=", Latin1(s[q]), Line(s, q)))
  }

  function ParseRoot(s: Text, h: Host): (r: Parse<Value>)
    ensures r.Got? ==> r.pos == |s| && r.value.Object?
  {
    var q := SkipSpace(s, 0);
    match if Is(s, q, OPEN_BRACE) then ParseBody(s, h, q + 1, CLOSE_BRACE, map[]) else ParseBody(s, h, q, 0, map[])
    case Bad(f) => Bad(f)
    case Got(fields, e) =>
      var end := SkipSpace(s, e);
      if end < |s| then Bad(Unexpected(s[end], Line(s, end), Col(s, end)))
      else Got(Object(fields), end)
  }
}

/** The lexical layer against the characters it is made of: blanks, comments, names, ends and places. */
module HoconLayout {
  import opened Prelude
  import opened FixUtf8
  import opened HoconTree
  import opened HoconGrammar
  import opened HoconStrings

  // ----- characters -----------------------------------------------------------

  predicate At(s: Text, p: nat, c: char)
  {
    p < |s| && s[p] == c as int
  }

  predicate OneOf(b: Byte, chars: string)
  {
    exists i :: 0 <= i < |chars| && b == chars[i] as int
  }

  predicate NoNewline(t: Text)
  {
    forall i :: 0 <= i < |t| ==> t[i] != '\n' as int
  }

  // ----- places ---------------------------------------------------------------

  ghost function Newlines(s: Text, p: nat): set<int>
    requires p <= |s|
  {
    set i | 0 <= i < p && s[i] == '\n' as int
  }

  /** The line is one more than the newlines in front. */
  lemma {:induction false} LineCountsNewlines(s: Text, p: nat)
    requires p <= |s|
    ensures Line(s, p) == 1 + |Newlines(s, p)|
    decreases p
  {
    if p == 0 {
      assert Newlines(s, p) == {};
    } else {
      LineCountsNewlines(s, p - 1);
      assert Newlines(s, p) == Newlines(s, p - 1) + if s[p - 1] == '\n' as int then {p - 1} else {};
    }
  }

  /** The column counts from the last newline in front, or from the start. */
  lemma {:induction false} ColumnCountsFromNewline(s: Text, p: nat)
    requires p <= |s|
    ensures var start := p + 1 - Col(s, p);
            0 <= start <= p && (start == 0 || At(s, start - 1, '\n')) && NoNewline(s[start..p])
    decreases p
  {
    if p > 0 && s[p - 1] != '\n' as int {
      ColumnCountsFromNewline(s, p - 1);
      var start := p + 1 - Col(s, p);
      assert s[start..p] == s[start..p - 1] + [s[p - 1]];
    }
  }

  // ----- white space and comments ---------------------------------------------

  /** One piece of what may stand between tokens. */
  datatype Piece =
    | White(byte: Byte)
    | HashComment(text: Text)
    | SlashComment(text: Text)
    | BlockComment(text: Text)
  {
    ghost predicate Ok()
    {
      match this
      case White(b) => OneOf(b, " \t\n\r")
      case HashComment(t) => NoNewline(t)
      case SlashComment(t) => NoNewline(t)
      case BlockComment(t) => !Closes(t + [42])
    }

    /** Line comments end with their newline. */
    function Written(): Text
    {
      match this
      case White(b) => [b]
      case HashComment(t) => [35] + t + [10]
      case SlashComment(t) => [47, 47] + t + [10]
      case BlockComment(t) => [47, 42] + t + [42, 47]
    }
  }

  /** A star followed by a slash. */
  ghost predicate Closes(t: Text)
  {
    exists i: nat :: At(t, i, '*') && At(t, i + 1, '/')
  }

  function WrittenAll(pieces: seq<Piece>): Text
  {
    if pieces == [] then [] else pieces[0].Written() + WrittenAll(pieces[1..])
  }

  lemma ByteAt(s: Text, p: nat, w: Text, i: nat)
    requires StartsWith(s, p, w) && i < |w|
    ensures s[p + i] == w[i]
  {
    assert s[p..p + |w|][i] == s[p + i];
  }

  lemma {:induction false} LineEndAt(s: Text, p: nat, t: Text)
    requires StartsWith(s, p, t + [10]) && NoNewline(t)
    ensures LineEnd(s, p) == p + |t|
    decreases |t|
  {
    ByteAt(s, p, t + [10], 0);
    if t != [] {
      assert t + [10] == [t[0]] + (t[1..] + [10]);
      Splits(s, p, [t[0]], t[1..] + [10]);
      LineEndAt(s, p + 1, t[1..]);
    }
  }

  lemma {:induction false} BlockEndAt(s: Text, p: nat, t: Text)
    requires StartsWith(s, p, t + [42, 47]) && !Closes(t + [42])
    ensures BlockEnd(s, p) == p + |t| + 2
    decreases |t|
  {
    var w := t + [42, 47];
    ByteAt(s, p, w, 0);
    ByteAt(s, p, w, 1);
    if t != [] {
      var rest := t[1..];
      assert w == [t[0]] + (rest + [42, 47]);
      Splits(s, p, [t[0]], rest + [42, 47]);
      assert !(At(t + [42], 0, '*') && At(t + [42], 1, '/'));
      NotClosedInside(t);
      BlockEndAt(s, p + 1, rest);
    }
  }

  lemma NotClosedInside(t: Text)
    requires t != [] && !Closes(t + [42])
    ensures !Closes(t[1..] + [42])
  {
    var rest := t[1..] + [42];
    if Closes(rest) {
      var i: nat :| At(rest, i, '*') && At(rest, i + 1, '/');
      assert At(t + [42], i + 1, '*') && At(t + [42], i + 2, '/');
    }
  }

  /** From the start of a line comment to past its newline. */
  lemma ToLineEnd(s: Text, p: nat, q: nat, t: Text)
    requires p < q <= p + 2 && q <= |s| && StartsWith(s, q, t + [10]) && NoNewline(t)
    requires s[p] != 10 && (q == p + 2 ==> s[p + 1] != 10)
    ensures q + |t| + 1 <= |s| && SkipSpace(s, LineEnd(s, p)) == SkipSpace(s, q + |t| + 1)
  {
    LineEndAt(s, q, t);
    ByteAt(s, q, t + [10], |t|);
    assert LineEnd(s, p) == LineEnd(s, p + 1);
    assert LineEnd(s, p) == LineEnd(s, q);
  }

  lemma WhiteSkipped(s: Text, p: nat, b: Byte)
    requires StartsWith(s, p, [b]) && OneOf(b, " \t\n\r")
    ensures p < |s| && SkipSpace(s, p) == SkipSpace(s, p + 1)
  {
    Sees(s, p, b);
  }

  lemma HashSkipped(s: Text, p: nat, t: Text)
    requires StartsWith(s, p, [35] + t + [10]) && NoNewline(t)
    ensures p + |t| + 2 <= |s| && SkipSpace(s, p) == SkipSpace(s, p + |t| + 2)
  {
    hide LineEnd, BlockEnd, StartsWith, NoNewline;
    assert [35] + t + [10] == [35] + (t + [10]);
    Splits(s, p, [35], t + [10]);
    Sees(s, p, 35);
    ToLineEnd(s, p, p + 1, t);
  }

  lemma SlashesSkipped(s: Text, p: nat, t: Text)
    requires StartsWith(s, p, [47, 47] + t + [10]) && NoNewline(t)
    ensures p + |t| + 3 <= |s| && SkipSpace(s, p) == SkipSpace(s, p + |t| + 3)
  {
    hide LineEnd, BlockEnd, StartsWith, NoNewline;
    assert [47, 47] + t + [10] == [47, 47] + (t + [10]);
    Splits(s, p, [47, 47], t + [10]);
    ByteAt(s, p, [47, 47], 0);
    ByteAt(s, p, [47, 47], 1);
    Fits(s, p + 2, t + [10]);
    ToLineEnd(s, p, p + 2, t);
  }

  lemma BlockSkipped(s: Text, p: nat, t: Text)
    requires StartsWith(s, p, [47, 42] + t + [42, 47]) && !Closes(t + [42])
    ensures p + |t| + 4 <= |s| && SkipSpace(s, p) == SkipSpace(s, p + |t| + 4)
  {
    hide LineEnd, BlockEnd, StartsWith, Closes;
    assert [47, 42] + t + [42, 47] == [47, 42] + (t + [42, 47]);
    Splits(s, p, [47, 42], t + [42, 47]);
    ByteAt(s, p, [47, 42], 0);
    ByteAt(s, p, [47, 42], 1);
    Fits(s, p + 2, t + [42, 47]);
    BlockEndAt(s, p + 2, t);
  }

  lemma Fits(s: Text, p: nat, w: Text)
    requires StartsWith(s, p, w)
    ensures p + |w| <= |s|
  {}

  /** Each piece is skipped as a whole. */
  lemma PieceSkipped(s: Text, p: nat, piece: Piece)
    requires p <= |s| && piece.Ok() && StartsWith(s, p, piece.Written())
    ensures p + |piece.Written()| <= |s| && SkipSpace(s, p) == SkipSpace(s, p + |piece.Written()|)
  {
    hide SkipSpace, StartsWith, Closes, OneOf, NoNewline;
    match piece {
      case White(b) => WhiteSkipped(s, p, b);
      case HashComment(t) => HashSkipped(s, p, t);
      case SlashComment(t) => SlashesSkipped(s, p, t);
      case BlockComment(t) => BlockSkipped(s, p, t);
    }
  }

  /** Any white space and comments between tokens are skipped. */
  lemma {:induction false} BlanksSkipped(s: Text, p: nat, pieces: seq<Piece>)
    requires p <= |s| && StartsWith(s, p, WrittenAll(pieces))
    requires forall i :: 0 <= i < |pieces| ==> pieces[i].Ok()
    ensures p + |WrittenAll(pieces)| <= |s| && SkipSpace(s, p) == SkipSpace(s, p + |WrittenAll(pieces)|)
    decreases |pieces|
  {
    hide SkipSpace, StartsWith, Piece.Ok, Piece.Written;
    if pieces != [] {
      var w := pieces[0].Written();
      Splits(s, p, w, WrittenAll(pieces[1..]));
      PieceSkipped(s, p, pieces[0]);
      BlanksSkipped(s, p + |w|, pieces[1..]);
    }
  }

  /** And nothing else: skipping stops in front of whatever starts neither white space nor a comment. */
  lemma {:induction false} SkippingStops(s: Text, p: nat)
    requires p <= |s|
    ensures var q := SkipSpace(s, p);
            q == |s| ||
            (!OneOf(s[q], " \t\n\r#") && !(At(s, q, '/') && (At(s, q + 1, '/') || At(s, q + 1, '*'))))
    decreases |s| - p
  {
    hide LineEnd, BlockEnd;
    if p < |s| {
      OneOfFive(s[p]);
      if HoconGrammar.White(s[p]) {
        SkippingStops(s, p + 1);
      } else if s[p] == HASH || (s[p] == SLASH && Is(s, p + 1, SLASH)) {
        CommentAdvances(s, p);
        SkippingStops(s, LineEnd(s, p));
      } else if s[p] == SLASH && Is(s, p + 1, STAR) {
        SkippingStops(s, BlockEnd(s, p + 2));
      }
    }
  }

  lemma OneOfFive(b: Byte)
    ensures OneOf(b, " \t\n\r#") <==> HoconGrammar.White(b) || b == HASH
  {
    var chars := " \t\n\r#";
    assert chars[0] == ' ' && chars[1] == '\t' && chars[2] == '\n' && chars[3] == '\r' && chars[4] == '#';
  }

  lemma CommentAdvances(s: Text, p: nat)
    requires p < |s| && s[p] != NEWLINE
    ensures p < LineEnd(s, p)
  {}

  /** Within a line exactly blanks and tabs are skipped. */
  lemma {:induction false} InlineSkipped(s: Text, p: nat)
    requires p <= |s|
    ensures var q := SkipInline(s, p);
            (forall i :: p <= i < q ==> OneOf(s[i], " \t")) && (q == |s| || !OneOf(s[q], " \t"))
    decreases |s| - p
  {
    if p < |s| {
      BlankOrTab(s[p]);
      if Is(s, p, SPACE) || Is(s, p, TAB) {
        InlineSkipped(s, p + 1);
      }
    }
  }

  lemma BlankOrTab(b: Byte)
    ensures OneOf(b, " \t") <==> b == SPACE || b == TAB
  {
    var chars := " \t";
    assert chars[0] == ' ' && chars[1] == '\t';
  }

  // ----- names ----------------------------------------------------------------

  predicate NameChar(b: Byte)
  {
    'a' as int <= b <= 'z' as int || 'A' as int <= b <= 'Z' as int || '0' as int <= b <= '9' as int ||
    b == '_' as int || b == '-' as int
  }

  predicate Name(t: Text)
  {
    t != [] && forall i :: 0 <= i < |t| ==> NameChar(t[i])
  }

  lemma {:induction false} NameEnds(s: Text, p: nat, t: Text)
    requires p <= |s| && StartsWith(s, p, t) && (forall i :: 0 <= i < |t| ==> NameChar(t[i]))
    requires p + |t| == |s| || !NameChar(s[p + |t|])
    ensures BareEnd(s, p) == p + |t|
    decreases |t|
  {
    if t != [] {
      ByteAt(s, p, t, 0);
      assert t == [t[0]] + t[1..];
      Splits(s, p, [t[0]], t[1..]);
      NameEnds(s, p + 1, t[1..]);
    }
  }

  /** An unquoted name, up to a character no name has, reads as itself. */
  lemma NameReads(s: Text, p: nat, t: Text)
    requires p <= |s| && Name(t) && StartsWith(s, p, t) && (p + |t| == |s| || !NameChar(s[p + |t|]))
    ensures KeyPart(s, p) == Got(t, p + |t|)
  {
    hide BareEnd, ValidUtf8, ParseString, Line, Col;
    NameEnds(s, p, t);
    ByteAt(s, p, t, 0);
    AsciiIsUtf8(t);
  }

  /** Without a quote or a name there is no key. */
  lemma NoNameNoKey(s: Text, p: nat)
    requires p <= |s| && !At(s, p, '"') && (p == |s| || !NameChar(s[p]))
    ensures KeyPart(s, p).Bad?
  {}

  /** `include` is a directive exactly when no letter, digit or underscore follows. */
  lemma IncludeIff(s: Text, p: nat)
    requires p + 7 <= |s| && s[p..p + 7] == INCLUDE
    ensures StartsKeyword(s, p, INCLUDE) <==>
            p + 7 == |s| || !NameChar(s[p + 7]) || At(s, p + 7, '-')
  {}

  // ----- strings that do not end ----------------------------------------------

  /** A line that ends before the closing quote, or a text that does, is an unterminated string. */
  lemma {:induction false} UnclosedQuote(s: Text, p: nat, t: Text, out: Text)
    requires StartsWith(s, p, Escaped(t))
    requires p + |Escaped(t)| == |s| || At(s, p + |Escaped(t)|, '\n')
    ensures p + |Escaped(t)| <= |s| && Quoted(s, p, out) == Bad(Unterminated("string", Line(s, p + |Escaped(t)|)))
    decreases |t|
  {
    hide Line, EscapeByte, Latin1, Quoted;
    if t == [] {
      NothingClosed(s, p, out);
    } else {
      var e := EscapeByte(t[0]);
      Splits(s, p, e, Escaped(t[1..]));
      EscapeReads(s, p, t[0], out);
      UnclosedQuote(s, p + |e|, t[1..], out + Latin1(t[0]));
    }
  }

  lemma NothingClosed(s: Text, p: nat, out: Text)
    requires p == |s| || At(s, p, '\n')
    ensures Quoted(s, p, out) == Bad(Unterminated("string", Line(s, p)))
  {}

  // ----- unquoted scalars -----------------------------------------------------

  /** What ends an unquoted scalar: a separator, a closing bracket, a comment or the end of the text. */
  predicate ScalarStops(s: Text, p: nat)
  {
    p >= |s| || OneOf(s[p], ",\n}];#") || (At(s, p, '/') && At(s, p + 1, '/'))
  }

  lemma StopsIff(s: Text, p: nat)
    requires p < |s|
    ensures EndsScalar(s, p) <==> ScalarStops(s, p)
  {
    var chars := ",\n}];#";
    assert chars[0] == ',' && chars[1] == '\n' && chars[2] == '}' && chars[3] == ']' && chars[4] == ';' &&
           chars[5] == '#';
  }

  /** An unquoted scalar is read to the first such place, trimmed. */
  lemma {:induction false} ScalarReachesStop(s: Text, p: nat)
    requires p <= |s|
    ensures var q := ScalarEnd(s, p);
            ScalarStops(s, q) && forall i :: p <= i < q ==> !ScalarStops(s, i)
    decreases |s| - p
  {
    hide ScalarStops, EndsScalar;
    if p < |s| {
      StopsIff(s, p);
      if !EndsScalar(s, p) {
        ScalarReachesStop(s, p + 1);
      }
    } else {
      AtTheEnd(s);
    }
  }

  lemma AtTheEnd(s: Text)
    ensures ScalarStops(s, |s|)
  {}

  // ----- trimming -------------------------------------------------------------

  /** The code points with the Unicode property White_Space. */
  predicate WhiteSpace(c: nat)
  {
    0x9 <= c <= 0xD || c == 0x20 || c == 0x85 || c == 0xA0 || c == 0x1680 || 0x2000 <= c <= 0x200A || c == 0x2028 ||
    c == 0x2029 || c == 0x202F || c == 0x205F || c == 0x3000
  }

  /** UTF-8 of a code point of at most three bytes. */
  function Encoded(c: nat): Text
    requires c < 0x10000
  {
    if c < 0x80 then [c]
    else if c < 0x800 then [0xC0 + c / 64, 0x80 + c % 64]
    else [0xE0 + c / 4096, 0x80 + c / 64 % 64, 0x80 + c % 64]
  }

  ghost predicate WhiteFront(t: Text, n: nat)
  {
    exists c: nat :: c < 0x10000 && WhiteSpace(c) && |Encoded(c)| == n && Encoded(c) <= t
  }

  lemma WideCodes(c: nat)
    requires 0x800 <= c < 0x10000
    ensures WideSpace(Encoded(c)) <==> WhiteSpace(c)
  {
    var e := Encoded(c);
    assert c == (e[0] as int - 0xE0) * 4096 + (e[1] as int - 0x80) * 64 + (e[2] as int - 0x80);
    assert e[..2] == [e[0], e[1]];
    assert e == [e[0], e[1], e[2]];
  }

  function Decoded(t: Text): int
    requires |t| == 3
  {
    (t[0] as int - 0xE0) * 4096 + (t[1] as int - 0x80) * 64 + (t[2] as int - 0x80)
  }

  lemma WideIsWhite(t: Text)
    requires |t| == 3 && WideSpace(t)
    ensures var c := Decoded(t); 0x800 <= c < 0x10000 && WhiteSpace(c) && Encoded(c) == t
  {
    assert t[..2] == [t[0], t[1]];
    assert t == [t[0], t[1], t[2]];
  }

  lemma FrontIsWhite(t: Text)
    requires SpaceAtStart(t) > 0
    ensures WhiteFront(t, SpaceAtStart(t))
  {
    hide WideSpace;
    if SpaceAtStart(t) == 1 {
      assert WhiteSpace(t[0]) && Encoded(t[0]) == [t[0]] && Encoded(t[0]) <= t;
    } else if SpaceAtStart(t) == 2 {
      assert Encoded(t[1]) == [0xC2, t[1]] && Encoded(t[1]) <= t;
    } else {
      WideIsWhite(t[..3]);
    }
  }

  lemma WhiteIsFront(t: Text, c: nat)
    requires c < 0x10000 && WhiteSpace(c) && Encoded(c) <= t
    ensures SpaceAtStart(t) == |Encoded(c)|
  {
    hide WideSpace;
    var e := Encoded(c);
    assert t[0] == e[0] && (|e| > 1 ==> t[1] == e[1]);
    if |e| == 3 {
      WideCodes(c);
      assert t[..3] == e;
    }
  }

  /** What is trimmed in front is a white-space character. */
  lemma TrimsWhiteSpace(t: Text)
    ensures SpaceAtStart(t) > 0 ==> WhiteFront(t, SpaceAtStart(t))
    ensures forall n: nat :: WhiteFront(t, n) ==> SpaceAtStart(t) == n
  {
    hide SpaceAtStart, Encoded, WhiteSpace;
    if SpaceAtStart(t) > 0 {
      FrontIsWhite(t);
    }
    forall n: nat | WhiteFront(t, n)
      ensures SpaceAtStart(t) == n
    {
      var c: nat :| c < 0x10000 && WhiteSpace(c) && |Encoded(c)| == n && Encoded(c) <= t;
      WhiteIsFront(t, c);
    }
  }

  ghost predicate WhiteBack(t: Text, n: nat)
  {
    exists c: nat :: c < 0x10000 && WhiteSpace(c) && |Encoded(c)| == n && n <= |t| && t[|t| - n..] == Encoded(c)
  }

  lemma BackIsWhite(t: Text)
    requires SpaceAtEnd(t) > 0
    ensures WhiteBack(t, SpaceAtEnd(t))
  {
    hide WideSpace;
    var e := |t|;
    if SpaceAtEnd(t) == 1 {
      assert Encoded(t[e - 1]) == [t[e - 1]] == t[e - 1..];
    } else if SpaceAtEnd(t) == 2 {
      assert Encoded(t[e - 1]) == [0xC2, t[e - 1]] == t[e - 2..];
    } else {
      WideIsWhite(t[e - 3..]);
    }
  }

  lemma WhiteIsBack(t: Text, c: nat)
    requires c < 0x10000 && WhiteSpace(c) && |Encoded(c)| <= |t| && t[|t| - |Encoded(c)|..] == Encoded(c)
    ensures SpaceAtEnd(t) == |Encoded(c)|
  {
    hide WideSpace;
    var e, n := |t|, |Encoded(c)|;
    LastBytes(t, Encoded(c));
    if n == 3 {
      WideCodes(c);
    }
  }

  lemma LastBytes(t: Text, w: Text)
    requires 0 < |w| <= |t| && t[|t| - |w|..] == w
    ensures t[|t| - 1] == w[|w| - 1] && (|w| > 1 ==> t[|t| - 2] == w[|w| - 2])
  {}

  /** The same behind. */
  lemma TrimsWhiteSpaceBehind(t: Text)
    ensures SpaceAtEnd(t) > 0 ==> WhiteBack(t, SpaceAtEnd(t))
    ensures forall n: nat :: WhiteBack(t, n) ==> SpaceAtEnd(t) == n
  {
    hide SpaceAtEnd, Encoded, WhiteSpace;
    if SpaceAtEnd(t) > 0 {
      BackIsWhite(t);
    }
    forall n: nat | WhiteBack(t, n)
      ensures SpaceAtEnd(t) == n
    {
      var c: nat :| c < 0x10000 && WhiteSpace(c) && |Encoded(c)| == n && n <= |t| && t[|t| - n..] == Encoded(c);
      WhiteIsBack(t, c);
    }
  }

  /** Nothing is trimmed exactly when the text neither starts nor ends with a white-space character. */
  lemma TrimmedIff(t: Text)
    ensures Trim(t) == t <==> forall n: nat :: !WhiteFront(t, n) && !WhiteBack(t, n)
  {
    hide SpaceAtStart, SpaceAtEnd, WhiteFront, WhiteBack;
    TrimsWhiteSpace(t);
    TrimsWhiteSpaceBehind(t);
    if n: nat :| WhiteFront(t, n) || WhiteBack(t, n) {
      NoEmptyWhite(t, n);
    }
  }

  lemma NoEmptyWhite(t: Text, n: nat)
    ensures WhiteFront(t, n) || WhiteBack(t, n) ==> n > 0
  {}
}

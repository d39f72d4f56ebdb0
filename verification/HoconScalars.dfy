/** Which unquoted scalars and substitutions can be spelled, and how they read. */
module HoconScalars {
  import opened Prelude
  import opened FixDecimal
  import opened FixUtf8
  import opened HoconTree
  import opened HoconGrammar
  import opened HoconStrings

  // ----- trimming -------------------------------------------------------------

  lemma {:induction false} TrimIsTrimmed(t: Text)
    ensures Trim(Trim(t)) == Trim(t)
    decreases |t|
  {
    hide SpaceAtStart, SpaceAtEnd;
    if SpaceAtStart(t) > 0 {
      TrimIsTrimmed(t[SpaceAtStart(t)..]);
    } else if SpaceAtEnd(t) > 0 {
      TrimIsTrimmed(t[..|t| - SpaceAtEnd(t)]);
    }
  }

  lemma {:induction false} TrimIsSlice(t: Text) returns (i: nat, j: nat)
    ensures i <= j <= |t| && Trim(t) == t[i..j]
    decreases |t|
  {
    hide SpaceAtStart, SpaceAtEnd;
    var a, b := SpaceAtStart(t), SpaceAtEnd(t);
    if a > 0 {
      i, j := TrimIsSlice(t[a..]);
      assert t[a..][i..j] == t[i + a..j + a];
      i, j := i + a, j + a;
    } else if b > 0 {
      i, j := TrimIsSlice(t[..|t| - b]);
      assert t[..|t| - b][i..j] == t[i..j];
    } else {
      i, j := 0, |t|;
    }
  }

  lemma StartIsChar(t: Text)
    requires SpaceAtStart(t) > 0
    ensures ScalarLen(t) == SpaceAtStart(t)
  {
    if |t| >= 3 {
      assert t[..3][0] == t[0] && t[..3][1] == t[1] && t[..3][2] == t[2];
      assert t[..3][..2][0] == t[0] && t[..3][..2][1] == t[1];
    }
  }

  lemma EndIsChar(t: Text)
    requires SpaceAtEnd(t) > 0
    ensures !Tail(t[|t| - SpaceAtEnd(t)])
  {
    if |t| >= 3 {
      var w := t[|t| - 3..];
      assert w[0] == t[|t| - 3] && w[..2][0] == w[0];
    }
  }

  lemma {:induction false} TrimIsValid(t: Text)
    requires ValidUtf8(t)
    ensures ValidUtf8(Trim(t))
    decreases |t|
  {
    hide SpaceAtStart, SpaceAtEnd, ScalarLen;
    if SpaceAtStart(t) > 0 {
      StartIsChar(t);
      TrimIsValid(t[SpaceAtStart(t)..]);
    } else if SpaceAtEnd(t) > 0 {
      EndIsChar(t);
      SplitAtLead(t, |t| - SpaceAtEnd(t));
      TrimIsValid(t[..|t| - SpaceAtEnd(t)]);
    }
  }

  /** White space in front is trimmed off. */
  lemma TrimFront(c: Byte, t: Text)
    requires 9 <= c <= 13 || c == SPACE
    ensures Trim([c] + t) == Trim(t)
  {
    assert ([c] + t)[1..] == t;
  }

  // ----- scalars --------------------------------------------------------------

  const VERTICAL_TAB: Byte := 11

  /** A scalar can spell the text: trimmed, well formed and with nothing in it that ends a scalar. */
  predicate Literal(w: Text)
  {
    w != [] && ValidUtf8(w) && Trim(w) == w && forall i :: 0 <= i < |w| ==> !EndsScalar(w, i)
  }

  /** Written after white space that no other rule skips, so that the first byte does not matter. */
  function WriteLiteral(w: Text): Text
  {
    [VERTICAL_TAB] + w
  }

  lemma {:induction false} EndsAt(s: Text, p: nat, q: nat)
    requires p <= q < |s| && EndsScalar(s, q) && forall i :: p <= i < q ==> !EndsScalar(s, i)
    ensures ScalarEnd(s, p) == q
    decreases q - p
  {
    hide EndsScalar;
    if p < q {
      EndsAt(s, p + 1, q);
    }
  }

  lemma LiteralEnds(s: Text, p: nat, w: Text)
    requires StartsWith(s, p, WriteLiteral(w)) && Literal(w) && Is(s, p + 1 + |w|, COMMA)
    ensures ScalarEnd(s, p) == p + 1 + |w| && s[p..p + 1 + |w|] == WriteLiteral(w)
  {
    hide ScalarEnd, Trim, ValidUtf8;
    var all := WriteLiteral(w);
    assert s[p..p + |all|] == all;
    forall i | p <= i < p + 1 + |w|
      ensures !EndsScalar(s, i)
    {
      assert s[i] == all[i - p];
      if i > p {
        assert !EndsScalar(w, i - p - 1);
        if i < p + |w| {
          assert s[i + 1] == all[i + 1 - p];
        }
      }
    }
    EndsAt(s, p, p + 1 + |w|);
  }

  lemma LiteralReads(s: Text, h: Host, p: nat, w: Text)
    requires StartsWith(s, p, WriteLiteral(w)) && Literal(w) && Is(s, p + |WriteLiteral(w)|, COMMA)
    ensures Is(s, p, VERTICAL_TAB) && ParseValue(s, h, p) == Got(ScalarOf(h, w), p + |WriteLiteral(w)|)
  {
    hide ScalarOf, Trim, ValidUtf8, ParseString, ParseArray, ParseBody, ParseSubstitution, ScalarEnd, EndsScalar, Line,
         Col;
    LiteralEnds(s, p, w);
    Splits(s, p, [VERTICAL_TAB], w);
    Sees(s, p, VERTICAL_TAB);
    TrimFront(VERTICAL_TAB, w);
    AsciiIsUtf8([VERTICAL_TAB]);
    Utf8Concat([VERTICAL_TAB], w);
  }

  lemma {:induction false} NothingEnds(s: Text, p: nat, i: nat)
    requires p <= |s| && p <= i < ScalarEnd(s, p)
    ensures !EndsScalar(s, i)
    decreases |s| - p
  {
    hide EndsScalar;
    if p < i {
      NothingEnds(s, p + 1, i);
    }
  }

  /** Every scalar read is one that can be spelled. */
  lemma ScalarIsSpelled(s: Text, h: Host, p: nat) returns (w: Text)
    requires p <= |s| && ParseScalar(s, h, p).Got?
    ensures Literal(w) && ParseScalar(s, h, p).value == ScalarOf(h, w)
  {
    hide ScalarEnd, Trim, ValidUtf8, ScalarOf, Line, Col;
    var q := ScalarEnd(s, p);
    var raw := s[p..q];
    w := Trim(raw);
    TrimIsTrimmed(raw);
    TrimIsValid(raw);
    var a, b := TrimIsSlice(raw);
    forall i | 0 <= i < |w|
      ensures !EndsScalar(w, i)
    {
      assert w[i] == s[p + a + i];
      assert i + 1 < |w| ==> w[i + 1] == s[p + a + i + 1];
      NothingEnds(s, p, p + a + i);
    }
  }

  // ----- substitutions --------------------------------------------------------

  /** A substitution can name the text. */
  predicate NameOk(t: Text)
  {
    ValidUtf8(t) && Trim(t) == t && CLOSE_BRACE !in t
  }

  /** The string that stands for a substitution until the second pass. */
  function MarkerOf(optional: bool, name: Text): Text
  {
    (if optional then OPTIONAL else STRICT) + name
  }

  function WriteReference(optional: bool, name: Text): Text
  {
    (if optional then [DOLLAR, OPEN_BRACE, QUESTION] else [DOLLAR, OPEN_BRACE]) + (([SPACE] + name) + [CLOSE_BRACE])
  }

  lemma {:induction false} BraceEnds(s: Text, p: nat, t: Text)
    requires StartsWith(s, p, t + [CLOSE_BRACE]) && CLOSE_BRACE !in t
    ensures BraceEnd(s, p) == p + |t|
    decreases |t|
  {
    if t == [] {
      assert t + [CLOSE_BRACE] == [CLOSE_BRACE];
      Sees(s, p, CLOSE_BRACE);
    } else {
      assert t + [CLOSE_BRACE] == [t[0]] + (t[1..] + [CLOSE_BRACE]);
      Splits(s, p, [t[0]], t[1..] + [CLOSE_BRACE]);
      Sees(s, p, t[0]);
      BraceEnds(s, p + 1, t[1..]);
    }
  }

  lemma NameReads(s: Text, p: nat, optional: bool, name: Text)
    requires NameOk(name) && (optional ==> Is(s, p, QUESTION))
    requires StartsWith(s, if optional then p + 1 else p, ([SPACE] + name) + [CLOSE_BRACE])
    ensures ParseSubstitution(s, p) ==
            Got(Str(MarkerOf(optional, name)), (if optional then p + 1 else p) + |name| + 2)
  {
    hide BraceEnd, Trim, ValidUtf8, Line;
    var start := if optional then p + 1 else p;
    var inside := [SPACE] + name;
    BraceEnds(s, start, inside);
    Splits(s, start, inside, [CLOSE_BRACE]);
    Splits(s, start, [SPACE], name);
    Sees(s, start, SPACE);
    TrimFront(SPACE, name);
    AsciiIsUtf8([SPACE]);
    Utf8Concat([SPACE], name);
  }

  lemma ReferenceReads(s: Text, h: Host, p: nat, optional: bool, name: Text)
    requires StartsWith(s, p, WriteReference(optional, name)) && NameOk(name)
    ensures Is(s, p, DOLLAR)
    ensures ParseValue(s, h, p) == Got(Str(MarkerOf(optional, name)), p + |WriteReference(optional, name)|)
  {
    hide NameOk, ParseString, ParseArray, ParseBody, ParseScalar, ParseSubstitution, Line;
    var start := if optional then [DOLLAR, OPEN_BRACE, QUESTION] else [DOLLAR, OPEN_BRACE];
    Splits(s, p, start, ([SPACE] + name) + [CLOSE_BRACE]);
    var w := s[p..p + |start|];
    assert w[0] == s[p] && w[1] == s[p + 1] && (optional ==> w[2] == s[p + 2]);
    NameReads(s, p + 2, optional, name);
  }

  lemma {:induction false} BraceEndIsFirst(s: Text, p: nat)
    requires p <= |s|
    ensures CLOSE_BRACE !in s[p..BraceEnd(s, p)]
    decreases |s| - p
  {
    if p < |s| && s[p] != CLOSE_BRACE {
      BraceEndIsFirst(s, p + 1);
      assert s[p..BraceEnd(s, p)] == [s[p]] + s[p + 1..BraceEnd(s, p)];
    }
  }

  /** Every substitution read is one that can be spelled. */
  lemma ReferenceIsSpelled(s: Text, p: nat) returns (optional: bool, name: Text)
    requires p <= |s| && ParseSubstitution(s, p).Got?
    ensures NameOk(name) && ParseSubstitution(s, p).value == Str(MarkerOf(optional, name))
  {
    hide BraceEnd, Trim, ValidUtf8, Line;
    optional := Is(s, p, QUESTION);
    var start := if optional then p + 1 else p;
    var inside := s[start..BraceEnd(s, start)];
    name := Trim(inside);
    BraceEndIsFirst(s, start);
    TrimIsTrimmed(inside);
    TrimIsValid(inside);
    var a, b := TrimIsSlice(inside);
  }

  // ----- numbers --------------------------------------------------------------

  predicate IntOk(i: int)
  {
    -(I64_MAX as int) - 1 <= i <= I64_MAX
  }

  lemma IntIsSpelled(t: Text)
    requires ParseInt(t).Some?
    ensures IntOk(ParseInt(t).value)
  {
    hide DigitsValue;
  }
}

/** Which texts strings and keys can spell, how they are written, and that they read as themselves. */
module HoconStrings {
  import opened Prelude
  import opened FixUtf8
  import opened HoconTree
  import opened HoconGrammar

  const TRIPLE: Text := [QUOTE, QUOTE, QUOTE]

  // ----- positions in a text --------------------------------------------------

  lemma Splits(s: Text, p: nat, a: Text, b: Text)
    requires StartsWith(s, p, a + b)
    ensures StartsWith(s, p, a) && StartsWith(s, p + |a|, b)
  {
    var whole := s[p..p + |a| + |b|];
    assert whole == a + b;
    assert s[p..p + |a|] == whole[..|a|];
    assert s[p + |a|..p + |a| + |b|] == whole[|a|..];
  }

  lemma Sees(s: Text, p: nat, c: Byte)
    requires StartsWith(s, p, [c])
    ensures Is(s, p, c)
  {
    assert s[p..p + 1][0] == c;
  }

  lemma TripleMeans(s: Text, p: nat)
    ensures StartsWith(s, p, TRIPLE) <==> Is(s, p, QUOTE) && Is(s, p + 1, QUOTE) && Is(s, p + 2, QUOTE)
  {
    if p + 3 <= |s| {
      var w := s[p..p + 3];
      assert w[0] == s[p] && w[1] == s[p + 1] && w[2] == s[p + 2];
    }
  }

  // ----- what plain quotes read -----------------------------------------------

  /** The bytes of a text, each as a character of its own. */
  function Latin1All(t: Text): Text
  {
    if t == [] then [] else Latin1(t[0]) + Latin1All(t[1..])
  }

  /** The text that reads byte by byte as `t`, if there is one. */
  function Narrow(t: Text): Option<Text>
    decreases |t|
  {
    if t == [] then Some([])
    else if t[0] < 128 then
      match Narrow(t[1..])
      case None => None
      case Some(u) => Some([t[0]] + u)
    else if |t| >= 2 && 194 <= t[0] <= 195 && Tail(t[1]) then
      match Narrow(t[2..])
      case None => None
      case Some(u) => Some([if t[0] == 194 then t[1] else t[1] + 64] + u)
    else None
  }

  lemma {:induction false} NarrowReads(t: Text)
    ensures Narrow(t).Some? ==> Latin1All(Narrow(t).value) == t
    decreases |t|
  {
    if Narrow(t).Some? && t != [] {
      var u := Narrow(t).value;
      var n := if t[0] < 128 then 1 else 2;
      NarrowReads(t[n..]);
      assert u[1..] == Narrow(t[n..]).value;
      assert t == t[..n] + t[n..];
      assert Latin1(u[0]) == t[..n];
    }
  }

  lemma {:induction false} Latin1Narrows(u: Text)
    ensures Narrow(Latin1All(u)) == Some(u)
    decreases |u|
  {
    if u != [] {
      Latin1Narrows(u[1..]);
      var t, rest := Latin1All(u), Latin1All(u[1..]);
      if u[0] < 128 {
        assert t[1..] == rest;
      } else {
        assert t[2..] == rest;
        assert u[0] / 64 == 2 || u[0] / 64 == 3;
      }
      assert [u[0]] + u[1..] == u;
    }
  }

  /** Plain quotes preserve a text exactly when it is ASCII. */
  lemma {:induction false} QuotesPreserveIff(t: Text)
    ensures |Latin1All(t)| >= |t|
    ensures Latin1All(t) == t <==> Ascii(t)
    decreases |t|
  {
    if t != [] {
      QuotesPreserveIff(t[1..]);
      assert t == [t[0]] + t[1..];
      if t[0] < 128 {
        assert Latin1All(t) == [t[0]] + Latin1All(t[1..]);
        assert Latin1All(t)[1..] == Latin1All(t[1..]);
      }
    }
  }

  function EscapeByte(c: Byte): Text
  {
    if c == QUOTE || c == BACKSLASH then [BACKSLASH, c] else if c == NEWLINE then [BACKSLASH, 110] else [c]
  }

  function Escaped(t: Text): Text
  {
    if t == [] then [] else EscapeByte(t[0]) + Escaped(t[1..])
  }

  lemma EscapeReads(s: Text, p: nat, c: Byte, out: Text)
    requires StartsWith(s, p, EscapeByte(c))
    ensures Quoted(s, p, out) == Quoted(s, p + |EscapeByte(c)|, out + Latin1(c))
  {
    hide Line;
    var e := EscapeByte(c);
    assert s[p..p + |e|][0] == e[0];
    assert |e| == 2 ==> s[p..p + |e|][1] == e[1];
  }

  lemma QuoteEnds(s: Text, p: nat, out: Text)
    requires Is(s, p, QUOTE)
    ensures Quoted(s, p, out) == Got(out, p + 1)
  {}

  /** Any text, escaped between plain quotes, is read byte by byte, each byte as a character of its own. */
  lemma {:induction false} QuotedReadsBytes(s: Text, p: nat, t: Text, out: Text)
    requires StartsWith(s, p, Escaped(t) + [QUOTE])
    ensures Quoted(s, p, out) == Got(out + Latin1All(t), p + |Escaped(t)| + 1)
    decreases |t|
  {
    hide Quoted, EscapeByte, Latin1;
    if t == [] {
      assert Escaped(t) + [QUOTE] == [QUOTE];
      Sees(s, p, QUOTE);
      QuoteEnds(s, p, out);
      assert out + Latin1All(t) == out;
    } else {
      var e := EscapeByte(t[0]);
      assert Escaped(t) + [QUOTE] == e + (Escaped(t[1..]) + [QUOTE]);
      Splits(s, p, e, Escaped(t[1..]) + [QUOTE]);
      EscapeReads(s, p, t[0], out);
      QuotedReadsBytes(s, p + |e|, t[1..], out + Latin1(t[0]));
      assert out + Latin1(t[0]) + Latin1All(t[1..]) == out + Latin1All(t);
    }
  }

  lemma {:induction false} PlainIsEscaped(t: Text)
    requires QUOTE !in t && BACKSLASH !in t && NEWLINE !in t
    ensures Escaped(t) == t
    decreases |t|
  {
    if t != [] {
      PlainIsEscaped(t[1..]);
      assert t == [t[0]] + t[1..];
    }
  }

  // ----- what can be spelled --------------------------------------------------

  /** Plain quotes spell the text. */
  predicate QuoteOk(t: Text)
  {
    Narrow(t).Some? && ValidUtf8(Narrow(t).value)
  }

  /** Triple quotes spell the text: no three quotes in a row start inside it. */
  predicate TripleOk(t: Text)
  {
    ValidUtf8(t) && forall i :: 0 <= i < |t| ==> !StartsWith(t + TRIPLE, i, TRIPLE)
  }

  predicate TextOk(t: Text)
  {
    QuoteOk(t) || TripleOk(t)
  }

  lemma AsciiIsOk(t: Text)
    requires Ascii(t)
    ensures QuoteOk(t) && TextOk(t)
  {
    hide Narrow, ValidUtf8;
    QuotesPreserveIff(t);
    Latin1Narrows(t);
    AsciiIsUtf8(t);
  }

  function WriteText(t: Text): Text
  {
    if QuoteOk(t) then [QUOTE] + (Escaped(Narrow(t).value) + [QUOTE]) else TRIPLE + (t + TRIPLE)
  }

  lemma TripleEndAfter(s: Text, p: nat, q: nat)
    requires p <= q && q + 2 < |s| && StartsWith(s, q, TRIPLE)
    requires forall i :: p <= i < q ==> !StartsWith(s, i, TRIPLE)
    ensures TripleEnd(s, p) == q
    decreases q - p
  {
    hide StartsWith;
    if p < q {
      assert !StartsWith(s, p, TRIPLE);
      TripleEndAfter(s, p + 1, q);
    }
  }

  lemma TripleReads(s: Text, p: nat, t: Text)
    requires StartsWith(s, p, t + TRIPLE) && TripleOk(t)
    ensures TripleEnd(s, p) == p + |t|
  {
    hide TripleEnd, ValidUtf8;
    Splits(s, p, t, TRIPLE);
    forall i | p <= i < p + |t|
      ensures !StartsWith(s, i, TRIPLE)
    {
      assert !StartsWith(t + TRIPLE, i - p, TRIPLE);
      SameInside(s, p, t + TRIPLE, i - p);
    }
    TripleEndAfter(s, p, p + |t|);
  }

  lemma SameInside(s: Text, p: nat, w: Text, i: nat)
    requires StartsWith(s, p, w) && i + 3 <= |w|
    ensures StartsWith(s, p + i, TRIPLE) <==> StartsWith(w, i, TRIPLE)
  {
    TripleMeans(s, p + i);
    TripleMeans(w, i);
    assert w == s[p..p + |w|];
    assert w[i] == s[p + i] && w[i + 1] == s[p + i + 1] && w[i + 2] == s[p + i + 2];
  }

  lemma EscapedStart(u: Text)
    requires u != []
    ensures Escaped(u) != [] && Escaped(u)[0] != QUOTE
  {}

  lemma NotTriple(s: Text, p: nat, u: Text)
    requires StartsWith(s, p, [QUOTE] + (Escaped(u) + [QUOTE])) && !Is(s, p + |Escaped(u)| + 2, QUOTE)
    ensures !StartsWith(s, p, TRIPLE)
  {
    hide StartsWith, Escaped;
    TripleMeans(s, p);
    if u == [] {
      assert |Escaped(u)| == 0 by { NothingEscaped(); }
    } else {
      EscapedStart(u);
      Splits(s, p, [QUOTE], Escaped(u) + [QUOTE]);
      SeesFirst(s, p + 1, Escaped(u) + [QUOTE]);
    }
  }

  lemma NothingEscaped()
    ensures Escaped([]) == []
  {}

  lemma SeesFirst(s: Text, p: nat, w: Text)
    requires w != [] && StartsWith(s, p, w)
    ensures Is(s, p, w[0])
  {
    assert s[p..p + |w|][0] == s[p];
  }

  /** A written text, not followed by a quote, reads as itself. */
  lemma TextReads(s: Text, p: nat, t: Text)
    requires p <= |s| && TextOk(t) && StartsWith(s, p, WriteText(t)) && !Is(s, p + |WriteText(t)|, QUOTE)
    ensures Is(s, p, QUOTE) && ParseString(s, p) == Got(t, p + |WriteText(t)|)
  {
    hide Line, Quoted, TripleEnd, ValidUtf8, Escaped, Narrow;
    if QuoteOk(t) {
      var u := Narrow(t).value;
      Splits(s, p, [QUOTE], Escaped(u) + [QUOTE]);
      Sees(s, p, QUOTE);
      QuotedReadsBytes(s, p + 1, u, []);
      NotTriple(s, p, u);
      NarrowReads(t);
      assert [] + t == t;
    } else {
      Splits(s, p, TRIPLE, t + TRIPLE);
      assert s[p..p + 3][0] == QUOTE;
      TripleReads(s, p + 3, t);
      Splits(s, p + 3, t, TRIPLE);
    }
  }

  // ----- written text is well formed ------------------------------------------

  lemma Joins(a: Text, b: Text, c: Text)
    requires ValidUtf8(a) && ValidUtf8(b) && ValidUtf8(c)
    ensures ValidUtf8(a + b + c)
  {
    hide ValidUtf8;
    Utf8Concat(a, b);
    Utf8Concat(a + b, c);
  }

  lemma Regroup(x: Text, a: Text, b: Text)
    ensures x + a + b == x + (a + b)
  {}

  lemma CutAtAscii(x: Text, w: Text)
    requires w != [] && w[0] < 128 && ValidUtf8(x + w)
    ensures ValidUtf8(x) && ValidUtf8(w[1..])
  {
    hide ValidUtf8;
    SplitAtAscii(x + w, |x|);
    assert (x + w)[..|x|] == x && (x + w)[|x| + 1..] == w[1..];
  }

  /** Escaping keeps the bytes of a character together. */
  lemma {:induction false} EscapedIsValid(x: Text, u: Text)
    requires ValidUtf8(x + u)
    ensures ValidUtf8(x + Escaped(u))
    decreases |u|
  {
    hide ValidUtf8;
    if u != [] {
      var e := EscapeByte(u[0]);
      if |e| == 2 {
        CutAtAscii(x, u);
        AsciiIsUtf8(e);
        Joins(x, e, u[1..]);
      } else {
        Regroup(x, e, u[1..]);
        assert e + u[1..] == u;
      }
      EscapedIsValid(x + e, u[1..]);
      Regroup(x, e, Escaped(u[1..]));
    }
  }

  lemma WrittenTextIsValid(t: Text)
    requires TextOk(t)
    ensures ValidUtf8(WriteText(t))
  {
    hide ValidUtf8, Escaped, Narrow, StartsWith;
    AsciiIsUtf8([QUOTE]);
    AsciiIsUtf8(TRIPLE);
    if QuoteOk(t) {
      var u := Narrow(t).value;
      assert [] + u == u && [] + Escaped(u) == Escaped(u);
      EscapedIsValid([], u);
      Joins([QUOTE], Escaped(u), [QUOTE]);
      assert [QUOTE] + Escaped(u) + [QUOTE] == WriteText(t);
    } else {
      Joins(TRIPLE, t, TRIPLE);
      assert TRIPLE + t + TRIPLE == WriteText(t);
    }
  }

  // ----- nothing else can be spelled ------------------------------------------

  /** The bytes between plain quotes with the escapes undone. */
  function Unescaped(w: Text): Text
  {
    if w == [] then []
    else if w[0] != BACKSLASH || |w| == 1 then [w[0]] + Unescaped(w[1..])
    else [EscapedByte(w[1])] + Unescaped(w[2..])
  }

  function EscapedByte(c: Byte): Byte
  {
    if c == 110 then NEWLINE else if c == 116 then TAB else if c == 114 then RETURN else c
  }

  /** Whatever plain quotes read is some text read byte by byte. */
  lemma {:induction false} QuotedIsLatin1(s: Text, p: nat, out: Text)
    requires p <= |s| && Quoted(s, p, out).Got?
    ensures var r := Quoted(s, p, out);
            s[r.pos - 1] == QUOTE && r.value == out + Latin1All(Unescaped(s[p..r.pos - 1]))
    decreases |s| - p
  {
    hide Line, Latin1, Latin1All, Unescaped, Escape;
    var end := Quoted(s, p, out).pos - 1;
    if s[p] == QUOTE {
      assert s[p..end] == [];
      UnescapedNone(out);
    } else if s[p] == BACKSLASH {
      QuotedIsLatin1(s, p + 2, out + Escape(s[p + 1]));
      UnescapedPair(s[p..end], out);
      assert s[p..end][2..] == s[p + 2..end];
    } else {
      QuotedIsLatin1(s, p + 1, out + Latin1(s[p]));
      UnescapedByte(s[p..end], out);
      assert s[p..end][1..] == s[p + 1..end];
    }
  }

  lemma UnescapedNone(out: Text)
    ensures out + Latin1All(Unescaped([])) == out
  {}

  lemma UnescapedPair(w: Text, out: Text)
    requires |w| >= 2 && w[0] == BACKSLASH
    ensures out + Escape(w[1]) + Latin1All(Unescaped(w[2..])) == out + Latin1All(Unescaped(w))
  {
    EscapeIsByte(w[1]);
    hide Latin1, Escape;
    var u := Unescaped(w);
    assert u[0] == EscapedByte(w[1]) && u[1..] == Unescaped(w[2..]);
  }

  lemma UnescapedByte(w: Text, out: Text)
    requires w != [] && w[0] != BACKSLASH
    ensures out + Latin1(w[0]) + Latin1All(Unescaped(w[1..])) == out + Latin1All(Unescaped(w))
  {
    hide Latin1;
    var u := Unescaped(w);
    assert u[0] == w[0] && u[1..] == Unescaped(w[1..]);
  }

  lemma EscapeIsByte(c: Byte)
    ensures Escape(c) == Latin1(EscapedByte(c))
  {}

  lemma {:induction false} UnescapedIsValid(x: Text, w: Text)
    requires ValidUtf8(x + w)
    ensures ValidUtf8(x + Unescaped(w))
    decreases |w|
  {
    hide ValidUtf8, EscapedByte;
    if w != [] {
      if w[0] != BACKSLASH || |w| == 1 {
        var c := [w[0]];
        Regroup(x, c, w[1..]);
        assert c + w[1..] == w;
        UnescapedIsValid(x + c, w[1..]);
        Regroup(x, c, Unescaped(w[1..]));
      } else {
        var c := [EscapedByte(w[1])];
        UndoEscape(x, w);
        UnescapedIsValid(x + c, w[2..]);
        Regroup(x, c, Unescaped(w[2..]));
      }
    }
  }

  lemma UndoEscape(x: Text, w: Text)
    requires |w| >= 2 && w[0] == BACKSLASH && ValidUtf8(x + w)
    ensures ValidUtf8(x + [EscapedByte(w[1])] + w[2..])
  {
    hide ValidUtf8;
    CutAtAscii(x, w);
    var c := EscapedByte(w[1]);
    if c == w[1] {
      Utf8Concat(x, w[1..]);
      assert [c] + w[2..] == w[1..];
      Regroup(x, [c], w[2..]);
    } else {
      var rest := w[1..];
      assert [] + rest == rest && rest[1..] == w[2..];
      CutAtAscii([], rest);
      AsciiIsUtf8([c]);
      Joins(x, [c], w[2..]);
    }
  }

  lemma {:induction false} TripleEndIsFirst(s: Text, p: nat, i: nat)
    requires p <= |s| && p <= i < TripleEnd(s, p)
    ensures !StartsWith(s, i, TRIPLE)
    decreases |s| - p
  {
    hide StartsWith;
    if p < i {
      TripleEndIsFirst(s, p + 1, i);
    }
  }

  /** Every string read from well-formed text can be written. */
  lemma StringIsSpelled(s: Text, p: nat)
    requires p <= |s| && ValidUtf8(s) && ParseString(s, p).Got?
    ensures TextOk(ParseString(s, p).value)
  {
    hide ValidUtf8, Quoted, TripleEnd, Narrow, Latin1All, Unescaped, Line;
    if StartsWith(s, p, TRIPLE) {
      var q := TripleEnd(s, p + 3);
      TripleIsSpelled(s, p + 3);
    } else {
      var r := Quoted(s, p + 1, []);
      QuotedIsLatin1(s, p + 1, []);
      var w := s[p + 1..r.pos - 1];
      ContentIsValid(s, p, r.pos - 1);
      assert [] + w == w && [] + Unescaped(w) == Unescaped(w);
      UnescapedIsValid([], w);
      Latin1Narrows(Unescaped(w));
      assert r.value == Latin1All(Unescaped(w));
    }
  }

  lemma ContentIsValid(s: Text, p: nat, q: nat)
    requires ValidUtf8(s) && p < q < |s| && s[p] == QUOTE && s[q] == QUOTE
    ensures ValidUtf8(s[p + 1..q])
  {
    hide ValidUtf8;
    SplitAtAscii(s, p);
    var rest := s[p + 1..];
    SplitAtAscii(rest, q - p - 1);
    assert rest[..q - p - 1] == s[p + 1..q];
  }

  lemma SliceAppends(s: Text, p: nat, q: nat, w: Text)
    requires p <= q && StartsWith(s, q, w)
    ensures StartsWith(s, p, s[p..q] + w)
  {
    assert s[p..q + |w|] == s[p..q] + s[q..q + |w|];
  }

  lemma TripleIsSpelled(s: Text, p: nat)
    requires p <= |s| && TripleEnd(s, p) + 2 < |s| && ValidUtf8(s[p..TripleEnd(s, p)])
    ensures TripleOk(s[p..TripleEnd(s, p)])
  {
    hide ValidUtf8;
    var q := TripleEnd(s, p);
    var t := s[p..q];
    SliceAppends(s, p, q, TRIPLE);
    forall i | 0 <= i < |t|
      ensures !StartsWith(t + TRIPLE, i, TRIPLE)
    {
      TripleEndIsFirst(s, p, p + i);
      SameInside(s, p, t + TRIPLE, i);
    }
  }

  /** A text has a quoted spelling exactly when plain or triple quotes carry it. */
  lemma SpelledIff(t: Text)
    ensures TextOk(t) <==> exists s: Text :: ValidUtf8(s) && ParseString(s, 0) == Got(t, |s|)
  {
    hide ValidUtf8, ParseString, WriteText, TextOk;
    if TextOk(t) {
      var s := WriteText(t);
      assert s[0..|s|] == s;
      TextReads(s, 0, t);
      WrittenTextIsValid(t);
    }
    if s: Text :| ValidUtf8(s) && ParseString(s, 0) == Got(t, |s|) {
      StringIsSpelled(s, 0);
    }
  }

  // A lower-case e with acute accent, as UTF-8, and a quote.
  const ACCENT_QUOTE: Text := [0xC3, 0xA9, QUOTE]

  /** So an accented letter in front of a closing quote has none, as a string or as a key. */
  lemma AccentQuoteHasNoSpelling(s: Text, p: nat)
    requires p <= |s| && ValidUtf8(s)
    ensures KeyPart(s, p).Got? ==> KeyPart(s, p).value != ACCENT_QUOTE
  {
    hide KeyPart, TextOk;
    AccentQuoteIsNotOk();
    if KeyPart(s, p).Got? {
      KeyIsSpelled(s, p);
    }
  }

  lemma AccentQuoteIsNotOk()
    ensures ValidUtf8(ACCENT_QUOTE) && !TextOk(ACCENT_QUOTE)
  {
    var t, u: Text := ACCENT_QUOTE, [233, QUOTE];
    assert u[1..] == [QUOTE] && u[1..][1..] == [];
    assert Latin1All(u[1..][1..]) == [];
    assert Latin1All(u[1..]) == [QUOTE] + [];
    assert Latin1All(u) == [0xC3, 0xA9] + [QUOTE] == t;
    Latin1Narrows(u);
    assert ScalarLen(u) == 0;
    assert t[2..] == [QUOTE];
    AsciiIsUtf8(t[2..]);
    TripleMeans(t + TRIPLE, 2);
  }

  lemma {:induction false} BareIsAscii(s: Text, p: nat)
    requires p <= |s|
    ensures Ascii(s[p..BareEnd(s, p)])
    decreases |s| - p
  {
    if p < |s| && BareByte(s[p]) {
      BareIsAscii(s, p + 1);
      assert s[p..BareEnd(s, p)] == [s[p]] + s[p + 1..BareEnd(s, p)];
    }
  }

  /** Every part of a key read from well-formed text can be written. */
  lemma KeyIsSpelled(s: Text, p: nat)
    requires p <= |s| && ValidUtf8(s) && KeyPart(s, p).Got?
    ensures TextOk(KeyPart(s, p).value)
  {
    hide ValidUtf8, ParseString, BareEnd, TextOk, Line, Col;
    if Is(s, p, QUOTE) {
      StringIsSpelled(s, p);
    } else {
      BareIsAscii(s, p);
      AsciiIsOk(s[p..BareEnd(s, p)]);
    }
  }
}

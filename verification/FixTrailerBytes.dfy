/** Which replacement bytes are accepted at the three positions the checksum does not protect. */
module FixTrailerBytes {
  import opened Prelude
  import opened FixDecimal
  import opened FixUtf8
  import opened FixMessage
  import opened FixCodec
  import opened FixCodecLaws
  import opened FixCorruption

  predicate PlainFields(fs: seq<FixField>)
  {
    fs != [] && forall f :: f in fs ==> f.Clean() && f.tag != CHECK_SUM
  }

  /** A segment in last place decides, as long as it is no checksum field. */
  lemma LastSegment(fs: seq<FixField>, seg: seq<Byte>)
    requires PlainFields(fs) && seg != [] && SOH !in seg
    requires ParseField(seg).Ok? ==> ParseField(seg).value.tag != CHECK_SUM
    ensures Parsed(EncodeFields(fs) + (seg + [SOH])).Ok? <==> ParseField(seg).Ok?
  {
    hide Split, EncodeFields, ParseField, FixField.Clean;
    var tail := seg + [SOH];
    SplitConcat(seg, []);
    SplitWhole(seg);
    FoldTrailingEmpty(START);
    assert seg + [SOH] + [] == tail;
    FoldFields(fs, tail, START);
    FoldTwo(seg, Seen(START, fs));
    assert EncodeFields(fs) + tail != [];
  }

  lemma FoldTwo(seg: seq<Byte>, st: ParseState)
    ensures Fold([seg] + [[]], st) ==
            match Step(seg, st) { case Err(e) => Err(e) case Ok(next) => Ok(next.(offset := next.offset + 1)) }
  {
    hide Step;
    var segs := [seg] + [[]];
    assert segs[1..] == [[]];
    if Step(seg, st).Ok? {
      FoldTrailingEmpty(Step(seg, st).value);
    }
  }

  /** The same after an empty segment. */
  lemma LastSegmentAfterEmpty(fs: seq<FixField>, seg: seq<Byte>)
    requires PlainFields(fs) && seg != [] && SOH !in seg
    requires ParseField(seg).Ok? && ParseField(seg).value.tag != CHECK_SUM
    ensures Parsed(EncodeFields(fs) + ([SOH] + seg + [SOH])).Ok?
  {
    hide Split, EncodeFields, ParseField, FixField.Clean;
    var tail := [SOH] + seg + [SOH];
    SplitConcat([], seg + [SOH]);
    SplitConcat(seg, []);
    SplitWhole(seg);
    SplitEmpty();
    assert seg + [SOH] + [] == seg + [SOH];
    assert [] + [SOH] + (seg + [SOH]) == tail;
    FoldFields(fs, tail, START);
    var st := Seen(START, fs);
    var segs := [[]] + ([seg] + [[]]);
    assert Split(tail) == segs && segs[1..] == [seg] + [[]];
    FoldTwo(seg, st.(offset := st.offset + 1));
    assert Fold(segs, st) == Fold([seg] + [[]], st.(offset := st.offset + 1));
    assert EncodeFields(fs) + tail != [];
  }

  // ----- the tag --------------------------------------------------------------

  /** A field that starts with two bytes and an equals sign is one exactly when they read as a number. */
  lemma TwoByteTag(a: Byte, b: Byte, v: Text)
    requires a != EQUALS && b != EQUALS && Ascii(v)
    ensures var r := ParseField([a, b, EQUALS] + v);
            (r.Ok? <==> (IsDigit(a) || a == 43) && IsDigit(b)) &&
            (r.Ok? ==> r.value.tag == if a == 43 then b as int - 48 else 10 * (a as int - 48) + b as int - 48)
  {
    hide ValidUtf8;
    var raw := [a, b, EQUALS] + v;
    assert raw == [a, b] + [EQUALS] + v;
    FindEqualsAfter([a, b], v);
    assert raw[..2] == [a, b];
    TwoDigits(a, b);
    if (IsDigit(a) || a == 43) && IsDigit(b) {
      AsciiIsUtf8(raw);
    }
  }

  lemma TwoDigits(a: Byte, b: Byte)
    ensures ParseUnsigned([a, b], U32_MAX) ==
            if !IsDigit(b) then None
            else if a == 43 then Some(b as int - 48)
            else if IsDigit(a) then Some(10 * (a as int - 48) + b as int - 48)
            else None
  {
    var s: seq<Byte> := [a, b];
    assert s[1..] == [b] && s[..1] == [a];
    OneDigit(a);
    OneDigit(b);
    assert AllDigits(s) <==> IsDigit(s[0]) && IsDigit(s[1]);
  }

  lemma OneDigit(b: Byte)
    ensures AllDigits([b]) <==> IsDigit(b)
    ensures IsDigit(b) ==> DigitsValue([b]) == b as int - 48
  {
    var s: seq<Byte> := [b];
    assert s[..0] == [] && s[0] == b;
    assert AllDigits(s) <==> IsDigit(s[0]);
  }

  lemma FrameParts(m: FixMessage) returns (d: Text)
    requires Framable(m)
    ensures |d| == 3 && AllDigits(d) && Ascii(d) && SOH !in d && PlainFields(Covered(m))
    ensures Wire(m) == EncodeFields(Covered(m)) + ([49, 48, EQUALS] + d + [SOH])
  {
    hide CheckSumField, EncodeFields, Covered, FixField.Clean;
    var head := EncodeFields(Covered(m));
    d := CheckSumField(head).value;
    CheckSumFieldShape(head);
    TrailerClean(d);
    CoveredClean(m);
    CoveredNonEmpty(m);
    DigitsAreText(d);
  }

  lemma DigitsAreText(d: Text)
    requires AllDigits(d)
    ensures Ascii(d) && SOH !in d
  {
    assert forall i :: 0 <= i < |d| ==> IsDigit(d[i]);
  }

  /** First digit of the tag: another digit, a plus sign or a delimiter. */
  lemma FirstTagByteAccepted(m: FixMessage, b: Byte)
    requires Framable(m) && b != 49
    ensures Parsed(Wire(m)[TrailerAt(m) := b]).Ok? <==> IsDigit(b) || b == 43 || b == SOH
  {
    hide Parsed, Wire, EncodeFields, ParseField, Covered, FixField.Clean;
    var d := FrameParts(m);
    var head := EncodeFields(Covered(m));
    var n := |head|;
    if b == SOH {
      var seg := [48, EQUALS] + d;
      OneByteTag(48, d);
      LastSegmentAfterEmpty(Covered(m), seg);
      assert Wire(m)[n := b] == head + ([SOH] + seg + [SOH]);
    } else {
      var seg := [b, 48, EQUALS] + d;
      if b == EQUALS {
        NoTag([48, EQUALS] + d);
        assert seg == [EQUALS] + ([48, EQUALS] + d);
      } else {
        TwoByteTag(b, 48, d);
      }
      LastSegment(Covered(m), seg);
      assert Wire(m)[n := b] == head + (seg + [SOH]);
    }
  }

  lemma NoTag(v: Text)
    ensures ParseField([EQUALS] + v).Err?
  {
    hide ValidUtf8;
    var raw := [EQUALS] + v;
    assert raw[..0] == [];
  }

  lemma OneByteTag(a: Byte, v: Text)
    requires IsDigit(a) && Ascii(v)
    ensures ParseField([a, EQUALS] + v).Ok? && ParseField([a, EQUALS] + v).value.tag == a as int - 48
  {
    hide ValidUtf8;
    var raw := [a, EQUALS] + v;
    assert raw == [a] + [EQUALS] + v;
    FindEqualsAfter([a], v);
    assert raw[..1] == [a];
    OneDigit(a);
    AsciiIsUtf8(raw);
  }

  /** Second digit of the tag: another digit or an equals sign. */
  lemma SecondTagByteAccepted(m: FixMessage, b: Byte)
    requires Framable(m) && b != 48
    ensures Parsed(Wire(m)[TrailerAt(m) + 1 := b]).Ok? <==> IsDigit(b) || b == EQUALS
  {
    hide Parsed, Wire, EncodeFields, ParseField, Covered, FixField.Clean;
    var d := FrameParts(m);
    var head := EncodeFields(Covered(m));
    var n := |head|;
    if b == SOH {
      CutTag(m, d);
    } else {
      var seg := [49, b, EQUALS] + d;
      if b == EQUALS {
        OneByteTag(49, [EQUALS] + d);
        assert seg == [49, EQUALS] + ([EQUALS] + d);
      } else {
        TwoByteTag(49, b, d);
      }
      LastSegment(Covered(m), seg);
      assert Wire(m)[n + 1 := b] == head + (seg + [SOH]);
    }
  }

  /** A delimiter inside the tag leaves a segment without an equals sign. */
  lemma CutTag(m: FixMessage, d: Text)
    requires Wire(m) == EncodeFields(Covered(m)) + ([49, 48, EQUALS] + d + [SOH])
    ensures Parsed(Wire(m)[TrailerAt(m) + 1 := SOH]).Err?
  {
    hide Parsed, Wire, EncodeFields, Covered, Step;
    CoveredEnds(m);
    var head := EncodeFields(Covered(m));
    var x := head[..|head| - 1];
    assert head == x + [SOH];
    var seg: seq<Byte> := [49];
    var tail := [EQUALS] + d + [SOH];
    forall st
      ensures Step(seg, st).Err?
    {
      NoEqualsRefused(seg, st);
    }
    BadSegmentRejected(x, seg, tail);
    assert Wire(m)[|head| + 1 := SOH] == x + [SOH] + (seg + [SOH] + tail);
  }

  // ----- the delimiter in front of the trailer --------------------------------

  lemma {:induction false} Utf8Rest(a: seq<Byte>, c: seq<Byte>)
    requires ValidUtf8(a) && ValidUtf8(a + c)
    ensures ValidUtf8(c)
    decreases |a|
  {
    hide ScalarLen;
    if a == [] {
      assert a + c == c;
    } else {
      ScalarLenPrefix(a, c);
      var k := ScalarLen(a);
      assert (a + c)[k..] == a[k..] + c;
      Utf8Rest(a[k..], c);
    }
  }

  /** A lone byte between well-formed text and an ASCII byte is well formed only if it is ASCII. */
  lemma LoneByte(u: seq<Byte>, b: Byte, v: seq<Byte>)
    requires ValidUtf8(u) && v != [] && Ascii(v)
    ensures ValidUtf8(u + [b] + v) <==> b < 128
  {
    hide ValidUtf8;
    var s := u + [b] + v;
    if b < 128 {
      AsciiIsUtf8([b] + v);
      Utf8Concat(u, [b] + v);
      assert s == u + ([b] + v);
    } else if ValidUtf8(s) {
      SplitAtAscii(s, |u| + 1);
      assert s[..|u| + 1] == u + [b];
      Utf8Rest(u, [b]);
      NotAlone(b);
    }
  }

  lemma NotAlone(b: Byte)
    requires b >= 128
    ensures !ValidUtf8([b])
  {}

  /** The delimiter in front of the trailer: any other ASCII byte. */
  lemma DelimiterByteAccepted(m: FixMessage, b: Byte)
    requires Framable(m) && b != SOH
    ensures Parsed(Wire(m)[TrailerAt(m) - 1 := b]).Ok? <==> b < 128
  {
    hide Parsed, Wire, EncodeFields, ParseField, Covered, FixField.Clean;
    var d := FrameParts(m);
    CoveredNonEmpty(m);
    var c := Covered(m);
    var front, last := c[..|c| - 1], c[|c| - 1];
    assert c == front + [last];
    EncodeSnoc(front, last);
    var trailer := [49, 48, EQUALS] + d;
    var seg := Raw(last) + [b] + trailer;
    GluedField(last, b, trailer);
    LastSegment(front, seg);
    assert Wire(m)[TrailerAt(m) - 1 := b] == EncodeFields(front) + (seg + [SOH]);
  }

  /** A field followed by a byte and ASCII text is a longer field exactly when the byte is ASCII. */
  lemma GluedField(f: FixField, b: Byte, v: Text)
    requires f.Clean() && v != [] && Ascii(v) && SOH !in v && b != SOH
    ensures var seg := Raw(f) + [b] + v;
            seg != [] && SOH !in seg && (ParseField(seg).Ok? <==> b < 128) &&
            (ParseField(seg).Ok? ==> ParseField(seg).value.tag == f.tag)
  {
    hide ValidUtf8, Digits, ParseUnsigned;
    var seg := Raw(f) + [b] + v;
    ParseRaw(f);
    assert ValidUtf8(Raw(f)) by { RawIsText(f); }
    LoneByte(Raw(f), b, v);
    DigitsArePlain(f.tag);
    var digits := Digits(f.tag);
    assert seg == digits + [EQUALS] + (f.value + [b] + v);
    FindEqualsAfter(digits, f.value + [b] + v);
    assert seg[..|digits|] == digits;
    ParseDigits(f.tag, U32_MAX);
  }

  lemma RawIsText(f: FixField)
    requires ParseField(Raw(f)).Ok?
    ensures ValidUtf8(Raw(f))
  {}
}

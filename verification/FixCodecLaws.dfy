/** What the parser makes of an encoded frame, intact or damaged in one byte. */
module FixCodecLaws {
  import opened Prelude
  import opened FixDecimal
  import opened FixUtf8
  import opened FixMessage
  import opened FixCodec

  /** The emitted fields of `m` are framable: well-formed text without the delimiter. */
  predicate Framable(m: FixMessage)
  {
    Begin(m).Clean() && forall f :: f in Body(m) ==> f.Clean()
  }

  /** Fields 8, 9, 35, the carried ones in order, then 10. */
  function Framed(m: FixMessage): FixMessage
  {
    FixMessage(Covered(m) + [CheckSumField(EncodeFields(Covered(m)))])
  }

  /** A field on the wire without its terminating delimiter. */
  function Raw(f: FixField): seq<Byte>
  {
    Digits(f.tag) + [EQUALS] + f.value
  }

  function Seen(st: ParseState, fs: seq<FixField>): ParseState
  {
    st.(fields := st.fields + fs, offset := st.offset + |EncodeFields(fs)|)
  }

  // ----- splitting ------------------------------------------------------------

  /** A first byte opens a new segment or extends the first one. */
  function Prepend(b: Byte, segs: seq<seq<Byte>>): seq<seq<Byte>>
    requires segs != []
  {
    if b == SOH then [[]] + segs else [[b] + segs[0]] + segs[1..]
  }

  lemma SplitHead(s: seq<Byte>)
    requires s != []
    ensures Split(s) == Prepend(s[0], Split(s[1..]))
  {
  }

  lemma PrependConcat(b: Byte, r: seq<seq<Byte>>, t: seq<seq<Byte>>)
    requires r != []
    ensures Prepend(b, r + t) == Prepend(b, r) + t
  {
    assert (r + t)[1..] == r[1..] + t;
  }

  lemma {:induction false} SplitConcat(x: seq<Byte>, y: seq<Byte>)
    ensures Split(x + [SOH] + y) == Split(x) + Split(y)
  {
    hide Split, Prepend;
    var s := x + [SOH] + y;
    SplitHead(s);
    if x == [] {
      assert s[1..] == y;
      SplitEmpty();
      assert Prepend(SOH, Split(y)) == [[]] + Split(y) by { PrependDelimiter(Split(y)); }
    } else {
      SplitConcat(x[1..], y);
      SplitHead(x);
      assert s[1..] == x[1..] + [SOH] + y;
      PrependConcat(x[0], Split(x[1..]), Split(y));
    }
  }

  lemma SplitEmpty()
    ensures Split([]) == [[]]
  {
  }

  lemma PrependDelimiter(segs: seq<seq<Byte>>)
    requires segs != []
    ensures Prepend(SOH, segs) == [[]] + segs
  {
  }

  lemma {:induction false} SplitWhole(x: seq<Byte>)
    requires SOH !in x
    ensures Split(x) == [x]
  {
    if x != [] {
      SplitWhole(x[1..]);
      assert [x[0]] + x[1..] == x;
    }
  }

  lemma {:induction false} SegmentsHoldNoDelimiter(x: seq<Byte>, i: nat)
    requires i < |Split(x)|
    ensures SOH !in Split(x)[i]
    decreases i, |x|
  {
    FirstSegment(x);
    if i > 0 {
      SegmentsHoldNoDelimiter(x[|Split(x)[0]| + 1..], i - 1);
    }
  }

  lemma {:induction false} FoldConcat(a: seq<seq<Byte>>, b: seq<seq<Byte>>, st: ParseState)
    ensures Fold(a + b, st) ==
            match Fold(a, st) { case Err(e) => Err(e) case Ok(mid) => Fold(b, mid) }
    decreases |a|
  {
    hide Step;
    if a == [] {
      assert a + b == b;
    } else {
      assert (a + b)[1..] == a[1..] + b;
      match Step(a[0], st) {
        case Err(_) =>
        case Ok(next) => FoldConcat(a[1..], b, next);
      }
    }
  }

  // ----- one field ------------------------------------------------------------

  lemma FindEqualsAfter(pre: seq<Byte>, post: seq<Byte>)
    requires EQUALS !in pre
    ensures FindEquals(pre + [EQUALS] + post) == |pre|
  {
    var s := pre + [EQUALS] + post;
    assert s[|pre|] == EQUALS;
    assert forall k :: 0 <= k < |pre| ==> s[k] == pre[k];
  }

  lemma DigitsArePlain(n: nat)
    ensures Ascii(Digits(n)) && EQUALS !in Digits(n) && SOH !in Digits(n)
  {
    DigitsRoundTrip(n);
    assert forall i :: 0 <= i < |Digits(n)| ==> IsDigit(Digits(n)[i]);
  }

  lemma ParseRaw(f: FixField)
    requires f.Clean()
    ensures ParseField(Raw(f)) == Ok(f) && SOH !in Raw(f) && Raw(f) != []
  {
    var d := Digits(f.tag);
    DigitsArePlain(f.tag);
    AsciiIsUtf8(d + [EQUALS]);
    Utf8Concat(d + [EQUALS], f.value);
    FindEqualsAfter(d, f.value);
    assert Raw(f)[..|d|] == d && Raw(f)[|d| + 1..] == f.value;
    ParseDigits(f.tag, U32_MAX);
  }

  lemma FoldField(f: FixField, tail: seq<Byte>, st: ParseState)
    requires f.Clean() && f.tag != CHECK_SUM
    ensures Fold(Split(EncodeField(f) + tail), st) == Fold(Split(tail), Seen(st, [f]))
  {
    hide ParseField;
    ParseRaw(f);
    assert EncodeField(f) + tail == Raw(f) + [SOH] + tail;
    SplitConcat(Raw(f), tail);
    SplitWhole(Raw(f));
    assert EncodeFields([f]) == EncodeField(f);
    assert ([Raw(f)] + Split(tail))[1..] == Split(tail);
    assert Step(Raw(f), st) == Ok(Seen(st, [f]));
  }

  lemma {:induction false} FoldFields(fs: seq<FixField>, tail: seq<Byte>, st: ParseState)
    requires forall f :: f in fs ==> f.Clean() && f.tag != CHECK_SUM
    ensures Fold(Split(EncodeFields(fs) + tail), st) == Fold(Split(tail), Seen(st, fs))
    decreases |fs|
  {
    hide EncodeField, Fold, Split, FixField.Clean;
    if fs == [] {
      assert EncodeFields(fs) + tail == tail;
      assert st.fields + fs == st.fields;
    } else {
      var f := fs[0];
      var rest := EncodeFields(fs[1..]) + tail;
      assert EncodeFields(fs) + tail == EncodeField(f) + rest;
      FoldField(f, rest, st);
      FoldFields(fs[1..], tail, Seen(st, [f]));
      assert st.fields + [f] + fs[1..] == st.fields + fs;
      assert EncodeFields([f]) == EncodeField(f);
    }
  }

  /** A list of fields without a checksum is read back as it was written. */
  lemma ParsePlainFields(fs: seq<FixField>)
    requires |fs| > 0
    requires forall f :: f in fs ==> f.Clean() && f.tag != CHECK_SUM
    ensures Parsed(EncodeFields(fs)) == Ok(FixMessage(fs))
  {
    FoldFields(fs, [], START);
    assert EncodeFields(fs) + [] == EncodeFields(fs);
    FoldTrailingEmpty(Seen(START, fs));
    assert START.fields + fs == fs;
  }

  /** The empty segment after a terminal delimiter only moves the offset. */
  lemma FoldTrailingEmpty(st: ParseState)
    ensures Split([]) == [[]] && Fold(Split([]), st) == Ok(st.(offset := st.offset + 1))
  {
    var segs: seq<seq<Byte>> := Split([]);
    assert segs[1..] == [];
  }

  // ----- the intact frame -----------------------------------------------------

  function Trailer(digits: Text): FixField
  {
    FixField(CHECK_SUM, digits)
  }

  lemma TrailerClean(digits: Text)
    requires |digits| == 3 && AllDigits(digits)
    ensures Trailer(digits).Clean() && Raw(Trailer(digits)) == [49, 48, EQUALS] + digits
  {
    assert forall i :: 0 <= i < 3 ==> IsDigit(digits[i]);
    AsciiIsUtf8(digits);
    assert Digits(10) == Digits(1) + [48];
  }

  lemma CheckSumFieldShape(covered: seq<Byte>)
    ensures var d := CheckSumField(covered).value;
            |d| == 3 && AllDigits(d) && DigitsValue(d) == ByteSum(covered) % 256 && CheckSumField(covered) == Trailer(d)
  {
    ThreeDigitsRoundTrip(ByteSum(covered) % 256);
  }

  /** Reading a trailer records where it starts and the number it carries. */
  lemma StepTrailer(digits: Text, st: ParseState)
    requires |digits| == 3 && AllDigits(digits)
    ensures Step(Raw(Trailer(digits)), st) ==
            Ok(ParseState(st.fields + [Trailer(digits)], Some(st.offset), Some(DigitsValue(digits) % 256),
                          st.offset + |Raw(Trailer(digits))| + 1))
  {
    hide ParseField, Raw, DigitsValue, AllDigits;
    TrailerClean(digits);
    ParseRaw(Trailer(digits));
  }

  lemma SplitTrailer(digits: Text)
    requires |digits| == 3 && AllDigits(digits)
    ensures Split(EncodeField(Trailer(digits))) == [Raw(Trailer(digits)), []]
  {
    var f := Trailer(digits);
    TrailerClean(digits);
    ParseRaw(f);
    assert EncodeField(f) == Raw(f) + [SOH] + [];
    SplitConcat(Raw(f), []);
    SplitWhole(Raw(f));
  }

  lemma FoldPair(raw: seq<Byte>, st: ParseState)
    requires Step(raw, st).Ok?
    ensures Fold([raw, []], st) == Ok(Step(raw, st).value.(offset := Step(raw, st).value.offset + 1))
  {
    hide Step;
    var segs: seq<seq<Byte>> := [raw, []];
    FoldTrailingEmpty(Step(raw, st).value);
    assert segs[1..] == Split([]);
  }

  /** After any prefix that parses, the trailer and its terminal delimiter decide the checksum test. */
  lemma FoldTrailer(x: seq<Byte>, digits: Text)
    requires Fold(Split(x), START).Ok?
    requires |digits| == 3 && AllDigits(digits)
    ensures var f := Trailer(digits); var st := Fold(Split(x), START).value;
            Fold(Split(x + [SOH] + EncodeField(f)), START) ==
            Ok(ParseState(st.fields + [f], Some(|x| + 1), Some(DigitsValue(digits) % 256), |x| + |Raw(f)| + 3))
  {
    hide Step, Fold, Split, EncodeField, Raw, DigitsValue, AllDigits;
    var f := Trailer(digits);
    var st := Fold(Split(x), START).value;
    FoldOffsets(x, START);
    SplitConcat(x, EncodeField(f));
    FoldConcat(Split(x), Split(EncodeField(f)), START);
    SplitTrailer(digits);
    StepTrailer(digits, st);
    FoldPair(Raw(f), st);
  }

  /** A frame ending in a trailer is refused when its digits are not the byte sum of what precedes it. */
  lemma WrongSumRejected(x: seq<Byte>, digits: Text)
    requires |digits| == 3 && AllDigits(digits) && DigitsValue(digits) % 256 != ByteSum(x + [SOH]) % 256
    ensures Parsed(x + [SOH] + EncodeField(Trailer(digits))).Err?
  {
    hide Fold, Split, ByteSum, EncodeField, AllDigits, DigitsValue;
    var f := Trailer(digits);
    var input := x + [SOH] + EncodeField(f);
    if Fold(Split(x), START).Ok? {
      FoldTrailer(x, digits);
      assert input[..|x| + 1] == x + [SOH];
    } else {
      SplitConcat(x, EncodeField(f));
      FoldConcat(Split(x), Split(EncodeField(f)), START);
    }
  }

  lemma CoveredClean(m: FixMessage)
    requires Framable(m)
    ensures forall f :: f in Covered(m) ==> f.Clean() && f.tag != CHECK_SUM
  {
    var n := |EncodeFields(Body(m))|;
    DigitsArePlain(n);
    AsciiIsUtf8(Digits(n));
  }

  /** The covered bytes end with a delimiter. */
  lemma CoveredEnds(m: FixMessage)
    ensures var head := EncodeFields(Covered(m));
            |head| > 0 && head[|head| - 1] == SOH && head == head[..|head| - 1] + [SOH]
  {
    var c := Covered(m);
    assert c == c[..|c| - 1] + [c[|c| - 1]];
    EncodeSnoc(c[..|c| - 1], c[|c| - 1]);
  }

  lemma RoundTripFramable(m: FixMessage)
    requires Framable(m)
    ensures Parsed(Wire(m)) == Ok(Framed(m))
  {
    hide EncodeField, EncodeFields, Covered, Split, Fold, ByteSum;
    CoveredEnds(m);
    var head := EncodeFields(Covered(m));
    var x := head[..|head| - 1];
    CoveredClean(m);
    FoldHeadOf(m);
    CheckSumFieldShape(head);
    FoldTrailer(x, CheckSumField(head).value);
    assert Wire(m) == x + [SOH] + EncodeField(CheckSumField(head));
    assert Wire(m)[..|x| + 1] == head;
  }

  /** The covered part, read up to its last delimiter, yields the covered fields. */
  lemma FoldHeadOf(m: FixMessage)
    requires Framable(m)
    ensures var head := EncodeFields(Covered(m));
            |head| > 0 && Fold(Split(head[..|head| - 1]), START).Ok? &&
            Fold(Split(head[..|head| - 1]), START).value.fields == Covered(m)
  {
    hide EncodeField, Covered, Split, Step;
    CoveredEnds(m);
    var head := EncodeFields(Covered(m));
    var x := head[..|head| - 1];
    CoveredClean(m);
    FoldFields(Covered(m), [], START);
    assert head + [] == head == x + [SOH] + [];
    FoldTrailingEmpty(Seen(START, Covered(m)));
    SplitConcat(x, []);
    FoldConcat(Split(x), Split([]), START);
    FoldTrailingEmpty(Fold(Split(x), START).value);
  }

  // ----- the round trip, exactly ----------------------------------------------

  lemma {:induction false} FoldClean(segs: seq<seq<Byte>>, st: ParseState)
    requires forall i :: 0 <= i < |segs| ==> SOH !in segs[i]
    requires forall f :: f in st.fields ==> f.Clean()
    requires Fold(segs, st).Ok?
    ensures forall f :: f in Fold(segs, st).value.fields ==> f.Clean()
    decreases |segs|
  {
    hide ParseUnsigned, AllDigits, DigitsValue, ValidUtf8;
    if segs != [] {
      FoldClean(segs[1..], Step(segs[0], st).value);
    }
  }

  /** Whatever the input, a parsed message holds only framable fields. */
  lemma ParsedIsClean(input: seq<Byte>)
    requires Parsed(input).Ok?
    ensures forall f :: f in Parsed(input).value.fields ==> f.Clean()
  {
    hide Fold, Split;
    forall i | 0 <= i < |Split(input)| ensures SOH !in Split(input)[i] {
      SegmentsHoldNoDelimiter(input, i);
    }
    FoldClean(Split(input), START);
  }

  lemma {:induction false} FirstValueIsField(fields: seq<FixField>, tag: nat)
    requires FirstValue(fields, tag).Some?
    ensures FixField(tag, FirstValue(fields, tag).value) in fields
  {
    if fields[0].tag != tag {
      FirstValueIsField(fields[1..], tag);
    }
  }

  lemma EmittedValid(m: FixMessage)
    requires forall f :: f in m.fields ==> f.Valid()
    ensures Begin(m).Valid() && forall f :: f in Body(m) ==> f.Valid()
  {
    hide ValidUtf8, FirstValue;
    if m.Get(BEGIN_STRING).Some? {
      FirstValueIsField(m.fields, BEGIN_STRING);
    } else {
      AsciiIsUtf8(DEFAULT_BEGIN_STRING);
    }
    if m.Get(MSG_TYPE).Some? {
      FirstValueIsField(m.fields, MSG_TYPE);
    } else {
      AsciiIsUtf8([]);
    }
  }

  /** A message survives the wire exactly when no emitted value contains the delimiter. */
  lemma RoundTrip(m: FixMessage)
    requires forall f :: f in m.fields ==> f.Valid()
    ensures Parsed(Wire(m)) == Ok(Framed(m)) <==> Framable(m)
  {
    if Framable(m) {
      RoundTripFramable(m);
    }
    if Parsed(Wire(m)) == Ok(Framed(m)) {
      hide Parsed, Wire, ValidUtf8, EncodeFields;
      EmittedValid(m);
      ParsedIsClean(Wire(m));
      assert Begin(m) in Framed(m).fields;
      assert forall f :: f in Body(m) ==> f in Framed(m).fields;
    }
  }

  lemma {:induction false} CarriedConcat(a: seq<FixField>, b: seq<FixField>)
    ensures Carried(a + b) == Carried(a) + Carried(b)
  {
    hide IsFraming;
    if a == [] {
      assert a + b == b;
    } else {
      CarriedConcat(a[1..], b);
      assert (a + b)[1..] == a[1..] + b;
    }
  }

  lemma {:induction false} CarriedStable(a: seq<FixField>)
    requires forall f :: f in a ==> !IsFraming(f.tag)
    ensures Carried(a) == a
  {
    if a != [] {
      CarriedStable(a[1..]);
      assert a == [a[0]] + a[1..];
    }
  }

  lemma {:induction false} CarriedNone(a: seq<FixField>)
    requires forall f :: f in a ==> IsFraming(f.tag)
    ensures Carried(a) == []
  {
    if a != [] {
      CarriedNone(a[1..]);
    }
  }

  /** The four framing fields wrap exactly the carried ones. */
  lemma FramedShape(m: FixMessage)
    ensures Framed(m).fields == Covered(m)[..3] + Carried(m.fields) + [CheckSumField(EncodeFields(Covered(m)))]
    ensures Carried(Framed(m).fields) == Carried(m.fields)
  {
    hide CheckSumField, EncodeFields, Carried, FirstValue;
    var front := Covered(m)[..3];
    var back := [CheckSumField(EncodeFields(Covered(m)))];
    assert Covered(m) == front + Carried(m.fields);
    CarriedConcat(front + Carried(m.fields), back);
    CarriedConcat(front, Carried(m.fields));
    CarriedStable(Carried(m.fields));
    CarriedNone(front);
    CheckSumFieldShape(EncodeFields(Covered(m)));
    CarriedNone(back);
  }

  /** Encoding what was parsed gives the same bytes again. */
  lemma Reencode(m: FixMessage)
    ensures Wire(Framed(m)) == Wire(m)
  {
    hide Carried, EncodeFields, CheckSumField, Digits;
    FramedShape(m);
    var fs := Framed(m).fields;
    assert fs[0] == Begin(m) && fs[1].tag == BODY_LENGTH && fs[2] == Body(m)[0];
    assert Framed(m).Get(BEGIN_STRING) == Some(Begin(m).value);
    assert fs[1..][1..] == fs[2..];
    assert Framed(m).Get(MSG_TYPE) == Some(Body(m)[0].value) by {
      assert FirstValue(fs, MSG_TYPE) == FirstValue(fs[1..], MSG_TYPE) == FirstValue(fs[2..], MSG_TYPE);
    }
    assert Body(Framed(m)) == Body(m);
  }

  lemma {:induction false} FirstValueConcat(a: seq<FixField>, b: seq<FixField>, tag: nat)
    ensures FirstValue(a + b, tag) == if FirstValue(a, tag).Some? then FirstValue(a, tag) else FirstValue(b, tag)
  {
    if a == [] {
      assert a + b == b;
    } else {
      FirstValueConcat(a[1..], b, tag);
      assert (a + b)[1..] == a[1..] + b;
    }
  }

  lemma {:induction false} FirstValueCarried(fields: seq<FixField>, tag: nat)
    requires !IsFraming(tag)
    ensures FirstValue(Carried(fields), tag) == FirstValue(fields, tag)
  {
    if fields != [] {
      FirstValueCarried(fields[1..], tag);
      if !IsFraming(fields[0].tag) {
        FirstValueConcat([fields[0]], Carried(fields[1..]), tag);
      }
    }
  }

  /** What the session layer reads of a framed message is what was put in. */
  lemma FramedGet(m: FixMessage, tag: nat)
    requires !IsFraming(tag)
    ensures Framed(m).Get(tag) == m.Get(tag)
  {
    hide Carried, EncodeFields, CheckSumField, FirstValue;
    FramedShape(m);
    var front := Covered(m)[..3];
    var back := [CheckSumField(EncodeFields(Covered(m)))];
    CheckSumFieldShape(EncodeFields(Covered(m)));
    FirstValueConcat(front + Carried(m.fields), back, tag);
    FirstValueConcat(front, Carried(m.fields), tag);
    FirstValueCarried(m.fields, tag);
    FirstValueAbsent(front, tag);
    FirstValueAbsent(back, tag);
  }

  lemma {:induction false} FirstValueAbsent(fields: seq<FixField>, tag: nat)
    requires forall f :: f in fields ==> f.tag != tag
    ensures FirstValue(fields, tag).None?
  {
    if fields != [] {
      FirstValueAbsent(fields[1..], tag);
    }
  }

  /** The three header fields: begin string, body byte count, message type. */
  lemma FramedHeader(m: FixMessage)
    ensures Framed(m).Get(BEGIN_STRING) == Some(Begin(m).value)
    ensures Framed(m).Get(BODY_LENGTH) == Some(Digits(|EncodeFields(Body(m))|))
    ensures Framed(m).Get(MSG_TYPE) == Some(ValueOr(m.Get(MSG_TYPE), []))
  {
    hide Carried, EncodeFields, CheckSumField, Digits;
    var fs := Framed(m).fields;
    assert fs[0] == Begin(m) && fs[1].tag == BODY_LENGTH && fs[2] == Body(m)[0];
    assert fs[1..][1..] == fs[2..];
    assert FirstValue(fs, BODY_LENGTH) == FirstValue(fs[1..], BODY_LENGTH);
    assert FirstValue(fs, MSG_TYPE) == FirstValue(fs[1..], MSG_TYPE) == FirstValue(fs[2..], MSG_TYPE);
  }
}

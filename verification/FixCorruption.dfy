/**
 * A frame with one byte replaced. The byte sum protects everything up to the delimiter in front of
 * the trailer and the trailer's own digits, but that delimiter and the two digits of the tag `10`
 * can change so that no checksum field is left to test.
 */
module FixCorruption {
  import opened Prelude
  import opened FixDecimal
  import opened FixUtf8
  import opened FixMessage
  import opened FixCodec
  import opened FixCodecLaws

  /** Number of bytes the checksum covers: the trailer starts here. */
  function TrailerAt(m: FixMessage): nat
  {
    |EncodeFields(Covered(m))|
  }

  lemma {:induction false} ByteSumReplace(s: seq<Byte>, i: nat, b: Byte)
    requires i < |s|
    ensures ByteSum(s[i := b]) == ByteSum(s) - s[i] + b
  {
    var n := |s| - 1;
    if i < n {
      ByteSumReplace(s[..n], i, b);
      assert s[i := b][..n] == s[..n][i := b];
    } else {
      assert s[i := b][..n] == s[..n];
    }
  }

  lemma WireLayout(m: FixMessage)
    ensures var n := TrailerAt(m); var w := Wire(m); var d := CheckSumField(w[..n]).value;
            n > 0 && |d| == 3 && |w| == n + 7 && w[n - 1] == SOH &&
            w == w[..n] + [49, 48, EQUALS] + d + [SOH]
    ensures Wire(m)[..TrailerAt(m)] == EncodeFields(Covered(m))
  {
    hide CheckSumField, EncodeFields, Covered;
    CoveredEnds(m);
    CheckSumFieldShape(EncodeFields(Covered(m)));
    TrailerClean(CheckSumField(EncodeFields(Covered(m))).value);
  }

  // ----- before the trailer ---------------------------------------------------

  lemma BodyByteProtected(m: FixMessage, i: nat, b: Byte)
    requires i < TrailerAt(m) - 1 && b != Wire(m)[i]
    ensures Parsed(Wire(m)[i := b]).Err?
  {
    hide ByteSum, EncodeField, Parsed, CheckSumField, Covered;
    CoveredEnds(m);
    var head := EncodeFields(Covered(m));
    var x := head[..|head| - 1][i := b];
    ByteSumReplace(head, i, b);
    assert x + [SOH] == head[i := b];
    CheckSumFieldShape(head);
    WrongSumRejected(x, CheckSumField(head).value);
    assert Wire(m)[i := b] == x + [SOH] + EncodeField(CheckSumField(head));
  }

  // ----- inside the trailer ---------------------------------------------------

  /** A refused first segment after an arbitrary prefix refuses the frame. */
  lemma BadSegmentRejected(x: seq<Byte>, seg: seq<Byte>, tail: seq<Byte>)
    requires SOH !in seg && forall st :: Step(seg, st).Err?
    ensures Parsed(x + [SOH] + (seg + [SOH] + tail)).Err?
  {
    hide Split, Step, Finish;
    SplitConcat(x, seg + [SOH] + tail);
    SplitConcat(seg, tail);
    SplitWhole(seg);
    FoldConcat(Split(x), [seg] + Split(tail), START);
  }

  lemma BadLastSegmentRejected(x: seq<Byte>, seg: seq<Byte>)
    requires SOH !in seg && forall st :: Step(seg, st).Err?
    ensures Parsed(x + [SOH] + seg).Err?
  {
    hide Split, Step, Finish;
    SplitConcat(x, seg);
    SplitWhole(seg);
    FoldConcat(Split(x), [seg], START);
  }

  /** No '=' means no field. */
  lemma NoEqualsRefused(seg: seq<Byte>, st: ParseState)
    requires seg != [] && EQUALS !in seg
    ensures Step(seg, st).Err?
  {
    hide ValidUtf8, ParseUnsigned;
    assert FindEquals(seg) == |seg|;
  }

  /** A tag-10 field whose value is not three digits is refused. */
  lemma BadDigitsRefused(v: seq<Byte>, st: ParseState)
    requires |v| != 3 || !AllDigits(v)
    ensures Step([49, 48, EQUALS] + v, st).Err?
  {
    hide ValidUtf8, AllDigits, ParseUnsigned;
    var raw := [49, 48, EQUALS] + v;
    FindEqualsAfter([49, 48], v);
    assert raw == [49, 48] + [EQUALS] + v;
    assert raw[..2] == [49, 48] && raw[3..] == v;
    assert Digits(10) == Digits(1) + [48] == [49, 48];
    ParseDigits(10, U32_MAX);
  }

  /** The replaced '=' leaves a segment without one, whatever the new byte is. */
  /** A byte of the trailer changed, with what is in front of it left alone. */
  lemma TrailerChanged(m: FixMessage, j: nat, b: Byte) returns (x: seq<Byte>, d: seq<Byte>)
    requires j < 7
    ensures var n, w := TrailerAt(m), Wire(m);
            n > 0 && |w| == n + 7 && d == CheckSumField(x + [SOH]).value && |d| == 3 &&
            w[n + j := b] == x + [SOH] + ([49, 48, EQUALS] + d + [SOH])[j := b] &&
            w[n + j] == ([49, 48, EQUALS] + d + [SOH])[j]
  {
    hide *;
    WireLayout(m);
    var n, w := TrailerAt(m), Wire(m);
    x, d := w[..n - 1], CheckSumField(w[..n]).value;
    FrontEnds(w, n);
    TailChanged(w, x + [SOH], d, j, b);
  }

  lemma FrontEnds(w: seq<Byte>, n: nat)
    requires 0 < n <= |w| && w[n - 1] == SOH
    ensures w[..n] == w[..n - 1] + [SOH]
  {}

  lemma TailChanged(w: seq<Byte>, front: seq<Byte>, d: seq<Byte>, j: nat, b: Byte)
    requires w == front + [49, 48, EQUALS] + d + [SOH] && |d| == 3 && j < 7
    ensures var n, t := |front|, [49, 48, EQUALS] + d + [SOH];
            |w| == n + 7 && w[n + j := b] == front + t[j := b] && w[n + j] == t[j]
  {
    var t := [49, 48, EQUALS] + d + [SOH];
    assert w == front + t;
  }

  lemma EqualsProtected(m: FixMessage, b: Byte)
    requires b != EQUALS
    ensures Parsed(Wire(m)[TrailerAt(m) + 2 := b]).Err?
  {
    hide Parsed, Step, Wire, CheckSumField, TrailerAt;
    var x, d := TrailerChanged(m, 2, b);
    CheckSumFieldShape(x + [SOH]);
    if b == SOH {
      var seg: seq<Byte> := [49, 48];
      forall st ensures Step(seg, st).Err? { NoEqualsRefused(seg, st); }
      BadSegmentRejected(x, seg, d + [SOH]);
      assert ([49, 48, EQUALS] + d + [SOH])[2 := b] == seg + [SOH] + (d + [SOH]);
    } else {
      EqualsReplaced(x, d, b);
    }
  }

  lemma EqualsReplaced(x: seq<Byte>, d: seq<Byte>, b: Byte)
    requires |d| == 3 && AllDigits(d) && b != EQUALS && b != SOH
    ensures Parsed(x + [SOH] + ([49, 48, EQUALS] + d + [SOH])[2 := b]).Err?
  {
    hide Parsed, Step;
    var seg := [49, 48, b] + d;
    assert forall k :: 0 <= k < 3 ==> IsDigit(d[k]);
    forall st ensures Step(seg, st).Err? { NoEqualsRefused(seg, st); }
    BadSegmentRejected(x, seg, []);
    assert ([49, 48, EQUALS] + d + [SOH])[2 := b] == seg + [SOH] + [];
  }

  /** A shift by one to nine units, tens or hundreds is never a multiple of 256. */
  lemma ShiftChangesResidue(v: nat, unit: nat, k: int)
    requires v < 256 && (unit == 1 || unit == 10 || unit == 100) && -9 <= k <= 9 && k != 0 && v + unit * k >= 0
    ensures (v + unit * k) % 256 != v
  {
    var q := (v + unit * k) / 256;
    assert -5 < q < 5;
    if unit == 1 {
    } else if unit == 10 {
      assert 10 * k != 256 * q;
    } else {
      assert 100 * k != 256 * q;
    }
  }

  /** Changing one of three digits never keeps the number modulo 256. */
  lemma DigitChangesSum(d: seq<Byte>, k: nat, b: Byte)
    requires |d| == 3 && k < 3 && AllDigits(d) && IsDigit(b) && b != d[k] && DigitsValue(d) < 256
    ensures AllDigits(d[k := b]) && DigitsValue(d[k := b]) % 256 != DigitsValue(d)
  {
    hide DigitsValue;
    var e := d[k := b];
    AllDigitsAt(d, 0); AllDigitsAt(d, 1); AllDigitsAt(d, 2);
    ThreeDigitsValue(d);
    ThreeDigitsValue(e);
    var unit := if k == 0 then 100 else if k == 1 then 10 else 1;
    ShiftChangesResidue(DigitsValue(d), unit, b as int - d[k] as int);
  }

  lemma DigitProtected(m: FixMessage, k: nat, b: Byte)
    requires k < 3 && b != Wire(m)[TrailerAt(m) + 3 + k]
    ensures Parsed(Wire(m)[TrailerAt(m) + 3 + k := b]).Err?
  {
    hide Parsed, Wire, CheckSumField, DigitsValue, AllDigits, ByteSum, TrailerAt;
    var x, d := TrailerChanged(m, 3 + k, b);
    CheckSumFieldShape(x + [SOH]);
    assert ([49, 48, EQUALS] + d + [SOH])[3 + k := b] == [49, 48, EQUALS] + d[k := b] + [SOH];
    if b == SOH {
      DigitToDelimiter(x, d, k);
    } else if AllDigits(d[k := b]) {
      AllDigitsAt(d[k := b], k);
      DigitChangesSum(d, k, b);
      TrailerClean(d[k := b]);
      WrongSumRejected(x, d[k := b]);
    } else {
      DigitToOther(x, d, k, b);
    }
  }

  lemma DigitToDelimiter(x: seq<Byte>, d: seq<Byte>, k: nat)
    requires k < |d| == 3 && AllDigits(d)
    ensures Parsed(x + [SOH] + ([49, 48, EQUALS] + d[k := SOH] + [SOH])).Err?
  {
    hide Parsed, Step, AllDigits;
    TrailerClean(d);
    var seg := [49, 48, EQUALS] + d[..k];
    forall st ensures Step(seg, st).Err? { BadDigitsRefused(d[..k], st); }
    BadSegmentRejected(x, seg, d[k + 1..] + [SOH]);
    assert [49, 48, EQUALS] + d[k := SOH] + [SOH] == seg + [SOH] + (d[k + 1..] + [SOH]);
  }

  lemma DigitToOther(x: seq<Byte>, d: seq<Byte>, k: nat, b: Byte)
    requires k < |d| == 3 && AllDigits(d) && b != SOH && !AllDigits(d[k := b])
    ensures Parsed(x + [SOH] + ([49, 48, EQUALS] + d[k := b] + [SOH])).Err?
  {
    hide Parsed, Step, AllDigits;
    TrailerClean(d);
    var seg := [49, 48, EQUALS] + d[k := b];
    forall st ensures Step(seg, st).Err? { BadDigitsRefused(d[k := b], st); }
    BadSegmentRejected(x, seg, []);
    assert seg + [SOH] + [] == seg + [SOH];
  }

  lemma AllDigitsAt(s: seq<Byte>, k: nat)
    requires AllDigits(s) && k < |s|
    ensures IsDigit(s[k])
  {
  }

  /** Without the terminal delimiter the checksum value is four bytes long. */
  lemma EndProtected(m: FixMessage, b: Byte)
    requires b != SOH
    ensures Parsed(Wire(m)[TrailerAt(m) + 6 := b]).Err?
  {
    hide Parsed, Step, Wire, CheckSumField, DigitsValue, AllDigits, ByteSum, TrailerAt;
    var x, d := TrailerChanged(m, 6, b);
    CheckSumFieldShape(x + [SOH]);
    assert SOH !in d by { TrailerClean(d); }
    var seg := [49, 48, EQUALS] + (d + [b]);
    forall st ensures Step(seg, st).Err? { BadDigitsRefused(d + [b], st); }
    BadLastSegmentRejected(x, seg);
    assert ([49, 48, EQUALS] + d + [SOH])[6 := b] == seg;
  }

  // ----- the three unprotected positions --------------------------------------

  /** Replacing the delimiter glues the trailer to the last covered field. */
  lemma DelimiterLost(m: FixMessage)
    requires Framable(m)
    ensures Parsed(Wire(m)[TrailerAt(m) - 1 := 88]).Ok?
  {
    hide Parsed, CheckSumField, Covered, ValidUtf8, EncodeFields;
    CoveredClean(m);
    CoveredEnds(m);
    var c, head := Covered(m), EncodeFields(Covered(m));
    assert |c| > 0 by { CoveredNonEmpty(m); }
    var front, last := c[..|c| - 1], c[|c| - 1];
    var d := CheckSumField(head).value;
    CheckSumFieldShape(head);
    TrailerClean(d);
    var glued := FixField(last.tag, last.value + ([88, 49, 48, EQUALS] + d));
    GluedClean(last, d);
    assert c == front + [last];
    EncodeSnoc(front, last);
    EncodeSnoc(front, glued);
    ParsePlainFields(front + [glued]);
    assert Wire(m)[|head| - 1 := 88] == EncodeFields(front + [glued]);
  }

  lemma CoveredNonEmpty(m: FixMessage)
    ensures |Covered(m)| > 2
  {
  }

  lemma GluedClean(f: FixField, d: seq<Byte>)
    requires f.Clean() && |d| == 3 && AllDigits(d)
    ensures FixField(f.tag, f.value + ([88, 49, 48, EQUALS] + d)).Clean()
  {
    TrailerClean(d);
    assert forall i :: 0 <= i < 3 ==> IsDigit(d[i]);
    AsciiIsUtf8([88, 49, 48, EQUALS] + d);
    Utf8Concat(f.value, [88, 49, 48, EQUALS] + d);
  }

  /** With another tag on the trailer no checksum field is left, and the frame is accepted. */
  lemma OtherTagAccepted(m: FixMessage, tag: nat)
    requires Framable(m) && tag != CHECK_SUM && tag <= U32_MAX
    ensures var head := EncodeFields(Covered(m));
            Parsed(head + EncodeField(FixField(tag, CheckSumField(head).value))).Ok?
  {
    hide Parsed, CheckSumField, Covered, ValidUtf8, EncodeFields, EncodeField;
    CoveredClean(m);
    var head := EncodeFields(Covered(m));
    var f := FixField(tag, CheckSumField(head).value);
    CheckSumFieldShape(head);
    TrailerClean(f.value);
    EncodeSnoc(Covered(m), f);
    ParsePlainFields(Covered(m) + [f]);
  }

  /** Replacing the first digit of the tag turns 10 into 20, the second into 11. */
  lemma TagLost(m: FixMessage)
    requires Framable(m)
    ensures Parsed(Wire(m)[TrailerAt(m) := 50]).Ok? && Parsed(Wire(m)[TrailerAt(m) + 1 := 49]).Ok?
  {
    hide Parsed, CheckSumField, Covered, EncodeFields;
    var n, head := TrailerAt(m), EncodeFields(Covered(m));
    var d := CheckSumField(head).value;
    CheckSumFieldShape(head);
    TrailerClean(d);
    OtherTagAccepted(m, 20);
    OtherTagAccepted(m, 11);
    assert Digits(20) == Digits(2) + [48] == [50, 48];
    assert Digits(11) == Digits(1) + [49] == [49, 49];
    assert Wire(m) == head + ([49, 48, EQUALS] + d + [SOH]);
    assert Wire(m)[n := 50] == head + EncodeField(FixField(20, d));
    assert Wire(m)[n + 1 := 49] == head + EncodeField(FixField(11, d));
  }

  // ----- the exact answer -----------------------------------------------------

  predicate Protected(m: FixMessage, i: nat)
    requires i < |Wire(m)|
  {
    forall b: Byte | b != Wire(m)[i] :: RefusedWith(Wire(m), i, b)
  }

  predicate RefusedWith(w: seq<Byte>, i: nat, b: Byte)
    requires i < |w|
  {
    Parsed(w[i := b]).Err?
  }

  /** Every single-byte change is refused outside the three positions, for any message at all. */
  lemma SingleByteRejected(m: FixMessage, i: nat, b: Byte)
    requires i < |Wire(m)| && b != Wire(m)[i]
    requires i < TrailerAt(m) - 1 || i >= TrailerAt(m) + 2
    ensures Parsed(Wire(m)[i := b]).Err?
  {
    hide Parsed, Wire, CheckSumField;
    WireLayout(m);
    var n := TrailerAt(m);
    if i < n - 1 {
      BodyByteProtected(m, i, b);
    } else if i == n + 2 {
      EqualsProtected(m, b);
    } else if i < n + 6 {
      DigitProtected(m, i - n - 3, b);
    } else {
      EndProtected(m, b);
    }
  }

  lemma ProtectedPositions(m: FixMessage, i: nat)
    requires Framable(m) && i < |Wire(m)|
    ensures Protected(m, i) <==> (i < TrailerAt(m) - 1 || i >= TrailerAt(m) + 2)
  {
    hide Parsed, Wire, CheckSumField;
    WireLayout(m);
    var n, w := TrailerAt(m), Wire(m);
    if i < n - 1 || i >= n + 2 {
      forall b: Byte | b != w[i] ensures RefusedWith(w, i, b) {
        SingleByteRejected(m, i, b);
      }
    } else if i == n - 1 {
      DelimiterLost(m);
      assert !RefusedWith(w, i, 88);
    } else if i == n {
      TagLost(m);
      assert !RefusedWith(w, i, 50);
    } else {
      TagLost(m);
      assert !RefusedWith(w, i, 49);
    }
  }
}

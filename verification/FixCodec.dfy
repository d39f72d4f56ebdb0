/** The encoder and the parser as loops, and the laws that tie one to the other. */
module FixCodec {
  import opened Prelude
  import opened FixDecimal
  import opened FixMessage

  // ----- the loops ------------------------------------------------------------

  /** The sum in a 32-bit accumulator that wraps around, as in a release build. */
  method SumOfBytes(s: seq<Byte>) returns (sum: nat)
    ensures sum == ByteSum(s) % TWO_32
    ensures sum % 256 == ByteSum(s) % 256
  {
    sum := 0;
    for i := 0 to |s|
      invariant sum == ByteSum(s[..i]) % TWO_32
    {
      assert s[..i + 1][..i] == s[..i];
      WrapAdds(ByteSum(s[..i]), s[i]);
      sum := (sum + s[i]) % TWO_32;
    }
    assert s[..|s|] == s;
    WrapKeepsLowByte(ByteSum(s));
  }

  lemma WrapAdds(x: nat, y: nat)
    ensures (x % TWO_32 + y) % TWO_32 == (x + y) % TWO_32
  {
    var q := x / TWO_32;
    var r := x % TWO_32 + y;
    RemainderIsUnique(x + y, TWO_32, q + r / TWO_32, r % TWO_32);
  }

  /** Wrapping at 32 bits does not reach the last byte. */
  lemma WrapKeepsLowByte(x: nat)
    ensures x % TWO_32 % 256 == x % 256
  {
    var r := x % TWO_32;
    RemainderIsUnique(x, 256, x / TWO_32 * 0x100_0000 + r / 256, r % 256);
  }

  method EncodeCarried(fields: seq<FixField>) returns (out: seq<Byte>)
    ensures out == EncodeFields(Carried(fields))
  {
    out := [];
    for i := 0 to |fields|
      invariant out == EncodeFields(Carried(fields[..i]))
    {
      EncodeCarriedSnoc(fields[..i], fields[i]);
      assert fields[..i + 1] == fields[..i] + [fields[i]];
      if !IsFraming(fields[i].tag) {
        out := out + EncodeField(fields[i]);
      }
    }
    assert fields[..|fields|] == fields;
  }

  method ToWire(m: FixMessage) returns (out: seq<Byte>)
    ensures out == Wire(m)
  {
    var carried := EncodeCarried(m.fields);
    var body := EncodeField(Body(m)[0]) + carried;
    assert Body(m)[1..] == Carried(m.fields);
    out := EncodeField(Begin(m)) + EncodeField(FixField(BODY_LENGTH, Digits(|body|))) + body;
    EncodeTwo(Begin(m), FixField(BODY_LENGTH, Digits(|body|)), Body(m));
    var sum := SumOfBytes(out);
    out := out + EncodeField(FixField(CHECK_SUM, ThreeDigits(sum % 256)));
  }

  method Parse(input: seq<Byte>) returns (r: Result<FixMessage, FixParseError>)
    ensures r == Parsed(input)
  {
    if input == [] {
      return Err(Empty);
    }
    hide Step, Split, Fold;
    var segs := Split(input);
    var st := START;
    assert segs[0..] == segs;
    for i := 0 to |segs|
      invariant Fold(segs, START) == Fold(segs[i..], st)
    {
      FoldHead(segs, i, st);
      var next := TakeSegment(segs[i], st);
      if next.Err? {
        return Err(next.error);
      }
      st := next.value;
    }
    FoldNone(segs, st);
    FoldOffsets(input, START);
    r := VerifyCheckSum(input, st);
  }

  /** The body of the parser's loop. */
  method TakeSegment(raw: seq<Byte>, st: ParseState) returns (r: Result<ParseState, FixParseError>)
    ensures r == Step(raw, st)
  {
    hide ParseField, AllDigits, DigitsValue;
    if raw == [] {
      return Ok(st.(offset := st.offset + 1));
    }
    var field := ParseField(raw);
    if field.Err? {
      return Err(field.error);
    }
    var f := field.value;
    var boundary, found := st.boundary, st.found;
    if f.tag == CHECK_SUM {
      if |f.value| != 3 || !AllDigits(f.value) {
        return Err(InvalidCheckSum(f.value));
      }
      boundary := Some(st.offset);
      found := Some(DigitsValue(f.value) % 256);
    }
    return Ok(ParseState(st.fields + [f], boundary, found, st.offset + |raw| + 1));
  }

  /** The part of the parser after its loop. */
  method VerifyCheckSum(input: seq<Byte>, st: ParseState) returns (r: Result<FixMessage, FixParseError>)
    requires st.boundary.Some? ==> st.boundary.value <= |input|
    ensures r == Finish(input, st)
  {
    if st.fields == [] {
      return Err(Empty);
    }
    if st.boundary.Some? && st.found.Some? {
      var sum := SumOfBytes(input[..st.boundary.value]);
      var computed: Byte := sum % 256;
      if computed != st.found.value {
        return Err(ChecksumMismatch(computed, st.found.value));
      }
    }
    return Ok(FixMessage(st.fields));
  }

  lemma FoldNone(segs: seq<seq<Byte>>, st: ParseState)
    ensures Fold(segs[|segs|..], st) == Ok(st)
  {
  }

  lemma FoldHead(segs: seq<seq<Byte>>, i: nat, st: ParseState)
    requires i < |segs|
    ensures Fold(segs[i..], st) ==
            match Step(segs[i], st) { case Err(e) => Err(e) case Ok(next) => Fold(segs[i + 1..], next) }
  {
    assert segs[i..][1..] == segs[i + 1..];
  }

  // ----- encoder helpers ------------------------------------------------------

  lemma EncodeNone()
    ensures EncodeFields([]) == []
  {
  }

  lemma EncodeHead(fs: seq<FixField>)
    requires fs != []
    ensures EncodeFields(fs) == EncodeField(fs[0]) + EncodeFields(fs[1..])
  {
  }

  lemma {:induction false} EncodeConcat(a: seq<FixField>, b: seq<FixField>)
    ensures EncodeFields(a + b) == EncodeFields(a) + EncodeFields(b)
  {
    hide EncodeField, EncodeFields;
    if a == [] {
      assert a + b == b;
      EncodeNone();
    } else {
      EncodeConcat(a[1..], b);
      assert (a + b)[1..] == a[1..] + b;
      EncodeHead(a);
      EncodeHead(a + b);
      assert EncodeField(a[0]) + (EncodeFields(a[1..]) + EncodeFields(b)) ==
             EncodeField(a[0]) + EncodeFields(a[1..]) + EncodeFields(b);
    }
  }

  lemma EncodeSnoc(fs: seq<FixField>, f: FixField)
    ensures EncodeFields(fs + [f]) == EncodeFields(fs) + EncodeField(f)
  {
    EncodeConcat(fs, [f]);
    assert EncodeFields([f]) == EncodeField(f);
  }

  lemma EncodeCarriedSnoc(fs: seq<FixField>, f: FixField)
    ensures EncodeFields(Carried(fs + [f])) ==
            EncodeFields(Carried(fs)) + if IsFraming(f.tag) then [] else EncodeField(f)
  {
    hide EncodeField, EncodeFields;
    CarriedSnoc(fs, f);
    if !IsFraming(f.tag) {
      EncodeSnoc(Carried(fs), f);
    } else {
      assert Carried(fs + [f]) == Carried(fs);
    }
  }

  lemma EncodeTwo(f: FixField, g: FixField, rest: seq<FixField>)
    ensures EncodeFields([f, g] + rest) == EncodeField(f) + EncodeField(g) + EncodeFields(rest)
  {
    hide EncodeField;
    var all := [f, g] + rest;
    assert all[1..] == [g] + rest && all[1..][1..] == rest;
    assert EncodeFields(all) == EncodeField(f) + EncodeFields(all[1..]);
    assert EncodeFields(all[1..]) == EncodeField(g) + EncodeFields(rest);
  }

  lemma {:induction false} CarriedSnoc(fs: seq<FixField>, f: FixField)
    ensures Carried(fs + [f]) == Carried(fs) + if IsFraming(f.tag) then [] else [f]
  {
    if fs != [] {
      CarriedSnoc(fs[1..], f);
      assert (fs + [f])[1..] == fs[1..] + [f];
    }
  }
}

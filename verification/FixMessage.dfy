/** The FIX message value, its wire encoding and the frame parser. */
module FixMessage {
  import opened Prelude
  import opened FixDecimal
  import opened FixUtf8

  const SOH: Byte := 1
  const EQUALS: Byte := 61

  const BEGIN_STRING: nat := 8
  const BODY_LENGTH: nat := 9
  const CHECK_SUM: nat := 10
  const MSG_TYPE: nat := 35

  const DEFAULT_BEGIN_STRING: seq<Byte> := [70, 73, 88, 46, 52, 46, 52]  // "FIX.4.4"

  type Text = seq<Byte>

  /** A `tag=value` pair; `Valid` holds what the Rust types `u32` and `String` guarantee. */
  datatype FixField = FixField(tag: nat, value: Text) {
    predicate Valid()
    {
      tag <= U32_MAX && ValidUtf8(value)
    }

    /** The field can be framed: its value does not contain the delimiter. */
    predicate Clean()
    {
      Valid() && SOH !in value
    }
  }

  datatype FixParseError =
    | Empty
    | MalformedField(text: Text)
    | InvalidTag(text: Text)
    | NotUtf8
    | ChecksumMismatch(computed: Byte, found: Byte)
    | InvalidCheckSum(text: Text)

  datatype MsgType =
    | Logon | Heartbeat | TestRequest | ResendRequest | SequenceReset | Logout
    | NewOrderSingle | ExecutionReport | Other(code: Text)
  {
    function Code(): Text
    {
      match this
      case Logon => [65]
      case Heartbeat => [48]
      case TestRequest => [49]
      case ResendRequest => [50]
      case SequenceReset => [52]
      case Logout => [53]
      case NewOrderSingle => [68]
      case ExecutionReport => [56]
      case Other(code) => code
    }
  }

  function FromCode(code: Text): MsgType
  {
    if code == [65] then Logon
    else if code == [48] then Heartbeat
    else if code == [49] then TestRequest
    else if code == [50] then ResendRequest
    else if code == [52] then SequenceReset
    else if code == [53] then Logout
    else if code == [68] then NewOrderSingle
    else if code == [56] then ExecutionReport
    else Other(code)
  }

  // ----- fields ---------------------------------------------------------------

  function FirstValue(fields: seq<FixField>, tag: nat): Option<Text>
  {
    if fields == [] then None
    else if fields[0].tag == tag then Some(fields[0].value)
    else FirstValue(fields[1..], tag)
  }

  function SetFirst(fields: seq<FixField>, tag: nat, value: Text): seq<FixField>
  {
    if fields == [] then [FixField(tag, value)]
    else if fields[0].tag == tag then [FixField(tag, value)] + fields[1..]
    else [fields[0]] + SetFirst(fields[1..], tag, value)
  }

  datatype FixMessage = FixMessage(fields: seq<FixField>) {
    function Get(tag: nat): Option<Text>
    {
      FirstValue(fields, tag)
    }

    function GetU64(tag: nat): Option<nat>
    {
      match Get(tag)
      case None => None
      case Some(v) => ParseUnsigned(v, U64_MAX)
    }

    function Set(tag: nat, value: Text): FixMessage
    {
      FixMessage(SetFirst(fields, tag, value))
    }

    function Kind(): Option<MsgType>
    {
      match Get(MSG_TYPE)
      case None => None
      case Some(code) => Some(FromCode(code))
    }
  }

  // ----- encoding -------------------------------------------------------------

  function EncodeField(f: FixField): seq<Byte>
  {
    Digits(f.tag) + [EQUALS] + f.value + [SOH]
  }

  function EncodeFields(fields: seq<FixField>): seq<Byte>
  {
    if fields == [] then [] else EncodeField(fields[0]) + EncodeFields(fields[1..])
  }

  predicate IsFraming(tag: nat)
  {
    tag == BEGIN_STRING || tag == BODY_LENGTH || tag == MSG_TYPE || tag == CHECK_SUM
  }

  /** The fields that travel unchanged: everything but 8, 9, 35 and 10, in order. */
  function Carried(fields: seq<FixField>): (r: seq<FixField>)
    ensures forall f :: f in r ==> f in fields && !IsFraming(f.tag)
  {
    if fields == [] then []
    else if IsFraming(fields[0].tag) then Carried(fields[1..])
    else [fields[0]] + Carried(fields[1..])
  }

  function ValueOr(o: Option<Text>, default: Text): Text
  {
    match o
    case None => default
    case Some(v) => v
  }

  function Begin(m: FixMessage): FixField
  {
    FixField(BEGIN_STRING, ValueOr(m.Get(BEGIN_STRING), DEFAULT_BEGIN_STRING))
  }

  function Body(m: FixMessage): seq<FixField>
  {
    [FixField(MSG_TYPE, ValueOr(m.Get(MSG_TYPE), []))] + Carried(m.fields)
  }

  /** Fields 8, 9, 35 and the carried ones: everything the checksum covers. */
  function Covered(m: FixMessage): seq<FixField>
  {
    [Begin(m), FixField(BODY_LENGTH, Digits(|EncodeFields(Body(m))|))] + Body(m)
  }

  function ByteSum(s: seq<Byte>): nat
  {
    if s == [] then 0 else ByteSum(s[..|s| - 1]) + s[|s| - 1]
  }

  function CheckSumField(covered: seq<Byte>): FixField
  {
    FixField(CHECK_SUM, ThreeDigits(ByteSum(covered) % 256))
  }

  /** The byte frame of a message. */
  function Wire(m: FixMessage): seq<Byte>
  {
    EncodeFields(Covered(m)) + EncodeField(CheckSumField(EncodeFields(Covered(m))))
  }

  // ----- parsing --------------------------------------------------------------

  /** `input.split(|b| *b == SOH)`: one more segment than there are delimiters. */
  function Split(s: seq<Byte>): (segs: seq<seq<Byte>>)
    ensures |segs| > 0
  {
    if s == [] then [[]]
    else
      var rest := Split(s[1..]);
      if s[0] == SOH then [[]] + rest else [[s[0]] + rest[0]] + rest[1..]
  }

  /** Index of the first '=' or the length when there is none. */
  function FindEquals(s: seq<Byte>): (i: nat)
    ensures i <= |s|
    ensures i < |s| ==> s[i] == EQUALS
    ensures EQUALS !in s[..i]
  {
    if s == [] then 0 else if s[0] == EQUALS then 0 else 1 + FindEquals(s[1..])
  }

  datatype ParseState = ParseState(fields: seq<FixField>, boundary: Option<nat>, found: Option<Byte>, offset: nat)

  const START: ParseState := ParseState([], None, None, 0)

  /** One non-empty segment read as `tag=value`. */
  function ParseField(raw: seq<Byte>): (r: Result<FixField, FixParseError>)
    ensures r.Ok? ==> r.value.Valid()
  {
    if !ValidUtf8(raw) then Err(NotUtf8)
    else
      var eq := FindEquals(raw);
      if eq == |raw| then Err(MalformedField(raw))
      else
        match ParseUnsigned(raw[..eq], U32_MAX)
        case None => Err(InvalidTag(raw[..eq]))
        case Some(tag) => SplitAtAscii(raw, eq); Ok(FixField(tag, raw[eq + 1..]))
  }

  /** One iteration of the parser's loop. */
  function Step(raw: seq<Byte>, st: ParseState): Result<ParseState, FixParseError>
  {
    if raw == [] then Ok(st.(offset := st.offset + 1))
    else
      match ParseField(raw)
      case Err(e) => Err(e)
      case Ok(f) =>
        if f.tag == CHECK_SUM && (|f.value| != 3 || !AllDigits(f.value)) then Err(InvalidCheckSum(f.value))
        else
          var seen := st.(fields := st.fields + [f], offset := st.offset + |raw| + 1);
          if f.tag == CHECK_SUM then
            Ok(seen.(boundary := Some(st.offset), found := Some(DigitsValue(f.value) % 256)))
          else Ok(seen)
  }

  function Fold(segs: seq<seq<Byte>>, st: ParseState): Result<ParseState, FixParseError>
  {
    if segs == [] then Ok(st)
    else
      match Step(segs[0], st)
      case Err(e) => Err(e)
      case Ok(next) => Fold(segs[1..], next)
  }

  /** The running offset is the position of the segment being read, so the recorded boundary is too. */
  lemma {:induction false} FoldOffsets(s: seq<Byte>, st: ParseState)
    requires Fold(Split(s), st).Ok?
    ensures var done := Fold(Split(s), st).value;
            done.offset == st.offset + |s| + 1 &&
            (done.boundary == st.boundary ||
             (done.boundary.Some? && st.offset <= done.boundary.value <= st.offset + |s|))
    decreases |s|
  {
    hide ParseField;
    var segs := Split(s);
    FirstSegment(s);
    var next := Step(segs[0], st).value;
    if |segs| == 1 {
      assert segs[1..] == [];
    } else {
      FoldOffsets(s[|segs[0]| + 1..], next);
    }
  }

  /** The first segment runs up to the first delimiter; the remaining ones split what follows it. */
  lemma {:induction false} FirstSegment(s: seq<Byte>)
    ensures var segs := Split(s); var first := segs[0];
            |first| <= |s| && first == s[..|first|] && SOH !in first &&
            (|segs| == 1 ==> first == s) &&
            (|segs| > 1 ==> |first| < |s| && s[|first|] == SOH && segs[1..] == Split(s[|first| + 1..]))
  {
    if s != [] {
      FirstSegment(s[1..]);
      var rest := Split(s[1..]);
      if s[0] != SOH {
        assert s == [s[0]] + s[1..];
        if |rest| > 1 {
          assert s[1..][|rest[0]| + 1..] == s[|rest[0]| + 2..];
        }
      }
    }
  }

  function Finish(input: seq<Byte>, st: ParseState): Result<FixMessage, FixParseError>
    requires st.boundary.Some? ==> st.boundary.value <= |input|
  {
    if st.fields == [] then Err(Empty)
    else if st.boundary.Some? && st.found.Some?
            && ByteSum(input[..st.boundary.value]) % 256 != st.found.value then
      Err(ChecksumMismatch(ByteSum(input[..st.boundary.value]) % 256, st.found.value))
    else Ok(FixMessage(st.fields))
  }

  /** What `FixMessage::parse` answers for a frame. */
  function Parsed(input: seq<Byte>): Result<FixMessage, FixParseError>
  {
    if input == [] then Err(Empty)
    else
      match Fold(Split(input), START)
      case Err(e) => Err(e)
      case Ok(st) => FoldOffsets(input, START); Finish(input, st)
  }
}

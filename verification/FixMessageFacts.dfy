/** What the fields of a built, framed and parsed message are. */
module FixMessageFacts {
  import opened Prelude
  import opened FixDecimal
  import opened FixUtf8
  import opened FixMessage
  import opened FixCodecLaws
  import opened FixSession

  predicate CleanText(v: Text)
  {
    ValidUtf8(v) && SOH !in v
  }

  predicate CleanMessage(m: FixMessage)
  {
    forall f :: f in m.fields ==> f.Clean()
  }

  lemma {:induction false} SetFirstGet(fields: seq<FixField>, tag: nat, value: Text, other: nat)
    ensures FirstValue(SetFirst(fields, tag, value), other) ==
            if other == tag then Some(value) else FirstValue(fields, other)
  {
    if fields != [] && fields[0].tag != tag {
      SetFirstGet(fields[1..], tag, value, other);
    }
  }

  lemma {:induction false} SetFirstClean(fields: seq<FixField>, tag: nat, value: Text)
    requires forall f :: f in fields ==> f.Clean()
    requires tag <= U32_MAX && CleanText(value)
    ensures forall f :: f in SetFirst(fields, tag, value) ==> f.Clean()
  {
    if fields != [] {
      SetFirstClean(fields[1..], tag, value);
    }
  }

  /** `set` stores the value, keeps every other tag and keeps the message framable. */
  lemma SetFacts(m: FixMessage, tag: nat, value: Text)
    requires CleanMessage(m) && tag <= U32_MAX && CleanText(value)
    ensures CleanMessage(m.Set(tag, value))
    ensures forall t: nat :: m.Set(tag, value).Get(t) == if t == tag then Some(value) else m.Get(t)
  {
    SetFirstClean(m.fields, tag, value);
    forall t: nat ensures m.Set(tag, value).Get(t) == if t == tag then Some(value) else m.Get(t) {
      SetFirstGet(m.fields, tag, value, t);
    }
  }

  lemma DigitsClean(n: nat)
    ensures CleanText(Digits(n))
  {
    DigitsArePlain(n);
    AsciiIsUtf8(Digits(n));
  }

  lemma AsciiClean(v: Text)
    requires Ascii(v) && SOH !in v
    ensures CleanText(v)
  {
    AsciiIsUtf8(v);
  }

  predicate CleanConfig(c: Config)
  {
    CleanText(c.sender) && CleanText(c.target)
  }

  predicate IsHeader(tag: nat)
  {
    tag == BEGIN_STRING || tag == SENDER_COMP_ID || tag == TARGET_COMP_ID || tag == MSG_SEQ_NUM || tag == SENDING_TIME
  }

  /** Stamping gives the number and leaves the rest of the message as it was. */
  lemma StampFacts(config: Config, body: FixMessage, n: nat, now: Text)
    requires CleanConfig(config) && CleanMessage(body) && CleanText(now) && n <= U64_MAX
    ensures var m := Stamp(config, body, n, now);
            CleanMessage(m) && m.GetU64(MSG_SEQ_NUM) == Some(n) &&
            forall t: nat :: !IsHeader(t) ==> m.Get(t) == body.Get(t)
  {
    hide CleanText, CleanMessage, FirstValue, SetFirst, Digits, ParseUnsigned;
    BeginStringClean(config.version);
    DigitsClean(n);
    ParseDigits(n, U64_MAX);
    var m1 := body.Set(BEGIN_STRING, config.version.BeginString());
    SetFacts(body, BEGIN_STRING, config.version.BeginString());
    var m2 := m1.Set(SENDER_COMP_ID, config.sender);
    SetFacts(m1, SENDER_COMP_ID, config.sender);
    var m3 := m2.Set(TARGET_COMP_ID, config.target);
    SetFacts(m2, TARGET_COMP_ID, config.target);
    var m4 := m3.Set(MSG_SEQ_NUM, Digits(n));
    SetFacts(m3, MSG_SEQ_NUM, Digits(n));
    SetFacts(m4, SENDING_TIME, now);
  }

  lemma BeginStringClean(v: FixVersion)
    ensures CleanText(v.BeginString())
  {
    AsciiClean(v.BeginString());
  }

  lemma OfTypeFacts(kind: MsgType)
    requires !kind.Other?
    ensures CleanMessage(OfType(kind)) && OfType(kind).Kind() == Some(kind)
    ensures forall t: nat :: t != MSG_TYPE ==> OfType(kind).Get(t).None?
  {
    var m := OfType(kind);
    AsciiClean(kind.Code());
    assert m.fields[0].Clean() && m.fields[1..] == [];
    assert m.Get(MSG_TYPE) == Some(kind.Code());
    forall t: nat | t != MSG_TYPE ensures m.Get(t).None? {
      assert FirstValue(m.fields, t) == FirstValue(m.fields[1..], t);
    }
  }

  /** A framable message reaches the other side as `Framed(m)`, with the session's fields intact. */
  lemma OnTheWire(m: FixMessage)
    requires CleanMessage(m) && m.Get(MSG_TYPE).Some?
    ensures Parsed(Wire(m)) == Ok(Framed(m))
    ensures Framed(m).Kind() == m.Kind()
    ensures forall t: nat :: !IsFraming(t) ==> Framed(m).Get(t) == m.Get(t)
  {
    CleanIsFramable(m);
    RoundTripFramable(m);
    FramedHeader(m);
    forall t: nat | !IsFraming(t) ensures Framed(m).Get(t) == m.Get(t) {
      FramedGet(m, t);
    }
  }

  lemma CleanIsFramable(m: FixMessage)
    requires CleanMessage(m)
    ensures Framable(m)
  {
    hide ValidUtf8, FirstValue;
    if m.Get(BEGIN_STRING).Some? {
      FirstValueIsField(m.fields, BEGIN_STRING);
    } else {
      AsciiClean(DEFAULT_BEGIN_STRING);
    }
    if m.Get(MSG_TYPE).Some? {
      FirstValueIsField(m.fields, MSG_TYPE);
    } else {
      AsciiIsUtf8([]);
    }
  }

  lemma GetClean(m: FixMessage, tag: nat)
    requires CleanMessage(m) && m.Get(tag).Some?
    ensures CleanText(m.Get(tag).value)
  {
    FirstValueIsField(m.fields, tag);
  }
}

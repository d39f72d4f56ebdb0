/** `std::str::from_utf8` as a predicate on bytes (section 4 of RFC 3629). */
module FixUtf8 {
  import opened Prelude

  predicate Tail(b: Byte)
  {
    0x80 <= b <= 0xBF
  }

  /** Length of the scalar value at the front of `s`, or 0 when it is not well formed. */
  function ScalarLen(s: seq<Byte>): (n: nat)
    ensures n <= |s| && n <= 4
  {
    if s == [] then 0
    else if s[0] < 0x80 then 1
    else if 0xC2 <= s[0] <= 0xDF then
      if |s| >= 2 && Tail(s[1]) then 2 else 0
    else if 0xE0 <= s[0] <= 0xEF then
      if |s| >= 3 && Tail(s[1]) && Tail(s[2])
         && (s[0] == 0xE0 ==> s[1] >= 0xA0) && (s[0] == 0xED ==> s[1] <= 0x9F) then 3 else 0
    else if 0xF0 <= s[0] <= 0xF4 then
      if |s| >= 4 && Tail(s[1]) && Tail(s[2]) && Tail(s[3])
         && (s[0] == 0xF0 ==> s[1] >= 0x90) && (s[0] == 0xF4 ==> s[1] <= 0x8F) then 4 else 0
    else 0
  }

  predicate ValidUtf8(s: seq<Byte>)
    decreases |s|
  {
    s == [] || (ScalarLen(s) > 0 && ValidUtf8(s[ScalarLen(s)..]))
  }

  predicate Ascii(s: seq<Byte>)
  {
    forall i :: 0 <= i < |s| ==> s[i] < 0x80
  }

  lemma {:induction false} AsciiIsUtf8(s: seq<Byte>)
    requires Ascii(s)
    ensures ValidUtf8(s)
    decreases |s|
  {
    if s != [] {
      AsciiIsUtf8(s[1..]);
    }
  }

  lemma ScalarLenPrefix(a: seq<Byte>, b: seq<Byte>)
    requires ScalarLen(a) > 0
    ensures ScalarLen(a + b) == ScalarLen(a)
  {
    assert forall i :: 0 <= i < |a| ==> (a + b)[i] == a[i];
  }

  lemma {:induction false} Utf8Concat(a: seq<Byte>, b: seq<Byte>)
    requires ValidUtf8(a) && ValidUtf8(b)
    ensures ValidUtf8(a + b)
    decreases |a|
  {
    hide ScalarLen;
    if a == [] {
      assert a + b == b;
    } else {
      var n := ScalarLen(a);
      Utf8Concat(a[n..], b);
      ScalarLenPrefix(a, b);
      assert (a + b)[n..] == a[n..] + b;
    }
  }

  /** An ASCII byte inside well-formed text is a character boundary on both sides. */
  lemma {:induction false} SplitAtAscii(s: seq<Byte>, i: nat)
    requires ValidUtf8(s) && i < |s| && s[i] < 0x80
    ensures ValidUtf8(s[..i]) && ValidUtf8(s[i + 1..])
    decreases |s|
  {
    var n := ScalarLen(s);
    if i > 0 {
      assert i >= n;
      SplitAtAscii(s[n..], i - n);
      assert s[n..][..i - n] == s[..i][n..];
      assert s[n..][i - n + 1..] == s[i + 1..];
      assert ScalarLen(s[..i]) == n;
    }
  }

  /** So is the front of any byte that does not continue a character. */
  lemma {:induction false} SplitAtLead(s: seq<Byte>, i: nat)
    requires ValidUtf8(s) && i < |s| && !Tail(s[i])
    ensures ValidUtf8(s[..i]) && ValidUtf8(s[i..])
    decreases |s|
  {
    if i == 0 {
      assert s[..i] == [] && s[i..] == s;
    } else {
      var n := ScalarLen(s);
      LeadIsPast(s, i);
      SplitAtLead(s[n..], i - n);
      assert s[n..][..i - n] == s[..i][n..];
      assert s[n..][i - n..] == s[i..];
      assert ScalarLen(s[..i]) == n;
    }
  }

  lemma LeadIsPast(s: seq<Byte>, i: nat)
    requires ScalarLen(s) > 0 && 0 < i < |s| && !Tail(s[i])
    ensures i >= ScalarLen(s)
  {}
}

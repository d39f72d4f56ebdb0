/** Decimal rendering (`to_string`) and Rust's unsigned `parse`, as the FIX codec uses them. */
module FixDecimal {
  import opened Prelude

  const U32_MAX: nat := 0xFFFF_FFFF
  const U64_MAX: nat := 0xFFFF_FFFF_FFFF_FFFF

  predicate IsDigit(b: Byte)
  {
    48 <= b <= 57
  }

  predicate AllDigits(s: seq<Byte>)
  {
    forall i :: 0 <= i < |s| ==> IsDigit(s[i])
  }

  /** `n.to_string()`: no leading zeros, "0" for zero. */
  function Digits(n: nat): seq<Byte>
  {
    if n < 10 then [48 + n] else Digits(n / 10) + [48 + n % 10]
  }

  /** The number a run of ASCII digits denotes. */
  function DigitsValue(s: seq<Byte>): nat
    requires AllDigits(s)
  {
    if s == [] then 0 else 10 * DigitsValue(s[..|s| - 1]) + (s[|s| - 1] - 48)
  }

  /** `str::parse::<u32/u64>()`: an optional '+', at least one digit, nothing above `max`. */
  function ParseUnsigned(s: seq<Byte>, max: nat): Option<nat>
  {
    var body := if s != [] && s[0] == 43 then s[1..] else s;
    if body == [] || !AllDigits(body) then None
    else if DigitsValue(body) > max then None
    else Some(DigitsValue(body))
  }

  /** `format!("{n:03}")` for a byte. */
  function ThreeDigits(n: Byte): seq<Byte>
  {
    [48 + n / 100, 48 + n / 10 % 10, 48 + n % 10]
  }

  lemma {:induction false} DigitsRoundTrip(n: nat)
    ensures |Digits(n)| > 0 && AllDigits(Digits(n)) && DigitsValue(Digits(n)) == n
  {
    if n >= 10 {
      DigitsRoundTrip(n / 10);
      var s := Digits(n);
      assert s[..|s| - 1] == Digits(n / 10);
    } else {
      assert Digits(n)[..0] == [];
    }
  }

  lemma ParseDigits(n: nat, max: nat)
    ensures ParseUnsigned(Digits(n), max) == if n <= max then Some(n) else None
  {
    DigitsRoundTrip(n);
    assert IsDigit(Digits(n)[0]);
  }

  lemma ThreeDigitsValue(s: seq<Byte>)
    requires |s| == 3 && AllDigits(s)
    ensures DigitsValue(s) == 100 * (s[0] as int - 48) + 10 * (s[1] as int - 48) + (s[2] as int - 48)
  {
    assert s[..2][..1] == s[..1] && s[..1][..0] == [];
    assert IsDigit(s[0]) && IsDigit(s[1]) && IsDigit(s[2]);
    assert DigitsValue(s[..1]) == s[0] - 48;
    assert DigitsValue(s[..2]) == 10 * DigitsValue(s[..2][..1]) + (s[1] - 48);
  }

  lemma ThreeDigitsRoundTrip(n: Byte)
    ensures AllDigits(ThreeDigits(n)) && DigitsValue(ThreeDigits(n)) == n
  {
    ThreeDigitsValue(ThreeDigits(n));
  }
}

/** Decimal text for integers, as the broker uses it: `u64::to_string` for the
    service id carried in a PUB message body, `str::parse::<u64>()` when the
    event monitor reads that body back, and `str::parse::<i32>()` /
    `str::parse::<u64>()` for the port and key query parameters. */
module Decimal {
  import opened Wrappers

  const U64_LIMIT: int := 0x1_0000_0000_0000_0000
  const I32_MIN: int := -0x8000_0000
  const I32_MAX: int := 0x7FFF_FFFF
  const I64_MIN: int := -0x8000_0000_0000_0000
  const I64_MAX: int := 0x7FFF_FFFF_FFFF_FFFF

  predicate IsDigit(c: char) { '0' <= c <= '9' }

  predicate AllDigits(s: string) { forall i :: 0 <= i < |s| ==> IsDigit(s[i]) }

  function DigitValue(c: char): nat
    requires IsDigit(c)
  {
    (c - '0') as nat
  }

  function DigitChar(d: nat): (c: char)
    requires d < 10
    ensures IsDigit(c) && DigitValue(c) == d
  {
    ('0' as int + d) as char
  }

  /** The value of a string of decimal digits, most significant first. */
  function Value(s: string): nat
    requires AllDigits(s)
  {
    if |s| == 0 then 0 else Value(s[..|s| - 1]) * 10 + DigitValue(s[|s| - 1])
  }

  /** `n.to_string()` for an unsigned integer: no sign, no leading zeros. */
  function NatToString(n: nat): (s: string)
    ensures |s| > 0 && AllDigits(s)
    ensures |s| > 1 ==> s[0] != '0'
  {
    if n < 10 then [DigitChar(n)] else NatToString(n / 10) + [DigitChar(n % 10)]
  }

  /** `n.to_string()` for a signed integer: a leading '-' for negatives. */
  function IntToString(n: int): (s: string)
    ensures |s| > 0
    ensures n < 0 <==> s[0] == '-'
  {
    if n < 0 then "-" + NatToString(-n) else NatToString(n)
  }

  lemma {:induction false} ValueOfNatToString(n: nat)
    ensures Value(NatToString(n)) == n
  {
    if n >= 10 {
      var s := NatToString(n);
      assert s[..|s| - 1] == NatToString(n / 10);
      ValueOfNatToString(n / 10);
    }
  }

  /** Rust's unsigned `from_str`: an optional '+', then one or more ASCII
      digits whose value fits below `limit`; anything else is an error. */
  function ParseUnsigned(s: string, limit: nat): (r: Option<nat>)
    ensures r.Some? ==> r.value < limit
  {
    var digits := if |s| > 0 && s[0] == '+' then s[1..] else s;
    if |digits| == 0 || !AllDigits(digits) then None
    else if Value(digits) < limit then Some(Value(digits))
    else None
  }

  /** `s.parse::<u64>()`, as `Option` (`.ok()`). */
  function ParseU64(s: string): (r: Option<nat>)
    ensures r.Some? ==> r.value < U64_LIMIT
  {
    ParseUnsigned(s, U64_LIMIT)
  }

  /** Rust's signed `from_str` for a type ranging over `lo..=hi`: an
      optional '+' or '-', then one or more ASCII digits, within range. */
  function ParseSigned(s: string, lo: int, hi: int): (r: Option<int>)
    requires lo <= 0 <= hi
    ensures r.Some? ==> lo <= r.value <= hi
  {
    if |s| > 0 && s[0] == '-' then
      var digits := s[1..];
      if |digits| == 0 || !AllDigits(digits) then None
      else if Value(digits) <= -lo then Some(0 - Value(digits) as int)
      else None
    else
      match ParseUnsigned(s, hi + 1)
      case Some(v) => Some(v)
      case None => None
  }

  /** `s.parse::<i32>()`, as `Option` (`.ok()`). */
  function ParseI32(s: string): (r: Option<int>)
    ensures r.Some? ==> I32_MIN <= r.value <= I32_MAX
  {
    ParseSigned(s, I32_MIN, I32_MAX)
  }

  /** `s.parse::<i64>()`, as `Option` (`.ok()`). */
  function ParseI64(s: string): (r: Option<int>)
    ensures r.Some? ==> I64_MIN <= r.value <= I64_MAX
  {
    ParseSigned(s, I64_MIN, I64_MAX)
  }

  /** Reading back the decimal text of a u64 yields the number again: the
      event monitor relies on this to recover a removed service's id. */
  lemma ParseU64OfNatToString(n: nat)
    requires n < U64_LIMIT
    ensures ParseU64(NatToString(n)) == Some(n)
  {
    ValueOfNatToString(n);
  }

  /** The decimal text of a u64 below 2^63 reads back as the same i64. */
  lemma ParseI64OfNatToString(n: nat)
    requires n <= I64_MAX
    ensures ParseI64(NatToString(n)) == Some(n)
  {
    ValueOfNatToString(n);
  }

  /** Every value in range survives a print/parse round trip. */
  lemma ParseSignedOfIntToString(n: int, lo: int, hi: int)
    requires lo <= 0 <= hi && lo <= n <= hi
    ensures ParseSigned(IntToString(n), lo, hi) == Some(n)
  {
    if n < 0 {
      ParseSignedOfNegative(n, lo, hi);
    } else {
      ParseSignedOfNonNegative(n, lo, hi);
    }
  }

  lemma ParseSignedOfNegative(n: int, lo: int, hi: int)
    requires lo <= n < 0 <= hi
    ensures ParseSigned(IntToString(n), lo, hi) == Some(n)
  {
    var digits := NatToString(-n);
    var s := "-" + digits;
    assert s[1..] == digits;
    ValueOfNatToString(-n);
    assert s[0] == '-' && |digits| > 0 && AllDigits(digits) && Value(digits) <= -lo;
  }

  lemma ParseSignedOfNonNegative(n: nat, lo: int, hi: int)
    requires lo <= 0 <= n <= hi
    ensures ParseSigned(IntToString(n), lo, hi) == Some(n)
  {
    var s := NatToString(n);
    ValueOfNatToString(n);
    assert IsDigit(s[0]);
    assert ParseUnsigned(s, hi + 1) == Some(n);
  }

  /** Every 32-bit signed value survives a print/parse round trip. */
  lemma ParseI32OfIntToString(n: int)
    requires I32_MIN <= n <= I32_MAX
    ensures ParseI32(IntToString(n)) == Some(n)
  {
    ParseSignedOfIntToString(n, I32_MIN, I32_MAX);
  }

  /** Text that is not a number (empty, a lone sign, a non-digit) never parses. */
  lemma ParseRejectsNonNumbers(s: string)
    requires |s| == 0 || s == "+" || s == "-" || (|s| > 0 && !IsDigit(s[|s| - 1]))
    ensures ParseU64(s) == None && ParseI32(s) == None && ParseI64(s) == None
  {
  }
}

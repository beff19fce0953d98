/** Decimal numerals, as `to_string` prints an unsigned integer and `str::parse::<u64>` reads one. */
module Decimal {
  import opened Wrappers

  const DIGITS: string := "0123456789"
  const U64_LIMIT: nat := 0x1_0000_0000_0000_0000

  predicate IsDigit(c: char) {
    '0' <= c <= '9'
  }

  ghost predicate AllDigits(s: string) {
    forall i :: 0 <= i < |s| ==> IsDigit(s[i])
  }

  function Digit(d: nat): (c: char)
    requires d < 10
    ensures IsDigit(c) && DigitValue(c) == d
  {
    DIGITS[d]
  }

  function DigitValue(c: char): (d: nat)
    requires IsDigit(c)
    ensures d < 10
  {
    c as int - '0' as int
  }

  /** `n.to_string()` for an unsigned `n`. */
  function Dec(n: nat): (s: string)
    ensures |s| > 0 && AllDigits(s)
  {
    if n < 10 then [Digit(n)] else Dec(n / 10) + [Digit(n % 10)]
  }

  function Value(s: string): nat
    requires AllDigits(s)
  {
    if s == [] then 0 else 10 * Value(s[..|s| - 1]) + DigitValue(s[|s| - 1])
  }

  lemma {:induction false} ValueOfDec(n: nat)
    ensures Value(Dec(n)) == n
  {
    if n < 10 {
      assert Dec(n)[..0] == [];
    } else {
      ValueOfDec(n / 10);
      assert Dec(n)[..|Dec(n)| - 1] == Dec(n / 10);
    }
  }

  lemma DecInjective(m: nat, n: nat)
    requires Dec(m) == Dec(n)
    ensures m == n
  {
    ValueOfDec(m);
    ValueOfDec(n);
  }

  predicate Numeral(s: string) {
    s != [] && forall i :: 0 <= i < |s| ==> IsDigit(s[i])
  }

  /** `s.parse::<u64>().ok()`: an optional plus sign, then one or more digits, no overflow. */
  function ParseU64(s: string): Option<nat> {
    var digits := if s != [] && s[0] == '+' then s[1..] else s;
    if Numeral(digits) && Value(digits) < U64_LIMIT then Some(Value(digits)) else None
  }

  lemma ParseOfDec(n: nat)
    requires n < U64_LIMIT
    ensures ParseU64(Dec(n)) == Some(n)
  {
    ValueOfDec(n);
  }

  /** `n.to_string()` for a signed `n`. */
  function SignedDec(n: int): string {
    if n < 0 then "-" + Dec(-n) else Dec(n)
  }

  ghost predicate IsSigned(s: string) {
    s != [] && AllDigits(if s[0] == '-' then s[1..] else s)
  }

  /** Reads a signed numeral back. */
  function SignedValue(s: string): int
    requires IsSigned(s)
  {
    if s[0] == '-' then 0 - Value(s[1..]) else Value(s)
  }

  lemma SignedValueOfDec(n: int)
    ensures IsSigned(SignedDec(n)) && SignedValue(SignedDec(n)) == n
  {
    var digits := Dec(if n < 0 then -n else n);
    ValueOfDec(if n < 0 then -n else n);
    assert IsDigit(digits[0]);
    assert ("-" + digits)[1..] == digits;
  }

  lemma SignedDecInjective(m: int, n: int)
    requires SignedDec(m) == SignedDec(n)
    ensures m == n
  {
    SignedValueOfDec(m);
    SignedValueOfDec(n);
  }
}

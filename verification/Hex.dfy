/** Lower-case hexadecimal digits and numerals. */
module Hex {

  const HEX_DIGITS: string := "0123456789abcdef"

  predicate IsHexDigit(c: char) {
    '0' <= c <= '9' || 'a' <= c <= 'f'
  }

  function HexDigit(d: nat): (c: char)
    requires d < 16
    ensures IsHexDigit(c) && HexValue(c) == d
  {
    HEX_DIGITS[d]
  }

  function HexValue(c: char): (d: nat)
    requires IsHexDigit(c)
    ensures d < 16
  {
    if c <= '9' then c as int - '0' as int else c as int - 'a' as int + 10
  }

  /** `{n:x}`: the shortest numeral. */
  function HexNumeral(n: nat): (s: string)
    ensures |s| > 0 && forall i :: 0 <= i < |s| ==> IsHexDigit(s[i])
  {
    if n < 16 then [HexDigit(n)] else HexNumeral(n / 16) + [HexDigit(n % 16)]
  }

  lemma {:induction false} HexNumeralInjective(m: nat, n: nat)
    requires HexNumeral(m) == HexNumeral(n)
    ensures m == n
  {
    var s, t := HexNumeral(m), HexNumeral(n);
    assert HexValue(s[|s| - 1]) == m % 16 && HexValue(t[|t| - 1]) == n % 16;
    assert (|s| > 1) == (m >= 16) && (|t| > 1) == (n >= 16);
    if m >= 16 {
      assert s[..|s| - 1] == HexNumeral(m / 16) && t[..|t| - 1] == HexNumeral(n / 16);
      HexNumeralInjective(m / 16, n / 16);
    }
  }
}

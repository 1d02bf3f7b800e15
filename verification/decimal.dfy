/** `String(n)` for a BigInt `n`: its decimal digits, with a leading '-' when
    negative, and the parse that inverts it. */
module Decimal {

  predicate IsDigit(c: char) {
    '0' <= c <= '9'
  }

  predicate AllDigits(s: string) {
    forall k :: 0 <= k < |s| ==> IsDigit(s[k])
  }

  function DigitChar(d: nat): (c: char)
    requires d < 10
    ensures IsDigit(c) && c as int - '0' as int == d
  {
    ('0' as int + d) as char
  }

  /** Decimal text of a natural number, most significant digit first. */
  function NatText(n: nat): (s: string)
    ensures |s| > 0 && AllDigits(s)
    ensures s[0] == '0' <==> n == 0
    ensures n == 0 ==> s == "0"
  {
    if n < 10 then [DigitChar(n)] else NatText(n / 10) + [DigitChar(n % 10)]
  }

  function ParseNat(s: string): nat
    requires AllDigits(s)
  {
    if s == [] then 0 else ParseNat(s[..|s| - 1]) * 10 + (s[|s| - 1] as int - '0' as int)
  }

  /** `String(i)` for a BigInt `i`. */
  function BigIntText(i: int): (s: string)
    ensures |s| > 0
    ensures s[0] == '-' <==> i < 0
    ensures AllDigits(if i < 0 then s[1..] else s)
  {
    if i < 0 then "-" + NatText(-i) else NatText(i)
  }

  function ParseBigInt(s: string): int
    requires |s| > 0 && AllDigits(if s[0] == '-' then s[1..] else s)
  {
    if s[0] == '-' then 0 - (ParseNat(s[1..]) as int) else ParseNat(s)
  }

  lemma {:induction false} ParseNatText(n: nat)
    ensures ParseNat(NatText(n)) == n
  {
    if n >= 10 {
      var s := NatText(n);
      assert s[..|s| - 1] == NatText(n / 10);
      ParseNatText(n / 10);
    }
  }

  /** The text of a BigInt reads back as the same integer, so distinct
      BigInts never share a text. */
  lemma BigIntTextRoundTrip(i: int)
    ensures ParseBigInt(BigIntText(i)) == i
  {
    if i < 0 {
      assert BigIntText(i)[1..] == NatText(-i);
      ParseNatText(-i);
    } else {
      ParseNatText(i);
    }
  }
}

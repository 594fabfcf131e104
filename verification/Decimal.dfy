/** Decimal text of integers. */
module Decimal {

  predicate IsDigit(c: char) {
    '0' <= c <= '9'
  }

  predicate Digits(s: string) {
    forall i :: 0 <= i < |s| ==> IsDigit(s[i])
  }

  function DigitValue(c: char): int {
    c as int - '0' as int
  }

  function DigitOf(d: nat): char
    requires d < 10
  {
    '0' + d as char
  }

  function NatText(n: nat): string {
    if n < 10 then [DigitOf(n)] else NatText(n / 10) + [DigitOf(n % 10)]
  }

  /** The value of a digit string; zero for the empty one. */
  function NatValue(s: string): int {
    if s == "" then 0 else NatValue(s[..|s| - 1]) * 10 + DigitValue(s[|s| - 1])
  }

  function IntText(v: int): string {
    if v < 0 then "-" + NatText(-v) else NatText(v)
  }

  /** The value of an optional minus sign and digits. */
  function IntValue(s: string): int {
    if s != "" && s[0] == '-' then -NatValue(s[1..]) else NatValue(s)
  }

  lemma {:induction false} NatTextRoundTrip(n: nat)
    ensures NatText(n) != "" && Digits(NatText(n)) && NatValue(NatText(n)) == n
  {
    var last := DigitOf(if n < 10 then n else n % 10);
    assert IsDigit(last) && DigitValue(last) == if n < 10 then n else n % 10;
    if n < 10 {
      assert NatText(n)[..0] == "";
    } else {
      NatTextRoundTrip(n / 10);
      assert NatText(n)[..|NatText(n)| - 1] == NatText(n / 10);
    }
  }

  lemma IntTextRoundTrip(v: int)
    ensures IntValue(IntText(v)) == v && IntText(v) != ""
    ensures v >= 0 ==> Digits(IntText(v))
    ensures v < 0 ==> IntText(v)[0] == '-' && IntText(v)[1..] != "" && Digits(IntText(v)[1..])
  {
    NatTextRoundTrip(if v < 0 then -v else v);
  }
}

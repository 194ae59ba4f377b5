/** Decimal printing of integers, as %d and strconv.Itoa do it. */
module Decimal {

  predicate Digit(c: char) { '0' <= c <= '9' }

  predicate Digits(s: string) {
    s != "" && forall i :: 0 <= i < |s| ==> Digit(s[i])
  }

  function DigitsOf(n: nat): (s: string)
    ensures Digits(s)
  {
    if n < 10 then ['0' + n as char] else DigitsOf(n / 10) + ['0' + (n % 10) as char]
  }

  function Itoa(n: int): string {
    if n < 0 then "-" + DigitsOf(-n) else DigitsOf(n)
  }

  function Value(s: string): nat
    requires forall i :: 0 <= i < |s| ==> '0' <= s[i] <= '9'
  {
    if s == "" then 0 else Value(s[..|s| - 1]) * 10 + (s[|s| - 1] - '0') as nat
  }

  lemma {:induction false} ValueOfDigits(n: nat)
    ensures Value(DigitsOf(n)) == n
  {
    if n >= 10 {
      ValueOfDigits(n / 10);
      assert DigitsOf(n)[..|DigitsOf(n)| - 1] == DigitsOf(n / 10);
    }
  }

  /** Reads a number with an optional sign. */
  function Atoi(s: string): int
    requires Digits(s) || (s != "" && s[0] == '-' && Digits(s[1..]))
  {
    if s[0] == '-' then 0 - Value(s[1..]) else Value(s)
  }

  /** Every printed number reads back as itself. */
  lemma ItoaReadsBack(n: int)
    ensures var s := Itoa(n);
      Digits(s) || (s != "" && s[0] == '-' && Digits(s[1..]))
    ensures Atoi(Itoa(n)) == n
  {
    ValueOfDigits(if n < 0 then -n else n);
    var digits := DigitsOf(if n < 0 then -n else n);
    assert ("-" + digits)[1..] == digits;
    assert Digit(digits[0]);
  }

  function Pow10(k: nat): nat {
    if k == 0 then 1 else 10 * Pow10(k - 1)
  }

  lemma {:induction false} DigitCount(n: nat, k: nat)
    requires k > 0 && n < Pow10(k)
    ensures |DigitsOf(n)| <= k
  {
    if n >= 10 {
      assert k > 1;
      DigitCount(n / 10, k - 1);
    }
  }

  /** A 64-bit signed integer prints in at most 20 characters. */
  lemma Int64Width(n: int)
    requires -0x8000_0000_0000_0000 <= n < 0x8000_0000_0000_0000
    ensures |Itoa(n)| <= 20
  {
    assert Pow10(5) == 100000;
    assert Pow10(10) == 10000000000;
    assert Pow10(15) == 1000000000000000;
    assert Pow10(19) == 10000000000000000000;
    DigitCount(if n < 0 then -n else n, 19);
  }
}

/** Integers as `sprintf` prints them, and back. */
module Decimals {

  predicate IsNumber(s: string) {
    forall i | 0 <= i < |s| :: '0' <= s[i] <= '9'
  }

  function Digits(n: nat): (r: string)
    ensures r != "" && IsNumber(r)
  {
    if n < 10 then ['0' + n as char] else Digits(n / 10) + ['0' + (n % 10) as char]
  }

  /** `sprintf` with `%d`. */
  function Decimal(i: int): string {
    if i < 0 then "-" + Digits(-i) else Digits(i)
  }

  function Value(s: string): nat
    requires IsNumber(s)
  {
    if s == "" then 0 else 10 * Value(s[..|s| - 1]) + (s[|s| - 1] - '0') as nat
  }

  lemma {:induction false} ValueOfDigits(n: nat)
    ensures Value(Digits(n)) == n
  {
    var d := Digits(n);
    if n < 10 {
      assert d[..0] == "";
    } else {
      ValueOfDigits(n / 10);
      assert d[..|d| - 1] == Digits(n / 10);
    }
  }

  lemma DecimalIsInjective(i: int, j: int)
    requires Decimal(i) == Decimal(j)
    ensures i == j
  {
    ValueOfDigits(if i < 0 then -i else i);
    ValueOfDigits(if j < 0 then -j else j);
    hide Digits, Value;
    assert i < 0 <==> Decimal(i)[0] == '-';
    assert j < 0 <==> Decimal(j)[0] == '-';
    assert i < 0 ==> Decimal(i)[1..] == Digits(-i);
    assert j < 0 ==> Decimal(j)[1..] == Digits(-j);
  }
}

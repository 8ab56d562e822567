/** `fmt.Sprint` of a non-negative int, and why two different indices never print alike. */
module Decimal {

  const DIGITS: string := "0123456789"

  function Print(n: nat): (s: string)
    ensures s != []
  {
    if n < 10 then [DIGITS[n]] else Print(n / 10) + [DIGITS[n % 10]]
  }

  /** The number a string of digits stands for; other characters count as zero. */
  function Parse(s: string): nat {
    if s == [] then 0 else 10 * Parse(s[..|s| - 1]) + Digit(s[|s| - 1])
  }

  function Digit(c: char): nat {
    if '0' <= c <= '9' then c as int - '0' as int else 0
  }

  lemma DigitsCount(d: nat)
    requires d < 10
    ensures Digit(DIGITS[d]) == d
  {
  }

  lemma {:induction false} ParsePrint(n: nat)
    ensures Parse(Print(n)) == n
  {
    if n < 10 {
      DigitsCount(n);
      assert Print(n)[..0] == [];
    } else {
      ParsePrint(n / 10);
      DigitsCount(n % 10);
      assert Print(n)[..|Print(n)| - 1] == Print(n / 10);
      assert Print(n)[|Print(n)| - 1] == DIGITS[n % 10];
    }
  }

  /** Decimal digits only, and a leading zero only for the number zero. */
  lemma {:induction false} PrintForm(n: nat)
    ensures forall c | c in Print(n) :: '0' <= c <= '9'
    ensures Print(n)[0] == '0' <==> n == 0
  {
    if n >= 10 {
      PrintForm(n / 10);
      assert Print(n)[0] == Print(n / 10)[0];
    }
  }

  lemma PrintInjective(i: nat, j: nat)
    requires Print(i) == Print(j)
    ensures i == j
  {
    ParsePrint(i);
    ParsePrint(j);
  }
}

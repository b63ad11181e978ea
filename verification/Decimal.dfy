/** Decimal numerals: `String(n)` and `Number(s)` on the natural numbers. */
module Decimal {
  predicate IsDigit(c: char) { '0' <= c <= '9' }

  /** `/^\d+$/` */
  predicate Numeral(s: string) { s != [] && forall i | 0 <= i < |s| :: IsDigit(s[i]) }

  function Value(s: string): nat
    requires forall i | 0 <= i < |s| :: IsDigit(s[i])
  {
    if s == [] then 0
    else
      assert IsDigit(s[|s| - 1]);
      10 * Value(s[..|s| - 1]) + (s[|s| - 1] as int - '0' as int)
  }

  function Print(n: nat): (s: string)
    ensures Numeral(s)
  {
    var last := [('0' as int + n % 10) as char];
    if n < 10 then last else Print(n / 10) + last
  }

  lemma {:induction false} PrintThenParse(n: nat)
    ensures Value(Print(n)) == n
  {
    if n >= 10 {
      PrintThenParse(n / 10);
      assert Print(n)[..|Print(n)| - 1] == Print(n / 10);
    } else {
      assert Print(n)[..0] == [];
    }
  }

  lemma PrintIsInjective(m: nat, n: nat)
    requires Print(m) == Print(n)
    ensures m == n
  {
    PrintThenParse(m);
    PrintThenParse(n);
  }
}

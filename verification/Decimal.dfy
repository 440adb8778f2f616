/** Natural numbers in decimal notation. */
module Decimal {

  function Digit(n: nat): char
    requires n < 10
  {
    '0' + n as char
  }

  function ShowNat(n: nat): string {
    if n < 10 then [Digit(n)] else ShowNat(n / 10) + [Digit(n % 10)]
  }

  function Power(k: nat): nat {
    if k == 0 then 1 else 10 * Power(k - 1)
  }

  lemma {:induction false} ShowLength(n: nat, k: nat)
    requires k > 0 && n < Power(k)
    ensures |ShowNat(n)| <= k
  {
    if n >= 10 {
      assert k > 1;
      assert n / 10 < Power(k - 1);
      ShowLength(n / 10, k - 1);
    }
  }

  lemma {:induction false} OnlyDigits(n: nat)
    ensures forall i :: 0 <= i < |ShowNat(n)| ==> '0' <= ShowNat(n)[i] <= '9'
  {
    if n >= 10 {
      OnlyDigits(n / 10);
    }
  }
}

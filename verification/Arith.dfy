/** Facts about products, quotients and remainders that the solver does not find unaided. */
module Arith {

  lemma MulSign(n: nat, x: int)
    ensures x >= 1 ==> n * x >= n
    ensures x <= 0 ==> n * x <= 0
    ensures x <= -1 ==> n * x + n <= 0
    ensures x >= 0 ==> n * x >= 0
  {
  }

  lemma ModUnique(a: int, q: int, r: nat, n: nat)
    requires r < n && a == n * q + r
    ensures a / n == q && a % n == r
  {
    var q' := a / n;
    MulSign(n, q - q');
    assert n * (q - q') == n * q - n * q';
  }
}

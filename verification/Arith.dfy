// Facts about products, quotients and remainders that the solver is not left to find.

module Arith {

  lemma Monotone(a: int, b: int, m: int)
    requires a <= b && m >= 0
    ensures a * m <= b * m
  {
  }

  lemma OnceMore(a: int, m: int)
    ensures (a + 1) * m == a * m + m
  {
  }

  // A quotient and a remainder are determined by the equation they solve.
  lemma DivMod(a: int, m: int, q: int, r: int)
    requires 0 <= r < m && a == q * m + r
    ensures a / m == q && a % m == r
  {
    var q', r' := a / m, a % m;
    assert a == q' * m + r';
    assert (q - q') * m == r' - r;
    if q >= q' + 1 {
      Monotone(1, q - q', m);
    } else if q' >= q + 1 {
      Monotone(q - q', -1, m);
    }
  }

  function Min(a: nat, b: nat): nat { if a < b then a else b }

  function Pow2(k: nat): (p: nat)
    ensures p >= 1
  {
    if k == 0 then 1 else 2 * Pow2(k - 1)
  }

  lemma {:induction false} PowGrows(j: nat, k: nat)
    requires j <= k
    ensures Pow2(j) <= Pow2(k)
  {
    if j < k { PowGrows(j, k - 1); }
  }

  // bits.Len: how many bits a number needs.
  function Len(x: nat): (k: nat)
    ensures Pow2(k) > x && (x > 0 ==> Pow2(k) <= 2 * x)
  {
    if x == 0 then 0 else 1 + Len(x / 2)
  }
}

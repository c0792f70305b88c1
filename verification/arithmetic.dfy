/** Division and multiples, where the solver needs a hand. */
module Arithmetic {

  lemma DivMod(q: nat, r: nat, d: nat)
    requires r < d
    ensures (q * d + r) / d == q && (q * d + r) % d == r
  {
    var n := q * d + r;
    assert n == n / d * d + n % d;
    Multiples(n / d, q, d);
    Multiples(q, n / d, d);
  }

  lemma {:induction false} Multiples(a: nat, b: nat, d: nat)
    ensures a < b ==> a * d + d <= b * d
  {
    if a < b {
      assert b * d == (b - 1) * d + d;
      Multiples(a, b - 1, d);
    }
  }
}

/** Division facts the solver does not find by itself. */
module Arithmetic {
  import opened Wrappers

  lemma DivIs(n: nat, p: pos, q: nat, r: nat)
    requires n == q * p + r && r < p
    ensures n / p == q && n % p == r
  {
    var a, b := n / p, n % p;
    assert n == a * p + b;
    assert a < q ==> (a + 1) * p <= q * p;
    assert q < a ==> (q + 1) * p <= a * p;
  }

  lemma MultipleIsMultiple(a: nat, f: pos)
    ensures a * f % f == 0
    ensures (a + 1) * f == a * f + f
  {
    DivIs(a * f, f, a, 0);
  }
}

/** Facts about products and quotients that the solver does not find by itself. */
module Arith {
  lemma MulMono(a: nat, b: nat, p: nat)
    requires a <= b
    ensures a * p <= b * p
  {
  }

  lemma QuotientIs(k: nat, p: nat, d: nat)
    requires 0 < p && k * p <= d < k * p + p
    ensures d / p == k
  {
    var q := d / p;
    assert q * p <= d < q * p + p;
    MulMono(if q < k then q + 1 else k, k, p);
    MulMono(if k < q then k + 1 else q, q, p);
  }
}

/** Facts about products and quotients shared by several models. */
module Arithmetic {
  /** Quotient and remainder are unique. */
  lemma ModUnique(a: nat, d: nat, q: nat, r: nat)
    requires a == q * d + r && r < d
    ensures a % d == r
  {
    var z := a / d;
    assert z * d + a % d == a;
    assert z < q ==> (z + 1) * d <= q * d;
    assert z > q ==> (q + 1) * d <= z * d;
  }

  lemma TimesMonotone(k: nat, x: int, y: int)
    requires x <= y
    ensures k * x <= k * y
  {
    assert k * y == k * x + k * (y - x);
  }
}

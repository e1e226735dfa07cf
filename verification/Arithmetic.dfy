module Arithmetic {
  lemma OneMore(n: nat, d: nat)
    ensures (n + 1) * d == n * d + d && 0 <= n * d
  {
  }

  lemma {:induction false} MultiplesAscend(p: nat, q: nat, d: nat)
    requires p < q
    ensures p * d + d <= q * d
    decreases q
  {
    assert q * d == (q - 1) * d + d;
    if p < q - 1 {
      MultiplesAscend(p, q - 1, d);
    }
  }

  lemma QuotientUnique(n: nat, d: nat, q: nat, r: nat)
    requires 1 <= d && n == q * d + r && r < d
    ensures n / d == q
  {
    if n / d < q {
      MultiplesAscend(n / d, q, d);
    } else if q < n / d {
      MultiplesAscend(q, n / d, d);
    }
  }
}

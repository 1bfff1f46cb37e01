// Division facts that rings of slots, buckets and holders share.
module Arithmetic {

  lemma QuotientUnique(n: int, q: int, r: int, q': int, r': int)
    requires 0 <= r < n && 0 <= r' < n && q * n + r == q' * n + r'
    ensures q == q' && r == r'
  {
    assert q < q' ==> (q + 1) * n <= q' * n;
    assert q' < q ==> (q' + 1) * n <= q * n;
  }

  lemma DivMod(a: int, n: int, q: int, r: int)
    requires 0 < n && a == q * n + r && 0 <= r < n
    ensures a / n == q && a % n == r
  {
    QuotientUnique(n, q, r, a / n, a % n);
  }

  // Numbers of one remainder that are less than n apart are the same.
  lemma SameRemainder(n: int, a: int, b: int)
    requires 0 < n && a % n == b % n && a <= b < a + n
    ensures a == b
  {
    QuotientUnique(n, a / n, b - a, b / n, 0);
  }
}

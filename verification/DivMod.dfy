/** The facts about division by a variable that the queue and the swap file need. */
module DivMod {

  lemma {:induction false} MulMonotone(a: nat, b: nat, n: nat)
    requires a <= b
    ensures a * n <= b * n
  {
    assert (b - a) * n >= 0;
    assert b * n == a * n + (b - a) * n;
  }

  /** A number is determined by its quotient and remainder. */
  lemma Unique(k: int, n: nat, q: int, r: nat)
    requires n > 0 && r < n && k == q * n + r
    ensures k / n == q && k % n == r
  {
    var d := k / n - q;
    assert k == n * (k / n) + k % n;
    assert d * n == r - k % n;
    assert (-d) * n == -(d * n);
    if d >= 1 {
      MulMonotone(1, d, n);
    } else if d <= -1 {
      MulMonotone(1, -d, n);
    }
  }

  lemma SameQuotientAndRemainder(k: nat, l: nat, n: nat)
    requires n > 0 && k / n == l / n && k % n == l % n
    ensures k == l
  {
    assert k == n * (k / n) + k % n;
    assert l == n * (l / n) + l % n;
  }

  lemma AddBlock(k: int, n: nat)
    requires n > 0
    ensures (k + n) / n == k / n + 1 && (k + n) % n == k % n
  {
    assert k == (k / n) * n + k % n;
    assert (k / n + 1) * n == (k / n) * n + n;
    Unique(k + n, n, k / n + 1, k % n);
  }

  lemma SmallNumber(k: nat, n: nat)
    requires k < n
    ensures k / n == 0 && k % n == k
  {
    Unique(k, n, 0, k);
  }
}

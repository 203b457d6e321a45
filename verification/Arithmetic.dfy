/** Facts about products and remainders. */
module Arithmetic {

  lemma Scale(a: int, b: int, m: nat)
    ensures a <= b ==> a * m <= b * m
  {
    if a <= b {
      assert b * m == a * m + (b - a) * m;
    }
  }

  /** The remainder is the only number below the divisor that is left after taking out a multiple. */
  lemma ModUnique(x: int, n: nat, q: int, r: nat)
    requires n > 0 && r < n && x == q * n + r
    ensures x % n == r
  {
    Scale(q + 1, x / n, n);
    Scale(x / n + 1, q, n);
    assert x == n * (x / n) + x % n;
  }

  lemma ModShift(x: int, k: int, n: nat)
    requires n > 0
    ensures (x + k * n) % n == x % n
  {
    var q, r := x / n, x % n;
    assert x + k * n == (q + k) * n + r;
    ModUnique(x + k * n, n, q + k, r);
  }

  /** Equal remainders can be shifted together. */
  lemma ModAdd(x: int, y: int, k: int, n: nat)
    requires n > 0 && x % n == y % n
    ensures (x + k) % n == (y + k) % n
  {
    var q := x / n - y / n;
    assert x == (x / n) * n + x % n && y == (y / n) * n + y % n;
    assert x + k == (y + k) + q * n;
    ModShift(y + k, q, n);
  }
}

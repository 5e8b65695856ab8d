/** Division facts the solver does not find on its own. */
module Arithmetic {
  lemma RemainderUnique(x: int, m: int, q: int, r: int)
    requires m > 0 && x == q * m + r && 0 <= r < m
    ensures x % m == r && x / m == q
  {
    assert (x / m - q) * m == r - x % m;
    NonzeroMultiple(x / m - q, m);
  }

  lemma NonzeroMultiple(d: int, m: int)
    requires m > 0
    ensures d == 0 || d * m >= m || d * m <= -m
  {
  }

  /** Multiples of m are m apart. */
  lemma MultipleBetween(x: int, q: int, m: int)
    requires m > 0 && q * m < x < q * m + m
    ensures x % m != 0 && x / m == q
  {
    RemainderUnique(x, m, q, x - q * m);
  }

  lemma ExactMultiple(q: int, m: int)
    requires m > 0
    ensures (q * m) % m == 0 && (q * m) / m == q
    ensures (q + 1) * m == q * m + m
  {
    RemainderUnique(q * m, m, q, 0);
  }

  function Pow2(n: nat): (p: nat)
    ensures p > 0
  {
    if n == 0 then 1 else 2 * Pow2(n - 1)
  }

  lemma {:induction false} Pow2Add(a: nat, b: nat)
    ensures Pow2(a + b) == Pow2(a) * Pow2(b)
  {
    if b > 0 {
      Pow2Add(a, b - 1);
    }
  }

  /** Scaling dividend and divisor alike. */
  lemma DivideScaled(c: nat, m: nat, k: nat)
    requires m > 0 && k > 0
    ensures m * k > 0 && c * k / (m * k) == c / m && c * k % (m * k) == c % m * k
  {
    var q, r := c / m, c % m;
    assert c == q * m + r;
    assert c * k == q * (m * k) + r * k;
    assert r * k < m * k;
    RemainderUnique(c * k, m * k, q, r * k);
  }
}

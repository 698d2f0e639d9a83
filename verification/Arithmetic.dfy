/** Division with remainder on natural numbers. */
module Arithmetic {

  /** 64-bit numbers wrap around here. */
  const Wrap: nat := 0x1_0000_0000_0000_0000

  lemma {:induction false} DivMod(t: nat, n: nat)
    requires 0 < n
    ensures t == (t / n) * n + t % n && t % n < n
  {
  }

  lemma AtLeastOnce(k: int, n: nat)
    requires 1 <= k
    ensures k * n >= n
  {
    assert k * n == (k - 1) * n + n;
    assert (k - 1) * n >= 0;
  }

  /** Quotient and remainder are unique. */
  lemma Unique(n: nat, q: nat, r: nat, q': nat, r': nat)
    requires r < n && r' < n && q * n + r == q' * n + r'
    ensures q == q' && r == r'
  {
    if q < q' {
      assert (q' - q) * n == q' * n - q * n;
      AtLeastOnce(q' - q, n);
      assert false;
    }
    if q' < q {
      assert (q - q') * n == q * n - q' * n;
      AtLeastOnce(q - q', n);
      assert false;
    }
  }

  lemma Combine(n: nat, q: nat, r: nat)
    requires r < n
    ensures (q * n + r) / n == q && (q * n + r) % n == r
  {
    DivMod(q * n + r, n);
    Unique(n, (q * n + r) / n, (q * n + r) % n, q, r);
  }

  lemma Positive(m: nat, n: nat)
    requires 0 < m && 0 < n
    ensures 0 < m * n
  {
    AtLeastOnce(m, n);
  }

  lemma Below(q: nat, r: nat, n: nat, m: nat)
    requires r < n && q < m
    ensures q * n + r < m * n
  {
    assert (m - q) * n == m * n - q * n;
    AtLeastOnce(m - q, n);
  }

  lemma BelowIff(q: nat, r: nat, n: nat, m: nat)
    requires r < n
    ensures q * n + r < m * n <==> q < m
  {
    if q < m {
      Below(q, r, n, m);
    } else {
      assert (q - m) * n == q * n - m * n;
      assert (q - m) * n >= 0;
    }
  }

  /** The quotient of a number below m * n is below m. */
  lemma QuotientBelow(t: nat, n: nat, m: nat)
    requires 0 < n && t < m * n
    ensures t / n < m
  {
    DivMod(t, n);
    BelowIff(t / n, t % n, n, m);
  }

  function Quotient(x: nat, n: nat): nat
    requires 0 < n
  {
    x / n
  }

  lemma AddMultiple(low: nat, k: nat, n: nat)
    requires 0 < n
    ensures (low + k * n) / n == low / n + k && (low + k * n) % n == low % n
  {
    DivMod(low, n);
    assert low + k * n == (low / n + k) * n + low % n;
    Combine(n, low / n + k, low % n);
  }

  lemma Associate(q: nat, m: nat, n: nat)
    ensures (q * m) * n == q * (m * n)
  {
  }

  lemma NotLess(x: nat, y: nat, n: nat)
    requires x <= y
    ensures x * n <= y * n
  {
    assert (y - x) * n == y * n - x * n;
    assert (y - x) * n >= 0;
  }

  /** Taking the remainder by a multiple first changes nothing. */
  lemma Nested(t: nat, n: nat, m: nat)
    requires 0 < n && 0 < m
    ensures 0 < m * n && (t % (m * n)) % n == t % n
  {
    Positive(m, n);
    var q, rest := t / (m * n), t % (m * n);
    DivMod(t, m * n);
    Associate(q, m, n);
    AddMultiple(rest, q * m, n);
  }
}

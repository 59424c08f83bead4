/** Division with remainder. */
module Division {
  lemma {:induction false} ProductGrows(n: int, a: int, b: int)
    requires n >= 0 && a < b
    ensures a * n + n <= b * n
  {
    assert b * n == (a + 1) * n + (b - (a + 1)) * n;
  }

  /** A remainder is determined by the dividend and the divisor. */
  lemma {:induction false} RemainderUnique(n: int, q: int, p: int, q': int, p': int)
    requires 0 <= p < n && 0 <= p' < n && q * n + p == q' * n + p'
    ensures p == p'
  {
    if q < q' {
      ProductGrows(n, q, q');
    } else if q' < q {
      ProductGrows(n, q', q);
    }
  }

  lemma {:induction false} MultipleOf(y: nat, p: nat, q: nat)
    requires p > 0 && y == p * q
    ensures y % p == 0
  {
    assert y == (y / p) * p + y % p;
    RemainderUnique(p, q, 0, y / p, y % p);
  }
}

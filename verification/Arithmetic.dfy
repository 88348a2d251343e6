/** Division with remainder where the divisor is a variable. */
module Arithmetic {
  lemma AtLeastOne(d: nat, m: nat)
    requires d > 0
    ensures d * m >= m
  {
  }

  lemma OneRemainder(q: nat, r: nat, d: nat, e: nat, m: nat)
    requires q * m + r == d * m + e && r < m && e < m
    ensures r == e
  {
    if q < d {
      AtLeastOne(d - q, m);
    } else if d < q {
      AtLeastOne(q - d, m);
    }
  }

  lemma LessIsItsRemainder(n: nat, m: nat)
    requires n < m
    ensures n % m == n
  {
    OneRemainder(n / m, n % m, 0, n, m);
  }

  lemma OneModulusMore(n: nat, m: nat)
    requires m > 0
    ensures (n + m) % m == n % m
  {
    var q, r := n / m, n % m;
    assert n + m == (q + 1) * m + r;
    OneRemainder((n + m) / m, (n + m) % m, q + 1, r, m);
  }

  /** Numbers closer than the divisor have different remainders. */
  lemma CloseRemaindersDiffer(i: nat, k: nat, m: nat)
    requires i < k < i + m
    ensures k % m != i % m
  {
    var p, q := i / m, k / m;
    assert i == p * m + i % m && k == q * m + k % m;
    if p < q {
      AtLeastOne(q - p, m);
    } else if q < p {
      AtLeastOne(p - q, m);
    }
  }
}

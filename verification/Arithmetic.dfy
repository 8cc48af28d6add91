/** Division facts that the number codecs, the pages and the rotation share. */
module Arithmetic {

  lemma AtLeastOne(k: int, m: int)
    requires k >= 1 && m > 0
    ensures k * m >= m
  {
    assert k * m == (k - 1) * m + m;
  }

  lemma ScalesUp(a: int, b: int, m: int)
    requires a >= b && m > 0
    ensures a * m >= b * m
  {
  }

  /** Quotient and remainder are unique. */
  lemma DivisionIsUnique(a: int, n: int, q: int, r: int)
    requires n > 0 && a == q * n + r && 0 <= r < n
    ensures a / n == q && a % n == r
  {
    var p, s := a / n, a % n;
    assert a == p * n + s;
    if q > p {
      AtLeastOne(q - p, n);
    } else if q < p {
      AtLeastOne(p - q, n);
    }
  }

  lemma ScaledApart(p: int, q: int, m: int)
    requires m > 0
    ensures p < q ==> p * m + m <= q * m
    ensures p == q ==> p * m == q * m
  {
    if p < q {
      AtLeastOne(q - p, m);
      assert (q - p) * m == q * m - p * m;
    }
  }

  lemma MultiplesAreApart(a: int, b: int, m: int)
    requires m > 0 && a % m == 0 && b % m == 0
    ensures a < b ==> a + m <= b
    ensures b < a ==> b + m <= a
  {
    var p, q := a / m, b / m;
    ScaledApart(p, q, m);
    ScaledApart(q, p, m);
    assert a == p * m + a % m && b == q * m + b % m;
  }
}

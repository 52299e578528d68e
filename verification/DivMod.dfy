/** Integer division facts, each proved from the defining equation of / and %. */
module DivMod {

  lemma MulLe(a: int, b: int, c: int)
    requires a <= b && 0 <= c
    ensures a * c <= b * c
  {
  }

  lemma CancelMul(a: int, b: int, c: int)
    requires 0 < c && a * c < b * c
    ensures a < b
  {
  }

  lemma DivBounds(n: int, d: int)
    requires 0 < d
    ensures (n / d) * d <= n < (n / d) * d + d
  {
    assert n == (n / d) * d + n % d;
  }

  lemma DivUnique(n: int, d: int, q: int)
    requires 0 < d && q * d <= n < q * d + d
    ensures n / d == q
  {
    DivBounds(n, d);
    var k := n / d;
    assert k * d < (q + 1) * d;
    CancelMul(k, q + 1, d);
    assert q * d < (k + 1) * d;
    CancelMul(q, k + 1, d);
  }

  /** q is the quotient exactly when it brackets n. */
  lemma QuotientBounds(n: int, d: int, q: int)
    requires 0 < d
    ensures n / d == q <==> q * d <= n < q * d + d
  {
    DivBounds(n, d);
    if q * d <= n < q * d + d {
      DivUnique(n, d, q);
    }
  }

  lemma QuotientBelow(n: int, d: int, q: int)
    requires 0 < d && 0 <= n < q * d
    ensures 0 <= n / d < q
  {
    DivBounds(n, d);
    CancelMul(n / d, q, d);
    CancelMul(-1, n / d, d);
  }

  lemma ModOfMultiple(q: int, d: int)
    requires 0 < d
    ensures (q * d) % d == 0
  {
    DivUnique(q * d, d, q);
    assert q * d == ((q * d) / d) * d + (q * d) % d;
  }

  lemma MulAssoc(q: int, a: int, b: int)
    requires 0 < a && 0 < b
    ensures a * b > 0
    ensures q * b * a == q * (a * b)
    ensures (q * b + b) * a == q * (a * b) + a * b
  {
  }

  lemma NestedQuotient(n: int, a: int, b: int)
    requires 0 < a && 0 < b
    ensures a * b > 0
    ensures n / (a * b) == (n / a) / b
  {
    DivBounds(n, a);
    DivBounds(n / a, b);
    var m, q := n / a, (n / a) / b;
    MulLe(q * b, m, a);
    MulLe(m + 1, q * b + b, a);
    MulAssoc(q, a, b);
    DivUnique(n, a * b, q);
  }

  /** Of the cells of size d, the first `count` hold exactly the first count * d numbers. */
  lemma CellMembership(n: int, d: int, q: int, count: int)
    requires 0 < d && q * d <= n < q * d + d
    ensures 0 <= n < count * d <==> 0 <= q < count
  {
    if 0 <= q {
      MulLe(0, q, d);
    } else {
      MulLe(q + 1, 0, d);
    }
    if q < count {
      MulLe(q + 1, count, d);
    } else {
      MulLe(count, q, d);
    }
  }

  function CeilDiv(n: int, d: int): (q: int)
    requires 0 <= n && 0 < d
    ensures (q - 1) * d < n <= q * d || (n == 0 && q == 0)
  {
    DivBounds(n + d - 1, d);
    (n + d - 1) / d
  }

  lemma CeilDivExact(q: int, d: int)
    requires 0 < d && 0 <= q
    ensures 0 <= q * d
    ensures CeilDiv(q * d, d) == q
  {
    MulLe(0, q, d);
    DivUnique(q * d + d - 1, d, q);
  }
}

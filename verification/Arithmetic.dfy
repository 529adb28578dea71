/** The few facts about products and quotients that the index arithmetic needs. */
module Arithmetic {

  lemma MulGrows(b: nat, p: nat, q: nat)
    requires p <= q
    ensures b * p <= b * q && p * b <= q * b
  {
    assert b * q == b * p + b * (q - p);
  }

  lemma MulStep(b: int, q: int)
    ensures b * (q + 1) == b * q + b && (q + 1) * b == q * b + b
  {
  }

  lemma QuotientBound(b: nat, q: nat, r: nat, p: nat)
    requires r < b && b * p <= b * q + r
    ensures p <= q
  {
    if p > q {
      MulGrows(b, q + 1, p);
      MulStep(b, q);
    }
  }

  /** A quotient and remainder are unique. */
  lemma DivUnique(n: nat, b: nat, q: nat, r: nat)
    requires b > 0 && n == b * q + r && r < b
    ensures n / b == q && n % b == r
  {
    assert n == b * (n / b) + n % b;
    QuotientBound(b, q, r, n / b);
    QuotientBound(b, n / b, n % b, q);
  }

  lemma DivDown(n: nat, b: nat)
    requires b > 0
    ensures (n / b) * b <= n
    ensures n < b ==> n / b == 0
    ensures n >= b ==> n / b == (n - b) / b + 1
  {
    assert n == b * (n / b) + n % b;
    if n < b {
      DivUnique(n, b, 0, n);
    } else {
      var q := (n - b) / b;
      assert n - b == b * q + (n - b) % b;
      MulStep(b, q);
      DivUnique(n, b, q + 1, (n - b) % b);
    }
  }

  lemma MulSpread(a: int, b: int, c: int)
    ensures a * (b + c) == a * b + a * c
  {
  }

  lemma MulShift(a: int, b: int, c: int)
    ensures a * (b * c) == (a * b) * c
  {
  }

  /** Two digits below a third: the value and bound of the lower part. */
  lemma NestedDigits(m: nat, n: nat, t: nat, u: nat, s: nat)
    requires u < m && s < n
    ensures n * (m * t + u) + s == (n * m) * t + (n * u + s)
    ensures n * u + s < n * m
  {
    MulSpread(n, m * t, u);
    MulShift(n, m, t);
    MulStep(n, u);
    MulGrows(n, u + 1, m);
  }

  lemma DigitsOf(r: nat, b: nat)
    requires b > 0
    ensures r == b * (r / b) + r % b && r % b < b
  {
  }

  lemma PositiveProduct(m: nat, n: nat)
    requires m > 0 && n > 0
    ensures m * n > 0 && n * m > 0
  {
    MulGrows(m, 1, n);
  }

  /** Dividing by a product is dividing twice; the remainders nest. */
  lemma DivDiv(r: nat, m: nat, n: nat)
    requires m > 0 && n > 0
    ensures n * m > 0
    ensures r / (n * m) == (r / n) / m
    ensures (r % (n * m)) / n == (r / n) % m && (r % (n * m)) % n == r % n
  {
    PositiveProduct(n, m);
    DigitsOf(r, n);
    DigitsOf(r / n, m);
    var t, u, s := (r / n) / m, (r / n) % m, r % n;
    NestedDigits(m, n, t, u, s);
    DivUnique(r, n * m, t, n * u + s);
    DivUnique(n * u + s, n, u, s);
  }
}

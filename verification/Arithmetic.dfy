/** Products and quotients. */
module Arithmetic {

  lemma ProductGrows(a: int, b: int, c: nat)
    requires a <= b
    ensures a * c <= b * c
  {
  }

  lemma DivModUnique(x: int, p: int, d: int, m: int)
    requires p >= 1 && x == p * d + m && 0 <= m < p
    ensures x / p == d && x % p == m
  {
    var e, n := x / p, x % p;
    assert p * (d - e) == n - m;
    if d > e { ProductGrows(1, d - e, p); }
    if d < e { ProductGrows(1, e - d, p); }
  }

  lemma QuotientFits(n: nat, d: nat)
    requires d > 0
    ensures n / d * d <= n < n / d * d + d
  {
  }

  lemma RowFits(row: nat, rows: nat, width: nat)
    requires row < rows
    ensures row * width + width <= rows * width
  {
    ProductGrows(row + 1, rows, width);
  }

  lemma Distribute(n: nat, a: nat, b: nat, c: nat)
    ensures n * (a + (b + c)) == n * a + n * b + n * c
  {
  }

  lemma EqualProducts(n: nat, a: nat, b: nat)
    ensures n * a == n * b <==> n == 0 || a == b
  {
    if n > 0 && a < b { ProductGrows(1, b - a, n); }
    if n > 0 && b < a { ProductGrows(1, a - b, n); }
  }

  /** Taking the remainder first does not change the remainder. */
  lemma RemainderFirst(v: nat, f: nat, b: nat, m: nat)
    requires m > 0
    ensures (v % m * f + b) % m == (v * f + b) % m
  {
    var q, r := v / m, v % m;
    var d, n := (r * f + b) / m, (r * f + b) % m;
    assert v * f == (m * q) * f + r * f;
    assert v * f + b == m * (q * f + d) + n;
    DivModUnique(v * f + b, m, q * f + d, n);
  }
}

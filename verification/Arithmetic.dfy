/** The smaller of two numbers, and division by a positive one. */
module Arithmetic {
  function MinInt(a: int, b: int): int { if a < b then a else b }

  lemma Distribute(m: int, a: int, b: int)
    ensures m * (a - b) == m * a - m * b
  {
  }

  lemma AtLeastOnce(m: int, d: int)
    requires m > 0 && d > 0
    ensures m * d >= m
  {
  }

  lemma NotBelowZero(m: int, d: int)
    requires m > 0 && m * d > -m
    ensures d >= 0
  {
  }

  lemma DivisionIsUnique(v: int, m: nat, q: int, r: int)
    requires m > 0 && 0 <= r < m && v == m * q + r
    ensures v / m == q && v % m == r
  {
    var q', r' := v / m, v % m;
    Distribute(m, q, q');
    if q > q' { AtLeastOnce(m, q - q'); }
    if q < q' { AtLeastOnce(m, q' - q); Distribute(m, q', q); }
  }

  lemma QuotientIsNotNegative(a: int, m: int)
    requires a >= 0 && m > 0
    ensures a / m >= 0
  {
  }

  lemma QuotientGrows(a: int, b: int, m: int)
    requires a <= b && m > 0
    ensures a / m <= b / m
  {
    Distribute(m, b / m, a / m);
    NotBelowZero(m, b / m - a / m);
  }
}

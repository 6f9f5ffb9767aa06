/** Quotients and remainders, from their defining equation. */
module Division {

  lemma MulOrder(b: int, x: int, y: int)
    requires b >= 0 && x <= y
    ensures b * x <= b * y
  {
    assert b * y == b * x + b * (y - x);
  }

  lemma MulApart(b: int, x: int, y: int)
    requires b > 0 && x < y
    ensures b * x + b <= b * y
  {
    MulOrder(b, x + 1, y);
    assert b * (x + 1) == b * x + b;
  }

  lemma QuotientFacts(a: int, b: int)
    requires b > 0
    ensures a == b * (a / b) + a % b && 0 <= a % b < b
  {
  }

  /** The only way to write `a` as a multiple of `b` and a rest below `b`. */
  lemma QuotientIs(a: int, b: int, q: int, r: int)
    requires b > 0 && a == b * q + r && 0 <= r < b
    ensures a / b == q && a % b == r
  {
    QuotientFacts(a, b);
    var f := a / b;
    if f < q { MulApart(b, f, q); }
    if q < f { MulApart(b, q, f); }
  }

  /** Equal numbers have equal quotients and rests. */
  lemma SameQuotient(b: int, m: int, x: int, n: int, y: int)
    requires b > 0 && 0 <= x < b && 0 <= y < b && b * m + x == b * n + y
    ensures m == n && x == y
  {
    QuotientIs(b * m + x, b, m, x);
    QuotientIs(b * m + x, b, n, y);
  }

  lemma Regrouped(a: int, k: int, b: int, q: int, s: int, t: int)
    requires a == (k * b) * q + (b * s + t)
    ensures a == b * (k * q + s) + t
  {
    assert (k * b) * q == b * (k * q);
    assert b * (k * q + s) == b * (k * q) + b * s;
  }

  /** A rest survives in the rest of a multiple of the divisor. */
  lemma RestOfRest(a: int, k: int, b: int)
    requires k > 0 && b > 0
    ensures k * b > 0 && a % (k * b) % b == a % b
  {
    MulApart(b, 0, k);
    assert k * b == b * k;
    var q, r := a / (k * b), a % (k * b);
    QuotientFacts(a, k * b);
    QuotientFacts(r, b);
    Regrouped(a, k, b, q, r / b, r % b);
    QuotientIs(a, b, k * q + r / b, r % b);
  }
}

/** Quotients and remainders of real numbers, truncated towards zero. */
module Remainders {
  import opened Reals

  lemma ProductLaws(n: int, y: real)
    ensures Times((n + 1) as real, y) == Times(n as real, y) + y
    ensures Times(n as real, -y) == -Times(n as real, y) == Times((-n) as real, y)
    ensures Times(0.0, y) == 0.0
  {
    assert (n + 1) as real == n as real + 1.0;
    assert (-n) as real == -(n as real);
    assert (n as real + 1.0) * y == n as real * y + y;
  }

  /** n * y <= x < (n + 1) * y */
  lemma TruncBounds(x: real, y: real)
    requires x >= 0.0 && y > 0.0
    ensures var n := Truncate(Quotient(x, y));
      n >= 0 && Times(n as real, y) <= x < Times(n as real, y) + y && 0.0 <= Remainder(x, y) < y
  {
    var q := Quotient(x, y);
    assert q * y == x;
    assert q >= 0.0 by { if q < 0.0 { NegativeProduct(q, y); } }
    FloorBounds(q.Floor as real, q, y);
  }

  lemma FloorBounds(u: real, q: real, y: real)
    requires y > 0.0 && u <= q < u + 1.0
    ensures Times(u, y) <= q * y < Times(u, y) + y
  {
    var r := u + 1.0 - q;
    NotNegative(q - u, y);
    PositiveProduct(r, y);
    assert (q - u) * y == q * y - u * y;
    assert q == u + 1.0 - r;
    assert q * y == u * y + y - r * y;
    var (f, g, h) := (q * y, u * y, r * y);
    assert h > 0.0 && f == g + y - h;
  }

  lemma PositiveProduct(q: real, y: real)
    requires q > 0.0 && y > 0.0
    ensures q * y > 0.0
  {
  }

  lemma NegativeProduct(q: real, y: real)
    requires q < 0.0 && y > 0.0
    ensures q * y < 0.0
  {
  }

  lemma TruncIs(x: real, y: real, n: nat)
    requires y > 0.0 && Times(n as real, y) <= x < Times(n as real, y) + y
    ensures Truncate(Quotient(x, y)) == n && Remainder(x, y) == x - Times(n as real, y)
  {
    hide Times, Quotient, Truncate;
    ProductNotNegative(n, y);
    TruncBounds(x, y);
    var m := Truncate(Quotient(x, y));
    if m < n { ProductGrows(m + 1, n, y); ProductLaws(m, y); }
    if n < m { ProductGrows(n + 1, m, y); ProductLaws(n, y); }
  }

  lemma ProductNotNegative(n: nat, y: real)
    requires y >= 0.0
    ensures Times(n as real, y) >= 0.0
  {
    NotNegative(n as real, y);
  }

  lemma ProductGrows(m: int, n: int, y: real)
    requires m <= n && y >= 0.0
    ensures Times(m as real, y) <= Times(n as real, y)
  {
    NotNegative(n as real - m as real, y);
    assert (n as real - m as real) * y == n as real * y - m as real * y;
  }

  /** Only the sign of the dividend matters. */
  lemma Signs(x: real, y: real)
    requires y != 0.0
    ensures Remainder(-x, y) == -Remainder(x, y) && Remainder(x, -y) == Remainder(x, y)
    ensures Truncate(Quotient(-x, y)) == -Truncate(Quotient(x, y)) == Truncate(Quotient(x, -y))
  {
    hide Quotient, Times, Truncate;
    QuotientSigns(x, y);
    TruncSign(Quotient(x, y));
    ProductLaws(Truncate(Quotient(x, y)), y);
    ProductLaws(-Truncate(Quotient(x, y)), y);
  }

  lemma QuotientSigns(x: real, y: real)
    requires y != 0.0
    ensures Quotient(-x, y) == -Quotient(x, y) == Quotient(x, -y)
  {
    var q := x / y;
    assert q * y == x;
    assert (-q) * y == -x && (-q) * (-y) == x;
    QuotientIsUnique(-x, y, -q);
    QuotientIsUnique(x, -y, -q);
  }

  lemma QuotientIsUnique(x: real, y: real, q: real)
    requires y != 0.0 && q * y == x
    ensures Quotient(x, y) == q
  {
  }

  lemma TruncSign(q: real)
    ensures Truncate(-q) == -Truncate(q)
  {
  }

  lemma RemBounds(x: real, y: real)
    requires y != 0.0
    ensures Abs(Remainder(x, y)) < Abs(y)
    ensures (x >= 0.0 ==> Remainder(x, y) >= 0.0) && (x <= 0.0 ==> Remainder(x, y) <= 0.0)
  {
    hide Times, Quotient, Remainder;
    TruncBounds(Abs(x), Abs(y));
    Signs(Abs(x), Abs(y));
    Signs(-Abs(x), Abs(y));
    Signs(0.0, y);
  }

  lemma TruncMonotone(p: real, q: real)
    requires p <= q
    ensures Truncate(p) <= Truncate(q)
  {
  }

  lemma RemIs(x: real, y: real)
    requires y != 0.0
    ensures Remainder(x, y) == x - Times(Truncate(Quotient(x, y)) as real, y)
  {
  }

  lemma Divided(x: real, c: real) returns (q: real)
    requires c > 0.0
    ensures Times(c, q) == x
  {
    q := x / c;
  }

  lemma CancelFactor(c: real, p: real, q: real)
    requires c > 0.0
    ensures Times(c, p) <= Times(c, q) ==> p <= q
    ensures Times(c, p) < Times(c, q) ==> p < q
  {
  }

  function TimesOver(n: int, y: real): real { n as real * y }

  ghost predicate IsMultiple(d: real, y: real) { exists n: int :: d == TimesOver(n, y) }

  /** What the remainder of x by y is, however it is computed: it has the sign of x, is smaller than y, and differs from
      x by an integer multiple of y. */
  ghost predicate RemainderOf(r: real, x: real, y: real) {
    && Abs(r) < Abs(y) && (x >= 0.0 ==> r >= 0.0) && (x <= 0.0 ==> r <= 0.0)
    && IsMultiple(x - r, y)
  }

  lemma RemainderMeets(x: real, y: real)
    requires y != 0.0
    ensures RemainderOf(Remainder(x, y), x, y)
  {
    hide Times, Quotient, Truncate, Remainder;
    RemBounds(x, y);
    var n := Truncate(Quotient(x, y));
    assert x - Remainder(x, y) == TimesOver(n, y) by { RemIs(x, y); OverIsTimes(n, y); }
  }

  lemma OverIsTimes(n: int, y: real)
    ensures TimesOver(n, y) == Times(n as real, y)
  {
  }
}

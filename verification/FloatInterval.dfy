/** Interval arithmetic: FloatInterval, and DoubleInterval, which does the same in the other format. */
module FloatInterval {
  import opened Collections
  import opened Reals
  import opened FloatingPoint

  predicate Contains(fmt: Format, i: Interval, x: real)
    requires fmt.Valid()
  {
    Value(fmt, i.inf) <= x <= Value(fmt, i.sup)
  }

  function Min(fmt: Format, a: Float, b: Float): Float
    requires fmt.Valid()
  {
    if Value(fmt, b) < Value(fmt, a) then b else a
  }

  function Max(fmt: Format, a: Float, b: Float): Float
    requires fmt.Valid()
  {
    if Value(fmt, b) > Value(fmt, a) then b else a
  }

  /** One ulp outwards; the subtraction and the addition round, too. */
  function RoundedInterval(fmt: Format, rnd: real -> Float, inf: Float, sup: Float): Interval
    requires fmt.Valid()
  {
    Interval(rnd(Value(fmt, inf) - Ulp(fmt, inf)), rnd(Value(fmt, sup) + Ulp(fmt, sup)))
  }

  function Add(fmt: Format, rnd: real -> Float, a: Interval, b: Interval): Interval
    requires fmt.Valid()
  {
    var v1, v2 := rnd(Value(fmt, a.inf) + Value(fmt, b.inf)), rnd(Value(fmt, a.sup) + Value(fmt, b.sup));
    RoundedInterval(fmt, rnd, v1, v2)
  }

  function Sub(fmt: Format, rnd: real -> Float, a: Interval, b: Interval): Interval
    requires fmt.Valid()
  {
    var v1, v2 := rnd(Value(fmt, a.inf) - Value(fmt, b.sup)), rnd(Value(fmt, a.sup) - Value(fmt, b.inf));
    RoundedInterval(fmt, rnd, v1, v2)
  }

  /** From the smallest to the greatest of four results. */
  function Hull(fmt: Format, rnd: real -> Float, p: Float, q: Float, r: Float, s: Float): Interval
    requires fmt.Valid()
  {
    RoundedInterval(fmt, rnd, Min(fmt, Min(fmt, p, q), Min(fmt, r, s)), Max(fmt, Max(fmt, p, q), Max(fmt, r, s)))
  }

  function Mul(fmt: Format, rnd: real -> Float, a: Interval, b: Interval): Interval
    requires fmt.Valid()
  {
    var (ai, as_, bi, bs) := (Value(fmt, a.inf), Value(fmt, a.sup), Value(fmt, b.inf), Value(fmt, b.sup));
    Hull(fmt, rnd, rnd(Times(ai, bi)), rnd(Times(ai, bs)), rnd(Times(as_, bi)), rnd(Times(as_, bs)))
  }

  /** None, for an interval that is not a number, where the divisor may be zero. */
  function Div(fmt: Format, rnd: real -> Float, a: Interval, b: Interval): Option<Interval>
    requires fmt.Valid() && Value(fmt, b.inf) <= Value(fmt, b.sup)
  {
    if Contains(fmt, b, 0.0) then None
    else
      var (ai, as_, bi, bs) := (Value(fmt, a.inf), Value(fmt, a.sup), Value(fmt, b.inf), Value(fmt, b.sup));
      Some(Hull(fmt, rnd, rnd(Quotient(ai, bi)), rnd(Quotient(ai, bs)), rnd(Quotient(as_, bi)), rnd(Quotient(as_, bs))))
  }

  //---------------------------------------------------------------- inclusion

  /** The interval reaches from lo to hi, and not more than two ulps further on either side. */
  predicate Tight(fmt: Format, rnd: real -> Float, i: Interval, lo: real, hi: real)
    requires fmt.Valid()
  {
    && lo - 2.0 * Ulp(fmt, rnd(lo)) <= Value(fmt, i.inf) <= lo
    && hi <= Value(fmt, i.sup) <= hi + 2.0 * Ulp(fmt, rnd(hi))
  }

  /** The interval around two rounded numbers reaches from one number to the other. */
  lemma RoundedTight(fmt: Format, rnd: real -> Float, lo: real, hi: real)
    requires fmt.Valid() && Nearest(fmt, rnd)
    ensures Tight(fmt, rnd, RoundedInterval(fmt, rnd, rnd(lo), rnd(hi)), lo, hi)
  {
    hide Nearest, Value, Ulp;
    WithinOneUlp(fmt, rnd, lo);
    WithinOneUlp(fmt, rnd, hi);
    var up, below := UlpAway(fmt, rnd(lo));
    var above, down := UlpAway(fmt, rnd(hi));
    RoundingExact(fmt, rnd, below);
    RoundingExact(fmt, rnd, above);
  }

  /** The sum of two intervals reaches from the smallest sum of elements to the greatest. */
  lemma AddTight(fmt: Format, rnd: real -> Float, a: Interval, b: Interval)
    requires fmt.Valid() && Nearest(fmt, rnd)
    ensures Tight(fmt, rnd, Add(fmt, rnd, a, b), Value(fmt, a.inf) + Value(fmt, b.inf),
      Value(fmt, a.sup) + Value(fmt, b.sup))
  {
    hide Nearest, Value, RoundedInterval, Tight;
    RoundedTight(fmt, rnd, Value(fmt, a.inf) + Value(fmt, b.inf), Value(fmt, a.sup) + Value(fmt, b.sup));
  }

  lemma SubTight(fmt: Format, rnd: real -> Float, a: Interval, b: Interval)
    requires fmt.Valid() && Nearest(fmt, rnd)
    ensures Tight(fmt, rnd, Sub(fmt, rnd, a, b), Value(fmt, a.inf) - Value(fmt, b.sup),
      Value(fmt, a.sup) - Value(fmt, b.inf))
  {
    hide Nearest, Value, RoundedInterval, Tight;
    RoundedTight(fmt, rnd, Value(fmt, a.inf) - Value(fmt, b.sup), Value(fmt, a.sup) - Value(fmt, b.inf));
  }

  lemma AddContains(fmt: Format, rnd: real -> Float, a: Interval, b: Interval, x: real, y: real)
    requires fmt.Valid() && Nearest(fmt, rnd) && Contains(fmt, a, x) && Contains(fmt, b, y)
    ensures Contains(fmt, Add(fmt, rnd, a, b), x + y)
  {
    hide Nearest, Value, Add;
    AddTight(fmt, rnd, a, b);
  }

  lemma SubContains(fmt: Format, rnd: real -> Float, a: Interval, b: Interval, x: real, y: real)
    requires fmt.Valid() && Nearest(fmt, rnd) && Contains(fmt, a, x) && Contains(fmt, b, y)
    ensures Contains(fmt, Sub(fmt, rnd, a, b), x - y)
  {
    hide Nearest, Value, Sub;
    SubTight(fmt, rnd, a, b);
  }

  predicate Between(x: real, p: real, q: real, r: real, s: real) {
    && (p <= x || q <= x || r <= x || s <= x)
    && (x <= p || x <= q || x <= r || x <= s)
  }

  function Min4(p: real, q: real, r: real, s: real): real {
    var m, n := if q < p then q else p, if s < r then s else r;
    if n < m then n else m
  }

  function Max4(p: real, q: real, r: real, s: real): real {
    var m, n := if q > p then q else p, if s > r then s else r;
    if n > m then n else m
  }

  /** Rounding first and taking the smallest, or the other way round. */
  lemma MinOfRounded(fmt: Format, rnd: real -> Float, p: real, q: real)
    requires fmt.Valid() && Nearest(fmt, rnd)
    ensures Value(fmt, Min(fmt, rnd(p), rnd(q))) == Value(fmt, rnd(if q < p then q else p))
    ensures Value(fmt, Max(fmt, rnd(p), rnd(q))) == Value(fmt, rnd(if q > p then q else p))
  {
    hide Nearest, Value;
    if q < p { RoundingMonotone(fmt, rnd, q, p); } else { RoundingMonotone(fmt, rnd, p, q); }
  }

  lemma SameValueSameUlp(fmt: Format, f: Float, g: Float)
    requires fmt.Valid() && Value(fmt, f) == Value(fmt, g)
    ensures Ulp(fmt, f) == Ulp(fmt, g)
  {
    hide Magnitude, Spacing, Scaled;
    SameBits(fmt, f, g);
  }

  lemma SameBits(fmt: Format, f: Float, g: Float)
    requires fmt.Valid() && Value(fmt, f) == Value(fmt, g)
    ensures f.bits == g.bits
  {
    hide Magnitude, Scaled;
    SpacingPositive(fmt, 0);
    var m, n := Magnitude(fmt, f.bits), Magnitude(fmt, g.bits);
    OrderScaled(fmt, m, n);
    OrderScaled(fmt, n, m);
    OrderScaled(fmt, 0, m);
    OrderScaled(fmt, 0, n);
    if f.bits < g.bits { MagnitudeOrder(fmt, f.bits, g.bits); }
    if g.bits < f.bits { MagnitudeOrder(fmt, g.bits, f.bits); }
    if f.bits > 0 { MagnitudeOrder(fmt, 0, f.bits); }
    if g.bits > 0 { MagnitudeOrder(fmt, 0, g.bits); }
  }

  lemma HullTight(fmt: Format, rnd: real -> Float, p: real, q: real, r: real, s: real)
    requires fmt.Valid() && Nearest(fmt, rnd)
    ensures Tight(fmt, rnd, Hull(fmt, rnd, rnd(p), rnd(q), rnd(r), rnd(s)), Min4(p, q, r, s), Max4(p, q, r, s))
  {
    hide Nearest, Value, Ulp, Min, Max, Tight, Min4, Max4;
    var lo, hi := Min4(p, q, r, s), Max4(p, q, r, s);
    RoundedTight(fmt, rnd, lo, hi);
    var f, g := Min(fmt, Min(fmt, rnd(p), rnd(q)), Min(fmt, rnd(r), rnd(s))),
      Max(fmt, Max(fmt, rnd(p), rnd(q)), Max(fmt, rnd(r), rnd(s)));
    MinOfFour(fmt, rnd, p, q, r, s);
    SameValueSameUlp(fmt, f, rnd(lo));
    SameValueSameUlp(fmt, g, rnd(hi));
  }

  lemma HullContains(fmt: Format, rnd: real -> Float, p: real, q: real, r: real, s: real, x: real)
    requires fmt.Valid() && Nearest(fmt, rnd) && Between(x, p, q, r, s)
    ensures Contains(fmt, Hull(fmt, rnd, rnd(p), rnd(q), rnd(r), rnd(s)), x)
  {
    hide Nearest, Value, Hull;
    HullTight(fmt, rnd, p, q, r, s);
  }

  lemma MinOfFour(fmt: Format, rnd: real -> Float, p: real, q: real, r: real, s: real)
    requires fmt.Valid() && Nearest(fmt, rnd)
    ensures Value(fmt, Min(fmt, Min(fmt, rnd(p), rnd(q)), Min(fmt, rnd(r), rnd(s))))
      == Value(fmt, rnd(Min4(p, q, r, s)))
    ensures Value(fmt, Max(fmt, Max(fmt, rnd(p), rnd(q)), Max(fmt, rnd(r), rnd(s))))
      == Value(fmt, rnd(Max4(p, q, r, s)))
  {
    hide Nearest, Value, Min, Max;
    MinOfRounded(fmt, rnd, p, q);
    MinOfRounded(fmt, rnd, r, s);
    var m, n := if q < p then q else p, if s < r then s else r;
    MinOfRounded(fmt, rnd, m, n);
    var k, l := if q > p then q else p, if s > r then s else r;
    MinOfRounded(fmt, rnd, k, l);
    MinOfValues(fmt, Min(fmt, rnd(p), rnd(q)), Min(fmt, rnd(r), rnd(s)), rnd(m), rnd(n));
    MinOfValues(fmt, Max(fmt, rnd(p), rnd(q)), Max(fmt, rnd(r), rnd(s)), rnd(k), rnd(l));
  }

  lemma MinOfValues(fmt: Format, a: Float, b: Float, c: Float, d: Float)
    requires fmt.Valid() && Value(fmt, a) == Value(fmt, c) && Value(fmt, b) == Value(fmt, d)
    ensures Value(fmt, Min(fmt, a, b)) == Value(fmt, Min(fmt, c, d))
      && Value(fmt, Max(fmt, a, b)) == Value(fmt, Max(fmt, c, d))
  {
    hide Value;
  }

  /** A product with one factor in an interval lies between the products with its ends. */
  lemma ProductBetween(a: real, lo: real, hi: real, x: real)
    requires lo <= x <= hi
    ensures (Times(a, lo) <= Times(a, x) <= Times(a, hi)) || (Times(a, hi) <= Times(a, x) <= Times(a, lo))
    ensures Times(a, x) == Times(x, a) && Times(a, lo) == Times(lo, a) && Times(a, hi) == Times(hi, a)
  {
    var s := if a >= 0.0 then a else -a;
    NotNegative(s, x - lo);
    NotNegative(s, hi - x);
    assert s * (x - lo) == s * x - s * lo && s * (hi - x) == s * hi - s * x;
  }

  lemma CornersOfProduct(al: real, ah: real, bl: real, bh: real, x: real, y: real)
    requires al <= x <= ah && bl <= y <= bh
    ensures Between(Times(x, y), Times(al, bl), Times(al, bh), Times(ah, bl), Times(ah, bh))
  {
    hide Times;
    ProductBetween(y, al, ah, x);
    ProductBetween(al, bl, bh, y);
    ProductBetween(ah, bl, bh, y);
  }

  /** The product reaches from the smallest product of ends to the greatest. */
  lemma MulTight(fmt: Format, rnd: real -> Float, a: Interval, b: Interval)
    requires fmt.Valid() && Nearest(fmt, rnd)
    ensures var (al, ah, bl, bh) := (Value(fmt, a.inf), Value(fmt, a.sup), Value(fmt, b.inf), Value(fmt, b.sup));
      Tight(fmt, rnd, Mul(fmt, rnd, a, b), Min4(Times(al, bl), Times(al, bh), Times(ah, bl), Times(ah, bh)),
        Max4(Times(al, bl), Times(al, bh), Times(ah, bl), Times(ah, bh)))
  {
    hide Nearest, Value, Hull, Tight, Times, Min4, Max4;
    var (al, ah, bl, bh) := (Value(fmt, a.inf), Value(fmt, a.sup), Value(fmt, b.inf), Value(fmt, b.sup));
    HullTight(fmt, rnd, Times(al, bl), Times(al, bh), Times(ah, bl), Times(ah, bh));
  }

  lemma MulContains(fmt: Format, rnd: real -> Float, a: Interval, b: Interval, x: real, y: real)
    requires fmt.Valid() && Nearest(fmt, rnd) && Contains(fmt, a, x) && Contains(fmt, b, y)
    ensures Contains(fmt, Mul(fmt, rnd, a, b), x * y)
  {
    hide Nearest, Value, Hull, Between, Times;
    var (al, ah, bl, bh) := (Value(fmt, a.inf), Value(fmt, a.sup), Value(fmt, b.inf), Value(fmt, b.sup));
    CornersOfProduct(al, ah, bl, bh, x, y);
    HullContains(fmt, rnd, Times(al, bl), Times(al, bh), Times(ah, bl), Times(ah, bh), Times(x, y));
    TimesIs(x, y);
  }

  lemma TimesIs(x: real, y: real)
    ensures Times(x, y) == x * y
  {
  }

  predicate SameSign(lo: real, hi: real) { lo > 0.0 || hi < 0.0 }

  /** On an interval without zero, 1/y lies between 1/lo and 1/hi. */
  lemma InverseBetween(lo: real, hi: real, y: real)
    requires lo <= y <= hi && SameSign(lo, hi)
    ensures Quotient(1.0, hi) <= Quotient(1.0, y) <= Quotient(1.0, lo)
  {
    hide Quotient;
    InverseOrder(lo, y);
    InverseOrder(y, hi);
  }

  lemma InverseOrder(a: real, b: real)
    requires a <= b && SameSign(a, b)
    ensures Quotient(1.0, b) <= Quotient(1.0, a)
  {
    var u, v := 1.0 / a, 1.0 / b;
    var d := u - v;
    assert u * a == 1.0 && v * b == 1.0;
    assert a * b > 0.0;
    assert d * (a * b) == b - a by {
      assert u * (a * b) == (u * a) * b && v * (a * b) == (v * b) * a;
    }
    NotNegativeFactor(d, a * b);
  }

  lemma NotNegativeFactor(d: real, c: real)
    requires c > 0.0 && d * c >= 0.0
    ensures d >= 0.0
  {
  }

  lemma QuotientIsProduct(x: real, y: real)
    requires y != 0.0
    ensures Quotient(x, y) == Times(x, Quotient(1.0, y))
  {
  }

  lemma CornersOfQuotient(al: real, ah: real, bl: real, bh: real, x: real, y: real)
    requires al <= x <= ah && bl <= y <= bh && SameSign(bl, bh)
    ensures Between(Quotient(x, y), Quotient(al, bl), Quotient(al, bh), Quotient(ah, bl), Quotient(ah, bh))
  {
    hide Times, Quotient;
    InverseBetween(bl, bh, y);
    CornersOfProduct(al, ah, Quotient(1.0, bh), Quotient(1.0, bl), x, Quotient(1.0, y));
    QuotientIsProduct(x, y);
    QuotientIsProduct(al, bl);
    QuotientIsProduct(al, bh);
    QuotientIsProduct(ah, bl);
    QuotientIsProduct(ah, bh);
  }

  lemma DivTight(fmt: Format, rnd: real -> Float, a: Interval, b: Interval)
    requires fmt.Valid() && Nearest(fmt, rnd) && Value(fmt, b.inf) <= Value(fmt, b.sup) && !Contains(fmt, b, 0.0)
    ensures var (al, ah, bl, bh) := (Value(fmt, a.inf), Value(fmt, a.sup), Value(fmt, b.inf), Value(fmt, b.sup));
      && Div(fmt, rnd, a, b).Some? && bl != 0.0 && bh != 0.0
      && Tight(fmt, rnd, Div(fmt, rnd, a, b).value, Min4(al / bl, al / bh, ah / bl, ah / bh),
        Max4(al / bl, al / bh, ah / bl, ah / bh))
  {
    hide Nearest, Value, Hull, Tight, Quotient, Min4, Max4;
    var (al, ah, bl, bh) := (Value(fmt, a.inf), Value(fmt, a.sup), Value(fmt, b.inf), Value(fmt, b.sup));
    HullTight(fmt, rnd, Quotient(al, bl), Quotient(al, bh), Quotient(ah, bl), Quotient(ah, bh));
    QuotientIs(al, bl);
    QuotientIs(al, bh);
    QuotientIs(ah, bl);
    QuotientIs(ah, bh);
  }

  /** A quotient by an interval without zero is contained; the result is not a number exactly for an interval with
      zero. */
  lemma DivContains(fmt: Format, rnd: real -> Float, a: Interval, b: Interval, x: real, y: real)
    requires fmt.Valid() && Nearest(fmt, rnd) && Contains(fmt, a, x) && Contains(fmt, b, y)
    ensures Div(fmt, rnd, a, b) == None <==> Contains(fmt, b, 0.0)
    ensures Div(fmt, rnd, a, b).Some? ==> y != 0.0 && Contains(fmt, Div(fmt, rnd, a, b).value, x / y)
  {
    hide Nearest, Value, Hull, Between, Quotient;
    if !Contains(fmt, b, 0.0) {
      var (al, ah, bl, bh) := (Value(fmt, a.inf), Value(fmt, a.sup), Value(fmt, b.inf), Value(fmt, b.sup));
      CornersOfQuotient(al, ah, bl, bh, x, y);
      HullContains(fmt, rnd, Quotient(al, bl), Quotient(al, bh), Quotient(ah, bl), Quotient(ah, bh), Quotient(x, y));
      QuotientIs(x, y);
    }
  }

  lemma QuotientIs(x: real, y: real)
    requires y != 0.0
    ensures Quotient(x, y) == x / y
  {
  }
}

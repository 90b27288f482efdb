/** The modulo of two intervals: quotients are rounded, and cut off to int, before they are compared. */
module IntervalModulo {
  import opened Collections
  import opened Powers
  import opened Reals
  import opened FloatingPoint
  import opened FloatInterval
  import opened FloatRemainder
  import opened Remainders

  const MAX_INT := 0x7fff_ffff
  const MIN_INT := -0x8000_0000

  /** The cast (int). */
  function ToInt(q: real): int {
    var n := Truncate(q);
    if n > MAX_INT then MAX_INT else if n < MIN_INT then MIN_INT else n
  }

  predicate AllEqual(q: (int, int, int, int)) { q.0 == q.1 == q.2 == q.3 }

  //---------------------------------------------------------------- on floating-point numbers

  /** The quotient, rounded, as an int. */
  function Cast(fmt: Format, rnd: real -> Float, f: Float, g: Float): int
    requires fmt.Valid() && Value(fmt, g) != 0.0
  {
    ToInt(Value(fmt, rnd(Quotient(Value(fmt, f), Value(fmt, g)))))
  }

  function Casts(fmt: Format, rnd: real -> Float, a: Interval, b: Interval): (int, int, int, int)
    requires fmt.Valid() && Value(fmt, b.inf) != 0.0 && Value(fmt, b.sup) != 0.0
  {
    (Cast(fmt, rnd, a.inf, b.inf), Cast(fmt, rnd, a.sup, b.inf), Cast(fmt, rnd, a.inf, b.sup),
      Cast(fmt, rnd, a.sup, b.sup))
  }

  /** The operator %, whose result is rounded like any other. */
  function Rem(fmt: Format, rnd: real -> Float, f: Float, g: Float): Float
    requires fmt.Valid() && Value(fmt, g) != 0.0
  {
    rnd(Remainder(Value(fmt, f), Value(fmt, g)))
  }

  /** Math.abs */
  function Magnified(f: Float): Float { f.(negative := false) }

  function Modulo(fmt: Format, rnd: real -> Float, a: Interval, b: Interval): Option<Interval>
    requires fmt.Valid() && Value(fmt, b.inf) <= Value(fmt, b.sup)
  {
    if Contains(fmt, b, 0.0) then None
    else if AllEqual(Casts(fmt, rnd, a, b)) then
      var (r1, r2) := (Rem(fmt, rnd, a.inf, b.inf), Rem(fmt, rnd, a.sup, b.inf));
      var (r3, r4) := (Rem(fmt, rnd, a.inf, b.sup), Rem(fmt, rnd, a.sup, b.sup));
      Some(Interval(Min(fmt, r1, Min(fmt, r2, Min(fmt, r3, r4))), Max(fmt, r1, Max(fmt, r2, Max(fmt, r3, r4)))))
    else
      var max, zero := Max(fmt, Magnified(b.inf), Magnified(b.sup)), Float(false, 0);
      Some(if Contains(fmt, a, 0.0) then Interval(Opposite(fmt, max), max)
           else if Value(fmt, a.inf) > 0.0 then Interval(zero, max)
           else Interval(Opposite(fmt, max), zero))
  }

  //---------------------------------------------------------------- the same on real numbers

  datatype Range = Range(inf: real, sup: real) {
    predicate Contains(x: real) { inf <= x <= sup }

    predicate Valid() { inf <= sup }
  }

  predicate Divisor(b: Range) { SameSign(b.inf, b.sup) && b.inf <= b.sup }

  function RangeOf(fmt: Format, i: Interval): Range
    requires fmt.Valid()
  {
    Range(Value(fmt, i.inf), Value(fmt, i.sup))
  }

  /** The exact quotients, cut off. */
  function Truncs(a: Range, b: Range): (int, int, int, int)
    requires Divisor(b)
  {
    (Truncate(Quotient(a.inf, b.inf)), Truncate(Quotient(a.sup, b.inf)), Truncate(Quotient(a.inf, b.sup)),
      Truncate(Quotient(a.sup, b.sup)))
  }

  /** From the smallest to the greatest remainder of ends. */
  function Corners(a: Range, b: Range): Range
    requires Divisor(b)
  {
    var (r1, r2, r3, r4) := (Remainder(a.inf, b.inf), Remainder(a.sup, b.inf), Remainder(a.inf, b.sup),
      Remainder(a.sup, b.sup));
    Range(Min4(r1, r2, r3, r4), Max4(r1, r2, r3, r4))
  }

  /** Up to the greatest divisor, on the sides of zero where there are dividends. */
  function Rough(a: Range, b: Range): Range {
    var max := if Abs(b.sup) > Abs(b.inf) then Abs(b.sup) else Abs(b.inf);
    if a.Contains(0.0) then Range(-max, max) else if a.inf > 0.0 then Range(0.0, max) else Range(-max, 0.0)
  }

  lemma ModuloMeans(fmt: Format, rnd: real -> Float, a: Interval, b: Interval)
    requires fmt.Valid() && Nearest(fmt, rnd) && Value(fmt, b.inf) <= Value(fmt, b.sup) && !Contains(fmt, b, 0.0)
    ensures Divisor(RangeOf(fmt, b)) && Modulo(fmt, rnd, a, b).Some?
    ensures RangeOf(fmt, Modulo(fmt, rnd, a, b).value) ==
      if AllEqual(Casts(fmt, rnd, a, b)) then Corners(RangeOf(fmt, a), RangeOf(fmt, b))
      else Rough(RangeOf(fmt, a), RangeOf(fmt, b))
  {
    hide Nearest, Remainder, Casts, Magnitude, Scaled;
    if AllEqual(Casts(fmt, rnd, a, b)) {
      hide Value;
      RemainderIsNumber(fmt, rnd, a.inf, b.inf);
      RemainderIsNumber(fmt, rnd, a.sup, b.inf);
      RemainderIsNumber(fmt, rnd, a.inf, b.sup);
      RemainderIsNumber(fmt, rnd, a.sup, b.sup);
    } else {
      MagnifiedIs(fmt, b.inf);
      MagnifiedIs(fmt, b.sup);
    }
  }

  lemma MagnifiedIs(fmt: Format, f: Float)
    requires fmt.Valid()
    ensures Value(fmt, Magnified(f)) == Abs(Value(fmt, f)) && Value(fmt, Float(false, 0)) == 0.0
  {
    hide Magnitude, Scaled;
    AbsValue(fmt, f);
    SpacingPositive(fmt, 0);
    ScaledSum(fmt, 0, 0);
  }

  //---------------------------------------------------------------- what is contained

  lemma SameQuotient(a: Range, b: Range, x: real, y: real)
    requires Divisor(b) && a.Contains(x) && b.Contains(y) && AllEqual(Truncs(a, b))
    ensures y != 0.0 && Truncate(Quotient(x, y)) == Truncs(a, b).0
  {
    hide Quotient, Truncate;
    var (p, q, r, s) := (Quotient(a.inf, b.inf), Quotient(a.sup, b.inf), Quotient(a.inf, b.sup),
      Quotient(a.sup, b.sup));
    var z := Quotient(x, y);
    CornersOfQuotient(a.inf, a.sup, b.inf, b.sup, x, y);
    BetweenTruncs(z, p, r, q, s);
  }

  lemma BetweenTruncs(z: real, p: real, q: real, r: real, s: real)
    requires Between(z, p, q, r, s) && Truncate(p) == Truncate(q) == Truncate(r) == Truncate(s)
    ensures Truncate(z) == Truncate(p)
  {
    hide Truncate;
    var below := if p <= z then p else if q <= z then q else if r <= z then r else s;
    var above := if z <= p then p else if z <= q then q else if z <= r then r else s;
    TruncMonotone(below, z);
    TruncMonotone(z, above);
  }

  lemma ContainsSameQuotient(a: Range, b: Range, x: real, y: real)
    requires Divisor(b) && a.Contains(x) && b.Contains(y) && AllEqual(Truncs(a, b))
    ensures Corners(a, b).Contains(Remainder(x, y))
  {
    hide Quotient, Truncate, Times;
    SameQuotient(a, b, x, y);
    var n := Truncs(a, b).0 as real;
    ProductBetween(n, b.inf, b.sup, y);
  }

  lemma ContainsOtherQuotients(a: Range, b: Range, x: real, y: real)
    requires Divisor(b) && a.Contains(x) && b.Contains(y)
    ensures Rough(a, b).Contains(Remainder(x, y))
  {
    hide Remainder;
    RemBounds(x, y);
  }

  //---------------------------------------------------------------- where equal casts hide different quotients

  /** For positive ranges whose quotients differ but are at least 1 there is a remainder greater than those of the
      corners. */
  lemma GreaterRemainder(al: real, ah: real, bl: real, bh: real) returns (x: real, y: real)
    requires 0.0 < al <= ah && 0.0 < bl <= bh && Truncate(Quotient(al, bh)) >= 1
    requires !AllEqual(Truncs(Range(al, ah), Range(bl, bh)))
    ensures al <= x <= ah && bl <= y <= bh
    ensures Remainder(x, y) > Remainder(al, bl) && Remainder(x, y) > Remainder(ah, bl)
      && Remainder(x, y) > Remainder(al, bh) && Remainder(x, y) > Remainder(ah, bh)
  {
    hide Quotient, Truncate, Times, Remainder;
    var m := Max4(Remainder(al, bl), Remainder(ah, bl), Remainder(al, bh), Remainder(ah, bh));
    TruncBounds(al, bl);
    TruncBounds(ah, bl);
    TruncBounds(al, bh);
    TruncBounds(ah, bh);
    var k, n := Truncate(Quotient(al, bh)), Truncate(Quotient(ah, bh));
    QuotientOrder(al, ah, bh);
    if k != n {
      y := bh;
      x := JustBelow(al, bh, k, n, m);
      assert x <= ah;
    } else {
      x := ah;
      LargestQuotient(al, ah, bl, bh);
      assert Truncate(Quotient(ah, bl)) > k;
      RemIs(al, bh);
      RemIs(ah, bh);
      y := JustAbove(ah, bl, bh, k, m);
    }
  }

  lemma QuotientOrder(al: real, ah: real, b: real)
    requires 0.0 <= al <= ah && b > 0.0
    ensures Truncate(Quotient(al, b)) <= Truncate(Quotient(ah, b))
  {
    assert al / b <= ah / b by { NotNegative(ah - al, 1.0 / b); assert (ah - al) * (1.0 / b) == ah / b - al / b; }
    TruncMonotone(al / b, ah / b);
  }

  /** The quotient of the greatest dividend by the smallest divisor is the greatest. */
  lemma LargestQuotient(al: real, ah: real, bl: real, bh: real)
    requires 0.0 < al <= ah && 0.0 < bl <= bh
    ensures Truncate(Quotient(al, bl)) <= Truncate(Quotient(ah, bl))
    ensures Truncate(Quotient(ah, bh)) <= Truncate(Quotient(ah, bl))
    ensures Truncate(Quotient(al, bh)) <= Truncate(Quotient(al, bl))
  {
    hide Truncate;
    QuotientOrder(al, ah, bl);
    SmallerDivisor(ah, bl, bh);
    SmallerDivisor(al, bl, bh);
  }

  lemma SmallerDivisor(x: real, bl: real, bh: real)
    requires 0.0 < x && 0.0 < bl <= bh
    ensures Truncate(Quotient(x, bh)) <= Truncate(Quotient(x, bl))
  {
    hide Truncate, Quotient, Times;
    InverseBetween(bl, bh, bl);
    InverseBetween(bl, bh, bh);
    ProductBetween(x, Quotient(1.0, bh), Quotient(1.0, bl), Quotient(1.0, bh));
    QuotientIsProduct(x, bl);
    QuotientIsProduct(x, bh);
    OrderedProducts(x, Quotient(1.0, bh), Quotient(1.0, bl));
    TruncMonotone(Quotient(x, bh), Quotient(x, bl));
  }

  lemma OrderedProducts(x: real, p: real, q: real)
    requires x >= 0.0 && p <= q
    ensures Times(x, p) <= Times(x, q)
  {
    NotNegative(x, q - p);
    assert x * (q - p) == x * q - x * p;
  }

  /** A dividend a little below a multiple of b. */
  lemma JustBelow(al: real, b: real, k: int, n: int, m: real) returns (x: real)
    requires b > 0.0 && 1 <= k < n && 0.0 <= m < b && Times(k as real, b) <= al < Times(k as real, b) + b
    ensures al <= x <= Times(n as real, b) && Remainder(x, b) > m
  {
    hide Times, Remainder, Truncate, Quotient;
    var top := Times(n as real, b);
    ProductLaws(n - 1, b);
    ProductLaws(k, b);
    ProductGrows(k + 1, n, b);
    var e := if top - al < (b - m) / 2.0 then top - al else (b - m) / 2.0;
    x := top - e;
    TruncIs(x, b, n - 1);
  }

  /** A divisor a little above the one that divides x k + 1 times. */
  lemma JustAbove(x: real, bl: real, bh: real, k: int, m: real) returns (y: real)
    requires 0.0 < x && 0.0 < bl <= bh && k >= 1
    requires Times(k as real, bh) <= x < Times(k as real, bh) + bh && Truncate(Quotient(x, bl)) > k
    requires 0.0 <= m && (m < bl || m <= x - Times(k as real, bh))
    ensures bl <= y <= bh && Remainder(x, y) > m
  {
    var c := (k + 1) as real;
    var edge := EdgeBetween(x, bl, bh, k);
    hide Times, Remainder, Truncate, Quotient;
    ProductLaws(k, edge);
    ProductDifference(k, edge, bh);
    var d := (edge - m) / (2.0 * k as real);
    var e := if d < bh - edge then d else bh - edge;
    y := edge + e;
    SmallStep(k, edge, e, m, bh);
    ProductLaws(k, y);
    TruncIs(x, y, k);
  }

  lemma EdgeBetween(x: real, bl: real, bh: real, k: int) returns (edge: real)
    requires 0.0 < x && 0.0 < bl <= bh && k >= 1 && x < Times(k as real, bh) + bh && Truncate(Quotient(x, bl)) > k
    ensures bl <= edge < bh && Times((k + 1) as real, edge) == x
  {
    hide Truncate, Quotient, Times;
    var c := (k + 1) as real;
    edge := Divided(x, c);
    TruncBounds(x, bl);
    ProductGrows(k + 1, Truncate(Quotient(x, bl)), bl);
    ProductLaws(k, bh);
    assert Times(c, bl) <= Times(c, edge) < Times(c, bh);
    CancelFactor(c, bl, edge);
    CancelFactor(c, edge, bh);
  }

  lemma ProductDifference(k: int, p: real, q: real)
    requires k >= 1 && p < q
    ensures Times(k as real, q) - Times(k as real, p) >= q - p
  {
    NotNegative(k as real - 1.0, q - p);
    assert (k as real - 1.0) * (q - p) == k as real * q - k as real * p - (q - p);
  }

  /** With a small enough step from the edge the remainder stays above m, and the quotient is k. */
  lemma SmallStep(k: int, edge: real, e: real, m: real, bh: real)
    requires k >= 1 && 0.0 < edge < bh && 0.0 <= m < edge
    requires e == if (edge - m) / (2.0 * k as real) < bh - edge then (edge - m) / (2.0 * k as real) else bh - edge
    ensures 0.0 < e <= bh - edge
    ensures Times(k as real, edge + e) <= Times(k as real, edge) + edge < Times(k as real, edge + e) + (edge + e)
    ensures Times(k as real, edge) + edge - Times(k as real, edge + e) > m
  {
    var c := k as real;
    var d := (edge - m) / (2.0 * c);
    Halved(c, edge - m);
    assert c * d == (edge - m) / 2.0 && d > 0.0;
    NotNegative(c, d - e);
    NotNegative(c, e);
    assert c * (d - e) == c * d - c * e;
    assert Times(c, edge + e) == Times(c, edge) + c * e;
  }

  lemma Halved(c: real, x: real)
    requires c >= 1.0 && x > 0.0
    ensures c * (x / (2.0 * c)) == x / 2.0 && x / (2.0 * c) > 0.0
  {
    var d := x / (2.0 * c);
    assert d * (2.0 * c) == x;
  }

  function Positive(a: Range): Range {
    if a.inf > 0.0 then a else Range(-a.sup, -a.inf)
  }

  /** All quotients have one sign, and none is smaller than 1. */
  predicate FarFromZero(a: Range, b: Range)
    requires Divisor(b)
  {
    var q := Truncs(a, b);
    (q.0 >= 1 && q.1 >= 1 && q.2 >= 1 && q.3 >= 1) || (q.0 <= -1 && q.1 <= -1 && q.2 <= -1 && q.3 <= -1)
  }

  lemma OneSign(a: Range, b: Range)
    requires Divisor(b) && a.Valid() && FarFromZero(a, b)
    ensures SameSign(a.inf, a.sup)
    ensures Truncate(Quotient(Positive(a).inf, Positive(b).sup)) >= 1
  {
    hide Quotient, Truncate, Times;
    QuotientSign(a.inf, b.inf);
    QuotientSign(a.sup, b.inf);
    QuotientSign(a.inf, b.sup);
    QuotientSign(a.sup, b.sup);
    AllSigns(a, b);
  }

  lemma QuotientSign(x: real, y: real)
    requires y != 0.0
    ensures Truncate(Quotient(x, y)) > 0 ==> (x > 0.0 <==> y > 0.0) && x != 0.0
    ensures Truncate(Quotient(x, y)) < 0 ==> (x > 0.0 <==> y < 0.0) && x != 0.0
  {
    var q := Quotient(x, y);
    assert q * y == x;
    if q > 0.0 {
      if y > 0.0 { PositiveProduct(q, y); } else { PositiveProduct(q, -y); }
    } else if q < 0.0 {
      if y > 0.0 { PositiveProduct(-q, y); } else { PositiveProduct(-q, -y); }
    }
  }

  /** The positive ranges differ in their quotients, too. */
  lemma PositiveTruncs(a: Range, b: Range)
    requires Divisor(b) && a.Valid() && SameSign(a.inf, a.sup) && !AllEqual(Truncs(a, b))
    ensures Divisor(Positive(b)) && !AllEqual(Truncs(Positive(a), Positive(b)))
  {
    hide Quotient, Truncate, Remainder;
    AllSigns(a, b);
  }

  lemma AllSigns(a: Range, b: Range)
    requires Divisor(b)
    ensures forall x, y | x in {a.inf, a.sup} && y in {b.inf, b.sup} ::
      && Remainder(-x, y) == -Remainder(x, y) == -Remainder(x, -y) && Remainder(-x, -y) == -Remainder(x, y)
      && Truncate(Quotient(-x, y)) == -Truncate(Quotient(x, y)) == Truncate(Quotient(x, -y))
      && Truncate(Quotient(-x, -y)) == Truncate(Quotient(x, y))
  {
    hide Quotient, Truncate, Remainder;
    forall x, y | x in {a.inf, a.sup} && y in {b.inf, b.sup}
      ensures Remainder(-x, y) == -Remainder(x, y) == -Remainder(x, -y) && Remainder(-x, -y) == -Remainder(x, y)
      ensures Truncate(Quotient(-x, y)) == -Truncate(Quotient(x, y)) == Truncate(Quotient(x, -y))
        && Truncate(Quotient(-x, -y)) == Truncate(Quotient(x, y))
    {
      Signs(x, y);
      Signs(-x, y);
    }
  }

  /** Quotients that differ, far from zero: some remainder is not between those of the corners. */
  lemma MissesSome(a: Range, b: Range) returns (x: real, y: real)
    requires Divisor(b) && a.Valid() && FarFromZero(a, b) && !AllEqual(Truncs(a, b))
    ensures a.Contains(x) && b.Contains(y) && y != 0.0 && !Corners(a, b).Contains(Remainder(x, y))
  {
    hide Quotient, Truncate, Remainder, Truncs, Corners, FarFromZero;
    OneSign(a, b);
    PositiveTruncs(a, b);
    var p, q := Positive(a), Positive(b);
    var u, v := GreaterRemainder(p.inf, p.sup, q.inf, q.sup);
    x := if a.inf > 0.0 then u else -u;
    y := if b.inf > 0.0 then v else -v;
    Signs(u, v);
    Signs(-u, v);
    if a.inf > 0.0 { AbovePositive(a, b, Remainder(u, v)); } else { BelowNegative(a, b, Remainder(u, v)); }
  }

  lemma AbovePositive(a: Range, b: Range, r: real)
    requires Divisor(b)
    requires var q := Positive(b);
      && r > Remainder(a.inf, q.inf) && r > Remainder(a.sup, q.inf)
      && r > Remainder(a.inf, q.sup) && r > Remainder(a.sup, q.sup)
    ensures !Corners(a, b).Contains(r)
  {
    hide Remainder;
    AllSigns(a, b);
  }

  lemma BelowNegative(a: Range, b: Range, r: real)
    requires Divisor(b)
    requires var q := Positive(b);
      && r > Remainder(-a.inf, q.inf) && r > Remainder(-a.sup, q.inf)
      && r > Remainder(-a.inf, q.sup) && r > Remainder(-a.sup, q.sup)
    ensures !Corners(a, b).Contains(-r)
  {
    hide Remainder;
    AllSigns(a, b);
  }

  //---------------------------------------------------------------- the exact condition

  /** Quotients that look the same after rounding and cast are the same. */
  predicate CastsTell(fmt: Format, rnd: real -> Float, a: Interval, b: Interval)
    requires fmt.Valid() && Divisor(RangeOf(fmt, b))
  {
    AllEqual(Casts(fmt, rnd, a, b)) ==> AllEqual(Truncs(RangeOf(fmt, a), RangeOf(fmt, b)))
  }

  /** A cast quotient is 1 or more, or -1 or less, just when the quotient is. */
  lemma CastAround(fmt: Format, t: nat, p: nat, rnd: real -> Float, f: Float, g: Float)
    requires Binary(fmt, t, p) && fmt.Valid() && Nearest(fmt, rnd) && Value(fmt, g) != 0.0
    ensures var n := Truncate(Quotient(Value(fmt, f), Value(fmt, g)));
      (Cast(fmt, rnd, f, g) >= 1 <==> n >= 1) && (Cast(fmt, rnd, f, g) <= -1 <==> n <= -1)
  {
    hide Value, Quotient, Nearest;
    UnitQuotient(fmt, t, p, rnd, f, g);
  }

  /** So equal casts of different quotients are far from zero. */
  lemma EqualCasts(fmt: Format, t: nat, p: nat, rnd: real -> Float, a: Interval, b: Interval)
    requires Binary(fmt, t, p) && fmt.Valid() && Nearest(fmt, rnd) && Divisor(RangeOf(fmt, b))
    requires !CastsTell(fmt, rnd, a, b)
    ensures FarFromZero(RangeOf(fmt, a), RangeOf(fmt, b))
  {
    hide Value, Quotient, Truncate, Nearest, Cast;
    CastAround(fmt, t, p, rnd, a.inf, b.inf);
    CastAround(fmt, t, p, rnd, a.sup, b.inf);
    CastAround(fmt, t, p, rnd, a.inf, b.sup);
    CastAround(fmt, t, p, rnd, a.sup, b.sup);
  }

  ghost predicate ContainsRemainders(fmt: Format, r: Interval, a: Interval, b: Interval)
    requires fmt.Valid()
  {
    forall x, y | Contains(fmt, a, x) && Contains(fmt, b, y) :: y != 0.0 && Contains(fmt, r, Remainder(x, y))
  }

  /** Every remainder of elements is contained exactly if quotients that look the same after rounding and cast are the
      same. */
  lemma ModuloContainsExactly(fmt: Format, t: nat, p: nat, rnd: real -> Float, a: Interval, b: Interval)
    requires Binary(fmt, t, p) && fmt.Valid() && Nearest(fmt, rnd)
    requires Value(fmt, a.inf) <= Value(fmt, a.sup) && Value(fmt, b.inf) <= Value(fmt, b.sup)
    ensures Modulo(fmt, rnd, a, b) == None <==> Contains(fmt, b, 0.0)
    ensures Modulo(fmt, rnd, a, b).Some? ==> Divisor(RangeOf(fmt, b))
    ensures Modulo(fmt, rnd, a, b).Some? ==>
      (ContainsRemainders(fmt, Modulo(fmt, rnd, a, b).value, a, b) <==> CastsTell(fmt, rnd, a, b))
  {
    hide Value, Remainder, Nearest, Casts, Truncs, Corners, Rough, FarFromZero, Modulo;
    NoneExactly(fmt, rnd, a, b);
    if !Contains(fmt, b, 0.0) {
      ModuloMeans(fmt, rnd, a, b);
      var i, j := RangeOf(fmt, a), RangeOf(fmt, b);
      if CastsTell(fmt, rnd, a, b) {
        forall x, y | Contains(fmt, a, x) && Contains(fmt, b, y)
          ensures y != 0.0 && Contains(fmt, Modulo(fmt, rnd, a, b).value, Remainder(x, y))
        {
          if AllEqual(Casts(fmt, rnd, a, b)) {
            ContainsSameQuotient(i, j, x, y);
          } else {
            ContainsOtherQuotients(i, j, x, y);
          }
        }
      } else {
        EqualCasts(fmt, t, p, rnd, a, b);
        var x, y := MissesSome(i, j);
      }
    }
  }

  lemma NoneExactly(fmt: Format, rnd: real -> Float, a: Interval, b: Interval)
    requires fmt.Valid() && Value(fmt, b.inf) <= Value(fmt, b.sup)
    ensures Modulo(fmt, rnd, a, b) == None <==> Contains(fmt, b, 0.0)
    ensures !Contains(fmt, b, 0.0) <==> Divisor(RangeOf(fmt, b))
  {
    hide Value, Casts;
  }

  /** The remainder of an end of `a` by an end of `b`. */
  predicate EndRemainder(r: real, a: Range, b: Range)
    requires Divisor(b)
  {
    r in {Remainder(a.inf, b.inf), Remainder(a.sup, b.inf), Remainder(a.inf, b.sup), Remainder(a.sup, b.sup)}
  }

  /** How wide the result may be: no further than the greatest divisor, on no side of zero where there are no
      dividends, and from one remainder of ends to another where the cast quotients are equal. */
  lemma ModuloTight(fmt: Format, rnd: real -> Float, a: Interval, b: Interval)
    requires fmt.Valid() && Nearest(fmt, rnd) && Value(fmt, a.inf) <= Value(fmt, a.sup)
    requires Value(fmt, b.inf) <= Value(fmt, b.sup) && !Contains(fmt, b, 0.0)
    ensures Modulo(fmt, rnd, a, b).Some? && Divisor(RangeOf(fmt, b))
    ensures var (r, i, j) := (RangeOf(fmt, Modulo(fmt, rnd, a, b).value), RangeOf(fmt, a), RangeOf(fmt, b));
      && (Abs(r.inf) <= Abs(j.inf) || Abs(r.inf) <= Abs(j.sup))
      && (Abs(r.sup) <= Abs(j.inf) || Abs(r.sup) <= Abs(j.sup))
      && (i.inf > 0.0 ==> r.inf >= 0.0) && (i.sup < 0.0 ==> r.sup <= 0.0)
      && (AllEqual(Casts(fmt, rnd, a, b)) ==> EndRemainder(r.inf, i, j) && EndRemainder(r.sup, i, j))
  {
    hide Value, Nearest, Remainder, Casts, Modulo;
    ModuloMeans(fmt, rnd, a, b);
    var i, j := RangeOf(fmt, a), RangeOf(fmt, b);
    RemBounds(i.inf, j.inf);
    RemBounds(i.sup, j.inf);
    RemBounds(i.inf, j.sup);
    RemBounds(i.sup, j.sup);
  }

  lemma BothFormats()
    ensures Binary(BINARY32, 23, 149) && Binary(BINARY64, 52, 1074)
  {
    hide Pow2;
    PowConstants();
  }

  //---------------------------------------------------------------- what a caller can check

  /** The rounded quotient is no integer, and fits an int. */
  predicate ProperFraction(fmt: Format, rnd: real -> Float, f: Float, g: Float)
    requires fmt.Valid() && Value(fmt, g) != 0.0
  {
    var v := Value(fmt, rnd(Quotient(Value(fmt, f), Value(fmt, g))));
    !IsInteger(v) && MIN_INT <= Truncate(v) <= MAX_INT
  }

  /** Casts tell where they are 0, and where no rounded quotient is an integer or too large. */
  lemma FractionsTell(fmt: Format, t: nat, p: nat, rnd: real -> Float, a: Interval, b: Interval)
    requires Binary(fmt, t, p) && fmt.Valid() && Nearest(fmt, rnd) && Divisor(RangeOf(fmt, b))
    requires Cast(fmt, rnd, a.inf, b.inf) == 0
      || (ProperFraction(fmt, rnd, a.inf, b.inf) && ProperFraction(fmt, rnd, a.sup, b.inf)
        && ProperFraction(fmt, rnd, a.inf, b.sup) && ProperFraction(fmt, rnd, a.sup, b.sup))
    ensures CastsTell(fmt, rnd, a, b)
  {
    hide Value, Quotient, Truncate, Nearest, Cast, ProperFraction;
    if Cast(fmt, rnd, a.inf, b.inf) == 0 {
      CastAround(fmt, t, p, rnd, a.inf, b.inf);
      CastAround(fmt, t, p, rnd, a.sup, b.inf);
      CastAround(fmt, t, p, rnd, a.inf, b.sup);
      CastAround(fmt, t, p, rnd, a.sup, b.sup);
    } else {
      ExactCast(fmt, t, p, rnd, a.inf, b.inf);
      ExactCast(fmt, t, p, rnd, a.sup, b.inf);
      ExactCast(fmt, t, p, rnd, a.inf, b.sup);
      ExactCast(fmt, t, p, rnd, a.sup, b.sup);
    }
  }

  lemma ExactCast(fmt: Format, t: nat, p: nat, rnd: real -> Float, f: Float, g: Float)
    requires Binary(fmt, t, p) && fmt.Valid() && Nearest(fmt, rnd) && Value(fmt, g) != 0.0
    requires ProperFraction(fmt, rnd, f, g)
    ensures Cast(fmt, rnd, f, g) == Truncate(Quotient(Value(fmt, f), Value(fmt, g)))
  {
    hide Value, Quotient, Truncate, Nearest, IsInteger;
    FractionTells(fmt, t, p, rnd, Quotient(Value(fmt, f), Value(fmt, g)));
  }

  //---------------------------------------------------------------- two intervals

  /** A float that is an integer. */
  lemma IntegerFloat(m: nat, k: nat)
    requires m < 0x80_0000
    ensures Value(BINARY32, Float(false, (150 + k) * 0x80_0000 + m)) == Multiple(0x80_0000 + m, Pow2(k)) as real
  {
    hide Pow2, Multiple;
    var n := 0x80_0000 + m;
    assert Multiple(150 + k, 0x80_0000) == (150 + k) * 0x80_0000 by { MultipleIs(150 + k, 0x80_0000); }
    FieldsOf(BINARY32, (150 + k) * 0x80_0000 + m, 150 + k, m);
    PowSum(k, 149);
    MultipleOfMultiple(n, Pow2(k), Pow2(149));
    ScaledPower(BINARY32, 149, Multiple(n, Pow2(k)));
  }

  const THREE_BITS := 128 * 0x80_0000 + 0x40_0000

  /** Three, and the float before it. */
  lemma Three() returns (d: real)
    ensures Value(BINARY32, Float(false, THREE_BITS)) == 3.0 && Value(BINARY32, Float(false, THREE_BITS - 1)) == 3.0 - d
    ensures 0x40_0000 as real * d == 1.0
  {
    hide Pow2, Multiple;
    var b := THREE_BITS;
    MultipleIs(128, 0x80_0000);
    FieldsOf(BINARY32, b, 128, 0x40_0000);
    FieldsOf(BINARY32, b - 1, 128, 0x3f_ffff);
    d := Scaled(BINARY32, Pow2(127));
    TwentyTwo();
    PowSum(22, 127);
    ScaledMultiple(BINARY32, 0x40_0000, Pow2(127));
    ScaledPower(BINARY32, 149, 1);
    OneTimes(Pow2(149));
    MultipleOfMultiple(3, 0x40_0000, Pow2(127));
    MultipleIs(3, 0x40_0000);
    ScaledPower(BINARY32, 149, 3);
    NextMagnitude(BINARY32, b - 1);
    ScaledSum(BINARY32, Magnitude(BINARY32, b - 1), Pow2(127));
  }

  lemma TwentyTwo()
    ensures Pow2(22) == 0x40_0000
  {
    hide Pow2;
    PowConstants();
    PowStep(23);
  }

  const DIVIDENDS := Interval(Float(false, 151 * 0x80_0000 + 0x40_0001), Float(false, 151 * 0x80_0000 + 0x40_0002))
  const DIVISOR := Interval(Float(false, 150 * 0x80_0000 + 1), Float(false, 150 * 0x80_0000 + 1))

  lemma EndsAre()
    ensures RangeOf(BINARY32, DIVIDENDS) == Range(25165826.0, 25165828.0)
    ensures RangeOf(BINARY32, DIVISOR) == Range(8388609.0, 8388609.0)
  {
    hide Value;
    IntegerFloat(0x40_0001, 1);
    IntegerFloat(0x40_0002, 1);
    IntegerFloat(1, 0);
    MultipleIs(0xc0_0001, 2);
    MultipleIs(0xc0_0002, 2);
    MultipleIs(0x80_0001, 1);
    assert Pow2(0) == 1 && Pow2(1) == 2;
  }

  /** A little below three, and a little above, both round to at least three. */
  lemma RoundsToThree(rnd: real -> Float, q: real, e: real)
    requires Nearest(BINARY32, rnd) && 8388609.0 * e == 1.0 && (q == 3.0 - e || q == 3.0 + e)
    ensures ToInt(Value(BINARY32, rnd(q))) == 3
  {
    hide Value;
    var three, v := Float(false, THREE_BITS), Value(BINARY32, rnd(q));
    var d := Three();
    assert 0.0 < e < 1.0 / 8388608.0 && d == 1.0 / 4194304.0;
    assert Abs(v - q) <= Abs(Value(BINARY32, three) - q);
    if v < 3.0 { NotBetween(BINARY32, rnd(q), THREE_BITS); }
    assert 3.0 <= v < 4.0;
  }

  lemma QuotientNearThree()  returns (e: real)
    ensures 8388609.0 * e == 1.0
    ensures Quotient(25165826.0, 8388609.0) == 3.0 - e && Quotient(25165828.0, 8388609.0) == 3.0 + e
    ensures Remainder(25165826.0, 8388609.0) == 8388608.0 && Remainder(25165828.0, 8388609.0) == 1.0
    ensures Remainder(25165827.0, 8388609.0) == 0.0
  {
    e := 1.0 / 8388609.0;
    QuotientIsUnique(25165826.0, 8388609.0, 3.0 - e);
    QuotientIsUnique(25165828.0, 8388609.0, 3.0 + e);
    TruncIs(25165826.0, 8388609.0, 2);
    TruncIs(25165828.0, 8388609.0, 3);
    TruncIs(25165827.0, 8388609.0, 3);
  }

  /** [25165826; 25165828] modulo 8388609: the quotients 2.99... and 3.00... both round to 3, and the remainder 0 of
      25165827 is missed. */
  lemma MissesZero(rnd: real -> Float)
    requires Nearest(BINARY32, rnd)
    ensures var r := Modulo(BINARY32, rnd, DIVIDENDS, DIVISOR);
      r.Some? && RangeOf(BINARY32, r.value) == Range(1.0, 8388608.0)
    ensures Contains(BINARY32, DIVIDENDS, 25165827.0) && Contains(BINARY32, DIVISOR, 8388609.0)
    ensures Remainder(25165827.0, 8388609.0) == 0.0
  {
    hide Value, Quotient, Remainder, Nearest, ToInt, Modulo;
    EndsAre();
    var e := QuotientNearThree();
    RoundsToThree(rnd, 3.0 - e, e);
    RoundsToThree(rnd, 3.0 + e, e);
    ModuloMeans(BINARY32, rnd, DIVIDENDS, DIVISOR);
  }

  const LARGE := Interval(Float(false, 158 * 0x80_0000), Float(false, 158 * 0x80_0000 + 1))
  const ONE := Interval(Float(false, 127 * 0x80_0000), Float(false, 127 * 0x80_0000))

  lemma LargeEnds()
    ensures RangeOf(BINARY32, LARGE) == Range(2147483648.0, 2147483904.0) && RangeOf(BINARY32, ONE) == Range(1.0, 1.0)
  {
    hide Value, Pow2;
    IntegerFloat(0, 8);
    IntegerFloat(1, 8);
    PowOfEight();
    MultipleIs(0x80_0000, 0x100);
    MultipleIs(0x80_0001, 0x100);
    OneFloat();
  }

  lemma PowOfEight()
    ensures Pow2(8) == 0x100
  {
    assert Pow2(4) == 16;
    PowSum(4, 4);
    MultipleIs(16, 16);
  }

  lemma OneFloat()
    ensures Value(BINARY32, Float(false, 127 * 0x80_0000)) == 1.0
  {
    hide Pow2, Multiple;
    BothFormats();
    OneMagnitude(BINARY32, 23, 149);
    assert OneBits(23, 149) == 127 * 0x80_0000 by { PowConstants(); MultipleIs(127, 0x80_0000); }
    OneTimes(Pow2(149));
    ScaledPower(BINARY32, 149, 1);
  }

  /** [2^31; 2^31 + 256] modulo 1 comes out as 0, though 2^31 + 1/2 leaves 1/2. */
  lemma MissesHalf(rnd: real -> Float)
    requires Nearest(BINARY32, rnd)
    ensures var r := Modulo(BINARY32, rnd, LARGE, ONE); r.Some? && RangeOf(BINARY32, r.value) == Range(0.0, 0.0)
    ensures Contains(BINARY32, LARGE, 2147483648.5) && Contains(BINARY32, ONE, 1.0)
    ensures Remainder(2147483648.5, 1.0) == 0.5
  {
    hide Truncate, Value, Nearest, Remainder, Quotient, Modulo;
    LargeEnds();
    ByOne(2147483648.0, 2147483648);
    ByOne(2147483904.0, 2147483904);
    ByOne(2147483648.5, 2147483648);
    RoundingExact(BINARY32, rnd, LARGE.inf);
    RoundingExact(BINARY32, rnd, LARGE.sup);
    ModuloMeans(BINARY32, rnd, LARGE, ONE);
  }

  lemma ByOne(x: real, n: int)
    requires n >= 0 && n as real <= x < n as real + 1.0
    ensures Quotient(x, 1.0) == x && Truncate(x) == n && Remainder(x, 1.0) == x - n as real
  {
  }
}

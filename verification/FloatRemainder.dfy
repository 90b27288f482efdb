/** Quotients and remainders of floating-point numbers: how a quotient rounds, and that a remainder is one itself. */
module FloatRemainder {
  import opened Powers
  import opened Reals
  import opened FloatingPoint
  import opened Remainders

  /** Mantissas of t bits, p binary places after the point. */
  predicate Binary(fmt: Format, t: nat, p: nat) {
    1 <= t < p && fmt.mantissas == Pow2(t) && fmt.unit == 1.0 / (Pow2(p) as real)
  }

  //---------------------------------------------------------------- one, and the number below it

  lemma ScaledPower(fmt: Format, p: nat, n: nat)
    requires fmt.unit == 1.0 / (Pow2(p) as real)
    ensures Scaled(fmt, Multiple(n, Pow2(p))) == n as real
  {
    hide Pow2;
    Cancelled(n as real, Pow2(p) as real);
  }

  lemma Cancelled(x: real, y: real)
    requires y > 0.0
    ensures x * y * (1.0 / y) == x
  {
    var u := 1.0 / y;
    assert u * y == 1.0;
    assert x * y * u == x * (y * u);
  }

  function OneBits(t: nat, p: nat): (b: nat)
    requires 1 <= t < p
    ensures b > 0
  {
    Multiple(p - t + 1, Pow2(t))
  }

  /** The magnitudes of one and of the number before it, in units. */
  lemma OneMagnitude(fmt: Format, t: nat, p: nat)
    requires Binary(fmt, t, p) && fmt.Valid()
    ensures Magnitude(fmt, OneBits(t, p)) == Pow2(p)
    ensures Magnitude(fmt, OneBits(t, p) - 1) == Pow2(p) - Pow2(p - t - 1)
  {
    hide Pow2, Multiple, Exponent, Mantissa, OneBits;
    var b := OneBits(t, p);
    assert b == Multiple(p - t + 1, Pow2(t)) by { OneBitsIs(t, p); }
    FieldsOf(fmt, b, p - t + 1, 0);
    PowSum(t, p - t);
    assert t + (p - t) == p;
    NextFields(fmt, b - 1);
    NextMagnitude(fmt, b - 1);
  }

  lemma OneBitsIs(t: nat, p: nat)
    requires 1 <= t < p
    ensures OneBits(t, p) == Multiple(p - t + 1, Pow2(t))
  {
  }

  /** One is a number, and the one below it is nearer to 1 than any quotient of numbers that is smaller. */
  lemma OneIsNumber(fmt: Format, t: nat, p: nat) returns (one: Float, below: Float, d: real)
    requires Binary(fmt, t, p) && fmt.Valid()
    ensures !one.negative && !below.negative && Value(fmt, one) == 1.0 && Value(fmt, below) == 1.0 - d
    ensures d > 0.0 && (2 * fmt.mantissas) as real * d == 1.0
  {
    hide Pow2, Multiple, Magnitude, Scaled, OneBits;
    one, below := Float(false, OneBits(t, p)), Float(false, OneBits(t, p) - 1);
    d := Scaled(fmt, Pow2(p - t - 1));
    OneMagnitude(fmt, t, p);
    ScaledPower(fmt, p, 1);
    assert Multiple(1, Pow2(p)) == Pow2(p) by { OneTimes(Pow2(p)); }
    HalfUlp(t, p);
    ScaledSum(fmt, Pow2(p) - Pow2(p - t - 1), Pow2(p - t - 1));
    ScaledMultiple(fmt, 2 * fmt.mantissas, Pow2(p - t - 1));
    ScaledSum(fmt, 0, Pow2(p - t - 1));
  }

  lemma OneTimes(a: nat)
    ensures Multiple(1, a) == a
  {
  }

  lemma HalfUlp(t: nat, p: nat)
    requires 1 <= t < p
    ensures Pow2(p - t - 1) <= Pow2(p) && Multiple(2 * Pow2(t), Pow2(p - t - 1)) == Pow2(p)
  {
    hide Multiple;
    PowSum(t + 1, p - t - 1);
    assert t + 1 + (p - t - 1) == p;
    PowStep(t + 1);
    hide Pow2;
    PowGrows(p - t - 1, p);
  }

  lemma ScaledMultiple(fmt: Format, n: nat, a: nat)
    ensures Scaled(fmt, Multiple(n, a)) == n as real * Scaled(fmt, a)
  {
    assert (n * a) as real == n as real * a as real;
    var (x, y, u) := (n as real, a as real, fmt.unit);
    assert x * y * u == x * (y * u);
  }

  //---------------------------------------------------------------- quotients around one

  lemma MagnitudeBound(fmt: Format, b: nat)
    requires fmt.Valid()
    ensures Magnitude(fmt, b) + Spacing(fmt, b) <= Multiple(2 * fmt.mantissas, Spacing(fmt, b))
  {
    var m := Mantissa(fmt, b);
    if Exponent(fmt, b) > 0 {
      TimesOrder(fmt.mantissas + m + 1, 2 * fmt.mantissas, Spacing(fmt, b));
      NextProduct(fmt.mantissas + m, Spacing(fmt, b));
    }
  }

  lemma TimesOrder(a: nat, b: nat, c: nat)
    requires a <= b
    ensures Multiple(a, c) <= Multiple(b, c)
  {
  }

  /** Two numbers are so far apart that their quotient is not above the number below one. */
  lemma FarApart(fmt: Format, a: nat, b: nat)
    requires fmt.Valid() && a < b
    ensures Magnitude(fmt, a) < Magnitude(fmt, b)
    ensures Multiple(2 * fmt.mantissas, Magnitude(fmt, b) - Magnitude(fmt, a)) >= Magnitude(fmt, b)
  {
    hide Magnitude, Spacing, Multiple;
    var x, y, s := Magnitude(fmt, a), Magnitude(fmt, b), Spacing(fmt, a);
    MagnitudeOrder(fmt, a, b);
    NextMagnitude(fmt, a);
    if a + 1 < b { MagnitudeOrder(fmt, a + 1, b); }
    MagnitudeBound(fmt, a);
    Spread(2 * fmt.mantissas, x, y, s);
  }

  lemma Spread(n: nat, x: nat, y: nat, s: nat)
    requires n >= 1 && y >= x + s && x + s <= Multiple(n, s)
    ensures Multiple(n, y - x) >= y
  {
    var e := y - x - s;
    assert n * (y - x) == n * s + n * e;
    assert n * e >= e;
  }

  lemma QuotientBelowOne(x: real, y: real, n: real, d: real)
    requires 0.0 <= x < y && n * d == 1.0 && n > 0.0 && d > 0.0 && n * (y - x) >= y
    ensures Quotient(x, y) <= 1.0 - d
  {
    var q, z := Quotient(x, y), y - x;
    assert q * y == x;
    NotNegative(d, n * z - y);
    assert d * (n * z - y) == (n * d) * z - d * y;
    assert z >= d * y;
    assert (1.0 - d - q) * y == y - d * y - x;
    if q > 1.0 - d { PositiveProduct(q - (1.0 - d), y); }
  }

  lemma AbsQuotient(x: real, y: real)
    requires y != 0.0
    ensures Abs(Quotient(x, y)) == Quotient(Abs(x), Abs(y)) >= 0.0
    ensures Abs(x) >= Abs(y) <==> Quotient(Abs(x), Abs(y)) >= 1.0
  {
    hide Quotient;
    QuotientSigns(x, y);
    QuotientSigns(-x, y);
    PositiveQuotient(Abs(x), Abs(y));
  }

  lemma PositiveQuotient(x: real, y: real)
    requires x >= 0.0 && y > 0.0
    ensures Quotient(x, y) >= 0.0 && (x >= y <==> Quotient(x, y) >= 1.0)
  {
    var q := x / y;
    assert q * y == x;
    if q < 0.0 { NegativeProduct(q, y); }
    if q < 1.0 { PositiveProduct(1.0 - q, y); assert (1.0 - q) * y == y - x; }
    if q >= 1.0 { NotNegative(q - 1.0, y); assert (q - 1.0) * y == x - y; }
  }

  lemma AbsValue(fmt: Format, f: Float)
    requires fmt.Valid()
    ensures Abs(Value(fmt, f)) == Scaled(fmt, Magnitude(fmt, f.bits))
  {
    hide Magnitude, Scaled;
    OrderScaled(fmt, Magnitude(fmt, f.bits), 0);
  }

  /** A quotient of numbers that is smaller than one is at most the number below one. */
  lemma QuotientAround(fmt: Format, f: Float, g: Float, d: real)
    requires fmt.Valid() && Value(fmt, g) != 0.0 && d > 0.0 && (2 * fmt.mantissas) as real * d == 1.0
    ensures var q := Quotient(Value(fmt, f), Value(fmt, g)); Abs(q) >= 1.0 || Abs(q) <= 1.0 - d
  {
    hide Magnitude, Scaled, Value, Quotient, Multiple;
    var x, y := Value(fmt, f), Value(fmt, g);
    AbsQuotient(x, y);
    AbsValue(fmt, f);
    AbsValue(fmt, g);
    if Abs(x) < Abs(y) {
      var a, b := Magnitude(fmt, f.bits), Magnitude(fmt, g.bits);
      if g.bits < f.bits { MagnitudeOrder(fmt, g.bits, f.bits); }
      OrderScaled(fmt, a, b);
      OrderScaled(fmt, b, a);
      FarApart(fmt, f.bits, g.bits);
      ScaledMultiple(fmt, 2 * fmt.mantissas, b - a);
      ScaledSum(fmt, a, b - a);
      OrderScaled(fmt, b, Multiple(2 * fmt.mantissas, b - a));
      QuotientBelowOne(Abs(x), Abs(y), (2 * fmt.mantissas) as real, d);
    }
  }

  /** Rounding does not take a quotient of two numbers to one, or past it. */
  lemma UnitQuotient(fmt: Format, t: nat, p: nat, rnd: real -> Float, f: Float, g: Float)
    requires Binary(fmt, t, p) && fmt.Valid() && Nearest(fmt, rnd) && Value(fmt, g) != 0.0
    ensures var q := Quotient(Value(fmt, f), Value(fmt, g));
      && (Value(fmt, rnd(q)) >= 1.0 <==> q >= 1.0)
      && (Value(fmt, rnd(q)) <= -1.0 <==> q <= -1.0)
  {
    hide Quotient, Nearest, Value;
    var one, below, d := OneIsNumber(fmt, t, p);
    QuotientAround(fmt, f, g, d);
    var q := Quotient(Value(fmt, f), Value(fmt, g));
    Keeps(fmt, rnd, q, one);
    Keeps(fmt, rnd, q, below);
    Keeps(fmt, rnd, q, Opposite(fmt, one));
    Keeps(fmt, rnd, q, Opposite(fmt, below));
  }

  /** Rounding keeps the order to every number. */
  lemma Keeps(fmt: Format, rnd: real -> Float, q: real, f: Float)
    requires fmt.Valid() && Nearest(fmt, rnd)
    ensures q <= Value(fmt, f) ==> Value(fmt, rnd(q)) <= Value(fmt, f)
    ensures q >= Value(fmt, f) ==> Value(fmt, rnd(q)) >= Value(fmt, f)
  {
    hide Nearest, Value;
    RoundingExact(fmt, rnd, f);
    if q <= Value(fmt, f) { RoundingMonotone(fmt, rnd, q, Value(fmt, f)); }
    if q >= Value(fmt, f) { RoundingMonotone(fmt, rnd, Value(fmt, f), q); }
  }

  /** What is smaller than a positive number is not above the number before it. */
  lemma NotBetween(fmt: Format, g: Float, b: nat)
    requires fmt.Valid() && b > 0 && Value(fmt, g) < Value(fmt, Float(false, b))
    ensures Value(fmt, g) <= Value(fmt, Float(false, b - 1))
  {
    hide Magnitude, Scaled;
    var m, n := Magnitude(fmt, g.bits), Magnitude(fmt, b - 1);
    OrderScaled(fmt, m, 0);
    OrderScaled(fmt, n, m);
    if b - 1 < g.bits {
      MagnitudeBelow(fmt, g.bits, b);
      OrderScaled(fmt, m, Magnitude(fmt, b));
    } else {
      MagnitudeBelow(fmt, b - 1, g.bits);
    }
  }

  function Opposite(fmt: Format, f: Float): (g: Float)
    requires fmt.Valid()
    ensures Value(fmt, g) == -Value(fmt, f)
  {
    f.(negative := !f.negative)
  }

  //---------------------------------------------------------------- remainders

  lemma PowQuotient(a: nat, b: nat) returns (r: nat)
    requires a <= b
    ensures Pow2(b) == Multiple(r, Pow2(a)) && r >= 1
  {
    PowSum(b - a, a);
    r := Pow2(b - a);
  }

  /** The spacing of a number divides the spacings of larger ones, and their magnitudes. */
  lemma SpacingDivides(fmt: Format, a: nat, b: nat) returns (r: nat, k: nat)
    requires fmt.Valid() && a <= b
    ensures Spacing(fmt, b) == Multiple(r, Spacing(fmt, a)) && r >= 1
    ensures Magnitude(fmt, b) == Multiple(k, Spacing(fmt, a))
  {
    hide Pow2;
    var e, g := Exponent(fmt, a), Exponent(fmt, b);
    ExponentOrder(fmt, a, b);
    PowZero();
    r := PowQuotient(if e == 0 then 0 else e - 1, if g == 0 then 0 else g - 1);
    assert Spacing(fmt, b) == Multiple(r, Spacing(fmt, a));
    var m := if g == 0 then Mantissa(fmt, b) else fmt.mantissas + Mantissa(fmt, b);
    assert Magnitude(fmt, b) == Multiple(m, Spacing(fmt, b));
    hide Multiple, Magnitude, Spacing;
    MultipleOfMultiple(m, r, Spacing(fmt, a));
    k := Multiple(m, r);
  }

  lemma MultipleOfMultiple(a: nat, b: nat, c: nat)
    ensures Multiple(a, Multiple(b, c)) == Multiple(Multiple(a, b), c)
  {
    assert a * (b * c) == a * b * c;
  }

  lemma ExponentOrder(fmt: Format, a: nat, b: nat)
    requires fmt.Valid() && a <= b
    ensures Exponent(fmt, a) <= Exponent(fmt, b)
  {
    hide Multiple, Exponent, Mantissa;
    Fields(fmt, a);
    Fields(fmt, b);
    if Exponent(fmt, b) < Exponent(fmt, a) { Apart(Exponent(fmt, b), Exponent(fmt, a), fmt.mantissas); }
  }

  /** Every multiple of the spacing up to a magnitude is a magnitude. */
  lemma {:induction false} MultipleIsMagnitude(fmt: Format, b: nat, n: nat) returns (c: nat)
    requires fmt.Valid() && Multiple(n, Spacing(fmt, b)) <= Magnitude(fmt, b)
    ensures Magnitude(fmt, c) == Multiple(n, Spacing(fmt, b))
    decreases b
  {
    hide Magnitude, Spacing, Multiple;
    var r, k := SpacingDivides(fmt, b, b);
    if n == k {
      c := b;
    } else {
      SpacingPositive(fmt, b);
      SmallerFactor(n, k, Spacing(fmt, b));
      var a := SpacingBelow(fmt, b);
      if b <= a { MagnitudeBelow(fmt, a, b); }
      var v, w := SpacingDivides(fmt, a, b);
      MultipleOfMultiple(n, v, Spacing(fmt, a));
      c := MultipleIsMagnitude(fmt, a, Multiple(n, v));
    }
  }

  lemma MagnitudeBelow(fmt: Format, a: nat, b: nat)
    requires fmt.Valid() && b <= a
    ensures Magnitude(fmt, b) <= Magnitude(fmt, a)
  {
    hide Magnitude;
    if b < a { MagnitudeOrder(fmt, b, a); }
  }

  lemma SmallerFactor(n: nat, k: nat, s: nat)
    requires Multiple(n, s) <= Multiple(k, s) && n != k && s >= 1
    ensures k >= 1 && Multiple(n, s) <= Multiple(k, s) - s
  {
    hide Multiple;
    if k < n { MultiplesDiffer(k, n, s); } else { MultiplesDiffer(n, k, s); }
  }

  lemma MultiplesDiffer(n: nat, k: nat, s: nat)
    requires n < k
    ensures Multiple(n, s) + s <= Multiple(k, s)
  {
    NextProduct(n, s);
    TimesOrder(n + 1, k, s);
  }

  /** The remainder of two magnitudes is a magnitude. */
  lemma RemainderIsMagnitude(fmt: Format, a: nat, b: nat) returns (c: nat)
    requires fmt.Valid() && Magnitude(fmt, b) > 0
    ensures Magnitude(fmt, c) == Magnitude(fmt, a) % Magnitude(fmt, b)
  {
    hide Magnitude, Spacing, Multiple;
    if Magnitude(fmt, a) < Magnitude(fmt, b) {
      c := a;
    } else {
      if a < b { MagnitudeOrder(fmt, a, b); }
      var r, i := SpacingDivides(fmt, b, a);
      var q, j := SpacingDivides(fmt, b, b);
      RemainderOfMultiples(i, j, Spacing(fmt, b));
      c := MultipleIsMagnitude(fmt, b, i % j);
    }
  }

  lemma RemainderOfMultiples(i: nat, j: nat, s: nat)
    requires Multiple(j, s) > 0
    ensures j > 0 && Multiple(i, s) % Multiple(j, s) == Multiple(i % j, s) < Multiple(j, s)
  {
    assert s > 0 && j > 0;
    var q, r := i / j, i % j;
    Divides(i, j);
    SumTimes(Multiple(q, j), r, s);
    MultipleOfMultiple(q, j, s);
    hide Multiple;
    MultiplesDiffer(r, j, s);
    ModuloIs(Multiple(i, s), Multiple(j, s), q, Multiple(r, s));
  }

  lemma SumTimes(a: nat, b: nat, s: nat)
    ensures Multiple(a + b, s) == Multiple(a, s) + Multiple(b, s)
  {
  }

  lemma ModuloIs(x: nat, y: nat, q: nat, r: nat)
    requires y > 0 && x == Multiple(q, y) + r && r < y
    ensures x % y == r
  {
    var d := x / y;
    Divides(x, y);
    hide Multiple;
    if d < q { MultiplesDiffer(d, q, y); }
    if q < d { MultiplesDiffer(q, d, y); }
  }

  /** The remainder of two numbers is a number: rounding it changes nothing. */
  lemma RemainderIsNumber(fmt: Format, rnd: real -> Float, f: Float, g: Float)
    requires fmt.Valid() && Nearest(fmt, rnd) && Value(fmt, g) != 0.0
    ensures var r := Remainder(Value(fmt, f), Value(fmt, g)); Value(fmt, rnd(r)) == r
  {
    hide Magnitude, Scaled, Remainder, Nearest, Quotient, Truncate;
    var a, b := Magnitude(fmt, f.bits), Magnitude(fmt, g.bits);
    OrderScaled(fmt, b, 0);
    assert b > 0;
    var c := RemainderIsMagnitude(fmt, f.bits, g.bits);
    ScaledRemainder(fmt, a, b);
    Signs(Scaled(fmt, a), Scaled(fmt, b));
    Signs(-Scaled(fmt, a), Scaled(fmt, b));
    RoundingExact(fmt, rnd, Float(f.negative, c));
  }

  lemma ScaledRemainder(fmt: Format, a: nat, b: nat)
    requires fmt.Valid() && b > 0
    ensures Scaled(fmt, b) > 0.0 && Remainder(Scaled(fmt, a), Scaled(fmt, b)) == Scaled(fmt, a % b)
  {
    hide Scaled, Remainder, Truncate, Quotient, Multiple;
    var n, r := a / b, a % b;
    OrderScaled(fmt, 0, b);
    OrderScaled(fmt, r, b);
    assert a == Multiple(n, b) + r by { Divides(a, b); }
    ScaledSum(fmt, Multiple(n, b), r);
    ScaledMultiple(fmt, n, b);
    assert n as real * Scaled(fmt, b) == Times(n as real, Scaled(fmt, b));
    OrderScaled(fmt, r, 0);
    TruncIs(Scaled(fmt, a), Scaled(fmt, b), n);
  }

  lemma Divides(a: nat, b: nat)
    requires b > 0
    ensures a == Multiple(a / b, b) + a % b
  {
  }

  //---------------------------------------------------------------- rounded to no integer

  predicate IsInteger(x: real) { x.Floor as real == x }

  /** Around a number that is no integer there is none within one ulp. */
  lemma NoIntegerNear(fmt: Format, t: nat, p: nat, f: Float, z: int)
    requires Binary(fmt, t, p) && fmt.Valid() && !IsInteger(Value(fmt, f))
    ensures Abs(Value(fmt, f) - z as real) >= Ulp(fmt, f)
  {
    hide Magnitude, Spacing, Scaled, Multiple, Pow2, IsInteger;
    var m, s, n: nat := Magnitude(fmt, f.bits), Spacing(fmt, f.bits), if z < 0 then -z else z;
    var k := SpacingInOne(fmt, t, p, f);
    var r, j := SpacingDivides(fmt, f.bits, f.bits);
    MultipleOfMultiple(n, k, s);
    ScaledPower(fmt, p, n);
    var x, y := Scaled(fmt, m), n as real;
    assert x != y by { if x == y { IntegerValue(fmt, f, n); } }
    MultiplesApart(fmt, j, Multiple(n, k), s);
    OrderScaled(fmt, m, 0);
    assert Abs(Value(fmt, f) - z as real) >= Abs(x - y);
  }

  lemma IntegerValue(fmt: Format, f: Float, n: nat)
    requires fmt.Valid() && Scaled(fmt, Magnitude(fmt, f.bits)) == n as real
    ensures IsInteger(Value(fmt, f))
  {
    hide Magnitude, Scaled;
    var z := -(n as int);
    assert z as real == -(n as real);
  }

  /** Then one is a multiple of its spacing. */
  lemma SpacingInOne(fmt: Format, t: nat, p: nat, f: Float) returns (k: nat)
    requires Binary(fmt, t, p) && fmt.Valid() && !IsInteger(Value(fmt, f))
    ensures Pow2(p) == Multiple(k, Spacing(fmt, f.bits))
  {
    hide Pow2, IsInteger, Magnitude, Multiple, Scaled;
    PowZero();
    var e := if Exponent(fmt, f.bits) == 0 then 0 else Exponent(fmt, f.bits) - 1;
    assert Spacing(fmt, f.bits) == Pow2(e);
    if e > p {
      hide Spacing, Exponent;
      var q := PowQuotient(p, e);
      var r, j := SpacingDivides(fmt, f.bits, f.bits);
      MultipleOfMultiple(j, q, Pow2(p));
      ScaledPower(fmt, p, Multiple(j, q));
      IntegerValue(fmt, f, Multiple(j, q));
      assert false;
    } else {
      k := PowQuotient(e, p);
    }
  }

  lemma MultiplesApart(fmt: Format, i: nat, j: nat, s: nat)
    requires fmt.Valid() && Scaled(fmt, Multiple(i, s)) != Scaled(fmt, Multiple(j, s))
    ensures Abs(Scaled(fmt, Multiple(i, s)) - Scaled(fmt, Multiple(j, s))) >= Scaled(fmt, s)
  {
    hide Multiple, Scaled;
    if i < j { ScaledApart(fmt, i, j, s); } else if j < i { ScaledApart(fmt, j, i, s); }
  }

  lemma ScaledApart(fmt: Format, i: nat, j: nat, s: nat)
    requires fmt.Valid() && i < j
    ensures Scaled(fmt, Multiple(i, s)) + Scaled(fmt, s) <= Scaled(fmt, Multiple(j, s))
  {
    hide Multiple, Scaled;
    MultiplesDiffer(i, j, s);
    ScaledSum(fmt, Multiple(i, s), s);
    OrderScaled(fmt, Multiple(j, s), Multiple(i, s) + s);
  }

  /** Where the rounded number is no integer, cutting off the places after the point gives the same before and after
      rounding. */
  lemma FractionTells(fmt: Format, t: nat, p: nat, rnd: real -> Float, q: real)
    requires Binary(fmt, t, p) && fmt.Valid() && Nearest(fmt, rnd) && !IsInteger(Value(fmt, rnd(q)))
    ensures Truncate(q) == Truncate(Value(fmt, rnd(q)))
  {
    hide Value, Ulp, Nearest;
    var f := rnd(q);
    var v := Value(fmt, f);
    var up, down := UlpAway(fmt, f);
    UlpPositive(fmt, f);
    NotPast(fmt, rnd, q, up);
    NotPast(fmt, rnd, q, down);
    NoIntegerNear(fmt, t, p, f, v.Floor);
    NoIntegerNear(fmt, t, p, f, v.Floor + 1);
    Fraction(v, q);
  }

  /** The number is nearer than any other, and so at less than their distance. */
  lemma NotPast(fmt: Format, rnd: real -> Float, q: real, g: Float)
    requires fmt.Valid() && Nearest(fmt, rnd) && Value(fmt, g) != Value(fmt, rnd(q))
    ensures Value(fmt, g) > Value(fmt, rnd(q)) ==> q < Value(fmt, g)
    ensures Value(fmt, g) < Value(fmt, rnd(q)) ==> q > Value(fmt, g)
  {
    hide Value;
    assert Abs(Value(fmt, rnd(q)) - q) <= Abs(Value(fmt, g) - q);
  }

  lemma Fraction(v: real, q: real)
    requires !IsInteger(v) && v.Floor as real < q < (v.Floor + 1) as real
    ensures Truncate(q) == Truncate(v)
  {
    FloorIs(q, v.Floor);
    FloorIs(-q, -v.Floor - 1);
    FloorIs(-v, -v.Floor - 1);
  }

  lemma FloorIs(x: real, n: int)
    requires n as real <= x < (n + 1) as real
    ensures x.Floor == n
  {
  }
}

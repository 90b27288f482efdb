/** Binary floating-point numbers (IEEE 754-2008, section 3.4) and rounding to the nearest of them. */
module FloatingPoint {
  import opened Powers
  import opened Reals

  /** The number of mantissas of one exponent, and the smallest positive number. */
  datatype Format = Format(mantissas: nat, unit: real) {
    predicate Valid() { mantissas >= 2 && unit > 0.0 }
  }

  const BINARY32: Format := Format(0x80_0000, 1.0 / (Pow2(149) as real))
  const BINARY64: Format := Format(0x10_0000_0000_0000, 1.0 / (Pow2(1074) as real))

  /** Sign, and the bits of exponent and mantissa. The exponent is not limited: what overflows has the bits of
      infinity or more. */
  datatype Float = Float(negative: bool, bits: nat)

  datatype Interval = Interval(inf: Float, sup: Float)

  function Exponent(fmt: Format, bits: nat): nat
    requires fmt.Valid()
  {
    bits / fmt.mantissas
  }

  function Mantissa(fmt: Format, bits: nat): (m: nat)
    requires fmt.Valid()
    ensures m < fmt.mantissas
  {
    bits % fmt.mantissas
  }

  function Multiple(a: nat, b: nat): nat { a * b }

  /** In units of the smallest positive number. */
  function Magnitude(fmt: Format, bits: nat): nat
    requires fmt.Valid()
  {
    var e, m := Exponent(fmt, bits), Mantissa(fmt, bits);
    if e == 0 then m else Multiple(fmt.mantissas + m, Pow2(e - 1))
  }

  /** The distance to the next magnitude. */
  function Spacing(fmt: Format, bits: nat): nat
    requires fmt.Valid()
  {
    if Exponent(fmt, bits) == 0 then 1 else Pow2(Exponent(fmt, bits) - 1)
  }

  function Scaled(fmt: Format, n: nat): real { n as real * fmt.unit }

  function Value(fmt: Format, f: Float): real
    requires fmt.Valid()
  {
    if f.negative then -Scaled(fmt, Magnitude(fmt, f.bits)) else Scaled(fmt, Magnitude(fmt, f.bits))
  }

  /** Math.ulp */
  function Ulp(fmt: Format, f: Float): real
    requires fmt.Valid()
  {
    Scaled(fmt, Spacing(fmt, f.bits))
  }

  lemma FieldsOf(fmt: Format, b: nat, e: nat, m: nat)
    requires fmt.Valid() && b == Multiple(e, fmt.mantissas) + m && m < fmt.mantissas
    ensures Exponent(fmt, b) == e && Mantissa(fmt, b) == m
  {
    hide Multiple;
    var q, r := Exponent(fmt, b), Mantissa(fmt, b);
    Fields(fmt, b);
    if q < e {
      Apart(q, e, fmt.mantissas);
    } else if e < q {
      Apart(e, q, fmt.mantissas);
    }
  }

  lemma Fields(fmt: Format, b: nat)
    requires fmt.Valid()
    ensures b == Multiple(Exponent(fmt, b), fmt.mantissas) + Mantissa(fmt, b)
  {
  }

  lemma Apart(p: nat, q: nat, m: nat)
    requires p < q
    ensures Multiple(q, m) >= Multiple(p, m) + m
  {
    assert q * m == p * m + (q - p) * m;
    assert (q - p) * m >= m by { assert (q - p - 1) * m >= 0; }
  }

  lemma NextFields(fmt: Format, b: nat)
    requires fmt.Valid()
    ensures var e, m, c := Exponent(fmt, b), Mantissa(fmt, b), b + 1;
      if m + 1 < fmt.mantissas then Exponent(fmt, c) == e && Mantissa(fmt, c) == m + 1
      else Exponent(fmt, c) == e + 1 && Mantissa(fmt, c) == 0
  {
    hide Multiple, Exponent, Mantissa;
    var n, e, m := fmt.mantissas, Exponent(fmt, b), Mantissa(fmt, b);
    Fields(fmt, b);
    if m + 1 < n {
      FieldsOf(fmt, b + 1, e, m + 1);
    } else {
      NextProduct(e, n);
      FieldsOf(fmt, b + 1, e + 1, 0);
    }
  }

  /** Adding one to the bits is going to the next magnitude. */
  lemma NextMagnitude(fmt: Format, b: nat)
    requires fmt.Valid()
    ensures Magnitude(fmt, b + 1) == Magnitude(fmt, b) + Spacing(fmt, b)
  {
    hide Pow2, Multiple, Exponent, Mantissa;
    var n, e, m := fmt.mantissas, Exponent(fmt, b), Mantissa(fmt, b);
    NextFields(fmt, b);
    if m + 1 < n {
      if e > 0 { NextProduct(n + m, Pow2(e - 1)); }
    } else {
      NextPower(n, e);
    }
  }

  lemma NextProduct(a: nat, p: nat)
    ensures Multiple(a + 1, p) == Multiple(a, p) + p
  {
  }

  lemma NextPower(n: nat, e: nat)
    requires n >= 1
    ensures e == 0 ==> Multiple(n, Pow2(e)) == n
    ensures e > 0 ==> Multiple(n, Pow2(e)) == Multiple(n + (n - 1), Pow2(e - 1)) + Pow2(e - 1)
  {
    if e > 0 {
      var p := Pow2(e - 1);
      var odd: nat := n + (n - 1);
      assert Pow2(e) == 2 * p;
      NextProduct(odd, p);
      assert n * (2 * p) == (2 * n) * p;
    }
  }

  lemma {:induction false} MagnitudeOrder(fmt: Format, a: nat, b: nat)
    requires fmt.Valid() && a < b
    ensures Magnitude(fmt, a) < Magnitude(fmt, b)
    decreases b
  {
    hide Magnitude, Spacing;
    NextMagnitude(fmt, b - 1);
    assert Spacing(fmt, b - 1) >= 1 by { SpacingPositive(fmt, b - 1); }
    if a < b - 1 { MagnitudeOrder(fmt, a, b - 1); }
  }

  lemma SpacingPositive(fmt: Format, b: nat)
    requires fmt.Valid()
    ensures Spacing(fmt, b) >= 1
    ensures b == 0 ==> Spacing(fmt, b) == 1 && Magnitude(fmt, b) == 0
  {
  }

  /** One spacing below a positive number there is a number again; below a power of two it is not the next one. */
  lemma SpacingBelow(fmt: Format, b: nat) returns (c: nat)
    requires fmt.Valid() && b > 0
    ensures Magnitude(fmt, c) == Magnitude(fmt, b) - Spacing(fmt, b)
  {
    hide Magnitude, Pow2, Exponent, Mantissa;
    var e, m := Exponent(fmt, b), Mantissa(fmt, b);
    NextMagnitude(fmt, b - 1);
    NextFields(fmt, b - 1);
    PowZero();
    if m == 0 { PowersAreLarge(fmt, b); }
    if m > 0 || e == 1 {
      c := b - 1;
    } else {
      NextMagnitude(fmt, b - 2);
      NextFields(fmt, b - 2);
      PowStep(e - 1);
      c := b - 2;
    }
  }

  lemma PowersAreLarge(fmt: Format, b: nat)
    requires fmt.Valid() && b > 0 && Mantissa(fmt, b) == 0
    ensures Exponent(fmt, b) >= 1 && b >= 2
  {
    Fields(fmt, b);
    if Exponent(fmt, b) > 0 { Apart(0, Exponent(fmt, b), fmt.mantissas); }
  }

  lemma PowZero()
    ensures Pow2(0) == 1
  {
  }

  lemma PowStep(e: nat)
    ensures e > 0 ==> Pow2(e) == 2 * Pow2(e - 1)
  {
  }

  lemma ScaledSum(fmt: Format, a: nat, b: nat)
    requires fmt.Valid()
    ensures Scaled(fmt, a + b) == Scaled(fmt, a) + Scaled(fmt, b)
    ensures a < b ==> Scaled(fmt, a) < Scaled(fmt, b)
    ensures Scaled(fmt, 0) == 0.0
  {
    assert (a + b) as real == a as real + b as real;
    if a < b { assert (b as real - a as real) * fmt.unit > 0.0; }
  }

  lemma OrderScaled(fmt: Format, m: nat, n: nat)
    requires fmt.Valid()
    ensures m < n <==> Scaled(fmt, m) < Scaled(fmt, n)
    ensures Scaled(fmt, 0) == 0.0 <= Scaled(fmt, m)
  {
    ScaledSum(fmt, m, n);
    ScaledSum(fmt, n, m);
    ScaledSum(fmt, 0, m);
  }

  lemma {:induction false} PowSum(a: nat, b: nat)
    ensures Pow2(a + b) == Multiple(Pow2(a), Pow2(b))
  {
    if a > 0 {
      PowSum(a - 1, b);
      assert 2 * (Pow2(a - 1) * Pow2(b)) == (2 * Pow2(a - 1)) * Pow2(b);
    }
  }

  lemma {:induction false} PowGrows(a: nat, b: nat)
    requires a <= b
    ensures Pow2(a) <= Pow2(b)
  {
    if a < b { PowGrows(a, b - 1); }
  }

  lemma MultipleIs(a: nat, b: nat)
    ensures Multiple(a, b) == a * b
  {
  }

  lemma PowConstants()
    ensures Pow2(23) == 0x80_0000 && Pow2(24) == 0x100_0000 && Pow2(29) == 0x2000_0000
    ensures Pow2(52) == 0x10_0000_0000_0000 == Multiple(Pow2(23), Pow2(29))
  {
    assert Pow2(4) == 16;
    PowSum(4, 4);
    MultipleIs(16, 16);
    PowSum(8, 8);
    MultipleIs(0x100, 0x100);
    assert Pow2(7) == 128 && Pow2(5) == 32;
    PowSum(16, 7);
    MultipleIs(0x1_0000, 128);
    PowSum(24, 5);
    MultipleIs(0x100_0000, 32);
    assert Pow2(24) == 2 * Pow2(23);
    PowSum(23, 29);
    MultipleIs(0x80_0000, 0x2000_0000);
  }

  /** One ulp away from a number, on both sides, there are numbers. */
  lemma UlpAway(fmt: Format, f: Float) returns (up: Float, down: Float)
    requires fmt.Valid()
    ensures Value(fmt, up) == Value(fmt, f) + Ulp(fmt, f)
    ensures Value(fmt, down) == Value(fmt, f) - Ulp(fmt, f)
  {
    hide Magnitude, Spacing, Scaled;
    var outer, inner := f.(bits := f.bits + 1), Float(!f.negative, 1);
    NextMagnitude(fmt, f.bits);
    ScaledSum(fmt, Magnitude(fmt, f.bits), Spacing(fmt, f.bits));
    if f.bits == 0 {
      NextMagnitude(fmt, 0);
      SpacingPositive(fmt, 0);
    } else {
      var c := SpacingBelow(fmt, f.bits);
      ScaledSum(fmt, Magnitude(fmt, c), Spacing(fmt, f.bits));
      inner := f.(bits := c);
    }
    if f.negative { up, down := inner, outer; } else { up, down := outer, inner; }
  }

  //---------------------------------------------------------------- rounding

  /** Any rounding to the nearest, whatever it does in the middle. */
  ghost predicate Nearest(fmt: Format, rnd: real -> Float)
    requires fmt.Valid()
  {
    forall x: real, g: Float :: Abs(Value(fmt, rnd(x)) - x) <= Abs(Value(fmt, g) - x)
  }

  lemma RoundingMonotone(fmt: Format, rnd: real -> Float, x: real, y: real)
    requires fmt.Valid() && Nearest(fmt, rnd) && x <= y
    ensures Value(fmt, rnd(x)) <= Value(fmt, rnd(y))
  {
    hide Value;
    if x < y {
      assert Abs(Value(fmt, rnd(x)) - x) <= Abs(Value(fmt, rnd(y)) - x);
      assert Abs(Value(fmt, rnd(y)) - y) <= Abs(Value(fmt, rnd(x)) - y);
    }
  }

  /** What is a number already does not change. */
  lemma RoundingExact(fmt: Format, rnd: real -> Float, f: Float)
    requires fmt.Valid() && Nearest(fmt, rnd)
    ensures Value(fmt, rnd(Value(fmt, f))) == Value(fmt, f)
  {
    hide Value;
    assert Abs(Value(fmt, rnd(Value(fmt, f))) - Value(fmt, f)) <= Abs(Value(fmt, f) - Value(fmt, f));
  }

  lemma WithinOneUlp(fmt: Format, rnd: real -> Float, x: real)
    requires fmt.Valid() && Nearest(fmt, rnd)
    ensures Value(fmt, rnd(x)) - Ulp(fmt, rnd(x)) <= x <= Value(fmt, rnd(x)) + Ulp(fmt, rnd(x))
  {
    hide Value, Ulp;
    var f := rnd(x);
    var up, down := UlpAway(fmt, f);
    UlpPositive(fmt, f);
    assert Abs(Value(fmt, f) - x) <= Abs(Value(fmt, up) - x);
    assert Abs(Value(fmt, f) - x) <= Abs(Value(fmt, down) - x);
  }

  lemma UlpPositive(fmt: Format, f: Float)
    requires fmt.Valid()
    ensures Ulp(fmt, f) > 0.0
  {
    hide Spacing;
    SpacingPositive(fmt, f.bits);
    ScaledSum(fmt, 0, Spacing(fmt, f.bits));
  }
}

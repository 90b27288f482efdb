/** An interval of two floats in the 64 bits of one double (DoubleIntervalBehaviour). */
module PackedInterval {
  import opened Powers
  import opened Collections
  import opened FloatingPoint

  const INFINITY_BITS := 0x7f80_0000
  const GAP_SIZE := 0x2000_0000                // 2^29: the low bits of the double, for the gap

  predicate Finite(f: Float) { f.bits < INFINITY_BITS }

  predicate Proper(i: Interval) {
    Finite(i.inf) && Finite(i.sup) && Value(BINARY32, i.inf) <= Value(BINARY32, i.sup)
  }

  /** The position of the highest bit. */
  function Log2(m: nat): (k: nat)
    requires m > 0
    ensures Pow2(k) <= m < Pow2(k + 1)
  {
    if m == 1 then 0 else Log2(m / 2) + 1
  }

  lemma {:induction false} LogBelow(m: nat, n: nat)
    requires 0 < m < Pow2(n)
    ensures Log2(m) < n
  {
    if m > 1 { LogBelow(m / 2, n - 1); }
  }

  lemma MantissaLog(m: nat)
    requires 0 < m < 0x80_0000
    ensures Log2(m) < 23
  {
    PowConstants();
    LogBelow(m, 23);
  }

  /** The double of the same value as a float: the 35 high bits, without sign; the 29 low bits are 0. A float without
      leading one gets one. */
  function WidenedHigh(b: nat): nat {
    var e, m := Exponent(BINARY32, b), Mantissa(BINARY32, b);
    if e > 0 then (e + 896) * 0x80_0000 + m
    else if m == 0 then 0
    else
      var k := Log2(m);
      MantissaLog(m);
      (k + 874) * 0x80_0000 + Multiple(m - Pow2(k), Pow2(23 - k))
  }

  function Widened(f: Float): Float { Float(f.negative, WidenedHigh(f.bits) * GAP_SIZE) }

  /** Math.nextUp */
  function NextUp(f: Float): Float {
    if !f.negative then f.(bits := f.bits + 1)
    else if f.bits == 0 then Float(false, 1)
    else f.(bits := f.bits - 1)
  }

  /** Float.floatToRawIntBits of a number that is not negative. */
  function RawBits(f: Float): nat { if Finite(f) then f.bits else INFINITY_BITS }

  function Gap(rnd: real -> Float, i: Interval): Float {
    NextUp(rnd(Value(BINARY32, i.sup) - Value(BINARY32, i.inf)))
  }

  /** Masking clears the low bits; the gap takes their place, without its own two lowest bits. */
  function EmbedValues(rnd: real -> Float, i: Interval): (d: Float) {
    var wide := Widened(i.inf);
    wide.(bits := wide.bits - wide.bits % GAP_SIZE + RawBits(Gap(rnd, i)) / 4)
  }

  /** The gap as it is read: the two bits that were lost are set. */
  function StoredGap(d: Float): Float { Float(false, (d.bits % GAP_SIZE) * 4 + 3) }

  /** None for a gap that is not a number. */
  function ExtractValues(rnd: real -> Float, d: Float): Option<Interval> {
    var inf := rnd(Value(BINARY64, d.(bits := d.bits - d.bits % GAP_SIZE)));
    var gap := StoredGap(d);
    if gap.bits > INFINITY_BITS then None
    else Some(Interval(inf, rnd(Value(BINARY32, inf) + Value(BINARY32, gap))))
  }

  //---------------------------------------------------------------- widening is exact

  lemma Associative(a: nat, b: nat, c: nat)
    ensures Multiple(Multiple(a, b), c) == Multiple(a, Multiple(b, c))
    ensures Multiple(a, b) == Multiple(b, a)
    ensures Multiple(a + b, c) == Multiple(a, c) + Multiple(b, c)
  {
    assert a * b * c == a * (b * c);
  }

  lemma MantissaPowers()
    ensures Pow2(23) == 0x80_0000 == BINARY32.mantissas && Pow2(29) == GAP_SIZE
    ensures Pow2(52) == BINARY64.mantissas == Multiple(Pow2(23), Pow2(29))
  {
    PowConstants();
  }

  /** The fields of a double whose low bits are 0. */
  lemma WideFields(e: nat, m: nat)
    requires m < 0x80_0000
    ensures Exponent(BINARY64, (e * 0x80_0000 + m) * GAP_SIZE) == e
    ensures Mantissa(BINARY64, (e * 0x80_0000 + m) * GAP_SIZE) == m * GAP_SIZE
  {
    FieldsOf(BINARY64, (e * 0x80_0000 + m) * GAP_SIZE, e, m * GAP_SIZE);
  }

  /** The same magnitude: its units are 2^925 times smaller. */
  lemma WidenedMagnitude(b: nat)
    ensures Magnitude(BINARY64, WidenedHigh(b) * GAP_SIZE) == Multiple(Magnitude(BINARY32, b), Pow2(925))
  {
    hide Multiple, Pow2, Log2, Exponent, Mantissa;
    var e, m := Exponent(BINARY32, b), Mantissa(BINARY32, b);
    MantissaPowers();
    if e > 0 {
      WideFields(e + 896, m);
      NormalMagnitude(e, m);
    } else if m == 0 {
      WideFields(0, 0);
      ZeroTimes(Pow2(925));
    } else {
      var k := Log2(m);
      SubnormalFields(m, k);
      WideFields(k + 874, Multiple(m - Pow2(k), Pow2(23 - k)));
      SubnormalMagnitude(m, k);
    }
  }

  lemma ZeroTimes(a: nat)
    ensures Multiple(0, a) == 0
  {
  }

  lemma NormalMagnitude(e: nat, m: nat)
    requires e > 0
    ensures Multiple(0x10_0000_0000_0000 + m * GAP_SIZE, Pow2(e + 895))
      == Multiple(Multiple(0x80_0000 + m, Pow2(e - 1)), Pow2(925))
  {
    hide Multiple, Pow2;
    MantissaPowers();
    PowSum(29, e + 895);
    PowSum(e - 1, 925);
    assert 29 + (e + 895) == (e - 1) + 925;
    Associative(0x80_0000 + m, Pow2(29), Pow2(e + 895));
    Associative(0x80_0000 + m, Pow2(e - 1), Pow2(925));
    assert Multiple(0x80_0000 + m, GAP_SIZE) == 0x10_0000_0000_0000 + m * GAP_SIZE by {
      MultipleIs(0x80_0000 + m, GAP_SIZE);
    }
  }

  lemma SubnormalFields(m: nat, k: nat)
    requires 0 < m < 0x80_0000 && Pow2(k) <= m < Pow2(k + 1)
    ensures k < 23 && Multiple(m - Pow2(k), Pow2(23 - k)) < 0x80_0000
    ensures Multiple(m, Pow2(23 - k)) == 0x80_0000 + Multiple(m - Pow2(k), Pow2(23 - k))
  {
    hide Multiple, Pow2;
    PowConstants();
    if k >= 23 { PowGrows(23, k); }
    assert k < 23;
    PowSum(k, 23 - k);
    PowSum(k + 1, 23 - k);
    Associative(m - Pow2(k), Pow2(k), Pow2(23 - k));
    assert k + 1 + (23 - k) == 24 && k + (23 - k) == 23;
    TimesOrder(m, Pow2(k + 1), Pow2(23 - k));
  }

  lemma TimesOrder(a: nat, b: nat, c: nat)
    requires a < b && c > 0
    ensures Multiple(a, c) < Multiple(b, c)
  {
  }

  lemma SubnormalMagnitude(m: nat, k: nat)
    requires 0 < m < 0x80_0000 && Pow2(k) <= m < Pow2(k + 1) && k < 23
    ensures Multiple(0x10_0000_0000_0000 + Multiple(m - Pow2(k), Pow2(23 - k)) * GAP_SIZE, Pow2(k + 873))
      == Multiple(m, Pow2(925))
  {
    hide Multiple, Pow2;
    SubnormalFields(m, k);
    MantissaPowers();
    var r := Multiple(m - Pow2(k), Pow2(23 - k));
    assert Multiple(0x80_0000 + r, Pow2(29)) == 0x10_0000_0000_0000 + r * GAP_SIZE by {
      MultipleIs(0x80_0000 + r, GAP_SIZE);
    }
    Associative(Multiple(m, Pow2(23 - k)), Pow2(29), Pow2(k + 873));
    Associative(m, Pow2(23 - k), Multiple(Pow2(29), Pow2(k + 873)));
    PowSum(29, k + 873);
    PowSum(23 - k, 29 + (k + 873));
    assert 23 - k + (29 + (k + 873)) == 925;
  }

  lemma UnitsAgree(n: nat)
    ensures Scaled(BINARY64, Multiple(n, Pow2(925))) == Scaled(BINARY32, n)
  {
    hide Pow2;
    PowSum(925, 149);
    UnitQuotients(n, Pow2(925), Pow2(149));
  }

  lemma UnitQuotients(n: nat, a: nat, b: nat)
    requires a > 0 && b > 0
    ensures Multiple(n, a) as real * (1.0 / (Multiple(a, b) as real)) == n as real * (1.0 / (b as real))
  {
    var x, y, z := n as real, a as real, b as real;
    assert Multiple(n, a) as real == x * y && Multiple(a, b) as real == y * z;
    assert (x * y) * (1.0 / (y * z)) == x * (1.0 / z) by { Cancels(x, y, z); }
  }

  lemma Cancels(x: real, y: real, z: real)
    requires y > 0.0 && z > 0.0
    ensures (x * y) * (1.0 / (y * z)) == x * (1.0 / z)
  {
    var u, v := 1.0 / (y * z), 1.0 / z;
    assert u * (y * z) == 1.0 && v * z == 1.0;
    assert (y * u) * z == v * z;
    assert y * u == v;
    assert (x * y) * u == x * (y * u);
  }

  lemma WideningExact(f: Float)
    ensures Value(BINARY64, Widened(f)) == Value(BINARY32, f)
  {
    hide Magnitude, WidenedHigh, Scaled, Multiple, Pow2;
    WidenedMagnitude(f.bits);
    UnitsAgree(Magnitude(BINARY32, f.bits));
  }

  //---------------------------------------------------------------- packing and unpacking

  lemma GapCovers(rnd: real -> Float, i: Interval)
    requires Nearest(BINARY32, rnd) && Proper(i)
    ensures !Gap(rnd, i).negative && Value(BINARY32, Gap(rnd, i)) >= Value(BINARY32, i.sup) - Value(BINARY32, i.inf)
  {
    hide Magnitude, Scaled, Pow2;
    var d := Value(BINARY32, i.sup) - Value(BINARY32, i.inf);
    var f := rnd(d);
    assert f.negative ==> f.bits == 0 by { NotNegative(rnd, d); }
    ScaledSum(BINARY32, 0, 0);
    SpacingPositive(BINARY32, 0);
    NextMagnitude(BINARY32, f.bits);
    SpacingPositive(BINARY32, f.bits);
    ScaledSum(BINARY32, Magnitude(BINARY32, f.bits), Spacing(BINARY32, f.bits));
    WithinOneUlp(BINARY32, rnd, d);
  }

  lemma NotNegative(rnd: real -> Float, d: real)
    requires Nearest(BINARY32, rnd) && d >= 0.0
    ensures rnd(d).negative ==> rnd(d).bits == 0
  {
    hide Magnitude, Scaled, Pow2, Nearest;
    var f, zero := rnd(d), Float(false, 0);
    SpacingPositive(BINARY32, 0);
    ScaledSum(BINARY32, 0, 0);
    assert Value(BINARY32, zero) == 0.0;
    RoundingMonotone(BINARY32, rnd, Value(BINARY32, zero), d);
    RoundingExact(BINARY32, rnd, zero);
    if f.negative && f.bits > 0 {
      MagnitudeOrder(BINARY32, 0, f.bits);
      ScaledSum(BINARY32, 0, Magnitude(BINARY32, f.bits));
    }
  }

  lemma LargerBits(a: nat, b: nat)
    requires a <= b
    ensures Value(BINARY32, Float(false, a)) <= Value(BINARY32, Float(false, b))
  {
    hide Magnitude, Scaled, Pow2;
    if a < b {
      MagnitudeOrder(BINARY32, a, b);
      ScaledSum(BINARY32, Magnitude(BINARY32, a), 0);
      OrderScaled(BINARY32, Magnitude(BINARY32, a), Magnitude(BINARY32, b));
    }
  }

  lemma Masked(h: nat, q: nat)
    requires q < GAP_SIZE
    ensures (h * GAP_SIZE) % GAP_SIZE == 0 && (h * GAP_SIZE + q) % GAP_SIZE == q
  {
  }

  /** What is stored: the lower bound above, the gap below. */
  lemma Stored(rnd: real -> Float, i: Interval)
    requires Nearest(BINARY32, rnd) && Proper(i)
    ensures var d, raw := EmbedValues(rnd, i), RawBits(Gap(rnd, i));
      d.bits >= d.bits % GAP_SIZE && d.(bits := d.bits - d.bits % GAP_SIZE) == Widened(i.inf)
        && d.bits % GAP_SIZE == raw / 4
  {
    hide WidenedHigh, Gap, RawBits, Value, Nearest;
    RawBelow(Gap(rnd, i));
    Masked(WidenedHigh(i.inf.bits), RawBits(Gap(rnd, i)) / 4);
  }

  lemma RawBelow(f: Float)
    ensures RawBits(f) / 4 < GAP_SIZE
  {
  }

  /** Unpacking gives the same lower bound and an upper bound that is not smaller, exactly when the gap is finite;
      otherwise there is no upper bound. The gap has grown by three places at most. */
  lemma RoundTripExactly(rnd: real -> Float, i: Interval)
    requires Nearest(BINARY32, rnd) && Proper(i)
    ensures var j := ExtractValues(rnd, EmbedValues(rnd, i));
      && (j.Some? <==> Finite(Gap(rnd, i)))
      && (j.Some? ==> Gap(rnd, i).bits <= StoredGap(EmbedValues(rnd, i)).bits <= Gap(rnd, i).bits + 3)
      && (j.Some? ==> Value(BINARY32, j.value.inf) == Value(BINARY32, i.inf))
      && (j.Some? ==> Value(BINARY32, j.value.sup) >= Value(BINARY32, i.sup))
  {
    hide WidenedHigh, Widened, EmbedValues, Gap, Value, Nearest;
    Stored(rnd, i);
    WideningExact(i.inf);
    RoundingExact(BINARY32, rnd, i.inf);
    var g := Gap(rnd, i);
    GapCovers(rnd, i);
    if Finite(g) {
      var kept := Float(false, g.bits / 4 * 4 + 3);
      LargerBits(g.bits, kept.bits);
      var low, gap := Value(BINARY32, i.inf), Value(BINARY32, kept);
      RoundingMonotone(BINARY32, rnd, Value(BINARY32, i.sup), low + gap);
      RoundingExact(BINARY32, rnd, i.sup);
      RoundedAlike(rnd, i, kept);
    }
  }

  lemma RoundedAlike(rnd: real -> Float, i: Interval, gap: Float)
    requires Nearest(BINARY32, rnd)
    ensures var inf := rnd(Value(BINARY32, i.inf));
      Value(BINARY32, rnd(Value(BINARY32, inf) + Value(BINARY32, gap)))
        == Value(BINARY32, rnd(Value(BINARY32, i.inf) + Value(BINARY32, gap)))
  {
    hide Value, Nearest;
    RoundingExact(BINARY32, rnd, i.inf);
  }

  //---------------------------------------------------------------- an interval that is lost

  const LARGEST := 0x7f7f_ffff                 // the bits of the largest finite float

  lemma LargestDoubled()
    ensures Magnitude(BINARY32, LARGEST + BINARY32.mantissas) == 2 * Magnitude(BINARY32, LARGEST)
    ensures Magnitude(BINARY32, LARGEST) > 0
  {
    hide Pow2;
    FieldsOf(BINARY32, LARGEST, 254, 0x7f_ffff);
    FieldsOf(BINARY32, LARGEST + BINARY32.mantissas, 255, 0x7f_ffff);
    DoubledPower(0xff_ffff, 253);
  }

  lemma DoubledPower(a: nat, e: nat)
    requires a > 0
    ensures Multiple(a, Pow2(e + 1)) == 2 * Multiple(a, Pow2(e)) && Multiple(a, Pow2(e)) > 0
  {
    assert a * (2 * Pow2(e)) == 2 * (a * Pow2(e));
    TimesOrder(0, a, Pow2(e));
  }

  lemma LargerThan(g: Float, b: nat)
    requires Value(BINARY32, g) > Value(BINARY32, Float(false, b))
    ensures !g.negative && g.bits > b
  {
    hide Magnitude, Scaled, Pow2;
    var m, n := Magnitude(BINARY32, g.bits), Magnitude(BINARY32, b);
    ScaledSum(BINARY32, 0, m);
    ScaledSum(BINARY32, 0, n);
    if g.bits <= b { LargerBits(g.bits, b); }
  }

  /** Between the largest floats: the gap is exactly twice the upper bound, and too large. */
  lemma LargestIsLost(rnd: real -> Float)
    requires Nearest(BINARY32, rnd)
    ensures var all := Interval(Float(true, LARGEST), Float(false, LARGEST));
      Proper(all) && ExtractValues(rnd, EmbedValues(rnd, all)) == None
  {
    hide Nearest, EmbedValues, ExtractValues, Value;
    var all, twice := Interval(Float(true, LARGEST), Float(false, LARGEST)), Float(false, LARGEST + BINARY32.mantissas);
    WidthDoubled();
    RoundingExact(BINARY32, rnd, twice);
    LargerThan(rnd(Value(BINARY32, twice)), LARGEST);
    RoundTripExactly(rnd, all);
  }

  lemma WidthDoubled()
    ensures var sup, inf := Value(BINARY32, Float(false, LARGEST)), Value(BINARY32, Float(true, LARGEST));
      inf <= sup && sup - inf == Value(BINARY32, Float(false, LARGEST + BINARY32.mantissas)) > sup
  {
    hide Magnitude, Scaled, Pow2;
    var m := Magnitude(BINARY32, LARGEST);
    LargestDoubled();
    ScaledSum(BINARY32, m, m);
    ScaledSum(BINARY32, 0, m);
  }
}

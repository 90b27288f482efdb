/** The wrapper that holds a plain value, and the comparisons that all wrappers inherit. */
module WrapperBasic {
  import opened Collections

  datatype WrapperBasic = WrapperBasic(value: real)

  function ApplyUnaryOp(op: real -> Option<real>, a: WrapperBasic): Option<WrapperBasic> {
    match op(a.value) case None => None case Some(v) => Some(WrapperBasic(v))
  }

  function ApplyBinaryOp(op: (real, real) -> Option<real>, a: WrapperBasic, b: WrapperBasic): Option<WrapperBasic> {
    match op(a.value, b.value) case None => None case Some(v) => Some(WrapperBasic(v))
  }

  function OfDouble(a: real): WrapperBasic { WrapperBasic(a) }

  function ToDouble(a: WrapperBasic): real { a.value }

  //---------------------------------------------------------------- comparison of all doubles

  datatype Number = NaN | NegativeInfinity | PositiveInfinity | NegativeZero | Finite(x: real)

  /** The place of a number in the order in which the zeros are equal. */
  function Rank(a: Number): (int, real) {
    match a
    case NegativeInfinity => (-1, 0.0)
    case PositiveInfinity => (1, 0.0)
    case Finite(x) => (0, x)
    case _ => (0, 0.0)
  }

  predicate Less(a: Number, b: Number) {
    Rank(a).0 < Rank(b).0 || (Rank(a).0 == Rank(b).0 && Rank(a).1 < Rank(b).1)
  }

  /** The instructions DCMPL (with -1) and DCMPG (with 1). */
  function Compare(a: Number, b: Number, unordered: int): int {
    if a.NaN? || b.NaN? then unordered else if Less(a, b) then -1 else if Less(b, a) then 1 else 0
  }

  /** Double.compare: the negative zero is smaller than the other one. */
  function DoubleCompare(a: Number, b: Number): int {
    if Less(a, b) then -1
    else if Less(b, a) then 1
    else if a.NaN? || b.NaN? then (if b.NaN? && a.NaN? then 0 else if a.NaN? then 1 else -1)
    else if a.NegativeZero? && !b.NegativeZero? then -1
    else if b.NegativeZero? && !a.NegativeZero? then 1
    else 0
  }

  /** ACojacWrapper.dcmpl and dcmpg. */
  function WrapperCompare(a: Number, b: Number, unordered: int): int {
    if a.NaN? || b.NaN? then unordered else DoubleCompare(a, b)
  }

  /** ACojacWrapper.compareTo, on which dcmpl and dcmpg rest. */
  function CompareTo(a: WrapperBasic, b: WrapperBasic): int {
    DoubleCompare(Finite(ToDouble(a)), Finite(ToDouble(b)))
  }

  predicate OppositeZeros(a: Number, b: Number) {
    (a.NegativeZero? && b == Finite(0.0)) || (a == Finite(0.0) && b.NegativeZero?)
  }

  /** A wrapper compares as the instruction does, but for two zeros of different sign. */
  lemma ComparisonExactly(a: Number, b: Number, unordered: int)
    ensures WrapperCompare(a, b, unordered) == Compare(a, b, unordered) <==> !OppositeZeros(a, b)
  {
  }

  lemma ComparedAlike(a: WrapperBasic, b: WrapperBasic, unordered: int)
    ensures CompareTo(a, b) == Compare(Finite(a.value), Finite(b.value), unordered)
  {
    ComparisonExactly(Finite(a.value), Finite(b.value), unordered);
  }

  /** The order: finite numbers as reals, between the infinities; the zeros are equal, and NaN is in no order. */
  lemma OrderOfNumbers(a: real, b: real, c: Number, unordered: int)
    ensures Compare(Finite(a), Finite(b), unordered) == if a < b then -1 else if a == b then 0 else 1
    ensures Compare(NegativeZero, Finite(a), unordered) == Compare(Finite(0.0), Finite(a), unordered)
    ensures Compare(Finite(a), NegativeZero, unordered) == Compare(Finite(a), Finite(0.0), unordered)
    ensures Compare(NegativeInfinity, Finite(a), unordered) == -1 == Compare(Finite(a), PositiveInfinity, unordered)
    ensures Compare(NegativeInfinity, PositiveInfinity, unordered) == -1
    ensures Compare(NaN, c, unordered) == unordered == Compare(c, NaN, unordered)
    ensures c != NaN ==> Compare(c, Finite(a), unordered) == -Compare(Finite(a), c, unordered)
    ensures c != NaN ==> Compare(c, c, unordered) == 0
  {
  }

  lemma ZerosDiffer()
    ensures WrapperCompare(Finite(0.0), NegativeZero, -1) == 1 && Compare(Finite(0.0), NegativeZero, -1) == 0
  {
  }
}

/** Operations on real numbers under names: where they are hidden, a proof uses the laws below and nothing else. */
module Reals {

  function Times(a: real, b: real): real { a * b }

  function Quotient(x: real, y: real): real
    requires y != 0.0
  {
    x / y
  }

  function Abs(x: real): real { if x < 0.0 then -x else x }

  /** Towards zero. */
  function Truncate(r: real): int { if r >= 0.0 then r.Floor else -((-r).Floor) }

  /** x % y: the sign is that of x. */
  function Remainder(x: real, y: real): real
    requires y != 0.0
  {
    x - Times(Truncate(Quotient(x, y)) as real, y)
  }

  lemma TimesLaws(a: real, b: real, c: real)
    ensures Times(a, Times(b, c)) == Times(Times(a, b), c)
    ensures Times(a, b + c) == Times(a, b) + Times(a, c) && Times(a + b, c) == Times(a, c) + Times(b, c)
    ensures Times(a, b) == Times(b, a) && Times(a, -b) == -Times(a, b)
    ensures Times(a, 0.0) == 0.0 == Times(0.0, a) && Times(1.0, a) == a == Times(a, 1.0)
  {
    assert a * (b * c) == (a * b) * c;
  }

  lemma NotNegative(a: real, b: real)
    requires a >= 0.0 && b >= 0.0
    ensures a * b >= 0.0
  {
  }
}

/** Sums, square matrices, and what it means to solve a system of linear equations. */
module LinearAlgebra {
  import opened Reals

  /** f(0) + ... + f(n - 1) */
  function Sum(n: nat, f: nat -> real): real {
    if n == 0 then 0.0 else Sum(n - 1, f) + f(n - 1)
  }

  lemma {:induction false} SumEqual(n: nat, f: nat -> real, g: nat -> real)
    requires forall i | 0 <= i < n :: f(i) == g(i)
    ensures Sum(n, f) == Sum(n, g)
  {
    if n > 0 { SumEqual(n - 1, f, g); }
  }

  lemma {:induction false} SumZero(n: nat, f: nat -> real)
    requires forall i | 0 <= i < n :: f(i) == 0.0
    ensures Sum(n, f) == 0.0
  {
    if n > 0 { SumZero(n - 1, f); }
  }

  /** Terms that are zero from `m` on do not count. */
  lemma {:induction false} SumCut(n: nat, m: nat, f: nat -> real)
    requires m <= n && forall i | m <= i < n :: f(i) == 0.0
    ensures Sum(n, f) == Sum(m, f)
  {
    if m < n { SumCut(n - 1, m, f); }
  }

  lemma {:induction false} SumAdds(n: nat, f: nat -> real, g: nat -> real, h: nat -> real)
    requires forall i | 0 <= i < n :: h(i) == f(i) + g(i)
    ensures Sum(n, h) == Sum(n, f) + Sum(n, g)
  {
    if n > 0 { SumAdds(n - 1, f, g, h); }
  }

  lemma {:induction false} SumScales(n: nat, c: real, f: nat -> real, h: nat -> real)
    requires forall i | 0 <= i < n :: h(i) == Times(c, f(i))
    ensures Sum(n, h) == Times(c, Sum(n, f))
  {
    hide Times;
    if n == 0 {
      TimesLaws(c, 0.0, 0.0);
    } else {
      SumScales(n - 1, c, f, h);
      TimesLaws(c, Sum(n - 1, f), f(n - 1));
    }
  }

  function Of(f: (nat, nat) -> real, i: nat): nat -> real { (j: nat) => f(i, j) }

  function Flip(f: (nat, nat) -> real): (nat, nat) -> real { (j: nat, i: nat) => f(i, j) }

  function Sums(m: nat, f: (nat, nat) -> real): nat -> real { (i: nat) => Sum(m, Of(f, i)) }

  /** Rows first or columns first. */
  lemma {:induction false} SumSwap(n: nat, m: nat, f: (nat, nat) -> real)
    ensures Sum(n, Sums(m, f)) == Sum(m, Sums(n, Flip(f)))
  {
    if n == 0 {
      SumZero(m, Sums(0, Flip(f)));
    } else {
      SumSwap(n - 1, m, f);
      forall j | 0 <= j < m ensures Sums(n, Flip(f))(j) == Sums(n - 1, Flip(f))(j) + Of(f, n - 1)(j) {}
      SumAdds(m, Sums(n - 1, Flip(f)), Of(f, n - 1), Sums(n, Flip(f)));
    }
  }

  type Vector = seq<real>
  type Matrix = seq<seq<real>>

  function At(x: Vector, i: nat): real { if i < |x| then x[i] else 0.0 }

  function Cell(m: Matrix, i: nat, k: nat): real { if i < |m| then At(m[i], k) else 0.0 }

  predicate Square(m: Matrix, n: nat) {
    |m| == n && forall i | 0 <= i < n :: |m[i]| == n
  }

  function RowTerms(m: Matrix, i: nat, x: Vector): nat -> real {
    (k: nat) => Times(Cell(m, i, k), At(x, k))
  }

  /** The i-th equation's left side. */
  function Row(m: Matrix, i: nat, x: Vector): real {
    Sum(|x|, RowTerms(m, i, x))
  }

  /** m x = b */
  predicate Solves(m: Matrix, x: Vector, b: Vector) {
    |x| == |m| == |b| && forall i | 0 <= i < |m| :: Row(m, i, x) == b[i]
  }

  function Zeros(n: nat): Vector { seq(n, i => 0.0) }

  /** Only the zero vector is taken to zero. */
  ghost predicate Regular(m: Matrix) {
    forall x: Vector | Solves(m, x, Zeros(|m|)) :: x == Zeros(|m|)
  }
}

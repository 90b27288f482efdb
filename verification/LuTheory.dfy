/** The factorization with row exchanges, one column at a time, on matrices as values. */
module LuTheory {
  import opened Reals
  import opened LinearAlgebra

  //---------------------------------------------------------------- row exchanges

  function Swapped<T>(s: seq<T>, i: nat, j: nat): (r: seq<T>)
    requires i < |s| && j < |s|
    ensures |r| == |s| && r[i] == s[j] && r[j] == s[i] && forall k | 0 <= k < |s| && k != i && k != j :: r[k] == s[k]
  {
    s[i := s[j]][j := s[i]]
  }

  /** The order of rows after the exchanges that a pivot vector records. */
  function Order(n: nat, pivot: seq<int>): (p: seq<nat>)
    requires |pivot| <= n && forall j | 0 <= j < |pivot| :: 0 <= pivot[j] < n
    ensures |p| == n
    decreases |pivot|
  {
    if pivot == [] then seq(n, i => i)
    else Swapped(Order(n, pivot[..|pivot| - 1]), |pivot| - 1, pivot[|pivot| - 1])
  }

  predicate IsPermutation(p: seq<nat>) {
    && (forall i | 0 <= i < |p| :: p[i] < |p|)
    && (forall i, j | 0 <= i < j < |p| :: p[i] != p[j])
    && (forall v | 0 <= v < |p| :: v in p)
  }

  lemma {:induction false} OrderIsPermutation(n: nat, pivot: seq<int>)
    requires |pivot| <= n && forall j | 0 <= j < |pivot| :: 0 <= pivot[j] < n
    ensures IsPermutation(Order(n, pivot))
  {
    if pivot == [] {
      var p := Order(n, []);
      forall v | 0 <= v < n ensures v in p { assert p[v] == v; }
    } else {
      OrderIsPermutation(n, pivot[..|pivot| - 1]);
      SwapStaysPermutation(Order(n, pivot[..|pivot| - 1]), |pivot| - 1, pivot[|pivot| - 1]);
    }
  }

  lemma SwapStaysPermutation(p: seq<nat>, i: nat, j: nat)
    requires IsPermutation(p) && i < |p| && j < |p|
    ensures IsPermutation(Swapped(p, i, j))
  {
    var q := Swapped(p, i, j);
    forall v | 0 <= v < |q| ensures v in q {
      assert v in p;
      var k :| 0 <= k < |p| && p[k] == v;
      assert q[if k == i then j else if k == j then i else k] == v;
    }
  }

  //---------------------------------------------------------------- the factorization

  function ProductTerms(w: Matrix, i: nat, k: nat): nat -> real {
    (t: nat) => Times(Cell(w, i, t), Cell(w, t, k))
  }

  /** Multipliers and pivots in one matrix: of row i times column k, the first r terms. */
  function Product(w: Matrix, i: nat, k: nat, r: nat): real {
    Sum(r, ProductTerms(w, i, k))
  }

  /** The entry of the original matrix that `w` stands for when `j` columns are done. */
  function Entry(w: Matrix, i: nat, k: nat, j: nat): real {
    if k < i && k < j then Product(w, i, k, k + 1)
    else Product(w, i, k, if i < j then i else j) + Cell(w, i, k)
  }

  predicate Factors(a: Matrix, p: seq<nat>, w: Matrix, j: nat) {
    && Square(a, |p|) && Square(w, |p|) && j <= |p|
    && forall i, k | 0 <= i < |p| && 0 <= k < |p| :: Cell(a, p[i], k) == Entry(w, i, k, j)
  }

  predicate PivotsNonzero(w: Matrix, j: nat) {
    forall t | 0 <= t < j :: Cell(w, t, t) != 0.0
  }

  /** With partial pivoting no multiplier is greater than 1. */
  predicate MultipliersBounded(w: Matrix, j: nat) {
    forall i, k | 0 <= k < i < |w| && k < j :: Abs(Cell(w, i, k)) <= 1.0
  }

  /** `v` is `w` with column `j` divided by its pivot below the diagonal, and cleared by subtracting row `j`. */
  predicate Eliminated(w: Matrix, v: Matrix, j: nat) {
    && Square(w, |w|) && Square(v, |w|) && j < |w|
    && (forall i, k | 0 <= i < |w| && 0 <= k < |w| && (i <= j || k < j) :: v[i][k] == w[i][k])
    && (forall i | j < i < |w| :: Times(v[i][j], w[j][j]) == w[i][j])
    && (forall i, k | j < i < |w| && j < k < |w| :: v[i][k] == w[i][k] - Times(v[i][j], w[j][k]))
  }

  lemma {:induction false} ProductKept(w: Matrix, v: Matrix, i: nat, h: nat, k: nat, r: nat)
    requires forall t | 0 <= t < r :: Cell(w, i, t) == Cell(v, h, t) && Cell(w, t, k) == Cell(v, t, k)
    ensures Product(w, i, k, r) == Product(v, h, k, r)
  {
    SumEqual(r, ProductTerms(w, i, k), ProductTerms(v, h, k));
  }

  lemma Exchange(a: Matrix, p: seq<nat>, w: Matrix, j: nat, q: nat)
    requires Factors(a, p, w, j) && j <= q < |p|
    ensures Factors(a, Swapped(p, j, q), Swapped(w, j, q), j)
  {
    var n, v, o := |p|, Swapped(w, j, q), Swapped(p, j, q);
    forall i, k | 0 <= i < n && 0 <= k < n ensures Cell(a, o[i], k) == Entry(v, i, k, j) {
      var h := if i == j then q else if i == q then j else i;
      var r := if k < i && k < j then k + 1 else if i < j then i else j;
      ProductKept(w, v, h, i, k, r);
      assert Entry(w, h, k, j) == Entry(v, i, k, j);
    }
  }

  lemma Eliminate(a: Matrix, p: seq<nat>, w: Matrix, v: Matrix, j: nat)
    requires Factors(a, p, w, j) && Eliminated(w, v, j)
    ensures Factors(a, p, v, j + 1)
  {
    hide Times, Sum;
    var n := |p|;
    forall i, k | 0 <= i < n && 0 <= k < n ensures Entry(w, i, k, j) == Entry(v, i, k, j + 1) {
      EntryKept(w, v, j, i, k);
    }
  }

  lemma EntryKept(w: Matrix, v: Matrix, j: nat, i: nat, k: nat)
    requires Eliminated(w, v, j) && i < |w| && k < |w|
    ensures Entry(w, i, k, j) == Entry(v, i, k, j + 1)
  {
    hide Times, Sum;
    var n := |w|;
    if i <= j || k < j {
      ProductKept(w, v, i, i, k, if k < i && k < j then k + 1 else i);
    } else {
      ProductKept(w, v, i, i, k, j);
      ProductGrows(v, i, k, j);
    }
  }

  lemma ProductGrows(w: Matrix, i: nat, k: nat, r: nat)
    ensures Product(w, i, k, r + 1) == Product(w, i, k, r) + Times(Cell(w, i, r), Cell(w, r, k))
  {
  }

  //---------------------------------------------------------------- the two factors

  function Lower(w: Matrix, i: nat, t: nat): real {
    if t < i then Cell(w, i, t) else if t == i then 1.0 else 0.0
  }

  function Upper(w: Matrix, t: nat, k: nat): real {
    if t <= k then Cell(w, t, k) else 0.0
  }

  function LowerUpperTerms(w: Matrix, i: nat, k: nat): nat -> real {
    (t: nat) => Times(Lower(w, i, t), Upper(w, t, k))
  }

  /** Of row i of the lower factor times column k of the upper one, the first j terms. */
  function LowerUpper(w: Matrix, i: nat, k: nat, j: nat): real {
    Sum(j, LowerUpperTerms(w, i, k))
  }

  lemma EntryIsProduct(w: Matrix, i: nat, k: nat, j: nat)
    requires i < j || k < j || Cell(w, i, k) == 0.0
    ensures Entry(w, i, k, j) == LowerUpper(w, i, k, j)
  {
    hide Times;
    var f, g := LowerUpperTerms(w, i, k), ProductTerms(w, i, k);
    forall t: nat | t > i || t > k ensures f(t) == 0.0 {
      TimesLaws(Lower(w, i, t), 0.0, 0.0);
      TimesLaws(Upper(w, t, k), 0.0, 0.0);
    }
    var r := if k < i && k < j then k + 1 else if i < j then i else j;
    SumEqual(r, f, g);
    if k < i && k < j {
      SumCut(j, r, f);
    } else if i < j {
      SumCut(j, i + 1, f);
      TimesLaws(Cell(w, i, k), 0.0, 0.0);
    }
  }

  /** At the end the rows in their new order are the product of the two factors. */
  lemma PermutedRowsAreProduct(a: Matrix, p: seq<nat>, w: Matrix)
    requires Factors(a, p, w, |p|)
    ensures forall i, k | 0 <= i < |p| && 0 <= k < |p| :: Cell(a, p[i], k) == LowerUpper(w, i, k, |p|)
  {
    hide Entry, LowerUpper, Cell;
    forall i, k | 0 <= i < |p| && 0 <= k < |p| ensures Cell(a, p[i], k) == LowerUpper(w, i, k, |p|) {
      EntryIsProduct(w, i, k, |p|);
      assert Cell(a, p[i], k) == Entry(w, i, k, |p|);
    }
  }

  //---------------------------------------------------------------- systems of equations

  function UpperTerms(w: Matrix, t: nat, x: Vector): nat -> real {
    (k: nat) => Times(Upper(w, t, k), At(x, k))
  }

  /** Row t of the upper factor times x. */
  function UpperRow(w: Matrix, t: nat, x: Vector): real {
    Sum(|x|, UpperTerms(w, t, x))
  }

  function LowerTerms(w: Matrix, i: nat, y: Vector): nat -> real {
    (t: nat) => Times(Lower(w, i, t), At(y, t))
  }

  /** Row i of the lower factor times y, the first m terms. */
  function LowerRow(w: Matrix, i: nat, m: nat, y: Vector): real {
    Sum(m, LowerTerms(w, i, y))
  }

  function Triple(w: Matrix, i: nat, x: Vector): (nat, nat) -> real {
    (k: nat, t: nat) => Times(Times(Lower(w, i, t), Upper(w, t, k)), At(x, k))
  }

  /** Row `r` is a row of the product of the first m columns and rows of the factors, where x is not zero: then
      times x it is a row of the one factor times the other one times x. */
  lemma RowThroughFactors(a: Matrix, r: nat, w: Matrix, i: nat, m: nat, x: Vector, y: Vector)
    requires forall k | 0 <= k < |x| :: x[k] == 0.0 || Cell(a, r, k) == LowerUpper(w, i, k, m)
    requires m <= |y| && forall t | 0 <= t < m :: y[t] == UpperRow(w, t, x)
    ensures Row(a, r, x) == LowerRow(w, i, m, y)
  {
    hide Times, LowerUpper, Lower, Upper, Cell, UpperRow, Sum, Triple;
    var n, f := |x|, Triple(w, i, x);
    forall k | 0 <= k < n ensures RowTerms(a, r, x)(k) == Sums(m, f)(k) {
      ColumnTerm(a, r, w, i, k, m, x);
    }
    SumEqual(n, RowTerms(a, r, x), Sums(m, f));
    SumSwap(n, m, f);
    forall t | 0 <= t < m ensures Sums(n, Flip(f))(t) == LowerTerms(w, i, y)(t) {
      UpperTerm(w, i, t, x);
    }
    SumEqual(m, Sums(n, Flip(f)), LowerTerms(w, i, y));
  }

  lemma ColumnTerm(a: Matrix, r: nat, w: Matrix, i: nat, k: nat, m: nat, x: Vector)
    requires k < |x| && (x[k] == 0.0 || Cell(a, r, k) == LowerUpper(w, i, k, m))
    ensures Times(Cell(a, r, k), x[k]) == Sum(m, Of(Triple(w, i, x), k))
  {
    hide Times, Lower, Upper, Cell;
    var f, g := LowerUpperTerms(w, i, k), Of(Triple(w, i, x), k);
    if x[k] == 0.0 {
      TimesLaws(Cell(a, r, k), 0.0, 0.0);
      forall t | 0 <= t < m ensures g(t) == 0.0 { TimesLaws(f(t), 0.0, 0.0); }
      SumZero(m, g);
    } else {
      forall t | 0 <= t < m ensures g(t) == Times(x[k], f(t)) { TimesLaws(f(t), x[k], 0.0); }
      SumScales(m, x[k], f, g);
      TimesLaws(x[k], Sum(m, f), 0.0);
    }
  }

  lemma UpperTerm(w: Matrix, i: nat, t: nat, x: Vector)
    ensures Sum(|x|, Of(Flip(Triple(w, i, x)), t)) == Times(Lower(w, i, t), UpperRow(w, t, x))
  {
    hide Times, Lower, Upper;
    var f, g := UpperTerms(w, t, x), Of(Flip(Triple(w, i, x)), t);
    forall k | 0 <= k < |x| ensures g(k) == Times(Lower(w, i, t), f(k)) {
      TimesLaws(Lower(w, i, t), Upper(w, t, k), At(x, k));
    }
    SumScales(|x|, Lower(w, i, t), f, g);
  }

  /** Forward and back substitution together solve the original system. */
  lemma SubstitutionSolves(a: Matrix, p: seq<nat>, w: Matrix, b: Vector, y: Vector, x: Vector)
    requires Factors(a, p, w, |p|) && IsPermutation(p) && |b| == |y| == |x| == |p|
    requires forall i | 0 <= i < |p| :: LowerRow(w, i, |p|, y) == b[p[i]]
    requires forall t | 0 <= t < |p| :: UpperRow(w, t, x) == y[t]
    ensures Solves(a, x, b)
  {
    hide Row, LowerRow, UpperRow, LowerUpper, Cell;
    PermutedRowsAreProduct(a, p, w);
    forall v | 0 <= v < |p| ensures Row(a, v, x) == b[v] {
      assert v in p;
      var i :| 0 <= i < |p| && p[i] == v;
      RowThroughFactors(a, v, w, i, |p|, x, y);
    }
  }

  //---------------------------------------------------------------- regular exactly without a zero pivot

  lemma {:induction false} LowerKernel(w: Matrix, n: nat, y: Vector, i: nat)
    requires |y| == n && i <= n && forall h | 0 <= h < n :: LowerRow(w, h, n, y) == 0.0
    ensures forall h | 0 <= h < i :: y[h] == 0.0
  {
    hide Times;
    if i > 0 {
      LowerKernel(w, n, y, i - 1);
      assert LowerRow(w, i - 1, n, y) == 0.0;
      var f := LowerTerms(w, i - 1, y);
      forall t: nat | t < n && t != i - 1 ensures f(t) == 0.0 {
        TimesLaws(Lower(w, i - 1, t), 0.0, 0.0);
        TimesLaws(At(y, t), 0.0, 0.0);
      }
      SumCut(n, i, f);
      SumZero(i - 1, f);
      TimesLaws(At(y, i - 1), 0.0, 0.0);
    }
  }

  lemma {:induction false} UpperKernel(w: Matrix, x: Vector, i: nat)
    requires i <= |x| && PivotsNonzero(w, |x|) && forall t | 0 <= t < |x| :: UpperRow(w, t, x) == 0.0
    ensures forall h | i <= h < |x| :: x[h] == 0.0
    decreases |x| - i
  {
    hide Times;
    if i < |x| {
      UpperKernel(w, x, i + 1);
      assert UpperRow(w, i, x) == 0.0;
      var f := UpperTerms(w, i, x);
      forall k: nat | k < |x| && k != i ensures f(k) == 0.0 {
        TimesLaws(Upper(w, i, k), 0.0, 0.0);
        TimesLaws(At(x, k), 0.0, 0.0);
      }
      SumCut(|x|, i + 1, f);
      SumZero(i, f);
      ZeroProduct(Cell(w, i, i), x[i]);
    }
  }

  lemma ZeroProduct(a: real, b: real)
    requires Times(a, b) == 0.0 && a != 0.0
    ensures b == 0.0
  {
  }

  /** Where all pivots are nonzero, the original matrix is regular. */
  lemma NonzeroPivotsRegular(a: Matrix, p: seq<nat>, w: Matrix)
    requires Factors(a, p, w, |p|) && IsPermutation(p) && PivotsNonzero(w, |p|)
    ensures Regular(a)
  {
    hide Row, LowerRow, UpperRow, LowerUpper, Cell, Sum;
    var n := |p|;
    forall x: Vector | Solves(a, x, Zeros(n)) ensures x == Zeros(n) {
      var y := seq(n, t requires 0 <= t < n => UpperRow(w, t, x));
      PermutedRowsAreProduct(a, p, w);
      forall i | 0 <= i < n ensures LowerRow(w, i, n, y) == 0.0 {
        RowThroughFactors(a, p[i], w, i, n, x, y);
        assert Row(a, p[i], x) == Zeros(n)[p[i]];
      }
      LowerKernel(w, n, y, n);
      forall t | 0 <= t < n ensures UpperRow(w, t, x) == 0.0 { assert y[t] == 0.0; }
      UpperKernel(w, x, 0);
    }
  }

  /** A vector that the first j rows of the upper factor take to zero; its entries from j on are 1, 0, 0, ... */
  lemma {:induction false} KernelVector(w: Matrix, n: nat, j: nat, t: nat) returns (x: Vector)
    requires t <= j < n && PivotsNonzero(w, j)
    ensures |x| == n && x[j] == 1.0 && (forall k | j < k < n :: x[k] == 0.0)
    ensures forall h | t <= h < j :: UpperRow(w, h, x) == 0.0
    decreases j - t
  {
    hide Times;
    if t == j {
      x := Zeros(n)[j := 1.0];
    } else {
      var z := KernelVector(w, n, j, t + 1);
      var d := Cell(w, t, t);
      var u := z[t] - UpperRow(w, t, z) / d;
      x := z[t := u];
      forall h | t < h < j ensures UpperRow(w, h, x) == 0.0 {
        UnderDiagonal(w, h, t, z, u);
        assert UpperRow(w, h, z) == 0.0;
      }
      SumChanges(n, t, UpperTerms(w, t, z), UpperTerms(w, t, x));
      Corrects(d, z[t], UpperRow(w, t, z));
    }
  }

  lemma UnderDiagonal(w: Matrix, h: nat, t: nat, z: Vector, u: real)
    requires t < h && t < |z|
    ensures UpperRow(w, h, z[t := u]) == UpperRow(w, h, z)
  {
    hide Times;
    TimesLaws(At(z, t), 0.0, 0.0);
    TimesLaws(u, 0.0, 0.0);
    SumEqual(|z|, UpperTerms(w, h, z), UpperTerms(w, h, z[t := u]));
  }

  lemma {:induction false} SumChanges(n: nat, t: nat, f: nat -> real, g: nat -> real)
    requires t < n && forall k | 0 <= k < n && k != t :: f(k) == g(k)
    ensures Sum(n, g) == Sum(n, f) - f(t) + g(t)
  {
    if t == n - 1 { SumEqual(n - 1, f, g); } else { SumChanges(n - 1, t, f, g); }
  }

  lemma Corrects(d: real, z: real, s: real)
    requires d != 0.0
    ensures s - Times(d, z) + Times(d, z - s / d) == 0.0
  {
    assert d * (z - s / d) == d * z - d * (s / d);
  }

  /** A column without a pivot: the original matrix takes some vector other than zero to zero. */
  lemma ZeroPivotSingular(a: Matrix, p: seq<nat>, w: Matrix, j: nat)
    requires Factors(a, p, w, j) && IsPermutation(p) && PivotsNonzero(w, j) && j < |p|
    requires forall i | j <= i < |p| :: Cell(w, i, j) == 0.0
    ensures !Regular(a)
  {
    hide Row, LowerRow, UpperRow, LowerUpper, Cell, Sum, Entry;
    var n := |p|;
    var x := KernelVector(w, n, j, 0);
    var y := Zeros(n);
    forall v | 0 <= v < n ensures Row(a, v, x) == 0.0 {
      assert v in p;
      var i :| 0 <= i < n && p[i] == v;
      forall k | 0 <= k < n ensures x[k] == 0.0 || Cell(a, v, k) == LowerUpper(w, i, k, j) {
        if k <= j { EntryIsProduct(w, i, k, j); }
      }
      RowThroughFactors(a, v, w, i, j, x, y);
      LowerOfZero(w, i, j, n);
    }
    assert Solves(a, x, Zeros(n)) && x[j] != Zeros(n)[j];
  }

  lemma LowerOfZero(w: Matrix, i: nat, m: nat, n: nat)
    ensures LowerRow(w, i, m, Zeros(n)) == 0.0
  {
    hide Times;
    var f := LowerTerms(w, i, Zeros(n));
    forall t | 0 <= t < m ensures f(t) == 0.0 { TimesLaws(Lower(w, i, t), 0.0, 0.0); }
    SumZero(m, f);
  }
}

/** LU factorization in place with partial pivoting, and the solution of a factored system (SciMark's LU). */
module LU {
  import opened Reals
  import opened LinearAlgebra
  import opened LuTheory

  ghost function Rows(a: array<array<real>>): set<array<real>>
    reads a
  {
    set i | 0 <= i < a.Length :: a[i]
  }

  /** Square, with rows that are different objects. */
  ghost predicate Shape(a: array<array<real>>)
    reads a
  {
    && a.Length > 0 && (forall i | 0 <= i < a.Length :: a[i].Length == a.Length)
    && forall i, j | 0 <= i < j < a.Length :: a[i] != a[j]
  }

  ghost function Contents(a: array<array<real>>): (m: Matrix)
    requires Shape(a)
    reads a, Rows(a)
    ensures Square(m, a.Length) && forall i, k | 0 <= i < a.Length && 0 <= k < a.Length :: m[i][k] == a[i][k]
  {
    seq(a.Length, i requires 0 <= i < a.Length reads a, Rows(a) => a[i][..])
  }

  method FindPivot(a: array<array<real>>, j: nat) returns (jp: nat)
    requires Shape(a) && j < a.Length
    ensures j <= jp < a.Length && forall i | j <= i < a.Length :: Abs(a[i][j]) <= Abs(a[jp][j])
  {
    jp := j;
    var t := Abs(a[j][j]);
    for i := j + 1 to a.Length
      invariant j <= jp < a.Length && t == Abs(a[jp][j])
      invariant forall h | j <= h < i :: Abs(a[h][j]) <= t
    {
      var ab := Abs(a[i][j]);
      if ab > t { jp, t := i, ab; }
    }
  }

  method ScaleColumn(a: array<array<real>>, j: nat)
    requires Shape(a) && j < a.Length && a[j][j] != 0.0
    modifies Rows(a)
    ensures forall i, k | 0 <= i < a.Length && 0 <= k < a.Length ::
      a[i][k] == if i > j && k == j then Times(old(a[i][k]), 1.0 / old(a[j][j])) else old(a[i][k])
  {
    hide Times;
    var recp := 1.0 / a[j][j];
    for h := j + 1 to a.Length
      invariant forall i, k | 0 <= i < a.Length && 0 <= k < a.Length ::
        a[i][k] == if h > i > j && k == j then Times(old(a[i][k]), recp) else old(a[i][k])
    {
      a[h][j] := Times(a[h][j], recp);
    }
  }

  /** One row of the trailing part: minus its multiplier times the row of the pivot. */
  method UpdateRow(Aii: array<real>, Aj: array<real>, j: nat)
    requires Aii != Aj && Aii.Length == Aj.Length && j < Aj.Length
    modifies Aii
    ensures forall k | 0 <= k < Aii.Length :: Aii[k] == if k > j then old(Aii[k]) - Times(old(Aii[j]), Aj[k])
      else old(Aii[k])
  {
    var AiiJ := Aii[j];
    for jj := j + 1 to Aii.Length
      invariant forall k | 0 <= k < Aii.Length :: Aii[k] == if jj > k > j then old(Aii[k]) - Times(AiiJ, Aj[k])
        else old(Aii[k])
    {
      Aii[jj] := Aii[jj] - Times(AiiJ, Aj[jj]);
    }
  }

  method UpdateTrailing(a: array<array<real>>, j: nat)
    requires Shape(a) && j < a.Length
    modifies Rows(a)
    ensures forall i, k | 0 <= i < a.Length && 0 <= k < a.Length && (i <= j || k <= j) :: a[i][k] == old(a[i][k])
    ensures forall i, k | j < i < a.Length && j < k < a.Length ::
      a[i][k] == old(a[i][k]) - Times(old(a[i][j]), old(a[j][k]))
  {
    hide Times;
    for ii := j + 1 to a.Length
      invariant forall i, k | 0 <= i < a.Length && 0 <= k < a.Length && (i <= j || k <= j || i >= ii) ::
        a[i][k] == old(a[i][k])
      invariant forall i, k | j < i < ii && j < k < a.Length ::
        a[i][k] == old(a[i][k]) - Times(old(a[i][j]), old(a[j][k]))
    {
      UpdateRow(a[ii], a[j], j);
    }
  }

  lemma Divided(x: real, d: real)
    requires d != 0.0
    ensures Times(Times(x, 1.0 / d), d) == x
    ensures Abs(x) <= Abs(d) ==> Abs(Times(x, 1.0 / d)) <= 1.0
  {
    assert x * (1.0 / d) == x / d;
    if Abs(x) <= Abs(d) {
      if d > 0.0 { assert -1.0 <= x / d <= 1.0; } else { assert -1.0 <= x / d <= 1.0; }
    }
  }

  predicate Scaled(w: Matrix, v: Matrix, j: nat, recp: real) {
    && Square(w, |w|) && Square(v, |w|) && j < |w|
    && forall i, k | 0 <= i < |w| && 0 <= k < |w| :: v[i][k] == if i > j && k == j then Times(w[i][k], recp)
      else w[i][k]
  }

  predicate Updated(w: Matrix, v: Matrix, j: nat) {
    && Square(w, |w|) && Square(v, |w|) && j < |w|
    && (forall i, k | 0 <= i < |w| && 0 <= k < |w| && (i <= j || k <= j) :: v[i][k] == w[i][k])
    && (forall i, k | j < i < |w| && j < k < |w| :: v[i][k] == w[i][k] - Times(w[i][j], w[j][k]))
  }

  lemma ScaledAndUpdated(w: Matrix, v: Matrix, u: Matrix, j: nat)
    requires j < |w| && Square(w, |w|) && w[j][j] != 0.0
    requires Scaled(w, v, j, 1.0 / w[j][j]) && Updated(v, u, j)
      && forall i | j <= i < |w| :: Abs(w[i][j]) <= Abs(w[j][j])
    ensures Eliminated(w, u, j) && forall i | j < i < |w| :: Abs(u[i][j]) <= 1.0
  {
    hide Times, Abs;
    forall i | j < i < |w| ensures Times(u[i][j], w[j][j]) == w[i][j] && Abs(u[i][j]) <= 1.0 {
      Divided(w[i][j], w[j][j]);
      assert u[i][j] == v[i][j];
    }
    forall i, k | 0 <= i < |w| && 0 <= k < |w| && (i <= j || k < j) ensures u[i][k] == w[i][k] {
      assert u[i][k] == v[i][k];
    }
    forall i, k | j < i < |w| && j < k < |w| ensures u[i][k] == w[i][k] - Times(u[i][j], w[j][k]) {
      assert v[i][k] == w[i][k] && v[j][k] == w[j][k] && u[i][j] == v[i][j];
    }
  }

  /** Makes column `j` a column of the factors. */
  method EliminateColumn(a: array<array<real>>, j: nat)
    requires Shape(a) && j < a.Length && a[j][j] != 0.0
    requires forall i | j <= i < a.Length :: Abs(a[i][j]) <= Abs(a[j][j])
    modifies Rows(a)
    ensures Eliminated(old(Contents(a)), Contents(a), j)
    ensures forall i | j < i < a.Length :: Abs(Contents(a)[i][j]) <= 1.0
  {
    hide Times, Abs;
    ghost var w := Contents(a);
    if j < a.Length - 1 {
      ScaleColumn(a, j);
    }
    ghost var v := Contents(a);
    assert Scaled(w, v, j, 1.0 / w[j][j]);
    if j < a.Length - 1 {
      UpdateTrailing(a, j);
    }
    ghost var u := Contents(a);
    assert forall i, k | 0 <= i < |v| && 0 <= k < |v| && (i <= j || k <= j) :: u[i][k] == v[i][k];
    assert forall i, k | j < i < |v| && j < k < |v| :: u[i][k] == v[i][k] - Times(v[i][j], v[j][k]);
    ScaledAndUpdated(w, v, u, j);
  }

  /** The state between two columns: what is in the arrays stands for the original matrix. */
  ghost predicate Done(original: Matrix, a: array<array<real>>, pivot: array<int>, j: nat)
    requires Shape(a)
    reads a, Rows(a), pivot
  {
    && j <= a.Length <= pivot.Length
    && (forall h | 0 <= h < j :: h <= pivot[h] < a.Length)
    && Factors(original, Order(a.Length, pivot[..j]), Contents(a), j)
    && PivotsNonzero(Contents(a), j) && MultipliersBounded(Contents(a), j)
  }

  lemma Begins(m: Matrix, n: nat)
    requires Square(m, n)
    ensures Factors(m, Order(n, []), m, 0)
  {
  }

  method SwapRows(a: array<array<real>>, j: nat, jp: nat)
    requires Shape(a) && j < a.Length && jp < a.Length
    modifies a
    ensures Shape(a) && Rows(a) == old(Rows(a)) && Contents(a) == Swapped(old(Contents(a)), j, jp)
  {
    ghost var before := Contents(a);
    ghost var rows := Rows(a);
    var tA := a[j];
    a[j] := a[jp];
    a[jp] := tA;
    forall r ensures r in Rows(a) <==> r in rows {
      if r in rows {
        var i :| 0 <= i < a.Length && old(a[i]) == r;
        assert a[if i == j then jp else if i == jp then j else i] == r;
      }
    }
    assert Contents(a) == Swapped(before, j, jp);
  }

  lemma ExchangeKeeps(w: Matrix, j: nat, q: nat)
    requires Square(w, |w|) && j <= q < |w| && PivotsNonzero(w, j) && MultipliersBounded(w, j)
    ensures PivotsNonzero(Swapped(w, j, q), j) && MultipliersBounded(Swapped(w, j, q), j)
  {
    hide Abs;
    var v := Swapped(w, j, q);
    forall i, k | 0 <= k < i < |w| && k < j ensures Abs(Cell(v, i, k)) <= 1.0 {
      var h := if i == j then q else if i == q then j else i;
      assert v[i] == w[h] && Abs(Cell(w, h, k)) <= 1.0;
    }
    forall t | 0 <= t < j ensures Cell(v, t, t) != 0.0 { assert Cell(v, t, t) == Cell(w, t, t); }
  }

  /** One round: the pivot, the exchange, the new column of the factors; or no pivot. */
  method FactorColumn(ghost original: Matrix, a: array<array<real>>, pivot: array<int>, j: nat) returns (found: bool)
    requires Shape(a) && j < a.Length && Done(original, a, pivot, j)
    modifies a, Rows(a), pivot
    ensures Shape(a) && Rows(a) == old(Rows(a))
    ensures if found then Done(original, a, pivot, j + 1) else !Regular(original)
  {
    hide Abs, Times, Entry, Factors, PivotsNonzero, MultipliersBounded, Eliminated, Order, IsPermutation, Regular;
    var n := a.Length;
    var jp := FindPivot(a, j);
    ghost var w, before := Contents(a), pivot[..j];
    ghost var p := Order(n, before);
    pivot[j] := jp;
    assert pivot[..j] == before && pivot[..j + 1] == before + [jp];
    if a[jp][j] == 0.0 {
      OrderIsPermutation(n, before);
      ZeroColumn(w, j, jp);
      ZeroPivotSingular(original, p, w, j);
      return false;
    }
    ghost var s := Swapped(w, j, jp);
    ExchangeKeeps(w, j, jp);
    Exchange(original, p, w, j, jp);
    if jp != j {
      SwapRows(a, j, jp);
    }
    assert Contents(a) == s;
    EliminateColumn(a, j);
    Eliminate(original, Swapped(p, j, jp), s, Contents(a), j);
    EliminationKeeps(s, Contents(a), j);
    NextOrder(n, before, jp);
    return true;
  }

  lemma NextOrder(n: nat, pivot: seq<int>, q: nat)
    requires |pivot| < n && q < n && forall j | 0 <= j < |pivot| :: 0 <= pivot[j] < n
    ensures Order(n, pivot + [q]) == Swapped(Order(n, pivot), |pivot|, q)
  {
    assert (pivot + [q])[..|pivot|] == pivot;
  }

  /** 0, with the factors in place and the exchanges in `pivot`, exactly when the matrix is regular. */
  method Factor(a: array<array<real>>, pivot: array<int>) returns (result: int)
    requires Shape(a) && a.Length <= pivot.Length
    modifies a, Rows(a), pivot
    ensures Shape(a) && Rows(a) == old(Rows(a)) && result in {0, 1}
    ensures result == 0 <==> Regular(old(Contents(a)))
    ensures result == 0 ==> Done(old(Contents(a)), a, pivot, a.Length)
  {
    hide Abs, Times, Factors, PivotsNonzero, MultipliersBounded, IsPermutation, Regular;
    ghost var original := Contents(a);
    var n := a.Length;
    Begins(original, n);
    NothingDone(original);
    assert pivot[..0] == [];
    for j := 0 to n
      invariant Shape(a) && Rows(a) == old(Rows(a)) && Done(original, a, pivot, j)
    {
      var found := FactorColumn(original, a, pivot, j);
      if !found { return 1; }
    }
    OrderIsPermutation(n, pivot[..n]);
    NonzeroPivotsRegular(original, Order(n, pivot[..n]), Contents(a));
    return 0;
  }

  lemma NothingDone(w: Matrix)
    ensures PivotsNonzero(w, 0) && MultipliersBounded(w, 0)
  {
  }

  lemma ZeroColumn(w: Matrix, j: nat, jp: nat)
    requires Square(w, |w|) && j <= jp < |w| && w[jp][j] == 0.0
      && forall i | j <= i < |w| :: Abs(w[i][j]) <= Abs(w[jp][j])
    ensures forall i | j <= i < |w| :: Cell(w, i, j) == 0.0
  {
  }

  lemma EliminationKeeps(w: Matrix, v: Matrix, j: nat)
    requires Eliminated(w, v, j) && PivotsNonzero(w, j) && MultipliersBounded(w, j) && w[j][j] != 0.0
    requires forall i | j < i < |w| :: Abs(v[i][j]) <= 1.0
    ensures PivotsNonzero(v, j + 1) && MultipliersBounded(v, j + 1)
  {
    hide Abs, Times;
    forall t | 0 <= t <= j ensures Cell(v, t, t) != 0.0 { assert Cell(v, t, t) == Cell(w, t, t); }
    forall i, k | 0 <= k < i < |w| && k <= j ensures Abs(Cell(v, i, k)) <= 1.0 {
      if k < j { assert Cell(v, i, k) == Cell(w, i, k); }
    }
  }

  //---------------------------------------------------------------- substitution

  /** Σ lu[i][k] * b[k] for from <= k < to, subtracted from s. */
  method Subtract(lu: array<array<real>>, i: nat, from: nat, to: nat, b: array<real>, s: real) returns (sum: real)
    requires Shape(lu) && i < lu.Length == b.Length && from <= to <= b.Length
    ensures sum == s - (Sum(to, RowTerms(Contents(lu), i, b[..])) - Sum(from, RowTerms(Contents(lu), i, b[..])))
  {
    hide Times;
    sum := s;
    ghost var f := RowTerms(Contents(lu), i, b[..]);
    for k := from to to
      invariant sum == s - (Sum(k, f) - Sum(from, f))
    {
      sum := sum - Times(lu[i][k], b[k]);
      assert Sum(k + 1, f) == Sum(k, f) + f(k);
    }
  }

  /** The right-hand side while rows before `i` are done: solved there, still to be permuted after. */
  ghost predicate Forward(w: Matrix, b0: Vector, p: seq<nat>, b: Vector, i: nat) {
    && IsPermutation(p) && |w| == |b| == |b0| == |p| && i <= |p|
    && (forall h | 0 <= h < i :: LowerRow(w, h, h + 1, b) == b0[p[h]])
    && (forall h | i <= h < |p| :: b[h] == b0[p[h]])
  }

  lemma LowerStep(w: Matrix, i: nat, b: Vector, c: Vector)
    requires i < |b| == |c| && c == b[i := c[i]] && c[i] == b[i] - Sum(i, RowTerms(w, i, b))
    ensures LowerRow(w, i, i + 1, c) == b[i]
  {
    hide Times;
    var f := LowerTerms(w, i, c);
    SumEqual(i, RowTerms(w, i, b), f);
    assert Sum(i + 1, f) == Sum(i, f) + f(i);
    TimesLaws(c[i], 0.0, 0.0);
  }

  lemma LowerKept(w: Matrix, h: nat, b: Vector, c: Vector)
    requires |b| == |c| && h < |b| && forall t | 0 <= t <= h :: b[t] == c[t]
    ensures LowerRow(w, h, h + 1, b) == LowerRow(w, h, h + 1, c)
  {
    SumEqual(h + 1, LowerTerms(w, h, b), LowerTerms(w, h, c));
  }

  lemma LowerWhole(w: Matrix, h: nat, n: nat, y: Vector)
    requires h < n
    ensures LowerRow(w, h, n, y) == LowerRow(w, h, h + 1, y)
  {
    hide Times;
    var f := LowerTerms(w, h, y);
    forall t: nat | h < t ensures f(t) == 0.0 { TimesLaws(At(y, t), 0.0, 0.0); }
    SumCut(n, h + 1, f);
  }

  /** Solves lower factor times y = permuted b, exchanging as it goes. */
  method ForwardSubstitution(lu: array<array<real>>, pvt: array<int>, b: array<real>)
    requires Shape(lu) && b.Length == lu.Length <= pvt.Length && b !in Rows(lu)
    requires forall h | 0 <= h < lu.Length :: h <= pvt[h] < lu.Length
    modifies b
    ensures Forward(Contents(lu), old(b[..]), Order(b.Length, pvt[..b.Length]), b[..], b.Length)
  {
    hide LowerRow, Times, Sum, RowTerms, Order, Forward, IsPermutation;
    var n := lu.Length;
    ghost var w, b0 := Contents(lu), b[..];
    var ii := 0;
    assert Forward(w, b0, Order(n, pvt[..0]), b0, 0) by { NothingSolved(w, b0, pvt[..0]); }
    for i := 0 to n
      invariant ii == 0
      invariant Forward(w, b0, Order(n, pvt[..i]), b[..], i)
    {
      ghost var p, c := Order(n, pvt[..i]), b[..];
      var ip := pvt[i];
      var sum := b[ip];
      b[ip] := b[i];
      ghost var d := b[..];
      if ii == 0 {
        sum := Subtract(lu, i, ii, i, b, sum);
      } else if sum == 0.0 {
        ii := i;
      }
      b[i] := sum;
      ghost var s := Swapped(c, i, ip);
      assert b[..] == s[i := sum];
      SumNothing(RowTerms(w, i, d));
      SameBefore(w, i, d, s);
      ForwardStep(w, b0, p, c, i, ip, b[..]);
      assert pvt[..i + 1] == pvt[..i] + [pvt[i]];
      NextOrder(n, pvt[..i], pvt[i]);
    }
  }

  lemma NothingSolved(w: Matrix, b: Vector, pvt: seq<int>)
    requires |w| == |b| && pvt == []
    ensures Forward(w, b, Order(|b|, pvt), b, 0)
  {
    OrderIsPermutation(|b|, pvt);
  }

  lemma SumStep(n: nat, f: nat -> real)
    ensures Sum(n + 1, f) == Sum(n, f) + f(n)
  {
  }

  lemma SumNothing(f: nat -> real)
    ensures Sum(0, f) == 0.0
  {
  }

  lemma SameBefore(w: Matrix, i: nat, b: Vector, c: Vector)
    requires |b| == |c| && i <= |b| && forall t | 0 <= t < i :: b[t] == c[t]
    ensures Sum(i, RowTerms(w, i, b)) == Sum(i, RowTerms(w, i, c))
  {
    hide Times;
    SumEqual(i, RowTerms(w, i, b), RowTerms(w, i, c));
  }

  lemma ForwardStep(w: Matrix, b0: Vector, p: seq<nat>, c: Vector, i: nat, ip: nat, d: Vector)
    requires Forward(w, b0, p, c, i) && i <= ip < |p|
    requires |d| == |c| && d == Swapped(c, i, ip)[i := d[i]]
    requires d[i] == c[ip] - Sum(i, RowTerms(w, i, Swapped(c, i, ip)))
    ensures Forward(w, b0, Swapped(p, i, ip), d, i + 1)
  {
    hide LowerRow, Sum, RowTerms;
    SwapStaysPermutation(p, i, ip);
    var s := Swapped(c, i, ip);
    LowerStep(w, i, s, d);
    forall h | 0 <= h < i ensures LowerRow(w, h, h + 1, d) == b0[Swapped(p, i, ip)[h]] { LowerKept(w, h, c, d); }
  }

  /** Of row i of the upper factor, the diagonal term is the first one that counts. */
  lemma UpperHead(w: Matrix, i: nat, c: Vector)
    requires i < |c|
    ensures Sum(i + 1, UpperTerms(w, i, c)) == Times(Cell(w, i, i), c[i])
  {
    hide Times;
    var f := UpperTerms(w, i, c);
    forall k | 0 <= k < i ensures f(k) == 0.0 { TimesLaws(At(c, k), 0.0, 0.0); }
    SumZero(i, f);
    SumStep(i, f);
  }

  lemma UpperStep(w: Matrix, i: nat, b: Vector, c: Vector)
    requires i < |b| == |c| && c == b[i := c[i]]
    requires Times(Cell(w, i, i), c[i]) == b[i] - (Sum(|b|, RowTerms(w, i, b)) - Sum(i + 1, RowTerms(w, i, b)))
    ensures UpperRow(w, i, c) == b[i]
  {
    hide Times, Sum;
    UpperHead(w, i, c);
    SumTail(|b|, i + 1, UpperTerms(w, i, c), RowTerms(w, i, b));
  }

  lemma Quotient(x: real, d: real)
    requires d != 0.0
    ensures Times(d, x / d) == x
  {
  }

  lemma {:induction false} SumTail(n: nat, m: nat, f: nat -> real, g: nat -> real)
    requires m <= n && forall k | m <= k < n :: f(k) == g(k)
    ensures Sum(n, f) - Sum(m, f) == Sum(n, g) - Sum(m, g)
  {
    if m < n { SumTail(n - 1, m, f, g); }
  }

  lemma UpperKept(w: Matrix, h: nat, b: Vector, c: Vector)
    requires |b| == |c| && forall k | h <= k < |b| :: b[k] == c[k]
    ensures UpperRow(w, h, b) == UpperRow(w, h, c)
  {
    hide Times;
    var f, g := UpperTerms(w, h, b), UpperTerms(w, h, c);
    forall k | 0 <= k < |b| ensures f(k) == g(k) { TimesLaws(At(b, k), 0.0, 0.0); TimesLaws(At(c, k), 0.0, 0.0); }
    SumEqual(|b|, f, g);
  }

  /** Solves upper factor times x = y. */
  method BackSubstitution(lu: array<array<real>>, b: array<real>)
    requires Shape(lu) && b.Length == lu.Length && b !in Rows(lu)
    requires PivotsNonzero(Contents(lu), lu.Length)
    modifies b
    ensures forall h | 0 <= h < b.Length :: UpperRow(Contents(lu), h, b[..]) == old(b[..])[h]
  {
    hide UpperRow, Times, Sum, RowTerms;
    var n := lu.Length;
    ghost var w, y := Contents(lu), b[..];
    var i := n - 1;
    while i >= 0
      invariant -1 <= i < n
      invariant forall h | 0 <= h <= i :: b[h] == y[h]
      invariant forall h | i < h < n :: UpperRow(w, h, b[..]) == y[h]
    {
      ghost var c := b[..];
      var sum := Subtract(lu, i, i + 1, n, b, b[i]);
      assert w[i][i] == lu[i][i] && Cell(w, i, i) == w[i][i] != 0.0;
      b[i] := sum / lu[i][i];
      ghost var d := b[..];
      assert d == c[i := d[i]];
      Quotient(sum, lu[i][i]);
      UpperStep(w, i, c, d);
      forall h | i < h < n ensures UpperRow(w, h, d) == y[h] { UpperKept(w, h, c, d); }
      i := i - 1;
    }
  }

  /** The right-hand side becomes the solution of the system that was factored. */
  method Solve(ghost original: Matrix, lu: array<array<real>>, pvt: array<int>, b: array<real>)
    requires Shape(lu) && b.Length == lu.Length && b !in Rows(lu) && Done(original, lu, pvt, lu.Length)
    modifies b
    ensures Solves(original, b[..], old(b[..]))
  {
    hide LowerRow, UpperRow, Factors, MultipliersBounded, Solves, PivotsNonzero;
    var n := lu.Length;
    ghost var w, b0, p := Contents(lu), b[..], Order(n, pvt[..n]);
    ForwardSubstitution(lu, pvt, b);
    ghost var y := b[..];
    forall h | 0 <= h < n ensures LowerRow(w, h, n, y) == b0[p[h]] { LowerWhole(w, h, n, y); }
    BackSubstitution(lu, b);
    SubstitutionSolves(original, p, w, b0, y, b[..]);
  }
}

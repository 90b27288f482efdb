/** What the operators of symbolic expressions compute, stated on the trees that are built with them. */
module SymbolicOperators {
  import opened Collections
  import opened Reals
  import opened Remainders
  import opened SymbolicExpression

  /** The operands have these values at x. */
  predicate Operands(l: Expr, r: Expr, x: real, a: real, b: real) {
    WellFormed(l) && WellFormed(r) && Plain(l, x) == Some(a) && Plain(r, x) == Some(b)
  }

  lemma BuiltSum(keep: bool, l: Expr, r: Expr, x: real, a: real, b: real)
    requires Operands(l, r, x, a, b)
    ensures var (s, d) := (Plain(Build(keep, ADD, l, r), x), Plain(Build(keep, SUB, l, r), x));
      s.Some? && s.value - b == a && d.Some? && d.value + b == a
  {
    hide Build, Plain, WellFormed;
    BuildMeans(keep, ADD, l, r, x);
    BuildMeans(keep, SUB, l, r, x);
  }

  lemma BuiltProduct(keep: bool, l: Expr, r: Expr, x: real, a: real, b: real)
    requires Operands(l, r, x, a, b)
    ensures Plain(Build(keep, MUL, l, r), x) == Some(Times(a, b))
    ensures var q := Plain(Build(keep, DIV, l, r), x);
      if b == 0.0 then q == None else q.Some? && Times(q.value, b) == a
  {
    hide Build, Plain, WellFormed, Times, Quotient;
    BuildMeans(keep, MUL, l, r, x);
    BuildMeans(keep, DIV, l, r, x);
    if b != 0.0 { QuotientTimes(a, b); }
  }

  lemma QuotientTimes(a: real, b: real)
    requires b != 0.0
    ensures Times(Quotient(a, b), b) == a
  {
  }

  /** The first operand is the one that is divided. */
  lemma BuiltRemainder(keep: bool, l: Expr, r: Expr, x: real, a: real, b: real)
    requires Operands(l, r, x, a, b)
    ensures var v := Plain(Build(keep, REM, l, r), x);
      if b == 0.0 then v == None else v.Some? && RemainderOf(v.value, a, b)
  {
    hide Build, Plain, WellFormed, RemainderOf, Remainder;
    BuildMeans(keep, REM, l, r, x);
    if b != 0.0 { RemainderMeets(a, b); }
  }

  lemma BuiltBounds(keep: bool, l: Expr, r: Expr, x: real, a: real, b: real)
    requires Operands(l, r, x, a, b)
    ensures var (v, w) := (Plain(Build(keep, MIN, l, r), x), Plain(Build(keep, MAX, l, r), x));
      && v.Some? && v.value <= a && v.value <= b && (v.value == a || v.value == b)
      && w.Some? && w.value >= a && w.value >= b && (w.value == a || w.value == b)
  {
    hide Build, Plain, WellFormed;
    BuildMeans(keep, MIN, l, r, x);
    BuildMeans(keep, MAX, l, r, x);
  }

  /** A square root, as far as it is defined. */
  ghost predicate SquareRoot(root: real -> Option<real>) {
    forall z :: root(z).Some? ==> root(z).value >= 0.0 && Times(root(z).value, root(z).value) == z
  }

  lemma BuiltHypot(keep: bool, root: real -> Option<real>, l: Expr, r: Expr, x: real, a: real, b: real)
    requires Operands(l, r, x, a, b) && SquareRoot(root)
    ensures var v := Plain(Build(keep, HYPOT(root), l, r), x);
      v.Some? ==> v.value >= 0.0 && Times(v.value, v.value) == Times(a, a) + Times(b, b)
  {
    hide Build, Plain, WellFormed, Times;
    BuildMeans(keep, HYPOT(root), l, r, x);
    var z := Times(a, a) + Times(b, b);
    assert root(z).Some? ==> Times(root(z).value, root(z).value) == z;
  }

  //---------------------------------------------------------------- powers

  lemma {:induction false} PowerSum(a: real, m: nat, n: nat)
    ensures Power(a, m + n) == Times(Power(a, m), Power(a, n))
  {
    if m > 0 {
      PowerSum(a, m - 1, n);
      assert a * (Power(a, m - 1) * Power(a, n)) == (a * Power(a, m - 1)) * Power(a, n);
    }
  }

  lemma PowOfNatural(a: Option<real>, n: nat)
    ensures Pow(a, Some(n as real)) == if n == 0 then Some(1.0) else if a.None? then None else Some(Power(a.value, n))
  {
    assert (n as real).Floor == n;
  }

  function Exponent(n: nat): Expr { Constant(Some(n as real)) }

  /** The first operand is the base: x^1 = x, and exponents add up. */
  lemma BuiltPower(keep: bool, l: Expr, x: real, a: real, m: nat, n: nat)
    requires WellFormed(l) && Plain(l, x) == Some(a)
    ensures var (p, q) := (Plain(Build(keep, POW, l, Exponent(m)), x), Plain(Build(keep, POW, l, Exponent(n)), x));
      p.Some? && q.Some? && Plain(Build(keep, POW, l, Exponent(m + n)), x) == Some(Times(p.value, q.value))
    ensures Plain(Build(keep, POW, l, Exponent(1)), x) == Some(a)
  {
    hide Build, Plain, WellFormed, Power, Times;
    PowerBuilt(keep, l, x, a, m);
    PowerBuilt(keep, l, x, a, n);
    PowerBuilt(keep, l, x, a, m + n);
    PowerBuilt(keep, l, x, a, 1);
    PowerSum(a, m, n);
    FirstPower(a);
  }

  lemma FirstPower(a: real)
    ensures Power(a, 1) == a
  {
    assert Power(a, 0) == 1.0;
  }

  lemma PowerBuilt(keep: bool, l: Expr, x: real, a: real, n: nat)
    requires WellFormed(l) && Plain(l, x) == Some(a)
    ensures Plain(Build(keep, POW, l, Exponent(n)), x) == Some(Power(a, n))
  {
    BuildMeans(keep, POW, l, Exponent(n), x);
    hide Build, WellFormed;
    PowOfNatural(Some(a), n);
  }

  //---------------------------------------------------------------- unary operators

  lemma BuiltUnary(keep: bool, f: real -> Option<real>, l: Expr, x: real, a: real)
    requires WellFormed(l) && Plain(l, x) == Some(a)
    ensures var v := Plain(BuildUnary(keep, NEG, l), x); v.Some? && v.value + a == 0.0
    ensures var v := Plain(BuildUnary(keep, ABS, l), x);
      v.Some? && v.value >= 0.0 && (v.value == a || v.value == -a)
    ensures Plain(BuildUnary(keep, FUNCTION(f), l), x) == f(a)
  {
    hide BuildUnary, Plain, WellFormed;
    BuildUnaryMeans(keep, NEG, l, x);
    BuildUnaryMeans(keep, ABS, l, x);
    BuildUnaryMeans(keep, FUNCTION(f), l, x);
  }

  //---------------------------------------------------------------- what is not a number

  /** Of an operand that is no number only the power with exponent 0 is one. */
  lemma NaNStays(keep: bool, op: OP, l: Expr, r: Expr, x: real)
    requires WellFormed(l) && WellFormed(r) && !IsUnary(op)
    requires Plain(l, x) == None || Plain(r, x) == None
    ensures Plain(Build(keep, op, l, r), x) ==
      if op.POW? && Plain(r, x) == Some(0.0) then Some(1.0) else None
  {
    hide Build, Plain, WellFormed;
    BuildMeans(keep, op, l, r, x);
  }

  //---------------------------------------------------------------- folding

  predicate Occurs(e: Expr) {
    match e
    case Unknown => true
    case Constant(_) => false
    case Unary(_, l, _, _) => Occurs(l)
    case Binary(_, l, r, _, _) => Occurs(l) || Occurs(r)
  }

  lemma {:induction false} UnknownTold(e: Expr)
    requires WellFormed(e)
    ensures e.ContainsUnknown() <==> Occurs(e)
  {
    if e.Unary? { UnknownTold(e.left); }
    if e.Binary? {
      UnknownTold(e.left);
      UnknownTold(e.right);
    }
  }

  /** A tree becomes a constant exactly if the unknown does not occur in it and trees are not to be kept. */
  lemma FoldsExactly(keep: bool, op: OP, l: Expr, r: Expr)
    requires WellFormed(l) && WellFormed(r)
    ensures !IsUnary(op) ==> (Build(keep, op, l, r).Constant? <==> !keep && !Occurs(l) && !Occurs(r))
    ensures IsUnary(op) ==> (BuildUnary(keep, op, l).Constant? <==> !keep && !Occurs(l))
  {
    hide WellFormed, Apply;
    UnknownTold(l);
    UnknownTold(r);
  }
}

/** Forward mode against the definition of a derivative: the slope of a program's result in one of its inputs. */
module AutodiffSlope {
  import opened Reals
  import opened ForwardAutodiff
  import opened AutodiffAgreement
  import U = SymbUtils

  /** The program with input `s` moved by h. */
  function Moved(p: Program, s: nat, h: real): (q: Program)
    requires s < |p| && p[s].Input?
    ensures Ordered(p) ==> Ordered(q)
  {
    p[s := Input(p[s].v + h)]
  }

  /** Results near the input's value differ from the straight line with slope d by no more than bound * h * h. */
  ghost predicate Near(p: Program, s: nat, k: nat, d: real, bound: real, delta: real)
    requires Ordered(p) && s < |p| && p[s].Input? && k < |p|
  {
    && delta > 0.0 && bound >= 0.0
    && forall h: real | Abs(h) <= delta :: U.Close(bound, h, Value(Moved(p, s, h), k), Value(p, k), d)
  }

  /** The slope of result `k` in input `s` is d. */
  ghost predicate HasSlope(p: Program, s: nat, k: nat, d: real)
    requires Ordered(p) && s < |p| && p[s].Input? && k < |p|
  {
    exists bound: real, delta: real :: Near(p, s, k, d, bound, delta)
  }

  /** What the operations compute: the second operand is the one that is subtracted, and the divisor. */
  lemma ComputedValues(x: real, y: real)
    ensures Compute(ADD, x, y) - y == x && Compute(SUB, x, y) + y == x && Compute(MUL, x, y) == Times(x, y)
    ensures y != 0.0 ==> Times(Compute(DIV, x, y), y) == x
    ensures var (a, b) := (Compute(MIN, x, y), Compute(MAX, x, y));
      a <= x && a <= y && (a == x || a == y) && b >= x && b >= y && (b == x || b == y)
    ensures ComputeUnary(NEG, x) + x == 0.0
  {
    if y != 0.0 { assert x / y * y == x; }
  }

  //---------------------------------------------------------------- one operation

  /** What is asked of the operands: minimum and maximum have no tie, and the rule for quotients is right. */
  predicate Differentiable(op: BinaryOp, a: Dual, b: Dual)
    requires Divides(op, b.value)
  {
    && (op == DIV ==> b.value * b.value == 1.0 || a.deriv * b.value == a.value * b.deriv)
    && (op == MIN || op == MAX ==> a.value != b.value)
  }

  function Bound(op: BinaryOp, k: real, a: Dual, l: real, b: Dual): real
    requires Divides(op, b.value)
  {
    match op
    case MUL => U.ProductBound(k, a.value, a.deriv, l, b.value, b.deriv)
    case DIV => U.QuotientBound(k, a.value, a.deriv, l, b.value, b.deriv)
    case _ => k + l
  }

  /** Steps that do not change which operand is the smaller one. */
  function OrderStep(k: real, a: Dual, l: real, b: Dual): real
    requires k >= 0.0 && l >= 0.0
  {
    Abs(a.value - b.value) / (2.0 * (Abs(a.deriv) + k + Abs(b.deriv) + l + 1.0))
  }

  function Reach(op: BinaryOp, k: real, a: Dual, l: real, b: Dual): real
    requires Divides(op, b.value) && k >= 0.0 && l >= 0.0
  {
    match op
    case DIV => U.Least(1.0, U.QuotientStep(l, b.value, b.deriv))
    case MIN | MAX => U.Least(1.0, OrderStep(k, a, l, b))
    case _ => 1.0
  }

  lemma BoundsPositive(op: BinaryOp, k: real, a: Dual, l: real, b: Dual)
    requires Divides(op, b.value) && k >= 0.0 && l >= 0.0 && Differentiable(op, a, b)
    ensures Bound(op, k, a, l, b) >= 0.0 && Reach(op, k, a, l, b) > 0.0
  {
    hide Times, U.ProductBound, U.QuotientBound, U.QuotientStep;
    match op
    case MUL => U.ProductBoundNotNegative(k, a.value, a.deriv, l, b.value, b.deriv);
    case DIV => U.QuotientBoundNotNegative(k, a.value, a.deriv, l, b.value, b.deriv);
    case MIN => U.StepPositive(Abs(a.value - b.value), 2.0 * (Abs(a.deriv) + k + Abs(b.deriv) + l + 1.0));
    case MAX => U.StepPositive(Abs(a.value - b.value), 2.0 * (Abs(a.deriv) + k + Abs(b.deriv) + l + 1.0));
    case _ =>
  }

  lemma Wider(k: real, l: real, h: real, y: real, v: real, d: real)
    requires U.Close(k, h, y, v, d) && l >= 0.0
    ensures U.Close(k + l, h, y, v, d) && U.Close(l + k, h, y, v, d)
  {
    hide Times;
    U.Laws(k, l, Times(h, h));
    U.Laws(h, h, 0.0);
    U.TimesOrder(0.0, l, 0.0, Times(h, h));
    U.Laws(0.0, Times(h, h), 0.0);
  }

  /** Near enough, the operands are in the same order. */
  lemma OrderStays(k: real, l: real, h: real, y: real, z: real, a: Dual, b: Dual)
    requires U.Close(k, h, y, a.value, a.deriv) && U.Close(l, h, z, b.value, b.deriv) && k >= 0.0 && l >= 0.0
    requires a.value != b.value && Abs(h) <= 1.0 && Abs(h) <= OrderStep(k, a, l, b)
    ensures y < z <==> a.value < b.value
    ensures y > z <==> a.value > b.value
  {
    hide U.Close, Times;
    U.Change(k, h, y, a.value, a.deriv);
    U.Change(l, h, z, b.value, b.deriv);
    var m, n, g := Abs(a.deriv) + k, Abs(b.deriv) + l, Abs(h);
    U.StepBound(m + n, g, Abs(a.value - b.value));
    U.Laws(m, n, g);
  }

  /** One operation, at one distance. */
  lemma OperationClose(op: BinaryOp, k: real, l: real, h: real, y: real, z: real, a: Dual, b: Dual)
    requires U.Close(k, h, y, a.value, a.deriv) && U.Close(l, h, z, b.value, b.deriv) && k >= 0.0 && l >= 0.0
    requires Divides(op, b.value) && Differentiable(op, a, b) && Abs(h) <= Reach(op, k, a, l, b) && Abs(h) <= 1.0
    ensures Divides(op, z)
    ensures U.Close(Bound(op, k, a, l, b), h, Compute(op, y, z), Compute(op, a.value, b.value), Rule(op, a, b).deriv)
  {
    hide U.Close, U.ProductBound, U.QuotientBound, U.QuotientStep, U.QuotientRule, OrderStep;
    match op
    case ADD => U.CloseSum(k, l, h, y, a.value, a.deriv, z, b.value, b.deriv);
    case SUB => U.CloseSum(k, l, h, y, a.value, a.deriv, z, b.value, b.deriv);
    case MUL =>
      U.CloseProduct(k, l, h, y, a.value, a.deriv, z, b.value, b.deriv);
      ProductRuleMet(a, b, y, z);
    case DIV =>
      U.CloseQuotient(k, l, h, y, a.value, a.deriv, z, b.value, b.deriv);
      QuotientRuleMet(a, b);
    case MIN =>
      OrderStays(k, l, h, y, z, a, b);
      Wider(k, l, h, y, a.value, a.deriv);
      Wider(l, k, h, z, b.value, b.deriv);
    case MAX =>
      OrderStays(k, l, h, y, z, a, b);
      Wider(k, l, h, y, a.value, a.deriv);
      Wider(l, k, h, z, b.value, b.deriv);
  }

  lemma QuotientRuleMet(a: Dual, b: Dual)
    requires b.value != 0.0
    ensures Rule(DIV, a, b).deriv == U.QuotientRule(a.value, b.value, a.deriv, b.deriv) <==> Differentiable(DIV, a, b)
  {
    ForwardDivisionAt(a.value, b.value, a.deriv, b.deriv);
  }

  lemma ProductRuleMet(a: Dual, b: Dual, y: real, z: real)
    ensures Rule(MUL, a, b).deriv == Times(a.deriv, b.value) + Times(a.value, b.deriv)
    ensures Compute(MUL, y, z) == Times(y, z) && Compute(MUL, a.value, b.value) == Times(a.value, b.value)
  {
  }

  //---------------------------------------------------------------- functions of one argument

  /** Near u the function differs from the straight line with slope du by no more than bound * t * t. */
  ghost predicate FunctionNear(f: real -> real, u: real, du: real, bound: real, delta: real) {
    && delta > 0.0 && bound >= 0.0
    && forall t: real | Abs(t) <= delta :: U.Close(bound, t, f(u + t), f(u), du)
  }

  function ChainBound(k: real, d: real, bound: real, du: real): real {
    Times(Times(Abs(d) + k, Abs(d) + k), bound) + Times(Abs(du), k)
  }

  lemma ChainBoundNotNegative(k: real, d: real, bound: real, du: real)
    requires k >= 0.0 && bound >= 0.0
    ensures ChainBound(k, d, bound, du) >= 0.0
  {
    hide Times;
    var m := Abs(d) + k;
    U.Laws(0.0, 0.0, 0.0);
    U.TimesOrder(0.0, m, 0.0, m);
    U.TimesOrder(0.0, Times(m, m), 0.0, bound);
    U.TimesOrder(0.0, Abs(du), 0.0, k);
  }

  /** The argument moves by no more than the function allows. */
  function ChainStep(k: real, d: real, delta: real): real
    requires k >= 0.0
  {
    delta / (2.0 * (Abs(d) + k + 1.0))
  }

  lemma ChainClose(f: real -> real, k: real, h: real, y: real, v: real, d: real, du: real, bound: real, delta: real)
    requires U.Close(k, h, y, v, d) && k >= 0.0 && FunctionNear(f, v, du, bound, delta)
    requires Abs(h) <= 1.0 && Abs(h) <= ChainStep(k, d, delta)
    ensures U.Close(ChainBound(k, d, bound, du), h, f(y), f(v), Times(d, du))
  {
    hide Times, U.Close;
    var t, m := y - v, Abs(d) + k;
    U.Change(k, h, y, v, d);
    U.StepBound(m, Abs(h), delta);
    assert U.Close(bound, t, f(v + t), f(v), du) && v + t == y;
    ChangeSquared(t, m, h);
    CloseShifted(k, h, y, v, d);
    Combined(k, h, t, d, du, bound, m, f(y), f(v));
  }

  lemma CloseShifted(k: real, h: real, y: real, v: real, d: real)
    ensures U.Close(k, h, y, v, d) <==> U.Close(k, h, y - v, 0.0, d)
  {
  }

  lemma ChangeSquared(t: real, m: real, h: real)
    requires Abs(t) <= Times(m, Abs(h)) && m >= 0.0
    ensures Times(t, t) <= Times(Times(m, m), Times(h, h))
  {
    hide Times;
    U.ChangesMultiplied(t, t, m, m, h);
    U.Laws(t, t, 0.0);
  }

  lemma Combined(k: real, h: real, t: real, d: real, du: real, bound: real, m: real, y: real, v: real)
    requires U.Close(bound, t, y, v, du) && U.Close(k, h, t, 0.0, d) && bound >= 0.0
    requires Times(t, t) <= Times(Times(m, m), Times(h, h)) && m == Abs(d) + k
    ensures U.Close(ChainBound(k, d, bound, du), h, y, v, Times(d, du))
  {
    hide Times;
    var g := Times(h, h);
    U.Laws(t, t, 0.0);
    U.TimesOrder(bound, bound, Times(t, t), Times(Times(m, m), g));
    U.Laws(bound, Times(m, m), g);
    U.ScaledBound(du, t - 0.0 - Times(h, d), k, g);
    U.Laws(du, t, -Times(h, d));
    U.Laws(du, Times(h, d), 0.0);
    U.Laws(h, d, du);
    U.Laws(Times(Times(m, m), bound), Times(Abs(du), k), g);
  }

  //---------------------------------------------------------------- programs

  /** Every operation that result `k` is computed from is differentiable at its operands. */
  ghost predicate Smooth(p: Program, s: nat, k: nat)
    requires WellFormed(p) && k < |p|
    decreases k
  {
    match p[k]
    case Input(_) => true
    case Apply(fn, i) =>
      Smooth(p, s, i) && (fn.FUNCTION? ==>
        exists bound: real, delta: real :: FunctionNear(fn.f, Value(p, i), fn.df(Value(p, i)), bound, delta))
    case Combine(op, i, j) =>
      assert p[k].Combine?;
      Smooth(p, s, i) && Smooth(p, s, j) && Differentiable(op, Forward(p, s, i), Forward(p, s, j))
  }

  lemma InputNear(p: Program, s: nat, k: nat)
    requires WellFormed(p) && s < |p| && p[s].Input? && k < |p| && p[k].Input?
    ensures Near(p, s, k, Forward(p, s, k).deriv, 0.0, 1.0)
  {
  }

  lemma CombineNear(p: Program, s: nat, k: nat, m: real, c: real, n: real, b: real)
    requires WellFormed(p) && s < |p| && p[s].Input? && k < |p| && p[k].Combine?
    requires Near(p, s, p[k].i, Forward(p, s, p[k].i).deriv, m, c)
    requires Near(p, s, p[k].j, Forward(p, s, p[k].j).deriv, n, b)
    requires Divides(p[k].op, Value(p, p[k].j))
    requires Differentiable(p[k].op, Forward(p, s, p[k].i), Forward(p, s, p[k].j))
    ensures HasSlope(p, s, k, Forward(p, s, k).deriv)
  {
    hide U.Close, Bound, Reach, Compute, Rule, Differentiable;
    var op, i, j := p[k].op, p[k].i, p[k].j;
    var u, v := Forward(p, s, i), Forward(p, s, j);
    BoundsPositive(op, m, u, n, v);
    var bound, delta := Bound(op, m, u, n, v), U.Least(U.Least(1.0, Reach(op, m, u, n, v)), U.Least(c, b));
    forall h: real | Abs(h) <= delta
      ensures U.Close(bound, h, Value(Moved(p, s, h), k), Value(p, k), Forward(p, s, k).deriv)
    {
      var q := Moved(p, s, h);
      assert q[k] == p[k];
      OperationClose(op, m, n, h, Value(q, i), Value(q, j), u, v);
    }
    assert Near(p, s, k, Forward(p, s, k).deriv, bound, delta);
  }

  lemma NegNear(p: Program, s: nat, k: nat, m: real, c: real)
    requires WellFormed(p) && s < |p| && p[s].Input? && k < |p| && p[k].Apply? && p[k].fn.NEG?
    requires Near(p, s, p[k].i, Forward(p, s, p[k].i).deriv, m, c)
    ensures HasSlope(p, s, k, Forward(p, s, k).deriv)
  {
    hide U.Close, Times, HasSlope, Forward, Value;
    var i := p[k].i;
    var u, d := Forward(p, s, i), Forward(p, s, k).deriv;
    forall h: real | Abs(h) <= c ensures U.Close(m, h, Value(Moved(p, s, h), k), Value(p, k), d) {
      NegValues(p, s, k, h);
      var y := Value(Moved(p, s, h), i);
      U.CloseSum(m, m, h, y, u.value, u.deriv, y, u.value, u.deriv);
    }
    NearIsSlope(p, s, k, d, m, c);
  }

  lemma NegValues(p: Program, s: nat, k: nat, h: real)
    requires WellFormed(p) && s < |p| && p[s].Input? && k < |p| && p[k].Apply? && p[k].fn.NEG?
    ensures Forward(p, s, k).deriv == -Forward(p, s, p[k].i).deriv && Value(p, k) == -Value(p, p[k].i)
    ensures Value(Moved(p, s, h), k) == -Value(Moved(p, s, h), p[k].i)
  {
    assert Moved(p, s, h)[k] == p[k];
  }

  lemma NearIsSlope(p: Program, s: nat, k: nat, d: real, bound: real, delta: real)
    requires Ordered(p) && s < |p| && p[s].Input? && k < |p| && Near(p, s, k, d, bound, delta)
    ensures HasSlope(p, s, k, d)
  {
  }

  lemma FunctionOfNear(
      p: Program, s: nat, k: nat, f: real -> real, df: real -> real, m: real, c: real, n: real, b: real)
    requires WellFormed(p) && s < |p| && p[s].Input? && k < |p| && p[k].Apply? && p[k].fn == FUNCTION(f, df)
    requires Near(p, s, p[k].i, Forward(p, s, p[k].i).deriv, m, c)
    requires FunctionNear(f, Value(p, p[k].i), df(Value(p, p[k].i)), n, b)
    ensures HasSlope(p, s, k, Forward(p, s, k).deriv)
  {
    hide U.Close, ChainBound, ChainStep, FunctionNear, Times;
    var i, u, d := p[k].i, Forward(p, s, p[k].i), Forward(p, s, k).deriv;
    var du := df(u.value);
    Positive(f, u.value, du, n, b, m, u.deriv);
    var bound, delta := ChainBound(m, u.deriv, n, du), U.Least(U.Least(1.0, ChainStep(m, u.deriv, b)), c);
    RuleOfFunction(f, df, u);
    forall h: real | Abs(h) <= delta ensures U.Close(bound, h, Value(Moved(p, s, h), k), Value(p, k), d) {
      var q := Moved(p, s, h);
      assert q[k] == p[k];
      ChainClose(f, m, h, Value(q, i), u.value, u.deriv, du, n, b);
    }
    assert Near(p, s, k, d, bound, delta);
  }

  lemma RuleOfFunction(f: real -> real, df: real -> real, u: Dual)
    ensures UnaryRule(FUNCTION(f, df), u).deriv == Times(u.deriv, df(u.value))
  {
  }

  lemma ApplyNear(p: Program, s: nat, k: nat, m: real, c: real)
    requires WellFormed(p) && s < |p| && p[s].Input? && k < |p| && p[k].Apply? && Smooth(p, s, k)
    requires Near(p, s, p[k].i, Forward(p, s, p[k].i).deriv, m, c)
    ensures HasSlope(p, s, k, Forward(p, s, k).deriv)
  {
    hide Near, HasSlope, FunctionNear, Forward, Value;
    match p[k].fn
    case NEG => NegNear(p, s, k, m, c);
    case FUNCTION(f, df) =>
      var n: real, b: real :| FunctionNear(f, Value(p, p[k].i), df(Value(p, p[k].i)), n, b);
      FunctionOfNear(p, s, k, f, df, m, c, n, b);
  }

  lemma Positive(f: real -> real, u: real, du: real, n: real, b: real, m: real, d: real)
    requires FunctionNear(f, u, du, n, b) && m >= 0.0
    ensures ChainBound(m, d, n, du) >= 0.0 && ChainStep(m, d, b) > 0.0
  {
    hide U.Close, ChainBound;
    ChainBoundNotNegative(m, d, n, du);
    U.StepPositive(b, 2.0 * (Abs(d) + m + 1.0));
  }

  /** What forward mode carries along is the slope of the result in the input that it is seeded with. */
  lemma {:induction false} ForwardIsSlope(p: Program, s: nat, k: nat)
    requires WellFormed(p) && s < |p| && p[s].Input? && k < |p| && Smooth(p, s, k)
    ensures HasSlope(p, s, k, Forward(p, s, k).deriv)
    decreases k
  {
    hide Near, Forward, Differentiable, FunctionNear, Value;
    match p[k]
    case Input(_) => InputNear(p, s, k);
    case Apply(_, i) =>
      ForwardIsSlope(p, s, i);
      var m: real, c: real :| Near(p, s, i, Forward(p, s, i).deriv, m, c);
      ApplyNear(p, s, k, m, c);
    case Combine(op, i, j) =>
      assert p[k].Combine?;
      ForwardIsSlope(p, s, i);
      ForwardIsSlope(p, s, j);
      var m: real, c: real :| Near(p, s, i, Forward(p, s, i).deriv, m, c);
      var n: real, b: real :| Near(p, s, j, Forward(p, s, j).deriv, n, b);
      CombineNear(p, s, k, m, c, n, b);
  }

  /** There is one slope at most, so forward mode gives it. */
  lemma ForwardSlopeExactly(p: Program, s: nat, k: nat, d: real)
    requires WellFormed(p) && s < |p| && p[s].Input? && k < |p| && Smooth(p, s, k)
    ensures HasSlope(p, s, k, d) <==> d == Forward(p, s, k).deriv
  {
    hide Smooth, U.Close, Forward, Value;
    ForwardIsSlope(p, s, k);
    if HasSlope(p, s, k, d) { OneSlope(p, s, k, d, Forward(p, s, k).deriv); }
  }

  lemma OneSlope(p: Program, s: nat, k: nat, d: real, f: real)
    requires WellFormed(p) && s < |p| && p[s].Input? && k < |p| && HasSlope(p, s, k, d) && HasSlope(p, s, k, f)
    ensures d == f
  {
    hide U.Close, Value;
    var m: real, c: real :| Near(p, s, k, d, m, c);
    var n: real, b: real :| Near(p, s, k, f, n, b);
    if d != f {
      var g := Abs(d - f);
      var t := g / (2.0 * (m + n + 1.0));
      U.StepPositive(g, 2.0 * (m + n + 1.0));
      var h := U.Least(t, U.Least(c, b));
      assert 0.0 < Abs(h) == h <= c && h <= b;
      U.StepBound(m + n, h, g);
      U.SlopesClose(m, n, h, Value(Moved(p, s, h), k), Value(p, k), d, f);
      assert false;
    }
  }

  /** Reverse mode leaves the slope in the adjoint, too, where the modes agree. */
  lemma AdjointIsSlope(p: Program, s: nat, k: nat)
    requires WellFormed(p) && s < |p| && p[s].Input? && k < |p| && Smooth(p, s, k) && DivisionsAgree(p, s, k)
    ensures HasSlope(p, s, k, ChainRule(p, k, s))
  {
    hide HasSlope, Smooth, DivisionsAgree;
    ForwardIsSlope(p, s, k);
    ForwardIsChainRule(p, k, s);
  }

  //---------------------------------------------------------------- quotients

  lemma QuotientNear(p: Program, s: nat, k: nat, m: real, c: real, n: real, b: real)
    requires WellFormed(p) && s < |p| && p[s].Input? && k < |p| && p[k].Combine? && p[k].op == DIV
    requires Near(p, s, p[k].i, Forward(p, s, p[k].i).deriv, m, c)
    requires Near(p, s, p[k].j, Forward(p, s, p[k].j).deriv, n, b)
    ensures var (u, v) := (Forward(p, s, p[k].i), Forward(p, s, p[k].j));
      v.value != 0.0 && HasSlope(p, s, k, U.QuotientRule(u.value, v.value, u.deriv, v.deriv))
  {
    hide U.Close, U.QuotientBound, U.QuotientStep, U.QuotientRule, Forward, Value, HasSlope, Times, Quotient;
    var i, j := p[k].i, p[k].j;
    var u, v := Forward(p, s, i), Forward(p, s, j);
    assert Divides(p[k].op, Value(p, j));
    U.QuotientBoundNotNegative(m, u.value, u.deriv, n, v.value, v.deriv);
    var d, bound := U.QuotientRule(u.value, v.value, u.deriv, v.deriv),
      U.QuotientBound(m, u.value, u.deriv, n, v.value, v.deriv);
    var delta := U.Least(U.Least(1.0, U.QuotientStep(n, v.value, v.deriv)), U.Least(c, b));
    forall h: real | Abs(h) <= delta ensures U.Close(bound, h, Value(Moved(p, s, h), k), Value(p, k), d) {
      var q := Moved(p, s, h);
      U.CloseQuotient(m, n, h, Value(q, i), u.value, u.deriv, Value(q, j), v.value, v.deriv);
      QuotientValues(p, s, k, h);
    }
    NearIsSlope(p, s, k, d, bound, delta);
  }

  lemma QuotientValues(p: Program, s: nat, k: nat, h: real)
    requires WellFormed(p) && s < |p| && p[s].Input? && k < |p| && p[k].Combine? && p[k].op == DIV
    requires Value(Moved(p, s, h), p[k].j) != 0.0
    ensures Value(p, p[k].j) != 0.0 && Value(p, k) == Quotient(Value(p, p[k].i), Value(p, p[k].j))
    ensures Value(Moved(p, s, h), k) == Quotient(Value(Moved(p, s, h), p[k].i), Value(Moved(p, s, h), p[k].j))
  {
    assert Moved(p, s, h)[k] == p[k];
    assert Divides(p[k].op, Value(p, p[k].j));
  }

  lemma SlopeOfQuotient(p: Program, s: nat, k: nat)
    requires WellFormed(p) && s < |p| && p[s].Input? && k < |p| && p[k].Combine? && p[k].op == DIV
    requires Smooth(p, s, p[k].i) && Smooth(p, s, p[k].j)
    ensures var (u, v) := (Forward(p, s, p[k].i), Forward(p, s, p[k].j));
      v.value != 0.0 && HasSlope(p, s, k, U.QuotientRule(u.value, v.value, u.deriv, v.deriv))
  {
    hide U.QuotientRule, Value, Smooth, Near, Forward;
    var i, j := p[k].i, p[k].j;
    ForwardIsSlope(p, s, i);
    ForwardIsSlope(p, s, j);
    var m: real, c: real :| Near(p, s, i, Forward(p, s, i).deriv, m, c);
    var n: real, b: real :| Near(p, s, j, Forward(p, s, j).deriv, n, b);
    hide HasSlope;
    QuotientNear(p, s, k, m, c, n, b);
  }

  /** Of a quotient forward mode gives the slope exactly if the divisor is 1 or -1, or the derivative is 0. */
  lemma QuotientSlopeExactly(p: Program, s: nat, k: nat)
    requires WellFormed(p) && s < |p| && p[s].Input? && k < |p| && p[k].Combine? && p[k].op == DIV
    requires Smooth(p, s, p[k].i) && Smooth(p, s, p[k].j)
    ensures var (u, v) := (Forward(p, s, p[k].i), Forward(p, s, p[k].j));
      HasSlope(p, s, k, Forward(p, s, k).deriv) <==>
        v.value * v.value == 1.0 || u.deriv * v.value == u.value * v.deriv
  {
    hide U.QuotientRule, Value, Smooth, HasSlope, Differentiable, Forward, Rule;
    SlopeOfQuotient(p, s, k);
    QuotientOfForward(p, s, k);
    var u, v := Forward(p, s, p[k].i), Forward(p, s, p[k].j);
    QuotientRuleMet(u, v);
    DifferentiableQuotient(u, v);
    var d := U.QuotientRule(u.value, v.value, u.deriv, v.deriv);
    if HasSlope(p, s, k, Forward(p, s, k).deriv) { OneSlope(p, s, k, d, Forward(p, s, k).deriv); }
  }

  lemma DifferentiableQuotient(u: Dual, v: Dual)
    requires v.value != 0.0
    ensures Differentiable(DIV, u, v) <==> v.value * v.value == 1.0 || u.deriv * v.value == u.value * v.deriv
  {
  }

  lemma QuotientOfForward(p: Program, s: nat, k: nat)
    requires WellFormed(p) && k < |p| && p[k].Combine? && p[k].op == DIV
    ensures Forward(p, s, p[k].j).value != 0.0
    ensures Forward(p, s, k).deriv == Rule(DIV, Forward(p, s, p[k].i), Forward(p, s, p[k].j)).deriv
  {
    assert Divides(p[k].op, Value(p, p[k].j));
  }
}

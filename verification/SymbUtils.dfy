/** Symbolic differentiation of rational expressions: what derivate() returns is the derivative. */
module SymbUtils {
  import opened Collections
  import opened Reals
  import opened SymbolicExpression

  predicate Rational(e: Expr) {
    match e
    case Unknown => true
    case Constant(_) => true
    case Unary(op, l, _, _) => op.NEG? && Rational(l)
    case Binary(op, l, r, _, _) => (op.ADD? || op.SUB? || op.MUL? || op.DIV?) && Rational(l) && Rational(r)
  }

  function Number(v: real): Expr { Constant(Some(v)) }

  /** derivateNOP, derivateADD, derivateSUB, derivateMUL, derivateDIV and derivateNEG. */
  function Derivate(keep: bool, e: Expr): Expr
    requires Rational(e)
  {
    match e
    case Unknown => Number(1.0)
    case Constant(_) => Number(0.0)
    case Unary(_, l, _, _) => BuildUnary(keep, NEG, Derivate(keep, l))
    case Binary(op, l, r, _, _) =>
      var dl, dr := Derivate(keep, l), Derivate(keep, r);
      if op.ADD? then Build(keep, ADD, dl, dr)
      else if op.SUB? then Build(keep, SUB, dl, dr)
      else if op.MUL? then Build(keep, ADD, Build(keep, MUL, dl, r), Build(keep, MUL, l, dr))
      else
        var n := Build(keep, SUB, Build(keep, MUL, dl, r), Build(keep, MUL, l, dr));
        Build(keep, DIV, n, Build(keep, POW, r, Number(2.0)))
  }

  lemma {:induction false} DerivateWellFormed(keep: bool, e: Expr)
    requires Rational(e) && WellFormed(e)
    ensures WellFormed(Derivate(keep, e))
  {
    hide Apply, Build, BuildUnary, Plain;
    match e
    case Unary(_, l, _, _) =>
      DerivateWellFormed(keep, l);
      BuildUnaryMeans(keep, NEG, Derivate(keep, l), 0.0);
    case Binary(op, l, r, _, _) =>
      DerivateWellFormed(keep, l);
      DerivateWellFormed(keep, r);
      RuleWellFormed(keep, op, l, r, Derivate(keep, l), Derivate(keep, r));
    case _ =>
  }

  lemma RuleWellFormed(keep: bool, op: OP, l: Expr, r: Expr, dl: Expr, dr: Expr)
    requires WellFormed(l) && WellFormed(r) && WellFormed(dl) && WellFormed(dr)
    ensures WellFormed(Build(keep, ADD, dl, dr)) && WellFormed(Build(keep, SUB, dl, dr))
    ensures WellFormed(Build(keep, ADD, Build(keep, MUL, dl, r), Build(keep, MUL, l, dr)))
    ensures WellFormed(Build(keep, DIV, Build(keep, SUB, Build(keep, MUL, dl, r), Build(keep, MUL, l, dr)),
      Build(keep, POW, r, Number(2.0))))
  {
    hide Apply, Build, Plain;
    var p, q := Build(keep, MUL, dl, r), Build(keep, MUL, l, dr);
    BuildMeans(keep, ADD, dl, dr, 0.0);
    BuildMeans(keep, SUB, dl, dr, 0.0);
    BuildMeans(keep, MUL, dl, r, 0.0);
    BuildMeans(keep, MUL, l, dr, 0.0);
    BuildMeans(keep, ADD, p, q, 0.0);
    BuildMeans(keep, SUB, p, q, 0.0);
    BuildMeans(keep, POW, r, Number(2.0), 0.0);
    BuildMeans(keep, DIV, Build(keep, SUB, p, q), Build(keep, POW, r, Number(2.0)), 0.0);
  }

  /** The rules of differentiation, for the values of a binary operator's operands and their derivatives. */
  function BinaryRule(op: OP, a: Option<real>, b: Option<real>, da: Option<real>, db: Option<real>): Option<real> {
    if op.ADD? then Apply(ADD, da, db)
    else if op.SUB? then Apply(SUB, da, db)
    else if op.MUL? then Apply(ADD, Apply(MUL, da, b), Apply(MUL, a, db))
    else Apply(DIV, Apply(SUB, Apply(MUL, da, b), Apply(MUL, a, db)), Pow(b, Some(2.0)))
  }

  /** The derived tree means what the rules say. */
  lemma DerivateMeans(keep: bool, e: Expr, x: real)
    requires Rational(e) && WellFormed(e)
    ensures e.Unknown? ==> Plain(Derivate(keep, e), x) == Some(1.0)
    ensures e.Constant? ==> Plain(Derivate(keep, e), x) == Some(0.0)
    ensures e.Unary? ==> Plain(Derivate(keep, e), x) == Apply(NEG, Plain(Derivate(keep, e.left), x), None)
    ensures e.Binary? ==> (
      var a, b, da, db := Plain(e.left, x), Plain(e.right, x), Plain(Derivate(keep, e.left), x),
        Plain(Derivate(keep, e.right), x);
      Plain(Derivate(keep, e), x) == BinaryRule(e.op, a, b, da, db))
  {
    hide Apply, Build, BuildUnary;
    if e.Unary? {
      DerivateWellFormed(keep, e.left);
      BuildUnaryMeans(keep, NEG, Derivate(keep, e.left), x);
    } else if e.Binary? {
      var op, l, r := e.op, e.left, e.right;
      DerivateWellFormed(keep, l);
      DerivateWellFormed(keep, r);
      var dl, dr := Derivate(keep, l), Derivate(keep, r);
      if op.ADD? || op.SUB? {
        BuildMeans(keep, op, dl, dr, x);
      } else {
        var p, q := Build(keep, MUL, dl, r), Build(keep, MUL, l, dr);
        BuildMeans(keep, MUL, dl, r, x);
        BuildMeans(keep, MUL, l, dr, x);
        BuildMeans(keep, ADD, p, q, x);
        BuildMeans(keep, SUB, p, q, x);
        BuildMeans(keep, POW, r, Number(2.0), x);
        BuildMeans(keep, DIV, Build(keep, SUB, p, q), Build(keep, POW, r, Number(2.0)), x);
        PowApplied(Plain(r, x));
      }
    }
  }

  lemma PowApplied(v: Option<real>)
    ensures Apply(POW, v, Some(2.0)) == Pow(v, Some(2.0))
  {
  }

  lemma Squared(v: real)
    ensures Pow(Some(v), Some(2.0)) == Some(Times(v, v))
  {
    assert Power(v, 0) == 1.0;
    assert Power(v, 1) == v * Power(v, 0) == v;
    assert Power(v, 2) == v * Power(v, 1) == v * v;
    var two := 2.0;
    assert two.Floor == 2;
    assert Pow(Some(v), Some(two)) == Some(Power(v, two.Floor));
    assert Power(v, two.Floor) == Power(v, 2) == Times(v, v);
  }

  //---------------------------------------------------------------- bounds

  /** The value y at distance h differs from the straight line by no more than k * h * h. */
  predicate Close(k: real, h: real, y: real, v: real, d: real) {
    Abs(y - v - Times(h, d)) <= Times(k, Times(h, h))
  }

  lemma Laws(a: real, b: real, c: real)
    ensures Times(a, b + c) == Times(a, b) + Times(a, c) && Times(a + b, c) == Times(a, c) + Times(b, c)
    ensures Times(a, b) == Times(b, a) && Times(a, Times(b, c)) == Times(Times(a, b), c)
    ensures Times(a, -b) == -Times(a, b) && Times(0.0, a) == 0.0 && Times(1.0, a) == a
    ensures Abs(Times(a, b)) == Times(Abs(a), Abs(b)) && Times(Abs(a), Abs(a)) == Times(a, a) >= 0.0
  {
    TimesLaws(a, b, c);
  }

  lemma TimesOrder(a: real, b: real, c: real, d: real)
    requires 0.0 <= a <= b && 0.0 <= c <= d
    ensures 0.0 <= Times(a, c) <= Times(b, d)
  {
    assert b * d - a * c == b * (d - c) + (b - a) * c;
    NotNegative(b, d - c);
    NotNegative(b - a, c);
    NotNegative(a, c);
  }

  lemma CloseSum(k: real, l: real, h: real, y: real, v: real, d: real, z: real, w: real, e: real)
    requires Close(k, h, y, v, d) && Close(l, h, z, w, e)
    ensures Close(k + l, h, y + z, v + w, d + e) && Close(k + l, h, y - z, v - w, d - e) && Close(k, h, -y, -v, -d)
  {
    hide Times;
    Laws(h, d, e);
    Laws(h, d, -e);
    Laws(h, e, 0.0);
    Laws(k, l, Times(h, h));
  }

  /** The change from v to y is bounded by a multiple of the step, for steps up to 1. */
  lemma Change(k: real, h: real, y: real, v: real, d: real)
    requires Close(k, h, y, v, d) && Abs(h) <= 1.0 && k >= 0.0
    ensures Abs(y - v) <= Times(Abs(d) + k, Abs(h))
  {
    hide Times;
    var a := Abs(h);
    Laws(h, d, 0.0);
    Laws(Abs(d), k, a);
    Laws(k, a, a);
    Laws(h, h, 0.0);
    TimesOrder(a, 1.0, a, a);
    Laws(1.0, a, 0.0);
    Laws(a, a, 0.0);
    TimesOrder(k, k, Times(a, a), a);
    Laws(d, h, 0.0);
    Laws(a, Abs(d), 0.0);
  }

  function ProductBound(k: real, v: real, d: real, l: real, w: real, e: real): real {
    Times(Abs(v), l) + Times(Abs(w), k) + Times(Abs(d) + k, Abs(e) + l)
  }

  lemma ProductIdentity(h: real, y: real, v: real, d: real, z: real, w: real, e: real)
    ensures Times(y, z) - Times(v, w) - Times(h, Times(d, w) + Times(v, e))
      == Times(v, z - w - Times(h, e)) + Times(w, y - v - Times(h, d)) + Times(y - v, z - w)
  {
    var s, r := y - v, z - w;
    assert y * z == v * w + v * r + s * w + s * r;
    assert v * (r - h * e) == v * r - v * (h * e) && w * (s - h * d) == w * s - w * (h * d);
    assert h * (d * w + v * e) == w * (h * d) + v * (h * e);
  }

  lemma ScaledBound(a: real, r: real, k: real, q: real)
    requires Abs(r) <= Times(k, q)
    ensures Abs(Times(a, r)) <= Times(Times(Abs(a), k), q)
  {
    hide Times;
    Laws(a, r, 0.0);
    Laws(Abs(a), k, q);
    TimesOrder(Abs(a), Abs(a), Abs(r), Times(k, q));
  }

  lemma CloseProduct(k: real, l: real, h: real, y: real, v: real, d: real, z: real, w: real, e: real)
    requires Close(k, h, y, v, d) && Close(l, h, z, w, e) && Abs(h) <= 1.0 && k >= 0.0 && l >= 0.0
    ensures Close(ProductBound(k, v, d, l, w, e), h, Times(y, z), Times(v, w), Times(d, w) + Times(v, e))
  {
    hide Times;
    var q, a := Times(h, h), Abs(h);
    ProductIdentity(h, y, v, d, z, w, e);
    ScaledBound(v, z - w - Times(h, e), l, q);
    ScaledBound(w, y - v - Times(h, d), k, q);
    Change(k, h, y, v, d);
    Change(l, h, z, w, e);
    ChangesMultiplied(y - v, z - w, Abs(d) + k, Abs(e) + l, h);
    Laws(Times(Abs(v), l), Times(Abs(w), k), q);
    Laws(Times(Abs(v), l) + Times(Abs(w), k), Times(Abs(d) + k, Abs(e) + l), q);
  }

  lemma ChangesMultiplied(s: real, r: real, a: real, b: real, h: real)
    requires Abs(s) <= Times(a, Abs(h)) && Abs(r) <= Times(b, Abs(h))
    ensures Abs(Times(s, r)) <= Times(Times(a, b), Times(h, h))
  {
    hide Times;
    var g := Abs(h);
    Laws(s, r, 0.0);
    TimesOrder(Abs(s), Times(a, g), Abs(r), Times(b, g));
    assert Times(Times(a, g), Times(b, g)) == Times(Times(a, b), Times(g, g)) by { FourFactors(a, g, b); }
    Laws(h, h, 0.0);
  }

  lemma FourFactors(a: real, g: real, b: real)
    ensures Times(Times(a, g), Times(b, g)) == Times(Times(a, b), Times(g, g))
  {
    assert (a * g) * (b * g) == (a * b) * (g * g);
  }

  lemma Positive(a: real, b: real)
    requires a > 0.0 && b > 0.0
    ensures Times(a, b) > 0.0
  {
  }

  lemma SquareNonzero(w: real)
    requires w != 0.0
    ensures Times(w, w) != 0.0
  {
    Laws(w, w, 0.0);
    Positive(Abs(w), Abs(w));
  }

  function QuotientRule(v: real, w: real, d: real, e: real): real
    requires w != 0.0
  {
    SquareNonzero(w);
    Quotient(Times(d, w) - Times(v, e), Times(w, w))
  }

  /** Steps that leave the divisor at half its size at least. */
  function QuotientStep(l: real, w: real, e: real): real
    requires w != 0.0 && l >= 0.0
  {
    Abs(w) / (2.0 * (Abs(e) + l + 1.0))
  }

  function QuotientBound(k: real, v: real, d: real, l: real, w: real, e: real): real
    requires w != 0.0
  {
    var q, dq := Quotient(v, w), QuotientRule(v, w, d, e);
    Times(2.0 / Abs(w), k + Times(Abs(q), l) + Times(Abs(dq), Abs(e) + l))
  }

  lemma DivisorStays(l: real, h: real, z: real, w: real, e: real)
    requires Close(l, h, z, w, e) && w != 0.0 && l >= 0.0 && Abs(h) <= 1.0 && Abs(h) <= QuotientStep(l, w, e)
    ensures Abs(z) >= Abs(w) / 2.0 && z != 0.0
  {
    Change(l, h, z, w, e);
    var m := Abs(e) + l;
    StepBound(m, Abs(h), Abs(w));
  }

  lemma StepBound(m: real, g: real, c: real)
    requires m >= 0.0 && 0.0 <= g <= c / (2.0 * (m + 1.0)) && c > 0.0
    ensures Times(m, g) <= c / 2.0
  {
    var s := c / (2.0 * (m + 1.0));
    assert s * (2.0 * (m + 1.0)) == c;
    assert s * (m + 1.0) == c / 2.0;
    NotNegative(m, s - g);
    NotNegative(s, 1.0);
    assert m * (s - g) == m * s - m * g && s * (m + 1.0) == s * m + s;
  }

  lemma QuotientIdentity(h: real, y: real, v: real, d: real, z: real, w: real, e: real, q: real, dq: real)
    requires Times(q, w) == v && Times(dq, w) == d - Times(q, e)
    ensures y - Times(q, z) - Times(Times(h, dq), z)
      == (y - v - Times(h, d)) - Times(q, z - w - Times(h, e)) - Times(h, Times(dq, z - w))
  {
    assert q * (z - w - h * e) == q * z - q * w - q * (h * e);
    assert h * (dq * (z - w)) == (h * dq) * z - h * (dq * w);
    assert h * (d - q * e) == h * d - q * (h * e);
  }

  lemma QuotientRates(v: real, w: real, d: real, e: real)
    requires w != 0.0
    ensures var q, dq := Quotient(v, w), QuotientRule(v, w, d, e);
      Times(q, w) == v && Times(dq, w) == d - Times(q, e)
  {
    var q, n := v / w, d * w - v * e;
    assert q * w == v;
    assert w * w != 0.0;
    var dq := n / (w * w);
    assert dq * (w * w) == n;
    assert (dq * w) * w == (d - q * e) * w by { assert (q * e) * w == (q * w) * e; }
    Cancel(dq * w, d - q * e, w);
  }

  lemma Cancel(a: real, b: real, w: real)
    requires w != 0.0 && a * w == b * w
    ensures a == b
  {
  }

  lemma CloseQuotient(k: real, l: real, h: real, y: real, v: real, d: real, z: real, w: real, e: real)
    requires Close(k, h, y, v, d) && Close(l, h, z, w, e) && w != 0.0 && k >= 0.0 && l >= 0.0
    requires Abs(h) <= 1.0 && Abs(h) <= QuotientStep(l, w, e)
    ensures z != 0.0
    ensures Close(QuotientBound(k, v, d, l, w, e), h, Quotient(y, z), Quotient(v, w), QuotientRule(v, w, d, e))
  {
    hide Times, Quotient, QuotientStep, QuotientRule;
    var q, dq, g := Quotient(v, w), QuotientRule(v, w, d, e), Times(h, h);
    DivisorStays(l, h, z, w, e);
    QuotientRates(v, w, d, e);
    QuotientIdentity(h, y, v, d, z, w, e, q, dq);
    var n := y - Times(q, z) - Times(Times(h, dq), z);
    ScaledBound(q, z - w - Times(h, e), l, g);
    Change(l, h, z, w, e);
    ThirdTerm(h, dq, z - w, Abs(e) + l);
    var m := k + Times(Abs(q), l) + Times(Abs(dq), Abs(e) + l);
    Laws(k, Times(Abs(q), l), g);
    Laws(k + Times(Abs(q), l), Times(Abs(dq), Abs(e) + l), g);
    assert Abs(n) <= Times(m, g);
    QuotientOfBound(y, z, q, Times(h, dq), n, m, g, Abs(w));
  }

  lemma ThirdTerm(h: real, dq: real, s: real, m: real)
    requires Abs(s) <= Times(m, Abs(h))
    ensures Abs(Times(h, Times(dq, s))) <= Times(Times(Abs(dq), m), Times(h, h))
  {
    hide Times;
    var a := Abs(h);
    Laws(dq, s, 0.0);
    Laws(h, Times(dq, s), 0.0);
    TimesOrder(Abs(dq), Abs(dq), Abs(s), Times(m, a));
    TimesOrder(a, a, Abs(Times(dq, s)), Times(Abs(dq), Times(m, a)));
    assert Times(a, Times(Abs(dq), Times(m, a))) == Times(Times(Abs(dq), m), Times(a, a)) by { Regroup(a, Abs(dq), m); }
    Laws(h, h, 0.0);
  }

  lemma Regroup(a: real, b: real, m: real)
    ensures Times(a, Times(b, Times(m, a))) == Times(Times(b, m), Times(a, a))
  {
    assert a * (b * (m * a)) == (b * m) * (a * a);
  }

  lemma QuotientOfBound(y: real, z: real, q: real, s: real, n: real, m: real, g: real, c: real)
    requires n == y - Times(q, z) - Times(s, z) && Abs(n) <= Times(m, g) && c > 0.0 && Abs(z) >= c / 2.0
    ensures z != 0.0 && Abs(Quotient(y, z) - q - s) <= Times(Times(2.0 / c, m), g)
  {
    var r := Quotient(y, z) - q - s;
    assert r * z == n by { assert (y / z) * z == y; }
    AbsProduct(r, z);
    var b := Abs(r);
    NotNegative(b, Abs(z) - c / 2.0);
    assert b * (c / 2.0) <= b * Abs(z) by { assert b * (Abs(z) - c / 2.0) == b * Abs(z) - b * (c / 2.0); }
    var i := 2.0 / c;
    assert i * (c / 2.0) == 1.0;
    HalfCancels(b, c, i, Times(m, g));
    assert (i * m) * g == i * (m * g);
  }

  lemma AbsProduct(r: real, z: real)
    ensures Abs(r * z) == Abs(r) * Abs(z)
  {
  }

  lemma HalfCancels(b: real, c: real, i: real, t: real)
    requires b * (c / 2.0) <= t && i * (c / 2.0) == 1.0 && i > 0.0
    ensures b <= i * t
  {
    NotNegative(i, t - b * (c / 2.0));
    assert i * (t - b * (c / 2.0)) == i * t - b * (i * (c / 2.0));
  }

  //---------------------------------------------------------------- the derivative

  /** Near x the tree has values, and they differ from the straight line with slope d by no more than k * h * h. */
  ghost predicate Near(e: Expr, x: real, d: real, k: real, delta: real) {
    && delta > 0.0 && k >= 0.0 && Plain(e, x).Some?
    && forall h: real | Abs(h) <= delta ::
      Plain(e, x + h).Some? && Close(k, h, Plain(e, x + h).value, Plain(e, x).value, d)
  }

  /** The slope of the tree at x is d. */
  ghost predicate HasDerivative(e: Expr, x: real, d: real) {
    exists k: real, delta: real :: Near(e, x, d, k, delta)
  }

  function Least(a: real, b: real): real { if a < b then a else b }

  lemma ConstantNear(e: Expr, x: real, d: real)
    requires (e.Unknown? && d == 1.0) || (e.Constant? && e.c.Some? && d == 0.0)
    ensures Near(e, x, d, 0.0, 1.0)
  {
  }

  lemma NegNear(e: Expr, x: real, d: real, k: real, delta: real)
    requires e.IsNeg() && Near(e.left, x, d, k, delta)
    ensures Near(e, x, -d, k, delta)
  {
    hide Close;
    var l := e.left;
    forall h: real | Abs(h) <= delta
      ensures Plain(e, x + h).Some? && Close(k, h, Plain(e, x + h).value, Plain(e, x).value, -d)
    {
      CloseSum(k, k, h, Plain(l, x + h).value, Plain(l, x).value, d, Plain(l, x + h).value, Plain(l, x).value, d);
    }
  }

  lemma SumNear(e: Expr, x: real, d: real, k: real, c: real, f: real, l: real, b: real)
    requires (e.IsAdd() || e.IsSub()) && Near(e.left, x, d, k, c) && Near(e.right, x, f, l, b)
    ensures Near(e, x, if e.op.ADD? then d + f else d - f, k + l, Least(c, b))
  {
    hide Close;
    var m, n := e.left, e.right;
    forall h: real | Abs(h) <= Least(c, b)
      ensures Plain(e, x + h).Some?
      ensures Close(k + l, h, Plain(e, x + h).value, Plain(e, x).value, if e.op.ADD? then d + f else d - f)
    {
      CloseSum(k, l, h, Plain(m, x + h).value, Plain(m, x).value, d, Plain(n, x + h).value, Plain(n, x).value, f);
    }
  }

  lemma ProductNear(e: Expr, x: real, d: real, k: real, c: real, f: real, l: real, b: real)
    requires e.IsMul() && Near(e.left, x, d, k, c) && Near(e.right, x, f, l, b)
    ensures var v, w := Plain(e.left, x).value, Plain(e.right, x).value;
      Near(e, x, Times(d, w) + Times(v, f), ProductBound(k, v, d, l, w, f), Least(1.0, Least(c, b)))
  {
    hide Close, Times, ProductBound, Plain;
    var m, n := e.left, e.right;
    var v, w := Plain(m, x).value, Plain(n, x).value;
    ProductBoundNotNegative(k, v, d, l, w, f);
    PlainProduct(e, x, v, w);
    forall h: real | Abs(h) <= Least(1.0, Least(c, b))
      ensures Plain(e, x + h).Some?
      ensures Close(ProductBound(k, v, d, l, w, f), h, Plain(e, x + h).value, Plain(e, x).value,
        Times(d, w) + Times(v, f))
    {
      var y, z := Plain(m, x + h).value, Plain(n, x + h).value;
      CloseProduct(k, l, h, y, v, d, z, w, f);
      PlainProduct(e, x + h, y, z);
    }
  }

  lemma PlainProduct(e: Expr, x: real, y: real, z: real)
    requires e.IsMul() && Plain(e.left, x) == Some(y) && Plain(e.right, x) == Some(z)
    ensures Plain(e, x) == Some(Times(y, z))
  {
  }

  lemma ProductBoundNotNegative(k: real, v: real, d: real, l: real, w: real, e: real)
    requires k >= 0.0 && l >= 0.0
    ensures ProductBound(k, v, d, l, w, e) >= 0.0
  {
    hide Times;
    TimesOrder(0.0, Abs(v), 0.0, l);
    TimesOrder(0.0, Abs(w), 0.0, k);
    TimesOrder(0.0, Abs(d) + k, 0.0, Abs(e) + l);
    Laws(0.0, 0.0, 0.0);
  }

  lemma QuotientBoundNotNegative(k: real, v: real, d: real, l: real, w: real, e: real)
    requires k >= 0.0 && l >= 0.0 && w != 0.0
    ensures QuotientBound(k, v, d, l, w, e) >= 0.0 && QuotientStep(l, w, e) > 0.0
  {
    hide Times, Quotient, QuotientRule;
    var q, dq := Quotient(v, w), QuotientRule(v, w, d, e);
    Laws(0.0, 0.0, 0.0);
    TimesOrder(0.0, Abs(q), 0.0, l);
    TimesOrder(0.0, Abs(dq), 0.0, Abs(e) + l);
    TimesOrder(0.0, 2.0 / Abs(w), 0.0, k + Times(Abs(q), l) + Times(Abs(dq), Abs(e) + l));
  }

  lemma QuotientNear(e: Expr, x: real, d: real, k: real, c: real, f: real, l: real, b: real)
    requires e.IsDiv() && Near(e.left, x, d, k, c) && Near(e.right, x, f, l, b) && Plain(e, x).Some?
    ensures var v, w := Plain(e.left, x).value, Plain(e.right, x).value;
      && w != 0.0
      && Near(e, x, QuotientRule(v, w, d, f), QuotientBound(k, v, d, l, w, f),
        Least(Least(1.0, QuotientStep(l, w, f)), Least(c, b)))
  {
    hide Close, Times, QuotientBound, Quotient, QuotientRule, QuotientStep;
    var m, n := e.left, e.right;
    var v, w := Plain(m, x).value, Plain(n, x).value;
    QuotientBoundNotNegative(k, v, d, l, w, f);
    forall h: real | Abs(h) <= Least(Least(1.0, QuotientStep(l, w, f)), Least(c, b))
      ensures Plain(e, x + h).Some?
      ensures Close(QuotientBound(k, v, d, l, w, f), h, Plain(e, x + h).value, Plain(e, x).value,
        QuotientRule(v, w, d, f))
    {
      CloseQuotient(k, l, h, Plain(m, x + h).value, v, d, Plain(n, x + h).value, w, f);
    }
  }

  /** Wherever a rational tree has a value, its derived tree has one, too, and that is the slope there. */
  lemma {:induction false} DerivateIsDerivative(keep: bool, e: Expr, x: real)
    requires Rational(e) && WellFormed(e) && Plain(e, x).Some?
    ensures Plain(Derivate(keep, e), x).Some? && HasDerivative(e, x, Plain(Derivate(keep, e), x).value)
  {
    hide Near, Derivate, Times, ProductBound, QuotientBound, Quotient, QuotientRule, QuotientStep, Apply, BinaryRule;
    DerivateMeans(keep, e, x);
    Defined(e, x);
    if e.Unknown? {
      ConstantNear(e, x, 1.0);
    } else if e.Constant? {
      ConstantNear(e, x, 0.0);
    } else if e.Unary? {
      DerivateIsDerivative(keep, e.left, x);
      var d := Plain(Derivate(keep, e.left), x).value;
      var k: real, c: real :| Near(e.left, x, d, k, c);
      NegNear(e, x, d, k, c);
      NegApplied(d);
    } else {
      DerivateIsDerivative(keep, e.left, x);
      DerivateIsDerivative(keep, e.right, x);
      var v, w := Plain(e.left, x).value, Plain(e.right, x).value;
      var d, f := Plain(Derivate(keep, e.left), x).value, Plain(Derivate(keep, e.right), x).value;
      var k: real, c: real :| Near(e.left, x, d, k, c);
      var l: real, b: real :| Near(e.right, x, f, l, b);
      RuleApplied(e.op, v, w, d, f);
      if e.IsAdd() || e.IsSub() {
        SumNear(e, x, d, k, c, f, l, b);
      } else if e.IsMul() {
        ProductNear(e, x, d, k, c, f, l, b);
      } else {
        QuotientNear(e, x, d, k, c, f, l, b);
      }
    }
  }

  lemma Defined(e: Expr, x: real)
    requires Rational(e) && WellFormed(e) && Plain(e, x).Some?
    ensures e.Unary? || e.Binary? ==> Rational(e.left) && WellFormed(e.left) && Plain(e.left, x).Some?
    ensures e.Unary? ==> e.op.NEG?
    ensures e.Binary? ==> Rational(e.right) && WellFormed(e.right) && Plain(e.right, x).Some?
    ensures e.Binary? ==> e.op.ADD? || e.op.SUB? || e.op.MUL? || (e.op.DIV? && Plain(e.right, x).value != 0.0)
  {
  }

  lemma NegApplied(d: real)
    ensures Apply(NEG, Some(d), None) == Some(-d)
  {
  }

  lemma RuleApplied(op: OP, v: real, w: real, d: real, f: real)
    ensures op.ADD? ==> BinaryRule(op, Some(v), Some(w), Some(d), Some(f)) == Some(d + f)
    ensures op.SUB? ==> BinaryRule(op, Some(v), Some(w), Some(d), Some(f)) == Some(d - f)
    ensures op.MUL? ==> BinaryRule(op, Some(v), Some(w), Some(d), Some(f)) == Some(Times(d, w) + Times(v, f))
    ensures op.DIV? && w != 0.0 ==> BinaryRule(op, Some(v), Some(w), Some(d), Some(f)) == Some(QuotientRule(v, w, d, f))
  {
    hide Times, Quotient, Pow;
    if op.DIV? && w != 0.0 {
      Squared(w);
      SquareNonzero(w);
    }
  }

  lemma SlopesClose(k: real, l: real, h: real, y: real, v: real, d: real, f: real)
    requires Close(k, h, y, v, d) && Close(l, h, y, v, f) && h > 0.0
    ensures Abs(d - f) <= Times(k + l, h)
  {
    assert Abs(h * d - h * f) <= k * (h * h) + l * (h * h);
    assert h * d - h * f == h * (d - f);
    AbsProduct(h, d - f);
    assert k * (h * h) + l * (h * h) == h * ((k + l) * h);
    CancelPositive(h, Abs(d - f), (k + l) * h);
  }

  lemma StepPositive(a: real, b: real)
    requires a > 0.0 && b > 0.0
    ensures a / b > 0.0
  {
  }

  lemma CancelPositive(h: real, a: real, b: real)
    requires h > 0.0 && h * a <= h * b
    ensures a <= b
  {
  }

  /** There is one slope at most, so the derived tree gives it. */
  lemma SlopeExactly(keep: bool, e: Expr, x: real, d: real)
    requires Rational(e) && WellFormed(e) && Plain(e, x).Some?
    ensures HasDerivative(e, x, d) <==> Plain(Derivate(keep, e), x) == Some(d)
  {
    hide Plain, Close, Derivate;
    DerivateIsDerivative(keep, e, x);
    var f := Plain(Derivate(keep, e), x).value;
    if HasDerivative(e, x, d) && d != f {
      var k: real, c: real :| Near(e, x, d, k, c);
      var l: real, b: real :| Near(e, x, f, l, b);
      var g := Abs(d - f);
      var s := g / (2.0 * (k + l + 1.0));
      StepPositive(g, 2.0 * (k + l + 1.0));
      var h := Least(s, Least(c, b));
      assert 0.0 < Abs(h) == h <= c && h <= b;
      StepBound(k + l, h, g);
      SlopesClose(k, l, h, Plain(e, x + h).value, Plain(e, x).value, d, f);
      assert false;
    }
  }
}

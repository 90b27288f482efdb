/** Automatic differentiation with reals for doubles: WrapperAutodiffReverse, a graph of nodes with mutable adjoints. */
module ReverseAutodiff {

  import opened Reals

  class Node {
    const value: real
    const op1: Node?
    const op2: Node?
    const dop1: real
    const dop2: real
    var adjoint: real
    ghost const rank: nat
    ghost const reach: set<Node>      // this node, and all that it was computed from

    constructor (value: real, op1: Node?, op2: Node?, dop1: real, dop2: real)
      requires (op1 != null ==> op1.Acyclic()) && (op2 != null ==> op2.Acyclic())
      ensures Acyclic() && adjoint == 0.0
      ensures this.value == value && this.op1 == op1 && this.op2 == op2 && this.dop1 == dop1 && this.dop2 == dop2
    {
      this.value, this.adjoint := value, 0.0;
      this.op1, this.dop1 := op1, dop1;
      this.op2, this.dop2 := op2, dop2;
      rank := 1 + (if op1 == null then 0 else op1.rank) + (if op2 == null then 0 else op2.rank);
      reach := {this} + Reach(op1) + Reach(op2);
    }

    /** Operands are older than what is computed from them. */
    ghost predicate Acyclic()
      decreases rank
    {
      && reach == {this} + Reach(op1) + Reach(op2) && rank > 0
      && (op1 != null ==> op1.rank < rank && op1.Acyclic())
      && (op2 != null ==> op2.rank < rank && op2.Acyclic())
    }

    /** Adds the derivatives of this node, weighted, to all nodes it was computed from. */
    method BackPropagate(delta: real)
      requires Acyclic()
      modifies reach
      ensures forall x | x in reach :: x.adjoint == old(x.adjoint) + Times(delta, PathSum(this, x))
      decreases rank, 0
    {
      hide PathSum, Times;
      adjoint := adjoint + delta;
      label first:
      Bp(op1, Times(delta, dop1));
      label second:
      Bp(op2, Times(delta, dop2));
      forall x | x in reach ensures x.adjoint == old(x.adjoint) + Times(delta, PathSum(this, x)) {
        var own := if x == this then 1.0 else 0.0;
        TimesLaws(delta, own, Share(op1, dop1, x));
        assert old@first(x.adjoint) == old(x.adjoint) + Times(delta, own);
        ShareScaled(delta, op1, dop1, x);
        assert old@second(x.adjoint) == old@first(x.adjoint) + Times(delta, Share(op1, dop1, x));
        ShareScaled(delta, op2, dop2, x);
        assert x.adjoint == old@second(x.adjoint) + Times(delta, Share(op2, dop2, x));
        PathSumByOperands(this, x);
        TimesLaws(delta, own + Share(op1, dop1, x), Share(op2, dop2, x));
      }
    }

    method BackReset()
      requires Acyclic()
      modifies reach
      ensures forall x | x in reach :: x.adjoint == 0.0
      decreases rank, 0
    {
      adjoint := 0.0;
      Br(op1);
      Br(op2);
    }

    /** Nothing is propagated where the derivative is zero. */
    static method Bp(op: Node?, delta: real)
      requires op != null ==> op.Acyclic()
      modifies Reach(op)
      ensures forall x | x in Reach(op) :: x.adjoint == old(x.adjoint) + Times(delta, PathSum(op, x))
      decreases Rank(op), 1
    {
      hide PathSum;
      if op == null || delta == 0.0 { return; }
      op.BackPropagate(delta);
    }

    static method Br(op: Node?)
      requires op != null ==> op.Acyclic()
      modifies Reach(op)
      ensures forall x | x in Reach(op) :: x.adjoint == 0.0
      decreases Rank(op), 1
    {
      if op == null { return; }
      op.BackReset();
    }
  }

  ghost function Rank(op: Node?): nat {
    if op == null then 0 else op.rank
  }

  ghost function Reach(op: Node?): set<Node> {
    if op == null then {} else op.reach
  }

  //---------------------------------------------------------------- paths

  /** A path into the graph: at each node to the first operand (true) or to the second. */
  type Path = seq<bool>

  ghost predicate Leads(n: Node, p: Path, x: Node)
    decreases p
  {
    if p == [] then n == x
    else if p[0] then n.op1 != null && Leads(n.op1, p[1..], x)
    else n.op2 != null && Leads(n.op2, p[1..], x)
  }

  /** The product of the local derivatives along a path. */
  function Product(n: Node, p: Path): real
    decreases p
  {
    if p == [] then 1.0
    else if p[0] then (if n.op1 == null then 0.0 else Times(n.dop1, Product(n.op1, p[1..])))
    else (if n.op2 == null then 0.0 else Times(n.dop2, Product(n.op2, p[1..])))
  }

  function Total(n: Node, ps: seq<Path>): real {
    if ps == [] then 0.0 else Product(n, ps[0]) + Total(n, ps[1..])
  }

  function Prefixed(b: bool, ps: seq<Path>): (r: seq<Path>)
    ensures |r| == |ps| && forall i | 0 <= i < |ps| :: r[i] == [b] + ps[i]
  {
    seq(|ps|, i requires 0 <= i < |ps| => [b] + ps[i])
  }

  /** All paths from `n` to `x`. */
  ghost function Paths(n: Node, x: Node): seq<Path>
    requires n.Acyclic()
    decreases n.rank
  {
    (if n == x then [[]] else [])
    + (if n.op1 == null then [] else Prefixed(true, Paths(n.op1, x)))
    + (if n.op2 == null then [] else Prefixed(false, Paths(n.op2, x)))
  }

  ghost predicate NoRepeats(ps: seq<Path>) {
    forall i, j | 0 <= i < j < |ps| :: ps[i] != ps[j]
  }

  lemma {:induction false} PathsLead(n: Node, x: Node)
    requires n.Acyclic()
    ensures forall i | 0 <= i < |Paths(n, x)| :: Leads(n, Paths(n, x)[i], x)
    ensures NoRepeats(Paths(n, x))
    decreases n.rank
  {
    var a := if n == x then [[]] else [];
    var b := if n.op1 == null then [] else Prefixed(true, Paths(n.op1, x));
    var c := if n.op2 == null then [] else Prefixed(false, Paths(n.op2, x));
    assert Paths(n, x) == a + b + c;
    if n.op1 != null { PathsLead(n.op1, x); PrefixedLead(n, true, n.op1, Paths(n.op1, x), x); }
    if n.op2 != null { PathsLead(n.op2, x); PrefixedLead(n, false, n.op2, Paths(n.op2, x), x); }
    ThreeParts(n, a, b, c, x);
  }

  lemma ThreeParts(n: Node, a: seq<Path>, b: seq<Path>, c: seq<Path>, x: Node)
    requires |a| <= 1 && (forall i | 0 <= i < |a| :: a[i] == [] && Leads(n, a[i], x)) && NoRepeats(b) && NoRepeats(c)
    requires forall i | 0 <= i < |b| :: b[i] != [] && b[i][0] && Leads(n, b[i], x)
    requires forall i | 0 <= i < |c| :: c[i] != [] && !c[i][0] && Leads(n, c[i], x)
    ensures NoRepeats(a + b + c)
    ensures forall i | 0 <= i < |a + b + c| :: Leads(n, (a + b + c)[i], x)
  {
    hide Leads;
  }

  lemma PrefixedLead(n: Node, first: bool, op: Node, ps: seq<Path>, x: Node)
    requires op == if first then n.op1 else n.op2
    requires NoRepeats(ps) && forall i | 0 <= i < |ps| :: Leads(op, ps[i], x)
    ensures NoRepeats(Prefixed(first, ps))
    ensures forall i | 0 <= i < |ps| :: Leads(n, Prefixed(first, ps)[i], x) && Prefixed(first, ps)[i][0] == first
  {
    var qs := Prefixed(first, ps);
    assert forall i | 0 <= i < |ps| :: qs[i][1..] == ps[i];
  }

  lemma {:induction false} LeadsListed(n: Node, p: Path, x: Node)
    requires n.Acyclic() && Leads(n, p, x)
    ensures p in Paths(n, x)
    decreases p
  {
    if p != [] {
      assert p == [p[0]] + p[1..];
      if p[0] {
        LeadsListed(n.op1, p[1..], x);
        var i :| 0 <= i < |Paths(n.op1, x)| && Paths(n.op1, x)[i] == p[1..];
        assert Prefixed(true, Paths(n.op1, x))[i] == p;
      } else {
        LeadsListed(n.op2, p[1..], x);
        var i :| 0 <= i < |Paths(n.op2, x)| && Paths(n.op2, x)[i] == p[1..];
        assert Prefixed(false, Paths(n.op2, x))[i] == p;
      }
    }
  }

  /** The paths of the sum are those that lead from `n` to `x`, each of them once. */
  lemma PathsExact(n: Node, x: Node)
    requires n.Acyclic()
    ensures forall p :: p in Paths(n, x) <==> Leads(n, p, x)
    ensures NoRepeats(Paths(n, x))
  {
    PathsLead(n, x);
    forall p | Leads(n, p, x) ensures p in Paths(n, x) { LeadsListed(n, p, x); }
  }

  /** The derivative of `n` in `x`: over all paths, the sum of the products of local derivatives. */
  ghost function PathSum(n: Node, x: Node): real
    requires n.Acyclic()
  {
    Total(n, Paths(n, x))
  }

  /** What one operand contributes. */
  ghost function Share(op: Node?, dop: real, x: Node): real
    requires op != null ==> op.Acyclic()
  {
    if op == null then 0.0 else Times(dop, PathSum(op, x))
  }

  lemma {:induction false} TotalAppend(n: Node, a: seq<Path>, b: seq<Path>)
    ensures Total(n, a + b) == Total(n, a) + Total(n, b)
  {
    if a == [] {
      assert a + b == b;
    } else {
      assert (a + b)[1..] == a[1..] + b;
      TotalAppend(n, a[1..], b);
    }
  }

  lemma {:induction false} TotalPrefixed(n: Node, first: bool, ps: seq<Path>)
    requires if first then n.op1 != null else n.op2 != null
    ensures Total(n, Prefixed(first, ps)) ==
      if first then Times(n.dop1, Total(n.op1, ps)) else Times(n.dop2, Total(n.op2, ps))
  {
    hide Times;
    var op, dop := if first then n.op1 else n.op2, if first then n.dop1 else n.dop2;
    if ps == [] {
      TimesLaws(dop, 0.0, 0.0);
    } else {
      assert Prefixed(first, ps)[1..] == Prefixed(first, ps[1..]);
      assert ([first] + ps[0])[1..] == ps[0];
      TotalPrefixed(n, first, ps[1..]);
      TimesLaws(dop, Product(op, ps[0]), Total(op, ps[1..]));
    }
  }

  lemma PathSumByOperands(n: Node, x: Node)
    requires n.Acyclic()
    ensures PathSum(n, x) == (if n == x then 1.0 else 0.0) + Share(n.op1, n.dop1, x) + Share(n.op2, n.dop2, x)
  {
    hide Times;
    var a := if n == x then [[]] else [];
    var b := if n.op1 == null then [] else Prefixed(true, Paths(n.op1, x));
    var c := if n.op2 == null then [] else Prefixed(false, Paths(n.op2, x));
    TotalAppend(n, a + b, c);
    TotalAppend(n, a, b);
    if n.op1 != null { TotalPrefixed(n, true, Paths(n.op1, x)); }
    if n.op2 != null { TotalPrefixed(n, false, Paths(n.op2, x)); }
  }

  lemma {:induction false} UnreachedIsZero(n: Node, x: Node)
    requires n.Acyclic() && x !in n.reach
    ensures PathSum(n, x) == 0.0
    decreases n.rank
  {
    hide Times;
    PathSumByOperands(n, x);
    if n.op1 != null { UnreachedIsZero(n.op1, x); TimesLaws(n.dop1, 0.0, 0.0); }
    if n.op2 != null { UnreachedIsZero(n.op2, x); TimesLaws(n.dop2, 0.0, 0.0); }
  }

  /** What the call for one operand adds; nothing to nodes that it does not reach. */
  lemma ShareScaled(delta: real, op: Node?, dop: real, x: Node)
    requires op != null ==> op.Acyclic()
    ensures op != null ==> Times(delta, Share(op, dop, x)) == Times(Times(delta, dop), PathSum(op, x))
    ensures x !in Reach(op) ==> Times(delta, Share(op, dop, x)) == 0.0
  {
    hide PathSum;
    TimesLaws(delta, 0.0, 0.0);
    if op != null {
      TimesLaws(delta, dop, PathSum(op, x));
      if x !in Reach(op) { UnreachedIsZero(op, x); }
    }
  }

  /** COJAC_MAGIC_resetPartialDerivatives, then COJAC_MAGIC_computePartialDerivatives: whatever was computed before,
      every node holds the derivative of `w` in it; so a second time gives the same. */
  method ResetAndCompute(w: Node)
    requires w.Acyclic()
    modifies w.reach
    ensures forall x | x in w.reach :: x.adjoint == PathSum(w, x)
  {
    w.BackReset();
    w.BackPropagate(1.0);
  }
}

/** WrapperAutodiff: pairs of a value and a derivative. */
module ForwardAutodiff {
  datatype Dual = Dual(value: real, deriv: real)

  function FromDouble(a: real): Dual { Dual(a, 0.0) }

  /** COJAC_MAGIC_asDerivativeVar. */
  function AsDerivativeVar(d: Dual): Dual { Dual(d.value, 1.0) }

  function Dadd(a: Dual, b: Dual): Dual { Dual(a.value + b.value, a.deriv + b.deriv) }

  function Dsub(a: Dual, b: Dual): Dual { Dual(a.value - b.value, a.deriv - b.deriv) }

  function Dmul(a: Dual, b: Dual): Dual { Dual(a.value * b.value, a.value * b.deriv + a.deriv * b.value) }

  function Ddiv(a: Dual, b: Dual): Dual
    requires b.value != 0.0
  {
    Dual(a.value / b.value, a.deriv * b.value - a.value * b.deriv)
  }

  function Dneg(a: Dual): Dual { Dual(-a.value, -a.deriv) }

  /** A function of one argument, given with its derivative. */
  function Unary(f: real -> real, df: real -> real, a: Dual): Dual { Dual(f(a.value), a.deriv * df(a.value)) }

  function Min(a: Dual, b: Dual): Dual { if a.value < b.value then a else b }

  function Max(a: Dual, b: Dual): Dual { if a.value > b.value then a else b }

  predicate TrueForwardQuotient(u: real, v: real, du: real, dv: real)
    requires v != 0.0
  {
    NotZeroSquared(v);
    Ddiv(Dual(u, du), Dual(v, dv)).deriv == (du * v - u * dv) / (v * v)
  }

  lemma NotZeroSquared(v: real)
    requires v != 0.0
    ensures v * v > 0.0
  {
  }

  lemma Squared(v: real) returns (w: real)
    requires v != 0.0
    ensures w == v * v && w != 0.0
  {
    w := v * v;
    var inverse := 1.0 / v;
    assert inverse * v == 1.0 && inverse * w == v;
  }

  lemma ForwardMeans(u: real, v: real, du: real, dv: real) returns (x: real, w: real)
    requires v != 0.0
    ensures x == du * v - u * dv && w == v * v && w != 0.0
    ensures TrueForwardQuotient(u, v, du, dv) <==> x == x / w
  {
    x := du * v - u * dv;
    w := Squared(v);
  }

  /** The rule for quotients gives the derivative of the quotient exactly when the divisor is 1 or -1, or the
      derivative is 0. */
  lemma ForwardDivisionAt(u: real, v: real, du: real, dv: real)
    requires v != 0.0
    ensures TrueForwardQuotient(u, v, du, dv) <==> v * v == 1.0 || du * v == u * dv
  {
    hide TrueForwardQuotient;
    var x, w := ForwardMeans(u, v, du, dv);
    DividedBySelf(x, w);
  }

  lemma DividedBySelf(x: real, w: real)
    requires w != 0.0
    ensures x == x / w <==> w == 1.0 || x == 0.0
  {
    var q := x / w;
    assert q * w == x;
    if q == x { assert x * (w - 1.0) == 0.0; }
  }

  /** Whatever the derivatives of its operands are: exactly when the divisor is 1 or -1. */
  lemma ForwardDivisionExactly(u: real, v: real)
    requires v != 0.0
    ensures (forall du: real, dv: real :: TrueForwardQuotient(u, v, du, dv)) <==> v * v == 1.0
  {
    hide TrueForwardQuotient;
    forall du: real, dv: real | v * v == 1.0 ensures TrueForwardQuotient(u, v, du, dv) {
      ForwardDivisionAt(u, v, du, dv);
    }
    ForwardDivisionAt(u, v, v, 0.0);
    var x, w := ForwardMeans(u, v, v, 0.0);
    assert u * 0.0 == 0.0;
  }
}

/** Reverse mode against forward mode, on programs that compute one number after the other. */
module AutodiffAgreement {
  import opened Reals
  import opened ReverseAutodiff
  import opened ForwardAutodiff

  datatype BinaryOp = ADD | SUB | MUL | DIV | MIN | MAX

  /** Negation, and any function given with its derivative. */
  datatype UnaryOp = NEG | FUNCTION(f: real -> real, df: real -> real)

  predicate Divides(op: BinaryOp, y: real) { op == DIV ==> y != 0.0 }

  function Compute(op: BinaryOp, x: real, y: real): real
    requires Divides(op, y)
  {
    match op
    case ADD => x + y
    case SUB => x - y
    case MUL => x * y
    case DIV => x / y
    case MIN => if x < y then x else y
    case MAX => if x > y then x else y
  }

  function ComputeUnary(op: UnaryOp, x: real): real {
    match op case NEG => -x case FUNCTION(f, _) => f(x)
  }

  /** What reverse mode records as the derivatives in the two operands. */
  function Partials(op: BinaryOp, x: real, y: real): (real, real)
    requires Divides(op, y)
  {
    match op
    case ADD => (1.0, 1.0)
    case SUB => (1.0, -1.0)
    case MUL => (y, x)
    case DIV => (1.0 / y, x)
    case MIN => (if x < y then 1.0 else 0.0, if x < y then 0.0 else 1.0)
    case MAX => (if x > y then 1.0 else 0.0, if x > y then 0.0 else 1.0)
  }

  function Partial(op: UnaryOp, x: real): real {
    match op case NEG => -1.0 case FUNCTION(_, df) => df(x)
  }

  lemma MinComputes(a: Dual, b: Dual)
    ensures Min(a, b).value == Compute(MIN, a.value, b.value)
  {
  }

  lemma MaxComputes(a: Dual, b: Dual)
    ensures Max(a, b).value == Compute(MAX, a.value, b.value)
  {
  }

  /** The rules of forward mode. */
  function Rule(op: BinaryOp, a: Dual, b: Dual): (d: Dual)
    requires Divides(op, b.value)
    ensures d.value == Compute(op, a.value, b.value)
  {
    match op
    case ADD => Dadd(a, b)
    case SUB => Dsub(a, b)
    case MUL => Dmul(a, b)
    case DIV => Ddiv(a, b)
    case MIN => MinComputes(a, b); Min(a, b)
    case MAX => MaxComputes(a, b); Max(a, b)
  }

  function UnaryRule(op: UnaryOp, a: Dual): (d: Dual)
    ensures d.value == ComputeUnary(op, a.value)
  {
    match op case NEG => Dneg(a) case FUNCTION(f, df) => Unary(f, df, a)
  }

  predicate QuotientRulesAgree(u: real, v: real, du: real, dv: real)
    requires v != 0.0
  {
    Ddiv(Dual(u, du), Dual(v, dv)).deriv == Times(1.0 / v, du) + Times(u, dv)
  }

  lemma SameAfterTimes(x: real, y: real, v: real)
    requires v != 0.0
    ensures x == y <==> x * v == y * v
  {
    if x * v == y * v { assert (x - y) * v == 0.0; }
  }

  /** For which derivatives of the operands the two modes agree on a quotient. */
  lemma QuotientRulesAgreeExactly(u: real, v: real, du: real, dv: real)
    requires v != 0.0
    ensures QuotientRulesAgree(u, v, du, dv) <==> du * (v * v - 1.0) == 2.0 * (u * dv * v)
  {
    var inverse := 1.0 / v;
    assert inverse * v == 1.0;
    var forward, reverse := du * v - u * dv, inverse * du + u * dv;
    assert reverse * v == du + u * dv * v by {
      assert (inverse * du) * v == du * (inverse * v);
    }
    assert forward * v == du * (v * v) - u * dv * v;
    SameAfterTimes(forward, reverse, v);
  }

  /** The divisions for which the two modes agree. */
  predicate DivisionAgrees(u: real, v: real) { u == 0.0 && v * v == 1.0 }

  lemma QuotientsAgree(u: real, v: real, du: real, dv: real)
    requires v != 0.0 && DivisionAgrees(u, v)
    ensures QuotientRulesAgree(u, v, du, dv)
  {
    QuotientRulesAgreeExactly(u, v, du, dv);
  }

  /** Whatever the derivatives of its operands are: exactly when the dividend is 0 and the divisor is 1 or -1. */
  lemma DivisionAgreesExactly(u: real, v: real)
    requires v != 0.0
    ensures (forall du: real, dv: real :: QuotientRulesAgree(u, v, du, dv)) <==> DivisionAgrees(u, v)
  {
    hide QuotientRulesAgree;
    forall du: real, dv: real | DivisionAgrees(u, v) ensures QuotientRulesAgree(u, v, du, dv) {
      QuotientsAgree(u, v, du, dv);
    }
    QuotientRulesAgreeExactly(u, v, 0.0, 1.0);
    QuotientRulesAgreeExactly(u, v, 1.0, 0.0);
    assert 2.0 * (u * 1.0 * v) == 2.0 * (u * v) && u * 0.0 * v == 0.0;
    if u * v == 0.0 { assert u == 0.0; }
  }

  predicate TrueReverseQuotient(u: real, v: real, du: real, dv: real)
    requires v != 0.0
  {
    Times(Partials(DIV, u, v).0, du) + Times(Partials(DIV, u, v).1, dv) == (du * v - u * dv) / (v * v)
  }

  /** Reverse mode gives the derivative of a quotient exactly when the dividend, or the derivative of the divisor,
      is 0. */
  lemma ReverseDivisionAt(u: real, v: real, du: real, dv: real)
    requires v != 0.0
    ensures TrueReverseQuotient(u, v, du, dv) <==> u * dv == 0.0
  {
    var w, x, inverse := v * v, u * dv, 1.0 / v;
    assert inverse * v == 1.0;
    var exact, reverse := (du * v - x) / w, inverse * du + x;
    assert exact * w == du * v - x;
    assert reverse * w == du * v + x * w by {
      assert (inverse * du) * w == du * v * (inverse * v);
    }
    SameAfterTimes(reverse, exact, w);
    assert x * w + x == x * (w + 1.0) && w > 0.0;
  }

  /** Whatever the derivatives of its operands are: exactly when the dividend is 0. */
  lemma ReverseDivisionExactly(u: real, v: real)
    requires v != 0.0
    ensures (forall du: real, dv: real :: TrueReverseQuotient(u, v, du, dv)) <==> u == 0.0
  {
    hide TrueReverseQuotient;
    forall du: real, dv: real | u == 0.0 ensures TrueReverseQuotient(u, v, du, dv) {
      ReverseDivisionAt(u, v, du, dv);
    }
    ReverseDivisionAt(u, v, 0.0, 1.0);
    assert u * 1.0 == u;
  }

  /** The derivative of 1 / v at 2 is -1/4: forward mode computes -1, and reverse mode 1. */
  lemma InverseOfTwo()
    ensures Ddiv(Dual(1.0, 0.0), Dual(2.0, 1.0)).deriv == -1.0
    ensures Times(Partials(DIV, 1.0, 2.0).0, 0.0) + Times(Partials(DIV, 1.0, 2.0).1, 1.0) == 1.0
    ensures (0.0 * 2.0 - 1.0 * 1.0) / (2.0 * 2.0) == -0.25
  {
  }

  /** For these operands, derivatives included, both modes differentiate the operation alike. */
  predicate RulesAgree(op: BinaryOp, a: Dual, b: Dual)
    requires Divides(op, b.value)
  {
    op == DIV ==> a.deriv * (b.value * b.value - 1.0) == 2.0 * (a.value * b.deriv * b.value)
  }

  /** The forward rule is the chain rule for what reverse mode records exactly if the rules agree. */
  lemma RuleFits(op: BinaryOp, a: Dual, b: Dual)
    requires Divides(op, b.value)
    ensures var (p, q) := Partials(op, a.value, b.value);
      Rule(op, a, b).deriv == Times(p, a.deriv) + Times(q, b.deriv) <==> RulesAgree(op, a, b)
  {
    if op == DIV { QuotientRulesAgreeExactly(a.value, b.value, a.deriv, b.deriv); }
  }

  lemma UnaryRuleFits(op: UnaryOp, a: Dual)
    ensures UnaryRule(op, a).deriv == Times(Partial(op, a.value), a.deriv)
  {
  }

  //---------------------------------------------------------------- programs

  /** The operands are positions of earlier results. */
  datatype Op = Input(v: real) | Apply(fn: UnaryOp, i: nat) | Combine(op: BinaryOp, i: nat, j: nat)

  type Program = seq<Op>

  predicate Ordered(p: Program) {
    forall k | 0 <= k < |p| :: (p[k].Apply? ==> p[k].i < k) && (p[k].Combine? ==> p[k].i < k && p[k].j < k)
  }

  function Value(p: Program, k: nat): real
    requires Ordered(p) && k < |p|
    decreases k
  {
    match p[k]
    case Input(v) => v
    case Apply(fn, i) => ComputeUnary(fn, Value(p, i))
    case Combine(op, i, j) => if Divides(op, Value(p, j)) then Compute(op, Value(p, i), Value(p, j)) else 0.0
  }

  /** No division by zero. */
  predicate WellFormed(p: Program) {
    Ordered(p) && forall k | 0 <= k < |p| && p[k].Combine? :: Divides(p[k].op, Value(p, p[k].j))
  }

  /** Forward mode, with the input at position `s` as the only derivative variable. */
  function Forward(p: Program, s: nat, k: nat): (d: Dual)
    requires WellFormed(p) && k < |p|
    ensures d.value == Value(p, k)
    decreases k
  {
    match p[k]
    case Input(v) => if k == s then AsDerivativeVar(FromDouble(v)) else FromDouble(v)
    case Apply(fn, i) => UnaryRule(fn, Forward(p, s, i))
    case Combine(op, i, j) => assert p[k].Combine?; Rule(op, Forward(p, s, i), Forward(p, s, j))
  }

  /** The two modes agree on every quotient that result `k` is computed from, with the derivatives that forward mode
      has for its operands. */
  predicate DivisionsAgree(p: Program, s: nat, k: nat)
    requires WellFormed(p) && k < |p|
    decreases k
  {
    match p[k]
    case Input(_) => true
    case Apply(_, i) => DivisionsAgree(p, s, i)
    case Combine(op, i, j) =>
      assert p[k].Combine?;
      DivisionsAgree(p, s, i) && DivisionsAgree(p, s, j) && RulesAgree(op, Forward(p, s, i), Forward(p, s, j))
  }

  /** The derivative of result `k` in result `s` by the chain rule, from what reverse mode records. */
  function ChainRule(p: Program, k: nat, s: nat): real
    requires WellFormed(p) && k < |p|
    decreases k
  {
    (if k == s then 1.0 else 0.0) +
      match p[k]
      case Input(_) => 0.0
      case Apply(fn, i) => Times(Partial(fn, Value(p, i)), ChainRule(p, i, s))
      case Combine(op, i, j) =>
        assert p[k].Combine?;
        var (d, e) := Partials(op, Value(p, i), Value(p, j));
        Times(d, ChainRule(p, i, s)) + Times(e, ChainRule(p, j, s))
  }

  /** Forward mode follows the chain rule in the one variable it is seeded with. */
  lemma {:induction false} ForwardIsChainRule(p: Program, k: nat, s: nat)
    requires WellFormed(p) && k < |p| && s < |p| && p[s].Input? && DivisionsAgree(p, s, k)
    ensures Forward(p, s, k).deriv == ChainRule(p, k, s)
    decreases k
  {
    hide Times, Rule, UnaryRule, Partials, Partial, Compute, ComputeUnary, RulesAgree;
    match p[k]
    case Input(_) =>
    case Apply(fn, i) =>
      ForwardIsChainRule(p, i, s);
      UnaryRuleFits(fn, Forward(p, s, i));
    case Combine(op, i, j) =>
      ForwardIsChainRule(p, i, s);
      ForwardIsChainRule(p, j, s);
      assert p[k].Combine?;
      RuleFits(op, Forward(p, s, i), Forward(p, s, j));
  }

  const INVERSE: Program := [Input(1.0), Input(2.0), Combine(DIV, 0, 1)]

  /** 1 / v at v = 2: forward mode has -1, the chain rule with what reverse mode records 1. */
  lemma ModesDiffer()
    ensures WellFormed(INVERSE) && !DivisionsAgree(INVERSE, 1, 2)
    ensures Forward(INVERSE, 1, 2).deriv == -1.0 && ChainRule(INVERSE, 2, 1) == 1.0
  {
    assert Forward(INVERSE, 1, 0) == Dual(1.0, 0.0) && Forward(INVERSE, 1, 1) == Dual(2.0, 1.0);
    assert ChainRule(INVERSE, 0, 1) == 0.0 && ChainRule(INVERSE, 1, 1) == 1.0;
  }

  //---------------------------------------------------------------- reverse mode

  /** The node records operation `k`, of nodes built before. */
  ghost predicate Records(n: Node, p: Program, k: nat, nodes: seq<Node>)
    requires WellFormed(p) && k < |p| && k <= |nodes|
  {
    && n.value == Value(p, k)
    && match p[k]
       case Input(_) => n.op1 == n.op2 == null
       case Apply(fn, i) => n.op1 == nodes[i] && n.op2 == null && n.dop1 == Partial(fn, Value(p, i))
       case Combine(op, i, j) =>
         assert p[k].Combine?;
         n.op1 == nodes[i] && n.op2 == nodes[j] && (n.dop1, n.dop2) == Partials(op, Value(p, i), Value(p, j))
  }

  ghost predicate Represents(nodes: seq<Node>, p: Program)
    requires WellFormed(p)
  {
    && |nodes| <= |p|
    && (forall k | 0 <= k < |nodes| :: nodes[k].Acyclic() && Records(nodes[k], p, k, nodes))
    && (forall j, k | 0 <= j < k < |nodes| :: nodes[j] != nodes[k])
  }

  method UnaryBuild(fn: UnaryOp, a: Node) returns (n: Node)
    requires a.Acyclic()
    ensures fresh(n) && n.Acyclic() && n.adjoint == 0.0 && n.value == ComputeUnary(fn, a.value)
    ensures n.op1 == a && n.op2 == null && n.dop1 == Partial(fn, a.value)
  {
    match fn {
      case NEG => n := new Node(-a.value, a, null, -1.0, 0.0);
      case FUNCTION(f, df) => n := new Node(f(a.value), a, null, df(a.value), 0.0);
    }
  }

  /** dadd, dsub, dmul, ddiv, math_min and math_max: min and max build a node, too. */
  method BinaryBuild(op: BinaryOp, a: Node, b: Node) returns (n: Node)
    requires a.Acyclic() && b.Acyclic() && Divides(op, b.value)
    ensures fresh(n) && n.Acyclic() && n.adjoint == 0.0 && n.value == Compute(op, a.value, b.value)
    ensures n.op1 == a && n.op2 == b && (n.dop1, n.dop2) == Partials(op, a.value, b.value)
  {
    var x, y := a.value, b.value;
    match op {
      case ADD => n := new Node(x + y, a, b, 1.0, 1.0);
      case SUB => n := new Node(x - y, a, b, 1.0, -1.0);
      case MUL => n := new Node(x * y, a, b, y, x);
      case DIV => n := new Node(x / y, a, b, 1.0 / y, x);
      case MIN => n := new Node(if x < y then x else y, a, b, if x < y then 1.0 else 0.0, if x < y then 0.0 else 1.0);
      case MAX => n := new Node(if x > y then x else y, a, b, if x > y then 1.0 else 0.0, if x > y then 0.0 else 1.0);
    }
  }

  method BuildNode(p: Program, nodes: seq<Node>) returns (n: Node)
    requires WellFormed(p) && Represents(nodes, p) && |nodes| < |p|
    ensures fresh(n) && n.Acyclic() && n.adjoint == 0.0 && Records(n, p, |nodes|, nodes)
  {
    hide Partials, Partial, Compute, ComputeUnary;
    assert forall k | 0 <= k < |nodes| :: nodes[k].value == Value(p, k);
    match p[|nodes|] {
      case Input(v) => n := new Node(v, null, null, 0.0, 0.0);
      case Apply(fn, i) => n := UnaryBuild(fn, nodes[i]);
      case Combine(op, i, j) =>
        assert p[|nodes|].Combine?;
        n := BinaryBuild(op, nodes[i], nodes[j]);
    }
  }

  lemma {:induction false} PathSumIsChainRule(p: Program, nodes: seq<Node>, k: nat, s: nat)
    requires WellFormed(p) && Represents(nodes, p) && k < |nodes| && s < |nodes|
    ensures PathSum(nodes[k], nodes[s]) == ChainRule(p, k, s)
    decreases k
  {
    hide PathSum, Times, Partials, Partial, Value;
    assert Records(nodes[k], p, k, nodes);
    PathSumByOperands(nodes[k], nodes[s]);
    match p[k]
    case Input(_) =>
    case Apply(_, i) => PathSumIsChainRule(p, nodes, i, s);
    case Combine(_, i, j) => PathSumIsChainRule(p, nodes, i, s); PathSumIsChainRule(p, nodes, j, s);
  }

  lemma ReachOfNode(n: Node, p: Program, k: nat, nodes: seq<Node>)
    requires WellFormed(p) && k < |p| && k <= |nodes| && Records(n, p, k, nodes) && n.Acyclic()
    ensures forall x | x in n.reach :: x == n || exists i :: 0 <= i < k && x in nodes[i].reach
  {
    hide Value, Partials, Partial;
  }

  lemma RecordsStay(n: Node, p: Program, k: nat, nodes: seq<Node>, more: seq<Node>)
    requires WellFormed(p) && k < |p| && k <= |nodes| && Records(n, p, k, nodes)
    ensures Records(n, p, k, nodes + more)
  {
    hide Value, Partials, Partial;
  }

  /** Runs a program in reverse mode and asks for the partial derivatives of its last result: every input gets the
      derivative that forward mode computes when that input alone is seeded. */
  method ReverseMode(p: Program) returns (nodes: seq<Node>)
    requires WellFormed(p) && p != []
    ensures |nodes| == |p| && Represents(nodes, p)
    ensures forall s | 0 <= s < |p| :: nodes[s].adjoint == ChainRule(p, |p| - 1, s)
    ensures forall s | 0 <= s < |p| && p[s].Input? && DivisionsAgree(p, s, |p| - 1) ::
      nodes[s].adjoint == Forward(p, s, |p| - 1).deriv
  {
    hide PathSum, Times, Value, Partials, Partial, Forward, Records, ChainRule;
    nodes := [];
    for k := 0 to |p|
      invariant |nodes| == k && Represents(nodes, p)
      invariant forall i | 0 <= i < k :: fresh(nodes[i].reach) && nodes[i] in nodes[i].reach && nodes[i].adjoint == 0.0
    {
      var n := BuildNode(p, nodes);
      ReachOfNode(n, p, k, nodes);
      RecordsStay(n, p, k, nodes, [n]);
      forall i | 0 <= i < k ensures Records(nodes[i], p, i, nodes + [n]) { RecordsStay(nodes[i], p, i, nodes, [n]); }
      nodes := nodes + [n];
    }
    var root := nodes[|p| - 1];
    ResetAndCompute(root);
    forall s | 0 <= s < |p|
      ensures PathSum(root, nodes[s]) == ChainRule(p, |p| - 1, s)
      ensures nodes[s] !in root.reach ==> PathSum(root, nodes[s]) == 0.0
      ensures p[s].Input? && DivisionsAgree(p, s, |p| - 1) ==>
        Forward(p, s, |p| - 1).deriv == ChainRule(p, |p| - 1, s)
    {
      PathSumIsChainRule(p, nodes, |p| - 1, s);
      if nodes[s] !in root.reach { UnreachedIsZero(root, nodes[s]); }
      if p[s].Input? && DivisionsAgree(p, s, |p| - 1) { ForwardIsChainRule(p, |p| - 1, s); }
    }
  }
}

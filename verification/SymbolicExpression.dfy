/** Trees of expressions in one unknown, in exact arithmetic: None stands for what is not a number. */
module SymbolicExpression {
  import opened Collections
  import opened Reals

  datatype OP =
    | ADD | SUB | MUL | DIV | REM | NEG | ABS | MIN | MAX | POW
    | HYPOT(root: real -> Option<real>)              // with the square root that it takes
    | FUNCTION(f: real -> Option<real>)              // SQRT, SIN, ...

  predicate IsUnary(op: OP) { op.NEG? || op.ABS? || op.FUNCTION? }

  function Power(x: real, n: nat): real {
    if n == 0 then 1.0 else x * Power(x, n - 1)
  }

  /** Math.pow for exponents that are natural numbers; NaN to the power of 0 is 1. */
  function Pow(x: Option<real>, y: Option<real>): Option<real> {
    if y.None? || y.value < 0.0 || y.value.Floor as real != y.value then None
    else if y.value == 0.0 then Some(1.0)
    else if x.None? then None
    else Some(Power(x.value, y.value.Floor))
  }

  function Divided(x: real, y: real): Option<real> { if y == 0.0 then None else Some(Quotient(x, y)) }

  function RemainderOrNone(x: real, y: real): Option<real> { if y == 0.0 then None else Some(Remainder(x, y)) }

  /** The second argument is ignored by unary operators. */
  function Apply(op: OP, x: Option<real>, y: Option<real>): Option<real> {
    if op.POW? then Pow(x, y)
    else if x.None? then None
    else if op.NEG? then Some(-x.value)
    else if op.ABS? then Some(Abs(x.value))
    else if op.FUNCTION? then op.f(x.value)
    else if y.None? then None
    else
      match op
      case ADD => Some(x.value + y.value)
      case SUB => Some(x.value - y.value)
      case MUL => Some(Times(x.value, y.value))
      case DIV => Divided(x.value, y.value)
      case REM => RemainderOrNone(x.value, y.value)
      case MIN => Some(if x.value <= y.value then x.value else y.value)
      case MAX => Some(if x.value >= y.value then x.value else y.value)
      case HYPOT(root) => root(Times(x.value, x.value) + Times(y.value, y.value))
  }

  /** Operators keep the value that was computed when they were built, and whether the unknown occurs below. */
  datatype Expr =
    | Unknown
    | Constant(c: Option<real>)
    | Unary(op: OP, left: Expr, cached: Option<real>, unknown: bool)
    | Binary(op: OP, left: Expr, right: Expr, cached: Option<real>, unknown: bool)
  {
    function Value(): Option<real> {
      if Unknown? then None else if Constant? then c else cached
    }

    predicate ContainsUnknown() {
      if Unknown? then true else if Constant? then false else unknown
    }

    function Size(): nat {
      match this
      case Unary(_, l, _, _) => 1 + l.Size()
      case Binary(_, l, r, _, _) => 1 + l.Size() + r.Size()
      case _ => 1
    }

    predicate IsAdd() { Binary? && op.ADD? }

    predicate IsSub() { Binary? && op.SUB? }

    predicate IsMul() { Binary? && op.MUL? }

    predicate IsDiv() { Binary? && op.DIV? }

    predicate IsNeg() { Unary? && op.NEG? }
  }

  /** As built by the constructors. */
  predicate WellFormed(e: Expr) {
    match e
    case Unknown => true
    case Constant(_) => true
    case Unary(op, l, v, u) => WellFormed(l) && IsUnary(op) && v == Apply(op, l.Value(), None)
      && u == l.ContainsUnknown()
    case Binary(op, l, r, v, u) =>
      && WellFormed(l) && WellFormed(r) && !IsUnary(op) && v == Apply(op, l.Value(), r.Value())
      && u == (l.ContainsUnknown() || r.ContainsUnknown())
  }

  /** The constructor for an operator: trees without the unknown become constants, unless they are to be kept. */
  function Build(keep: bool, op: OP, l: Expr, r: Expr): Expr
    requires !IsUnary(op)
  {
    var v, u := Apply(op, l.Value(), r.Value()), l.ContainsUnknown() || r.ContainsUnknown();
    if u || keep then Binary(op, l, r, v, u) else Constant(v)
  }

  function BuildUnary(keep: bool, op: OP, l: Expr): Expr
    requires IsUnary(op)
  {
    var v, u := Apply(op, l.Value(), None), l.ContainsUnknown();
    if u || keep then Unary(op, l, v, u) else Constant(v)
  }

  //---------------------------------------------------------------- plain evaluation

  /** The meaning of a tree: evaluation from the leaves up. */
  function Plain(e: Expr, x: real): Option<real> {
    match e
    case Unknown => Some(x)
    case Constant(v) => v
    case Unary(op, l, _, _) => Apply(op, Plain(l, x), None)
    case Binary(op, l, r, _, _) => Apply(op, Plain(l, x), Plain(r, x))
  }

  /** A value that has been computed without the unknown is that of any evaluation. */
  lemma {:induction false} CachedValue(e: Expr, x: real)
    requires WellFormed(e)
    ensures e.Value().Some? ==> Plain(e, x) == e.Value()
    ensures !e.ContainsUnknown() ==> Plain(e, x) == e.Value()
  {
    if e.Unary? {
      CachedValue(e.left, x);
    } else if e.Binary? {
      CachedValue(e.left, x);
      CachedValue(e.right, x);
    }
  }

  /** With or without folding of constants, a tree built from operands means the operator on their meanings. */
  lemma BuildMeans(keep: bool, op: OP, l: Expr, r: Expr, x: real)
    requires !IsUnary(op) && WellFormed(l) && WellFormed(r)
    ensures WellFormed(Build(keep, op, l, r)) && Plain(Build(keep, op, l, r), x) == Apply(op, Plain(l, x), Plain(r, x))
  {
    hide Apply;
    CachedValue(l, x);
    CachedValue(r, x);
  }

  lemma BuildUnaryMeans(keep: bool, op: OP, l: Expr, x: real)
    requires IsUnary(op) && WellFormed(l)
    ensures WellFormed(BuildUnary(keep, op, l)) && Plain(BuildUnary(keep, op, l), x) == Apply(op, Plain(l, x), None)
  {
    hide Apply;
    CachedValue(l, x);
  }

  //---------------------------------------------------------------- sums of terms

  function Plus(a: Option<real>, b: Option<real>): Option<real> { Apply(ADD, a, b) }

  function TermSum(terms: seq<Expr>, x: real): Option<real> {
    if terms == [] then Some(0.0) else Plus(TermSum(terms[..|terms| - 1], x), Plain(terms[|terms| - 1], x))
  }

  function Sum(values: seq<real>): real {
    if values == [] then 0.0 else Sum(values[..|values| - 1]) + values[|values| - 1]
  }

  predicate Terms(terms: seq<Expr>, bound: nat) {
    forall i | 0 <= i < |terms| :: WellFormed(terms[i]) && terms[i].Size() <= bound
  }

  lemma TermSumSnoc(terms: seq<Expr>, t: Expr, x: real)
    ensures TermSum(terms + [t], x) == Plus(TermSum(terms, x), Plain(t, x))
  {
    assert (terms + [t])[..|terms|] == terms;
  }

  lemma {:induction false} TermSumAppend(a: seq<Expr>, b: seq<Expr>, x: real)
    ensures TermSum(a + b, x) == Plus(TermSum(a, x), TermSum(b, x))
  {
    hide Plain, Apply, Plus;
    if b == [] {
      assert a + b == a;
      PlusLaws(TermSum(a, x), None, None);
    } else {
      var f, t := b[..|b| - 1], b[|b| - 1];
      PlusLaws(TermSum(a, x), TermSum(f, x), Plain(t, x));
      assert b == f + [t] && a + b == (a + f) + [t];
      TermSumSnoc(f, t, x);
      TermSumSnoc(a + f, t, x);
      TermSumAppend(a, f, x);
    }
  }

  /** NEG(NEG(a)) --> a */
  function SmartNegate(keep: bool, e: Expr): Expr {
    if e.IsNeg() then e.left else BuildUnary(keep, NEG, e)
  }

  lemma SmartNegateMeans(keep: bool, e: Expr, x: real)
    requires WellFormed(e)
    ensures WellFormed(SmartNegate(keep, e)) && SmartNegate(keep, e).Size() <= e.Size() + 1
    ensures Plain(SmartNegate(keep, e), x) == Apply(NEG, Plain(e, x), None)
  {
    if !(e.IsNeg()) { BuildUnaryMeans(keep, NEG, e, x); }
  }

  datatype Modes = Modes(keepConstantSubtrees: bool, smart: bool)

  method Negated(modes: Modes, terms: seq<Expr>, ghost bound: nat) returns (r: seq<Expr>)
    requires Terms(terms, bound)
    ensures Terms(r, bound + 1)
    ensures forall x :: TermSum(r, x) == Apply(NEG, TermSum(terms, x), None)
  {
    hide Plain, WellFormed, SmartNegate;
    r := [];
    for i := 0 to |terms|
      invariant |r| == i && Terms(r, bound + 1)
      invariant forall x :: TermSum(r, x) == Apply(NEG, TermSum(terms[..i], x), None)
    {
      var t := SmartNegate(modes.keepConstantSubtrees, terms[i]);
      SmartNegateMeans(modes.keepConstantSubtrees, terms[i], 0.0);
      ghost var before := r;
      assert terms[..i + 1] == terms[..i] + [terms[i]];
      forall x ensures TermSum(before + [t], x) == Apply(NEG, TermSum(terms[..i + 1], x), None) {
        SmartNegateMeans(modes.keepConstantSubtrees, terms[i], x);
        TermSumSnoc(terms[..i], terms[i], x);
        TermSumSnoc(before, t, x);
      }
      r := r + [t];
    }
    assert terms[..|terms|] == terms;
  }

  /** ADD(ADD(a,b),NEG(ADD(c,SUB(d,e)))) -> [a,b,-c,-d,e] : the terms have the sum that the tree has; they are no
      larger than it, and smaller than a sum or difference. */
  method FlattenedTermList(modes: Modes, e: Expr) returns (terms: seq<Expr>)
    requires WellFormed(e)
    ensures forall x :: TermSum(terms, x) == Plain(e, x)
    ensures Terms(terms, if e.IsAdd() || e.IsSub() then e.Size() - 1 else e.Size())
  {
    hide Plain, Apply, TermSum, SmartNegate;
    if e.IsAdd() {
      var l := FlattenedTermList(modes, e.left);
      var r := FlattenedTermList(modes, e.right);
      terms := l + r;
      forall x ensures TermSum(terms, x) == Plain(e, x) {
        TermSumAppend(l, r, x);
        PlainOperands(e, x);
      }
    } else if e.IsSub() {
      var l := FlattenedTermList(modes, e.left);
      var r := FlattenedTermList(modes, e.right);
      var n := Negated(modes, r, e.right.Size());
      terms := l + n;
      forall x ensures TermSum(terms, x) == Plain(e, x) {
        TermSumAppend(l, n, x);
        PlainOperands(e, x);
        MinusIsPlus(Plain(e.left, x), Plain(e.right, x));
      }
    } else if e.IsNeg() {
      var l := FlattenedTermList(modes, e.left);
      terms := Negated(modes, l, e.left.Size());
      forall x ensures TermSum(terms, x) == Plain(e, x) { PlainOperands(e, x); }
    } else {
      terms := [e];
      forall x ensures TermSum(terms, x) == Plain(e, x) { SingleTerm(e, x); }
    }
  }

  lemma PlainOperands(e: Expr, x: real)
    ensures e.Binary? ==> Plain(e, x) == Apply(e.op, Plain(e.left, x), Plain(e.right, x))
    ensures e.Unary? ==> Plain(e, x) == Apply(e.op, Plain(e.left, x), None)
  {
  }

  lemma MinusIsPlus(a: Option<real>, b: Option<real>)
    ensures Apply(SUB, a, b) == Plus(a, Apply(NEG, b, None))
  {
  }

  lemma SingleTerm(e: Expr, x: real)
    ensures TermSum([e], x) == Plain(e, x)
  {
    TermSumSnoc([], e, x);
    PlusLaws(Some(0.0), Plain(e, x), None);
  }

  lemma PlusLaws(a: Option<real>, b: Option<real>, c: Option<real>)
    ensures Plus(Plus(a, b), c) == Plus(a, Plus(b, c))
    ensures Plus(a, Some(0.0)) == a == Plus(Some(0.0), a) && Plus(Some(0.0), b) == b
  {
  }

  //---------------------------------------------------------------- smart evaluation

  predicate SortedByAbs(s: seq<real>) {
    forall i, j | 0 <= i < j < |s| :: Abs(s[i]) >= Abs(s[j])
  }

  /** List.sort, with decreasing absolute values. */
  method Sort(values: seq<real>) returns (s: seq<real>)
    ensures SortedByAbs(s) && multiset(s) == multiset(values)
  {
    s := [];
    for i := 0 to |values|
      invariant SortedByAbs(s) && multiset(s) == multiset(values[..i])
    {
      var v, k := values[i], |s|;
      while k > 0 && Abs(s[k - 1]) < Abs(v)
        invariant 0 <= k <= |s| && forall j | k <= j < |s| :: Abs(s[j]) < Abs(v)
      {
        k := k - 1;
      }
      InsertedSorted(s, k, v);
      InsertedSame(s, k, v);
      s := s[..k] + [v] + s[k..];
      assert values[..i + 1] == values[..i] + [v];
    }
    assert values[..|values|] == values;
  }

  lemma InsertedSorted(s: seq<real>, k: nat, v: real)
    requires SortedByAbs(s) && k <= |s| && (k > 0 ==> Abs(s[k - 1]) >= Abs(v))
    requires forall j | k <= j < |s| :: Abs(s[j]) < Abs(v)
    ensures SortedByAbs(s[..k] + [v] + s[k..])
  {
    hide Abs;
  }

  lemma InsertedSame(s: seq<real>, k: nat, v: real)
    requires k <= |s|
    ensures multiset(s[..k] + [v] + s[k..]) == multiset(s) + multiset{v}
  {
    assert s == s[..k] + s[k..];
  }

  lemma SumSnoc(s: seq<real>, v: real)
    ensures Sum(s + [v]) == Sum(s) + v
  {
    assert (s + [v])[..|s|] == s;
  }

  lemma {:induction false} SumInserted(s: seq<real>, k: nat, v: real)
    requires k <= |s|
    ensures Sum(s[..k] + [v] + s[k..]) == Sum(s) + v
  {
    if k == |s| {
      assert s[..k] + [v] + s[k..] == s + [v];
      SumSnoc(s, v);
    } else {
      var f, t := s[..|s| - 1], s[|s| - 1];
      assert s[..k] + [v] + s[k..] == (f[..k] + [v] + f[k..]) + [t] && s == f + [t];
      SumInserted(f, k, v);
      SumSnoc(f[..k] + [v] + f[k..], t);
      SumSnoc(f, t);
    }
  }

  /** The order of the terms does not matter. */
  lemma {:induction false} SumOfSame(s: seq<real>, t: seq<real>)
    requires multiset(s) == multiset(t)
    ensures Sum(s) == Sum(t)
  {
    hide Sum;
    if s == [] {
      assert |multiset(t)| == |t|;
      assert t == [];
    } else {
      var f, v := s[..|s| - 1], s[|s| - 1];
      assert s == f + [v];
      assert v in multiset(s);
      var rest := Without(t, v);
      SameRest(s, f, t, rest, v);
      SumOfSame(f, rest);
      SumSnoc(f, v);
    }
  }

  lemma SameRest(s: seq<real>, f: seq<real>, t: seq<real>, rest: seq<real>, v: real)
    requires s == f + [v] && multiset(t) == multiset(rest) + multiset{v} && multiset(s) == multiset(t)
    ensures multiset(f) == multiset(rest)
  {
    assert multiset(f) == multiset(s) - multiset{v} && multiset(rest) == multiset(t) - multiset{v};
  }

  lemma Without(t: seq<real>, v: real) returns (rest: seq<real>)
    requires v in multiset(t)
    ensures multiset(t) == multiset(rest) + multiset{v} && Sum(t) == Sum(rest) + v
  {
    assert v in t;
    var k :| 0 <= k < |t| && t[k] == v;
    rest := t[..k] + t[k + 1..];
    assert rest[..k] + [v] + rest[k..] == t;
    InsertedSame(rest, k, v);
    SumInserted(rest, k, v);
  }

  /** Kahan's summation: in exact arithmetic the correction stays 0. */
  method SmartSum(termsValues: seq<real>) returns (sum: real)
    ensures sum == Sum(termsValues)
  {
    var sorted := Sort(termsValues);
    sum := 0.0;
    var corr := 0.0;
    for i := 0 to |sorted|
      invariant corr == 0.0 && sum == Sum(sorted[..i])
    {
      var corrTerm := sorted[i] - corr;
      var tmpSum := sum + corrTerm;
      corr := (tmpSum - sum) - corrTerm;
      sum := tmpSum;
      assert sorted[..i + 1] == sorted[..i] + [sorted[i]];
      SumSnoc(sorted[..i], sorted[i]);
    }
    assert sorted[..|sorted|] == sorted;
    SumOfSame(sorted, termsValues);
  }

  /** Wherever plain evaluation gives a number, this is it, in every mode. */
  method Evaluate(modes: Modes, e: Expr, x: real) returns (r: Option<real>)
    requires WellFormed(e)
    ensures Plain(e, x).Some? ==> r == Plain(e, x)
    decreases e.Size(), 2
  {
    hide Apply;
    if e.Unknown? { return Some(x); }
    if e.Constant? { return e.c; }
    if modes.smart && (e.IsAdd() || e.IsSub()) {
      r := EvaluateTermsSmarter(modes, e, x);
      return;
    }
    if modes.smart && e.IsMul() {
      r := EvaluateProductSmarter(modes, e, x);
      return;
    }
    r := EvaluateOperands(modes, e, x);
  }

  method EvaluateOperands(modes: Modes, e: Expr, x: real) returns (r: Option<real>)
    requires WellFormed(e) && (e.Unary? || e.Binary?)
    ensures Plain(e, x).Some? ==> r == Plain(e, x)
    decreases e.Size(), 0
  {
    var l := Evaluate(modes, e.left, x);
    if e.Binary? {
      var s := Evaluate(modes, e.right, x);
      r := Apply(e.op, l, s);
    } else {
      r := Apply(e.op, l, None);
    }
  }

  /** a*(b/a) == (b/a)*a == b */
  method EvaluateProductSmarter(modes: Modes, e: Expr, x: real) returns (r: Option<real>)
    requires WellFormed(e) && e.IsMul()
    ensures Plain(e, x).Some? ==> r == Plain(e, x)
    decreases e.Size(), 1
  {
    hide WellFormed, Apply;
    var l, s := e.left, e.right;
    WellFormedOperands(e);
    assert (s.IsDiv() ==> s.Size() > s.left.Size()) && (l.IsDiv() ==> l.Size() > l.left.Size());
    if s.IsDiv() && s.left.Value() != Some(0.0) && s.right.Value().Some? && s.right.Value() == l.Value() {
      CancelledProduct(e, l, s, x);
      r := Evaluate(modes, s.left, x);
      return;
    }
    if l.IsDiv() && l.left.Value() != Some(0.0) && l.right.Value().Some? && l.right.Value() == s.Value() {
      CancelledProduct(e, s, l, x);
      r := Evaluate(modes, l.left, x);
      return;
    }
    r := EvaluateOperands(modes, e, x);
  }

  lemma WellFormedOperands(e: Expr)
    requires WellFormed(e) && (e.IsMul() || e.IsDiv())
    ensures e.Binary? && WellFormed(e.left) && WellFormed(e.right)
    ensures (e.left.IsDiv() ==> e.left.Binary? && WellFormed(e.left.left))
      && (e.right.IsDiv() ==> e.right.Binary? && WellFormed(e.right.left))
  {
  }

  lemma CancelledProduct(e: Expr, a: Expr, q: Expr, x: real)
    requires WellFormed(e) && e.IsMul() && ((a == e.left && q == e.right) || (a == e.right && q == e.left))
    requires q.IsDiv() && q.right.Value().Some? && q.right.Value() == a.Value()
    ensures Plain(e, x).Some? ==> Plain(q.left, x) == Plain(e, x)
  {
    assert WellFormed(a) && WellFormed(q) && WellFormed(q.right);
    CachedValue(a, x);
    CachedValue(q.right, x);
    hide WellFormed, Apply;
    var va, vb := Plain(a, x), Plain(q.left, x);
    assert Plain(q, x) == Apply(DIV, vb, va);
    assert Plain(e, x) == Apply(MUL, va, Apply(DIV, vb, va)) || Plain(e, x) == Apply(MUL, Apply(DIV, vb, va), va);
    Cancels(va, vb);
  }

  lemma Cancels(a: Option<real>, b: Option<real>)
    ensures var p, q := Apply(MUL, a, Apply(DIV, b, a)), Apply(MUL, Apply(DIV, b, a), a);
      (p.Some? ==> p == b) && (q.Some? ==> q == b)
  {
    hide Times, Quotient;
    if a.Some? && a.value != 0.0 && b.Some? { RealCancels(a.value, b.value); }
  }

  lemma RealCancels(a: real, b: real)
    requires a != 0.0
    ensures Times(a, Quotient(b, a)) == b == Times(Quotient(b, a), a)
  {
  }

  lemma UndefinedPrefix(terms: seq<Expr>, i: nat, x: real)
    requires i <= |terms| && TermSum(terms[..i], x).None?
    ensures TermSum(terms, x).None?
  {
    assert terms == terms[..i] + terms[i..];
    TermSumAppend(terms[..i], terms[i..], x);
  }

  method EvaluateTermsSmarter(modes: Modes, e: Expr, x: real) returns (r: Option<real>)
    requires WellFormed(e) && (e.IsAdd() || e.IsSub())
    ensures Plain(e, x).Some? ==> r == Plain(e, x)
    decreases e.Size(), 0
  {
    hide Plain, WellFormed;
    var terms := FlattenedTermList(modes, e);
    var termsValues: seq<real> := [];
    for i := 0 to |terms|
      invariant |termsValues| == i
      invariant TermSum(terms[..i], x).Some? ==> TermSum(terms[..i], x) == Some(Sum(termsValues))
    {
      assert terms[..i + 1] == terms[..i] + [terms[i]];
      TermSumSnoc(terms[..i], terms[i], x);
      var v := Evaluate(modes, terms[i], x);
      if v.None? {
        UndefinedPrefix(terms, i + 1, x);
        return None;                       // NaN stays NaN in the sum
      }
      SumSnoc(termsValues, v.value);
      termsValues := termsValues + [v.value];
    }
    assert terms[..|terms|] == terms;
    var sum := SmartSum(termsValues);
    r := Some(sum);
  }
}

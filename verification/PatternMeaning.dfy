/** Matching up to order keeps the value of an expression: what is exchanged commutes. */
module PatternMeaning {
  import opened Collections
  import opened Reals
  import opened SymbPattern
  import S = SymbolicExpression

  /** The functions that are not modelled: one for each unary operator, and the square root of HYPOT. */
  datatype Functions = Functions(unary: OP -> real -> Option<real>, root: real -> Option<real>)

  /** The operator of a node, as evaluation reads it. */
  function Read(op: OP, f: Functions): S.OP {
    match op
    case ADD => S.ADD
    case SUB => S.SUB
    case MUL => S.MUL
    case DIV => S.DIV
    case REM => S.REM
    case NEG => S.NEG
    case ABS => S.ABS
    case MIN => S.MIN
    case MAX => S.MAX
    case POW => S.POW
    case HYPOT => S.HYPOT(f.root)
    case _ => S.FUNCTION(f.unary(op))
  }

  /** The value of a tree where the unknown is x; NaN for an operand that there is not. */
  function Meaning(t: Option<Tree>, f: Functions, x: real): Option<real> {
    if t.None? || t.value.oper == ANY then None
    else if t.value.oper == NOP then (if t.value.unknown then Some(x) else t.value.value)
    else S.Apply(Read(t.value.oper, f), Meaning(t.value.left, f, x), Meaning(t.value.right, f, x))
  }

  lemma Commutes(op: OP, f: Functions, a: Option<real>, b: Option<real>)
    requires IsCommutative(op)
    ensures S.Apply(Read(op, f), a, b) == S.Apply(Read(op, f), b, a)
  {
    if a.Some? && b.Some? { TimesLaws(a.value, b.value, 0.0); }
  }

  /** Whatever rearrangement of a tree a pattern fits, the tree has its value. */
  lemma {:induction false} RearrangedMeans(t: Option<Tree>, u: Option<Tree>, f: Functions, x: real)
    requires Rearranged(t, u)
    ensures Meaning(t, f, x) == Meaning(u, f, x)
  {
    hide S.Apply, Read;
    if t.Some? && t.value.oper != NOP && t.value.oper != ANY {
      var a, b := t.value, u.value;
      if Rearranged(a.left, b.left) && Rearranged(a.right, b.right) {
        RearrangedMeans(a.left, b.left, f, x);
        RearrangedMeans(a.right, b.right, f, x);
      } else {
        RearrangedMeans(a.left, b.right, f, x);
        RearrangedMeans(a.right, b.left, f, x);
        Commutes(a.oper, f, Meaning(a.left, f, x), Meaning(a.right, f, x));
      }
    }
  }

  /** So a match is one of a tree that fits and has the same value everywhere. */
  lemma MatchMeans(p: Option<Pattern>, t: Option<Tree>) returns (u: Option<Tree>)
    requires Search(p, t) == Matched
    ensures Fits(p, u) && forall f, x :: Meaning(t, f, x) == Meaning(u, f, x)
  {
    u := MatchFits(p, t);
    forall f, x ensures Meaning(t, f, x) == Meaning(u, f, x) { RearrangedMeans(t, u, f, x); }
  }

  /** A pattern that asks for everything: nothing in it stands for anything. */
  predicate Closed(p: Option<Pattern>) {
    p.Some? ==> p.value.oper != ANY && Closed(p.value.left) && Closed(p.value.right)
  }

  /** The tree that is drawn in a pattern. */
  function Drawn(p: Option<Pattern>): Option<Tree> {
    if p.None? then None
    else Some(Tree(p.value.oper, p.value.value, false, p.value.value, Drawn(p.value.left), Drawn(p.value.right)))
  }

  /** Such a pattern matches nothing but trees that mean what the pattern means. */
  lemma {:induction false} ClosedMatches(p: Option<Pattern>, t: Option<Tree>, f: Functions, x: real)
    requires Closed(p) && WellFormed(t) && Search(p, t) == Matched
    ensures Meaning(t, f, x) == Meaning(Drawn(p), f, x)
  {
    hide S.Apply, Read;
    if p.Some? && p.value.oper != NOP {
      var a, b := p.value, t.value;
      if InOrder(a, b) == Matched {
        ClosedMatches(a.left, b.left, f, x);
        ClosedMatches(a.right, b.right, f, x);
      } else {
        ClosedMatches(a.left, b.right, f, x);
        ClosedMatches(a.right, b.left, f, x);
        Commutes(a.oper, f, Meaning(b.left, f, x), Meaning(b.right, f, x));
      }
    }
  }

  //---------------------------------------------------------------- which operators are exchanged

  predicate SameExchanged(op: OP, f: Functions, a: real, b: real) {
    S.Apply(Read(op, f), Some(a), Some(b)) == S.Apply(Read(op, f), Some(b), Some(a))
  }

  lemma Noncommutative(f: Functions)
    ensures !SameExchanged(SUB, f, 1.0, 2.0) && !SameExchanged(DIV, f, 1.0, 2.0)
    ensures !SameExchanged(REM, f, 1.0, 2.0) && !SameExchanged(POW, f, 1.0, 2.0)
  {
    assert Quotient(1.0, 2.0) == 0.5 && Quotient(2.0, 1.0) == 2.0;
    assert Remainder(1.0, 2.0) == 1.0 && Remainder(2.0, 1.0) == 0.0;
    Powers();
  }

  lemma Powers()
    ensures S.Pow(Some(1.0), Some(2.0)) == Some(1.0) && S.Pow(Some(2.0), Some(1.0)) == Some(2.0)
  {
    var one, two := 1.0, 2.0;
    assert one.Floor == 1 && two.Floor == 2;
    assert S.Power(1.0, 1) == 1.0 * S.Power(1.0, 0) == 1.0 && S.Power(1.0, 2) == 1.0 * S.Power(1.0, 1) == 1.0;
    assert S.Power(2.0, 1) == 2.0 * S.Power(2.0, 0) == 2.0;
  }

  /** Operands are exchanged exactly for the operators that commute, minimum and maximum excepted. */
  lemma CommutativeExactly(op: OP, f: Functions)
    requires IsBinary(op)
    ensures IsCommutative(op) <==> op != MIN && op != MAX && forall a, b :: SameExchanged(op, f, a, b)
  {
    Noncommutative(f);
    if IsCommutative(op) {
      forall a, b ensures SameExchanged(op, f, a, b) { Commutes(op, f, Some(a), Some(b)); }
    }
  }

  /** For these the search takes the operands the other way round, too. */
  lemma OperandsExchanged(t: Tree)
    requires t.oper in {ADD, MUL, HYPOT}
    ensures Rearranged(Some(t), Some(t.(left := t.right, right := t.left)))
  {
    RearrangedItself(t.left);
    RearrangedItself(t.right);
  }

  function Leaf(v: real): Option<Tree> { Some(Tree(NOP, Some(v), false, Some(v), None, None)) }

  function Literal(v: Number): Option<Pattern> { Some(Pattern(NOP, v, None, None, false)) }

  /** min(2, 1) has the value of min(1, 2), but is no match for it. */
  lemma MinimumIsMissed(f: Functions, x: real)
    ensures var p := Pattern(MIN, None, Literal(Some(1.0)), Literal(Some(2.0)), false);
      var t := Tree(MIN, None, false, None, Leaf(2.0), Leaf(1.0));
      var u := Tree(MIN, None, false, None, Leaf(1.0), Leaf(2.0));
      && Fits(Some(p), Some(u)) && Meaning(Some(t), f, x) == Meaning(Some(u), f, x) == Some(1.0)
      && Search(Some(p), Some(t)) == Failed
  {
  }

  //---------------------------------------------------------------- constants, and a pattern of the profiler

  /** NaN is no match for itself. */
  lemma ConstantsMatchExactly(v: Number, t: Tree)
    ensures Search(Literal(v), Some(t)) == Matched <==>
      t.oper == NOP && v.Some? && t.value.Some? && v.value == t.value.value
  {
  }

  const ANYTHING := Some(Pattern(ANY, None, None, None, false))

  lemma AnythingMatches(t: Option<Tree>)
    ensures Search(ANYTHING, t) == Matched
  {
  }

  /** exp(x) - 1, with x as the goal. */
  const EXPM1 := Some(Pattern(SUB, None, Some(Pattern(EXP, None, ANYTHING, ANYTHING, true)), Literal(Some(1.0)), false))

  /** exp(x) - 1 is found, with the value of x; 1 - exp(x) is not. */
  lemma ExponentialsFound(arg: Tree, v: Number, e: Number)
    ensures var exp := Some(Tree(EXP, None, true, v, Some(arg), None));
      var t, u := Some(Tree(SUB, None, true, e, exp, Leaf(1.0))), Some(Tree(SUB, None, true, e, Leaf(1.0), exp));
      && Search(EXPM1, t) == Matched && Search(EXPM1, u) == Failed
      && Goals(EXPM1) == 1 && GoalNode(EXPM1, t) == exp && GoalOper(EXPM1) == EXP
      && SavedValues(EXP, exp.value).0 == arg.evaluated
  {
    var p := EXPM1.value;
    var exp := Tree(EXP, None, true, v, Some(arg), None);
    assert Search(ANYTHING, Some(arg)) == Matched && Search(ANYTHING, None) == Matched;
    assert InOrder(p.left.value, exp) == Matched;
    assert Search(p.left, Some(exp)) == Matched && Search(p.right, Leaf(1.0)) == Matched;
    assert Search(p.left, Leaf(1.0)) == Failed;
    assert Goals(p.left) == 1 && Goals(p.right) == 0;
  }

  /** A goal for an operator keeps the value of the first operand on the left and that of the second one on the right;
      a goal for anything, or for a leaf, keeps the value of the node. */
  lemma SavedOperands(oper: OP, t: Tree)
    requires t.right.Some? ==> t.left.Some?
    ensures var (left, right) := SavedValues(oper, t);
      && (oper != ANY && t.left.Some? ==> left == t.left.value.evaluated)
      && (oper == ANY || t.left.None? ==> left == t.evaluated)
      && (t.right.Some? ==> right == t.right.value.evaluated) && (t.right.None? ==> right == None)
  {
  }
}

/** Matching of expression trees against patterns, up to the order of the operands of commutative operators. */
module SymbPattern {
  import opened Collections

  datatype OP =
    | NOP | ADD | SUB | MUL | DIV | REM | NEG | SQRT | ABS | SIN | COS | TAN | ASIN | ACOS | ATAN | SINH | COSH | TANH
    | EXP | LOG | LOG10 | RAD | DEG | MIN | MAX | POW | HYPOT | ANY

  predicate IsCommutative(op: OP) { op in {ADD, MUL, HYPOT} }

  predicate IsBinary(op: OP) { op in {ADD, SUB, MUL, DIV, REM, MIN, MAX, POW, HYPOT} }

  /** A number; None is NaN, which equals nothing. */
  type Number = Option<real>

  predicate Equal(x: Number, y: Number) { x.Some? && x == y }

  /** A tree to be matched; `evaluated` is what evaluate() returns for it.  A leaf is a constant or the unknown. */
  datatype Tree = Tree(
    oper: OP, value: Number, unknown: bool, evaluated: Number, left: Option<Tree>, right: Option<Tree>)

  /** A pattern; goals (SymbExpressionGoal) ask for the values of what they match. */
  datatype Pattern = Pattern(oper: OP, value: Number, left: Option<Pattern>, right: Option<Pattern>, isGoal: bool)

  //---------------------------------------------------------------- what matching means

  /** Node by node, in the order of the operands; ANY stands for anything, even nothing. */
  predicate Fits(p: Option<Pattern>, t: Option<Tree>) {
    if p.None? then t.None?
    else if p.value.oper == ANY then true
    else if t.None? || p.value.oper != t.value.oper then false
    else if p.value.oper == NOP then Equal(p.value.value, t.value.value)
    else Fits(p.value.left, t.value.left) && Fits(p.value.right, t.value.right)
  }

  /** The same tree, with the operands of some commutative operators exchanged. */
  predicate Rearranged(t: Option<Tree>, u: Option<Tree>) {
    if t.None? || u.None? then t.None? && u.None?
    else
      var a, b := t.value, u.value;
      && a.oper == b.oper && a.value == b.value && a.unknown == b.unknown && a.evaluated == b.evaluated
      && (
        || (Rearranged(a.left, b.left) && Rearranged(a.right, b.right))
        || (IsCommutative(a.oper) && Rearranged(a.left, b.right) && Rearranged(a.right, b.left)))
  }

  lemma {:induction false} RearrangedItself(t: Option<Tree>)
    ensures Rearranged(t, t)
  {
    if t.Some? {
      RearrangedItself(t.value.left);
      RearrangedItself(t.value.right);
    }
  }

  //---------------------------------------------------------------- the search

  datatype Outcome = Matched | Failed | IllegalState

  function AndThen(o: Outcome, next: Outcome): Outcome { if o == Matched then next else o }

  /** The outcome of match: the operands in order, then, for a commutative operator, the other way round. */
  function Search(p: Option<Pattern>, t: Option<Tree>): Outcome {
    if p.None? then (if t.None? then Matched else Failed)
    else if p.value.oper == ANY then (if p.value.isGoal && t.None? then IllegalState else Matched)
    else if t.None? || p.value.oper != t.value.oper then Failed
    else if p.value.oper == NOP then (if Equal(p.value.value, t.value.value) then Matched else Failed)
    else
      var first := InOrder(p.value, t.value);
      if first != Failed then first
      else if IsCommutative(p.value.oper) then OtherWayRound(p.value, t.value)
      else Failed
  }

  function InOrder(p: Pattern, t: Tree): Outcome {
    AndThen(Search(p.left, t.left), Search(p.right, t.right))
  }

  function OtherWayRound(p: Pattern, t: Tree): Outcome {
    AndThen(Search(p.left, t.right), Search(p.right, t.left))
  }

  /** A match is a rearrangement that fits. */
  lemma {:induction false} MatchFits(p: Option<Pattern>, t: Option<Tree>) returns (u: Option<Tree>)
    requires Search(p, t) == Matched
    ensures Rearranged(t, u) && Fits(p, u)
  {
    if p.None? || t.None? || p.value.oper == ANY || p.value.oper == NOP {
      RearrangedItself(t);
      u := t;
    } else if InOrder(p.value, t.value) == Matched {
      var l := MatchFits(p.value.left, t.value.left);
      var r := MatchFits(p.value.right, t.value.right);
      u := Some(t.value.(left := l, right := r));
    } else {
      var l := MatchFits(p.value.left, t.value.right);
      var r := MatchFits(p.value.right, t.value.left);
      u := Some(t.value.(left := l, right := r));
    }
  }

  /** Whatever rearrangement fits, the search does not fail. */
  lemma {:induction false} FitsMatch(p: Option<Pattern>, t: Option<Tree>, u: Option<Tree>)
    requires Rearranged(t, u) && Fits(p, u)
    ensures Search(p, t) != Failed
  {
    if p.Some? && p.value.oper != ANY && p.value.oper != NOP {
      var a, b := t.value, u.value;
      if Rearranged(a.left, b.left) && Rearranged(a.right, b.right) {
        FitsMatch(p.value.left, a.left, b.left);
        FitsMatch(p.value.right, a.right, b.right);
      } else {
        FitsMatch(p.value.left, a.right, b.left);
        FitsMatch(p.value.right, a.left, b.right);
      }
    }
  }

  predicate IsMatch(p: Option<Pattern>, t: Option<Tree>, u: Option<Tree>) { Rearranged(t, u) && Fits(p, u) }

  ghost predicate FitsRearranged(p: Option<Pattern>, t: Option<Tree>) { exists u :: IsMatch(p, t, u) }

  //---------------------------------------------------------------- exceptions

  /** Trees as the constructors build them: binary operators have two operands, unary ones one. */
  predicate WellFormed(t: Option<Tree>) {
    t.Some? ==>
      && t.value.oper != ANY && (t.value.unknown && t.value.oper == NOP ==> t.value.value.None?)
      && (t.value.left.Some? <==> t.value.oper != NOP) && (t.value.right.Some? <==> IsBinary(t.value.oper))
      && WellFormed(t.value.left) && WellFormed(t.value.right)
  }

  predicate AnyGoal(p: Option<Pattern>) { p.Some? && p.value.isGoal && p.value.oper == ANY }

  /** The pattern of a second operand that there is not is matched by nothing. */
  predicate TakesNothing(p: Option<Pattern>) { p.Some? ==> p.value.oper == ANY && !p.value.isGoal }

  /** There is a tree for the pattern: no NaN, no missing operand, nothing asked of a second operand that there
      is not. */
  predicate CanMatch(p: Option<Pattern>) {
    && p.Some?
    && (p.value.oper == NOP ==> p.value.value.Some?)
    && (p.value.oper !in {NOP, ANY} ==>
      && CanMatch(p.value.left)
      && (if IsBinary(p.value.oper) then CanMatch(p.value.right) else TakesNothing(p.value.right)))
  }

  /** A goal for anything stands for the second operand of a unary operator, and the search gets there. */
  predicate CanThrow(p: Option<Pattern>) {
    p.Some? && p.value.oper !in {NOP, ANY} &&
    (CanThrow(p.value.left) || (CanMatch(p.value.left) &&
      (if IsBinary(p.value.oper) then CanThrow(p.value.right) else AnyGoal(p.value.right))))
  }

  lemma {:induction false} MatchingTree(p: Option<Pattern>) returns (t: Tree)
    requires CanMatch(p)
    ensures WellFormed(Some(t)) && Search(p, Some(t)) == Matched
  {
    var a := p.value;
    if a.oper == ANY {
      t := Tree(NOP, None, true, None, None, None);
    } else if a.oper == NOP {
      t := Tree(NOP, a.value, false, None, None, None);
    } else {
      var l := MatchingTree(a.left);
      var r := None;
      if IsBinary(a.oper) {
        var u := MatchingTree(a.right);
        r := Some(u);
      }
      t := Tree(a.oper, None, true, None, Some(l), r);
      assert InOrder(a, t) == Matched;
    }
  }

  lemma {:induction false} MatchedCan(p: Option<Pattern>, t: Tree)
    requires WellFormed(Some(t)) && Search(p, Some(t)) == Matched
    ensures CanMatch(p)
  {
    var a := p.value;
    if a.oper !in {NOP, ANY} {
      var ordered := InOrder(a, t) == Matched;
      var l, r := if ordered then t.left else t.right, if ordered then t.right else t.left;
      MatchedCan(a.left, l.value);
      if IsBinary(a.oper) { MatchedCan(a.right, r.value); } else { assert Search(a.right, None) == Matched; }
    }
  }

  lemma {:induction false} ThrowingTree(p: Option<Pattern>) returns (t: Tree)
    requires CanThrow(p)
    ensures WellFormed(Some(t)) && Search(p, Some(t)) == IllegalState
  {
    var a, any, l := p.value, Some(Tree(NOP, None, true, None, None, None)), None;
    var r := if IsBinary(a.oper) then any else None;
    if CanThrow(a.left) {
      var u := ThrowingTree(a.left);
      l := Some(u);
    } else {
      var u := MatchingTree(a.left);
      l := Some(u);
      if IsBinary(a.oper) {
        var v := ThrowingTree(a.right);
        r := Some(v);
      }
    }
    t := Tree(a.oper, None, true, None, l, r);
    assert InOrder(a, t) == IllegalState;
  }

  lemma {:induction false} ThrownCan(p: Option<Pattern>, t: Tree)
    requires WellFormed(Some(t)) && Search(p, Some(t)) == IllegalState
    ensures CanThrow(p)
  {
    var a := p.value;
    var ordered := InOrder(a, t) == IllegalState;
    var l, r := if ordered then t.left else t.right, if ordered then t.right else t.left;
    if Search(a.left, l) == IllegalState {
      ThrownCan(a.left, l.value);
    } else {
      MatchedCan(a.left, l.value);
      if IsBinary(a.oper) { ThrownCan(a.right, r.value); } else { assert Search(a.right, None) == IllegalState; }
    }
  }

  predicate Throws(p: Option<Pattern>, t: Tree) { WellFormed(Some(t)) && Search(p, Some(t)) == IllegalState }

  /** Some tree makes the search end in an exception exactly when the pattern has a goal at such a place. */
  lemma NoException(p: Option<Pattern>)
    ensures CanThrow(p) <==> exists t :: Throws(p, t)
  {
    if CanThrow(p) {
      var t := ThrowingTree(p);
      assert Throws(p, t);
    }
    if t :| Throws(p, t) { ThrownCan(p, t); }
  }

  /** The search succeeds exactly when some rearrangement of the tree fits the pattern, unless it ends in an
      exception; patterns without such goals cause none. */
  lemma MatchesExactly(p: Option<Pattern>, t: Option<Tree>)
    ensures Search(p, t) == Matched <==> FitsRearranged(p, t) && Search(p, t) != IllegalState
    ensures t.Some? && WellFormed(t) && !CanThrow(p) ==> (Search(p, t) == Matched <==> FitsRearranged(p, t))
  {
    if Search(p, t) == Matched {
      var u := MatchFits(p, t);
      assert IsMatch(p, t, u);
    }
    if FitsRearranged(p, t) {
      var u :| IsMatch(p, t, u);
      FitsMatch(p, t, u);
    }
    if t.Some? && WellFormed(t) && Search(p, t) == IllegalState { ThrownCan(p, t.value); }
  }

  //---------------------------------------------------------------- the values of the goal

  function Goals(p: Option<Pattern>): nat {
    if p.None? then 0
    else
      (if p.value.isGoal then 1 else 0)
      + (if p.value.oper == ANY then 0 else Goals(p.value.left) + Goals(p.value.right))
  }

  /** The node of the tree that the search gives to the one goal; none to a goal that is a constant. */
  function GoalNode(p: Option<Pattern>, t: Option<Tree>): Option<Tree>
    requires Goals(p) == 1 && Search(p, t) == Matched
  {
    if p.value.oper == NOP then None
    else if p.value.isGoal then t
    else if p.value.oper == ANY then None
    else
      var a, b := p.value, t.value;
      if InOrder(a, b) == Matched then
        (if Goals(a.left) == 1 then GoalNode(a.left, b.left) else GoalNode(a.right, b.right))
      else
        assert OtherWayRound(a, b) == Matched;
        (if Goals(a.left) == 1 then GoalNode(a.left, b.right) else GoalNode(a.right, b.left))
  }

  /** The node that stands at the place of the goal, in a tree that fits. */
  function AtGoal(p: Option<Pattern>, u: Option<Tree>): Option<Tree>
    requires Goals(p) == 1
  {
    if p.value.oper == NOP then None
    else if p.value.isGoal then u
    else if u.None? || p.value.oper == ANY then None
    else if Goals(p.value.left) == 1 then AtGoal(p.value.left, u.value.left)
    else AtGoal(p.value.right, u.value.right)
  }

  /** Goals do not stand below constants. */
  predicate GoalsInside(p: Option<Pattern>) {
    p.Some? ==>
      && (p.value.oper == NOP || p.value.oper == ANY ==> p.value.left.None? && p.value.right.None?)
      && GoalsInside(p.value.left) && GoalsInside(p.value.right)
  }

  /** What the goal has been given is, up to order, what stands at its place in a rearrangement that fits: not what
      an ordering met that failed later. */
  lemma {:induction false} GoalNodeFits(p: Option<Pattern>, t: Option<Tree>) returns (u: Option<Tree>)
    requires Goals(p) == 1 && Search(p, t) == Matched && GoalsInside(p)
    ensures Rearranged(t, u) && Fits(p, u) && Rearranged(GoalNode(p, t), AtGoal(p, u))
  {
    if p.value.isGoal {
      u := MatchFits(p, t);
    } else {
      var a, b := p.value, t.value;
      var ordered := InOrder(a, b) == Matched;
      var tl, tr := if ordered then b.left else b.right, if ordered then b.right else b.left;
      var l, r;
      if Goals(a.left) == 1 {
        l := GoalNodeFits(a.left, tl);
        r := MatchFits(a.right, tr);
      } else {
        l := MatchFits(a.left, tl);
        r := GoalNodeFits(a.right, tr);
      }
      u := Some(b.(left := l, right := r));
    }
  }

  class SymbExpressionGoal {
    var leftValue: Number
    var rightValue: Number

    constructor ()
    {
      leftValue, rightValue := Some(0.0), Some(0.0);
    }

    method SaveValues(leftValue: Number, rightValue: Number)
      modifies this
      ensures this.leftValue == leftValue && this.rightValue == rightValue
    {
      this.leftValue, this.rightValue := leftValue, rightValue;
    }
  }

  /** The operator of the one goal. */
  function GoalOper(p: Option<Pattern>): OP
    requires Goals(p) == 1
  {
    if p.value.isGoal then p.value.oper
    else if p.value.oper == ANY then ANY
    else if Goals(p.value.left) == 1 then GoalOper(p.value.left) else GoalOper(p.value.right)
  }

  /** What a goal saves: a left and a right value. */
  type Values = (Number, Number)

  type Validator = Tree -> bool

  /** The values of the operands; of the node itself, where it has none or anything is asked for. */
  function SavedValues(oper: OP, t: Tree): Values {
    var left := if t.left.Some? then t.left.value.evaluated else None;
    var right := if t.right.Some? then t.right.value.evaluated else None;
    (if (t.left.None? && t.right.None?) || oper == ANY then t.evaluated else left, right)
  }

  method SaveCandidateValue(p: Pattern, t: Option<Tree>, goal: SymbExpressionGoal) returns (legal: bool)
    modifies goal
    ensures legal <==> (p.isGoal ==> t.Some?)
    ensures !p.isGoal ==> goal.leftValue == old(goal.leftValue) && goal.rightValue == old(goal.rightValue)
    ensures p.isGoal && legal ==> (goal.leftValue, goal.rightValue) == SavedValues(p.oper, t.value)
  {
    if p.isGoal {
      if t.None? { return false; }
      var left: Number, right: Number := None, None;
      if t.value.left.Some? { left := t.value.left.value.evaluated; }
      if t.value.right.Some? { right := t.value.right.value.evaluated; }
      if (t.value.left.None? && t.value.right.None?) || p.oper == ANY { left := t.value.evaluated; }
      goal.SaveValues(left, right);
    }
    return true;
  }

  /** Without a goal in the pattern nothing is saved; with one, after a match, the values of its node. */
  twostate predicate Saved(p: Option<Pattern>, t: Option<Tree>, goal: SymbExpressionGoal)
    reads goal
  {
    && (Goals(p) == 0 ==> goal.leftValue == old(goal.leftValue) && goal.rightValue == old(goal.rightValue))
    && (Goals(p) == 1 && Search(p, t) == Matched && GoalNode(p, t).Some? ==>
      (goal.leftValue, goal.rightValue) == SavedValues(GoalOper(p), GoalNode(p, t).value))
  }

  method Match(p: Option<Pattern>, t: Option<Tree>, goal: SymbExpressionGoal) returns (o: Outcome)
    requires GoalsInside(p)
    modifies goal
    ensures o == Search(p, t) && Saved(p, t, goal)
    decreases p, 1
  {
    if p.None? { return if t.None? then Matched else Failed; }
    var a := p.value;
    if a.oper == ANY {
      var legal := SaveCandidateValue(a, t, goal);
      return if legal then Matched else IllegalState;
    }
    if t.None? || a.oper != t.value.oper { return Failed; }
    if a.oper == NOP {
      return if Equal(a.value, t.value.value) then Matched else Failed;
    }
    var b := t.value;
    o := MatchOperands(a, b.left, b.right, goal);
    if o == Matched {
      var _ := SaveCandidateValue(a, t, goal);
      return;
    }
    if o == Failed && IsCommutative(a.oper) {
      o := MatchOperands(a, b.right, b.left, goal);
      if o == Matched {
        var _ := SaveCandidateValue(a, t, goal);
      }
    }
  }

  /** match(left, ..) && match(right, ..) */
  method MatchOperands(a: Pattern, l: Option<Tree>, r: Option<Tree>, goal: SymbExpressionGoal) returns (o: Outcome)
    requires GoalsInside(a.left) && GoalsInside(a.right)
    modifies goal
    ensures o == AndThen(Search(a.left, l), Search(a.right, r))
    ensures Goals(a.left) + Goals(a.right) == 0
      ==> goal.leftValue == old(goal.leftValue) && goal.rightValue == old(goal.rightValue)
    ensures o == Matched && Goals(a.left) == 1 && Goals(a.right) == 0 && GoalNode(a.left, l).Some? ==>
      (goal.leftValue, goal.rightValue) == SavedValues(GoalOper(a.left), GoalNode(a.left, l).value)
    ensures o == Matched && Goals(a.left) == 0 && Goals(a.right) == 1 && GoalNode(a.right, r).Some? ==>
      (goal.leftValue, goal.rightValue) == SavedValues(GoalOper(a.right), GoalNode(a.right, r).value)
    decreases a, 0
  {
    o := Match(a.left, l, goal);
    if o == Matched {
      o := Match(a.right, r, goal);
    }
  }

  /** match: the values of the goal, where the tree fits and the validator accepts it; `legal` is false for an
      exception. */
  method MatchPattern(expr: Pattern, validator: Option<Validator>, other: Tree)
      returns (values: Option<Values>, legal: bool)
    requires GoalsInside(Some(expr))
    ensures legal <==> Search(Some(expr), Some(other)) != IllegalState
    ensures legal ==> (values.Some?
      <==> FitsRearranged(Some(expr), Some(other)) && (validator.Some? ==> validator.value(other)))
    ensures values.Some? ==> Search(Some(expr), Some(other)) == Matched
    ensures values.Some? && Goals(Some(expr)) == 1 && GoalNode(Some(expr), Some(other)).Some? ==>
      values.value == SavedValues(GoalOper(Some(expr)), GoalNode(Some(expr), Some(other)).value)
  {
    var goal := new SymbExpressionGoal();
    var o := Match(Some(expr), Some(other), goal);
    values, legal := None, o != IllegalState;
    if legal { MatchesExactly(Some(expr), Some(other)); }
    if o == Matched && (validator.None? || validator.value(other)) {
      values := Some((goal.leftValue, goal.rightValue));
    }
  }
}

/** Which rearrangements of the operand stack survive the replacement of doubles. */
module StackRewriting {
  import opened Collections
  import opened OperandStack
  import opened Jvm
  import opened FloatReplacement
  import opened LocalVariables

  function Widths(ts: seq<Ty>): seq<bool> { Map(WideTy, ts) }

  predicate DoubleAt(ts: seq<Ty>, k: nat) { k < |ts| && ts[|ts| - 1 - k] == TDouble }

  /** `op` takes a double that is not on top of the stack. */
  predicate DigsUnderTop(op: StackOp, ts: seq<Ty>) {
    match PlanOn(op, Widths(ts))
    case None => false
    case Some(p) =>
      || (DoubleAt(ts, 1) && p.depth >= 2)
      || (DoubleAt(ts, 2) && p.depth >= 3)
      || (DoubleAt(ts, 3) && p.depth >= 4)
  }

  function TopOf(ts: seq<Ty>): Option<Ty> {
    if ts == [] then None else Some(ts[|ts| - 1])
  }

  /** The instruction emitted for `op` where the analyzer knows the types `ts`. */
  function RewrittenOp(op: StackOp, ts: seq<Ty>): StackOp {
    if TopOf(ts) == Some(TWrapper) then NarrowForm(op) else op
  }

  predicate PlainStack(ts: seq<Ty>) { forall t | t in ts :: t != TWrapper && t != TTop }

  /** The cells of the new stack: those of the old one, with each double narrowed. */
  lemma ImageCell(ts: seq<Ty>, k: nat)
    ensures CellAt(Widths(Map(ImageTy, ts)), k) == if DoubleAt(ts, k) then Narrow else CellAt(Widths(ts), k)
    ensures DoubleAt(ts, k) ==> CellAt(Widths(ts), k) == Broad
  {
  }

  lemma ImageCells(ts: seq<Ty>)
    ensures forall k | k in {0, 1, 2, 3} ::
      CellAt(Widths(Map(ImageTy, ts)), k) == (if DoubleAt(ts, k) then Narrow else CellAt(Widths(ts), k)) &&
      (DoubleAt(ts, k) ==> CellAt(Widths(ts), k) == Broad)
  {
    forall k | k in {0, 1, 2, 3} { ImageCell(ts, k); }
  }

  lemma TopIsDouble(ts: seq<Ty>)
    requires PlainStack(ts)
    ensures TopOf(Map(ImageTy, ts)) == Some(TWrapper) <==> DoubleAt(ts, 0)
  {
    if ts != [] { assert ts[|ts| - 1] in ts; }
  }

  /** Unless it digs under a double, the emitted instruction takes and returns the same positions. */
  lemma SamePlan(op: StackOp, ts: seq<Ty>)
    requires PlainStack(ts) && PlanOn(op, Widths(ts)).Some? && !DigsUnderTop(op, ts)
    ensures PlanOn(RewrittenOp(op, Map(ImageTy, ts)), Widths(Map(ImageTy, ts))) == PlanOn(op, Widths(ts))
  {
    hide Map;
    ImageCells(ts);
    TopIsDouble(ts);
  }

  /** Otherwise it takes more elements than the original, and its first pick is the old top or next to it. */
  lemma OtherPlan(op: StackOp, ts: seq<Ty>)
    requires PlainStack(ts) && DigsUnderTop(op, ts)
    ensures var p, p' := PlanOn(op, Widths(ts)).value,
      PlanOn(RewrittenOp(op, Map(ImageTy, ts)), Widths(Map(ImageTy, ts)));
      p'.Some? ==> p'.value.depth > p.depth && p'.value.picks != [] && p'.value.picks[0] > 0
  {
    hide Map;
    ImageCells(ts);
    TopIsDouble(ts);
  }

  function Numbered(t: Ty, n: nat): (v: Value)
    ensures t != TWrapper && t != TTop ==> TypeOf(v) == t
  {
    match t
    case TInt => Int(n)
    case TLong => Long(n)
    case TDouble => Double(n as real)
    case _ => Ref(n)
  }

  /** The values 0, 1, 2, ... with the given types. */
  function Distinct(ts: seq<Ty>): (s: seq<Value>)
    requires PlainStack(ts)
    ensures HasTypes(s, ts)
    ensures forall i, j | 0 <= i < j < |s| :: Image(s[i]) != Image(s[j])
  {
    var s := seq(|ts|, i requires 0 <= i < |ts| => Numbered(ts[i], i));
    assert forall i | 0 <= i < |s| :: TypeOf(s[i]) == ts[i] by {
      forall i | 0 <= i < |s| ensures TypeOf(s[i]) == ts[i] { assert ts[i] in ts; }
    }
    assert forall i | 0 <= i < |s| :: s[i] == Numbered(ts[i], i);
    assert Map(TypeOf, s) == ts;
    s
  }

  predicate SurvivesOn(op: StackOp, s: seq<Value>) {
    var before, after := Shuffle(op, s, Wide),
      Shuffle(RewrittenOp(op, Map(ImageTy, Map(TypeOf, s))), Map(Image, s), Wide);
    before.Some? ==> after.Some? && after.value == Map(Image, before.value)
  }

  lemma WidthsOfValues(s: seq<Value>)
    ensures Map(Wide, s) == Widths(Map(TypeOf, s))
    ensures Map(Wide, Map(Image, s)) == Widths(Map(ImageTy, Map(TypeOf, s)))
  {
  }

  lemma Survives(op: StackOp, s: seq<Value>)
    requires PlainStack(Map(TypeOf, s)) && !DigsUnderTop(op, Map(TypeOf, s))
    ensures SurvivesOn(op, s)
  {
    WidthsOfValues(s);
    if Shuffle(op, s, Wide).Some? {
      SamePlan(op, Map(TypeOf, s));
      PerformMap(Image, PlanOn(op, Map(Wide, s)).value, s);
    }
  }

  /** Under a double the emitted instruction leaves another stack, or none at all. */
  lemma DiggingFails(op: StackOp, s: seq<Value>)
    requires PlainStack(Map(TypeOf, s)) && DigsUnderTop(op, Map(TypeOf, s))
    requires forall i, j | 0 <= i < j < |s| :: Image(s[i]) != Image(s[j])
    ensures !SurvivesOn(op, s)
  {
    hide PlanFor, RewrittenOp, Map, PlainStack, Perform, CellAt;
    var ts := Map(TypeOf, s);
    WidthsOfValues(s);
    OtherPlan(op, ts);
    var p := PlanOn(op, Widths(ts)).value;
    var p' := PlanOn(RewrittenOp(op, Map(ImageTy, ts)), Widths(Map(ImageTy, ts)));
    if p'.Some? {
      // the deepest element that only the emitted instruction moves
      var at := |s| - p'.value.depth;
      assert Perform(p'.value, Map(Image, s))[at] == Map(Image, s)[at + p'.value.picks[0]];
      assert Map(Image, Perform(p, s))[at] == Image(s[at]);
    }
  }

  /** A stack instruction is rewritten correctly for every stack of a given shape exactly when it takes
      no double from under the top. */
  lemma StackExact(op: StackOp, ts: seq<Ty>)
    requires PlainStack(ts) && PlanOn(op, Widths(ts)).Some?
    ensures !DigsUnderTop(op, ts) <==> forall s | HasTypes(s, ts) :: SurvivesOn(op, s)
  {
    if DigsUnderTop(op, ts) {
      DiggingFails(op, Distinct(ts));
    } else {
      forall s | HasTypes(s, ts) ensures SurvivesOn(op, s) { Survives(op, s); }
    }
  }

  /** DUP_X2 of an int over a double stays what it is, and wants three values where there are two. */
  lemma IntOverDouble()
    ensures Shuffle(DUP_X2, [Double(1.0), Int(0)], Wide) == Some([Int(0), Double(1.0), Int(0)])
    ensures !SurvivesOn(DUP_X2, [Double(1.0), Int(0)])
  {
    var s := [Double(1.0), Int(0)];
    assert Map(TypeOf, s) == [TDouble, TInt] && Map(Wide, s) == [true, false];
    assert Perform(Plan(2, [1, 0, 1]), s) == [Int(0), Double(1.0), Int(0)];
    DiggingFails(DUP_X2, s);
  }
}

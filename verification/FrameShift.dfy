/** A body that the rewriter breaks: two double variables, a frame, and a DUP2 of the second one. */
module FrameShift {
  import opened Collections
  import opened OperandStack
  import opened Jvm
  import opened Analyzer
  import opened FloatVariablesSorter
  import opened FloatReplacement
  import opened AnalyzerTracking
  import opened Simulation

  const BEFORE_FRAME: seq<Insn> := [
    Const(Double(1.0)), Store(TDouble, 0), Const(Double(0.0)), Store(TDouble, 2)]

  const AFTER_FRAME: seq<Insn> := [Load(TDouble, 2), Stack(DUP2), Stack(POP2), Return(Some(TDouble))]

  const BODY := Method(Descriptor(false, [], Some(TDouble)),
    BEFORE_FRAME + [Frame([TDouble, TDouble], [])] + AFTER_FRAME, true)

  const TWICE: Program := map["twice" := BODY]

  /** Slots keep their numbers here: there are no parameters. */
  lemma NoParams(v: int)
    requires 0 <= v
    ensures Renumber(Params(BODY.desc), v) == v
  {
  }

  lemma EmittedHere(i: nat)
    requires i < 9 && i != 6 && i != 7
    ensures EmittedFor(BODY, i) == match i
      case 0 => [Const(Double(1.0)), InvokeWrapper(FromDouble)]
      case 1 => [Store(TRef, 0)]
      case 2 => [Const(Double(0.0)), InvokeWrapper(FromDouble)]
      case 3 => [Store(TRef, 2)]
      case 4 => [Frame([TWrapper, TWrapper], [])]
      case 5 => [Load(TRef, 2)]
      case _ => [Return(Some(TRef))]
  {
    hide Rewriting, Renumber, Params;
    NoParams(0);
    NoParams(2);
    assert Map(ImageTy, [TDouble, TDouble]) == [TWrapper, TWrapper];
  }

  /** After the frame the analyzer has both wrappers, but the second one a slot too low. */
  lemma KnownAfterFrame()
    ensures Rewriting(BODY, 5).known == Some(Analysis([], map[0 := TWrapper, 1 := TWrapper]))
  {
    hide EmittedFor, Emitted, StackTop;
    EmittedHere(4);
    KnownNext(BODY, 4);
    ObserveOne(Frame([TWrapper, TWrapper], []), Rewriting(BODY, 4).known);
    assert [TWrapper, TWrapper][1..] == [TWrapper] && [TWrapper][1..] == [];
    assert LayOutTypes([], 2) == map[] && LayOutTypes([TWrapper], 1) == map[1 := TWrapper];
    assert LayOutTypes([TWrapper, TWrapper], 0) == map[1 := TWrapper][0 := TWrapper]
      == map[0 := TWrapper, 1 := TWrapper];
  }

  lemma KnownNext(m: Method, i: nat)
    requires i < |m.code|
    ensures Rewriting(m, i + 1).known == ObserveAll(EmittedFor(m, i), Rewriting(m, i).known)
  {
  }

  /** The wrapper that ALOAD 2 pushes is unknown to the analyzer, and DUP2 stays DUP2. */
  lemma DupKept()
    ensures EmittedFor(BODY, 6) == [Stack(DUP2)]
  {
    hide Rewriting, Params, Renumber;
    EmittedHere(5);
    KnownAfterFrame();
    KnownNext(BODY, 5);
    ObserveOne(Load(TRef, 2), Rewriting(BODY, 5).known);
  }

  const REWRITTEN_BODY: seq<Insn> := [
    Const(Double(1.0)), InvokeWrapper(FromDouble), Store(TRef, 0),
    Const(Double(0.0)), InvokeWrapper(FromDouble), Store(TRef, 2),
    Frame([TWrapper, TWrapper], []), Load(TRef, 2), Stack(DUP2)]

  lemma RewrittenBody()
    ensures REWRITTEN_BODY <= RewriteMethod(BODY).code
  {
    RewritingStart(BODY);
    hide Rewriting, EmittedFor;
    for i := 0 to 7
      invariant Rewriting(BODY, i).out == REWRITTEN_BODY[..[0, 2, 3, 5, 6, 7, 8, 9][i]]
    {
      if i == 6 { DupKept(); } else { EmittedHere(i); }
      RewritingSnoc(BODY, i);
    }
    RewritingGrows(BODY, 7, 9);
  }

  lemma RewritingStart(m: Method)
    ensures Rewriting(m, 0).out == []
  {
  }

  //---------------------------------------------------------------- the verifier accepts the body

  const ONE_DOUBLE: map<int, Ty> := map[0 := TDouble]
  const TWO_DOUBLES: map<int, Ty> := map[0 := TDouble, 2 := TDouble]

  /** The types before each instruction. */
  const TYPES: seq<Option<TypeState>> := [
    Some(TypeState([], map[])), Some(TypeState([TDouble], map[])), Some(TypeState([], ONE_DOUBLE)),
    Some(TypeState([TDouble], ONE_DOUBLE)), Some(TypeState([], TWO_DOUBLES)), Some(TypeState([], TWO_DOUBLES)),
    Some(TypeState([TDouble], TWO_DOUBLES)), Some(TypeState([TDouble, TDouble], TWO_DOUBLES)),
      Some(TypeState([TDouble], TWO_DOUBLES)), None]

  lemma TypesStored()
    ensures StoreAt(map[], 0, TDouble, WideTy) == ONE_DOUBLE && StoreAt(ONE_DOUBLE, 2, TDouble, WideTy) == TWO_DOUBLES
    ensures LayOutTypes([TDouble, TDouble], 0) == TWO_DOUBLES && LayOutTypes(Params(BODY.desc), 0) == map[]
  {
    assert [TDouble, TDouble][1..] == [TDouble] && [TDouble][1..] == [];
    assert LayOutTypes([], 4) == map[] && LayOutTypes([TDouble], 2) == map[2 := TDouble];
    assert map[2 := TDouble][0 := TDouble] == TWO_DOUBLES;
  }

  lemma TypesNext(i: nat)
    requires i < 9
    ensures Analyze(BODY.code[i], TYPES[i]) == TYPES[i + 1]
  {
    hide Analyze;
    if i < 5 { FirstTypes(i); } else { LastTypes(i); }
  }

  lemma FirstTypes(i: nat)
    requires i < 5
    ensures Analyze(BODY.code[i], TYPES[i]) == TYPES[i + 1]
  {
    hide StoreAt, LayOutTypes, SignatureOf, WrapperSignature, Shuffle, Perform;
    TypesStored();
    assert [TDouble][..0] == [] && [][..0] + [TDouble] == [TDouble] == [TDouble][..1];
  }

  lemma LastTypes(i: nat)
    requires 5 <= i < 9
    ensures Analyze(BODY.code[i], TYPES[i]) == TYPES[i + 1]
  {
    hide StoreAt, LayOutTypes, SignatureOf, WrapperSignature, Shuffle, Perform;
    assert [][..0] + [TDouble] == [TDouble] == [TDouble][..1] && [TDouble][..0] == [];
    DoubledTypes();
  }

  lemma DoubledTypes()
    ensures Shuffle(DUP2, [TDouble], WideTy) == Some([TDouble, TDouble])
    ensures Shuffle(POP2, [TDouble, TDouble], WideTy) == Some([TDouble])
  {
    assert Map(WideTy, [TDouble]) == [true] && Map(WideTy, [TDouble, TDouble]) == [true, true];
    assert Perform(Plan(1, [0, 0]), [TDouble]) == [TDouble, TDouble];
    assert Perform(Plan(1, []), [TDouble, TDouble]) == [TDouble];
  }

  lemma {:induction false} TypesAre(i: nat)
    requires i <= 9
    ensures TypeAt(BODY, i) == TYPES[i]
  {
    if i == 0 {
      TypesStored();
    } else {
      hide Analyze, LayOutTypes, Params;
      TypesAre(i - 1);
      TypesNext(i - 1);
      TypeStep(BODY, i - 1);
    }
  }

  lemma AcceptsHere(i: nat)
    requires i < 9
    ensures Accepts(TWICE, BODY, i, TYPES[i].value)
  {
    hide LayOutTypes;
    TypesStored();
    assert Map(WideTy, [TDouble]) == [true] && Map(WideTy, [TDouble, TDouble]) == [true, true];
  }

  lemma BodyAccepted()
    ensures WellTyped(TWICE, BODY)
  {
    hide Accepts, TypeAt, LayOutTypes, Analyze, FindLabel;
    forall i | 0 <= i < 9
      ensures Accepts(TWICE, BODY, i, TYPES[i].value) && TypeAt(BODY, i) == TYPES[i]
    {
      TypesAre(i);
      AcceptsHere(i);
    }
    TypesAre(9);
  }

  lemma CoveredHere(i: nat)
    requires i < 9 && i != 4
    ensures Covered(TWICE, BODY, i)
  {
    hide TypeAt, LayOutTypes, Analyze;
    TypesAre(i);
    assert [TDouble, TDouble][..1] == [TDouble];
    assert Map(WideTy, [TDouble]) == [true] && Map(WideTy, [TDouble, TDouble]) == [true, true];
  }

  /** A legal body, of which the rewriter's fragment excludes the frame only. */
  lemma ShiftIsWellTyped()
    ensures WellTyped(TWICE, BODY)
    ensures forall i | 0 <= i < 9 && i != 4 :: Covered(TWICE, BODY, i)
    ensures Shifted(Params(BODY.desc), BODY.code[4].locals)
  {
    BodyAccepted();
    hide WellTyped, Covered;
    forall i | 0 <= i < 9 && i != 4 ensures Covered(TWICE, BODY, i) { CoveredHere(i); }
    assert [TDouble, TDouble][..1] == [TDouble];
  }

  //---------------------------------------------------------------- the two runs

  /** An activation of the only method, after the instructions up to `pc`. */
  function At(pc: nat, stack: seq<Value>, locals: map<int, Value>): Activation {
    Activation("twice", pc, stack, locals)
  }

  /** One instruction that goes on in the same method. */
  lemma Goes(p: Program, a: Activation, b: Activation, n: nat)
    requires a.name in p && a.pc < |p[a.name].code|
    requires Execute(p, p[a.name].code, p[a.name].code[a.pc], a) == Next(b)
    ensures Steps(p, Running([a]), n + 1) == Steps(p, Running([b]), n)
  {
    hide Execute;
    assert [] + [a] == [a] && [] + [b] == [b];
    StepOne(p, [], a);
  }

  /** A constant pushed on an empty stack, a value stored from it, a double wrapped on it. */
  lemma GoesConst(p: Program, a: Activation, c: Value, n: nat)
    requires a.name in p && a.pc < |p[a.name].code| && p[a.name].code[a.pc] == Const(c) && a.stack == []
    ensures Steps(p, Running([a]), n + 1) == Steps(p, Running([a.(pc := a.pc + 1, stack := [c])]), n)
  {
    hide Steps;
    assert [][..0] + [c] == [c];
    Goes(p, a, a.(pc := a.pc + 1, stack := [c]), n);
  }

  lemma GoesStore(p: Program, a: Activation, kind: Ty, slot: nat, x: Value, n: nat)
    requires a.name in p && a.pc < |p[a.name].code| && p[a.name].code[a.pc] == Store(kind, slot)
    requires a.stack == [x] && KindFits(kind, TypeOf(x))
    ensures Steps(p, Running([a]), n + 1)
      == Steps(p, Running([a.(pc := a.pc + 1, stack := [], locals := StoreAt(a.locals, slot, x, Wide))]), n)
  {
    hide Steps, StoreAt, KindFits;
    assert [x][..0] == [];
    Goes(p, a, a.(pc := a.pc + 1, stack := [], locals := StoreAt(a.locals, slot, x, Wide)), n);
  }

  lemma GoesWrap(p: Program, a: Activation, r: real, n: nat)
    requires a.name in p && a.pc < |p[a.name].code| && p[a.name].code[a.pc] == InvokeWrapper(FromDouble)
    requires a.stack == [Double(r)] && a.pc > 0
    ensures Steps(p, Running([a]), n + 1) == Steps(p, Running([a.(pc := a.pc + 1, stack := [Wrapper(r)])]), n)
  {
    hide Steps, Execute;
    var b := a.(pc := a.pc - 1, stack := []);
    assert [] + [Double(r)] == [Double(r)] && [][..0] + [Wrapper(r)] == [Wrapper(r)];
    WrapConstant(p, p[a.name].code, b, Double(r));
    Goes(p, a, a.(pc := a.pc + 1, stack := [Wrapper(r)]), n);
  }

  const FIRST_VALUE: map<int, Value> := map[0 := Double(1.0)]
  const BOTH_VALUES: map<int, Value> := map[0 := Double(1.0), 2 := Double(0.0)]
  const FIRST_WRAPPER: map<int, Value> := map[0 := Wrapper(1.0)]
  const BOTH_WRAPPERS: map<int, Value> := map[0 := Wrapper(1.0), 2 := Wrapper(0.0)]

  lemma Stored()
    ensures StoreAt(map[], 0, Double(1.0), Wide) == FIRST_VALUE
      && StoreAt(FIRST_VALUE, 2, Double(0.0), Wide) == BOTH_VALUES
    ensures StoreAt(map[], 0, Wrapper(1.0), Wide) == FIRST_WRAPPER
      && StoreAt(FIRST_WRAPPER, 2, Wrapper(0.0), Wide) == BOTH_WRAPPERS
    ensures Start("twice", []) == Running([At(0, [], map[])])
  {
  }

  lemma OriginalReturns()
    ensures TerminatesWith(TWICE, Start("twice", []), Some(Double(0.0)))
  {
    hide Steps, Start;
    var d := Double(0.0);
    OriginalStarts(d);
    OriginalEnds(d);
    assert Steps(TWICE, Start("twice", []), 9) == Some(Done(Some(d)));
  }

  lemma OriginalStarts(d: Value)
    requires d == Double(0.0)
    ensures Steps(TWICE, Start("twice", []), 9) == Steps(TWICE, Running([At(5, [], BOTH_VALUES)]), 4)
  {
    hide Steps, StoreAt, Start;
    Stored();
    GoesConst(TWICE, At(0, [], map[]), Double(1.0), 8);
    GoesStore(TWICE, At(1, [Double(1.0)], map[]), TDouble, 0, Double(1.0), 7);
    GoesConst(TWICE, At(2, [], FIRST_VALUE), d, 6);
    GoesStore(TWICE, At(3, [d], FIRST_VALUE), TDouble, 2, d, 5);
    Goes(TWICE, At(4, [], BOTH_VALUES), At(5, [], BOTH_VALUES), 4);
  }

  lemma GoesStack(p: Program, a: Activation, op: StackOp, after: seq<Value>, n: nat)
    requires a.name in p && a.pc < |p[a.name].code| && p[a.name].code[a.pc] == Stack(op)
    requires Shuffle(op, a.stack, Wide) == Some(after)
    ensures Steps(p, Running([a]), n + 1) == Steps(p, Running([a.(pc := a.pc + 1, stack := after)]), n)
  {
    hide Steps, Shuffle;
    Goes(p, a, a.(pc := a.pc + 1, stack := after), n);
  }

  lemma DoubledValue(d: Value)
    requires d.Double?
    ensures Shuffle(DUP2, [d], Wide) == Some([d, d]) && Shuffle(POP2, [d, d], Wide) == Some([d])
  {
    assert Map(Wide, [d]) == [true] && Map(Wide, [d, d]) == [true, true];
    assert Perform(Plan(1, [0, 0]), [d]) == [d, d];
    assert Perform(Plan(1, []), [d, d]) == [d];
  }

  lemma OriginalEnds(d: Value)
    requires d == Double(0.0)
    ensures Steps(TWICE, Running([At(5, [], BOTH_VALUES)]), 4) == Some(Done(Some(d)))
  {
    hide Steps, Shuffle;
    DoubledValue(d);
    assert [][..0] + [d] == [d];
    Goes(TWICE, At(5, [], BOTH_VALUES), At(6, [d], BOTH_VALUES), 3);
    GoesStack(TWICE, At(6, [d], BOTH_VALUES), DUP2, [d, d], 2);
    GoesStack(TWICE, At(7, [d, d], BOTH_VALUES), POP2, [d], 1);
    assert [] + [At(8, [d], BOTH_VALUES)] == [At(8, [d], BOTH_VALUES)];
    StepOne(TWICE, [], At(8, [d], BOTH_VALUES));
  }

  predicate RunsRewritten(q: Program) {
    "twice" in q && REWRITTEN_BODY <= q["twice"].code
  }

  lemma RewrittenStarts(q: Program, w: Value)
    requires RunsRewritten(q) && w == Wrapper(0.0)
    ensures Steps(q, Start("twice", []), 8) == Steps(q, Running([At(6, [], BOTH_WRAPPERS)]), 2)
  {
    hide Steps, StoreAt, Start;
    Stored();
    StoresWrapped(q, 0, 1.0, 0, map[], FIRST_WRAPPER, 5);
    StoresWrapped(q, 3, 0.0, 2, FIRST_WRAPPER, BOTH_WRAPPERS, 2);
  }

  /** Three rewritten instructions: a constant, wrapped, and stored. */
  lemma StoresWrapped(q: Program, pc: nat, r: real, slot: nat, before: map<int, Value>, after: map<int, Value>, n: nat)
    requires RunsRewritten(q) && (pc, r, slot) in {(0, 1.0, 0), (3, 0.0, 2)}
    requires after == StoreAt(before, slot, Wrapper(r), Wide)
    ensures Steps(q, Running([At(pc, [], before)]), n + 3) == Steps(q, Running([At(pc + 3, [], after)]), n)
  {
    hide Steps, StoreAt;
    var code := q["twice"].code;
    assert code[pc] == REWRITTEN_BODY[pc] && code[pc + 1] == REWRITTEN_BODY[pc + 1]
      && code[pc + 2] == REWRITTEN_BODY[pc + 2];
    GoesConst(q, At(pc, [], before), Double(r), n + 2);
    GoesWrap(q, At(pc + 1, [Double(r)], before), r, n + 1);
    GoesStore(q, At(pc + 2, [Wrapper(r)], before), TRef, slot, Wrapper(r), n);
  }

  lemma RewrittenEnds(q: Program, w: Value)
    requires RunsRewritten(q) && w == Wrapper(0.0)
    ensures Steps(q, Running([At(6, [], BOTH_WRAPPERS)]), 2) == Some(Running([At(8, [w], BOTH_WRAPPERS)]))
    ensures Step(q, Running([At(8, [w], BOTH_WRAPPERS)])) == None
  {
    hide Steps;
    var code := q["twice"].code;
    assert code[6] == REWRITTEN_BODY[6] && code[7] == REWRITTEN_BODY[7] && code[8] == REWRITTEN_BODY[8];
    Goes(q, At(6, [], BOTH_WRAPPERS), At(7, [], BOTH_WRAPPERS), 1);
    Goes(q, At(7, [], BOTH_WRAPPERS), At(8, [w], BOTH_WRAPPERS), 0);
    StepsNone(q, Running([At(8, [w], BOTH_WRAPPERS)]));
    assert Map(Wide, [w]) == [false];
    assert [] + [At(8, [w], BOTH_WRAPPERS)] == [At(8, [w], BOTH_WRAPPERS)];
    StepOne(q, [], At(8, [w], BOTH_WRAPPERS));
  }

  /** The rewritten run stops before the two-slot DUP2 of a one-slot reference. */
  lemma RewrittenStops()
    ensures var q := RewriteProgram(TWICE);
      Steps(q, Start("twice", []), 8) == Some(Running([At(8, [Wrapper(0.0)], BOTH_WRAPPERS)])) &&
      Step(q, Running([At(8, [Wrapper(0.0)], BOTH_WRAPPERS)])) == None
  {
    hide Steps, Step, Start, Rewriting;
    RewrittenBody();
    var q := RewriteProgram(TWICE);
    RewrittenStarts(q, Wrapper(0.0));
    RewrittenEnds(q, Wrapper(0.0));
  }

  lemma StepsNone(p: Program, s: State)
    ensures Steps(p, s, 0) == Some(s)
  {
  }

  /** The original returns a value; the rewritten program never returns anything. */
  lemma FrameBreaksRewriting()
    ensures TerminatesWith(TWICE, Start("twice", []), Some(Double(0.0)))
    ensures forall r :: !TerminatesWith(RewriteProgram(TWICE), Start("twice", []), r)
  {
    hide Steps, Step, Start;
    OriginalReturns();
    RewrittenStops();
    var q, s := RewriteProgram(TWICE), Start("twice", []);
    forall r
      ensures !TerminatesWith(q, s, r)
    {
      if TerminatesWith(q, s, r) {
        var n :| Steps(q, s, n) == Some(Done(r));
        DoneStops(q, r);
        LastIsUnique(q, s, 8, n);
      }
    }
  }
}

/** A body that the rewriter breaks: a long below a double variable, and a proxied call. */
module LongLocals {
  import opened Collections
  import opened OperandStack
  import opened Opcodes
  import opened Jvm
  import opened Analyzer
  import opened AnalyzerSlots
  import opened FloatVariablesSorter
  import opened FloatReplacement
  import opened AnalyzerTracking
  import opened Simulation
  import FrameShift
  import VirtualCalls

  const ZERO := Descriptor(true, [], Some(TDouble))

  const ZERO_METHOD := Method(ZERO, [Const(Double(0.0)), Return(Some(TDouble))], true)

  /** Calls zero, drops the result, and returns its last argument, doubled and dropped in between. */
  const KEEP := Method(
    Descriptor(false, [TRef, TLong, TDouble], Some(TDouble)),
    [Load(TRef, 0), Invoke(INVOKEVIRTUAL, "zero", ZERO), Stack(POP2), Load(TDouble, 3), Stack(DUP2), Stack(POP2),
      Return(Some(TDouble))],
    true)

  const KEEPS: Program := map["keep" := KEEP, "zero" := ZERO_METHOD]

  //---------------------------------------------------------------- what the analyzer knows

  const WITH_LONG: map<int, Ty> := map[0 := TRef, 1 := TLong, 3 := TWrapper]
  const MOVED: map<int, Ty> := map[0 := TRef, 1 := TLong, 4 := TWrapper]

  lemma BelowLong()
    ensures WideBelow(WITH_LONG, 0) == {} && WideBelow(WITH_LONG, 1) == {} && WideBelow(WITH_LONG, 3) == {1}
  {
  }

  lemma LongShifts()
    ensures Shift(WITH_LONG, 0) == 0 && Shift(WITH_LONG, 1) == 1 && Shift(WITH_LONG, 3) == 4
  {
    hide WideBelow;
    BelowLong();
  }

  lemma WrapperMoved()
    ensures Relocated(WITH_LONG) == MOVED
  {
    hide Shift;
    LongShifts();
    ShiftGrows(WITH_LONG);
    var moved := Relocated(WITH_LONG);
    assert 0 in WITH_LONG && 1 in WITH_LONG && 3 in WITH_LONG;
    assert moved[0] == TRef && moved[1] == TLong && moved[4] == TWrapper;
    assert forall v | v in WITH_LONG :: v == 0 || v == 1 || v == 3;
    assert moved.Keys == {0, 1, 4};
  }

  lemma ZeroImage()
    ensures Params(ImageDescriptor(ZERO)) == [TRef] && Maybe(ImageDescriptor(ZERO).ret) == [TWrapper]
    ensures Slots([]) == [] && Slots([TRef]) == [TRef] && Slots([TWrapper]) == [TWrapper]
  {
    assert [TRef][..0] == [] && [TWrapper][..0] == [] && [] + [TRef] == [TRef];
  }

  /** After the call ALOAD 3 pushes the wrapper, but the analyzer has it in slot 4, and a DUP2 of it stays as it is. */
  lemma LongHidesWrapper()
    ensures var after := Observe(InvokeProxied("zero", ZERO), Some(Analysis([TRef], WITH_LONG)));
      && after == Some(Analysis([TWrapper], MOVED))
      && Replacement(Stack(DUP2), StackTop(Observe(Load(TRef, 3), after))) == [Stack(DUP2)]
  {
    hide Relocated, Slots, ImageDescriptor, Params;
    ZeroImage();
    WrapperMoved();
    assert [TRef][..0] == [] && [] + [TWrapper] == [TWrapper];
  }

  //---------------------------------------------------------------- the rewritten code

  const REWRITTEN_KEEP: seq<Insn> := [
    Load(TRef, 0), InvokeProxied("zero", ZERO), Stack(POP), Load(TRef, 3), Stack(DUP2)]

  /** What is known before each of these instructions. */
  const KNOWN: seq<Analysis> := [
    Analysis([], WITH_LONG), Analysis([TRef], WITH_LONG), Analysis([TWrapper], MOVED), Analysis([], MOVED),
    Analysis([TTop], MOVED)]

  lemma StartKnown()
    ensures Rewriting(KEEP, 0).known == Some(KNOWN[0])
  {
    hide LayOutTypes, Map;
    var ts := Params(KEEP.desc);
    assert ts == [TRef, TLong, TDouble];
    assert Map(ImageTy, ts) == [TRef, TLong, TWrapper] by { ImageOfThree(TRef, TLong, TDouble); }
    LaidOut(TWrapper);
  }

  lemma ImageOfThree(x: Ty, y: Ty, z: Ty)
    ensures Map(ImageTy, [x, y, z]) == [ImageTy(x), ImageTy(y), ImageTy(z)]
  {
  }

  lemma LaidOut(t: Ty)
    requires t != TTop
    ensures LayOutTypes([TRef, TLong, t], 0) == map[0 := TRef, 1 := TLong, 3 := t]
  {
    assert [TRef, TLong, t][1..] == [TLong, t] && [TLong, t][1..] == [t] && [t][1..] == [];
    assert LayOutTypes([t][1..], 3 + Size(t)) == map[];
    assert LayOutTypes([t], 3) == map[3 := t];
    assert LayOutTypes([TLong, t], 1) == map[1 := TLong, 3 := t];
  }

  /** The parameters keep their numbers: the double is the last one. */
  lemma Numbers()
    ensures Renumber(Params(KEEP.desc), 0) == 0 && Renumber(Params(KEEP.desc), 3) == 3
  {
    var ts := Params(KEEP.desc);
    assert ts == [TRef, TLong, TDouble];
    assert ts[..0] == [] && ts[..1] == [TRef] && ts[..2] == [TRef, TLong];
    assert NewSize([]) == OldSize([]) == 0 && NewSize([TRef]) == OldSize([TRef]) == 1;
    assert [TRef, TLong][1..] == [TLong] && NewSize([TLong]) == OldSize([TLong]) == 2;
    ParamAtStart(ts, 0);
    ParamAtStart(ts, 2);
  }

  lemma EmittedInKeep(i: nat)
    requires i < 5 && Rewriting(KEEP, i).known == Some(KNOWN[i])
    ensures EmittedFor(KEEP, i) == [REWRITTEN_KEEP[i]]
  {
    hide Rewriting, Renumber, Params;
    Numbers();
    assert MentionsDouble(ZERO);
  }

  lemma ObservedInKeep(i: nat)
    requires i < 4
    ensures Observe(REWRITTEN_KEEP[i], Some(KNOWN[i])) == Some(KNOWN[i + 1])
  {
    hide ObserveProxied, Slots, ImageDescriptor, Params, Relocated;
    ZeroImage();
    LongHidesWrapper();
    assert Shuffle(POP, [TWrapper], OneSlot) == Some([]) by { Popped(TWrapper); }
    assert [] + [TRef] == [TRef] && [] + [TTop] == [TTop];
  }

  lemma Popped(t: Ty)
    ensures Shuffle(POP, [t], OneSlot) == Some([])
  {
    assert Map(OneSlot, [t]) == [false];
    assert Perform(Plan(1, []), [t]) == [];
  }

  lemma {:induction false} KeepRewritten(i: nat)
    requires i <= 4
    ensures Rewriting(KEEP, i) == Progress(REWRITTEN_KEEP[..i], Some(KNOWN[i]))
  {
    hide EmittedFor, Observe, Rewriting, ObserveAll;
    if i == 0 {
      StartKnown();
      FrameShift.RewritingStart(KEEP);
    } else {
      KeepRewritten(i - 1);
      EmittedInKeep(i - 1);
      ObservedInKeep(i - 1);
      RewritingSnoc(KEEP, i - 1);
      FrameShift.KnownNext(KEEP, i - 1);
      ObserveOne(REWRITTEN_KEEP[i - 1], Some(KNOWN[i - 1]));
      assert REWRITTEN_KEEP[..i] == REWRITTEN_KEEP[..i - 1] + [REWRITTEN_KEEP[i - 1]];
    }
  }

  lemma KeepCode()
    ensures REWRITTEN_KEEP <= RewriteMethod(KEEP).code
  {
    KeepRewritten(4);
    EmittedInKeep(4);
    RewritingSnoc(KEEP, 4);
    hide Rewriting;
    RewritingGrows(KEEP, 5, 7);
  }

  const REWRITTEN_ZERO: seq<Insn> := [Const(Double(0.0)), InvokeWrapper(FromDouble), Return(Some(TRef))]

  lemma ZeroCode()
    ensures RewriteMethod(ZERO_METHOD).code == REWRITTEN_ZERO
  {
    hide Rewriting;
    RewritingSnoc(ZERO_METHOD, 0);
    RewritingSnoc(ZERO_METHOD, 1);
    FrameShift.RewritingStart(ZERO_METHOD);
  }

  //---------------------------------------------------------------- the verifier accepts the program

  const LOCALS: map<int, Ty> := map[0 := TRef, 1 := TLong, 3 := TDouble]

  /** The types before each instruction. */
  const TYPES: seq<Option<TypeState>> := [
    Some(TypeState([], LOCALS)), Some(TypeState([TRef], LOCALS)), Some(TypeState([TDouble], LOCALS)),
    Some(TypeState([], LOCALS)), Some(TypeState([TDouble], LOCALS)), Some(TypeState([TDouble, TDouble], LOCALS)),
    Some(TypeState([TDouble], LOCALS)), None]

  lemma StartTypes()
    ensures TypeAt(KEEP, 0) == TYPES[0]
  {
    hide LayOutTypes;
    assert Params(KEEP.desc) == [TRef, TLong, TDouble];
    LaidOut(TDouble);
  }

  lemma TypesNext(i: nat)
    requires i < 7
    ensures Analyze(KEEP.code[i], TYPES[i]) == TYPES[i + 1]
  {
    hide StoreAt, LayOutTypes, SignatureOf, WrapperSignature, Shuffle, Perform;
    assert [][..0] + [TRef] == [TRef] && [][..0] + [TDouble] == [TDouble] && [TRef][..0] + [TDouble] == [TDouble];
    assert Params(ZERO) == [TRef];
    FrameShift.DoubledTypes();
    DroppedDouble();
  }

  lemma DroppedDouble()
    ensures Shuffle(POP2, [TDouble], WideTy) == Some([])
  {
    assert Map(WideTy, [TDouble]) == [true];
    assert Perform(Plan(1, []), [TDouble]) == [];
  }

  lemma {:induction false} TypesAre(i: nat)
    requires i <= 7
    ensures TypeAt(KEEP, i) == TYPES[i]
  {
    hide Analyze, LayOutTypes, Params;
    if i == 0 {
      StartTypes();
    } else {
      TypesAre(i - 1);
      TypesNext(i - 1);
      TypeStep(KEEP, i - 1);
    }
  }

  lemma AcceptsHere(i: nat)
    requires i < 7
    ensures Accepts(KEEPS, KEEP, i, TYPES[i].value)
  {
    hide LayOutTypes, Shuffle;
    FrameShift.DoubledTypes();
    DroppedDouble();
    assert Params(ZERO) == [TRef];
  }

  lemma KeepAccepted()
    ensures WellTyped(KEEPS, KEEP)
  {
    hide Accepts, TypeAt, LayOutTypes, Analyze, FindLabel;
    forall i | 0 <= i < 7
      ensures Accepts(KEEPS, KEEP, i, TYPES[i].value) && TypeAt(KEEP, i) == TYPES[i]
    {
      TypesAre(i);
      AcceptsHere(i);
    }
    TypesAre(7);
  }

  lemma CoveredHere(i: nat)
    requires i < 7 && i != 1
    ensures Covered(KEEPS, KEEP, i)
  {
    hide TypeAt, LayOutTypes, Analyze;
    TypesAre(i);
    assert [TDouble, TDouble][..1] == [TDouble];
    assert Map(WideTy, [TDouble]) == [true] && Map(WideTy, [TDouble, TDouble]) == [true, true];
  }

  /** A legal body that calls a public method; the fragment excludes it only for what the analyzer loses. */
  lemma KeepIsWellTyped()
    ensures WellTyped(KEEPS, KEEP) && KEEPS["zero"].isPublic
    ensures forall i | 0 <= i < 7 && i != 1 :: Covered(KEEPS, KEEP, i)
    ensures Rewriting(KEEP, 1).known.Some? && !NoWideBelow(Rewriting(KEEP, 1).known.value.locals)
  {
    KeepAccepted();
    hide WellTyped, Covered, Rewriting;
    forall i | 0 <= i < 7 && i != 1 ensures Covered(KEEPS, KEEP, i) { CoveredHere(i); }
    KeepRewritten(1);
    assert 1 in WITH_LONG && 3 in WITH_LONG;
  }

  //---------------------------------------------------------------- the two runs

  function InKeep(pc: nat, stack: seq<Value>, locals: map<int, Value>): Activation {
    Activation("keep", pc, stack, locals)
  }

  function InZero(pc: nat, stack: seq<Value>, target: Value): Activation {
    Activation("zero", pc, stack, map[0 := target])
  }

  function LocalsOf(target: Value, n: int, d: Value): map<int, Value> { map[0 := target, 1 := Long(n), 3 := d] }

  /** One instruction that goes on in the same method. */
  lemma Goes(p: Program, below: seq<Activation>, a: Activation, b: Activation, n: nat)
    requires a.name in p && a.pc < |p[a.name].code|
    requires Execute(p, p[a.name].code, p[a.name].code[a.pc], a) == Next(b)
    ensures Steps(p, Running(below + [a]), n + 1) == Steps(p, Running(below + [b]), n)
  {
    hide Execute;
    StepOne(p, below, a);
  }

  lemma Starts(p: Program, target: Value, n: int, d: Value)
    requires target.Ref?
    ensures Start("keep", [target, Long(n), d]) == Running([InKeep(0, [], LocalsOf(target, n, d))])
    ensures LayOut([target], 0) == map[0 := target]
  {
    assert [target, Long(n), d][1..] == [Long(n), d] && [Long(n), d][1..] == [d] && [d][1..] == [];
    assert LayOut([d][1..], 3 + Size(TypeOf(d))) == map[] == LayOut([target][1..], 1);
    assert LayOut([d], 3) == map[3 := d];
    assert LayOut([Long(n), d], 1) == map[1 := Long(n), 3 := d];
    assert LayOut([target, Long(n), d], 0) == LocalsOf(target, n, d);
  }

  lemma Calls(p: Program, a: Activation, c: Activation, name: string, args: seq<Value>, n: nat)
    requires a.name in p && a.pc < |p[a.name].code|
    requires Execute(p, p[a.name].code, p[a.name].code[a.pc], a) == Call(c, name, args)
    ensures Steps(p, Running([a]), n + 1) == Steps(p, Running([c, Activation(name, 0, [], LayOut(args, 0))]), n)
  {
    hide Execute, LayOut;
    var b := Activation(name, 0, [], LayOut(args, 0));
    assert [] + [a] == [a] && [] + [c] + [b] == [c, b];
    StepOne(p, [], a);
  }

  lemma Returns(p: Program, c: Activation, a: Activation, r: Value, n: nat)
    requires a.name in p && a.pc < |p[a.name].code|
    requires Execute(p, p[a.name].code, p[a.name].code[a.pc], a) == Leave(Some(r))
    ensures Steps(p, Running([c, a]), n + 1) == Steps(p, Running([c.(stack := c.stack + [r])]), n)
  {
    hide Execute;
    assert [c] + [a] == [c, a] && [c][..0] + [c.(stack := c.stack + [r])] == [c.(stack := c.stack + [r])];
    StepOne(p, [c], a);
  }

  lemma Loads(p: Program, code: seq<Insn>, kind: Ty, slot: nat, a: Activation)
    requires slot in a.locals && KindFits(kind, TypeOf(a.locals[slot])) && a.stack == []
    ensures Execute(p, code, Load(kind, slot), a) == Next(a.(pc := a.pc + 1, stack := [a.locals[slot]]))
  {
    assert [][..0] + [a.locals[slot]] == [a.locals[slot]];
  }

  lemma OneReference(target: Value)
    requires target.Ref?
    ensures TopHas([target], [TRef]) && [target][0..] == [target] && [target][..0] == []
  {
    assert [target][0..] == [target] && Map(TypeOf, [target]) == [TRef];
  }

  lemma OriginalCalls(target: Value, L: map<int, Value>)
    requires target.Ref?
    ensures Execute(KEEPS, KEEP.code, KEEP.code[1], InKeep(1, [target], L)) == Call(InKeep(2, [], L), "zero", [target])
  {
    hide Execute, TopHas;
    OneReference(target);
    assert Params(ZERO) == [TRef];
    hide Params;
    OriginalCall(KEEPS, KEEP.code, InKeep(1, [target], L), INVOKEVIRTUAL, "zero", ZERO);
  }

  lemma OriginalStarts(target: Value, n: int, d: Value)
    requires target.Ref? && d.Double?
    ensures var L := LocalsOf(target, n, d);
      Steps(KEEPS, Start("keep", [target, Long(n), d]), 9) == Steps(KEEPS, Running([InKeep(2, [Double(0.0)], L)]), 5)
  {
    hide Steps, Start, LayOut, Execute;
    var p, L, z := KEEPS, LocalsOf(target, n, d), Double(0.0);
    Starts(p, target, n, d);
    Loads(p, KEEP.code, TRef, 0, InKeep(0, [], L));
    FrameShift.Goes(p, InKeep(0, [], L), InKeep(1, [target], L), 8);
    OriginalCalls(target, L);
    Calls(p, InKeep(1, [target], L), InKeep(2, [], L), "zero", [target], 7);
    ZeroPushes(p, ZERO_METHOD.code, InZero(0, [], target));
    assert [InKeep(2, [], L)] + [InZero(0, [], target)] == [InKeep(2, [], L), InZero(0, [], target)];
    assert [InKeep(2, [], L)] + [InZero(1, [z], target)] == [InKeep(2, [], L), InZero(1, [z], target)];
    Goes(p, [InKeep(2, [], L)], InZero(0, [], target), InZero(1, [z], target), 6);
    VirtualCalls.ReturnsDouble(p, ZERO_METHOD.code, InZero(1, [z], target), z);
    Returns(p, InKeep(2, [], L), InZero(1, [z], target), z, 5);
    assert [] + [z] == [z];
  }

  lemma ZeroPushes(p: Program, code: seq<Insn>, a: Activation)
    requires a.stack == []
    ensures Execute(p, code, Const(Double(0.0)), a) == Next(a.(pc := a.pc + 1, stack := [Double(0.0)]))
  {
    assert [][..0] + [Double(0.0)] == [Double(0.0)];
  }

  lemma Dropped(d: Value)
    requires d.Double?
    ensures Shuffle(POP2, [d], Wide) == Some([])
  {
    assert Map(Wide, [d]) == [true];
    assert Perform(Plan(1, []), [d]) == [];
  }

  lemma OriginalEnds(target: Value, n: int, d: Value)
    requires target.Ref? && d.Double?
    ensures Steps(KEEPS, Running([InKeep(2, [Double(0.0)], LocalsOf(target, n, d))]), 5) == Some(Done(Some(d)))
  {
    hide Steps, Shuffle, Execute;
    var p, L, z := KEEPS, LocalsOf(target, n, d), Double(0.0);
    Dropped(z);
    FrameShift.DoubledValue(d);
    FrameShift.GoesStack(p, InKeep(2, [z], L), POP2, [], 4);
    Loads(p, KEEP.code, TDouble, 3, InKeep(3, [], L));
    FrameShift.Goes(p, InKeep(3, [], L), InKeep(4, [d], L), 3);
    FrameShift.GoesStack(p, InKeep(4, [d], L), DUP2, [d, d], 2);
    FrameShift.GoesStack(p, InKeep(5, [d, d], L), POP2, [d], 1);
    VirtualCalls.ReturnsDouble(p, KEEP.code, InKeep(6, [d], L), d);
    assert [] + [InKeep(6, [d], L)] == [InKeep(6, [d], L)];
    StepOne(p, [], InKeep(6, [d], L));
  }

  //---------------------------------------------------------------- the rewritten run

  predicate RunsRewritten(q: Program) {
    && "keep" in q && REWRITTEN_KEEP <= q["keep"].code
    && "zero" in q && q["zero"] == Method(ImageDescriptor(ZERO), REWRITTEN_ZERO, true)
  }

  lemma ProgramRewritten()
    ensures RunsRewritten(RewriteProgram(KEEPS))
  {
    hide Rewriting, ImageDescriptor;
    KeepCode();
    ZeroCode();
  }

  lemma FetchKeep(q: Program, pc: nat)
    requires RunsRewritten(q) && pc < 5
    ensures "keep" in q && pc < |q["keep"].code| && q["keep"].code[pc] == REWRITTEN_KEEP[pc]
  {
  }

  lemma ProxyCalls(q: Program, target: Value, L: map<int, Value>)
    requires RunsRewritten(q) && target.Ref?
    ensures Execute(q, q["keep"].code, InvokeProxied("zero", ZERO), InKeep(1, [target], L))
      == Call(InKeep(2, [], L), "zero", [target])
  {
    hide ImageDescriptor, Params, TopHas;
    ZeroImage();
    OneReference(target);
  }

  lemma ReturnsReference(p: Program, code: seq<Insn>, a: Activation, w: Value)
    requires w.Wrapper? && a.stack == [w]
    ensures Execute(p, code, Return(Some(TRef)), a) == Leave(Some(w))
  {
  }

  lemma ZeroWraps(q: Program, a: Activation)
    requires a.pc > 0 && a.stack == [Double(0.0)]
    ensures Execute(q, REWRITTEN_ZERO, InvokeWrapper(FromDouble), a)
      == Next(a.(pc := a.pc + 1, stack := [Wrapper(0.0)]))
  {
    hide Execute;
    assert [] + [Double(0.0)] == [Double(0.0)] && [][..0] + [Wrapper(0.0)] == [Wrapper(0.0)];
    WrapConstant(q, REWRITTEN_ZERO, a.(pc := a.pc - 1, stack := []), Double(0.0));
  }

  lemma ZeroRuns(q: Program, c: Activation, target: Value, n: nat)
    requires RunsRewritten(q) && c.stack == []
    ensures Steps(q, Running([c, InZero(0, [], target)]), n + 3)
      == Steps(q, Running([c.(stack := [Wrapper(0.0)])]), n)
  {
    hide Steps, Execute, ImageDescriptor;
    var z, w := Double(0.0), Wrapper(0.0);
    ZeroPushes(q, REWRITTEN_ZERO, InZero(0, [], target));
    Goes(q, [c], InZero(0, [], target), InZero(1, [z], target), n + 2);
    ZeroWraps(q, InZero(1, [z], target));
    Goes(q, [c], InZero(1, [z], target), InZero(2, [w], target), n + 1);
    ReturnsReference(q, REWRITTEN_ZERO, InZero(2, [w], target), w);
    Returns(q, c, InZero(2, [w], target), w, n);
    assert [] + [w] == [w];
    forall pc, stack ensures [c] + [InZero(pc, stack, target)] == [c, InZero(pc, stack, target)] {}
  }

  lemma RewrittenStarts(q: Program, target: Value, n: int, w: Value)
    requires RunsRewritten(q) && target.Ref? && w.Wrapper?
    ensures var L := LocalsOf(target, n, w);
      Steps(q, Start("keep", [target, Long(n), w]), 7) == Steps(q, Running([InKeep(2, [Wrapper(0.0)], L)]), 2)
  {
    hide Steps, Start, LayOut, Execute, RunsRewritten;
    var L := LocalsOf(target, n, w);
    Starts(q, target, n, w);
    FetchKeep(q, 0);
    FetchKeep(q, 1);
    Loads(q, q["keep"].code, TRef, 0, InKeep(0, [], L));
    FrameShift.Goes(q, InKeep(0, [], L), InKeep(1, [target], L), 6);
    ProxyCalls(q, target, L);
    Calls(q, InKeep(1, [target], L), InKeep(2, [], L), "zero", [target], 5);
    ZeroRuns(q, InKeep(2, [], L), target, 2);
  }

  lemma NarrowValue(w: Value)
    requires w.Wrapper?
    ensures Shuffle(POP, [w], Wide) == Some([]) && Shuffle(DUP2, [w], Wide) == None
  {
    assert Map(Wide, [w]) == [false];
    assert Perform(Plan(1, []), [w]) == [];
  }

  lemma RewrittenEnds(q: Program, target: Value, n: int, w: Value)
    requires RunsRewritten(q) && w.Wrapper?
    ensures var L := LocalsOf(target, n, w);
      Steps(q, Running([InKeep(2, [Wrapper(0.0)], L)]), 2) == Some(Running([InKeep(4, [w], L)])) &&
      Step(q, Running([InKeep(4, [w], L)])) == None
  {
    hide Steps, Shuffle, RunsRewritten;
    var L, z := LocalsOf(target, n, w), Wrapper(0.0);
    FetchKeep(q, 2);
    FetchKeep(q, 3);
    FetchKeep(q, 4);
    NarrowValue(z);
    NarrowValue(w);
    FrameShift.GoesStack(q, InKeep(2, [z], L), POP, [], 1);
    Loads(q, q["keep"].code, TRef, 3, InKeep(3, [], L));
    FrameShift.Goes(q, InKeep(3, [], L), InKeep(4, [w], L), 0);
    FrameShift.StepsNone(q, Running([InKeep(4, [w], L)]));
    assert [] + [InKeep(4, [w], L)] == [InKeep(4, [w], L)];
    StepOne(q, [], InKeep(4, [w], L));
  }

  /** Called with the same arguments, the original returns its double and the rewritten program never returns anything:
      its run stops at the DUP2 that was not replaced. */
  lemma LongBreaksRewriting(target: Value, n: int, r: real)
    requires target.Ref?
    ensures TerminatesWith(KEEPS, Start("keep", [target, Long(n), Double(r)]), Some(Double(r)))
    ensures forall x :: !TerminatesWith(RewriteProgram(KEEPS), Start("keep", [target, Long(n), Wrapper(r)]), x)
  {
    hide Steps, Step, Start, LocalsOf, InKeep;
    OriginalStarts(target, n, Double(r));
    OriginalEnds(target, n, Double(r));
    assert Steps(KEEPS, Start("keep", [target, Long(n), Double(r)]), 9) == Some(Done(Some(Double(r))));
    ProgramRewritten();
    var q, s := RewriteProgram(KEEPS), Start("keep", [target, Long(n), Wrapper(r)]);
    RewrittenStarts(q, target, n, Wrapper(r));
    RewrittenEnds(q, target, n, Wrapper(r));
    forall x ensures !TerminatesWith(q, s, x) {
      if TerminatesWith(q, s, x) {
        var k :| Steps(q, s, k) == Some(Done(x));
        DoneStops(q, x);
        LastIsUnique(q, s, 7, k);
      }
    }
  }
}

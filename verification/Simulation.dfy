/** Running the rewritten program against running the original one. */
module Simulation {
  import opened Collections
  import opened OperandStack
  import opened Opcodes
  import opened Reals
  import opened WrapperBasic
  import opened Jvm
  import opened Analyzer
  import opened FloatVariablesSorter
  import opened FloatReplacement
  import opened StackRewriting
  import opened LocalVariables
  import opened AnalyzerTracking

  ghost predicate Rewritable(p: Program) {
    forall f | f in p :: WellTyped(p, p[f]) && InFragment(p, p[f])
  }

  //---------------------------------------------------------------- where the code of an instruction is

  function EmittedFor(m: Method, i: nat): (r: seq<Insn>)
    requires i < |m.code|
    ensures 1 <= |r| <= 2
  {
    Emitted(Params(m.desc), m.code[i], StackTop(Rewriting(m, i).known))
  }

  lemma {:induction false} RewritingGrows(m: Method, i: nat, n: nat)
    requires i <= n <= |m.code|
    ensures Rewriting(m, i).out <= Rewriting(m, n).out
    decreases n - i
  {
    hide Emitted;
    if i < n {
      RewritingGrows(m, i, n - 1);
      assert Rewriting(m, n).out == Rewriting(m, n - 1).out + EmittedFor(m, n - 1);
    }
  }

  lemma Fetch(m: Method, i: nat)
    requires i < |m.code|
    ensures Offset(m, i + 1) == Offset(m, i) + |EmittedFor(m, i)| <= |RewriteMethod(m).code|
    ensures forall k | 0 <= k < |EmittedFor(m, i)| :: RewriteMethod(m).code[Offset(m, i) + k] == EmittedFor(m, i)[k]
  {
    hide Emitted;
    RewritingGrows(m, i + 1, |m.code|);
    var before, after := Rewriting(m, i).out, Rewriting(m, i + 1).out;
    assert after == before + EmittedFor(m, i);
    forall k | 0 <= k < |EmittedFor(m, i)|
      ensures RewriteMethod(m).code[Offset(m, i) + k] == EmittedFor(m, i)[k]
    {
      assert RewriteMethod(m).code[|before| + k] == after[|before| + k];
    }
  }

  lemma {:induction false} FindLabelAppend(c: seq<Insn>, d: seq<Insn>, l: nat)
    ensures FindLabel(c + d, l) == if FindLabel(c, l) < |c| then FindLabel(c, l) else |c| + FindLabel(d, l)
  {
    if c == [] {
      assert c + d == d;
    } else {
      assert (c + d)[1..] == c[1..] + d;
      FindLabelAppend(c[1..], d, l);
    }
  }

  lemma EmittedLabel(params: seq<Ty>, insn: Insn, top: Option<Ty>, l: nat)
    ensures FindLabel(Emitted(params, insn, top), l) == if insn == Label(l) then 0 else |Emitted(params, insn, top)|
  {
    var e := Emitted(params, insn, top);
    if |e| == 1 { assert e[1..] == []; } else { assert e[1..][1..] == []; }
  }

  lemma LabelStep(c: seq<Insn>, x: Insn, out: seq<Insn>, e: seq<Insn>, l: nat)
    requires FindLabel(e, l) == if x == Label(l) then 0 else |e|
    ensures FindLabel(c + [x], l) ==
      if FindLabel(c, l) < |c| then FindLabel(c, l) else if x == Label(l) then |c| else |c| + 1
    ensures FindLabel(out + e, l) ==
      if FindLabel(out, l) < |out| then FindLabel(out, l) else if x == Label(l) then |out| else |out + e|
  {
    FindLabelAppend(c, [x], l);
    FindLabelAppend(out, e, l);
    assert [x][1..] == [];
  }

  lemma OffsetsGrow(m: Method, i: nat, n: nat)
    requires i < n <= |m.code|
    ensures Offset(m, i) < Offset(m, n)
  {
    hide Rewriting, EmittedFor;
    Fetch(m, i);
    RewritingGrows(m, i + 1, n);
  }

  /** The label of the first `i` instructions, if it is there, moves with its instruction. */
  function LabelPlace(m: Method, i: nat, l: nat): nat
    requires i <= |m.code|
  {
    var q := FindLabel(m.code[..i], l);
    if q < i then Offset(m, q) else Offset(m, i)
  }

  lemma {:induction false} LabelUpTo(m: Method, i: nat, l: nat)
    requires i <= |m.code|
    ensures FindLabel(Rewriting(m, i).out, l) == LabelPlace(m, i, l)
  {
    hide FindLabel, EmittedFor, RewriteMethod, Emitted, ObserveAll, LayOutTypes, Map;
    if i > 0 {
      LabelUpTo(m, i - 1, l);
      LabelOneMore(m, i - 1, l, Rewriting(m, i - 1).out, EmittedFor(m, i - 1), Offset(m, i));
      RewritingSnoc(m, i - 1);
    }
  }

  lemma LabelOneMore(m: Method, i: nat, l: nat, out: seq<Insn>, e: seq<Insn>, end: nat)
    requires i < |m.code| && out == Rewriting(m, i).out && e == EmittedFor(m, i) && end == Offset(m, i + 1)
    requires FindLabel(out, l) == LabelPlace(m, i, l)
    ensures FindLabel(out + e, l) == LabelPlace(m, i + 1, l)
  {
    hide FindLabel, Rewriting, Emitted;
    var c, x := m.code[..i], m.code[i];
    EmittedLabel(Params(m.desc), x, StackTop(Rewriting(m, i).known), l);
    LabelStep(c, x, out, e, l);
    assert m.code[..i + 1] == c + [x];
    RewritingSnoc(m, i);
    if FindLabel(c, l) < i {
      OffsetsGrow(m, FindLabel(c, l), i);
    }
  }

  lemma RewritingSnoc(m: Method, i: nat)
    requires i < |m.code|
    ensures Rewriting(m, i + 1).out == Rewriting(m, i).out + EmittedFor(m, i)
  {
  }

  /** Labels stand where the code of their instruction stands. */
  lemma LabelMoves(m: Method, l: nat)
    requires FindLabel(m.code, l) < |m.code|
    ensures FindLabel(RewriteMethod(m).code, l) == Offset(m, FindLabel(m.code, l))
    ensures Offset(m, FindLabel(m.code, l) + 1) == Offset(m, FindLabel(m.code, l)) + 1
  {
    hide Rewriting, Map;
    var q := FindLabel(m.code, l);
    assert m.code[..|m.code|] == m.code;
    LabelUpTo(m, |m.code|, l);
    Fetch(m, q);
    assert |EmittedFor(m, q)| == 1;
  }

  //---------------------------------------------------------------- related states

  /** The types that hold at an instruction: those of the frame, where there is one. */
  function ExpectedAt(m: Method, pc: nat): Option<TypeState> {
    if pc < |m.code| && m.code[pc].Frame? then Some(TypeState(m.code[pc].stack, LayOutTypes(m.code[pc].locals, 0)))
    else if pc <= |m.code| then TypeAt(m, pc)
    else None
  }

  ghost predicate HasState(stack: seq<Ty>, locals: map<int, Value>, t: TypeState) {
    stack == t.stack && forall v | v in t.locals :: v in locals && TypeOf(locals[v]) == t.locals[v]
  }

  function ImageOption(v: Option<Value>): Option<Value> { if v.Some? then Some(Image(v.value)) else None }

  /** Two activations of a method, original and rewritten, that wait for a result of type `pending`. */
  ghost predicate RelatedActs(p: Program, a: Activation, b: Activation, pending: Option<Ty>) {
    && a.name in p && b.name == a.name && a.pc < |p[a.name].code|
    && var m := p[a.name];
    && b.pc == Offset(m, a.pc)
    && b.stack == Map(Image, a.stack)
    && Agree(Params(m.desc), a.locals, b.locals)
    && Sound(Params(m.desc), a.locals)
    && ExpectedAt(m, a.pc).Some?
    && HasState(Map(TypeOf, a.stack) + Maybe(pending), a.locals, ExpectedAt(m, a.pc).value)
  }

  /** What activation `i` waits for: the result of the one above it. */
  function Pending(p: Program, acts: seq<Activation>, i: nat): Option<Ty>
    requires i < |acts|
  {
    if i + 1 < |acts| && acts[i + 1].name in p then p[acts[i + 1].name].desc.ret else None
  }

  ghost predicate Related(p: Program, s: State, t: State) {
    match (s, t)
    case (Done(r), Done(r')) => r' == ImageOption(r)
    case (Running(acts), Running(acts')) =>
      && |acts| == |acts'| > 0
      && forall i | 0 <= i < |acts| :: RelatedActs(p, acts[i], acts'[i], Pending(p, acts, i))
    case _ => false
  }

  /** Outcomes of the same instruction in the two programs. */
  ghost predicate RelatedOutcomes(p: Program, m: Method, o: Outcome, o': Outcome) {
    match (o, o')
    case (Stuck, Stuck) => true
    case (Next(a), Next(b)) => RelatedActs(p, a, b, None)
    case (Leave(r), Leave(r')) =>
      && r' == ImageOption(r)
      && (match (r, m.desc.ret) case (Some(v), Some(t)) => TypeOf(v) == t case (None, None) => true case _ => false)
    case (Call(c, f, args), Call(c', f', args')) =>
      && f in p && f' == f && args' == Map(Image, args) && HasTypes(args, Params(p[f].desc))
      && RelatedActs(p, c, c', p[f].desc.ret)
    case _ => false
  }

  //---------------------------------------------------------------- one instruction

  /** What falls through to instruction `i` meets the expectations there. */
  lemma Arrives(p: Program, m: Method, i: nat, stack: seq<Ty>, locals: map<int, Value>)
    requires WellTyped(p, m) && i <= |m.code| && TypeAt(m, i).Some? && HasState(stack, locals, TypeAt(m, i).value)
    ensures i < |m.code| && ExpectedAt(m, i).Some? && HasState(stack, locals, ExpectedAt(m, i).value)
  {
    if i < |m.code| && m.code[i].Frame? {
      assert Accepts(p, m, i, TypeAt(m, i).value);
    }
  }

  lemma TypeStep(m: Method, i: nat)
    requires i < |m.code|
    ensures TypeAt(m, i + 1) == Analyze(m.code[i], TypeAt(m, i))
  {
  }

  /** A new pair of activations after instruction `i`. */
  lemma RelateNext(p: Program, m: Method, i: nat, a: Activation, b: Activation, pending: Option<Ty>)
    requires a.name in p && p[a.name] == m && WellTyped(p, m) && b.name == a.name && i < |m.code|
    requires a.pc == i + 1 && b.pc == Offset(m, i + 1) && b.stack == Map(Image, a.stack)
    requires Agree(Params(m.desc), a.locals, b.locals) && Sound(Params(m.desc), a.locals)
    requires TypeAt(m, i + 1).Some? && HasState(Map(TypeOf, a.stack) + Maybe(pending), a.locals, TypeAt(m, i + 1).value)
    ensures RelatedActs(p, a, b, pending)
  {
    hide WellTyped, Agree, Sound, Map, TypeAt, Rewriting, LayOutTypes;
    Arrives(p, m, i + 1, Map(TypeOf, a.stack) + Maybe(pending), a.locals);
  }

  /** A jump to a label. */
  lemma RelateJump(p: Program, m: Method, l: nat, t: TypeState, a: Activation, b: Activation)
    requires a.name in p && p[a.name] == m && WellTyped(p, m) && b.name == a.name
    requires a.pc == FindLabel(m.code, l) + 1 && b.pc == FindLabel(RewriteMethod(m).code, l) + 1
    requires b.stack == Map(Image, a.stack) && JumpFits(m, l, t) && HasState(Map(TypeOf, a.stack), a.locals, t)
    requires Agree(Params(m.desc), a.locals, b.locals) && Sound(Params(m.desc), a.locals)
    ensures RelatedActs(p, a, b, None)
  {
    hide Rewriting;
    LabelMoves(m, l);
    assert Map(TypeOf, a.stack) + Maybe<Ty>(None) == Map(TypeOf, a.stack);
  }

  lemma TailMap<A, B>(f: A -> B, s: seq<A>, n: nat)
    requires n <= |s|
    ensures Map(f, s[..n]) == Map(f, s)[..n] && Map(f, s[n..]) == Map(f, s)[n..]
  {
  }

  lemma ImageHasTypes(op: CalcOp, args: seq<Value>)
    requires IsDoubleOp(op) && HasTypes(args, SignatureOf(op).args)
    ensures HasTypes(Map(Image, args), WrapperSignature(Operation(op)).args)
    ensures 1 <= |args| && Map(Image, args)[0] == Image(args[0]) && TypeOf(args[0]) == SignatureOf(op).args[0]
    ensures |SignatureOf(op).args| == 2 ==>
      |args| == 2 && Map(Image, args)[1] == Image(args[1]) && TypeOf(args[1]) == SignatureOf(op).args[1]
  {
    hide Map;
    var image, ts := Map(Image, args), SignatureOf(op).args;
    assert forall k | 0 <= k < |args| :: TypeOf(args[k]) == ts[k] && image[k] == Image(args[k]);
    assert Map(TypeOf, image) == Map(ImageTy, ts);
  }

  /** A wrapper's method computes the image of what the instruction computes. */
  lemma WrapperSimulates(op: CalcOp, args: seq<Value>)
    requires IsDoubleOp(op) && HasTypes(args, SignatureOf(op).args)
    ensures HasTypes(Map(Image, args), WrapperSignature(Operation(op)).args)
    ensures WrapperResult(Operation(op), Map(Image, args)) == ImageOption(Evaluate(op, args))
  {
    hide Map, NarrowTo, Truncate, Remainder, Compare, CompareTo, WrapAround, Times, Sign, Divide, Modulo, HasTypes;
    ImageHasTypes(op, args);
    if op == DCMPL || op == DCMPG {
      ComparedAlike(OfDouble(args[0].d), OfDouble(args[1].d), if op == DCMPL then -1 else 1);
    }
  }

  /** Other arithmetic touches no double. */
  lemma PlainCalc(op: CalcOp, args: seq<Value>)
    requires !IsDoubleOp(op) && HasTypes(args, SignatureOf(op).args)
    ensures Map(Image, args) == args && ImageOption(Evaluate(op, args)) == Evaluate(op, args)
  {
    hide NarrowTo, Truncate, Remainder, Compare, WrapAround, Times, Sign, Divide, Modulo, Map;
    assert forall k | 0 <= k < |args| :: TypeOf(args[k]) == SignatureOf(op).args[k];
  }

  /** Related activations before an instruction that is not a frame. */
  ghost predicate Ready(p: Program, m: Method, a: Activation, b: Activation, t: TypeState) {
    && a.name in p && p[a.name] == m && b.name == a.name
    && WellTyped(p, m)
    && a.pc < |m.code| && TypeAt(m, a.pc) == Some(t)
    && b.pc == Offset(m, a.pc) && b.stack == Map(Image, a.stack)
    && Agree(Params(m.desc), a.locals, b.locals) && Sound(Params(m.desc), a.locals)
    && HasState(Map(TypeOf, a.stack), a.locals, t) && SourceTypes(t.stack)
  }

  /** Executes the one or two instructions emitted for an instruction. */
  function RunEmitted(q: Program, code: seq<Insn>, e: seq<Insn>, b: Activation): Outcome
    requires 1 <= |e| <= 2
  {
    if |e| == 1 then Execute(q, code, e[0], b)
    else match Execute(q, code, e[0], b) case Next(c) => Execute(q, code, e[1], c) case o => o
  }

  ghost predicate Simulates(p: Program, m: Method, a: Activation, b: Activation)
    requires a.pc < |m.code|
  {
    RelatedOutcomes(p, m, Execute(p, m.code, m.code[a.pc], a),
      RunEmitted(RewriteProgram(p), RewriteMethod(m).code, EmittedFor(m, a.pc), b))
  }

  /** Popping `n` values and pushing a result, in the original and in the last emitted instruction. */
  lemma RelatePopPush(p: Program, m: Method, a: Activation, b: Activation, t: TypeState, b1: Activation, n: nat,
      r: Option<Value>)
    requires Ready(p, m, a, b, t) && n <= |a.stack|
    requires b1.name == b.name && b1.locals == b.locals && b1.stack == b.stack && b1.pc + 1 == Offset(m, a.pc + 1)
    requires r.Some? ==> TypeAt(m, a.pc + 1) == PopPushTypes(t, n, Some(TypeOf(r.value)))
    ensures RelatedOutcomes(p, m, PopPush(a, n, r), PopPush(b1, n, ImageOption(r)))
  {
    hide WellTyped, InFragment, Agree, Sound, FindLabel, Map, LayOutTypes, TypeAt, Accepts, Covered, SourceTypes,
      Rewriting;
    if r.Some? {
      var a' := PopPush(a, n, r).act;
      TailMap(TypeOf, a.stack, |a.stack| - n);
      TailMap(Image, a.stack, |a.stack| - n);
      assert Map(TypeOf, a'.stack) + Maybe<Ty>(None) == PopPushTypes(t, n, Some(TypeOf(r.value))).value.stack;
      RelateNext(p, m, a.pc, a', PopPush(b1, n, ImageOption(r)).act, None);
    }
  }

  lemma OperandsOnTop(a: Activation, ts: seq<Ty>)
    requires TopTypes(Map(TypeOf, a.stack), ts)
    ensures TopHas(a.stack, ts)
    ensures Map(Image, a.stack)[|a.stack| - |ts|..] == Map(Image, a.stack[|a.stack| - |ts|..])
  {
    TailMap(TypeOf, a.stack, |a.stack| - |ts|);
    TailMap(Image, a.stack, |a.stack| - |ts|);
  }

  /** The values and their types are rearranged alike, and so are the images. */
  lemma ShuffledAlike(op: StackOp, s: seq<Value>)
    requires PlainStack(Map(TypeOf, s)) && !DigsUnderTop(op, Map(TypeOf, s))
      && Shuffle(op, Map(TypeOf, s), WideTy).Some?
    ensures Shuffle(op, s, Wide).Some?
    ensures Shuffle(op, Map(TypeOf, s), WideTy) == Some(Map(TypeOf, Shuffle(op, s, Wide).value))
    ensures Shuffle(RewrittenOp(op, Map(ImageTy, Map(TypeOf, s))), Map(Image, s), Wide)
      == Some(Map(Image, Shuffle(op, s, Wide).value))
  {
    hide Map, PlanFor, Perform, DigsUnderTop, RewrittenOp, PlainStack;
    WidthsOfValues(s);
    Survives(op, s);
    PerformMap(TypeOf, PlanOn(op, Map(Wide, s)).value, s);
  }

  lemma SimulateStack(p: Program, m: Method, a: Activation, b: Activation, t: TypeState, op: StackOp)
    requires Ready(p, m, a, b, t) && m.code[a.pc] == Stack(op) && Rewritable(p)
    requires InFragment(p, m) && !DigsUnderTop(op, t.stack) && Shuffle(op, t.stack, WideTy).Some?
    ensures Simulates(p, m, a, b)
  {
    hide WellTyped, InFragment, Agree, Sound, FindLabel, Map, LayOutTypes, Rewriting, TypeAt, StoreAt, DigsUnderTop,
      SourceTypes, Resume, Execute, Shuffle, RewrittenOp, PlainStack, Params;
    TypeStep(m, a.pc);
    Fetch(m, a.pc);
    EmittedForStack(p, m, a.pc, t, op);
    SourceIsPlain(t.stack);
    assert t.stack == Map(TypeOf, a.stack);
    ShuffledAlike(op, a.stack);
    ExecutesSimple(p, m.code, a);
    ExecutesSimple(RewriteProgram(p), RewriteMethod(m).code, b);
    var a' := a.(pc := a.pc + 1, stack := Shuffle(op, a.stack, Wide).value);
    assert Map(TypeOf, a'.stack) + Maybe<Ty>(None) == Map(TypeOf, a'.stack);
    RelateNext(p, m, a.pc, a', b.(pc := b.pc + 1, stack := Map(Image, a'.stack)), None);
  }

  lemma SourceIsPlain(ts: seq<Ty>)
    requires SourceTypes(ts)
    ensures PlainStack(ts)
  {
  }

  lemma EmittedForStack(p: Program, m: Method, i: nat, t: TypeState, op: StackOp)
    requires Rewritable(p) && WellTyped(p, m) && InFragment(p, m)
    requires i < |m.code| && m.code[i] == Stack(op) && TypeAt(m, i) == Some(t)
    ensures EmittedFor(m, i) == [Stack(RewrittenOp(op, Map(ImageTy, t.stack)))]
  {
    hide WellTyped, InFragment, TypeAt, Rewriting, Tracks, RewrittenOp, Map;
    DescriptorsArePlain(p);
    Tracking(p, m, i);
    TopTracked(Params(m.desc), t, Rewriting(m, i).known);
    EmittedByTop(op, StackTop(Rewriting(m, i).known), Map(ImageTy, t.stack));
  }

  /** The rewriter asks only whether there is a wrapper on top. */
  lemma EmittedByTop(op: StackOp, top: Option<Ty>, image: seq<Ty>)
    requires top == Some(TWrapper) <==> TopOf(image) == Some(TWrapper)
    ensures Replacement(Stack(op), top) == [Stack(RewrittenOp(op, image))]
  {
  }

  lemma DescriptorsArePlain(p: Program)
    requires Rewritable(p)
    ensures forall f | f in p :: SourceDescriptor(p[f].desc)
  {
    forall f | f in p ensures SourceDescriptor(p[f].desc) { assert WellTyped(p, p[f]); }
  }

  /** The emitted call of a wrapper's method, on the image of the operands. */
  lemma CallWrapper(q: Program, code: seq<Insn>, op: CalcOp, a: Activation, b: Activation)
    requires IsDoubleOp(op) && TopTypes(Map(TypeOf, a.stack), SignatureOf(op).args) && b.stack == Map(Image, a.stack)
    ensures var n := |SignatureOf(op).args|;
      Execute(q, code, InvokeWrapper(Operation(op)), b)
        == PopPush(b, n, ImageOption(Evaluate(op, a.stack[|a.stack| - n..])))
  {
    hide Map, Evaluate, WrapperResult;
    var ts := SignatureOf(op).args;
    OperandsOnTop(a, ts);
    WrapperSimulates(op, a.stack[|a.stack| - |ts|..]);
    assert |WrapperSignature(Operation(op)).args| == |ts|;
  }

  lemma CallPlain(q: Program, code: seq<Insn>, op: CalcOp, a: Activation, b: Activation)
    requires !IsDoubleOp(op) && TopTypes(Map(TypeOf, a.stack), SignatureOf(op).args) && b.stack == Map(Image, a.stack)
    ensures var n := |SignatureOf(op).args|;
      Execute(q, code, Calc(op), b) == PopPush(b, n, ImageOption(Evaluate(op, a.stack[|a.stack| - n..])))
  {
    hide Map, Evaluate;
    OperandsOnTop(a, SignatureOf(op).args);
    PlainCalc(op, a.stack[|a.stack| - |SignatureOf(op).args|..]);
  }

  lemma ExecutesSimple(p: Program, code: seq<Insn>, a: Activation)
    ensures forall c :: Execute(p, code, Const(c), a) == PopPush(a, 0, Some(c)) == Execute(p, code, Ldc(c), a)
    ensures forall op :: Shuffle(op, a.stack, Wide).Some? ==>
      Execute(p, code, Stack(op), a) == Next(a.(pc := a.pc + 1, stack := Shuffle(op, a.stack, Wide).value))
  {
    hide Shuffle;
  }

  lemma ExecutesStore(p: Program, code: seq<Insn>, a: Activation, kind: Ty, slot: int)
    requires 0 <= slot && |a.stack| > 0 && KindFits(kind, TypeOf(a.stack[|a.stack| - 1]))
    ensures Execute(p, code, Store(kind, slot), a) ==
      Next(a.(pc := a.pc + 1, stack := a.stack[..|a.stack| - 1],
        locals := StoreAt(a.locals, slot, a.stack[|a.stack| - 1], Wide)))
  {
    hide StoreAt, KindFits;
  }

  lemma OriginalCalc(p: Program, code: seq<Insn>, op: CalcOp, a: Activation)
    requires TopHas(a.stack, SignatureOf(op).args)
    ensures Execute(p, code, Calc(op), a)
      == PopPush(a, |SignatureOf(op).args|, Evaluate(op, a.stack[|a.stack| - |SignatureOf(op).args|..]))
  {
    hide Evaluate;
  }

  lemma SimulateCalc(p: Program, m: Method, a: Activation, b: Activation, t: TypeState, op: CalcOp)
    requires Ready(p, m, a, b, t) && m.code[a.pc] == Calc(op)
    requires TopTypes(t.stack, SignatureOf(op).args)
    ensures Simulates(p, m, a, b)
  {
    hide WellTyped, Agree, Sound, Map, LayOutTypes, TypeAt, Rewriting, Evaluate, WrapperResult, RelatedActs,
      SourceTypes, Shuffle, StoreAt, KindFits, FindLabel, Params, Execute, PopPush, RelatedOutcomes, Resume,
      SignatureOf, WrapperSignature;
    var ts, q, code := SignatureOf(op).args, RewriteProgram(p), RewriteMethod(m).code;
    TypeStep(m, a.pc);
    Fetch(m, a.pc);
    OperandsOnTop(a, ts);
    OriginalCalc(p, m.code, op, a);
    if IsDoubleOp(op) {
      CallWrapper(q, code, op, a, b);
      assert EmittedFor(m, a.pc) == [InvokeWrapper(Operation(op))];
    } else {
      CallPlain(q, code, op, a, b);
      assert EmittedFor(m, a.pc) == [Calc(op)];
    }
    RelatePopPush(p, m, a, b, t, b, |ts|, Evaluate(op, a.stack[|a.stack| - |ts|..]));
  }

  lemma WrapConstant(q: Program, code: seq<Insn>, b: Activation, c: Value)
    requires c.Double?
    ensures var b1 := b.(pc := b.pc + 1);
      Execute(q, code, InvokeWrapper(FromDouble), b1.(stack := b.stack + [c])) == PopPush(b1, 0, Some(Wrapper(c.d)))
  {
    hide WrapperResult, TopHas, HasTypes, Shuffle, StoreAt, FindLabel, KindFits, ExecuteCall;
    assert (b.stack + [c])[|b.stack|..] == [c] && (b.stack + [c])[..|b.stack|] == b.stack;
    assert b.stack[..|b.stack| - 0] == b.stack;
    DoubleWrapped(b.stack, c);
  }

  lemma DoubleWrapped(below: seq<Value>, c: Value)
    requires c.Double?
    ensures TopHas(below + [c], [TDouble]) && HasTypes([c], [TDouble])
    ensures WrapperResult(FromDouble, [c]) == Some(Wrapper(c.d))
  {
    assert (below + [c])[|below|..] == [c];
    assert Map(TypeOf, [c]) == [TDouble];
  }

  lemma SimulateConstant(p: Program, m: Method, a: Activation, b: Activation, t: TypeState, c: Value)
    requires Ready(p, m, a, b, t) && (m.code[a.pc] == Const(c) || m.code[a.pc] == Ldc(c))
    requires c.Int? || c.Long? || c.Double?
    ensures Simulates(p, m, a, b)
  {
    hide WellTyped, InFragment, Agree, Sound, FindLabel, Map, LayOutTypes, TypeAt, Rewriting, RelatedActs, SourceTypes,
      Evaluate, WrapperResult, Shuffle, StoreAt, SignatureOf, KindFits, Execute, Resume, Params;
    var insn := m.code[a.pc];
    TypeStep(m, a.pc);
    Fetch(m, a.pc);
    assert a.stack[..|a.stack| - 0] == a.stack && b.stack[..|b.stack| - 0] == b.stack;
    ExecutesSimple(p, m.code, a);
    ExecutesSimple(RewriteProgram(p), RewriteMethod(m).code, b);
    if c.Double? {
      assert EmittedFor(m, a.pc) == [insn, InvokeWrapper(FromDouble)];
      WrapConstant(RewriteProgram(p), RewriteMethod(m).code, b, c);
      RelatePopPush(p, m, a, b, t, b.(pc := b.pc + 1), 0, Some(c));
    } else {
      assert EmittedFor(m, a.pc) == [insn];
      RelatePopPush(p, m, a, b, t, b, 0, Some(c));
    }
  }

  lemma SimulateLoad(p: Program, m: Method, a: Activation, b: Activation, t: TypeState, kind: Ty, slot: int)
    requires Ready(p, m, a, b, t) && m.code[a.pc] == Load(kind, slot)
    requires SourceTy(kind) && 0 <= slot && slot in t.locals && t.locals[slot] == kind
    ensures Simulates(p, m, a, b)
  {
    hide WellTyped, InFragment, Sound, FindLabel, Map, LayOutTypes, TypeAt, Rewriting, RelatedActs, SourceTypes,
      Evaluate, WrapperResult, Shuffle, StoreAt, SignatureOf, WrapperSignature, TopHas, Resume;
    TypeStep(m, a.pc);
    Fetch(m, a.pc);
    assert EmittedFor(m, a.pc) == [Load(ReferenceKind(kind), Renumber(Params(m.desc), slot))];
    assert Agrees(Params(m.desc), a.locals, slot, b.locals);
    RelatePopPush(p, m, a, b, t, b, 0, Some(a.locals[slot]));
  }

  lemma SimulateStore(p: Program, m: Method, a: Activation, b: Activation, t: TypeState, kind: Ty, slot: int)
    requires Ready(p, m, a, b, t) && m.code[a.pc] == Store(kind, slot)
    requires SourceTy(kind) && 0 <= slot && TopTypes(t.stack, [kind]) && StoreAllowed(Params(m.desc), kind, slot)
    ensures Simulates(p, m, a, b)
  {
    hide WellTyped, InFragment, Agree, Sound, FindLabel, Map, LayOutTypes, Rewriting, StoreAt, SourceTypes, Renumber,
      Usable, Tight, Evaluate, WrapperResult, Shuffle, SignatureOf, WrapperSignature, TopHas, Wide, Resume, Execute,
      TypeAt, Params, JumpFits, ImageDescriptor, DigsUnderTop;
    var params, n := Params(m.desc), |a.stack| - 1;
    TypeStep(m, a.pc);
    Fetch(m, a.pc);
    assert EmittedFor(m, a.pc) == [Store(ReferenceKind(kind), Renumber(params, slot))];
    assert t.stack[n..][0] == kind;
    var x := a.stack[n];
    assert t.stack[n] == TypeOf(x);
    ExecutesStore(p, m.code, a, kind, slot);
    StoreKeeps(params, slot, a.locals, b.locals, x);
    StoreSound(params, slot, a.locals, x);
    UsableRenumber(params, slot);
    TailMap(TypeOf, a.stack, n);
    TailMap(Image, a.stack, n);
    ExecutesStore(RewriteProgram(p), RewriteMethod(m).code, b, ReferenceKind(kind), Renumber(params, slot));
    var a' := a.(pc := a.pc + 1, stack := a.stack[..n], locals := StoreAt(a.locals, slot, x, Wide));
    var b' := b.(pc := b.pc + 1, stack := b.stack[..n],
      locals := StoreAt(b.locals, Renumber(params, slot), Image(x), Wide));
    assert Map(TypeOf, a'.stack) + Maybe<Ty>(None) == t.stack[..n];
    StoreTyped(a.locals, t.locals, slot, x);
    RelateNext(p, m, a.pc, a', b', None);
  }

  lemma StoreTyped(L: map<int, Value>, K: map<int, Ty>, slot: int, x: Value)
    requires forall v | v in K :: v in L && TypeOf(L[v]) == K[v]
    ensures var L1, K1 := StoreAt(L, slot, x, Wide), StoreAt(K, slot, TypeOf(x), WideTy);
      forall v | v in K1 :: v in L1 && TypeOf(L1[v]) == K1[v]
  {
  }

  /** Incrementing a counter in both programs. */
  lemma CounterAgrees(params: seq<Ty>, L: map<int, Value>, L': map<int, Value>, slot: int, x: Value)
    requires Agree(params, L, L') && Sound(params, L) && slot in L && L[slot].Int? && x.Int?
    ensures Agree(params, L[slot := x], L'[Renumber(params, slot) := x]) && Sound(params, L[slot := x])
  {
    hide Renumber, Usable, Tight;
    var L1, L1' := L[slot := x], L'[Renumber(params, slot) := x];
    forall v | v in L1
      ensures Agrees(params, L1, v, L1') && StoreAllowed(params, TypeOf(L1[v]), v)
    {
      assert Agrees(params, L, v, L') && StoreAllowed(params, TypeOf(L[v]), v);
      assert Agrees(params, L, slot, L') && StoreAllowed(params, TypeOf(L[slot]), slot);
      if v < slot { RenumberSpacing(params, v, slot); } else if slot < v { RenumberSpacing(params, slot, v); }
    }
  }

  lemma SimulateIinc(p: Program, m: Method, a: Activation, b: Activation, t: TypeState, slot: int, amount: int)
    requires Ready(p, m, a, b, t) && m.code[a.pc] == Iinc(slot, amount)
    requires 0 <= slot && slot in t.locals && t.locals[slot] == TInt
    ensures Simulates(p, m, a, b)
  {
    hide WellTyped, InFragment, Sound, FindLabel, Map, LayOutTypes, Rewriting, SourceTypes, TypeAt, Covered, Renumber,
      Evaluate, WrapperResult, Shuffle, StoreAt, SignatureOf, WrapperSignature, KindFits, TopHas,
      Params;
    var params := Params(m.desc);
    TypeStep(m, a.pc);
    Fetch(m, a.pc);
    assert EmittedFor(m, a.pc) == [Iinc(Renumber(params, slot), amount)];
    assert Agrees(params, a.locals, slot, b.locals);
    var x := Int(WrapAround(a.locals[slot].i + amount, TWO31));
    CounterAgrees(params, a.locals, b.locals, slot, x);
    var a' := a.(pc := a.pc + 1, locals := a.locals[slot := x]);
    var b' := b.(pc := b.pc + 1, locals := b.locals[Renumber(params, slot) := x]);
    assert Map(TypeOf, a'.stack) + Maybe<Ty>(None) == t.stack;
    RelateNext(p, m, a.pc, a', b', None);
  }

  lemma SimulateIf(p: Program, m: Method, a: Activation, b: Activation, t: TypeState, c: Condition, l: nat)
    requires Ready(p, m, a, b, t) && m.code[a.pc] == If(c, l)
    requires TopTypes(t.stack, [TInt]) && JumpFits(m, l, t.(stack := t.stack[..|t.stack| - 1]))
    ensures Simulates(p, m, a, b)
  {
    hide WellTyped, InFragment, Agree, Sound, FindLabel, Map, LayOutTypes, Rewriting, SourceTypes, Evaluate,
      WrapperResult, Shuffle, StoreAt, SignatureOf, WrapperSignature, KindFits, TopHas, Params;
    var n := |a.stack| - 1;
    Fetch(m, a.pc);
    assert EmittedFor(m, a.pc) == [If(c, l)];
    assert t.stack[n..][0] == TInt;
    assert TypeOf(a.stack[n]) == t.stack[n];
    TailMap(TypeOf, a.stack, n);
    TailMap(Image, a.stack, n);
    var t' := t.(stack := t.stack[..n]);
    var a' := Execute(p, m.code, If(c, l), a).act;
    var b' := Execute(RewriteProgram(p), RewriteMethod(m).code, If(c, l), b).act;
    if Holds(c, a.stack[n].i) {
      RelateJump(p, m, l, t', a', b');
    } else {
      assert Map(TypeOf, a'.stack) + Maybe<Ty>(None) == t'.stack;
      assert PopPushTypes(t, 1, None).value.stack == t'.stack;
      RelateNext(p, m, a.pc, a', b', None);
    }
  }

  lemma SimulateGoto(p: Program, m: Method, a: Activation, b: Activation, t: TypeState, l: nat)
    requires Ready(p, m, a, b, t) && m.code[a.pc] == Goto(l) && JumpFits(m, l, t)
    ensures Simulates(p, m, a, b)
  {
    hide WellTyped, Agree, Sound, Map, LayOutTypes, Rewriting, SourceTypes, TypeAt, FindLabel, JumpFits;
    assert EmittedFor(m, a.pc) == [Goto(l)];
    RelateJump(p, m, l, t, a.(pc := FindLabel(m.code, l) + 1), b.(pc := FindLabel(RewriteMethod(m).code, l) + 1));
  }

  lemma SimulateLabel(p: Program, m: Method, a: Activation, b: Activation, t: TypeState, l: nat)
    requires Ready(p, m, a, b, t) && m.code[a.pc] == Label(l)
    ensures Simulates(p, m, a, b)
  {
    hide WellTyped, Agree, Sound, Map, LayOutTypes, Rewriting, SourceTypes, TypeAt, FindLabel;
    TypeStep(m, a.pc);
    Fetch(m, a.pc);
    assert EmittedFor(m, a.pc) == [Label(l)];
    assert Map(TypeOf, a.stack) + Maybe<Ty>(None) == t.stack;
    RelateNext(p, m, a.pc, a.(pc := a.pc + 1), b.(pc := b.pc + 1), None);
  }

  lemma SimulateReturn(p: Program, m: Method, a: Activation, b: Activation, t: TypeState, r: Option<Ty>)
    requires Ready(p, m, a, b, t) && m.code[a.pc] == Return(r)
    requires r == m.desc.ret && (r.Some? ==> TopTypes(t.stack, [r.value]))
    ensures Simulates(p, m, a, b)
  {
    hide WellTyped, InFragment, Agree, Sound, FindLabel, Map, LayOutTypes, Rewriting, TypeAt, Evaluate, WrapperResult,
      Shuffle, StoreAt, SignatureOf, WrapperSignature, ExpectedAt;
    if r.Some? {
      var n := |a.stack| - 1;
      assert EmittedFor(m, a.pc) == [Return(Some(ReferenceKind(r.value)))];
      assert t.stack[n..][0] == r.value;
      assert TypeOf(a.stack[n]) == t.stack[n] && t.stack[n] in t.stack;
    } else {
      assert EmittedFor(m, a.pc) == [Return(None)];
    }
  }

  /** The emitted call, through the proxy or not, does what the call of the replaced descriptor does. */
  lemma ExecutesCall(q: Program, code: seq<Insn>, b: Activation, op: Opcode, name: string, desc: Descriptor)
    requires name in q && q[name].desc == ImageDescriptor(desc) && TopHas(b.stack, Params(ImageDescriptor(desc)))
    requires GoesThroughProxy(op, desc) ==> q[name].isPublic
    ensures var n := |b.stack| - |Params(ImageDescriptor(desc))|;
      Execute(q, code, if GoesThroughProxy(op, desc) then InvokeProxied(name, desc)
        else Invoke(op, name, ImageDescriptor(desc)), b)
      == Call(b.(pc := b.pc + 1, stack := b.stack[..n]), name, b.stack[n..])
  {
    hide TopHas, Params, Map;
  }

  lemma OriginalCall(p: Program, code: seq<Insn>, a: Activation, op: Opcode, name: string, desc: Descriptor)
    requires name in p && p[name].desc == desc && TopHas(a.stack, Params(desc))
    ensures var n := |a.stack| - |Params(desc)|;
      Execute(p, code, Invoke(op, name, desc), a) == Call(a.(pc := a.pc + 1, stack := a.stack[..n]), name, a.stack[n..])
  {
    hide TopHas, Params, Map;
  }

  /** The two callers, waiting for the result. */
  lemma CallersRelated(p: Program, m: Method, a: Activation, b: Activation, t: TypeState, op: Opcode, name: string,
      desc: Descriptor)
    requires Ready(p, m, a, b, t) && m.code[a.pc] == Invoke(op, name, desc) && TopTypes(t.stack, Params(desc))
    requires |EmittedFor(m, a.pc)| == 1
    ensures |Params(ImageDescriptor(desc))| == |Params(desc)| <= |a.stack| == |b.stack|
    ensures var n := |a.stack| - |Params(desc)|;
      && HasTypes(a.stack[n..], Params(desc)) && b.stack[n..] == Map(Image, a.stack[n..])
      && HasTypes(b.stack[n..], Params(ImageDescriptor(desc)))
      && RelatedActs(p, a.(pc := a.pc + 1, stack := a.stack[..n]), b.(pc := b.pc + 1, stack := b.stack[..n]), desc.ret)
  {
    hide WellTyped, Agree, Sound, FindLabel, Map, LayOutTypes, Rewriting, SourceTypes, Execute, KindFits, Params,
      RelatedActs, EmittedFor, TypeAt;
    var ts := Params(desc);
    var n := |a.stack| - |ts|;
    Fetch(m, a.pc);
    TypeStep(m, a.pc);
    OperandsOnTop(a, ts);
    ImageParams(desc, a.stack[n..]);
    TailMap(TypeOf, a.stack, n);
    TailMap(Image, a.stack, n);
    var a' := a.(pc := a.pc + 1, stack := a.stack[..n]);
    assert PopPushTypes(t, |ts|, desc.ret).value.stack == Map(TypeOf, a'.stack) + Maybe(desc.ret);
    RelateNext(p, m, a.pc, a', b.(pc := b.pc + 1, stack := b.stack[..n]), desc.ret);
  }

  lemma SimulateInvoke(
      p: Program, m: Method, a: Activation, b: Activation, t: TypeState, op: Opcode, name: string, desc: Descriptor)
    requires Ready(p, m, a, b, t) && m.code[a.pc] == Invoke(op, name, desc)
    requires name in p && p[name].desc == desc && TopTypes(t.stack, Params(desc))
    requires op == INVOKEVIRTUAL && MentionsDouble(desc) ==> p[name].isPublic
    ensures Simulates(p, m, a, b)
  {
    hide WellTyped, Agree, Sound, Map, LayOutTypes, Rewriting, SourceTypes, Execute, MentionsDouble, Params,
      RelatedActs, HasState, TypeAt;
    assert EmittedFor(m, a.pc) ==
      [if GoesThroughProxy(op, desc) then InvokeProxied(name, desc) else Invoke(op, name, ImageDescriptor(desc))];
    CallersRelated(p, m, a, b, t, op, name, desc);
    OriginalCall(p, m.code, a, op, name, desc);
    ExecutesCall(RewriteProgram(p), RewriteMethod(m).code, b, op, name, desc);
  }

  lemma ImageParams(desc: Descriptor, args: seq<Value>)
    requires HasTypes(args, Params(desc))
    ensures |Params(ImageDescriptor(desc))| == |Params(desc)|
    ensures HasTypes(Map(Image, args), Params(ImageDescriptor(desc)))
  {
    assert Params(ImageDescriptor(desc)) == Map(ImageTy, Params(desc));
    assert Map(TypeOf, Map(Image, args)) == Map(ImageTy, Map(TypeOf, args));
  }

  /** Whatever the instruction, the code emitted for it does the same. */
  lemma SimulateInsn(p: Program, m: Method, a: Activation, b: Activation, t: TypeState)
    requires Ready(p, m, a, b, t) && Rewritable(p) && !m.code[a.pc].Frame?
    requires InFragment(p, m) && Accepts(p, m, a.pc, t) && Covered(p, m, a.pc)
    ensures Simulates(p, m, a, b)
  {
    hide WellTyped, InFragment, Agree, Sound, FindLabel, Map, LayOutTypes, Rewriting, SourceTypes, DigsUnderTop,
      Shuffle, JumpFits, Evaluate, WrapperResult, StoreAt, SignatureOf, WrapperSignature, KindFits, TopHas, Resume;
    match m.code[a.pc]
    case Stack(op) => SimulateStack(p, m, a, b, t, op);
    case Calc(op) => SimulateCalc(p, m, a, b, t, op);
    case Const(c) => SimulateConstant(p, m, a, b, t, c);
    case Ldc(c) => SimulateConstant(p, m, a, b, t, c);
    case Load(kind, slot) => SimulateLoad(p, m, a, b, t, kind, slot);
    case Store(kind, slot) => SimulateStore(p, m, a, b, t, kind, slot);
    case Iinc(slot, amount) => SimulateIinc(p, m, a, b, t, slot, amount);
    case If(c, l) => SimulateIf(p, m, a, b, t, c, l);
    case Goto(l) => SimulateGoto(p, m, a, b, t, l);
    case Label(l) => SimulateLabel(p, m, a, b, t, l);
    case Return(r) => SimulateReturn(p, m, a, b, t, r);
    case Invoke(op, name, desc) => SimulateInvoke(p, m, a, b, t, op, name, desc);
  }

  //---------------------------------------------------------------- runs

  /** The activations below the current one, which belongs to method `top`. */
  ghost predicate RelatedBelow(p: Program, below: seq<Activation>, below': seq<Activation>, top: string)
    requires top in p
  {
    && |below| == |below'|
    && (forall i | 0 <= i < |below| - 1 :: RelatedActs(p, below[i], below'[i], Pending(p, below, i)))
    && (below != [] ==> RelatedActs(p, below[|below| - 1], below'[|below| - 1], p[top].desc.ret))
  }

  lemma SplitRelated(p: Program, acts: seq<Activation>, acts': seq<Activation>)
    requires Related(p, Running(acts), Running(acts'))
    ensures acts[|acts| - 1].name in p
    ensures RelatedActs(p, acts[|acts| - 1], acts'[|acts| - 1], None)
    ensures RelatedBelow(p, acts[..|acts| - 1], acts'[..|acts| - 1], acts[|acts| - 1].name)
  {
    hide RelatedActs;
    var n := |acts| - 1;
    assert RelatedActs(p, acts[n], acts'[n], Pending(p, acts, n));
    NameKnown(p, acts[n], acts'[n], Pending(p, acts, n));
    forall i | 0 <= i < n
      ensures RelatedActs(p, acts[i], acts'[i], if i < n - 1 then Pending(p, acts[..n], i)
        else p[acts[n].name].desc.ret)
    {
      assert RelatedActs(p, acts[i], acts'[i], Pending(p, acts, i));
    }
  }

  lemma NameKnown(p: Program, a: Activation, b: Activation, pending: Option<Ty>)
    requires RelatedActs(p, a, b, pending)
    ensures a.name in p
  {
  }

  lemma JoinRelated(p: Program, below: seq<Activation>, below': seq<Activation>, a: Activation, b: Activation)
    requires a.name in p && RelatedBelow(p, below, below', a.name) && RelatedActs(p, a, b, None)
    ensures Related(p, Running(below + [a]), Running(below' + [b]))
  {
    hide RelatedActs;
    var acts, acts' := below + [a], below' + [b];
    forall i | 0 <= i < |acts|
      ensures RelatedActs(p, acts[i], acts'[i], Pending(p, acts, i))
    {
      if i < |below| - 1 { assert Pending(p, acts, i) == Pending(p, below, i); }
    }
  }

  /** The first instruction of a called method. */
  lemma Entered(p: Program, f: string, args: seq<Value>)
    requires f in p && WellTyped(p, p[f]) && HasTypes(args, Params(p[f].desc))
    ensures RelatedActs(p, Activation(f, 0, [], LayOut(args, 0)), Activation(f, 0, [], LayOut(Map(Image, args), 0)),
      None)
  {
    hide WellTyped, Agree, Sound, ParamAt, LayOut, LayOutTypes, Map;
    var m := p[f];
    CallAgrees(args);
    CallSound(args);
    var L, K := LayOut(args, 0), LayOutTypes(Params(m.desc), 0);
    forall v | v in K
      ensures v in L && TypeOf(L[v]) == K[v]
    {
      FrameKeys(Params(m.desc), 0, v);
      LayOutKeys(args, 0, v);
    }
    assert Map(TypeOf, []) + Maybe<Ty>(None) == [];
    Arrives(p, m, 0, [], L);
  }

  lemma Returned(p: Program, c: Activation, c': Activation, r: Option<Value>, ret: Option<Ty>)
    requires RelatedActs(p, c, c', ret)
    requires (r.Some? <==> ret.Some?) && (r.Some? ==> TypeOf(r.value) == ret.value)
    ensures RelatedActs(p, c.(stack := c.stack + Maybe(r)), c'.(stack := c'.stack + Maybe(ImageOption(r))), None)
  {
    hide Agree, Sound, LayOutTypes, ExpectedAt;
    assert Map(TypeOf, c.stack + Maybe(r)) + Maybe<Ty>(None) == Map(TypeOf, c.stack) + Maybe(ret);
    assert Map(Image, c.stack + Maybe(r)) == Map(Image, c.stack) + Maybe(ImageOption(r));
  }

  ghost predicate RelatedResults(p: Program, s: Option<State>, t: Option<State>) {
    match (s, t)
    case (None, None) => true
    case (Some(u), Some(v)) => Related(p, u, v)
    case _ => false
  }

  lemma Resumed(p: Program, below: seq<Activation>, below': seq<Activation>, name: string, o: Outcome, o': Outcome)
    requires Rewritable(p) && name in p && RelatedBelow(p, below, below', name)
    requires RelatedOutcomes(p, p[name], o, o') && (o.Next? ==> o.act.name == name)
      && (o.Call? ==> o.caller.name == name)
    ensures RelatedResults(p, Resume(below, o), Resume(below', o'))
  {
    hide RelatedActs, WellTyped, InFragment, LayOut, Map;
    match o
    case Stuck =>
    case Next(a) => JoinRelated(p, below, below', a, o'.act);
    case Call(c, f, args) =>
      assert WellTyped(p, p[f]);
      Entered(p, f, args);
      var callee, callee' := Activation(f, 0, [], LayOut(args, 0)), Activation(f, 0, [], LayOut(Map(Image, args), 0));
      assert RelatedBelow(p, below + [c], below' + [o'.caller], f) by {
        assert forall i | 0 <= i < |below| - 1 :: Pending(p, below + [c], i) == Pending(p, below, i);
      }
      JoinRelated(p, below + [c], below' + [o'.caller], callee, callee');
    case Leave(r) =>
      if below != [] {
        var n := |below| - 1;
        Returned(p, below[n], below'[n], r, p[name].desc.ret);
        NameKnown(p, below[n], below'[n], p[name].desc.ret);
        var c, c' := below[n].(stack := below[n].stack + Maybe(r)),
          below'[n].(stack := below'[n].stack + Maybe(ImageOption(r)));
        assert RelatedBelow(p, below[..n], below'[..n], c.name) by {
          assert forall i | 0 <= i < n - 1 :: Pending(p, below[..n], i) == Pending(p, below, i);
        }
        JoinRelated(p, below[..n], below'[..n], c, c');
      }
  }

  /** Executing one instruction of the original and all that was emitted for it. */
  lemma SimulateAct(p: Program, a: Activation, b: Activation)
    requires Rewritable(p) && RelatedActs(p, a, b, None)
    ensures Simulates(p, p[a.name], a, b)
  {
    hide Agree, Sound, LayOutTypes, Rewriting, Map, RelatedOutcomes, PlainLocals, AllKnown;
    var m := p[a.name];
    assert WellTyped(p, m) && InFragment(p, m) && Covered(p, m, a.pc);
    assert Map(TypeOf, a.stack) + Maybe<Ty>(None) == Map(TypeOf, a.stack);
    if m.code[a.pc].Frame? {
      SimulateFrame(p, m, a, b);
    } else {
      var t := TypeAt(m, a.pc).value;
      DescriptorsArePlain(p);
      Tracking(p, m, a.pc);
      SimulateInsn(p, m, a, b, t);
    }
  }

  lemma SimulateFrame(p: Program, m: Method, a: Activation, b: Activation)
    requires Rewritable(p) && RelatedActs(p, a, b, None) && m == p[a.name] && m.code[a.pc].Frame?
    ensures Simulates(p, m, a, b)
  {
    hide Agree, Sound, LayOutTypes, Rewriting, Map, InFragment, Evaluate, WrapperResult, Shuffle, StoreAt, SignatureOf,
      WrapperSignature, KindFits, TopHas;
    TypeStep(m, a.pc);
    Fetch(m, a.pc);
    assert |EmittedFor(m, a.pc)| == 1 && EmittedFor(m, a.pc)[0].Frame?;
    RelateNext(p, m, a.pc, a.(pc := a.pc + 1), b.(pc := b.pc + 1), None);
  }

  lemma NamesKept(p: Program, code: seq<Insn>, insn: Insn, a: Activation)
    ensures var o := Execute(p, code, insn, a);
      (o.Next? ==> o.act.name == a.name) && (o.Call? ==> o.caller.name == a.name)
  {
  }

  /** One step of the original is one or two steps of the rewritten program; where one stops, so does the other. */
  lemma SimulateStep(p: Program, s: State, t: State) returns (k: nat)
    requires Rewritable(p) && Related(p, s, t)
    ensures 1 <= k <= 2 && (Step(p, s) == None ==> k == 1)
    ensures RelatedResults(p, Step(p, s), Steps(RewriteProgram(p), t, k))
  {
    hide Rewritable, RelatedActs, Step, Steps, Pending;
    if s.Running? {
      var n := |s.acts| - 1;
      SplitRelated(p, s.acts, t.acts);
      var a, b := s.acts[n], t.acts[n];
      k := StepUp(p, s.acts[..n], t.acts[..n], a, b);
      assert s.acts == s.acts[..n] + [a] && t.acts == t.acts[..n] + [b];
    } else {
      k := 1;
      DoneStops(p, s.result);
      DoneStops(RewriteProgram(p), t.result);
    }
  }

  lemma DoneStops(p: Program, r: Option<Value>)
    ensures Step(p, Done(r)) == None && Steps(p, Done(r), 1) == None
  {
  }

  lemma StepUp(p: Program, below: seq<Activation>, below': seq<Activation>, a: Activation, b: Activation)
      returns (k: nat)
    requires Rewritable(p) && a.name in p && RelatedBelow(p, below, below', a.name) && RelatedActs(p, a, b, None)
    ensures 1 <= k <= 2 && (Step(p, Running(below + [a])) == None ==> k == 1)
    ensures RelatedResults(p, Step(p, Running(below + [a])), Steps(RewriteProgram(p), Running(below' + [b]), k))
  {
    hide RelatedBelow, Rewriting, Execute, Resume, WellTyped, InFragment, Agree, Sound, HasState, RelatedOutcomes, Map;
    var m, q, code := p[a.name], RewriteProgram(p), RewriteMethod(p[a.name]).code;
    var e := EmittedFor(m, a.pc);
    k := |e|;
    SimulateAct(p, a, b);
    Fetch(m, a.pc);
    NamesKept(p, m.code, m.code[a.pc], a);
    var o := Execute(p, m.code, m.code[a.pc], a);
    Resumed(p, below, below', a.name, o, RunEmitted(q, code, e, b));
    StepOne(p, below, a);
    StepOne(q, below', b);
    if |e| == 2 {
      // the first of two emitted instructions pushes a constant
      PushFirst(q, m, a.pc, below', b);
      ConstantPushes(p, m, a, below);
    }
  }

  lemma StepsOnce(q: Program, t: State)
    ensures Steps(q, t, 1) == Step(q, t)
  {
    hide Step;
  }

  lemma ConstantPushes(p: Program, m: Method, a: Activation, below: seq<Activation>)
    requires a.pc < |m.code| && |EmittedFor(m, a.pc)| == 2
    ensures Resume(below, Execute(p, m.code, m.code[a.pc], a)).Some?
  {
    hide Rewriting, Map;
  }

  lemma StepOne(p: Program, below: seq<Activation>, a: Activation)
    requires a.name in p && a.pc < |p[a.name].code|
    ensures Step(p, Running(below + [a])) == Resume(below, Execute(p, p[a.name].code, p[a.name].code[a.pc], a))
    ensures Steps(p, Running(below + [a]), 1) == Step(p, Running(below + [a]))
  {
    hide Execute, Resume;
    assert (below + [a])[..|below|] == below;
  }

  lemma PushFirst(q: Program, m: Method, i: nat, below: seq<Activation>, b: Activation)
    requires i < |m.code| && |EmittedFor(m, i)| == 2 && b.name in q && q[b.name] == RewriteMethod(m)
      && b.pc == Offset(m, i)
    ensures Steps(q, Running(below + [b]), 2)
      == Resume(below, RunEmitted(q, RewriteMethod(m).code, EmittedFor(m, i), b))
  {
    hide Rewriting, Map;
    var code, e := RewriteMethod(m).code, EmittedFor(m, i);
    Fetch(m, i);
    assert code[b.pc + 0] == e[0] && code[b.pc + 1] == e[1];
    assert e[0] == m.code[i];
    var c := Execute(q, code, e[0], b).act;
    StepOne(q, below, b);
    StepOne(q, below, c);
    assert Steps(q, Running(below + [b]), 2) == Steps(q, Running(below + [c]), 1);
  }

  /** Whatever the original program reaches, the rewritten one reaches the image of, in at most twice the steps;
      and when the original stops, with a result or for want of one, so does the rewritten program. */
  lemma {:induction false} SimulateRun(p: Program, s: State, t: State, n: nat) returns (k: nat)
    requires Rewritable(p) && Related(p, s, t) && Steps(p, s, n).Some?
    ensures n <= k <= 2 * n && Steps(RewriteProgram(p), t, k).Some?
    ensures Related(p, Steps(p, s, n).value, Steps(RewriteProgram(p), t, k).value)
    ensures Step(p, Steps(p, s, n).value) == None
      ==> Step(RewriteProgram(p), Steps(RewriteProgram(p), t, k).value) == None
    decreases n
  {
    hide Related, Rewritable, Step;
    var q := RewriteProgram(p);
    if n == 0 {
      k := 0;
      var j := SimulateStep(p, s, t);
      assert Step(p, s) == None ==> j == 1 && Steps(q, t, 1) == None;
      StepsOnce(q, t);
    } else {
      var j := SimulateStep(p, s, t);
      var s1, t1 := Step(p, s).value, Steps(q, t, j).value;
      var i := SimulateRun(p, s1, t1, n - 1);
      k := j + i;
      StepsAdd(q, t, j, i);
    }
  }

  lemma {:induction false} StepsAdd(q: Program, t: State, j: nat, i: nat)
    requires Steps(q, t, j).Some?
    ensures Steps(q, t, j + i) == Steps(q, Steps(q, t, j).value, i)
    decreases j
  {
    hide Step;
    if j > 0 { StepsAdd(q, Step(q, t).value, j - 1, i); }
  }

  //---------------------------------------------------------------- whole runs

  ghost predicate TerminatesWith(p: Program, s: State, r: Option<Value>) {
    exists n :: Steps(p, s, n) == Some(Done(r))
  }

  /** A run that is over after fewer than `k` steps has a last state. */
  lemma {:induction false} LastState(p: Program, s: State, k: nat) returns (n: nat)
    requires Steps(p, s, k) == None
    ensures n < k && Steps(p, s, n).Some? && Step(p, Steps(p, s, n).value) == None
    decreases k
  {
    hide Step;
    if Step(p, s) == None {
      n := 0;
    } else {
      n := LastState(p, Step(p, s).value, k - 1);
      n := n + 1;
    }
  }

  lemma NothingAfterLast(p: Program, s: State, j: nat, k: nat)
    requires j < k && Steps(p, s, j).Some? && Step(p, Steps(p, s, j).value) == None
    ensures Steps(p, s, k) == None
  {
    hide Step;
    StepsAdd(p, s, j, k - j);
  }

  /** There is only one last state. */
  lemma LastIsUnique(p: Program, s: State, j: nat, k: nat)
    requires Steps(p, s, j).Some? && Step(p, Steps(p, s, j).value) == None
    requires Steps(p, s, k).Some? && Step(p, Steps(p, s, k).value) == None
    ensures j == k
  {
    hide Step, Steps;
    if j < k { NothingAfterLast(p, s, j, k); } else if k < j { NothingAfterLast(p, s, k, j); }
  }

  /** Calling a method with wrapped arguments in the rewritten program returns exactly what the original call
      returns, wrapped; one call terminates just when the other does. */
  lemma SameResults(p: Program, name: string, args: seq<Value>, r': Option<Value>)
    requires Rewritable(p) && name in p && HasTypes(args, Params(p[name].desc))
    ensures TerminatesWith(RewriteProgram(p), Start(name, Map(Image, args)), r') <==>
      exists r :: r' == ImageOption(r) && TerminatesWith(p, Start(name, args), r)
  {
    hide Step, Steps, Rewritable, Related, WellTyped, Map, Start, Params;
    var q, s, t := RewriteProgram(p), Start(name, args), Start(name, Map(Image, args));
    StartsRelated(p, name, args);
    if r: Option<Value> :| r' == ImageOption(r) && TerminatesWith(p, s, r) {
      RewrittenResult(p, s, t, r);
    }
    if TerminatesWith(q, t, r') {
      var k :| Steps(q, t, k) == Some(Done(r'));
      var r := OriginalResult(p, s, t, k, r');
    }
  }

  lemma StartsRelated(p: Program, name: string, args: seq<Value>)
    requires Rewritable(p) && name in p && HasTypes(args, Params(p[name].desc))
    ensures Related(p, Start(name, args), Start(name, Map(Image, args)))
  {
    hide RelatedActs, WellTyped, InFragment, Map, LayOut;
    assert WellTyped(p, p[name]);
    Entered(p, name, args);
  }

  lemma RewrittenResult(p: Program, s: State, t: State, r: Option<Value>)
    requires Rewritable(p) && Related(p, s, t) && TerminatesWith(p, s, r)
    ensures TerminatesWith(RewriteProgram(p), t, ImageOption(r))
  {
    hide Step, Steps, Rewritable, RelatedActs;
    var n :| Steps(p, s, n) == Some(Done(r));
    var k := SimulateRun(p, s, t, n);
  }

  lemma OriginalResult(p: Program, s: State, t: State, k: nat, r': Option<Value>) returns (r: Option<Value>)
    requires Rewritable(p) && Related(p, s, t) && Steps(RewriteProgram(p), t, k) == Some(Done(r'))
    ensures r' == ImageOption(r) && TerminatesWith(p, s, r)
  {
    hide Step, Rewritable, RelatedActs;
    var q, n := RewriteProgram(p), k;
    DoneStops(q, r');
    if Steps(p, s, k) == None {
      n := LastState(p, s, k);
      var j := SimulateRun(p, s, t, n);
      LastIsUnique(q, t, j, k);
    } else {
      var j := SimulateRun(p, s, t, k);
      if j > k { NothingAfterLast(q, t, k, j); }
    }
    r := Steps(p, s, n).value.result;
  }
}

/** Virtual calls of rewritten methods with doubles in the signature: what the proxy asks of the method that is
    called. */
module VirtualCalls {
  import opened Collections
  import opened Opcodes
  import opened Jvm
  import opened FloatReplacement
  import opened LocalVariables
  import opened AnalyzerTracking
  import opened Simulation
  import FrameShift

  //---------------------------------------------------------------- the method that is called

  /** A rewritten class has no method with a double in its descriptor: the fallback has nothing to call. */
  lemma FallbackFindsNothing(p: Program, name: string, desc: Descriptor)
    requires MentionsDouble(desc) && name in p
    ensures RewriteProgram(p)[name].desc != desc
  {
    var image := ImageDescriptor(p[name].desc);
    assert forall i | 0 <= i < |image.args| :: image.args[i] != TDouble;
  }

  /** A call does the same in both programs exactly if it is no virtual one with a double in its descriptor, or the
      method is public. */
  lemma PublicExactly(
      p: Program, m: Method, a: Activation, b: Activation, t: TypeState, op: Opcode, name: string, desc: Descriptor)
    requires Ready(p, m, a, b, t) && m.code[a.pc] == Invoke(op, name, desc)
    requires name in p && p[name].desc == desc && TopTypes(t.stack, Params(desc))
    ensures Simulates(p, m, a, b) <==> (op == INVOKEVIRTUAL && MentionsDouble(desc) ==> p[name].isPublic)
  {
    hide Ready, Simulates, TopTypes, MentionsDouble;
    if op == INVOKEVIRTUAL && MentionsDouble(desc) ==> p[name].isPublic {
      SimulateInvoke(p, m, a, b, t, op, name, desc);
    } else {
      HiddenCallDiffers(p, m, a, b, t, op, name, desc);
    }
  }

  lemma HiddenCallDiffers(
      p: Program, m: Method, a: Activation, b: Activation, t: TypeState, op: Opcode, name: string, desc: Descriptor)
    requires Ready(p, m, a, b, t) && m.code[a.pc] == Invoke(op, name, desc)
    requires name in p && p[name].desc == desc && TopTypes(t.stack, Params(desc))
    requires op == INVOKEVIRTUAL && MentionsDouble(desc) && !p[name].isPublic
    ensures !Simulates(p, m, a, b)
  {
    hide WellTyped, Agree, Sound, Map, LayOutTypes, Rewriting, SourceTypes, Execute, MentionsDouble, Params,
      RelatedActs, TypeAt;
    OperandsOnTop(a, Params(desc));
    OriginalCall(p, m.code, a, op, name, desc);
    HiddenIsStuck(p, m, a, b, name, desc);
    assert EmittedFor(m, a.pc) == [InvokeProxied(name, desc)];
  }

  lemma HiddenIsStuck(p: Program, m: Method, a: Activation, b: Activation, name: string, desc: Descriptor)
    requires name in p && !p[name].isPublic && MentionsDouble(desc)
    ensures Execute(RewriteProgram(p), RewriteMethod(m).code, InvokeProxied(name, desc), b) == Stuck
  {
    hide Rewriting, MentionsDouble, Params, ImageDescriptor;
    FallbackFindsNothing(p, name, desc);
  }

  /** Static, special and interface calls stay calls of the method itself, of the replaced descriptor: whoever may
      call it and whatever its types are, they do the same in both programs, and are in the fragment. */
  lemma OtherCallsStay(
      p: Program, m: Method, a: Activation, b: Activation, t: TypeState, op: Opcode, name: string, desc: Descriptor)
    requires Ready(p, m, a, b, t) && m.code[a.pc] == Invoke(op, name, desc) && op != INVOKEVIRTUAL
    requires name in p && p[name].desc == desc && TopTypes(t.stack, Params(desc))
    ensures EmittedFor(m, a.pc) == [Invoke(op, name, ImageDescriptor(desc))]
    ensures Simulates(p, m, a, b) && Covered(p, m, a.pc)
  {
    hide Ready, Simulates, TopTypes, MentionsDouble, Rewriting, TypeAt;
    PublicExactly(p, m, a, b, t, op, name, desc);
  }

  //---------------------------------------------------------------- a method that is not public

  const IDENTITY := Descriptor(true, [TDouble], Some(TDouble))

  const CALLER := Method(
    Descriptor(false, [TRef], Some(TDouble)),
    [Load(TRef, 0), Const(Double(1.0)), Invoke(INVOKEVIRTUAL, "identity", IDENTITY), Return(Some(TDouble))], true)

  const HIDDEN_CALL: Program := map[
    "caller" := CALLER, "identity" := Method(IDENTITY, [Load(TDouble, 1), Return(Some(TDouble))], false)]

  const REWRITTEN_CALLER: seq<Insn> := [Load(TRef, 0), Const(Double(1.0)), InvokeWrapper(FromDouble),
    InvokeProxied("identity", IDENTITY)]

  lemma EmittedInCaller(i: nat)
    requires i < 3
    ensures EmittedFor(CALLER, i) == match i
      case 0 => [Load(TRef, 0)]
      case 1 => [Const(Double(1.0)), InvokeWrapper(FromDouble)]
      case _ => [InvokeProxied("identity", IDENTITY)]
  {
    hide Rewriting;
    assert Params(CALLER.desc) == [TRef];
    assert MentionsDouble(IDENTITY);
  }

  lemma CallerRewritten()
    ensures REWRITTEN_CALLER <= RewriteMethod(CALLER).code
  {
    FrameShift.RewritingStart(CALLER);
    hide Rewriting, EmittedFor;
    for i := 0 to 3
      invariant Rewriting(CALLER, i).out == REWRITTEN_CALLER[..[0, 1, 3, 4][i]]
    {
      EmittedInCaller(i);
      RewritingSnoc(CALLER, i);
    }
    RewritingGrows(CALLER, 3, 4);
  }

  function InCaller(pc: nat, stack: seq<Value>, target: Value): Activation {
    Activation("caller", pc, stack, map[0 := target])
  }

  lemma CallerStarts(p: Program, target: Value)
    requires "caller" in p && target.Ref?
    ensures Start("caller", [target]) == Running([InCaller(0, [], target)])
  {
    assert [target][1..] == [];
    assert LayOut([], 1) == map[];
  }

  lemma OriginalCallReturns(target: Value)
    requires target.Ref?
    ensures TerminatesWith(HIDDEN_CALL, Start("caller", [target]), Some(Double(1.0)))
  {
    hide Steps, LayOut, Start;
    var d, p := Double(1.0), HIDDEN_CALL;
    CallerStarts(p, target);
    var a0, a1, a2 := InCaller(0, [], target), InCaller(1, [target], target), InCaller(2, [target, d], target);
    assert [][..0] + [target] == [target] && [target][..1] + [d] == [target, d] && [target, d][..0] == [];
    FrameShift.Goes(p, a0, a1, 5);
    FrameShift.Goes(p, a1, a2, 4);
    IdentityCalled(target, d);
    IdentityReturns(target, d);
    assert Steps(p, Start("caller", [target]), 6) == Some(Done(Some(d)));
  }

  function InIdentity(pc: nat, stack: seq<Value>, target: Value, d: Value): Activation {
    Activation("identity", pc, stack, map[0 := target, 1 := d])
  }

  lemma IdentityCalled(target: Value, d: Value)
    requires target.Ref? && d.Double?
    ensures Steps(HIDDEN_CALL, Running([InCaller(2, [target, d], target)]), 4)
      == Steps(HIDDEN_CALL, Running([InCaller(3, [], target), InIdentity(0, [], target, d)]), 3)
  {
    hide Steps, Step;
    CallOfIdentity(target, d);
    StepsFrom(HIDDEN_CALL, Running([InCaller(2, [target, d], target)]), 3);
  }

  lemma CallOfIdentity(target: Value, d: Value)
    requires target.Ref? && d.Double?
    ensures Step(HIDDEN_CALL, Running([InCaller(2, [target, d], target)]))
      == Some(Running([InCaller(3, [], target), InIdentity(0, [], target, d)]))
  {
    hide Execute, LayOut;
    var p, a := HIDDEN_CALL, InCaller(2, [target, d], target);
    IdentityOnTop(target, d);
    TargetAndArgument(target, d);
    assert [] + [a] == [a];
    assert [] + [InCaller(3, [], target)] + [InIdentity(0, [], target, d)]
      == [InCaller(3, [], target), InIdentity(0, [], target, d)];
    StepOne(p, [], a);
  }

  lemma IdentityOnTop(target: Value, d: Value)
    requires target.Ref? && d.Double?
    ensures Execute(HIDDEN_CALL, CALLER.code, Invoke(INVOKEVIRTUAL, "identity", IDENTITY),
      InCaller(2, [target, d], target))
      == Call(InCaller(3, [], target), "identity", [target, d])
  {
    hide Execute;
    var stack := [target, d];
    assert Params(IDENTITY) == [TRef, TDouble] && Map(TypeOf, stack) == [TRef, TDouble];
    assert stack[0..] == stack && stack[..0] == [];
    OriginalCall(HIDDEN_CALL, CALLER.code, InCaller(2, stack, target), INVOKEVIRTUAL, "identity", IDENTITY);
  }

  lemma TargetAndArgument(target: Value, d: Value)
    requires target.Ref? && d.Double?
    ensures LayOut([target, d], 0) == map[0 := target, 1 := d]
  {
    assert [target, d][1..] == [d] && [d][1..] == [];
    assert LayOut([], 3) == map[] && LayOut([d], 1) == map[1 := d];
    assert LayOut([target, d], 0) == map[1 := d][0 := target] == map[0 := target, 1 := d];
  }

  lemma IdentityReturns(target: Value, d: Value)
    requires target.Ref? && d.Double?
    ensures Steps(HIDDEN_CALL, Running([InCaller(3, [], target), InIdentity(0, [], target, d)]), 3)
      == Some(Done(Some(d)))
  {
    hide Steps, Step, InCaller, InIdentity;
    var p, c := HIDDEN_CALL, InCaller(3, [], target);
    IdentityLoads(c, target, d);
    StepsFrom(p, Running([c, InIdentity(0, [], target, d)]), 2);
    IdentityLeaves(target, d);
    StepsFrom(p, Running([c, InIdentity(1, [d], target, d)]), 1);
    CallerLeaves(target, d);
    StepsFrom(p, Running([InCaller(3, [d], target)]), 0);
    FrameShift.StepsNone(p, Done(Some(d)));
  }

  lemma IdentityLoads(c: Activation, target: Value, d: Value)
    requires d.Double?
    ensures Step(HIDDEN_CALL, Running([c, InIdentity(0, [], target, d)]))
      == Some(Running([c, InIdentity(1, [d], target, d)]))
  {
    hide Execute;
    var p, a, b := HIDDEN_CALL, InIdentity(0, [], target, d), InIdentity(1, [d], target, d);
    assert Execute(p, p["identity"].code, Load(TDouble, 1), a) == Next(b) by {
      LoadsValue(p, p["identity"].code, TDouble, 1, a);
      assert [][..0] + [d] == [d];
    }
    assert [c] + [a] == [c, a] && [c] + [b] == [c, b];
    StepOne(p, [c], a);
  }

  lemma LoadsValue(p: Program, code: seq<Insn>, kind: Ty, slot: nat, a: Activation)
    requires slot in a.locals && KindFits(kind, TypeOf(a.locals[slot]))
    ensures Execute(p, code, Load(kind, slot), a) == PopPush(a, 0, Some(a.locals[slot]))
  {
  }

  lemma ReturnsDouble(p: Program, code: seq<Insn>, a: Activation, d: Value)
    requires d.Double? && a.stack == [d]
    ensures Execute(p, code, Return(Some(TDouble)), a) == Leave(Some(d))
  {
  }

  lemma IdentityLeaves(target: Value, d: Value)
    requires d.Double?
    ensures Step(HIDDEN_CALL, Running([InCaller(3, [], target), InIdentity(1, [d], target, d)]))
      == Some(Running([InCaller(3, [d], target)]))
  {
    hide Execute;
    var p, c, a, c1 := HIDDEN_CALL, InCaller(3, [], target), InIdentity(1, [d], target, d), InCaller(3, [d], target);
    ReturnsDouble(p, p["identity"].code, a, d);
    assert [c] + [a] == [c, a] && [c][..0] + [c1] == [c1] && [] + [d] == [d];
    StepOne(p, [c], a);
  }

  lemma CallerLeaves(target: Value, d: Value)
    requires d.Double?
    ensures Step(HIDDEN_CALL, Running([InCaller(3, [d], target)])) == Some(Done(Some(d)))
  {
    hide Execute;
    var p, a := HIDDEN_CALL, InCaller(3, [d], target);
    ReturnsDouble(p, p["caller"].code, a, d);
    assert [] + [a] == [a];
    StepOne(p, [], a);
  }

  lemma StepsFrom(p: Program, s: State, n: nat)
    requires Step(p, s).Some?
    ensures Steps(p, s, n + 1) == Steps(p, Step(p, s).value, n)
  {
    hide Step;
  }

  predicate RunsCaller(q: Program) { "caller" in q && REWRITTEN_CALLER <= q["caller"].code }

  /** The stack before the first instructions of the rewritten caller. */
  function CallerStack(pc: nat, target: Value): seq<Value> {
    if pc == 0 then [] else if pc == 1 then [target]
    else if pc == 2 then [target, Double(1.0)]
    else [target, Wrapper(1.0)]
  }

  lemma CallerStep(q: Program, target: Value, pc: nat)
    requires "caller" in q && RunsCaller(q) && target.Ref? && pc < 3
    ensures pc < |q["caller"].code|
    ensures Execute(q, q["caller"].code, q["caller"].code[pc], InCaller(pc, CallerStack(pc, target), target))
      == Next(InCaller(pc + 1, CallerStack(pc + 1, target), target))
  {
    var d, w := Double(1.0), Wrapper(1.0);
    assert q["caller"].code[pc] == REWRITTEN_CALLER[pc];
    assert [][..0] + [target] == [target] && [target][..1] + [d] == [target, d]
      && [target, d][..1] + [w] == [target, w];
    assert [target, d][1..] == [d];
  }

  lemma {:induction false} CallerRuns(q: Program, target: Value, pc: nat)
    requires "caller" in q && RunsCaller(q) && target.Ref? && pc <= 3
    ensures Steps(q, Running([InCaller(pc, CallerStack(pc, target), target)]), 3 - pc)
      == Some(Running([InCaller(3, [target, Wrapper(1.0)], target)]))
    decreases 3 - pc
  {
    hide Execute, Steps, RunsCaller;
    if pc == 3 {
      FrameShift.StepsNone(q, Running([InCaller(3, [target, Wrapper(1.0)], target)]));
    } else {
      var a, b := InCaller(pc, CallerStack(pc, target), target), InCaller(pc + 1, CallerStack(pc + 1, target), target);
      CallerStep(q, target, pc);
      FrameShift.Goes(q, a, b, 2 - pc);
      CallerRuns(q, target, pc + 1);
    }
  }

  lemma RewrittenCallStops(target: Value)
    requires target.Ref?
    ensures var q := RewriteProgram(HIDDEN_CALL);
      var last := Running([InCaller(3, [target, Wrapper(1.0)], target)]);
      Steps(q, Start("caller", [target]), 3) == Some(last) && Step(q, last) == None
  {
    CallerRewritten();
    hide Steps, LayOut, Rewriting, Start, Execute;
    var q, last := RewriteProgram(HIDDEN_CALL), InCaller(3, [target, Wrapper(1.0)], target);
    CallerStarts(q, target);
    CallerRuns(q, target, 0);
    assert q["caller"].code[3] == REWRITTEN_CALLER[3];
    assert [] + [last] == [last];
    HiddenIsStuck(HIDDEN_CALL, CALLER, last, last, "identity", IDENTITY);
    StepOne(q, [], last);
  }

  /** The original returns a value; the rewritten program never returns anything. */
  lemma HiddenMethodBreaks(target: Value)
    requires target.Ref?
    ensures TerminatesWith(HIDDEN_CALL, Start("caller", [target]), Some(Double(1.0)))
    ensures forall r :: !TerminatesWith(RewriteProgram(HIDDEN_CALL), Start("caller", [target]), r)
  {
    hide Steps, Step, Start;
    OriginalCallReturns(target);
    RewrittenCallStops(target);
    var q, s := RewriteProgram(HIDDEN_CALL), Start("caller", [target]);
    forall r ensures !TerminatesWith(q, s, r) {
      if TerminatesWith(q, s, r) {
        var n :| Steps(q, s, n) == Some(Done(r));
        DoneStops(q, r);
        LastIsUnique(q, s, 3, n);
      }
    }
  }
}

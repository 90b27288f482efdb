/** A static method that is not public: calls of it are rewritten correctly. */
module HiddenStatic {
  import opened Collections
  import opened OperandStack
  import opened Opcodes
  import opened Jvm
  import opened FloatReplacement
  import opened LocalVariables
  import opened AnalyzerTracking
  import opened Simulation
  import FrameShift
  import LongLocals
  import VirtualCalls

  const IDENTITY := Descriptor(false, [TDouble], Some(TDouble))

  const IDENTITY_METHOD := Method(IDENTITY, [Load(TDouble, 0), Return(Some(TDouble))], false)

  const CALLER := Method(
    Descriptor(false, [], Some(TDouble)),
    [Const(Double(1.0)), Invoke(INVOKESTATIC, "identity", IDENTITY), Return(Some(TDouble))], true)

  const STATIC_CALL: Program := map["caller" := CALLER, "identity" := IDENTITY_METHOD]

  //---------------------------------------------------------------- the verifier accepts the program

  /** The types before each instruction of the caller but the last. */
  function CallerTypes(i: nat): Option<TypeState> {
    if i > 2 then None else Some(TypeState(if i == 0 then [] else [TDouble], map[]))
  }

  lemma CallerNext(i: nat)
    requires i < 3
    ensures Analyze(CALLER.code[i], CallerTypes(i)) == CallerTypes(i + 1)
    ensures Accepts(STATIC_CALL, CALLER, i, CallerTypes(i).value)
  {
    hide Shuffle, LayOutTypes, StoreAt, SignatureOf, WrapperSignature;
    assert Params(IDENTITY) == [TDouble];
    assert [][..0] + [TDouble] == [TDouble] == [TDouble][..0] + [TDouble] && [TDouble][0..] == [TDouble];
  }

  lemma {:induction false} CallerTyped(i: nat)
    requires i <= 3
    ensures TypeAt(CALLER, i) == CallerTypes(i)
  {
    if i == 0 {
      assert Params(CALLER.desc) == [];
    } else {
      hide Analyze, CallerTypes;
      CallerTyped(i - 1);
      CallerNext(i - 1);
      TypeStep(CALLER, i - 1);
    }
  }

  lemma CallerAccepted()
    ensures WellTyped(STATIC_CALL, CALLER) && InFragment(STATIC_CALL, CALLER)
  {
    hide Accepts, TypeAt, Rewriting;
    forall i | 0 <= i < 3
      ensures TypeAt(CALLER, i) == CallerTypes(i) && Accepts(STATIC_CALL, CALLER, i, CallerTypes(i).value)
    {
      CallerTyped(i);
      CallerNext(i);
    }
    CallerTyped(3);
  }

  const ONE_DOUBLE: map<int, Ty> := map[0 := TDouble]

  lemma IdentityTypes()
    ensures TypeAt(IDENTITY_METHOD, 0) == Some(TypeState([], ONE_DOUBLE))
    ensures TypeAt(IDENTITY_METHOD, 1) == Some(TypeState([TDouble], ONE_DOUBLE))
    ensures TypeAt(IDENTITY_METHOD, 2) == None
  {
    assert Params(IDENTITY) == [TDouble] && [TDouble][1..] == [];
    assert LayOutTypes([], 2) == map[] && LayOutTypes([TDouble], 0) == ONE_DOUBLE;
    assert [][..0] + [TDouble] == [TDouble];
    TypeStep(IDENTITY_METHOD, 0);
    TypeStep(IDENTITY_METHOD, 1);
  }

  lemma IdentityAccepted()
    ensures WellTyped(STATIC_CALL, IDENTITY_METHOD) && InFragment(STATIC_CALL, IDENTITY_METHOD)
  {
    hide TypeAt;
    IdentityTypes();
  }

  //---------------------------------------------------------------- the two runs

  function InCaller(pc: nat, stack: seq<Value>): Activation { Activation("caller", pc, stack, map[]) }

  function InIdentity(pc: nat, stack: seq<Value>, d: Value): Activation {
    Activation("identity", pc, stack, map[0 := d])
  }

  lemma CallsIdentity(d: Value)
    requires d.Double?
    ensures Execute(STATIC_CALL, CALLER.code, CALLER.code[1], InCaller(1, [d]))
      == Call(InCaller(2, []), "identity", [d])
    ensures LayOut([d], 0) == map[0 := d]
  {
    assert Params(IDENTITY) == [TDouble] && Map(TypeOf, [d]) == [TDouble];
    assert [d][0..] == [d] && [d][..0] == [] && [d][1..] == [];
    assert LayOut([], 2) == map[];
  }

  lemma CallerStarts()
    ensures Start("caller", []) == Running([InCaller(0, [])])
  {
  }

  lemma OriginalReturns()
    ensures TerminatesWith(STATIC_CALL, Start("caller", []), Some(Double(1.0)))
  {
    hide Steps, Execute, LayOut, Start;
    var p, d := STATIC_CALL, Double(1.0);
    CallerStarts();
    FrameShift.GoesConst(p, InCaller(0, []), d, 4);
    CallsIdentity(d);
    LongLocals.Calls(p, InCaller(1, [d]), InCaller(2, []), "identity", [d], 3);
    LongLocals.Loads(p, IDENTITY_METHOD.code, TDouble, 0, InIdentity(0, [], d));
    LongLocals.Goes(p, [InCaller(2, [])], InIdentity(0, [], d), InIdentity(1, [d], d), 2);
    assert [InCaller(2, [])] + [InIdentity(0, [], d)] == [InCaller(2, []), InIdentity(0, [], d)];
    assert [InCaller(2, [])] + [InIdentity(1, [d], d)] == [InCaller(2, []), InIdentity(1, [d], d)];
    VirtualCalls.ReturnsDouble(p, IDENTITY_METHOD.code, InIdentity(1, [d], d), d);
    LongLocals.Returns(p, InCaller(2, []), InIdentity(1, [d], d), d, 1);
    assert [] + [d] == [d];
    VirtualCalls.ReturnsDouble(p, CALLER.code, InCaller(2, [d]), d);
    assert [] + [InCaller(2, [d])] == [InCaller(2, [d])];
    StepOne(p, [], InCaller(2, [d]));
    assert Steps(p, Start("caller", []), 5) == Some(Done(Some(d)));
  }

  /** The rewritten program returns the wrapped 1.0, though nobody may look the method up. */
  lemma HiddenStaticWorks()
    ensures Rewritable(STATIC_CALL) && !STATIC_CALL["identity"].isPublic
    ensures TerminatesWith(STATIC_CALL, Start("caller", []), Some(Double(1.0)))
    ensures TerminatesWith(RewriteProgram(STATIC_CALL), Start("caller", []), Some(Wrapper(1.0)))
  {
    hide WellTyped, InFragment, Steps, Start, LayOut;
    CallerAccepted();
    IdentityAccepted();
    OriginalReturns();
    assert Params(CALLER.desc) == [] == Map(TypeOf, []) && Map(Image, []) == [];
    SameResults(STATIC_CALL, "caller", [], Some(Wrapper(1.0)));
    assert Some(Wrapper(1.0)) == ImageOption(Some(Double(1.0)));
  }
}

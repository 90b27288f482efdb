/** A program that is rewritten correctly: a proxied call with doubles in its descriptor, and a long under its
    operands. */
module LongOperands {
  import opened Collections
  import opened OperandStack
  import opened Opcodes
  import opened Jvm
  import opened Analyzer
  import opened AnalyzerSlots
  import opened FloatReplacement
  import opened AnalyzerTracking
  import opened Simulation
  import FrameShift
  import VirtualCalls

  const IDENTITY := VirtualCalls.IDENTITY

  const IDENTITY_METHOD := Method(IDENTITY, [Load(TDouble, 1), Return(Some(TDouble))], true)

  /** 5 plus the truncated result of a call with 1.0. */
  const SUM := Method(
    Descriptor(false, [TRef], Some(TLong)),
    [Const(Long(5)), Load(TRef, 0), Const(Double(1.0)), Invoke(INVOKEVIRTUAL, "identity", IDENTITY), Calc(D2L),
      Calc(LADD), Return(Some(TLong))],
    true)

  const SUMS: Program := map["sum" := SUM, "identity" := IDENTITY_METHOD]

  //---------------------------------------------------------------- the verifier accepts the program

  const ONE_REF: map<int, Ty> := map[0 := TRef]

  /** The operand types before each instruction but the last. */
  const STACKS: seq<seq<Ty>> := [
    [], [TLong], [TLong, TRef], [TLong, TRef, TDouble], [TLong, TDouble], [TLong, TLong], [TLong]]

  function TypesOfSum(i: nat): Option<TypeState>
    requires i <= 7
  {
    if i == 7 then None else Some(TypeState(STACKS[i], ONE_REF))
  }

  lemma TypesNext(i: nat)
    requires i < 7
    ensures Analyze(SUM.code[i], TypesOfSum(i)) == TypesOfSum(i + 1)
  {
    hide Analyze;
    if i < 3 { OperandsPushed(i); } else { OperandsPopped(i); }
  }

  lemma OperandsPushed(i: nat)
    requires i < 3
    ensures Analyze(SUM.code[i], TypesOfSum(i)) == TypesOfSum(i + 1)
  {
    hide WrapperSignature, LayOutTypes, Shuffle, SignatureOf, Params;
    assert [][..0] + [TLong] == [TLong] && [TLong][..1] + [TRef] == [TLong, TRef];
    assert [TLong, TRef][..2] + [TDouble] == [TLong, TRef, TDouble];
  }

  lemma OperandsPopped(i: nat)
    requires 3 <= i < 7
    ensures Analyze(SUM.code[i], TypesOfSum(i)) == TypesOfSum(i + 1)
  {
    hide WrapperSignature, LayOutTypes, Shuffle, Params;
    assert |Params(IDENTITY)| == 2 by { CallOperands(); }
    assert [TLong, TRef, TDouble][..1] + [TDouble] == [TLong, TDouble];
    assert [TLong, TDouble][..1] + [TLong] == [TLong, TLong] && [TLong, TLong][..0] + [TLong] == [TLong];
  }

  lemma CallOperands()
    ensures Params(IDENTITY) == [TRef, TDouble]
  {
  }

  lemma AcceptsHere(i: nat)
    requires i < 7
    ensures Accepts(SUMS, SUM, i, TypesOfSum(i).value)
  {
    hide LayOutTypes, Shuffle, JumpFits, FitsFrame, TopTypes, Params;
    Operands();
  }

  lemma Operands()
    ensures TopTypes([TLong, TRef, TDouble], Params(IDENTITY)) && TopTypes([TLong, TDouble], [TDouble])
    ensures TopTypes([TLong, TLong], [TLong, TLong]) && TopTypes([TLong], [TLong])
  {
    assert [TLong, TRef, TDouble][1..] == [TRef, TDouble] && [TLong, TDouble][1..] == [TDouble];
    assert [TLong, TLong][0..] == [TLong, TLong] && [TLong][0..] == [TLong];
  }

  lemma {:induction false} TypesAre(i: nat)
    requires i <= 7
    ensures TypeAt(SUM, i) == TypesOfSum(i)
  {
    hide Analyze, TypesOfSum;
    if i == 0 {
      SumStarts();
    } else {
      TypesAre(i - 1);
      TypesNext(i - 1);
      TypeStep(SUM, i - 1);
    }
  }

  lemma SumStarts()
    ensures TypeAt(SUM, 0) == TypesOfSum(0)
  {
    assert Params(SUM.desc) == [TRef];
    assert [TRef][1..] == [] && LayOutTypes([], 1) == map[];
  }

  lemma SumAccepted()
    ensures WellTyped(SUMS, SUM)
  {
    hide Accepts, TypeAt, Analyze;
    forall i | 0 <= i < 7
      ensures Accepts(SUMS, SUM, i, TypesOfSum(i).value) && TypeAt(SUM, i) == TypesOfSum(i)
    {
      TypesAre(i);
      AcceptsHere(i);
    }
    TypesAre(7);
  }

  lemma IdentityTypes()
    ensures TypeAt(IDENTITY_METHOD, 0) == Some(TypeState([], map[0 := TRef, 1 := TDouble]))
    ensures TypeAt(IDENTITY_METHOD, 1) == Some(TypeState([TDouble], map[0 := TRef, 1 := TDouble]))
    ensures TypeAt(IDENTITY_METHOD, 2) == None
  {
    assert Params(IDENTITY) == [TRef, TDouble] && [TRef, TDouble][1..] == [TDouble] && [TDouble][1..] == [];
    assert LayOutTypes([], 3) == map[] && LayOutTypes([TDouble], 1) == map[1 := TDouble];
    assert LayOutTypes([TRef, TDouble], 0) == map[0 := TRef, 1 := TDouble];
    assert [][..0] + [TDouble] == [TDouble];
    TypeStep(IDENTITY_METHOD, 0);
    TypeStep(IDENTITY_METHOD, 1);
  }

  lemma IdentityAccepted()
    ensures WellTyped(SUMS, IDENTITY_METHOD) && InFragment(SUMS, IDENTITY_METHOD)
  {
    hide TypeAt;
    IdentityTypes();
  }

  //---------------------------------------------------------------- what the analyzer knows

  lemma KnownBeforeCall()
    ensures Rewriting(SUM, 3).known == Some(Analysis([TLong, TTop, TRef, TWrapper], ONE_REF))
  {
    hide Rewriting, EmittedFor, Observe;
    KnownStarts();
    for i := 0 to 3
      invariant Rewriting(SUM, i).known == Some(Analysis([[], [TLong, TTop], [TLong, TTop, TRef],
        [TLong, TTop, TRef, TWrapper]][i], ONE_REF))
    {
      EmittedInSum(i);
      ObservedInSum(i);
      FrameShift.KnownNext(SUM, i);
    }
  }

  lemma KnownStarts()
    ensures Rewriting(SUM, 0).known == Some(Analysis([], ONE_REF))
  {
    assert Map(ImageTy, Params(SUM.desc)) == [TRef];
    assert [TRef][1..] == [] && LayOutTypes([], 1) == map[];
  }

  const REWRITTEN_SUM: seq<seq<Insn>> := [
    [Const(Long(5))], [Load(TRef, 0)], [Const(Double(1.0)), InvokeWrapper(FromDouble)]]

  lemma EmittedInSum(i: nat)
    requires i < 3
    ensures EmittedFor(SUM, i) == REWRITTEN_SUM[i]
  {
    hide Rewriting;
    assert Params(SUM.desc) == [TRef];
  }

  lemma ObservedInSum(i: nat)
    requires i < 3
    ensures var known := [[], [TLong, TTop], [TLong, TTop, TRef], [TLong, TTop, TRef, TWrapper]];
      ObserveAll(REWRITTEN_SUM[i], Some(Analysis(known[i], ONE_REF))) == Some(Analysis(known[i + 1], ONE_REF))
  {
    hide ObserveAll, ImageDescriptor, Slots, StoreSlots;
    SlotsOfOne();
    if i == 0 {
      ObserveOne(Const(Long(5)), Some(Analysis([], ONE_REF)));
      assert [][..0] + [TLong, TTop] == [TLong, TTop];
    } else if i == 1 {
      ObserveOne(Load(TRef, 0), Some(Analysis([TLong, TTop], ONE_REF)));
      assert [TLong, TTop] + [TRef] == [TLong, TTop, TRef];
    } else {
      WrapperObserved([TLong, TTop, TRef]);
      assert [TLong, TTop, TRef] + [TWrapper] == [TLong, TTop, TRef, TWrapper];
    }
  }

  lemma WrapperObserved(s: seq<Ty>)
    ensures ObserveAll(REWRITTEN_SUM[2], Some(Analysis(s, ONE_REF))) == Some(Analysis(s + [TWrapper], ONE_REF))
  {
    hide ObserveAll, ImageDescriptor, Slots, StoreSlots;
    SlotsOfOne();
    ObserveTwo(Const(Double(1.0)), InvokeWrapper(FromDouble), Some(Analysis(s, ONE_REF)));
    assert s[..|s|] == s && (s + [TDouble, TTop])[..|s|] == s;
  }

  lemma SlotsOfOne()
    ensures Slots([TLong]) == [TLong, TTop] && Slots([TDouble]) == [TDouble, TTop] && Slots([TWrapper]) == [TWrapper]
    ensures Slots([TRef]) == [TRef]
  {
  }

  lemma CallCovered()
    ensures Covered(SUMS, SUM, 3)
  {
    hide Rewriting, Slots;
    KnownBeforeCall();
    var s := [TLong, TTop, TRef, TWrapper];
    assert |Slots(Params(ImageDescriptor(IDENTITY)))| == 2 by { ImageSlots(); }
    assert s[..2] == [TLong, TTop];
  }

  lemma ImageSlots()
    ensures |Slots(Params(ImageDescriptor(IDENTITY)))| == 2
  {
    assert Map(ImageTy, [TDouble]) == [TWrapper] && Params(ImageDescriptor(IDENTITY)) == [TRef, TWrapper];
    SlotsOfTwo(TRef, TWrapper);
  }

  /** The long stays above no wrapper: such programs are rewritten correctly. */
  lemma SumsRewritable()
    ensures Rewritable(SUMS)
  {
    hide WellTyped, Covered;
    SumAccepted();
    IdentityAccepted();
    forall i | 0 <= i < 7 ensures Covered(SUMS, SUM, i) {
      if i == 3 { CallCovered(); } else { PlainCovered(i); }
    }
  }

  lemma PlainCovered(i: nat)
    requires i < 7 && i != 3
    ensures Covered(SUMS, SUM, i)
  {
  }
}

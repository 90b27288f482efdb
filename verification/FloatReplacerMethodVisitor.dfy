/** The chain of method visitors that rewrites a body: replacer, sorter, analyzer. */
module FloatReplacerMethodVisitor {
  import opened Collections
  import opened OperandStack
  import opened Opcodes
  import opened Jvm
  import opened Analyzer
  import opened FloatReplacement
  import Sorting = FloatVariablesSorter

  /** The end of the chain: ASM's analyzer, which passes the code on to the writer. */
  class AnalyzerAdapter {
    var code: seq<Insn>
    var known: Option<Analysis>

    constructor (desc: Descriptor)
      ensures code == [] && known == Some(Analysis([], LayOutTypes(Params(desc), 0)))
    {
      code := [];
      known := Some(Analysis([], LayOutTypes(Params(desc), 0)));
    }

    method Visit(insn: Insn)
      modifies this
      ensures code == old(code) + [insn] && known == Observe(insn, old(known))
    {
      code := code + [insn];
      known := Observe(insn, known);
    }
  }

  /** Renumbers the variables of what it passes on. */
  class FloatVariablesSorter {
    const firstFrameMapping: array<int>
    const maxRenumber: int
    const mv: AnalyzerAdapter
    ghost const params: seq<Ty>

    ghost predicate Valid()
      reads firstFrameMapping
    {
      && maxRenumber == Sorting.LastStart(params) < firstFrameMapping.Length
      && forall v | 0 <= v <= maxRenumber :: firstFrameMapping[v] == Sorting.Renumber(params, v)
    }

    constructor (hasTarget: bool, args: seq<Ty>, mv: AnalyzerAdapter)
      ensures Valid() && fresh(firstFrameMapping)
      ensures this.mv == mv && params == Params(Descriptor(hasTarget, args, None))
    {
      hide Sorting.OldSize, Sorting.NewSize, Sorting.LastStart, Sorting.ParamAt, Placement;
      ghost var before: seq<Ty> := [];
      Unplaced();
      var mapping := new int[1 + |args| * 2](_ => -1);
      var oldVarIndex, newVarIndex, lastIndexSet := 0, 0, -1;
      if hasTarget {
        oldVarIndex, newVarIndex := 1, 1;
        mapping[0] := 0;
        lastIndexSet := 0;
        Placed([], TRef);
        before := [] + [TRef];
      }
      ghost var head := before;
      for i := 0 to |args|
        invariant before == head + args[..i]
        invariant oldVarIndex == Sorting.OldSize(before) && newVarIndex == Sorting.NewSize(before)
        invariant oldVarIndex <= 1 + i * 2 && lastIndexSet == Sorting.LastStart(before) < oldVarIndex
        invariant forall v | 0 <= v < mapping.Length :: mapping[v] == Placement(before, v)
      {
        var arg := args[i];
        Placed(before, arg);
        mapping[oldVarIndex] := newVarIndex;
        lastIndexSet := oldVarIndex;
        oldVarIndex := oldVarIndex + Size(arg);
        newVarIndex := newVarIndex + Size(arg);
        if arg == TDouble { newVarIndex := newVarIndex - 1; }
        before := before + [arg];
      }
      PlacementIsRenumbering(before);
      firstFrameMapping := mapping;
      maxRenumber := lastIndexSet;
      this.mv := mv;
      params := before;
    }

    method RemapFirstFrame(v: int) returns (r: int)
      requires Valid() && 0 <= v
      ensures r == Sorting.Renumber(params, v)
    {
      if v > maxRenumber { return v; }
      return firstFrameMapping[v];
    }

    /** visitVarInsn, visitIincInsn and visitFrame; everything else passes unchanged. */
    method Visit(insn: Insn)
      requires Valid() && NamesVariable(insn)
      modifies mv
      ensures mv.code == old(mv.code) + [RenumberInsn(params, insn)]
      ensures mv.known == Observe(RenumberInsn(params, insn), old(mv.known))
    {
      var renumbered := insn;
      match insn {
        case Load(kind, slot) => var v := RemapFirstFrame(slot); renumbered := Load(kind, v);
        case Store(kind, slot) => var v := RemapFirstFrame(slot); renumbered := Store(kind, v);
        case Iinc(slot, amount) => var v := RemapFirstFrame(slot); renumbered := Iinc(v, amount);
        case Frame(locals, stack) => renumbered := Frame(Map(ImageTy, locals), Map(ImageTy, stack));
        case _ =>
      }
      mv.Visit(renumbered);
    }
  }

  /** Slots are never negative in a class file. */
  predicate NamesVariable(insn: Insn) {
    (insn.Load? || insn.Store? || insn.Iinc?) ==> 0 <= insn.slot
  }

  /** A cell of the mapping while parameters are being placed: -1 until one starts there. */
  function Placement(params: seq<Ty>, v: int): int {
    match Sorting.ParamAt(params, v) case None => -1 case Some(k) => Sorting.NewSize(params[..k])
  }

  lemma Unplaced()
    ensures Sorting.OldSize([]) == Sorting.NewSize([]) == 0 && Sorting.LastStart([]) == -1
    ensures forall v :: Placement([], v) == -1
  {
  }

  lemma PlacementIsRenumbering(params: seq<Ty>)
    ensures forall v | v <= Sorting.LastStart(params) :: Placement(params, v) == Sorting.Renumber(params, v)
  {
  }

  lemma {:induction false} ParamAtSnoc(params: seq<Ty>, t: Ty, v: int)
    ensures Sorting.ParamAt(params + [t], v) ==
      if v == Sorting.OldSize(params) then Some(|params|) else Sorting.ParamAt(params, v)
  {
    if params == [] {
      assert params + [t] == [t] && [t][1..] == [];
    } else {
      assert (params + [t])[1..] == params[1..] + [t];
      ParamAtSnoc(params[1..], t, v - Size(params[0]));
    }
  }

  /** One more parameter changes one cell. */
  lemma Placed(params: seq<Ty>, t: Ty)
    ensures forall v ::
      Placement(params + [t], v) == if v == Sorting.OldSize(params) then Sorting.NewSize(params)
        else Placement(params, v)
    ensures Sorting.OldSize(params + [t]) == Sorting.OldSize(params) + Size(t)
    ensures Sorting.NewSize(params + [t]) == Sorting.NewSize(params) + Size(ImageTy(t))
    ensures Sorting.LastStart(params + [t]) == Sorting.OldSize(params)
  {
    Sorting.SizeSnoc(params, t);
    assert (params + [t])[..|params|] == params;
    forall v
      ensures Placement(params + [t], v) ==
        if v == Sorting.OldSize(params) then Sorting.NewSize(params) else Placement(params, v)
    {
      ParamAtSnoc(params, t, v);
      var k := Sorting.ParamAt(params, v);
      if k.Some? { assert (params + [t])[..k.value] == params[..k.value]; }
    }
  }

  /** The wrapper methods that replace instructions. */
  function Invocations(): map<CalcOp, WrapperMethod> {
    map[
      DADD := Operation(DADD), DSUB := Operation(DSUB), DMUL := Operation(DMUL), DREM := Operation(DREM),
      DDIV := Operation(DDIV), DNEG := Operation(DNEG), DCMPL := Operation(DCMPL), DCMPG := Operation(DCMPG),
      I2D := Operation(I2D), L2D := Operation(L2D), D2I := Operation(D2I), D2L := Operation(D2L)]
  }

  lemma InvokedExactly(op: CalcOp)
    ensures op in Invocations() <==> IsDoubleOp(op)
    ensures op in Invocations() ==> Invocations()[op] == Operation(op)
  {
  }

  /** The tables from opcodes to methods of the wrapper class. */
  class ReplaceFloatsInstrumenter {
    var invocations: map<CalcOp, WrapperMethod>
    var conversions: map<Value, WrapperMethod>

    ghost predicate Valid()
      reads this
    {
      && (forall op :: op in invocations <==> IsDoubleOp(op))
      && (forall op | op in invocations :: invocations[op] == Operation(op))
      && conversions == map[Double(0.0) := FromDouble, Double(1.0) := FromDouble]
    }

    constructor ()
      ensures Valid()
    {
      hide Invocations, IsDoubleOp;
      invocations := Invocations();
      conversions := map[Double(0.0) := FromDouble, Double(1.0) := FromDouble];
      forall op ensures op in Invocations() <==> IsDoubleOp(op) { InvokedExactly(op); }
      forall op | op in Invocations() ensures Invocations()[op] == Operation(op) { InvokedExactly(op); }
    }

    predicate WantsToInstrument(insn: Insn)
      reads this
    {
      || (insn.Calc? && insn.fn in invocations)
      || (insn.Const? && insn.c in conversions)
      || insn == Return(Some(TDouble))
    }

    /** A call in place of the instruction, a call after it, or a return of a reference. */
    method Instrument(mv: FloatVariablesSorter, insn: Insn)
      requires Valid() && mv.Valid() && WantsToInstrument(insn)
      modifies mv.mv
      ensures mv.mv.code == old(mv.mv.code) + Emitted(mv.params, insn, None)
      ensures mv.mv.known == ObserveAll(Emitted(mv.params, insn, None), old(mv.mv.known))
    {
      ghost var e := Emitted(mv.params, insn, None);
      if insn.Calc? {
        mv.Visit(InvokeWrapper(invocations[insn.fn]));
        assert e == [InvokeWrapper(Operation(insn.fn))];
      } else if insn.Const? {
        mv.Visit(insn);
        mv.Visit(InvokeWrapper(conversions[insn.c]));
        assert e == [insn, InvokeWrapper(FromDouble)];
      } else {
        mv.Visit(Return(Some(TRef)));
        assert e == [Return(Some(TRef))];
      }
      TwoAtMost(e, old(mv.mv.known));
    }
  }

  lemma TwoAtMost(e: seq<Insn>, t: Option<Analysis>)
    requires 1 <= |e| <= 2
    ensures ObserveAll(e, t) == if |e| == 1 then Observe(e[0], t) else Observe(e[1], Observe(e[0], t))
  {
    assert e[1..] == if |e| == 1 then [] else [e[1]];
    assert [e[|e| - 1]][1..] == [];
  }

  /** The instructions of a class file: DCONST comes with two operands only. */
  predicate Encodable(insn: Insn) {
    NamesVariable(insn) && (insn.Const? && insn.c.Double? ==> insn.c.d == 0.0 || insn.c.d == 1.0)
  }

  class FloatReplacerMethodVisitor {
    const mv: FloatVariablesSorter
    const factory: ReplaceFloatsInstrumenter

    constructor (mv: FloatVariablesSorter, factory: ReplaceFloatsInstrumenter)
      ensures this.mv == mv && this.factory == factory
    {
      this.mv, this.factory := mv, factory;
    }

    ghost predicate Valid()
      reads mv.firstFrameMapping, factory
    {
      mv.Valid() && factory.Valid()
    }

    /** What was written and what the analyzer knows, after one more visited instruction. */
    twostate predicate Wrote(insn: Insn)
      reads mv.mv
    {
      var e := Emitted(mv.params, insn, StackTop(old(mv.mv.known)));
      mv.mv.code == old(mv.mv.code) + e && mv.mv.known == ObserveAll(e, old(mv.mv.known))
    }

    method Visit(insn: Insn)
      requires Valid() && Encodable(insn)
      modifies mv.mv
      ensures Wrote(insn)
    {
      match insn {
        case Load(_, _) => VisitVarInsn(insn);
        case Store(_, _) => VisitVarInsn(insn);
        case Ldc(c) => VisitLdcInsn(c);
        case Invoke(opcode, name, desc) => VisitMethodInsn(opcode, name, desc);
        case _ => VisitInsn(insn);
      }
    }

    method VisitInsn(insn: Insn)
      requires Valid() && Encodable(insn) && !insn.Load? && !insn.Store? && !insn.Ldc? && !insn.Invoke?
      modifies mv.mv
      ensures Wrote(insn)
    {
      ghost var e := Emitted(mv.params, insn, StackTop(mv.mv.known));
      var replaced := insn;
      if insn.Stack? && insn.op in {DUP2, DUP2_X1, DUP2_X2, POP2} {
        if StackTop(mv.mv.known) == Some(TWrapper) {
          match insn.op {
            case DUP2 => replaced := Stack(DUP);
            case DUP2_X1 => replaced := Stack(DUP_X1);
            case DUP2_X2 => replaced := Stack(DUP_X2);
            case _ => replaced := Stack(POP);
          }
        }
      }
      if factory.WantsToInstrument(replaced) {
        factory.Instrument(mv, replaced);
      } else {
        mv.Visit(replaced);
        assert e == [RenumberInsn(mv.params, replaced)];
        TwoAtMost(e, old(mv.mv.known));
      }
    }

    method VisitVarInsn(insn: Insn)
      requires Valid() && Encodable(insn) && (insn.Load? || insn.Store?)
      modifies mv.mv
      ensures Wrote(insn)
    {
      ghost var e := Emitted(mv.params, insn, StackTop(mv.mv.known));
      var replaced := insn;
      if insn == Load(TDouble, insn.slot) { replaced := Load(TRef, insn.slot); }
      else if insn == Store(TDouble, insn.slot) { replaced := Store(TRef, insn.slot); }
      mv.Visit(replaced);
      assert e == [RenumberInsn(mv.params, replaced)];
      TwoAtMost(e, old(mv.mv.known));
    }

    method VisitLdcInsn(c: Value)
      requires Valid()
      modifies mv.mv
      ensures Wrote(Ldc(c))
    {
      ghost var e := Emitted(mv.params, Ldc(c), StackTop(mv.mv.known));
      mv.Visit(Ldc(c));
      if c.Double? {
        mv.Visit(InvokeWrapper(FromDouble));
        assert e == [Ldc(c), InvokeWrapper(FromDouble)];
      } else {
        assert e == [Ldc(c)];
      }
      TwoAtMost(e, old(mv.mv.known));
    }

    /** A call of a method that has been rewritten itself: virtual calls may go through the proxy, for others only the
        descriptor changes. */
    method VisitMethodInsn(opcode: Opcode, name: string, desc: Descriptor)
      requires Valid()
      modifies mv.mv
      ensures Wrote(Invoke(opcode, name, desc))
      ensures mv.mv.code == old(mv.mv.code) +
        [if opcode == INVOKEVIRTUAL && MentionsDouble(desc) then InvokeProxied(name, desc)
         else Invoke(opcode, name, ImageDescriptor(desc))]
    {
      ghost var e := Emitted(mv.params, Invoke(opcode, name, desc), StackTop(mv.mv.known));
      var instrumented := InstrumentCall(opcode, name, desc);
      if instrumented {
        assert e == [InvokeProxied(name, desc)];
      } else {
        mv.Visit(Invoke(opcode, name, ImageDescriptor(desc)));
        assert e == [Invoke(opcode, name, ImageDescriptor(desc))];
      }
      TwoAtMost(e, old(mv.mv.known));
    }

    /** ReplaceFloatsMethods.instrumentCall, for an owner that is rewritten. */
    method InstrumentCall(opcode: Opcode, name: string, desc: Descriptor) returns (instrumented: bool)
      requires Valid()
      modifies mv.mv
      ensures instrumented <==> opcode == INVOKEVIRTUAL && MentionsDouble(desc)
      ensures instrumented ==> mv.mv.code == old(mv.mv.code) + [InvokeProxied(name, desc)]
      ensures instrumented ==> mv.mv.known == Observe(InvokeProxied(name, desc), old(mv.mv.known))
      ensures !instrumented ==> mv.mv.code == old(mv.mv.code) && mv.mv.known == old(mv.mv.known)
    {
      instrumented := false;
      if opcode == INVOKEVIRTUAL {
        if !MentionsDouble(desc) { return; }
        mv.Visit(InvokeProxied(name, desc));
        instrumented := true;
      }
    }
  }

  lemma ImageOfParams(d: Descriptor)
    ensures Params(ImageDescriptor(d)) == Map(ImageTy, Params(d))
  {
  }

  /** Sets up the chain for a method and sends its body through it. */
  method InstrumentMethod(m: Method) returns (r: Method)
    requires forall i | 0 <= i < |m.code| :: Encodable(m.code[i])
    ensures r == RewriteMethod(m)
  {
    hide Emitted, Observe, ObserveAll, Map, LayOutTypes, Sorting.Renumber, Sorting.LastStart, StackTop, IsDoubleOp;
    var aa := new AnalyzerAdapter(ImageDescriptor(m.desc));
    var lvs := new FloatVariablesSorter(m.desc.hasTarget, m.desc.args, aa);
    var factory := new ReplaceFloatsInstrumenter();
    var frmv := new FloatReplacerMethodVisitor(lvs, factory);
    assert lvs.params == Params(m.desc);
    ImageOfParams(m.desc);
    for i := 0 to |m.code|
      invariant frmv.Valid() && aa.code == Rewriting(m, i).out && aa.known == Rewriting(m, i).known
    {
      frmv.Visit(m.code[i]);
    }
    r := Method(ImageDescriptor(m.desc), aa.code, m.isPublic);
  }
}

/** The generator of the code around calls of uninstrumented methods. */
module FloatProxyMethod {
  import opened Collections
  import opened OperandStack
  import opened Opcodes
  import opened Descriptors
  import opened ProxyMachine
  import opened ProxyCode
  import opened ProxyCallProof

  /** A method that is being written. */
  class MethodVisitor {
    var code: seq<Insn>

    constructor ()
      ensures code == []
    {
      code := [];
    }

    method Visit(insns: seq<Insn>)
      modifies this
      ensures code == old(code) + insns
    {
      code := code + insns;
    }
  }

  method ConvertCojacToRealType(realType: JType, mv: MethodVisitor)
    modifies mv
    ensures mv.code == old(mv.code) + CojacToReal(realType)
  {
    if realType == Prim(FLOAT) {
      mv.Visit([Call(ToFloat)]);
    } else if realType == FLOAT_CLASS {
      mv.Visit([Call(ToRealFloatWrapper)]);
    } else if realType == Prim(DOUBLE) {
      mv.Visit([Call(ToDouble)]);
    } else if realType == DOUBLE_CLASS {
      mv.Visit([Call(ToRealDoubleWrapper)]);
    } else if RealArray(realType) || JWrapperArray(realType) {
      mv.Visit([CheckCast(OBJECT), Ldc(realType.dims)]);
      var eType := realType.elem;
      if eType == Prim(FLOAT) {
        mv.Visit([CallWithDims(FloatArrayToPrimitive)]);
      } else if eType == Prim(DOUBLE) {
        mv.Visit([CallWithDims(DoubleArrayToPrimitive)]);
      } else if eType == FLOAT_CLASS {
        mv.Visit([CallWithDims(FloatArrayToJWrapper)]);
      } else {
        mv.Visit([CallWithDims(DoubleArrayToJWrapper)]);
      }
      mv.Visit([CheckCast(realType)]);
    }
  }

  method ConvertRealToCojacType(realType: JType, mv: MethodVisitor)
    modifies mv
    ensures mv.code == old(mv.code) + RealToCojac(realType)
  {
    if realType == Prim(FLOAT) {
      mv.Visit([Call(FromFloat)]);
    } else if realType == FLOAT_CLASS {
      mv.Visit([Call(FromRealFloatWrapper)]);
    } else if realType == Prim(DOUBLE) {
      mv.Visit([Call(FromDouble)]);
    } else if realType == DOUBLE_CLASS {
      mv.Visit([Call(FromRealDoubleWrapper)]);
    } else if RealArray(realType) {
      mv.Visit([CheckCast(OBJECT), Ldc(realType.dims)]);
      if realType.elem == Prim(FLOAT) {
        mv.Visit([CallWithDims(FloatArrayToCojac)]);
      } else {
        mv.Visit([CallWithDims(DoubleArrayToCojac)]);
      }
      mv.Visit([CheckCast(AfterFloatReplacement(realType))]);
    }
  }

  method ConvertReturnType(returnType: JType, mv: MethodVisitor)
    modifies mv
    ensures mv.code == old(mv.code) + ReturnConversion(returnType)
  {
    hide RealToCojac;
    var cojacType := AfterFloatReplacement(returnType);
    ReplacedExactly(returnType);
    if returnType != cojacType {
      ConvertRealToCojacType(returnType, mv);
    }
    if returnType == OBJECT {
      mv.Visit(ObjectTo(ObjectToCojac, cojacType));
    } else if returnType.Arr? && returnType.elem == OBJECT {
      mv.Visit(ObjectTo(ObjectToCojac, cojacType));
    }
  }

  method MaybeConvertTarget(cc: ConversionContext, mv: MethodVisitor, ghost c: Context)
    requires cc.Describes(c)
    modifies mv
    ensures mv.code == old(mv.code) + TargetConversion(c)
  {
    hide CojacToReal;
    if !HasTarget(cc.opcode) { return; }
    if cc.opcode != INVOKEVIRTUAL { return; }
    ReplacedExactly(cc.owner);
    if cc.owner == FLOAT_CLASS || cc.owner == DOUBLE_CLASS || cc.owner != AfterFloatReplacement(cc.owner) {
      mv.Visit([Stack(SWAP)]);
      ConvertCojacToRealType(cc.owner, mv);
      mv.Visit([Stack(SWAP)]);
    }
  }

  method ExplodeArguments(cc: ConversionContext, mv: MethodVisitor, ghost c: Context)
    requires cc.Describes(c)
    modifies mv
    ensures mv.code == old(mv.code) + ExplodeOnStack(c)
  {
    hide Sink, BoxClass, ConversionContext.Describes, Explode;
    assert cc.outArgs == c.OutArgs() by { FieldsOf(cc, c); }
    ghost var start := mv.code;
    for i := 0 to |cc.outArgs|
      invariant mv.code == start + ExplodeAll(c, i)
    {
      ExplodeArgument(cc.outArgs[i], mv, i, c);
      Joined(start, ExplodeAll(c, i), Explode(c, i));
    }
    mv.Visit([Stack(POP)]);
    Joined(start, ExplodeAll(c, c.N()), [Stack(POP)]);
  }

  method ExplodeArgument(oa: JType, mv: MethodVisitor, i: nat, ghost c: Context)
    requires i < c.N() && oa == c.OutArgs()[i]
    modifies mv
    ensures mv.code == old(mv.code) + Explode(c, i)
  {
    hide Sink, BoxClass;
    mv.Visit([Stack(DUP), Ldc(i), ALoad]);
    if oa.Arr? {
      mv.Visit([CheckCast(OBJECT_ARRAY), Ldc(1), ALoad]);
    }
    if oa.Prim? {
      mv.Visit([CheckCast(BoxClass(oa.sort)), XxxValue(oa.sort)]);
    } else {
      mv.Visit([CheckCast(oa)]);
    }
    Sinking(oa, mv);
  }

  lemma FieldsOf(cc: ConversionContext, c: Context)
    requires cc.Describes(c)
    ensures c.opcode == cc.opcode && c.owner == cc.owner && c.name == cc.name && c.jDesc == cc.jDesc && cc.Site() == c
    ensures cc.outArgs == c.OutArgs() && cc.inArgs == c.InArgs() && cc.cDesc == ReplaceFloatMethodDescription(c.jDesc)
    ensures cc.cDesc.ret == c.CojacReturn()
    ensures cc.shouldObjParamBeConverted == c.disguised
  {
  }

  lemma Joined<T>(a: seq<T>, b: seq<T>, c: seq<T>)
    ensures a + b + c == a + (b + c)
  {
  }

  method Sinking(t: JType, mv: MethodVisitor)
    modifies mv
    ensures mv.code == old(mv.code) + Sink(t)
  {
    if Size(t) == 2 {
      mv.Visit([Stack(DUP2_X1), Stack(POP2)]);
    } else {
      mv.Visit([Stack(SWAP)]);
    }
  }

  /** The keys of a map, in whatever order it lists them. */
  method KeySet<T>(m: map<nat, T>) returns (order: seq<nat>)
    ensures forall k | 0 <= k < |order| :: order[k] in m
    ensures forall i | i in m :: i in order
    ensures forall j, k | 0 <= j < k < |order| :: order[j] != order[k]
  {
    order := [];
    var keys := m.Keys;
    while keys != {}
      invariant keys <= m.Keys
      invariant forall i | i in m :: i in keys <==> i !in order
      invariant forall k | 0 <= k < |order| :: order[k] in m
      invariant forall j, k | 0 <= j < k < |order| :: order[j] != order[k]
      decreases keys
    {
      var pos :| pos in keys;
      keys, order := keys - {pos}, order + [pos];
    }
  }

  method CheckArrays(cc: ConversionContext, mv: MethodVisitor, ghost c: Context) returns (order: seq<nat>)
    requires cc.Describes(c)
    modifies mv
    ensures ListsArrays(c, order)
    ensures mv.code == old(mv.code) + CheckArraysAfterCall(c.jDesc.ret, order)
  {
    hide Sink, MergeAll, ConversionContext.Describes;
    FieldsOf(cc, c);
    ArraysOf(cc, c);
    ghost var start := mv.code;
    var ret := cc.jDesc.ret;
    ghost var sink := if Size(ret) == 0 then [] else Sink(ret);
    if Size(ret) != 0 { Sinking(ret, mv); }
    assert mv.code == start + sink;
    order := KeySet(cc.convertedArrays);
    MergesArrays(order, mv);
    Joined(start, sink, MergeAll(order));
    mv.Visit([Stack(POP)]);
    Joined(start, sink + MergeAll(order), [Stack(POP)]);
  }

  method MergesArrays(order: seq<nat>, mv: MethodVisitor)
    modifies mv
    ensures mv.code == old(mv.code) + MergeAll(order)
  {
    hide MergeOne;
    ghost var start := mv.code;
    for i := 0 to |order|
      invariant mv.code == start + MergeAll(order[..i])
    {
      mv.Visit(MergeOne(order[i]));
      assert order[..i + 1][..i] == order[..i];
      Joined(start, MergeAll(order[..i]), MergeOne(order[i]));
    }
    assert order[..|order|] == order;
  }

  method DropsTarget(cc: ConversionContext, mv: MethodVisitor, ghost c: Context)
    requires cc.Describes(c)
    modifies mv
    ensures mv.code == old(mv.code) + DropTarget(c)
  {
    var resultWidth := Size(cc.jDesc.ret);
    if HasTarget(cc.opcode) {
      if resultWidth == 0 {
        mv.Visit([Stack(POP)]);
      } else if resultWidth == 1 {
        mv.Visit([Stack(SWAP), Stack(POP)]);
      } else {
        mv.Visit([Stack(DUP2_X1), Stack(POP2), Stack(POP)]);
      }
    }
  }

  method UnreflectsResult(cojReturnType: JType, mv: MethodVisitor)
    modifies mv
    ensures mv.code == old(mv.code) + Unreflect(cojReturnType)
  {
    if cojReturnType != Void {
      if cojReturnType.Prim? {
        mv.Visit([CheckCast(BoxClass(cojReturnType.sort)), XxxValue(cojReturnType.sort)]);
      } else {
        mv.Visit([CheckCast(cojReturnType)]);
      }
    } else {
      mv.Visit([Stack(POP)]);
    }
  }

  lemma ArraysOf(cc: ConversionContext, c: Context)
    requires cc.Describes(c)
    ensures forall i: nat :: i in cc.convertedArrays <==> i < c.N() && c.OutArgs()[i].Arr?
  {
  }

  /** The proxies of one class; one COJAC_TYPE_CONVERT for each list of replaced argument types. */
  class Generator {
    var proxies: map<seq<JType>, seq<Insn>>

    /** The body that a call site gets: that of the first site with the same replaced types. */
    function Shared(c: Context): seq<Insn>
      reads this
    {
      if c.InArgs() in proxies then proxies[c.InArgs()] else ConvertMethod(c)
    }

    /** Every proxy was generated for some call. */
    ghost predicate Valid()
      reads this
    {
      forall k | k in proxies :: exists c: Context :: c.InArgs() == k && proxies[k] == ConvertMethod(c)
    }

    constructor ()
      ensures Valid() && proxies == map[]
    {
      proxies := map[];
    }

    method CreateConvertMethod(cc: ConversionContext, ghost c: Context)
      requires Valid() && cc.Describes(c)
      modifies this
      ensures Valid() && proxies == old(proxies)[c.InArgs() := old(Shared(c))]
    {
      hide KeepOriginal, KeepConverted, ConversionContext.Describes, Map, AfterFloatReplacement;
      FieldsOf(cc, c);
      if cc.inArgs in proxies {
        return;
      }
      var newMv := new MethodVisitor();
      var n, varIndex := |cc.outArgs|, 0;
      newMv.Visit([Ldc(n + 1), NewArray, Stack(DUP), Ldc(n), Stack(DUP), NewArray, AStore]);
      for i := 0 to n
        invariant varIndex == SlotOf(c, i)
        invariant newMv.code == ConvertHead(n) + ConvertArguments(c, i)
        invariant proxies == old(proxies)
      {
        ConvertArgument(cc, newMv, i, varIndex, c);
        varIndex := varIndex + Size(cc.inArgs[i]);
        assert c.InArgs()[..i + 1][..i] == c.InArgs()[..i];
        Joined(ConvertHead(n), ConvertArguments(c, i),
          KeepOriginal(c, i, SlotOf(c, i)) + KeepConverted(c, i, SlotOf(c, i)));
        NextArgument(c, i);
      }
      newMv.Visit([AReturn]);
      assert newMv.code == ConvertMethod(c);
      proxies := proxies[cc.inArgs := newMv.code];
    }

    method ConvertArgument(cc: ConversionContext, newMv: MethodVisitor, i: nat, varIndex: nat, ghost c: Context)
      requires cc.Describes(c) && i < c.N()
      modifies newMv
      ensures newMv.code == old(newMv.code) + (KeepOriginal(c, i, varIndex) + KeepConverted(c, i, varIndex))
    {
      hide Box, Map, AfterFloatReplacement, ArgumentConversion, ConversionContext.Describes;
      FieldsOf(cc, c);
      var ia, oa := cc.inArgs[i], cc.outArgs[i];
      ghost var start := newMv.code;
      newMv.Visit([Stack(DUP), Stack(DUP), Ldc(|cc.outArgs|), ALoad, CheckCast(OBJECT_ARRAY), Ldc(i),
        LoadVar(ia, varIndex)]);
      ConvertPrimitiveToObject(newMv, ia);
      newMv.Visit([AStore]);
      ghost var kept := newMv.code;
      assert kept == start + KeepOriginal(c, i, varIndex);
      newMv.Visit([Ldc(i), LoadVar(ia, varIndex)]);
      var keepBothVersions := ia.Arr?;
      if keepBothVersions {
        newMv.Visit([Ldc(2), NewArray, Stack(DUP_X1), Stack(SWAP), Stack(DUP_X1), Ldc(0), Stack(SWAP), AStore]);
      }
      ghost var loaded := newMv.code;
      ConvertsArgument(cc, newMv, i, c);
      ConvertPrimitiveToObject(newMv, oa);
      Joined(loaded, ArgumentConversion(c, i), Box(oa));
      if keepBothVersions {
        newMv.Visit([Stack(SWAP), Stack(DUP_X1), Stack(SWAP), Ldc(1), Stack(SWAP), AStore]);
      }
      newMv.Visit([AStore]);
      ghost var conversion := ArgumentConversion(c, i) + Box(oa);
      ghost var pieces := [Ldc(i), LoadVar(ia, varIndex)] + (if ia.Arr? then PAIR_BEGIN else []);
      assert loaded == kept + pieces;
      Four(kept, pieces, conversion, if ia.Arr? then PAIR_END else [], [AStore]);
      assert newMv.code == kept + KeepConverted(c, i, varIndex);
      Joined(start, KeepOriginal(c, i, varIndex), KeepConverted(c, i, varIndex));
    }

    method ConvertsArgument(cc: ConversionContext, newMv: MethodVisitor, i: nat, ghost c: Context)
      requires cc.Describes(c) && i < c.N()
      modifies newMv
      ensures newMv.code == old(newMv.code) + ArgumentConversion(c, i)
    {
      hide CojacToReal, Map;
      var ia := cc.inArgs[i];
      if i in cc.typeConversions {
        ConvertCojacToRealType(cc.typeConversions[i], newMv);
      } else if cc.shouldObjParamBeConverted && (ia == OBJECT || ia == OBJECT_ARRAY) {
        newMv.Visit(ObjectTo(ObjectToReal, ia));
      }
    }

    method ConvertPrimitiveToObject(newMv: MethodVisitor, t: JType)
      modifies newMv
      ensures newMv.code == old(newMv.code) + Box(t)
    {
      if t.Prim? { newMv.Visit([ValueOf(t.sort)]); }
    }

    method ConvertsArguments(mv: MethodVisitor, cc: ConversionContext, ghost c: Context)
      requires Valid() && cc.Describes(c)
      modifies this, mv
      ensures Valid() && proxies == old(proxies)[c.InArgs() := old(Shared(c))]
      ensures mv.code == old(mv.code) + ConvertArgumentsToReal(c)[0 := TypeConvert(c.InArgs(), old(Shared(c)))]
    {
      hide ConvertMethod;
      CreateConvertMethod(cc, c);
      mv.Visit([TypeConvert(cc.inArgs, proxies[cc.inArgs])]);
      if HasTarget(cc.opcode) {
        mv.Visit([Stack(DUP2)]);
      } else {
        mv.Visit([Stack(DUP)]);
      }
    }

    /** What is emitted: the code proved right, but for the body that COJAC_TYPE_CONVERT has. */
    method ProxyCall(mv: MethodVisitor, cc: ConversionContext, tryUnproxied: bool, ghost c: Context)
        returns (order: seq<nat>)
      requires Valid() && cc.Describes(c)
      modifies this, mv
      ensures Valid() && proxies == old(proxies)[c.InArgs() := old(Shared(c))] && ListsArrays(c, order)
      ensures |EmittedCall(c, tryUnproxied, order)| > 0
        && EmittedCall(c, tryUnproxied, order)[0] == TypeConvert(c.InArgs(), ConvertMethod(c))
      ensures mv.code == old(mv.code)
        + EmittedCall(c, tryUnproxied, order)[0 := TypeConvert(c.InArgs(), old(Shared(c)))]
      ensures c.InArgs() !in old(proxies) ==> mv.code == old(mv.code) + EmittedCall(c, tryUnproxied, order)
    {
      hide ConvertMethod, ConvertArgumentsToReal, ExplodeOnStack, CheckArraysAfterCall, TargetConversion,
        ReturnConversion, DropTarget, DirectCall, BetterCall, Map, ConversionContext.Describes, ListsArrays, Valid;
      FieldsOf(cc, c);
      StartsWithConversion(c);
      if (tryUnproxied && cc.opcode == INVOKEVIRTUAL) || cc.opcode == INVOKEINTERFACE {
        order := ProxyCallBetterWithVars(mv, cc, c);
        return;
      }
      ghost var start, convert := mv.code, TypeConvert(c.InArgs(), Shared(c));
      ConvertsArguments(mv, cc, c);
      MaybeConvertTarget(cc, mv, c);
      ExplodeArguments(cc, mv, c);
      mv.Visit([Invoke(cc.Site())]);
      order := CheckArrays(cc, mv, c);
      DropsTarget(cc, mv, c);
      ConvertReturnType(cc.jDesc.ret, mv);
      DirectPieces(c, order, convert, start);
    }

    method ProxyCallBetterWithVars(mv: MethodVisitor, cc: ConversionContext, ghost c: Context) returns (order: seq<nat>)
      requires Valid() && cc.Describes(c)
      modifies this, mv
      ensures Valid() && proxies == old(proxies)[c.InArgs() := old(Shared(c))] && ListsArrays(c, order)
      ensures mv.code == old(mv.code) + BetterCall(c, order)[0 := TypeConvert(c.InArgs(), old(Shared(c)))]
    {
      hide ConvertMethod, ConvertArgumentsToReal, ExplodeOnStack, CheckArraysAfterCall, TargetConversion,
        ReturnConversion, BetterCall, Unreflect, Map, ConversionContext.Describes, ListsArrays, Valid;
      FieldsOf(cc, c);
      ghost var start, convert := mv.code, TypeConvert(c.InArgs(), Shared(c));
      ConvertsArguments(mv, cc, c);
      mv.Visit([Stack(POP), Stack(POP), Stack(SWAP), Stack(DUP_X1), LdcValue(Name(cc.name)), LdcValue(Descr(cc.cDesc)),
        PossibleMethod, Stack(DUP)]);
      mv.Visit([IfNull(BEGIN_HANDLER)]);
      mv.Visit([Stack(DUP_X2), Stack(POP), Ldc(|cc.inArgs|), ALoad, CheckCast(OBJECT_ARRAY), MyInvoke]);
      UnreflectsResult(cc.cDesc.ret, mv);
      mv.Visit([Goto(END_HANDLER)]);
      mv.Visit([Label(BEGIN_HANDLER)]);
      mv.Visit([Stack(POP)]);
      MaybeConvertTarget(cc, mv, c);
      mv.Visit([Stack(DUP_X1)]);
      ExplodeArguments(cc, mv, c);
      mv.Visit([Invoke(cc.Site())]);
      order := CheckArrays(cc, mv, c);
      ConvertReturnType(cc.jDesc.ret, mv);
      mv.Visit([Label(END_HANDLER)]);
      BetterPieces(c, order, convert, start);
    }
  }

  lemma Four<T>(s: seq<T>, a: seq<T>, b: seq<T>, c: seq<T>, d: seq<T>)
    ensures s + a + b + c + d == s + (a + b + c + d)
  {
  }

  lemma FirstReplaced<T>(a: seq<T>, b: seq<T>, x: T)
    requires a != []
    ensures (a + b)[0 := x] == a[0 := x] + b
  {
  }

  lemma StartsWithConversion(c: Context)
    ensures forall order :: DirectCall(c, order) != [] && BetterCall(c, order) != []
    ensures forall order :: DirectCall(c, order)[0] == TypeConvert(c.InArgs(), ConvertMethod(c))
    ensures forall order :: BetterCall(c, order)[0] == TypeConvert(c.InArgs(), ConvertMethod(c))
  {
    hide ConvertMethod, TargetConversion, ExplodeOnStack, CheckArraysAfterCall, DropTarget, ReturnConversion, LookUp,
      Reflective, Fallback;
  }

  lemma DirectPieces(c: Context, order: seq<nat>, x: Insn, s: seq<Insn>)
    ensures DirectCall(c, order) != []
    ensures s + DirectCall(c, order)[0 := x]
      == s + ConvertArgumentsToReal(c)[0 := x] + TargetConversion(c) + ExplodeOnStack(c)
      + [Invoke(c)] + CheckArraysAfterCall(c.jDesc.ret, order) + DropTarget(c) + ReturnConversion(c.jDesc.ret)
  {
    hide TargetConversion, ExplodeOnStack, CheckArraysAfterCall, DropTarget, ReturnConversion, ConvertMethod, Map;
    var t, e, k, d, r := TargetConversion(c), ExplodeOnStack(c), CheckArraysAfterCall(c.jDesc.ret, order),
      DropTarget(c), ReturnConversion(c.jDesc.ret);
    var rest := t + e + [Invoke(c)] + k + d + r;
    assert DirectCall(c, order) == ConvertArgumentsToReal(c) + rest;
    FirstReplaced(ConvertArgumentsToReal(c), rest, x);
  }

  lemma ReflectivePieces(c: Context, s: seq<Insn>)
    ensures s + Reflective(c)
      == s + [Stack(DUP_X2), Stack(POP), Ldc(c.N()), ALoad, CheckCast(OBJECT_ARRAY), MyInvoke]
      + Unreflect(c.CojacReturn())
  {
    hide Unreflect;
  }

  lemma FallbackPieces(c: Context, order: seq<nat>, s: seq<Insn>)
    ensures s + Fallback(c, order)
      == s + [Stack(POP)] + TargetConversion(c) + [Stack(DUP_X1)] + ExplodeOnStack(c) + [Invoke(c)]
      + CheckArraysAfterCall(c.jDesc.ret, order) + ReturnConversion(c.jDesc.ret)
  {
    hide TargetConversion, ExplodeOnStack, CheckArraysAfterCall, ReturnConversion;
  }

  lemma BetterPieces(c: Context, order: seq<nat>, x: Insn, s: seq<Insn>)
    ensures BetterCall(c, order) != []
    ensures s + BetterCall(c, order)[0 := x]
      == s + ConvertArgumentsToReal(c)[0 := x] + LookUp(c) + [IfNull(BEGIN_HANDLER)]
      + [Stack(DUP_X2), Stack(POP), Ldc(c.N()), ALoad, CheckCast(OBJECT_ARRAY), MyInvoke] + Unreflect(c.CojacReturn())
      + [Goto(END_HANDLER)] + [Label(BEGIN_HANDLER)]
      + [Stack(POP)] + TargetConversion(c) + [Stack(DUP_X1)] + ExplodeOnStack(c) + [Invoke(c)]
      + CheckArraysAfterCall(c.jDesc.ret, order) + ReturnConversion(c.jDesc.ret) + [Label(END_HANDLER)]
  {
    hide TargetConversion, ExplodeOnStack, CheckArraysAfterCall, ReturnConversion, ConvertMethod, Map, LookUp,
      Unreflect, Reflective, Fallback;
    var l, u, r, k := LookUp(c), Reflective(c), Fallback(c, order), ConvertArgumentsToReal(c);
    var rest := l + [IfNull(BEGIN_HANDLER)] + u + [Goto(END_HANDLER)] + [Label(BEGIN_HANDLER)] + r
      + [Label(END_HANDLER)];
    assert BetterCall(c, order) == k + rest;
    FirstReplaced(k, rest, x);
    var tested := s + k[0 := x] + l + [IfNull(BEGIN_HANDLER)];
    assert s + (k[0 := x] + rest)
      == tested + u + [Goto(END_HANDLER)] + [Label(BEGIN_HANDLER)] + r + [Label(END_HANDLER)];
    ReflectivePieces(c, tested);
    FallbackPieces(c, order, tested + u + [Goto(END_HANDLER)] + [Label(BEGIN_HANDLER)]);
  }

  lemma NextArgument(c: Context, i: nat)
    requires i < c.N()
    ensures ConvertArguments(c, i + 1)
      == ConvertArguments(c, i) + (KeepOriginal(c, i, SlotOf(c, i)) + KeepConverted(c, i, SlotOf(c, i)))
  {
  }
}

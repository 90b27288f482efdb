/** The code that FloatProxyMethod emits around a call, as functions of the conversion context. */
module ProxyCode {
  import opened OperandStack
  import opened Opcodes
  import opened Descriptors
  import opened ProxyMachine

  //---------------------------------------------------------------- conversions of single values

  predicate RealArray(t: JType) {
    t.Arr? && (t.elem == Prim(FLOAT) || t.elem == Prim(DOUBLE))
  }

  predicate JWrapperArray(t: JType) {
    t.Arr? && (t.elem == FLOAT_CLASS || t.elem == DOUBLE_CLASS)
  }

  function ArrayToReal(elem: JType): Helper {
    if elem == Prim(FLOAT) then FloatArrayToPrimitive
    else if elem == Prim(DOUBLE) then DoubleArrayToPrimitive
    else if elem == FLOAT_CLASS then FloatArrayToJWrapper
    else DoubleArrayToJWrapper
  }

  /** From a wrapper, or an array of wrappers, to the original type `t`. */
  function CojacToReal(t: JType): seq<Insn> {
    if t == Prim(FLOAT) then [Call(ToFloat)]
    else if t == FLOAT_CLASS then [Call(ToRealFloatWrapper)]
    else if t == Prim(DOUBLE) then [Call(ToDouble)]
    else if t == DOUBLE_CLASS then [Call(ToRealDoubleWrapper)]
    else if RealArray(t) || JWrapperArray(t) then
      [CheckCast(OBJECT), Ldc(t.dims), CallWithDims(ArrayToReal(t.elem)), CheckCast(t)]
    else []
  }

  /** From the original type `t` to a wrapper, or an array of wrappers. */
  function RealToCojac(t: JType): seq<Insn> {
    if t == Prim(FLOAT) then [Call(FromFloat)]
    else if t == FLOAT_CLASS then [Call(FromRealFloatWrapper)]
    else if t == Prim(DOUBLE) then [Call(FromDouble)]
    else if t == DOUBLE_CLASS then [Call(FromRealDoubleWrapper)]
    else if RealArray(t) then
      [CheckCast(OBJECT), Ldc(t.dims),
       CallWithDims(if t.elem == Prim(FLOAT) then FloatArrayToCojac else DoubleArrayToCojac),
       CheckCast(AfterFloatReplacement(t))]
    else []
  }

  function ObjectTo(h: Helper, t: JType): seq<Insn> {
    [CheckCast(OBJECT), Call(h), CheckCast(t)]
  }

  /** The conversion of argument `i`. */
  function ArgumentConversion(c: Context, i: nat): seq<Insn>
    requires i < c.N()
  {
    var ia := c.InArgs()[i];
    if MentionsFloat(c.OutArgs()[i]) then CojacToReal(c.OutArgs()[i])
    else if c.disguised && (ia == OBJECT || ia == OBJECT_ARRAY) then ObjectTo(ObjectToReal, ia)
    else []
  }

  function ReturnConversion(ret: JType): seq<Insn> {
    var ofObjects := ret == OBJECT || (ret.Arr? && ret.elem == OBJECT);
    (if MentionsFloat(ret) then RealToCojac(ret) else [])
    + (if ofObjects then ObjectTo(ObjectToCojac, AfterFloatReplacement(ret)) else [])
  }

  function Box(t: JType): seq<Insn> {
    if t.Prim? then [ValueOf(t.sort)] else []
  }

  //---------------------------------------------------------------- the generated method

  function ConvertHead(n: nat): seq<Insn> {
    [Ldc(n + 1), NewArray, Stack(DUP), Ldc(n), Stack(DUP), NewArray, AStore]
  }

  /** Keeps the original of an argument, boxed, in the last cell's array. */
  function KeepOriginal(c: Context, i: nat, slot: nat): seq<Insn>
    requires i < c.N()
  {
    [Stack(DUP), Stack(DUP), Ldc(c.N()), ALoad, CheckCast(OBJECT_ARRAY), Ldc(i), LoadVar(c.InArgs()[i], slot)]
    + Box(c.InArgs()[i]) + [AStore]
  }

  const PAIR_BEGIN: seq<Insn> := [
    Ldc(2), NewArray, Stack(DUP_X1), Stack(SWAP), Stack(DUP_X1), Ldc(0), Stack(SWAP), AStore]

  const PAIR_END: seq<Insn> := [
    Stack(SWAP), Stack(DUP_X1), Stack(SWAP), Ldc(1), Stack(SWAP), AStore]

  /** Stores the converted argument in its cell; for an array the pair of both versions. */
  function KeepConverted(c: Context, i: nat, slot: nat): seq<Insn>
    requires i < c.N()
  {
    var isArray := c.InArgs()[i].Arr?;
    [Ldc(i), LoadVar(c.InArgs()[i], slot)]
    + (if isArray then PAIR_BEGIN else [])
    + (ArgumentConversion(c, i) + Box(c.OutArgs()[i]))
    + (if isArray then PAIR_END else [])
    + [AStore]
  }

  function SlotOf(c: Context, i: nat): nat
    requires i <= c.N()
  {
    SizeOfAll(c.InArgs()[..i])
  }

  function SizeOfAll(ts: seq<JType>): nat {
    if ts == [] then 0 else SizeOfAll(ts[..|ts| - 1]) + Size(ts[|ts| - 1])
  }

  function ConvertArguments(c: Context, i: nat): seq<Insn>
    requires i <= c.N()
  {
    if i == 0 then []
    else
      var slot := SlotOf(c, i - 1);
      ConvertArguments(c, i - 1) + (KeepOriginal(c, i - 1, slot) + KeepConverted(c, i - 1, slot))
  }

  function ConvertMethod(c: Context): seq<Insn> {
    ConvertHead(c.N()) + ConvertArguments(c, c.N()) + [AReturn]
  }

  //---------------------------------------------------------------- around the call

  /** Arguments are packed by the conversion method that was generated for the site `d`. */
  function PackedBy(c: Context, d: Context): seq<Insn> {
    [TypeConvert(c.InArgs(), ConvertMethod(d)), Stack(if HasTarget(c.opcode) then DUP2 else DUP)]
  }

  function ConvertArgumentsToReal(c: Context): seq<Insn> { PackedBy(c, c) }

  /** A receiver that is a Float, a Double, or an array of floats or doubles. */
  function TargetConversion(c: Context): seq<Insn> {
    if c.opcode != INVOKEVIRTUAL || !MentionsFloat(c.owner) then []
    else [Stack(SWAP)] + CojacToReal(c.owner) + [Stack(SWAP)]
  }

  /** Brings the value on top under the array below it. */
  function Sink(t: JType): seq<Insn> {
    if Size(t) == 2 then [Stack(DUP2_X1), Stack(POP2)] else [Stack(SWAP)]
  }

  function Explode(c: Context, i: nat): seq<Insn>
    requires i < c.N()
  {
    var t := c.OutArgs()[i];
    [Stack(DUP), Ldc(i), ALoad]
    + (if t.Arr? then [CheckCast(OBJECT_ARRAY), Ldc(1), ALoad] else [])
    + (if t.Prim? then [CheckCast(BoxClass(t.sort)), XxxValue(t.sort)] else [CheckCast(t)])
    + Sink(t)
  }

  function ExplodeAll(c: Context, i: nat): seq<Insn>
    requires i <= c.N()
  {
    if i == 0 then [] else ExplodeAll(c, i - 1) + Explode(c, i - 1)
  }

  function ExplodeOnStack(c: Context): seq<Insn> {
    ExplodeAll(c, c.N()) + [Stack(POP)]
  }

  function MergeOne(pos: nat): seq<Insn> {
    [Stack(DUP), Ldc(pos), ALoad, CheckCast(OBJECT_ARRAY), Stack(DUP), Ldc(0), ALoad, Stack(SWAP), Ldc(1), ALoad, Merge]
  }

  function MergeAll(order: seq<nat>): seq<Insn> {
    if order == [] then [] else MergeAll(order[..|order| - 1]) + MergeOne(order[|order| - 1])
  }

  /** `order` is the order in which the map of converted arrays lists its keys. */
  function CheckArraysAfterCall(ret: JType, order: seq<nat>): seq<Insn> {
    (if Size(ret) == 0 then [] else Sink(ret)) + MergeAll(order) + [Stack(POP)]
  }

  function DropTarget(c: Context): seq<Insn> {
    if !HasTarget(c.opcode) then []
    else if Size(c.jDesc.ret) == 0 then [Stack(POP)]
    else if Size(c.jDesc.ret) == 1 then [Stack(SWAP), Stack(POP)]
    else [Stack(DUP2_X1), Stack(POP2), Stack(POP)]
  }

  /** The direct path of proxyCall. */
  function DirectCall(c: Context, order: seq<nat>): seq<Insn> {
    ConvertArgumentsToReal(c) + TargetConversion(c) + ExplodeOnStack(c) + [Invoke(c)]
    + CheckArraysAfterCall(c.jDesc.ret, order) + DropTarget(c) + ReturnConversion(c.jDesc.ret)
  }

  //---------------------------------------------------------------- trying the instrumented method first

  const BEGIN_HANDLER := 0
  const END_HANDLER := 1

  function Unreflect(ret: JType): seq<Insn> {
    match ret
    case Void => [Stack(POP)]
    case Prim(s) => [CheckCast(BoxClass(s)), XxxValue(s)]
    case _ => [CheckCast(ret)]
  }

  /** The path that calls the method found by reflection. */
  function Reflective(c: Context): seq<Insn> {
    [Stack(DUP_X2), Stack(POP), Ldc(c.N()), ALoad, CheckCast(OBJECT_ARRAY), MyInvoke] + Unreflect(c.CojacReturn())
  }

  /** The path that converts, as the direct call does. */
  function Fallback(c: Context, order: seq<nat>): seq<Insn> {
    [Stack(POP)] + TargetConversion(c) + [Stack(DUP_X1)] + ExplodeOnStack(c) + [Invoke(c)]
    + CheckArraysAfterCall(c.jDesc.ret, order) + ReturnConversion(c.jDesc.ret)
  }

  function LookUp(c: Context): seq<Insn> {
    [Stack(POP), Stack(POP), Stack(SWAP), Stack(DUP_X1), LdcValue(Name(c.name)),
     LdcValue(Descr(ReplaceFloatMethodDescription(c.jDesc))), PossibleMethod, Stack(DUP)]
  }

  /** proxyCallBetterWithVars. */
  function BetterCall(c: Context, order: seq<nat>): seq<Insn> {
    ConvertArgumentsToReal(c) + LookUp(c) + [IfNull(BEGIN_HANDLER)] + Reflective(c) + [Goto(END_HANDLER)]
    + [Label(BEGIN_HANDLER)] + Fallback(c, order) + [Label(END_HANDLER)]
  }

  /** What proxyCall emits: the second form for interface calls, and for virtual calls where the caller asks for it. */
  function EmittedCall(c: Context, tryUnproxied: bool, order: seq<nat>): seq<Insn> {
    if (tryUnproxied && c.opcode == INVOKEVIRTUAL) || c.opcode == INVOKEINTERFACE then BetterCall(c, order)
    else DirectCall(c, order)
  }
}

/**
 A small JVM: ints, longs, doubles and opaque references, local variables by slot,
 labels and jumps, calls and returns.  The same machine runs the original code and the
 code in which doubles have become wrapper objects.
 */
module Jvm {
  import opened Collections
  import opened OperandStack
  import opened Opcodes
  import opened Reals
  import opened WrapperBasic

  /** Verification types.  TWrapper is a reference to a number wrapper, TTop an unusable slot. */
  datatype Ty = TInt | TLong | TDouble | TRef | TWrapper | TTop

  datatype Value = Int(i: int) | Long(l: int) | Double(d: real) | Ref(r: nat) | Wrapper(w: real)

  function TypeOf(v: Value): Ty {
    match v
    case Int(_) => TInt
    case Long(_) => TLong
    case Double(_) => TDouble
    case Ref(_) => TRef
    case Wrapper(_) => TWrapper
  }

  predicate WideTy(t: Ty) { t == TLong || t == TDouble }

  predicate Wide(v: Value) { WideTy(TypeOf(v)) }

  function Size(t: Ty): (n: nat)
    ensures n == 1 || n == 2
  {
    if WideTy(t) then 2 else 1
  }

  //---------------------------------------------------------------- arithmetic

  datatype CalcOp =
    | IADD | ISUB | IMUL | INEG | LADD | LSUB | LMUL | LNEG | LCMP | I2L | L2I
    | DADD | DSUB | DMUL | DDIV | DREM | DNEG | DCMPL | DCMPG | I2D | L2D | D2I | D2L

  datatype Signature = Signature(args: seq<Ty>, result: Ty)

  function SignatureOf(op: CalcOp): Signature {
    match op
    case IADD | ISUB | IMUL => Signature([TInt, TInt], TInt)
    case INEG => Signature([TInt], TInt)
    case LADD | LSUB | LMUL => Signature([TLong, TLong], TLong)
    case LNEG => Signature([TLong], TLong)
    case LCMP => Signature([TLong, TLong], TInt)
    case I2L => Signature([TInt], TLong)
    case L2I => Signature([TLong], TInt)
    case DADD | DSUB | DMUL | DDIV | DREM => Signature([TDouble, TDouble], TDouble)
    case DNEG => Signature([TDouble], TDouble)
    case DCMPL | DCMPG => Signature([TDouble, TDouble], TInt)
    case I2D => Signature([TInt], TDouble)
    case L2D => Signature([TLong], TDouble)
    case D2I => Signature([TDouble], TInt)
    case D2L => Signature([TDouble], TLong)
  }

  const TWO31 := 0x8000_0000
  const TWO63 := 0x8000_0000_0000_0000

  /** Two's complement wrap-around into [-half, half). */
  function WrapAround(n: int, half: int): int
    requires half > 0
  {
    (n + half) % (2 * half) - half
  }

  function Sign(n: int): int { if n < 0 then -1 else if n > 0 then 1 else 0 }

  /** The narrowing of a real to an integer type with `half` positive values: toward zero, saturating. */
  function NarrowTo(r: real, half: int): int
    requires half > 0
  {
    var t := Truncate(r);
    if t < -half then -half else if t >= half then half - 1 else t
  }

  function Divide(a: real, b: real): Option<real> { if b == 0.0 then None else Some(Quotient(a, b)) }

  function Modulo(a: real, b: real): Option<real> { if b == 0.0 then None else Some(Remainder(a, b)) }

  function AsDouble(r: Option<real>): Option<Value> { if r.Some? then Some(Double(r.value)) else None }

  predicate HasTypes(vs: seq<Value>, ts: seq<Ty>) {
    Map(TypeOf, vs) == ts
  }

  /** The machine's own arithmetic; None where a real has no value (a zero divisor). */
  function Evaluate(op: CalcOp, a: seq<Value>): (r: Option<Value>)
    requires HasTypes(a, SignatureOf(op).args)
    ensures r.Some? ==> TypeOf(r.value) == SignatureOf(op).result
  {
    assert forall k | 0 <= k < |a| :: TypeOf(a[k]) == SignatureOf(op).args[k];
    match op
    case IADD => Some(Int(WrapAround(a[0].i + a[1].i, TWO31)))
    case ISUB => Some(Int(WrapAround(a[0].i - a[1].i, TWO31)))
    case IMUL => Some(Int(WrapAround(a[0].i * a[1].i, TWO31)))
    case INEG => Some(Int(WrapAround(-a[0].i, TWO31)))
    case LADD => Some(Long(WrapAround(a[0].l + a[1].l, TWO63)))
    case LSUB => Some(Long(WrapAround(a[0].l - a[1].l, TWO63)))
    case LMUL => Some(Long(WrapAround(a[0].l * a[1].l, TWO63)))
    case LNEG => Some(Long(WrapAround(-a[0].l, TWO63)))
    case LCMP => Some(Int(Sign(a[0].l - a[1].l)))
    case I2L => Some(Long(a[0].i))
    case L2I => Some(Int(WrapAround(a[0].l, TWO31)))
    case DADD => Some(Double(a[0].d + a[1].d))
    case DSUB => Some(Double(a[0].d - a[1].d))
    case DMUL => Some(Double(Times(a[0].d, a[1].d)))
    case DDIV => AsDouble(Divide(a[0].d, a[1].d))
    case DREM => AsDouble(Modulo(a[0].d, a[1].d))
    case DNEG => Some(Double(-a[0].d))
    case DCMPL => Some(Int(Compare(Finite(a[0].d), Finite(a[1].d), -1)))
    case DCMPG => Some(Int(Compare(Finite(a[0].d), Finite(a[1].d), 1)))
    case I2D => Some(Double(a[0].i as real))
    case L2D => Some(Double(a[0].l as real))
    case D2I => Some(Int(NarrowTo(a[0].d, TWO31)))
    case D2L => Some(Long(NarrowTo(a[0].d, TWO63)))
  }

  //---------------------------------------------------------------- instructions

  /** A method descriptor, with whether there is a receiver below the arguments. */
  datatype Descriptor = Descriptor(hasTarget: bool, args: seq<Ty>, ret: Option<Ty>)

  /** The variables a call initializes, `this` first. */
  function Params(d: Descriptor): seq<Ty> {
    (if d.hasTarget then [TRef] else []) + d.args
  }

  datatype WrapperMethod = Operation(op: CalcOp) | FromDouble

  datatype Condition = EQ | NE | LT | GE | GT | LE

  datatype Insn =
    | Stack(op: StackOp)
    | Calc(fn: CalcOp)
    | Const(c: Value)                                // xCONST_n
    | Ldc(c: Value)
    | Load(kind: Ty, slot: int)
    | Store(kind: Ty, slot: int)
    | Iinc(slot: int, amount: int)
    | If(cond: Condition, target: nat)
    | Goto(target: nat)
    | Label(target: nat)
    | Frame(locals: seq<Ty>, stack: seq<Ty>)         // a stack map frame: types, one entry per value
    | Return(result: Option<Ty>)
    | Invoke(opcode: Opcode, name: string, desc: Descriptor)
    | InvokeWrapper(m: WrapperMethod)
    // proxyCallBetterWithVars around a virtual call, as one instruction
    | InvokeProxied(name: string, desc: Descriptor)

  /** Reflection finds public methods only. */
  datatype Method = Method(desc: Descriptor, code: seq<Insn>, isPublic: bool)

  type Program = map<string, Method>

  function FindLabel(code: seq<Insn>, l: nat): (p: nat)
    ensures p <= |code|
    ensures p < |code| ==> code[p] == Label(l)
  {
    if code == [] then 0 else if code[0] == Label(l) then 0 else 1 + FindLabel(code[1..], l)
  }

  predicate Holds(c: Condition, n: int) {
    match c
    case EQ => n == 0
    case NE => n != 0
    case LT => n < 0
    case GE => n >= 0
    case GT => n > 0
    case LE => n <= 0
  }

  //---------------------------------------------------------------- wrapper objects

  function ImageTy(t: Ty): Ty { if t == TDouble then TWrapper else t }

  function ImageDescriptor(d: Descriptor): Descriptor {
    Descriptor(d.hasTarget, Map(ImageTy, d.args), if d.ret.Some? then Some(ImageTy(d.ret.value)) else None)
  }

  /** Calls with such descriptors need conversions. */
  predicate MentionsDouble(d: Descriptor) { TDouble in d.args || d.ret == Some(TDouble) }

  function WrapperSignature(m: WrapperMethod): Signature {
    match m
    case FromDouble => Signature([TDouble], TWrapper)
    case Operation(op) =>
      var s := SignatureOf(op);
      Signature(Map(ImageTy, s.args), ImageTy(s.result))
  }

  function Held(v: Value): WrapperBasic { WrapperBasic(if v.Wrapper? then v.w else 0.0) }

  function AsWrapper(r: Option<WrapperBasic>): Option<Value> { if r.Some? then Some(Wrapper(r.value.value)) else None }

  /** A wrapper that holds a plain value: what each static method of the wrapper class computes. */
  function WrapperResult(m: WrapperMethod, a: seq<Value>): (r: Option<Value>)
    requires HasTypes(a, WrapperSignature(m).args)
    requires m.Operation? ==> IsDoubleOp(m.op)
    ensures r.Some? ==> TypeOf(r.value) == WrapperSignature(m).result
  {
    assert forall k | 0 <= k < |a| :: TypeOf(a[k]) == WrapperSignature(m).args[k];
    match m
    case FromDouble => AsWrapper(Some(OfDouble(a[0].d)))
    case Operation(op) =>
      var x, y := Held(a[0]), if |a| == 2 then Held(a[1]) else Held(a[0]);
      match op
      case DADD => AsWrapper(ApplyBinaryOp((u, v) => Some(u + v), x, y))
      case DSUB => AsWrapper(ApplyBinaryOp((u, v) => Some(u - v), x, y))
      case DMUL => AsWrapper(ApplyBinaryOp((u, v) => Some(Times(u, v)), x, y))
      case DDIV => AsWrapper(ApplyBinaryOp(Divide, x, y))
      case DREM => AsWrapper(ApplyBinaryOp(Modulo, x, y))
      case DNEG => AsWrapper(ApplyUnaryOp(u => Some(-u), x))
      case DCMPL | DCMPG => Some(Int(CompareTo(x, y)))
      case I2D => AsWrapper(Some(OfDouble(a[0].i as real)))
      case L2D => AsWrapper(Some(OfDouble(a[0].l as real)))
      case D2I => Some(Int(NarrowTo(ToDouble(x), TWO31)))
      case D2L => Some(Long(NarrowTo(ToDouble(x), TWO63)))
  }

  predicate IsDoubleOp(op: CalcOp) {
    op in {DADD, DSUB, DMUL, DDIV, DREM, DNEG, DCMPL, DCMPG, I2D, L2D, D2I, D2L}
  }

  //---------------------------------------------------------------- local variables

  /** Storing a value in a slot destroys a wide value that reaches into it, and what a wide value covers. */
  function StoreAt<V>(m: map<int, V>, slot: int, x: V, wide: V -> bool): map<int, V> {
    var m1 := if slot - 1 in m && wide(m[slot - 1]) then m - {slot - 1} else m;
    var m2 := if wide(x) then m1 - {slot + 1} else m1;
    m2[slot := x]
  }

  /** Values laid out in consecutive slots from `slot` on, as a call does. */
  function LayOut(vs: seq<Value>, slot: int): (m: map<int, Value>)
    ensures forall k | k in m :: slot <= k
  {
    if vs == [] then map[] else LayOut(vs[1..], slot + Size(TypeOf(vs[0])))[slot := vs[0]]
  }

  /** The same for types; an unusable slot holds nothing. */
  function LayOutTypes(ts: seq<Ty>, slot: int): (m: map<int, Ty>)
    ensures forall k | k in m :: slot <= k
  {
    if ts == [] then map[]
    else
      var rest := LayOutTypes(ts[1..], slot + Size(ts[0]));
      if ts[0] == TTop then rest else rest[slot := ts[0]]
  }

  //---------------------------------------------------------------- static types

  /** The types of the operand stack and of the local variables before an instruction. */
  datatype TypeState = TypeState(stack: seq<Ty>, locals: map<int, Ty>)

  function Maybe<V>(v: Option<V>): seq<V> { if v.Some? then [v.value] else [] }

  function PopPushTypes(t: TypeState, n: nat, result: Option<Ty>): Option<TypeState> {
    if n > |t.stack| then None
    else Some(t.(stack := t.stack[..|t.stack| - n] + (if result.Some? then [result.value] else [])))
  }

  /** The types after an instruction; None where control does not get to (after a jump). */
  function Analyze(insn: Insn, t: Option<TypeState>): Option<TypeState> {
    if insn.Frame? then Some(TypeState(insn.stack, LayOutTypes(insn.locals, 0)))
    else if t.None? then None
    else
      var ts := t.value;
      match insn
      case Stack(op) =>
        (match Shuffle(op, ts.stack, WideTy)
         case None => None
         case Some(s) => Some(ts.(stack := s)))
      case Calc(op) => PopPushTypes(ts, |SignatureOf(op).args|, Some(SignatureOf(op).result))
      case InvokeWrapper(m) => PopPushTypes(ts, |WrapperSignature(m).args|, Some(WrapperSignature(m).result))
      case Const(c) => PopPushTypes(ts, 0, Some(TypeOf(c)))
      case Ldc(c) => PopPushTypes(ts, 0, Some(TypeOf(c)))
      case Load(kind, slot) =>
        var loaded := if kind != TRef then kind else if slot in ts.locals then ts.locals[slot] else TTop;
        PopPushTypes(ts, 0, Some(loaded))
      case Store(_, slot) =>
        if ts.stack == [] then None
        else
          var n := |ts.stack| - 1;
          Some(TypeState(ts.stack[..n], StoreAt(ts.locals, slot, ts.stack[n], WideTy)))
      case Iinc(slot, _) => Some(ts.(locals := ts.locals[slot := TInt]))
      case If(_, _) => PopPushTypes(ts, 1, None)
      case Invoke(_, _, desc) => PopPushTypes(ts, |Params(desc)|, desc.ret)
      case InvokeProxied(_, desc) => PopPushTypes(ts, |Params(desc)|, ImageDescriptor(desc).ret)
      case Label(_) => t
      case Goto(_) | Return(_) => None
  }

  /** The types before instruction `i` of a method body. */
  function TypeAt(m: Method, i: nat): Option<TypeState>
    requires i <= |m.code|
  {
    if i == 0 then Some(TypeState([], LayOutTypes(Params(m.desc), 0)))
    else Analyze(m.code[i - 1], TypeAt(m, i - 1))
  }

  //---------------------------------------------------------------- execution

  datatype Activation = Activation(name: string, pc: nat, stack: seq<Value>, locals: map<int, Value>)

  /** The activations of a run, the current one last; or the result of the outermost method. */
  datatype State = Running(acts: seq<Activation>) | Done(result: Option<Value>)

  datatype Outcome = Next(act: Activation) | Call(caller: Activation, callee: string, args: seq<Value>)
                   | Leave(result: Option<Value>) | Stuck

  /** ILOAD, LLOAD, DLOAD and ALOAD; the last one is used for both kinds of reference. */
  predicate KindFits(kind: Ty, t: Ty) {
    if kind == TRef then t == TRef || t == TWrapper else kind == t
  }

  /** Pops the values of the given types and pushes the result, if there is one. */
  function PopPush(a: Activation, n: nat, r: Option<Value>): Outcome
    requires n <= |a.stack|
  {
    match r
    case None => Stuck
    case Some(v) => Next(a.(pc := a.pc + 1, stack := a.stack[..|a.stack| - n] + [v]))
  }

  predicate TopHas(s: seq<Value>, ts: seq<Ty>) {
    |ts| <= |s| && HasTypes(s[|s| - |ts|..], ts)
  }

  function ExecuteCall(p: Program, name: string, desc: Descriptor, a: Activation): Outcome {
    var n, ts := |a.stack|, Params(desc);
    if name in p && p[name].desc == desc && TopHas(a.stack, ts) then
      Call(a.(pc := a.pc + 1, stack := a.stack[..n - |ts|]), name, a.stack[n - |ts|..])
    else Stuck
  }

  /** Reflection finds a public method of this name with the replaced descriptor. */
  predicate Found(p: Program, name: string, desc: Descriptor) {
    name in p && p[name].isPublic && p[name].desc == ImageDescriptor(desc)
  }

  function Unwrap(v: Value): Value { if v.Wrapper? then Double(v.w) else v }

  /** The arguments of the fallback, converted for a method with the original descriptor. */
  function Unwrapped(a: Activation, n: nat): Activation
    requires n <= |a.stack|
  {
    var below := |a.stack| - n;
    a.(stack := a.stack[..below] + Map(Unwrap, a.stack[below..]))
  }

  /** One instruction of the code of the current method. */
  function Execute(p: Program, code: seq<Insn>, insn: Insn, a: Activation): Outcome {
    var n := |a.stack|;
    match insn
    case Stack(op) =>
      (match Shuffle(op, a.stack, Wide)
       case None => Stuck
       case Some(s) => Next(a.(pc := a.pc + 1, stack := s)))
    case Calc(op) =>
      var ts := SignatureOf(op).args;
      if TopHas(a.stack, ts) then PopPush(a, |ts|, Evaluate(op, a.stack[n - |ts|..])) else Stuck
    case InvokeWrapper(m) =>
      var ts := WrapperSignature(m).args;
      if TopHas(a.stack, ts) && (m.Operation? ==> IsDoubleOp(m.op)) then
        PopPush(a, |ts|, WrapperResult(m, a.stack[n - |ts|..]))
      else Stuck
    case Const(c) => PopPush(a, 0, Some(c))
    case Ldc(c) => PopPush(a, 0, Some(c))
    case Load(kind, slot) =>
      if 0 <= slot && slot in a.locals && KindFits(kind, TypeOf(a.locals[slot])) then
        PopPush(a, 0, Some(a.locals[slot]))
      else Stuck
    case Store(kind, slot) =>
      if 0 <= slot && n > 0 && KindFits(kind, TypeOf(a.stack[n - 1])) then
        Next(a.(pc := a.pc + 1, stack := a.stack[..n - 1], locals := StoreAt(a.locals, slot, a.stack[n - 1], Wide)))
      else Stuck
    case Iinc(slot, amount) =>
      if 0 <= slot && slot in a.locals && a.locals[slot].Int? then
        Next(a.(pc := a.pc + 1, locals := a.locals[slot := Int(WrapAround(a.locals[slot].i + amount, TWO31))]))
      else Stuck
    case If(c, l) =>
      if n > 0 && a.stack[n - 1].Int? then
        Next(a.(pc := if Holds(c, a.stack[n - 1].i) then FindLabel(code, l) + 1
          else a.pc + 1, stack := a.stack[..n - 1]))
      else Stuck
    case Goto(l) => Next(a.(pc := FindLabel(code, l) + 1))
    case Label(_) => Next(a.(pc := a.pc + 1))
    case Frame(_, _) => Next(a.(pc := a.pc + 1))
    case Return(None) => Leave(None)
    case Return(Some(kind)) =>
      if n > 0 && KindFits(kind, TypeOf(a.stack[n - 1])) then Leave(Some(a.stack[n - 1])) else Stuck
    case Invoke(_, name, desc) => ExecuteCall(p, name, desc, a)
    case InvokeProxied(name, desc) =>
      if Found(p, name, desc) then ExecuteCall(p, name, ImageDescriptor(desc), a)
      else if |Params(desc)| > n then Stuck
      else ExecuteCall(p, name, desc, Unwrapped(a, |Params(desc)|))
  }

  /** The state after the current activation, above the others, has executed an instruction. */
  function Resume(below: seq<Activation>, o: Outcome): Option<State> {
    match o
    case Stuck => None
    case Next(b) => Some(Running(below + [b]))
    case Call(caller, callee, args) =>
      Some(Running(below + [caller] + [Activation(callee, 0, [], LayOut(args, 0))]))
    case Leave(r) =>
      if below == [] then Some(Done(r))
      else
        var c := below[|below| - 1];
        Some(Running(below[..|below| - 1] + [c.(stack := c.stack + Maybe(r))]))
  }

  /** One instruction of a run; None when the machine has stopped or is stuck. */
  function Step(p: Program, s: State): Option<State> {
    if s.Done? || |s.acts| == 0 || s.acts[|s.acts| - 1].name !in p then None
    else
      var a := s.acts[|s.acts| - 1];
      var code := p[a.name].code;
      if a.pc >= |code| then None else Resume(s.acts[..|s.acts| - 1], Execute(p, code, code[a.pc], a))
  }

  function Steps(p: Program, s: State, n: nat): Option<State>
    decreases n
  {
    if n == 0 then Some(s)
    else match Step(p, s) case None => None case Some(t) => Steps(p, t, n - 1)
  }

  function Start(name: string, args: seq<Value>): State {
    Running([Activation(name, 0, [], LayOut(args, 0))])
  }
}

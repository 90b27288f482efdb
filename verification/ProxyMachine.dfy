/**
 A JVM for the code that the proxy generator emits: object arrays on a heap, conversions as
 applications of static helpers, and a log of what is done to the outside.
 */
module ProxyMachine {
  import opened Collections
  import opened OperandStack
  import opened Opcodes
  import opened Descriptors

  /** The static methods that convert one value (FloatNumbers, DoubleNumbers and the wrapper classes). */
  datatype Helper =
    | FromFloat | FromRealFloatWrapper | FromDouble | FromRealDoubleWrapper
    | ToFloat | ToRealFloatWrapper | ToDouble | ToRealDoubleWrapper
    | FloatArrayToCojac | DoubleArrayToCojac                 // convertPrimitiveArrayToCojac
    | FloatArrayToPrimitive | DoubleArrayToPrimitive         // convertArrayToPrimitive
    | FloatArrayToJWrapper | DoubleArrayToJWrapper           // convertArrayToJWrapper
    | ObjectToReal | ObjectToCojac                           // convertFromObjectTo...

  /** A value: from outside, boxed, the result of a helper (on arrays with a number of dimensions),
      an array that the proxy code has created, an int constant, null, a name, a descriptor, a reflected method. */
  datatype Val =
    | Ext(ty: JType, id: nat)
    | Boxed(sort: Sort, v: Val)
    | Converted(h: Helper, dims: nat, v: Val)
    | Ref(a: nat)
    | Const(n: nat)
    | Null
    | Name(s: string)
    | Descr(d: MethodType)
    | Reflection(name: string, desc: MethodType)

  function BoxClass(s: Sort): JType {
    match s
    case BOOLEAN => Obj("java/lang/Boolean")
    case BYTE => Obj("java/lang/Byte")
    case CHAR => Obj("java/lang/Character")
    case SHORT => Obj("java/lang/Short")
    case INT => Obj("java/lang/Integer")
    case LONG => Obj("java/lang/Long")
    case FLOAT => FLOAT_CLASS
    case DOUBLE => DOUBLE_CLASS
  }

  function ResultType(h: Helper, dims: nat, arg: JType): JType {
    match h
    case FromFloat | FromRealFloatWrapper => FLOAT_WRAPPER
    case FromDouble | FromRealDoubleWrapper => DOUBLE_WRAPPER
    case ToFloat => Prim(FLOAT)
    case ToDouble => Prim(DOUBLE)
    case ToRealFloatWrapper => FLOAT_CLASS
    case ToRealDoubleWrapper => DOUBLE_CLASS
    case FloatArrayToCojac => Arr(dims, FLOAT_WRAPPER)
    case DoubleArrayToCojac => Arr(dims, DOUBLE_WRAPPER)
    case FloatArrayToPrimitive => Arr(dims, Prim(FLOAT))
    case DoubleArrayToPrimitive => Arr(dims, Prim(DOUBLE))
    case FloatArrayToJWrapper => Arr(dims, FLOAT_CLASS)
    case DoubleArrayToJWrapper => Arr(dims, DOUBLE_CLASS)
    case ObjectToReal | ObjectToCojac => arg
  }

  function TypeOf(v: Val): JType {
    match v
    case Ext(t, _) => t
    case Boxed(s, _) => BoxClass(s)
    case Converted(h, dims, w) => ResultType(h, dims, TypeOf(w))
    case Ref(_) => OBJECT_ARRAY
    case Const(_) => Prim(INT)
    case Null => OBJECT
    case Name(_) | Descr(_) => Obj("java/lang/String")
    case Reflection(_, _) => Obj("java/lang/reflect/Method")
  }

  /** What a helper returns; the two for Float and Double objects box what the ones for float and double return. */
  function Applied(h: Helper, v: Val): Val {
    match h
    case ToRealFloatWrapper => Boxed(FLOAT, Converted(ToFloat, 0, v))
    case ToRealDoubleWrapper => Boxed(DOUBLE, Converted(ToDouble, 0, v))
    case _ => Converted(h, 0, v)
  }

  predicate Wide(v: Val) { Size(TypeOf(v)) == 2 }

  /** A cast succeeds to the type of the value, and to Object. */
  predicate CastSucceeds(v: Val, t: JType) { v == Null || t == OBJECT || TypeOf(v) == t }

  //---------------------------------------------------------------- instructions

  datatype Insn =
    | Stack(op: StackOp)
    | Ldc(n: nat)
    | LdcValue(v: Val)                       // a name or a descriptor
    | ALoad | AStore                         // AALOAD, AASTORE
    | NewArray                               // ANEWARRAY Object
    | CheckCast(t: JType)
    | LoadVar(t: JType, slot: nat)
    | Call(h: Helper)                        // takes a value
    | CallWithDims(h: Helper)                // takes an array and its number of dimensions
    | ValueOf(sort: Sort)
    | XxxValue(sort: Sort)                   // intValue, doubleValue, ...
    | TypeConvert(args: seq<JType>, body: seq<Insn>)   // COJAC_TYPE_CONVERT, with the generated method's body
    | Invoke(c: Context)                     // the method that is being proxied
    | Merge                                  // mergeOriginalArrayIntoCojac
    | PossibleMethod | MyInvoke
    | IfNull(target: nat) | Goto(target: nat) | Label(target: nat)
    | AReturn

  /** What is done outside the proxy code. */
  datatype Event =
    | Called(c: Context, target: Option<Val>, args: seq<Val>)
    | Merged(cojac: Val, original: Val)
    | LookedUp(on: Val, name: string, desc: MethodType)
    | Reflected(m: Val, on: Val, args: seq<Val>)

  datatype State = State(stack: seq<Val>, heap: seq<seq<Val>>, vars: map<nat, Val>, log: seq<Event>)

  /** The value that an outside call returns; no two calls return the same one. */
  function Answer(t: JType, log: seq<Event>): seq<Val> {
    if t == Void then [] else [Ext(t, |log|)]
  }

  /** What Method.invoke returns: primitive results boxed, null for none. */
  function BoxedAnswer(t: JType, log: seq<Event>): Val {
    match t
    case Void => Null
    case Prim(s) => Boxed(s, Ext(t, |log|))
    case _ => Ext(t, |log|)
  }

  function Pop(s: State, n: nat, push: seq<Val>): Option<State> {
    if n > |s.stack| then None else Some(s.(stack := s.stack[..|s.stack| - n] + push))
  }

  /** The element `k` below the top; Null where there is none. */
  function Top(s: State, k: nat): Val {
    if k < |s.stack| then s.stack[|s.stack| - 1 - k] else Null
  }

  predicate Reference(v: Val) { !TypeOf(v).Prim? && TypeOf(v) != Void }

  predicate InBounds(heap: seq<seq<Val>>, a: Val, i: Val) {
    a.Ref? && i.Const? && a.a < |heap| && i.n < |heap[a.a]|
  }

  /** An instruction that stays in its method; `found` says whether possibleMethod finds a method. */
  function Step(found: bool, insn: Insn, s: State): Option<State> {
    match insn
    case Stack(op) =>
      (match Shuffle(op, s.stack, Wide)
       case None => None
       case Some(r) => Some(s.(stack := r)))
    case Ldc(n) => Pop(s, 0, [Const(n)])
    case LdcValue(v) => Pop(s, 0, [v])
    case ALoad =>
      var a, i := Top(s, 1), Top(s, 0);
      if InBounds(s.heap, a, i) then Pop(s, 2, [s.heap[a.a][i.n]]) else None
    case AStore =>
      var a, i, v := Top(s, 2), Top(s, 1), Top(s, 0);
      if InBounds(s.heap, a, i) && Reference(v) then
        Pop(s.(heap := s.heap[a.a := s.heap[a.a][i.n := v]]), 3, [])
      else None
    case NewArray =>
      var n := Top(s, 0);
      if n.Const? then Pop(s.(heap := s.heap + [seq(n.n, i => Null)]), 1, [Ref(|s.heap|)]) else None
    case CheckCast(t) => if s.stack != [] && CastSucceeds(Top(s, 0), t) then Some(s) else None
    case LoadVar(t, slot) => if slot in s.vars && TypeOf(s.vars[slot]) == t then Pop(s, 0, [s.vars[slot]]) else None
    case Call(h) => if s.stack != [] then Pop(s, 1, [Applied(h, Top(s, 0))]) else None
    case CallWithDims(h) =>
      var d := Top(s, 0);
      if d.Const? then Pop(s, 2, [Converted(h, d.n, Top(s, 1))]) else None
    case ValueOf(sort) =>
      if s.stack != [] && TypeOf(Top(s, 0)) == Prim(sort) then Pop(s, 1, [Boxed(sort, Top(s, 0))]) else None
    case XxxValue(sort) =>
      var b := Top(s, 0);
      if b.Boxed? && b.sort == sort then Pop(s, 1, [b.v]) else None
    case Invoke(c) =>
      var n := c.N() + (if HasTarget(c.opcode) then 1 else 0);
      if n > |s.stack| then None
      else
        var below := |s.stack| - n;
        var args := s.stack[|s.stack| - c.N()..];
        if Map(TypeOf, args) != c.OutArgs() then None
        else
          var log := s.log + [Called(c, if HasTarget(c.opcode) then Some(s.stack[below]) else None, args)];
          Pop(s.(log := log), n, Answer(c.jDesc.ret, log))
    case Merge => Pop(s.(log := s.log + [Merged(Top(s, 1), Top(s, 0))]), 2, [])
    case PossibleMethod =>
      var t, n, d := Top(s, 2), Top(s, 1), Top(s, 0);
      if n.Name? && d.Descr? then
        Pop(s.(log := s.log + [LookedUp(t, n.s, d.d)]), 3, [if found then Reflection(n.s, d.d) else Null])
      else None
    case MyInvoke =>
      var m, t, a := Top(s, 2), Top(s, 1), Top(s, 0);
      if m.Reflection? && a.Ref? && a.a < |s.heap| then
        var log := s.log + [Reflected(m, t, s.heap[a.a])];
        Pop(s.(log := log), 3, [BoxedAnswer(m.desc.ret, log)])
      else None
    case TypeConvert(_, _) | IfNull(_) | Goto(_) | Label(_) | AReturn => None
  }

  /** The code after a label that comes later. */
  function AfterLabel(code: seq<Insn>, l: nat): (r: Option<seq<Insn>>)
    ensures r.Some? ==> |r.value| < |code| && r.value == code[|code| - |r.value|..]
  {
    if code == [] then None
    else if code[0] == Label(l) then Some(code[1..])
    else AfterLabel(code[1..], l)
  }

  /** Arguments in the local variables of a static method. */
  function Variables(args: seq<Val>, slot: nat): (m: map<nat, Val>)
    ensures forall k | k in m :: slot <= k
  {
    if args == [] then map[] else Variables(args[1..], slot + Size(TypeOf(args[0])))[slot := args[0]]
  }

  /** Runs code to its end, or to its return; jumps lead forward only. */
  function Run(found: bool, code: seq<Insn>, s: State): Option<State>
    decreases code
  {
    if code == [] then Some(s)
    else
      match code[0]
      case AReturn => Some(s)
      case Label(_) => Run(found, code[1..], s)
      case Goto(l) =>
        (match AfterLabel(code[1..], l)
         case None => None
         case Some(rest) => assert rest == code[|code| - |rest|..]; Run(found, rest, s))
      case IfNull(l) =>
        if s.stack == [] then None
        else
          var popped := s.(stack := s.stack[..|s.stack| - 1]);
          if Top(s, 0) != Null then Run(found, code[1..], popped)
          else
            (match AfterLabel(code[1..], l)
             case None => None
             case Some(rest) => assert rest == code[|code| - |rest|..]; Run(found, rest, popped))
      case TypeConvert(types, body) =>
        var n := |types|;
        if n > |s.stack| || Map(TypeOf, s.stack[|s.stack| - n..]) != types then None
        else
          var args := s.stack[|s.stack| - n..];
          (match Run(found, body, State([], s.heap, Variables(args, 0), s.log))
           case None => None
           case Some(t) =>
             if t.stack == [] then None
             else Run(found, code[1..],
               s.(stack := s.stack[..|s.stack| - n] + [Top(t, 0)], heap := t.heap, log := t.log)))
      case _ =>
        (match Step(found, code[0], s)
         case None => None
         case Some(t) => Run(found, code[1..], t))
  }

  //---------------------------------------------------------------- running code piece by piece

  predicate Simple(insn: Insn) {
    !insn.AReturn? && !insn.Label? && !insn.Goto? && !insn.IfNull? && !insn.TypeConvert?
  }

  predicate Straight(code: seq<Insn>) {
    forall i | 0 <= i < |code| :: Simple(code[i])
  }

  /** Straight-line code, then more code. */
  lemma {:induction false} RunAppend(found: bool, c: seq<Insn>, d: seq<Insn>, s: State, t: State)
    requires Straight(c) && Run(found, c, s) == Some(t)
    ensures Run(found, c + d, s) == Run(found, d, t)
  {
    if c == [] {
      assert c + d == d;
    } else {
      assert (c + d)[1..] == c[1..] + d;
      RunAppend(found, c[1..], d, Step(found, c[0], s).value, t);
    }
  }

  /** The states between the instructions of straight-line code. */
  lemma {:induction false} RunTrace(found: bool, c: seq<Insn>, st: seq<State>)
    requires |st| == |c| + 1
    requires forall i | 0 <= i < |c| :: Simple(c[i]) && Step(found, c[i], st[i]) == Some(st[i + 1])
    ensures Straight(c) && Run(found, c, st[0]) == Some(st[|c|])
  {
    if c != [] {
      forall i | 0 <= i < |c[1..]|
        ensures Simple(c[1..][i]) && Step(found, c[1..][i], st[1..][i]) == Some(st[1..][i + 1])
      {
        assert c[1..][i] == c[i + 1];
      }
      RunTrace(found, c[1..], st[1..]);
    }
  }
}

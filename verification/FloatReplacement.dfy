/**
 The rewriting of a method body: what FloatReplacerMethodVisitor, ReplaceFloatsInstrumenter and
 FloatVariablesSorter together emit for each visited instruction, as functions.
 */
module FloatReplacement {
  import opened Collections
  import opened OperandStack
  import opened Opcodes
  import opened Jvm
  import opened Analyzer
  import opened FloatVariablesSorter

  /** The one-slot form of an instruction that moves a double on top of the stack. */
  function NarrowForm(op: StackOp): StackOp {
    match op
    case DUP2 => DUP
    case DUP2_X1 => DUP_X1
    case DUP2_X2 => DUP_X2
    case POP2 => POP
    case _ => op
  }

  /** Virtual calls with a double in the descriptor go through the proxy, even of methods that are rewritten. */
  predicate GoesThroughProxy(op: Opcode, desc: Descriptor) { op == INVOKEVIRTUAL && MentionsDouble(desc) }

  function ReferenceKind(kind: Ty): Ty { if kind == TDouble then TRef else kind }

  /** What is emitted for an instruction, before its variable is renumbered. */
  function Replacement(insn: Insn, top: Option<Ty>): (r: seq<Insn>)
    ensures 1 <= |r| <= 2
  {
    match insn
    case Stack(op) => [Stack(if top == Some(TWrapper) then NarrowForm(op) else op)]
    case Calc(op) => [if IsDoubleOp(op) then InvokeWrapper(Operation(op)) else insn]
    case Const(Double(_)) => [insn, InvokeWrapper(FromDouble)]
    case Ldc(Double(_)) => [insn, InvokeWrapper(FromDouble)]
    case Load(kind, slot) => [Load(ReferenceKind(kind), slot)]
    case Store(kind, slot) => [Store(ReferenceKind(kind), slot)]
    case Return(Some(kind)) => [Return(Some(ReferenceKind(kind)))]
    case Invoke(op, name, desc) =>
      [if GoesThroughProxy(op, desc) then InvokeProxied(name, desc) else Invoke(op, name, ImageDescriptor(desc))]
    case _ => [insn]
  }

  function RenumberInsn(params: seq<Ty>, insn: Insn): Insn {
    match insn
    case Load(kind, slot) => Load(kind, Renumber(params, slot))
    case Store(kind, slot) => Store(kind, Renumber(params, slot))
    case Iinc(slot, amount) => Iinc(Renumber(params, slot), amount)
    case Frame(locals, stack) => Frame(Map(ImageTy, locals), Map(ImageTy, stack))
    case _ => insn
  }

  function Emitted(params: seq<Ty>, insn: Insn, top: Option<Ty>): (r: seq<Insn>)
    ensures 1 <= |r| <= 2
  {
    Map(i => RenumberInsn(params, i), Replacement(insn, top))
  }

  /** The writer's code, and what the analyzer that follows it knows, after some instructions. */
  datatype Progress = Progress(out: seq<Insn>, known: Option<Analysis>)

  function Rewriting(m: Method, i: nat): Progress
    requires i <= |m.code|
  {
    if i == 0 then Progress([], Some(Analysis([], LayOutTypes(Map(ImageTy, Params(m.desc)), 0))))
    else
      var before := Rewriting(m, i - 1);
      var emitted := Emitted(Params(m.desc), m.code[i - 1], StackTop(before.known));
      Progress(before.out + emitted, ObserveAll(emitted, before.known))
  }

  function RewriteMethod(m: Method): Method {
    Method(ImageDescriptor(m.desc), Rewriting(m, |m.code|).out, m.isPublic)
  }

  function RewriteProgram(p: Program): (q: Program)
    ensures q.Keys == p.Keys
  {
    map name | name in p :: RewriteMethod(p[name])
  }

  /** Where the code of instruction `i` starts. */
  function Offset(m: Method, i: nat): nat
    requires i <= |m.code|
  {
    |Rewriting(m, i).out|
  }
}

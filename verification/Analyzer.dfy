/**
 ASM's AnalyzerAdapter, by slots: its list of stack types has two entries for a long or a double, the type and TOP.
 It is told the new code, and the frames that the proxy generator gives it.
 */
module Analyzer {
  import opened Collections
  import opened OperandStack
  import opened Jvm

  /** The list of stack slots, and the local variables whose type is known. */
  datatype Analysis = Analysis(slots: seq<Ty>, locals: map<int, Ty>)

  /** What a visited frame adds to a list: an entry more for each long or double, even if there is one already. */
  function Slots(ts: seq<Ty>): (s: seq<Ty>)
    ensures |s| >= |ts|
  {
    if ts == [] then []
    else
      var last := ts[|ts| - 1];
      Slots(ts[..|ts| - 1]) + (if WideTy(last) then [last, TTop] else [last])
  }

  /** Takes slots away and adds those of a result. */
  function PopPushSlots(a: Analysis, n: nat, result: seq<Ty>): Option<Analysis> {
    if n > |a.slots| then None else Some(a.(slots := a.slots[..|a.slots| - n] + Slots(result)))
  }

  predicate OneSlot(t: Ty) { false }

  /** A type that is stored in variables: TOP is nothing to be known. */
  function SetLocal(locals: map<int, Ty>, slot: int, t: Ty): map<int, Ty> {
    if t == TTop then locals - {slot} else locals[slot := t]
  }

  /** The variables after a store of type `t`: a wide variable that it reaches into is forgotten. */
  function StoreLocals(locals: map<int, Ty>, wide: bool, slot: int, t: Ty): map<int, Ty> {
    var m := SetLocal(locals, slot, t);
    var m1 := if wide then m - {slot + 1} else m;
    if slot - 1 in m1 && WideTy(m1[slot - 1]) then m1 - {slot - 1} else m1
  }

  /** A store takes the type that it finds on the list, whatever it is. */
  function StoreSlots(a: Analysis, kind: Ty, slot: int): Option<Analysis> {
    var n := |a.slots| - Size(kind);
    if n < 0 then None
    else Some(Analysis(a.slots[..n], StoreLocals(a.locals, WideTy(kind), slot, a.slots[n])))
  }

  //---------------------------------------------------------------- frames around a proxied call

  function WideBelow(A: map<int, Ty>, v: int): set<int> { set u | u in A && u < v && WideTy(A[u]) }

  /** A variable moves up by one slot for every wide variable below it. */
  function Shift(A: map<int, Ty>, v: int): int { v + |WideBelow(A, v)| }

  lemma ShiftGrows(A: map<int, Ty>)
    ensures forall v, w | v in A && w in A && v < w :: Shift(A, v) < Shift(A, w)
  {
    forall v, w | v in A && w in A && v < w ensures Shift(A, v) < Shift(A, w) {
      SubsetCard(WideBelow(A, v), WideBelow(A, w));
    }
  }

  lemma {:induction false} SubsetCard<T>(a: set<T>, b: set<T>)
    requires a <= b
    ensures |a| <= |b|
  {
    if a != {} {
      var x :| x in a;
      SubsetCard(a - {x}, b - {x});
    }
  }

  /** The analyzer's own list of variables, given to it as the entries of a frame. */
  function Relocated(A: map<int, Ty>): map<int, Ty> {
    ShiftGrows(A);
    map v | v in A :: Shift(A, v) := A[v]
  }

  /** At the end of a proxied call the analyzer is given, as a frame, its own lists from before the call, without the
      operands and with the result. */
  function ObserveProxied(desc: Descriptor, a: Analysis): Option<Analysis> {
    var n := |Slots(Params(ImageDescriptor(desc)))|;
    if n > |a.slots| then None
    else Some(Analysis(Slots(a.slots[..|a.slots| - n]) + Slots(Maybe(ImageDescriptor(desc).ret)), Relocated(a.locals)))
  }

  //---------------------------------------------------------------- instructions

  /** What is known after an instruction of the new code; None where the analyzer has lost track. */
  function Observe(insn: Insn, known: Option<Analysis>): Option<Analysis> {
    if insn.Frame? then Some(Analysis(Slots(insn.stack), LayOutTypes(insn.locals, 0)))
    else if known.None? then None
    else
      var a := known.value;
      match insn
      case Stack(op) =>
        (match Shuffle(op, a.slots, OneSlot)
         case None => None
         case Some(s) => Some(a.(slots := s)))
      case Calc(op) => PopPushSlots(a, |Slots(SignatureOf(op).args)|, [SignatureOf(op).result])
      case InvokeWrapper(m) => PopPushSlots(a, |Slots(WrapperSignature(m).args)|, [WrapperSignature(m).result])
      case Const(c) => PopPushSlots(a, 0, [TypeOf(c)])
      case Ldc(c) => PopPushSlots(a, 0, [TypeOf(c)])
      case Load(kind, slot) =>
        if kind != TRef then PopPushSlots(a, 0, [kind])
        else Some(a.(slots := a.slots + [if slot in a.locals then a.locals[slot] else TTop]))
      case Store(kind, slot) => StoreSlots(a, kind, slot)
      case Iinc(slot, _) => Some(a.(locals := a.locals[slot := TInt]))
      case If(_, _) => PopPushSlots(a, 1, [])
      case Invoke(_, _, desc) => PopPushSlots(a, |Slots(Params(desc))|, Maybe(desc.ret))
      case InvokeProxied(_, desc) => ObserveProxied(desc, a)
      case Label(_) => known
      case Goto(_) | Return(_) => None
  }

  function ObserveAll(code: seq<Insn>, known: Option<Analysis>): Option<Analysis> {
    if code == [] then known else ObserveAll(code[1..], Observe(code[0], known))
  }

  /** The type on top of the stack, as far as it is known. */
  function StackTop(known: Option<Analysis>): Option<Ty> {
    if known.None? || known.value.slots == [] then None else Some(known.value.slots[|known.value.slots| - 1])
  }

  //---------------------------------------------------------------- where wrappers are

  /** The slot `k` below the top holds a wrapper. */
  predicate WrapperAt(s: seq<Ty>, k: int) { 0 <= k < |s| && s[|s| - 1 - k] == TWrapper }

  /** The list has as many slots as the image of the stack at least, and wrappers at the same distances from the top. */
  ghost predicate LooksLike(s: seq<Ty>, image: seq<Ty>) {
    |s| >= |image| && forall k :: WrapperAt(s, k) <==> WrapperAt(image, k)
  }

  predicate HasWrapper(A: map<int, Ty>, z: int) { z in A && A[z] == TWrapper }

  /** A wrapper is known where it is stored, and elsewhere as before. */
  lemma StoreWrappers(A: map<int, Ty>, wide: bool, slot: int, t: Ty)
    ensures HasWrapper(StoreLocals(A, wide, slot, t), slot) <==> t == TWrapper
    ensures forall z | z != slot ::
      HasWrapper(StoreLocals(A, wide, slot, t), z) <==> HasWrapper(A, z) && !(wide && z == slot + 1)
  {
  }
}

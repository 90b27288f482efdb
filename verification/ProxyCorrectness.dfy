/** The two ways in which a call of an uninstrumented method is proxied. */
module ProxyCorrectness {
  import opened Collections
  import opened OperandStack
  import opened Opcodes
  import opened Descriptors
  import opened ProxyMachine
  import opened ProxyCode
  import opened StackEffects
  import opened ConvertMethodProof
  import opened ProxyCallProof

  //---------------------------------------------------------------- results

  /** A result as the rewritten caller receives it. */
  function CojacVersion(ret: JType, v: Val): Val {
    if ret == Prim(FLOAT) then Converted(FromFloat, 0, v)
    else if ret == FLOAT_CLASS then Converted(FromRealFloatWrapper, 0, v)
    else if ret == Prim(DOUBLE) then Converted(FromDouble, 0, v)
    else if ret == DOUBLE_CLASS then Converted(FromRealDoubleWrapper, 0, v)
    else if RealArray(ret) then
      Converted(if ret.elem == Prim(FLOAT) then FloatArrayToCojac else DoubleArrayToCojac, ret.dims, v)
    else if ret == OBJECT || (ret.Arr? && ret.elem == OBJECT) then Converted(ObjectToCojac, 0, v)
    else v
  }

  /** The converted result has the type that the rewritten caller expects, unless the method returns an
      array of Float or Double objects: for those nothing is converted. */
  lemma ResultTypedExactly(ret: JType, v: Val)
    requires WellFormed(ret) && ret != Void && TypeOf(v) == ret
    ensures TypeOf(CojacVersion(ret, v)) == AfterFloatReplacement(ret) <==> !JWrapperArray(ret)
  {
    ReplacedExactly(ret);
    if ret.Arr? { ReplacedExactly(ret.elem); }
  }

  /** A Float[] that is returned stays one, where the caller expects wrappers. */
  lemma FloatObjectsStay(id: nat)
    ensures var v := Ext(Arr(1, FLOAT_CLASS), id);
      CojacVersion(TypeOf(v), v) == v && AfterFloatReplacement(TypeOf(v)) == Arr(1, FLOAT_WRAPPER) != TypeOf(v)
  {
    assert AfterFloatReplacement(Arr(1, FLOAT_CLASS)) == Arr(1, AfterFloatReplacement(FLOAT_CLASS));
  }

  lemma RealToCojacTurns(ret: JType, v: Val)
    requires WellFormed(ret) && ret != Void && TypeOf(v) == ret && MentionsFloat(ret)
    ensures Turns(RealToCojac(ret), [v], [CojacVersion(ret, v)])
  {
    hide Turns;
    if RealArray(ret) {
      var h := if ret.elem == Prim(FLOAT) then FloatArrayToCojac else DoubleArrayToCojac;
      TurnsArray(h, ret.dims, v, AfterFloatReplacement(ret));
    } else if ret == Prim(FLOAT) {
      TurnsCall(FromFloat, v);
    } else if ret == FLOAT_CLASS {
      TurnsCall(FromRealFloatWrapper, v);
    } else if ret == Prim(DOUBLE) {
      TurnsCall(FromDouble, v);
    } else if ret == DOUBLE_CLASS {
      TurnsCall(FromRealDoubleWrapper, v);
    } else {
      TurnsNothing([v]);
    }
  }

  lemma ReturnTurns(ret: JType, v: Val)
    requires WellFormed(ret) && ret != Void && TypeOf(v) == ret
    ensures Turns(ReturnConversion(ret), [v], [CojacVersion(ret, v)])
  {
    hide Turns, TypeOf, RealToCojac, ObjectTo;
    ReplacedExactly(ret);
    var code := ReturnConversion(ret);
    if MentionsFloat(ret) {
      RealToCojacTurns(ret, v);
      assert code == RealToCojac(ret) + [] == RealToCojac(ret);
    } else if ret == OBJECT || (ret.Arr? && ret.elem == OBJECT) {
      TurnsObject(ObjectToCojac, v, ret);
      assert code == [] + ObjectTo(ObjectToCojac, ret) == ObjectTo(ObjectToCojac, ret);
    } else {
      TurnsNothing([v]);
      assert code == [];
    }
  }

  /** The result of a call whose log is `log`, for the rewritten caller; nothing for void. */
  function Delivered(ret: JType, log: seq<Event>): seq<Val> {
    if ret == Void then [] else [CojacVersion(ret, Ext(ret, |log|))]
  }

  lemma ReturnRuns(f: bool, ret: JType, log: seq<Event>, s: State, b: seq<Val>)
    requires WellFormed(ret)
    ensures Reaches(f, ReturnConversion(ret), On(s, b, Answer(ret, log)), On(s, b, Delivered(ret, log)))
  {
    hide Reaches, Turns, CojacVersion, On;
    if ret == Void {
      assert ReturnConversion(ret) == [];
      ReachNothing(f, On(s, b, []));
    } else {
      ReturnTurns(ret, Ext(ret, |log|));
      Turn(f, s, b, ReturnConversion(ret), [Ext(ret, |log|)], [CojacVersion(ret, Ext(ret, |log|))]);
    }
  }

  //---------------------------------------------------------------- what all paths share

  lemma AnswerSinks(ret: JType, log: seq<Event>, r: nat)
    ensures Turns(if Size(ret) == 0 then [] else Sink(ret), [Ref(r)] + Answer(ret, log), Answer(ret, log) + [Ref(r)])
  {
    hide Turns;
    if ret == Void {
      TurnsNothing([Ref(r)]);
      assert [Ref(r)] + [] == [Ref(r)] == [] + [Ref(r)];
    } else {
      var v := Ext(ret, |log|);
      WideRef(r);
      Sinks(ret, Ref(r), v);
      assert [Ref(r)] + [v] == [Ref(r), v] && [v] + [Ref(r)] == [v, Ref(r)];
    }
  }

  /** Each array argument is merged back into its original once; the array of arguments disappears. */
  lemma ChecksArrays(f: bool, c: Context, args: seq<Val>, order: seq<nat>, r: nat, s: State, b: seq<Val>,
      log: seq<Event>)
    requires WellTypedArguments(c, args) && |args| == c.N() && ListsArrays(c, order)
    requires r < |s.heap| && |s.heap[r]| == c.N() + 1 && forall k | 0 <= k < c.N() :: CellHolds(c, args, k, r, s.heap)
    ensures var ret := c.jDesc.ret;
      Reaches(f, CheckArraysAfterCall(ret, order), On(s, b, [Ref(r)] + Answer(ret, log)),
        On(s.(log := s.log + Merging(c, args, order)), b, Answer(ret, log)))
  {
    hide Reaches, Turns, CellHolds, JavaArgument, Map, Answer, MergeAll, Sink, Size;
    assert c.Valid() by { ValidContext(c, args); }
    var ret, res := c.jDesc.ret, Answer(c.jDesc.ret, log);
    var s1 := s.(log := s.log + Merging(c, args, order));
    var sink := if Size(ret) == 0 then [] else Sink(ret);
    AnswerSinks(ret, log, r);
    Turn(f, s, b, sink, [Ref(r)] + res, res + [Ref(r)]);
    MergesRun(f, c, args, order, r, s, b + res);
    WideRef(r);
    Pops(Ref(r));
    Turn(f, s1, b + res, [Stack(POP)], [Ref(r)], []);
    var t0, t1, t2, t3 := On(s, b, [Ref(r)] + res), On(s, b + res, [Ref(r)]), On(s1, b + res, [Ref(r)]), On(s1, b, res);
    assert On(s, b, res + [Ref(r)]) == t1 && On(s1, b + res, []) == t3;
    ReachSeq(f, sink, MergeAll(order), t0, t1, t2);
    ReachSeq(f, sink + MergeAll(order), [Stack(POP)], t0, t2, t3);
  }

  /** From the array above a receiver to the merged arrays: explode, call, check. */
  function CallCode(c: Context, order: seq<nat>): seq<Insn> {
    ExplodeOnStack(c) + [Invoke(c)] + CheckArraysAfterCall(c.jDesc.ret, order)
  }

  function CallLog(c: Context, t: Option<Val>, passed: seq<Val>, log: seq<Event>): seq<Event> {
    log + [Called(c, t, passed)]
  }

  /** The arguments are those of `e`: the call itself, unless the conversion method was made for another site. */
  lemma CallRuns(
      f: bool, c: Context, e: Context, args: seq<Val>, order: seq<nat>, r: nat, s: State, b: seq<Val>, t: Option<Val>)
    requires Alike(c, e) && WellTypedArguments(e, args) && e.Valid() && |args| == e.N() && ListsArrays(e, order)
    requires (t.Some? <==> HasTarget(c.opcode)) && r < |s.heap| && |s.heap[r]| == e.N() + 1
    requires forall k | 0 <= k < e.N() :: CellHolds(e, args, k, r, s.heap)
    ensures var log := CallLog(c, t, JavaArguments(e, args), s.log);
      Reaches(f, CallCode(c, order), On(s, b + [Ref(r)], Receiver(t) + [Ref(r)]),
        On(s.(log := log + Merging(e, args, order)), b, Answer(c.jDesc.ret, log)))
  {
    hide Reaches, CellHolds, JavaArgument, JavaArguments, Answer, ExplodeOnStack, CheckArraysAfterCall, Merging,
      Receiver;
    var all, ret := JavaArguments(e, args), c.jDesc.ret;
    JavaTypes(e, args);
    var log := CallLog(c, t, all, s.log);
    var s1, s2 := s.(log := log), s.(log := log + Merging(e, args, order));
    var b1 := b + [Ref(r)];
    Explodes(f, e, args, r, s, b1 + Receiver(t));
    assert ExplodeOnStack(c) == ExplodeOnStack(e) by { ExplodeOnStackAlike(c, e); }
    Invokes(f, c, s, b1, t, all);
    ChecksArrays(f, e, args, order, r, s1, b, log);
    var t0, t1 := On(s, b1, Receiver(t) + [Ref(r)]), On(s, b1, Receiver(t) + all);
    var t2, t3 := On(s1, b1, Answer(ret, log)), On(s2, b, Answer(ret, log));
    assert t0 == On(s, b1 + Receiver(t), [Ref(r)]) && t1 == On(s, b1 + Receiver(t), all);
    assert t2 == On(s1, b, [Ref(r)] + Answer(ret, log));
    ReachSeq(f, ExplodeOnStack(c), [Invoke(c)], t0, t1, t2);
    ReachSeq(f, ExplodeOnStack(c) + [Invoke(c)], CheckArraysAfterCall(ret, order), t0, t2, t3);
  }

  lemma ExplodeOnStackAlike(c: Context, e: Context)
    requires Alike(c, e)
    ensures ExplodeOnStack(c) == ExplodeOnStack(e)
  {
    hide ExplodeAll;
    ExplodeAllAlike(c, e, c.N());
  }

  lemma JavaTypes(c: Context, args: seq<Val>)
    requires WellTypedArguments(c, args) && c.Valid() && |args| == c.N()
    ensures Map(TypeOf, JavaArguments(c, args)) == c.OutArgs()
  {
    hide Map, TypeOf, JavaArgument;
    forall k | 0 <= k < c.N() ensures TypeOf(JavaArgument(c, k, args[k])) == c.OutArgs()[k] {
      assert Map(TypeOf, args)[k] == TypeOf(args[k]);
    }
  }

  /** The first instruction: the arguments are packed into an array; then receiver and array are doubled. */
  lemma Packs(f: bool, c: Context, d: Context, args: seq<Val>, s: State, b: seq<Val>, t: Option<Val>, rest: seq<Insn>)
      returns (h: seq<seq<Val>>)
    requires WellTypedArguments(d, args) && c.InArgs() == d.InArgs()
    requires (t.Some? <==> HasTarget(c.opcode)) && (t.Some? ==> !Wide(t.value))
    ensures |args| == d.N() == c.N() && d.Valid()
    ensures Framed(d, |s.heap|, h) && Holds(d, args, d.N(), |s.heap|, h) && s.heap <= h
    ensures Run(f, PackedBy(c, d) + rest, On(s, b, Receiver(t) + args)) == Run(f, rest, Packed(s, b, t, h))
  {
    hide Map, TypeOf, Wide, ConvertMethod, Holds, Framed, Variables, Turns, Run, Reaches;
    ValidContext(d, args);
    h := ConvertMethodReturns(f, d, args, s.heap, s.log);
    var r, start := Ref(|s.heap|), On(s, b, Receiver(t) + args);
    var s1, double := s.(heap := h), [Stack(if HasTarget(c.opcode) then DUP2 else DUP)];
    assert start == On(s, b + Receiver(t), args);
    assert Map(TypeOf, args) == c.InArgs();
    assert |c.InArgs()| == c.N() && |d.InArgs()| == d.N();
    ConvertSteps(f, c.InArgs(), ConvertMethod(d), double + rest, s, b + Receiver(t), args);
    assert PackedBy(c, d) + rest == [TypeConvert(c.InArgs(), ConvertMethod(d))] + (double + rest);
    assert b + Receiver(t) + [r] == b + (Receiver(t) + [r]);
    Doubles(f, t, |s.heap|, s1, b);
    DoublesThen(f, double, rest, On(s1, b, Receiver(t) + [r]), Packed(s, b, t, h));
  }

  /** After that: the heap `h`, and receiver and array twice. */
  function Packed(s: State, b: seq<Val>, t: Option<Val>, h: seq<seq<Val>>): State {
    var r := Ref(|s.heap|);
    On(s.(heap := h), b, Receiver(t) + [r] + Receiver(t) + [r])
  }

  lemma ConvertSteps(f: bool, types: seq<JType>, body: seq<Insn>, rest: seq<Insn>, s: State, b: seq<Val>,
      args: seq<Val>)
    requires Map(TypeOf, args) == types && |args| == |types|
    requires var t := Run(f, body, State([], s.heap, Variables(args, 0), s.log)); t.Some? && t.value.stack != []
    ensures var t := Run(f, body, State([], s.heap, Variables(args, 0), s.log)).value;
      Run(f, [TypeConvert(types, body)] + rest, On(s, b, args))
      == Run(f, rest, On(s.(heap := t.heap, log := t.log), b, [Top(t, 0)]))
  {
    hide Map, TypeOf, Variables, Step;
    var code, start := [TypeConvert(types, body)] + rest, On(s, b, args);
    assert start.stack[|start.stack| - |types|..] == args && start.stack[..|start.stack| - |types|] == b;
    assert code[0] == TypeConvert(types, body) && code[1..] == rest;
  }

  lemma DoublesThen(f: bool, c: seq<Insn>, rest: seq<Insn>, s: State, t: State)
    requires Reaches(f, c, s, t)
    ensures Run(f, c + rest, s) == Run(f, rest, t)
  {
    RunAppend(f, c, rest, s, t);
  }

  lemma Doubles(f: bool, t: Option<Val>, a: nat, s: State, b: seq<Val>)
    requires t.Some? ==> !Wide(t.value)
    ensures Reaches(f, [Stack(if t.Some? then DUP2 else DUP)], On(s, b, Receiver(t) + [Ref(a)]),
      On(s, b, Receiver(t) + [Ref(a)] + Receiver(t) + [Ref(a)]))
  {
    hide Reaches, Turns, Wide;
    WideRef(a);
    if t.Some? {
      Dup2s(t.value, Ref(a));
      Turn(f, s, b, [Stack(DUP2)], [t.value, Ref(a)], [t.value, Ref(a), t.value, Ref(a)]);
      assert Receiver(t) + [Ref(a)] == [t.value, Ref(a)];
      assert Receiver(t) + [Ref(a)] + Receiver(t) + [Ref(a)] == [t.value, Ref(a), t.value, Ref(a)];
    } else {
      Dups(Ref(a));
      Turn(f, s, b, [Stack(DUP)], [Ref(a)], [Ref(a), Ref(a)]);
      assert Receiver(t) + [Ref(a)] == [Ref(a)] && Receiver(t) + [Ref(a)] + Receiver(t) + [Ref(a)] == [Ref(a), Ref(a)];
    }
  }

  //---------------------------------------------------------------- the direct path

  function ConvertedTarget(c: Context, t: Option<Val>): Option<Val> {
    if t.Some? then Some(JavaTarget(c, t.value)) else None
  }

  lemma TargetRuns(f: bool, c: Context, t: Option<Val>, r: nat, s: State, b: seq<Val>)
    requires c.Valid() && (t.Some? <==> HasTarget(c.opcode)) && (t.Some? ==> !Wide(t.value))
    ensures Reaches(f, TargetConversion(c), On(s, b, Receiver(t) + [Ref(r)]),
      On(s, b, Receiver(ConvertedTarget(c, t)) + [Ref(r)]))
  {
    hide Reaches, Turns, Wide, JavaTarget;
    if t.Some? {
      TargetTurns(c, t.value, r);
      Turn(f, s, b, TargetConversion(c), [t.value, Ref(r)], [JavaTarget(c, t.value), Ref(r)]);
      assert Receiver(t) + [Ref(r)] == [t.value, Ref(r)];
      assert Receiver(ConvertedTarget(c, t)) + [Ref(r)] == [JavaTarget(c, t.value), Ref(r)];
    } else {
      ReachNothing(f, On(s, b, Receiver(t) + [Ref(r)]));
    }
  }

  lemma DropsTarget(f: bool, c: Context, t: Option<Val>, log: seq<Event>, s: State, b: seq<Val>)
    requires (t.Some? <==> HasTarget(c.opcode)) && (t.Some? ==> !Wide(t.value))
    ensures Reaches(f, DropTarget(c), On(s, b, Receiver(t) + Answer(c.jDesc.ret, log)),
      On(s, b, Answer(c.jDesc.ret, log)))
  {
    hide Reaches, Turns;
    var ret, res := c.jDesc.ret, Answer(c.jDesc.ret, log);
    if t.None? {
      assert Receiver(t) + res == res;
      ReachNothing(f, On(s, b, res));
    } else {
      var x := t.value;
      Pops(x);
      if ret == Void {
        Turn(f, s, b, [Stack(POP)], [x], []);
        assert Receiver(t) + res == [x];
      } else {
        var v := Ext(ret, |log|);
        Sinks(ret, x, v);
        TurnsUnder([Stack(POP)], [v], [x], []);
        assert [v] + [x] == [v, x] && [v] + [] == [v];
        TurnsSeq(Sink(ret), [Stack(POP)], [x, v], [v, x], [v]);
        assert DropTarget(c) == Sink(ret) + [Stack(POP)];
        Turn(f, s, b, DropTarget(c), [x, v], [v]);
        assert Receiver(t) + res == [x, v];
      }
    }
  }

  /** What follows the packing of the arguments. */
  function DirectRest(c: Context, order: seq<nat>): seq<Insn> {
    TargetConversion(c) + CallCode(c, order) + DropTarget(c) + ReturnConversion(c.jDesc.ret)
  }

  /** Receiver and arguments are replaced by the converted result; the method is called once, with each argument
      converted as `e` wants it, in order; each array is merged back once. */
  function DirectOutcome(
      c: Context, e: Context, order: seq<nat>, s: State, b: seq<Val>, t: Option<Val>, args: seq<Val>,
        h: seq<seq<Val>>): State
    requires e.Valid() && |args| == e.N() && ListsArrays(e, order)
  {
    var log := CallLog(c, ConvertedTarget(c, t), JavaArguments(e, args), s.log);
    On(s.(heap := h, log := log + Merging(e, args, order)), b, Delivered(c.jDesc.ret, log))
  }

  lemma DirectRestRuns(f: bool, c: Context, e: Context, order: seq<nat>,
      s: State, b: seq<Val>, t: Option<Val>, args: seq<Val>, h: seq<seq<Val>>)
    requires Alike(c, e) && WellTypedArguments(e, args) && e.Valid() && |args| == e.N() && ListsArrays(e, order)
    requires (t.Some? <==> HasTarget(c.opcode)) && (t.Some? ==> !Wide(t.value))
    requires |s.heap| < |h| && |h[|s.heap|]| == e.N() + 1
    requires forall k | 0 <= k < e.N() :: CellHolds(e, args, k, |s.heap|, h)
    ensures Run(f, DirectRest(c, order), Packed(s, b, t, h)) == Some(DirectOutcome(c, e, order, s, b, t, args, h))
  {
    hide Map, TypeOf, Wide, Reaches, CellHolds, Answer, Delivered, TargetConversion, CallCode, DropTarget,
      ReturnConversion, Receiver, ConvertedTarget, Run, Merging, JavaArguments, WellTypedArguments;
    var r, ret := |s.heap|, c.jDesc.ret;
    var s1, u, b1 := s.(heap := h), ConvertedTarget(c, t), b + Receiver(t);
    var log := CallLog(c, u, JavaArguments(e, args), s.log);
    var s2 := s1.(log := log + Merging(e, args, order));
    TargetRuns(f, c, t, r, s1, b1 + [Ref(r)]);
    assert u.Some? <==> t.Some? by { TargetStays(c, t); }
    CallRuns(f, c, e, args, order, r, s1, b1, u);
    DropsTarget(f, c, t, log, s2, b);
    ReturnRuns(f, ret, log, s2, b);
    var t0, t1 := On(s1, b1 + [Ref(r)], Receiver(t) + [Ref(r)]), On(s1, b1 + [Ref(r)], Receiver(u) + [Ref(r)]);
    var t2, t3, t4 := On(s2, b1, Answer(ret, log)), On(s2, b, Answer(ret, log)), On(s2, b, Delivered(ret, log));
    assert On(s1, b, Receiver(t) + [Ref(r)] + Receiver(t) + [Ref(r)]) == t0;
    assert t2 == On(s2, b, Receiver(t) + Answer(ret, log));
    ReachSeq(f, TargetConversion(c), CallCode(c, order), t0, t1, t2);
    ReachSeq(f, TargetConversion(c) + CallCode(c, order), DropTarget(c), t0, t2, t3);
    ReachSeq(f, TargetConversion(c) + CallCode(c, order) + DropTarget(c), ReturnConversion(ret), t0, t3, t4);
    RunsTo(f, DirectRest(c, order), t0, t4);
  }

  /** The direct path, whatever lies below receiver and arguments. */
  lemma DirectCallCorrect(f: bool, c: Context, order: seq<nat>, s: State, b: seq<Val>, t: Option<Val>, args: seq<Val>)
      returns (h: seq<seq<Val>>)
    requires WellTypedArguments(c, args) && ListsArrays(c, order)
    requires (t.Some? <==> HasTarget(c.opcode)) && (t.Some? ==> !Wide(t.value))
    ensures |args| == c.N() && c.Valid() && s.heap <= h
    ensures Run(f, DirectCall(c, order), On(s, b, Receiver(t) + args))
      == Some(DirectOutcome(c, c, order, s, b, t, args, h))
  {
    hide Holds, CellHolds, DirectRest, DirectOutcome, PackedBy, Receiver, Run, Wide, ListsArrays;
    h := Packs(f, c, c, args, s, b, t, DirectRest(c, order));
    assert forall k | 0 <= k < c.N() :: CellHolds(c, args, k, |s.heap|, h) by { HoldsCells(c, args, |s.heap|, h); }
    DirectRestRuns(f, c, c, order, s, b, t, args, h);
    DirectPieces(c, order);
  }

  lemma DirectPieces(c: Context, order: seq<nat>)
    ensures DirectCall(c, order) == PackedBy(c, c) + DirectRest(c, order)
  {
    hide PackedBy, TargetConversion, ExplodeOnStack, CheckArraysAfterCall, DropTarget, ReturnConversion;
  }

  lemma RunsTo(f: bool, code: seq<Insn>, s: State, t: State)
    requires Reaches(f, code, s, t)
    ensures Run(f, code, s) == Some(t)
  {
  }

  lemma HoldsCells(c: Context, args: seq<Val>, r: nat, h: seq<seq<Val>>)
    requires c.Valid() && |args| == c.N() && Holds(c, args, c.N(), r, h)
    ensures |h[r]| == c.N() + 1 && forall k | 0 <= k < c.N() :: CellHolds(c, args, k, r, h)
  {
    hide CellHolds;
  }

  lemma TargetStays(c: Context, t: Option<Val>)
    ensures ConvertedTarget(c, t).Some? <==> t.Some?
  {
  }

  //---------------------------------------------------------------- reflection first

  /** The originals, boxed where they are primitive. */
  function BoxedArguments(c: Context, args: seq<Val>): (r: seq<Val>)
    requires |args| == c.N()
  {
    seq(c.N(), k requires 0 <= k < c.N() => BoxedValue(c.InArgs()[k], args[k]))
  }

  function CojacDescriptor(c: Context): MethodType { ReplaceFloatMethodDescription(c.jDesc) }

  function Found(f: bool, c: Context): Val {
    if f then Reflection(c.name, CojacDescriptor(c)) else Null
  }

  /** Receiver and array, doubled, become receiver, array, and twice the method found or null. */
  lemma LooksUp(f: bool, c: Context, s: State, b: seq<Val>, t: Val, r: nat)
    requires !Wide(t)
    ensures Reaches(f, LookUp(c), On(s, b, [t, Ref(r), t, Ref(r)]),
      On(s.(log := s.log + [LookedUp(t, c.name, CojacDescriptor(c))]), b, [t, Ref(r), Found(f, c), Found(f, c)]))
  {
    hide Reaches, Turns, Wide;
    var a, n, d, m := Ref(r), Name(c.name), Descr(CojacDescriptor(c)), Found(f, c);
    var s1 := s.(log := s.log + [LookedUp(t, c.name, CojacDescriptor(c))]);
    WideRef(r);
    FoundIsNarrow(f, c);
    Pops(a);
    Pops(t);
    Swaps(t, a);
    DupX1s(a, t);
    TurnsLdcValue(n);
    TurnsLdcValue(d);
    Dups(m);
    Turn(f, s, b + [t, a, t], [Stack(POP)], [a], []);
    Turn(f, s, b + [t, a], [Stack(POP)], [t], []);
    Turn(f, s, b, [Stack(SWAP)], [t, a], [a, t]);
    Turn(f, s, b, [Stack(DUP_X1)], [a, t], [t, a, t]);
    Turn(f, s, b + [t, a, t], [LdcValue(n)], [], [n]);
    Turn(f, s, b + [t, a, t, n], [LdcValue(d)], [], [d]);
    LookUpStep(f, c, s, b + [t, a], t);
    Turn(f, s1, b + [t, a], [Stack(DUP)], [m], [m, m]);
    var t0, t1, t2 := On(s, b, [t, a, t, a]), On(s, b + [t, a, t], []), On(s, b, [t, a]);
    var t3, t4, t5 := On(s, b, [a, t]), On(s, b + [t, a, t], []), On(s, b + [t, a, t], [n]);
    var t6, t7, t8 := On(s, b + [t, a], [t, n, d]), On(s1, b + [t, a], [m]), On(s1, b, [t, a, m, m]);
    assert t0 == On(s, b + [t, a, t], [a]) && t1 == On(s, b + [t, a], [t]) && t2 == On(s, b + [t, a], []);
    assert t4 == On(s, b, [t, a, t]) && t5 == On(s, b + [t, a, t, n], []) && t6 == On(s, b + [t, a, t, n], [d]);
    assert t8 == On(s1, b + [t, a], [m, m]);
    ReachEach(f, LookUp(c), [t0, t1, t2, t3, t4, t5, t6, t7, t8]);
  }

  lemma FoundIsNarrow(f: bool, c: Context)
    ensures !Wide(Found(f, c))
  {
  }

  lemma LookUpStep(f: bool, c: Context, s: State, b: seq<Val>, t: Val)
    ensures Reaches(f, [PossibleMethod], On(s, b, [t, Name(c.name), Descr(CojacDescriptor(c))]),
      On(s.(log := s.log + [LookedUp(t, c.name, CojacDescriptor(c))]), b, [Found(f, c)]))
  {
    hide Reaches;
    var before := On(s, b, [t, Name(c.name), Descr(CojacDescriptor(c))]);
    assert before.stack[..|b|] == b;
    ReachOne(f, PossibleMethod, before,
      On(s.(log := s.log + [LookedUp(t, c.name, CojacDescriptor(c))]), b, [Found(f, c)]));
  }

  /** What the method found by reflection returns. */
  function ReflectedResult(c: Context, log: seq<Event>): seq<Val> {
    if c.jDesc.ret == Void then [] else [Ext(c.CojacReturn(), |log|)]
  }

  lemma Unreflects(c: Context, log: seq<Event>)
    ensures Turns(Unreflect(c.CojacReturn()), [BoxedAnswer(c.CojacReturn(), log)], ReflectedResult(c, log))
  {
    hide Turns;
    var ret, x := c.CojacReturn(), BoxedAnswer(c.CojacReturn(), log);
    match ret
    case Void => Pops(Null);
    case Prim(sort) =>
      var v := Ext(ret, |log|);
      TurnsCast(x, BoxClass(sort));
      TurnsXxxValue(sort, v);
      TurnsSeq([CheckCast(BoxClass(sort))], [XxxValue(sort)], [x], [x], [v]);
      assert Unreflect(ret) == [CheckCast(BoxClass(sort))] + [XxxValue(sort)];
    case Obj(_) => TurnsCast(x, ret);
    case Arr(_, _) => TurnsCast(x, ret);
  }

  /** The reflective path calls the instrumented method with the unconverted arguments. */
  lemma ReflectiveRuns(f: bool, c: Context, args: seq<Val>, s: State, b: seq<Val>, t: Val, r: nat)
    requires |args| == c.N() && !Wide(t) && Framed(c, r, s.heap)
    requires s.heap[r + 1] == BoxedArguments(c, args)
    ensures var m := Reflection(c.name, CojacDescriptor(c));
      var log := s.log + [Reflected(m, t, BoxedArguments(c, args))];
      Reaches(f, Reflective(c), On(s, b, [t, Ref(r), m]), On(s.(log := log), b, ReflectedResult(c, log)))
  {
    hide Reaches, Turns, Wide, BoxedArguments, Map, Unreflect, BoxedAnswer, ReflectedResult;
    var a, m, n, o := Ref(r), Reflection(c.name, CojacDescriptor(c)), c.N(), Ref(r + 1);
    var log := s.log + [Reflected(m, t, BoxedArguments(c, args))];
    var s1, ret := s.(log := log), c.CojacReturn();
    WideRef(r);
    assert !Wide(m) by { FoundIsNarrow(true, c); }
    DupX2s(t, a, m);
    Pops(m);
    TurnsLdc(n);
    TurnsCast(o, OBJECT_ARRAY);
    Unreflects(c, log);
    Turn(f, s, b, [Stack(DUP_X2)], [t, a, m], [m, t, a, m]);
    Turn(f, s, b + [m, t, a], [Stack(POP)], [m], []);
    Turn(f, s, b + [m, t, a], [Ldc(n)], [], [Const(n)]);
    Loads(f, s, b + [m, t], r, n);
    Turn(f, s, b + [m, t], [CheckCast(OBJECT_ARRAY)], [o], [o]);
    MyInvokeStep(f, s, b, m, t, r + 1);
    Turn(f, s1, b, Unreflect(ret), [BoxedAnswer(ret, log)], ReflectedResult(c, log));
    var t0, t1, t2, t3 := On(s, b, [t, a, m]), On(s, b, [m, t, a, m]), On(s, b + [m, t, a], []),
      On(s, b + [m, t], [a, Const(n)]);
    var t4, t5, t6 := On(s, b + [m, t], [o]), On(s1, b, [BoxedAnswer(ret, log)]), On(s1, b, ReflectedResult(c, log));
    assert t1 == On(s, b + [m, t, a], [m]) && t3 == On(s, b + [m, t, a], [Const(n)]);
    assert t4 == On(s, b, [m, t, o]);
    var head := [Stack(DUP_X2), Stack(POP), Ldc(n), ALoad, CheckCast(OBJECT_ARRAY), MyInvoke];
    ReachEach(f, head, [t0, t1, t2, t3, t4, t4, t5]);
    ReachSeq(f, head, Unreflect(ret), t0, t5, t6);
  }

  lemma MyInvokeStep(f: bool, s: State, b: seq<Val>, m: Val, t: Val, o: nat)
    requires m.Reflection? && o < |s.heap|
    ensures var log := s.log + [Reflected(m, t, s.heap[o])];
      Reaches(f, [MyInvoke], On(s, b, [m, t, Ref(o)]), On(s.(log := log), b, [BoxedAnswer(m.desc.ret, log)]))
  {
    hide Reaches, BoxedAnswer;
    var before, log := On(s, b, [m, t, Ref(o)]), s.log + [Reflected(m, t, s.heap[o])];
    assert before.stack[..|b|] == b;
    ReachOne(f, MyInvoke, before, On(s.(log := log), b, [BoxedAnswer(m.desc.ret, log)]));
  }

  /** The handler up to the array above the converted receiver. */
  lemma HandlerStarts(f: bool, c: Context, s: State, b: seq<Val>, t: Val, r: nat)
    requires c.Valid() && !Wide(t)
    ensures Reaches(f, [Stack(POP)] + TargetConversion(c) + [Stack(DUP_X1)], On(s, b, [t, Ref(r), Null]),
      On(s, b, [Ref(r), JavaTarget(c, t), Ref(r)]))
  {
    hide Reaches, Turns, Wide, TargetConversion, JavaTarget;
    var a, u := Ref(r), JavaTarget(c, t);
    assert !Wide(Null) by { FoundIsNarrow(false, c); }
    WideRef(r);
    Pops(Null);
    Turn(f, s, b + [t, a], [Stack(POP)], [Null], []);
    TargetTurns(c, t, r);
    Turn(f, s, b, TargetConversion(c), [t, a], [u, a]);
    DupX1s(u, a);
    Turn(f, s, b, [Stack(DUP_X1)], [u, a], [a, u, a]);
    var t0, t1, t2, t3 := On(s, b, [t, a, Null]), On(s, b, [t, a]), On(s, b, [u, a]), On(s, b, [a, u, a]);
    assert t0 == On(s, b + [t, a], [Null]) && t1 == On(s, b + [t, a], []);
    ReachSeq(f, [Stack(POP)], TargetConversion(c), t0, t1, t2);
    ReachSeq(f, [Stack(POP)] + TargetConversion(c), [Stack(DUP_X1)], t0, t2, t3);
  }

  /** The other path converts, as the direct call does. */
  lemma FallbackRuns(
      f: bool, c: Context, e: Context, args: seq<Val>, order: seq<nat>, s: State, b: seq<Val>, t: Val, r: nat)
    requires Alike(c, e) && WellTypedArguments(e, args) && e.Valid() && |args| == e.N() && ListsArrays(e, order)
    requires HasTarget(c.opcode) && !Wide(t) && r < |s.heap| && |s.heap[r]| == e.N() + 1
    requires forall k | 0 <= k < e.N() :: CellHolds(e, args, k, r, s.heap)
    ensures var log := CallLog(c, Some(JavaTarget(c, t)), JavaArguments(e, args), s.log);
      Reaches(f, Fallback(c, order), On(s, b, [t, Ref(r), Null]),
        On(s.(log := log + Merging(e, args, order)), b, Delivered(c.jDesc.ret, log)))
  {
    hide Reaches, Wide, CellHolds, Map, TypeOf, Answer, Delivered, TargetConversion, CallCode, ReturnConversion,
      JavaTarget, Merging, JavaArguments;
    var a, u, ret := Ref(r), JavaTarget(c, t), c.jDesc.ret;
    var log := CallLog(c, Some(u), JavaArguments(e, args), s.log);
    var s2 := s.(log := log + Merging(e, args, order));
    var head := [Stack(POP)] + TargetConversion(c) + [Stack(DUP_X1)];
    HandlerStarts(f, c, s, b, t, r);
    CallRuns(f, c, e, args, order, r, s, b, Some(u));
    ReturnRuns(f, ret, log, s2, b);
    var t0, t3 := On(s, b, [t, a, Null]), On(s, b, [a, u, a]);
    var t4, t5 := On(s2, b, Answer(ret, log)), On(s2, b, Delivered(ret, log));
    assert t3 == On(s, b + [a], Receiver(Some(u)) + [a]);
    ReachSeq(f, head, CallCode(c, order), t0, t3, t4);
    ReachSeq(f, head + CallCode(c, order), ReturnConversion(ret), t0, t4, t5);
    FallbackPieces(c, order);
  }

  lemma FallbackPieces(c: Context, order: seq<nat>)
    ensures Fallback(c, order)
      == [Stack(POP)] + TargetConversion(c) + [Stack(DUP_X1)] + CallCode(c, order) + ReturnConversion(c.jDesc.ret)
  {
    hide TargetConversion, ExplodeOnStack, CheckArraysAfterCall, ReturnConversion;
  }

  lemma {:induction false} JumpOver(c: seq<Insn>, rest: seq<Insn>, l: nat)
    requires Straight(c)
    ensures AfterLabel(c + rest, l) == AfterLabel(rest, l)
  {
    if c == [] {
      assert c + rest == rest;
    } else {
      assert (c + rest)[0] == c[0] && Simple(c[0]);
      assert (c + rest)[1..] == c[1..] + rest;
      JumpOver(c[1..], rest, l);
    }
  }

  /** The code after the arguments have been packed. */
  function BetterRest(c: Context, order: seq<nat>): seq<Insn> {
    LookUp(c) + ([IfNull(BEGIN_HANDLER)] + AfterTest(c, order))
  }

  function AfterTest(c: Context, order: seq<nat>): seq<Insn> {
    Reflective(c) + ([Goto(END_HANDLER)] + Handler(c, order))
  }

  function Handler(c: Context, order: seq<nat>): seq<Insn> {
    [Label(BEGIN_HANDLER)] + (Fallback(c, order) + [Label(END_HANDLER)])
  }

  lemma BetterPieces(c: Context, order: seq<nat>)
    ensures BetterCall(c, order) == PackedBy(c, c) + BetterRest(c, order)
  {
    hide PackedBy, LookUp, Reflective, Fallback;
  }

  lemma TestSteps(f: bool, l: nat, rest: seq<Insn>, s: State, b: seq<Val>, m: Val)
    ensures Run(f, [IfNull(l)] + rest, On(s, b, [m])) ==
      if m != Null then Run(f, rest, On(s, b, []))
      else if AfterLabel(rest, l).Some? then Run(f, AfterLabel(rest, l).value, On(s, b, []))
      else None
  {
    hide AfterLabel, Step;
    var code, x := [IfNull(l)] + rest, On(s, b, [m]);
    assert code[0] == IfNull(l) && code[1..] == rest;
    assert x.stack[..|b|] == b && On(s, b, []).stack == b;
  }

  lemma JumpSteps(f: bool, l: nat, rest: seq<Insn>, s: State)
    requires AfterLabel(rest, l) == Some([])
    ensures Run(f, [Goto(l)] + rest, s) == Some(s)
  {
    hide AfterLabel, Step;
    var code := [Goto(l)] + rest;
    assert code[0] == Goto(l) && code[1..] == rest;
  }

  /** From the test on, when a method has been found. */
  lemma TakesReflective(c: Context, order: seq<nat>, s: State, b: seq<Val>, m: Val, x: State, y: State)
    requires m != Null && x == On(s, b, [m]) && Reaches(true, Reflective(c), On(s, b, []), y)
    requires Straight(Fallback(c, order))
    ensures Run(true, [IfNull(BEGIN_HANDLER)] + AfterTest(c, order), x) == Some(y)
  {
    hide Reflective, Fallback, Run, Step, AfterLabel;
    var tail := [Goto(END_HANDLER)] + Handler(c, order);
    TestSteps(true, BEGIN_HANDLER, AfterTest(c, order), s, b, m);
    RunAppend(true, Reflective(c), tail, On(s, b, []), y);
    assert Handler(c, order) == [Label(BEGIN_HANDLER)] + Fallback(c, order) + [Label(END_HANDLER)];
    EndFound(Fallback(c, order));
    JumpSteps(true, END_HANDLER, Handler(c, order), y);
  }

  lemma EndFound(c: seq<Insn>)
    requires Straight(c)
    ensures AfterLabel([Label(BEGIN_HANDLER)] + c + [Label(END_HANDLER)], END_HANDLER) == Some([])
  {
    var all := [Label(BEGIN_HANDLER)] + c + [Label(END_HANDLER)];
    assert all[1..] == c + [Label(END_HANDLER)];
    JumpOver(c, [Label(END_HANDLER)], END_HANDLER);
    assert [Label(END_HANDLER)][1..] == [];
  }

  /** From the test on, when none has been found. */
  lemma TakesFallback(c: Context, order: seq<nat>, s: State, b: seq<Val>, x: State)
    requires x == On(s, b, [Null]) && Straight(Reflective(c))
    ensures Run(false, [IfNull(BEGIN_HANDLER)] + AfterTest(c, order), x)
      == Run(false, Fallback(c, order) + [Label(END_HANDLER)], On(s, b, []))
  {
    hide Reflective, Fallback, Run, Step;
    var tail, after := Fallback(c, order) + [Label(END_HANDLER)], [Goto(END_HANDLER)] + Handler(c, order);
    TestSteps(false, BEGIN_HANDLER, AfterTest(c, order), s, b, Null);
    JumpOver(Reflective(c), after, BEGIN_HANDLER);
    assert after[0] == Goto(END_HANDLER) && after[1..] == Handler(c, order) && Handler(c, order)[1..] == tail;
  }

  lemma FallbackEnds(c: Context, order: seq<nat>, s: State, y: State)
    requires Reaches(false, Fallback(c, order), s, y)
    ensures Run(false, Fallback(c, order) + [Label(END_HANDLER)], s) == Some(y)
  {
    hide Fallback, Run, Step;
    RunAppend(false, Fallback(c, order), [Label(END_HANDLER)], s, y);
    LabelEnds(false, END_HANDLER, y);
  }

  lemma LabelEnds(f: bool, l: nat, s: State)
    ensures Run(f, [Label(l)], s) == Some(s)
  {
    hide Step, AfterLabel;
    assert [Label(l)][1..] == [];
  }

  /** What the two paths leave: the same stack but for its top, which has the type the caller expects. */
  function BetterOutcome(f: bool, c: Context, e: Context, order: seq<nat>,
      s: State, b: seq<Val>, t: Val, args: seq<Val>, h: seq<seq<Val>>): State
    requires c.N() == e.N() && e.Valid() && |args| == e.N() && ListsArrays(e, order)
  {
    var log0 := s.log + [LookedUp(t, c.name, CojacDescriptor(c))];
    if f then
      var log := log0 + [Reflected(Reflection(c.name, CojacDescriptor(c)), t, BoxedArguments(c, args))];
      On(s.(heap := h, log := log), b, ReflectedResult(c, log))
    else
      var log := CallLog(c, Some(JavaTarget(c, t)), JavaArguments(e, args), log0);
      On(s.(heap := h, log := log + Merging(e, args, order)), b, Delivered(c.jDesc.ret, log))
  }

  /** The state in which the test for null is reached. */
  function LookedFor(f: bool, c: Context, s: State, b: seq<Val>, t: Val, h: seq<seq<Val>>, top: seq<Val>): State {
    On(s.(heap := h, log := s.log + [LookedUp(t, c.name, CojacDescriptor(c))]), b,
      [t, Ref(|s.heap|), Found(f, c)] + top)
  }

  lemma LookUpRuns(f: bool, c: Context, order: seq<nat>, s: State, b: seq<Val>, t: Val, h: seq<seq<Val>>)
    requires !Wide(t)
    ensures Run(f, BetterRest(c, order), Packed(s, b, Some(t), h))
      == Run(f, [IfNull(BEGIN_HANDLER)] + AfterTest(c, order), LookedFor(f, c, s, b, t, h, [Found(f, c)]))
  {
    hide Wide, Reaches, Run, LookUp, AfterTest, Found;
    var r, s1, m := Ref(|s.heap|), s.(heap := h), Found(f, c);
    assert Receiver(Some(t)) + [r] + Receiver(Some(t)) + [r] == [t, r, t, r] && [t, r, m] + [m] == [t, r, m, m];
    LooksUp(f, c, s1, b, t, |s.heap|);
    var test := [IfNull(BEGIN_HANDLER)] + AfterTest(c, order);
    DoublesThen(f, LookUp(c), test, On(s1, b, [t, r, t, r]), LookedFor(f, c, s, b, t, h, [m]));
  }

  /** Where a method is found, it gets the originals: it does not matter for which site they were packed. */
  lemma FoundRuns(c: Context, order: seq<nat>, s: State, b: seq<Val>, t: Val, args: seq<Val>, h: seq<seq<Val>>)
    requires c.Valid() && |args| == c.N() && ListsArrays(c, order) && !Wide(t)
    requires Framed(c, |s.heap|, h) && h[|s.heap| + 1] == BoxedArguments(c, args) && Straight(Fallback(c, order))
    ensures Run(true, BetterRest(c, order), Packed(s, b, Some(t), h))
      == Some(BetterOutcome(true, c, c, order, s, b, t, args, h))
  {
    hide Wide, Reaches, Run, LookUp, AfterTest, Framed, BoxedArguments, ReflectedResult, Reflective, Fallback,
      ListsArrays;
    LookUpRuns(true, c, order, s, b, t, h);
    var r, m := |s.heap|, Found(true, c);
    var s2, b1 := s.(heap := h, log := s.log + [LookedUp(t, c.name, CojacDescriptor(c))]), b + [t, Ref(r), m];
    assert b + ([t, Ref(r), m] + [m]) == b1 + [m] && b1 + [] == b + [t, Ref(r), m];
    ReflectiveRuns(true, c, args, s2, b, t, r);
    var y := BetterOutcome(true, c, c, order, s, b, t, args, h);
    TakesReflective(c, order, s2, b1, m, LookedFor(true, c, s, b, t, h, [m]), y);
  }

  /** Up to the handler, where none is found. */
  lemma NotFoundRuns(c: Context, order: seq<nat>, s: State, b: seq<Val>, t: Val, h: seq<seq<Val>>)
    requires !Wide(t) && Straight(Reflective(c))
    ensures Run(false, BetterRest(c, order), Packed(s, b, Some(t), h))
      == Run(false, Fallback(c, order) + [Label(END_HANDLER)], LookedFor(false, c, s, b, t, h, []))
  {
    hide Wide, Reaches, Run, LookUp, AfterTest, Reflective, Fallback;
    LookUpRuns(false, c, order, s, b, t, h);
    var r, s2 := |s.heap|, s.(heap := h, log := s.log + [LookedUp(t, c.name, CojacDescriptor(c))]);
    var b1 := b + [t, Ref(r), Null];
    assert b + ([t, Ref(r), Null] + [Null]) == b1 + [Null] && b1 + [] == b + ([t, Ref(r), Null] + []);
    TakesFallback(c, order, s2, b1, LookedFor(false, c, s, b, t, h, [Null]));
  }

  /** The handler, with arguments packed as `e` wants them. */
  lemma HandlerRuns(c: Context, e: Context, order: seq<nat>,
      s: State, b: seq<Val>, t: Val, args: seq<Val>, h: seq<seq<Val>>)
    requires Alike(c, e) && WellTypedArguments(e, args) && e.Valid() && |args| == e.N() && ListsArrays(e, order)
    requires HasTarget(c.opcode) && !Wide(t) && |s.heap| < |h| && |h[|s.heap|]| == e.N() + 1
    requires forall k | 0 <= k < e.N() :: CellHolds(e, args, k, |s.heap|, h)
    ensures Run(false, Fallback(c, order) + [Label(END_HANDLER)], LookedFor(false, c, s, b, t, h, []))
      == Some(BetterOutcome(false, c, e, order, s, b, t, args, h))
  {
    hide Wide, Reaches, Run, Fallback, CellHolds, Delivered, Merging, JavaArguments, JavaTarget, WellTypedArguments,
      ListsArrays;
    var r, s2 := |s.heap|, s.(heap := h, log := s.log + [LookedUp(t, c.name, CojacDescriptor(c))]);
    FallbackRuns(false, c, e, args, order, s2, b, t, r);
    assert [t, Ref(r), Null] + [] == [t, Ref(r), Null];
    FallbackEnds(c, order, On(s2, b, [t, Ref(r), Null]), BetterOutcome(false, c, e, order, s, b, t, args, h));
  }

  lemma BetterCallCorrect(f: bool, c: Context, order: seq<nat>, s: State, b: seq<Val>, t: Val, args: seq<Val>)
      returns (h: seq<seq<Val>>)
    requires WellTypedArguments(c, args) && ListsArrays(c, order) && HasTarget(c.opcode) && !Wide(t)
    ensures |args| == c.N() && c.Valid() && s.heap <= h
    ensures Run(f, BetterCall(c, order), On(s, b, [t] + args)) == Some(BetterOutcome(f, c, c, order, s, b, t, args, h))
  {
    hide Wide, Holds, Run, CellHolds, PackedBy, BetterRest, BetterOutcome, Packed, Reflective, Fallback, ListsArrays,
      LookedFor;
    BetterPieces(c, order);
    h := Packs(f, c, c, args, s, b, Some(t), BetterRest(c, order));
    assert Receiver(Some(t)) + args == [t] + args;
    if f {
      OriginalsHeld(c, c, args, |s.heap|, h);
      StraightPaths(c, order);
      FoundRuns(c, order, s, b, t, args, h);
    } else {
      assert forall k | 0 <= k < c.N() :: CellHolds(c, args, k, |s.heap|, h) by { HoldsCells(c, args, |s.heap|, h); }
      StraightPaths(c, order);
      NotFoundRuns(c, order, s, b, t, h);
      HandlerRuns(c, c, order, s, b, t, args, h);
    }
  }

  /** The originals do not depend on the site that they were packed for. */
  lemma OriginalsHeld(c: Context, d: Context, args: seq<Val>, r: nat, h: seq<seq<Val>>)
    requires d.Valid() && |args| == d.N() == c.N() && c.InArgs() == d.InArgs() && Holds(d, args, d.N(), r, h)
    ensures h[r + 1] == BoxedArguments(c, args)
  {
    hide CellHolds, BoxedValue, Map;
  }

  /** Both paths are straight, whatever the arguments. */
  lemma StraightPaths(c: Context, order: seq<nat>)
    ensures Straight(Reflective(c)) && Straight(Fallback(c, order))
  {
    hide Straight, ExplodeAll, MergeAll, CojacToReal, RealToCojac, CallCode, TargetConversion, ReturnConversion;
    StraightPieces(c);
    StraightCall(c, order);
    StraightJoin([Stack(POP)], TargetConversion(c));
    StraightJoin([Stack(POP)] + TargetConversion(c), [Stack(DUP_X1)]);
    StraightJoin([Stack(POP)] + TargetConversion(c) + [Stack(DUP_X1)], CallCode(c, order));
    StraightJoin([Stack(POP)] + TargetConversion(c) + [Stack(DUP_X1)] + CallCode(c, order),
      ReturnConversion(c.jDesc.ret));
    FallbackPieces(c, order);
  }

  lemma StraightPieces(c: Context)
    ensures Straight(Reflective(c)) && Straight(TargetConversion(c)) && Straight(ReturnConversion(c.jDesc.ret))
    ensures Straight([Stack(POP)]) && Straight([Stack(DUP_X1)])
  {
  }

  lemma StraightJoin(a: seq<Insn>, b: seq<Insn>)
    requires Straight(a) && Straight(b)
    ensures Straight(a + b)
  {
  }

  lemma StraightCall(c: Context, order: seq<nat>)
    ensures Straight(CallCode(c, order))
  {
    hide ExplodeAll, MergeAll;
    StraightExplode(c, c.N());
    StraightMerge(order);
  }

  lemma {:induction false} StraightExplode(c: Context, i: nat)
    requires i <= c.N()
    ensures Straight(ExplodeAll(c, i))
  {
    if i > 0 { StraightExplode(c, i - 1); }
  }

  lemma {:induction false} StraightMerge(order: seq<nat>)
    ensures Straight(MergeAll(order))
  {
    if order != [] { StraightMerge(order[..|order| - 1]); }
  }

  /** At the end label both paths have left a stack of the same shape, unless the method returns an array of
      Float or Double objects. */
  lemma SameShape(c: Context, order: seq<nat>, s: State, b: seq<Val>, t: Val, args: seq<Val>, h: seq<seq<Val>>)
    requires c.Valid() && |args| == c.N() && ListsArrays(c, order)
    ensures (var x, y := BetterOutcome(true, c, c, order, s, b, t, args, h),
      BetterOutcome(false, c, c, order, s, b, t, args, h);
      Map(TypeOf, x.stack) == Map(TypeOf, y.stack)) <==> !JWrapperArray(c.jDesc.ret)
  {
    hide CojacVersion, BoxedArguments, Merging, JavaArguments, JavaTarget, CallLog, AfterFloatReplacement, TypeOf;
    var x, y := BetterOutcome(true, c, c, order, s, b, t, args, h).stack,
      BetterOutcome(false, c, c, order, s, b, t, args, h).stack;
    if c.jDesc.ret != Void {
      var n := |b|;
      var v := Ext(c.jDesc.ret, |CallLog(c, Some(JavaTarget(c, t)), JavaArguments(c, args),
        s.log + [LookedUp(t, c.name, CojacDescriptor(c))])|);
      assert TypeOf(v) == c.jDesc.ret && TypeOf(x[n]) == c.CojacReturn() by { ExtTypes(x[n], v); }
      ResultTypedExactly(c.jDesc.ret, v);
      assert y[n] == CojacVersion(c.jDesc.ret, v);
      assert Map(TypeOf, x)[n] == TypeOf(x[n]) && Map(TypeOf, y)[n] == TypeOf(y[n]);
      assert forall k | 0 <= k < n :: x[k] == y[k];
    }
  }

  lemma ExtTypes(x: Val, v: Val)
    requires x.Ext? && v.Ext?
    ensures TypeOf(x) == x.ty && TypeOf(v) == v.ty
  {
  }
}

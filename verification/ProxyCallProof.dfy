/** The net effect of the code around a proxied call, for every signature. */
module ProxyCallProof {
  import opened Collections
  import opened OperandStack
  import opened Opcodes
  import opened Descriptors
  import opened ProxyMachine
  import opened ProxyCode
  import opened StackEffects
  import opened ConvertMethodProof

  //---------------------------------------------------------------- arguments back on the stack

  function JavaArguments(c: Context, args: seq<Val>): (r: seq<Val>)
    requires c.Valid() && |args| == c.N()
    ensures |r| == c.N() && forall k | 0 <= k < c.N() :: r[k] == JavaArgument(c, k, args[k])
  {
    seq(c.N(), k requires 0 <= k < c.N() => JavaArgument(c, k, args[k]))
  }

  lemma Sinks(t: JType, a: Val, v: Val)
    requires !Wide(a) && TypeOf(v) == t && t != Void
    ensures Turns(Sink(t), [a, v], [v, a])
  {
    hide Turns, TypeOf;
    if Size(t) == 2 { SwapsWide(a, v); } else { Swaps(a, v); }
  }

  /** Cell `i` of the array on top is fetched. */
  lemma CellFetched(f: bool, s: State, b: seq<Val>, r: nat, i: nat)
    requires r < |s.heap| && i < |s.heap[r]|
    ensures Reaches(f, [Stack(DUP), Ldc(i), ALoad], On(s, b, [Ref(r)]), On(s, b, [Ref(r), s.heap[r][i]]))
  {
    hide Reaches, Turns, Wide;
    WideRef(r);
    Dups(Ref(r));
    TurnsLdc(i);
    Turn(f, s, b, [Stack(DUP)], [Ref(r)], [Ref(r), Ref(r)]);
    Turn(f, s, b + [Ref(r), Ref(r)], [Ldc(i)], [], [Const(i)]);
    Loads(f, s, b + [Ref(r)], r, i);
    var t1, t2 := On(s, b, [Ref(r), Ref(r)]), On(s, b + [Ref(r), Ref(r)], [Const(i)]);
    assert t1 == On(s, b + [Ref(r), Ref(r)], []) && t2 == On(s, b + [Ref(r)], [Ref(r), Const(i)]);
    assert On(s, b + [Ref(r)], [s.heap[r][i]]) == On(s, b, [Ref(r), s.heap[r][i]]);
    ReachEach(f, [Stack(DUP), Ldc(i), ALoad], [On(s, b, [Ref(r)]), t1, t2, On(s, b, [Ref(r), s.heap[r][i]])]);
  }

  /** The second cell of a pair on top. */
  lemma SecondFetched(f: bool, s: State, b: seq<Val>, p: nat)
    requires p < |s.heap| && |s.heap[p]| == 2
    ensures Reaches(f, [CheckCast(OBJECT_ARRAY), Ldc(1), ALoad], On(s, b, [Ref(p)]), On(s, b, [s.heap[p][1]]))
  {
    hide Reaches, Turns;
    TurnsCast(Ref(p), OBJECT_ARRAY);
    TurnsLdc(1);
    Turn(f, s, b, [CheckCast(OBJECT_ARRAY)], [Ref(p)], [Ref(p)]);
    Turn(f, s, b + [Ref(p)], [Ldc(1)], [], [Const(1)]);
    Loads(f, s, b, p, 1);
    assert On(s, b, [Ref(p)]) == On(s, b + [Ref(p)], []);
    assert On(s, b + [Ref(p)], [Const(1)]) == On(s, b, [Ref(p), Const(1)]);
    ReachEach(f, [CheckCast(OBJECT_ARRAY), Ldc(1), ALoad],
      [On(s, b, [Ref(p)]), On(s, b, [Ref(p)]), On(s, b, [Ref(p), Const(1)]), On(s, b, [s.heap[p][1]])]);
  }

  function Unbox(t: JType): seq<Insn> {
    if t.Prim? then [CheckCast(BoxClass(t.sort)), XxxValue(t.sort)] else [CheckCast(t)]
  }

  lemma Unboxes(t: JType, v: Val)
    requires TypeOf(v) == t
    ensures Turns(Unbox(t), [BoxedValue(t, v)], [v])
  {
    hide Turns;
    if t.Prim? {
      var b := Boxed(t.sort, v);
      TurnsCast(b, BoxClass(t.sort));
      TurnsXxxValue(t.sort, v);
      TurnsSeq([CheckCast(BoxClass(t.sort))], [XxxValue(t.sort)], [b], [b], [v]);
      assert Unbox(t) == [CheckCast(BoxClass(t.sort))] + [XxxValue(t.sort)];
    } else {
      TurnsCast(v, t);
    }
  }

  /** From the array to the boxed conversion of argument `i`. */
  lemma NewVersionFetched(f: bool, c: Context, args: seq<Val>, i: nat, r: nat, s: State, b: seq<Val>)
    requires c.Valid() && |args| == c.N() && i < c.N() && r < |s.heap| && |s.heap[r]| == c.N() + 1
    requires CellHolds(c, args, i, r, s.heap)
    ensures Reaches(f, [Stack(DUP), Ldc(i), ALoad]
      + (if c.OutArgs()[i].Arr? then [CheckCast(OBJECT_ARRAY), Ldc(1), ALoad] else []),
      On(s, b, [Ref(r)]), On(s, b, [Ref(r), NewVersion(c, i, args[i])]))
  {
    hide Reaches, NewVersion;
    CellFetched(f, s, b, r, i);
    var t0, t1, t2 := On(s, b, [Ref(r)]), On(s, b, [Ref(r), s.heap[r][i]]),
      On(s, b, [Ref(r), NewVersion(c, i, args[i])]);
    if c.OutArgs()[i].Arr? {
      var p := s.heap[r][i].a;
      SecondFetched(f, s, b + [Ref(r)], p);
      assert t1 == On(s, b + [Ref(r)], [Ref(p)]) && t2 == On(s, b + [Ref(r)], [s.heap[p][1]]);
      ReachSeq(f, [Stack(DUP), Ldc(i), ALoad], [CheckCast(OBJECT_ARRAY), Ldc(1), ALoad], t0, t1, t2);
    } else {
      assert [Stack(DUP), Ldc(i), ALoad] + [] == [Stack(DUP), Ldc(i), ALoad];
    }
  }

  /** One argument, converted, comes out under the array. */
  lemma ExplodeRuns(f: bool, c: Context, args: seq<Val>, i: nat, r: nat, s: State, b: seq<Val>)
    requires WellTypedArguments(c, args) && |args| == c.N() && i < c.N() && r < |s.heap| && |s.heap[r]| == c.N() + 1
    requires CellHolds(c, args, i, r, s.heap)
    ensures Reaches(f, Explode(c, i), On(s, b, [Ref(r)]), On(s, b, [JavaArgument(c, i, args[i]), Ref(r)]))
  {
    hide Reaches, Turns, CellHolds, JavaArgument, Sink, Wide, TypeOf, Map;
    assert TypeOf(args[i]) == c.InArgs()[i] by { assert Map(TypeOf, args)[i] == TypeOf(args[i]); }
    var t, v := c.OutArgs()[i], JavaArgument(c, i, args[i]);
    var head := [Stack(DUP), Ldc(i), ALoad] + (if t.Arr? then [CheckCast(OBJECT_ARRAY), Ldc(1), ALoad] else []);
    NewVersionFetched(f, c, args, i, r, s, b);
    Unboxes(t, v);
    WideRef(r);
    Sinks(t, Ref(r), v);
    Turn(f, s, b + [Ref(r)], Unbox(t), [BoxedValue(t, v)], [v]);
    Turn(f, s, b, Sink(t), [Ref(r), v], [v, Ref(r)]);
    var t0, t1, t2, t3 := On(s, b, [Ref(r)]), On(s, b, [Ref(r), BoxedValue(t, v)]), On(s, b, [Ref(r), v]),
      On(s, b, [v, Ref(r)]);
    assert t1 == On(s, b + [Ref(r)], [BoxedValue(t, v)]) && t2 == On(s, b + [Ref(r)], [v]);
    ReachSeq(f, head, Unbox(t), t0, t1, t2);
    ReachSeq(f, head + Unbox(t), Sink(t), t0, t2, t3);
  }

  lemma {:induction false} ExplodesUpTo(f: bool, c: Context, args: seq<Val>, i: nat, r: nat, s: State, b: seq<Val>)
    requires WellTypedArguments(c, args) && |args| == c.N() && i <= c.N() && r < |s.heap| && |s.heap[r]| == c.N() + 1
    requires forall k | 0 <= k < i :: CellHolds(c, args, k, r, s.heap)
    ensures Reaches(f, ExplodeAll(c, i), On(s, b, [Ref(r)]), On(s, b + JavaArguments(c, args)[..i], [Ref(r)]))
  {
    hide Reaches, CellHolds, JavaArgument, Explode, Map, JavaArguments;
    var all := JavaArguments(c, args);
    if i == 0 {
      assert b + all[..0] == b;
      ReachNothing(f, On(s, b, [Ref(r)]));
    } else {
      var b1 := b + all[..i - 1];
      ExplodesUpTo(f, c, args, i - 1, r, s, b);
      ExplodeRuns(f, c, args, i - 1, r, s, b1);
      assert all[..i] == all[..i - 1] + [all[i - 1]];
      assert On(s, b1, [all[i - 1], Ref(r)]) == On(s, b + all[..i], [Ref(r)]);
      ReachSeq(f, ExplodeAll(c, i - 1), Explode(c, i - 1), On(s, b, [Ref(r)]), On(s, b1, [Ref(r)]),
        On(s, b + all[..i], [Ref(r)]));
    }
  }

  /** explodeOnStack: the array is replaced by the converted arguments, in order. */
  lemma Explodes(f: bool, c: Context, args: seq<Val>, r: nat, s: State, b: seq<Val>)
    requires WellTypedArguments(c, args) && |args| == c.N() && r < |s.heap| && |s.heap[r]| == c.N() + 1
    requires forall k | 0 <= k < c.N() :: CellHolds(c, args, k, r, s.heap)
    ensures Reaches(f, ExplodeOnStack(c), On(s, b, [Ref(r)]), On(s, b, JavaArguments(c, args)))
  {
    hide Reaches, Turns, CellHolds, JavaArguments, ExplodeAll, Map;
    var all := JavaArguments(c, args);
    ExplodesUpTo(f, c, args, c.N(), r, s, b);
    WideRef(r);
    Pops(Ref(r));
    Turn(f, s, b + all, [Stack(POP)], [Ref(r)], []);
    assert all[..c.N()] == all && On(s, b + all, []) == On(s, b, all);
    ReachSeq(f, ExplodeAll(c, c.N()), [Stack(POP)], On(s, b, [Ref(r)]), On(s, b + all, [Ref(r)]), On(s, b, all));
  }

  /** The same call, where plain objects are treated alike or not. */
  predicate Alike(c: Context, e: Context) { e == c.(disguised := e.disguised) }

  lemma {:induction false} ExplodeAllAlike(c: Context, e: Context, i: nat)
    requires Alike(c, e) && i <= c.N()
    ensures ExplodeAll(c, i) == ExplodeAll(e, i)
  {
    hide Explode, ExplodeAll;
    if i == 0 {
      ExplodeNone(c);
      ExplodeNone(e);
    } else {
      ExplodeAllAlike(c, e, i - 1);
      ExplodeOneMore(c, i - 1);
      ExplodeOneMore(e, i - 1);
      assert Explode(c, i - 1) == Explode(e, i - 1) by { ExplodeAlike(c, e, i - 1); }
    }
  }

  lemma ExplodeNone(c: Context)
    ensures ExplodeAll(c, 0) == []
  {
  }

  lemma ExplodeOneMore(c: Context, i: nat)
    requires i < c.N()
    ensures ExplodeAll(c, i + 1) == ExplodeAll(c, i) + Explode(c, i)
  {
  }

  lemma ExplodeAlike(c: Context, e: Context, i: nat)
    requires Alike(c, e) && i < c.N()
    ensures Explode(c, i) == Explode(e, i)
  {
  }

  //---------------------------------------------------------------- the receiver

  /** The receiver as the uninstrumented method wants it. */
  function JavaTarget(c: Context, t: Val): Val {
    if c.opcode == INVOKEVIRTUAL && MentionsFloat(c.owner) then RealVersion(c.owner, t) else t
  }

  lemma TargetTurns(c: Context, t: Val, r: nat)
    requires c.Valid() && !Wide(t)
    ensures Turns(TargetConversion(c), [t, Ref(r)], [JavaTarget(c, t), Ref(r)]) && !Wide(JavaTarget(c, t))
  {
    hide Turns, CojacToReal, RealVersion, MentionsFloat;
    if c.opcode == INVOKEVIRTUAL && MentionsFloat(c.owner) {
      var u, k := RealVersion(c.owner, t), CojacToReal(c.owner);
      WideRef(r);
      Swaps(t, Ref(r));
      TurnsCojacToReal(c.owner, t);
      TurnsUnder(k, [Ref(r)], [t], [u]);
      assert [Ref(r)] + [t] == [Ref(r), t] && [Ref(r)] + [u] == [Ref(r), u];
      Swaps(Ref(r), u);
      TurnsSeq([Stack(SWAP)], k, [t, Ref(r)], [Ref(r), t], [Ref(r), u]);
      TurnsSeq([Stack(SWAP)] + k, [Stack(SWAP)], [t, Ref(r)], [Ref(r), u], [u, Ref(r)]);
    } else {
      TurnsNothing([t, Ref(r)]);
    }
  }

  function Receiver(t: Option<Val>): seq<Val> { if t.Some? then [t.value] else [] }

  /** The call itself. */
  lemma Invokes(f: bool, c: Context, s: State, b: seq<Val>, target: Option<Val>, args: seq<Val>)
    requires (target.Some? <==> HasTarget(c.opcode)) && Map(TypeOf, args) == c.OutArgs()
    ensures var log := s.log + [Called(c, target, args)];
      Reaches(f, [Invoke(c)], On(s, b, Receiver(target) + args), On(s.(log := log), b, Answer(c.jDesc.ret, log)))
  {
    hide Reaches, TypeOf, Map;
    var before, n := On(s, b, Receiver(target) + args), |Receiver(target) + args|;
    assert |args| == c.N();
    assert before.stack[|before.stack| - c.N()..] == args;
    assert before.stack[..|before.stack| - n] == b;
    assert target.Some? ==> before.stack[|before.stack| - n] == target.value;
    var log := s.log + [Called(c, target, args)];
    ReachOne(f, Invoke(c), before, On(s.(log := log), b, Answer(c.jDesc.ret, log)));
  }

  //---------------------------------------------------------------- arrays after the call

  function Merging(c: Context, args: seq<Val>, order: seq<nat>): (r: seq<Event>)
    requires c.Valid() && |args| == c.N() && forall k | 0 <= k < |order| :: order[k] < c.N()
    ensures |r| == |order|
  {
    seq(|order|, k requires 0 <= k < |order| => Merged(args[order[k]], JavaArgument(c, order[k], args[order[k]])))
  }

  /** One listing of the positions of the array parameters, each of them once. */
  predicate ListsArrays(c: Context, order: seq<nat>) {
    && (forall k | 0 <= k < |order| :: order[k] < c.N() && c.OutArgs()[order[k]].Arr?)
    && (forall i | 0 <= i < c.N() && c.OutArgs()[i].Arr? :: i in order)
    && (forall j, k | 0 <= j < k < |order| :: order[j] != order[k])
  }

  /** Both versions of an array argument. */
  lemma PairFetched(f: bool, s: State, b: seq<Val>, p: nat, v: Val, x: Val)
    requires p < |s.heap| && s.heap[p] == [v, x] && !Wide(v)
    ensures Reaches(f, [CheckCast(OBJECT_ARRAY), Stack(DUP), Ldc(0), ALoad, Stack(SWAP), Ldc(1), ALoad],
      On(s, b, [Ref(p)]), On(s, b, [v, x]))
  {
    hide Reaches, Turns, Wide;
    WideRef(p);
    TurnsCast(Ref(p), OBJECT_ARRAY);
    Dups(Ref(p));
    TurnsLdc(0);
    TurnsLdc(1);
    Swaps(Ref(p), v);
    Turn(f, s, b, [CheckCast(OBJECT_ARRAY)], [Ref(p)], [Ref(p)]);
    Turn(f, s, b, [Stack(DUP)], [Ref(p)], [Ref(p), Ref(p)]);
    Turn(f, s, b + [Ref(p), Ref(p)], [Ldc(0)], [], [Const(0)]);
    Loads(f, s, b + [Ref(p)], p, 0);
    Turn(f, s, b, [Stack(SWAP)], [Ref(p), v], [v, Ref(p)]);
    Turn(f, s, b + [v, Ref(p)], [Ldc(1)], [], [Const(1)]);
    Loads(f, s, b + [v], p, 1);
    var t2, t3 := On(s, b, [Ref(p), Ref(p)]), On(s, b + [Ref(p), Ref(p)], [Const(0)]);
    var t4, t5, t6 := On(s, b, [Ref(p), v]), On(s, b, [v, Ref(p)]), On(s, b + [v, Ref(p)], [Const(1)]);
    assert t2 == On(s, b + [Ref(p), Ref(p)], []) && t3 == On(s, b + [Ref(p)], [Ref(p), Const(0)]);
    assert t4 == On(s, b + [Ref(p)], [v]) && t5 == On(s, b + [v, Ref(p)], []);
    assert t6 == On(s, b + [v], [Ref(p), Const(1)]) && On(s, b + [v], [x]) == On(s, b, [v, x]);
    ReachEach(f, [CheckCast(OBJECT_ARRAY), Stack(DUP), Ldc(0), ALoad, Stack(SWAP), Ldc(1), ALoad],
      [On(s, b, [Ref(p)]), On(s, b, [Ref(p)]), t2, t3, t4, t5, t6, On(s, b, [v, x])]);
  }

  lemma MergeRuns(f: bool, c: Context, args: seq<Val>, pos: nat, r: nat, s: State, b: seq<Val>)
    requires WellTypedArguments(c, args) && |args| == c.N() && pos < c.N() && c.OutArgs()[pos].Arr?
    requires r < |s.heap| && |s.heap[r]| == c.N() + 1 && CellHolds(c, args, pos, r, s.heap)
    ensures Reaches(f, MergeOne(pos), On(s, b, [Ref(r)]),
      On(s.(log := s.log + [Merged(args[pos], JavaArgument(c, pos, args[pos]))]), b, [Ref(r)]))
  {
    hide Reaches, Turns, JavaArgument, Wide, TypeOf, Map, AfterFloatReplacement, MentionsFloat;
    ArgumentTypes(c, args, pos);
    var v, x, p := args[pos], JavaArgument(c, pos, args[pos]), s.heap[r][pos].a;
    var s1 := s.(log := s.log + [Merged(v, x)]);
    CellFetched(f, s, b, r, pos);
    PairFetched(f, s, b + [Ref(r)], p, v, x);
    assert (b + [Ref(r)] + [v, x])[..|b| + 1] + [] == b + [Ref(r)];
    ReachOne(f, Merge, On(s, b + [Ref(r)], [v, x]), On(s1, b, [Ref(r)]));
    var c1 := [Stack(DUP), Ldc(pos), ALoad];
    var c2 := [CheckCast(OBJECT_ARRAY), Stack(DUP), Ldc(0), ALoad, Stack(SWAP), Ldc(1), ALoad];
    var t0, t1, t2, t3 := On(s, b, [Ref(r)]), On(s, b, [Ref(r), Ref(p)]), On(s, b + [Ref(r)], [v, x]),
      On(s1, b, [Ref(r)]);
    assert t1 == On(s, b + [Ref(r)], [Ref(p)]);
    ReachSeq(f, c1, c2, t0, t1, t2);
    ReachSeq(f, c1 + c2, [Merge], t0, t2, t3);
    assert MergeOne(pos) == c1 + c2 + [Merge];
  }

  lemma {:induction false} MergesRun(f: bool, c: Context, args: seq<Val>, order: seq<nat>, r: nat, s: State,
      b: seq<Val>)
    requires WellTypedArguments(c, args) && |args| == c.N() && r < |s.heap| && |s.heap[r]| == c.N() + 1
    requires forall k | 0 <= k < |order| :: order[k] < c.N() && c.OutArgs()[order[k]].Arr?
    requires forall k | 0 <= k < c.N() :: CellHolds(c, args, k, r, s.heap)
    ensures Reaches(f, MergeAll(order), On(s, b, [Ref(r)]), On(s.(log := s.log + Merging(c, args, order)), b, [Ref(r)]))
  {
    hide Reaches, CellHolds, JavaArgument, MergeOne, Map, WellTypedArguments;
    assert c.Valid() by { ValidContext(c, args); }
    if order == [] {
      assert s.log + Merging(c, args, order) == s.log;
      ReachNothing(f, On(s, b, [Ref(r)]));
    } else {
      var n := |order| - 1;
      var s1 := s.(log := s.log + Merging(c, args, order[..n]));
      MergesRun(f, c, args, order[..n], r, s, b);
      MergeRuns(f, c, args, order[n], r, s1, b);
      assert s1.log + [Merged(args[order[n]], JavaArgument(c, order[n], args[order[n]]))]
        == s.log + Merging(c, args, order);
      ReachSeq(f, MergeAll(order[..n]), MergeOne(order[n]), On(s, b, [Ref(r)]), On(s1, b, [Ref(r)]),
        On(s.(log := s.log + Merging(c, args, order)), b, [Ref(r)]));
    }
  }
}

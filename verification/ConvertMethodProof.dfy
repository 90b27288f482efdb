/** What the generated method COJAC_TYPE_CONVERT returns. */
module ConvertMethodProof {
  import opened Collections
  import opened OperandStack
  import opened Descriptors
  import opened ProxyMachine
  import opened ProxyCode
  import opened StackEffects

  //---------------------------------------------------------------- single values

  /** A wrapper, or an array of wrappers, converted to the original type `t`. */
  function RealVersion(t: JType, v: Val): (r: Val)
    ensures MentionsFloat(t) && WellFormed(t) ==> TypeOf(r) == t
  {
    if t == Prim(FLOAT) then Converted(ToFloat, 0, v)
    else if t == FLOAT_CLASS then Applied(ToRealFloatWrapper, v)
    else if t == Prim(DOUBLE) then Converted(ToDouble, 0, v)
    else if t == DOUBLE_CLASS then Applied(ToRealDoubleWrapper, v)
    else if t.Arr? then assert MentionsFloat(t) ==> MentionsFloat(t.elem); Converted(ArrayToReal(t.elem), t.dims, v)
    else v
  }

  /** Argument `i` as the uninstrumented method wants it. */
  function JavaArgument(c: Context, i: nat, v: Val): (r: Val)
    requires c.Valid() && i < c.N()
    ensures TypeOf(v) == c.InArgs()[i] ==> TypeOf(r) == c.OutArgs()[i]
  {
    var t := c.OutArgs()[i];
    ReplacedExactly(t);
    if MentionsFloat(t) then RealVersion(t, v)
    else if c.disguised && (t == OBJECT || t == OBJECT_ARRAY) then Converted(ObjectToReal, 0, v)
    else v
  }

  function BoxedValue(t: JType, v: Val): Val { if t.Prim? then Boxed(t.sort, v) else v }

  /** Arrays: cast, number of dimensions, helper, cast. */
  lemma TurnsArray(h: Helper, dims: nat, v: Val, t: JType)
    requires CastSucceeds(Converted(h, dims, v), t)
    ensures Turns([CheckCast(OBJECT), Ldc(dims), CallWithDims(h), CheckCast(t)], [v], [Converted(h, dims, v)])
  {
    hide Turns, CastSucceeds;
    var w := Converted(h, dims, v);
    TurnsToObject(v);
    TurnsLdc(dims);
    TurnsUnder([Ldc(dims)], [v], [], [Const(dims)]);
    TurnsCallWithDims(h, dims, v);
    TurnsCast(w, t);
    var c1, c2 := [CheckCast(OBJECT)] + [Ldc(dims)], [CallWithDims(h)] + [CheckCast(t)];
    assert [v] + [Const(dims)] == [v, Const(dims)] && [v] + [] == [v];
    TurnsSeq([CheckCast(OBJECT)], [Ldc(dims)], [v], [v], [v, Const(dims)]);
    TurnsSeq([CallWithDims(h)], [CheckCast(t)], [v, Const(dims)], [w], [w]);
    TurnsSeq(c1, c2, [v], [v, Const(dims)], [w]);
    assert [CheckCast(OBJECT), Ldc(dims), CallWithDims(h), CheckCast(t)] == c1 + c2;
  }

  lemma TurnsObject(h: Helper, v: Val, t: JType)
    requires h == ObjectToReal || h == ObjectToCojac
    requires TypeOf(v) == t
    ensures Turns(ObjectTo(h, t), [v], [Converted(h, 0, v)])
  {
    hide Turns;
    var w := Converted(h, 0, v);
    TurnsToObject(v);
    TurnsCall(h, v);
    TurnsCast(w, t);
    TurnsSeq([CheckCast(OBJECT)], [Call(h)], [v], [v], [w]);
    TurnsSeq([CheckCast(OBJECT)] + [Call(h)], [CheckCast(t)], [v], [w], [w]);
    assert ObjectTo(h, t) == [CheckCast(OBJECT)] + [Call(h)] + [CheckCast(t)];
  }

  lemma TurnsCojacToReal(t: JType, v: Val)
    requires MentionsFloat(t) && WellFormed(t)
    ensures Turns(CojacToReal(t), [v], [RealVersion(t, v)])
  {
    hide Turns;
    if t.Arr? {
      TurnsArray(ArrayToReal(t.elem), t.dims, v, t);
    } else if t == Prim(FLOAT) {
      TurnsCall(ToFloat, v);
    } else if t == FLOAT_CLASS {
      TurnsCall(ToRealFloatWrapper, v);
    } else if t == Prim(DOUBLE) {
      TurnsCall(ToDouble, v);
    } else {
      TurnsCall(ToRealDoubleWrapper, v);
    }
  }

  lemma TurnsArgument(c: Context, i: nat, v: Val)
    requires c.Valid() && i < c.N() && TypeOf(v) == c.InArgs()[i]
    ensures Turns(ArgumentConversion(c, i), [v], [JavaArgument(c, i, v)])
  {
    hide Turns, RealVersion, CojacToReal, ObjectTo;
    var t := c.OutArgs()[i];
    ReplacedExactly(t);
    if MentionsFloat(t) {
      TurnsCojacToReal(t, v);
    } else if c.disguised && (t == OBJECT || t == OBJECT_ARRAY) {
      TurnsObject(ObjectToReal, v, t);
    } else {
      TurnsNothing([v]);
    }
  }

  lemma TurnsBox(t: JType, v: Val)
    requires TypeOf(v) == t
    ensures Turns(Box(t), [v], [BoxedValue(t, v)])
  {
    hide Turns, TypeOf;
    if t.Prim? {
      TurnsValueOf(t.sort, v);
    } else {
      TurnsNothing([v]);
    }
  }

  /** The boxed conversion of argument `i`: what its cell is to hold. */
  function NewVersion(c: Context, i: nat, v: Val): Val
    requires c.Valid() && i < c.N()
  {
    BoxedValue(c.OutArgs()[i], JavaArgument(c, i, v))
  }

  lemma TurnsNewVersion(c: Context, i: nat, v: Val)
    requires c.Valid() && i < c.N() && TypeOf(v) == c.InArgs()[i]
    ensures Turns(ArgumentConversion(c, i) + Box(c.OutArgs()[i]), [v], [NewVersion(c, i, v)])
  {
    hide Turns, JavaArgument, Box, ArgumentConversion;
    TurnsArgument(c, i, v);
    TurnsBox(c.OutArgs()[i], JavaArgument(c, i, v));
    TurnsSeq(ArgumentConversion(c, i), Box(c.OutArgs()[i]), [v], [JavaArgument(c, i, v)], [NewVersion(c, i, v)]);
  }

  //---------------------------------------------------------------- arrays of arguments

  /** What the array built for the first `i` arguments holds: their conversions (for an array: both
      versions), and in the last cell all the originals. */
  ghost predicate Holds(c: Context, args: seq<Val>, i: nat, first: nat, h: seq<seq<Val>>)
    requires c.Valid() && |args| == c.N() && i <= c.N()
  {
    && first + 1 < |h| && |h[first]| == c.N() + 1 && |h[first + 1]| == c.N()
    && h[first][c.N()] == Ref(first + 1)
    && (forall k | 0 <= k < i :: h[first + 1][k] == BoxedValue(c.InArgs()[k], args[k]))
    && (forall k | 0 <= k < i :: CellHolds(c, args, k, first, h))
  }

  ghost predicate CellHolds(c: Context, args: seq<Val>, k: nat, first: nat, h: seq<seq<Val>>)
    requires c.Valid() && |args| == c.N() && k < c.N() && first < |h| && |h[first]| == c.N() + 1
  {
    var cell := h[first][k];
    if c.OutArgs()[k].Arr? then
      cell.Ref? && first + 1 < cell.a < |h| && h[cell.a] == [args[k], NewVersion(c, k, args[k])]
    else cell == NewVersion(c, k, args[k])
  }

  ghost predicate WellTypedArguments(c: Context, args: seq<Val>) {
    c.Valid() && Map(TypeOf, args) == c.InArgs()
  }

  lemma BoxedIsReference(t: JType, v: Val)
    requires TypeOf(v) == t && t != Void
    ensures Reference(BoxedValue(t, v)) && !Wide(BoxedValue(t, v))
  {
  }

  lemma ArgumentTypes(c: Context, args: seq<Val>, i: nat)
    requires WellTypedArguments(c, args) && i < c.N()
    ensures |args| == c.N() && TypeOf(args[i]) == c.InArgs()[i]
    ensures Reference(BoxedValue(c.InArgs()[i], args[i])) && Reference(NewVersion(c, i, args[i]))
    ensures !Wide(NewVersion(c, i, args[i])) && (c.InArgs()[i].Arr? <==> c.OutArgs()[i].Arr?)
    ensures c.InArgs()[i].Arr? ==> !Wide(args[i])
  {
    hide Map, Reference, Wide;
    assert c.InArgs()[i] == Map(TypeOf, args)[i];
    BoxedIsReference(c.InArgs()[i], args[i]);
    BoxedIsReference(c.OutArgs()[i], JavaArgument(c, i, args[i]));
    if c.InArgs()[i].Arr? { assert BoxedValue(c.InArgs()[i], args[i]) == args[i]; }
  }

  //---------------------------------------------------------------- local variables

  lemma {:induction false} SizeOfCons(t: JType, ts: seq<JType>)
    ensures SizeOfAll([t] + ts) == Size(t) + SizeOfAll(ts)
  {
    var all := [t] + ts;
    if ts != [] {
      assert all[..|all| - 1] == [t] + ts[..|ts| - 1];
      SizeOfCons(t, ts[..|ts| - 1]);
    } else {
      assert all[..|all| - 1] == [];
    }
  }

  lemma {:induction false} VariableAt(args: seq<Val>, slot: nat, i: nat)
    requires i < |args| && forall k | 0 <= k < |args| :: TypeOf(args[k]) != Void
    ensures var s := slot + SizeOfAll(Map(TypeOf, args)[..i]);
      s in Variables(args, slot) && Variables(args, slot)[s] == args[i]
  {
    hide TypeOf, Map;
    var ts := Map(TypeOf, args);
    if i > 0 {
      assert ts[..i] == [ts[0]] + ts[1..][..i - 1] && ts[1..] == Map(TypeOf, args[1..]);
      SizeOfCons(ts[0], ts[1..][..i - 1]);
      VariableAt(args[1..], slot + Size(ts[0]), i - 1);
    } else {
      assert ts[..0] == [];
    }
  }

  //---------------------------------------------------------------- the blocks of the generated method

  lemma HeadRuns(f: bool, n: nat, s: State)
    ensures var r := |s.heap|;
      Reaches(f, ConvertHead(n), On(s, [], []),
        On(s.(heap := Put(s.heap + [Nulls(n + 1)] + [Nulls(n)], r, n, Ref(r + 1))), [], [Ref(r)]))
  {
    hide Reaches, Turns, Nulls;
    var r := |s.heap|;
    var s1 := s.(heap := s.heap + [Nulls(n + 1)]);
    var s2 := s1.(heap := s1.heap + [Nulls(n)]);
    var s3 := s2.(heap := Put(s2.heap, r, n, Ref(r + 1)));
    var rr := [Ref(r), Ref(r)];
    TurnsLdc(n + 1);
    TurnsLdc(n);
    Dups(Ref(r));
    Dups(Const(n));
    Turn(f, s, [], [Ldc(n + 1)], [], [Const(n + 1)]);
    Creates(f, s, [], n + 1);
    Turn(f, s1, [], [Stack(DUP)], [Ref(r)], rr);
    Turn(f, s1, rr, [Ldc(n)], [], [Const(n)]);
    Turn(f, s1, rr, [Stack(DUP)], [Const(n)], [Const(n), Const(n)]);
    Creates(f, s1, rr + [Const(n)], n);
    Stores(f, s2, [Ref(r)], r, n, Ref(r + 1));
    assert On(s1, [], rr) == On(s1, rr, []);
    assert On(s1, rr, [Const(n), Const(n)]) == On(s1, rr + [Const(n)], [Const(n)]);
    assert On(s2, rr + [Const(n)], [Ref(r + 1)]) == On(s2, [Ref(r)], [Ref(r), Const(n), Ref(r + 1)]);
    assert On(s3, [Ref(r)], []) == On(s3, [], [Ref(r)]);
    ReachEach(f, ConvertHead(n), [On(s, [], []), On(s, [], [Const(n + 1)]), On(s1, [], [Ref(r)]), On(s1, rr, []),
      On(s1, rr, [Const(n)]), On(s1, rr, [Const(n), Const(n)]), On(s2, rr + [Const(n)], [Ref(r + 1)]),
        On(s3, [Ref(r)], [])]);
  }

  /** Up to the value of argument `i`, on top of the array and index it is to be stored at. */
  lemma OriginalBegins(f: bool, s: State, n: nat, i: nat, r: nat, t: JType, slot: nat)
    requires r < |s.heap| && |s.heap[r]| == n + 1 && s.heap[r][n] == Ref(r + 1)
    requires slot in s.vars && TypeOf(s.vars[slot]) == t
    ensures Reaches(f, [Stack(DUP), Stack(DUP), Ldc(n), ALoad, CheckCast(OBJECT_ARRAY), Ldc(i), LoadVar(t, slot)],
      On(s, [], [Ref(r)]), On(s, [Ref(r), Ref(r), Ref(r + 1), Const(i)], [s.vars[slot]]))
  {
    hide Reaches, Turns, Wide;
    var b1, b2, b3 := [Ref(r), Ref(r)], [Ref(r), Ref(r), Ref(r + 1)], [Ref(r), Ref(r), Ref(r + 1), Const(i)];
    WideRef(r);
    Dups(Ref(r));
    TurnsLdc(n);
    TurnsLdc(i);
    TurnsCast(Ref(r + 1), OBJECT_ARRAY);
    Turn(f, s, [], [Stack(DUP)], [Ref(r)], b1);
    Turn(f, s, [Ref(r)], [Stack(DUP)], [Ref(r)], b1);
    Turn(f, s, [Ref(r), Ref(r), Ref(r)], [Ldc(n)], [], [Const(n)]);
    Loads(f, s, b1, r, n);
    Turn(f, s, b1, [CheckCast(OBJECT_ARRAY)], [Ref(r + 1)], [Ref(r + 1)]);
    Turn(f, s, b2, [Ldc(i)], [], [Const(i)]);
    Lets(f, s, b3, t, slot);
    assert On(s, [], b1) == On(s, [Ref(r)], [Ref(r)]);
    assert On(s, [Ref(r)], b1) == On(s, [Ref(r), Ref(r), Ref(r)], []);
    assert On(s, [Ref(r), Ref(r), Ref(r)], [Const(n)]) == On(s, b1, [Ref(r), Const(n)]);
    assert On(s, b1, [Ref(r + 1)]) == On(s, b2, []);
    assert On(s, b2, [Const(i)]) == On(s, b3, []);
    ReachEach(f, [Stack(DUP), Stack(DUP), Ldc(n), ALoad, CheckCast(OBJECT_ARRAY), Ldc(i), LoadVar(t, slot)],
      [On(s, [], [Ref(r)]), On(s, [], b1), On(s, [Ref(r)], b1), On(s, b1, [Ref(r), Const(n)]),
       On(s, b1, [Ref(r + 1)]), On(s, b2, []), On(s, b3, []), On(s, b3, [s.vars[slot]])]);
  }

  lemma OriginalStored(f: bool, s: State, n: nat, i: nat, r: nat, t: JType, slot: nat)
    requires r + 1 < |s.heap| && |s.heap[r]| == n + 1 && s.heap[r][n] == Ref(r + 1) && i < |s.heap[r + 1]|
    requires slot in s.vars && TypeOf(s.vars[slot]) == t && t != Void
    ensures Reaches(f,
      [Stack(DUP), Stack(DUP), Ldc(n), ALoad, CheckCast(OBJECT_ARRAY), Ldc(i), LoadVar(t, slot)] + Box(t) + [AStore],
      On(s, [], [Ref(r)]), On(s.(heap := Put(s.heap, r + 1, i, BoxedValue(t, s.vars[slot]))), [], [Ref(r), Ref(r)]))
  {
    hide Reaches, Turns, Wide, Reference, BoxedValue, TypeOf, Box;
    var v, x := s.vars[slot], BoxedValue(t, s.vars[slot]);
    OriginalBegins(f, s, n, i, r, t, slot);
    TurnsBox(t, v);
    BoxedIsReference(t, v);
    var b1, b3 := [Ref(r), Ref(r)], [Ref(r), Ref(r), Ref(r + 1), Const(i)];
    Turn(f, s, b3, Box(t), [v], [x]);
    Stores(f, s, b1, r + 1, i, x);
    var c1 := [Stack(DUP), Stack(DUP), Ldc(n), ALoad, CheckCast(OBJECT_ARRAY), Ldc(i), LoadVar(t, slot)];
    var s1 := s.(heap := Put(s.heap, r + 1, i, x));
    ReachSeq(f, c1, Box(t), On(s, [], [Ref(r)]), On(s, b3, [v]), On(s, b3, [x]));
    assert On(s, b3, [x]) == On(s, b1, [Ref(r + 1), Const(i), x]);
    assert On(s1, b1, []) == On(s1, [], b1);
    ReachSeq(f, c1 + Box(t), [AStore], On(s, [], [Ref(r)]), On(s, b3, [x]), On(s1, b1, []));
  }

  /** The original of argument `i` goes into the last cell's array. */
  lemma OriginalRuns(f: bool, c: Context, args: seq<Val>, i: nat, r: nat, s: State)
    requires WellTypedArguments(c, args) && i < c.N() && s.vars == Variables(args, 0)
    requires r + 1 < |s.heap| && |s.heap[r]| == c.N() + 1 && |s.heap[r + 1]| == c.N() && s.heap[r][c.N()] == Ref(r + 1)
    ensures |args| == c.N()
    ensures Reaches(f, KeepOriginal(c, i, SlotOf(c, i)), On(s, [], [Ref(r)]),
      On(s.(heap := Put(s.heap, r + 1, i, BoxedValue(c.InArgs()[i], args[i]))), [], [Ref(r), Ref(r)]))
  {
    hide Reaches, Variables, Map, SlotOf, AfterFloatReplacement, BoxedValue, TypeOf, Box, Put, On;
    ArgumentIsValue(c, args, i);
    ArgumentVariable(c, args, i);
    assert TypeOf(args[i]) == c.InArgs()[i] by { assert c.InArgs()[i] == Map(TypeOf, args)[i]; }
    OriginalStored(f, s, c.N(), i, r, c.InArgs()[i], SlotOf(c, i));
  }

  lemma ArgumentIsValue(c: Context, args: seq<Val>, i: nat)
    requires WellTypedArguments(c, args) && i < |args|
    ensures |args| == c.N() && TypeOf(args[i]) != Void
  {
    hide Map, TypeOf;
    assert c.InArgs()[i] == Map(TypeOf, args)[i];
  }

  lemma ArgumentVariable(c: Context, args: seq<Val>, i: nat)
    requires WellTypedArguments(c, args) && i < c.N()
    ensures |args| == c.N() && SlotOf(c, i) in Variables(args, 0) && Variables(args, 0)[SlotOf(c, i)] == args[i]
  {
    hide Map, Variables, SizeOfAll, AfterFloatReplacement, JavaArgument, Reference, Wide, TypeOf, BoxedValue,
      MentionsFloat;
    forall k | 0 <= k < |args| ensures TypeOf(args[k]) != Void { ArgumentIsValue(c, args, k); }
    VariableAt(args, 0, i);
  }

  /** An array argument, alone on the stack, becomes a pair whose first cell holds it. */
  lemma PairBegins(f: bool, s: State, base: seq<Val>, v: Val)
    requires Reference(v) && !Wide(v)
    ensures var p := |s.heap|;
      Reaches(f, PAIR_BEGIN, On(s, base, [v]), On(s.(heap := s.heap + [[v, Null]]), base, [Ref(p), v]))
  {
    hide Reaches, Turns, Wide, Reference, Nulls;
    var p := |s.heap|;
    var s1 := s.(heap := s.heap + [Nulls(2)]);
    var s2 := s1.(heap := Put(s1.heap, p, 0, v));
    WideRef(p);
    TurnsLdc(2);
    TurnsLdc(0);
    DupX1s(v, Ref(p));
    Swaps(v, Ref(p));
    DupX1s(Ref(p), v);
    Swaps(v, Const(0));
    var pp := [Ref(p), v];
    Turn(f, s, base + [v], [Ldc(2)], [], [Const(2)]);
    Creates(f, s, base + [v], 2);
    Turn(f, s1, base, [Stack(DUP_X1)], [v, Ref(p)], [Ref(p), v, Ref(p)]);
    Turn(f, s1, base + [Ref(p)], [Stack(SWAP)], [v, Ref(p)], [Ref(p), v]);
    Turn(f, s1, base + [Ref(p)], [Stack(DUP_X1)], [Ref(p), v], [v, Ref(p), v]);
    Turn(f, s1, base + [Ref(p), v, Ref(p), v], [Ldc(0)], [], [Const(0)]);
    Turn(f, s1, base + [Ref(p), v, Ref(p)], [Stack(SWAP)], [v, Const(0)], [Const(0), v]);
    Stores(f, s1, base + pp, p, 0, v);
    assert s2.heap == s.heap + [[v, Null]] by { assert s2.heap[p] == [v, Null]; }
    var t0, t1, t2 := On(s, base, [v]), On(s, base + [v], [Const(2)]), On(s1, base, [v, Ref(p)]);
    var t3, t4 := On(s1, base, [Ref(p), v, Ref(p)]), On(s1, base + [Ref(p)], [Ref(p), v]);
    var t5, t6 := On(s1, base + [Ref(p), v, Ref(p), v], []), On(s1, base + [Ref(p), v, Ref(p), v], [Const(0)]);
    var t7, t8 := On(s1, base + pp, [Ref(p), Const(0), v]), On(s2, base, pp);
    assert t0 == On(s, base + [v], []) && t2 == On(s1, base + [v], [Ref(p)]);
    assert t3 == On(s1, base + [Ref(p)], [v, Ref(p)]);
    assert t5 == On(s1, base + [Ref(p)], [v, Ref(p), v]);
    assert t6 == On(s1, base + [Ref(p), v, Ref(p)], [v, Const(0)]);
    assert t7 == On(s1, base + [Ref(p), v, Ref(p)], [Const(0), v]);
    assert t8 == On(s2, base + pp, []);
    ReachEach(f, PAIR_BEGIN, [t0, t1, t2, t3, t4, t5, t6, t7, t8]);
  }

  lemma WideRef(p: nat)
    ensures !Wide(Ref(p)) && Reference(Ref(p)) && forall n :: !Wide(Const(n))
  {
  }

  /** The conversion becomes the second cell of the pair. */
  lemma PairEnds(f: bool, s: State, base: seq<Val>, p: nat, x: Val)
    requires Reference(x) && !Wide(x) && p < |s.heap| && |s.heap[p]| == 2
    ensures Reaches(f, PAIR_END, On(s, base, [Ref(p), x]), On(s.(heap := Put(s.heap, p, 1, x)), base, [Ref(p)]))
  {
    hide Reaches, Turns, Wide, Reference;
    var s1 := s.(heap := Put(s.heap, p, 1, x));
    WideRef(p);
    Swaps(Ref(p), x);
    DupX1s(x, Ref(p));
    Swaps(x, Ref(p));
    TurnsLdc(1);
    Swaps(x, Const(1));
    Turn(f, s, base, [Stack(SWAP)], [Ref(p), x], [x, Ref(p)]);
    Turn(f, s, base, [Stack(DUP_X1)], [x, Ref(p)], [Ref(p), x, Ref(p)]);
    Turn(f, s, base + [Ref(p)], [Stack(SWAP)], [x, Ref(p)], [Ref(p), x]);
    Turn(f, s, base + [Ref(p), Ref(p), x], [Ldc(1)], [], [Const(1)]);
    Turn(f, s, base + [Ref(p), Ref(p)], [Stack(SWAP)], [x, Const(1)], [Const(1), x]);
    Stores(f, s, base + [Ref(p)], p, 1, x);
    var t0, t1, t2 := On(s, base, [Ref(p), x]), On(s, base, [x, Ref(p)]), On(s, base, [Ref(p), x, Ref(p)]);
    var t3, t4 := On(s, base + [Ref(p), Ref(p), x], []), On(s, base + [Ref(p), Ref(p), x], [Const(1)]);
    var t5, t6 := On(s, base + [Ref(p)], [Ref(p), Const(1), x]), On(s1, base, [Ref(p)]);
    assert t2 == On(s, base + [Ref(p)], [x, Ref(p)]);
    assert t3 == On(s, base + [Ref(p)], [Ref(p), x]);
    assert t4 == On(s, base + [Ref(p), Ref(p)], [x, Const(1)]);
    assert t5 == On(s, base + [Ref(p), Ref(p)], [Const(1), x]);
    assert t6 == On(s1, base + [Ref(p)], []);
    ReachEach(f, PAIR_END, [t0, t1, t2, t3, t4, t5, t6]);
  }

  //---------------------------------------------------------------- the converted argument

  /** Up to the value of argument `i`, on top of the array and index for its conversion. */
  lemma ConvertedBegins(f: bool, s: State, i: nat, r: nat, t: JType, slot: nat)
    requires slot in s.vars && TypeOf(s.vars[slot]) == t
    ensures Reaches(f, [Ldc(i), LoadVar(t, slot)], On(s, [], [Ref(r), Ref(r)]),
      On(s, [Ref(r), Ref(r), Const(i)], [s.vars[slot]]))
  {
    hide Reaches, Turns;
    TurnsLdc(i);
    Turn(f, s, [Ref(r), Ref(r)], [Ldc(i)], [], [Const(i)]);
    Lets(f, s, [Ref(r), Ref(r), Const(i)], t, slot);
    assert On(s, [], [Ref(r), Ref(r)]) == On(s, [Ref(r), Ref(r)], []);
    assert On(s, [Ref(r), Ref(r)], [Const(i)]) == On(s, [Ref(r), Ref(r), Const(i)], []);
    ReachEach(f, [Ldc(i), LoadVar(t, slot)], [On(s, [], [Ref(r), Ref(r)]), On(s, [Ref(r), Ref(r)], [Const(i)]),
      On(s, [Ref(r), Ref(r), Const(i)], [s.vars[slot]])]);
  }

  /** The cell's value, above array and index, is stored. */
  lemma CellStored(f: bool, s: State, i: nat, r: nat, x: Val)
    requires r < |s.heap| && i < |s.heap[r]| && Reference(x)
    ensures Reaches(f, [AStore], On(s, [Ref(r), Ref(r), Const(i)], [x]),
      On(s.(heap := Put(s.heap, r, i, x)), [], [Ref(r)]))
  {
    hide Reaches, Reference;
    Stores(f, s, [Ref(r)], r, i, x);
    assert On(s, [Ref(r), Ref(r), Const(i)], [x]) == On(s, [Ref(r)], [Ref(r), Const(i), x]);
    assert On(s.(heap := Put(s.heap, r, i, x)), [Ref(r)], []) == On(s.(heap := Put(s.heap, r, i, x)), [], [Ref(r)]);
  }

  /** An argument that is no array: its conversion is the cell. */
  lemma PlainRuns(f: bool, s: State, i: nat, r: nat, t: JType, slot: nat, conversion: seq<Insn>, x: Val)
    requires slot in s.vars && TypeOf(s.vars[slot]) == t && Turns(conversion, [s.vars[slot]], [x])
    requires r < |s.heap| && i < |s.heap[r]| && Reference(x)
    ensures Reaches(f, [Ldc(i), LoadVar(t, slot)] + [] + conversion + [] + [AStore],
      On(s, [], [Ref(r), Ref(r)]), On(s.(heap := Put(s.heap, r, i, x)), [], [Ref(r)]))
  {
    hide Reaches, Turns, Reference, TypeOf;
    var v, b, s1 := s.vars[slot], [Ref(r), Ref(r), Const(i)], s.(heap := Put(s.heap, r, i, x));
    var t0, t1, t2, t3 := On(s, [], [Ref(r), Ref(r)]), On(s, b, [v]), On(s, b, [x]), On(s1, [], [Ref(r)]);
    ConvertedBegins(f, s, i, r, t, slot);
    Turn(f, s, b, conversion, [v], [x]);
    CellStored(f, s, i, r, x);
    var head := [Ldc(i), LoadVar(t, slot)];
    ReachSeq(f, head, conversion, t0, t1, t2);
    ReachSeq(f, head + conversion, [AStore], t0, t2, t3);
    assert head + [] + conversion + [] + [AStore] == head + conversion + [AStore];
  }

  /** An array: the cell is the pair of the argument and its conversion. */
  lemma ArrayRuns(f: bool, s: State, i: nat, r: nat, t: JType, slot: nat, conversion: seq<Insn>, x: Val)
    requires slot in s.vars && TypeOf(s.vars[slot]) == t && Turns(conversion, [s.vars[slot]], [x])
    requires r < |s.heap| && i < |s.heap[r]| && Reference(x) && !Wide(x)
    requires Reference(s.vars[slot]) && !Wide(s.vars[slot])
    ensures var p := |s.heap|;
      Reaches(f, [Ldc(i), LoadVar(t, slot)] + PAIR_BEGIN + conversion + PAIR_END + [AStore],
      On(s, [], [Ref(r), Ref(r)]), On(s.(heap := Put(s.heap + [[s.vars[slot], x]], r, i, Ref(p))), [], [Ref(r)]))
  {
    hide Reaches, Turns, Reference, TypeOf, Wide;
    var v, b, p := s.vars[slot], [Ref(r), Ref(r), Const(i)], |s.heap|;
    var s1 := s.(heap := s.heap + [[v, Null]]);
    var s2 := s.(heap := s.heap + [[v, x]]);
    var s3 := s.(heap := Put(s2.heap, r, i, Ref(p)));
    ConvertedBegins(f, s, i, r, t, slot);
    PairBegins(f, s, b, v);
    Turn(f, s1, b + [Ref(p)], conversion, [v], [x]);
    PairEnds(f, s1, b, p, x);
    assert Put(s1.heap, p, 1, x) == s2.heap by { assert [v, Null][1 := x] == [v, x]; }
    WideRef(p);
    CellStored(f, s2, i, r, Ref(p));
    var t0, t1, t2, t3 := On(s, [], [Ref(r), Ref(r)]), On(s, b, [v]), On(s1, b, [Ref(p), v]), On(s1, b, [Ref(p), x]);
    var t4, t5 := On(s2, b, [Ref(p)]), On(s3, [], [Ref(r)]);
    assert t2 == On(s1, b + [Ref(p)], [v]) && t3 == On(s1, b + [Ref(p)], [x]);
    var head := [Ldc(i), LoadVar(t, slot)];
    ReachSeq(f, head, PAIR_BEGIN, t0, t1, t2);
    ReachSeq(f, head + PAIR_BEGIN, conversion, t0, t2, t3);
    ReachSeq(f, head + PAIR_BEGIN + conversion, PAIR_END, t0, t3, t4);
    ReachSeq(f, head + PAIR_BEGIN + conversion + PAIR_END, [AStore], t0, t4, t5);
  }

  /** The heap after argument `i` has been converted. */
  function HeapAfter(c: Context, args: seq<Val>, i: nat, r: nat, h: seq<seq<Val>>): seq<seq<Val>>
    requires c.Valid() && i < c.N() && |args| == c.N()
    requires r + 1 < |h| && |h[r]| == c.N() + 1 && |h[r + 1]| == c.N()
  {
    var h1 := Put(h, r + 1, i, BoxedValue(c.InArgs()[i], args[i]));
    var x := NewVersion(c, i, args[i]);
    if c.InArgs()[i].Arr? then Put(h1 + [[args[i], x]], r, i, Ref(|h|)) else Put(h1, r, i, x)
  }

  lemma ConvertedRuns(f: bool, c: Context, args: seq<Val>, i: nat, r: nat, s: State)
    requires WellTypedArguments(c, args) && i < c.N() && s.vars == Variables(args, 0)
    requires r < |s.heap| && i < |s.heap[r]|
    ensures |args| == c.N()
    ensures var x := NewVersion(c, i, args[i]);
      Reaches(f, KeepConverted(c, i, SlotOf(c, i)), On(s, [], [Ref(r), Ref(r)]),
        On(s.(heap := if c.InArgs()[i].Arr? then Put(s.heap + [[args[i], x]], r, i, Ref(|s.heap|))
          else Put(s.heap, r, i, x)),
          [], [Ref(r)]))
  {
    hide Reaches, Turns, Variables, Map, Wide, Reference, JavaArgument, SlotOf, AfterFloatReplacement, BoxedValue,
      TypeOf, Box, NewVersion, ArgumentConversion, Put, On;
    ArgumentTypes(c, args, i);
    ArgumentVariable(c, args, i);
    var t, slot, x := c.InArgs()[i], SlotOf(c, i), NewVersion(c, i, args[i]);
    var conversion := ArgumentConversion(c, i) + Box(c.OutArgs()[i]);
    TurnsNewVersion(c, i, args[i]);
    if t.Arr? {
      ArrayIsReference(args[i], t);
      ArrayRuns(f, s, i, r, t, slot, conversion, x);
    } else {
      PlainRuns(f, s, i, r, t, slot, conversion, x);
    }
  }

  lemma ArrayIsReference(v: Val, t: JType)
    requires TypeOf(v) == t && t.Arr?
    ensures Reference(v) && !Wide(v)
  {
  }

  //---------------------------------------------------------------- the whole method

  /** The two arrays of the method's result exist, and the second is in the last cell of the first. */
  predicate Framed(c: Context, r: nat, h: seq<seq<Val>>) {
    r + 1 < |h| && |h[r]| == c.N() + 1 && |h[r + 1]| == c.N() && h[r][c.N()] == Ref(r + 1)
  }

  lemma PutSpares(h: seq<seq<Val>>, a: nat, i: nat, v: Val, b: nat)
    requires a < |h| && i < |h[a]| && b < |h| && b != a
    ensures Put(h, a, i, v)[b] == h[b]
  {
  }

  lemma ArgumentRuns(f: bool, c: Context, args: seq<Val>, i: nat, r: nat, s: State)
    requires WellTypedArguments(c, args) && i < c.N() && |args| == c.N() && s.vars == Variables(args, 0)
    requires Framed(c, r, s.heap)
    ensures Reaches(f, KeepOriginal(c, i, SlotOf(c, i)) + KeepConverted(c, i, SlotOf(c, i)),
      On(s, [], [Ref(r)]), On(s.(heap := HeapAfter(c, args, i, r, s.heap)), [], [Ref(r)]))
  {
    hide Reaches, Turns, Variables, Map, SlotOf, AfterFloatReplacement, KeepOriginal, KeepConverted, NewVersion,
      BoxedValue, On, Put, Box, ArgumentConversion, TypeOf, WellTypedArguments;
    assert c.Valid() by { ValidContext(c, args); }
    OriginalRuns(f, c, args, i, r, s);
    var s1 := s.(heap := Put(s.heap, r + 1, i, BoxedValue(c.InArgs()[i], args[i])));
    assert s1.heap[r] == s.heap[r] by { PutSpares(s.heap, r + 1, i, BoxedValue(c.InArgs()[i], args[i]), r); }
    ConvertedRuns(f, c, args, i, r, s1);
    ReachSeq(f, KeepOriginal(c, i, SlotOf(c, i)), KeepConverted(c, i, SlotOf(c, i)), On(s, [], [Ref(r)]),
      On(s1, [], [Ref(r), Ref(r)]), On(s.(heap := HeapAfter(c, args, i, r, s.heap)), [], [Ref(r)]));
  }

  /** One more argument is held; what was held before still is. */
  lemma HoldsOneMore(c: Context, args: seq<Val>, i: nat, r: nat, h: seq<seq<Val>>)
    requires c.Valid() && |args| == c.N() && i < c.N() && Framed(c, r, h) && Holds(c, args, i, r, h)
    ensures var h' := HeapAfter(c, args, i, r, h);
      Framed(c, r, h') && Holds(c, args, i + 1, r, h') && |h| <= |h'| && forall k | 0 <= k < r :: h'[k] == h[k]
  {
    hide NewVersion, BoxedValue, Map, AfterFloatReplacement;
    var h' := HeapAfter(c, args, i, r, h);
    assert c.InArgs()[i].Arr? <==> c.OutArgs()[i].Arr? by { ArrayStays(c, i); }
    forall k | 0 <= k < i + 1
      ensures CellHolds(c, args, k, r, h')
    {
      assert k < i ==> CellHolds(c, args, k, r, h) && h'[r][k] == h[r][k];
    }
  }

  lemma ArrayStays(c: Context, i: nat)
    requires i < c.N()
    ensures c.InArgs()[i].Arr? <==> c.OutArgs()[i].Arr?
  {
  }

  lemma {:induction false} ArgumentsRun(f: bool, c: Context, args: seq<Val>, i: nat, s: State, r: nat)
      returns (h: seq<seq<Val>>)
    requires WellTypedArguments(c, args) && i <= c.N() && |args| == c.N() && s.vars == Variables(args, 0)
    requires Framed(c, r, s.heap) && Holds(c, args, 0, r, s.heap)
    ensures Reaches(f, ConvertArguments(c, i), On(s, [], [Ref(r)]), On(s.(heap := h), [], [Ref(r)]))
    ensures Framed(c, r, h) && Holds(c, args, i, r, h) && |s.heap| <= |h| && forall k | 0 <= k < r :: h[k] == s.heap[k]
  {
    hide Reaches, Holds, Variables, Map, SlotOf, KeepOriginal, KeepConverted, HeapAfter, WellTypedArguments, On;
    if i == 0 {
      h := s.heap;
      ReachNothing(f, On(s, [], [Ref(r)]));
    } else {
      var h1 := ArgumentsRun(f, c, args, i - 1, s, r);
      assert c.Valid() by { ValidContext(c, args); }
      var s1 := s.(heap := h1);
      ArgumentRuns(f, c, args, i - 1, r, s1);
      HoldsOneMore(c, args, i - 1, r, h1);
      h := HeapAfter(c, args, i - 1, r, h1);
      ReachSeq(f, ConvertArguments(c, i - 1),
        KeepOriginal(c, i - 1, SlotOf(c, i - 1)) + KeepConverted(c, i - 1, SlotOf(c, i - 1)),
        On(s, [], [Ref(r)]), On(s1, [], [Ref(r)]), On(s.(heap := h), [], [Ref(r)]));
    }
  }

  lemma ValidContext(c: Context, args: seq<Val>)
    requires WellTypedArguments(c, args)
    ensures c.Valid()
  {
  }

  lemma ReturnsAt(f: bool, code: seq<Insn>, s: State, t: State)
    requires Reaches(f, code, s, t)
    ensures Run(f, code + [AReturn], s) == Some(t)
  {
    RunAppend(f, code, [AReturn], s, t);
  }

  /** The method returns an array of n+1 cells: in cell i the converted argument i, for an array the pair
      [old, new]; in cell n all the originals, boxed.  It changes nothing that was there before. */
  lemma ConvertMethodReturns(f: bool, c: Context, args: seq<Val>, heap: seq<seq<Val>>, log: seq<Event>)
      returns (h: seq<seq<Val>>)
    requires WellTypedArguments(c, args)
    ensures |args| == c.N()
    ensures Run(f, ConvertMethod(c), State([], heap, Variables(args, 0), log))
      == Some(State([Ref(|heap|)], h, Variables(args, 0), log))
    ensures Framed(c, |heap|, h) && Holds(c, args, c.N(), |heap|, h) && heap <= h
  {
    hide Reaches, ConvertHead, ConvertArguments, Variables, Map, Nulls, Put;
    assert |args| == c.N() by { assert |Map(TypeOf, args)| == |args|; }
    var s, r, n := State([], heap, Variables(args, 0), log), |heap|, c.N();
    HeadRuns(f, n, s);
    var h0 := Put(s.heap + [Nulls(n + 1)] + [Nulls(n)], r, n, Ref(r + 1));
    HeadFramed(c, heap, h0);
    h := ArgumentsRun(f, c, args, n, s.(heap := h0), r);
    var s0, s1 := s.(heap := h0), s.(heap := h);
    ReachSeq(f, ConvertHead(n), ConvertArguments(c, n), On(s, [], []), On(s0, [], [Ref(r)]), On(s1, [], [Ref(r)]));
    assert On(s, [], []) == s && On(s1, [], [Ref(r)]) == State([Ref(r)], h, Variables(args, 0), log);
    ReturnsAt(f, ConvertHead(n) + ConvertArguments(c, n), s, On(s1, [], [Ref(r)]));
    assert heap <= h by { assert forall k | 0 <= k < |heap| :: h[k] == heap[k]; }
  }

  lemma HeadFramed(c: Context, heap: seq<seq<Val>>, h0: seq<seq<Val>>)
    requires h0 == Put(heap + [Nulls(c.N() + 1)] + [Nulls(c.N())], |heap|, c.N(), Ref(|heap| + 1))
    ensures Framed(c, |heap|, h0) && forall k | 0 <= k < |heap| :: h0[k] == heap[k]
    ensures c.Valid() ==> forall args | |args| == c.N() :: Holds(c, args, 0, |heap|, h0)
  {
    hide Nulls, Map;
    assert h0[|heap| + 1] == Nulls(c.N());
  }
}

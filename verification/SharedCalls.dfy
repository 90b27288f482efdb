/** What a call site does with a conversion method that was generated for another site with the same replaced types. */
module SharedCalls {
  import opened Collections
  import opened OperandStack
  import opened Opcodes
  import opened Descriptors
  import opened ProxyMachine
  import opened ProxyCode
  import opened StackEffects
  import opened ConvertMethodProof
  import opened ProxyCallProof
  import opened ProxyCorrectness
  import opened SharedConversion

  /** Floats and doubles travel as the objects that box them. */
  function Unboxed(t: JType): JType {
    if t == FLOAT_CLASS then Prim(FLOAT) else if t == DOUBLE_CLASS then Prim(DOUBLE) else t
  }

  /** What one site stores for argument `i` has the type that the other one takes out. */
  predicate SameCell(c: Context, d: Context, i: nat)
    requires i < c.N() && i < d.N()
  {
    Unboxed(c.OutArgs()[i]) == Unboxed(d.OutArgs()[i])
  }

  predicate Compatible(c: Context, d: Context, i: nat)
    requires i < c.N() && i < d.N()
  {
    SameCell(c, d, i) && (PlainObject(c.OutArgs()[i]) ==> c.disguised == d.disguised)
  }

  /** The site `c`, treating plain objects as `d` does. */
  function DisguisedAs(c: Context, d: Context): Context { c.(disguised := d.disguised) }

  //---------------------------------------------------------------- cells that fit

  lemma SameVersion(c: Context, d: Context, i: nat, v: Val)
    requires SameArguments(c, d) && i < c.N() && i < d.N() && SameCell(c, d, i)
    ensures NewVersion(DisguisedAs(c, d), i, v) == NewVersion(d, i, v)
    ensures c.OutArgs()[i].Arr? <==> d.OutArgs()[i].Arr?
  {
  }

  lemma CellFits(c: Context, d: Context, args: seq<Val>, i: nat, r: nat, h: seq<seq<Val>>)
    requires SameArguments(c, d) && |args| == d.N() == c.N() && i < d.N() && SameCell(c, d, i)
    requires r < |h| && |h[r]| == d.N() + 1 && CellHolds(d, args, i, r, h)
    ensures CellHolds(DisguisedAs(c, d), args, i, r, h)
  {
    hide NewVersion, Map, SameCell;
    SameVersion(c, d, i, args[i]);
  }

  //---------------------------------------------------------------- cells that do not

  /** The class that an argument is cast to when it is taken out of its cell. */
  function CellClass(t: JType): JType { if t.Prim? then BoxClass(t.sort) else t }

  lemma CastFails(c: Context, d: Context, i: nat, v: Val)
    requires SameArguments(c, d) && i < c.N() && i < d.N() && TypeOf(v) == d.InArgs()[i] && !SameCell(c, d, i)
    ensures !CastSucceeds(NewVersion(d, i, v), CellClass(c.OutArgs()[i]))
    ensures c.OutArgs()[i].Arr? <==> d.OutArgs()[i].Arr?
  {
    hide JavaArgument, Map;
    var s, t, x := c.OutArgs()[i], d.OutArgs()[i], JavaArgument(d, i, v);
    assert AfterFloatReplacement(s) == c.InArgs()[i] == d.InArgs()[i] == AfterFloatReplacement(t);
    assert TypeOf(x) == t && TypeOf(BoxedValue(t, x)) == CellClass(t);
  }

  lemma ExplodeFails(
      f: bool, c: Context, d: Context, args: seq<Val>, i: nat, r: nat, s: State, b: seq<Val>, rest: seq<Insn>)
    requires SameArguments(c, d) && WellTypedArguments(d, args) && |args| == d.N() == c.N() && i < d.N()
    requires r < |s.heap| && |s.heap[r]| == d.N() + 1 && CellHolds(d, args, i, r, s.heap) && !SameCell(c, d, i)
    ensures Run(f, Explode(c, i) + rest, On(s, b, [Ref(r)])) == None
  {
    hide Reaches, Run, CellHolds, NewVersion, Map, SameCell, CastSucceeds, Sink, TypeOf, CellClass;
    assert TypeOf(args[i]) == d.InArgs()[i] by { assert Map(TypeOf, args)[i] == TypeOf(args[i]); }
    CastFails(c, d, i, args[i]);
    var t, w := c.OutArgs()[i], NewVersion(d, i, args[i]);
    var head := [Stack(DUP), Ldc(i), ALoad] + (if t.Arr? then [CheckCast(OBJECT_ARRAY), Ldc(1), ALoad] else []);
    NewVersionFetched(f, d, args, i, r, s, b);
    var tail := ExplodeTail(c, i, rest);
    DoublesThen(f, head, [CheckCast(CellClass(t))] + tail, On(s, b, [Ref(r)]), On(s, b, [Ref(r), w]));
    CastStops(f, CellClass(t), tail, s, b + [Ref(r)], w);
    assert On(s, b, [Ref(r), w]) == On(s, b + [Ref(r)], [w]);
    ExplodeIs(c, i, rest);
  }

  /** What follows the cast. */
  function ExplodeTail(c: Context, i: nat, rest: seq<Insn>): seq<Insn>
    requires i < c.N()
  {
    var t := c.OutArgs()[i];
    (if t.Prim? then [XxxValue(t.sort)] else []) + Sink(t) + rest
  }

  lemma ExplodeIs(c: Context, i: nat, rest: seq<Insn>)
    requires i < c.N()
    ensures var t := c.OutArgs()[i];
      Explode(c, i) + rest
      == [Stack(DUP), Ldc(i), ALoad] + (if t.Arr? then [CheckCast(OBJECT_ARRAY), Ldc(1), ALoad] else [])
        + ([CheckCast(CellClass(t))] + ExplodeTail(c, i, rest))
  {
    hide Sink, BoxClass;
  }

  lemma CastStops(f: bool, t: JType, rest: seq<Insn>, s: State, b: seq<Val>, w: Val)
    requires !CastSucceeds(w, t)
    ensures Run(f, [CheckCast(t)] + rest, On(s, b, [w])) == None
  {
    hide CastSucceeds;
    assert ([CheckCast(t)] + rest)[0] == CheckCast(t);
    assert Top(On(s, b, [w]), 0) == w;
  }

  lemma {:induction false} ExplodeSplits(c: Context, k: nat, n: nat) returns (rest: seq<Insn>)
    requires k < n <= c.N()
    ensures ExplodeAll(c, n) == ExplodeAll(c, k) + (Explode(c, k) + rest)
  {
    hide Explode, ExplodeAll;
    ExplodeOneMore(c, n - 1);
    if k == n - 1 {
      rest := [];
      assert Explode(c, k) + rest == Explode(c, k);
    } else {
      var before := ExplodeSplits(c, k, n - 1);
      rest := before + Explode(c, n - 1);
      assert ExplodeAll(c, k) + (Explode(c, k) + before) + Explode(c, n - 1)
        == ExplodeAll(c, k) + (Explode(c, k) + (before + Explode(c, n - 1)));
    }
  }

  /** The first argument that does not fit stops the run. */
  lemma ExplodeAllFails(
      f: bool, c: Context, d: Context, args: seq<Val>, k: nat, r: nat, s: State, b: seq<Val>, rest: seq<Insn>)
    requires SameArguments(c, d) && WellTypedArguments(d, args) && |args| == d.N() == c.N() && k < d.N()
    requires r < |s.heap| && |s.heap[r]| == d.N() + 1 && forall i | 0 <= i < d.N() :: CellHolds(d, args, i, r, s.heap)
    requires !SameCell(c, d, k) && forall i | 0 <= i < k :: SameCell(c, d, i)
    ensures Run(f, ExplodeOnStack(c) + rest, On(s, b, [Ref(r)])) == None
  {
    hide Reaches, Run, CellHolds, SameCell, JavaArguments, Explode, ExplodeAll, Map;
    var e := DisguisedAs(c, d);
    forall i | 0 <= i < k ensures CellHolds(e, args, i, r, s.heap) { CellFits(c, d, args, i, r, s.heap); }
    ExplodesUpTo(f, e, args, k, r, s, b);
    ExplodeAllAlike(c, e, k);
    var b1 := b + JavaArguments(e, args)[..k];
    var more := ExplodeSplits(c, k, c.N());
    var tail := more + [Stack(POP)] + rest;
    DoublesThen(f, ExplodeAll(c, k), Explode(c, k) + tail, On(s, b, [Ref(r)]), On(s, b1, [Ref(r)]));
    ExplodeFails(f, c, d, args, k, r, s, b1, tail);
    assert ExplodeOnStack(c) + rest == ExplodeAll(c, k) + (Explode(c, k) + tail);
  }

  /** A position that does not fit; the first one. */
  lemma FirstMisfit(c: Context, d: Context) returns (k: nat)
    requires c.N() == d.N() && exists i :: 0 <= i < c.N() && !SameCell(c, d, i)
    ensures k < c.N() && !SameCell(c, d, k) && forall i | 0 <= i < k :: SameCell(c, d, i)
  {
    hide SameCell;
    k := 0;
    while SameCell(c, d, k)
      invariant k < c.N() && forall i | 0 <= i < k :: SameCell(c, d, i)
      decreases c.N() - k
    {
      k := k + 1;
    }
  }

  //---------------------------------------------------------------- what the outcomes tell

  /** Plain objects are passed as they are, or converted: never the same. */
  lemma PassedExactly(c: Context, e: Context, args: seq<Val>)
    requires Alike(c, e) && e.Valid() && c.Valid() && |args| == c.N()
    ensures JavaArguments(c, args) == JavaArguments(e, args)
      <==> forall i | 0 <= i < c.N() :: PlainObject(c.OutArgs()[i]) ==> c.disguised == e.disguised
  {
    hide JavaArgument, PlainObject;
    forall i | 0 <= i < c.N()
      ensures JavaArguments(c, args)[i] == JavaArguments(e, args)[i]
        <==> (PlainObject(c.OutArgs()[i]) ==> c.disguised == e.disguised)
    {
      PassedHere(c, e, i, args[i]);
    }
  }

  lemma PassedHere(c: Context, e: Context, i: nat, v: Val)
    requires Alike(c, e) && e.Valid() && c.Valid() && i < c.N()
    ensures JavaArgument(c, i, v) == JavaArgument(e, i, v)
      <==> (PlainObject(c.OutArgs()[i]) ==> c.disguised == e.disguised)
  {
    hide RealVersion;
    ConvertedIsNew(v);
  }

  lemma {:induction false} ConvertedIsNew(v: Val)
    ensures v != Converted(ObjectToReal, 0, v)
  {
    if v.Converted? { ConvertedIsNew(v.v); }
  }

  lemma SamePassedSameMerged(c: Context, e: Context, args: seq<Val>, order: seq<nat>)
    requires c.Valid() && e.Valid() && |args| == c.N() == e.N() && forall k | 0 <= k < |order| :: order[k] < c.N()
    requires JavaArguments(c, args) == JavaArguments(e, args)
    ensures Merging(c, args, order) == Merging(e, args, order)
  {
    hide JavaArgument;
    forall k | 0 <= k < |order|
      ensures JavaArgument(c, order[k], args[order[k]]) == JavaArgument(e, order[k], args[order[k]])
    {
      assert JavaArguments(c, args)[order[k]] == JavaArguments(e, args)[order[k]];
    }
  }

  /** The log of a call tells the arguments that were passed. */
  lemma LogTells(c: Context, t: Option<Val>, x: seq<Val>, y: seq<Val>, log: seq<Event>, m: seq<Event>, n: seq<Event>)
    requires CallLog(c, t, x, log) + m == CallLog(c, t, y, log) + n
    ensures x == y
  {
    assert (CallLog(c, t, x, log) + m)[|log|] == Called(c, t, x);
    assert (CallLog(c, t, y, log) + n)[|log|] == Called(c, t, y);
  }

  //---------------------------------------------------------------- the direct path

  /** The direct path with the conversion method of the site `d`. */
  function SharedDirectCall(c: Context, d: Context, order: seq<nat>): seq<Insn> {
    DirectPieces(c, order);
    DirectCall(c, order)[0 := TypeConvert(c.InArgs(), ConvertMethod(d))]
  }

  lemma SharedDirectPieces(c: Context, d: Context, order: seq<nat>)
    ensures SharedDirectCall(c, d, order) == PackedBy(c, d) + DirectRest(c, order)
  {
    hide ConvertMethod, DirectRest, DirectCall;
    DirectPieces(c, order);
  }

  lemma DirectFails(f: bool, c: Context, d: Context, order: seq<nat>,
      s: State, b: seq<Val>, t: Option<Val>, args: seq<Val>, h: seq<seq<Val>>, k: nat)
    requires SameArguments(c, d) && WellTypedArguments(d, args) && |args| == d.N() == c.N() && k < d.N()
    requires (t.Some? <==> HasTarget(c.opcode)) && (t.Some? ==> !Wide(t.value))
    requires |s.heap| < |h| && |h[|s.heap|]| == d.N() + 1
    requires forall i | 0 <= i < d.N() :: CellHolds(d, args, i, |s.heap|, h)
    requires !SameCell(c, d, k) && forall i | 0 <= i < k :: SameCell(c, d, i)
    ensures Run(f, DirectRest(c, order), Packed(s, b, t, h)) == None
  {
    hide Reaches, Run, CellHolds, SameCell, Map, WellTypedArguments, Wide, TargetConversion, Receiver, ConvertedTarget,
      ExplodeOnStack, CheckArraysAfterCall, DropTarget, ReturnConversion;
    var r, s1, u := |s.heap|, s.(heap := h), ConvertedTarget(c, t);
    var b1 := b + Receiver(t) + [Ref(r)];
    TargetRuns(f, c, t, r, s1, b1);
    var tail := [Invoke(c)] + CheckArraysAfterCall(c.jDesc.ret, order) + DropTarget(c) + ReturnConversion(c.jDesc.ret);
    DoublesThen(f, TargetConversion(c), ExplodeOnStack(c) + tail,
      On(s1, b1, Receiver(t) + [Ref(r)]), On(s1, b1, Receiver(u) + [Ref(r)]));
    ExplodeAllFails(f, c, d, args, k, r, s1, b1 + Receiver(u), tail);
    assert On(s1, b1 + Receiver(u), [Ref(r)]) == On(s1, b1, Receiver(u) + [Ref(r)]);
    assert Packed(s, b, t, h) == On(s1, b1, Receiver(t) + [Ref(r)]);
    assert DirectRest(c, order) == TargetConversion(c) + (ExplodeOnStack(c) + tail);
  }

  /** The outcome with a shared conversion method: arguments that do not fit stop the run; otherwise plain objects are
      passed as the other site passes its own. */
  function SharedDirectOutcome(c: Context, d: Context, order: seq<nat>,
      s: State, b: seq<Val>, t: Option<Val>, args: seq<Val>, h: seq<seq<Val>>): Option<State>
    requires c.Valid() && |args| == c.N() == d.N() && ListsArrays(c, order)
  {
    if forall i | 0 <= i < c.N() :: SameCell(c, d, i) then
      Some(DirectOutcome(c, DisguisedAs(c, d), order, s, b, t, args, h))
    else None
  }

  lemma SharedDirectRuns(f: bool, c: Context, d: Context, order: seq<nat>,
      s: State, b: seq<Val>, t: Option<Val>, args: seq<Val>) returns (h: seq<seq<Val>>)
    requires SameArguments(c, d) && WellTypedArguments(c, args) && ListsArrays(c, order)
    requires (t.Some? <==> HasTarget(c.opcode)) && (t.Some? ==> !Wide(t.value))
    ensures |args| == c.N() == d.N() && s.heap <= h
    ensures Run(f, SharedDirectCall(c, d, order), On(s, b, Receiver(t) + args))
      == SharedDirectOutcome(c, d, order, s, b, t, args, h)
  {
    hide Run, Holds, CellHolds, SameCell, Map, Wide, PackedBy, DirectRest, SharedDirectCall, DirectOutcome, Receiver,
      Packed;
    SharedDirectPieces(c, d, order);
    h := Packs(f, c, d, args, s, b, t, DirectRest(c, order));
    HoldsCells(d, args, |s.heap|, h);
    if forall i | 0 <= i < c.N() :: SameCell(c, d, i) {
      var e := DisguisedAs(c, d);
      forall i | 0 <= i < c.N() ensures CellHolds(e, args, i, |s.heap|, h) { CellFits(c, d, args, i, |s.heap|, h); }
      DirectRestRuns(f, c, e, order, s, b, t, args, h);
    } else {
      var k := FirstMisfit(c, d);
      DirectFails(f, c, d, order, s, b, t, args, h, k);
    }
  }

  /** The direct path has the outcome that it has with the site's own conversion method. */
  ghost predicate DirectAsOwn(f: bool, c: Context, d: Context, order: seq<nat>,
      s: State, b: seq<Val>, t: Option<Val>, args: seq<Val>)
    requires c.Valid() && |args| == c.N() && ListsArrays(c, order)
  {
    var after := Run(f, SharedDirectCall(c, d, order), On(s, b, Receiver(t) + args));
    exists h :: s.heap <= h && after == Some(DirectOutcome(c, c, order, s, b, t, args, h))
  }

  /** A site gets from another site's conversion method what its own gives exactly if, for each argument, the original
      types are the same but for boxing, and plain objects are treated alike. */
  lemma SharedDirectExactly(f: bool, c: Context, d: Context, order: seq<nat>,
      s: State, b: seq<Val>, t: Option<Val>, args: seq<Val>)
    requires SameArguments(c, d) && WellTypedArguments(c, args) && ListsArrays(c, order)
    requires (t.Some? <==> HasTarget(c.opcode)) && (t.Some? ==> !Wide(t.value))
    ensures |args| == c.N() == d.N()
    ensures DirectAsOwn(f, c, d, order, s, b, t, args) <==> forall i | 0 <= i < c.N() :: Compatible(c, d, i)
  {
    hide Run, SameCell, Map, Wide, SharedDirectCall, DirectOutcome, Receiver, JavaArguments, PlainObject;
    var e := DisguisedAs(c, d);
    var h := SharedDirectRuns(f, c, d, order, s, b, t, args);
    if forall i | 0 <= i < c.N() :: SameCell(c, d, i) {
      assert forall i | 0 <= i < c.N() ::
        Compatible(c, d, i) <==> (PlainObject(c.OutArgs()[i]) ==> c.disguised == e.disguised);
      PassedExactly(c, e, args);
      if JavaArguments(c, args) == JavaArguments(e, args) {
        SameDirectOutcome(c, e, order, s, b, t, args, h);
      }
      forall h' | DirectOutcome(c, e, order, s, b, t, args, h) == DirectOutcome(c, c, order, s, b, t, args, h')
        ensures JavaArguments(c, args) == JavaArguments(e, args)
      {
        DirectOutcomeTells(c, e, order, s, b, t, args, h, h');
      }
    } else {
      var k :| 0 <= k < c.N() && !SameCell(c, d, k);
      assert !Compatible(c, d, k);
    }
  }

  lemma SameDirectOutcome(c: Context, e: Context, order: seq<nat>,
      s: State, b: seq<Val>, t: Option<Val>, args: seq<Val>, h: seq<seq<Val>>)
    requires Alike(c, e) && c.Valid() && e.Valid() && |args| == c.N() && ListsArrays(c, order)
    requires JavaArguments(c, args) == JavaArguments(e, args)
    ensures DirectOutcome(c, e, order, s, b, t, args, h) == DirectOutcome(c, c, order, s, b, t, args, h)
  {
    hide JavaArguments, Merging, Delivered, ConvertedTarget;
    SamePassedSameMerged(c, e, args, order);
  }

  lemma DirectOutcomeTells(c: Context, e: Context, order: seq<nat>,
      s: State, b: seq<Val>, t: Option<Val>, args: seq<Val>, h: seq<seq<Val>>, h': seq<seq<Val>>)
    requires Alike(c, e) && c.Valid() && e.Valid() && |args| == c.N() && ListsArrays(c, order)
    requires DirectOutcome(c, e, order, s, b, t, args, h) == DirectOutcome(c, c, order, s, b, t, args, h')
    ensures JavaArguments(c, args) == JavaArguments(e, args)
  {
    hide JavaArguments, Merging, Delivered, ConvertedTarget, CallLog;
    LogTells(c, ConvertedTarget(c, t), JavaArguments(e, args), JavaArguments(c, args), s.log,
      Merging(e, args, order), Merging(c, args, order));
  }

  //---------------------------------------------------------------- reflection first

  function SharedBetterCall(c: Context, d: Context, order: seq<nat>): seq<Insn> {
    BetterPieces(c, order);
    BetterCall(c, order)[0 := TypeConvert(c.InArgs(), ConvertMethod(d))]
  }

  lemma SharedBetterPieces(c: Context, d: Context, order: seq<nat>)
    ensures SharedBetterCall(c, d, order) == PackedBy(c, d) + BetterRest(c, order)
  {
    hide ConvertMethod, BetterRest, BetterCall;
    BetterPieces(c, order);
  }

  lemma HandlerFails(c: Context, d: Context, order: seq<nat>,
      s: State, b: seq<Val>, t: Val, args: seq<Val>, h: seq<seq<Val>>, k: nat)
    requires SameArguments(c, d) && WellTypedArguments(d, args) && |args| == d.N() == c.N() && k < d.N() && !Wide(t)
    requires |s.heap| < |h| && |h[|s.heap|]| == d.N() + 1
    requires forall i | 0 <= i < d.N() :: CellHolds(d, args, i, |s.heap|, h)
    requires !SameCell(c, d, k) && forall i | 0 <= i < k :: SameCell(c, d, i)
    ensures Run(false, Fallback(c, order) + [Label(END_HANDLER)], LookedFor(false, c, s, b, t, h, [])) == None
  {
    hide Reaches, Run, CellHolds, SameCell, Map, WellTypedArguments, Wide, TargetConversion, JavaTarget, ExplodeOnStack,
      CheckArraysAfterCall, ReturnConversion;
    var r, s2 := |s.heap|, s.(heap := h, log := s.log + [LookedUp(t, c.name, CojacDescriptor(c))]);
    var u, head := JavaTarget(c, t), [Stack(POP)] + TargetConversion(c) + [Stack(DUP_X1)];
    HandlerStarts(false, c, s2, b, t, r);
    var tail := [Invoke(c)] + CheckArraysAfterCall(c.jDesc.ret, order) + ReturnConversion(c.jDesc.ret)
      + [Label(END_HANDLER)];
    DoublesThen(false, head, ExplodeOnStack(c) + tail, On(s2, b, [t, Ref(r), Null]), On(s2, b, [Ref(r), u, Ref(r)]));
    ExplodeAllFails(false, c, d, args, k, r, s2, b + [Ref(r), u], tail);
    assert On(s2, b + [Ref(r), u], [Ref(r)]) == On(s2, b, [Ref(r), u, Ref(r)]);
    assert [t, Ref(r), Null] + [] == [t, Ref(r), Null];
    assert Fallback(c, order) + [Label(END_HANDLER)] == head + (ExplodeOnStack(c) + tail);
  }

  function SharedBetterOutcome(f: bool, c: Context, d: Context, order: seq<nat>,
      s: State, b: seq<Val>, t: Val, args: seq<Val>, h: seq<seq<Val>>): Option<State>
    requires c.Valid() && |args| == c.N() == d.N() && ListsArrays(c, order)
  {
    if f then Some(BetterOutcome(true, c, c, order, s, b, t, args, h))
    else if forall i | 0 <= i < c.N() :: SameCell(c, d, i) then
      Some(BetterOutcome(false, c, DisguisedAs(c, d), order, s, b, t, args, h))
    else None
  }

  lemma SharedBetterRuns(f: bool, c: Context, d: Context, order: seq<nat>,
      s: State, b: seq<Val>, t: Val, args: seq<Val>) returns (h: seq<seq<Val>>)
    requires SameArguments(c, d) && WellTypedArguments(c, args) && ListsArrays(c, order) && HasTarget(c.opcode)
      && !Wide(t)
    ensures |args| == c.N() == d.N() && s.heap <= h
    ensures Run(f, SharedBetterCall(c, d, order), On(s, b, [t] + args))
      == SharedBetterOutcome(f, c, d, order, s, b, t, args, h)
  {
    hide Run, Holds, CellHolds, SameCell, Map, Wide, PackedBy, BetterRest, SharedBetterCall, BetterOutcome, Packed,
      LookedFor, Reflective, Fallback;
    SharedBetterPieces(c, d, order);
    h := Packs(f, c, d, args, s, b, Some(t), BetterRest(c, order));
    assert Receiver(Some(t)) + args == [t] + args;
    StraightPaths(c, order);
    HoldsCells(d, args, |s.heap|, h);
    if f {
      OriginalsHeld(c, d, args, |s.heap|, h);
      FoundRuns(c, order, s, b, t, args, h);
    } else {
      NotFoundRuns(c, order, s, b, t, h);
      if forall i | 0 <= i < c.N() :: SameCell(c, d, i) {
        var e := DisguisedAs(c, d);
        forall i | 0 <= i < c.N() ensures CellHolds(e, args, i, |s.heap|, h) { CellFits(c, d, args, i, |s.heap|, h); }
        HandlerRuns(c, e, order, s, b, t, args, h);
      } else {
        var k := FirstMisfit(c, d);
        HandlerFails(c, d, order, s, b, t, args, h, k);
      }
    }
  }

  ghost predicate BetterAsOwn(f: bool, c: Context, d: Context, order: seq<nat>,
      s: State, b: seq<Val>, t: Val, args: seq<Val>)
    requires c.Valid() && |args| == c.N() && ListsArrays(c, order)
  {
    var after := Run(f, SharedBetterCall(c, d, order), On(s, b, [t] + args));
    exists h :: s.heap <= h && after == Some(BetterOutcome(f, c, c, order, s, b, t, args, h))
  }

  /** The same where the instrumented method is tried first: if it is found, any site's conversion method will do. */
  lemma SharedBetterExactly(f: bool, c: Context, d: Context, order: seq<nat>, s: State, b: seq<Val>, t: Val,
      args: seq<Val>)
    requires SameArguments(c, d) && WellTypedArguments(c, args) && ListsArrays(c, order) && HasTarget(c.opcode)
      && !Wide(t)
    ensures |args| == c.N() == d.N()
    ensures BetterAsOwn(f, c, d, order, s, b, t, args) <==> (f || forall i | 0 <= i < c.N() :: Compatible(c, d, i))
  {
    hide Run, SameCell, Map, Wide, SharedBetterCall, BetterOutcome, JavaArguments, PlainObject;
    var e := DisguisedAs(c, d);
    var h := SharedBetterRuns(f, c, d, order, s, b, t, args);
    if !f {
      if forall i | 0 <= i < c.N() :: SameCell(c, d, i) {
        assert forall i | 0 <= i < c.N() ::
          Compatible(c, d, i) <==> (PlainObject(c.OutArgs()[i]) ==> c.disguised == e.disguised);
        PassedExactly(c, e, args);
        if JavaArguments(c, args) == JavaArguments(e, args) {
          SameBetterOutcome(c, e, order, s, b, t, args, h);
        }
        forall h' | BetterOutcome(false, c, e, order, s, b, t, args, h)
          == BetterOutcome(false, c, c, order, s, b, t, args, h')
          ensures JavaArguments(c, args) == JavaArguments(e, args)
        {
          BetterOutcomeTells(c, e, order, s, b, t, args, h, h');
        }
      } else {
        var k :| 0 <= k < c.N() && !SameCell(c, d, k);
        assert !Compatible(c, d, k);
      }
    }
  }

  lemma SameBetterOutcome(c: Context, e: Context, order: seq<nat>,
      s: State, b: seq<Val>, t: Val, args: seq<Val>, h: seq<seq<Val>>)
    requires Alike(c, e) && c.Valid() && e.Valid() && |args| == c.N() && ListsArrays(c, order)
    requires JavaArguments(c, args) == JavaArguments(e, args)
    ensures BetterOutcome(false, c, e, order, s, b, t, args, h) == BetterOutcome(false, c, c, order, s, b, t, args, h)
  {
    hide JavaArguments, Merging, Delivered, JavaTarget;
    SamePassedSameMerged(c, e, args, order);
  }

  lemma BetterOutcomeTells(c: Context, e: Context, order: seq<nat>,
      s: State, b: seq<Val>, t: Val, args: seq<Val>, h: seq<seq<Val>>, h': seq<seq<Val>>)
    requires Alike(c, e) && c.Valid() && e.Valid() && |args| == c.N() && ListsArrays(c, order)
    requires BetterOutcome(false, c, e, order, s, b, t, args, h) == BetterOutcome(false, c, c, order, s, b, t, args, h')
    ensures JavaArguments(c, args) == JavaArguments(e, args)
  {
    hide JavaArguments, Merging, Delivered, JavaTarget, CallLog;
    LogTells(c, Some(JavaTarget(c, t)), JavaArguments(e, args), JavaArguments(c, args),
      s.log + [LookedUp(t, c.name, CojacDescriptor(c))], Merging(e, args, order), Merging(c, args, order));
  }

  //---------------------------------------------------------------- two sites

  function StaticCall(name: string, arg: JType): Context {
    Context(INVOKESTATIC, Obj("Site"), name, MethodType([arg], Void), false)
  }

  /** A call of f(float[]), after one of g(Float[]), casts the Float[] that it is given to float[], and stops. */
  lemma ArraysOfFloatStop(f: bool, s: State, b: seq<Val>, id: nat)
    ensures var c, d := StaticCall("f", Arr(1, Prim(FLOAT))), StaticCall("g", Arr(1, FLOAT_CLASS));
      Run(f, SharedDirectCall(c, d, [0]), On(s, b, [Ext(Arr(1, FLOAT_WRAPPER), id)])) == None
  {
    hide Run, SharedDirectCall, DirectOutcome;
    var c, d, v := StaticCall("f", Arr(1, Prim(FLOAT))), StaticCall("g", Arr(1, FLOAT_CLASS)),
      Ext(Arr(1, FLOAT_WRAPPER), id);
    assert c.InArgs() == [Arr(1, FLOAT_WRAPPER)] == d.InArgs();
    assert Map(TypeOf, [v]) == c.InArgs();
    var h := SharedDirectRuns(f, c, d, [0], s, b, None, [v]);
    assert !SameCell(c, d, 0);
    assert Receiver(None) + [v] == [v];
  }

  /** f(float) after g(Float) is called with the float itself. */
  lemma FloatsPass(f: bool, s: State, b: seq<Val>, id: nat) returns (h: seq<seq<Val>>)
    ensures var c, d, v := StaticCall("f", Prim(FLOAT)), StaticCall("g", FLOAT_CLASS), Ext(FLOAT_WRAPPER, id);
      Run(f, SharedDirectCall(c, d, []), On(s, b, [v]))
      == Some(On(s.(heap := h, log := s.log + [Called(c, None, [Converted(ToFloat, 0, v)])]), b, []))
  {
    hide Run, SharedDirectCall;
    var c, d, v := StaticCall("f", Prim(FLOAT)), StaticCall("g", FLOAT_CLASS), Ext(FLOAT_WRAPPER, id);
    assert c.InArgs() == [FLOAT_WRAPPER] == d.InArgs();
    assert Map(TypeOf, [v]) == c.InArgs();
    h := SharedDirectRuns(f, c, d, [], s, b, None, [v]);
    assert SameCell(c, d, 0);
    assert Receiver(None) + [v] == [v];
    FloatPassed(c, d, s, b, v, h);
  }

  lemma FloatPassed(c: Context, d: Context, s: State, b: seq<Val>, v: Val, h: seq<seq<Val>>)
    requires c == StaticCall("f", Prim(FLOAT)) && d == StaticCall("g", FLOAT_CLASS)
    ensures DirectOutcome(c, DisguisedAs(c, d), [], s, b, None, [v], h)
      == On(s.(heap := h, log := s.log + [Called(c, None, [Converted(ToFloat, 0, v)])]), b, [])
  {
    var e := DisguisedAs(c, d);
    assert JavaArguments(e, [v]) == [Converted(ToFloat, 0, v)];
    assert Merging(e, [v], []) == [];
  }
}

/**
 What the analyzer that follows the rewriter knows, against the types of the original code.
 The rewriter looks at nothing but the top of the analyzer's stack.
 */
module AnalyzerTracking {
  import opened Collections
  import opened OperandStack
  import opened Opcodes
  import opened Jvm
  import opened Analyzer
  import opened AnalyzerSlots
  import opened FloatVariablesSorter
  import opened FloatReplacement
  import opened StackRewriting
  import opened LocalVariables

  /** The new code reads doubles and references with ALOAD: the analyzer has to have a wrapper for the former, and none
      for the latter. */
  predicate Known(params: seq<Ty>, L: map<int, Ty>, v: int, A: map<int, Ty>)
    requires v in L
  {
    && (L[v] == TDouble ==> Usable(params, v) && HasWrapper(A, Renumber(params, v)))
    && (L[v] == TRef ==> !HasWrapper(A, Renumber(params, v)))
  }

  ghost predicate AllKnown(params: seq<Ty>, L: map<int, Ty>, A: map<int, Ty>) {
    forall v | v in L :: Known(params, L, v, A)
  }

  //---------------------------------------------------------------- well-typed bodies

  predicate SourceTy(t: Ty) { t in {TInt, TLong, TDouble, TRef} }

  predicate TopTypes(s: seq<Ty>, ts: seq<Ty>) { |ts| <= |s| && s[|s| - |ts|..] == ts }

  predicate Included(L: map<int, Ty>, K: map<int, Ty>) { forall v | v in L :: v in K && K[v] == L[v] }

  predicate FitsFrame(f: Insn, t: TypeState)
    requires f.Frame?
  {
    t.stack == f.stack && Included(LayOutTypes(f.locals, 0), t.locals)
  }

  /** A jump lands on a frame that describes the state it comes from. */
  predicate JumpFits(m: Method, target: nat, t: TypeState) {
    var p := FindLabel(m.code, target);
    p + 1 < |m.code| && m.code[p + 1].Frame? && FitsFrame(m.code[p + 1], t)
  }

  /** The verifier's rule for instruction `i`, given the types before it. */
  predicate Accepts(p: Program, m: Method, i: nat, t: TypeState)
    requires i < |m.code|
  {
    match m.code[i]
    case Stack(op) => Shuffle(op, t.stack, WideTy).Some?
    case Calc(op) => TopTypes(t.stack, SignatureOf(op).args)
    case InvokeWrapper(_) => false
    case Const(c) => c.Int? || c.Long? || c.Double?
    case Ldc(c) => c.Int? || c.Long? || c.Double?
    case Load(kind, slot) => SourceTy(kind) && 0 <= slot && slot in t.locals && t.locals[slot] == kind
    case Store(kind, slot) => SourceTy(kind) && 0 <= slot && TopTypes(t.stack, [kind])
    case Iinc(slot, _) => 0 <= slot && slot in t.locals && t.locals[slot] == TInt
    case If(_, l) => TopTypes(t.stack, [TInt]) && JumpFits(m, l, t.(stack := t.stack[..|t.stack| - 1]))
    case Goto(l) => JumpFits(m, l, t)
    case Label(_) => true
    case Frame(_, _) => FitsFrame(m.code[i], t)
    case Return(r) => r == m.desc.ret && (r.Some? ==> TopTypes(t.stack, [r.value]))
    case Invoke(op, name, desc) =>
      name in p && p[name].desc == desc && (desc.hasTarget <==> HasTarget(op)) && TopTypes(t.stack, Params(desc))
    case InvokeProxied(_, _) => false
  }

  predicate SourceTypes(ts: seq<Ty>) { forall t | t in ts :: SourceTy(t) }

  predicate SourceDescriptor(d: Descriptor) {
    SourceTypes(d.args) && (d.ret.Some? ==> SourceTy(d.ret.value))
  }

  predicate SourceFrame(f: Insn)
    requires f.Frame?
  {
    SourceTypes(f.stack) && forall t | t in f.locals :: SourceTy(t) || t == TTop
  }

  /** A body that the verifier accepts and that cannot be left by falling off its end. */
  ghost predicate WellTyped(p: Program, m: Method) {
    && SourceDescriptor(m.desc)
    && TypeAt(m, |m.code|).None?
    && (forall i | 0 <= i < |m.code| && TypeAt(m, i).Some? :: Accepts(p, m, i, TypeAt(m, i).value))
    && (forall f | f in m.code && f.Frame? :: SourceFrame(f))
  }

  //---------------------------------------------------------------- the fragment that is rewritten correctly

  /** A frame's doubles keep their numbers when the analyzer lays its entries out again. */
  predicate Aligned(params: seq<Ty>, locals: seq<Ty>) {
    forall k | 0 <= k < |locals| && locals[k] == TDouble ::
      NewSize(locals[..k]) == Renumber(params, OldSize(locals[..k]))
  }

  /** What the analyzer knows before a proxied call will stay right: under the operands it has no wide entry above a
      wrapper, and of the variables no wide one below a wrapper. */
  predicate ProxyKeeps(known: Analysis, desc: Descriptor) {
    var n := |Slots(Params(ImageDescriptor(desc)))|;
    n <= |known.slots| ==> NoWideAbove(known.slots[..|known.slots| - n]) && NoWideBelow(known.locals)
  }

  predicate Covered(p: Program, m: Method, i: nat)
    requires i < |m.code|
  {
    var t := TypeAt(m, i);
    match m.code[i]
    case Stack(op) => t.Some? ==> !DigsUnderTop(op, t.value.stack)
    case Store(kind, slot) => t.Some? ==> StoreAllowed(Params(m.desc), kind, slot)
    case Iinc(slot, _) => Usable(Params(m.desc), slot)
    case Frame(locals, _) => Aligned(Params(m.desc), locals)
    case Invoke(op, name, desc) =>
      op == INVOKEVIRTUAL && MentionsDouble(desc) ==>
        && (name in p ==> p[name].isPublic)
        && (Rewriting(m, i).known.Some? ==> ProxyKeeps(Rewriting(m, i).known.value, desc))
    case _ => true
  }

  /** Every instruction of the body is one that the rewriter handles. */
  ghost predicate InFragment(p: Program, m: Method) {
    forall i | 0 <= i < |m.code| :: Covered(p, m, i)
  }

  //---------------------------------------------------------------- frames

  lemma {:induction false} FrameKeys(ts: seq<Ty>, slot: int, v: int)
    ensures v in LayOutTypes(ts, slot) <==>
      ParamAt(ts, v - slot).Some? && ts[ParamAt(ts, v - slot).value] != TTop
    ensures v in LayOutTypes(ts, slot) ==> LayOutTypes(ts, slot)[v] == ts[ParamAt(ts, v - slot).value]
  {
    if ts != [] {
      FrameKeys(ts[1..], slot + Size(ts[0]), v);
      if v == slot { assert v !in LayOutTypes(ts[1..], slot + Size(ts[0])); }
    }
  }

  /** Where the analyzer finds entry `k` of a frame whose doubles have become wrappers. */
  lemma FrameEntry(locals: seq<Ty>, k: nat)
    requires k < |locals| && locals[k] != TTop
    ensures NewSize(locals[..k]) in LayOutTypes(Map(ImageTy, locals), 0)
    ensures LayOutTypes(Map(ImageTy, locals), 0)[NewSize(locals[..k])] == ImageTy(locals[k])
  {
    var image := Map(ImageTy, locals);
    NewIsOldOfImage(locals[..k]);
    assert image[..k] == Map(ImageTy, locals[..k]);
    ParamAtStart(image, k);
    FrameKeys(image, 0, NewSize(locals[..k]));
  }

  lemma AlignedIsKnown(params: seq<Ty>, locals: seq<Ty>)
    requires Aligned(params, locals) && TWrapper !in locals
    ensures AllKnown(params, LayOutTypes(locals, 0), LayOutTypes(Map(ImageTy, locals), 0))
  {
    hide Renumber, ParamAt, Map;
    var L, A := LayOutTypes(locals, 0), LayOutTypes(Map(ImageTy, locals), 0);
    forall v | v in L
      ensures Known(params, L, v, A)
    {
      FrameKeys(locals, 0, v);
      var k := ParamAt(locals, v).value;
      UsableRenumber(params, v);
      if locals[k] == TDouble {
        FrameEntry(locals, k);
      } else if HasWrapper(A, Renumber(params, v)) {
        var j := NewFrameEntry(locals, Renumber(params, v));
        AlignedApart(params, locals, j, k);
      }
    }
  }

  /** Entries of an aligned frame that are not doubles are found elsewhere than the doubles. */
  lemma AlignedApart(params: seq<Ty>, locals: seq<Ty>, j: nat, k: nat)
    requires Aligned(params, locals) && j < |locals| && k < |locals| && locals[j] == TDouble != locals[k]
    ensures NewSize(locals[..j]) != Renumber(params, OldSize(locals[..k]))
  {
    hide Renumber;
    var u, v := OldSize(locals[..j]), OldSize(locals[..k]);
    UsableRenumber(params, u);
    UsableRenumber(params, v);
    if j < k { SizesGrow(locals, j, k); } else { SizesGrow(locals, k, j); }
    if Usable(params, v) {
      if u < v { RenumberSpacing(params, u, v); } else { RenumberSpacing(params, v, u); }
    }
  }

  lemma NewFrameEntry(locals: seq<Ty>, z: int) returns (j: nat)
    requires HasWrapper(LayOutTypes(Map(ImageTy, locals), 0), z) && TWrapper !in locals
    ensures j < |locals| && locals[j] == TDouble && NewSize(locals[..j]) == z
  {
    var image := Map(ImageTy, locals);
    FrameKeys(image, 0, z);
    j := ParamAt(image, z).value;
    assert image[..j] == Map(ImageTy, locals[..j]) && locals[j] in locals;
    NewIsOldOfImage(locals[..j]);
  }

  lemma StartRenumbered(params: seq<Ty>, k: nat)
    requires k < |params|
    ensures Renumber(params, OldSize(params[..k])) == NewSize(params[..k])
  {
    StartsMove(params, k);
  }

  lemma ParamsAligned(params: seq<Ty>)
    ensures Aligned(params, params)
  {
    hide Renumber;
    forall k | 0 <= k < |params| ensures NewSize(params[..k]) == Renumber(params, OldSize(params[..k])) {
      StartRenumbered(params, k);
    }
  }

  /** A frame leaves the analyzer with what it has to know exactly when its doubles keep their numbers. */
  lemma FrameExact(params: seq<Ty>, locals: seq<Ty>)
    requires TWrapper !in locals
    ensures AllKnown(params, LayOutTypes(locals, 0), LayOutTypes(Map(ImageTy, locals), 0)) <==> Aligned(params, locals)
  {
    hide AllKnown, LayOutTypes, Map, Renumber;
    if Aligned(params, locals) {
      AlignedIsKnown(params, locals);
    } else if AllKnown(params, LayOutTypes(locals, 0), LayOutTypes(Map(ImageTy, locals), 0)) {
      forall k | 0 <= k < |locals| && locals[k] == TDouble
        ensures NewSize(locals[..k]) == Renumber(params, OldSize(locals[..k]))
      {
        NotBelow(params, locals, k);
        NotAbove(params, locals, k);
      }
    }
  }

  /** A known double is found at the new place of some double. */
  lemma FoundAt(params: seq<Ty>, locals: seq<Ty>, k: nat) returns (j: nat)
    requires AllKnown(params, LayOutTypes(locals, 0), LayOutTypes(Map(ImageTy, locals), 0)) && TWrapper !in locals
    requires k < |locals| && locals[k] == TDouble
    ensures j < |locals| && locals[j] == TDouble && NewSize(locals[..j]) == Renumber(params, OldSize(locals[..k]))
    ensures Usable(params, OldSize(locals[..k]))
  {
    hide Renumber, Usable, Map;
    var v := OldSize(locals[..k]);
    ParamAtStart(locals, k);
    FrameKeys(locals, 0, v);
    assert Known(params, LayOutTypes(locals, 0), v, LayOutTypes(Map(ImageTy, locals), 0));
    j := NewFrameEntry(locals, Renumber(params, v));
  }

  lemma {:induction false} NotBelow(params: seq<Ty>, locals: seq<Ty>, k: nat)
    requires AllKnown(params, LayOutTypes(locals, 0), LayOutTypes(Map(ImageTy, locals), 0)) && TWrapper !in locals
    requires k < |locals| && locals[k] == TDouble
    ensures NewSize(locals[..k]) <= Renumber(params, OldSize(locals[..k]))
    decreases k
  {
    hide AllKnown, LayOutTypes, Map, Renumber, Usable;
    var j := FoundAt(params, locals, k);
    if j < k {
      NotBelow(params, locals, j);
      var i := FoundAt(params, locals, j);
      SizesGrow(locals, j, k);
      RenumberSpacing(params, OldSize(locals[..j]), OldSize(locals[..k]));
    } else {
      SizesGrow(locals, k, j);
    }
  }

  lemma {:induction false} NotAbove(params: seq<Ty>, locals: seq<Ty>, k: nat)
    requires AllKnown(params, LayOutTypes(locals, 0), LayOutTypes(Map(ImageTy, locals), 0)) && TWrapper !in locals
    requires k < |locals| && locals[k] == TDouble
    ensures Renumber(params, OldSize(locals[..k])) <= NewSize(locals[..k])
    decreases |locals| - k
  {
    hide AllKnown, LayOutTypes, Map, Renumber, Usable;
    var j := FoundAt(params, locals, k);
    if k < j {
      NotAbove(params, locals, j);
      var i := FoundAt(params, locals, j);
      SizesGrow(locals, k, j);
      RenumberSpacing(params, OldSize(locals[..k]), OldSize(locals[..j]));
    } else {
      SizesGrow(locals, j, k);
    }
  }

  lemma {:induction false} SizesDiffer(ts: seq<Ty>)
    ensures NewSize(ts) == OldSize(ts) <==> TDouble !in ts
  {
    if ts != [] { SizesDiffer(ts[1..]); }
  }

  /** Some double after the parameters has a double before it. */
  predicate Shifted(params: seq<Ty>, locals: seq<Ty>) {
    exists k | |params| <= k < |locals| :: locals[k] == TDouble && TDouble in locals[..k]
  }

  /** So a frame that still starts with the parameters is right exactly when no double of the body has one before it:
      the new frame has one slot less for each double, but the variables of the body keep their numbers. */
  lemma AlignedExactly(params: seq<Ty>, locals: seq<Ty>)
    requires params <= locals
    ensures Aligned(params, locals) <==> !Shifted(params, locals)
  {
    hide Renumber;
    forall k | 0 <= k < |locals|
      ensures k < |params| ==> NewSize(locals[..k]) == Renumber(params, OldSize(locals[..k]))
      ensures |params| <= k ==>
        (NewSize(locals[..k]) == Renumber(params, OldSize(locals[..k])) <==> TDouble !in locals[..k])
    {
      if k < |params| {
        assert locals[..k] == params[..k];
        StartRenumbered(params, k);
      } else {
        BodyVariable(params, locals, k);
        SizesDiffer(locals[..k]);
      }
    }
  }

  lemma BodyVariable(params: seq<Ty>, locals: seq<Ty>, k: nat)
    requires params <= locals && |params| <= k < |locals|
    ensures Renumber(params, OldSize(locals[..k])) == OldSize(locals[..k])
  {
    if params != [] {
      SizesGrow(locals, |params| - 1, k);
      assert locals[..|params| - 1] == params[..|params| - 1];
    }
  }

  //---------------------------------------------------------------- tracking

  ghost predicate PlainLocals(L: map<int, Ty>) { forall v | v in L :: SourceTy(L[v]) }

  /** The analyzer has wrappers where the image of the original stack has them, and knows the variables. */
  ghost predicate Tracks(params: seq<Ty>, t: TypeState, known: Option<Analysis>) {
    && known.Some?
    && LooksLike(known.value.slots, Slots(Map(ImageTy, t.stack)))
    && AllKnown(params, t.locals, known.value.locals)
    && SourceTypes(t.stack)
    && PlainLocals(t.locals)
  }

  lemma ObserveOne(x: Insn, known: Option<Analysis>)
    ensures ObserveAll([x], known) == Observe(x, known)
  {
    assert [x][1..] == [];
  }

  lemma ObserveTwo(x: Insn, y: Insn, known: Option<Analysis>)
    ensures ObserveAll([x, y], known) == Observe(y, Observe(x, known))
  {
    assert [x, y][1..] == [y];
    ObserveOne(y, Observe(x, known));
  }

  /** On top there is a wrapper just where the original has a double. */
  lemma TopTracked(params: seq<Ty>, t: TypeState, known: Option<Analysis>)
    requires Tracks(params, t, known)
    ensures StackTop(known) == Some(TWrapper) <==> TopOf(Map(ImageTy, t.stack)) == Some(TWrapper)
  {
    hide Map;
    var image := Map(ImageTy, t.stack);
    assert StackTop(known) == Some(TWrapper) <==> WrapperAt(known.value.slots, 0);
    if t.stack != [] {
      assert image == image[..|image| - 1] + [image[|image| - 1]];
      SlotsSnoc(image[..|image| - 1], image[|image| - 1]);
    }
    assert WrapperAt(Slots(image), 0) <==> TopOf(image) == Some(TWrapper);
  }

  /** Storing keeps what is known about the other variables, whatever type the analyzer takes for the stored one. */
  lemma StoreKnown(params: seq<Ty>, L: map<int, Ty>, A: map<int, Ty>, v: int, t: Ty, x: Ty)
    requires AllKnown(params, L, A) && StoreAllowed(params, t, v) && SourceTy(t) && (x == TWrapper <==> t == TDouble)
    ensures AllKnown(params, StoreAt(L, v, t, WideTy), StoreLocals(A, WideTy(ReferenceKind(t)), Renumber(params, v), x))
  {
    hide Renumber, StoreLocals, HasWrapper;
    var L1, wide := StoreAt(L, v, t, WideTy), WideTy(ReferenceKind(t));
    var A1 := StoreLocals(A, wide, Renumber(params, v), x);
    StoreWrappers(A, wide, Renumber(params, v), x);
    UsableRenumber(params, v);
    forall u | u in L1 ensures Known(params, L1, u, A1) {
      if u != v {
        assert u in L && L1[u] == L[u] && Known(params, L, u, A);
        assert wide ==> u != v + 1;
        UsableRenumber(params, u);
        if Usable(params, u) {
          if u < v { RenumberSpacing(params, u, v); } else { RenumberSpacing(params, v, u); }
        }
      }
    }
  }

  lemma TrackIinc(params: seq<Ty>, t: TypeState, known: Analysis, slot: int)
    requires Tracks(params, t, Some(known)) && Usable(params, slot) && slot in t.locals && t.locals[slot] == TInt
    ensures Tracks(params, t.(locals := t.locals[slot := TInt]),
      Some(known.(locals := known.locals[Renumber(params, slot) := TInt])))
  {
    hide LooksLike, Renumber;
    UsableRenumber(params, slot);
    forall u | u in t.locals
      ensures Known(params, t.locals, u, known.locals[Renumber(params, slot) := TInt])
    {
      assert Known(params, t.locals, u, known.locals);
      if t.locals[u] == TDouble {
        if u < slot { RenumberSpacing(params, u, slot); } else { RenumberSpacing(params, slot, u); }
      }
    }
    assert t.locals[slot := TInt] == t.locals;
  }

  function ImageOf(t: Option<Ty>): seq<Ty> { if t.Some? then [ImageTy(t.value)] else [] }

  /** Values of known types taken away, and a result put on: the slots of their images. */
  lemma TrackPopPush(params: seq<Ty>, t: TypeState, known: Analysis, args: seq<Ty>, result: Option<Ty>)
    requires Tracks(params, t, Some(known)) && TopTypes(t.stack, args) && (result.Some? ==> SourceTy(result.value))
    ensures Tracks(params, PopPushTypes(t, |args|, result).value,
      PopPushSlots(known, |Slots(Map(ImageTy, args))|, ImageOf(result)))
  {
    hide LooksLike, Slots, Map, AllKnown;
    var below := t.stack[..|t.stack| - |args|];
    SlotsOnTop(known.slots, t.stack, args);
    var n := |known.slots| - |Slots(Map(ImageTy, args))|;
    AtLeast(known.slots, Slots(Map(ImageTy, t.stack)));
    SlotsPushed(known.slots[..n], below, ImageOf(result));
    var t1 := PopPushTypes(t, |args|, result).value;
    assert Map(ImageTy, t1.stack) == Map(ImageTy, below) + ImageOf(result) by { ImagePushed(below, result); }
    forall x | x in t1.stack ensures SourceTy(x) {
      assert x in t.stack || (result.Some? && x == result.value);
    }
  }

  lemma ImagePushed(below: seq<Ty>, result: Option<Ty>)
    ensures Map(ImageTy, below + (if result.Some? then [result.value] else [])) == Map(ImageTy, below) + ImageOf(result)
  {
  }

  lemma SlotsOnTop(s: seq<Ty>, stack: seq<Ty>, args: seq<Ty>)
    requires TopTypes(stack, args) && LooksLike(s, Slots(Map(ImageTy, stack)))
    ensures |Slots(Map(ImageTy, args))| <= |Slots(Map(ImageTy, stack))|
    ensures |Slots(Map(ImageTy, args))| <= |s|
    ensures LooksLike(s[..|s| - |Slots(Map(ImageTy, args))|], Slots(Map(ImageTy, stack[..|stack| - |args|])))
  {
    hide LooksLike, Slots;
    var image, n := Map(ImageTy, stack), |stack| - |args|;
    assert image[n..] == Map(ImageTy, args) && image[..n] == Map(ImageTy, stack[..n]);
    SlotsBelow(image, n);
    AtLeast(s, Slots(image));
    PopKeeps(s, Slots(image), |Slots(image[n..])|);
  }

  lemma SlotsPushed(s: seq<Ty>, below: seq<Ty>, x: seq<Ty>)
    requires LooksLike(s, Slots(Map(ImageTy, below)))
    ensures LooksLike(s + Slots(x), Slots(Map(ImageTy, below) + x))
  {
    hide LooksLike, Slots;
    SlotsAppend(Map(ImageTy, below), x);
    PushKeeps(s, Slots(Map(ImageTy, below)), Slots(x), Slots(x));
  }

  lemma PlainAfterShuffle(op: StackOp, s: seq<Ty>)
    requires SourceTypes(s)
    ensures Shuffle(op, s, WideTy).Some? ==> SourceTypes(Shuffle(op, s, WideTy).value)
  {
    hide Map, PlanFor, Perform;
    if Shuffle(op, s, WideTy).Some? {
      var p := PlanOn(op, Map(WideTy, s)).value;
      forall i | 0 <= i < |Perform(p, s)| ensures Perform(p, s)[i] in s { PerformElement(p, s, i); }
    }
  }

  lemma PerformElement(p: Plan, s: seq<Ty>, i: nat)
    requires ValidPlan(p) && p.depth <= |s| && i < |Perform(p, s)|
    ensures Perform(p, s)[i] in s
  {
    hide Perform;
    var base := |s| - p.depth;
    if i >= base {
      assert Perform(p, s)[base + (i - base)] == s[base + p.picks[i - base]];
    } else {
      assert Perform(p, s)[i] == s[i];
    }
  }

  /** Emitting the code for `insn` moves the analyzer as `insn` itself moves the types. */
  ghost predicate Follows(params: seq<Ty>, insn: Insn, t: TypeState, known: Analysis) {
    Analyze(insn, Some(t)).Some? ==> Tracks(params, Analyze(insn, Some(t)).value,
      ObserveAll(Emitted(params, insn, StackTop(Some(known))), Some(known)))
  }

  lemma FollowsOne(params: seq<Ty>, insn: Insn, t: TypeState, known: Analysis, x: Insn)
    requires Emitted(params, insn, StackTop(Some(known))) == [x]
    requires Analyze(insn, Some(t)).Some? ==> Tracks(params, Analyze(insn, Some(t)).value, Observe(x, Some(known)))
    ensures Follows(params, insn, t, known)
  {
    ObserveOne(x, Some(known));
  }

  lemma TrackStack(params: seq<Ty>, op: StackOp, t: TypeState, known: Analysis)
    requires Tracks(params, t, Some(known)) && !DigsUnderTop(op, t.stack) && Shuffle(op, t.stack, WideTy).Some?
    ensures Follows(params, Stack(op), t, known)
  {
    hide PlanFor, AllKnown, PlainLocals, DigsUnderTop, Map, Perform, LooksLike, Slots;
    var image := Map(ImageTy, t.stack);
    SourceStack(t.stack);
    SamePlan(op, t.stack);
    PerformMap(ImageTy, PlanOn(op, Map(WideTy, t.stack)).value, t.stack);
    PlainAfterShuffle(op, t.stack);
    TopTracked(params, t, Some(known));
    var op' := RewrittenOp(op, image);
    ShuffleKeeps(op', known.slots, image);
    FollowsOne(params, Stack(op), t, known, Stack(op'));
  }

  lemma SourceStack(ts: seq<Ty>)
    requires SourceTypes(ts)
    ensures PlainStack(ts)
  {
  }

  lemma SignatureIsSource(op: CalcOp)
    ensures SourceTypes(SignatureOf(op).args) && SourceTy(SignatureOf(op).result)
    ensures !IsDoubleOp(op) ==> ImageTy(SignatureOf(op).result) == SignatureOf(op).result
    ensures !IsDoubleOp(op) ==> Map(ImageTy, SignatureOf(op).args) == SignatureOf(op).args
  {
  }

  lemma TrackCalc(params: seq<Ty>, op: CalcOp, t: TypeState, known: Analysis)
    requires Tracks(params, t, Some(known)) && TopTypes(t.stack, SignatureOf(op).args)
    ensures Follows(params, Calc(op), t, known)
  {
    hide Map, Tracks, Slots, SignatureOf;
    SignatureIsSource(op);
    TrackPopPush(params, t, known, SignatureOf(op).args, Some(SignatureOf(op).result));
    FollowsOne(params, Calc(op), t, known, if IsDoubleOp(op) then InvokeWrapper(Operation(op)) else Calc(op));
  }

  lemma TrackConstant(params: seq<Ty>, insn: Insn, t: TypeState, known: Analysis)
    requires Tracks(params, t, Some(known)) && (insn.Const? || insn.Ldc?) && SourceTy(TypeOf(insn.c))
    ensures Follows(params, insn, t, known)
  {
    hide Map, Tracks, Shuffle, StoreAt, Slots;
    NoSlots();
    assert Map(ImageTy, []) == [] && t.stack[|t.stack|..] == [];
    TrackPopPush(params, t, known, [], Some(TypeOf(insn.c)));
    if insn.c.Double? {
      ObserveWrapped(insn, known);
      assert Emitted(params, insn, StackTop(Some(known))) == [insn, InvokeWrapper(FromDouble)];
    } else {
      FollowsOne(params, insn, t, known, insn);
    }
  }

  lemma ObserveWrapped(insn: Insn, known: Analysis)
    requires (insn.Const? || insn.Ldc?) && insn.c.Double?
    ensures ObserveAll([insn, InvokeWrapper(FromDouble)], Some(known)) == PopPushSlots(known, 0, [TWrapper])
  {
    hide Map, Shuffle, SignatureOf, LayOutTypes, ObserveAll, Slots;
    ObserveTwo(insn, InvokeWrapper(FromDouble), Some(known));
    var s, d := known.slots, Slots([TDouble]);
    assert s[..|s| - 0] == s && (s + d)[..|s|] == s;
  }

  lemma TrackLoad(params: seq<Ty>, kind: Ty, slot: int, t: TypeState, known: Analysis)
    requires Tracks(params, t, Some(known)) && SourceTy(kind) && slot in t.locals && t.locals[slot] == kind
    ensures Follows(params, Load(kind, slot), t, known)
  {
    hide Map, LooksLike, Slots, AllKnown, Renumber, Usable;
    var z := Renumber(params, slot);
    NoSlots();
    assert Map(ImageTy, []) == [] && t.stack[|t.stack|..] == [];
    TrackPopPush(params, t, known, [], Some(kind));
    if ReferenceKind(kind) == TRef {
      KnownHere(params, t.locals, slot, known.locals);
      var x := if z in known.locals then known.locals[z] else TTop;
      ImagePushed(t.stack, Some(kind));
      SlotsSnoc(Map(ImageTy, t.stack), ImageTy(kind));
      PushKeeps(known.slots, Slots(Map(ImageTy, t.stack)), [x], [ImageTy(kind)]);
      assert t.stack[..|t.stack| - 0] == t.stack;
    }
    FollowsOne(params, Load(kind, slot), t, known, Load(ReferenceKind(kind), z));
  }

  lemma KnownHere(params: seq<Ty>, L: map<int, Ty>, v: int, A: map<int, Ty>)
    requires AllKnown(params, L, A) && v in L
    ensures Known(params, L, v, A)
  {
  }

  lemma TrackStore(params: seq<Ty>, kind: Ty, slot: int, t: TypeState, known: Analysis)
    requires Tracks(params, t, Some(known)) && StoreAllowed(params, kind, slot)
    requires SourceTy(kind) && TopTypes(t.stack, [kind])
    ensures Follows(params, Store(kind, slot), t, known)
  {
    hide Map, LooksLike, Slots, AllKnown, StoreAllowed, Renumber, StoreLocals, StoreAt;
    var n := |known.slots| - Size(ReferenceKind(kind));
    StoredType(known.slots, t.stack, kind);
    StoreKnown(params, t.locals, known.locals, slot, kind, known.slots[n]);
    TrackPopPush(params, t, known, [kind], None);
    NoSlots();
    assert known.slots[..n] + [] == known.slots[..n] && t.stack[..|t.stack| - 1] + [] == t.stack[..|t.stack| - 1];
    PlainAfterStore(t.locals, slot, kind);
    FollowsOne(params, Store(kind, slot), t, known, Store(ReferenceKind(kind), Renumber(params, slot)));
  }

  /** Where a store looks there is a wrapper just for a double. */
  lemma StoredType(s: seq<Ty>, stack: seq<Ty>, kind: Ty)
    requires LooksLike(s, Slots(Map(ImageTy, stack))) && TopTypes(stack, [kind]) && SourceTy(kind)
    ensures var n := |s| - Size(ReferenceKind(kind)); 0 <= n && (s[n] == TWrapper <==> kind == TDouble)
    ensures |Slots(Map(ImageTy, [kind]))| == Size(ReferenceKind(kind))
  {
    hide LooksLike, Slots, Map;
    var below, k := Map(ImageTy, stack[..|stack| - 1]), Size(ReferenceKind(kind));
    TopKind(stack, kind);
    var slots := Slots(below) + Block(ImageTy(kind));
    AtLeast(s, slots);
    SameHere(s, slots, k - 1);
    assert slots[|slots| - k] == ImageTy(kind);
  }

  lemma TopKind(stack: seq<Ty>, kind: Ty)
    requires TopTypes(stack, [kind])
    ensures Slots(Map(ImageTy, stack)) == Slots(Map(ImageTy, stack[..|stack| - 1])) + Block(ImageTy(kind))
    ensures Slots(Map(ImageTy, [kind])) == Block(ImageTy(kind))
  {
    hide Slots;
    var n := |stack| - 1;
    assert stack[n..][0] == kind;
    assert Map(ImageTy, stack) == Map(ImageTy, stack[..n]) + [ImageTy(kind)];
    SlotsSnoc(Map(ImageTy, stack[..n]), ImageTy(kind));
    assert Map(ImageTy, [kind]) == [ImageTy(kind)];
    SlotsOfTwo(ImageTy(kind), ImageTy(kind));
  }

  lemma PlainAfterStore(L: map<int, Ty>, slot: int, kind: Ty)
    requires PlainLocals(L) && SourceTy(kind)
    ensures PlainLocals(StoreAt(L, slot, kind, WideTy))
  {
  }

  lemma TrackInvoke(params: seq<Ty>, op: Opcode, name: string, desc: Descriptor, t: TypeState, known: Analysis)
    requires Tracks(params, t, Some(known)) && TopTypes(t.stack, Params(desc)) && SourceDescriptor(desc)
    requires GoesThroughProxy(op, desc) ==> ProxyKeeps(known, desc)
    ensures Follows(params, Invoke(op, name, desc), t, known)
  {
    hide Tracks, ProxyKeeps, ObserveProxied, Slots, Map, Params;
    TrackPopPush(params, t, known, Params(desc), desc.ret);
    ParamsOfImage(desc);
    if GoesThroughProxy(op, desc) {
      ProxiedAsPlain(params, desc, PopPushTypes(t, |Params(desc)|, desc.ret).value, known);
      FollowsOne(params, Invoke(op, name, desc), t, known, InvokeProxied(name, desc));
    } else {
      FollowsOne(params, Invoke(op, name, desc), t, known, Invoke(op, name, ImageDescriptor(desc)));
    }
  }

  lemma ParamsOfImage(desc: Descriptor)
    ensures Params(ImageDescriptor(desc)) == Map(ImageTy, Params(desc))
    ensures Maybe(ImageDescriptor(desc).ret) == ImageOf(desc.ret)
  {
  }

  /** Then the analyzer knows what it would know after a plain call, as far as it is needed. */
  lemma ProxiedAsPlain(params: seq<Ty>, desc: Descriptor, after: TypeState, known: Analysis)
    requires ProxyKeeps(known, desc)
    requires Tracks(params, after,
      PopPushSlots(known, |Slots(Params(ImageDescriptor(desc)))|, Maybe(ImageDescriptor(desc).ret)))
    ensures Tracks(params, after, ObserveProxied(desc, known))
  {
    hide Relocated, PlainLocals, NoWideBelow, NoWideAbove, Slots, Map, Params, LooksLike, Renumber;
    var n := |known.slots| - |Slots(Params(ImageDescriptor(desc)))|;
    var kept, ret := known.slots[..n], Slots(Maybe(ImageDescriptor(desc).ret));
    FramedKeeps(kept, ret, Slots(Map(ImageTy, after.stack)));
    RelocatedExactly(known.locals);
    forall v | v in after.locals ensures Known(params, after.locals, v, Relocated(known.locals)) {
      assert Known(params, after.locals, v, known.locals);
    }
  }

  /** Labels, jumps and returns: the analyzer keeps what it knows, or loses it. */
  lemma TrackControl(params: seq<Ty>, insn: Insn, t: TypeState, known: Analysis)
    requires Tracks(params, t, Some(known)) && (insn.If? ==> TopTypes(t.stack, [TInt]))
    requires insn.Label? || insn.Goto? || insn.Return? || insn.If?
    ensures Follows(params, insn, t, known)
  {
    hide Tracks, Slots, Map;
    if insn.If? {
      assert Map(ImageTy, [TInt]) == [TInt] == [] + [TInt];
      SlotsSnoc([], TInt);
      NoSlots();
      TrackPopPush(params, t, known, [TInt], None);
    }
    if insn.If? || insn.Label? { FollowsOne(params, insn, t, known, insn); }
  }

  lemma TrackCounter(params: seq<Ty>, slot: int, amount: int, t: TypeState, known: Analysis)
    requires Tracks(params, t, Some(known)) && Usable(params, slot) && slot in t.locals && t.locals[slot] == TInt
    ensures Follows(params, Iinc(slot, amount), t, known)
  {
    hide Tracks, AllKnown;
    TrackIinc(params, t, known, slot);
    FollowsOne(params, Iinc(slot, amount), t, known, Iinc(Renumber(params, slot), amount));
  }

  /** One visited instruction of a well-typed body. */
  lemma TrackInsn(p: Program, m: Method, i: nat, t: TypeState, known: Analysis)
    requires i < |m.code| && TypeAt(m, i) == Some(t) && !m.code[i].Frame?
    requires Accepts(p, m, i, t) && Covered(p, m, i) && Rewriting(m, i).known == Some(known)
    requires forall f | f in p :: SourceDescriptor(p[f].desc)
    requires Tracks(Params(m.desc), t, Some(known))
    ensures Follows(Params(m.desc), m.code[i], t, known)
  {
    hide Map, Tracks, Follows, TypeAt, FindLabel, DigsUnderTop, StoreAllowed, SignatureOf;
    var params, insn := Params(m.desc), m.code[i];
    match insn
    case Stack(op) => TrackStack(params, op, t, known);
    case Calc(op) => TrackCalc(params, op, t, known);
    case Const(c) => TrackConstant(params, insn, t, known);
    case Ldc(c) => TrackConstant(params, insn, t, known);
    case Load(kind, slot) => TrackLoad(params, kind, slot, t, known);
    case Store(kind, slot) => TrackStore(params, kind, slot, t, known);
    case Iinc(slot, amount) => TrackCounter(params, slot, amount, t, known);
    case Invoke(op, name, desc) => TrackInvoke(params, op, name, desc, t, known);
    case If(_, _) => TrackControl(params, insn, t, known);
    case Label(_) => TrackControl(params, insn, t, known);
    case Goto(_) => TrackControl(params, insn, t, known);
    case Return(_) => TrackControl(params, insn, t, known);
  }

  /** An aligned frame sets the analyzer right, whatever it knew. */
  lemma TrackFrame(params: seq<Ty>, locals: seq<Ty>, stack: seq<Ty>, before: Option<Analysis>)
    requires Aligned(params, locals) && SourceFrame(Frame(locals, stack))
    ensures Tracks(params, TypeState(stack, LayOutTypes(locals, 0)),
      ObserveAll(Emitted(params, Frame(locals, stack), StackTop(before)), before))
  {
    hide AllKnown, PlainLocals, LayOutTypes, Aligned;
    AlignedIsKnown(params, locals);
    FramePlain(locals);
    var x := Frame(Map(ImageTy, locals), Map(ImageTy, stack));
    assert Emitted(params, Frame(locals, stack), StackTop(before)) == [x];
    ObserveOne(x, before);
  }

  lemma TrackNext(p: Program, m: Method, i: nat)
    requires WellTyped(p, m) && InFragment(p, m) && (forall f | f in p :: SourceDescriptor(p[f].desc))
    requires i < |m.code| && TypeAt(m, i + 1).Some?
    requires TypeAt(m, i).Some? ==> Tracks(Params(m.desc), TypeAt(m, i).value, Rewriting(m, i).known)
    ensures Tracks(Params(m.desc), TypeAt(m, i + 1).value, Rewriting(m, i + 1).known)
  {
    hide Tracks, AllKnown, Emitted, LayOutTypes, SourceFrame, Accepts, ObserveAll, Map;
    var params, before, insn := Params(m.desc), Rewriting(m, i).known, m.code[i];
    assert Covered(p, m, i);
    if insn.Frame? {
      TrackFrame(params, insn.locals, insn.stack, before);
    } else {
      TrackedIsKnown(params, TypeAt(m, i).value, before);
      TrackInsn(p, m, i, TypeAt(m, i).value, before.value);
    }
  }

  lemma TrackedIsKnown(params: seq<Ty>, t: TypeState, known: Option<Analysis>)
    requires Tracks(params, t, known)
    ensures known.Some?
  {
  }

  /** Before every reachable instruction the analyzer knows the image of the original types. */
  lemma {:induction false} Tracking(p: Program, m: Method, i: nat)
    requires WellTyped(p, m) && InFragment(p, m) && (forall f | f in p :: SourceDescriptor(p[f].desc))
    requires i <= |m.code| && TypeAt(m, i).Some?
    ensures Tracks(Params(m.desc), TypeAt(m, i).value, Rewriting(m, i).known)
  {
    hide Tracks, InFragment, Emitted, LayOutTypes, Analyze, ObserveAll, Map, Accepts, SourceFrame, SourceDescriptor;
    if i == 0 {
      StartTracked(m.desc);
    } else {
      if TypeAt(m, i - 1).Some? { Tracking(p, m, i - 1); }
      TrackNext(p, m, i - 1);
    }
  }

  lemma FramePlain(locals: seq<Ty>)
    requires forall t | t in locals :: SourceTy(t) || t == TTop
    ensures PlainLocals(LayOutTypes(locals, 0))
  {
    forall v | v in LayOutTypes(locals, 0) ensures SourceTy(LayOutTypes(locals, 0)[v]) { FrameKeys(locals, 0, v); }
  }

  lemma StartTracked(d: Descriptor)
    requires SourceDescriptor(d)
    ensures Tracks(Params(d), TypeState([], LayOutTypes(Params(d), 0)),
      Some(Analysis([], LayOutTypes(Map(ImageTy, Params(d)), 0))))
  {
    ParamsAligned(Params(d));
    AlignedIsKnown(Params(d), Params(d));
    FramePlain(Params(d));
  }
}

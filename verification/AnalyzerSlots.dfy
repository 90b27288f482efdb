/** Lists of slots against stacks of types: what pops, pushes, rearrangements and frames do to both. */
module AnalyzerSlots {
  import opened Collections
  import opened OperandStack
  import opened Jvm
  import opened Analyzer
  import opened StackRewriting

  lemma SlotsSnoc(a: seq<Ty>, t: Ty)
    ensures Slots(a + [t]) == Slots(a) + (if WideTy(t) then [t, TTop] else [t])
  {
    assert (a + [t])[..|a|] == a;
  }

  lemma {:induction false} SlotsAppend(a: seq<Ty>, b: seq<Ty>)
    ensures Slots(a + b) == Slots(a) + Slots(b)
  {
    if b == [] {
      assert a + b == a;
    } else {
      var n := |b| - 1;
      assert a + b == a + b[..n] + [b[n]] && b == b[..n] + [b[n]];
      SlotsAppend(a, b[..n]);
      SlotsSnoc(a + b[..n], b[n]);
      SlotsSnoc(b[..n], b[n]);
    }
  }

  /** The slots under the topmost elements. */
  lemma SlotsBelow(s: seq<Ty>, n: nat)
    requires n <= |s|
    ensures |Slots(s[n..])| <= |Slots(s)| && Slots(s)[..|Slots(s)| - |Slots(s[n..])|] == Slots(s[..n])
  {
    SlotsAppend(s[..n], s[n..]);
    assert s == s[..n] + s[n..];
  }

  //---------------------------------------------------------------- what keeps wrappers in place

  lemma PopKeeps(s: seq<Ty>, t: seq<Ty>, n: nat)
    requires LooksLike(s, t) && n <= |t|
    ensures LooksLike(s[..|s| - n], t[..|t| - n])
  {
    var x, y := s[..|s| - n], t[..|t| - n];
    forall k ensures WrapperAt(x, k) <==> WrapperAt(y, k) {
      assert WrapperAt(s, k + n) <==> WrapperAt(t, k + n);
    }
  }

  /** New slots on both, with wrappers at the same places. */
  lemma PushKeeps(s: seq<Ty>, t: seq<Ty>, x: seq<Ty>, y: seq<Ty>)
    requires LooksLike(s, t) && |x| == |y| && forall i | 0 <= i < |x| :: x[i] == TWrapper <==> y[i] == TWrapper
    ensures LooksLike(s + x, t + y)
  {
    var u, v := s + x, t + y;
    forall k ensures WrapperAt(u, k) <==> WrapperAt(v, k) {
      assert WrapperAt(s, k - |x|) <==> WrapperAt(t, k - |x|);
    }
  }

  lemma PerformKeeps(p: Plan, s: seq<Ty>, t: seq<Ty>)
    requires ValidPlan(p) && p.depth <= |t| && LooksLike(s, t)
    ensures LooksLike(Perform(p, s), Perform(p, t))
  {
    hide WrapperAt, Perform, LooksLike;
    AtLeast(s, t);
    var m, n, u, v := |s| - p.depth, |t| - p.depth, Perform(p, s), Perform(p, t);
    PopKeeps(s, t, p.depth);
    forall i | 0 <= i < |p.picks| ensures u[m..][i] == TWrapper <==> v[n..][i] == TWrapper {
      SameHere(s, t, p.depth - 1 - p.picks[i]);
      assert u[m + i] == s[m + p.picks[i]] && v[n + i] == t[n + p.picks[i]];
    }
    PushKeeps(s[..m], t[..n], u[m..], v[n..]);
    assert u == s[..m] + u[m..] && v == t[..n] + v[n..];
  }

  lemma SameHere(s: seq<Ty>, t: seq<Ty>, k: nat)
    requires LooksLike(s, t) && k < |t|
    ensures s[|s| - 1 - k] == TWrapper <==> t[|t| - 1 - k] == TWrapper
  {
    assert WrapperAt(s, k) <==> WrapperAt(t, k);
  }

  //---------------------------------------------------------------- rearrangements

  lemma NarrowCells(s: seq<Ty>)
    ensures forall k | k in {0, 1, 2, 3} :: CellAt(Map(OneSlot, s), k) == if k < |s| then Narrow else Absent
  {
  }

  /** The form for slots: it takes away and puts back slots, whatever they hold. */
  lemma OnSlots(op: StackOp, s: seq<Ty>)
    requires |s| >= PlanFor(op, Narrow, Narrow, Narrow, Narrow).value.depth
    ensures Shuffle(op, s, OneSlot) == Some(Perform(PlanFor(op, Narrow, Narrow, Narrow, Narrow).value, s))
  {
    hide Map, CellAt, Perform;
    NarrowCells(s);
  }

  /** These elements on top become those, and so do their slots. */
  ghost predicate Turns(op: StackOp, top: seq<Ty>, after: seq<Ty>) {
    Shuffle(op, top, WideTy) == Some(after) && Shuffle(op, Slots(top), OneSlot) == Some(Slots(after))
  }

  function Block(t: Ty): seq<Ty> { if WideTy(t) then [t, TTop] else [t] }

  lemma NoSlots()
    ensures Slots([]) == []
  {
  }

  lemma SlotsOfTwo(a: Ty, b: Ty)
    ensures Slots([]) == [] && Slots([a]) == Block(a) && Slots([a, b]) == Block(a) + Block(b)
  {
    NoSlots();
    hide Slots;
    assert [a] == [] + [a] && [a, b] == [a] + [b];
    SlotsSnoc([], a);
    SlotsSnoc([a], b);
  }

  lemma SlotsOfThree(a: Ty, b: Ty, c: Ty)
    ensures Slots([a, b, c]) == Block(a) + Block(b) + Block(c)
  {
    hide Slots;
    assert [a, b, c] == [a, b] + [c];
    SlotsOfTwo(a, b);
    SlotsSnoc([a, b], c);
  }

  lemma SlotsJoined(a: seq<Ty>, b: seq<Ty>, s: seq<Ty>)
    requires s == a + b
    ensures Slots(s) == Slots(a) + Slots(b)
  {
    SlotsAppend(a, b);
  }

  lemma {:induction false} NarrowSlots(ts: seq<Ty>)
    requires forall t | t in ts :: !WideTy(t)
    ensures Slots(ts) == ts
  {
    if ts != [] { NarrowSlots(ts[..|ts| - 1]); }
  }

  /** One form of an instruction, for elements and for their slots. */
  lemma Row(
      op: StackOp, top: seq<Ty>, after: seq<Ty>, slots: seq<Ty>, slotsAfter: seq<Ty>, picks: seq<nat>,
      slotPicks: seq<nat>)
    requires PlanOn(op, Widths(top)) == Some(Plan(|top|, picks))
    requires PlanFor(op, Narrow, Narrow, Narrow, Narrow) == Some(Plan(|slots|, slotPicks))
    requires |after| == |picks| && forall i | 0 <= i < |picks| :: after[i] == top[picks[i]]
    requires |slotsAfter| == |slotPicks| && forall i | 0 <= i < |slotPicks| :: slotsAfter[i] == slots[slotPicks[i]]
    requires Slots(top) == slots && Slots(after) == slotsAfter
    ensures Turns(op, top, after)
  {
    hide PlanFor, PlanOn, Slots;
    assert Perform(Plan(|top|, picks), top) == after;
    assert Perform(Plan(|slots|, slotPicks), slots) == slotsAfter;
    OnSlots(op, slots);
  }

  lemma Pop(a: Ty)
    requires !WideTy(a)
    ensures Turns(POP, [a], [])
  {
    hide Perform, Slots, Turns;
    SlotsOfTwo(a, a);
    SlotsOfTwo(TInt, TInt);
    Row(POP, [a], [], [a], [], [], []);
  }

  lemma PopWide(a: Ty)
    requires WideTy(a)
    ensures Turns(POP2, [a], [])
  {
    hide Perform, Slots, Turns;
    SlotsOfTwo(a, a);
    SlotsOfTwo(TInt, TInt);
    Row(POP2, [a], [], [a, TTop], [], [], []);
  }

  lemma PopTwo(a: Ty, b: Ty)
    requires !WideTy(a) && !WideTy(b)
    ensures Turns(POP2, [a, b], [])
  {
    hide Perform, Slots, Turns;
    SlotsOfTwo(a, b);
    SlotsOfTwo(TInt, TInt);
    Row(POP2, [a, b], [], [a, b], [], [], []);
  }

  lemma Dup(a: Ty)
    requires !WideTy(a)
    ensures Turns(DUP, [a], [a, a])
  {
    hide Perform, Slots, Turns;
    SlotsOfTwo(a, a);
    Row(DUP, [a], [a, a], [a], [a, a], [0, 0], [0, 0]);
  }

  lemma DupWide(a: Ty)
    requires WideTy(a)
    ensures Turns(DUP2, [a], [a, a])
  {
    hide Perform, Slots, Turns;
    SlotsOfTwo(a, a);
    Row(DUP2, [a], [a, a], [a, TTop], [a, TTop, a, TTop], [0, 0], [0, 1, 0, 1]);
  }

  lemma DupTwo(a: Ty, b: Ty)
    requires !WideTy(a) && !WideTy(b)
    ensures Turns(DUP2, [a, b], [a, b, a, b])
  {
    hide Perform, Slots, Turns;
    SlotsOfTwo(a, b);
    SlotsJoined([a, b], [a, b], [a, b, a, b]);
    Row(DUP2, [a, b], [a, b, a, b], [a, b], [a, b, a, b], [0, 1, 0, 1], [0, 1, 0, 1]);
  }

  lemma Swap(a: Ty, b: Ty)
    requires !WideTy(a) && !WideTy(b)
    ensures Turns(SWAP, [a, b], [b, a])
  {
    hide Perform, Slots, Turns;
    SlotsOfTwo(a, b);
    SlotsOfTwo(b, a);
    Row(SWAP, [a, b], [b, a], [a, b], [b, a], [1, 0], [1, 0]);
  }

  lemma DupX1(a: Ty, b: Ty)
    requires !WideTy(a) && !WideTy(b)
    ensures Turns(DUP_X1, [a, b], [b, a, b])
  {
    hide Perform, Slots, Turns;
    SlotsOfTwo(a, b);
    SlotsOfThree(b, a, b);
    Row(DUP_X1, [a, b], [b, a, b], [a, b], [b, a, b], [1, 0, 1], [1, 0, 1]);
  }

  lemma DupWideX1(a: Ty, b: Ty)
    requires !WideTy(a) && WideTy(b)
    ensures Turns(DUP2_X1, [a, b], [b, a, b])
  {
    hide Perform, Slots, Turns;
    SlotsOfTwo(a, b);
    SlotsOfThree(b, a, b);
    Row(DUP2_X1, [a, b], [b, a, b], [a, b, TTop], [b, TTop, a, b, TTop], [1, 0, 1], [1, 2, 0, 1, 2]);
  }

  lemma DupOverWide(a: Ty, b: Ty)
    requires WideTy(a) && !WideTy(b)
    ensures Turns(DUP_X2, [a, b], [b, a, b])
  {
    hide Perform, Slots, Turns;
    SlotsOfTwo(a, b);
    SlotsOfThree(b, a, b);
    Row(DUP_X2, [a, b], [b, a, b], [a, TTop, b], [b, a, TTop, b], [1, 0, 1], [2, 0, 1, 2]);
  }

  lemma DupWideOverWide(a: Ty, b: Ty)
    requires WideTy(a) && WideTy(b)
    ensures Turns(DUP2_X2, [a, b], [b, a, b])
  {
    hide Perform, Slots, Turns;
    SlotsOfTwo(a, b);
    SlotsOfThree(b, a, b);
    Row(DUP2_X2, [a, b], [b, a, b], [a, TTop, b, TTop], [b, TTop, a, TTop, b, TTop], [1, 0, 1], [2, 3, 0, 1, 2, 3]);
  }

  lemma DupX2(a: Ty, b: Ty, c: Ty)
    requires !WideTy(a) && !WideTy(b) && !WideTy(c)
    ensures Turns(DUP_X2, [a, b, c], [c, a, b, c])
  {
    hide Perform, Slots, Turns;
    SlotsOfThree(a, b, c);
    SlotsOfTwo(c, a);
    SlotsOfTwo(b, c);
    SlotsJoined([c, a], [b, c], [c, a, b, c]);
    Row(DUP_X2, [a, b, c], [c, a, b, c], [a, b, c], [c, a, b, c], [2, 0, 1, 2], [2, 0, 1, 2]);
  }

  lemma DupWideX2(a: Ty, b: Ty, c: Ty)
    requires !WideTy(a) && !WideTy(b) && WideTy(c)
    ensures Turns(DUP2_X2, [a, b, c], [c, a, b, c])
  {
    hide Perform, Slots, Turns;
    SlotsOfThree(a, b, c);
    SlotsOfTwo(c, a);
    SlotsOfTwo(b, c);
    SlotsJoined([c, a], [b, c], [c, a, b, c]);
    Row(DUP2_X2, [a, b, c], [c, a, b, c], [a, b, c, TTop], [c, TTop, a, b, c, TTop], [2, 0, 1, 2], [2, 3, 0, 1, 2, 3]);
  }

  lemma DupTwoX1(a: Ty, b: Ty, c: Ty)
    requires !WideTy(a) && !WideTy(b) && !WideTy(c)
    ensures Turns(DUP2_X1, [a, b, c], [b, c, a, b, c])
  {
    hide Perform, Slots, Turns;
    SlotsOfThree(a, b, c);
    SlotsOfTwo(b, c);
    SlotsJoined([b, c], [a, b, c], [b, c, a, b, c]);
    Row(DUP2_X1, [a, b, c], [b, c, a, b, c], [a, b, c], [b, c, a, b, c], [1, 2, 0, 1, 2], [1, 2, 0, 1, 2]);
  }

  lemma DupTwoOverWide(a: Ty, b: Ty, c: Ty)
    requires WideTy(a) && !WideTy(b) && !WideTy(c)
    ensures Turns(DUP2_X2, [a, b, c], [b, c, a, b, c])
  {
    hide Perform, Slots, Turns;
    SlotsOfThree(a, b, c);
    SlotsOfTwo(b, c);
    SlotsJoined([b, c], [a, b, c], [b, c, a, b, c]);
    var slots, slotsAfter := [a, TTop, b, c], [b, c, a, TTop, b, c];
    Row(DUP2_X2, [a, b, c], [b, c, a, b, c], slots, slotsAfter, [1, 2, 0, 1, 2], [2, 3, 0, 1, 2, 3]);
  }

  lemma DupTwoX2(a: Ty, b: Ty, c: Ty, d: Ty)
    requires !WideTy(a) && !WideTy(b) && !WideTy(c) && !WideTy(d)
    ensures Turns(DUP2_X2, [a, b, c, d], [c, d, a, b, c, d])
  {
    hide Perform, Slots, Turns;
    var top, after, picks := [a, b, c, d], [c, d, a, b, c, d], [2, 3, 0, 1, 2, 3];
    NarrowSlots(top);
    NarrowSlots(after);
    Row(DUP2_X2, top, after, top, after, picks, picks);
  }

  //---------------------------------------------------------------- all forms

  /** The form that applies takes the whole of `top`. */
  predicate Takes(op: StackOp, top: seq<Ty>) {
    var p := PlanOn(op, Widths(top)); p.Some? && p.value.depth == |top|
  }

  lemma CellsOf(top: seq<Ty>)
    ensures forall k: nat | k < |top| :: CellAt(Widths(top), k) == if WideTy(top[|top| - 1 - k]) then Broad else Narrow
    ensures forall k: nat | k >= |top| :: CellAt(Widths(top), k) == Absent
  {
  }

  lemma TurnsOne(op: StackOp, top: seq<Ty>)
    requires Takes(op, top) && |top| == 1
    ensures exists after :: Turns(op, top, after)
  {
    hide Turns, Widths, CellAt;
    CellsOf(top);
    var a := top[0];
    assert top == [a];
    match op
    case POP => Pop(a);
    case POP2 => PopWide(a);
    case DUP => Dup(a);
    case DUP2 => DupWide(a);
    case _ =>
  }

  lemma TurnsTwo(op: StackOp, top: seq<Ty>)
    requires Takes(op, top) && |top| == 2
    ensures exists after :: Turns(op, top, after)
  {
    hide Turns, Widths, CellAt;
    CellsOf(top);
    var a, b := top[0], top[1];
    assert top == [a, b];
    match op
    case POP2 => PopTwo(a, b);
    case DUP_X1 => DupX1(a, b);
    case DUP_X2 => DupOverWide(a, b);
    case DUP2 => DupTwo(a, b);
    case DUP2_X1 => DupWideX1(a, b);
    case DUP2_X2 => DupWideOverWide(a, b);
    case SWAP => Swap(a, b);
    case _ =>
  }

  lemma TurnsMore(op: StackOp, top: seq<Ty>)
    requires Takes(op, top) && |top| >= 3
    ensures exists after :: Turns(op, top, after)
  {
    hide Turns, Widths, CellAt;
    CellsOf(top);
    var a, b, c := top[0], top[1], top[2];
    if |top| == 3 {
      assert top == [a, b, c];
      match op
      case DUP_X2 => DupX2(a, b, c);
      case DUP2_X1 => DupTwoX1(a, b, c);
      case DUP2_X2 => if WideTy(c) { DupWideX2(a, b, c); } else { DupTwoOverWide(a, b, c); }
      case _ =>
    } else {
      assert top == [a, b, c, top[3]];
      DupTwoX2(a, b, c, top[3]);
    }
  }

  lemma TopTakes(op: StackOp, s: seq<Ty>) returns (below: seq<Ty>, top: seq<Ty>)
    requires PlanOn(op, Widths(s)).Some?
    ensures s == below + top && Takes(op, top) && |top| >= 1
  {
    assert |Widths(s)| == |s|;
    hide PlanFor, Widths, CellAt, WideTy;
    var n := |s| - PlanOn(op, Widths(s)).value.depth;
    below, top := s[..n], s[n..];
    SameCells(s, n);
    var c := (CellAt(Widths(s), 0), CellAt(Widths(s), 1), CellAt(Widths(s), 2), CellAt(Widths(s), 3));
    var d := (CellAt(Widths(top), 0), CellAt(Widths(top), 1), CellAt(Widths(top), 2), CellAt(Widths(top), 3));
    LocalPlan(op, c, d);
  }

  lemma SameCells(s: seq<Ty>, n: nat)
    requires n <= |s|
    ensures forall k: nat | k < |s| - n :: CellAt(Widths(s[n..]), k) == CellAt(Widths(s), k)
  {
    hide Widths, CellAt, WideTy;
    CellsOf(s);
    CellsOf(s[n..]);
  }

  /** What happens to a stack of types happens to its slots. */
  lemma ShuffledSlots(op: StackOp, s: seq<Ty>)
    requires PlanOn(op, Widths(s)).Some?
    ensures Shuffle(op, s, WideTy).Some?
    ensures Shuffle(op, Slots(s), OneSlot) == Some(Slots(Shuffle(op, s, WideTy).value))
  {
    hide Slots, PlanOn, Widths, Perform;
    var below, top := TopTakes(op, s);
    TakesFew(op, top);
    if |top| == 1 { TurnsOne(op, top); } else if |top| == 2 { TurnsTwo(op, top); } else { TurnsMore(op, top); }
    var after :| Turns(op, top, after);
    ShuffleAbove(op, below, top, WideTy);
    ShuffleAbove(op, Slots(below), Slots(top), OneSlot);
    SlotsAppend(below, top);
    SlotsAppend(below, after);
  }

  lemma TakesFew(op: StackOp, top: seq<Ty>)
    requires Takes(op, top)
    ensures 1 <= |top| <= 4
  {
  }

  /** A list that looks like the slots of a stack still does after both are rearranged. */
  lemma ShuffleKeeps(op: StackOp, s: seq<Ty>, t: seq<Ty>)
    requires PlanOn(op, Widths(t)).Some? && LooksLike(s, Slots(t))
    ensures Shuffle(op, t, WideTy).Some? && Shuffle(op, s, OneSlot).Some?
    ensures LooksLike(Shuffle(op, s, OneSlot).value, Slots(Shuffle(op, t, WideTy).value))
  {
    hide LooksLike, Slots, PlanOn, Widths, Perform;
    ShuffledSlots(op, t);
    OnSlotsOnly(op, Slots(t));
    var p := PlanFor(op, Narrow, Narrow, Narrow, Narrow).value;
    assert |s| >= |Slots(t)| by { AtLeast(s, Slots(t)); }
    OnSlots(op, s);
    OnSlots(op, Slots(t));
    PerformKeeps(p, s, Slots(t));
  }

  lemma AtLeast(s: seq<Ty>, t: seq<Ty>)
    requires LooksLike(s, t)
    ensures |s| >= |t|
  {
  }

  /** Slots have one form only. */
  lemma OnSlotsOnly(op: StackOp, s: seq<Ty>)
    requires Shuffle(op, s, OneSlot).Some?
    ensures |s| >= PlanFor(op, Narrow, Narrow, Narrow, Narrow).value.depth
  {
    hide Perform, CellAt;
    NarrowCells(s);
  }

  //---------------------------------------------------------------- lists given back as frames

  /** No wide entry of a list is above a wrapper. */
  predicate NoWideAbove(s: seq<Ty>) { forall i, j | 0 <= i < j < |s| :: s[i] == TWrapper ==> !WideTy(s[j]) }

  /** No wide variable is below a wrapper. */
  predicate NoWideBelow(A: map<int, Ty>) {
    forall z, u | z in A && u in A && u < z :: A[z] == TWrapper ==> !WideTy(A[u])
  }

  lemma {:induction false} SlotsGrow(s: seq<Ty>)
    ensures (exists i :: 0 <= i < |s| && WideTy(s[i])) ==> |Slots(s)| > |s|
    ensures TWrapper in Slots(s) <==> TWrapper in s
  {
    if s != [] {
      var n := |s| - 1;
      SlotsGrow(s[..n]);
      assert s == s[..n] + [s[n]];
      assert forall i | 0 <= i < n :: s[i] == s[..n][i];
    }
  }

  /** A list that is given back as the stack of a frame keeps its wrappers at their distances from the top exactly when
      no wide entry is above one. */
  lemma FramedExactly(s: seq<Ty>)
    ensures (forall k :: WrapperAt(Slots(s), k) <==> WrapperAt(s, k)) <==> NoWideAbove(s)
  {
    hide Slots;
    if NoWideAbove(s) {
      forall k ensures WrapperAt(Slots(s), k) <==> WrapperAt(s, k) { FramedSame(s, k); }
    } else {
      var i := LowestWrapper(s);
      var low, high := s[..i], s[i + 1..];
      assert s == low + [TWrapper] + high;
      SlotsAppend(low + [TWrapper], high);
      SlotsSnoc(low, TWrapper);
      WideAbove(s, i, high);
      SlotsGrow(high);
      var k := |Slots(high)|;
      assert WrapperAt(Slots(s), k) && !WrapperAt(s, k);
    }
  }

  lemma LowestWrapper(s: seq<Ty>) returns (i: nat)
    requires !NoWideAbove(s)
    ensures i < |s| && s[i] == TWrapper && forall j | 0 <= j < i :: s[j] != TWrapper
  {
    i := 0;
    while s[i] != TWrapper
      invariant i < |s| && forall j | 0 <= j < i :: s[j] != TWrapper
      decreases |s| - i
    {
      i := i + 1;
    }
  }

  lemma WideAbove(s: seq<Ty>, i: nat, high: seq<Ty>)
    requires !NoWideAbove(s) && i < |s| && high == s[i + 1..] && forall j | 0 <= j < i :: s[j] != TWrapper
    ensures exists j :: 0 <= j < |high| && WideTy(high[j])
  {
    var h, j :| 0 <= h < j < |s| && s[h] == TWrapper && WideTy(s[j]);
    assert high[j - i - 1] == s[j];
  }

  lemma {:induction false} FramedSame(s: seq<Ty>, k: int)
    requires NoWideAbove(s)
    ensures WrapperAt(Slots(s), k) <==> WrapperAt(s, k)
  {
    if s != [] {
      var n := |s| - 1;
      assert s == s[..n] + [s[n]];
      if WideTy(s[n]) {
        assert TWrapper !in s;
        SlotsGrow(s);
      } else {
        FramedSame(s[..n], k - 1);
      }
    }
  }

  lemma FramedKeeps(kept: seq<Ty>, ret: seq<Ty>, image: seq<Ty>)
    requires NoWideAbove(kept) && LooksLike(kept + ret, image)
    ensures LooksLike(Slots(kept) + ret, image)
  {
    hide Slots, NoWideAbove;
    FramedExactly(kept);
    var u, v := Slots(kept) + ret, kept + ret;
    forall k ensures WrapperAt(u, k) <==> WrapperAt(image, k) {
      assert WrapperAt(v, k) <==> WrapperAt(image, k);
      assert WrapperAt(Slots(kept), k - |ret|) <==> WrapperAt(kept, k - |ret|);
    }
  }

  lemma RelocatedWrapper(A: map<int, Ty>, z: int)
    ensures HasWrapper(Relocated(A), z) <==> exists w :: w in A && A[w] == TWrapper && Shift(A, w) == z
  {
    hide Shift;
    ShiftGrows(A);
  }

  lemma EmptyCard(s: set<int>)
    ensures |s| == 0 <==> s == {}
  {
  }

  /** A list of variables that is given back as a frame keeps its wrappers in their slots exactly when no wide variable
      is below one. */
  lemma RelocatedExactly(A: map<int, Ty>)
    ensures (forall z :: HasWrapper(Relocated(A), z) <==> HasWrapper(A, z)) <==> NoWideBelow(A)
  {
    hide Relocated, Shift;
    if NoWideBelow(A) {
      forall z ensures HasWrapper(Relocated(A), z) <==> HasWrapper(A, z) {
        RelocatedWrapper(A, z);
        forall w | w in A && A[w] == TWrapper ensures Shift(A, w) == w { Unshifted(A, w); }
      }
    } else {
      var w := HighestWrapper(A, A.Keys);
      Shifted(A, w);
      RelocatedWrapper(A, Shift(A, w));
      assert HasWrapper(Relocated(A), Shift(A, w)) && !HasWrapper(A, Shift(A, w));
    }
  }

  lemma Unshifted(A: map<int, Ty>, w: int)
    requires NoWideBelow(A) && w in A && A[w] == TWrapper
    ensures Shift(A, w) == w
  {
    assert WideBelow(A, w) == {};
  }

  lemma Shifted(A: map<int, Ty>, w: int)
    requires !NoWideBelow(A) && w in A && forall z | z in A && A[z] == TWrapper :: z <= w
    ensures Shift(A, w) > w
  {
    var z, u :| z in A && u in A && u < z && A[z] == TWrapper && WideTy(A[u]);
    assert u in WideBelow(A, w);
    EmptyCard(WideBelow(A, w));
  }

  lemma {:induction false} HighestWrapper(A: map<int, Ty>, keys: set<int>) returns (w: int)
    requires keys <= A.Keys && exists z :: z in keys && A[z] == TWrapper
    ensures w in keys && A[w] == TWrapper && forall z | z in keys && A[z] == TWrapper :: z <= w
    decreases keys
  {
    var z :| z in keys && A[z] == TWrapper;
    var rest := keys - {z};
    if y :| y in rest && A[y] == TWrapper {
      var v := HighestWrapper(A, rest);
      w := if z > v then z else v;
    } else {
      w := z;
    }
  }
}

/**
 The instructions that only rearrange the operand stack of a JVM frame
 (sections 2.6.2, 2.11.1 and 6.5 of the JVM Specification).
 A stack is a sequence whose last element is the top.  A category-2 value (long
 or double) is one element of that sequence, and is called "wide".
 */
module OperandStack {
  import opened Collections

  datatype StackOp = POP | POP2 | DUP | DUP_X1 | DUP_X2 | DUP2 | DUP2_X1 | DUP2_X2 | SWAP

  /** Takes the `depth` topmost elements away and pushes the picked ones; pick 0 is the deepest taken. */
  datatype Plan = Plan(depth: nat, picks: seq<nat>)

  predicate ValidPlan(p: Plan) {
    forall i | 0 <= i < |p.picks| :: p.picks[i] < p.depth
  }

  /** What there is at some distance from the top of a stack. */
  datatype Cell = Absent | Narrow | Broad

  /** The element `k` below the top of a stack with widths `w`. */
  function CellAt(w: seq<bool>, k: nat): Cell {
    if k >= |w| then Absent else if w[|w| - 1 - k] then Broad else Narrow
  }

  /** The form of `op` that applies where c0 (the top), c1, c2 and c3 are; None where no form does. */
  function PlanFor(op: StackOp, c0: Cell, c1: Cell, c2: Cell, c3: Cell): (p: Option<Plan>)
    ensures p.Some? ==> ValidPlan(p.value) && 1 <= p.value.depth <= 4
    ensures p.Some? ==> c0 != Absent && (p.value.depth >= 2 ==> c1 != Absent)
    ensures p.Some? ==> (p.value.depth >= 3 ==> c2 != Absent) && (p.value.depth >= 4 ==> c3 != Absent)
  {
    match (op, c0, c1, c2, c3)
    case (POP, Narrow, _, _, _) => Some(Plan(1, []))
    case (POP2, Broad, _, _, _) => Some(Plan(1, []))
    case (POP2, Narrow, Narrow, _, _) => Some(Plan(2, []))
    case (DUP, Narrow, _, _, _) => Some(Plan(1, [0, 0]))
    case (DUP_X1, Narrow, Narrow, _, _) => Some(Plan(2, [1, 0, 1]))
    case (DUP_X2, Narrow, Broad, _, _) => Some(Plan(2, [1, 0, 1]))
    case (DUP_X2, Narrow, Narrow, Narrow, _) => Some(Plan(3, [2, 0, 1, 2]))
    case (DUP2, Broad, _, _, _) => Some(Plan(1, [0, 0]))
    case (DUP2, Narrow, Narrow, _, _) => Some(Plan(2, [0, 1, 0, 1]))
    case (DUP2_X1, Broad, Narrow, _, _) => Some(Plan(2, [1, 0, 1]))
    case (DUP2_X1, Narrow, Narrow, Narrow, _) => Some(Plan(3, [1, 2, 0, 1, 2]))
    case (DUP2_X2, Broad, Broad, _, _) => Some(Plan(2, [1, 0, 1]))
    case (DUP2_X2, Broad, Narrow, Narrow, _) => Some(Plan(3, [2, 0, 1, 2]))
    case (DUP2_X2, Narrow, Narrow, Broad, _) => Some(Plan(3, [1, 2, 0, 1, 2]))
    case (DUP2_X2, Narrow, Narrow, Narrow, Narrow) => Some(Plan(4, [2, 3, 0, 1, 2, 3]))
    case (SWAP, Narrow, Narrow, _, _) => Some(Plan(2, [1, 0]))
    case _ => None
  }

  function PlanOn(op: StackOp, w: seq<bool>): (p: Option<Plan>)
    ensures p.Some? ==> ValidPlan(p.value) && 1 <= p.value.depth <= |w|
  {
    PlanFor(op, CellAt(w, 0), CellAt(w, 1), CellAt(w, 2), CellAt(w, 3))
  }

  function Perform<V>(p: Plan, s: seq<V>): (r: seq<V>)
    requires ValidPlan(p) && p.depth <= |s|
    ensures |r| == |s| - p.depth + |p.picks|
    ensures forall i | 0 <= i < |s| - p.depth :: r[i] == s[i]
    ensures forall i | 0 <= i < |p.picks| :: r[|s| - p.depth + i] == s[|s| - p.depth + p.picks[i]]
  {
    s[..|s| - p.depth] + seq(|p.picks|, i requires 0 <= i < |p.picks| => s[|s| - p.depth + p.picks[i]])
  }

  /** The effect of `op`; None where the JVM would reject the stack. */
  function Shuffle<V>(op: StackOp, s: seq<V>, wide: V -> bool): Option<seq<V>> {
    match PlanOn(op, Map(wide, s))
    case None => None
    case Some(p) => Some(Perform(p, s))
  }

  /** Rearranging a stack does not look at more than widths: it commutes with every element-wise image. */
  lemma PerformMap<A, B>(f: A -> B, p: Plan, s: seq<A>)
    requires ValidPlan(p) && p.depth <= |s|
    ensures Map(f, Perform(p, s)) == Perform(p, Map(f, s))
  {
  }

  /** A form that applies looks at no cell below those it takes. */
  lemma LocalPlan(op: StackOp, c: (Cell, Cell, Cell, Cell), d: (Cell, Cell, Cell, Cell))
    requires PlanFor(op, c.0, c.1, c.2, c.3).Some?
    requires var n := PlanFor(op, c.0, c.1, c.2, c.3).value.depth;
      d.0 == c.0 && (n >= 2 ==> d.1 == c.1) && (n >= 3 ==> d.2 == c.2) && (n >= 4 ==> d.3 == c.3)
    ensures PlanFor(op, d.0, d.1, d.2, d.3) == PlanFor(op, c.0, c.1, c.2, c.3)
  {
  }

  /** The same on a stack with more below. */
  lemma PlanAbove(op: StackOp, below: seq<bool>, w: seq<bool>)
    requires PlanOn(op, w).Some?
    ensures PlanOn(op, below + w) == PlanOn(op, w)
  {
    hide PlanFor;
    forall k: nat | k < |w| ensures CellAt(below + w, k) == CellAt(w, k) {}
    LocalPlan(op, (CellAt(w, 0), CellAt(w, 1), CellAt(w, 2), CellAt(w, 3)),
      (CellAt(below + w, 0), CellAt(below + w, 1), CellAt(below + w, 2), CellAt(below + w, 3)));
  }

  lemma ShuffleAbove<V>(op: StackOp, below: seq<V>, s: seq<V>, wide: V -> bool)
    requires Shuffle(op, s, wide).Some?
    ensures Shuffle(op, below + s, wide) == Some(below + Shuffle(op, s, wide).value)
  {
    hide PlanFor, PlanOn, Map;
    MapAppend(wide, below, s);
    PlanAbove(op, Map(wide, below), Map(wide, s));
    PerformAbove(PlanOn(op, Map(wide, s)).value, below, s);
  }

  lemma PerformAbove<V>(p: Plan, below: seq<V>, s: seq<V>)
    requires ValidPlan(p) && p.depth <= |s|
    ensures Perform(p, below + s) == below + Perform(p, s)
  {
    var n, r, q := |below| + |s| - p.depth, Perform(p, below + s), below + Perform(p, s);
    forall i | 0 <= i < |r| ensures r[i] == q[i] {
      if i >= n { assert r[n + (i - n)] == (below + s)[n + p.picks[i - n]]; }
    }
  }

  //---------------------------------------------------------------- what the instructions do to slots

  /** How many slots each instruction copies, and how many it puts the copies under. */
  const COPYING: set<(StackOp, nat, nat)> :=
    {(DUP, 1, 0), (DUP_X1, 1, 1), (DUP_X2, 1, 2), (DUP2, 2, 0), (DUP2_X1, 2, 1), (DUP2_X2, 2, 2)}

  lemma PicksOfCopies(op: StackOp, copied: nat, crossed: nat)
    requires (op, copied, crossed) in COPYING
    ensures var p := PlanFor(op, Narrow, Narrow, Narrow, Narrow);
      && p.Some? && p.value.depth == copied + crossed && |p.value.picks| == 2 * copied + crossed
      && forall i | 0 <= i < |p.value.picks| :: p.value.picks[i] == if i < copied then crossed + i else i - copied
  {
  }

  /** The form for narrow values is taken where the stack has enough of them. */
  lemma NarrowPlan(op: StackOp, w: seq<bool>)
    requires var p := PlanFor(op, Narrow, Narrow, Narrow, Narrow); p.Some? && p.value.depth == |w|
    requires forall i | 0 <= i < |w| :: !w[i]
    ensures PlanOn(op, w) == PlanFor(op, Narrow, Narrow, Narrow, Narrow)
  {
    hide PlanFor;
    LocalPlan(op, (Narrow, Narrow, Narrow, Narrow), (CellAt(w, 0), CellAt(w, 1), CellAt(w, 2), CellAt(w, 3)));
  }

  lemma CopiesPerformed<V>(p: Plan, under: seq<V>, top: seq<V>)
    requires ValidPlan(p) && p.depth == |under| + |top| && |p.picks| == 2 * |top| + |under|
    requires forall i | 0 <= i < |p.picks| :: p.picks[i] == if i < |top| then |under| + i else i - |top|
    ensures Perform(p, under + top) == top + under + top
  {
    var r := Perform(p, under + top);
    assert |under + top| - p.depth == 0;
    forall i | 0 <= i < |r| ensures r[i] == (top + under + top)[i] {
      assert r[0 + i] == (under + top)[0 + p.picks[i]];
    }
  }

  lemma CopiesTop<V>(op: StackOp, under: seq<V>, top: seq<V>, wide: V -> bool)
    requires (op, |top|, |under|) in COPYING && forall v | v in under + top :: !wide(v)
    ensures Shuffle(op, under + top, wide) == Some(top + under + top)
  {
    hide CellAt, PlanFor, PlanOn, Perform;
    PicksOfCopies(op, |top|, |under|);
    NarrowPlan(op, Map(wide, under + top));
    CopiesPerformed(PlanFor(op, Narrow, Narrow, Narrow, Narrow).value, under, top);
  }

  /** On values of one slot: the topmost ones are copied under those below them. */
  lemma CopiesUnder<V>(op: StackOp, below: seq<V>, under: seq<V>, top: seq<V>, wide: V -> bool)
    requires (op, |top|, |under|) in COPYING && forall v | v in under + top :: !wide(v)
    ensures Shuffle(op, below + under + top, wide) == Some(below + top + under + top)
  {
    hide Shuffle;
    CopiesTop(op, under, top, wide);
    ShuffleAbove(op, below, under + top, wide);
    assert below + under + top == below + (under + top) && below + top + under + top == below + (top + under + top);
  }

  /** The others drop the topmost values, or exchange two. */
  lemma DropsAndSwaps<V>(below: seq<V>, a: V, b: V, wide: V -> bool)
    requires !wide(a) && !wide(b)
    ensures Shuffle(POP, below + [a], wide) == Some(below) && Shuffle(POP2, below + [a, b], wide) == Some(below)
    ensures Shuffle(SWAP, below + [a, b], wide) == Some(below + [b, a])
  {
    assert Shuffle(POP, [a], wide) == Some([]) && Shuffle(POP2, [a, b], wide) == Some([])
      && Shuffle(SWAP, [a, b], wide) == Some([b, a]) by { OnTwo(a, b, wide); }
    hide Shuffle;
    ShuffleAbove(POP, below, [a], wide);
    ShuffleAbove(POP2, below, [a, b], wide);
    ShuffleAbove(SWAP, below, [a, b], wide);
    assert below + [] == below;
  }

  lemma OnTwo<V>(a: V, b: V, wide: V -> bool)
    requires !wide(a) && !wide(b)
    ensures Shuffle(POP, [a], wide) == Some([]) && Shuffle(POP2, [a, b], wide) == Some([])
    ensures Shuffle(SWAP, [a, b], wide) == Some([b, a])
  {
    hide PlanOn;
    NarrowPlan(POP, Map(wide, [a]));
    NarrowPlan(POP2, Map(wide, [a, b]));
    NarrowPlan(SWAP, Map(wide, [a, b]));
    assert Perform(Plan(1, []), [a]) == [] && Perform(Plan(2, []), [a, b]) == [];
    assert Perform(Plan(2, [1, 0]), [a, b]) == [b, a];
  }
}

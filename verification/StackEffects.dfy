/** The effects of short pieces of proxy code, so that longer ones can be put together. */
module StackEffects {
  import opened Collections
  import opened OperandStack
  import opened Descriptors
  import opened ProxyMachine

  function On(s: State, base: seq<Val>, top: seq<Val>): State { s.(stack := base + top) }

  /** Straight-line code that leads from one state to another. */
  ghost predicate Reaches(f: bool, code: seq<Insn>, s: State, t: State) {
    Straight(code) && Run(f, code, s) == Some(t)
  }

  lemma ReachSeq(f: bool, c: seq<Insn>, d: seq<Insn>, s: State, t: State, u: State)
    requires Reaches(f, c, s, t) && Reaches(f, d, t, u)
    ensures Reaches(f, c + d, s, u)
  {
    RunAppend(f, c, d, s, t);
  }

  lemma ReachNothing(f: bool, s: State)
    ensures Reaches(f, [], s, s)
  {
  }

  lemma ReachOne(f: bool, insn: Insn, s: State, t: State)
    requires Simple(insn) && Step(f, insn, s) == Some(t)
    ensures Reaches(f, [insn], s, t)
  {
    hide Step;
    RunTrace(f, [insn], [s, t]);
  }

  /** Instruction by instruction, along the states between them. */
  lemma {:induction false} ReachEach(f: bool, c: seq<Insn>, st: seq<State>)
    requires |st| == |c| + 1
    requires forall i | 0 <= i < |c| :: Reaches(f, [c[i]], st[i], st[i + 1])
    ensures Reaches(f, c, st[0], st[|c|])
  {
    hide Reaches;
    if c == [] {
      ReachNothing(f, st[0]);
    } else {
      var n := |c| - 1;
      forall i | 0 <= i < n ensures Reaches(f, [c[..n][i]], st[..n + 1][i], st[..n + 1][i + 1]) {
        assert c[..n][i] == c[i];
      }
      ReachEach(f, c[..n], st[..n + 1]);
      ReachSeq(f, c[..n], [c[n]], st[0], st[n], st[n + 1]);
      assert c == c[..n] + [c[n]];
    }
  }

  /** `code` has this effect on the top of any stack, and no other effect. */
  ghost predicate Turns(code: seq<Insn>, before: seq<Val>, after: seq<Val>) {
    forall f, s, base :: Reaches(f, code, On(s, base, before), On(s, base, after))
  }

  lemma TurnsSeq(c: seq<Insn>, d: seq<Insn>, x: seq<Val>, y: seq<Val>, z: seq<Val>)
    requires Turns(c, x, y) && Turns(d, y, z)
    ensures Turns(c + d, x, z)
  {
    hide Reaches, On;
    forall f, s, base
      ensures Reaches(f, c + d, On(s, base, x), On(s, base, z))
    {
      ReachSeq(f, c, d, On(s, base, x), On(s, base, y), On(s, base, z));
    }
  }

  lemma TurnsNothing(x: seq<Val>)
    ensures Turns([], x, x)
  {
  }

  lemma TurnsOne(insn: Insn, x: seq<Val>, y: seq<Val>)
    requires Simple(insn)
    requires forall f, s, base :: Step(f, insn, On(s, base, x)) == Some(On(s, base, y))
    ensures Turns([insn], x, y)
  {
    hide Reaches, Step, On;
    forall f, s, base
      ensures Reaches(f, [insn], On(s, base, x), On(s, base, y))
    {
      ReachOne(f, insn, On(s, base, x), On(s, base, y));
    }
  }

  /** The same with more below. */
  lemma TurnsUnder(code: seq<Insn>, below: seq<Val>, x: seq<Val>, y: seq<Val>)
    requires Turns(code, x, y)
    ensures Turns(code, below + x, below + y)
  {
    hide Reaches;
    forall f, s, base
      ensures Reaches(f, code, On(s, base, below + x), On(s, base, below + y))
    {
      assert base + (below + x) == (base + below) + x;
      assert base + (below + y) == (base + below) + y;
      assert Reaches(f, code, On(s, base + below, x), On(s, base + below, y));
    }
  }

  //---------------------------------------------------------------- stack instructions

  lemma TurnsShuffle(op: StackOp, x: seq<Val>, y: seq<Val>)
    requires Shuffle(op, x, Wide) == Some(y)
    ensures Turns([Stack(op)], x, y)
  {
    hide Turns, Shuffle, Wide;
    forall f, s, base
      ensures Step(f, Stack(op), On(s, base, x)) == Some(On(s, base, y))
    {
      ShuffleAbove(op, base, x, Wide);
    }
    TurnsOne(Stack(op), x, y);
  }

  lemma Pops(a: Val)
    requires !Wide(a)
    ensures Turns([Stack(POP)], [a], [])
  {
    hide Wide, Turns;
    assert Map(Wide, [a]) == [false] && Perform(Plan(1, []), [a]) == [];
    TurnsShuffle(POP, [a], []);
  }

  lemma Dups(a: Val)
    requires !Wide(a)
    ensures Turns([Stack(DUP)], [a], [a, a])
  {
    hide Wide, Turns;
    assert Map(Wide, [a]) == [false] && Perform(Plan(1, [0, 0]), [a]) == [a, a];
    TurnsShuffle(DUP, [a], [a, a]);
  }

  lemma Swaps(a: Val, b: Val)
    requires !Wide(a) && !Wide(b)
    ensures Turns([Stack(SWAP)], [a, b], [b, a])
  {
    hide Wide, Turns;
    assert Map(Wide, [a, b]) == [false, false] && Perform(Plan(2, [1, 0]), [a, b]) == [b, a];
    TurnsShuffle(SWAP, [a, b], [b, a]);
  }

  lemma DupX1s(a: Val, b: Val)
    requires !Wide(a) && !Wide(b)
    ensures Turns([Stack(DUP_X1)], [a, b], [b, a, b])
  {
    hide Wide, Turns;
    assert Map(Wide, [a, b]) == [false, false] && Perform(Plan(2, [1, 0, 1]), [a, b]) == [b, a, b];
    TurnsShuffle(DUP_X1, [a, b], [b, a, b]);
  }

  lemma DupX2s(a: Val, b: Val, c: Val)
    requires !Wide(a) && !Wide(b) && !Wide(c)
    ensures Turns([Stack(DUP_X2)], [a, b, c], [c, a, b, c])
  {
    hide Wide, Turns;
    assert Map(Wide, [a, b, c]) == [false, false, false];
    assert Perform(Plan(3, [2, 0, 1, 2]), [a, b, c]) == [c, a, b, c];
    TurnsShuffle(DUP_X2, [a, b, c], [c, a, b, c]);
  }

  lemma Dup2s(a: Val, b: Val)
    requires !Wide(a) && !Wide(b)
    ensures Turns([Stack(DUP2)], [a, b], [a, b, a, b])
  {
    hide Wide, Turns;
    assert Map(Wide, [a, b]) == [false, false] && Perform(Plan(2, [0, 1, 0, 1]), [a, b]) == [a, b, a, b];
    TurnsShuffle(DUP2, [a, b], [a, b, a, b]);
  }

  /** DUP2_X1 and POP2: a wide value changes places with the narrow one below. */
  lemma SwapsWide(a: Val, b: Val)
    requires !Wide(a) && Wide(b)
    ensures Turns([Stack(DUP2_X1), Stack(POP2)], [a, b], [b, a])
  {
    hide Wide, Turns;
    assert Map(Wide, [a, b]) == [false, true] && Perform(Plan(2, [1, 0, 1]), [a, b]) == [b, a, b];
    TurnsShuffle(DUP2_X1, [a, b], [b, a, b]);
    assert Map(Wide, [b]) == [true] && Perform(Plan(1, []), [b]) == [];
    TurnsShuffle(POP2, [b], []);
    TurnsUnder([Stack(POP2)], [b, a], [b], []);
    assert [b, a] + [b] == [b, a, b] && [b, a] + [] == [b, a];
    TurnsSeq([Stack(DUP2_X1)], [Stack(POP2)], [a, b], [b, a, b], [b, a]);
    assert [Stack(DUP2_X1)] + [Stack(POP2)] == [Stack(DUP2_X1), Stack(POP2)];
  }

  //---------------------------------------------------------------- values

  lemma TurnsLdc(n: nat)
    ensures Turns([Ldc(n)], [], [Const(n)])
  {
    hide Turns;
    forall f, s, base
      ensures Step(f, Ldc(n), On(s, base, [])) == Some(On(s, base, [Const(n)]))
    {
      assert (base + [])[..|base + []| - 0] + [Const(n)] == base + [Const(n)];
    }
    TurnsOne(Ldc(n), [], [Const(n)]);
  }

  lemma TurnsLdcValue(v: Val)
    ensures Turns([LdcValue(v)], [], [v])
  {
    hide Turns;
    forall f, s, base
      ensures Step(f, LdcValue(v), On(s, base, [])) == Some(On(s, base, [v]))
    {
      assert (base + [])[..|base + []| - 0] + [v] == base + [v];
    }
    TurnsOne(LdcValue(v), [], [v]);
  }

  lemma TurnsCall(h: Helper, v: Val)
    ensures Turns([Call(h)], [v], [Applied(h, v)])
  {
    hide Turns, Applied;
    forall f, s, base
      ensures Step(f, Call(h), On(s, base, [v])) == Some(On(s, base, [Applied(h, v)]))
    {
      assert (base + [v])[..|base|] == base;
    }
    TurnsOne(Call(h), [v], [Applied(h, v)]);
  }

  lemma TurnsCallWithDims(h: Helper, dims: nat, v: Val)
    ensures Turns([CallWithDims(h)], [v, Const(dims)], [Converted(h, dims, v)])
  {
    hide Turns;
    forall f, s, base
      ensures Step(f, CallWithDims(h), On(s, base, [v, Const(dims)])) == Some(On(s, base, [Converted(h, dims, v)]))
    {
      assert (base + [v, Const(dims)])[..|base|] == base;
    }
    TurnsOne(CallWithDims(h), [v, Const(dims)], [Converted(h, dims, v)]);
  }

  lemma TurnsCast(v: Val, t: JType)
    requires CastSucceeds(v, t)
    ensures Turns([CheckCast(t)], [v], [v])
  {
    hide Turns, CastSucceeds;
    TurnsOne(CheckCast(t), [v], [v]);
  }

  lemma TurnsToObject(v: Val)
    ensures Turns([CheckCast(OBJECT)], [v], [v])
  {
    hide Turns;
    TurnsCast(v, OBJECT);
  }

  lemma TurnsValueOf(sort: Sort, v: Val)
    requires TypeOf(v) == Prim(sort)
    ensures Turns([ValueOf(sort)], [v], [Boxed(sort, v)])
  {
    hide Turns, TypeOf;
    forall f, s, base
      ensures Step(f, ValueOf(sort), On(s, base, [v])) == Some(On(s, base, [Boxed(sort, v)]))
    {
      assert (base + [v])[..|base|] == base;
    }
    TurnsOne(ValueOf(sort), [v], [Boxed(sort, v)]);
  }

  lemma TurnsXxxValue(sort: Sort, v: Val)
    ensures Turns([XxxValue(sort)], [Boxed(sort, v)], [v])
  {
    hide Turns, TypeOf;
    forall f, s, base
      ensures Step(f, XxxValue(sort), On(s, base, [Boxed(sort, v)])) == Some(On(s, base, [v]))
    {
      assert (base + [Boxed(sort, v)])[..|base|] == base;
    }
    TurnsOne(XxxValue(sort), [Boxed(sort, v)], [v]);
  }

  //---------------------------------------------------------------- arrays

  function Nulls(n: nat): (s: seq<Val>)
    ensures |s| == n && forall i | 0 <= i < n :: s[i] == Null
  {
    seq(n, i => Null)
  }

  function Put(h: seq<seq<Val>>, a: nat, i: nat, v: Val): (r: seq<seq<Val>>)
    requires a < |h| && i < |h[a]|
    ensures |r| == |h| && |r[a]| == |h[a]| && r[a][i] == v
  {
    h[a := h[a][i := v]]
  }

  lemma Creates(f: bool, s: State, base: seq<Val>, n: nat)
    ensures Reaches(f, [NewArray], On(s, base, [Const(n)]), On(s.(heap := s.heap + [Nulls(n)]), base, [Ref(|s.heap|)]))
  {
    hide Reaches;
    assert (base + [Const(n)])[..|base|] == base;
    ReachOne(f, NewArray, On(s, base, [Const(n)]), On(s.(heap := s.heap + [Nulls(n)]), base, [Ref(|s.heap|)]));
  }

  lemma Stores(f: bool, s: State, base: seq<Val>, a: nat, i: nat, v: Val)
    requires a < |s.heap| && i < |s.heap[a]| && Reference(v)
    ensures Reaches(f, [AStore], On(s, base, [Ref(a), Const(i), v]), On(s.(heap := Put(s.heap, a, i, v)), base, []))
  {
    hide Reaches, Reference;
    assert (base + [Ref(a), Const(i), v])[..|base|] + [] == base + [];
    ReachOne(f, AStore, On(s, base, [Ref(a), Const(i), v]), On(s.(heap := Put(s.heap, a, i, v)), base, []));
  }

  lemma Loads(f: bool, s: State, base: seq<Val>, a: nat, i: nat)
    requires a < |s.heap| && i < |s.heap[a]|
    ensures Reaches(f, [ALoad], On(s, base, [Ref(a), Const(i)]), On(s, base, [s.heap[a][i]]))
  {
    hide Reaches;
    assert (base + [Ref(a), Const(i)])[..|base|] == base;
    ReachOne(f, ALoad, On(s, base, [Ref(a), Const(i)]), On(s, base, [s.heap[a][i]]));
  }

  lemma Lets(f: bool, s: State, base: seq<Val>, t: JType, slot: nat)
    requires slot in s.vars && TypeOf(s.vars[slot]) == t
    ensures Reaches(f, [LoadVar(t, slot)], On(s, base, []), On(s, base, [s.vars[slot]]))
  {
    hide Reaches, TypeOf;
    assert (base + [])[..|base + []| - 0] + [s.vars[slot]] == base + [s.vars[slot]];
    ReachOne(f, LoadVar(t, slot), On(s, base, []), On(s, base, [s.vars[slot]]));
  }

  /** A turn of the top, as a step between states. */
  lemma Turn(f: bool, s: State, base: seq<Val>, code: seq<Insn>, x: seq<Val>, y: seq<Val>)
    requires Turns(code, x, y)
    ensures Reaches(f, code, On(s, base, x), On(s, base, y))
  {
  }
}

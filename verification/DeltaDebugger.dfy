/** The search for a smallest set of instructions that may be left in lower precision. */
module DeltaDebugger {

  type BitSet = set<nat>

  lemma {:induction false} SmallerCard(a: BitSet, b: BitSet)
    requires a <= b
    ensures |a| <= |b| && (a != b ==> |a| < |b|)
  {
    if a != {} {
      var x :| x in a;
      SmallerCard(a - {x}, b - {x});
    }
  }

  lemma DisjointCard(a: BitSet, b: BitSet)
    requires a !! b
    ensures |a + b| == |a| + |b|
  {
  }

  function From(s: BitSet, i: nat): BitSet { set x | x in s && x >= i }

  function Before(s: BitSet, i: nat): BitSet { set x | x in s && x < i }

  /** BitSet.nextSetBit: the least element that is not smaller, or -1. */
  method NextSetBit(s: BitSet, from: nat) returns (r: int)
    ensures r == -1 ==> From(s, from) == {}
    ensures r != -1 ==> from <= r && r in s && forall x | x in s && x >= from :: r <= x
  {
    r := -1;
    var rest := s;
    while rest != {}
      invariant rest <= s && (r != -1 ==> from <= r && r in s)
      invariant forall x | x in s && x >= from && x !in rest :: r != -1 && r <= x
      decreases |rest|
    {
      var x :| x in rest;
      rest := rest - {x};
      if x >= from && (r == -1 || x < r) { r := x; }
    }
  }

  /** The bits 0 to n - 1. */
  function AllBits(n: nat): (s: BitSet)
    ensures |s| == n && forall x: nat :: x in s <==> x < n
  {
    if n == 0 then {} else AllBits(n - 1) + {n - 1}
  }

  //---------------------------------------------------------------- splitting

  predicate NonEmpty(parts: seq<BitSet>) {
    forall i | 0 <= i < |parts| :: parts[i] != {}
  }

  predicate Disjoint(parts: seq<BitSet>) {
    forall i, j | 0 <= i < j < |parts| :: parts[i] !! parts[j]
  }

  function Union(parts: seq<BitSet>): BitSet {
    if parts == [] then {} else Union(parts[..|parts| - 1]) + parts[|parts| - 1]
  }

  predicate Balanced(parts: seq<BitSet>, q: nat) {
    forall i | 0 <= i < |parts| :: q <= |parts[i]| <= q + 1
  }

  lemma {:induction false} PartsInUnion(parts: seq<BitSet>)
    ensures forall i | 0 <= i < |parts| :: parts[i] <= Union(parts)
  {
    if parts != [] {
      PartsInUnion(parts[..|parts| - 1]);
      assert forall i | 0 <= i < |parts| - 1 :: parts[i] == parts[..|parts| - 1][i];
    }
  }

  function Min(a: nat, b: nat): nat { if a < b then a else b }

  /** The elements of one part, in increasing order from `start` on. */
  method TakeSubset(s: BitSet, start: nat, size: nat) returns (subset: BitSet, next: int)
    requires 0 < size <= |From(s, start)|
    ensures |subset| == size && subset <= From(s, start)
    ensures if next == -1 then subset == From(s, start) else start <= next && subset == Before(From(s, start), next)
    ensures |From(s, start)| > size ==> next != -1 && |From(s, next)| == |From(s, start)| - size
  {
    subset := {};
    var crtIndex := NextSetBit(s, start);
    ghost var all := From(s, start);
    for j := 0 to size
      invariant |subset| == j && subset <= all
      invariant crtIndex != -1 ==> start <= crtIndex && crtIndex in s && subset == Before(all, crtIndex)
      invariant crtIndex == -1 ==> subset == all
    {
      if crtIndex == -1 { assert false; }
      subset := subset + {crtIndex};
      var last := crtIndex;
      crtIndex := NextSetBit(s, crtIndex + 1);
      if crtIndex == -1 {
        assert subset == all by {
          forall x | x in all ensures x in subset { if x > last { assert x in From(s, last + 1); } }
        }
      } else {
        assert subset == Before(all, crtIndex);
      }
    }
    next := crtIndex;
    if next != -1 {
      assert all == subset + From(s, next) && subset !! From(s, next);
      DisjointCard(subset, From(s, next));
    }
  }

  /** The set in n parts of nearly equal size; one part for each element where there are fewer. */
  method SplitSet(s: BitSet, n0: nat) returns (parts: seq<BitSet>)
    requires n0 > 0 && s != {}
    ensures |parts| == Min(n0, |s|) && NonEmpty(parts) && Disjoint(parts) && Union(parts) == s
    ensures Balanced(parts, |s| / Min(n0, |s|))
    ensures forall i | 0 <= i < |parts| :: parts[i] == Part(s, Min(n0, |s|), i)
  {
    hide Union, NonEmpty, Disjoint, Balanced, From, Before, Left, Part;
    parts := [];
    var n := if |s| < n0 then |s| else n0;
    var q, r := |s| / n, |s| % n;
    var lastIndex := 0;
    NothingSplit(s, q, n);
    for i := 0 to n
      invariant |parts| == i && NonEmpty(parts) && Disjoint(parts) && Balanced(parts, q)
      invariant i < n ==> lastIndex >= 0 && Union(parts) == Before(s, lastIndex)
      invariant i < n ==> |From(s, lastIndex)| == Left(|s|, n, i)
      invariant i == n ==> Union(parts) == s
      invariant forall k | 0 <= k < i :: parts[k] == Part(s, n, k)
    {
      var subsetSize := q + if i < r then 1 else 0;
      Portions(|s|, n, i);
      var subset, crtIndex := TakeSubset(s, lastIndex, subsetSize);
      OneMorePart(parts, subset, s, lastIndex, q);
      if i + 1 == n {
        LastPart(s, lastIndex, subset);
        LastRanks(s, n, lastIndex, subset);
      } else {
        NextPart(s, lastIndex, crtIndex, subset);
        NextRanks(s, n, i, lastIndex, crtIndex, subset);
      }
      parts := parts + [subset];
      lastIndex := crtIndex;
    }
  }

  /** Part i of n parts of consecutive elements, the larger ones first. */
  function Part(s: BitSet, n: nat, i: nat): BitSet
    requires n > 0
  {
    set x | x in s && Left(|s|, n, i + 1) < |From(s, x)| <= Left(|s|, n, i)
  }

  lemma RankTells(s: BitSet, i: nat, x: nat)
    requires x in s
    ensures x >= i <==> |From(s, x)| <= |From(s, i)|
  {
    if x >= i {
      SmallerCard(From(s, x), From(s, i));
    } else {
      SmallerCard(From(s, i), From(s, x));
      assert x in From(s, x) && x !in From(s, i);
    }
  }

  lemma NextRanks(s: BitSet, n: nat, k: nat, i: nat, j: nat, p: BitSet)
    requires n > 0 && i <= j && p == Before(From(s, i), j)
    requires |From(s, i)| == Left(|s|, n, k) && |From(s, j)| == Left(|s|, n, k + 1)
    ensures p == Part(s, n, k)
  {
    hide Left;
    forall x | x in s ensures x in p <==> x in Part(s, n, k) {
      RankTells(s, i, x);
      RankTells(s, j, x);
    }
    assert p <= s && Part(s, n, k) <= s;
  }

  lemma LastRanks(s: BitSet, n: nat, i: nat, p: BitSet)
    requires n > 0 && p <= From(s, i) && |p| == |From(s, i)| == Left(|s|, n, n - 1) && Left(|s|, n, n) == 0
    ensures p == Part(s, n, n - 1)
  {
    hide Left;
    SmallerCard(p, From(s, i));
    forall x | x in s ensures x in p <==> x in Part(s, n, n - 1) {
      RankTells(s, i, x);
      assert x in From(s, x);
    }
    assert p <= s && Part(s, n, n - 1) <= s;
  }

  /** Of the numbers below k the first of two parts is the lower half. */
  lemma LowerHalf(k: nat)
    requires k >= 2
    ensures Part(AllBits(k), 2, 0) == AllBits((k + 1) / 2)
  {
    var s := AllBits(k);
    forall x: nat | x < k ensures |From(s, x)| == k - x { UpperCard(k, x); }
    assert Left(k, 2, 0) == k && Left(k, 2, 1) == k / 2;
    forall x ensures x in Part(s, 2, 0) <==> x in AllBits((k + 1) / 2) {}
  }

  lemma UpperCard(k: nat, x: nat)
    requires x < k
    ensures |From(AllBits(k), x)| == k - x
  {
    var s := AllBits(k);
    assert s == AllBits(x) + From(s, x);
    DisjointCard(AllBits(x), From(s, x));
  }

  lemma LastPart(s: BitSet, i: nat, p: BitSet)
    requires p <= From(s, i) && |p| == |From(s, i)|
    ensures Before(s, i) + p == s
  {
    SmallerCard(p, From(s, i));
    assert s == Before(s, i) + From(s, i);
  }

  lemma NextPart(s: BitSet, i: nat, j: nat, p: BitSet)
    requires i <= j && p == Before(From(s, i), j)
    ensures Before(s, i) + p == Before(s, j)
  {
  }

  lemma NothingSplit(s: BitSet, q: nat, n: nat)
    requires n > 0
    ensures Union([]) == {} == Before(s, 0) && From(s, 0) == s
    ensures NonEmpty([]) && Disjoint([]) && Balanced([], q) && Left(|s|, n, 0) == |s|
  {
  }

  /** A part of what is left. */
  lemma OneMorePart(parts: seq<BitSet>, p: BitSet, s: BitSet, i: nat, q: nat)
    requires NonEmpty(parts) && Disjoint(parts) && Balanced(parts, q) && Union(parts) == Before(s, i)
    requires p <= From(s, i) && 0 < |p| && q <= |p| <= q + 1
    ensures NonEmpty(parts + [p]) && Disjoint(parts + [p]) && Balanced(parts + [p], q)
    ensures Union(parts + [p]) == Union(parts) + p
  {
    hide Union;
    PartsInUnion(parts);
    UnionOfMore(parts, p);
    assert forall k | 0 <= k < |parts| :: parts[k] !! p;
  }

  lemma UnionOfMore(parts: seq<BitSet>, p: BitSet)
    ensures Union(parts + [p]) == Union(parts) + p
  {
    assert (parts + [p])[..|parts|] == parts;
  }

  /** Of c elements in n parts, those that are not in the first i. */
  function Left(c: nat, n: nat, i: nat): int
    requires n > 0
  {
    c - i * (c / n) - Min(i, c % n)
  }

  /** The sizes add up: something is left after part i, and nothing after the last one. */
  lemma Portions(c: nat, n: nat, i: nat)
    requires 0 < n <= c && i < n
    ensures c / n >= 1
    ensures var size := c / n + (if i < c % n then 1 else 0);
      Left(c, n, i + 1) == Left(c, n, i) - size && if i + 1 == n then Left(c, n, i) == size else Left(c, n, i) > size
  {
    var q, r := c / n, c % n;
    assert q >= 1 && c == n * q + r;
    Distributes(n, i, q);
    Distributes(i + 1, i, q);
    if n - i >= 2 { Distributes(n - i, 2, q); }
  }

  lemma Distributes(n: nat, i: nat, q: nat)
    requires i <= n
    ensures n * q == i * q + (n - i) * q && (n - i) * q >= 0
  {
  }

  //---------------------------------------------------------------- minimality

  predicate OneMinimal(valid: BitSet -> bool, s: BitSet) {
    forall x | x in s :: !valid(s - {x})
  }

  ghost predicate Monotone(valid: BitSet -> bool) {
    forall a: BitSet, b: BitSet | a <= b && valid(a) :: valid(b)
  }

  /** For a monotone oracle the result is minimal: no proper subset is valid. */
  lemma MonotoneMinimal(valid: BitSet -> bool, s: BitSet, t: BitSet)
    requires Monotone(valid) && OneMinimal(valid, s) && t < s
    ensures !valid(t)
  {
    var x :| x in s && x !in t;
    assert t <= s - {x};
  }

  //---------------------------------------------------------------- the number of queries

  /** The parts that are tried while the granularity is doubled. */
  function Rounds(c: nat, n: nat): nat
    requires n > 0
    decreases if n < c then c - n else 0
  {
    Min(n, c) + if n < c then Rounds(c, 2 * n) else 0
  }

  function Bound(c: nat, n: nat): nat
    requires n > 0
  {
    SmallerSets(c) + 2 * Rounds(c, n)
  }

  /** Room for what follows on sets that are smaller. */
  function SmallerSets(c: nat): nat { if c == 0 then 0 else 3 * (c * (c - 1)) }

  lemma {:induction false} RoundsBound(c: nat, n: nat)
    requires n > 0
    ensures Rounds(c, n) <= 3 * c - Min(n, c)
    decreases if n < c then c - n else 0
  {
    if n < c { RoundsBound(c, 2 * n); }
  }

  /** A round and what follows on a smaller set stay within the bound. */
  lemma SmallerBound(c: nat, n: nat, d: nat, m: nat)
    requires n > 0 && m > 0 && d < c
    ensures 2 * Min(n, c) + Bound(d, m) <= Bound(c, n)
  {
    RoundsBound(d, m);
    if d > 0 {
      assert 3 * (d * (d - 1)) + 6 * d == 3 * (d * (d + 1));
      Squares(d, c);
    }
  }

  lemma Squares(d: nat, c: nat)
    requires d < c
    ensures d * (d + 1) <= c * (c - 1)
  {
    assert d * (d + 1) <= (c - 1) * (d + 1) <= (c - 1) * c;
  }

  /** The bound has room for one round, and for another one with doubled granularity. */
  lemma RoundBound(c: nat, n: nat)
    requires n > 0
    ensures 2 * Min(n, c) <= Bound(c, n)
    ensures n < c ==> 2 * n + Bound(c, 2 * n) == Bound(c, n)
    ensures n == 1 < c ==> 1 + Bound(c, 2) <= Bound(c, n)
  {
    hide SmallerSets;
  }

  lemma TotalBound(k: nat)
    ensures Bound(k, 2) <= 3 * (k * (k + 1))
  {
    RoundsBound(k, 2);
    if k > 0 { assert 3 * (k * (k - 1)) + 6 * k == 3 * (k * (k + 1)); }
  }

  //---------------------------------------------------------------- the search

  /** The first valid one of n parts. */
  predicate FirstOf(valid: BitSet -> bool, s: BitSet, n: nat, i: nat)
    requires n > 0
  {
    i < n && valid(Part(s, n, i)) && forall j: nat | j < i :: !valid(Part(s, n, j))
  }

  /** No part is valid, and this is the first one that can be removed. */
  predicate FirstWithout(valid: BitSet -> bool, s: BitSet, n: nat, i: nat)
    requires n > 0
  {
    && (forall j: nat | j < n :: !valid(Part(s, n, j)))
    && i < n && valid(s - Part(s, n, i)) && forall j: nat | j < i :: !valid(s - Part(s, n, j))
  }

  class DeltaDebugger {
    const oracle: BitSet -> bool      // does the program still do what it should?
    const nbrOfInstructions: nat
    var behaviours: BitSet            // the behaviours file: the instructions that are ignored
    var queries: nat

    constructor (oracle: BitSet -> bool, nbrOfInstructions: nat)
      ensures this.oracle == oracle && this.nbrOfInstructions == nbrOfInstructions && queries == 0
    {
      this.oracle, this.nbrOfInstructions := oracle, nbrOfInstructions;
      behaviours, queries := {}, 0;
    }

    method EditBehaviours(s: BitSet)
      modifies this`behaviours
      ensures behaviours == s
    {
      behaviours := s;
    }

    method IsSetValid(s: BitSet) returns (valid: bool)
      modifies this
      ensures valid == oracle(s) && behaviours == s && queries == old(queries) + 1
    {
      EditBehaviours(s);
      queries := queries + 1;
      valid := oracle(behaviours);
    }

    /** The first valid set, or -1. */
    method FirstValid(sets: seq<BitSet>) returns (i: int)
      modifies this
      ensures -1 <= i < |sets| && queries <= old(queries) + |sets|
      ensures i == -1 ==> forall k | 0 <= k < |sets| :: !oracle(sets[k])
      ensures i != -1 ==> oracle(sets[i]) && behaviours == sets[i] && forall k | 0 <= k < i :: !oracle(sets[k])
    {
      for k := 0 to |sets|
        invariant queries <= old(queries) + k && forall h | 0 <= h < k :: !oracle(sets[h])
      {
        var valid := IsSetValid(sets[k]);
        if valid { return k; }
      }
      return -1;
    }

    /** A valid subset from which no element can be removed. The file holds the last set that was tried or edited: for
        a single instruction that is the empty set, tried in vain. */
    method DdMin(s: BitSet, n: nat) returns (r: BitSet)
      requires n > 0
      modifies this
      ensures r <= s && OneMinimal(oracle, r) && (oracle(s) ==> oracle(r))
      ensures |s| > 1 ==> forall i: nat | FirstOf(oracle, s, Min(n, |s|), i) :: r <= Part(s, Min(n, |s|), i)
      ensures |s| > 1 ==> forall i: nat | FirstWithout(oracle, s, Min(n, |s|), i) :: r <= s - Part(s, Min(n, |s|), i)
      ensures queries <= old(queries) + Bound(|s|, n)
      ensures if s == {} then behaviours == old(behaviours) else behaviours == r <==> |r| != 1
      decreases |s|, if n < |s| then |s| - n else 0
    {
      hide OneMinimal, Bound, Union, NonEmpty, Disjoint, Balanced, Xor, Part;
      if s == {} {
        EmptyMinimal(oracle, s);
        return s;
      }
      RoundBound(|s|, n);
      if |s| == 1 {
        var emptySet: BitSet := {};
        SingleMinimal(oracle, s);
        EmptyMinimal(oracle, emptySet);
        var valid := IsSetValid(emptySet);
        if valid { return emptySet; }
        return s;
      }
      var subsetList := SplitSet(s, n);
      var p := |subsetList|;
      assert p == Min(n, |s|);
      var i := FirstValid(subsetList);
      if i != -1 {
        PartIsSmaller(s, subsetList, i);
        if p > 1 { SmallerBound(|s|, n, |subsetList[i]|, 2); }
        r := DdMin(subsetList[i], 2);
        return;
      }
      ghost var parts := subsetList;
      subsetList := XorAll(subsetList, s);
      XorsAreRests(s, parts);
      i := FirstValid(subsetList);
      if i != -1 {
        PartIsSmaller(s, parts, i);
        ComplementIsSmaller(s, parts[i]);
        SmallerBound(|s|, n, |subsetList[i]|, if n - 1 > 2 then n - 1 else 2);
        r := DdMin(subsetList[i], if n - 1 > 2 then n - 1 else 2);
        return;
      }
      if n < |s| {
        r := DdMin(s, 2 * n);
        return;
      }
      WholeMinimal(oracle, s, parts);
      EditBehaviours(s);
      return s;
    }

    /** From all instructions, and granularity 2. */
    method LaunchDeltaDebugging() returns (r: BitSet)
      modifies this
      ensures forall x | x in r :: x < nbrOfInstructions
      ensures OneMinimal(oracle, r)
      ensures oracle(AllBits(nbrOfInstructions)) ==> oracle(r)
      ensures oracle(AllBits(nbrOfInstructions)) && Monotone(oracle) ==> forall t: BitSet | t < r :: !oracle(t)
      ensures var half := AllBits((nbrOfInstructions + 1) / 2);
        nbrOfInstructions > 1 && oracle(half) ==> r <= half
      ensures queries <= old(queries) + 3 * (nbrOfInstructions * (nbrOfInstructions + 1))
      ensures nbrOfInstructions > 0 ==> (behaviours == r <==> |r| != 1)
    {
      var instrumentationSet: BitSet := AllBits(nbrOfInstructions);
      TotalBound(nbrOfInstructions);
      r := DdMin(instrumentationSet, 2);
      if nbrOfInstructions > 1 {
        LowerHalf(nbrOfInstructions);
        assert oracle(AllBits((nbrOfInstructions + 1) / 2)) ==> FirstOf(oracle, instrumentationSet, 2, 0);
      }
      if Monotone(oracle) {
        forall t: BitSet | t < r ensures !oracle(t) { MonotoneMinimal(oracle, r, t); }
      }
    }

    /** The program around the search: it is not needed where nothing has to be ignored, and the file describes the
        result at the end. */
    method DebugProgram() returns (r: BitSet, succeeded: bool)
      modifies this
      ensures behaviours == r && OneMinimal(oracle, r) && succeeded == oracle(r)
      ensures oracle({}) ==> r == {} && succeeded
      ensures oracle(AllBits(nbrOfInstructions)) ==> succeeded
      ensures oracle(AllBits(nbrOfInstructions)) && Monotone(oracle) ==> forall t: BitSet | t < r :: !oracle(t)
      ensures queries <= old(queries) + 3 * (nbrOfInstructions * (nbrOfInstructions + 1)) + 2
    {
      var nothing: BitSet := {};
      EmptyMinimal(oracle, nothing);
      var unneeded := IsSetValid(nothing);
      if unneeded { return nothing, true; }
      r := LaunchDeltaDebugging();
      succeeded := IsSetValid(r);
    }
  }

  function Xor(a: BitSet, b: BitSet): BitSet { (a - b) + (b - a) }

  method XorAll(sets: seq<BitSet>, s: BitSet) returns (r: seq<BitSet>)
    ensures |r| == |sets| && forall h | 0 <= h < |sets| :: r[h] == Xor(sets[h], s)
  {
    r := sets;
    for k := 0 to |sets|
      invariant |r| == |sets| && forall h | 0 <= h < |sets| :: r[h] == if h < k then Xor(sets[h], s) else sets[h]
    {
      r := r[k := Xor(r[k], s)];
    }
  }

  lemma XorsAreRests(s: BitSet, parts: seq<BitSet>)
    requires Union(parts) == s
    ensures forall h | 0 <= h < |parts| :: Xor(parts[h], s) == s - parts[h]
  {
    PartsInUnion(parts);
  }

  lemma EmptyMinimal(valid: BitSet -> bool, s: BitSet)
    requires s == {}
    ensures OneMinimal(valid, s)
  {
  }

  lemma SingleMinimal(valid: BitSet -> bool, s: BitSet)
    requires |s| == 1
    ensures !valid({}) ==> OneMinimal(valid, s)
  {
    forall x | x in s ensures s - {x} == {} { assert |s - {x}| == 0; }
  }

  lemma ComplementIsSmaller(s: BitSet, part: BitSet)
    requires part <= s && part != {}
    ensures Xor(part, s) <= s && |Xor(part, s)| < |s|
  {
    assert Xor(part, s) == s - part;
    SmallerCard(s - part, s);
  }

  lemma WholeMinimal(valid: BitSet -> bool, s: BitSet, parts: seq<BitSet>)
    requires |s| > 0 && |parts| == |s| && NonEmpty(parts) && Disjoint(parts) && Union(parts) == s && Balanced(parts, 1)
    requires forall i | 0 <= i < |parts| :: !valid(Xor(parts[i], s))
    ensures OneMinimal(valid, s)
  {
    SingletonParts(s, parts);
    hide Union, Disjoint, Balanced, NonEmpty;
    forall x | x in s ensures !valid(s - {x}) {
      var i :| 0 <= i < |parts| && parts[i] == {x};
      assert Xor(parts[i], s) == s - {x};
    }
  }

  lemma PartIsSmaller(s: BitSet, parts: seq<BitSet>, i: nat)
    requires NonEmpty(parts) && Disjoint(parts) && Union(parts) == s && i < |parts|
    ensures parts[i] <= s && parts[i] != {} && (|parts| > 1 ==> |parts[i]| < |s|) && (|parts| == 1 ==> parts[i] == s)
  {
    PartsInUnion(parts);
    SmallerCard(parts[i], s);
    if |parts| > 1 {
      var j := if i == 0 then 1 else 0;
      var x :| x in parts[j];
      assert x in s && x !in parts[i];
    } else {
      assert Union(parts) == Union([]) + parts[0];
    }
  }

  /** As many parts as elements: each part is a single element, so all elements have been tried. */
  lemma SingletonParts(s: BitSet, parts: seq<BitSet>)
    requires |s| > 0 && |parts| == |s| && NonEmpty(parts) && Disjoint(parts) && Union(parts) == s && Balanced(parts, 1)
    ensures forall x | x in s :: exists i :: 0 <= i < |parts| && parts[i] == {x}
  {
    forall x | x in s ensures exists i :: 0 <= i < |parts| && parts[i] == {x} {
      InSomePart(parts, x);
      var i :| 0 <= i < |parts| && x in parts[i];
      OnePerPart(parts);
      if parts[i] != {x} { SmallerCard({x}, parts[i]); }
    }
  }

  lemma {:induction false} InSomePart(parts: seq<BitSet>, x: nat)
    requires x in Union(parts)
    ensures exists i :: 0 <= i < |parts| && x in parts[i]
  {
    if x !in parts[|parts| - 1] {
      InSomePart(parts[..|parts| - 1], x);
      var i :| 0 <= i < |parts| - 1 && x in parts[..|parts| - 1][i];
      assert x in parts[i];
    }
  }

  lemma {:induction false} OnePerPart(parts: seq<BitSet>)
    requires NonEmpty(parts) && Disjoint(parts)
    ensures |Union(parts)| >= |parts|
    ensures |Union(parts)| == |parts| ==> forall i | 0 <= i < |parts| :: |parts[i]| == 1
  {
    if parts != [] {
      var front, last := parts[..|parts| - 1], parts[|parts| - 1];
      OnePerPart(front);
      UnionDisjoint(front, last);
      DisjointCard(Union(front), last);
      assert last != {} && |last| >= 1;
      assert forall i | 0 <= i < |front| :: parts[i] == front[i];
    }
  }

  lemma {:induction false} UnionDisjoint(parts: seq<BitSet>, p: BitSet)
    requires forall i | 0 <= i < |parts| :: parts[i] !! p
    ensures Union(parts) !! p
  {
    if parts != [] { UnionDisjoint(parts[..|parts| - 1], p); }
  }
}

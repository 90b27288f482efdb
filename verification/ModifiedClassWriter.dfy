/** The least common superclass of two classes, found in the bytecode without loading any class. */
module ModifiedClassWriter {
  import opened Collections

  datatype ClassInfo = ClassInfo(isInterface: bool, superName: string, interfaces: seq<string>)

  const OBJECT := "java/lang/Object"

  /** All classes that the loader finds. */
  type Hierarchy = map<string, ClassInfo>

  /** Everything named can be loaded, supertypes are of the right kind, and no type is above itself:
      `rank` is lower for supertypes. Names do not contain ';'. */
  ghost predicate WellFormed(h: Hierarchy, rank: string -> nat) {
    && OBJECT in h && !h[OBJECT].isInterface && h[OBJECT].interfaces == []
    && (forall t | t in h :: ';' !in t)
    && (forall t | t in h && t != OBJECT ::
      h[t].superName in h && !h[h[t].superName].isInterface && rank(h[t].superName) < rank(t)
      && (h[t].isInterface ==> h[t].superName == OBJECT))
    && (forall t, s | t in h && s in h[t].interfaces :: s in h && h[s].isInterface && rank(s) < rank(t))
  }

  lemma Superclass(h: Hierarchy, rank: string -> nat, t: string)
    requires WellFormed(h, rank) && t in h
    ensures t != OBJECT ==>
      h[t].superName in h && !h[h[t].superName].isInterface && rank(h[t].superName) < rank(t)
    ensures t == OBJECT ==> h[t].interfaces == [] && !h[t].isInterface
    ensures ';' !in t && OBJECT in h
  {
  }

  lemma Interface(h: Hierarchy, rank: string -> nat, t: string, s: string)
    requires WellFormed(h, rank) && t in h && s in h[t].interfaces
    ensures s in h && h[s].isInterface && rank(s) < rank(t)
  {
  }

  //---------------------------------------------------------------- supertypes

  predicate Direct(h: Hierarchy, t: string, s: string) {
    t in h && t != OBJECT && (s == h[t].superName || s in h[t].interfaces)
  }

  /** A way up from one type to another, through superclasses and interfaces. */
  predicate WayUp(h: Hierarchy, path: seq<string>) {
    |path| >= 1 && forall k | 0 <= k < |path| - 1 :: Direct(h, path[k], path[k + 1])
  }

  ghost predicate ProperSupertype(h: Hierarchy, t: string, s: string) {
    exists path: seq<string> :: WayUp(h, path) && |path| >= 2 && path[0] == t && path[|path| - 1] == s
  }

  ghost predicate Supertype(h: Hierarchy, t: string, s: string) { t == s || ProperSupertype(h, t, s) }

  /** `itf` is an interface above `t`. */
  ghost predicate Implements(h: Hierarchy, t: string, itf: string) {
    itf in h && h[itf].isInterface && ProperSupertype(h, t, itf)
  }

  lemma DirectIsProper(h: Hierarchy, t: string, s: string)
    requires Direct(h, t, s)
    ensures ProperSupertype(h, t, s)
  {
    var path := [t, s];
    assert WayUp(h, path);
  }

  lemma StepThenUp(h: Hierarchy, t: string, s: string, r: string)
    requires Direct(h, t, s) && ProperSupertype(h, s, r)
    ensures ProperSupertype(h, t, r)
  {
    var path :| WayUp(h, path) && |path| >= 2 && path[0] == s && path[|path| - 1] == r;
    var more := [t] + path;
    forall k | 0 <= k < |more| - 1 ensures Direct(h, more[k], more[k + 1]) {
      if k > 0 { assert more[k] == path[k - 1] && more[k + 1] == path[k]; }
    }
    assert WayUp(h, more) && more[|more| - 1] == r;
  }

  lemma FirstStep(h: Hierarchy, t: string, r: string)
    requires ProperSupertype(h, t, r)
    ensures exists s :: Direct(h, t, s) && Supertype(h, s, r)
  {
    var path :| WayUp(h, path) && |path| >= 2 && path[0] == t && path[|path| - 1] == r;
    var rest := path[1..];
    assert Direct(h, path[0], path[1]);
    forall k | 0 <= k < |rest| - 1 ensures Direct(h, rest[k], rest[k + 1]) {
      assert rest[k] == path[k + 1] && rest[k + 1] == path[k + 2];
    }
    assert WayUp(h, rest) && rest[0] == path[1] && rest[|rest| - 1] == r;
    assert Supertype(h, path[1], r);
  }

  lemma {:induction false} HigherRank(h: Hierarchy, rank: string -> nat, path: seq<string>)
    requires WellFormed(h, rank) && WayUp(h, path)
    ensures |path| >= 2 ==> rank(path[|path| - 1]) < rank(path[0])
  {
    if |path| >= 2 {
      assert Direct(h, path[0], path[1]);
      var rest := path[1..];
      forall k | 0 <= k < |rest| - 1 ensures Direct(h, rest[k], rest[k + 1]) {
        assert rest[k] == path[k + 1] && rest[k + 1] == path[k + 2];
      }
      HigherRank(h, rank, rest);
    }
  }

  lemma NotAboveEachOther(h: Hierarchy, rank: string -> nat, t: string, s: string)
    requires WellFormed(h, rank) && ProperSupertype(h, t, s)
    ensures rank(s) < rank(t)
  {
    var path :| WayUp(h, path) && |path| >= 2 && path[0] == t && path[|path| - 1] == s;
    HigherRank(h, rank, path);
  }

  /** What the loop of typeImplements looks at. */
  ghost predicate ImplementedHere(h: Hierarchy, t: string, itf: string)
    requires t in h
  {
    itf in h[t].interfaces || exists s :: s in h[t].interfaces && Implements(h, s, itf)
  }

  lemma ImplementsByCases(h: Hierarchy, rank: string -> nat, t: string, itf: string)
    requires WellFormed(h, rank) && t in h
    ensures t == OBJECT ==> !Implements(h, t, itf)
    ensures t != OBJECT ==> (Implements(h, t, itf)
      <==> ImplementedHere(h, t, itf) || Implements(h, h[t].superName, itf))
  {
    hide ProperSupertype, WellFormed;
    Superclass(h, rank, t);
    if Implements(h, t, itf) {
      FirstStep(h, t, itf);
      var s :| Direct(h, t, s) && Supertype(h, s, itf);
    }
    if t != OBJECT {
      if itf in h[t].interfaces {
        Interface(h, rank, t, itf);
        DirectIsProper(h, t, itf);
      }
      if s :| s in h[t].interfaces && Implements(h, s, itf) { StepThenUp(h, t, s, itf); }
      if Implements(h, h[t].superName, itf) { StepThenUp(h, t, h[t].superName, itf); }
    }
  }

  //---------------------------------------------------------------- superclasses

  /** The type and its superclasses, without Object. */
  ghost function Chain(h: Hierarchy, rank: string -> nat, t: string): (c: seq<string>)
    requires WellFormed(h, rank) && t in h
    ensures forall k | 0 <= k < |c| :: c[k] in h && c[k] != OBJECT
    decreases rank(t)
  {
    Superclass(h, rank, t);
    if t == OBJECT then [] else [t] + Chain(h, rank, h[t].superName)
  }

  /** `a` is t itself or one of its superclasses. */
  ghost predicate Ancestor(h: Hierarchy, rank: string -> nat, t: string, a: string)
    requires WellFormed(h, rank) && t in h
  {
    a == OBJECT || a in Chain(h, rank, t)
  }

  /** The superclasses of a superclass are the rest of the chain. */
  lemma {:induction false} ChainFrom(h: Hierarchy, rank: string -> nat, t: string, k: nat)
    requires WellFormed(h, rank) && t in h && k < |Chain(h, rank, t)|
    ensures Chain(h, rank, t)[k] in h && Chain(h, rank, Chain(h, rank, t)[k]) == Chain(h, rank, t)[k..]
    decreases rank(t)
  {
    hide WellFormed;
    Superclass(h, rank, t);
    if k > 0 {
      var s := h[t].superName;
      ChainFrom(h, rank, s, k - 1);
      assert Chain(h, rank, t)[k] == Chain(h, rank, s)[k - 1];
      assert Chain(h, rank, t)[k..] == Chain(h, rank, s)[k - 1..];
    } else {
      assert Chain(h, rank, t)[0..] == Chain(h, rank, t);
    }
  }

  lemma {:induction false} AncestorIsSupertype(h: Hierarchy, rank: string -> nat, t: string, a: string)
    requires WellFormed(h, rank) && t in h && Ancestor(h, rank, t, a)
    ensures Supertype(h, t, a)
    decreases rank(t)
  {
    hide WellFormed, ProperSupertype;
    Superclass(h, rank, t);
    if t != OBJECT && a != t {
      var s := h[t].superName;
      assert Direct(h, t, s);
      AncestorIsSupertype(h, rank, s, a);
      if s == a { DirectIsProper(h, t, a); } else { StepThenUp(h, t, s, a); }
    }
  }

  /** `r` is the lowest of the common ancestors. */
  ghost predicate LowestCommonAncestor(h: Hierarchy, rank: string -> nat, t1: string, t2: string, r: string)
    requires WellFormed(h, rank) && t1 in h && t2 in h
  {
    && r in h && Ancestor(h, rank, t1, r) && Ancestor(h, rank, t2, r)
    && forall a: string | Ancestor(h, rank, t1, a) && Ancestor(h, rank, t2, a) :: Ancestor(h, rank, r, a)
  }

  /** The ends of the two chains agree from m1 and m2 on, and not before. */
  ghost predicate LongestCommonEnd(c1: seq<string>, c2: seq<string>, m1: nat, m2: nat) {
    && CommonEnd(c1, c2, m1, m2)
    && (m1 > 0 && m2 > 0 ==> c1[m1 - 1] != c2[m2 - 1])
  }

  ghost predicate CommonEnd(c1: seq<string>, c2: seq<string>, m1: nat, m2: nat) {
    m1 <= |c1| && m2 <= |c2| && c1[m1..] == c2[m2..]
  }

  lemma NothingInCommon(c1: seq<string>, c2: seq<string>)
    ensures CommonEnd(c1, c2, |c1|, |c2|)
  {
  }

  lemma CommonEndGrows(c1: seq<string>, c2: seq<string>, m1: nat, m2: nat)
    requires CommonEnd(c1, c2, m1, m2) && m1 > 0 && m2 > 0
    ensures c1[m1 - 1] == c2[m2 - 1] ==> CommonEnd(c1, c2, m1 - 1, m2 - 1)
  {
    assert c1[m1 - 1..] == [c1[m1 - 1]] + c1[m1..] && c2[m2 - 1..] == [c2[m2 - 1]] + c2[m2..];
  }

  lemma CommonEndIsLowest(h: Hierarchy, rank: string -> nat, t1: string, t2: string, m1: nat, m2: nat)
    requires WellFormed(h, rank) && t1 in h && t2 in h
    requires LongestCommonEnd(Chain(h, rank, t1), Chain(h, rank, t2), m1, m2)
    ensures LowestCommonAncestor(h, rank, t1, t2, Top(Chain(h, rank, t1), m1))
  {
    hide WellFormed, Chain;
    var c1, c2 := Chain(h, rank, t1), Chain(h, rank, t2);
    var r := Top(c1, m1);
    TopOfEnd(h, rank, t1, m1);
    TopOfEnd(h, rank, t2, m2);
    assert r == Top(c2, m2) by { if m1 < |c1| { assert c1[m1..][0] == c2[m2..][0]; } }
    forall a: string | Ancestor(h, rank, t1, a) && Ancestor(h, rank, t2, a) ensures Ancestor(h, rank, r, a) {
      if a != OBJECT { CommonInEnd(h, rank, t1, t2, m1, m2, a); }
    }
  }

  /** The type in which the part of the chain from m on begins. */
  ghost function Top(c: seq<string>, m: nat): string
    requires m <= |c|
  {
    if m == |c| then OBJECT else c[m]
  }

  lemma TopOfEnd(h: Hierarchy, rank: string -> nat, t: string, m: nat)
    requires WellFormed(h, rank) && t in h && m <= |Chain(h, rank, t)|
    ensures var r := Top(Chain(h, rank, t), m);
      r in h && Chain(h, rank, r) == Chain(h, rank, t)[m..] && Ancestor(h, rank, t, r)
  {
    hide WellFormed, Chain;
    Superclass(h, rank, t);
    if m < |Chain(h, rank, t)| { ChainFrom(h, rank, t, m); } else { ChainOfObject(h, rank); }
  }

  lemma ChainStep(h: Hierarchy, rank: string -> nat, t: string)
    requires WellFormed(h, rank) && t in h && t != OBJECT
    ensures h[t].superName in h && rank(h[t].superName) < rank(t)
    ensures Chain(h, rank, t) == [t] + Chain(h, rank, h[t].superName)
  {
    hide WellFormed;
    Superclass(h, rank, t);
  }

  lemma ChainOfObject(h: Hierarchy, rank: string -> nat)
    requires WellFormed(h, rank) && OBJECT in h
    ensures Chain(h, rank, OBJECT) == []
  {
  }

  lemma CommonInEnd(h: Hierarchy, rank: string -> nat, t1: string, t2: string, m1: nat, m2: nat, a: string)
    requires WellFormed(h, rank) && t1 in h && t2 in h && a in Chain(h, rank, t1) && a in Chain(h, rank, t2)
    requires LongestCommonEnd(Chain(h, rank, t1), Chain(h, rank, t2), m1, m2)
    ensures a in Chain(h, rank, t1)[m1..]
  {
    hide WellFormed, Chain;
    var c1, c2 := Chain(h, rank, t1), Chain(h, rank, t2);
    var k1 :| 0 <= k1 < |c1| && c1[k1] == a;
    var k2 :| 0 <= k2 < |c2| && c2[k2] == a;
    ChainFrom(h, rank, t1, k1);
    ChainFrom(h, rank, t2, k2);
    assert c1[k1..] == c2[k2..];
    assert |c1| - m1 == |c2| - m2 && |c1| - k1 == |c2| - k2;
    assert k1 >= m1;
    assert c1[m1..][k1 - m1] == a;
  }

  lemma LowestIsUnique(h: Hierarchy, rank: string -> nat, t1: string, t2: string, r: string, s: string)
    requires WellFormed(h, rank) && t1 in h && t2 in h
    requires LowestCommonAncestor(h, rank, t1, t2, r) && LowestCommonAncestor(h, rank, t2, t1, s)
    ensures r == s
  {
    AncestorRank(h, rank, r, s);
    AncestorRank(h, rank, s, r);
  }

  lemma AncestorRank(h: Hierarchy, rank: string -> nat, t: string, a: string)
    requires WellFormed(h, rank) && t in h && Ancestor(h, rank, t, a)
    ensures a == t || rank(a) < rank(t)
  {
    AncestorIsSupertype(h, rank, t, a);
    if a != t { NotAboveEachOther(h, rank, t, a); }
  }

  //---------------------------------------------------------------- chains as strings

  /** ";type1;type2 ... ;typeN" */
  function Joined(names: seq<string>): string {
    if names == [] then "" else Joined(names[..|names| - 1]) + [';'] + names[|names| - 1]
  }

  lemma NothingJoined()
    ensures Joined([]) == ""
  {
  }

  lemma OneMoreJoined(names: seq<string>, t: string)
    ensures Joined(names + [t]) == Joined(names) + [';'] + t
  {
    assert (names + [t])[..|names|] == names;
  }

  /** StringBuilder.lastIndexOf(";", from) */
  method LastSemicolon(b: string, from: int) returns (i: int)
    requires from < |b|
    ensures i == -1 || 0 <= i <= from
    ensures i >= 0 ==> b[i] == ';' && forall k | i < k <= from :: b[k] != ';'
    ensures i == -1 ==> forall k | 0 <= k <= from :: b[k] != ';'
  {
    i := from;
    while i >= 0 && b[i] != ';'
      invariant i <= from && forall k | 0 <= k <= from && i < k :: b[k] != ';'
    {
      i := i - 1;
    }
    if i < 0 { i := -1; }
  }

  predicate NoSemicolons(names: seq<string>) {
    forall k | 0 <= k < |names| :: ';' !in names[k]
  }

  lemma {:induction false} JoinedPrefix(names: seq<string>, m: nat)
    requires m <= |names|
    ensures |Joined(names[..m])| <= |Joined(names)| && Joined(names)[..|Joined(names[..m])|] == Joined(names[..m])
  {
    if m < |names| {
      var front := names[..|names| - 1];
      JoinedPrefix(front, m);
      assert front[..m] == names[..m];
      assert Joined(names)[..|Joined(front)|] == Joined(front);
    } else {
      assert names[..m] == names;
    }
  }

  /** Where the last of the first m names begins, and what it is. */
  lemma LastName(names: seq<string>, m: nat, end: int, start: int)
    requires NoSemicolons(names) && m <= |names| && end == |Joined(names[..m])| <= |Joined(names)|
    requires -1 <= start < end || start == end - 1 == -1
    requires start >= 0 ==> Joined(names)[start] == ';' && forall k | start < k < end :: Joined(names)[k] != ';'
    requires start == -1 ==> forall k | 0 <= k < end :: Joined(names)[k] != ';'
    ensures start == -1 <==> m == 0
    ensures m > 0 ==> start == |Joined(names[..m - 1])| && Joined(names)[start + 1..end] == names[m - 1]
  {
    JoinedPrefix(names, m);
    if m > 0 {
      var some := names[..m];
      assert some[..m - 1] == names[..m - 1] && some[m - 1] == names[m - 1];
      var front, b := Joined(names[..m - 1]), Joined(some);
      assert b == front + [';'] + names[m - 1];
      assert forall k | 0 <= k < end :: Joined(names)[k] == b[k];
      assert b[|front|] == ';';
      assert forall k | |front| < k < end :: b[k] == names[m - 1][k - |front| - 1] && b[k] != ';';
      assert start == |front|;
      assert Joined(names)[start + 1..end] == b[start + 1..end] == names[m - 1];
    }
  }

  /** Finds where the last of the first m names begins. */
  method BeginningOfLast(b: string, end: int, ghost names: seq<string>, ghost m: nat) returns (start: int)
    requires NoSemicolons(names) && m <= |names| && b == Joined(names) && end == |Joined(names[..m])| <= |b|
    ensures start == -1 <==> m == 0
    ensures m > 0 ==> 0 <= start < end && start == |Joined(names[..m - 1])| && b[start + 1..end] == names[m - 1]
  {
    hide Joined, NoSemicolons;
    start := LastSemicolon(b, end - 1);
    LastName(names, m, end, start);
  }

  //---------------------------------------------------------------- the class writer

  class ModifiedClassWriter {
    const theLoader: Option<Hierarchy>
    ghost const rank: string -> nat

    constructor (theLoader: Option<Hierarchy>, ghost rank: string -> nat)
      ensures this.theLoader == theLoader && this.rank == rank
    {
      this.theLoader, this.rank := theLoader, rank;
    }

    ghost predicate Loads(h: Hierarchy) { theLoader == Some(h) && WellFormed(h, rank) }

    /** True exactly for an interface that the type implements, directly or not. */
    method TypeImplements(type_: string, itf: string, ghost h: Hierarchy) returns (r: bool)
      requires Loads(h) && type_ in h
      ensures r <==> Implements(h, type_, itf)
      decreases rank(type_)
    {
      hide ProperSupertype, Implements, WellFormed;
      var loader := theLoader.value;
      var t := type_;
      while t != OBJECT
        invariant t in h && rank(t) <= rank(type_)
        invariant Implements(h, type_, itf) <==> Implements(h, t, itf)
        decreases rank(t)
      {
        ImplementsByCases(h, rank, t, itf);
        Superclass(h, rank, t);
        var itfs := loader[t].interfaces;
        for k := 0 to |itfs|
          invariant forall i | 0 <= i < k :: itfs[i] != itf
        {
          if itfs[k] == itf { return true; }
        }
        for k := 0 to |itfs|
          invariant forall i | 0 <= i < k :: !Implements(h, itfs[i], itf)
        {
          Interface(h, rank, t, itfs[k]);
          var above := TypeImplements(itfs[k], itf, h);
          if above { return true; }
        }
        t := loader[t].superName;
      }
      ImplementsByCases(h, rank, t, itf);
      return false;
    }

    method TypeAncestors(type_: string, ghost h: Hierarchy) returns (b: string)
      requires Loads(h) && type_ in h
      ensures b == Joined(Chain(h, rank, type_))
    {
      hide WellFormed, Chain, Joined;
      var loader := theLoader.value;
      var t := type_;
      b := "";
      NothingJoined();
      ghost var done: seq<string> := [];
      while t != OBJECT
        invariant t in h && b == Joined(done) && Chain(h, rank, type_) == done + Chain(h, rank, t)
        decreases rank(t)
      {
        ChainStep(h, rank, t);
        b := b + [';'] + t;
        OneMoreJoined(done, t);
        assert done + ([t] + Chain(h, rank, h[t].superName)) == (done + [t]) + Chain(h, rank, h[t].superName);
        done := done + [t];
        t := loader[t].superName;
      }
      ChainOfObject(h, rank);
      assert done + [] == done;
    }

    /** Of two classes, the lowest common ancestor: the last names of the two strings that agree. */
    method CommonAncestor(type1: string, type2: string, ghost h: Hierarchy) returns (result: string)
      requires Loads(h) && type1 in h && type2 in h
      ensures LowestCommonAncestor(h, rank, type1, type2, result)
    {
      hide Joined, Chain, WellFormed, LowestCommonAncestor, NoSemicolons, CommonEnd;
      var b1 := TypeAncestors(type1, h);
      var b2 := TypeAncestors(type2, h);
      ghost var c1, c2 := Chain(h, rank, type1), Chain(h, rank, type2);
      ghost var m1, m2 := |c1|, |c2|;
      assert NoSemicolons(c1) && NoSemicolons(c2) by { ChainNames(h, rank, type1); ChainNames(h, rank, type2); }
      result := OBJECT;
      var end1, end2 := |b1|, |b2|;
      assert c1[..m1] == c1 && c2[..m2] == c2;
      assert CommonEnd(c1, c2, m1, m2) by { NothingInCommon(c1, c2); }
      while true
        invariant 0 <= m1 <= |c1| && 0 <= m2 <= |c2| && CommonEnd(c1, c2, m1, m2)
        invariant end1 == |Joined(c1[..m1])| <= |b1| && end2 == |Joined(c2[..m2])| <= |b2|
        invariant result == Top(c1, m1)
        decreases m1
      {
        var start1 := BeginningOfLast(b1, end1, c1, m1);
        var start2 := BeginningOfLast(b2, end2, c2, m2);
        if start1 != -1 && start2 != -1 && end1 - start1 == end2 - start2 {
          var p1 := b1[start1 + 1..end1];
          var p2 := b2[start2 + 1..end2];
          if p1 == p2 {
            result := p1;
            end1, end2 := start1, start2;
            CommonEndGrows(c1, c2, m1, m2);
            m1, m2 := m1 - 1, m2 - 1;
          } else {
            break;
          }
        } else {
          break;
        }
      }
      CommonEndIsLowest(h, rank, type1, type2, m1, m2);
    }

    /** Without a loader or without names there is nothing to look up. */
    method GetCommonSuperClass(type1: Option<string>, type2: Option<string>, ghost h: Hierarchy) returns (r: string)
      requires theLoader.Some? && type1.Some? && type2.Some? ==> Loads(h) && type1.value in h && type2.value in h
      ensures theLoader.None? || type1.None? || type2.None? ==> r == OBJECT
      ensures theLoader.Some? && type1.Some? && type2.Some? ==> CommonSuperClass(h, rank, type1.value, type2.value, r)
    {
      hide Ancestor, LowestCommonAncestor, Implements;
      if theLoader.None? || type1.None? || type2.None? { return OBJECT; }
      var loader, t1, t2 := theLoader.value, type1.value, type2.value;
      if loader[t1].isInterface {
        var below := TypeImplements(t2, t1, h);
        if below { return t1; }
        return OBJECT;
      }
      if loader[t2].isInterface {
        var below := TypeImplements(t1, t2, h);
        if below { return t2; }
        return OBJECT;
      }
      r := CommonAncestor(t1, t2, h);
    }
  }

  lemma ChainNames(h: Hierarchy, rank: string -> nat, t: string)
    requires WellFormed(h, rank) && t in h
    ensures NoSemicolons(Chain(h, rank, t))
  {
    hide WellFormed, Chain;
    var chain := Chain(h, rank, t);
    forall k | 0 <= k < |chain| ensures ';' !in chain[k] { Superclass(h, rank, chain[k]); }
  }

  /** The answer: for an interface only the interface itself or Object. */
  ghost predicate CommonSuperClass(h: Hierarchy, rank: string -> nat, t1: string, t2: string, r: string)
    requires WellFormed(h, rank) && t1 in h && t2 in h
  {
    if h[t1].isInterface then r == if Implements(h, t2, t1) then t1 else OBJECT
    else if h[t2].isInterface then r == if Implements(h, t1, t2) then t2 else OBJECT
    else LowestCommonAncestor(h, rank, t1, t2, r)
  }

  /** The answer is always a supertype of both. */
  lemma AnswerIsCommonSupertype(h: Hierarchy, rank: string -> nat, t1: string, t2: string, r: string)
    requires WellFormed(h, rank) && t1 in h && t2 in h && CommonSuperClass(h, rank, t1, t2, r)
    ensures r in h && Supertype(h, t1, r) && Supertype(h, t2, r)
  {
    hide Implements, ProperSupertype, WellFormed;
    AncestorIsSupertype(h, rank, t1, OBJECT);
    AncestorIsSupertype(h, rank, t2, OBJECT);
    assert OBJECT in h by { ObjectLoads(h, rank); }
    if h[t1].isInterface {
      if Implements(h, t2, t1) { ImplementedAbove(h, t2, t1); }
    } else if h[t2].isInterface {
      if Implements(h, t1, t2) { ImplementedAbove(h, t1, t2); }
    } else {
      AncestorIsSupertype(h, rank, t1, r);
      AncestorIsSupertype(h, rank, t2, r);
    }
  }

  lemma ObjectLoads(h: Hierarchy, rank: string -> nat)
    requires WellFormed(h, rank)
    ensures OBJECT in h && !h[OBJECT].isInterface
  {
  }

  lemma ImplementedAbove(h: Hierarchy, t: string, itf: string)
    requires Implements(h, t, itf)
    ensures Supertype(h, t, itf)
  {
  }

  /** The order of the two types matters exactly for two interfaces of which one extends the other. */
  lemma OrderMattersExactly(h: Hierarchy, rank: string -> nat, t1: string, t2: string, r: string, s: string)
    requires WellFormed(h, rank) && t1 in h && t2 in h
    requires CommonSuperClass(h, rank, t1, t2, r) && CommonSuperClass(h, rank, t2, t1, s)
    ensures r != s <==> h[t1].isInterface && h[t2].isInterface && (Implements(h, t1, t2) || Implements(h, t2, t1))
  {
    hide ProperSupertype, WellFormed, LowestCommonAncestor;
    ObjectLoads(h, rank);
    if !h[t1].isInterface && !h[t2].isInterface {
      LowestIsUnique(h, rank, t1, t2, r, s);
    }
    Superclass(h, rank, t1);
    Superclass(h, rank, t2);
    if Implements(h, t1, t2) { NotAboveEachOther(h, rank, t1, t2); }
    if Implements(h, t2, t1) { NotAboveEachOther(h, rank, t2, t1); }
  }

  //---------------------------------------------------------------- two interfaces

  const COLLECTION := "Collection"
  const LIST := "List"

  const TWO_INTERFACES: Hierarchy := map[
    OBJECT := ClassInfo(false, "", []),
    COLLECTION := ClassInfo(true, OBJECT, []),
    LIST := ClassInfo(true, OBJECT, [COLLECTION])]

  function Height(t: string): nat { if t == LIST then 2 else if t == COLLECTION then 1 else 0 }

  /** The common superclass of Collection and List is Collection, that of List and Collection is Object. */
  lemma OrderMatters()
    ensures WellFormed(TWO_INTERFACES, Height)
    ensures CommonSuperClass(TWO_INTERFACES, Height, COLLECTION, LIST, COLLECTION)
    ensures CommonSuperClass(TWO_INTERFACES, Height, LIST, COLLECTION, OBJECT)
  {
    hide ProperSupertype;
    var h := TWO_INTERFACES;
    assert |OBJECT| == 16 && |COLLECTION| == 10 && |LIST| == 4;
    assert h.Keys == {OBJECT, COLLECTION, LIST} && COLLECTION in h[LIST].interfaces;
    assert WellFormed(h, Height);
    DirectIsProper(h, LIST, COLLECTION);
    if ProperSupertype(h, COLLECTION, LIST) { NotAboveEachOther(h, Height, COLLECTION, LIST); }
  }
}

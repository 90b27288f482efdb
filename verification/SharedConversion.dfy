/** COJAC_TYPE_CONVERT is generated once for each list of replaced types: which call sites may share it. */
module SharedConversion {
  import opened Collections
  import opened Descriptors
  import opened ProxyMachine
  import opened ProxyCode

  predicate PlainObject(t: JType) { t == OBJECT || t == OBJECT_ARRAY }

  /** The two sites convert argument `i` in the same way. */
  predicate SameConversion(c: Context, d: Context, i: nat)
    requires i < c.N() && i < d.N()
  {
    c.OutArgs()[i] == d.OutArgs()[i] && (PlainObject(c.OutArgs()[i]) ==> c.disguised == d.disguised)
  }

  predicate SameArguments(c: Context, d: Context) {
    c.InArgs() == d.InArgs() && c.Valid() && d.Valid()
  }

  /** The part of KeepConverted up to and including the conversion. */
  function UpToConversion(c: Context, i: nat, slot: nat): seq<Insn>
    requires i < c.N()
  {
    [Ldc(i), LoadVar(c.InArgs()[i], slot)] + (if c.InArgs()[i].Arr? then PAIR_BEGIN else [])
    + (ArgumentConversion(c, i) + Box(c.OutArgs()[i]))
  }

  function AfterConversion(t: JType): seq<Insn> {
    (if t.Arr? then PAIR_END else []) + [AStore]
  }

  function Last(s: seq<Insn>): Insn
    requires s != []
  {
    s[|s| - 1]
  }

  lemma Parts(c: Context, i: nat, slot: nat)
    requires i < c.N()
    ensures KeepConverted(c, i, slot) == UpToConversion(c, i, slot) + AfterConversion(c.InArgs()[i])
  {
    hide ArgumentConversion, Map, AfterFloatReplacement;
  }

  function Converting(c: Context, i: nat): seq<Insn>
    requires i < c.N()
  {
    ArgumentConversion(c, i) + Box(c.OutArgs()[i])
  }

  /** The last instruction of a conversion tells which one it is. */
  lemma LastTells(c: Context, d: Context, i: nat, slot: nat)
    requires SameArguments(c, d) && i < c.N()
    requires Last([if c.InArgs()[i].Arr? then AStore else LoadVar(c.InArgs()[i], slot)] + Converting(c, i))
      == Last([if c.InArgs()[i].Arr? then AStore else LoadVar(c.InArgs()[i], slot)] + Converting(d, i))
    ensures SameConversion(c, d, i)
  {
    var s, t := c.OutArgs()[i], d.OutArgs()[i];
    assert AfterFloatReplacement(s) == c.InArgs()[i] == AfterFloatReplacement(t);
    ReplacedExactly(s);
    ReplacedExactly(t);
    if s.Arr? {
      ReplacedExactly(s.elem);
      ReplacedExactly(t.elem);
    }
  }

  lemma SameThenEqual(c: Context, d: Context, i: nat)
    requires SameArguments(c, d) && i < c.N() && SameConversion(c, d, i)
    ensures Converting(c, i) == Converting(d, i)
  {
    ReplacedExactly(c.OutArgs()[i]);
    assert AfterFloatReplacement(c.OutArgs()[i]) == c.InArgs()[i];
  }

  lemma LastOfParts(c: Context, i: nat, slot: nat)
    requires i < c.N()
    ensures var head := [if c.InArgs()[i].Arr? then AStore else LoadVar(c.InArgs()[i], slot)];
      Last(UpToConversion(c, i, slot)) == Last(head + Converting(c, i))
  {
    hide ArgumentConversion, Map, AfterFloatReplacement, Box;
  }

  lemma Slots(c: Context, d: Context, i: nat)
    requires SameArguments(c, d) && i <= c.N()
    ensures SlotOf(c, i) == SlotOf(d, i)
  {
  }

  lemma SuffixStrips(a: seq<Insn>, b: seq<Insn>, s: seq<Insn>)
    requires a + s == b + s
    ensures a == b
  {
    assert (a + s)[..|a|] == a && (b + s)[..|b|] == b;
  }

  lemma LastStays(a: seq<Insn>, b: seq<Insn>)
    requires b != []
    ensures Last(a + b) == Last(b)
  {
  }

  lemma {:induction false} EqualOnlyIfSame(c: Context, d: Context, n: nat)
    requires SameArguments(c, d) && n <= c.N() && ConvertArguments(c, n) == ConvertArguments(d, n)
    ensures forall i | 0 <= i < n :: SameConversion(c, d, i)
  {
    hide Map, AfterFloatReplacement, SlotOf, ArgumentConversion, SameConversion, KeepConverted, KeepOriginal, Last, Box,
      AfterConversion;
    if n > 0 {
      var i, slot := n - 1, SlotOf(c, n - 1);
      Slots(c, d, i);
      assert |c.InArgs()| == c.N() && |d.InArgs()| == d.N();
      var u, v, k := UpToConversion(c, i, slot), UpToConversion(d, i, slot), KeepOriginal(c, i, slot);
      Parts(c, i, slot);
      Parts(d, i, slot);
      OriginalsAlike(c, d, i, slot);
      EndsAlike(ConvertArguments(c, i), ConvertArguments(d, i), k, u, v, AfterConversion(c.InArgs()[i]));
      LastDecides(c, d, i, slot);
      SameThenEqual(c, d, i);
      assert u == v;
      EqualOnlyIfSame(c, d, i);
    }
  }

  lemma OriginalsAlike(c: Context, d: Context, i: nat, slot: nat)
    requires SameArguments(c, d) && i < c.N()
    ensures i < d.N() && KeepOriginal(c, i, slot) == KeepOriginal(d, i, slot)
  {
    hide Map, AfterFloatReplacement;
    assert |c.InArgs()| == c.N() && |d.InArgs()| == d.N();
  }

  lemma EndsAlike(a: seq<Insn>, b: seq<Insn>, k: seq<Insn>, u: seq<Insn>, v: seq<Insn>, z: seq<Insn>)
    requires a + (k + (u + z)) == b + (k + (v + z)) && u != [] && v != []
    ensures Last(u) == Last(v)
    ensures u == v ==> a == b
  {
    assert a + (k + (u + z)) == (a + k + u) + z && b + (k + (v + z)) == (b + k + v) + z;
    SuffixStrips(a + k + u, b + k + v, z);
    LastStays(a + k, u);
    LastStays(b + k, v);
    if u == v {
      SuffixStrips(a + k, b + k, u);
      SuffixStrips(a, b, k);
    }
  }

  lemma LastDecides(c: Context, d: Context, i: nat, slot: nat)
    requires SameArguments(c, d) && i < c.N() && Last(UpToConversion(c, i, slot)) == Last(UpToConversion(d, i, slot))
    ensures SameConversion(c, d, i)
  {
    hide ArgumentConversion, Map, AfterFloatReplacement, SameConversion, UpToConversion;
    LastOfParts(c, i, slot);
    LastOfParts(d, i, slot);
    LastTells(c, d, i, slot);
  }

  lemma {:induction false} SameOnlyIfEqual(c: Context, d: Context, n: nat)
    requires SameArguments(c, d) && n <= c.N() && forall i | 0 <= i < n :: SameConversion(c, d, i)
    ensures ConvertArguments(c, n) == ConvertArguments(d, n)
  {
    hide Map, AfterFloatReplacement, SlotOf, ArgumentConversion, SameConversion;
    if n > 0 {
      Slots(c, d, n - 1);
      SameThenEqual(c, d, n - 1);
      assert |c.InArgs()| == c.N() && |d.InArgs()| == d.N();
      SameOnlyIfEqual(c, d, n - 1);
    }
  }

  /** A second call site with the same replaced types gets the body that it needs exactly when its method has the
      same original types, and converts disguised arguments alike where there are any. */
  lemma SharedExactly(c: Context, d: Context)
    requires SameArguments(c, d)
    ensures |c.OutArgs()| == |d.OutArgs()|
    ensures ConvertMethod(c) == ConvertMethod(d) <==> forall i | 0 <= i < c.N() :: SameConversion(c, d, i)
  {
    hide Map, AfterFloatReplacement, ConvertArguments, SameConversion;
    var n := c.N();
    assert n == |c.InArgs()| == |d.InArgs()| == d.N();
    if ConvertMethod(c) == ConvertMethod(d) {
      SuffixStrips(ConvertHead(n) + ConvertArguments(c, n), ConvertHead(n) + ConvertArguments(d, n), [AReturn]);
      var h := |ConvertHead(n)|;
      assert (ConvertHead(n) + ConvertArguments(c, n))[h..] == ConvertArguments(c, n);
      assert (ConvertHead(n) + ConvertArguments(d, n))[h..] == ConvertArguments(d, n);
      EqualOnlyIfSame(c, d, n);
    }
    if forall i | 0 <= i < n :: SameConversion(c, d, i) {
      SameOnlyIfEqual(c, d, n);
    }
  }

  /** At such a site the emitted code is the code that was proved right. */
  lemma SharedCallIsOwn(c: Context, d: Context, order: seq<nat>)
    requires SameArguments(c, d)
    requires forall i | 0 <= i < c.N() && i < d.N() :: SameConversion(c, d, i)
    ensures var own := TypeConvert(c.InArgs(), ConvertMethod(d));
      && DirectCall(c, order) != [] && DirectCall(c, order)[0 := own] == DirectCall(c, order)
      && BetterCall(c, order) != [] && BetterCall(c, order)[0 := own] == BetterCall(c, order)
  {
    hide ConvertMethod, TargetConversion, ExplodeOnStack, CheckArraysAfterCall, DropTarget, ReturnConversion, LookUp,
      Reflective, Fallback, SameConversion, Map;
    SharedExactly(c, d);
    assert ConvertMethod(c) == ConvertMethod(d) by { assert |c.InArgs()| == c.N() && |d.InArgs()| == d.N(); }
    assert ConvertArgumentsToReal(c)[0] == TypeConvert(c.InArgs(), ConvertMethod(c));
  }
}

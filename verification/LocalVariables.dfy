/** What renumbering does to the contents of local variables: values at run time, types in the analyzer. */
module LocalVariables {
  import opened Collections
  import opened Jvm
  import opened FloatVariablesSorter

  /** A double becomes a wrapper that holds it; everything else is itself. */
  function Image(v: Value): Value { if v.Double? then Wrapper(v.d) else v }

  predicate Agrees(params: seq<Ty>, L: map<int, Value>, v: int, L': map<int, Value>)
    requires v in L
  {
    var w := Renumber(params, v);
    0 <= w && w in L' && L'[w] == Image(L[v])
  }

  /** Every live variable of `L` is found, as its image, under its new number in `L'`. */
  ghost predicate Agree(params: seq<Ty>, L: map<int, Value>, L': map<int, Value>) {
    forall v | v in L :: Agrees(params, L, v, L')
  }

  /** May a value of type `t` be stored in slot `v`?  Only where a parameter starts or past all of them,
      and no long where a double parameter has given up its second slot to the next one. */
  predicate StoreAllowed(params: seq<Ty>, t: Ty, v: int) {
    Usable(params, v) && (t == TLong ==> !Tight(params, v))
  }

  /** What runs keep: only allowed stores have happened, and no wide value is overlapped. */
  ghost predicate Sound(params: seq<Ty>, L: map<int, Value>) {
    forall v | v in L :: StoreAllowed(params, TypeOf(L[v]), v) && (Wide(L[v]) ==> v + 1 !in L)
  }

  ghost predicate StoreKeepsAgreement(params: seq<Ty>, v: int, L: map<int, Value>, L': map<int, Value>, x: Value) {
    Agree(params, StoreAt(L, v, x, Wide), StoreAt(L', Renumber(params, v), Image(x), Wide))
  }

  /** A store of `x` in slots `v` (old) and `w` (new) spares a variable in old slot `u`, new slot `z`. */
  lemma StoreSpares(L: map<int, Value>, L': map<int, Value>, v: int, w: int, x: Value, u: int, z: int)
    requires u in L && z in L' && L'[z] == Image(L[u])
    requires u != v && z != w
    requires x.Long? ==> z != w + 1
    requires L[u].Long? ==> z + 1 != w
    ensures z in StoreAt(L', w, Image(x), Wide) && StoreAt(L', w, Image(x), Wide)[z] == Image(L[u])
  {
  }

  /** The old and the new form of a store have the same effect, slots that a wide value covers included. */
  lemma StoreKeeps(params: seq<Ty>, v: int, L: map<int, Value>, L': map<int, Value>, x: Value)
    requires Sound(params, L) && Agree(params, L, L') && StoreAllowed(params, TypeOf(x), v)
    ensures StoreKeepsAgreement(params, v, L, L', x)
  {
    var after, w := StoreAt(L, v, x, Wide), Renumber(params, v);
    UsableRenumber(params, v);
    forall u | u in after
      ensures Agrees(params, after, u, StoreAt(L', w, Image(x), Wide))
    {
      if u != v {
        StoreKeepsOther(params, v, L, L', x, u);
      }
    }
  }

  lemma StoreKeepsOther(params: seq<Ty>, v: int, L: map<int, Value>, L': map<int, Value>, x: Value, u: int)
    requires Sound(params, L) && Agree(params, L, L') && StoreAllowed(params, TypeOf(x), v)
    requires u in StoreAt(L, v, x, Wide) && u != v
    ensures Agrees(params, StoreAt(L, v, x, Wide), u, StoreAt(L', Renumber(params, v), Image(x), Wide))
  {
    var w, z := Renumber(params, v), Renumber(params, u);
    assert Agrees(params, L, u, L') && StoreAllowed(params, TypeOf(L[u]), u);
    assert u + 1 == v ==> !Wide(L[u]);
    assert v + 1 == u ==> !Wide(x);
    if u < v { RenumberSpacing(params, u, v); } else { RenumberSpacing(params, v, u); }
    StoreSpares(L, L', v, w, x, u, z);
  }

  lemma StoreSound(params: seq<Ty>, v: int, L: map<int, Value>, x: Value)
    requires Sound(params, L) && StoreAllowed(params, TypeOf(x), v)
    ensures Sound(params, StoreAt(L, v, x, Wide))
  {
    var after := StoreAt(L, v, x, Wide);
    forall u | u in after
      ensures StoreAllowed(params, TypeOf(after[u]), u) && (Wide(after[u]) ==> u + 1 !in after)
    {
      assert u != v ==> u in L && after[u] == L[u];
    }
  }

  /** A slot inside a parameter has no new number. */
  lemma StoreInside(params: seq<Ty>, v: int, x: Value)
    requires !Usable(params, v)
    ensures !StoreKeepsAgreement(params, v, map[], map[], x)
  {
    var after, after' := StoreAt(map[], v, x, Wide), StoreAt(map[], Renumber(params, v), Image(x), Wide);
    assert Renumber(params, v) < 0;
    assert v in after && !Agrees(params, after, v, after');
  }

  /** The parameter after a tight slot. */
  lemma AfterTight(params: seq<Ty>, v: int)
    requires Tight(params, v)
    ensures Usable(params, v + 2) && ParamAt(params, v + 2).Some?
    ensures Renumber(params, v + 2) == Renumber(params, v) + 1 > 0
  {
    hide OldSize, NewSize;
    var k := ParamAt(params, v).value;
    assert params[..k + 1] == params[..k] + [params[k]];
    SizeSnoc(params[..k], params[k]);
    ParamAtStart(params, k + 1);
    SizesGrow(params, k + 1, |params| - 1);
  }

  /** A long in a tight slot overwrites the parameter after it. */
  lemma StoreOverlaps(params: seq<Ty>, v: int, x: Value) returns (L: map<int, Value>, L': map<int, Value>)
    requires Tight(params, v) && x.Long?
    ensures Sound(params, L) && Agree(params, L, L') && !StoreKeepsAgreement(params, v, L, L', x)
  {
    hide ParamAt, Renumber;
    AfterTight(params, v);
    var u, z := v + 2, Renumber(params, v + 2);
    L, L' := map[u := Int(0)], map[z := Int(0)];
    assert forall k | k in L :: Agrees(params, L, k, L');
    var after, after' := StoreAt(L, v, x, Wide), StoreAt(L', z - 1, x, Wide);
    assert u in after && z !in after';
    assert !Agrees(params, after, u, after');
  }

  /** Exactly the allowed stores are rewritten correctly. */
  lemma StoreExact(params: seq<Ty>, t: Ty, v: int)
    requires t in {TInt, TLong, TDouble, TRef}
    ensures StoreAllowed(params, t, v) <==>
      forall L, L', x | Sound(params, L) && Agree(params, L, L') && TypeOf(x) == t ::
        StoreKeepsAgreement(params, v, L, L', x)
  {
    if StoreAllowed(params, t, v) {
      forall L, L', x | Sound(params, L) && Agree(params, L, L') && TypeOf(x) == t
        ensures StoreKeepsAgreement(params, v, L, L', x)
      {
        StoreKeeps(params, v, L, L', x);
      }
    } else {
      if !Usable(params, v) {
        var x := if t == TInt then Int(0) else if t == TLong then Long(0) else if t == TDouble then Double(0.0)
          else Ref(0);
        StoreInside(params, v, x);
        assert Sound(params, map[]) && Agree(params, map[], map[]);
      } else {
        var L, L' := StoreOverlaps(params, v, Long(0));
      }
    }
  }

  /** Parameters double and int: a long in place of the first one takes the slot that the second one has got. */
  lemma LongOverParameters() returns (L: map<int, Value>, L': map<int, Value>)
    ensures Renumber([TDouble, TInt], 0) == 0 && Renumber([TDouble, TInt], 2) == 1
    ensures Sound([TDouble, TInt], L) && Agree([TDouble, TInt], L, L')
    ensures !StoreKeepsAgreement([TDouble, TInt], 0, L, L', Long(0))
  {
    assert [TDouble, TInt][1..] == [TInt] && [TInt][1..] == [];
    assert [TDouble, TInt][..1] == [TDouble] && [TDouble][1..] == [];
    assert Tight([TDouble, TInt], 0);
    L, L' := StoreOverlaps([TDouble, TInt], 0, Long(0));
  }

  //---------------------------------------------------------------- the variables of a call

  lemma {:induction false} LayOutKeys(vs: seq<Value>, slot: int, v: int)
    ensures v in LayOut(vs, slot) <==> ParamAt(Map(TypeOf, vs), v - slot).Some?
    ensures v in LayOut(vs, slot) ==> LayOut(vs, slot)[v] == vs[ParamAt(Map(TypeOf, vs), v - slot).value]
  {
    if vs != [] {
      assert Map(TypeOf, vs)[1..] == Map(TypeOf, vs[1..]);
      LayOutKeys(vs[1..], slot + Size(TypeOf(vs[0])), v);
      if v == slot { assert v !in LayOut(vs[1..], slot + Size(TypeOf(vs[0]))); }
    }
  }

  lemma {:induction false} NewIsOldOfImage(ts: seq<Ty>)
    ensures NewSize(ts) == OldSize(Map(ImageTy, ts))
  {
    if ts != [] {
      assert Map(ImageTy, ts)[1..] == Map(ImageTy, ts[1..]);
      NewIsOldOfImage(ts[1..]);
    }
  }

  /** The new descriptor lays out its arguments exactly where renumbering looks for them. */
  lemma CallAgrees(vs: seq<Value>)
    ensures Agree(Map(TypeOf, vs), LayOut(vs, 0), LayOut(Map(Image, vs), 0))
  {
    hide Map, ParamAt, LayOut;
    var params, image := Map(TypeOf, vs), Map(Image, vs);
    var L, L' := LayOut(vs, 0), LayOut(image, 0);
    assert Map(TypeOf, image) == Map(ImageTy, params);
    forall v | v in L
      ensures Agrees(params, L, v, L')
    {
      LayOutKeys(vs, 0, v);
      var k := ParamAt(params, v).value;
      StartsMove(params, k);
      LayOutKeys(image, 0, Renumber(params, v));
    }
  }

  lemma StartsMove(params: seq<Ty>, k: nat)
    requires k < |params|
    ensures OldSize(params[..k]) <= LastStart(params)
    ensures ParamAt(params, OldSize(params[..k])) == Some(k)
    ensures ParamAt(Map(ImageTy, params), Renumber(params, OldSize(params[..k]))) == Some(k)
  {
    hide ParamAt, OldSize, NewSize, ImageTy;
    ParamAtStart(params, k);
    SizesGrow(params, k, |params| - 1);
    NewIsOldOfImage(params[..k]);
    assert Map(ImageTy, params)[..k] == Map(ImageTy, params[..k]);
    ParamAtStart(Map(ImageTy, params), k);
  }

  lemma CallSound(vs: seq<Value>)
    ensures Sound(Map(TypeOf, vs), LayOut(vs, 0))
  {
    hide Map, ParamAt, LayOut;
    var params, L := Map(TypeOf, vs), LayOut(vs, 0);
    forall v | v in L
      ensures StoreAllowed(params, TypeOf(L[v]), v) && (Wide(L[v]) ==> v + 1 !in L)
    {
      LayOutKeys(vs, 0, v);
      LayOutKeys(vs, 0, v + 1);
      var k := ParamAt(params, v).value;
      assert params[..k + 1] == params[..k] + [params[k]];
      SizeSnoc(params[..k], params[k]);
      if v + 1 in L && Wide(L[v]) {
        var j := ParamAt(params, v + 1).value;
        if j <= k { SizesGrow(params, j, k); } else { SizesGrow(params, k + 1, j); }
        assert false;
      }
    }
  }
}

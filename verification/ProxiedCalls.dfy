/** A proxied call of a rewritten method, seen as one instruction of the small JVM. */
module ProxiedCalls {
  import opened Collections
  import opened Opcodes
  import opened Descriptors
  import opened ProxyMachine
  import opened ProxyCode
  import opened StackEffects
  import opened ConvertMethodProof
  import opened ProxyCallProof
  import opened ProxyCorrectness
  import J = Jvm
  import FloatReplacement

  //---------------------------------------------------------------- types and descriptors

  /** The types of the small JVM: double is the only one that is replaced. */
  predicate Modelled(t: JType) { t == Prim(DOUBLE) || (!MentionsFloat(t) && t != Void && t != DOUBLE_WRAPPER) }

  function Kind(t: JType): J.Ty {
    match t
    case Prim(s) => if s == LONG then J.TLong else if s == DOUBLE then J.TDouble else J.TInt
    case Obj(_) => if t == DOUBLE_WRAPPER then J.TWrapper else J.TRef
    case _ => J.TRef
  }

  function Kinds(d: MethodType): J.Descriptor {
    J.Descriptor(true, Map(Kind, d.args), if d.ret == Void then None else Some(Kind(d.ret)))
  }

  /** A virtual call in rewritten code of a method of a rewritten class. */
  predicate Describes(c: Context, desc: J.Descriptor) {
    && c.opcode == INVOKEVIRTUAL && c.owner != FLOAT_CLASS && c.owner != DOUBLE_CLASS && !c.disguised
    && !(c.name == "clone" && c.jDesc == MethodType([], OBJECT))
    && (forall i | 0 <= i < c.N() :: Modelled(c.OutArgs()[i]))
    && (c.jDesc.ret == Void || Modelled(c.jDesc.ret))
    && desc == Kinds(c.jDesc)
  }

  lemma KindReplaced(t: JType)
    requires Modelled(t)
    ensures Kind(AfterFloatReplacement(t)) == J.ImageTy(Kind(t))
    ensures AfterFloatReplacement(t) != t <==> Kind(t) == J.TDouble
  {
    ReplacedExactly(t);
  }

  /** The descriptor that is looked for is the one that the method has after rewriting. */
  lemma LooksForImage(c: Context, desc: J.Descriptor)
    requires Describes(c, desc)
    ensures Kinds(CojacDescriptor(c)) == J.ImageDescriptor(desc)
  {
    hide AfterFloatReplacement, Kind, Modelled;
    var args, image := Kinds(CojacDescriptor(c)).args, J.ImageDescriptor(desc).args;
    forall i | 0 <= i < c.N() ensures args[i] == image[i] {
      KindReplaced(c.OutArgs()[i]);
      assert args[i] == Kind(CojacDescriptor(c).args[i]) && image[i] == J.ImageTy(desc.args[i]);
    }
    assert args == image;
    if c.jDesc.ret != Void { KindReplaced(c.jDesc.ret); }
    assert AfterFloatReplacement(c.jDesc.ret) == Void <==> c.jDesc.ret == Void;
  }

  predicate NeedsConversion(c: Context) {
    || c.owner == FLOAT_CLASS || c.owner == DOUBLE_CLASS
    || (c.name == "clone" && c.jDesc == MethodType([], OBJECT))
    || (exists i | 0 <= i < c.N() :: AfterFloatReplacement(c.OutArgs()[i]) != c.OutArgs()[i])
    || AfterFloatReplacement(c.jDesc.ret) != c.jDesc.ret || c.disguised
  }

  /** A call is left alone exactly if its descriptor and the class of its receiver stay as they are, it does not clone,
      and no numbers are disguised as objects: what is called then gets what it expects. */
  lemma NeedsExactly(c: Context)
    ensures !NeedsConversion(c) <==>
      && CojacDescriptor(c) == c.jDesc && !c.disguised && (c.owner.Obj? ==> AfterFloatReplacement(c.owner) == c.owner)
      && !(c.name == "clone" && c.jDesc == MethodType([], OBJECT))
  {
    hide AfterFloatReplacement;
    var args := CojacDescriptor(c).args;
    assert |args| == c.N() && forall i | 0 <= i < c.N() :: args[i] == AfterFloatReplacement(c.OutArgs()[i]);
    if forall i | 0 <= i < c.N() :: AfterFloatReplacement(c.OutArgs()[i]) == c.OutArgs()[i] {
      assert args == c.OutArgs();
    }
    ReplacedExactly(c.owner);
  }

  /** The generator proxies the calls that the rewriter's specification says it does. */
  lemma ProxiedExactly(c: Context, desc: J.Descriptor)
    requires Describes(c, desc)
    ensures NeedsConversion(c) <==> FloatReplacement.GoesThroughProxy(c.opcode, desc)
  {
    hide AfterFloatReplacement, Kind, Modelled;
    forall i | 0 <= i < c.N()
      ensures AfterFloatReplacement(c.OutArgs()[i]) != c.OutArgs()[i] <==> desc.args[i] == J.TDouble
    {
      KindReplaced(c.OutArgs()[i]);
    }
    if c.jDesc.ret != Void { KindReplaced(c.jDesc.ret); }
    assert AfterFloatReplacement(Void) == Void by { ReplacedExactly(Void); }
  }

  //---------------------------------------------------------------- the call

  /** What Method.invoke passes for an element of its array, to a parameter of type `t`. */
  function Passed(t: JType, v: Val): Val { if t.Prim? && v.Boxed? && v.sort == t.sort then v.v else v }

  /** Boxing by the proxy and unboxing by reflection cancel: the method gets the values from the stack. */
  lemma BoxedArePassed(c: Context, args: seq<Val>)
    requires |args| == c.N()
    ensures |BoxedArguments(c, args)| == |CojacDescriptor(c).args| == c.N()
    ensures forall i | 0 <= i < c.N() :: Passed(CojacDescriptor(c).args[i], BoxedArguments(c, args)[i]) == args[i]
  {
    hide AfterFloatReplacement;
  }

  /** The types of receiver and arguments are those that the call in the small JVM wants. */
  lemma StackAsWanted(c: Context, desc: J.Descriptor, t: Val, args: seq<Val>)
    requires Describes(c, desc) && WellTypedArguments(c, args) && Kind(TypeOf(t)) == J.TRef
    ensures Map(v => Kind(TypeOf(v)), [t] + args) == J.Params(J.ImageDescriptor(desc))
  {
    hide AfterFloatReplacement, Kind, Modelled, TypeOf, Describes, Map, J.ImageDescriptor;
    LooksForImage(c, desc);
    KindsOfMany(t, args, c.InArgs());
  }

  lemma KindsOfMany(t: Val, args: seq<Val>, types: seq<JType>)
    requires Map(TypeOf, args) == types
    ensures Map(v => Kind(TypeOf(v)), [t] + args) == [Kind(TypeOf(t))] + Map(Kind, types)
  {
    hide Kind, TypeOf;
    forall i | 0 <= i < |args| ensures Kind(TypeOf(args[i])) == Kind(types[i]) {
      assert Map(TypeOf, args)[i] == TypeOf(args[i]);
    }
  }

  lemma ResultAsWanted(c: Context, desc: J.Descriptor, log: seq<Event>)
    requires Describes(c, desc)
    ensures Map(v => Kind(TypeOf(v)), ReflectedResult(c, log)) == J.Maybe(J.ImageDescriptor(desc).ret)
  {
    hide AfterFloatReplacement, Kind, Modelled;
    LooksForImage(c, desc);
    assert AfterFloatReplacement(c.jDesc.ret) == Void <==> c.jDesc.ret == Void;
  }

  /** Where a method is found, the code of a proxied call does what the instruction InvokeProxied does: receiver and
      arguments, of the types that the replaced descriptor says, are replaced by the result, of the type that it says;
      the method with this name and descriptor is called once, on the receiver, with the arguments from the stack. */
  lemma ProxiedCallIsCall(c: Context, desc: J.Descriptor, order: seq<nat>,
      s: State, b: seq<Val>, t: Val, args: seq<Val>) returns (h: seq<seq<Val>>, result: seq<Val>, boxed: seq<Val>)
    requires Describes(c, desc) && WellTypedArguments(c, args) && ListsArrays(c, order) && Kind(TypeOf(t)) == J.TRef
    ensures Map(v => Kind(TypeOf(v)), [t] + args) == J.Params(J.ImageDescriptor(desc))
    ensures Map(v => Kind(TypeOf(v)), result) == J.Maybe(J.ImageDescriptor(desc).ret)
    ensures Kinds(CojacDescriptor(c)) == J.ImageDescriptor(desc)
    ensures |boxed| == |args| == |CojacDescriptor(c).args|
    ensures forall i | 0 <= i < |args| :: Passed(CojacDescriptor(c).args[i], boxed[i]) == args[i]
    ensures var m := Reflection(c.name, CojacDescriptor(c));
      var log := s.log + [LookedUp(t, c.name, CojacDescriptor(c)), Reflected(m, t, boxed)];
      s.heap <= h && Run(true, EmittedCall(c, true, order), On(s, b, [t] + args))
        == Some(On(s.(heap := h, log := log), b, result))
  {
    hide Map, Run, BetterCall, Kind, ReflectedResult, BoxedArguments, Wide, Kinds, Modelled, Passed, J.Params;
    assert !Wide(t) by { RefIsNarrow(t); }
    h := BetterCallCorrect(true, c, order, s, b, t, args);
    StackAsWanted(c, desc, t, args);
    LooksForImage(c, desc);
    boxed := BoxedArguments(c, args);
    BoxedArePassed(c, args);
    var looked, called := LookedUp(t, c.name, CojacDescriptor(c)),
      Reflected(Reflection(c.name, CojacDescriptor(c)), t, boxed);
    assert s.log + [looked] + [called] == s.log + [looked, called];
    result := ReflectedResult(c, s.log + [looked, called]);
    ResultAsWanted(c, desc, s.log + [looked, called]);
  }

  lemma RefIsNarrow(t: Val)
    requires Kind(TypeOf(t)) == J.TRef
    ensures !Wide(t)
  {
  }

  /** Where none is found, the one call is of the original descriptor. */
  lemma FallbackCallsOriginal(c: Context, desc: J.Descriptor, order: seq<nat>, s: State, b: seq<Val>, t: Val,
      args: seq<Val>)
    requires Describes(c, desc) && WellTypedArguments(c, args) && ListsArrays(c, order) && Kind(TypeOf(t)) == J.TRef
    ensures Kinds(c.jDesc) == desc
    ensures var after := Run(false, EmittedCall(c, true, order), On(s, b, [t] + args));
      && after.Some? && |after.value.log| > |s.log| + 1
      && after.value.log[|s.log| + 1].Called? && after.value.log[|s.log| + 1].c.jDesc == c.jDesc
  {
    hide Run, BetterCall, Kind, Wide, Delivered, Merging, JavaArguments, Modelled, Kinds;
    assert !Wide(t) by { RefIsNarrow(t); }
    var h := BetterCallCorrect(false, c, order, s, b, t, args);
  }
}

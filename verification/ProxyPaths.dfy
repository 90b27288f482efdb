/** Which way a proxied call takes, and what it does to the outside, for every kind of call. */
module ProxyPaths {
  import opened Collections
  import opened Opcodes
  import opened Descriptors
  import opened ProxyMachine
  import opened ProxyCode
  import opened StackEffects
  import opened ConvertMethodProof
  import opened ProxyCallProof
  import opened ProxyCorrectness

  /** The calls of which a method is looked up by reflection. */
  predicate ByReflection(op: Opcode, tryUnproxied: bool) {
    match op
    case INVOKEINTERFACE => true
    case INVOKEVIRTUAL => tryUnproxied
    case INVOKESTATIC | INVOKESPECIAL => false
  }

  /** The method is called once: by reflection where one is found, else with receiver and arguments converted; then
      each array is merged back once. */
  function Events(f: bool, c: Context, tryUnproxied: bool, order: seq<nat>, t: Option<Val>, args: seq<Val>): seq<Event>
    requires c.Valid() && |args| == c.N() && ListsArrays(c, order)
    requires t.Some? <==> c.opcode != INVOKESTATIC
  {
    var lookedUp :=
      if ByReflection(c.opcode, tryUnproxied) then [LookedUp(t.value, c.name, CojacDescriptor(c))] else [];
    lookedUp +
    (if ByReflection(c.opcode, tryUnproxied) && f then
      [Reflected(Reflection(c.name, CojacDescriptor(c)), t.value, BoxedArguments(c, args))]
    else [Called(c, ConvertedTarget(c, t), JavaArguments(c, args))] + Merging(c, args, order))
  }

  /** Whatever the opcode is, and whatever the caller asks for: the code that is emitted runs to its end, leaves what
      is below receiver and arguments as it was, and does just this to the outside. */
  lemma ProxyCallRuns(f: bool, c: Context, tryUnproxied: bool, order: seq<nat>,
      s: State, b: seq<Val>, t: Option<Val>, args: seq<Val>) returns (after: State, result: seq<Val>)
    requires WellTypedArguments(c, args) && ListsArrays(c, order)
    requires (t.Some? <==> c.opcode != INVOKESTATIC) && (t.Some? ==> !Wide(t.value))
    ensures |args| == c.N() && c.Valid()
    ensures Run(f, EmittedCall(c, tryUnproxied, order), On(s, b, Receiver(t) + args)) == Some(after)
    ensures after.stack == b + result && |result| <= 1 && (result == [] <==> c.jDesc.ret == Void)
    ensures after.log == s.log + Events(f, c, tryUnproxied, order, t, args)
  {
    hide Run, BetterCall, DirectCall, Wide, BoxedArguments, Merging, JavaArguments, ConvertedTarget, CojacVersion,
      ListsArrays, WellTypedArguments, Descriptors.AfterFloatReplacement;
    if ByReflection(c.opcode, tryUnproxied) {
      var h := BetterCallCorrect(f, c, order, s, b, t.value, args);
      after := BetterOutcome(f, c, c, order, s, b, t.value, args, h);
      assert Receiver(t) + args == [t.value] + args;
      assert ConvertedTarget(c, t) == Some(JavaTarget(c, t.value)) by { TargetOf(c, t.value); }
    } else {
      var h := DirectCallCorrect(f, c, order, s, b, t, args);
      after := DirectOutcome(c, c, order, s, b, t, args, h);
    }
    result := after.stack[|b|..];
    assert after.stack == b + result;
  }

  lemma TargetOf(c: Context, t: Val)
    ensures ConvertedTarget(c, Some(t)) == Some(JavaTarget(c, t))
  {
  }

  predicate UsesReflection(e: Event) { e.LookedUp? || e.Reflected? }

  /** Reflection is used for interface calls, and for virtual calls where that is asked for, and for no others. */
  lemma ReflectionExactly(f: bool, c: Context, tryUnproxied: bool, order: seq<nat>, t: Option<Val>, args: seq<Val>)
    requires c.Valid() && |args| == c.N() && ListsArrays(c, order) && (t.Some? <==> c.opcode != INVOKESTATIC)
    ensures (exists e :: e in Events(f, c, tryUnproxied, order, t, args) && UsesReflection(e))
      <==> c.opcode == INVOKEINTERFACE || (c.opcode == INVOKEVIRTUAL && tryUnproxied)
  {
    hide BoxedArguments, JavaArguments, ConvertedTarget;
    var es := Events(f, c, tryUnproxied, order, t, args);
    if ByReflection(c.opcode, tryUnproxied) {
      assert es[0] in es && UsesReflection(es[0]);
    } else {
      forall e | e in es ensures !UsesReflection(e) {
        assert e in Merging(c, args, order) || e.Called?;
      }
    }
  }

  //---------------------------------------------------------------- what is passed

  /** The receiver of a virtual call has the type of the original owner; that of any other call is left alone. */
  lemma ReceiverTyped(c: Context, t: Val)
    requires c.Valid()
    ensures c.opcode == INVOKEVIRTUAL && TypeOf(t) == AfterFloatReplacement(c.owner)
      ==> TypeOf(JavaTarget(c, t)) == c.owner
    ensures c.opcode != INVOKEVIRTUAL ==> JavaTarget(c, t) == t
  {
    ReplacedExactly(c.owner);
  }

  /** An argument is passed as it is exactly if its type has no float or double, and it is no object, or array of
      objects, of a method that looks for numbers among these. */
  lemma PassedExactly(c: Context, i: nat, v: Val)
    requires c.Valid() && i < c.N()
    ensures JavaArgument(c, i, v) == v <==>
      var t := c.OutArgs()[i];
      AfterFloatReplacement(t) == t && !(c.disguised && t in {OBJECT, OBJECT_ARRAY})
  {
    var t := c.OutArgs()[i];
    ReplacedExactly(t);
    if t.Arr? { assert MentionsFloat(t) ==> MentionsFloat(t.elem); }
    if MentionsFloat(t) || (c.disguised && t in {OBJECT, OBJECT_ARRAY}) {
      assert Depth(JavaArgument(c, i, v)) > Depth(v);
    }
  }

  /** The event merges an array of type `from` into one of type `into`. */
  predicate MergesInto(e: Event, into: JType, from: JType) {
    e.Merged? && TypeOf(e.cojac) == into && TypeOf(e.original) == from
  }

  /** Arrays are merged from the original type into wrappers. */
  lemma MergedTyped(c: Context, args: seq<Val>, order: seq<nat>)
    requires WellTypedArguments(c, args) && c.Valid() && |args| == c.N() && ListsArrays(c, order)
    ensures var merged := Merging(c, args, order);
      forall k | 0 <= k < |order| :: MergesInto(merged[k], c.InArgs()[order[k]], c.OutArgs()[order[k]])
  {
    hide Map, TypeOf, JavaArgument;
    forall k | 0 <= k < |order| ensures TypeOf(args[order[k]]) == c.InArgs()[order[k]] {
      assert Map(TypeOf, args)[order[k]] == TypeOf(args[order[k]]);
    }
  }

  /** A result is delivered as it is exactly if its type has no float or double and is not made of objects, or if it
      is an array of Float or Double. */
  lemma DeliveredExactly(ret: JType, v: Val)
    requires WellFormed(ret)
    ensures CojacVersion(ret, v) == v <==>
      JWrapperArray(ret) || (AfterFloatReplacement(ret) == ret && ret != OBJECT && !(ret.Arr? && ret.elem == OBJECT))
  {
    ReplacedExactly(ret);
    if ret.Arr? { assert MentionsFloat(ret) ==> MentionsFloat(ret.elem); }
    if CojacVersion(ret, v) != v { assert Depth(CojacVersion(ret, v)) > Depth(v) || JWrapperArray(ret); }
    assert CojacVersion(ret, v).Converted? && CojacVersion(ret, v).v == v ==> Depth(CojacVersion(ret, v)) > Depth(v);
  }

  /** How often a value has been boxed or converted. */
  function Depth(v: Val): nat {
    match v
    case Boxed(_, w) => 1 + Depth(w)
    case Converted(_, _, w) => 1 + Depth(w)
    case _ => 0
  }
}

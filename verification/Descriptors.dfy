/** Types as they appear in method descriptors, and what the replacement of floats makes of them. */
module Descriptors {
  import opened Collections
  import opened Opcodes

  datatype Sort = BOOLEAN | BYTE | CHAR | SHORT | INT | LONG | FLOAT | DOUBLE

  /** `Arr(n, t)` has n dimensions and elements of type t, which is no array. */
  datatype JType = Void | Prim(sort: Sort) | Obj(name: string) | Arr(dims: nat, elem: JType)

  const FLOAT_CLASS: JType := Obj("java/lang/Float")
  const DOUBLE_CLASS: JType := Obj("java/lang/Double")
  const OBJECT: JType := Obj("java/lang/Object")
  const OBJECT_ARRAY: JType := Arr(1, OBJECT)
  const FLOAT_WRAPPER: JType := Obj("com/github/cojac/models/wrappers/CommonFloat")
  const DOUBLE_WRAPPER: JType := Obj("com/github/cojac/models/wrappers/CommonDouble")

  /** What ASM builds: arrays of at least one dimension, of elements that are values but no arrays. */
  predicate WellFormed(t: JType) {
    t.Arr? ==> t.dims >= 1 && (t.elem.Prim? || t.elem.Obj?)
  }

  function Size(t: JType): nat {
    if t == Void then 0 else if t == Prim(LONG) || t == Prim(DOUBLE) then 2 else 1
  }

  /** Float, float, Double, double and arrays of them become wrappers and arrays of wrappers. */
  function AfterFloatReplacement(t: JType): (r: JType)
    ensures WellFormed(t) ==> WellFormed(r)
    ensures Size(r) == (if t == Prim(DOUBLE) then 1 else Size(t))
    ensures r != Prim(FLOAT) && r != Prim(DOUBLE) && (r == Void <==> t == Void) && (r.Arr? <==> t.Arr?)
  {
    if t == FLOAT_CLASS || t == Prim(FLOAT) then FLOAT_WRAPPER
    else if t == DOUBLE_CLASS || t == Prim(DOUBLE) then DOUBLE_WRAPPER
    else if t.Arr? then Arr(t.dims, AfterFloatReplacement(t.elem))
    else t
  }

  /** A type is left alone exactly when no float or double occurs in it. */
  predicate MentionsFloat(t: JType) {
    match t
    case Void => false
    case Prim(s) => s == FLOAT || s == DOUBLE
    case Obj(_) => t == FLOAT_CLASS || t == DOUBLE_CLASS
    case Arr(_, e) => MentionsFloat(e)
  }

  lemma {:induction false} ReplacedExactly(t: JType)
    ensures AfterFloatReplacement(t) == t <==> !MentionsFloat(t)
    ensures AfterFloatReplacement(AfterFloatReplacement(t)) == AfterFloatReplacement(t)
  {
    if t.Arr? { ReplacedExactly(t.elem); }
  }

  datatype MethodType = MethodType(args: seq<JType>, ret: JType)

  function ReplaceFloatMethodDescription(d: MethodType): MethodType {
    MethodType(Map(AfterFloatReplacement, d.args), AfterFloatReplacement(d.ret))
  }

  method ReplacesFloatMethodDescription(d: MethodType) returns (r: MethodType)
    ensures r == ReplaceFloatMethodDescription(d)
  {
    var after := [];
    for i := 0 to |d.args|
      invariant |after| == i && forall k | 0 <= k < i :: after[k] == AfterFloatReplacement(d.args[k])
    {
      after := after + [AfterFloatReplacement(d.args[i])];
    }
    assert after == Map(AfterFloatReplacement, d.args);
    r := MethodType(after, AfterFloatReplacement(d.ret));
  }

  /** A call whose arguments have to be converted. */
  datatype Context = Context(opcode: Opcode, owner: JType, name: string, jDesc: MethodType, disguised: bool) {
    function OutArgs(): seq<JType> { jDesc.args }

    function InArgs(): (r: seq<JType>)
      ensures |r| == |jDesc.args|
    {
      Map(AfterFloatReplacement, jDesc.args)
    }

    function N(): nat { |jDesc.args| }

    function CojacReturn(): JType { AfterFloatReplacement(jDesc.ret) }

    predicate Valid() {
      && (owner.Obj? || owner.Arr?) && WellFormed(owner) && WellFormed(jDesc.ret)
      && forall i | 0 <= i < |jDesc.args| :: WellFormed(jDesc.args[i]) && jDesc.args[i] != Void
    }
  }

  /** Methods declared on Object that look for real numbers among their arguments. */
  const DISGUISED_METHODS: set<string> := {
    "java/io/PrintStream/printf", "java/io/PrintWriter/printf", "java/io/Console/printf",
    "java/lang/String/format", "java/util/Formatter/format", "java/text/Format/format",
    "java/text/MessageFormat/format", "java/text/NumberFormat/format"}

  class ConversionContext {
    var outArgs: seq<JType>
    var inArgs: seq<JType>
    var typeConversions: map<nat, JType>
    var convertedArrays: map<nat, JType>
    var shouldObjParamBeConverted: bool
    const opcode: Opcode
    const owner: JType
    const name: string
    const jDesc: MethodType
    const cDesc: MethodType

    /** The fields say what the pure description says. */
    ghost predicate Describes(c: Context)
      reads this
    {
      && c.opcode == opcode && c.owner == owner && c.name == name && c.jDesc == jDesc
      && outArgs == c.OutArgs() && inArgs == c.InArgs() && cDesc == ReplaceFloatMethodDescription(jDesc)
      && shouldObjParamBeConverted == c.disguised
      && (forall i: nat :: i in typeConversions <==> i < c.N() && MentionsFloat(c.OutArgs()[i]))
      && (forall i | i in typeConversions :: typeConversions[i] == c.OutArgs()[i])
      && (forall i: nat :: i in convertedArrays <==> i < c.N() && c.OutArgs()[i].Arr?)
    }

    /** The call as it stands in the original code. */
    function Site(): Context
      reads this
    {
      Context(opcode, owner, name, jDesc, shouldObjParamBeConverted)
    }

    constructor (opcode: Opcode, owner: JType, name: string, desc: MethodType)
      ensures Describes(Context(opcode, owner, name, desc,
        owner.Obj? && owner.name + "/" + name in DISGUISED_METHODS))
    {
      this.opcode, this.owner, this.name, this.jDesc := opcode, owner, name, desc;
      var replaced := ReplacesFloatMethodDescription(desc);
      cDesc := replaced;
      outArgs := desc.args;
      inArgs := [];
      typeConversions, convertedArrays := map[], map[];
      shouldObjParamBeConverted := owner.Obj? && owner.name + "/" + name in DISGUISED_METHODS;
      new;
      TypesAfterReplacement();
      RememberArrays();
    }

    method TypesAfterReplacement()
      requires typeConversions == map[]
      modifies this`inArgs, this`typeConversions
      ensures inArgs == Map(AfterFloatReplacement, outArgs)
      ensures forall i: nat :: i in typeConversions <==> i < |outArgs| && MentionsFloat(outArgs[i])
      ensures forall i | i in typeConversions :: typeConversions[i] == outArgs[i]
    {
      hide AfterFloatReplacement, MentionsFloat;
      var cojArgs := [];
      for i := 0 to |outArgs|
        invariant |cojArgs| == i && forall k | 0 <= k < i :: cojArgs[k] == AfterFloatReplacement(outArgs[k])
        invariant forall k: nat :: k in typeConversions <==> k < i && MentionsFloat(outArgs[k])
        invariant forall k | k in typeConversions :: typeConversions[k] == outArgs[k]
      {
        cojArgs := cojArgs + [AfterFloatReplacement(outArgs[i])];
        ReplacedExactly(outArgs[i]);
        if cojArgs[i] != outArgs[i] {
          typeConversions := typeConversions[i := outArgs[i]];
        }
      }
      inArgs := cojArgs;
    }

    method RememberArrays()
      requires convertedArrays == map[]
      modifies this`convertedArrays
      ensures forall i: nat :: i in convertedArrays <==> i < |inArgs| && inArgs[i].Arr?
      ensures forall i | i in convertedArrays :: convertedArrays[i] == inArgs[i]
    {
      for i := 0 to |inArgs|
        invariant forall k: nat :: k in convertedArrays <==> k < i && inArgs[k].Arr?
        invariant forall k | k in convertedArrays :: convertedArrays[k] == inArgs[k]
      {
        if inArgs[i].Arr? {
          convertedArrays := convertedArrays[i := inArgs[i]];
        }
      }
    }
  }
}

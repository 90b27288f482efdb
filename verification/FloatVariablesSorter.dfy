/**
 Renumbering of local variables.  A double parameter shrinks from two slots to one, so
 the parameters move together; every other variable keeps its slot.
 */
module FloatVariablesSorter {
  import opened Collections
  import opened Jvm

  /** Slots taken by variables of these types, before and after the replacement. */
  function OldSize(ts: seq<Ty>): (n: nat)
    ensures |ts| <= n
  {
    if ts == [] then 0 else Size(ts[0]) + OldSize(ts[1..])
  }

  function NewSize(ts: seq<Ty>): (n: nat)
    ensures |ts| <= n <= OldSize(ts)
  {
    if ts == [] then 0 else Size(ImageTy(ts[0])) + NewSize(ts[1..])
  }

  /** The parameter whose old first slot is `v`; None for any other slot. */
  function ParamAt(params: seq<Ty>, v: int): (k: Option<nat>)
    ensures k.Some? ==> k.value < |params| && OldSize(params[..k.value]) == v
  {
    if params == [] then None
    else if v == 0 then Some(0)
    else
      match ParamAt(params[1..], v - Size(params[0]))
      case None => None
      case Some(k) =>
        assert params[..k + 1] == [params[0]] + params[1..][..k];
        assert params[..k + 1][1..] == params[1..][..k];
        Some(k + 1)
  }

  lemma {:induction false} ParamAtStart(params: seq<Ty>, k: nat)
    requires k < |params|
    ensures ParamAt(params, OldSize(params[..k])) == Some(k)
  {
    if k > 0 {
      assert params[..k] == [params[0]] + params[1..][..k - 1];
      ParamAtStart(params[1..], k - 1);
    }
  }

  lemma {:induction false} SizeSnoc(ts: seq<Ty>, t: Ty)
    ensures OldSize(ts + [t]) == OldSize(ts) + Size(t)
    ensures NewSize(ts + [t]) == NewSize(ts) + Size(ImageTy(t))
  {
    if ts != [] {
      assert (ts + [t])[1..] == ts[1..] + [t];
      SizeSnoc(ts[1..], t);
    }
  }

  lemma {:induction false} SizesGrow(params: seq<Ty>, j: nat, k: nat)
    requires j <= k <= |params|
    ensures OldSize(params[..j]) + (k - j) <= OldSize(params[..k])
    ensures NewSize(params[..j]) + (k - j) <= NewSize(params[..k])
    ensures OldSize(params[..k]) - OldSize(params[..j]) >= NewSize(params[..k]) - NewSize(params[..j])
    decreases k - j
  {
    if j < k {
      assert params[..k] == params[..k - 1] + [params[k - 1]];
      SizeSnoc(params[..k - 1], params[k - 1]);
      SizesGrow(params, j, k - 1);
    }
  }

  /** The first slot of the last parameter; -1 without parameters. */
  function LastStart(params: seq<Ty>): int {
    if params == [] then -1 else OldSize(params[..|params| - 1])
  }

  /** What `remapFirstFrame` answers: -1 marks a slot inside a parameter. */
  function Renumber(params: seq<Ty>, v: int): int {
    if v > LastStart(params) then v
    else match ParamAt(params, v) case None => -1 case Some(k) => NewSize(params[..k])
  }

  /** Slots that may hold a variable: past the parameters, or where a parameter starts. */
  predicate Usable(params: seq<Ty>, v: int) {
    0 <= v && (v > LastStart(params) || ParamAt(params, v).Some?)
  }

  /** A double parameter that is followed by another one: its second slot is lost. */
  predicate Tight(params: seq<Ty>, v: int) {
    0 <= v < LastStart(params) && ParamAt(params, v).Some? && params[ParamAt(params, v).value] == TDouble
  }

  /** Renumbering keeps the order of variables, moves them down only, and leaves every two-slot variable
      its two slots unless it sits at a tight slot. */
  lemma RenumberSpacing(params: seq<Ty>, u: int, v: int)
    requires Usable(params, u) && Usable(params, v) && u < v
    ensures 0 <= Renumber(params, u) < Renumber(params, v) <= v
    ensures v >= u + 2 && !Tight(params, u) ==> Renumber(params, v) >= Renumber(params, u) + 2
  {
    var n := |params|;
    if u <= LastStart(params) {
      var j := ParamAt(params, u).value;
      SizesGrow(params, 0, j);
      if v <= LastStart(params) {
        var k := ParamAt(params, v).value;
        if k <= j { SizesGrow(params, k, j); }
        SizesGrow(params, 0, k);
        NextStart(params, j, k);
      } else {
        SizesGrow(params, 0, j);
      }
    }
  }

  /** Between the starts of parameters j < k: k starts later, and two slots later when its old start does. */
  lemma NextStart(params: seq<Ty>, j: nat, k: nat)
    requires j < k < |params|
    ensures NewSize(params[..j]) < NewSize(params[..k])
    ensures OldSize(params[..j]) < LastStart(params)
    ensures params[j] != TDouble && OldSize(params[..k]) >= OldSize(params[..j]) + 2 ==>
      NewSize(params[..k]) >= NewSize(params[..j]) + 2
  {
    SizesGrow(params, j, k);
    SizesGrow(params, j, |params| - 1);
    assert params[..j + 1] == params[..j] + [params[j]];
    SizeSnoc(params[..j], params[j]);
    SizesGrow(params, j + 1, k);
  }

  lemma UsableRenumber(params: seq<Ty>, v: int)
    ensures Usable(params, v) <==> 0 <= Renumber(params, v)
    ensures Usable(params, v) ==> Renumber(params, v) <= v
  {
    if v <= LastStart(params) && ParamAt(params, v).Some? {
      SizesGrow(params, 0, ParamAt(params, v).value);
    }
  }
}

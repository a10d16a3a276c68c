/** Unfolding the templates of a logical node, strictly or with warnings. */
module Expanding {
  import opened Results
  import opened Templates

  datatype SclError = BrokenReference | NoSuchAccessPoint | NoServer

  /** The children so far, and the tree of one more step if it has one. */
  function Appended(children: seq<Node>, tree: Option<Node>): seq<Node> {
    if tree.Some? then children + [tree.value] else children
  }

  /** The warnings of a step itself: an unknown basic type, and each DA left out for want of an FC. */
  function OwnWarnings(t: Templates, s: Step, bTypes: set<string>): nat {
    match s
    case DaStep(d, _) => if d.bType in bTypes then 0 else 1
    case DoStep(d) => if d.typeId in t.doTypes then WithoutFc(t.doTypes[d.typeId]) else 0
  }

  function WithoutFc(template: seq<DoChild>): nat {
    if template == [] then 0 else (if template[0].Da? && template[0].da.fc == "" then 1 else 0) + WithoutFc(template[1..])
  }

  /** How many warnings unfolding a step ends with: its own, and one for each broken reference. */
  function Warnings(t: Templates, s: Step, stack: set<TypeId>, bTypes: set<string>): nat
    decreases |AllIds(t) - stack|, 0, 0
  {
    if !Resolves(t, s, stack) then 1 + if s.DaStep? then OwnWarnings(t, s, bTypes) else 0
    else if IdOf(s).None? then OwnWarnings(t, s, bTypes)
    else
      StackGrows(t, s, stack);
      OwnWarnings(t, s, bTypes) + AllWarnings(t, Choices(t, s), stack + {IdOf(s).value}, bTypes)
  }

  function AllWarnings(t: Templates, ss: seq<Step>, stack: set<TypeId>, bTypes: set<string>): nat
    decreases |AllIds(t) - stack|, 1, |ss|
  {
    if ss == [] then 0 else Warnings(t, ss[0], stack, bTypes) + AllWarnings(t, ss[1..], stack, bTypes)
  }

  function LnWarnings(t: Templates, lnType: string, bTypes: set<string>): nat {
    if lnType in t.lnodeTypes then AllWarnings(t, TopSteps(t.lnodeTypes[lnType]), {}, bTypes) else 1
  }

  /** There is no warning exactly when nothing is broken, the step has none of its own, and there is none below it. */
  lemma {:induction false} NoWarnings(t: Templates, s: Step, stack: set<TypeId>, bTypes: set<string>)
    ensures Warnings(t, s, stack, bTypes) == 0 <==>
              !Broken(t, s, stack) && OwnWarnings(t, s, bTypes) == 0 && (IdOf(s).Some? ==>
                AllWarnings(t, Choices(t, s), stack + {IdOf(s).value}, bTypes) == 0)
    decreases |AllIds(t) - stack|, 0, 0
  {
    if Resolves(t, s, stack) && IdOf(s).Some? {
      StackGrows(t, s, stack);
      NoneWarned(t, Choices(t, s), stack + {IdOf(s).value}, bTypes);
    }
  }

  lemma {:induction false} NoneWarned(t: Templates, ss: seq<Step>, stack: set<TypeId>, bTypes: set<string>)
    ensures AllWarnings(t, ss, stack, bTypes) == 0 ==> !AnyBroken(t, ss, stack)
    decreases |AllIds(t) - stack|, 1, |ss|
  {
    if ss != [] {
      NoWarnings(t, ss[0], stack, bTypes);
      NoneWarned(t, ss[1..], stack, bTypes);
    }
  }

  /** The children so far and those still to come make up `all`. */
  predicate OnTrack(t: Templates, children: seq<Node>, todo: seq<Step>, stack: set<TypeId>, all: seq<Node>) {
    children + ExpandAll(t, todo, stack) == all
  }

  lemma OneStep(t: Templates, children: seq<Node>, s: Step, rest: seq<Step>, stack: set<TypeId>, all: seq<Node>, bTypes: set<string>)
    requires OnTrack(t, children, [s] + rest, stack, all)
    ensures AllWarnings(t, [s] + rest, stack, bTypes) == Warnings(t, s, stack, bTypes) + AllWarnings(t, rest, stack, bTypes)
    ensures OnTrack(t, Appended(children, Expand(t, s, stack)), rest, stack, all)
    ensures AnyBroken(t, [s] + rest, stack) == (Broken(t, s, stack) || AnyBroken(t, rest, stack))
  {
    hide Expand, Warnings, Broken, AllIds;
    var ss := [s] + rest;
    assert ss[0] == s && ss[1..] == rest;
    assert children + ExpandAll(t, ss, stack) == Appended(children, Expand(t, s, stack)) + ExpandAll(t, rest, stack);
  }

  lemma Start(t: Templates, steps: seq<Step>, stack: set<TypeId>)
    ensures OnTrack(t, [], steps, stack, ExpandAll(t, steps, stack))
  {
  }

  lemma End(t: Templates, children: seq<Node>, stack: set<TypeId>, all: seq<Node>, bTypes: set<string>)
    requires OnTrack(t, children, [], stack, all)
    ensures children == all && !AnyBroken(t, [], stack)
    ensures AllWarnings(t, [], stack, bTypes) == 0
  {
  }

  /** What one step unfolds into, and whether that is broken. */
  lemma Unfolded(t: Templates, s: Step, stack: set<TypeId>, bTypes: set<string>)
    ensures !Resolves(t, s, stack) ==>
              && Expand(t, s, stack) == None && Broken(t, s, stack)
              && Warnings(t, s, stack, bTypes) == 1 + if s.DaStep? then OwnWarnings(t, s, bTypes) else 0
    ensures Resolves(t, s, stack) && IdOf(s).None? ==> Warnings(t, s, stack, bTypes) == OwnWarnings(t, s, bTypes)
    ensures Resolves(t, s, stack) && IdOf(s).None? ==> Expand(t, s, stack) == Some(Node(s, [])) && !Broken(t, s, stack)
    ensures Resolves(t, s, stack) && IdOf(s).Some? ==>
              var inner := stack + {IdOf(s).value};
              && Expand(t, s, stack) == Some(Node(s, ExpandAll(t, Choices(t, s), inner)))
              && Broken(t, s, stack) == AnyBroken(t, Choices(t, s), inner)
              && Warnings(t, s, stack, bTypes) == OwnWarnings(t, s, bTypes) + AllWarnings(t, Choices(t, s), inner, bTypes)
              && |AllIds(t) - inner| < |AllIds(t) - stack|
  {
    if Resolves(t, s, stack) && IdOf(s).Some? {
      StackGrows(t, s, stack);
    }
  }

  /** The same for an attribute. */
  lemma AttributeUnfolded(t: Templates, d: DaDef, fc: string, stack: set<TypeId>, bTypes: set<string>)
    ensures var own, s := if d.bType in bTypes then 0 else 1, DaStep(d, fc);
            if d.bType == "Struct" && d.typeId in t.daTypes && DaId(d.typeId) !in stack then
              var inner, bdas := stack + {DaId(d.typeId)}, SubSteps(t.daTypes[d.typeId], fc);
              && Expand(t, s, stack) == Some(Node(s, ExpandAll(t, bdas, inner)))
              && Broken(t, s, stack) == AnyBroken(t, bdas, inner)
              && Warnings(t, s, stack, bTypes) == own + AllWarnings(t, bdas, inner, bTypes)
              && |AllIds(t) - inner| < |AllIds(t) - stack|
            else if d.bType == "Struct" || (d.bType == "Enum" && d.typeId !in t.enumTypes) then
              Expand(t, s, stack) == None && Broken(t, s, stack) && Warnings(t, s, stack, bTypes) == own + 1
            else
              Expand(t, s, stack) == Some(Node(s, [])) && !Broken(t, s, stack) && Warnings(t, s, stack, bTypes) == own
  {
    hide Expand, Broken, Warnings, AllIds, SubSteps;
    Unfolded(t, DaStep(d, fc), stack, bTypes);
  }

  lemma SubStepAt(bdas: seq<DaDef>, fc: string, i: nat)
    requires i < |bdas|
    ensures SubSteps(bdas[i..], fc) == [DaStep(bdas[i], fc)] + SubSteps(bdas[i + 1..], fc)
    ensures SubSteps(bdas[|bdas|..], fc) == []
  {
  }

  /** The steps of the data objects still to be built. */
  ghost function StepsFrom(defs: seq<DoDef>, i: nat): seq<Step>
    requires i <= |defs|
  {
    TopSteps(defs[i..])
  }

  lemma TopStepAt(defs: seq<DoDef>, i: nat)
    requires i < |defs|
    ensures StepsFrom(defs, i) == [DoStep(defs[i].(count := 0))] + StepsFrom(defs, i + 1)
  {
  }

  lemma FirstAndLast(defs: seq<DoDef>)
    ensures StepsFrom(defs, 0) == TopSteps(defs) && StepsFrom(defs, |defs|) == []
  {
    assert defs[0..] == defs;
  }

  lemma StepsAt(template: seq<DoChild>, i: nat)
    requires i < |template|
    ensures AllSteps(template, template[i..]) == StepsOf(template, template[i]) + AllSteps(template, template[i + 1..])
    ensures WithoutFc(template[i..]) ==
            (if template[i].Da? && template[i].da.fc == "" then 1 else 0) + WithoutFc(template[i + 1..])
  {
  }

  lemma FcAt(d: DaDef, fcs: seq<string>, j: nat, rest: seq<Step>)
    requires j < |fcs|
    ensures WithFcs(d, fcs[j..]) + rest == [DaStep(d, fcs[j])] + (WithFcs(d, fcs[j + 1..]) + rest)
  {
  }

  class Expander {
    const t: Templates
    const strict: bool
    const bTypes: set<string>
    var warnings: nat

    constructor (t: Templates, strict: bool, bTypes: set<string>)
      ensures this.t == t && this.strict == strict && this.bTypes == bTypes && warnings == 0
    {
      this.t, this.strict, this.bTypes, warnings := t, strict, bTypes, 0;
    }

    /** `broken`: raise when strict, else warn. */
    method Unresolved() returns (raised: bool)
      modifies this
      ensures raised == strict
      ensures warnings == old(warnings) + if strict then 0 else 1
    {
      if !strict {
        warnings := warnings + 1;
      }
      raised := strict;
    }

    /** A strict expansion raises where something is broken; one that does not raise has given its warnings. */
    ghost predicate Reports(raised: bool, broken: bool, given: nat, before: nat)
      reads this
    {
      raised == (strict && broken) && warnings >= before && (!raised ==> warnings == before + given)
    }

    /** So far so good: in a strict expansion what is broken is still ahead, and so are `left` of all the warnings. */
    ghost predicate Ahead(broken: bool, ahead: bool, given: nat, left: nat, before: nat)
      reads this
    {
      (strict ==> broken == ahead) && warnings + left == before + given && left <= given
    }

    method BuildDa(d: DaDef, fc: string, stack: set<string>, ghost full: set<TypeId>) returns (r: Result<Option<Node>, SclError>)
      requires forall id :: id in stack <==> DaId(id) in full
      modifies this
      ensures if r.Ok? then r.value == Expand(t, DaStep(d, fc), full) else r.error == BrokenReference
      ensures Reports(r.Err?, Broken(t, DaStep(d, fc), full), Warnings(t, DaStep(d, fc), full, bTypes), old(warnings))
      decreases |AllIds(t) - full|, 0, 0
    {
      hide Expand, ExpandAll, Broken, AnyBroken, OnTrack, SubSteps, AllIds, Warnings, AllWarnings;
      if d.bType !in bTypes {
        warnings := warnings + 1;
      }
      var children: seq<Node> := [];
      AttributeUnfolded(t, d, fc, full, bTypes);
      if d.bType == "Struct" {
        if d.typeId !in t.daTypes || d.typeId in stack {
          var raised := Unresolved();
          return if raised then Err(BrokenReference) else Ok(None);
        }
        var bdas := t.daTypes[d.typeId];
        ghost var inner := full + {DaId(d.typeId)};
        ghost var all := ExpandAll(t, SubSteps(bdas, fc), inner);
        ghost var broken := AnyBroken(t, SubSteps(bdas, fc), inner);
        ghost var given := Warnings(t, DaStep(d, fc), full, bTypes);
        Start(t, SubSteps(bdas, fc), inner);
        assert bdas[0..] == bdas;
        for i := 0 to |bdas|
          invariant OnTrack(t, children, SubSteps(bdas[i..], fc), inner, all)
          invariant Ahead(broken, AnyBroken(t, SubSteps(bdas[i..], fc), inner), given,
                          AllWarnings(t, SubSteps(bdas[i..], fc), inner, bTypes), old(warnings))
        {
          SubStepAt(bdas, fc, i);
          OneStep(t, children, DaStep(bdas[i], fc), SubSteps(bdas[i + 1..], fc), inner, all, bTypes);
          var child := BuildDa(bdas[i], fc, stack + {d.typeId}, inner);
          if child.Err? {
            return Err(child.error);
          }
          children := Appended(children, child.value);
        }
        assert SubSteps(bdas[|bdas|..], fc) == [];
        End(t, children, inner, all, bTypes);
      } else if d.bType == "Enum" {
        if d.typeId !in t.enumTypes {
          var raised := Unresolved();
          return if raised then Err(BrokenReference) else Ok(None);
        }
      }
      r := Ok(Some(Node(DaStep(d, fc), children)));
    }

    method BuildDo(d: DoDef, stack: set<string>, ghost full: set<TypeId>) returns (r: Result<Option<Node>, SclError>)
      requires (forall id :: id in stack <==> DoId(id) in full) && forall id :: DaId(id) !in full
      modifies this
      ensures if r.Ok? then r.value == Expand(t, DoStep(d), full) else r.error == BrokenReference
      ensures Reports(r.Err?, Broken(t, DoStep(d), full), Warnings(t, DoStep(d), full, bTypes), old(warnings))
      decreases |AllIds(t) - full|, 3, 0
    {
      hide Expand, ExpandAll, Broken, AnyBroken, OnTrack, AllSteps, AllIds, FcsOf, Warnings, AllWarnings, WithoutFc;
      Unfolded(t, DoStep(d), full, bTypes);
      if d.typeId !in t.doTypes || d.typeId in stack {
        var raised := Unresolved();
        return if raised then Err(BrokenReference) else Ok(None);
      }
      var template := t.doTypes[d.typeId];
      ghost var inner := full + {DoId(d.typeId)};
      ghost var all := ExpandAll(t, AllSteps(template, template), inner);
      ghost var broken := AnyBroken(t, AllSteps(template, template), inner);
      ghost var given := Warnings(t, DoStep(d), full, bTypes);
      var children: seq<Node> := [];
      Start(t, AllSteps(template, template), inner);
      assert template[0..] == template;
      for i := 0 to |template|
        invariant OnTrack(t, children, AllSteps(template, template[i..]), inner, all)
        invariant Ahead(broken, AnyBroken(t, AllSteps(template, template[i..]), inner), given,
                        AllWarnings(t, AllSteps(template, template[i..]), inner, bTypes) + WithoutFc(template[i..]), old(warnings))
      {
        StepsAt(template, i);
        var grown := BuildChild(template, template[i], stack + {d.typeId}, children, inner, AllSteps(template, template[i + 1..]),
                                all, broken, given, WithoutFc(template[i + 1..]), old(warnings));
        if grown.Err? {
          return Err(grown.error);
        }
        children := grown.value;
      }
      assert AllSteps(template, template[|template|..]) == [] && WithoutFc(template[|template|..]) == 0 by {
        assert template[|template|..] == [];
        NoSteps(template);
      }
      End(t, children, inner, all, bTypes);
      r := Ok(Some(Node(DoStep(d), children)));
    }

    lemma NoSteps(template: seq<DoChild>)
      ensures AllSteps(template, []) == [] && WithoutFc([]) == 0
    {
    }

    /** One child of a DO, added to the children so far. */
    method BuildChild(template: seq<DoChild>, c: DoChild, stack: set<string>, children: seq<Node>, ghost inner: set<TypeId>,
                      ghost rest: seq<Step>, ghost all: seq<Node>, ghost broken: bool, ghost given: nat, ghost later: nat,
                      ghost before: nat)
      returns (r: Result<seq<Node>, SclError>)
      requires (forall id :: id in stack <==> DoId(id) in inner) && forall id :: DaId(id) !in inner
      requires OnTrack(t, children, StepsOf(template, c) + rest, inner, all)
      requires Ahead(broken, AnyBroken(t, StepsOf(template, c) + rest, inner), given,
                     AllWarnings(t, StepsOf(template, c) + rest, inner, bTypes)
                       + ((if c.Da? && c.da.fc == "" then 1 else 0) + later), before)
      modifies this
      ensures r.Ok? ==>
                && OnTrack(t, r.value, rest, inner, all)
                && Ahead(broken, AnyBroken(t, rest, inner), given, AllWarnings(t, rest, inner, bTypes) + later, before)
      ensures r.Err? ==> strict && broken && warnings >= before && r.error == BrokenReference
      decreases |AllIds(t) - inner|, 4, 0
    {
      hide Expand, ExpandAll, Broken, AnyBroken, OnTrack, FcsOf, AllIds, Warnings, AllWarnings;
      match c {
        case Sdo(sdo) =>
          OneStep(t, children, DoStep(sdo), rest, inner, all, bTypes);
          var sub := BuildDo(sdo, stack, inner);
          if sub.Err? {
            return Err(sub.error);
          }
          r := Ok(Appended(children, sub.value));
        case Da(da) =>
          r := BuildDas(template, da, children, inner, rest, all, broken, given, later, before);
      }
    }

    /** A DA under each of its FCs, added to the children so far. */
    method BuildDas(template: seq<DoChild>, d: DaDef, children: seq<Node>, ghost inner: set<TypeId>, ghost rest: seq<Step>,
                    ghost all: seq<Node>, ghost broken: bool, ghost given: nat, ghost later: nat, ghost before: nat)
      returns (r: Result<seq<Node>, SclError>)
      requires forall id :: DaId(id) !in inner
      requires OnTrack(t, children, WithFcs(d, FcsOf(template, d)) + rest, inner, all)
      requires Ahead(broken, AnyBroken(t, WithFcs(d, FcsOf(template, d)) + rest, inner), given,
                     AllWarnings(t, WithFcs(d, FcsOf(template, d)) + rest, inner, bTypes) + later + (if d.fc == "" then 1 else 0),
                     before)
      modifies this
      ensures r.Ok? ==>
                && OnTrack(t, r.value, rest, inner, all)
                && Ahead(broken, AnyBroken(t, rest, inner), given, AllWarnings(t, rest, inner, bTypes) + later, before)
      ensures r.Err? ==> strict && broken && warnings >= before && r.error == BrokenReference
      decreases |AllIds(t) - inner|, 1, 0
    {
      hide Expand, ExpandAll, Broken, AnyBroken, OnTrack, WithFcs, FcsOf, AllIds, Warnings, AllWarnings;
      var fcs := FcsFor(template, d);
      var grown := children;
      assert fcs[0..] == fcs;
      for j := 0 to |fcs|
        invariant OnTrack(t, grown, WithFcs(d, fcs[j..]) + rest, inner, all)
        invariant Ahead(broken, AnyBroken(t, WithFcs(d, fcs[j..]) + rest, inner), given,
                        AllWarnings(t, WithFcs(d, fcs[j..]) + rest, inner, bTypes) + later, before)
      {
        FcAt(d, fcs, j, rest);
        OneStep(t, grown, DaStep(d, fcs[j]), WithFcs(d, fcs[j + 1..]) + rest, inner, all, bTypes);
        var a := BuildDa(d, fcs[j], {}, inner);
        if a.Err? {
          return Err(a.error);
        }
        grown := Appended(grown, a.value);
      }
      NoFcs(d, fcs[|fcs|..], rest);
      r := Ok(grown);
    }

    lemma NoFcs(d: DaDef, fcs: seq<string>, rest: seq<Step>)
      requires fcs == []
      ensures WithFcs(d, fcs) + rest == rest
    {
    }

    /** The FCs a DA is built under; without one it is left out with a warning. */
    method FcsFor(template: seq<DoChild>, d: DaDef) returns (fcs: seq<string>)
      modifies this
      ensures fcs == FcsOf(template, d) && warnings == old(warnings) + if d.fc == "" then 1 else 0
    {
      if d.fc == "" {
        warnings := warnings + 1;
        return [];
      }
      fcs := [d.fc];
      if d.fc == "SG" && !Declares(template, d.name, "SE") {
        fcs := fcs + ["SE"];
      }
    }

    /** The data objects of a logical node. */
    method BuildLn(lnType: string) returns (r: Result<seq<Node>, SclError>)
      modifies this
      ensures if r.Ok? then r.value == if lnType in t.lnodeTypes then ExpandAll(t, TopSteps(t.lnodeTypes[lnType]), {}) else []
              else r.error == BrokenReference
      ensures Reports(r.Err?, lnType !in t.lnodeTypes || AnyBroken(t, TopSteps(t.lnodeTypes[lnType]), {}),
                      LnWarnings(t, lnType, bTypes), old(warnings))
    {
      if lnType !in t.lnodeTypes {
        var raised := Unresolved();
        return if raised then Err(BrokenReference) else Ok([]);
      }
      hide Expand, ExpandAll, Broken, AnyBroken, OnTrack, StepsFrom, AllIds, Warnings, AllWarnings, Appended;
      var defs := t.lnodeTypes[lnType];
      ghost var all := ExpandAll(t, TopSteps(defs), {});
      ghost var broken := AnyBroken(t, TopSteps(defs), {});
      ghost var given := AllWarnings(t, TopSteps(defs), {}, bTypes);
      var dos: seq<Node> := [];
      Start(t, TopSteps(defs), {});
      FirstAndLast(defs);
      for i := 0 to |defs|
        invariant OnTrack(t, dos, StepsFrom(defs, i), {}, all)
        invariant Ahead(broken, AnyBroken(t, StepsFrom(defs, i), {}), given,
                        AllWarnings(t, StepsFrom(defs, i), {}, bTypes), old(warnings))
      {
        TopStepAt(defs, i);
        OneStep(t, dos, DoStep(defs[i].(count := 0)), StepsFrom(defs, i + 1), {}, all, bTypes);
        var n := BuildDo(defs[i].(count := 0), {}, {});
        if n.Err? {
          return Err(n.error);
        }
        dos := Appended(dos, n.value);
      }
      End(t, dos, {}, all, bTypes);
      r := Ok(dos);
    }
  }
}

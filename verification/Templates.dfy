/**
 SCL data type templates and the trees they unfold into. A template may name types that do not exist
 and may contain itself.
 */
module Templates {
  import opened Results

  /** A DO or SDO of some DOType. */
  datatype DoDef = DoDef(name: string, typeId: string, count: int)

  /** A DA, or a BDA inside a DAType (whose `fc` is empty). */
  datatype DaDef = DaDef(name: string, fc: string, bType: string, typeId: string, count: int)

  datatype DoChild = Sdo(sdo: DoDef) | Da(da: DaDef)

  datatype Templates = Templates(
    lnodeTypes: map<string, seq<DoDef>>,
    doTypes: map<string, seq<DoChild>>,
    daTypes: map<string, seq<DaDef>>,
    enumTypes: set<string>)

  /** One level of a path through the templates: a (sub) data object, or a (sub) attribute with its FC. */
  datatype Step = DoStep(def: DoDef) | DaStep(da: DaDef, fc: string)

  datatype TypeId = DoId(id: string) | DaId(id: string)

  datatype Node = Node(step: Step, children: seq<Node>)

  /** The constructed type a step is an instance of. */
  function IdOf(s: Step): Option<TypeId> {
    match s
    case DoStep(d) => Some(DoId(d.typeId))
    case DaStep(d, _) => if d.bType == "Struct" then Some(DaId(d.typeId)) else None
  }

  predicate Known(t: Templates, s: Step) {
    match s
    case DoStep(d) => d.typeId in t.doTypes
    case DaStep(d, _) =>
      if d.bType == "Struct" then d.typeId in t.daTypes
      else if d.bType == "Enum" then d.typeId in t.enumTypes
      else true
  }

  /** The type reference of a step exists and does not lead back into a type being unfolded. */
  predicate Resolves(t: Templates, s: Step, stack: set<TypeId>) {
    Known(t, s) && (IdOf(s).Some? ==> IdOf(s).value !in stack)
  }

  predicate Declares(children: seq<DoChild>, name: string, fc: string) {
    exists c :: c in children && c.Da? && c.da.name == name && c.da.fc == fc
  }

  /** The functional constraints a DA appears under: settings are also editable values. */
  function FcsOf(children: seq<DoChild>, d: DaDef): seq<string> {
    if d.fc == "" then []
    else [d.fc] + if d.fc == "SG" && !Declares(children, d.name, "SE") then ["SE"] else []
  }

  function StepsOf(children: seq<DoChild>, c: DoChild): seq<Step> {
    match c
    case Sdo(d) => [DoStep(d)]
    case Da(d) => WithFcs(d, FcsOf(children, d))
  }

  function WithFcs(d: DaDef, fcs: seq<string>): (steps: seq<Step>)
    ensures forall s :: s in steps <==> s.DaStep? && s.da == d && s.fc in fcs
  {
    if fcs == [] then [] else [DaStep(d, fcs[0])] + WithFcs(d, fcs[1..])
  }

  function AllSteps(children: seq<DoChild>, cs: seq<DoChild>): (steps: seq<Step>)
    ensures forall s :: s in steps <==> exists c :: c in cs && s in StepsOf(children, c)
  {
    if cs == [] then [] else
    assert cs == [cs[0]] + cs[1..];
    StepsOf(children, cs[0]) + AllSteps(children, cs[1..])
  }

  function SubSteps(bdas: seq<DaDef>, fc: string): (steps: seq<Step>)
    ensures forall s :: s in steps <==> s.DaStep? && s.da in bdas && s.fc == fc
    ensures |steps| == |bdas|
  {
    if bdas == [] then [] else
    assert bdas == [bdas[0]] + bdas[1..];
    [DaStep(bdas[0], fc)] + SubSteps(bdas[1..], fc)
  }

  function TopSteps(dos: seq<DoDef>): (steps: seq<Step>)
    ensures forall s :: s in steps <==> s.DoStep? && exists d :: d in dos && s.def == d.(count := 0)
    ensures |steps| == |dos|
  {
    if dos == [] then [] else
    assert dos == [dos[0]] + dos[1..];
    [DoStep(dos[0].(count := 0))] + TopSteps(dos[1..])
  }

  /** The steps below a step, in template order. */
  function Choices(t: Templates, s: Step): seq<Step> {
    match s
    case DoStep(d) => if d.typeId in t.doTypes then AllSteps(t.doTypes[d.typeId], t.doTypes[d.typeId]) else []
    case DaStep(d, fc) => if d.bType == "Struct" && d.typeId in t.daTypes then SubSteps(t.daTypes[d.typeId], fc) else []
  }

  function AllIds(t: Templates): set<TypeId> {
    (set id | id in t.doTypes :: DoId(id)) + (set id | id in t.daTypes :: DaId(id))
  }

  lemma StackGrows(t: Templates, s: Step, stack: set<TypeId>)
    requires Resolves(t, s, stack) && IdOf(s).Some?
    ensures |AllIds(t) - (stack + {IdOf(s).value})| < |AllIds(t) - stack|
  {
    var id := IdOf(s).value;
    assert id in AllIds(t) - stack;
    assert AllIds(t) - (stack + {id}) == (AllIds(t) - stack) - {id};
  }

  /** The tree below one step; None where its type reference is broken. The measure is the type ids that
      are not on the stack yet, so cyclic templates unfold too. */
  function Expand(t: Templates, s: Step, stack: set<TypeId>): Option<Node>
    decreases |AllIds(t) - stack|, 0, 0
  {
    if !Resolves(t, s, stack) then None
    else if IdOf(s).None? then Some(Node(s, []))
    else
      StackGrows(t, s, stack);
      Some(Node(s, ExpandAll(t, Choices(t, s), stack + {IdOf(s).value})))
  }

  function ExpandAll(t: Templates, ss: seq<Step>, stack: set<TypeId>): seq<Node>
    decreases |AllIds(t) - stack|, 1, |ss|
  {
    if ss == [] then []
    else
      var head := Expand(t, ss[0], stack);
      (if head.Some? then [head.value] else []) + ExpandAll(t, ss[1..], stack)
  }

  lemma {:induction false} ExpandAllHas(t: Templates, ss: seq<Step>, stack: set<TypeId>, n: Node)
    ensures n in ExpandAll(t, ss, stack) <==> exists s :: s in ss && Expand(t, s, stack) == Some(n)
    decreases |ss|
  {
    if ss != [] {
      var head, rest := Expand(t, ss[0], stack), ExpandAll(t, ss[1..], stack);
      assert ExpandAll(t, ss, stack) == (if head.Some? then [head.value] else []) + rest;
      ExpandAllHas(t, ss[1..], stack, n);
      if n in rest {
        var s :| s in ss[1..] && Expand(t, s, stack) == Some(n);
        assert s in ss;
      }
      if s :| s in ss && Expand(t, s, stack) == Some(n) {
        assert s == ss[0] || s in ss[1..];
      }
    }
  }

  // ---------------------------------------------------------------- which paths a tree holds

  predicate HasPath(nodes: seq<Node>, path: seq<Step>)
    decreases |path|
  {
    path != [] ==> exists n :: n in nodes && n.step == path[0] && HasPath(n.children, path[1..])
  }

  /** A path of the templates: every step is a choice of the one before. */
  predicate TemplatePath(t: Templates, ss: seq<Step>, path: seq<Step>) {
    && (path != [] ==> path[0] in ss)
    && forall i :: 0 <= i < |path| - 1 ==> path[i + 1] in Choices(t, path[i])
  }

  /** Every type reference on the path exists, and no type id is on it twice. */
  predicate Live(t: Templates, path: seq<Step>, stack: set<TypeId>) {
    && (forall i :: 0 <= i < |path| ==> Resolves(t, path[i], stack))
    && forall i, j :: 0 <= i < j < |path| && IdOf(path[i]).Some? ==> IdOf(path[i]) != IdOf(path[j])
  }

  lemma LiveStep(t: Templates, path: seq<Step>, stack: set<TypeId>)
    requires path != [] && IdOf(path[0]).Some?
    ensures Live(t, path, stack) <==>
              Resolves(t, path[0], stack) && Live(t, path[1..], stack + {IdOf(path[0]).value})
  {
  }

  lemma TemplatePathStep(t: Templates, ss: seq<Step>, path: seq<Step>)
    requires path != []
    ensures TemplatePath(t, ss, path) <==> path[0] in ss && TemplatePath(t, Choices(t, path[0]), path[1..])
  {
  }

  /** The tree holds exactly the paths of the templates whose type references all resolve and repeat no
      type id. */
  lemma {:induction false} HoldsTheLivePaths(t: Templates, ss: seq<Step>, stack: set<TypeId>, path: seq<Step>)
    ensures HasPath(ExpandAll(t, ss, stack), path) <==> TemplatePath(t, ss, path) && Live(t, path, stack)
    decreases |path|
  {
    if path != [] {
      var s, rest := path[0], path[1..];
      var tree := Expand(t, s, stack);
      TemplatePathStep(t, ss, path);
      OnlyItsTree(t, ss, stack, path);
      if IdOf(s).Some? {
        LiveStep(t, path, stack);
        HoldsTheLivePaths(t, Choices(t, s), stack + {IdOf(s).value}, rest);
      } else if rest == [] {
      } else {
        assert Choices(t, s) == [];
        assert !TemplatePath(t, [], rest);
        assert !HasPath([], rest);
      }
    }
  }

  /** Every tree a step unfolds into is the same one. */
  lemma OnlyItsTree(t: Templates, ss: seq<Step>, stack: set<TypeId>, path: seq<Step>)
    requires path != []
    ensures var tree := Expand(t, path[0], stack);
            HasPath(ExpandAll(t, ss, stack), path) <==> path[0] in ss && tree.Some? && HasPath(tree.value.children, path[1..])
  {
  }

  /** Every sub-attribute carries the FC of its attribute. */
  lemma {:induction false} FcIsInherited(t: Templates, ss: seq<Step>, path: seq<Step>, i: nat, j: nat)
    requires TemplatePath(t, ss, path) && i <= j < |path| && path[i].DaStep?
    ensures path[j].DaStep? && path[j].fc == path[i].fc
    decreases j - i
  {
    if i < j {
      FcIsInherited(t, ss, path, i, j - 1);
      assert path[j - 1 + 1] in Choices(t, path[j - 1]);
    }
  }

  /** The attributes below a data object: each DA under its own FC, and once more as an editable value if
      it is a setting that does not declare one. */
  lemma SettingsAreEditable(t: Templates, d: DoDef, a: DaDef, fc: string)
    requires d.typeId in t.doTypes
    ensures var children := t.doTypes[d.typeId];
            DaStep(a, fc) in Choices(t, DoStep(d)) <==>
              && Da(a) in children && a.fc != ""
              && (fc == a.fc || (fc == "SE" && a.fc == "SG" && !Declares(children, a.name, "SE")))
  {
  }

  // ---------------------------------------------------------------- broken references

  /** Unfolding these steps meets a reference that does not resolve. */
  predicate Broken(t: Templates, s: Step, stack: set<TypeId>)
    decreases |AllIds(t) - stack|, 0, 0
  {
    if !Resolves(t, s, stack) then true
    else if IdOf(s).None? then false
    else
      StackGrows(t, s, stack);
      AnyBroken(t, Choices(t, s), stack + {IdOf(s).value})
  }

  predicate AnyBroken(t: Templates, ss: seq<Step>, stack: set<TypeId>)
    decreases |AllIds(t) - stack|, 1, |ss|
  {
    ss != [] && (Broken(t, ss[0], stack) || AnyBroken(t, ss[1..], stack))
  }

  /** A path of the templates that is live but for its last step. */
  predicate BrokenPath(t: Templates, ss: seq<Step>, stack: set<TypeId>, path: seq<Step>) {
    && path != [] && TemplatePath(t, ss, path)
    && Live(t, path[..|path| - 1], stack) && !Live(t, path, stack)
  }

  lemma BrokenPathStep(t: Templates, ss: seq<Step>, stack: set<TypeId>, path: seq<Step>)
    requires path != []
    ensures BrokenPath(t, ss, stack, path) <==>
              && path[0] in ss
              && if |path| == 1 then !Resolves(t, path[0], stack)
                 else Resolves(t, path[0], stack) && IdOf(path[0]).Some?
                      && BrokenPath(t, Choices(t, path[0]), stack + {IdOf(path[0]).value}, path[1..])
  {
    var s, rest := path[0], path[1..];
    TemplatePathStep(t, ss, path);
    if |path| == 1 {
      assert path[..0] == [] && Live(t, [], stack);
    } else {
      assert path[..|path| - 1][1..] == rest[..|rest| - 1];
      if IdOf(s).Some? {
        LiveStep(t, path, stack);
        LiveStep(t, path[..|path| - 1], stack);
      } else {
        assert Choices(t, s) == [];
      }
    }
  }

  /** Unfolding meets a broken reference exactly when such a path exists. */
  lemma {:induction false} BrokenMeans(t: Templates, s: Step, stack: set<TypeId>) returns (path: seq<Step>)
    ensures Broken(t, s, stack) ==> BrokenPath(t, [s], stack, path)
    ensures (exists p :: BrokenPath(t, [s], stack, p)) ==> Broken(t, s, stack)
    decreases |AllIds(t) - stack|, 0, 0
  {
    path := [s];
    BrokenPathStep(t, [s], stack, path);
    if !Resolves(t, s, stack) {
      return;
    }
    forall p | BrokenPath(t, [s], stack, p)
      ensures IdOf(s).Some? && BrokenPath(t, Choices(t, s), stack + {IdOf(s).value}, p[1..])
    {
      BrokenPathStep(t, [s], stack, p);
    }
    if IdOf(s).Some? {
      StackGrows(t, s, stack);
      var rest := AnyBrokenMeans(t, Choices(t, s), stack + {IdOf(s).value});
      path := [s] + rest;
      assert path[1..] == rest;
      if rest != [] {
        BrokenPathStep(t, [s], stack, path);
      }
    }
  }

  lemma {:induction false} AnyBrokenMeans(t: Templates, ss: seq<Step>, stack: set<TypeId>) returns (path: seq<Step>)
    ensures AnyBroken(t, ss, stack) ==> BrokenPath(t, ss, stack, path)
    ensures (exists p :: BrokenPath(t, ss, stack, p)) ==> AnyBroken(t, ss, stack)
    decreases |AllIds(t) - stack|, 1, |ss|
  {
    path := [];
    if ss != [] {
      var first := BrokenMeans(t, ss[0], stack);
      var later := AnyBrokenMeans(t, ss[1..], stack);
      path := if Broken(t, ss[0], stack) then first else later;
      forall p: seq<Step> | p != []
        ensures BrokenPath(t, ss, stack, p) <==> BrokenPath(t, [ss[0]], stack, p) || BrokenPath(t, ss[1..], stack, p)
      {
        assert ss == [ss[0]] + ss[1..];
        BrokenPathStep(t, ss, stack, p);
        BrokenPathStep(t, [ss[0]], stack, p);
        BrokenPathStep(t, ss[1..], stack, p);
      }
    }
  }
}

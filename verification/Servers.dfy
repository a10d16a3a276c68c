/** From an IED description to its expanded server. */
module Servers {
  import opened Results
  import opened Templates
  import opened Expanding
  import opened Expected

  // ---------------------------------------------------------------- which server

  /** `serverAt` is empty where the access point names no other. */
  datatype AccessPoint = AccessPoint(name: string, hasServer: bool, serverAt: string)

  function ByName(aps: seq<AccessPoint>, name: string): Option<AccessPoint> {
    if aps == [] then None else if aps[0].name == name then Some(aps[0]) else ByName(aps[1..], name)
  }

  lemma {:induction false} ByNameMeans(aps: seq<AccessPoint>, name: string)
    ensures ByName(aps, name).Some? ==> ByName(aps, name).value in aps && ByName(aps, name).value.name == name
    ensures ByName(aps, name).None? ==> forall a :: a in aps ==> a.name != name
  {
    if aps != [] {
      ByNameMeans(aps[1..], name);
    }
  }

  /** The access point reached from `ap` by following `serverAt` `k` times. */
  function Following(aps: seq<AccessPoint>, ap: AccessPoint, k: nat): Option<AccessPoint> {
    if k == 0 then Some(ap)
    else
      match Following(aps, ap, k - 1)
      case None => None
      case Some(a) => if a.hasServer || a.serverAt == "" then None else ByName(aps, a.serverAt)
  }

  /** No server is reached from access points that only lead to one another. */
  lemma {:induction false} ClosedWithoutServer(aps: seq<AccessPoint>, visited: set<AccessPoint>, ap: AccessPoint, k: nat)
    requires ap in visited && forall a :: a in visited ==> !a.hasServer
    requires forall a :: a in visited && a.serverAt != "" ==>
               ByName(aps, a.serverAt).None? || ByName(aps, a.serverAt).value in visited
    ensures Following(aps, ap, k).None? || Following(aps, ap, k).value in visited
  {
    if k > 0 {
      ClosedWithoutServer(aps, visited, ap, k - 1);
    }
  }

  lemma Here(aps: seq<AccessPoint>, ap: AccessPoint)
    ensures Following(aps, ap, 0) == Some(ap)
  {
  }

  lemma FollowOne(aps: seq<AccessPoint>, ap: AccessPoint, k: nat)
    requires Following(aps, ap, k).Some? && !Following(aps, ap, k).value.hasServer && Following(aps, ap, k).value.serverAt != ""
    ensures Following(aps, ap, k + 1) == ByName(aps, Following(aps, ap, k).value.serverAt)
  {
  }

  /** `a` has no server and points at one of `visited`. */
  predicate LeadsInto(aps: seq<AccessPoint>, a: AccessPoint, visited: set<AccessPoint>) {
    !a.hasServer && a.serverAt != "" && ByName(aps, a.serverAt).Some? && ByName(aps, a.serverAt).value in visited
  }

  /** `access_point`: the first of that name, or without a name the first that has or points at a server. */
  function StartAt(aps: seq<AccessPoint>, name: Option<string>): Option<AccessPoint> {
    if name.Some? then ByName(aps, name.value)
    else if FirstServing(aps).Some? then FirstServing(aps)
    else if aps != [] then Some(aps[0])
    else None
  }

  function FirstServing(aps: seq<AccessPoint>): Option<AccessPoint> {
    if aps == [] then None
    else if aps[0].hasServer || aps[0].serverAt != "" then Some(aps[0])
    else FirstServing(aps[1..])
  }

  predicate Serves(a: AccessPoint) {
    a.hasServer || a.serverAt != ""
  }

  /** Place of the first access point that meets what a search without a name, or for one, looks for. */
  predicate FirstAt(aps: seq<AccessPoint>, name: Option<string>, i: nat) {
    && i < |aps|
    && (if name.Some? then aps[i].name == name.value else Serves(aps[i]))
    && forall j :: 0 <= j < i ==> if name.Some? then aps[j].name != name.value else !Serves(aps[j])
  }

  /** Where the search starts: the first access point of the name given, or the first that has or points at a server,
      or the first of all where none does. */
  lemma {:induction false} StartMeans(aps: seq<AccessPoint>, name: Option<string>, i: nat)
    ensures FirstAt(aps, name, i) ==> StartAt(aps, name) == Some(aps[i])
    ensures (forall k: nat :: !FirstAt(aps, name, k)) ==>
              StartAt(aps, name) == if name.None? && aps != [] then Some(aps[0]) else None
  {
    FirstIs(aps, name, i);
    if forall k: nat :: !FirstAt(aps, name, k) {
      NoneFirst(aps, name);
    }
  }

  function Searched(aps: seq<AccessPoint>, name: Option<string>): Option<AccessPoint> {
    if name.Some? then ByName(aps, name.value) else FirstServing(aps)
  }

  lemma {:induction false} FirstIs(aps: seq<AccessPoint>, name: Option<string>, i: nat)
    ensures FirstAt(aps, name, i) ==> Searched(aps, name) == Some(aps[i])
  {
    if FirstAt(aps, name, i) && i > 0 {
      assert forall j :: 0 <= j < i - 1 ==> aps[1..][j] == aps[j + 1];
      FirstIs(aps[1..], name, i - 1);
    }
  }

  lemma {:induction false} NoneFirst(aps: seq<AccessPoint>, name: Option<string>)
    requires forall k: nat :: !FirstAt(aps, name, k)
    ensures Searched(aps, name) == None
  {
    if aps != [] {
      assert !FirstAt(aps, name, 0);
      forall k: nat
        ensures !FirstAt(aps[1..], name, k)
      {
        if FirstAt(aps[1..], name, k) {
          assert forall j :: 1 <= j <= k ==> aps[j] == aps[1..][j - 1];
          assert FirstAt(aps, name, k + 1);
        }
      }
      NoneFirst(aps[1..], name);
    }
  }

  predicate DeadEnd(a: AccessPoint) {
    !a.hasServer && a.serverAt == ""
  }

  /** Where the search starts is the first of its name, or that one leads nowhere. */
  lemma StartIsFirst(aps: seq<AccessPoint>, name: Option<string>)
    ensures var start := StartAt(aps, name);
            start.Some? ==> start.value in aps && ByName(aps, start.value.name).Some?
                            && (ByName(aps, start.value.name) == start || DeadEnd(ByName(aps, start.value.name).value))
  {
    if name.Some? {
      ByNameMeans(aps, name.value);
    } else {
      FirstServingMeans(aps);
    }
  }

  lemma {:induction false} FirstServingMeans(aps: seq<AccessPoint>)
    ensures var s := FirstServing(aps);
            s.Some? ==> s.value in aps && ByName(aps, s.value.name).Some?
                        && (ByName(aps, s.value.name) == s || DeadEnd(ByName(aps, s.value.name).value))
  {
    if aps != [] {
      FirstServingMeans(aps[1..]);
    }
  }

  /** What `seen` stands for: the access points visited, each the first of its name but perhaps for the one
      the search started at, and all of which but the last lead on. */
  ghost predicate Visited(aps: seq<AccessPoint>, start: AccessPoint, seen: set<string>, visited: set<AccessPoint>, current: AccessPoint) {
    && current in visited && start in visited && visited <= (set a | a in aps)
    && seen == (set a | a in visited :: a.name)
    && (forall a :: a in visited && a != start ==> ByName(aps, a.name) == Some(a))
    && forall a :: a in visited && a != current ==> LeadsInto(aps, a, visited)
  }

  lemma VisitNext(aps: seq<AccessPoint>, start: AccessPoint, seen: set<string>, visited: set<AccessPoint>, current: AccessPoint, next: AccessPoint)
    requires Visited(aps, start, seen, visited, current) && !current.hasServer && current.serverAt != ""
    requires ByName(aps, current.serverAt) == Some(next) && next.name !in seen
    ensures Visited(aps, start, seen + {next.name}, visited + {next}, next)
    ensures |(set a | a in aps) - (visited + {next})| < |(set a | a in aps) - visited|
  {
    ByNameMeans(aps, current.serverAt);
    var all := set a | a in aps;
    assert next in all - visited;
    assert all - (visited + {next}) == (all - visited) - {next};
  }

  lemma NoServerAhead(aps: seq<AccessPoint>, start: AccessPoint, seen: set<string>, visited: set<AccessPoint>, current: AccessPoint)
    requires Visited(aps, start, seen, visited, current) && !current.hasServer
    requires current.serverAt == "" || ByName(aps, current.serverAt).None? || ByName(aps, current.serverAt).value.name in seen
    requires ByName(aps, start.name).Some? && (ByName(aps, start.name) == Some(start) || DeadEnd(ByName(aps, start.name).value))
    ensures forall k :: Following(aps, start, k).None? || !Following(aps, start, k).value.hasServer
  {
    ByNameMeans(aps, current.serverAt);
    var closed := visited + {ByName(aps, start.name).value};
    forall k: nat
      ensures Following(aps, start, k).None? || !Following(aps, start, k).value.hasServer
    {
      ClosedWithoutServer(aps, closed, start, k);
    }
  }

  /** `server_access_point`: the access point whose server to expand, None where there is none to reach. */
  method ServerAccessPoint(aps: seq<AccessPoint>, name: Option<string>) returns (target: Option<AccessPoint>)
    ensures var start := StartAt(aps, name);
            && (target.Some? ==> start.Some? && target.value.hasServer && exists k :: Following(aps, start.value, k) == target)
            && (target.None? && start.Some? ==>
                  forall k :: Following(aps, start.value, k).None? || !Following(aps, start.value, k).value.hasServer)
  {
    var start := StartAt(aps, name);
    StartIsFirst(aps, name);
    if start.None? {
      return None;
    }
    var ap := start.value;
    var seen := {ap.name};
    var current := ap;
    ghost var visited, k := {ap}, 0;
    Here(aps, ap);
    assert Visited(aps, ap, seen, visited, current);
    hide Following, ByName, Visited, StartAt;
    while !current.hasServer && current.serverAt != ""
      invariant Visited(aps, ap, seen, visited, current) && Following(aps, ap, k) == Some(current)
      decreases |(set a | a in aps) - visited|
    {
      var next := ByName(aps, current.serverAt);
      if next.None? || next.value.name in seen {
        break;
      }
      FollowOne(aps, ap, k);
      VisitNext(aps, ap, seen, visited, current, next.value);
      seen := seen + {next.value.name};
      visited := visited + {next.value};
      current := next.value;
      k := k + 1;
    }
    if !current.hasServer {
      NoServerAhead(aps, ap, seen, visited, current);
      return None;
    }
    target := Some(current);
  }

  // ---------------------------------------------------------------- the data model of the server

  datatype LnDef = LnDef(name: string, lnType: string)

  /** `ldName` is empty where the LD has none. */
  datatype LDevice = LDevice(inst: string, ldName: string, lns: seq<LnDef>)

  /** Name of an LD as a client addresses it. */
  function DomainName(ied: string, ld: LDevice): string {
    if ld.ldName != "" then ld.ldName else ied + ld.inst
  }

  function LnTree(t: Templates, ln: LnDef): LogicalNode {
    LogicalNode(ln.name, if ln.lnType in t.lnodeTypes then ExpandAll(t, TopSteps(t.lnodeTypes[ln.lnType]), {}) else [])
  }

  predicate LnBroken(t: Templates, ln: LnDef) {
    ln.lnType !in t.lnodeTypes || AnyBroken(t, TopSteps(t.lnodeTypes[ln.lnType]), {})
  }

  function LdTree(t: Templates, ied: string, ld: LDevice): LogicalDevice {
    LogicalDevice(ld.inst, DomainName(ied, ld), seq(|ld.lns|, i requires 0 <= i < |ld.lns| => LnTree(t, ld.lns[i])))
  }

  predicate HasInst(lds: seq<LDevice>, inst: string) {
    exists ld :: ld in lds && ld.inst == inst
  }

  /** The LDs whose inst did not occur before. */
  function Kept(lds: seq<LDevice>): seq<LDevice> {
    if lds == [] then []
    else
      var n := |lds| - 1;
      var before := Kept(lds[..n]);
      if HasInst(lds[..n], lds[n].inst) then before else before + [lds[n]]
  }

  predicate DistinctInsts(lds: seq<LDevice>) {
    forall i, j :: 0 <= i < j < |lds| ==> lds[i].inst != lds[j].inst
  }

  lemma {:induction false} KeptInsts(lds: seq<LDevice>, inst: string)
    ensures HasInst(Kept(lds), inst) <==> HasInst(lds, inst)
  {
    if lds != [] {
      var n := |lds| - 1;
      KeptInsts(lds[..n], inst);
      assert lds == lds[..n] + [lds[n]];
      if k :| k in Kept(lds[..n]) && k.inst == inst {
        assert k in Kept(lds);
      }
      if !HasInst(lds[..n], lds[n].inst) {
        assert lds[n] in Kept(lds);
      }
    }
  }

  /** Every inst is kept once. */
  lemma {:induction false} KeptOncePerInst(lds: seq<LDevice>)
    ensures DistinctInsts(Kept(lds))
    ensures forall inst :: HasInst(Kept(lds), inst) <==> HasInst(lds, inst)
  {
    forall inst
      ensures HasInst(Kept(lds), inst) <==> HasInst(lds, inst)
    {
      KeptInsts(lds, inst);
    }
    if lds != [] {
      hide Kept;
      var n := |lds| - 1;
      var before := Kept(lds[..n]);
      KeptOncePerInst(lds[..n]);
      KeptStep(lds);
      if !HasInst(lds[..n], lds[n].inst) {
        assert forall i :: 0 <= i < |before| ==> before[i] in before;
      }
    } else {
      assert Kept(lds) == [];
    }
  }

  lemma KeptStep(lds: seq<LDevice>)
    requires lds != []
    ensures var n := |lds| - 1;
            Kept(lds) == if HasInst(lds[..n], lds[n].inst) then Kept(lds[..n]) else Kept(lds[..n]) + [lds[n]]
  {
  }

  function LdWarnings(t: Templates, lns: seq<LnDef>, bTypes: set<string>): nat {
    if lns == [] then 0
    else LdWarnings(t, lns[..|lns| - 1], bTypes) + LnWarnings(t, lns[|lns| - 1].lnType, bTypes)
  }

  /** The warnings of the nodes of every logical device kept, and one for each left out. */
  function RunWarnings(t: Templates, lds: seq<LDevice>, bTypes: set<string>): nat {
    if lds == [] then 0
    else
      var n := |lds| - 1;
      RunWarnings(t, lds[..n], bTypes) + if HasInst(lds[..n], lds[n].inst) then 1 else LdWarnings(t, lds[n].lns, bTypes)
  }

  method BuildLd(x: Expander, ied: string, ld: LDevice) returns (r: Result<LogicalDevice, SclError>)
    modifies x
    ensures if r.Ok? then r.value == LdTree(x.t, ied, ld) else r.error == BrokenReference
    ensures r.Err? <==> x.strict && exists ln :: ln in ld.lns && LnBroken(x.t, ln)
    ensures r.Ok? ==> x.warnings == old(x.warnings) + LdWarnings(x.t, ld.lns, x.bTypes)
  {
    hide ExpandAll, AnyBroken, TopSteps, LnWarnings;
    var lns: seq<LogicalNode> := [];
    for i := 0 to |ld.lns|
      invariant |lns| == i && forall k :: 0 <= k < i ==> lns[k] == LnTree(x.t, ld.lns[k])
      invariant x.strict ==> forall k :: 0 <= k < i ==> !LnBroken(x.t, ld.lns[k])
      invariant x.warnings == old(x.warnings) + LdWarnings(x.t, ld.lns[..i], x.bTypes)
    {
      assert ld.lns[..i + 1][..i] == ld.lns[..i];
      var dos := x.BuildLn(ld.lns[i].lnType);
      if dos.Err? {
        assert ld.lns[i] in ld.lns && LnBroken(x.t, ld.lns[i]);
        return Err(dos.error);
      }
      lns := lns + [LogicalNode(ld.lns[i].name, dos.value)];
    }
    assert ld.lns[..|ld.lns|] == ld.lns;
    r := Ok(LogicalDevice(ld.inst, DomainName(ied, ld), lns));
  }

  /** The first pass of `run`: a later LD of an inst already used is left out with a warning. A strict
      expansion raises exactly when some reference is broken; when it does not, its result is the same. */
  method Run(x: Expander, ied: string, lds: seq<LDevice>) returns (r: Result<seq<LogicalDevice>, SclError>)
    modifies x
    ensures r.Ok? ==> |r.value| == |Kept(lds)| && forall k :: 0 <= k < |r.value| ==> r.value[k] == LdTree(x.t, ied, Kept(lds)[k])
    ensures r.Err? <==> x.strict && exists ld, ln :: ld in Kept(lds) && ln in ld.lns && LnBroken(x.t, ln)
    ensures r.Err? ==> r.error == BrokenReference
    ensures r.Ok? ==> x.warnings == old(x.warnings) + RunWarnings(x.t, lds, x.bTypes)
  {
    hide LnBroken, LdTree, LdWarnings, RunWarnings, Kept, HasInst;
    var out: seq<LogicalDevice> := [];
    var insts: set<string> := {};
    NoLds(x.t, x.bTypes);
    assert lds[..0] == [];
    for i := 0 to |lds|
      invariant |out| == |Kept(lds[..i])| && forall k :: 0 <= k < |out| ==> out[k] == LdTree(x.t, ied, Kept(lds[..i])[k])
      invariant forall inst :: inst in insts <==> HasInst(lds[..i], inst)
      invariant x.strict ==> !exists ld, ln :: ld in Kept(lds[..i]) && ln in ld.lns && LnBroken(x.t, ln)
      invariant x.warnings == old(x.warnings) + RunWarnings(x.t, lds[..i], x.bTypes)
    {
      OneMoreLd(x.t, lds, i, x.bTypes);
      if lds[i].inst in insts {
        x.warnings := x.warnings + 1;
        continue;
      }
      insts := insts + {lds[i].inst};
      var ld := BuildLd(x, ied, lds[i]);
      if ld.Err? {
        KeptGrows(lds, i + 1);
        assert lds[i] in Kept(lds[..i + 1]);
        return Err(ld.error);
      }
      out := out + [ld.value];
    }
    assert lds[..|lds|] == lds;
    r := Ok(out);
  }

  /** An expansion that gives no warning is one of templates in which nothing is broken. */
  lemma {:induction false} SilentIsSound(t: Templates, lds: seq<LDevice>, bTypes: set<string>)
    ensures RunWarnings(t, lds, bTypes) == 0 ==>
              Kept(lds) == lds && forall ld, ln :: ld in lds && ln in ld.lns ==> !LnBroken(t, ln)
  {
    hide LnBroken, LdWarnings;
    if lds != [] && RunWarnings(t, lds, bTypes) == 0 {
      var n := |lds| - 1;
      SilentIsSound(t, lds[..n], bTypes);
      SilentLd(t, lds[n].lns, bTypes);
      assert lds == lds[..n] + [lds[n]];
    }
  }

  lemma {:induction false} SilentLd(t: Templates, lns: seq<LnDef>, bTypes: set<string>)
    requires LdWarnings(t, lns, bTypes) == 0
    ensures forall ln :: ln in lns ==> !LnBroken(t, ln)
  {
    hide ExpandAll, AnyBroken, TopSteps, AllWarnings;
    if lns != [] {
      var n := |lns| - 1;
      SilentLd(t, lns[..n], bTypes);
      if lns[n].lnType in t.lnodeTypes {
        NoneWarned(t, TopSteps(t.lnodeTypes[lns[n].lnType]), {}, bTypes);
      }
    }
  }

  lemma OneMoreLd(t: Templates, lds: seq<LDevice>, i: nat, bTypes: set<string>)
    requires i < |lds|
    ensures var kept := !HasInst(lds[..i], lds[i].inst);
            && Kept(lds[..i + 1]) == (if kept then Kept(lds[..i]) + [lds[i]] else Kept(lds[..i]))
            && RunWarnings(t, lds[..i + 1], bTypes) ==
               RunWarnings(t, lds[..i], bTypes) + if kept then LdWarnings(t, lds[i].lns, bTypes) else 1
    ensures forall inst :: HasInst(lds[..i + 1], inst) <==> HasInst(lds[..i], inst) || inst == lds[i].inst
  {
    hide LdWarnings;
    assert lds[..i + 1] == lds[..i] + [lds[i]];
    assert lds[..i + 1][..i] == lds[..i];
  }

  lemma NoLds(t: Templates, bTypes: set<string>)
    ensures Kept([]) == [] && RunWarnings(t, [], bTypes) == 0 && forall inst :: !HasInst([], inst)
  {
  }

  lemma {:induction false} KeptGrows(lds: seq<LDevice>, i: nat)
    requires i <= |lds|
    ensures forall ld :: ld in Kept(lds[..i]) ==> ld in Kept(lds)
    decreases |lds|
  {
    if i < |lds| {
      assert lds[..|lds| - 1][..i] == lds[..i];
      KeptGrows(lds[..|lds| - 1], i);
    } else {
      assert lds[..i] == lds;
    }
  }

  // ---------------------------------------------------------------- unique names in the templates

  /** In every type, a name is declared once, or once under each of several FCs. */
  predicate UniqueTemplates(t: Templates) {
    && (forall id :: id in t.doTypes ==> UniqueChildren(t.doTypes[id]))
    && forall id :: id in t.daTypes ==> DistinctBdas(t.daTypes[id])
  }

  function ChildName(c: DoChild): string {
    if c.Sdo? then c.sdo.name else c.da.name
  }

  predicate UniqueChildren(cs: seq<DoChild>) {
    forall i, j :: 0 <= i < j < |cs| && ChildName(cs[i]) == ChildName(cs[j]) ==> cs[i].Da? && cs[j].Da? && cs[i].da.fc != cs[j].da.fc
  }

  predicate DistinctBdas(bdas: seq<DaDef>) {
    forall i, j :: 0 <= i < j < |bdas| ==> bdas[i].name != bdas[j].name
  }

  function StepName(s: Step): string {
    match s
    case DoStep(d) => d.name
    case DaStep(d, _) => d.name
  }

  predicate Apart(a: Step, b: Step) {
    StepName(a) == StepName(b) ==> a.DaStep? && b.DaStep? && a.fc != b.fc
  }

  predicate DistinctSteps(ss: seq<Step>) {
    forall i, j :: 0 <= i < j < |ss| ==> Apart(ss[i], ss[j])
  }

  lemma {:induction false} SubStepsDistinct(bdas: seq<DaDef>, fc: string)
    requires DistinctBdas(bdas)
    ensures DistinctSteps(SubSteps(bdas, fc))
  {
    if bdas != [] {
      SubStepsDistinct(bdas[1..], fc);
      var rest := SubSteps(bdas[1..], fc);
      forall s | s in rest
        ensures Apart(DaStep(bdas[0], fc), s)
      {
        var j :| 0 <= j < |bdas[1..]| && bdas[1..][j] == s.da;
        assert bdas[j + 1] == s.da;
      }
      ConsDistinct(DaStep(bdas[0], fc), rest);
    }
  }

  lemma ConsDistinct(s: Step, rest: seq<Step>)
    requires DistinctSteps(rest) && forall x :: x in rest ==> Apart(s, x)
    ensures DistinctSteps([s] + rest)
  {
  }

  lemma StepsOfApart(all: seq<DoChild>, a: DoChild, b: DoChild, s: Step, u: Step)
    requires s in StepsOf(all, a) && u in StepsOf(all, b) && a in all && b in all
    requires ChildName(a) == ChildName(b) ==> a.Da? && b.Da? && a.da.fc != b.da.fc
    ensures Apart(s, u)
  {
  }

  lemma {:induction false} AllStepsDistinct(all: seq<DoChild>, cs: seq<DoChild>)
    requires UniqueChildren(cs) && forall c :: c in cs ==> c in all
    ensures DistinctSteps(AllSteps(all, cs))
  {
    if cs != [] {
      hide Apart, DistinctSteps, StepsOf;
      var c, rest := cs[0], AllSteps(all, cs[1..]);
      AllStepsDistinct(all, cs[1..]);
      forall s, u | s in StepsOf(all, c) && u in rest
        ensures Apart(s, u)
      {
        var d :| d in cs[1..] && u in StepsOf(all, d);
        var j :| 0 <= j < |cs[1..]| && cs[1..][j] == d;
        assert cs[j + 1] == d;
        StepsOfApart(all, c, d, s, u);
      }
      OwnStepsDistinct(all, c);
      ConcatDistinct(StepsOf(all, c), rest);
    }
  }

  lemma OwnStepsDistinct(all: seq<DoChild>, c: DoChild)
    ensures DistinctSteps(StepsOf(all, c))
  {
    if c.Da? {
      var fcs := FcsOf(all, c.da);
      if |fcs| == 2 {
        assert WithFcs(c.da, fcs[1..]) == [DaStep(c.da, fcs[1])] + WithFcs(c.da, fcs[2..]);
      }
    }
  }

  lemma ConcatDistinct(a: seq<Step>, b: seq<Step>)
    requires DistinctSteps(a) && DistinctSteps(b) && forall s, u :: s in a && u in b ==> Apart(s, u)
    ensures DistinctSteps(a + b)
  {
  }

  /** With unique names in the templates, the names below every expanded node are unambiguous. */
  lemma {:induction false} ExpandUnambiguous(t: Templates, ss: seq<Step>, stack: set<TypeId>)
    requires UniqueTemplates(t) && DistinctSteps(ss)
    ensures Unambiguous(ExpandAll(t, ss, stack))
    decreases |AllIds(t) - stack|, 1, |ss|
  {
    if ss != [] {
      hide Unambiguous, DistinctSteps, Apart, Resolves, UniqueTemplates;
      var tree, rest := Expand(t, ss[0], stack), ExpandAll(t, ss[1..], stack);
      TailDistinct(ss);
      ExpandUnambiguous(t, ss[1..], stack);
      if tree.Some? {
        ChildrenUnambiguous(t, ss[0], stack);
        HeadApart(t, ss, stack, tree.value);
        ConsUnambiguous(tree.value, rest);
      } else {
        assert [] + rest == rest;
      }
    } else {
      NothingAmbiguous();
    }
  }

  lemma NothingAmbiguous()
    ensures Unambiguous([])
  {
  }

  lemma TailDistinct(ss: seq<Step>)
    requires DistinctSteps(ss) && ss != []
    ensures DistinctSteps(ss[1..]) && forall u :: u in ss[1..] ==> Apart(ss[0], u)
  {
  }

  lemma HeadApart(t: Templates, ss: seq<Step>, stack: set<TypeId>, head: Node)
    requires ss != [] && head.step == ss[0] && forall u :: u in ss[1..] ==> Apart(ss[0], u)
    ensures forall n :: n in ExpandAll(t, ss[1..], stack) && NameOf(n) == NameOf(head) ==>
              n.step.DaStep? && head.step.DaStep? && n.step.fc != head.step.fc
  {
    hide ExpandAll, Resolves;
    forall n | n in ExpandAll(t, ss[1..], stack) && NameOf(n) == NameOf(head)
      ensures n.step.DaStep? && head.step.DaStep? && n.step.fc != head.step.fc
    {
      ExpandAllHas(t, ss[1..], stack, n);
      var u :| u in ss[1..] && Expand(t, u, stack) == Some(n);
      assert n.step == u;
    }
  }

  lemma ConsUnambiguous(n: Node, rest: seq<Node>)
    requires Unambiguous(rest) && Unambiguous(n.children)
    requires n.step.DaStep? ==> forall c :: c in n.children ==> HasFc(c, n.step.fc)
    requires forall x :: x in rest && NameOf(x) == NameOf(n) ==> x.step.DaStep? && n.step.DaStep? && x.step.fc != n.step.fc
    ensures Unambiguous([n] + rest)
  {
  }

  lemma {:induction false} ChildrenUnambiguous(t: Templates, s: Step, stack: set<TypeId>)
    requires UniqueTemplates(t) && Expand(t, s, stack).Some?
    ensures Unambiguous(Expand(t, s, stack).value.children)
    ensures s.DaStep? ==> forall c :: c in Expand(t, s, stack).value.children ==> HasFc(c, s.fc)
    decreases |AllIds(t) - stack|, 0, 0
  {
    if IdOf(s).Some? {
      var inner := stack + {IdOf(s).value};
      StackGrows(t, s, stack);
      match s {
        case DoStep(d) => AllStepsDistinct(t.doTypes[d.typeId], t.doTypes[d.typeId]);
        case DaStep(d, fc) => SubStepsDistinct(t.daTypes[d.typeId], fc);
      }
      ExpandUnambiguous(t, Choices(t, s), inner);
      forall c | c in ExpandAll(t, Choices(t, s), inner)
        ensures s.DaStep? ==> HasFc(c, s.fc)
      {
        ExpandAllHas(t, Choices(t, s), inner, c);
      }
    }
  }

  predicate DistinctDos(dos: seq<DoDef>) {
    forall i, j :: 0 <= i < j < |dos| ==> dos[i].name != dos[j].name
  }

  lemma {:induction false} TopStepsDistinct(dos: seq<DoDef>)
    requires DistinctDos(dos)
    ensures DistinctSteps(TopSteps(dos))
  {
    if dos != [] {
      TopStepsDistinct(dos[1..]);
      var s, rest := DoStep(dos[0].(count := 0)), TopSteps(dos[1..]);
      forall x | x in rest
        ensures Apart(s, x)
      {
        var d :| d in dos[1..] && x.def == d.(count := 0);
        var j :| 0 <= j < |dos[1..]| && dos[1..][j] == d;
        assert dos[j + 1] == d;
      }
      ConsDistinct(s, rest);
    }
  }

  /** Templates in which every name is used once give logical nodes in which names and FC tell everything
      apart: what resolving dataset members and looking up in the indexes ask for. */
  lemma LnIsUnambiguous(t: Templates, ln: LnDef)
    requires UniqueTemplates(t) && (ln.lnType in t.lnodeTypes ==> DistinctDos(t.lnodeTypes[ln.lnType]))
    ensures Unambiguous(LnTree(t, ln).dos) && forall n :: n in LnTree(t, ln).dos ==> n.step.DoStep?
  {
    if ln.lnType in t.lnodeTypes {
      hide Unambiguous, ExpandAll;
      var steps := TopSteps(t.lnodeTypes[ln.lnType]);
      TopStepsDistinct(t.lnodeTypes[ln.lnType]);
      ExpandUnambiguous(t, steps, {});
      forall n | n in ExpandAll(t, steps, {})
        ensures n.step.DoStep?
      {
        ExpandAllHas(t, steps, {}, n);
      }
    }
  }

  /** The template names of an IED's own types are unique. */
  predicate UniqueNames(t: Templates, lds: seq<LDevice>) {
    && UniqueTemplates(t)
    && forall ld, ln :: ld in lds && ln in ld.lns && ln.lnType in t.lnodeTypes ==> DistinctDos(t.lnodeTypes[ln.lnType])
  }

  /** `trees` is what an expansion of `lds` gives. */
  predicate Expansion(t: Templates, ied: string, lds: seq<LDevice>, trees: seq<LogicalDevice>) {
    |trees| == |Kept(lds)| && forall k :: 0 <= k < |trees| ==> trees[k] == LdTree(t, ied, Kept(lds)[k])
  }

  lemma ExpansionIsUnambiguous(t: Templates, ied: string, lds: seq<LDevice>, trees: seq<LogicalDevice>)
    requires UniqueNames(t, lds) && Expansion(t, ied, lds, trees)
    ensures forall ld, ln :: ld in trees && ln in ld.lns ==> Unambiguous(ln.dos) && forall n :: n in ln.dos ==> n.step.DoStep?
  {
    hide Unambiguous, ExpandAll, UniqueTemplates, Kept;
    forall ld, ln | ld in trees && ln in ld.lns
      ensures Unambiguous(ln.dos) && forall n :: n in ln.dos ==> n.step.DoStep?
    {
      var k :| 0 <= k < |trees| && trees[k] == ld;
      var j :| 0 <= j < |ld.lns| && ld.lns[j] == ln;
      KeptGrows(lds, |lds|);
      KeptIsThere(lds, k);
      LnIsUnambiguous(t, Kept(lds)[k].lns[j]);
    }
  }

  lemma {:induction false} KeptIsThere(lds: seq<LDevice>, k: nat)
    requires k < |Kept(lds)|
    ensures Kept(lds)[k] in lds
  {
    if lds != [] {
      var n := |lds| - 1;
      assert lds == lds[..n] + [lds[n]];
      if k < |Kept(lds[..n])| {
        KeptIsThere(lds[..n], k);
      }
    }
  }

  /** From the templates to a dataset member: in an expansion of templates with unique names a member resolves
      exactly when everything it names exists, and then to that. */
  method ResolveExpanded(t: Templates, ied: string, lds: seq<LDevice>, trees: seq<LogicalDevice>, ownInst: string, f: Fcda)
    returns (target: Option<Node>)
    requires UniqueNames(t, lds) && Expansion(t, ied, lds, trees)
    ensures target.Some? <==> HomeOf(trees, ownInst, f).Some? && exists n :: MemberAt(HomeOf(trees, ownInst, f).value.dos, f, n)
    ensures target.Some? ==> forall n :: MemberAt(HomeOf(trees, ownInst, f).value.dos, f, n) <==> target == Some(n)
  {
    hide Unambiguous, MemberAt, UniqueNames, Expansion;
    ExpansionIsUnambiguous(t, ied, lds, trees);
    HomeIsThere(trees, ownInst, f);
    target := ResolveFcda(trees, ownInst, f);
  }

  lemma HomeIsThere(lds: seq<LogicalDevice>, ownInst: string, f: Fcda)
    ensures HomeOf(lds, ownInst, f).Some? ==> exists ld :: ld in lds && HomeOf(lds, ownInst, f).value in ld.lns
  {
    LdIsThere(lds, if f.ldInst == "" then ownInst else f.ldInst);
    var ld := LdByInst(lds, if f.ldInst == "" then ownInst else f.ldInst);
    if ld.Some? {
      LnIsThere(ld.value.lns, f.lnName);
    }
  }

  lemma {:induction false} LdIsThere(lds: seq<LogicalDevice>, inst: string)
    ensures LdByInst(lds, inst).Some? ==> LdByInst(lds, inst).value in lds
  {
    if lds != [] {
      LdIsThere(lds[1..], inst);
    }
  }

  lemma {:induction false} LnIsThere(lns: seq<LogicalNode>, name: string)
    ensures LnByName(lns, name).Some? ==> LnByName(lns, name).value in lns
  {
    if lns != [] {
      LnIsThere(lns[1..], name);
    }
  }
}

/** The expanded server model: walking it, indexing it, and resolving dataset members in it. */
module Expected {
  import opened Results
  import opened Templates

  datatype LogicalNode = LogicalNode(name: string, dos: seq<Node>)

  datatype LogicalDevice = LogicalDevice(inst: string, domain: string, lns: seq<LogicalNode>)

  /** `LD/LN.DO.SDO.DA.BDA`: the names below a logical node. */
  datatype Ref = Ref(domain: string, ln: string, path: seq<string>)

  datatype Found = Found(ref: Ref, node: Node)

  function NameOf(n: Node): string {
    match n.step
    case DoStep(d) => d.name
    case DaStep(d, _) => d.name
  }

  function CountOf(n: Node): int {
    match n.step
    case DoStep(d) => d.count
    case DaStep(d, _) => d.count
  }

  predicate HasFc(n: Node, fc: string) {
    n.step.DaStep? && n.step.fc == fc
  }

  // ---------------------------------------------------------------- walking

  function Below(r: Ref, name: string): Ref {
    r.(path := r.path + [name])
  }

  /** All attributes of these nodes and below them, pre-order. */
  function WalkAttributes(ns: seq<Node>, at: Ref): seq<Found> {
    if ns == [] then []
    else
      var r := Below(at, NameOf(ns[0]));
      (if ns[0].step.DaStep? then [Found(r, ns[0])] else []) + WalkAttributes(ns[0].children, r) + WalkAttributes(ns[1..], at)
  }

  /** All data objects of these nodes and below them, pre-order: `walk_dos` does not look below attributes. */
  function WalkObjects(ns: seq<Node>, at: Ref): seq<Found> {
    if ns == [] then []
    else
      var r := Below(at, NameOf(ns[0]));
      (if ns[0].step.DoStep? then [Found(r, ns[0])] + WalkObjects(ns[0].children, r) else []) + WalkObjects(ns[1..], at)
  }

  /** `n` is what the names spell, starting among `ns`. */
  predicate NodeAt(ns: seq<Node>, names: seq<string>, n: Node)
    decreases |names|
  {
    names != [] && exists c :: c in ns && NameOf(c) == names[0] && (if |names| == 1 then n == c else NodeAt(c.children, names[1..], n))
  }

  lemma NodeAtSplit(ns: seq<Node>, names: seq<string>, n: Node)
    requires ns != []
    ensures NodeAt(ns, names, n) <==> NodeAt([ns[0]], names, n) || NodeAt(ns[1..], names, n)
  {
  }

  /** The walk finds exactly the attributes that some names spell. */
  lemma {:induction false} WalkFinds(ns: seq<Node>, at: Ref, f: Found)
    ensures f in WalkAttributes(ns, at) <==>
              && f.node.step.DaStep? && f.ref.domain == at.domain && f.ref.ln == at.ln
              && at.path <= f.ref.path && NodeAt(ns, f.ref.path[|at.path|..], f.node)
    decreases ns
  {
    if ns != [] {
      hide NodeAt;
      var c := ns[0];
      var r := Below(at, NameOf(c));
      WalkFinds(c.children, r, f);
      WalkFinds(ns[1..], at, f);
      Extends(at.path, NameOf(c), f.ref.path);
      if at.path <= f.ref.path {
        var names := f.ref.path[|at.path|..];
        NodeAtSplit(ns, names, f.node);
        SpelledBelow(c, names, f.node);
      }
    } else {
      NothingThere(f);
    }
  }

  lemma NothingThere(f: Found)
    ensures forall names :: !NodeAt([], names, f.node)
  {
  }

  lemma Extends(at: seq<string>, name: string, p: seq<string>)
    ensures at + [name] <= p <==> at <= p && |p| > |at| && p[|at|] == name
    ensures at <= p && |p| > |at| ==> p[|at|..][0] == p[|at|] && p[|at|..][1..] == p[|at| + 1..]
    ensures at + [name] <= p && |p| == |at| + 1 ==> p == at + [name]
  {
  }

  lemma SpelledBelow(c: Node, names: seq<string>, n: Node)
    ensures NodeAt([c], names, n) <==>
              names != [] && names[0] == NameOf(c) && (if |names| == 1 then n == c else NodeAt(c.children, names[1..], n))
  {
  }

  // ---------------------------------------------------------------- the indexes

  /** Attributes are indexed by reference and FC, data objects by reference alone. */
  datatype Key = Key(ref: Ref, fc: string)

  function KeyOf(f: Found): Key {
    Key(f.ref, if f.node.step.DaStep? then f.node.step.fc else "")
  }

  /** `next(x for x in found if ...)`. */
  function FirstMatch(fs: seq<Found>, k: Key): Option<Node> {
    if fs == [] then None else if KeyOf(fs[0]) == k then Some(fs[0].node) else FirstMatch(fs[1..], k)
  }

  /** A lookup in the index is the first match of a linear scan. */
  ghost predicate IsIndexOf(index: map<Key, Node>, fs: seq<Found>) {
    forall k :: FirstMatch(fs, k) == if k in index then Some(index[k]) else None
  }

  lemma {:induction false} FirstMatchAppend(fs: seq<Found>, f: Found, k: Key)
    ensures FirstMatch(fs + [f], k) ==
              if FirstMatch(fs, k).Some? then FirstMatch(fs, k)
              else if KeyOf(f) == k then Some(f.node)
              else None
  {
    if fs == [] {
      assert fs + [f] == [f];
    } else {
      assert (fs + [f])[0] == fs[0] && (fs + [f])[1..] == fs[1..] + [f];
      FirstMatchAppend(fs[1..], f, k);
    }
  }

  function LnRef(ld: LogicalDevice, ln: LogicalNode): Ref {
    Ref(ld.domain, ln.name, [])
  }

  function AttributesOfLns(ld: LogicalDevice, lns: seq<LogicalNode>): seq<Found>
    decreases |lns|
  {
    if lns == [] then []
    else
      var n := |lns| - 1;
      AttributesOfLns(ld, lns[..n]) + WalkAttributes(lns[n].dos, LnRef(ld, lns[n]))
  }

  /** The flat attribute list of a server. */
  function Attributes(lds: seq<LogicalDevice>): seq<Found> {
    if lds == [] then []
    else
      var n := |lds| - 1;
      Attributes(lds[..n]) + AttributesOfLns(lds[n], lds[n].lns)
  }

  function ObjectsOfLns(ld: LogicalDevice, lns: seq<LogicalNode>): seq<Found>
    decreases |lns|
  {
    if lns == [] then []
    else
      var n := |lns| - 1;
      ObjectsOfLns(ld, lns[..n]) + WalkObjects(lns[n].dos, LnRef(ld, lns[n]))
  }

  /** The data objects of a server. */
  function Objects(lds: seq<LogicalDevice>): seq<Found> {
    if lds == [] then []
    else
      var n := |lds| - 1;
      Objects(lds[..n]) + ObjectsOfLns(lds[n], lds[n].lns)
  }

  /** Add what was found to the index, unless its key is taken. */
  method IndexAll(found: seq<Found>, ghost before: seq<Found>, index: map<Key, Node>) returns (index': map<Key, Node>)
    requires IsIndexOf(index, before)
    ensures IsIndexOf(index', before + found)
  {
    index' := index;
    assert before + found[..0] == before;
    for i := 0 to |found|
      invariant IsIndexOf(index', before + found[..i])
    {
      var f := found[i];
      ghost var was := index';
      if KeyOf(f) !in index' {
        index' := index'[KeyOf(f) := f.node];
      }
      assert before + found[..i + 1] == before + found[..i] + [f];
      forall k
        ensures FirstMatch(before + found[..i + 1], k) == if k in index' then Some(index'[k]) else None
      {
        FirstMatchAppend(before + found[..i], f, k);
      }
    }
    assert found[..|found|] == found;
  }

  lemma NothingIndexed()
    ensures IsIndexOf(map[], [])
  {
  }

  /** The attribute list of the server and the indexes of its attributes and data objects: a lookup is always
      the first match of a linear scan. */
  method BuildIndex(lds: seq<LogicalDevice>) returns (attributes: seq<Found>, index: map<Key, Node>, doIndex: map<Key, Node>)
    ensures attributes == Attributes(lds)
    ensures IsIndexOf(index, attributes) && IsIndexOf(doIndex, Objects(lds))
  {
    hide IsIndexOf, WalkAttributes, WalkObjects;
    NothingIndexed();
    attributes, index, doIndex := [], map[], map[];
    for i := 0 to |lds|
      invariant attributes == Attributes(lds[..i]) && IsIndexOf(index, attributes) && IsIndexOf(doIndex, Objects(lds[..i]))
    {
      var ld := lds[i];
      ghost var before, objects := attributes, Objects(lds[..i]);
      assert objects + ObjectsOfLns(ld, ld.lns[..0]) == objects;
      for j := 0 to |ld.lns|
        invariant attributes == before + AttributesOfLns(ld, ld.lns[..j]) && IsIndexOf(index, attributes)
        invariant IsIndexOf(doIndex, objects + ObjectsOfLns(ld, ld.lns[..j]))
      {
        assert ld.lns[..j + 1][..j] == ld.lns[..j];
        var at := LnRef(ld, ld.lns[j]);
        doIndex := IndexAll(WalkObjects(ld.lns[j].dos, at), objects + ObjectsOfLns(ld, ld.lns[..j]), doIndex);
        index := IndexAll(WalkAttributes(ld.lns[j].dos, at), attributes, index);
        attributes := attributes + WalkAttributes(ld.lns[j].dos, at);
        assert objects + ObjectsOfLns(ld, ld.lns[..j + 1]) == objects + ObjectsOfLns(ld, ld.lns[..j]) + WalkObjects(ld.lns[j].dos, at);
      }
      assert ld.lns[..|ld.lns|] == ld.lns && lds[..i + 1][..i] == lds[..i];
    }
    assert lds[..|lds|] == lds;
  }

  // ---------------------------------------------------------------- unique names

  /** What tells two siblings of the same name apart. */
  function KindOf(n: Node): Option<string> {
    match n.step
    case DoStep(_) => None
    case DaStep(_, fc) => Some(fc)
  }

  /** No two siblings have the same name, but for the copies of an attribute under several FCs; and a
      sub-attribute has the FC of its attribute. */
  predicate Unambiguous(ns: seq<Node>) {
    && (forall i, j :: 0 <= i < j < |ns| && NameOf(ns[i]) == NameOf(ns[j]) ==>
          ns[i].step.DaStep? && ns[j].step.DaStep? && ns[i].step.fc != ns[j].step.fc)
    && forall n :: n in ns ==> Unambiguous(n.children) && forall c :: c in n.children && n.step.DaStep? ==> HasFc(c, n.step.fc)
  }

  lemma SameSibling(ns: seq<Node>, a: Node, b: Node)
    requires Unambiguous(ns) && a in ns && b in ns && NameOf(a) == NameOf(b)
    requires KindOf(a) == KindOf(b) || a.step.DoStep?
    ensures a == b
  {
  }

  lemma {:induction false} FcBelow(c: Node, names: seq<string>, n: Node)
    requires Unambiguous([c]) && c.step.DaStep? && NodeAt(c.children, names, n)
    ensures HasFc(n, c.step.fc)
    decreases |names|
  {
    assert c in [c];
    var d :| d in c.children && NameOf(d) == names[0] && (if |names| == 1 then n == d else NodeAt(d.children, names[1..], n));
    if |names| > 1 {
      assert Unambiguous([d]) by {
        assert Unambiguous(d.children);
      }
      FcBelow(d, names[1..], n);
    }
  }

  /** Names and FC tell attributes apart. */
  lemma {:induction false} OneNodeAt(ns: seq<Node>, names: seq<string>, a: Node, b: Node)
    requires Unambiguous(ns) && NodeAt(ns, names, a) && NodeAt(ns, names, b)
    requires KindOf(a) == KindOf(b)
    ensures a == b
    decreases |names|
  {
    var c :| c in ns && NameOf(c) == names[0] && (if |names| == 1 then a == c else NodeAt(c.children, names[1..], a));
    var d :| d in ns && NameOf(d) == names[0] && (if |names| == 1 then b == d else NodeAt(d.children, names[1..], b));
    if |names| == 1 {
      SameSibling(ns, c, d);
    } else {
      if c.step.DaStep? {
        FcBelow(c, names[1..], a);
      }
      if d.step.DaStep? {
        FcBelow(d, names[1..], b);
      }
      SameSibling(ns, if d.step.DoStep? then d else c, if d.step.DoStep? then c else d);
      OneNodeAt(c.children, names[1..], a, b);
    }
  }

  // ---------------------------------------------------------------- resolving a dataset member

  const FCS: set<string> := {"ST", "MX", "SP", "SV", "CF", "DC", "SG", "SE", "SR", "OR", "BL", "EX", "CO", "US", "MS", "RP", "BR", "LG", "GO"}

  /** A dataset member: the names of the data object and of the attribute are already split at the dots. */
  datatype Fcda = Fcda(ldInst: string, lnName: string, doParts: seq<string>, daParts: seq<string>, fc: string, ix: Option<int>)

  /** `child(name, fc)`: the first child of that name; with an FC, the first such attribute. */
  function Child(ns: seq<Node>, name: string, fc: Option<string>): Option<Node> {
    if ns == [] then None
    else if NameOf(ns[0]) == name && (fc.None? || HasFc(ns[0], fc.value)) then Some(ns[0])
    else Child(ns[1..], name, fc)
  }

  lemma {:induction false} ChildMeans(ns: seq<Node>, name: string, fc: Option<string>)
    ensures var c := Child(ns, name, fc);
            && (c.Some? ==> c.value in ns && NameOf(c.value) == name && (fc.Some? ==> HasFc(c.value, fc.value)))
            && (c.None? ==> forall n :: n in ns && NameOf(n) == name ==> fc.Some? && !HasFc(n, fc.value))
  {
    if ns != [] {
      assert ns == [ns[0]] + ns[1..];
      ChildMeans(ns[1..], name, fc);
    }
  }

  /** The (sub) data object the names lead to. */
  function FindObject(ns: seq<Node>, names: seq<string>): Option<Node>
    requires names != []
    decreases |names|
  {
    var c := Child(ns, names[0], None);
    if c.None? || !c.value.step.DoStep? then None
    else if |names| == 1 then c
    else FindObject(c.value.children, names[1..])
  }

  /** The sub-attribute the names lead to. */
  function FindSub(n: Node, names: seq<string>): Option<Node>
    decreases |names|
  {
    if names == [] then Some(n)
    else
      var c := Child(n.children, names[0], None);
      if c.None? then None else FindSub(c.value, names[1..])
  }

  predicate ObjectAt(ns: seq<Node>, names: seq<string>, n: Node) {
    n.step.DoStep? && NodeAt(ns, names, n)
  }

  lemma {:induction false} FindObjectMeans(ns: seq<Node>, names: seq<string>, n: Node)
    requires Unambiguous(ns) && names != []
    ensures FindObject(ns, names) == Some(n) <==> ObjectAt(ns, names, n)
    decreases |names|
  {
    var c := Child(ns, names[0], None);
    ChildMeans(ns, names[0], None);
    if c.Some? && c.value.step.DoStep? && |names| > 1 {
      FindObjectMeans(c.value.children, names[1..], n);
    }
    if ObjectAt(ns, names, n) {
      var d :| d in ns && NameOf(d) == names[0] && (if |names| == 1 then n == d else NodeAt(d.children, names[1..], n));
      if d.step.DaStep? && |names| > 1 {
        FcBelow(d, names[1..], n);
      }
      SameSibling(ns, d, c.value);
    }
  }

  /** The attribute under `fc` that the names spell below a data object. */
  predicate AttributeAt(ns: seq<Node>, names: seq<string>, fc: string, n: Node) {
    names != [] && exists c :: c in ns && NameOf(c) == names[0] && HasFc(c, fc) && SubAt(c, names[1..], n)
  }

  predicate SubAt(c: Node, names: seq<string>, n: Node) {
    if names == [] then n == c else NodeAt(c.children, names, n)
  }

  lemma {:induction false} FindSubMeans(c: Node, names: seq<string>, n: Node)
    requires Unambiguous([c]) && c.step.DaStep?
    ensures FindSub(c, names) == Some(n) <==> SubAt(c, names, n)
    decreases |names|
  {
    assert c in [c];
    if names != [] {
      var d := Child(c.children, names[0], None);
      ChildMeans(c.children, names[0], None);
      if d.Some? {
        assert Unambiguous(d.value.children) && HasFc(d.value, c.step.fc);
        assert Unambiguous([d.value]);
        FindSubMeans(d.value, names[1..], n);
      }
      if SubAt(c, names, n) {
        var e :| e in c.children && NameOf(e) == names[0] && (if |names| == 1 then n == e else NodeAt(e.children, names[1..], n));
        SameSibling(c.children, d.value, e);
      }
    }
  }

  function LdByInst(lds: seq<LogicalDevice>, inst: string): Option<LogicalDevice> {
    if lds == [] then None else if lds[0].inst == inst then Some(lds[0]) else LdByInst(lds[1..], inst)
  }

  function LnByName(lns: seq<LogicalNode>, name: string): Option<LogicalNode> {
    if lns == [] then None else if lns[0].name == name then Some(lns[0]) else LnByName(lns[1..], name)
  }

  /** The logical node a member is in. */
  function HomeOf(lds: seq<LogicalDevice>, ownInst: string, f: Fcda): Option<LogicalNode> {
    var ld := LdByInst(lds, if f.ldInst == "" then ownInst else f.ldInst);
    if ld.None? then None else LnByName(ld.value.lns, f.lnName)
  }

  /** The member is in the first node of its name in the first device of its inst, its own device's where it names none. */
  lemma HomeMeans(lds: seq<LogicalDevice>, ownInst: string, f: Fcda, i: nat, j: nat)
    ensures var inst := if f.ldInst == "" then ownInst else f.ldInst;
            && ((forall k :: 0 <= k < |lds| ==> lds[k].inst != inst) ==> HomeOf(lds, ownInst, f) == None)
            && (i < |lds| && lds[i].inst == inst && (forall k :: 0 <= k < i ==> lds[k].inst != inst) ==>
                  && ((forall k :: 0 <= k < |lds[i].lns| ==> lds[i].lns[k].name != f.lnName) ==> HomeOf(lds, ownInst, f) == None)
                  && (j < |lds[i].lns| && lds[i].lns[j].name == f.lnName && (forall k :: 0 <= k < j ==> lds[i].lns[k].name != f.lnName) ==>
                        HomeOf(lds, ownInst, f) == Some(lds[i].lns[j])))
  {
    hide LdByInst, LnByName;
    var inst := if f.ldInst == "" then ownInst else f.ldInst;
    FirstLd(lds, inst, i);
    if i < |lds| {
      FirstLn(lds[i].lns, f.lnName, j);
    }
  }

  lemma {:induction false} FirstLd(lds: seq<LogicalDevice>, inst: string, i: nat)
    ensures (forall k :: 0 <= k < |lds| ==> lds[k].inst != inst) ==> LdByInst(lds, inst) == None
    ensures i < |lds| && lds[i].inst == inst && (forall k :: 0 <= k < i ==> lds[k].inst != inst) ==> LdByInst(lds, inst) == Some(lds[i])
  {
    if lds != [] && lds[0].inst != inst {
      FirstLd(lds[1..], inst, if i > 0 then i - 1 else 0);
    }
  }

  lemma {:induction false} FirstLn(lns: seq<LogicalNode>, name: string, j: nat)
    ensures (forall k :: 0 <= k < |lns| ==> lns[k].name != name) ==> LnByName(lns, name) == None
    ensures j < |lns| && lns[j].name == name && (forall k :: 0 <= k < j ==> lns[k].name != name) ==> LnByName(lns, name) == Some(lns[j])
  {
    if lns != [] && lns[0].name != name {
      FirstLn(lns[1..], name, if j > 0 then j - 1 else 0);
    }
  }

  /** The member's array index, if it has one, is inside the array. */
  predicate IndexFits(f: Fcda, n: Node) {
    f.ix.Some? ==> 0 <= f.ix.value < CountOf(n)
  }

  ghost predicate HasData(d: Node, fc: string) {
    exists names, a :: NodeAt(d.children, names, a) && HasFc(a, fc)
  }

  /** `n` is what the member names, below the data objects `dos` of its logical node. */
  ghost predicate MemberAt(dos: seq<Node>, f: Fcda, n: Node) {
    && f.fc in FCS && IndexFits(f, n)
    && exists d :: ObjectAt(dos, f.doParts, d)
         && if f.daParts == [] then n == d && HasData(d, f.fc) else AttributeAt(d.children, f.daParts, f.fc, n)
  }

  /** `any(a.fc == fc for a in node.walk_attributes())`. */
  method AnyWithFc(d: Node, fc: string) returns (found: bool)
    ensures found <==> HasData(d, fc)
  {
    var at := Ref("", "", []);
    var fs := WalkAttributes(d.children, at);
    found := false;
    for i := 0 to |fs|
      invariant !found && forall k :: 0 <= k < i ==> !HasFc(fs[k].node, fc)
    {
      if HasFc(fs[i].node, fc) {
        WalkFinds(d.children, at, fs[i]);
        assert NodeAt(d.children, fs[i].ref.path, fs[i].node);
        return true;
      }
    }
    if names, a :| NodeAt(d.children, names, a) && HasFc(a, fc) {
      WalkFinds(d.children, at, Found(Ref("", "", names), a));
      assert false;
    }
  }

  /** `resolve_fcda`: the target of a dataset member, None when it does not resolve. */
  method ResolveFcda(lds: seq<LogicalDevice>, ownInst: string, f: Fcda) returns (target: Option<Node>)
    requires forall ld, ln, n :: ld in lds && ln in ld.lns && n in ln.dos ==> n.step.DoStep?
    ensures target.Some? ==> HomeOf(lds, ownInst, f).Some?
    // it resolves exactly when everything it names exists, and then to that
    ensures HomeOf(lds, ownInst, f).Some? && Unambiguous(HomeOf(lds, ownInst, f).value.dos) ==>
              forall n :: target == Some(n) <==> MemberAt(HomeOf(lds, ownInst, f).value.dos, f, n)
  {
    if f.fc == "" || f.fc !in FCS {
      return None;
    }
    var home := HomeOf(lds, ownInst, f);
    if home.None? || f.doParts == [] {
      return None;
    }
    var dos := home.value.dos;
    var entity := DescendObjects(dos, f.doParts);
    MemberMeans(dos, f);
    if entity.None? {
      return None;
    }
    var node := entity.value;
    if f.daParts != [] {
      var first := Child(node.children, f.daParts[0], Some(f.fc));
      if first.None? {
        return None;
      }
      var sub := DescendSubs(first.value, f.daParts[1..]);
      if sub.None? {
        return None;
      }
      node := sub.value;
    } else {
      var present := AnyWithFc(node, f.fc);
      if !present {
        return None;
      }
    }
    if f.ix.Some? && (CountOf(node) <= 0 || !(0 <= f.ix.value < CountOf(node))) {
      return None;
    }
    target := Some(node);
  }

  method DescendObjects(dos: seq<Node>, names: seq<string>) returns (n: Option<Node>)
    requires names != []
    ensures n == FindObject(dos, names)
  {
    var c := Child(dos, names[0], None);
    if c.None? || !c.value.step.DoStep? {
      return None;
    }
    var node := c.value;
    for i := 1 to |names|
      invariant FindObject(dos, names) == if i == |names| then Some(node) else FindObject(node.children, names[i..])
    {
      var next := Child(node.children, names[i], None);
      assert names[i..][1..] == names[i + 1..];
      if next.None? || !next.value.step.DoStep? {
        return None;
      }
      node := next.value;
    }
    n := Some(node);
  }

  method DescendSubs(a: Node, names: seq<string>) returns (n: Option<Node>)
    ensures n == FindSub(a, names)
  {
    var node := a;
    assert names[0..] == names;
    for i := 0 to |names|
      invariant FindSub(a, names) == FindSub(node, names[i..])
    {
      var next := Child(node.children, names[i], None);
      assert names[i..][1..] == names[i + 1..];
      if next.None? {
        return None;
      }
      node := next.value;
    }
    n := Some(node);
  }

  /** What a member names, in terms of the first matches. */
  lemma MemberMeans(dos: seq<Node>, f: Fcda)
    requires f.doParts != []
    ensures Unambiguous(dos) ==>
              forall n :: MemberAt(dos, f, n) <==>
                && f.fc in FCS && IndexFits(f, n) && FindObject(dos, f.doParts).Some?
                && var d := FindObject(dos, f.doParts).value;
                   if f.daParts == [] then n == d && HasData(d, f.fc)
                   else
                     var first := Child(d.children, f.daParts[0], Some(f.fc));
                     first.Some? && FindSub(first.value, f.daParts[1..]) == Some(n)
  {
    if Unambiguous(dos) {
      var entity := FindObject(dos, f.doParts);
      forall d
        ensures entity == Some(d) <==> ObjectAt(dos, f.doParts, d)
      {
        FindObjectMeans(dos, f.doParts, d);
      }
      if entity.Some? && f.daParts != [] {
        ObjectIsUnambiguous(dos, f.doParts, entity.value);
        forall n
          ensures AttributeAt(entity.value.children, f.daParts, f.fc, n) <==>
                    var first := Child(entity.value.children, f.daParts[0], Some(f.fc));
                    first.Some? && FindSub(first.value, f.daParts[1..]) == Some(n)
        {
          AttributeMeans(entity.value.children, f.daParts, f.fc, n);
        }
      }
    }
  }

  lemma {:induction false} ObjectIsUnambiguous(ns: seq<Node>, names: seq<string>, n: Node)
    requires Unambiguous(ns) && NodeAt(ns, names, n)
    ensures Unambiguous(n.children)
    decreases |names|
  {
    var c :| c in ns && NameOf(c) == names[0] && (if |names| == 1 then n == c else NodeAt(c.children, names[1..], n));
    if |names| > 1 {
      ObjectIsUnambiguous(c.children, names[1..], n);
    }
  }

  lemma AttributeMeans(ns: seq<Node>, names: seq<string>, fc: string, n: Node)
    requires Unambiguous(ns) && names != []
    ensures AttributeAt(ns, names, fc, n) <==>
              var first := Child(ns, names[0], Some(fc));
              first.Some? && FindSub(first.value, names[1..]) == Some(n)
  {
    var first := Child(ns, names[0], Some(fc));
    ChildMeans(ns, names[0], Some(fc));
    forall c | c in ns && NameOf(c) == names[0] && HasFc(c, fc)
      ensures first == Some(c) && (FindSub(c, names[1..]) == Some(n) <==> SubAt(c, names[1..], n))
    {
      SameSibling(ns, c, first.value);
      FindSubMeans(c, names[1..], n);
    }
  }

  // ---------------------------------------------------------------- members and the index

  /** Where names are unambiguous, the walk finds exactly the data objects that some names spell. */
  lemma {:induction false} WalkObjectsFinds(ns: seq<Node>, at: Ref, f: Found)
    requires Unambiguous(ns)
    ensures f in WalkObjects(ns, at) <==>
              && f.ref.domain == at.domain && f.ref.ln == at.ln
              && at.path <= f.ref.path && ObjectAt(ns, f.ref.path[|at.path|..], f.node)
    decreases ns
  {
    if ns != [] {
      hide NodeAt;
      var c := ns[0];
      var r := Below(at, NameOf(c));
      UnambiguousParts(ns);
      WalkObjectsFinds(ns[1..], at, f);
      if c.step.DoStep? {
        WalkObjectsFinds(c.children, r, f);
      }
      Extends(at.path, NameOf(c), f.ref.path);
      if at.path <= f.ref.path {
        var names := f.ref.path[|at.path|..];
        NodeAtSplit(ns, names, f.node);
        SpelledBelow(c, names, f.node);
        if c.step.DaStep? && f.node.step.DoStep? && |names| > 1 && NodeAt(c.children, names[1..], f.node) {
          FcBelow(c, names[1..], f.node);
        }
      }
    } else {
      NothingThere(f);
    }
  }

  lemma UnambiguousParts(ns: seq<Node>)
    requires Unambiguous(ns) && ns != []
    ensures Unambiguous(ns[1..]) && Unambiguous(ns[0].children) && Unambiguous([ns[0]])
  {
    assert ns[0] in ns && forall n :: n in ns[1..] ==> n in ns;
  }

  lemma {:induction false} ObjectsOfLnsHas(ld: LogicalDevice, lns: seq<LogicalNode>, f: Found)
    ensures f in ObjectsOfLns(ld, lns) <==> exists ln :: ln in lns && f in WalkObjects(ln.dos, LnRef(ld, ln))
  {
    if lns != [] {
      var n := |lns| - 1;
      ObjectsOfLnsHas(ld, lns[..n], f);
      assert lns == lns[..n] + [lns[n]];
    }
  }

  ghost predicate ObjectSomewhere(lds: seq<LogicalDevice>, f: Found) {
    exists ld, ln :: ld in lds && ln in ld.lns && f in WalkObjects(ln.dos, LnRef(ld, ln))
  }

  lemma ObjectSomewhereOrLast(lds: seq<LogicalDevice>, last: LogicalDevice, f: Found)
    ensures ObjectSomewhere(lds + [last], f) <==>
              ObjectSomewhere(lds, f) || exists ln :: ln in last.lns && f in WalkObjects(ln.dos, LnRef(last, ln))
  {
    hide WalkObjects, LnRef;
    var all := lds + [last];
    if ObjectSomewhere(all, f) {
      var ld, ln :| ld in all && ln in ld.lns && f in WalkObjects(ln.dos, LnRef(ld, ln));
    }
    if ObjectSomewhere(lds, f) {
      var ld, ln :| ld in lds && ln in ld.lns && f in WalkObjects(ln.dos, LnRef(ld, ln));
      assert ld in all;
    }
    assert last in all;
  }

  lemma {:induction false} ObjectsHas(lds: seq<LogicalDevice>, f: Found)
    ensures f in Objects(lds) <==> ObjectSomewhere(lds, f)
  {
    if lds != [] {
      var n := |lds| - 1;
      ObjectsHas(lds[..n], f);
      ObjectsOfLnsHas(lds[n], lds[n].lns, f);
      hide ObjectSomewhere, WalkObjects, LnRef, ObjectsOfLns;
      assert lds == lds[..n] + [lds[n]];
      ObjectSomewhereOrLast(lds[..n], lds[n], f);
    }
  }

  /** Looking a data object up in the index finds exactly what its names spell. */
  lemma DoIndexAgrees(lds: seq<LogicalDevice>, ld: LogicalDevice, ln: LogicalNode, names: seq<string>, n: Node)
    requires DistinctNames(lds) && ld in lds && ln in ld.lns
    requires forall l, m :: l in lds && m in l.lns ==> Unambiguous(m.dos)
    ensures FirstMatch(Objects(lds), Key(Ref(ld.domain, ln.name, names), "")) == Some(n) <==> ObjectAt(ln.dos, names, n)
  {
    var k := Key(Ref(ld.domain, ln.name, names), "");
    assert names[0..] == names;
    forall g | g in Objects(lds) && KeyOf(g) == k
      ensures ObjectAt(ln.dos, names, g.node)
    {
      ObjectsHas(lds, g);
      var l, m :| l in lds && m in l.lns && g in WalkObjects(m.dos, LnRef(l, m));
      WalkObjectsFinds(m.dos, LnRef(l, m), g);
    }
    SomeMatch(Objects(lds), k);
    if ObjectAt(ln.dos, names, n) {
      var found := Found(k.ref, n);
      WalkObjectsFinds(ln.dos, LnRef(ld, ln), found);
      ObjectsHas(lds, found);
      forall g | g in Objects(lds) && KeyOf(g) == KeyOf(found)
        ensures g.node == n
      {
        OneNodeAt(ln.dos, names, g.node, n);
      }
      OnlyMatch(Objects(lds), found);
    }
  }

  lemma {:induction false} SomeMatch(fs: seq<Found>, k: Key)
    ensures FirstMatch(fs, k).Some? ==> exists f :: f in fs && KeyOf(f) == k && f.node == FirstMatch(fs, k).value
  {
    if fs != [] {
      SomeMatch(fs[1..], k);
      assert fs[0] in fs && forall f :: f in fs[1..] ==> f in fs;
    }
  }

  lemma {:induction false} NodeAtConcat(ns: seq<Node>, names: seq<string>, m: Node, more: seq<string>, n: Node)
    requires NodeAt(ns, names, m) && NodeAt(m.children, more, n)
    ensures NodeAt(ns, names + more, n)
    decreases |names|
  {
    var c :| c in ns && NameOf(c) == names[0] && (if |names| == 1 then m == c else NodeAt(c.children, names[1..], m));
    assert (names + more)[0] == names[0];
    if |names| == 1 {
      assert (names + more)[1..] == more;
    } else {
      assert (names + more)[1..] == names[1..] + more;
      NodeAtConcat(c.children, names[1..], m, more, n);
    }
  }

  lemma {:induction false} AttributesOfLnsHas(ld: LogicalDevice, lns: seq<LogicalNode>, f: Found)
    ensures f in AttributesOfLns(ld, lns) <==> exists ln :: ln in lns && f in WalkAttributes(ln.dos, LnRef(ld, ln))
  {
    if lns != [] {
      var n := |lns| - 1;
      AttributesOfLnsHas(ld, lns[..n], f);
      assert lns == lns[..n] + [lns[n]];
    }
  }

  ghost predicate AttributeSomewhere(lds: seq<LogicalDevice>, f: Found) {
    exists ld, ln :: ld in lds && ln in ld.lns && f in WalkAttributes(ln.dos, LnRef(ld, ln))
  }

  lemma AttributeSomewhereOrLast(lds: seq<LogicalDevice>, last: LogicalDevice, f: Found)
    ensures AttributeSomewhere(lds + [last], f) <==>
              AttributeSomewhere(lds, f) || exists ln :: ln in last.lns && f in WalkAttributes(ln.dos, LnRef(last, ln))
  {
    hide WalkAttributes, LnRef;
    var all := lds + [last];
    if AttributeSomewhere(all, f) {
      var ld, ln :| ld in all && ln in ld.lns && f in WalkAttributes(ln.dos, LnRef(ld, ln));
    }
    if AttributeSomewhere(lds, f) {
      var ld, ln :| ld in lds && ln in ld.lns && f in WalkAttributes(ln.dos, LnRef(ld, ln));
      assert ld in all;
    }
    assert last in all;
  }

  lemma {:induction false} AttributesHas(lds: seq<LogicalDevice>, f: Found)
    ensures f in Attributes(lds) <==> AttributeSomewhere(lds, f)
  {
    if lds != [] {
      var n := |lds| - 1;
      AttributesHas(lds[..n], f);
      AttributesOfLnsHas(lds[n], lds[n].lns, f);
      hide AttributeSomewhere, WalkAttributes, LnRef, AttributesOfLns;
      assert lds == lds[..n] + [lds[n]];
      AttributeSomewhereOrLast(lds[..n], lds[n], f);
    }
  }

  lemma {:induction false} OnlyMatch(fs: seq<Found>, f: Found)
    requires f in fs && forall g :: g in fs && KeyOf(g) == KeyOf(f) ==> g.node == f.node
    ensures FirstMatch(fs, KeyOf(f)) == Some(f.node)
  {
    assert fs[0] in fs && fs == [fs[0]] + fs[1..];
    if KeyOf(fs[0]) != KeyOf(f) {
      OnlyMatch(fs[1..], f);
    }
  }

  /** The logical devices and nodes can be told apart by name. */
  predicate DistinctNames(lds: seq<LogicalDevice>) {
    && (forall a, b :: a in lds && b in lds && a.domain == b.domain ==> a == b)
    && forall ld :: ld in lds ==> forall a, b :: a in ld.lns && b in ld.lns && a.name == b.name ==> a == b
  }

  /** For an attribute member, looking its reference up in the index gives the target it resolves to. */
  lemma IndexAgrees(lds: seq<LogicalDevice>, ld: LogicalDevice, ln: LogicalNode, f: Fcda, target: Node)
    requires DistinctNames(lds) && ld in lds && ln in ld.lns
    requires forall l, n :: l in lds && n in l.lns ==> Unambiguous(n.dos)
    requires f.daParts != [] && MemberAt(ln.dos, f, target)
    ensures FirstMatch(Attributes(lds), Key(Ref(ld.domain, ln.name, f.doParts + f.daParts), f.fc)) == Some(target)
  {
    var path := f.doParts + f.daParts;
    var found := Found(Ref(ld.domain, ln.name, path), target);
    MemberIsThere(ln.dos, f, target);
    WalkFinds(ln.dos, LnRef(ld, ln), found);
    assert path[0..] == path;
    AttributesHas(lds, found);
    assert KeyOf(found) == Key(found.ref, f.fc);
    forall g | g in Attributes(lds) && KeyOf(g) == KeyOf(found)
      ensures g.node == target
    {
      AttributesHas(lds, g);
      var l, n :| l in lds && n in l.lns && g in WalkAttributes(n.dos, LnRef(l, n));
      WalkFinds(n.dos, LnRef(l, n), g);
      OneNodeAt(ln.dos, path, g.node, target);
    }
    OnlyMatch(Attributes(lds), found);
  }

  lemma MemberIsThere(dos: seq<Node>, f: Fcda, target: Node)
    requires Unambiguous(dos) && f.daParts != [] && MemberAt(dos, f, target)
    ensures NodeAt(dos, f.doParts + f.daParts, target) && HasFc(target, f.fc)
  {
    var d :| ObjectAt(dos, f.doParts, d) && AttributeAt(d.children, f.daParts, f.fc, target);
    ObjectIsUnambiguous(dos, f.doParts, d);
    var c :| c in d.children && NameOf(c) == f.daParts[0] && HasFc(c, f.fc) && SubAt(c, f.daParts[1..], target);
    assert Unambiguous(c.children);
    if |f.daParts| > 1 {
      assert Unambiguous([c]);
      FcBelow(c, f.daParts[1..], target);
    }
    assert NodeAt(d.children, f.daParts, target);
    NodeAtConcat(dos, f.doParts, d, f.daParts, target);
  }
}

/**
 The device's model as the client keeps it: the types the device declares, one branch per functional
 constraint, merged into one tree of data objects and attributes.
 */
module DeviceModels {
  import opened Results
  import opened Values
  import Refs
  import Texts

  // ---------------------------------------------------------------- declared types

  datatype VarSpec = VarSpec(kind: ValueKind, name: Option<string>, size: Option<int>, children: seq<VarSpec>, element: Option<VarSpec>)

  /** `VarSpec.child`: the first component of that name. */
  function Named(cs: seq<VarSpec>, name: string): Option<VarSpec> {
    if cs == [] then None else if cs[0].name == Some(name) then Some(cs[0]) else Named(cs[1..], name)
  }

  /** Descending by component names; only structures have components. */
  function Descend(cs: seq<VarSpec>, path: seq<string>): Option<VarSpec>
    requires path != []
    decreases |path|
  {
    var c := Named(cs, path[0]);
    if c.None? || |path| == 1 then c
    else if c.value.kind == StructureKind then Descend(c.value.children, path[1..])
    else None
  }

  predicate Decimal(part: string) {
    part != "" && forall i :: 0 <= i < |part| ==> '0' <= part[i] <= '9'
  }

  /** No array index is on the way, and only structures have components. */
  predicate PlainPath(spec: VarSpec, path: seq<string>)
    decreases |path|
  {
    path != [] ==>
      && (spec.kind == ArrayKind ==> !Decimal(path[0]))
      && (spec.kind != StructureKind ==> spec.children == [])
      && (Named(spec.children, path[0]).Some? ==> PlainPath(Named(spec.children, path[0]).value, path[1..]))
  }

  /** One step down: an index leads to the element of an array, a name to a component. */
  function StepDown(spec: VarSpec, part: string): Option<VarSpec> {
    if spec.kind == ArrayKind && Decimal(part) then spec.element else Named(spec.children, part)
  }

  function Reach(spec: VarSpec, path: seq<string>): Option<VarSpec>
    decreases |path|
  {
    if path == [] then Some(spec)
    else if StepDown(spec, path[0]).None? then None
    else Reach(StepDown(spec, path[0]).value, path[1..])
  }

  /** Every number leads to the element of an array, and nothing but digits does. */
  lemma NumbersLeadToElements(spec: VarSpec, i: nat, part: string, path: seq<string>)
    requires spec.kind == ArrayKind && spec.element.Some?
    ensures Reach(spec, [Texts.DecimalText(i)] + path) == Reach(spec.element.value, path)
    ensures (exists c :: c in part && !('0' <= c <= '9')) ==> StepDown(spec, part) == Named(spec.children, part)
  {
    Texts.DecimalRoundTrip(i);
    var text := Texts.DecimalText(i);
    assert forall k :: 0 <= k < |text| ==> text[k] in text;
    assert ([text] + path)[0] == text && ([text] + path)[1..] == path;
    if c :| c in part && !('0' <= c <= '9') {
      assert !Decimal(part);
    }
  }

  /** `VarSpec.find`: descend by component names and array indices. */
  method Find(spec: VarSpec, path: seq<string>) returns (found: Option<VarSpec>)
    ensures found == Reach(spec, path)
  {
    found := Some(spec);
    assert path[0..] == path;
    for i := 0 to |path|
      invariant found.Some? && Reach(spec, path) == Reach(found.value, path[i..])
    {
      assert path[i..][0] == path[i] && path[i..][1..] == path[i + 1..];
      if found.value.kind == ArrayKind && Decimal(path[i]) {
        found := found.value.element;
      } else {
        found := Named(found.value.children, path[i]);
      }
      if found.None? {
        return;
      }
    }
  }

  /** What is reached by a longer path is reached from what its beginning reaches. */
  lemma {:induction false} ReachOnwards(spec: VarSpec, path: seq<string>, more: seq<string>)
    ensures Reach(spec, path + more) == if Reach(spec, path).Some? then Reach(Reach(spec, path).value, more) else None
    decreases |path|
  {
    if path == [] {
      assert path + more == more;
    } else {
      assert (path + more)[0] == path[0] && (path + more)[1..] == path[1..] + more;
      if StepDown(spec, path[0]).Some? {
        ReachOnwards(StepDown(spec, path[0]).value, path[1..], more);
      }
    }
  }

  /** Without array indices it is the descent by names. */
  lemma {:induction false} PlainReach(spec: VarSpec, path: seq<string>)
    requires path != [] && PlainPath(spec, path)
    ensures Reach(spec, path) == Descend(spec.children, path)
    decreases |path|
  {
    var c := Named(spec.children, path[0]);
    if c.Some? && |path| > 1 {
      assert PlainPath(c.value, path[1..]);
      PlainReach(c.value, path[1..]);
      if c.value.kind != StructureKind {
        assert Named(c.value.children, path[1..][0]).None?;
      }
    }
  }

  // ---------------------------------------------------------------- dictionaries

  /** `d[key] = value`: in place, or added at the end. */
  function Put<T>(ms: Members<T>, key: string, value: T): (r: Members<T>)
    ensures forall k :: r.Find(k) == if k == key then Some(value) else ms.Find(k)
    ensures r.Entry?
  {
    match ms
    case NoMembers => Entry(key, value, NoMembers)
    case Entry(n, v, rest) => if n == key then Entry(n, value, rest) else Entry(n, v, Put(rest, key, value))
  }

  predicate DistinctKeys<T>(ms: Members<T>) {
    ms.Entry? ==> ms.rest.Find(ms.name).None? && DistinctKeys(ms.rest)
  }

  lemma {:induction false} PutDistinct<T>(ms: Members<T>, key: string, value: T)
    requires DistinctKeys(ms)
    ensures DistinctKeys(Put(ms, key, value))
  {
    if ms.Entry? && ms.name != key {
      PutDistinct(ms.rest, key, value);
    }
  }

  // ---------------------------------------------------------------- the merged tree

  /** A DO, SDO, DA or BDA: its type under each FC, and its components under any of them. */
  datatype DataNode = DataNode(name: string, specs: Members<VarSpec>, children: Members<DataNode>)

  function NewNode(name: string): DataNode {
    DataNode(name, NoMembers, NoMembers)
  }

  function NodeOrNew(ds: Members<DataNode>, name: string): DataNode {
    ds.Find(name).GetOr(NewNode(name))
  }

  /** `DataNode.merge`. */
  function Merged(node: DataNode, fc: string, spec: VarSpec): DataNode
    decreases spec, 0
  {
    DataNode(node.name, Put(node.specs, fc, spec),
             if spec.kind == StructureKind then MergedAll(node.children, fc, spec.children) else node.children)
  }

  function MergedAll(ds: Members<DataNode>, fc: string, cs: seq<VarSpec>): Members<DataNode>
    decreases cs, 1
  {
    if cs == [] then ds
    else
      match cs[0].name
      case None => MergedAll(ds, fc, cs[1..])
      case Some(n) => MergedAll(Put(ds, n, Merged(NodeOrNew(ds, n), fc, cs[0])), fc, cs[1..])
  }

  /** The merge as it runs, component by component. */
  method Merge(node: DataNode, fc: string, spec: VarSpec) returns (r: DataNode)
    ensures r == Merged(node, fc, spec)
    decreases spec, 0
  {
    var children := node.children;
    if spec.kind == StructureKind {
      children := MergeInto(children, fc, spec.children);
    }
    r := DataNode(node.name, Put(node.specs, fc, spec), children);
  }

  method MergeInto(ds: Members<DataNode>, fc: string, cs: seq<VarSpec>) returns (r: Members<DataNode>)
    ensures r == MergedAll(ds, fc, cs)
    decreases cs, 1
  {
    r := ds;
    assert cs[0..] == cs;
    for i := 0 to |cs|
      invariant MergedAll(ds, fc, cs) == MergedAll(r, fc, cs[i..])
    {
      assert cs[i..][0] == cs[i] && cs[i..][1..] == cs[i + 1..];
      match cs[i].name {
        case None =>
        case Some(n) =>
          var node := Merge(NodeOrNew(r, n), fc, cs[i]);
          r := Put(r, n, node);
      }
    }
    assert cs[|cs|..] == [];
  }

  function Lookup(ds: Members<DataNode>, path: seq<string>): Option<DataNode>
    requires path != []
    decreases |path|
  {
    var node := ds.Find(path[0]);
    if node.None? || |path| == 1 then node else Lookup(node.value.children, path[1..])
  }

  /** The type at (path, FC) of the merged tree. */
  function SpecAt(ds: Members<DataNode>, path: seq<string>, fc: string): Option<VarSpec>
    requires path != []
  {
    match Lookup(ds, path)
    case None => None
    case Some(node) => node.specs.Find(fc)
  }

  /** Sibling components have different names, all the way down. */
  predicate UniqueNames(cs: seq<VarSpec>) {
    && (forall i, j :: 0 <= i < j < |cs| && cs[i].name.Some? ==> cs[i].name != cs[j].name)
    && forall c :: c in cs ==> UniqueNames(c.children)
  }

  lemma {:induction false} NotNamed(cs: seq<VarSpec>, name: string)
    requires forall c :: c in cs ==> c.name != Some(name)
    ensures Named(cs, name).None?
  {
    if cs != [] {
      assert cs[0] in cs && forall c :: c in cs[1..] ==> c in cs;
      NotNamed(cs[1..], name);
    }
  }

  lemma UniqueTail(cs: seq<VarSpec>)
    requires UniqueNames(cs) && cs != []
    ensures UniqueNames(cs[1..]) && UniqueNames(cs[0].children)
    ensures cs[0].name.Some? ==> Named(cs[1..], cs[0].name.value).None?
  {
    assert cs[0] in cs && forall c :: c in cs[1..] ==> c in cs;
    if cs[0].name.Some? {
      forall c | c in cs[1..]
        ensures c.name != cs[0].name
      {
        var j :| 0 <= j < |cs[1..]| && cs[1..][j] == c;
        assert cs[j + 1] == c;
      }
      NotNamed(cs[1..], cs[0].name.value);
    }
  }

  /** Merging a branch puts its types where direct descent finds them and changes nothing else. */
  lemma {:induction false} MergedAt(ds: Members<DataNode>, fc: string, cs: seq<VarSpec>, path: seq<string>, f: string)
    requires UniqueNames(cs) && path != []
    ensures SpecAt(MergedAll(ds, fc, cs), path, f) ==
              if f == fc && Descend(cs, path).Some? then Descend(cs, path) else SpecAt(ds, path, f)
    decreases cs, |path|
  {
    if cs != [] {
      var c := cs[0];
      UniqueTail(cs);
      match c.name
      case None =>
        MergedAt(ds, fc, cs[1..], path, f);
      case Some(n) =>
        var known := NodeOrNew(ds, n);
        var ds' := Put(ds, n, Merged(known, fc, c));
        MergedAt(ds', fc, cs[1..], path, f);
        if path[0] == n && |path| > 1 {
          NewHasNothing(n, path[1..], f);
          if c.kind == StructureKind {
            assert c in cs;
            MergedAt(known.children, fc, c.children, path[1..], f);
          }
        }
    }
  }

  lemma NewHasNothing(name: string, path: seq<string>, f: string)
    requires path != []
    ensures SpecAt(NewNode(name).children, path, f).None? && NewNode(name).specs.Find(f).None?
  {
  }

  // ---------------------------------------------------------------- a logical node

  const CONTROL_BLOCK_FCS: set<string> := {"RP", "BR", "GO", "MS", "US", "LG"}

  function FcOf(branch: VarSpec): string {
    branch.name.GetOr("")
  }

  /** The setting group control block is the one component of SP that is no data. */
  predicate IsSgcb(fc: string, c: VarSpec) {
    fc == "SP" && c.name == Some("SGCB")
  }

  function WithoutSgcb(fc: string, cs: seq<VarSpec>): (r: seq<VarSpec>)
    ensures forall c :: c in r <==> c in cs && !IsSgcb(fc, c)
  {
    if cs == [] then []
    else (if IsSgcb(fc, cs[0]) then [] else [cs[0]]) + WithoutSgcb(fc, cs[1..])
  }

  /** The data of a branch: branches of control blocks have none. */
  function DataOf(branch: VarSpec): seq<VarSpec> {
    if FcOf(branch) in CONTROL_BLOCK_FCS then [] else WithoutSgcb(FcOf(branch), branch.children)
  }

  function BuiltData(ds: Members<DataNode>, branches: seq<VarSpec>): Members<DataNode>
    decreases branches
  {
    if branches == [] then ds else BuiltData(MergedAll(ds, FcOf(branches[0]), DataOf(branches[0])), branches[1..])
  }

  datatype ControlBlock = ControlBlock(name: string, fc: string, spec: VarSpec)

  /** The control block that a component of a branch is. */
  function BlockOf(fc: string, c: VarSpec): Option<ControlBlock> {
    if fc in CONTROL_BLOCK_FCS then
      if c.name.GetOr("") != "" then Some(ControlBlock(c.name.value, fc, c)) else None
    else if IsSgcb(fc, c) then
      Some(ControlBlock("SGCB", "SP", c))
    else
      None
  }

  /** The last control block of that name among these components. */
  function LastBlock(fc: string, cs: seq<VarSpec>, name: string): Option<ControlBlock> {
    if cs == [] then None
    else
      var n := |cs| - 1;
      var b := BlockOf(fc, cs[n]);
      if b.Some? && b.value.name == name then b else LastBlock(fc, cs[..n], name)
  }

  function LastBlockOf(branches: seq<VarSpec>, name: string): Option<ControlBlock> {
    if branches == [] then None
    else
      var n := |branches| - 1;
      var b := LastBlock(FcOf(branches[n]), branches[n].children, name);
      if b.Some? then b else LastBlockOf(branches[..n], name)
  }

  /** The control blocks of the branches `before` and of the first components of one more branch. */
  ghost predicate BlocksSoFar(blocks: Members<ControlBlock>, fc: string, cs: seq<VarSpec>, before: seq<VarSpec>) {
    forall name :: blocks.Find(name) == LastBlock(fc, cs, name).OrElse(LastBlockOf(before, name))
  }

  lemma NoBlocksYet()
    ensures BlocksSoFar(NoMembers, "", [], [][..0])
  {
  }

  lemma NextBranch(blocks: Members<ControlBlock>, branches: seq<VarSpec>, i: nat)
    requires i < |branches| && BlocksSoFar(blocks, "", [], branches[..i])
    ensures BlocksSoFar(blocks, FcOf(branches[i]), branches[i].children[..0], branches[..i])
  {
  }

  lemma BlockAdded(blocks: Members<ControlBlock>, fc: string, cs: seq<VarSpec>, j: nat, before: seq<VarSpec>)
    requires j < |cs| && BlocksSoFar(blocks, fc, cs[..j], before)
    ensures var b := BlockOf(fc, cs[j]);
            BlocksSoFar(if b.Some? then Put(blocks, b.value.name, b.value) else blocks, fc, cs[..j + 1], before)
    ensures BlockOf(fc, cs[j]) ==
            if fc in CONTROL_BLOCK_FCS then (if cs[j].name.GetOr("") != "" then Some(ControlBlock(cs[j].name.value, fc, cs[j])) else None)
            else if IsSgcb(fc, cs[j]) then Some(ControlBlock("SGCB", "SP", cs[j]))
            else None
  {
    assert cs[..j + 1][..j] == cs[..j];
  }

  lemma BranchDone(blocks: Members<ControlBlock>, branches: seq<VarSpec>, i: nat)
    requires i < |branches| && BlocksSoFar(blocks, FcOf(branches[i]), branches[i].children, branches[..i])
    ensures BlocksSoFar(blocks, "", [], branches[..i + 1])
  {
    assert branches[..i + 1][..i] == branches[..i];
  }

  lemma AllBlocks(blocks: Members<ControlBlock>, branches: seq<VarSpec>)
    requires BlocksSoFar(blocks, "", [], branches)
    ensures forall name :: blocks.Find(name) == LastBlockOf(branches, name)
  {
  }

  lemma NothingMerged(data: Members<DataNode>, fc: string)
    ensures MergedAll(data, fc, []) == data && MergedAll(data, fc, WithoutSgcb(fc, [])) == data
  {
  }

  /** `build_ln`: the data of a logical node, and its control blocks by name; of several of one name the
      last is kept. */
  method BuildLn(spec: Option<VarSpec>) returns (data: Members<DataNode>, blocks: Members<ControlBlock>)
    ensures data == if spec.None? then NoMembers else BuiltData(NoMembers, spec.value.children)
    ensures forall name :: blocks.Find(name) == if spec.None? then None else LastBlockOf(spec.value.children, name)
  {
    hide BlocksSoFar, BlockOf, Put, MergedAll, Merged;
    data, blocks := NoMembers, NoMembers;
    if spec.None? {
      return;
    }
    var branches := spec.value.children;
    assert branches[0..] == branches;
    NoBlocksYet();
    for i := 0 to |branches|
      invariant BuiltData(data, branches[i..]) == BuiltData(NoMembers, branches)
      invariant BlocksSoFar(blocks, "", [], branches[..i])
    {
      NextBranch(blocks, branches, i);
      assert branches[i..][0] == branches[i] && branches[i..][1..] == branches[i + 1..];
      if FcOf(branches[i]) in CONTROL_BLOCK_FCS {
        blocks := AddBlocks(blocks, branches[i], branches[..i]);
        NothingMerged(data, FcOf(branches[i]));
      } else {
        data, blocks := AddData(data, blocks, branches[i], branches[..i]);
      }
      BranchDone(blocks, branches, i);
    }
    assert branches[|branches|..] == [] && branches[..|branches|] == branches;
    AllBlocks(blocks, branches);
  }

  /** A branch of control blocks. */
  method AddBlocks(before: Members<ControlBlock>, branch: VarSpec, ghost earlier: seq<VarSpec>) returns (blocks: Members<ControlBlock>)
    requires FcOf(branch) in CONTROL_BLOCK_FCS && BlocksSoFar(before, FcOf(branch), branch.children[..0], earlier)
    ensures BlocksSoFar(blocks, FcOf(branch), branch.children, earlier)
  {
    hide BlocksSoFar, BlockOf, Put;
    var fc, cs := FcOf(branch), branch.children;
    blocks := before;
    for j := 0 to |cs|
      invariant BlocksSoFar(blocks, fc, cs[..j], earlier)
    {
      BlockAdded(blocks, fc, cs, j, earlier);
      if cs[j].name.GetOr("") != "" {
        blocks := Put(blocks, cs[j].name.value, ControlBlock(cs[j].name.value, fc, cs[j]));
      }
    }
    assert cs[..|cs|] == cs;
  }

  /** A branch of data, which under SP may hold a control block as well. */
  method AddData(before: Members<DataNode>, blocksBefore: Members<ControlBlock>, branch: VarSpec, ghost earlier: seq<VarSpec>)
    returns (data: Members<DataNode>, blocks: Members<ControlBlock>)
    requires FcOf(branch) !in CONTROL_BLOCK_FCS && BlocksSoFar(blocksBefore, FcOf(branch), branch.children[..0], earlier)
    ensures data == MergedAll(before, FcOf(branch), DataOf(branch))
    ensures BlocksSoFar(blocks, FcOf(branch), branch.children, earlier)
  {
    hide BlocksSoFar, BlockOf, Put, MergedAll, Merged, WithoutSgcb;
    var fc, cs := FcOf(branch), branch.children;
    data, blocks := before, blocksBefore;
    assert cs[0..] == cs;
    for j := 0 to |cs|
      invariant MergedAll(data, fc, WithoutSgcb(fc, cs[j..])) == MergedAll(before, fc, WithoutSgcb(fc, cs))
      invariant BlocksSoFar(blocks, fc, cs[..j], earlier)
    {
      var c := cs[j];
      BlockAdded(blocks, fc, cs, j, earlier);
      assert cs[j..] == [c] + cs[j + 1..];
      DropSgcb(data, fc, c, cs[j + 1..]);
      if c.name.None? {
        continue;
      }
      if IsSgcb(fc, c) {
        blocks := Put(blocks, "SGCB", ControlBlock("SGCB", "SP", c));
        continue;
      }
      var node := Merge(NodeOrNew(data, c.name.value), fc, c);
      data := Put(data, c.name.value, node);
    }
    assert cs[|cs|..] == [] && cs[..|cs|] == cs;
    NothingMerged(data, fc);
  }

  lemma DropSgcb(ds: Members<DataNode>, fc: string, c: VarSpec, rest: seq<VarSpec>)
    ensures MergedAll(ds, fc, WithoutSgcb(fc, [c] + rest)) ==
              if IsSgcb(fc, c) || c.name.None? then MergedAll(ds, fc, WithoutSgcb(fc, rest))
              else MergedAll(Put(ds, c.name.value, Merged(NodeOrNew(ds, c.name.value), fc, c)), fc, WithoutSgcb(fc, rest))
  {
    var all := [c] + rest;
    assert all[0] == c && all[1..] == rest;
    var later := WithoutSgcb(fc, rest);
    if IsSgcb(fc, c) {
      assert WithoutSgcb(fc, all) == [] + later == later;
    } else {
      var kept := [c] + later;
      assert WithoutSgcb(fc, all) == kept && kept[0] == c && kept[1..] == later;
    }
  }

  function Branch(branches: seq<VarSpec>, fc: string): Option<VarSpec> {
    if branches == [] then None else if FcOf(branches[0]) == fc then Some(branches[0]) else Branch(branches[1..], fc)
  }

  /** The type the device declares at a path under an FC, by direct descent: the FC first, then the path. */
  function DeclaredAt(branches: seq<VarSpec>, fc: string, path: seq<string>): Option<VarSpec>
    requires path != []
  {
    match Branch(branches, fc)
    case None => None
    case Some(b) => Descend(DataOf(b), path)
  }

  predicate UniqueLn(branches: seq<VarSpec>) {
    && (forall i, j :: 0 <= i < j < |branches| ==> FcOf(branches[i]) != FcOf(branches[j]))
    && forall b :: b in branches ==> UniqueNames(b.children)
  }

  lemma ConsUnique(c: VarSpec, rest: seq<VarSpec>)
    requires UniqueNames(rest) && UniqueNames(c.children)
    requires c.name.Some? ==> forall x :: x in rest ==> x.name != c.name
    ensures UniqueNames([c] + rest)
  {
  }

  lemma NameIsNotRepeated(cs: seq<VarSpec>)
    requires UniqueNames(cs) && cs != [] && cs[0].name.Some?
    ensures forall x :: x in cs[1..] ==> x.name != cs[0].name
  {
  }

  lemma {:induction false} DataUnique(fc: string, cs: seq<VarSpec>)
    requires UniqueNames(cs)
    ensures UniqueNames(WithoutSgcb(fc, cs))
  {
    if cs != [] {
      UniqueTail(cs);
      DataUnique(fc, cs[1..]);
      var rest := WithoutSgcb(fc, cs[1..]);
      if cs[0].name.Some? {
        NameIsNotRepeated(cs);
      }
      hide UniqueNames;
      if IsSgcb(fc, cs[0]) {
        assert [] + rest == rest;
      } else {
        ConsUnique(cs[0], rest);
      }
    }
  }

  lemma {:induction false} NoBranch(branches: seq<VarSpec>, fc: string)
    requires forall b :: b in branches ==> FcOf(b) != fc
    ensures Branch(branches, fc).None?
  {
    if branches != [] {
      assert branches[0] in branches && forall b :: b in branches[1..] ==> b in branches;
      NoBranch(branches[1..], fc);
    }
  }

  lemma {:induction false} BuiltAt(ds: Members<DataNode>, branches: seq<VarSpec>, path: seq<string>, fc: string)
    requires UniqueLn(branches) && path != []
    ensures SpecAt(BuiltData(ds, branches), path, fc) ==
              if DeclaredAt(branches, fc, path).Some? then DeclaredAt(branches, fc, path) else SpecAt(ds, path, fc)
    decreases branches
  {
    if branches != [] {
      hide SpecAt, Descend, DataOf;
      var b := branches[0];
      assert b in branches && forall x :: x in branches[1..] ==> x in branches;
      BuiltAt(MergedAll(ds, FcOf(b), DataOf(b)), branches[1..], path, fc);
      DataOfUnique(b);
      MergedAt(ds, FcOf(b), DataOf(b), path, fc);
      if fc == FcOf(b) {
        forall x | x in branches[1..]
          ensures FcOf(x) != fc
        {
          var j :| 0 <= j < |branches[1..]| && branches[1..][j] == x;
          assert branches[j + 1] == x;
        }
        NoBranch(branches[1..], fc);
      }
    }
  }

  lemma DataOfUnique(b: VarSpec)
    requires UniqueNames(b.children)
    ensures UniqueNames(DataOf(b))
  {
    DataUnique(FcOf(b), b.children);
  }

  /** Looking up (path, FC) in the merged tree is descending FC then path in what the device declares,
      and fails exactly when that descent fails. */
  lemma LookupIsDescent(branches: seq<VarSpec>, path: seq<string>, fc: string)
    requires UniqueLn(branches) && path != []
    ensures SpecAt(BuiltData(NoMembers, branches), path, fc) == DeclaredAt(branches, fc, path)
  {
    BuiltAt(NoMembers, branches, path, fc);
  }

  // ---------------------------------------------------------------- references

  datatype RefError = NotInModel | NotData | AmbiguousFc(fcs: seq<string>)

  datatype LnInfo = LnInfo(data: Members<DataNode>, blocks: Members<ControlBlock>)

  datatype LdInfo = LdInfo(lns: Members<LnInfo>)

  datatype Resolved = TheLd(ld: LdInfo) | TheLn(ln: LnInfo) | TheData(node: DataNode)

  /** The node that a reference names, whatever its FC. */
  function Located(lds: Members<LdInfo>, ref: Refs.ObjectRef): Option<Resolved> {
    match lds.Find(ref.ld)
    case None => None
    case Some(ld) =>
      if ref.ln.None? then Some(TheLd(ld))
      else
        match ld.lns.Find(ref.ln.value)
        case None => None
        case Some(ln) =>
          if ref.path == [] then Some(TheLn(ln))
          else
            match Lookup(ln.data, ref.path)
            case None => None
            case Some(node) => Some(TheData(node))
  }

  /** The type at a reference under an FC. */
  function TypeAt(lds: Members<LdInfo>, ref: Refs.ObjectRef, fc: string): Option<VarSpec> {
    match Located(lds, ref)
    case Some(TheData(node)) => node.specs.Find(fc)
    case _ => None
  }

  function KeysIn<T>(ms: Members<T>): seq<string> {
    match ms
    case NoMembers => []
    case Entry(n, _, rest) => [n] + KeysIn(rest)
  }

  lemma {:induction false} KeysAreFound<T>(ms: Members<T>, key: string)
    ensures key in KeysIn(ms) <==> ms.Find(key).Some?
  {
    if ms.Entry? {
      KeysAreFound(ms.rest, key);
    }
  }

  /** `resolve`: find the logical device and node, walk the path, then check the FC where one is given. */
  method Resolve(lds: Members<LdInfo>, ref: Refs.ObjectRef) returns (r: Result<Resolved, RefError>)
    ensures var at := Located(lds, ref);
            if at.Some? && (at.value.TheData? && ref.fc.Some? ==> at.value.node.specs.Find(ref.fc.value).Some?) then r == Ok(at.value)
            else r == Err(NotInModel)
  {
    var ld := lds.Find(ref.ld);
    if ld.None? {
      return Err(NotInModel);
    }
    if ref.ln.None? {
      return Ok(TheLd(ld.value));
    }
    var ln := ld.value.lns.Find(ref.ln.value);
    if ln.None? {
      return Err(NotInModel);
    }
    if ref.path == [] {
      return Ok(TheLn(ln.value));
    }
    var path := ref.path;
    var children := ln.value.data;
    var node := NewNode("");
    assert path[0..] == path;
    for i := 0 to |path|
      invariant i == 0 ==> children == ln.value.data
      invariant Lookup(ln.value.data, path) == if i == |path| then Some(node) else Lookup(children, path[i..])
    {
      assert path[i..][0] == path[i] && path[i..][1..] == path[i + 1..];
      var next := children.Find(path[i]);
      if next.None? {
        return Err(NotInModel);
      }
      node := next.value;
      children := node.children;
    }
    if ref.fc.Some? && node.specs.Find(ref.fc.value).None? {
      return Err(NotInModel);
    }
    r := Ok(TheData(node));
  }

  /** `resolve_fc`: the FC and type of a reference; an FC that is not given must be the only one, or the
      first preferred one. */
  method ResolveFc(lds: Members<LdInfo>, ref: Refs.ObjectRef, prefer: seq<string>) returns (r: Result<(string, VarSpec), RefError>)
    ensures r.Ok? ==> TypeAt(lds, ref, r.value.0) == Some(r.value.1) && (ref.fc.Some? ==> r.value.0 == ref.fc.value)
    ensures ref.fc.Some? ==> (r.Ok? <==> TypeAt(lds, ref, ref.fc.value).Some?)
    ensures r.Ok? && ref.fc.None? ==>
              || KeysIn(Located(lds, ref).value.node.specs) == [r.value.0]
              || (exists i :: 0 <= i < |prefer| && r.value.0 == prefer[i]
                              && forall k :: 0 <= k < i ==> TypeAt(lds, ref, prefer[k]).None?)
    ensures r.Err? && r.error.AmbiguousFc? ==>
              && ref.fc.None? && Located(lds, ref).Some? && Located(lds, ref).value.TheData?
              && r.error.fcs == KeysIn(Located(lds, ref).value.node.specs)
              && |r.error.fcs| != 1 && forall i :: 0 <= i < |prefer| ==> TypeAt(lds, ref, prefer[i]).None?
    ensures r.Err? && r.error.NotInModel? ==> Located(lds, ref).None? || (ref.fc.Some? && TypeAt(lds, ref, ref.fc.value).None?)
    ensures r == Err(NotData) <==> Located(lds, ref).Some? && !Located(lds, ref).value.TheData?
  {
    var at :- Resolve(lds, ref);
    if !at.TheData? {
      return Err(NotData);
    }
    var node := at.node;
    if ref.fc.Some? {
      return Ok((ref.fc.value, node.specs.Find(ref.fc.value).value));
    }
    var fcs := KeysIn(node.specs);
    if |fcs| == 1 {
      KeysAreFound(node.specs, fcs[0]);
      return Ok((fcs[0], node.specs.Find(fcs[0]).value));
    }
    for i := 0 to |prefer|
      invariant forall k :: 0 <= k < i ==> TypeAt(lds, ref, prefer[k]).None?
    {
      KeysAreFound(node.specs, prefer[i]);
      if prefer[i] in fcs {
        return Ok((prefer[i], node.specs.Find(prefer[i]).value));
      }
    }
    r := Err(AmbiguousFc(fcs));
  }

  /** The data that a browse makes of the types a device declares, by logical device and node. */
  ghost predicate BrowsedFrom(lds: Members<LdInfo>, declared: map<(string, string), seq<VarSpec>>) {
    forall ld, ln :: (ld, ln) in declared ==>
      && lds.Find(ld).Some? && lds.Find(ld).value.lns.Find(ln).Some?
      && lds.Find(ld).value.lns.Find(ln).value.data == BuiltData(NoMembers, declared[(ld, ln)])
  }

  /** From a reference to the device's own declaration: the type found at a reference under an FC is the one
      the device declares there, and there is none exactly when it declares none. */
  lemma TypeIsDeclared(lds: Members<LdInfo>, declared: map<(string, string), seq<VarSpec>>, ref: Refs.ObjectRef, fc: string)
    requires BrowsedFrom(lds, declared)
    requires ref.ln.Some? && ref.path != [] && (ref.ld, ref.ln.value) in declared && UniqueLn(declared[(ref.ld, ref.ln.value)])
    ensures TypeAt(lds, ref, fc) == DeclaredAt(declared[(ref.ld, ref.ln.value)], fc, ref.path)
  {
    hide BuiltData, DeclaredAt, UniqueLn;
    LookupIsDescent(declared[(ref.ld, ref.ln.value)], ref.path, fc);
  }

  // ---------------------------------------------------------------- leaves

  datatype Leaf = Leaf(path: seq<string>, fc: string, spec: VarSpec)

  function SpecLeaves(specs: Members<VarSpec>, at: seq<string>): seq<Leaf> {
    match specs
    case NoMembers => []
    case Entry(fc, spec, rest) => [Leaf(at, fc, spec)] + SpecLeaves(rest, at)
  }

  /** `_leaves` of every node, in model order. */
  function Leaves(ds: Members<DataNode>, at: seq<string>): seq<Leaf> {
    match ds
    case NoMembers => []
    case Entry(n, node, rest) =>
      (if node.children.NoMembers? then SpecLeaves(node.specs, at + [n]) else Leaves(node.children, at + [n])) + Leaves(rest, at)
  }

  /** Keys are distinct everywhere, and every node has a type under some FC. */
  predicate WellBuilt(ds: Members<DataNode>) {
    match ds
    case NoMembers => true
    case Entry(n, node, rest) =>
      && rest.Find(n).None? && WellBuilt(rest)
      && DistinctKeys(node.specs) && node.specs.Entry? && WellBuilt(node.children)
  }

  lemma {:induction false} FoundWellBuilt(ds: Members<DataNode>, name: string)
    requires WellBuilt(ds) && ds.Find(name).Some?
    ensures var node := ds.Find(name).value; DistinctKeys(node.specs) && node.specs.Entry? && WellBuilt(node.children)
  {
    if ds.name != name {
      FoundWellBuilt(ds.rest, name);
    }
  }

  lemma {:induction false} PutWellBuilt(ds: Members<DataNode>, name: string, node: DataNode)
    requires WellBuilt(ds) && DistinctKeys(node.specs) && node.specs.Entry? && WellBuilt(node.children)
    ensures WellBuilt(Put(ds, name, node))
  {
    if ds.Entry? && ds.name != name {
      PutWellBuilt(ds.rest, name, node);
    }
  }

  lemma {:induction false} MergedAllWellBuilt(ds: Members<DataNode>, fc: string, cs: seq<VarSpec>)
    requires WellBuilt(ds)
    ensures WellBuilt(MergedAll(ds, fc, cs))
    decreases cs
  {
    if cs != [] {
      var c := cs[0];
      match c.name
      case None =>
        MergedAllWellBuilt(ds, fc, cs[1..]);
      case Some(n) =>
        var known := NodeOrNew(ds, n);
        if ds.Find(n).Some? {
          FoundWellBuilt(ds, n);
        }
        PutDistinct(known.specs, fc, c);
        if c.kind == StructureKind {
          MergedAllWellBuilt(known.children, fc, c.children);
        }
        PutWellBuilt(ds, n, Merged(known, fc, c));
        MergedAllWellBuilt(Put(ds, n, Merged(known, fc, c)), fc, cs[1..]);
    }
  }

  lemma {:induction false} BuiltWellBuilt(ds: Members<DataNode>, branches: seq<VarSpec>)
    requires WellBuilt(ds)
    ensures WellBuilt(BuiltData(ds, branches))
    decreases branches
  {
    if branches != [] {
      MergedAllWellBuilt(ds, FcOf(branches[0]), DataOf(branches[0]));
      BuiltWellBuilt(MergedAll(ds, FcOf(branches[0]), DataOf(branches[0])), branches[1..]);
    }
  }

  lemma {:induction false} SpecLeafMeans(specs: Members<VarSpec>, at: seq<string>, l: Leaf)
    requires DistinctKeys(specs)
    ensures l in SpecLeaves(specs, at) <==> l.path == at && specs.Find(l.fc) == Some(l.spec)
  {
    if specs.Entry? {
      SpecLeafMeans(specs.rest, at, l);
    }
  }

  /** A leaf is a (path, FC) of a node without components. */
  predicate IsLeaf(ds: Members<DataNode>, path: seq<string>, fc: string, spec: VarSpec) {
    && path != [] && Lookup(ds, path).Some?
    && Lookup(ds, path).value.children.NoMembers? && Lookup(ds, path).value.specs.Find(fc) == Some(spec)
  }

  lemma {:induction false} LeafMeans(ds: Members<DataNode>, at: seq<string>, l: Leaf)
    requires WellBuilt(ds)
    ensures l in Leaves(ds, at) <==> at <= l.path && IsLeaf(ds, l.path[|at|..], l.fc, l.spec)
    decreases ds
  {
    if ds.Entry? {
      var n, node, here := ds.name, ds.value, at + [ds.name];
      LeafMeans(ds.rest, at, l);
      PathExtends(at, n, l.path);
      if at <= l.path && |l.path| > |at| {
        LookupEntry(ds, l.path[|at|..]);
      }
      if here <= l.path {
        assert l.path[|here|..] == l.path[|at|..][1..];
      }
      if node.children.NoMembers? {
        SpecLeafMeans(node.specs, here, l);
      } else {
        LeafMeans(node.children, here, l);
      }
    }
  }

  lemma LookupEntry(ds: Members<DataNode>, path: seq<string>)
    requires ds.Entry? && path != []
    ensures Lookup(ds, path) ==
              if path[0] != ds.name then Lookup(ds.rest, path)
              else if |path| == 1 then Some(ds.value)
              else Lookup(ds.value.children, path[1..])
    ensures ds.rest.Find(ds.name).None? && path[0] == ds.name ==> Lookup(ds.rest, path).None?
  {
  }

  lemma PathExtends(at: seq<string>, name: string, p: seq<string>)
    ensures at + [name] <= p <==> at <= p && |p| > |at| && p[|at|] == name
    ensures at <= p && |p| > |at| ==> p[|at|..][0] == p[|at|] && p[|at|..][1..] == p[|at| + 1..]
    ensures at + [name] <= p && |p| == |at| + 1 ==> p == at + [name]
  {
  }

  /** No two leaves are the same (path, FC). */
  predicate NoRepeats(ls: seq<Leaf>) {
    forall i, j :: 0 <= i < j < |ls| ==> ls[i].path != ls[j].path || ls[i].fc != ls[j].fc
  }

  lemma ConcatNoRepeats(a: seq<Leaf>, b: seq<Leaf>)
    requires NoRepeats(a) && NoRepeats(b)
    requires forall x, y :: x in a && y in b ==> x.path != y.path || x.fc != y.fc
    ensures NoRepeats(a + b)
  {
  }

  lemma {:induction false} SpecLeavesOnce(specs: Members<VarSpec>, at: seq<string>)
    requires DistinctKeys(specs)
    ensures NoRepeats(SpecLeaves(specs, at))
  {
    if specs.Entry? {
      SpecLeavesOnce(specs.rest, at);
      var first := Leaf(at, specs.name, specs.value);
      forall y | y in SpecLeaves(specs.rest, at)
        ensures y.fc != first.fc
      {
        SpecLeafMeans(specs.rest, at, y);
      }
      ConcatNoRepeats([first], SpecLeaves(specs.rest, at));
    }
  }

  /** Every leaf is listed once. */
  lemma {:induction false} LeavesOnce(ds: Members<DataNode>, at: seq<string>)
    requires WellBuilt(ds)
    ensures NoRepeats(Leaves(ds, at))
    decreases ds
  {
    if ds.Entry? {
      var node, here := ds.value, at + [ds.name];
      var own := if node.children.NoMembers? then SpecLeaves(node.specs, here) else Leaves(node.children, here);
      LeavesOnce(ds.rest, at);
      if node.children.NoMembers? {
        SpecLeavesOnce(node.specs, here);
      } else {
        LeavesOnce(node.children, here);
      }
      forall x, y | x in own && y in Leaves(ds.rest, at)
        ensures x.path != y.path
      {
        LeafMeans(ds.rest, at, y);
        if node.children.NoMembers? {
          SpecLeafMeans(node.specs, here, x);
        } else {
          LeafMeans(node.children, here, x);
        }
        PathExtends(at, ds.name, x.path);
        PathExtends(at, ds.name, y.path);
      }
      ConcatNoRepeats(own, Leaves(ds.rest, at));
    }
  }

  /** Something is declared below a path exactly when the node there has components. */
  lemma {:induction false} LookupBelow(ds: Members<DataNode>, path: seq<string>, name: string)
    requires path != []
    ensures Lookup(ds, path + [name]) == if Lookup(ds, path).None? then None else Lookup(ds, path).value.children.Find(name)
    decreases |path|
  {
    var p := path + [name];
    assert p[0] == path[0] && p[1..] == path[1..] + [name];
    var node := ds.Find(path[0]);
    if |path| == 1 {
      assert path[1..] + [name] == [name];
    } else if node.Some? {
      LookupBelow(node.value.children, path[1..], name);
    }
  }

  lemma {:induction false} LookupWellBuilt(ds: Members<DataNode>, path: seq<string>)
    requires WellBuilt(ds) && path != [] && Lookup(ds, path).Some?
    ensures Lookup(ds, path).value.specs.Entry? && WellBuilt(Lookup(ds, path).value.children)
    decreases |path|
  {
    FoundWellBuilt(ds, path[0]);
    if |path| > 1 {
      LookupWellBuilt(ds.Find(path[0]).value.children, path[1..]);
    }
  }

  /** A type with named components. */
  predicate HasComponents(s: VarSpec) {
    s.kind == StructureKind && exists c :: c in s.children && c.name.Some?
  }

  lemma {:induction false} ComponentNamed(cs: seq<VarSpec>, name: string)
    ensures Named(cs, name).Some? <==> exists c :: c in cs && c.name == Some(name)
  {
    if cs != [] {
      assert cs == [cs[0]] + cs[1..];
      ComponentNamed(cs[1..], name);
    }
  }

  lemma {:induction false} DescendBelow(cs: seq<VarSpec>, path: seq<string>, name: string)
    requires path != []
    ensures Descend(cs, path + [name]) ==
              if Descend(cs, path).None? || Descend(cs, path).value.kind != StructureKind then None
              else Named(Descend(cs, path).value.children, name)
    decreases |path|
  {
    var p := path + [name];
    assert p[0] == path[0] && p[1..] == path[1..] + [name];
    var c := Named(cs, path[0]);
    if |path| == 1 {
      assert path[1..] + [name] == [name];
    } else if c.Some? && c.value.kind == StructureKind {
      DescendBelow(c.value.children, path[1..], name);
    }
  }

  /** Some FC declares components of what is at `path`. */
  ghost predicate StructuredSomewhere(branches: seq<VarSpec>, path: seq<string>)
    requires path != []
  {
    exists fc :: DeclaredAt(branches, fc, path).Some? && HasComponents(DeclaredAt(branches, fc, path).value)
  }

  lemma ComponentsShow(branches: seq<VarSpec>, path: seq<string>, fc: string)
    requires path != []
    ensures (exists name :: DeclaredAt(branches, fc, path + [name]).Some?) <==>
              DeclaredAt(branches, fc, path).Some? && HasComponents(DeclaredAt(branches, fc, path).value)
  {
    var b := Branch(branches, fc);
    if b.Some? {
      var s := Descend(DataOf(b.value), path);
      forall name
        ensures DeclaredAt(branches, fc, path + [name]).Some? <==>
                  s.Some? && s.value.kind == StructureKind && exists c :: c in s.value.children && c.name == Some(name)
      {
        DescendBelow(DataOf(b.value), path, name);
        if s.Some? {
          ComponentNamed(s.value.children, name);
        }
      }
      if s.Some? && HasComponents(s.value) {
        var c :| c in s.value.children && c.name.Some?;
        assert DeclaredAt(branches, fc, path + [c.name.value]).Some?;
      }
    }
  }

  lemma ChildrenShow(branches: seq<VarSpec>, path: seq<string>)
    requires UniqueLn(branches) && path != [] && Lookup(BuiltData(NoMembers, branches), path).Some?
    ensures Lookup(BuiltData(NoMembers, branches), path).value.children.Entry? <==> StructuredSomewhere(branches, path)
  {
    var data := BuiltData(NoMembers, branches);
    var node := Lookup(data, path).value;
    BuiltWellBuilt(NoMembers, branches);
    if node.children.Entry? {
      var name := node.children.name;
      LookupBelow(data, path, name);
      LookupWellBuilt(data, path + [name]);
      var fc := Lookup(data, path + [name]).value.specs.name;
      LookupIsDescent(branches, path + [name], fc);
      ComponentsShow(branches, path, fc);
    }
    if fc :| DeclaredAt(branches, fc, path).Some? && HasComponents(DeclaredAt(branches, fc, path).value) {
      ComponentsShow(branches, path, fc);
      var name :| DeclaredAt(branches, fc, path + [name]).Some?;
      LookupIsDescent(branches, path + [name], fc);
      LookupBelow(data, path, name);
    }
  }

  /** The leaves are the declared (path, FC) with nothing below the path under any FC, each listed once. */
  lemma LeavesAreDeclared(branches: seq<VarSpec>, l: Leaf)
    requires UniqueLn(branches)
    ensures l in Leaves(BuiltData(NoMembers, branches), []) <==>
              l.path != [] && DeclaredAt(branches, l.fc, l.path) == Some(l.spec) && !StructuredSomewhere(branches, l.path)
    ensures NoRepeats(Leaves(BuiltData(NoMembers, branches), []))
  {
    hide DeclaredAt, StructuredSomewhere;
    var data := BuiltData(NoMembers, branches);
    BuiltWellBuilt(NoMembers, branches);
    LeafMeans(data, [], l);
    LeavesOnce(data, []);
    assert l.path[0..] == l.path;
    if l.path != [] {
      LookupIsDescent(branches, l.path, l.fc);
      if Lookup(data, l.path).Some? {
        ChildrenShow(branches, l.path);
      }
    }
  }

  /** No name has components under one FC and none under another. */
  ghost predicate SameShape(branches: seq<VarSpec>) {
    forall path, f, g :: path != [] && DeclaredAt(branches, f, path).Some? && DeclaredAt(branches, g, path).Some? ==>
      HasComponents(DeclaredAt(branches, f, path).value) == HasComponents(DeclaredAt(branches, g, path).value)
  }

  /** Then every declared type without components is a leaf; and only then. */
  lemma BasicTypesAreLeaves(branches: seq<VarSpec>)
    requires UniqueLn(branches)
    ensures SameShape(branches) <==>
              forall path, fc :: path != [] && DeclaredAt(branches, fc, path).Some?
                                 && !HasComponents(DeclaredAt(branches, fc, path).value) ==>
                Leaf(path, fc, DeclaredAt(branches, fc, path).value) in Leaves(BuiltData(NoMembers, branches), [])
  {
    hide BuiltData, Leaves, DeclaredAt, HasComponents;
    forall path, fc | path != [] && DeclaredAt(branches, fc, path).Some?
      ensures Leaf(path, fc, DeclaredAt(branches, fc, path).value) in Leaves(BuiltData(NoMembers, branches), []) <==>
                !StructuredSomewhere(branches, path)
    {
      LeavesAreDeclared(branches, Leaf(path, fc, DeclaredAt(branches, fc, path).value));
    }
    if !SameShape(branches) {
      var path, f, g :| path != [] && DeclaredAt(branches, f, path).Some? && DeclaredAt(branches, g, path).Some?
                        && HasComponents(DeclaredAt(branches, f, path).value) != HasComponents(DeclaredAt(branches, g, path).value);
      var basic := if HasComponents(DeclaredAt(branches, f, path).value) then g else f;
      assert StructuredSomewhere(branches, path);
      assert !HasComponents(DeclaredAt(branches, basic, path).value);
    }
  }

  // ---------------------------------------------------------------- JSON

  function OptionalMember(key: string, j: Option<Json>, rest: Members<Json>): Members<Json> {
    if j.Some? then Entry(key, j.value, rest) else rest
  }

  function MembersOf(kind: Json, name: Option<Json>, size: Option<Json>, children: Option<Json>, element: Option<Json>): Members<Json> {
    Entry("kind", kind,
          OptionalMember("name", name,
                         OptionalMember("size", size, OptionalMember("children", children, OptionalMember("element", element, NoMembers)))))
  }

  /** `VarSpec.to_json`: members that say nothing are left out. */
  function SpecToJson(s: VarSpec): Json
    decreases s, 0
  {
    var element := if s.element.Some? then Some(SpecToJson(s.element.value)) else None;
    var children := if s.children != [] then Some(JList(SpecsToJson(s.children))) else None;
    JDict(MembersOf(JStr(s.kind.Text()), if s.name.Some? then Some(JStr(s.name.value)) else None,
                    if s.size.Some? then Some(JInt(s.size.value)) else None, children, element))
  }

  function SpecsToJson(ss: seq<VarSpec>): seq<Json>
    decreases ss, 1
  {
    if ss == [] then [] else [SpecToJson(ss[0])] + SpecsToJson(ss[1..])
  }

  /** `VarSpec.from_json`; None where it raises. */
  function SpecFromJson(j: Json): Option<VarSpec>
    decreases j, 0
  {
    if !j.JDict? then None
    else
      FindSmaller(j.members, "children");
      FindSmaller(j.members, "element");
      var kind := match j.members.Find("kind") case Some(JStr(k)) => KindAmong(ALL_KINDS, k) case _ => None;
      var name := match j.members.Find("name") case Some(JStr(n)) => Some(n) case _ => None;
      var size := match j.members.Find("size") case Some(JInt(n)) => Some(n) case _ => None;
      var children := match j.members.Find("children") case Some(JList(cs)) => SpecsFromJson(cs) case None => Some([]) case _ => None;
      var element :=
        match j.members.Find("element")
        case Some(e) => (match SpecFromJson(e) case Some(s) => Some(Some(s)) case None => None)
        case None => Some(None);
      if kind.Some? && children.Some? && element.Some? then
        Some(VarSpec(kind.value, name, size, children.value, element.value))
      else
        None
  }

  function SpecsFromJson(js: seq<Json>): Option<seq<VarSpec>>
    decreases js, 1
  {
    if js == [] then Some([])
    else
      match (SpecFromJson(js[0]), SpecsFromJson(js[1..]))
      case (Some(s), Some(ss)) => Some([s] + ss)
      case _ => None
  }

  lemma {:induction false} FindSmaller(ms: Members<Json>, key: string)
    ensures ms.Find(key).Some? ==> (ms decreases to ms.Find(key).value)
  {
    if ms.Entry? && ms.name != key {
      FindSmaller(ms.rest, key);
    }
  }

  lemma KindListed(k: ValueKind)
    ensures k in ALL_KINDS
  {
  }

  lemma MemberNamesDiffer()
    ensures "kind" != "name" && "kind" != "size" && "kind" != "children" && "kind" != "element"
    ensures "name" != "size" && "name" != "children" && "name" != "element"
    ensures "size" != "children" && "size" != "element" && "children" != "element"
  {
  }

  lemma MembersFound(kind: Json, name: Option<Json>, size: Option<Json>, children: Option<Json>, element: Option<Json>)
    ensures var ms := MembersOf(kind, name, size, children, element);
            && ms.Find("kind") == Some(kind) && ms.Find("name") == name && ms.Find("size") == size
            && ms.Find("children") == children && ms.Find("element") == element
  {
    MemberNamesDiffer();
    forall k
      ensures MembersOf(kind, name, size, children, element).Find(k) ==
                if k == "kind" then Some(kind) else if k == "name" then name else if k == "size" then size
                else if k == "children" then children else if k == "element" then element else None
    {
      var e := OptionalMember("element", element, NoMembers);
      var c := OptionalMember("children", children, e);
      var z := OptionalMember("size", size, c);
      FindOptional("element", element, NoMembers, k);
      FindOptional("children", children, e, k);
      FindOptional("size", size, c, k);
      FindOptional("name", name, z, k);
    }
  }

  lemma FindOptional(key: string, j: Option<Json>, rest: Members<Json>, k: string)
    ensures OptionalMember(key, j, rest).Find(k) == if k == key && j.Some? then j else rest.Find(k)
  {
  }

  /** A type comes back from its JSON form as it was, and with it the merged tree and every lookup in it. */
  lemma {:induction false} SpecRoundTrip(s: VarSpec)
    ensures SpecFromJson(SpecToJson(s)) == Some(s)
    decreases s, 0
  {
    hide KindAmong, Members.Find, SpecsToJson, SpecsFromJson, MembersOf;
    if s.element.Some? {
      SpecRoundTrip(s.element.value);
    }
    SpecsRoundTrip(s.children);
    KindListed(s.kind);
    KindFound(ALL_KINDS, s.kind);
    MembersFound(JStr(s.kind.Text()), if s.name.Some? then Some(JStr(s.name.value)) else None,
                 if s.size.Some? then Some(JInt(s.size.value)) else None,
                 if s.children != [] then Some(JList(SpecsToJson(s.children))) else None,
                 if s.element.Some? then Some(SpecToJson(s.element.value)) else None);
  }

  lemma {:induction false} SpecsRoundTrip(ss: seq<VarSpec>)
    ensures SpecsFromJson(SpecsToJson(ss)) == Some(ss)
    decreases ss, 1
  {
    hide SpecToJson, SpecFromJson;
    if ss != [] {
      SpecRoundTrip(ss[0]);
      SpecsRoundTrip(ss[1..]);
      assert SpecsToJson(ss)[1..] == SpecsToJson(ss[1..]);
      assert ss == [ss[0]] + ss[1..];
    }
  }
}

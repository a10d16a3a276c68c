/**
 The cleanup registry of a session: what the tool changed on the device and must undo. The registry
 is a list in which a later registration under the same key replaces the earlier one.
 */
module Registry {
  import opened Results
  import opened Rcbs

  datatype Part = Reservation | Parameters | Enable

  datatype Key = RcbKey(ref: string, part: Part) | EditKey(ld: string)

  /** The undo of an action. Those of a report control block go through the association (`via`) they
      were registered in, except the release of a buffered reservation, which asks the session for
      whatever association it has then. */
  datatype Undo =
    | ReleaseResv(via: nat)
    | ReleaseBrcb(byConfiguration: bool)
    | RestoreParams(via: nat, originals: map<Param, int>)
    | DisableReports(via: nat)
    | EndEdit

  datatype CleanupAction = CleanupAction(key: Key, undo: Undo) {
    /** Each key is only ever used for one kind of undo. */
    predicate WellKeyed() {
      match key
      case EditKey(_) => undo.EndEdit?
      case RcbKey(_, Reservation) => undo.ReleaseResv? || undo.ReleaseBrcb?
      case RcbKey(_, Parameters) => undo.RestoreParams?
      case RcbKey(_, Enable) => undo.DisableReports?
    }

    /** An undo of something done to the control block `ref`. */
    predicate Of(ref: string) {
      key.RcbKey? && key.ref == ref
    }

    predicate For(part: Part) {
      key.RcbKey? && key.part == part
    }
  }

  function Keys(cs: seq<CleanupAction>): set<Key> {
    set a | a in cs :: a.key
  }

  function Dropped(cs: seq<CleanupAction>, key: Key): (r: seq<CleanupAction>)
    ensures forall a :: a in r <==> a in cs && a.key != key
    ensures |r| <= |cs|
  {
    if cs == [] then []
    else if cs[0].key == key then Dropped(cs[1..], key)
    else [cs[0]] + Dropped(cs[1..], key)
  }

  function Registered(cs: seq<CleanupAction>, a: CleanupAction): (r: seq<CleanupAction>)
    ensures forall x :: x in r <==> x == a || (x in cs && x.key != a.key)
    ensures r[|r| - 1] == a
  {
    Dropped(cs, a.key) + [a]
  }

  /** Registering several actions, one after the other. */
  function RegisteredAll(cs: seq<CleanupAction>, more: seq<CleanupAction>): seq<CleanupAction>
    decreases |more|
  {
    if more == [] then cs else RegisteredAll(Registered(cs, more[0]), more[1..])
  }

  /** Undos fit their keys, and no key is used twice. */
  predicate KeyedOnce(cs: seq<CleanupAction>) {
    && (forall a :: a in cs ==> a.WellKeyed())
    && (forall i, j :: 0 <= i < j < |cs| ==> cs[i].key != cs[j].key)
  }

  /** `a` stands before `b` in the registry, and so is undone after it. */
  predicate Before(cs: seq<CleanupAction>, a: CleanupAction, b: CleanupAction) {
    exists i, j :: 0 <= i < j < |cs| && cs[i] == a && cs[j] == b
  }

  lemma AppendedBefore(cs: seq<CleanupAction>, x: CleanupAction, a: CleanupAction, b: CleanupAction)
    ensures Before(cs + [x], a, b) <==> Before(cs, a, b) || (b == x && a in cs)
  {
    var r := cs + [x];
    if i, j :| 0 <= i < j < |r| && r[i] == a && r[j] == b {
      assert cs[i] == a;
      if j < |cs| {
        assert cs[j] == b;
      }
    }
    if i, j :| 0 <= i < j < |cs| && cs[i] == a && cs[j] == b {
      assert r[i] == a && r[j] == b;
    }
    if b == x && a in cs {
      var i :| 0 <= i < |cs| && cs[i] == a;
      assert r[i] == a && r[|cs|] == b;
    }
  }

  lemma PrefixedBefore(x: CleanupAction, cs: seq<CleanupAction>, a: CleanupAction, b: CleanupAction)
    ensures Before([x] + cs, a, b) <==> Before(cs, a, b) || (a == x && b in cs)
  {
    var r := [x] + cs;
    if i, j :| 0 <= i < j < |r| && r[i] == a && r[j] == b {
      assert cs[j - 1] == b;
      if i > 0 {
        assert cs[i - 1] == a;
      }
    }
    if i, j :| 0 <= i < j < |cs| && cs[i] == a && cs[j] == b {
      assert r[i + 1] == a && r[j + 1] == b;
    }
    if a == x && b in cs {
      var j :| 0 <= j < |cs| && cs[j] == b;
      assert r[0] == a && r[j + 1] == b;
    }
  }

  /** Dropping keeps what is left in its order. */
  lemma {:induction false} DroppedBefore(cs: seq<CleanupAction>, key: Key, a: CleanupAction, b: CleanupAction)
    ensures Before(Dropped(cs, key), a, b) <==> Before(cs, a, b) && a.key != key && b.key != key
  {
    if cs != [] {
      var rest := Dropped(cs[1..], key);
      assert cs == [cs[0]] + cs[1..];
      PrefixedBefore(cs[0], cs[1..], a, b);
      PrefixedBefore(cs[0], rest, a, b);
      DroppedBefore(cs[1..], key, a, b);
      assert Before(cs[1..], a, b) ==> a in cs[1..] && b in cs[1..];
    }
  }

  /** A registered action stands after all others, which keep their order. */
  lemma RegisteredBefore(cs: seq<CleanupAction>, x: CleanupAction, a: CleanupAction, b: CleanupAction)
    ensures Before(Registered(cs, x), a, b) <==>
              a.key != x.key && ((b == x && a in cs) || (Before(cs, a, b) && b.key != x.key))
  {
    AppendedBefore(Dropped(cs, x.key), x, a, b);
    DroppedBefore(cs, x.key, a, b);
  }

  lemma {:induction false} DroppedAbsent(cs: seq<CleanupAction>, key: Key)
    requires forall a :: a in cs ==> a.key != key
    ensures Dropped(cs, key) == cs
  {
    if cs != [] {
      DroppedAbsent(cs[1..], key);
      assert cs[0] in cs;
      assert forall a :: a in cs[1..] ==> a in cs;
    }
  }

  lemma {:induction false} DroppedKeyedOnce(cs: seq<CleanupAction>, key: Key)
    requires KeyedOnce(cs)
    ensures KeyedOnce(Dropped(cs, key))
  {
    if cs != [] {
      var rest := Dropped(cs[1..], key);
      DroppedKeyedOnce(cs[1..], key);
      forall x | x in rest
        ensures cs[0].key != x.key
      {
        var j :| 0 <= j < |cs[1..]| && cs[1..][j] == x;
        assert cs[j + 1] == x;
      }
    }
  }

  lemma RegisteredKeyedOnce(cs: seq<CleanupAction>, a: CleanupAction)
    requires KeyedOnce(cs) && a.WellKeyed()
    ensures KeyedOnce(Registered(cs, a))
  {
    var kept := Dropped(cs, a.key);
    DroppedKeyedOnce(cs, a.key);
    forall i | 0 <= i < |kept|
      ensures kept[i].key != a.key
    {
      assert kept[i] in kept;
    }
  }

  lemma {:induction false} DroppedAppend(cs: seq<CleanupAction>, more: seq<CleanupAction>, key: Key)
    ensures Dropped(cs + more, key) == Dropped(cs, key) + Dropped(more, key)
  {
    if cs == [] {
      assert cs + more == more;
    } else {
      assert (cs + more)[1..] == cs[1..] + more;
      DroppedAppend(cs[1..], more, key);
    }
  }

  /** Popping the last action is dropping it. */
  lemma LastTaken(cs: seq<CleanupAction>)
    requires cs != [] && KeyedOnce(cs)
    ensures cs[..|cs| - 1] == Dropped(cs, cs[|cs| - 1].key)
  {
    var rest, last := cs[..|cs| - 1], cs[|cs| - 1];
    assert cs == rest + [last];
    DroppedAppend(rest, [last], last.key);
    assert Dropped([last], last.key) == [];
    DroppedAbsent(rest, last.key);
  }

  // ---------------------------------------------------------------- one control block

  /** The actions registered for `ref`, in their order. */
  function ActionsOf(cs: seq<CleanupAction>, ref: string): (r: seq<CleanupAction>)
    ensures forall a :: a in r <==> a in cs && a.Of(ref)
  {
    if cs == [] then []
    else if cs[0].Of(ref) then [cs[0]] + ActionsOf(cs[1..], ref)
    else ActionsOf(cs[1..], ref)
  }

  lemma {:induction false} ActionsOfAppend(cs: seq<CleanupAction>, more: seq<CleanupAction>, ref: string)
    ensures ActionsOf(cs + more, ref) == ActionsOf(cs, ref) + ActionsOf(more, ref)
  {
    if cs == [] {
      assert cs + more == more;
    } else {
      assert (cs + more)[1..] == cs[1..] + more;
      ActionsOfAppend(cs[1..], more, ref);
    }
  }

  lemma {:induction false} ActionsOfDropped(cs: seq<CleanupAction>, key: Key, ref: string)
    ensures ActionsOf(Dropped(cs, key), ref) == Dropped(ActionsOf(cs, ref), key)
    ensures !(key.RcbKey? && key.ref == ref) ==> ActionsOf(Dropped(cs, key), ref) == ActionsOf(cs, ref)
  {
    if cs != [] {
      ActionsOfDropped(cs[1..], key, ref);
    }
    if !(key.RcbKey? && key.ref == ref) {
      DroppedAbsent(ActionsOf(cs, ref), key);
    }
  }

  lemma ActionsOfRegistered(cs: seq<CleanupAction>, a: CleanupAction, ref: string)
    ensures ActionsOf(Registered(cs, a), ref) == if a.Of(ref) then Registered(ActionsOf(cs, ref), a) else ActionsOf(cs, ref)
  {
    ActionsOfAppend(Dropped(cs, a.key), [a], ref);
    ActionsOfDropped(cs, a.key, ref);
    assert ActionsOf([], ref) == [];
    assert ActionsOf([a], ref) == if a.Of(ref) then [a] else [];
  }

  lemma {:induction false} ActionsOfKeyedOnce(cs: seq<CleanupAction>, ref: string)
    requires KeyedOnce(cs)
    ensures KeyedOnce(ActionsOf(cs, ref))
  {
    if cs != [] {
      var rest := ActionsOf(cs[1..], ref);
      ActionsOfKeyedOnce(cs[1..], ref);
      forall x | x in rest
        ensures cs[0].key != x.key
      {
        var j :| 0 <= j < |cs[1..]| && cs[1..][j] == x;
        assert cs[j + 1] == x;
      }
    }
  }

  function Parts(acts: seq<CleanupAction>): set<Part> {
    set a | a in acts && a.key.RcbKey? :: a.key.part
  }

  function KeysOf(ref: string): set<Key> {
    {RcbKey(ref, Reservation), RcbKey(ref, Parameters), RcbKey(ref, Enable)}
  }

  /** The parts of `ref` whose undo was given up. */
  function LostOf(givenUp: set<Key>, ref: string): (lost: set<Part>)
    ensures forall p :: p in lost <==> RcbKey(ref, p) in givenUp
  {
    set p: Part | RcbKey(ref, p) in givenUp
  }

  // ---------------------------------------------------------------- what the registry answers for

  /** The action undone first is the one that disables. */
  predicate EndsWithEnable(acts: seq<CleanupAction>) {
    acts != [] && acts[|acts| - 1].For(Enable)
  }

  /** The law for reservation and enabling, where `acts` are the actions registered for an RCB that was
      free when it was first read: if it is enabled, or reserved for the tool (at address `own`), the undo
      is registered, that of the enabling last, or was given up (`lost`); and the undos are the right ones. */
  predicate Held(first: Rcb, now: Rcb, acts: seq<CleanupAction>, lost: set<Part>, own: Option<Address>) {
    && now.buffered == first.buffered && now.resvTms.Some? == first.resvTms.Some?
    && (now.buffered ==> now.resv == first.resv)
    && (now.rptEna ==> Enable in lost || EndsWithEnable(acts))
    && (now.resv != first.resv || now.ReservedFor(own) ==> Reservation in Parts(acts) + lost)
    && (forall a :: a in acts ==>
          && (a.undo.ReleaseBrcb? ==> first.buffered && first.resvTms.Some? && !a.undo.byConfiguration)
          && (a.undo.ReleaseResv? ==> !first.buffered))
  }

  /** A registered undo would put the parameter back to `value`. */
  predicate Remembers(acts: seq<CleanupAction>, p: Param, value: int) {
    exists a :: a in acts && a.For(Parameters) && a.undo.RestoreParams? && p in a.undo.originals && a.undo.originals[p] == value
  }

  /** The law for the parameters: each that no longer has the value first read is remembered, or restoring
      them was given up; and what is remembered is what was first read. */
  predicate ParamsKept(first: ParamValues, now: ParamValues, acts: seq<CleanupAction>, lost: set<Part>) {
    && (forall p :: now.Get(p) != first.Get(p) ==> Remembers(acts, p, first.Get(p)) || Parameters in lost)
    && (forall a, p :: a in acts && a.undo.RestoreParams? && p in a.undo.originals ==> a.undo.originals[p] == first.Get(p))
  }

  /** A registered undo answers for the change before it is made. */
  predicate Answered(acts: seq<CleanupAction>, first: Rcb, change: Change) {
    match change
    case SetResv(_) => !first.buffered && Reservation in Parts(acts)
    case SetRptEna(b) => b ==> EndsWithEnable(acts) && (first.resvTms.Some? ==> Reservation in Parts(acts))
    case SetResvTms(_) => Reservation in Parts(acts)
    case SetParams(changes) => forall p :: p in changes ==> Remembers(acts, p, first.params.Get(p))
    case Trigger(_) => true
  }

  predicate Written(before: Rcb, change: Change, after: Rcb) {
    after == before || Effect(before, change, after) || Leftover(before, change, after)
  }

  /** A write that is answered for keeps both laws, whether it is accepted, refused or half applied. */
  lemma WriteKeepsLaws(first: Rcb, before: Rcb, change: Change, after: Rcb,
                       acts: seq<CleanupAction>, lost: set<Part>, own: Option<Address>)
    requires Written(before, change, after)
    requires change.SetParams? || (first.Free() && Answered(acts, first, change))
    ensures Held(first, before, acts, lost, own) ==> Held(first, after, acts, lost, own)
    ensures Answered(acts, first, change) && ParamsKept(first.params, before.params, acts, lost) ==>
              ParamsKept(first.params, after.params, acts, lost)
  {
  }

  /** Registering an undo keeps the law for reservation and enabling, unless it is registered over an
      enabled control block. */
  lemma RegisterKeepsHeld(first: Rcb, now: Rcb, acts: seq<CleanupAction>, a: CleanupAction, lost: set<Part>, own: Option<Address>)
    requires Held(first, now, acts, lost, own)
    requires a.WellKeyed() && (!now.rptEna || a.For(Enable))
    requires a.undo.ReleaseBrcb? ==> first.buffered && first.resvTms.Some? && !a.undo.byConfiguration
    requires a.undo.ReleaseResv? ==> !first.buffered
    ensures Held(first, now, Registered(acts, a), lost, own)
  {
    var r := Registered(acts, a);
    assert a in r;
    forall x | x in acts && x.For(Reservation)
      ensures Reservation in Parts(r)
    {
      if x.key == a.key {
        assert a.For(Reservation);
      } else {
        assert x in r;
      }
    }
  }

  /** The law for the parameters is about nothing but them. */
  lemma OtherActions(first: ParamValues, now: ParamValues, acts: seq<CleanupAction>, acts': seq<CleanupAction>, lost: set<Part>)
    requires forall a: CleanupAction :: a.For(Parameters) || a.undo.RestoreParams? ==> (a in acts <==> a in acts')
    ensures ParamsKept(first, now, acts, lost) <==> ParamsKept(first, now, acts', lost)
  {
    forall p, v
      ensures Remembers(acts, p, v) <==> Remembers(acts', p, v)
    {
    }
  }

  // ---------------------------------------------------------------- undoing

  /** The part of an RCB that an action is for is as it was first read. */
  predicate PartRestored(part: Part, first: Rcb, now: Rcb, own: Option<Address>) {
    match part
    case Enable => now.rptEna == first.rptEna
    case Parameters => now.params == first.params
    case Reservation => now.resv == first.resv && !now.ReservedFor(own)
  }

  /** The write an undo makes, where it makes one. */
  function UndoChange(u: Undo): Change {
    match u
    case ReleaseResv(_) => SetResv(false)
    case ReleaseBrcb(_) => SetResvTms(0)
    case RestoreParams(_, originals) => SetParams(originals)
    case DisableReports(_) => SetRptEna(false)
    case EndEdit => Trigger(false)
  }

  lemma OnlyParams(acts: seq<CleanupAction>, ref: string, a: CleanupAction, b: CleanupAction)
    requires KeyedOnce(acts) && a in acts && b in acts && a.Of(ref) && b.Of(ref) && a.key == b.key
    ensures a == b
  {
  }

  /** An accepted undo restores its part of the RCB, unless the part was already given up. */
  lemma UndoRestores(ref: string, first: Rcb, before: Rcb, after: Rcb, acts: seq<CleanupAction>, a: CleanupAction,
                     lost: set<Part>, own: Option<Address>)
    requires first.Free() && KeyedOnce(acts) && (forall x :: x in acts ==> x.Of(ref))
    requires a in acts && a.Of(ref) && a.key.part !in lost
    requires Effect(before, UndoChange(a.undo), after)
    requires Held(first, before, acts, lost, own)
    requires a.For(Parameters) ==> ParamsKept(first.params, before.params, acts, lost)
    ensures !a.undo.ReleaseBrcb? ==> PartRestored(a.key.part, first, after, own)
    ensures a.undo.ReleaseBrcb? && !after.ReservedFor(own) ==> PartRestored(a.key.part, first, after, own)
  {
    assert a.WellKeyed();
    if a.For(Parameters) {
      ParamsComeBack(ref, first.params, before.params, acts, a, lost);
    }
  }

  /** Writing what is remembered brings back every parameter. */
  lemma ParamsComeBack(ref: string, first: ParamValues, before: ParamValues, acts: seq<CleanupAction>, a: CleanupAction, lost: set<Part>)
    requires KeyedOnce(acts) && (forall x :: x in acts ==> x.Of(ref))
    requires a in acts && a.undo.RestoreParams? && Parameters !in lost
    requires ParamsKept(first, before, acts, lost)
    ensures before.With(a.undo.originals) == first
  {
    assert a.WellKeyed();
    forall p
      ensures before.With(a.undo.originals).Get(p) == first.Get(p)
    {
      if before.Get(p) != first.Get(p) {
        var x :| x in acts && x.For(Parameters) && x.undo.RestoreParams? && p in x.undo.originals;
        OnlyParams(acts, ref, a, x);
      }
    }
    SameParams(before.With(a.undo.originals), first);
  }

  lemma DroppedKeepsLast(cs: seq<CleanupAction>, key: Key)
    requires cs != [] && cs[|cs| - 1].key != key
    ensures Dropped(cs, key) != [] && Dropped(cs, key)[|Dropped(cs, key)| - 1] == cs[|cs| - 1]
  {
    var front, last := cs[..|cs| - 1], cs[|cs| - 1];
    assert cs == front + [last];
    DroppedAppend(front, [last], key);
    assert last in Dropped([last], key) && |Dropped([last], key)| == 1;
  }

  /** Taking an action out of the registry keeps the law for reservation and enabling, if its part is as
      first read or given up. */
  lemma DropKeepsHeld(ref: string, first: Rcb, now: Rcb, acts: seq<CleanupAction>, part: Part, lost: set<Part>, own: Option<Address>)
    requires (forall x :: x in acts ==> x.Of(ref)) && first.Free()
    requires Held(first, now, acts, lost, own)
    requires part in lost || part.Parameters? || PartRestored(part, first, now, own)
    ensures Held(first, now, Dropped(acts, RcbKey(ref, part)), lost, own)
  {
    var key := RcbKey(ref, part);
    if now.rptEna && Enable !in lost {
      DroppedKeepsLast(acts, key);
    }
    if part != Reservation && Reservation in Parts(acts) {
      var a :| a in acts && a.key.RcbKey? && a.key.part == Reservation;
      assert a in Dropped(acts, key);
    }
  }

  /** The same for the law of the parameters. */
  lemma DropKeepsParams(ref: string, first: ParamValues, now: ParamValues, acts: seq<CleanupAction>, part: Part, lost: set<Part>)
    requires KeyedOnce(acts) && forall x :: x in acts ==> x.Of(ref)
    requires ParamsKept(first, now, acts, lost)
    requires part in lost || part != Parameters || now == first
    ensures ParamsKept(first, now, Dropped(acts, RcbKey(ref, part)), lost)
  {
    if part != Parameters {
      forall a: CleanupAction | a.For(Parameters) || a.undo.RestoreParams?
        ensures a in acts <==> a in Dropped(acts, RcbKey(ref, part))
      {
      }
      OtherActions(first, now, acts, Dropped(acts, RcbKey(ref, part)), lost);
    }
  }

  lemma MoreLost(first: Rcb, now: Rcb, acts: seq<CleanupAction>, lost: set<Part>, lost': set<Part>, own: Option<Address>)
    requires lost <= lost'
    ensures Held(first, now, acts, lost, own) ==> Held(first, now, acts, lost', own)
    ensures ParamsKept(first.params, now.params, acts, lost) ==> ParamsKept(first.params, now.params, acts, lost')
  {
  }

  /** Taking an action out and running it keeps both laws, if its part is restored or given up. */
  lemma UndoKeepsLaws(ref: string, first: Rcb, before: Rcb, after: Rcb, acts: seq<CleanupAction>, a: CleanupAction,
                      lost: set<Part>, lost': set<Part>, own: Option<Address>)
    requires first.Free() && KeyedOnce(acts) && (forall x :: x in acts ==> x.Of(ref))
    requires a in acts && a.Of(ref) && lost <= lost'
    requires Written(before, UndoChange(a.undo), after)
    requires !a.For(Parameters) && Held(first, before, acts, lost, own) ==>
               a.key.part in lost' || PartRestored(a.key.part, first, after, own)
    requires a.For(Parameters) && ParamsKept(first.params, before.params, acts, lost) ==>
               Parameters in lost' || PartRestored(Parameters, first, after, own)
    ensures Held(first, before, acts, lost, own) ==> Held(first, after, Dropped(acts, a.key), lost', own)
    ensures ParamsKept(first.params, before.params, acts, lost) ==>
              ParamsKept(first.params, after.params, Dropped(acts, a.key), lost')
  {
    assert a.WellKeyed() && a.key == RcbKey(ref, a.key.part);
    assert a.key.part in Parts(acts);
    MoreLost(first, after, acts, lost, lost', own);
    if Held(first, before, acts, lost, own) {
      if !a.undo.RestoreParams? {
        assert Answered(acts, first, UndoChange(a.undo));
      }
      WriteKeepsLaws(first, before, UndoChange(a.undo), after, acts, lost, own);
      DropKeepsHeld(ref, first, after, acts, a.key.part, lost', own);
    }
    if ParamsKept(first.params, before.params, acts, lost) {
      if a.undo.RestoreParams? {
        forall p | p in a.undo.originals
          ensures Remembers(acts, p, first.params.Get(p))
        {
        }
        WriteKeepsLaws(first, before, UndoChange(a.undo), after, acts, lost, own);
      } else {
        assert after.params == before.params;
      }
      DropKeepsParams(ref, first.params, after.params, acts, a.key.part, lost');
    }
  }

  /** When an RCB's action to be undone next is not its enabling, the RCB is not enabled by us. */
  lemma LastPartMayBeWritten(first: Rcb, now: Rcb, acts: seq<CleanupAction>, own: Option<Address>)
    requires Held(first, now, acts, {}, own) && acts != [] && !acts[|acts| - 1].For(Enable)
    ensures !now.rptEna
  {
  }

  /** With no action left and nothing given up, an RCB that was free when it was first read has its first
      RptEna, parameters and Resv again and is not reserved for the tool. */
  lemma NothingLeft(first: Rcb, now: Rcb, own: Option<Address>)
    requires first.Free() && Held(first, now, [], {}, own) && ParamsKept(first.params, now.params, [], {})
    ensures forall part :: PartRestored(part, first, now, own)
  {
    SameParams(now.params, first.params);
  }

  // ---------------------------------------------------------------- order

  function Rank(part: Part): nat {
    match part
    case Reservation => 0
    case Parameters => 1
    case Enable => 2
  }

  /** Undone from the end, the enabling is undone before the parameters and these before the reservation. */
  predicate InUndoOrder(acts: seq<CleanupAction>) {
    forall i, j :: 0 <= i < j < |acts| && acts[i].key.RcbKey? && acts[j].key.RcbKey? ==> Rank(acts[i].key.part) < Rank(acts[j].key.part)
  }

  /** Those of `acts` that keep their place when `more` is registered. */
  function Staying(acts: seq<CleanupAction>, more: seq<CleanupAction>): (r: seq<CleanupAction>)
    ensures forall a :: a in r <==> a in acts && a.key !in Keys(more)
    decreases |more|
  {
    if more == [] then acts else Staying(Dropped(acts, more[0].key), more[1..])
  }

  /** Registering several actions moves them to the end. */
  lemma {:induction false} RegisteredAllIs(acts: seq<CleanupAction>, more: seq<CleanupAction>)
    requires KeyedOnce(more)
    ensures RegisteredAll(acts, more) == Staying(acts, more) + more
    decreases |more|, 1
  {
    if more != [] {
      var a, rest := more[0], more[1..];
      forall y | y in rest
        ensures y.key != a.key
      {
        var j :| 0 <= j < |rest| && rest[j] == y;
        assert more[j + 1] == y;
      }
      MovedToTheEnd(acts, a, rest);
    }
  }

  lemma {:induction false} MovedToTheEnd(acts: seq<CleanupAction>, a: CleanupAction, rest: seq<CleanupAction>)
    requires KeyedOnce(rest) && forall y :: y in rest ==> y.key != a.key
    ensures RegisteredAll(Registered(acts, a), rest) == Staying(Dropped(acts, a.key), rest) + [a] + rest
    decreases |rest|, 2
  {
    hide Dropped;
    RegisteredAllIs(Registered(acts, a), rest);
    StayingAppend(Dropped(acts, a.key), [a], rest);
    StayingAll([a], rest);
  }

  lemma {:induction false} StayingAppend(acts: seq<CleanupAction>, tail: seq<CleanupAction>, more: seq<CleanupAction>)
    ensures Staying(acts + tail, more) == Staying(acts, more) + Staying(tail, more)
    decreases |more|
  {
    if more != [] {
      DroppedAppend(acts, tail, more[0].key);
      StayingAppend(Dropped(acts, more[0].key), Dropped(tail, more[0].key), more[1..]);
    }
  }

  lemma {:induction false} StayingAll(acts: seq<CleanupAction>, more: seq<CleanupAction>)
    requires forall a :: a in acts ==> a.key !in Keys(more)
    ensures Staying(acts, more) == acts
    decreases |more|
  {
    if more != [] {
      assert more[0] in more && forall x :: x in more[1..] ==> x in more;
      DroppedAbsent(acts, more[0].key);
      StayingAll(acts, more[1..]);
    }
  }

  lemma {:induction false} StayingInOrder(acts: seq<CleanupAction>, more: seq<CleanupAction>)
    requires InUndoOrder(acts)
    ensures InUndoOrder(Staying(acts, more))
    decreases |more|
  {
    if more != [] {
      DroppedInOrder(acts, more[0].key);
      StayingInOrder(Dropped(acts, more[0].key), more[1..]);
    }
  }

  lemma DroppedInOrder(acts: seq<CleanupAction>, key: Key)
    requires InUndoOrder(acts)
    ensures InUndoOrder(Dropped(acts, key))
  {
    var r := Dropped(acts, key);
    forall i, j | 0 <= i < j < |r| && r[i].key.RcbKey? && r[j].key.RcbKey?
      ensures Rank(r[i].key.part) < Rank(r[j].key.part)
    {
      assert Before(r, r[i], r[j]);
      DroppedBefore(acts, key, r[i], r[j]);
    }
  }

  lemma {:induction false} ActionsOfRegisteredAll(cs: seq<CleanupAction>, more: seq<CleanupAction>, ref: string)
    ensures ActionsOf(RegisteredAll(cs, more), ref) == RegisteredAll(ActionsOf(cs, ref), ActionsOf(more, ref))
    decreases |more|
  {
    if more != [] {
      ActionsOfRegistered(cs, more[0], ref);
      ActionsOfRegisteredAll(Registered(cs, more[0]), more[1..], ref);
    }
  }

  /** What is registered again moves behind what is not: the order survives exactly when each part that
      stays comes before each part that is registered. */
  predicate OrderSurvives(acts: seq<CleanupAction>, more: seq<CleanupAction>) {
    forall a, b :: a in acts && b in more && a.key !in Keys(more) && a.key.RcbKey? && b.key.RcbKey? ==>
      Rank(a.key.part) < Rank(b.key.part)
  }

  lemma OrderAfterRegistering(acts: seq<CleanupAction>, more: seq<CleanupAction>)
    requires InUndoOrder(acts) && KeyedOnce(more) && InUndoOrder(more)
    ensures InUndoOrder(RegisteredAll(acts, more)) <==> OrderSurvives(acts, more)
  {
    hide Staying, RegisteredAll, Dropped, Registered, CleanupAction.WellKeyed, Keys;
    var kept := Staying(acts, more);
    var r := kept + more;
    RegisteredAllIs(acts, more);
    StayingInOrder(acts, more);
    if InUndoOrder(r) {
      forall a, b | a in acts && b in more && a.key !in Keys(more) && a.key.RcbKey? && b.key.RcbKey?
        ensures Rank(a.key.part) < Rank(b.key.part)
      {
        assert a in kept;
        var i :| 0 <= i < |kept| && kept[i] == a;
        var j :| 0 <= j < |more| && more[j] == b;
        assert r[i] == a && r[|kept| + j] == b;
      }
    }
    if OrderSurvives(acts, more) {
      forall i, j | 0 <= i < j < |r| && r[i].key.RcbKey? && r[j].key.RcbKey?
        ensures Rank(r[i].key.part) < Rank(r[j].key.part)
      {
        if j < |kept| {
          assert r[i] == kept[i] && r[j] == kept[j];
        } else if i < |kept| {
          assert r[i] in kept && r[j] in more;
        } else {
          assert r[i] == more[i - |kept|] && r[j] == more[j - |kept|];
        }
      }
    }
  }

  // ---------------------------------------------------------------- registering the parameters again

  /** The requested parameters that differ from the current ones. */
  function Changed(current: ParamValues, request: map<Param, int>): (changed: map<Param, int>)
    ensures forall p :: p in changed <==> p in request && request[p] != current.Get(p)
    ensures forall p :: p in changed ==> changed[p] == request[p]
  {
    map p | p in request && request[p] != current.Get(p) :: request[p]
  }

  function Originals(current: ParamValues, changed: map<Param, int>): (originals: map<Param, int>)
    ensures originals.Keys == changed.Keys
    ensures forall p :: p in originals ==> originals[p] == current.Get(p)
  {
    map p | p in changed :: current.Get(p)
  }

  function RestoreAction(ref: string, via: nat, current: ParamValues, changed: map<Param, int>): CleanupAction {
    CleanupAction(RcbKey(ref, Parameters), RestoreParams(via, Originals(current, changed)))
  }

  /** Registering under the same key replaces the values saved before. That does no harm when no parameter is
      off its first value, or when restoring them was given up and none of those changed now is. */
  predicate MemorySurvives(first: ParamValues, current: ParamValues, changed: map<Param, int>, lost: set<Part>) {
    || current == first
    || (Parameters in lost && forall p :: p in changed ==> current.Get(p) == first.Get(p))
  }

  /** After registering the values read and writing the changes, whatever the device makes of it. */
  lemma SecondRegistration(ref: string, via: nat, first: ParamValues, current: ParamValues, changed: map<Param, int>,
                           now: ParamValues, acts: seq<CleanupAction>, lost: set<Part>)
    requires ParamsKept(first, current, acts, lost) && changed != map[]
    requires forall a :: a in acts ==> a.Of(ref) && a.WellKeyed()
    requires forall p :: now.Get(p) == current.Get(p) || p in changed
    ensures ParamsKept(first, now, Registered(acts, RestoreAction(ref, via, current, changed)), lost) <==>
            MemorySurvives(first, current, changed, lost)
  {
    var a := RestoreAction(ref, via, current, changed);
    var r := Registered(acts, a);
    assert forall x :: x in r && x.undo.RestoreParams? ==> x == a;
    assert a in r;
    if current != first && !(Parameters in lost) {
      if forall p :: current.Get(p) == first.Get(p) {
        SameParams(current, first);
      }
      var p :| current.Get(p) != first.Get(p);
      assert p !in changed ==> now.Get(p) == current.Get(p) && !Remembers(r, p, first.Get(p));
    }
    if MemorySurvives(first, current, changed, lost) {
      forall p | now.Get(p) != first.Get(p) && Parameters !in lost
        ensures Remembers(r, p, first.Get(p))
      {
        assert p in changed;
      }
    }
  }

  /** A retry after a refused write loses the original: trigger options 1 became 2, the retry asks for 4. */
  lemma RetryForgetsTheOriginal(ref: string)
    ensures var first, current := ParamValues(1, 0, 0, 0), ParamValues(2, 0, 0, 0);
            var acts := [RestoreAction(ref, 1, first, map[TrgOps := 2, IntgPd := 5])];
            && ParamsKept(first, current, acts, {})
            && !ParamsKept(first, ParamValues(4, 0, 0, 0), Registered(acts, RestoreAction(ref, 1, current, map[TrgOps := 4])), {})
  {
    var first, current := ParamValues(1, 0, 0, 0), ParamValues(2, 0, 0, 0);
    var acts := [RestoreAction(ref, 1, first, map[TrgOps := 2, IntgPd := 5])];
    assert acts[0] in acts && acts[0].undo.originals[TrgOps] == 1;
    assert forall p :: current.Get(p) != first.Get(p) ==> p == TrgOps;
    var changed := map[TrgOps := 4];
    assert TrgOps in changed && current.Get(TrgOps) != first.Get(TrgOps);
    SecondRegistration(ref, 1, first, current, changed, ParamValues(4, 0, 0, 0), acts, {});
  }

  /** After a refused parameter write, a retry that changes no parameter registers the reservation and the
      enabling again: the reservation now comes after the parameters and is released before they are restored. */
  lemma RetryReordersTheUndos(ref: string, originals: map<Param, int>)
    ensures var resv, params, enable := CleanupAction(RcbKey(ref, Reservation), ReleaseBrcb(false)),
                                        CleanupAction(RcbKey(ref, Parameters), RestoreParams(1, originals)),
                                        CleanupAction(RcbKey(ref, Enable), DisableReports(1));
            && InUndoOrder([resv, params]) && KeyedOnce([resv, params])
            && RegisteredAll([resv, params], [resv, enable]) == [params, resv, enable]
            && !InUndoOrder([params, resv, enable])
  {
    var resv, params, enable := CleanupAction(RcbKey(ref, Reservation), ReleaseBrcb(false)),
                                CleanupAction(RcbKey(ref, Parameters), RestoreParams(1, originals)),
                                CleanupAction(RcbKey(ref, Enable), DisableReports(1));
    assert Registered([resv, params], resv) == [params, resv];
    assert [resv, enable][1..] == [enable] && [enable][1..] == [];
    assert RegisteredAll([params, resv], [enable]) == RegisteredAll(Registered([params, resv], enable), []);
    assert RegisteredAll([resv, params], [resv, enable]) == RegisteredAll([params, resv], [enable]);
    assert Registered([params, resv], enable) == [params, resv, enable];
    var acts := [params, resv, enable];
    assert acts[0].key.RcbKey? && acts[1].key.RcbKey?;
  }
}

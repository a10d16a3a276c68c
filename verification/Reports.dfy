/** Report control blocks: subscribing to a free one, receiving its reports and undoing it all. */
module Reports {
  import opened Results
  import opened Rcbs
  import opened Registry
  import opened Settings
  import opened Devices
  import opened Sessions
  import opened ReportCounts

  /** Whether a control block is buffered is part of its reference, and so of the values read from it. */
  datatype ControlBlock = ControlBlock(ref: string, clients: seq<string>)

  /** An RCB instance as it was read; `ours` when its Owner is this tool and no named client. */
  datatype RcbStatus = RcbStatus(cb: ControlBlock, values: Option<Rcb>, ours: bool)

  /** Level B may only take a disabled, unreserved instance that nobody else owns or is assigned to. */
  predicate IsFree(st: RcbStatus, me: Option<string>) {
    && st.values.Some?
    && st.values.value.Free()
    && (st.values.value.owner.Some? ==> st.ours)
    && forall i :: 0 <= i < |st.cb.clients| ==> me == Some(st.cb.clients[i])
  }

  datatype SubscribeResult =
    | Subscribed(sub: Subscription)
    | NoFreeRcb
    | RaisedWhile(reply: Reply)

  /** The state of every instance; an unreadable one has no values. */
  method ReadStatuses(session: Session, cbs: seq<ControlBlock>, named: set<Address>) returns (sts: seq<RcbStatus>)
    modifies session`link
    ensures |sts| == |cbs|
    ensures forall i :: 0 <= i < |cbs| ==> sts[i].cb == cbs[i]
    ensures forall i :: 0 <= i < |cbs| && sts[i].values.Some? ==>
              && cbs[i].ref in session.device.rcbs
              && sts[i].values.value == session.device.rcbs[cbs[i].ref]
              && sts[i].ours == (session.IsOwn(sts[i].values.value.owner) && sts[i].values.value.owner.value !in named)
    ensures old(session.link) == Up && session.device.cooperative ==>
              forall i :: 0 <= i < |cbs| && cbs[i].ref in session.device.rcbs ==> sts[i].values.Some?
    ensures session.link == old(session.link) || (old(session.link) == Up && session.link == Lost)
    ensures session.device.cooperative ==> session.link == old(session.link)
  {
    sts := [];
    for i := 0 to |cbs|
      invariant |sts| == i
      invariant forall k :: 0 <= k < i ==> sts[k].cb == cbs[k]
      invariant forall k :: 0 <= k < i && sts[k].values.Some? ==>
                  && cbs[k].ref in session.device.rcbs
                  && sts[k].values.value == session.device.rcbs[cbs[k].ref]
                  && sts[k].ours == (session.IsOwn(sts[k].values.value.owner) && sts[k].values.value.owner.value !in named)
      invariant old(session.link) == Up && session.device.cooperative ==>
                  forall k :: 0 <= k < i && cbs[k].ref in session.device.rcbs ==> sts[k].values.Some?
      invariant session.link == old(session.link) || (old(session.link) == Up && session.link == Lost)
      invariant session.device.cooperative ==> session.link == old(session.link)
    {
      var values := session.GetRcb(cbs[i].ref);
      var ours := values.Some? && session.IsOwn(values.value.owner) && values.value.owner.value !in named;
      sts := sts + [RcbStatus(cbs[i], values, ours)];
    }
  }

  method FirstFree(sts: seq<RcbStatus>, me: Option<string>) returns (chosen: Option<RcbStatus>)
    ensures chosen.None? <==> forall i :: 0 <= i < |sts| ==> !IsFree(sts[i], me)
    ensures chosen.Some? ==> exists i :: 0 <= i < |sts| && chosen.value == sts[i] && IsFree(sts[i], me)
                                         && forall k :: 0 <= k < i ==> !IsFree(sts[k], me)
  {
    for i := 0 to |sts|
      invariant forall k :: 0 <= k < i ==> !IsFree(sts[k], me)
    {
      if IsFree(sts[i], me) {
        return Some(sts[i]);
      }
    }
    chosen := None;
  }

  /** What a step of a subscription to `ref` leaves alone. */
  twostate predicate OthersKept(session: Session, ref: string)
    reads session, session.device
  {
    && session.device.sgcbs == old(session.device.sgcbs)
    && session.device.rcbs.Keys == old(session.device.rcbs).Keys
    && (session.link == old(session.link) || (old(session.link) == Up && session.link == Lost))
    && OthersSame(ref, old(session.device.rcbs), old(session.cleanups), old(session.givenUp),
                  session.device.rcbs, session.cleanups, session.givenUp)
  }

  /** Nothing but `ref`, its actions and its keys changed. */
  ghost predicate OthersSame(ref: string, now: map<string, Rcb>, cs: seq<CleanupAction>, given: set<Key>,
                             now': map<string, Rcb>, cs': seq<CleanupAction>, given': set<Key>)
  {
    && now'.Keys == now.Keys
    && (forall r :: r in now && r != ref ==> now'[r] == now[r])
    && (forall a: CleanupAction :: !a.Of(ref) ==> (a in cs <==> a in cs'))
    && (forall r :: r != ref ==> ActionsOf(cs', r) == ActionsOf(cs, r))
    && (forall k: Key :: !(k.RcbKey? && k.ref == ref) ==> (k in given <==> k in given'))
  }

  lemma OthersSameTwice(ref: string, now: map<string, Rcb>, cs: seq<CleanupAction>, given: set<Key>,
                        now': map<string, Rcb>, cs': seq<CleanupAction>, given': set<Key>,
                        now'': map<string, Rcb>, cs'': seq<CleanupAction>, given'': set<Key>)
    requires OthersSame(ref, now, cs, given, now', cs', given') && OthersSame(ref, now', cs', given', now'', cs'', given'')
    ensures OthersSame(ref, now, cs, given, now'', cs'', given'')
  {
  }

  lemma NothingElse(ref: string, now: map<string, Rcb>, cs: seq<CleanupAction>, given: set<Key>)
    ensures OthersSame(ref, now, cs, given, now, cs, given)
  {
  }

  /** The edit sessions of setting groups are answered for as before. */
  twostate predicate EditsKept(session: Session)
    reads session, session.device
  {
    forall ld :: old(session.EditCovered(ld)) ==> session.EditCovered(ld)
  }

  /** The laws of the other control blocks are not touched. */
  lemma OthersLaws(ref: string, first: map<string, Rcb>, now: map<string, Rcb>, cs: seq<CleanupAction>, given: set<Key>,
                   first': map<string, Rcb>, now': map<string, Rcb>, cs': seq<CleanupAction>, given': set<Key>, own: Option<Address>)
    requires OthersSame(ref, now, cs, given, now', cs', given')
    requires forall r :: r != ref ==> (r in first <==> r in first') && (r in first ==> first'[r] == first[r])
    ensures forall r :: r != ref ==> (HeldAt(r, first, now, cs, given, own) <==> HeldAt(r, first', now', cs', given', own))
    ensures forall r :: r != ref ==> (ParamsAt(r, first, now, cs, given) <==> ParamsAt(r, first', now', cs', given'))
    ensures forall r :: r != ref ==> (InUndoOrder(ActionsOf(cs, r)) <==> InUndoOrder(ActionsOf(cs', r)))
  {
    hide Held, ParamsKept, ActionsOf;
    forall r | r != ref
      ensures LostOf(given, r) == LostOf(given', r)
    {
    }
  }

  /** `_set`: a write through the session's current association. */
  method Set(session: Session, ref: string, change: Change) returns (reply: Reply)
    requires ref in session.device.rcbs
    modifies session`link, session`writes, session.device`rcbs
    ensures OthersKept(session, ref)
    ensures match reply
            case Done => Effect(old(session.device.rcbs)[ref], change, session.device.rcbs[ref])
            case NotConnected => session.device.rcbs[ref] == old(session.device.rcbs)[ref]
            case _ => Written(old(session.device.rcbs)[ref], change, session.device.rcbs[ref])
    ensures reply == NotConnected <==> old(session.link) != Up
    ensures SentBetween(old(session.writes), session.writes, ref, IfConnected(reply, [change]))
    ensures Allowed(old(session.device.rcbs)[ref], change) && session.device.cooperative && old(session.link) == Up ==>
              session.link == Up && (reply == Done || (reply == Interrupted && session.interruptible))
  {
    if !session.Connected() {
      return NotConnected;
    }
    SentOne(session.writes, ref, change);
    reply := session.SetRcb(session.generation, ref, change, false);
  }

  /** Register the undo of a part of an RCB. */
  method Register(session: Session, a: CleanupAction)
    requires a.WellKeyed() && a.key.RcbKey? && session.Keyed()
    modifies session`cleanups
    ensures session.cleanups == Registered(old(session.cleanups), a) && session.Keyed()
    ensures OthersKept(session, a.key.ref)
    ensures ActionsOf(session.cleanups, a.key.ref) == Registered(ActionsOf(old(session.cleanups), a.key.ref), a)
  {
    hide KeyedOnce, ActionsOf;
    session.RegisterCleanup(a);
    RegisteredKeyedOnce(old(session.cleanups), a);
    forall r
      ensures ActionsOf(session.cleanups, r) == if a.Of(r) then Registered(ActionsOf(old(session.cleanups), r), a)
                                                else ActionsOf(old(session.cleanups), r)
    {
      ActionsOfRegistered(old(session.cleanups), a, r);
    }
  }

  /** What a subscription registers before it reserves an instance it read as `values`. */
  function ReservationUndos(ref: string, values: Rcb, via: nat): seq<CleanupAction> {
    if !values.buffered && !values.resv then [CleanupAction(RcbKey(ref, Reservation), ReleaseResv(via))]
    else if values.resvTms.Some? then [CleanupAction(RcbKey(ref, Reservation), ReleaseBrcb(values.resvTms == Some(-1)))]
    else []
  }

  function ParamsUndos(ref: string, values: Rcb, request: map<Param, int>, via: nat): seq<CleanupAction> {
    var changed := Changed(values.params, request);
    if changed == map[] then [] else [RestoreAction(ref, via, values.params, changed)]
  }

  function EnableUndo(ref: string, via: nat): CleanupAction {
    CleanupAction(RcbKey(ref, Enable), DisableReports(via))
  }

  /** All that a subscription registers, in the order in which it does. */
  function AllUndos(ref: string, values: Rcb, request: map<Param, int>, via: nat): (all: seq<CleanupAction>)
    ensures KeyedOnce(all) && InUndoOrder(all) && forall a :: a in all ==> a.Of(ref)
  {
    ReservationUndos(ref, values, via) + ParamsUndos(ref, values, request, via) + [EnableUndo(ref, via)]
  }

  /** Registering one list after another. */
  lemma {:induction false} RegisteredInTurn(cs: seq<CleanupAction>, some: seq<CleanupAction>, more: seq<CleanupAction>)
    ensures RegisteredAll(cs, some + more) == RegisteredAll(RegisteredAll(cs, some), more)
    decreases |some|
  {
    if some == [] {
      assert some + more == more;
    } else {
      assert (some + more)[1..] == some[1..] + more;
      RegisteredInTurn(Registered(cs, some[0]), some[1..], more);
    }
  }

  lemma RegisteredOne(cs: seq<CleanupAction>, a: CleanupAction)
    ensures RegisteredAll(cs, [a]) == Registered(cs, a)
  {
    assert [a][1..] == [];
    assert RegisteredAll(Registered(cs, a), []) == Registered(cs, a);
  }

  /** The writes of a subscription, in their order. */
  function ReservationWrites(values: Rcb): seq<Change> {
    if !values.buffered && !values.resv then [SetResv(true)] else []
  }

  function ParamsWrites(values: Rcb, request: map<Param, int>): seq<Change> {
    var changed := Changed(values.params, request);
    if changed == map[] then [] else [SetParams(changed)]
  }

  function PurgeWrites(values: Rcb, purge: bool): seq<Change> {
    if purge && values.buffered then [Trigger(true)] else []
  }

  function InterrogationWrites(values: Rcb, request: map<Param, int>, gi: bool): seq<Change> {
    if gi && GiWanted(values.params.With(request).trgOps) then [Trigger(false)] else []
  }

  function AllWrites(values: Rcb, request: map<Param, int>, purge: bool): seq<Change> {
    ReservationWrites(values) + ParamsWrites(values, request) + PurgeWrites(values, purge) + [SetRptEna(true)]
  }

  function AsWrites(ref: string, changes: seq<Change>): seq<RcbWrite> {
    seq(|changes|, i requires 0 <= i < |changes| => RcbWrite(ref, changes[i]))
  }

  /** These are the writes sent to `ref` from one moment to another. */
  predicate SentBetween(before: seq<RcbWrite>, after: seq<RcbWrite>, ref: string, sent: seq<Change>) {
    after == before + AsWrites(ref, sent)
  }

  lemma NothingSent(ref: string, writes: seq<RcbWrite>)
    ensures SentBetween(writes, writes, ref, [])
  {
  }

  lemma SentInTurn(before: seq<RcbWrite>, between: seq<RcbWrite>, after: seq<RcbWrite>, ref: string, some: seq<Change>, more: seq<Change>)
    requires SentBetween(before, between, ref, some) && SentBetween(between, after, ref, more)
    ensures SentBetween(before, after, ref, some + more)
  {
  }

  lemma SentOne(before: seq<RcbWrite>, ref: string, change: Change)
    ensures SentBetween(before, before + [RcbWrite(ref, change)], ref, [change])
  {
  }

  lemma SentIs(before: seq<RcbWrite>, after: seq<RcbWrite>, ref: string, sent: seq<Change>)
    requires SentBetween(before, after, ref, sent)
    ensures before + AsWrites(ref, sent) <= after
  {
  }

  /** What a step sent: nothing for want of an association. */
  function IfConnected(reply: Reply, changes: seq<Change>): seq<Change> {
    if reply == NotConnected then [] else changes
  }

  /** Step 1: reserve. The undo is registered before anything is written; enabling a buffered RCB with
      ResvTms is what reserves it. */
  method Reserve(session: Session, cb: ControlBlock, values: Rcb) returns (reply: Reply)
    requires session.Keyed() && cb.ref in session.device.rcbs && session.device.rcbs[cb.ref] == values && values.Free()
    modifies session`link, session`writes, session`cleanups, session.device`rcbs
    ensures OthersKept(session, cb.ref) && session.Keyed()
    ensures session.cleanups == RegisteredAll(old(session.cleanups), ReservationUndos(cb.ref, values, session.generation))
    ensures old(session.HeldFor(cb.ref)) ==> session.HeldFor(cb.ref)
    ensures session.ParamsFor(cb.ref) <==> old(session.ParamsFor(cb.ref))
    ensures values.resvTms.Some? ==> RcbKey(cb.ref, Reservation) in Keys(session.cleanups)
    ensures session.device.rcbs[cb.ref].params == values.params && !session.device.rcbs[cb.ref].rptEna
    ensures session.device.rcbs[cb.ref].resvTms == values.resvTms && session.device.rcbs[cb.ref].buffered == values.buffered
    ensures reply == Done && !values.buffered ==> session.device.rcbs[cb.ref].resv
    ensures SentBetween(old(session.writes), session.writes, cb.ref, IfConnected(reply, ReservationWrites(values)))
    ensures session.device.cooperative && old(session.link) == Up ==>
              session.link == Up && (reply == Done || (reply == Interrupted && session.interruptible))
  {
    hide Held, ParamsKept, HeldAt, ParamsAt, KeyedOnce, ActionsOf, Dropped, Keys, Registered, OthersSame, SentBetween;
    reply := Done;
    ghost var cs, ref := session.cleanups, cb.ref;
    NothingElse(ref, session.device.rcbs, cs, session.givenUp);
    NothingSent(ref, session.writes);
    if !values.buffered && !values.resv {
      var a := CleanupAction(RcbKey(cb.ref, Reservation), ReleaseResv(session.generation));
      Register(session, a);
      ghost var cs1, was := session.cleanups, session.device.rcbs;
      reply := Set(session, cb.ref, SetResv(true));
      OthersSameTwice(ref, was, cs, session.givenUp, was, cs1, session.givenUp, session.device.rcbs, session.cleanups, session.givenUp);
      RegisteredOne(cs, a);
      ReservationKeepsLaws(ref, session.first, old(session.device.rcbs), session.device.rcbs, cs, a, session.cleanups, session.givenUp, session.ownAddress);
    } else if values.resvTms.Some? {
      var a := CleanupAction(RcbKey(cb.ref, Reservation), ReleaseBrcb(values.resvTms == Some(-1)));
      Register(session, a);
      RegisteredOne(cs, a);
      ReservationKeepsLaws(ref, session.first, old(session.device.rcbs), session.device.rcbs, cs, a, session.cleanups, session.givenUp, session.ownAddress);
      assert RcbKey(ref, Reservation) in Keys(session.cleanups) by {
        KeyIsThere(cs, a);
      }
    }
  }

  lemma KeyIsThere(cs: seq<CleanupAction>, a: CleanupAction)
    ensures a.key in Keys(Registered(cs, a))
  {
    assert a in Registered(cs, a);
  }

  /** Registering the release of a free control block and reserving it. */
  lemma ReservationKeepsLaws(ref: string, first: map<string, Rcb>, before: map<string, Rcb>, after: map<string, Rcb>,
                             cs: seq<CleanupAction>, a: CleanupAction, cs': seq<CleanupAction>, given: set<Key>, own: Option<Address>)
    requires KeyedOnce(cs) && a.WellKeyed() && a.key == RcbKey(ref, Reservation) && cs' == Registered(cs, a)
    requires ref in before && before[ref].Free() && ref in after
    requires after[ref] == before[ref] || Written(before[ref], SetResv(true), after[ref])
    requires if a.undo.ReleaseResv? then !before[ref].buffered
             else after[ref] == before[ref] && before[ref].resvTms.Some? && a.undo == ReleaseBrcb(before[ref].resvTms == Some(-1))
    ensures HeldAt(ref, first, before, cs, given, own) ==> HeldAt(ref, first, after, cs', given, own)
    ensures ParamsAt(ref, first, before, cs, given) <==> ParamsAt(ref, first, after, cs', given)
  {
    hide ActionsOf, Dropped;
    var acts, lost := ActionsOf(cs, ref), LostOf(given, ref);
    ActionsOfRegistered(cs, a, ref);
    var acts' := Registered(acts, a);
    assert a in acts';
    if HeldAt(ref, first, before, cs, given, own) && first[ref].Free() {
      RegisterKeepsHeld(first[ref], before[ref], acts, a, lost, own);
      if after[ref] != before[ref] {
        assert Reservation in Parts(acts');
        WriteKeepsLaws(first[ref], before[ref], SetResv(true), after[ref], acts', lost, own);
      }
    }
    RegisteredKeyedOnce(cs, a);
    SameParamsLaw(ref, first, before, after, cs, cs', given);
  }

  /** Only the parameters, their undo and whether it was given up matter to their law. */
  lemma SameParamsLaw(ref: string, first: map<string, Rcb>, before: map<string, Rcb>, after: map<string, Rcb>,
                      cs: seq<CleanupAction>, cs': seq<CleanupAction>, given: set<Key>)
    requires ref in before && ref in after && after[ref].params == before[ref].params
    requires KeyedOnce(cs) && KeyedOnce(cs')
    requires forall x: CleanupAction :: x.key == RcbKey(ref, Parameters) ==> (x in cs <==> x in cs')
    ensures ParamsAt(ref, first, before, cs, given) <==> ParamsAt(ref, first, after, cs', given)
  {
    forall x: CleanupAction | x.For(Parameters) || x.undo.RestoreParams?
      ensures x in ActionsOf(cs, ref) <==> x in ActionsOf(cs', ref)
    {
      if x in ActionsOf(cs, ref) || x in ActionsOf(cs', ref) {
        assert x.WellKeyed() && x.Of(ref);
      }
    }
    if ref in first {
      OtherActions(first[ref].params, before[ref].params, ActionsOf(cs, ref), ActionsOf(cs', ref), LostOf(given, ref));
    }
  }

  /** Whether the values saved before are still there once `ref` was registered again. */
  ghost predicate Survives(session: Session, ref: string, values: Rcb, request: map<Param, int>)
    reads session`first, session`givenUp
  {
    ref in session.first && session.first[ref].Free() ==>
      MemorySurvives(session.first[ref].params, values.params, Changed(values.params, request), LostOf(session.givenUp, ref))
  }

  /** Step 2: parameters that differ from what was read. */
  method ChangeParams(session: Session, cb: ControlBlock, values: Rcb, request: map<Param, int>) returns (reply: Reply)
    requires session.Keyed() && cb.ref in session.device.rcbs
    requires session.device.rcbs[cb.ref].params == values.params && !session.device.rcbs[cb.ref].rptEna
    modifies session`link, session`writes, session`cleanups, session.device`rcbs
    ensures OthersKept(session, cb.ref) && session.Keyed()
    ensures session.cleanups == RegisteredAll(old(session.cleanups), ParamsUndos(cb.ref, values, request, session.generation))
    ensures forall k :: k in Keys(old(session.cleanups)) ==> k in Keys(session.cleanups)
    ensures old(session.HeldFor(cb.ref)) ==> session.HeldFor(cb.ref)
    ensures old(session.ParamsFor(cb.ref)) ==>
              (session.ParamsFor(cb.ref) <==> Changed(values.params, request) == map[] || Survives(session, cb.ref, values, request))
    ensures reply == Done ==> session.device.rcbs[cb.ref].params == values.params.With(request)
    ensures session.device.rcbs[cb.ref] == old(session.device.rcbs)[cb.ref].(params := session.device.rcbs[cb.ref].params)
    ensures SentBetween(old(session.writes), session.writes, cb.ref, IfConnected(reply, ParamsWrites(values, request)))
    ensures session.device.cooperative && old(session.link) == Up ==>
              session.link == Up && (reply == Done || (reply == Interrupted && session.interruptible))
  {
    hide Held, ParamsKept, HeldAt, ParamsAt, KeyedOnce, ActionsOf, Dropped, Registered, MemorySurvives, RestoreAction, OthersSame, SentBetween;
    reply := Done;
    ghost var cs := session.cleanups;
    NothingElse(cb.ref, session.device.rcbs, cs, session.givenUp);
    NothingSent(cb.ref, session.writes);
    var changed := Changed(values.params, request);
    if changed != map[] {
      var a := RestoreAction(cb.ref, session.generation, values.params, changed);
      RestoreActionIs(cb.ref, session.generation, values.params, changed);
      Register(session, a);
      ghost var cs1, was := session.cleanups, session.device.rcbs;
      reply := Set(session, cb.ref, SetParams(changed));
      OthersSameTwice(cb.ref, was, cs, session.givenUp, was, cs1, session.givenUp, session.device.rcbs, session.cleanups, session.givenUp);
      RegisteredOne(cs, a);
      KeysStay(cs, a);
      ParamsLawsAfter(cb.ref, session.generation, session.first, old(session.device.rcbs), session.device.rcbs, cs, session.cleanups,
                      changed, session.givenUp, session.ownAddress);
    }
    ChangedParams(old(session.device.rcbs)[cb.ref], values.params, request, session.device.rcbs[cb.ref], changed, reply);
  }

  lemma RestoreActionIs(ref: string, via: nat, current: ParamValues, changed: map<Param, int>)
    ensures var a := RestoreAction(ref, via, current, changed);
            a.WellKeyed() && a.key == RcbKey(ref, Parameters) && a.undo == RestoreParams(via, Originals(current, changed))
  {
  }

  lemma KeysStay(cs: seq<CleanupAction>, a: CleanupAction)
    ensures forall k :: k in Keys(cs) ==> k in Keys(Registered(cs, a))
  {
    forall x | x in cs
      ensures x.key in Keys(Registered(cs, a))
    {
      assert (if x.key == a.key then a else x) in Registered(cs, a);
    }
  }

  /** Registering the values read and writing the changes. */
  lemma ParamsLawsAfter(ref: string, via: nat, first: map<string, Rcb>, before: map<string, Rcb>, after: map<string, Rcb>,
                        cs: seq<CleanupAction>, cs': seq<CleanupAction>, changed: map<Param, int>, given: set<Key>, own: Option<Address>)
    requires KeyedOnce(cs) && ref in before && ref in after && !before[ref].rptEna && changed != map[]
    requires Written(before[ref], SetParams(changed), after[ref])
    requires cs' == Registered(cs, RestoreAction(ref, via, before[ref].params, changed))
    ensures HeldAt(ref, first, before, cs, given, own) ==> HeldAt(ref, first, after, cs', given, own)
    ensures ParamsAt(ref, first, before, cs, given) ==>
              ref in first && (ParamsAt(ref, first, after, cs', given) <==>
                 !first[ref].Free() || MemorySurvives(first[ref].params, before[ref].params, changed, LostOf(given, ref)))
  {
    hide ActionsOf, Held, ParamsKept, MemorySurvives;
    var a := RestoreAction(ref, via, before[ref].params, changed);
    var acts, lost := ActionsOf(cs, ref), LostOf(given, ref);
    ActionsOfRegistered(cs, a, ref);
    if HeldAt(ref, first, before, cs, given, own) && first[ref].Free() {
      RegisterKeepsHeld(first[ref], before[ref], acts, a, lost, own);
      WriteKeepsLaws(first[ref], before[ref], SetParams(changed), after[ref], Registered(acts, a), lost, own);
    }
    if ParamsAt(ref, first, before, cs, given) && first[ref].Free() {
      SecondRegistration(ref, via, first[ref].params, before[ref].params, changed, after[ref].params, acts, lost);
    }
  }

  lemma ChangedParams(before: Rcb, current: ParamValues, request: map<Param, int>, after: Rcb, changed: map<Param, int>, reply: Reply)
    requires changed == Changed(current, request) && before.params == current
    requires if changed == map[] then after == before
             else if reply == Done then Effect(before, SetParams(changed), after)
             else Written(before, SetParams(changed), after)
    ensures after == before.(params := after.params)
    ensures reply == Done || changed == map[] ==> after.params == current.With(request)
  {
  }

  /** Step 3: enable. */
  method EnableReports(session: Session, cb: ControlBlock, values: Rcb) returns (reply: Reply)
    requires session.Keyed() && cb.ref in session.device.rcbs && !session.device.rcbs[cb.ref].rptEna
    requires session.device.rcbs[cb.ref].resvTms.Some? ==> RcbKey(cb.ref, Reservation) in Keys(session.cleanups)
    modifies session`link, session`writes, session`cleanups, session.device`rcbs
    ensures OthersKept(session, cb.ref) && session.Keyed()
    ensures session.cleanups == Registered(old(session.cleanups), EnableUndo(cb.ref, session.generation))
    ensures old(session.HeldFor(cb.ref)) ==> session.HeldFor(cb.ref)
    ensures session.ParamsFor(cb.ref) <==> old(session.ParamsFor(cb.ref))
    ensures RcbKey(cb.ref, Enable) in Keys(session.cleanups)
    ensures session.device.rcbs[cb.ref].params == old(session.device.rcbs)[cb.ref].params
    ensures reply == Done ==> session.device.rcbs[cb.ref].rptEna
    ensures SentBetween(old(session.writes), session.writes, cb.ref, IfConnected(reply, [SetRptEna(true)]))
    ensures session.device.cooperative && old(session.link) == Up ==>
              session.link == Up && (reply == Done || (reply == Interrupted && session.interruptible))
  {
    hide Held, ParamsKept, HeldAt, ParamsAt, KeyedOnce, ActionsOf, Dropped, Registered, Keys, OthersSame, SentBetween;
    ghost var cs := session.cleanups;
    var a := EnableUndo(cb.ref, session.generation);
    Register(session, a);
    ghost var cs1, was := session.cleanups, session.device.rcbs;
    reply := Set(session, cb.ref, SetRptEna(true));
    OthersSameTwice(cb.ref, was, cs, session.givenUp, was, cs1, session.givenUp, session.device.rcbs, session.cleanups, session.givenUp);
    KeyIsThere(cs, a);
    EnablingKeepsLaws(cb.ref, session.generation, session.first, old(session.device.rcbs), session.device.rcbs, cs, session.cleanups,
                      session.givenUp, session.ownAddress);
  }

  /** Registering the disabling and enabling. */
  lemma EnablingKeepsLaws(ref: string, via: nat, first: map<string, Rcb>, before: map<string, Rcb>, after: map<string, Rcb>,
                          cs: seq<CleanupAction>, cs': seq<CleanupAction>, given: set<Key>, own: Option<Address>)
    requires KeyedOnce(cs) && ref in before && ref in after && cs' == Registered(cs, EnableUndo(ref, via))
    requires Written(before[ref], SetRptEna(true), after[ref])
    requires before[ref].resvTms.Some? ==> RcbKey(ref, Reservation) in Keys(cs)
    ensures HeldAt(ref, first, before, cs, given, own) ==> HeldAt(ref, first, after, cs', given, own)
    ensures ParamsAt(ref, first, before, cs, given) <==> ParamsAt(ref, first, after, cs', given)
  {
    hide ActionsOf, Dropped;
    var a := EnableUndo(ref, via);
    var acts, lost := ActionsOf(cs, ref), LostOf(given, ref);
    ActionsOfRegistered(cs, a, ref);
    var acts' := Registered(acts, a);
    if HeldAt(ref, first, before, cs, given, own) && first[ref].Free() {
      RegisterKeepsHeld(first[ref], before[ref], acts, a, lost, own);
      if before[ref].resvTms.Some? {
        var x :| x in cs && x.key == RcbKey(ref, Reservation);
        assert x in acts && x in acts' && Reservation in Parts(acts');
      }
      assert EndsWithEnable(acts');
      WriteKeepsLaws(first[ref], before[ref], SetRptEna(true), after[ref], acts', lost, own);
    }
    RegisteredKeyedOnce(cs, a);
    SameParamsLaw(ref, first, before, after, cs, cs', given);
  }

  // ---------------------------------------------------------------- unsubscribing

  /** Drop an action and undo it; `raised` when its `NotConnectedError` goes through to the caller. */
  method StopPart(session: Session, ref: string, part: Part) returns (note: Option<Note>, raised: bool)
    requires session.Keyed()
    modifies session`link, session`writes, session`cleanups, session`givenUp, session.device`rcbs, session.device`sgcbs
    ensures OthersKept(session, ref) && session.Keyed()
    ensures session.cleanups == Dropped(old(session.cleanups), RcbKey(ref, part))
    ensures old(session.writes) <= session.writes
    ensures raised ==> exists a :: a in old(session.cleanups) && a.key == RcbKey(ref, part) && !Via(a, session.generation)
    ensures note.Some? ==> note.value.key == RcbKey(ref, part)
    ensures note.Some? || raised <==> RcbKey(ref, part) in Keys(old(session.cleanups))
    ensures session.givenUp == if raised || (note.Some? && !Session.Succeeded(note.value)) then old(session.givenUp) + {RcbKey(ref, part)}
                               else old(session.givenUp)
    ensures forall r :: old(session.HeldFor(r)) ==> session.HeldFor(r)
    ensures forall r :: old(session.ParamsFor(r)) ==> session.ParamsFor(r)
    // an undo that went well put the saved parameters back, and the other two do not touch them
    ensures ref in session.device.rcbs && part != Parameters ==>
              session.device.rcbs[ref].params == old(session.device.rcbs)[ref].params
              && (part != Enable ==> session.device.rcbs[ref].rptEna == old(session.device.rcbs)[ref].rptEna)
    ensures forall a :: ref in session.device.rcbs && a in old(session.cleanups) && a.key == RcbKey(ref, Parameters)
                        && part == Parameters && a.key !in session.givenUp ==>
              a.undo.RestoreParams?
              && session.device.rcbs[ref] == old(session.device.rcbs)[ref].(params := old(session.device.rcbs)[ref].params.With(a.undo.originals))
    ensures ref in session.device.rcbs && part == Parameters ==> session.device.rcbs[ref].rptEna == old(session.device.rcbs)[ref].rptEna
    ensures ref in session.device.rcbs && (forall a :: a in old(session.cleanups) ==> a.key != RcbKey(ref, part)) ==>
              !raised && session.device.rcbs[ref] == old(session.device.rcbs)[ref] && session.givenUp == old(session.givenUp)
    ensures old(session.Clean(ref)) && (part != Enable ==> RcbKey(ref, Enable) !in Keys(old(session.cleanups))) ==>
              !raised && session.Clean(ref)
  {
    hide Held, ParamsKept, HeldAt, ParamsAt, KeyedOnce, ActionsOf, Dropped, Via, Session.Succeeded, Effect, Leftover, Allowed, UndoStep;
    ghost var cs, was, up := session.cleanups, session.device.rcbs, session.givenUp;
    var key := RcbKey(ref, part);
    var action := FirstWithKey(session.cleanups, key);
    session.DropCleanup(key);
    DroppedKeyedOnce(cs, key);
    DroppedActions(cs, key);
    if action.None? {
      DroppedAbsent(cs, key);
      return None, false;
    }
    var a := action.value;
    OnlyOne(cs, a);
    FitsItsKey(cs, a);
    if old(session.Clean(ref)) && (part != Enable ==> RcbKey(ref, Enable) !in Keys(cs)) {
      PartMayBeUndone(ref, session.first, cs, was, up, session.ownAddress, a);
    }
    if !session.Connected() {
      session.givenUp := session.givenUp + {key};
      NothingUndone(a, was, session.device.sgcbs, session.ownAddress);
      forall r
        ensures HeldAt(r, session.first, was, cs, up, session.ownAddress) ==> session.HeldFor(r)
        ensures ParamsAt(r, session.first, was, cs, up) ==> session.ParamsFor(r)
      {
        UndoStepKeepsLaws(r, session.first, was, was, a, cs, up, Disconnected, session.ownAddress);
      }
      FailedNote(key, Disconnected);
      return Some(Note(key, Disconnected)), false;
    }
    var outcome := session.RunUndo(a, cs);
    UndoTouches(a, was, session.device.rcbs, outcome, session.ownAddress);
    FailedNote(key, outcome);
    if outcome == Disconnected {
      return None, true;
    }
    note, raised := Some(Note(key, outcome)), false;
  }

  lemma FailedNote(key: Key, outcome: UndoOutcome)
    ensures Session.Succeeded(Note(key, outcome)) <==> outcome == Undone || outcome == LeftAlone
  {
  }

  lemma DroppedActions(cs: seq<CleanupAction>, key: Key)
    requires key.RcbKey?
    ensures forall r :: r != key.ref ==> ActionsOf(Dropped(cs, key), r) == ActionsOf(cs, r)
  {
    forall r | r != key.ref
      ensures ActionsOf(Dropped(cs, key), r) == ActionsOf(cs, r)
    {
      ActionsOfDropped(cs, key, r);
    }
  }

  lemma OnlyOne(cs: seq<CleanupAction>, a: CleanupAction)
    requires KeyedOnce(cs) && a in cs
    ensures forall x :: x in cs && x.key == a.key ==> x == a
  {
  }

  /** An undo touches only its own part of its control block. */
  lemma UndoTouches(a: CleanupAction, before: map<string, Rcb>, after: map<string, Rcb>, outcome: UndoOutcome, own: Option<Address>)
    requires a.WellKeyed() && a.key.RcbKey? && UndoStep(a, before, after, outcome, own)
    ensures after.Keys == before.Keys && forall r :: r in before && r != a.key.ref ==> after[r] == before[r]
    ensures a.key.ref in after && !a.For(Parameters) ==> after[a.key.ref].params == before[a.key.ref].params
    ensures a.key.ref in after && !a.For(Enable) ==> after[a.key.ref].rptEna == before[a.key.ref].rptEna
    ensures a.key.ref in after && a.For(Parameters) && (outcome == Undone || outcome == LeftAlone) ==>
              a.undo.RestoreParams?
              && after[a.key.ref] == before[a.key.ref].(params := before[a.key.ref].params.With(a.undo.originals))
  {
  }

  method FirstWithKey(cs: seq<CleanupAction>, key: Key) returns (a: Option<CleanupAction>)
    ensures a.None? ==> forall x :: x in cs ==> x.key != key
    ensures a.Some? ==> a.value in cs && a.value.key == key
  {
    for i := 0 to |cs|
      invariant forall k :: 0 <= k < i ==> cs[k].key != key
    {
      if cs[i].key == key {
        return Some(cs[i]);
      }
    }
    a := None;
  }

  /** Of a clean RCB, the enabling, and once that is undone the rest, is something the device carries out. */
  lemma PartMayBeUndone(ref: string, first: map<string, Rcb>, cs: seq<CleanupAction>, now: map<string, Rcb>, givenUp: set<Key>,
                        own: Option<Address>, a: CleanupAction)
    requires KeyedOnce(cs) && a in cs && a.Of(ref) && HeldAt(ref, first, now, cs, givenUp, own) && first[ref].Free()
    requires forall part :: RcbKey(ref, part) !in givenUp
    requires !a.For(Enable) ==> RcbKey(ref, Enable) !in Keys(cs)
    ensures ref in now && Allowed(now[ref], UndoChange(a.undo)) && (a.undo.ReleaseBrcb? ==> !a.undo.byConfiguration)
  {
    var acts := ActionsOf(cs, ref);
    assert LostOf(givenUp, ref) == {} && a.WellKeyed();
    if EndsWithEnable(acts) {
      var last := acts[|acts| - 1];
      assert last in acts && last in cs && last.Of(ref);
      assert last.key == RcbKey(ref, Enable);
    }
  }

  /** Order matters: most devices refuse parameter changes while RptEna is true. */
  const STOP_ORDER: seq<Part> := [Enable, Parameters, Reservation]

  function NoteKeys(notes: seq<Note>): seq<Key> {
    if notes == [] then [] else NoteKeys(notes[..|notes| - 1]) + [notes[|notes| - 1].key]
  }

  /** The keys among the first parts to stop that are registered. */
  function KeysToStop(cs: seq<CleanupAction>, ref: string, n: nat): seq<Key>
    requires n <= |STOP_ORDER|
  {
    if n == 0 then []
    else
      var key := RcbKey(ref, STOP_ORDER[n - 1]);
      KeysToStop(cs, ref, n - 1) + if key in Keys(cs) then [key] else []
  }

  lemma MoreNotes(notes: seq<Note>, note: Note)
    ensures NoteKeys(notes + [note]) == NoteKeys(notes) + [note.key]
  {
    assert (notes + [note])[..|notes|] == notes;
  }

  /** The keys of the first parts to stop. */
  function Gone(ref: string, n: nat): set<Key>
    requires n <= |STOP_ORDER|
  {
    set k | 0 <= k < n :: RcbKey(ref, STOP_ORDER[k])
  }

  lemma NothingGone(cs: seq<CleanupAction>, ref: string)
    ensures Keys(cs) == Keys(cs) - Gone(ref, 0) && NoteKeys([]) == KeysToStop(cs, ref, 0)
  {
  }

  lemma NextKey(start: seq<CleanupAction>, cs: seq<CleanupAction>, ref: string, i: nat)
    requires i < |STOP_ORDER| && Keys(cs) == Keys(start) - Gone(ref, i)
    ensures var key := RcbKey(ref, STOP_ORDER[i]);
            && KeysToStop(start, ref, i + 1) == KeysToStop(start, ref, i) + (if key in Keys(cs) then [key] else [])
            && Keys(Dropped(cs, key)) == Keys(start) - Gone(ref, i + 1)
  {
    assert STOP_ORDER[0] == Enable && STOP_ORDER[1] == Parameters && STOP_ORDER[2] == Reservation;
    assert Gone(ref, i + 1) == Gone(ref, i) + {RcbKey(ref, STOP_ORDER[i])};
    assert Keys(Dropped(cs, RcbKey(ref, STOP_ORDER[i]))) == Keys(cs) - {RcbKey(ref, STOP_ORDER[i])};
  }

  lemma GoneMeans(start: seq<CleanupAction>, cs: seq<CleanupAction>, ref: string, n: nat)
    requires n <= |STOP_ORDER| && Keys(cs) == Keys(start) - Gone(ref, n)
    ensures forall j :: 0 <= j < n ==> RcbKey(ref, STOP_ORDER[j]) !in Keys(cs)
  {
  }

  /** `Subscription.stop`: undo everything done for the subscription to `ref`. */
  method Stop(session: Session, ref: string) returns (notes: seq<Note>, raised: Option<Key>)
    requires session.Keyed()
    modifies session`link, session`writes, session`cleanups, session`givenUp, session`subscriptions, session.device`rcbs, session.device`sgcbs
    ensures OthersKept(session, ref) && EditsKept(session) && session.Keyed() && old(session.writes) <= session.writes
    ensures raised.None? ==> ActionsOf(session.cleanups, ref) == [] && session.subscriptions == old(session.subscriptions) - {ref}
    // one note an undo, in the order of the undos
    ensures raised.None? ==> NoteKeys(notes) == KeysToStop(old(session.cleanups), ref, |STOP_ORDER|)
    // what was given up was reported, but for the key whose error went through
    ensures forall k :: k in session.givenUp <==> k in old(session.givenUp) || Session.Reported(notes, k) || raised == Some(k)
    ensures raised.Some? ==> exists a :: a in old(session.cleanups) && a.Of(ref) && a.key == raised.value && !Via(a, session.generation)
    ensures raised.Some? ==> forall a :: a in session.cleanups && a.Of(ref) ==> Rank(a.key.part) < Rank(raised.value.part)
    ensures forall r :: old(session.HeldFor(r)) ==> session.HeldFor(r)
    ensures forall r :: old(session.ParamsFor(r)) ==> session.ParamsFor(r)
    ensures forall r :: old(session.InOrderFor(r)) ==> session.InOrderFor(r)
    ensures forall a :: a in session.cleanups ==> a in old(session.cleanups)
    // saved parameters whose undo is gone and not given up are on the device again
    ensures PutBack(ref, old(session.cleanups), old(session.device.rcbs), session.cleanups, session.device.rcbs, session.givenUp)
    ensures ref in session.device.rcbs && RcbKey(ref, Enable) !in Keys(old(session.cleanups)) ==>
              session.device.rcbs[ref].rptEna == old(session.device.rcbs)[ref].rptEna
    ensures old(session.Clean(ref)) ==> raised == None && session.Clean(ref) && session.Restored(ref)
  {
    hide HeldAt, ParamsAt, KeyedOnce, ActionsOf, InUndoOrder, Session.Reported, Session.Clean, Session.Restored, Via, PutBack, OthersSame, EditDone;
    notes, raised := StopParts(session, ref);
    EditsAreOthers(ref, session.device.sgcbs, old(session.device.rcbs), old(session.cleanups), old(session.givenUp),
                   session.device.rcbs, session.cleanups, session.givenUp);
    if raised.None? {
      session.subscriptions := session.subscriptions - {ref};
      if session.Clean(ref) {
        session.CleanIsRestored(ref);
      }
    }
  }

  method StopParts(session: Session, ref: string) returns (notes: seq<Note>, raised: Option<Key>)
    requires session.Keyed()
    modifies session`link, session`writes, session`cleanups, session`givenUp, session.device`rcbs, session.device`sgcbs
    ensures OthersKept(session, ref) && session.Keyed() && old(session.writes) <= session.writes
    ensures raised.None? ==> ActionsOf(session.cleanups, ref) == []
    ensures raised.None? ==> NoteKeys(notes) == KeysToStop(old(session.cleanups), ref, |STOP_ORDER|)
    ensures forall k :: k in session.givenUp <==> k in old(session.givenUp) || Session.Reported(notes, k) || raised == Some(k)
    ensures raised.Some? ==> exists a :: a in old(session.cleanups) && a.Of(ref) && a.key == raised.value && !Via(a, session.generation)
    ensures raised.Some? ==> forall a :: a in session.cleanups && a.Of(ref) ==> Rank(a.key.part) < Rank(raised.value.part)
    ensures forall r :: old(session.HeldFor(r)) ==> session.HeldFor(r)
    ensures forall r :: old(session.ParamsFor(r)) ==> session.ParamsFor(r)
    ensures forall r :: old(session.InOrderFor(r)) ==> session.InOrderFor(r)
    ensures forall a :: a in session.cleanups ==> a in old(session.cleanups)
    ensures PutBack(ref, old(session.cleanups), old(session.device.rcbs), session.cleanups, session.device.rcbs, session.givenUp)
    ensures ref in session.device.rcbs && RcbKey(ref, Enable) !in Keys(old(session.cleanups)) ==>
              session.device.rcbs[ref].rptEna == old(session.device.rcbs)[ref].rptEna
    ensures old(session.Clean(ref)) ==> raised == None && session.Clean(ref)
  {
    hide HeldAt, ParamsAt, KeyedOnce, ActionsOf, Dropped, InUndoOrder, Session.Reported, Session.Succeeded, Session.Clean, Via, PutBack, OthersSame, Gone, KeysToStop, NoteKeys;
    notes, raised := [], None;
    Session.NoneReported();
    NothingElse(ref, session.device.rcbs, session.cleanups, session.givenUp);
    NothingGone(session.cleanups, ref);
    NothingPutBackYet(ref, session.cleanups, session.device.rcbs, session.givenUp);
    for i := 0 to |STOP_ORDER|
      invariant OthersKept(session, ref) && session.Keyed() && old(session.writes) <= session.writes
      invariant forall a :: a in session.cleanups ==> a in old(session.cleanups)
      invariant Keys(session.cleanups) == Keys(old(session.cleanups)) - Gone(ref, i)
      invariant NoteKeys(notes) == KeysToStop(old(session.cleanups), ref, i)
      invariant forall k :: k in session.givenUp <==> k in old(session.givenUp) || Session.Reported(notes, k)
      invariant forall r :: old(session.HeldFor(r)) ==> session.HeldFor(r)
      invariant forall r :: old(session.ParamsFor(r)) ==> session.ParamsFor(r)
      invariant forall r :: old(session.InOrderFor(r)) ==> session.InOrderFor(r)
      invariant ref in session.device.rcbs && i <= 1 ==> session.device.rcbs[ref].params == old(session.device.rcbs)[ref].params
      invariant i <= 1 ==> forall a :: a in old(session.cleanups) && a.key == RcbKey(ref, Parameters) ==> a in session.cleanups
      invariant PutBack(ref, old(session.cleanups), old(session.device.rcbs), session.cleanups, session.device.rcbs, session.givenUp)
      invariant ref in session.device.rcbs && RcbKey(ref, Enable) !in Keys(old(session.cleanups)) ==>
                  session.device.rcbs[ref].rptEna == old(session.device.rcbs)[ref].rptEna
      invariant old(session.Clean(ref)) ==> session.Clean(ref)
    {
      ghost var cs, was, up := session.cleanups, session.device.rcbs, session.givenUp;
      assert STOP_ORDER[0] == Enable && STOP_ORDER[1] == Parameters && STOP_ORDER[2] == Reservation;
      GoneMeans(old(session.cleanups), session.cleanups, ref, i);
      var note, fails := StopPart(session, ref, STOP_ORDER[i]);
      NextKey(old(session.cleanups), cs, ref, i);
      DroppedKeepsOrder(cs, RcbKey(ref, STOP_ORDER[i]));
      OthersSameTwice(ref, old(session.device.rcbs), old(session.cleanups), old(session.givenUp), was, cs, up,
                      session.device.rcbs, session.cleanups, session.givenUp);
      StillPutBack(ref, old(session.cleanups), old(session.device.rcbs), cs, was, up, STOP_ORDER[i],
                   session.cleanups, session.device.rcbs, session.givenUp);
      if fails {
        GoneMeans(old(session.cleanups), session.cleanups, ref, i + 1);
        LaterPartsGone(session.cleanups, ref, i);
        return notes, Some(RcbKey(ref, STOP_ORDER[i]));
      }
      if note.Some? {
        Session.MoreReported(notes, note.value);
        MoreNotes(notes, note.value);
        notes := notes + [note.value];
      }
    }
    GoneMeans(old(session.cleanups), session.cleanups, ref, |STOP_ORDER|);
    NoPartsLeft(session.cleanups, ref);
  }

  lemma NothingPutBackYet(ref: string, cs: seq<CleanupAction>, now: map<string, Rcb>, given: set<Key>)
    ensures PutBack(ref, cs, now, cs, now, given)
  {
  }

  /** The parts come one after the other; only one of them is the parameters. */
  lemma StillPutBack(ref: string, start: seq<CleanupAction>, before: map<string, Rcb>,
                     cs: seq<CleanupAction>, was: map<string, Rcb>, up: set<Key>, part: Part,
                     cs': seq<CleanupAction>, now: map<string, Rcb>, given: set<Key>)
    requires cs' == Dropped(cs, RcbKey(ref, part)) && up <= given && now.Keys == was.Keys == before.Keys
    requires part != Parameters && ref in was ==> now[ref].params == was[ref].params
    requires part == Parameters ==>
               && (ref in was ==> was[ref].params == before[ref].params)
               && (forall a :: a in start && a.key == RcbKey(ref, Parameters) ==> a in cs)
               && (forall a :: ref in was && a in cs && a.key == RcbKey(ref, Parameters) && a.key !in given ==>
                     a.undo.RestoreParams? && now[ref] == was[ref].(params := was[ref].params.With(a.undo.originals)))
    requires PutBack(ref, start, before, cs, was, up)
    ensures PutBack(ref, start, before, cs', now, given)
  {
  }

  /** The parameters whose undo left the registry without being given up were written back. */
  predicate PutBack(ref: string, before: seq<CleanupAction>, was: map<string, Rcb>,
                    cs: seq<CleanupAction>, now: map<string, Rcb>, given: set<Key>)
  {
    forall a :: a in before && a.key == RcbKey(ref, Parameters) && a !in cs && a.key !in given && ref in was && ref in now ==>
      a.undo.RestoreParams? && now[ref].params == was[ref].params.With(a.undo.originals)
  }

  lemma LaterPartsGone(cs: seq<CleanupAction>, ref: string, i: nat)
    requires i < |STOP_ORDER| && forall j :: 0 <= j <= i ==> RcbKey(ref, STOP_ORDER[j]) !in Keys(cs)
    ensures forall a :: a in cs && a.Of(ref) ==> Rank(a.key.part) < Rank(STOP_ORDER[i])
  {
    assert STOP_ORDER[0] == Enable && STOP_ORDER[1] == Parameters && STOP_ORDER[2] == Reservation;
    forall a | a in cs && a.Of(ref)
      ensures Rank(a.key.part) < Rank(STOP_ORDER[i])
    {
      assert a.key in Keys(cs) && a.key == RcbKey(ref, a.key.part);
    }
  }

  lemma NoPartsLeft(cs: seq<CleanupAction>, ref: string)
    requires forall j :: 0 <= j < |STOP_ORDER| ==> RcbKey(ref, STOP_ORDER[j]) !in Keys(cs)
    ensures ActionsOf(cs, ref) == []
  {
    assert STOP_ORDER[0] == Enable && STOP_ORDER[1] == Parameters && STOP_ORDER[2] == Reservation;
    assert ActionsOf(cs, ref) == [] || ActionsOf(cs, ref)[0] in ActionsOf(cs, ref);
    LaterPartsGone(cs, ref, 2);
    assert STOP_ORDER[2] == Reservation;
    assert forall a :: a in cs ==> !a.Of(ref);
  }

  lemma DroppedKeepsOrder(cs: seq<CleanupAction>, key: Key)
    ensures forall r :: InUndoOrder(ActionsOf(cs, r)) ==> InUndoOrder(ActionsOf(Dropped(cs, key), r))
  {
    forall r | InUndoOrder(ActionsOf(cs, r))
      ensures InUndoOrder(ActionsOf(Dropped(cs, key), r))
    {
      ActionsOfDropped(cs, key, r);
      DroppedInOrder(ActionsOf(cs, r), key);
    }
  }

  // ---------------------------------------------------------------- subscribing

  /** The general-interrogation bit of TrgOps. */
  predicate GiWanted(trgOps: int) {
    trgOps / 16 % 2 == 1
  }

  /** It is the bit of weight 16, whatever the bits above and below it. */
  lemma GiBit(above: nat, wanted: bool, below: nat)
    requires below < 16
    ensures GiWanted(above * 32 + (if wanted then 16 else 0) + below) == wanted
  {
  }

  /** PurgeBuf and GI change no attribute. */
  method SetTrigger(session: Session, ref: string, purge: bool) returns (reply: Reply)
    requires ref in session.device.rcbs
    modifies session`link, session`writes, session.device`rcbs
    ensures session.device.rcbs == old(session.device.rcbs)
    ensures session.link == old(session.link) || (old(session.link) == Up && session.link == Lost)
    ensures SentBetween(old(session.writes), session.writes, ref, IfConnected(reply, [Trigger(purge)]))
    ensures session.device.cooperative && old(session.link) == Up ==>
              session.link == Up && (reply == Done || (reply == Interrupted && session.interruptible))
  {
    reply := Set(session, ref, Trigger(purge));
    assert session.device.rcbs[ref] == old(session.device.rcbs)[ref];
  }

  /** Disabled, unreserved, owned by no other client and assigned to no other client. */
  predicate NobodyElses(session: Session, cb: ControlBlock, values: Rcb, named: set<Address>, me: Option<string>) {
    && values.Free()
    && (values.owner.Some? ==> session.IsOwn(values.owner) && values.owner.value !in named)
    && forall c :: c in cb.clients ==> me == Some(c)
  }

  /** The first free instance and the values read from it. */
  method Choose(session: Session, cbs: seq<ControlBlock>, named: set<Address>, me: Option<string>)
    returns (chosen: Option<(ControlBlock, Rcb)>)
    modifies session`link
    ensures chosen.Some? ==>
              && chosen.value.0.ref in session.device.rcbs && session.device.rcbs[chosen.value.0.ref] == chosen.value.1
              && NobodyElses(session, chosen.value.0, chosen.value.1, named, me)
    // it is the first that may be taken: when all can be read, none before it, or none at all, may be
    ensures chosen.Some? ==> exists i :: 0 <= i < |cbs| && cbs[i] == chosen.value.0
                                         && (old(session.link) == Up && session.device.cooperative ==>
                                               NoneToTake(session, cbs[..i], session.device.rcbs, named, me))
    ensures chosen.None? && old(session.link) == Up && session.device.cooperative ==>
              NoneToTake(session, cbs, session.device.rcbs, named, me)
    ensures session.device.cooperative ==> session.link == old(session.link)
    ensures session.link == old(session.link) || (old(session.link) == Up && session.link == Lost)
  {
    var sts := ReadStatuses(session, cbs, named);
    var st := FirstFree(sts, me);
    forall i | 0 <= i < |cbs| && sts[i].values.Some?
      ensures IsFree(sts[i], me) <==> NobodyElses(session, cbs[i], sts[i].values.value, named, me)
    {
      assert forall c :: c in cbs[i].clients ==> exists k :: 0 <= k < |cbs[i].clients| && cbs[i].clients[k] == c;
    }
    if st.None? {
      return None;
    }
    chosen := Some((st.value.cb, st.value.values.value));
    ghost var i :| 0 <= i < |sts| && st.value == sts[i] && IsFree(sts[i], me) && forall k :: 0 <= k < i ==> !IsFree(sts[k], me);
    assert cbs[i] == chosen.value.0;
    if old(session.link) == Up && session.device.cooperative {
      assert NoneToTake(session, cbs[..i], session.device.rcbs, named, me);
    }
  }

  /** None of these instances that are on the device may be taken. */
  predicate NoneToTake(session: Session, cbs: seq<ControlBlock>, now: map<string, Rcb>, named: set<Address>, me: Option<string>) {
    forall i :: 0 <= i < |cbs| && cbs[i].ref in now ==> !NobodyElses(session, cbs[i], now[cbs[i].ref], named, me)
  }

  /** What a subscription did with the instance it took: the values it read, what was
      registered for the instance before (`leftover`) and by it, and, when RptEna was refused (`undone`), the
      notes of the undo, which nobody is shown, and the key whose error went through. */
  datatype Taking = Taking(ref: string, values: Rcb, request: map<Param, int>, leftover: seq<CleanupAction>,
                           first: Rcb, lost: set<Part>, registered: seq<CleanupAction>, undone: bool,
                           dropped: seq<Note>, raised: Option<Key>, lostAfter: set<Part>)
  {
    /** What was first read of the parameters can still be put back, or was given up. */
    predicate ParamsSurvive() {
      || !first.Free()
      || Parameters !in Parts(registered)
      || MemorySurvives(first.params, values.params, Changed(values.params, request), lost)
      || (undone && Parameters in lostAfter)
    }

    /** The undos are still in their order. */
    predicate OrderSurvives() {
      undone || Registry.OrderSurvives(leftover, registered)
    }
  }

  /** Steps 1 and 2: reserve, then change the parameters. */
  method ReserveAndChange(session: Session, cb: ControlBlock, values: Rcb, request: map<Param, int>)
    returns (reply: Reply, ghost made: seq<CleanupAction>, ghost sent: seq<Change>)
    requires session.Keyed() && cb.ref in session.device.rcbs && session.device.rcbs[cb.ref] == values && values.Free()
    modifies session`link, session`writes, session`cleanups, session.device`rcbs
    ensures OthersKept(session, cb.ref) && session.Keyed()
    ensures var first, second := ReservationUndos(cb.ref, values, session.generation), ParamsUndos(cb.ref, values, request, session.generation);
            (made == first || made == first + second) && (reply == Done ==> made == first + second)
    ensures session.cleanups == RegisteredAll(old(session.cleanups), made)
    ensures old(session.HeldFor(cb.ref)) ==> session.HeldFor(cb.ref)
    ensures old(session.ParamsFor(cb.ref)) ==>
              (session.ParamsFor(cb.ref) <==> Parameters !in Parts(made) || Survives(session, cb.ref, values, request))
    ensures session.device.rcbs[cb.ref].resvTms.Some? ==> RcbKey(cb.ref, Reservation) in Keys(session.cleanups)
    ensures !session.device.rcbs[cb.ref].rptEna
    ensures reply == Done ==> session.device.rcbs[cb.ref].params == values.params.With(request)
    ensures var all := ReservationWrites(values) + ParamsWrites(values, request);
            && sent <= all && (reply == Done ==> sent == all)
            && SentBetween(old(session.writes), session.writes, cb.ref, sent)
    ensures session.device.cooperative && old(session.link) == Up ==>
              session.link == Up && (reply == Done || (reply == Interrupted && session.interruptible))
  {
    hide Effect, Leftover, Keys, HeldAt, ParamsAt, Survives, ReservationUndos, ParamsUndos, RegisteredAll, Rcb.Free, KeyedOnce, Parts, OthersSame,
         ReservationWrites, ParamsWrites, SentBetween, Allowed;
    ghost var r, p, w0 := ReservationWrites(values), ParamsWrites(values, request), session.writes;
    ghost var cs, was := session.cleanups, session.device.rcbs;
    ghost var first, second := ReservationUndos(cb.ref, values, session.generation), ParamsUndos(cb.ref, values, request, session.generation);
    PartsRegistered(cb.ref, values, request, session.generation);
    made := first;
    reply := Reserve(session, cb, values);
    sent := IfConnected(reply, r);
    if reply != Done {
      return;
    }
    RegisteredInTurn(cs, first, second);
    made := first + second;
    ghost var cs1, now1, w1 := session.cleanups, session.device.rcbs, session.writes;
    reply := ChangeParams(session, cb, values, request);
    OthersSameTwice(cb.ref, was, cs, session.givenUp, now1, cs1, session.givenUp, session.device.rcbs, session.cleanups, session.givenUp);
    SentInTurn(w0, w1, session.writes, cb.ref, r, IfConnected(reply, p));
    sent := r + IfConnected(reply, p);
  }

  /** The same, and purge the buffer where that is asked for. */
  method Prepare(session: Session, cb: ControlBlock, values: Rcb, request: map<Param, int>, purge: bool)
    returns (reply: Reply, ghost made: seq<CleanupAction>, ghost sent: seq<Change>)
    requires session.Keyed() && cb.ref in session.device.rcbs && session.device.rcbs[cb.ref] == values && values.Free()
    modifies session`link, session`writes, session`cleanups, session.device`rcbs
    ensures OthersKept(session, cb.ref) && session.Keyed()
    ensures var first, second := ReservationUndos(cb.ref, values, session.generation), ParamsUndos(cb.ref, values, request, session.generation);
            (made == first || made == first + second) && (reply == Done ==> made == first + second)
    ensures session.cleanups == RegisteredAll(old(session.cleanups), made)
    ensures old(session.HeldFor(cb.ref)) ==> session.HeldFor(cb.ref)
    ensures old(session.ParamsFor(cb.ref)) ==>
              (session.ParamsFor(cb.ref) <==> Parameters !in Parts(made) || Survives(session, cb.ref, values, request))
    ensures session.device.rcbs[cb.ref].resvTms.Some? ==> RcbKey(cb.ref, Reservation) in Keys(session.cleanups)
    ensures !session.device.rcbs[cb.ref].rptEna
    ensures reply == Done ==> session.device.rcbs[cb.ref].params == values.params.With(request)
    ensures var all := ReservationWrites(values) + ParamsWrites(values, request) + PurgeWrites(values, purge);
            && sent <= all && (reply == Done ==> sent == all)
            && SentBetween(old(session.writes), session.writes, cb.ref, sent)
    ensures session.device.cooperative && old(session.link) == Up ==>
              session.link == Up && (reply == Done || (reply == Interrupted && session.interruptible))
  {
    hide Effect, Leftover, Keys, HeldAt, ParamsAt, Survives, ReservationUndos, ParamsUndos, RegisteredAll, Rcb.Free, KeyedOnce, Parts, OthersSame,
         ReservationWrites, ParamsWrites, SentBetween, Allowed;
    ghost var w0 := session.writes;
    reply, made, sent := ReserveAndChange(session, cb, values, request);
    if reply == Done && purge && values.buffered {
      ghost var w1, some := session.writes, sent;
      reply := SetTrigger(session, cb.ref, true);
      SentInTurn(w0, w1, session.writes, cb.ref, some, IfConnected(reply, [Trigger(true)]));
      sent := some + IfConnected(reply, [Trigger(true)]);
    }
  }

  /** The parameters are among what is registered exactly when one is to be changed. */
  lemma PartsRegistered(ref: string, values: Rcb, request: map<Param, int>, via: nat)
    ensures var first, second := ReservationUndos(ref, values, via), ParamsUndos(ref, values, request, via);
            && Parameters !in Parts(first)
            && (Parameters in Parts(first + second) <==> Changed(values.params, request) != map[])
            && (Parameters in Parts(AllUndos(ref, values, request, via)) <==> Changed(values.params, request) != map[])
            && AllUndos(ref, values, request, via) == first + second + [EnableUndo(ref, via)]
            && first <= AllUndos(ref, values, request, via) && first + second <= AllUndos(ref, values, request, via)
  {
    var first, second := ReservationUndos(ref, values, via), ParamsUndos(ref, values, request, via);
    if Changed(values.params, request) != map[] {
      assert second[0] in first + second && second[0] in AllUndos(ref, values, request, via) && second[0].For(Parameters);
    }
  }

  /** What a subscription registered over the registry `start`, in association `via`. */
  predicate TakingOf(t: Taking, first: map<string, Rcb>, given: set<Key>, start: seq<CleanupAction>, cs: seq<CleanupAction>, via: nat) {
    && t.ref in first && t.first == first[t.ref]
    && t.registered <= AllUndos(t.ref, t.values, t.request, via)
    && t.leftover == ActionsOf(start, t.ref)
    && t.lostAfter == LostOf(given, t.ref)
    && (!t.undone ==> t.dropped == [] && t.raised.None? && cs == RegisteredAll(start, t.registered))
  }

  /** All three steps. `enabling`: the third was reached. */
  method PrepareAndEnable(session: Session, cb: ControlBlock, values: Rcb, request: map<Param, int>, purge: bool)
    returns (reply: Reply, enabling: bool, ghost t: Taking, ghost sent: seq<Change>)
    requires session.Keyed() && cb.ref in session.first
    requires cb.ref in session.device.rcbs && session.device.rcbs[cb.ref] == values && values.Free()
    modifies session`link, session`writes, session`cleanups, session.device`rcbs
    ensures OthersKept(session, cb.ref) && session.Keyed()
    ensures t == Taking(cb.ref, values, request, ActionsOf(old(session.cleanups), cb.ref), session.first[cb.ref],
                        LostOf(session.givenUp, cb.ref), t.registered, false, [], None, LostOf(session.givenUp, cb.ref))
    ensures TakingOf(t, session.first, session.givenUp, old(session.cleanups), session.cleanups, session.generation)
    ensures old(session.HeldFor(cb.ref)) ==> session.HeldFor(cb.ref)
    ensures old(session.ParamsFor(cb.ref)) ==> (session.ParamsFor(cb.ref) <==> t.ParamsSurvive())
    ensures enabling ==>
              && t.registered == AllUndos(cb.ref, values, request, session.generation)
              && session.device.rcbs[cb.ref].params == values.params.With(request)
              && RcbKey(cb.ref, Enable) in Keys(session.cleanups)
    ensures reply == Done ==> enabling && session.device.rcbs[cb.ref].rptEna
    ensures var all := AllWrites(values, request, purge);
            && sent <= all && SentBetween(old(session.writes), session.writes, cb.ref, sent)
            && (enabling && reply != NotConnected <==> sent == all)
    ensures session.device.cooperative && old(session.link) == Up ==>
              session.link == Up && (reply == Done || (reply == Interrupted && session.interruptible))
  {
    hide Effect, Leftover, Keys, HeldAt, ParamsAt, RegisteredAll, Rcb.Free, KeyedOnce, ReservationUndos, ParamsUndos, Parts,
         ActionsOf, InUndoOrder, Survives, EnableUndo, Taking.ParamsSurvive, OthersSame, AllUndos,
         ReservationWrites, ParamsWrites, PurgeWrites, SentBetween, Allowed;
    ghost var cs, made, ref, via, w0 := session.cleanups, [], cb.ref, session.generation, session.writes;
    ghost var lost := LostOf(session.givenUp, ref);
    PartsRegistered(ref, values, request, via);
    enabling := false;
    reply, made, sent := Prepare(session, cb, values, request, purge);
    t := Taking(ref, values, request, ActionsOf(cs, ref), session.first[ref], lost, made, false, [], None, lost);
    SurvivesInTaking(session, t);
    if reply != Done {
      return;
    }
    enabling := true;
    RegisteredInTurn(cs, made, [EnableUndo(ref, via)]);
    RegisteredOne(RegisteredAll(cs, made), EnableUndo(ref, via));
    t := t.(registered := AllUndos(ref, values, request, via));
    SurvivesInTaking(session, t);
    ghost var w1, some, cs1, now1, given := session.writes, sent, session.cleanups, session.device.rcbs, session.givenUp;
    reply := EnableReports(session, cb, values);
    SentInTurn(w0, w1, session.writes, ref, some, IfConnected(reply, [SetRptEna(true)]));
    sent := some + IfConnected(reply, [SetRptEna(true)]);
    OthersSameTwice(ref, old(session.device.rcbs), cs, given, now1, cs1, given, session.device.rcbs, session.cleanups, given);
  }

  /** The three steps; a refused RptEna is followed by `Stop`, whose notes are dropped. */
  method TakeUp(session: Session, cb: ControlBlock, values: Rcb, request: map<Param, int>, purge: bool)
    returns (reply: Reply, ghost t: Taking, ghost sent: seq<Change>)
    requires session.Keyed() && cb.ref in session.first
    requires cb.ref in session.device.rcbs && session.device.rcbs[cb.ref] == values && values.Free()
    modifies session`link, session`writes, session`cleanups, session`givenUp, session`subscriptions, session.device`rcbs, session.device`sgcbs
    ensures OthersKept(session, cb.ref) && session.Keyed()
    ensures t.ref == cb.ref && t.values == values && t.request == request && t.lost == LostOf(old(session.givenUp), cb.ref)
    ensures TakingOf(t, session.first, session.givenUp, old(session.cleanups), session.cleanups, session.generation)
    ensures GivenUpBy(t, old(session.givenUp), session.device.rcbs, session.givenUp)
    ensures old(session.HeldFor(cb.ref)) ==> session.HeldFor(cb.ref)
    ensures old(session.ParamsFor(cb.ref)) ==> (session.ParamsFor(cb.ref) <==> t.ParamsSurvive())
    ensures t.undone ==> session.InOrderFor(cb.ref)
    ensures reply == Done ==>
              && !t.undone && session.device.rcbs[cb.ref].rptEna
              && session.device.rcbs[cb.ref].params == values.params.With(request)
              && RcbKey(cb.ref, Enable) in Keys(session.cleanups)
    // what was sent; it is taken back exactly when RptEna itself was refused
    ensures var all := AllWrites(values, request, purge);
            && sent <= all && old(session.writes) + AsWrites(cb.ref, sent) <= session.writes
            && (!t.undone ==> SentBetween(old(session.writes), session.writes, cb.ref, sent))
            && (reply == Done || t.undone ==> sent == all)
            && (t.undone ==> reply == if t.raised.Some? then NotConnected else Refused)
            && (sent == all && !t.undone ==> reply == Done || reply == Interrupted)
    ensures session.device.cooperative && old(session.link) == Up ==>
              session.link == Up && (reply == Done || (reply == Interrupted && session.interruptible))
  {
    hide Effect, Leftover, Keys, HeldAt, ParamsAt, Rcb.Free, KeyedOnce, Parts, RegisteredAll, AllUndos,
         ActionsOf, InUndoOrder, Taking.ParamsSurvive, OthersSame, Session.Reported, AllWrites, AsWrites, SentBetween;
    ghost var cs, given, now, w0 := session.cleanups, session.givenUp, session.device.rcbs, session.writes;
    Session.NoneReported();
    var enabling: bool;
    reply, enabling, t, sent := PrepareAndEnable(session, cb, values, request, purge);
    SentIs(w0, session.writes, cb.ref, sent);
    if enabling && reply == Refused {
      ghost var cs2, now2 := session.cleanups, session.device.rcbs;
      reply, t := Retreat(session, cb.ref, cs, t);
      OthersSameTwice(cb.ref, now, cs, given, now2, cs2, given, session.device.rcbs, session.cleanups, session.givenUp);
    }
  }

  /** Without an undo, the law of the parameters is a matter of what was registered over. */
  lemma SurvivesInTaking(session: Session, t: Taking)
    requires t.ref in session.first && t.first == session.first[t.ref]
    requires t.lost == LostOf(session.givenUp, t.ref) && !t.undone
    ensures t.ParamsSurvive() <==> Parameters !in Parts(t.registered) || Survives(session, t.ref, t.values, t.request)
  {
  }

  /** What is given up is what the dropped notes tell, the key whose error went through, and an RptEna that
      the device set although the write ended in an error. */
  ghost predicate GivenUpBy(t: Taking, before: set<Key>, now: map<string, Rcb>, after: set<Key>) {
    forall k :: k in after <==>
      || k in before
      || Session.Reported(t.dropped, k)
      || t.raised == Some(k)
      || (t.undone && t.ref in now && now[t.ref].rptEna && k == RcbKey(t.ref, Enable))
  }

  /** RptEna was refused: nothing to disable, so take back the rest. */
  method Retreat(session: Session, ref: string, ghost start: seq<CleanupAction>, ghost t0: Taking)
    returns (reply: Reply, ghost t: Taking)
    requires ref == t0.ref && session.Keyed() && t0.ref in session.device.rcbs && !t0.undone
    requires TakingOf(t0, session.first, session.givenUp, start, session.cleanups, session.generation)
    requires t0.registered == AllUndos(t0.ref, t0.values, t0.request, session.generation) && t0.lost == t0.lostAfter
    requires session.device.rcbs[t0.ref].params == t0.values.params.With(t0.request)
    modifies session`link, session`writes, session`cleanups, session`givenUp, session`subscriptions, session.device`rcbs, session.device`sgcbs
    ensures OthersKept(session, t0.ref) && session.Keyed()
    ensures t == t0.(undone := true, dropped := t.dropped, raised := t.raised, lostAfter := t.lostAfter)
    ensures TakingOf(t, session.first, session.givenUp, start, session.cleanups, session.generation)
    ensures GivenUpBy(t, old(session.givenUp), session.device.rcbs, session.givenUp)
    ensures old(session.HeldFor(t0.ref)) ==> session.HeldFor(t0.ref)
    ensures (old(session.ParamsFor(t0.ref)) <==> t0.ParamsSurvive()) ==> (session.ParamsFor(t0.ref) <==> t.ParamsSurvive())
    ensures session.InOrderFor(t0.ref)
    ensures reply == if t.raised.Some? then NotConnected else Refused
    ensures old(session.writes) <= session.writes
  {
    hide HeldAt, ParamsAt, RegisteredAll, KeyedOnce, AllUndos, Parts, ActionsOf, InUndoOrder, PutBack, Dropped, Taking.ParamsSurvive, OthersSame, Via;
    ghost var cs, given, now := session.cleanups, session.givenUp, session.device.rcbs;
    DropEnabling(session, ref);
    ghost var cs1, given1 := session.cleanups, session.givenUp;
    var notes, raised := Stop(session, ref);
    OthersSameTwice(ref, now, cs, given, now, cs1, given1, session.device.rcbs, session.cleanups, session.givenUp);
    t := t0.(undone := true, dropped := notes, raised := raised, lostAfter := LostOf(session.givenUp, ref));
    reply := if raised.Some? then NotConnected else Refused;
    NothingOutOfOrder(session.cleanups, ref, cs1, raised);
    if Parameters in Parts(t.registered) {
      OwnUndoIsPutBack(t, start, session.generation, cs, cs1, now, session.cleanups, session.device.rcbs, session.givenUp, raised);
      RetreatParams(session.first, session.device.rcbs, session.cleanups, session.givenUp, t);
    } else {
      NothingToForget(t0, t);
    }
  }

  lemma NothingToForget(t0: Taking, t: Taking)
    requires Parameters !in Parts(t0.registered) && t.registered == t0.registered
    ensures t0.ParamsSurvive() && t.ParamsSurvive()
  {
  }

  /** After `Stop`, at most the reservation is left. */
  lemma NothingOutOfOrder(cs: seq<CleanupAction>, ref: string, before: seq<CleanupAction>, raised: Option<Key>)
    requires KeyedOnce(cs) && RcbKey(ref, Enable) !in Keys(before)
    requires raised.None? ==> ActionsOf(cs, ref) == []
    requires raised.Some? ==> raised.value in Keys(before) && raised.value.RcbKey? && raised.value.ref == ref
    requires raised.Some? ==> forall a :: a in cs && a.Of(ref) ==> Rank(a.key.part) < Rank(raised.value.part)
    ensures InUndoOrder(ActionsOf(cs, ref))
  {
    var acts := ActionsOf(cs, ref);
    ActionsOfKeyedOnce(cs, ref);
    if raised.Some? {
      assert raised.value == RcbKey(ref, raised.value.part);
      forall a | a in acts
        ensures a.key == RcbKey(ref, Reservation)
      {
        assert a.key == RcbKey(ref, a.key.part);
      }
      OfOnePart(acts, RcbKey(ref, Reservation));
    }
  }

  lemma OfOnePart(acts: seq<CleanupAction>, key: Key)
    requires KeyedOnce(acts)
    ensures (forall a :: a in acts ==> a.key == key) ==> |acts| <= 1
  {
    assert |acts| > 1 ==> acts[0] in acts && acts[1] in acts && acts[0].key != acts[1].key;
  }

  /** The parameters this subscription saved are on the device again, or restoring them was given up. */
  lemma OwnUndoIsPutBack(t: Taking, start: seq<CleanupAction>, via: nat, cs: seq<CleanupAction>, cs1: seq<CleanupAction>, before: map<string, Rcb>,
                         cs': seq<CleanupAction>, now: map<string, Rcb>, given: set<Key>, raised: Option<Key>)
    requires t.ref in before && before[t.ref].params == t.values.params.With(t.request) && now.Keys == before.Keys
    requires KeyedOnce(cs) && cs == RegisteredAll(start, t.registered) && cs1 == Dropped(cs, RcbKey(t.ref, Enable))
    requires t.registered == AllUndos(t.ref, t.values, t.request, via) && Parameters in Parts(t.registered)
    requires PutBack(t.ref, cs1, before, cs', now, given)
    requires raised.None? ==> ActionsOf(cs', t.ref) == []
    requires raised.Some? ==> exists a :: a in cs1 && a.Of(t.ref) && a.key == raised.value && !Via(a, via)
    requires raised.Some? ==> forall a :: a in cs' && a.Of(t.ref) ==> Rank(a.key.part) < Rank(raised.value.part)
    ensures ActionsOf(cs', t.ref) == []
    ensures RcbKey(t.ref, Parameters) !in given ==> now[t.ref].params == t.values.params
  {
    var ref := t.ref;
    var changed := Changed(t.values.params, t.request);
    var a := RestoreAction(ref, via, t.values.params, changed);
    PartsRegistered(ref, t.values, t.request, via);
    assert a in AllUndos(ref, t.values, t.request, via);
    RegisteredAllIs(start, t.registered);
    assert a in cs && a in cs1;
    DroppedKeyedOnce(cs, RcbKey(ref, Enable));
    NoneOf(cs', ref);
    assert a in cs' ==> a in ActionsOf(cs', ref);
    if raised.Some? {
      var x :| x in cs1 && x.Of(ref) && x.key == raised.value && !Via(x, via);
      assert x.key != a.key by {
        OnlyOne(cs1, a);
      }
      assert x.key == RcbKey(ref, x.key.part) && x.key.part == Reservation;
      assert forall y :: y in cs' ==> !y.Of(ref);
    }
    ThereAndBack(t.values.params, t.request);
  }

  lemma NoneOf(cs: seq<CleanupAction>, ref: string)
    ensures (forall a :: a in cs ==> !a.Of(ref)) ==> ActionsOf(cs, ref) == []
  {
    assert ActionsOf(cs, ref) == [] || ActionsOf(cs, ref)[0] in ActionsOf(cs, ref);
  }

  lemma ThereAndBack(current: ParamValues, request: map<Param, int>)
    ensures current.With(request).With(Originals(current, Changed(current, request))) == current
  {
    var r := current.With(request).With(Originals(current, Changed(current, request)));
    SameParams(r, current);
  }

  /** With the undo gone, the law of the parameters holds when they are as first read or given up. */
  lemma RetreatParams(first: map<string, Rcb>, now: map<string, Rcb>, cs: seq<CleanupAction>, given: set<Key>, t: Taking)
    requires t.ref in first && t.first == first[t.ref] && t.ref in now
    requires t.undone && Parameters in Parts(t.registered)
    requires t.lost <= t.lostAfter == LostOf(given, t.ref)
    requires ActionsOf(cs, t.ref) == []
    requires Parameters !in t.lostAfter ==> now[t.ref].params == t.values.params
    ensures ParamsAt(t.ref, first, now, cs, given) <==> t.ParamsSurvive()
  {
    if t.first.Free() && Parameters !in t.lostAfter && ParamsAt(t.ref, first, now, cs, given) {
      SameParams(t.values.params, t.first.params);
    }
  }

  /** RptEna was refused, so there is nothing to disable: the undo is dropped, and given up if the device
      set RptEna after all. */
  method DropEnabling(session: Session, ref: string)
    requires session.Keyed() && ref in session.device.rcbs
    modifies session`cleanups, session`givenUp
    ensures OthersKept(session, ref) && session.Keyed()
    ensures session.cleanups == Dropped(old(session.cleanups), RcbKey(ref, Enable))
    ensures session.givenUp == old(session.givenUp) + if session.device.rcbs[ref].rptEna then {RcbKey(ref, Enable)} else {}
    ensures old(session.HeldFor(ref)) ==> session.HeldFor(ref)
    ensures session.ParamsFor(ref) <==> old(session.ParamsFor(ref))
  {
    hide KeyedOnce, ActionsOf, Held, ParamsKept, Dropped;
    ghost var cs, given := session.cleanups, session.givenUp;
    session.DropCleanup(RcbKey(ref, Enable));
    if session.device.rcbs[ref].rptEna {
      session.givenUp := session.givenUp + {RcbKey(ref, Enable)};
    }
    DroppedKeyedOnce(cs, RcbKey(ref, Enable));
    DroppedActions(cs, RcbKey(ref, Enable));
    EnableDropped(ref, session.first, session.device.rcbs, cs, given, session.givenUp, session.ownAddress);
  }

  lemma EnableDropped(ref: string, first: map<string, Rcb>, now: map<string, Rcb>, cs: seq<CleanupAction>,
                      given: set<Key>, given': set<Key>, own: Option<Address>)
    requires KeyedOnce(cs) && ref in now
    requires given' == given + if now[ref].rptEna then {RcbKey(ref, Enable)} else {}
    ensures HeldAt(ref, first, now, cs, given, own) ==> HeldAt(ref, first, now, Dropped(cs, RcbKey(ref, Enable)), given', own)
    ensures ParamsAt(ref, first, now, cs, given) <==> ParamsAt(ref, first, now, Dropped(cs, RcbKey(ref, Enable)), given')
  {
    hide ActionsOf, Held, ParamsKept;
    var key := RcbKey(ref, Enable);
    var acts, lost, lost' := ActionsOf(cs, ref), LostOf(given, ref), LostOf(given', ref);
    ActionsOfDropped(cs, key, ref);
    DroppedKeyedOnce(cs, key);
    if ref in first && first[ref].Free() {
      if Held(first[ref], now[ref], acts, lost, own) {
        MoreLost(first[ref], now[ref], acts, lost, lost', own);
        assert Enable in lost' || PartRestored(Enable, first[ref], now[ref], own);
        DropKeepsHeld(ref, first[ref], now[ref], acts, Enable, lost', own);
      }
      SameParamsLaw(ref, first, now, now, cs, Dropped(cs, key), given);
      assert ParamsKept(first[ref].params, now[ref].params, acts, lost) <==> ParamsKept(first[ref].params, now[ref].params, acts, lost') by {
        OnlyParametersLost(first[ref].params, now[ref].params, acts, lost, lost');
      }
      OnlyParametersLost(first[ref].params, now[ref].params, Dropped(acts, key), lost, lost');
    }
  }

  lemma OnlyParametersLost(first: ParamValues, now: ParamValues, acts: seq<CleanupAction>, lost: set<Part>, lost': set<Part>)
    requires Parameters in lost <==> Parameters in lost'
    ensures ParamsKept(first, now, acts, lost) <==> ParamsKept(first, now, acts, lost')
  {
  }

  /** The values just read are where a subscription starts from, unless undos of an earlier one are left. */
  ghost method Begin(session: Session, ref: string)
    requires ref in session.device.rcbs && session.device.rcbs[ref].Free()
    modifies session`first, session`givenUp
    ensures session.first == StartOf(old(session.first), session.cleanups, ref, session.device.rcbs[ref])
    ensures session.givenUp == if ActionsOf(session.cleanups, ref) == [] then old(session.givenUp) - KeysOf(ref) else old(session.givenUp)
    ensures ActionsOf(session.cleanups, ref) == [] || old(session.HeldFor(ref)) ==> session.HeldFor(ref)
    ensures ActionsOf(session.cleanups, ref) == [] || old(session.ParamsFor(ref)) ==> session.ParamsFor(ref)
  {
    if ActionsOf(session.cleanups, ref) == [] {
      session.first := session.first[ref := session.device.rcbs[ref]];
      session.givenUp := session.givenUp - KeysOf(ref);
    } else if ref !in session.first {
      session.first := session.first[ref := session.device.rcbs[ref]];
    }
  }

  /** What counts as first read of `ref` once a subscription has read it. */
  function StartOf(first: map<string, Rcb>, cs: seq<CleanupAction>, ref: string, values: Rcb): map<string, Rcb> {
    if ActionsOf(cs, ref) == [] || ref !in first then first[ref := values] else first
  }

  /** Take the first free instance and enable it; `taken` says which and what became of it. */
  method Subscribe(session: Session, cbs: seq<ControlBlock>, named: set<Address>, me: Option<string>,
                   request: map<Param, int>, purge: bool, gi: bool)
    returns (r: SubscribeResult, ghost taken: Option<Taking>, ghost sent: seq<Change>)
    requires session.Keyed()
    modifies session`link, session`writes, session`cleanups, session`givenUp, session`subscriptions, session`first
    modifies session.device`rcbs, session.device`sgcbs
    ensures session.Keyed() && EditsKept(session) && session.device.sgcbs == old(session.device.sgcbs)
    ensures session.device.rcbs.Keys == old(session.device.rcbs).Keys
    ensures taken.None? ==> r == if old(session.link) == Up then NoFreeRcb else RaisedWhile(NotConnected)
    ensures taken.Some? ==> old(session.link) == Up && r != NoFreeRcb
    // on a cooperative device, whenever an instance may be taken the first such one is enabled
    ensures session.device.cooperative && old(session.link) == Up ==>
              && (r == NoFreeRcb <==> NoneToTake(session, cbs, old(session.device.rcbs), named, me))
              && (r == NoFreeRcb || r.Subscribed? || (r == RaisedWhile(Interrupted) && session.interruptible))
    ensures taken.None? ==> session.writes == old(session.writes)
    ensures taken.None? ==>
              && session.cleanups == old(session.cleanups) && session.device.rcbs == old(session.device.rcbs)
              && session.first == old(session.first) && session.givenUp == old(session.givenUp)
    ensures taken.Some? ==>
              && OthersKept(session, taken.value.ref) && taken.value.request == request
              && taken.value.ref in old(session.device.rcbs) && taken.value.values == old(session.device.rcbs)[taken.value.ref]
              && (exists i :: 0 <= i < |cbs| && cbs[i].ref == taken.value.ref && NobodyElses(session, cbs[i], taken.value.values, named, me)
                              && (session.device.cooperative ==> NoneToTake(session, cbs[..i], old(session.device.rcbs), named, me)))
              && TakenBySending(taken.value, sent, session.writes, old(session.writes), session.device.rcbs, r, purge, gi)
              && session.first == StartOf(old(session.first), old(session.cleanups), taken.value.ref, taken.value.values)
              && TakingOf(taken.value, session.first, session.givenUp, old(session.cleanups), session.cleanups, session.generation)
              && GivenUpBy(taken.value, Standing(old(session.givenUp), taken.value), session.device.rcbs, session.givenUp)
              && taken.value.lost == LostOf(Standing(old(session.givenUp), taken.value), taken.value.ref)
    // the laws and the order of every control block, wherever it ends
    ensures forall ref :: old(session.HeldFor(ref)) ==> session.HeldFor(ref)
    ensures forall ref :: old(session.ParamsFor(ref)) && (taken.Some? ==> ref != taken.value.ref) ==> session.ParamsFor(ref)
    ensures taken.Some? && (old(session.ParamsFor(taken.value.ref)) || taken.value.leftover == []) ==>
              (session.ParamsFor(taken.value.ref) <==> taken.value.ParamsSurvive())
    ensures taken.Some? && taken.value.leftover == [] ==> session.HeldFor(taken.value.ref)
    ensures forall ref :: old(session.InOrderFor(ref)) && (taken.Some? ==> ref != taken.value.ref) ==> session.InOrderFor(ref)
    ensures taken.Some? && old(session.InOrderFor(taken.value.ref)) ==>
              (session.InOrderFor(taken.value.ref) <==> taken.value.OrderSurvives())
    ensures r.Subscribed? ==>
              && taken.Some? && !taken.value.undone && r.sub.cb.ref == taken.value.ref && r.sub.cb.ref in session.subscriptions
              && r.sub.active && r.sub.initial == taken.value.values
              && session.device.rcbs[r.sub.cb.ref].rptEna
              && session.device.rcbs[r.sub.cb.ref].params == r.sub.initial.params.With(request)
              && RcbKey(r.sub.cb.ref, Enable) in Keys(session.cleanups)
  {
    hide HeldAt, ParamsAt, InUndoOrder, KeyedOnce, ActionsOf, Effect, NobodyElses, Rcb.Free, CleanupAction.WellKeyed, Keys, LostOf,
         Taking.ParamsSurvive, Taking.OrderSurvives, GivenUpBy, TakingOf, RegisteredAll, OthersSame, EditDone, TakenBySending;
    if !session.Connected() {
      return RaisedWhile(NotConnected), None, [];
    }
    var chosen := Choose(session, cbs, named, me);
    if chosen.None? {
      return NoFreeRcb, None, [];
    }
    var (cb, values) := chosen.value;
    MayBeTaken(session, cb, values, named, me);
    MayBeTakenFrom(session, cbs, cb, session.device.rcbs, named, me);
    ghost var ref, cs, was, first0, given0 := cb.ref, session.cleanups, session.device.rcbs, session.first, session.givenUp;
    Begin(session, ref);
    ghost var given1 := session.givenUp;
    ghost var t;
    r, t, sent := SubscribeTo(session, cb, values, request, purge, gi);
    taken := Some(t);
    LeftoverOf(t, session.first, session.givenUp, cs, session.cleanups, session.generation);
    Fresh(ref, was, cs, given0, was, cs, given1);
    OthersSameTwice(ref, was, cs, given0, was, cs, given1, session.device.rcbs, session.cleanups, session.givenUp);
    EditsAreOthers(ref, old(session.device.sgcbs), was, cs, given0, session.device.rcbs, session.cleanups, session.givenUp);
    OthersLaws(ref, first0, was, cs, given0, session.first, session.device.rcbs, session.cleanups, session.givenUp, session.ownAddress);
    OrderAfterTaking(t, session.first, session.givenUp, cs, session.cleanups, session.generation);
  }

  lemma LeftoverOf(t: Taking, first: map<string, Rcb>, given: set<Key>, start: seq<CleanupAction>, cs: seq<CleanupAction>, via: nat)
    requires TakingOf(t, first, given, start, cs, via)
    ensures t.leftover == ActionsOf(start, t.ref)
  {
  }

  lemma Fresh(ref: string, now: map<string, Rcb>, cs: seq<CleanupAction>, given: set<Key>,
              now': map<string, Rcb>, cs': seq<CleanupAction>, given': set<Key>)
    requires now' == now && cs' == cs && (given' == given || given' == given - KeysOf(ref))
    ensures OthersSame(ref, now, cs, given, now', cs', given')
  {
  }

  /** What stays given up when a subscription starts: nothing of an instance that starts afresh. */
  function Standing(given: set<Key>, t: Taking): set<Key> {
    if t.leftover == [] then given - KeysOf(t.ref) else given
  }

  lemma MayBeTaken(session: Session, cb: ControlBlock, values: Rcb, named: set<Address>, me: Option<string>)
    requires NobodyElses(session, cb, values, named, me)
    ensures values.Free()
  {
  }

  lemma MayBeTakenFrom(session: Session, cbs: seq<ControlBlock>, cb: ControlBlock, now: map<string, Rcb>, named: set<Address>,
                       me: Option<string>)
    requires cb in cbs && cb.ref in now && NobodyElses(session, cb, now[cb.ref], named, me)
    ensures !NoneToTake(session, cbs, now, named, me)
  {
  }

  /** The order of the undos after a subscription. */
  lemma OrderAfterTaking(t: Taking, first: map<string, Rcb>, given: set<Key>, start: seq<CleanupAction>, cs: seq<CleanupAction>, via: nat)
    requires TakingOf(t, first, given, start, cs, via)
    requires t.undone ==> InUndoOrder(ActionsOf(cs, t.ref))
    ensures InUndoOrder(ActionsOf(start, t.ref)) ==> (InUndoOrder(ActionsOf(cs, t.ref)) <==> t.OrderSurvives())
  {
    if InUndoOrder(ActionsOf(start, t.ref)) && !t.undone {
      var all := AllUndos(t.ref, t.values, t.request, via);
      PrefixInOrder(t.registered, all);
      ActionsOfRegisteredAll(start, t.registered, t.ref);
      ActionsOfAll(t.registered, t.ref);
      OrderAfterRegistering(t.leftover, t.registered);
    }
  }

  lemma PrefixInOrder(some: seq<CleanupAction>, all: seq<CleanupAction>)
    requires some <= all && KeyedOnce(all) && InUndoOrder(all)
    ensures KeyedOnce(some) && InUndoOrder(some)
    ensures forall a :: a in some ==> a in all
  {
    assert forall i :: 0 <= i < |some| ==> some[i] == all[i];
  }

  lemma {:induction false} ActionsOfAll(acts: seq<CleanupAction>, ref: string)
    requires forall a :: a in acts ==> a.Of(ref)
    ensures ActionsOf(acts, ref) == acts
  {
    if acts != [] {
      assert acts[0] in acts && forall a :: a in acts[1..] ==> a in acts;
      ActionsOfAll(acts[1..], ref);
    }
  }

  /** Keys of report control blocks are no business of the setting groups. */
  lemma EditsAreOthers(ref: string, sgcbs: map<string, Sgcb>, now: map<string, Rcb>, cs: seq<CleanupAction>, given: set<Key>,
                       now': map<string, Rcb>, cs': seq<CleanupAction>, given': set<Key>)
    requires OthersSame(ref, now, cs, given, now', cs', given')
    ensures forall ld :: EditDone(ld, sgcbs, cs, given) ==> EditDone(ld, sgcbs, cs', given')
  {
    forall ld | EditKey(ld) in Keys(cs)
      ensures EditKey(ld) in Keys(cs')
    {
      var a :| a in cs && a.key == EditKey(ld);
      assert a in cs';
    }
  }

  /** The writes of a subscription: a beginning of the whole sequence, all of it when it is returned. A refused
      RptEna is taken back and raised, unless taking it back raises; a refused interrogation raises nothing. */
  predicate TakenBySending(t: Taking, sent: seq<Change>, after: seq<RcbWrite>, before: seq<RcbWrite>, now: map<string, Rcb>, r: SubscribeResult,
                           purge: bool, gi: bool)
  {
    var all, last := AllWrites(t.values, t.request, purge), InterrogationWrites(t.values, t.request, gi);
    && sent <= all + last && before + AsWrites(t.ref, sent) <= after
    && (!t.undone ==> SentBetween(before, after, t.ref, sent))
    && (r.Subscribed? ==> sent == all + last && !t.undone)
    && (t.undone ==> sent == all && r == RaisedWhile(if t.raised.Some? then NotConnected else Refused))
    && (r == RaisedWhile(Refused) ==> sent <= all && (sent == all ==> t.undone || (t.ref in now && now[t.ref].rptEna)))
  }

  lemma EndsBefore(t: Taking, sent: seq<Change>, after: seq<RcbWrite>, before: seq<RcbWrite>, now: map<string, Rcb>, reply: Reply,
                   purge: bool, gi: bool)
    requires var all := AllWrites(t.values, t.request, purge);
             && sent <= all && before + AsWrites(t.ref, sent) <= after
             && (if t.undone then sent == all && reply == (if t.raised.Some? then NotConnected else Refused)
                 else SentBetween(before, after, t.ref, sent) && (sent == all ==> reply == Interrupted))
    ensures TakenBySending(t, sent, after, before, now, RaisedWhile(reply), purge, gi)
  {
    hide AllWrites, AsWrites, SentBetween, InterrogationWrites;
  }

  lemma EndsAfter(t: Taking, sent: seq<Change>, after: seq<RcbWrite>, before: seq<RcbWrite>, now: map<string, Rcb>, r: SubscribeResult,
                  purge: bool, gi: bool, more: seq<Change>)
    requires !t.undone && t.ref in now && now[t.ref].rptEna && sent == AllWrites(t.values, t.request, purge) + more
    requires more <= InterrogationWrites(t.values, t.request, gi) && (r.Subscribed? ==> more == InterrogationWrites(t.values, t.request, gi))
    requires SentBetween(before, after, t.ref, sent) && before + AsWrites(t.ref, sent) <= after
    requires r == RaisedWhile(Refused) ==> more == []
    ensures TakenBySending(t, sent, after, before, now, r, purge, gi)
  {
    hide AllWrites, AsWrites, SentBetween, InterrogationWrites;
  }

  /** Enable this instance and make it a subscription. */
  method SubscribeTo(session: Session, cb: ControlBlock, values: Rcb, request: map<Param, int>, purge: bool, gi: bool)
    returns (r: SubscribeResult, ghost t: Taking, ghost sent: seq<Change>)
    requires session.Keyed() && cb.ref in session.first
    requires cb.ref in session.device.rcbs && session.device.rcbs[cb.ref] == values && values.Free()
    modifies session`link, session`writes, session`cleanups, session`givenUp, session`subscriptions, session.device`rcbs, session.device`sgcbs
    ensures OthersKept(session, cb.ref) && session.Keyed()
    ensures t.ref == cb.ref && t.values == values && t.request == request && t.lost == LostOf(old(session.givenUp), cb.ref)
    ensures TakingOf(t, session.first, session.givenUp, old(session.cleanups), session.cleanups, session.generation)
    ensures GivenUpBy(t, old(session.givenUp), session.device.rcbs, session.givenUp)
    ensures old(session.HeldFor(cb.ref)) ==> session.HeldFor(cb.ref)
    ensures old(session.ParamsFor(cb.ref)) ==> (session.ParamsFor(cb.ref) <==> t.ParamsSurvive())
    ensures t.undone ==> session.InOrderFor(cb.ref)
    ensures r != NoFreeRcb
    ensures r.Subscribed? ==>
              && r.sub.cb == cb && r.sub.initial == values && r.sub.active && cb.ref in session.subscriptions
              && !t.undone && session.device.rcbs[cb.ref].rptEna
              && session.device.rcbs[cb.ref].params == values.params.With(request)
              && RcbKey(cb.ref, Enable) in Keys(session.cleanups)
    ensures TakenBySending(t, sent, session.writes, old(session.writes), session.device.rcbs, r, purge, gi)
    ensures session.device.cooperative && old(session.link) == Up ==>
              r.Subscribed? || (r == RaisedWhile(Interrupted) && session.interruptible)
  {
    hide HeldAt, ParamsAt, InUndoOrder, KeyedOnce, ActionsOf, Effect, Rcb.Free, Taking.ParamsSurvive, GivenUpBy, TakingOf, OthersSame, Keys, LostOf,
         AllWrites, AsWrites, SentBetween, Allowed, TakenBySending, AllUndos, Standing, GiWanted, ParamValues.With;
    var reply: Reply;
    ghost var w0, more := session.writes, [];
    reply, t, sent := TakeUp(session, cb, values, request, purge);
    if reply != Done {
      EndsBefore(t, sent, session.writes, w0, session.device.rcbs, reply, purge, gi);
      return RaisedWhile(reply), t, sent;
    }
    var sub := new Subscription(session, cb, values);
    sub.active := true;
    session.subscriptions := session.subscriptions + {cb.ref};
    ghost var w1 := session.writes;
    reply, more := AfterEnabling(session, cb.ref, gi, values.resvTms.Some?);
    SentInTurn(w0, w1, session.writes, cb.ref, sent, more);
    sent := sent + more;
    SentIs(w0, session.writes, cb.ref, sent);
    r := if reply == Done then Subscribed(sub) else RaisedWhile(reply);
    EndsAfter(t, sent, session.writes, w0, session.device.rcbs, r, purge, gi, more);
  }

  /** Read an RCB that was reserved or is to be interrogated again and, where it reports on it, ask for a general
      interrogation. */
  method AfterEnabling(session: Session, ref: string, gi: bool, reserved: bool) returns (reply: Reply, ghost sent: seq<Change>)
    requires ref in session.device.rcbs
    modifies session`link, session`writes, session.device`rcbs
    ensures session.device.rcbs == old(session.device.rcbs)
    ensures session.link == old(session.link) || (old(session.link) == Up && session.link == Lost)
    ensures var last := if gi && GiWanted(session.device.rcbs[ref].params.trgOps) then [Trigger(false)] else [];
            sent <= last && (reply == Done ==> sent == last) && (reply == Refused ==> sent == []) && SentBetween(old(session.writes), session.writes, ref, sent)
    ensures session.device.cooperative && old(session.link) == Up ==>
              session.link == Up && (reply == Done || (reply == Interrupted && session.interruptible))
  {
    hide SentBetween, Allowed;
    NothingSent(ref, session.writes);
    reply, sent := Done, [];
    if !gi && !reserved {
      return;
    }
    var after := session.GetRcb(ref);
    if after.None? {
      return Refused, sent;
    }
    if gi && GiWanted(after.value.params.trgOps) {
      reply := SetTrigger(session, ref, false);
      sent := IfConnected(reply, [Trigger(false)]);
      if reply == Refused {
        reply := Done;
      }
    }
  }

  /** Whether a subscription that goes through keeps what was first read of the parameters can be told before it
      starts: from the values saved, the values read and the values asked for. */
  lemma RetryGuard(t: Taking, via: nat)
    requires t.first.Free() && t.registered <= AllUndos(t.ref, t.values, t.request, via)
    ensures var changed := Changed(t.values.params, t.request);
            var safe := changed == map[] || MemorySurvives(t.first.params, t.values.params, changed, t.lost);
            && (safe ==> t.ParamsSurvive())
            && (!safe && !t.undone && t.registered == AllUndos(t.ref, t.values, t.request, via) ==> !t.ParamsSurvive())
  {
    PartsRegistered(t.ref, t.values, t.request, via);
    if Parameters in Parts(t.registered) {
      var a :| a in t.registered && a.key.RcbKey? && a.key.part == Parameters;
      var i :| 0 <= i < |t.registered| && t.registered[i] == a;
      assert AllUndos(t.ref, t.values, t.request, via)[i] == a;
    }
  }

  /** One that goes through puts the undos out of order exactly when it reserves, changes no parameter, and
      finds parameters registered to be restored. */
  lemma OrderGuard(acts: seq<CleanupAction>, ref: string, values: Rcb, request: map<Param, int>, via: nat)
    requires forall a :: a in acts ==> a.Of(ref)
    ensures OrderSurvives(acts, AllUndos(ref, values, request, via)) <==>
              !(Parameters in Parts(acts) && Changed(values.params, request) == map[] && ReservationUndos(ref, values, via) != [])
  {
    var all, enable := AllUndos(ref, values, request, via), EnableUndo(ref, via);
    var first, second := ReservationUndos(ref, values, via), ParamsUndos(ref, values, request, via);
    assert enable in all;
    assert forall b :: b in all <==> b in first || b in second || b == enable;
    assert forall b :: b in first ==> b.key == RcbKey(ref, Reservation);
    assert forall b :: b in second ==> b.key == RcbKey(ref, Parameters);
    if Parameters in Parts(acts) && second == [] && first != [] {
      var a :| a in acts && a.key.RcbKey? && a.key.part == Parameters;
      assert first[0] in first && first[0] in all;
      assert a.key !in Keys(all);
    }
    assert second != [] ==> second[0] in all && second[0].key in Keys(all) && second[0].key == RcbKey(ref, Parameters);
    assert enable.key in Keys(all) && enable.key == RcbKey(ref, Enable);
    forall a, b | a in acts && b in all && a.key !in Keys(all) && !(Rank(a.key.part) < Rank(b.key.part))
      ensures Parameters in Parts(acts) && second == [] && first != []
    {
      assert a.key == RcbKey(ref, a.key.part);
      assert a.key.part == Parameters ==> b in first;
    }
  }

  /** Trigger options changed, RptEna refused, and the undo of the change refused as well: the law holds only
      because restoring the parameters was given up, and the note that says so is dropped. */
  lemma UndoLostUnreported(ref: string, own: Option<Address>)
    ensures var first := RcbValues(true, false, false, None, None, ParamValues(1, 0, 0, 0));
            var changed := first.(params := ParamValues(2, 0, 0, 0));
            var request := map[TrgOps := 2];
            var all := AllUndos(ref, first, request, 1);
            var notes := [Note(RcbKey(ref, Parameters), Failed)];
            var t := Taking(ref, first, request, [], first, {}, all, true, notes, None, {Parameters});
            && UndoStep(all[0], map[ref := changed], map[ref := changed], Failed, own)
            && TakingOf(t, map[ref := first], {RcbKey(ref, Parameters)}, [], [], 1)
            && GivenUpBy(t, {}, map[ref := changed], {RcbKey(ref, Parameters)})
            && ParamsAt(ref, map[ref := first], map[ref := changed], [], {RcbKey(ref, Parameters)})
            && !ParamsAt(ref, map[ref := first], map[ref := changed], [], {})
  {
    var first := RcbValues(true, false, false, None, None, ParamValues(1, 0, 0, 0));
    var changed := first.(params := ParamValues(2, 0, 0, 0));
    var request := map[TrgOps := 2];
    assert TrgOps in Changed(first.params, request);
    assert changed.params.Get(TrgOps) != first.params.Get(TrgOps);
    var n := Note(RcbKey(ref, Parameters), Failed);
    assert n in [n];
    assert LostOf({RcbKey(ref, Parameters)}, ref) == {Parameters};
    assert LostOf({}, ref) == {};
  }

  class Subscription {
    const session: Session
    const cb: ControlBlock
    const initial: Rcb
    var received: nat
    var gaps: nat
    var lastSeq: Option<int>
    var active: bool
    /** What came out of the queue so far. */
    ghost var reports: seq<Report>

    constructor (session: Session, cb: ControlBlock, initial: Rcb)
      ensures this.session == session && this.cb == cb && this.initial == initial
      ensures reports == [] && CountIsTrue() && !active
    {
      this.session := session;
      this.cb := cb;
      this.initial := initial;
      received := 0;
      gaps := 0;
      lastSeq := None;
      active := false;
      reports := [];
    }

    /** SqNum is an INT16U in a buffered control block and an INT8U in an unbuffered one. */
    function SeqModulus(): nat {
      if initial.buffered then 65536 else 256
    }

    ghost predicate CountIsTrue()
      reads this
    {
      Counter(received, gaps, lastSeq) == Tally(SeqModulus(), reports)
    }

    /** The next report of the queue, None on a timeout; `gap` is how many are missing before it. */
    method Next(queued: Option<Report>) returns (gap: nat)
      requires CountIsTrue()
      modifies this`received, this`gaps, this`lastSeq, this`reports
      ensures CountIsTrue()
      ensures queued.None? ==> gap == 0 && reports == old(reports) && gaps == old(gaps)
      ensures queued.Some? ==> reports == old(reports) + [queued.value] && gaps == old(gaps) + gap
    {
      gap := 0;
      if queued.None? {
        return;
      }
      var r := queued.value;
      if r.seqNum.Some? && (r.subSeq.None? || r.subSeq == Some(0)) {
        if lastSeq.Some? {
          var expected := (lastSeq.value + 1) % SeqModulus();
          if r.seqNum.value != expected && r.seqNum.value != lastSeq.value {
            gap := (r.seqNum.value - expected) % SeqModulus();
            gaps := gaps + gap;
          }
        }
        lastSeq := r.seqNum;
      }
      received := received + 1;
      reports := reports + [r];
      assert reports[..|reports| - 1] == old(reports);
    }

    /** Over a whole run of reports numbered in two octets, or in one, `gaps` is the number of reports missing
        between the first and the last received exactly when no turn of the numbering was lost. */
    lemma GapsAreTrue(arrivals: seq<Arrival>, numbers: nat)
      requires numbers == if initial.buffered then 0x10000 else 0x100
      requires CountIsTrue() && reports == AsReports(numbers, arrivals) && Ordered(Numbers(arrivals))
      ensures received == |arrivals|
      ensures gaps == |Missing(Numbers(arrivals))| <==> FewLostInARow(numbers, Numbers(arrivals))
    {
      GapsCountTheMissing(numbers, arrivals);
    }
  }
}

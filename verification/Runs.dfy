/** Whole sessions: any sequence of the operations that change the device, each of which may fail. */
module Runs {
  import opened Results
  import opened Rcbs
  import opened Registry
  import opened Settings
  import opened Sessions
  import opened Reports
  import opened SetGroups
  import opened Controls

  datatype Operation =
    | Connect
    | Disconnect
    | Subscribe(cbs: seq<ControlBlock>, named: set<Address>, me: Option<string>, request: map<Param, int>, purge: bool, gi: bool)
    | Unsubscribe(ref: string)
    | EditGroup(group: int, assignments: seq<Assignment>, within: Option<string>, confirmation: Option<bool>)
    | ActivateGroup(ld: string, group: int, confirmation: Option<bool>)
    | Select(plan: ControlPlan, confirmed: bool)
    | Execute(plan: ControlPlan, confirmed: bool)
    | Cancel(obj: string)

  /** Objects whose plan could be made: not status-only. */
  predicate Feasible(op: Operation) {
    op.Execute? ==> op.plan.model in {1, 2, 3, 4}
  }

  predicate Numbered(sgcbs: map<string, Sgcb>) {
    forall l :: l in sgcbs ==> 0 !in sgcbs[l].groups
  }

  /** What every operation keeps: registered undos fit their keys, each of which is used once, every edit session of a setting group is
      closed, registered to be closed or reported, and the tool only believes in selections that stand. */
  ghost predicate Kept(session: Session)
    reads session, session.device
  {
    && session.Keyed()
    && (forall ld :: ld in session.device.sgcbs ==> session.EditCovered(ld))
    && Numbered(session.device.sgcbs)
    && Controls.Lawful(session)
  }

  /** Operations on one logical device leave the edit sessions of the others answered for. */
  lemma OtherEdits(ld: string, before: map<string, Sgcb>, cs: seq<CleanupAction>, after: map<string, Sgcb>, cs': seq<CleanupAction>,
                   told: set<Key>)
    requires after.Keys == before.Keys && forall l :: l in after && l != ld ==> after[l] == before[l]
    requires forall a :: a in cs ==> a in cs' || a.key == EditKey(ld)
    ensures forall l :: l != ld && EditDone(l, before, cs, told) ==> EditDone(l, after, cs', told)
  {
  }

  method PerformEdit(session: Session, group: int, assignments: seq<Assignment>, within: Option<string>, confirmation: Option<bool>)
    requires Kept(session)
    modifies session`link, session`cleanups, session.device`sgcbs
    ensures confirmation == Some(false) ==> StoresKept(old(session.device.sgcbs), session.device.sgcbs)
    ensures Kept(session)
    ensures forall a :: a in session.cleanups ==> a in old(session.cleanups) || a.key.EditKey?
    ensures forall r :: old(session.HeldFor(r)) ==> session.HeldFor(r)
    ensures forall r :: old(session.ParamsFor(r)) ==> session.ParamsFor(r)
    ensures forall r :: old(session.InOrderFor(r)) ==> session.InOrderFor(r)
  {
    hide Numbered, AllOrNothing, AllStored;
    ghost var before, cs := session.device.sgcbs, session.cleanups;
    NumberedMeans(before);
    var res, e := Edit(session, group, assignments, within, confirmation);
    if assignments != [] {
      var ld := assignments[0].ld;
      OtherEdits(ld, before, cs, session.device.sgcbs, session.cleanups, session.givenUp);
      StillNumbered(before, session.device.sgcbs, ld, group, assignments, res.confirmed, e);
    }
  }

  lemma NumberedMeans(sgcbs: map<string, Sgcb>)
    requires Numbered(sgcbs)
    ensures forall l :: l in sgcbs ==> 0 !in sgcbs[l].groups
  {
  }

  lemma StillNumbered(before: map<string, Sgcb>, after: map<string, Sgcb>, ld: string, group: int, assignments: seq<Assignment>,
                      confirmed: bool, e: Ending)
    requires Numbered(before) && after.Keys == before.Keys && forall l :: l in after && l != ld ==> after[l] == before[l]
    requires ld in after ==> AllOrNothing(before[ld], after[ld], group, assignments, confirmed, e)
    ensures Numbered(after)
  {
  }

  method PerformActivate(session: Session, ld: string, group: int, confirmation: Option<bool>)
    requires Kept(session)
    modifies session`link, session`cleanups, session.device`sgcbs
    ensures confirmation == Some(false) ==> StoresKept(old(session.device.sgcbs), session.device.sgcbs)
    ensures Kept(session)
    ensures forall a :: a in session.cleanups ==> a in old(session.cleanups) || a.key.EditKey?
    ensures forall r :: old(session.HeldFor(r)) ==> session.HeldFor(r)
    ensures forall r :: old(session.ParamsFor(r)) ==> session.ParamsFor(r)
    ensures forall r :: old(session.InOrderFor(r)) ==> session.InOrderFor(r)
  {
    var e := Activate(session, ld, group, confirmation);
  }

  /** A key of this subscription's control block whose undo did not complete and was not told. */
  ghost predicate Unreported(t: Taking, k: Key) {
    t.undone && (Session.Reported(t.dropped, k) || t.raised == Some(k) || k == RcbKey(t.ref, Enable))
  }

  /** One operation. `shown` are the notes of its undos, `raised` the key of one whose error went through. */
  method Perform(session: Session, op: Operation) returns (ghost taken: Option<Taking>, ghost shown: seq<Note>, ghost raised: Option<Key>)
    requires Feasible(op) && Kept(session)
    modifies session, session.device
    ensures Kept(session)
    ensures taken.Some? ==> Offers(op, taken.value.ref) && taken.value.leftover == ActionsOf(old(session.cleanups), taken.value.ref)
    ensures forall r :: old(NoneOf(session.cleanups, r)) && (taken.Some? ==> r != taken.value.ref) ==> NoneOf(session.cleanups, r)
    // the law for reservation and enabling is kept by every operation
    ensures forall r :: old(session.HeldFor(r)) ==> session.HeldFor(r)
    // that for the parameters, and the order of the undos, exactly as a subscription over leftovers keeps them
    ensures forall r :: old(session.ParamsFor(r)) && (taken.Some? ==> r != taken.value.ref) ==> session.ParamsFor(r)
    ensures taken.Some? && (old(session.ParamsFor(taken.value.ref)) || taken.value.leftover == []) ==>
              (session.ParamsFor(taken.value.ref) <==> taken.value.ParamsSurvive())
    ensures forall r :: old(session.InOrderFor(r)) && (taken.Some? ==> r != taken.value.ref) ==> session.InOrderFor(r)
    ensures taken.Some? && (old(session.InOrderFor(taken.value.ref)) || taken.value.leftover == []) ==>
              (session.InOrderFor(taken.value.ref) <==> taken.value.OrderSurvives())
    ensures taken.Some? && taken.value.leftover == [] ==> taken.value.ParamsSurvive() && taken.value.OrderSurvives()
    // what the operations are for
    ensures op.Connect? && session.device.cooperative ==> session.link == Up
    ensures op.Disconnect? ==> session.link == Down && session.cleanups == []
    ensures op.Unsubscribe? && raised.None? ==> ActionsOf(session.cleanups, op.ref) == []
    ensures op.Subscribe? && session.device.cooperative && old(session.link) == Up ==>
              (taken.None? <==> NoneToTake(session, op.cbs, old(session.device.rcbs), op.named, op.me))
    ensures (op.Execute? || op.Select?) && !op.confirmed ==> session.services == old(session.services)
    ensures (op.EditGroup? || op.ActivateGroup?) && op.confirmation == Some(false) ==>
              StoresKept(old(session.device.sgcbs), session.device.sgcbs)
    // every undo that did not complete was told, or lost after a refused RptEna
    ensures forall k :: k in session.givenUp ==>
              k in old(session.givenUp) || Session.Reported(shown, k) || raised == Some(k) || (taken.Some? && Unreported(taken.value, k))
  {
    hide HeldAt, ParamsAt, InUndoOrder, KeyedOnce, ActionsOf, LostOf, Session.Reported, TakingOf, GivenUpBy,
         Taking.ParamsSurvive, Taking.OrderSurvives, Session.Clean, Session.Restored, Unreported, Numbered, EditDone, OthersSame;
    taken, shown, raised := None, [], None;
    match op {
      case Connect =>
        var ok := session.Connect();
        LegalMore(old(session.services), Associated);
      case Disconnect =>
        shown := session.Disconnect();
        LegalMore(old(session.services), Released);
        StillNumberedGroups(old(session.device.sgcbs), session.device.sgcbs);
      case Subscribe(cbs, named, me, request, purge, gi) =>
        taken := PerformSubscribe(session, cbs, named, me, request, purge, gi);
      case Unsubscribe(ref) =>
        shown, raised := Stop(session, ref);
      case EditGroup(group, assignments, within, confirmation) =>
        PerformEdit(session, group, assignments, within, confirmation);
      case ActivateGroup(ld, group, confirmation) =>
        PerformActivate(session, ld, group, confirmation);
      case Select(plan, confirmed) =>
        var o := SelectOnly(session, plan, confirmed);
      case Execute(plan, confirmed) =>
        var o, sent := Controls.Execute(session, plan, confirmed);
      case Cancel(obj) =>
        var o := Controls.Cancel(session, obj);
    }
  }

  lemma StillNumberedGroups(before: map<string, Sgcb>, after: map<string, Sgcb>)
    requires StoresKept(before, after) && Numbered(before)
    ensures Numbered(after)
  {
  }

  method PerformSubscribe(session: Session, cbs: seq<ControlBlock>, named: set<Address>, me: Option<string>,
                          request: map<Param, int>, purge: bool, gi: bool) returns (ghost taken: Option<Taking>)
    requires Kept(session)
    modifies session`link, session`writes, session`cleanups, session`givenUp, session`subscriptions, session`first
    modifies session.device`rcbs, session.device`sgcbs
    ensures session.device.cooperative && old(session.link) == Up ==>
              (taken.None? <==> NoneToTake(session, cbs, old(session.device.rcbs), named, me))
    ensures Kept(session)
    ensures taken.Some? ==> (exists cb :: cb in cbs && cb.ref == taken.value.ref)
                            && taken.value.leftover == ActionsOf(old(session.cleanups), taken.value.ref)
    ensures forall r :: old(NoneOf(session.cleanups, r)) && (taken.Some? ==> r != taken.value.ref) ==> NoneOf(session.cleanups, r)
    ensures forall r :: old(session.HeldFor(r)) ==> session.HeldFor(r)
    ensures forall r :: old(session.ParamsFor(r)) && (taken.Some? ==> r != taken.value.ref) ==> session.ParamsFor(r)
    ensures taken.Some? && (old(session.ParamsFor(taken.value.ref)) || taken.value.leftover == []) ==>
              (session.ParamsFor(taken.value.ref) <==> taken.value.ParamsSurvive())
    ensures forall r :: old(session.InOrderFor(r)) && (taken.Some? ==> r != taken.value.ref) ==> session.InOrderFor(r)
    ensures taken.Some? && (old(session.InOrderFor(taken.value.ref)) || taken.value.leftover == []) ==>
              (session.InOrderFor(taken.value.ref) <==> taken.value.OrderSurvives())
    ensures taken.Some? && taken.value.leftover == [] ==> taken.value.ParamsSurvive() && taken.value.OrderSurvives()
    ensures forall k :: k in session.givenUp ==> k in old(session.givenUp) || (taken.Some? && Unreported(taken.value, k))
  {
    hide HeldAt, ParamsAt, InUndoOrder, KeyedOnce, LostOf, TakingOf, GivenUpBy, ActionsOf,
         Taking.ParamsSurvive, Taking.OrderSurvives, Numbered, EditDone, OthersSame, NobodyElses, Effect, RegisteredAll;
    ghost var cs, given, first := session.cleanups, session.givenUp, session.first;
    var r;
    ghost var sent;
    r, taken, sent := Reports.Subscribe(session, cbs, named, me, request, purge, gi);
    if taken.Some? {
      var t := taken.value;
      NobodyElsesActions(t.ref, old(session.device.rcbs), cs, given, session.device.rcbs, session.cleanups, session.givenUp);
      FreshStart(t, first, session.first, session.givenUp, cs, session.cleanups, session.generation);
      WhatIsLost(t, Standing(given, t), session.device.rcbs, session.givenUp,
                 session.first, cs, session.cleanups, session.generation);
    }
  }

  /** Nothing is registered for `ref`. */
  predicate NoneOf(cs: seq<CleanupAction>, ref: string) {
    forall a :: a in cs ==> !a.Of(ref)
  }

  lemma NobodyElsesActions(ref: string, now: map<string, Rcb>, cs: seq<CleanupAction>, given: set<Key>,
                           now': map<string, Rcb>, cs': seq<CleanupAction>, given': set<Key>)
    requires OthersSame(ref, now, cs, given, now', cs', given')
    ensures forall r :: r != ref && NoneOf(cs, r) ==> NoneOf(cs', r)
  {
  }

  /** An instance with nothing registered starts afresh. */
  lemma FreshStart(t: Taking, first: map<string, Rcb>, first': map<string, Rcb>, given: set<Key>, start: seq<CleanupAction>,
                   cs: seq<CleanupAction>, via: nat)
    requires TakingOf(t, first', given, start, cs, via) && first' == StartOf(first, start, t.ref, t.values)
    ensures t.leftover == ActionsOf(start, t.ref)
    ensures t.leftover == [] ==> t.ParamsSurvive() && t.OrderSurvives() && InUndoOrder(ActionsOf(start, t.ref))
  {
  }

  lemma WhatIsLost(t: Taking, before: set<Key>, now: map<string, Rcb>, after: set<Key>,
                   first: map<string, Rcb>, start: seq<CleanupAction>, cs: seq<CleanupAction>, via: nat)
    requires GivenUpBy(t, before, now, after) && TakingOf(t, first, after, start, cs, via)
    ensures forall k :: k in after ==> k in before || Unreported(t, k)
  {
    Session.NoneReported();
  }

  // ---------------------------------------------------------------- whole runs

  predicate Offers(op: Operation, ref: string) {
    op.Subscribe? && exists cb :: cb in op.cbs && cb.ref == ref
  }

  /** At most one of the operations is a subscription that may take `ref`. */
  predicate OfferedOnce(ops: seq<Operation>, ref: string) {
    forall i, j :: 0 <= i < j < |ops| && Offers(ops[i], ref) ==> !Offers(ops[j], ref)
  }

  predicate NeverTaken(takings: seq<Taking>, ref: string) {
    forall t :: t in takings ==> t.ref != ref
  }

  lemma {:induction false} OnceIsSafe(takings: seq<Taking>, ref: string)
    requires NeverTaken(takings, ref)
    ensures ParamsSafe(takings, ref) && OrderSafe(takings, ref)
  {
    if takings != [] {
      assert takings[|takings| - 1] in takings;
      OnceIsSafe(takings[..|takings| - 1], ref);
    }
  }

  /** A subscription that offers `ref` for the first time takes it with nothing registered. */
  lemma FirstTaking(takings: seq<Taking>, taken: Option<Taking>, ops: seq<Operation>, n: nat, cs: seq<CleanupAction>, ref: string)
    requires n < |ops| && OfferedOnce(ops, ref)
    requires forall t :: t in takings ==> exists i :: 0 <= i < n && Offers(ops[i], t.ref)
    requires NeverTaken(takings, ref) ==> NoneOf(cs, ref)
    requires ParamsSafe(takings, ref) && OrderSafe(takings, ref)
    requires taken.Some? ==> Offers(ops[n], taken.value.ref) && taken.value.leftover == ActionsOf(cs, taken.value.ref)
    ensures var ts := takings + if taken.Some? then [taken.value] else [];
            ParamsSafe(ts, ref) && OrderSafe(ts, ref)
  {
    if taken.Some? {
      var ts := takings + [taken.value];
      assert ts[..|ts| - 1] == takings && ts[|ts| - 1] == taken.value;
      if taken.value.ref == ref {
        assert NeverTaken(takings, ref);
        Reports.NoneOf(cs, ref);
      }
    } else {
      assert takings + [] == takings;
    }
  }

  /** Since `ref` was last taken with nothing of it registered, no subscription lost what was first read of
      its parameters. */
  predicate ParamsSafe(takings: seq<Taking>, ref: string) {
    takings == []
    ||
      var last := takings[|takings| - 1];
      if last.ref != ref then ParamsSafe(takings[..|takings| - 1], ref)
      else last.leftover == [] || (last.ParamsSurvive() && ParamsSafe(takings[..|takings| - 1], ref))
  }

  /** Nor did one put its undos out of order. */
  predicate OrderSafe(takings: seq<Taking>, ref: string) {
    takings == []
    ||
      var last := takings[|takings| - 1];
      if last.ref != ref then OrderSafe(takings[..|takings| - 1], ref)
      else last.leftover == [] || (last.OrderSurvives() && OrderSafe(takings[..|takings| - 1], ref))
  }

  /** Told with a note, raised to the operator, or lost after a refused RptEna. */
  ghost predicate AccountedFor(k: Key, shown: seq<Note>, raised: set<Key>, takings: seq<Taking>) {
    Session.Reported(shown, k) || k in raised || exists t :: t in takings && Unreported(t, k)
  }

  lemma MoreAccounts(shown: seq<Note>, raised: set<Key>, takings: seq<Taking>,
                     shown': seq<Note>, raised': Option<Key>, taken: Option<Taking>)
    ensures var all := raised + if raised'.Some? then {raised'.value} else {};
            var ts := takings + if taken.Some? then [taken.value] else [];
            forall k :: AccountedFor(k, shown, raised, takings) || Session.Reported(shown', k) || raised' == Some(k)
                        || (taken.Some? && Unreported(taken.value, k)) ==>
              AccountedFor(k, shown + shown', all, ts)
  {
    hide Unreported;
    var ts := takings + if taken.Some? then [taken.value] else [];
    forall n | n in shown || n in shown'
      ensures n in shown + shown'
    {
    }
    forall t | t in takings || (taken.Some? && t == taken.value)
      ensures t in ts
    {
    }
  }

  lemma NothingTaken()
    ensures forall r :: ParamsSafe([], r) && OrderSafe([], r) && NeverTaken([], r)
  {
  }

  /** What one more subscription makes of them. */
  lemma MoreTakings(before: seq<Taking>, taken: Option<Taking>, ts: seq<Taking>)
    requires ts == before + if taken.Some? then [taken.value] else []
    ensures forall r :: ParamsSafe(ts, r) && (taken.Some? ==> r != taken.value.ref) ==> ParamsSafe(before, r)
    ensures forall r :: OrderSafe(ts, r) && (taken.Some? ==> r != taken.value.ref) ==> OrderSafe(before, r)
    ensures taken.Some? && ParamsSafe(ts, taken.value.ref) ==>
              taken.value.leftover == [] || (taken.value.ParamsSurvive() && ParamsSafe(before, taken.value.ref))
    ensures taken.Some? && OrderSafe(ts, taken.value.ref) ==>
              taken.value.leftover == [] || (taken.value.OrderSurvives() && OrderSafe(before, taken.value.ref))
    ensures forall r :: NeverTaken(ts, r) ==> NeverTaken(before, r) && (taken.Some? ==> r != taken.value.ref)
  {
    hide Taking.ParamsSurvive, Taking.OrderSurvives;
    if taken.Some? {
      assert ts[..|ts| - 1] == before && ts[|ts| - 1] == taken.value;
      assert taken.value in ts && forall t :: t in before ==> t in ts;
    } else {
      assert ts == before;
    }
  }

  /** A session begins with nothing changed. */
  lemma NewSession(session: Session)
    requires session.cleanups == [] && session.givenUp == {} && session.first == session.device.rcbs
    ensures session.Keyed()
    ensures forall r :: r in session.device.rcbs ==> session.HeldFor(r) && session.ParamsFor(r)
    ensures forall r :: session.InOrderFor(r) && NoneOf(session.cleanups, r)
  {
  }

  /** Over a whole run from a new session on a device where no edit is open:
      every Operate on a select-before-operate object follows a successful select of it in the same
      association, not yet used by an operate or an answered cancel; every edit session is closed, registered
      or given up; every reservation and RptEna that is not as it was first read is registered to be undone or
      given up, and so is every parameter, and the undos are in order, as long as no subscription over leftovers
      lost or moved them, which takes a second subscription; and what was given up was told, raised, or lost
      after a refused RptEna. */
  method Run(session: Session, ops: seq<Operation>)
    returns (ghost takings: seq<Taking>, ghost shown: seq<Note>, ghost raised: set<Key>)
    requires session.services == [] && session.selected == {} && session.cleanups == []
    requires session.givenUp == {} && session.first == session.device.rcbs
    requires forall op :: op in ops ==> Feasible(op)
    requires Numbered(session.device.sgcbs) && forall ld :: ld in session.device.sgcbs ==> session.device.sgcbs[ld].editing == 0
    modifies session, session.device
    ensures forall i :: 0 <= i < |session.services| && session.services[i].Operated? && session.services[i].sbo ==>
              exists j :: StandsFrom(session.services[..i], session.services[i].obj, j)
    ensures forall ld :: ld in session.device.sgcbs ==> session.EditCovered(ld)
    ensures forall r :: r in old(session.device.rcbs) ==> session.HeldFor(r)
    ensures forall r :: r in old(session.device.rcbs) && ParamsSafe(takings, r) ==> session.ParamsFor(r)
    ensures forall r :: OrderSafe(takings, r) ==> session.InOrderFor(r)
    ensures forall r :: OfferedOnce(ops, r) ==> ParamsSafe(takings, r) && OrderSafe(takings, r)
    ensures forall t :: t in takings ==> exists op :: op in ops && Offers(op, t.ref)
    ensures forall k :: k in session.givenUp ==> AccountedFor(k, shown, raised, takings)
    ensures ops != [] && ops[|ops| - 1].Disconnect? ==> session.link == Down && session.cleanups == []
  {
    hide HeldAt, ParamsAt, InUndoOrder, ActionsOf, Taking.ParamsSurvive, Taking.OrderSurvives, AccountedFor, Unreported, Session.Reported, NoneOf, Offers, OfferedOnce, ParamsSafe, OrderSafe, NeverTaken;
    takings, shown, raised := [], [], {};
    NewSession(session);
    NothingTaken();
    for n := 0 to |ops|
      invariant Kept(session)
      invariant forall r :: r in old(session.device.rcbs) ==> session.HeldFor(r)
      invariant forall r :: r in old(session.device.rcbs) && ParamsSafe(takings, r) ==> session.ParamsFor(r)
      invariant forall r :: OrderSafe(takings, r) ==> session.InOrderFor(r)
      invariant forall r :: OfferedOnce(ops, r) ==> ParamsSafe(takings, r) && OrderSafe(takings, r)
      invariant forall t :: t in takings ==> exists i :: 0 <= i < n && Offers(ops[i], t.ref)
      invariant forall r :: NeverTaken(takings, r) ==> NoneOf(session.cleanups, r)
      invariant forall k :: k in session.givenUp ==> AccountedFor(k, shown, raised, takings)
      invariant n > 0 && ops[n - 1].Disconnect? ==> session.link == Down && session.cleanups == []
    {
      assert ops[n] in ops;
      ghost var before, cs := takings, session.cleanups;
      ghost var taken, notes, key := Perform(session, ops[n]);
      takings := before + if taken.Some? then [taken.value] else [];
      MoreTakings(before, taken, takings);
      forall r | OfferedOnce(ops, r)
        ensures ParamsSafe(takings, r) && OrderSafe(takings, r)
      {
        FirstTaking(before, taken, ops, n, cs, r);
      }
      MoreAccounts(shown, raised, before, notes, key, taken);
      shown, raised := shown + notes, raised + if key.Some? then {key.value} else {};
    }
    forall i | 0 <= i < |session.services| && session.services[i].Operated? && session.services[i].sbo
      ensures exists j :: StandsFrom(session.services[..i], session.services[i].obj, j)
    {
      HoldingMeans(session.services[..i], session.services[i].obj);
    }
  }
}

/** Setting groups: the select-edit-confirm sequence of a setting group control block. */
module SetGroups {
  import opened Results
  import opened Values
  import opened Registry
  import opened Settings
  import opened Devices
  import opened Sessions

  datatype Assignment = Assignment(ld: string, ref: string, value: Value)

  datatype Rejection = NothingToEdit | AmbiguousSgcb | NoSettingGroups | InvalidGroup

  /** How the attempt ended; all but the first two are raised to the caller. */
  datatype Ending = Finished | ServiceFailed | Disconnection | KeyboardInterrupt | Declined | Rejected(why: Rejection)

  /** `refused`: a value was refused. */
  datatype EditResult = EditResult(confirmed: bool, verified: Option<bool>, refused: bool)

  const NOT_YET := EditResult(false, None, false)

  function EndingOf(reply: Reply): Ending {
    match reply
    case Done => Finished
    case Refused => ServiceFailed
    case NotConnected => Disconnection
    case Interrupted => KeyboardInterrupt
  }

  // ---------------------------------------------------------------- what an edit means

  function Assigned(base: SettingValues, assignments: seq<Assignment>): SettingValues {
    if assignments == [] then base
    else
      var last := assignments[|assignments| - 1];
      Assigned(base, assignments[..|assignments| - 1])[last.ref := last.value]
  }

  /** The last value asked for wins. */
  lemma {:induction false} AssignedLast(base: SettingValues, assignments: seq<Assignment>, i: nat)
    requires i < |assignments| && forall j :: i < j < |assignments| ==> assignments[j].ref != assignments[i].ref
    ensures assignments[i].ref in Assigned(base, assignments)
    ensures Assigned(base, assignments)[assignments[i].ref] == assignments[i].value
  {
    if i < |assignments| - 1 {
      AssignedLast(base, assignments[..|assignments| - 1], i);
    }
  }

  /** A setting not asked for keeps its value. */
  lemma {:induction false} NotAssigned(base: SettingValues, assignments: seq<Assignment>, ref: string)
    requires forall a :: a in assignments ==> a.ref != ref
    ensures ref in Assigned(base, assignments) <==> ref in base
    ensures ref in base ==> Assigned(base, assignments)[ref] == base[ref]
  {
    if assignments != [] {
      var n := |assignments| - 1;
      assert assignments[n] in assignments && forall a :: a in assignments[..n] ==> a in assignments;
      NotAssigned(base, assignments[..n], ref);
    }
  }

  /** Everything asked for is what is stored: false when one setting was given two values. */
  predicate AllStored(values: SettingValues, assignments: seq<Assignment>) {
    forall i :: 0 <= i < |assignments| ==>
      assignments[i].ref in values && Same(values[assignments[i].ref], assignments[i].value)
  }

  lemma DistinctAllStored(base: SettingValues, assignments: seq<Assignment>)
    requires forall i, j :: 0 <= i < j < |assignments| ==> assignments[i].ref != assignments[j].ref
    ensures AllStored(Assigned(base, assignments), assignments)
  {
  }

  /** No group stores anything new, and none is activated. */
  predicate NothingStored(before: Sgcb, after: Sgcb) {
    after.groups == before.groups && after.active == before.active
  }

  /** Group `group` stores every value asked for, and no other group changes. */
  predicate AllOfIt(before: Sgcb, after: Sgcb, group: int, assignments: seq<Assignment>) {
    && group in before.groups
    && after.groups == before.groups[group := Assigned(before.groups[group], assignments)]
    && after.active == before.active
  }

  /** All or nothing. An interrupt or an error while CnfEdit is written leaves open which. */
  predicate AllOrNothing(before: Sgcb, after: Sgcb, group: int, assignments: seq<Assignment>, confirmed: bool, e: Ending) {
    if confirmed then AllOfIt(before, after, group, assignments)
    else NothingStored(before, after) || ((e.KeyboardInterrupt? || e.ServiceFailed?) && AllOfIt(before, after, group, assignments))
  }

  // ---------------------------------------------------------------- the services used

  /** Nothing but the SGCB of `ld` changed on the device. */
  twostate predicate OnlySgcb(session: Session, ld: string)
    reads session, session.device
  {
    && session.device.sgcbs.Keys == old(session.device.sgcbs).Keys
    && (forall l :: l in session.device.sgcbs && l != ld ==> session.device.sgcbs[l] == old(session.device.sgcbs)[l])
    && (session.link == old(session.link) || (old(session.link) == Up && session.link == Lost))
    && (session.device.cooperative ==> session.link == old(session.link))
  }

  /** `_write_field`. */
  method WriteField(session: Session, ld: string, w: SettingWrite) returns (e: Ending)
    requires ld in session.device.sgcbs
    modifies session`link, session.device`sgcbs
    ensures OnlySgcb(session, ld)
    ensures e.KeyboardInterrupt? ==> session.interruptible
    ensures e in {Finished, ServiceFailed, Disconnection, KeyboardInterrupt} && (e.Disconnection? <==> old(session.link) != Up)
    ensures var before, after := old(session.device.sgcbs)[ld], session.device.sgcbs[ld];
            && (e.Finished? ==> Possible(before, w) && after == Performed(before, w))
            && (e.Disconnection? ==> after == before)
            && (e.KeyboardInterrupt? || e.ServiceFailed? ==> after == before || (Possible(before, w) && after == Performed(before, w)))
    ensures session.device.cooperative && old(session.link) == Up && Possible(old(session.device.sgcbs)[ld], w) ==>
              e.Finished? || e.KeyboardInterrupt?
  {
    var reply := session.WriteSetting(ld, w, false);
    e := EndingOf(reply);
  }

  /** Write a setting through the client the edit began with: on a lost association that is a refusal. */
  method PutValue(session: Session, ld: string, ref: string, value: Value) returns (e: Ending)
    requires ld in session.device.sgcbs
    modifies session`link, session.device`sgcbs
    ensures OnlySgcb(session, ld)
    ensures e.KeyboardInterrupt? ==> session.interruptible
    ensures e in {Finished, ServiceFailed, KeyboardInterrupt}
    ensures var before, after := old(session.device.sgcbs)[ld], session.device.sgcbs[ld];
            && (e.Finished? ==> after == before.(buffer := before.buffer[ref := value]))
            && (e.KeyboardInterrupt? || e.ServiceFailed? ==> after == before.(buffer := after.buffer))
    ensures session.device.cooperative && old(session.link) == Up && old(session.device.sgcbs)[ld].editing in old(session.device.sgcbs)[ld].groups ==>
              e.Finished? || e.KeyboardInterrupt?
  {
    if !session.Connected() {
      return ServiceFailed;
    }
    e := WriteField(session, ld, PutSetting(ref, value));
  }

  /** Read an SE value. */
  method ReadValue(session: Session, ld: string, ref: string) returns (e: Ending, value: Value)
    requires ld in session.device.sgcbs
    modifies session`link
    ensures OnlySgcb(session, ld)
    ensures e.KeyboardInterrupt? ==> session.interruptible
    ensures e in {Finished, ServiceFailed, KeyboardInterrupt}
    ensures e.Finished? && ref in session.device.sgcbs[ld].buffer ==> value == session.device.sgcbs[ld].buffer[ref]
    ensures session.device.cooperative && old(session.link) == Up ==> e.Finished? || e.KeyboardInterrupt?
  {
    value := AccessError("mms-data", Some(10), "object-non-existent");
    var fails: bool, interrupt: bool := *, *;
    if session.link != Up || (fails && !session.device.cooperative) {
      if fails && session.link == Up {
        session.link := Lost;
      }
      return ServiceFailed, value;
    }
    if interrupt && session.interruptible {
      return KeyboardInterrupt, value;
    }
    if ref in session.device.sgcbs[ld].buffer {
      value := session.device.sgcbs[ld].buffer[ref];
    }
    e := Finished;
  }

  // ---------------------------------------------------------------- the edit

  /** Write every value; a refused one does not stop the others. */
  method PutAll(session: Session, ld: string, assignments: seq<Assignment>) returns (e: Ending, refused: bool)
    requires ld in session.device.sgcbs
    modifies session`link, session.device`sgcbs
    ensures OnlySgcb(session, ld)
    ensures e.KeyboardInterrupt? ==> session.interruptible
    ensures e in {Finished, KeyboardInterrupt}
    ensures var before, after := old(session.device.sgcbs)[ld], session.device.sgcbs[ld];
            && after == before.(buffer := after.buffer)
            && (e.Finished? && !refused ==> after.buffer == Assigned(before.buffer, assignments))
    ensures session.device.cooperative && old(session.link) == Up && old(session.device.sgcbs)[ld].editing in old(session.device.sgcbs)[ld].groups ==>
              !refused
  {
    refused := false;
    for i := 0 to |assignments|
      invariant OnlySgcb(session, ld)
      invariant session.device.sgcbs[ld] == old(session.device.sgcbs)[ld].(buffer := session.device.sgcbs[ld].buffer)
      invariant !refused ==> session.device.sgcbs[ld].buffer == Assigned(old(session.device.sgcbs)[ld].buffer, assignments[..i])
      invariant session.device.cooperative && old(session.link) == Up
                && old(session.device.sgcbs)[ld].editing in old(session.device.sgcbs)[ld].groups ==>
                  !refused
    {
      e := PutValue(session, ld, assignments[i].ref, assignments[i].value);
      if e.KeyboardInterrupt? {
        return;
      }
      if e.ServiceFailed? {
        refused := true;
      }
      assert assignments[..i + 1][..i] == assignments[..i];
    }
    assert assignments[..|assignments|] == assignments;
    e := Finished;
  }

  /** Read every setting of the edit, for the operator to confirm, or to verify what was stored. */
  method ReadAll(session: Session, ld: string, assignments: seq<Assignment>) returns (e: Ending, applied: bool)
    requires ld in session.device.sgcbs
    modifies session`link
    ensures OnlySgcb(session, ld)
    ensures e.KeyboardInterrupt? ==> session.interruptible
    ensures e in {Finished, ServiceFailed, KeyboardInterrupt}
    ensures e.Finished? && (forall a :: a in assignments ==> a.ref in session.device.sgcbs[ld].buffer) ==>
              applied == AllStored(session.device.sgcbs[ld].buffer, assignments)
    ensures session.device.cooperative && old(session.link) == Up ==> e.Finished? || e.KeyboardInterrupt?
  {
    applied := true;
    for i := 0 to |assignments|
      invariant OnlySgcb(session, ld)
      invariant (forall a :: a in assignments ==> a.ref in session.device.sgcbs[ld].buffer) ==>
                  applied == AllStored(session.device.sgcbs[ld].buffer, assignments[..i])
    {
      var value: Value;
      e, value := ReadValue(session, ld, assignments[i].ref);
      if !e.Finished? {
        return;
      }
      if !Same(value, assignments[i].value) {
        applied := false;
      }
      assert assignments[i] in assignments;
      assert assignments[..i + 1] == assignments[..i] + [assignments[i]];
    }
    assert assignments[..|assignments|] == assignments;
    e := Finished;
  }

  /** EditSG := 0 and forget the cleanup. */
  method Release(session: Session, ld: string) returns (e: Ending)
    requires ld in session.device.sgcbs
    modifies session`link, session`cleanups, session.device`sgcbs
    ensures OnlySgcb(session, ld)
    ensures e.KeyboardInterrupt? ==> session.interruptible
    ensures e in {Finished, ServiceFailed, Disconnection, KeyboardInterrupt}
    ensures NothingStored(old(session.device.sgcbs)[ld], session.device.sgcbs[ld])
    ensures e.Finished? ==> session.device.sgcbs[ld].editing == 0 && session.cleanups == Dropped(old(session.cleanups), EditKey(ld))
    ensures !e.Finished? ==> session.cleanups == old(session.cleanups)
    ensures session.device.cooperative && old(session.link) == Up ==> e.Finished? || e.KeyboardInterrupt?
  {
    e := WriteField(session, ld, SelectEdit(0));
    if e.Finished? {
      session.DropCleanup(EditKey(ld));
    }
  }

  /** What is inside the `try`: select, ask, write, confirm, verify, release. */
  method Attempt(session: Session, ld: string, group: int, assignments: seq<Assignment>, confirmation: Option<bool>)
    returns (res: EditResult, e: Ending)
    requires ld in session.device.sgcbs && 0 !in session.device.sgcbs[ld].groups
    requires EditKey(ld) in Keys(session.cleanups)
    modifies session`link, session`cleanups, session.device`sgcbs
    ensures OnlySgcb(session, ld)
    ensures e.KeyboardInterrupt? ==> session.interruptible
    ensures AllOrNothing(old(session.device.sgcbs)[ld], session.device.sgcbs[ld], group, assignments, res.confirmed, e)
    ensures !e.Rejected? && (e.Declined? ==> confirmation == Some(false))
    ensures confirmation == Some(false) ==> NothingStored(old(session.device.sgcbs)[ld], session.device.sgcbs[ld]) && !e.Finished? && !res.confirmed
    ensures e.Finished? ==> session.device.sgcbs[ld].editing == 0 && session.cleanups == Dropped(old(session.cleanups), EditKey(ld))
                            && (res.confirmed == !res.refused == res.verified.Some?)
    ensures !e.Finished? ==> session.cleanups == old(session.cleanups)
    ensures res.verified.Some? ==>
              && group in session.device.sgcbs[ld].groups
              && res.verified.value == AllStored(session.device.sgcbs[ld].groups[group], assignments)
    ensures session.device.cooperative && old(session.link) == Up && group in old(session.device.sgcbs)[ld].groups ==>
              (e.Finished? && res.confirmed) || e.KeyboardInterrupt? || e.Declined?
  {
    hide Assigned, AllStored, Dropped, Keys;
    res := NOT_YET;
    ghost var start := session.device.sgcbs[ld];
    e := WriteField(session, ld, SelectEdit(group));
    if !e.Finished? {
      return;
    }
    var applied: bool, refused: bool;
    e, applied := ReadAll(session, ld, assignments);
    if !e.Finished? {
      return;
    }
    if confirmation == Some(false) {
      return res, Declined;
    }
    e, refused := PutAll(session, ld, assignments);
    if !e.Finished? {
      return;
    }
    if refused {
      res := res.(refused := true);
      e := Release(session, ld);
      return;
    }
    e := WriteField(session, ld, ConfirmEdit);
    if !e.Finished? {
      return;
    }
    res := res.(confirmed := true);
    AssignedHas(start.groups[group], assignments);
    var verified: Option<bool>;
    e, verified := Verify(session, ld, group, assignments);
    res := res.(verified := verified);
  }

  /** Select the group again, read the values back and release the edit session. */
  method Verify(session: Session, ld: string, group: int, assignments: seq<Assignment>)
    returns (e: Ending, verified: Option<bool>)
    requires ld in session.device.sgcbs && group in session.device.sgcbs[ld].groups && group != 0
    requires forall a :: a in assignments ==> a.ref in session.device.sgcbs[ld].groups[group]
    modifies session`link, session`cleanups, session.device`sgcbs
    ensures OnlySgcb(session, ld) && NothingStored(old(session.device.sgcbs)[ld], session.device.sgcbs[ld])
    ensures e.KeyboardInterrupt? ==> session.interruptible
    ensures e in {Finished, ServiceFailed, Disconnection, KeyboardInterrupt}
    ensures e.Finished? ==> session.device.sgcbs[ld].editing == 0 && session.cleanups == Dropped(old(session.cleanups), EditKey(ld))
                            && verified.Some?
    ensures !e.Finished? ==> session.cleanups == old(session.cleanups)
    ensures verified.Some? ==> verified.value == AllStored(old(session.device.sgcbs)[ld].groups[group], assignments)
    ensures session.device.cooperative && old(session.link) == Up ==> e.Finished? || e.KeyboardInterrupt?
  {
    hide AllStored, Dropped, Keys;
    verified := None;
    e := WriteField(session, ld, SelectEdit(group));
    if !e.Finished? {
      return;
    }
    var applied: bool;
    e, applied := ReadAll(session, ld, assignments);
    if !e.Finished? {
      return;
    }
    verified := Some(applied);
    e := Release(session, ld);
  }

  lemma {:induction false} AssignedHas(base: SettingValues, assignments: seq<Assignment>)
    ensures forall a :: a in assignments ==> a.ref in Assigned(base, assignments)
  {
    if assignments != [] {
      var n := |assignments| - 1;
      AssignedHas(base, assignments[..n]);
      assert assignments == assignments[..n] + [assignments[n]];
    }
  }

  /** NumOfSG, None when it cannot be read. The groups of a device are numbered from 1. */
  method ReadNumOfSG(session: Session, ld: string) returns (num: Option<int>)
    requires ld in session.device.sgcbs
    modifies session`link
    ensures OnlySgcb(session, ld)
    ensures session.device.cooperative && old(session.link) == Up ==> num.Some?
    ensures num.Some? ==> num.value == |session.device.sgcbs[ld].groups|
  {
    var fails: bool := *;
    if session.link != Up || (fails && !session.device.cooperative) {
      return None;
    }
    num := Some(|session.device.sgcbs[ld].groups|);
  }

  /** All settings of one edit must be in the same logical device. */
  predicate AllOf(assignments: seq<Assignment>, ld: string) {
    forall a :: a in assignments ==> a.ld == ld
  }

  /** Change the active setting group. */
  method Activate(session: Session, ld: string, group: int, confirmation: Option<bool>) returns (e: Ending)
    modifies session`link, session`cleanups, session.device`sgcbs
    ensures OnlySgcb(session, ld) && session.cleanups == old(session.cleanups)
    ensures e.KeyboardInterrupt? ==> session.interruptible
    ensures old(session.link) != Up ==> e == Disconnection
    ensures old(session.link) == Up ==> (e == Rejected(NoSettingGroups) <==> ld !in session.device.sgcbs)
    ensures e.Rejected? && ld in session.device.sgcbs ==>
              e == Rejected(InvalidGroup) && !(1 <= group <= |session.device.sgcbs[ld].groups|)
    ensures ld in session.device.sgcbs ==>
              var before, after := old(session.device.sgcbs)[ld], session.device.sgcbs[ld];
              if e.Finished? then group in before.groups && after == before.(active := group)
              else after == before || ((e.KeyboardInterrupt? || e.ServiceFailed?) && group in before.groups && after == before.(active := group))
    ensures e.Declined? ==> confirmation == Some(false)
    ensures confirmation == Some(false) ==> session.device.sgcbs == old(session.device.sgcbs) && !e.Finished?
    // a cooperative device does what it is asked to
    ensures session.device.cooperative && old(session.link) == Up && ld in old(session.device.sgcbs) ==>
              var groups := old(session.device.sgcbs)[ld].groups;
              if !(1 <= group <= |groups|) then e == Rejected(InvalidGroup)
              else if confirmation == Some(false) then e == Declined
              else group in groups ==> e.Finished? || e.KeyboardInterrupt?
  {
    if !session.Connected() {
      return Disconnection;
    }
    if ld !in session.device.sgcbs {
      return Rejected(NoSettingGroups);
    }
    var num := ReadNumOfSG(session, ld);
    if num.Some? && !(1 <= group <= num.value) {
      return Rejected(InvalidGroup);
    }
    if confirmation == Some(false) {
      return Declined;
    }
    e := WriteField(session, ld, SelectActive(group));
  }

  /** The settings are all in one logical device, and in the one asked for, if any. */
  predicate InOneDevice(assignments: seq<Assignment>, ld: Option<string>) {
    forall i, j :: 0 <= i < |assignments| && 0 <= j < |assignments| ==>
      assignments[i].ld == assignments[j].ld && (ld.Some? ==> assignments[i].ld == ld.value)
  }

  lemma OneDevice(assignments: seq<Assignment>, target: string, ld: Option<string>)
    requires assignments != [] && assignments[0].ld == target
    ensures InOneDevice(assignments, ld) <==> AllOf(assignments, target) && (ld.Some? ==> ld.value == target)
  {
  }

  /** Why an edit is rejected before anything is sent, but for a group that does not exist. */
  function Objection(assignments: seq<Assignment>, ld: Option<string>, sgcbs: map<string, Sgcb>): Option<Rejection> {
    if assignments == [] then Some(NothingToEdit)
    else if !InOneDevice(assignments, ld) then Some(AmbiguousSgcb)
    else if assignments[0].ld !in sgcbs then Some(NoSettingGroups)
    else None
  }

  /** Edit a setting group: the values are given as pairs of a setting and a value. */
  method Edit(session: Session, group: int, assignments: seq<Assignment>, ld: Option<string>, confirmation: Option<bool>)
    returns (res: EditResult, e: Ending)
    requires session.Keyed() && forall l :: l in session.device.sgcbs ==> 0 !in session.device.sgcbs[l].groups
    modifies session`link, session`cleanups, session.device`sgcbs
    ensures e.Rejected? ==> session.device.sgcbs == old(session.device.sgcbs) && session.cleanups == old(session.cleanups)
    ensures e.KeyboardInterrupt? ==> session.interruptible
    // what is rejected, and why
    ensures old(session.link) != Up ==> e == Disconnection
    ensures old(session.link) == Up && assignments == [] ==> e == Rejected(NothingToEdit)
    ensures old(session.link) == Up && assignments != [] && !InOneDevice(assignments, ld) ==> e == Rejected(AmbiguousSgcb)
    ensures old(session.link) == Up && assignments != [] && InOneDevice(assignments, ld) && assignments[0].ld !in old(session.device.sgcbs) ==>
              e == Rejected(NoSettingGroups)
    ensures e.Rejected? && Objection(assignments, ld, old(session.device.sgcbs)).None? ==>
              e == Rejected(InvalidGroup) && !(1 <= group <= |old(session.device.sgcbs)[assignments[0].ld].groups|)
    ensures e.Declined? ==> confirmation == Some(false)
    ensures confirmation == Some(false) ==> StoresKept(old(session.device.sgcbs), session.device.sgcbs) && !e.Finished? && !res.confirmed
    // only the one logical device is touched, and in its groups the edit is done whole or not at all
    ensures assignments != [] ==> OnlySgcb(session, assignments[0].ld)
    ensures assignments != [] && assignments[0].ld in session.device.sgcbs ==>
              AllOrNothing(old(session.device.sgcbs)[assignments[0].ld], session.device.sgcbs[assignments[0].ld],
                           group, assignments, res.confirmed, e)
    // the edit session is over, or will be
    ensures || (session.device.sgcbs == old(session.device.sgcbs) && session.cleanups == old(session.cleanups))
            || (assignments != [] && session.EditCovered(assignments[0].ld))
    ensures forall a :: a in session.cleanups ==> a in old(session.cleanups) || a.key.EditKey?
    ensures forall a :: a in old(session.cleanups) ==> a in session.cleanups || (assignments != [] && a.key == EditKey(assignments[0].ld))
    ensures session.Keyed()
    ensures forall r :: old(session.HeldFor(r)) ==> session.HeldFor(r)
    ensures forall r :: old(session.ParamsFor(r)) ==> session.ParamsFor(r)
    ensures forall r :: old(session.InOrderFor(r)) ==> session.InOrderFor(r)
    // what a returned result says
    ensures e.Finished? || e.ServiceFailed? ==> assignments != [] && AllOf(assignments, assignments[0].ld)
    ensures e.Finished? ==> assignments[0].ld in session.device.sgcbs && session.device.sgcbs[assignments[0].ld].editing == 0
                            && (res.confirmed == !res.refused == res.verified.Some?)
    ensures res.verified.Some? ==>
              && assignments != [] && assignments[0].ld in session.device.sgcbs
              && group in session.device.sgcbs[assignments[0].ld].groups
              && res.verified.value == AllStored(session.device.sgcbs[assignments[0].ld].groups[group], assignments)
    // a cooperative device stores what it is asked to, unless the operator stops it, and ends the edit
    ensures session.device.cooperative && old(session.link) == Up && Objection(assignments, ld, old(session.device.sgcbs)).None? ==>
              var sgcb := old(session.device.sgcbs)[assignments[0].ld];
              if !(1 <= group <= |sgcb.groups|) then e == Rejected(InvalidGroup)
              else if confirmation == Some(false) then group in sgcb.groups ==> e.Declined? || e.KeyboardInterrupt?
              else group in sgcb.groups ==> (e.Finished? && res.confirmed) || e.KeyboardInterrupt?
    ensures session.device.cooperative && old(session.link) == Up && assignments != [] && assignments[0].ld in session.device.sgcbs
            && !e.Rejected? && !e.KeyboardInterrupt? ==>
              session.device.sgcbs[assignments[0].ld].editing == 0
  {
    hide Assigned, AllStored, KeyedOnce, HeldAt, ParamsAt, InUndoOrder, ActionsOf, Registered, Dropped;
    res := NOT_YET;
    if !session.Connected() {
      return res, Disconnection;
    }
    if assignments == [] {
      return res, Rejected(NothingToEdit);
    }
    var target := assignments[0].ld;
    OneDevice(assignments, target, ld);
    if !AllOf(assignments, target) || (ld.Some? && ld.value != target) {
      return res, Rejected(AmbiguousSgcb);
    }
    if target !in session.device.sgcbs {
      return res, Rejected(NoSettingGroups);
    }
    var num := ReadNumOfSG(session, target);
    if num.Some? && !(1 <= group <= num.value) {
      return res, Rejected(InvalidGroup);
    }
    res, e := EditUnderCleanup(session, target, group, assignments, confirmation);
  }

  /** Register the end of the edit, attempt it, and end it wherever it stopped. */
  method EditUnderCleanup(session: Session, ld: string, group: int, assignments: seq<Assignment>, confirmation: Option<bool>)
    returns (res: EditResult, e: Ending)
    requires session.Keyed() && ld in session.device.sgcbs && 0 !in session.device.sgcbs[ld].groups
    modifies session`link, session`cleanups, session.device`sgcbs
    ensures OnlySgcb(session, ld) && session.EditCovered(ld) && !e.Rejected?
    ensures AllOrNothing(old(session.device.sgcbs)[ld], session.device.sgcbs[ld], group, assignments, res.confirmed, e)
    ensures forall a :: a in session.cleanups ==> a in old(session.cleanups) || a.key.EditKey?
    ensures forall a :: a in old(session.cleanups) ==> a in session.cleanups || a.key == EditKey(ld)
    ensures session.Keyed()
    ensures forall r :: old(session.HeldFor(r)) ==> session.HeldFor(r)
    ensures forall r :: old(session.ParamsFor(r)) ==> session.ParamsFor(r)
    ensures forall r :: old(session.InOrderFor(r)) ==> session.InOrderFor(r)
    ensures e.Finished? ==> session.device.sgcbs[ld].editing == 0 && (res.confirmed == !res.refused == res.verified.Some?)
    ensures res.verified.Some? ==>
              && group in session.device.sgcbs[ld].groups
              && res.verified.value == AllStored(session.device.sgcbs[ld].groups[group], assignments)
    ensures e.KeyboardInterrupt? ==> session.interruptible
    ensures e.Declined? ==> confirmation == Some(false)
    ensures confirmation == Some(false) ==> NothingStored(old(session.device.sgcbs)[ld], session.device.sgcbs[ld]) && !e.Finished? && !res.confirmed
    ensures session.device.cooperative && old(session.link) == Up && !e.KeyboardInterrupt? ==> session.device.sgcbs[ld].editing == 0
    ensures session.device.cooperative && old(session.link) == Up && group in old(session.device.sgcbs)[ld].groups ==>
              (e.Finished? && res.confirmed) || e.KeyboardInterrupt? || e.Declined?
  {
    hide Assigned, AllStored, KeyedOnce, HeldAt, ParamsAt, InUndoOrder, ActionsOf, Registered, Dropped;
    ghost var cs := session.cleanups;
    var action := CleanupAction(EditKey(ld), EndEdit);
    session.RegisterCleanup(action);
    assert action in session.cleanups;
    res, e := Attempt(session, ld, group, assignments, confirmation);
    if !e.Finished? {
      var ended := EndEditSession(session, ld);
      if ended.KeyboardInterrupt? {
        e := ended;
      }
    }
    EditKeepsLaw(cs, action, session.cleanups);
  }

  /** `_end_edit`: release the edit session; on a failure its cleanup stays registered. */
  method EndEditSession(session: Session, ld: string) returns (e: Ending)
    requires ld in session.device.sgcbs && EditKey(ld) in Keys(session.cleanups)
    modifies session`link, session`cleanups, session.device`sgcbs
    ensures OnlySgcb(session, ld)
    ensures e.KeyboardInterrupt? ==> session.interruptible
    ensures NothingStored(old(session.device.sgcbs)[ld], session.device.sgcbs[ld])
    ensures session.EditCovered(ld)
    ensures session.cleanups == old(session.cleanups) || session.cleanups == Dropped(old(session.cleanups), EditKey(ld))
    ensures !e.KeyboardInterrupt? ==> e.Finished?
    ensures session.device.cooperative && old(session.link) == Up ==> e.KeyboardInterrupt? || session.device.sgcbs[ld].editing == 0
  {
    e := Release(session, ld);
    if e.ServiceFailed? || e.Disconnection? {
      e := Finished;
    }
  }

  /** Registering the end of an edit, and dropping it again, is no matter of the report control blocks. */
  lemma EditKeepsLaw(cs: seq<CleanupAction>, action: CleanupAction, cs': seq<CleanupAction>)
    requires action.key.EditKey? && action.WellKeyed() && KeyedOnce(cs)
    requires var r := Registered(cs, action); cs' == r || cs' == Dropped(r, action.key)
    ensures forall a: CleanupAction :: a.key != action.key ==> (a in cs <==> a in cs')
    ensures forall a :: a in cs' ==> a in cs || a == action
    ensures KeyedOnce(cs')
    ensures forall ref, first, now, given, own :: HeldAt(ref, first, now, cs, given, own) ==> HeldAt(ref, first, now, cs', given, own)
    ensures forall ref, first, now, given :: ParamsAt(ref, first, now, cs, given) ==> ParamsAt(ref, first, now, cs', given)
    ensures forall ref :: ActionsOf(cs', ref) == ActionsOf(cs, ref)
  {
    RegisteredKeyedOnce(cs, action);
    DroppedKeyedOnce(Registered(cs, action), action.key);
    forall ref
      ensures ActionsOf(cs', ref) == ActionsOf(cs, ref)
    {
      ActionsOfRegistered(cs, action, ref);
      ActionsOfDropped(Registered(cs, action), action.key, ref);
    }
  }
}

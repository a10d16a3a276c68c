/**
 A session: one association at a time with one device, the cleanup registry, and the control objects
 selected in this association.
 */
module Sessions {
  import opened Results
  import opened Rcbs
  import opened Registry
  import opened Settings
  import opened Devices

  /** `Lost`: the association is gone but its client object is still there. */
  datatype Link = Down | Up | Lost

  /** How an undo ended: `Failed` for a `ServiceError`, `Disconnected` for a `NotConnectedError`. */
  datatype UndoOutcome = Undone | LeftAlone | StillInEffect | Failed | Disconnected

  datatype Note = Note(key: Key, outcome: UndoOutcome)

  /** A write to a report control block that was sent to the device, whatever became of it. */
  datatype RcbWrite = RcbWrite(ref: string, change: Change)

  /** How a control service ended: with a positive or a negative answer, with a `ServiceError`, or with a
      keyboard interrupt. */
  datatype StepReply = Accepted | Denied | NoService | Interrupt

  /** What was sent to the device about control objects, with the answers, and the associations it was sent in. */
  datatype Service =
    | Associated
    | Released
    | Selected(obj: string, withValue: bool, reply: StepReply)
    | Operated(obj: string, sbo: bool, reply: StepReply)
    | Cancelled(obj: string, reply: StepReply)
    | AwaitedTermination(obj: string, reply: StepReply)

  /** The action goes through the association numbered `generation`, or asks for whichever is open. */
  predicate Via(a: CleanupAction, generation: nat) {
    match a.undo
    case ReleaseBrcb(_) => true
    case EndEdit => true
    case _ => a.undo.via == generation
  }

  /** What running the undo of `a` may do to its RCB, and what its outcome tells. */
  predicate UndoOf(a: CleanupAction, before: Rcb, after: Rcb, outcome: UndoOutcome, own: Option<Address>) {
    && Written(before, UndoChange(a.undo), after)
    && (outcome == Undone && !a.undo.ReleaseBrcb? ==> Effect(before, UndoChange(a.undo), after))
    && (a.undo.ReleaseBrcb? && (outcome == Undone || outcome == LeftAlone) ==> !after.ReservedFor(own))
    && (a.undo.ReleaseBrcb? && (a.undo.byConfiguration || !before.ReservedFor(own)) ==> after == before)
    && (outcome == LeftAlone ==> a.undo.ReleaseBrcb? && after == before)
  }

  predicate UndoStep(a: CleanupAction, before: map<string, Rcb>, after: map<string, Rcb>, outcome: UndoOutcome,
                     own: Option<Address>)
  {
    && after.Keys == before.Keys
    && (forall r :: r in before && !a.Of(r) ==> after[r] == before[r])
    && (a.key.RcbKey? && a.key.ref in before ==> UndoOf(a, before[a.key.ref], after[a.key.ref], outcome, own))
  }

  /** Undoing an edit leaves every other logical device alone and, when it works, ends the edit. */
  predicate SettingsKept(a: CleanupAction, before: map<string, Sgcb>, after: map<string, Sgcb>, outcome: UndoOutcome) {
    && (outcome == LeftAlone ==> a.key.RcbKey?)
    && (after == before || (a.key.EditKey? && a.key.ld in before && after == before[a.key.ld := before[a.key.ld].(editing := 0)]))
    && (a.key.EditKey? && outcome == Undone ==> a.key.ld in after && after[a.key.ld].editing == 0)
  }

  /** The law of the registry for reservation and enabling of `ref`. */
  predicate HeldAt(ref: string, first: map<string, Rcb>, now: map<string, Rcb>, cs: seq<CleanupAction>, givenUp: set<Key>,
                   own: Option<Address>)
  {
    && ref in first && ref in now
    && (first[ref].Free() ==> Held(first[ref], now[ref], ActionsOf(cs, ref), LostOf(givenUp, ref), own))
  }

  /** The law of the registry for the parameters of `ref`. */
  ghost predicate ParamsAt(ref: string, first: map<string, Rcb>, now: map<string, Rcb>, cs: seq<CleanupAction>, givenUp: set<Key>) {
    && ref in first && ref in now
    && (first[ref].Free() ==> ParamsKept(first[ref].params, now[ref].params, ActionsOf(cs, ref), LostOf(givenUp, ref)))
  }

  lemma FitsItsKey(cs: seq<CleanupAction>, a: CleanupAction)
    requires KeyedOnce(cs) && a in cs
    ensures a.WellKeyed()
  {
  }

  function GivenUpAfter(givenUp: set<Key>, key: Key, outcome: UndoOutcome): set<Key> {
    if outcome == Undone || outcome == LeftAlone then givenUp else givenUp + {key}
  }

  /** Taking out an action and running its undo keeps the laws of every control block. */
  lemma UndoStepKeepsLaws(ref: string, first: map<string, Rcb>, before: map<string, Rcb>, after: map<string, Rcb>, a: CleanupAction,
                          cs: seq<CleanupAction>, givenUp: set<Key>, outcome: UndoOutcome, own: Option<Address>)
    requires KeyedOnce(cs) && a in cs
    requires UndoStep(a, before, after, outcome, own)
    ensures HeldAt(ref, first, before, cs, givenUp, own) ==>
              HeldAt(ref, first, after, Dropped(cs, a.key), GivenUpAfter(givenUp, a.key, outcome), own)
    ensures ParamsAt(ref, first, before, cs, givenUp) ==>
              ParamsAt(ref, first, after, Dropped(cs, a.key), GivenUpAfter(givenUp, a.key, outcome))
  {
    hide Held, ParamsKept, Effect, Leftover, ActionsOf, Dropped;
    ActionsOfDropped(cs, a.key, ref);
    ActionsOfKeyedOnce(cs, ref);
    var lost, lost' := LostOf(givenUp, ref), LostOf(GivenUpAfter(givenUp, a.key, outcome), ref);
    if !a.Of(ref) {
      assert lost == lost';
    } else if ref in first && ref in before && first[ref].Free() {
      var f, b, c, acts := first[ref], before[ref], after[ref], ActionsOf(cs, ref);
      assert a.WellKeyed();
      assert a.key.part in lost' || outcome == Undone || outcome == LeftAlone;
      if a.key.part !in lost' {
        UndoStepRestores(ref, f, b, c, acts, a, lost, outcome, own);
      }
      UndoKeepsLaws(ref, f, b, c, acts, a, lost, lost', own);
    }
  }

  /** An undo that ended well restored its part of the control block. */
  lemma UndoStepRestores(ref: string, first: Rcb, before: Rcb, after: Rcb, acts: seq<CleanupAction>, a: CleanupAction,
                         lost: set<Part>, outcome: UndoOutcome, own: Option<Address>)
    requires first.Free() && KeyedOnce(acts) && (forall x :: x in acts ==> x.Of(ref))
    requires a in acts && a.Of(ref) && a.key.part !in lost && (outcome == Undone || outcome == LeftAlone)
    requires UndoOf(a, before, after, outcome, own)
    ensures !a.For(Parameters) && Held(first, before, acts, lost, own) ==> PartRestored(a.key.part, first, after, own)
    ensures a.For(Parameters) && ParamsKept(first.params, before.params, acts, lost) ==> PartRestored(Parameters, first, after, own)
  {
    assert a.WellKeyed();
    if a.For(Parameters) && ParamsKept(first.params, before.params, acts, lost) {
      ParamsComeBack(ref, first.params, before.params, acts, a, lost);
    } else if !a.For(Parameters) && Held(first, before, acts, lost, own) && Effect(before, UndoChange(a.undo), after) {
      UndoRestores(ref, first, before, after, acts, a, lost, own);
    }
  }

  /** No setting group stores anything new, and none is activated. */
  predicate StoresKept(before: map<string, Sgcb>, after: map<string, Sgcb>) {
    && after.Keys == before.Keys
    && forall l :: l in before ==> after[l].groups == before[l].groups && after[l].active == before[l].active
  }

  lemma NothingUndone(a: CleanupAction, rcbs: map<string, Rcb>, sgcbs: map<string, Sgcb>, own: Option<Address>)
    ensures UndoStep(a, rcbs, rcbs, Disconnected, own) && SettingsKept(a, sgcbs, sgcbs, Disconnected)
  {
  }

  /** An edit session of the setting groups of `ld` is closed, its release is registered, or the operator
      was told that it is open. */
  predicate EditDone(ld: string, sgcbs: map<string, Sgcb>, cs: seq<CleanupAction>, told: set<Key>) {
    (ld in sgcbs && sgcbs[ld].editing == 0) || EditKey(ld) in Keys(cs) + told
  }

  /** No edit session is open, where there are setting groups at all. */
  predicate EditOver(ld: string, sgcbs: map<string, Sgcb>) {
    ld in sgcbs ==> sgcbs[ld].editing == 0
  }

  predicate EditsEndOrStay(before: map<string, Sgcb>, after: map<string, Sgcb>) {
    && after.Keys == before.Keys
    && forall l :: l in before ==> after[l].editing == before[l].editing || after[l].editing == 0
  }

  lemma EditsStayOver(start: map<string, Sgcb>, before: map<string, Sgcb>, after: map<string, Sgcb>)
    requires EditsEndOrStay(start, before) && EditsEndOrStay(before, after)
    ensures EditsEndOrStay(start, after)
    ensures forall ld :: EditOver(ld, before) ==> EditOver(ld, after)
  {
  }

  lemma NoEditBegun(sgcbs: map<string, Sgcb>)
    ensures EditsEndOrStay(sgcbs, sgcbs)
  {
  }

  lemma UndoEndsEdit(before: map<string, Sgcb>, after: map<string, Sgcb>, a: CleanupAction, outcome: UndoOutcome)
    requires SettingsKept(a, before, after, outcome)
    ensures EditsEndOrStay(before, after)
    ensures a.key.EditKey? && (outcome == Undone || a.key.ld !in before) ==> EditOver(a.key.ld, after)
  {
  }

  lemma UndoKeepsEdits(before: map<string, Sgcb>, after: map<string, Sgcb>, a: CleanupAction,
                       cs: seq<CleanupAction>, rest: seq<CleanupAction>, told: set<Key>, told': set<Key>, outcome: UndoOutcome)
    requires SettingsKept(a, before, after, outcome)
    requires Keys(cs) == Keys(rest) + {a.key} && told <= told'
    requires a.key in told' || outcome == Undone || outcome == LeftAlone
    ensures forall ld :: EditDone(ld, before, cs, told) ==> EditDone(ld, after, rest, told')
    ensures StoresKept(before, after)
  {
  }

  class Session {
    const device: Device
    const ownAddress: Option<Address>
    /** Whether somebody may interrupt from the keyboard. */
    const interruptible: bool
    /** Counts the associations; an undo registered in an earlier one holds a closed client. */
    var generation: nat
    var link: Link
    var cleanups: seq<CleanupAction>
    var subscriptions: set<string>
    var selected: set<string>
    /** Each RCB as it was first read by its latest subscription. */
    ghost var first: map<string, Rcb>
    /** Keys whose undo was taken out of the registry and did not complete. */
    ghost var givenUp: set<Key>
    ghost var services: seq<Service>
    ghost var writes: seq<RcbWrite>

    constructor (device: Device, ownAddress: Option<Address>, interruptible: bool)
      ensures this.device == device && this.ownAddress == ownAddress && this.interruptible == interruptible
      ensures link == Down && generation == 0 && cleanups == [] && subscriptions == {} && selected == {}
      ensures first == device.rcbs && givenUp == {} && services == [] && writes == []
    {
      this.device := device;
      this.ownAddress := ownAddress;
      this.interruptible := interruptible;
      generation := 0;
      link := Down;
      cleanups := [];
      subscriptions := {};
      selected := {};
      first := device.rcbs;
      givenUp := {};
      services := [];
      writes := [];
    }

    /** Undos fit their keys, and no key is registered twice. */
    predicate Keyed()
      reads `cleanups
    {
      KeyedOnce(cleanups)
    }

    /** The law of the registry for `ref`: a reservation or RptEna that the tool brought about is registered
        to be undone, or was given up. */
    ghost predicate HeldFor(ref: string)
      reads `first, `cleanups, `givenUp, device`rcbs
    {
      HeldAt(ref, first, device.rcbs, cleanups, givenUp, ownAddress)
    }

    /** The law of the registry for the parameters of `ref`: what differs from what was first read is
        registered to be written back, or was given up. */
    ghost predicate ParamsFor(ref: string)
      reads `first, `cleanups, `givenUp, device`rcbs
    {
      ParamsAt(ref, first, device.rcbs, cleanups, givenUp)
    }

    /** The undos of `ref` are registered in the order in which the source wants them. */
    predicate InOrderFor(ref: string)
      reads `cleanups
    {
      InUndoOrder(ActionsOf(cleanups, ref))
    }

    /** An edit session of the setting groups of `ld` that the tool opened is closed, or will be. */
    ghost predicate EditCovered(ld: string)
      reads `cleanups, `givenUp, device`sgcbs
    {
      EditDone(ld, device.sgcbs, cleanups, givenUp)
    }

    predicate Connected()
      reads this
    {
      link == Up
    }

    // -------------------------------------------------------------- connection

    /** Open the association; a lost or released one is freed first. Selections belong to an association. */
    method Connect() returns (ok: bool)
      modifies this`link, this`generation, this`selected, this`services
      ensures ok ==> link == Up
      ensures old(link) == Up ==> ok && generation == old(generation) && selected == old(selected) && services == old(services)
      ensures old(link) != Up && ok ==>
                generation == old(generation) + 1 && selected == {} && services == old(services) + [Associated]
      ensures device.cooperative ==> ok
      ensures !ok ==> link == Down && generation == old(generation) && selected == old(selected) && services == old(services)
    {
      if link == Up {
        return true;
      }
      link := Down;
      ok := *;
      ok := ok || device.cooperative;
      if ok {
        link := Up;
        generation := generation + 1;
        selected := {};
        services := services + [Associated];
      }
    }

    /** Undo our changes, then release the association. */
    method Disconnect() returns (notes: seq<Note>)
      requires Keyed()
      modifies this`link, this`writes, this`cleanups, this`givenUp, this`selected, this`services, device`rcbs, device`sgcbs
      ensures link == Down && cleanups == [] && Keyed() && selected == {} && device.rcbs.Keys == old(device.rcbs).Keys
      ensures |notes| == |old(cleanups)|
      ensures forall k :: k in givenUp <==> k in old(givenUp) || Reported(notes, k)
      ensures forall r :: old(HeldFor(r)) ==> HeldFor(r)
      ensures forall r :: old(ParamsFor(r)) ==> ParamsFor(r)
      ensures forall r :: old(InOrderFor(r)) ==> InOrderFor(r)
      ensures StoresKept(old(device.sgcbs), device.sgcbs)
      ensures forall ld :: old(EditCovered(ld)) ==> EditCovered(ld)
      ensures services == if old(link) == Down then old(services) else old(services) + [Released]
      ensures forall ref :: old(Clean(ref)) ==> Restored(ref)
      ensures device.cooperative && old(link) == Up ==> forall a :: a in old(cleanups) && a.key.EditKey? ==> EditOver(a.key.ld, device.sgcbs)
    {
      notes := RunCleanups();
      selected := {};
      if link != Down {
        link := Down;
        services := services + [Released];
      }
    }

    /** An RCB that was free when it was first read is as it was, and not reserved for the tool. */
    ghost predicate Restored(ref: string)
      reads `first, device`rcbs
    {
      && ref in first && ref in device.rcbs
      && forall part :: PartRestored(part, first[ref], device.rcbs[ref], ownAddress)
    }

    // -------------------------------------------------------------- services

    /** `client.set_rcb` through the association numbered `via`. A keyboard interrupt may arrive
        outside cleanups (`undoing`). A `ServiceError` may also stand for an answer that did not come. */
    method SetRcb(via: nat, ref: string, change: Change, undoing: bool) returns (reply: Reply)
      modifies this`link, this`writes, device`rcbs
      ensures device.rcbs.Keys == old(device.rcbs).Keys
      ensures forall r :: r in device.rcbs && r != ref ==> device.rcbs[r] == old(device.rcbs)[r]
      ensures ref in device.rcbs ==>
                match reply
                case Done => Effect(old(device.rcbs)[ref], change, device.rcbs[ref])
                case NotConnected => device.rcbs[ref] == old(device.rcbs)[ref]
                case _ => Written(old(device.rcbs)[ref], change, device.rcbs[ref])
      ensures reply == NotConnected <==> via != generation || old(link) == Down
      ensures reply == Done ==> ref in device.rcbs && old(link) == Up
      ensures writes == if via != generation || old(link) != Up then old(writes) else old(writes) + [RcbWrite(ref, change)]
      ensures reply == Interrupted ==> interruptible && !undoing
      ensures link == old(link) || (old(link) == Up && link == Lost)
      ensures device.cooperative && old(link) == Up && via == generation
              && ref in device.rcbs && Allowed(old(device.rcbs)[ref], change) ==>
                && link == Up && (reply == Done || reply == Interrupted)
                && (change.SetResvTms? && reply == Done ==> device.rcbs[ref].resvTms == Some(change.seconds))
      ensures device.cooperative ==> link == old(link)
    {
      if via != generation || link == Down {
        return NotConnected;
      }
      if link == Lost {
        return Refused;
      }
      var breaks: bool, arrives: bool, answered: bool, interrupt: bool := *, *, *, *;
      writes := writes + [RcbWrite(ref, change)];
      if breaks && !device.cooperative {
        link := Lost;
        if !arrives {
          return Refused;
        }
      }
      var accepted := device.SetRcb(ref, change);
      if interrupt && interruptible && !undoing {
        return Interrupted;
      }
      if link == Lost || (!answered && !device.cooperative) {
        return Refused;
      }
      return if accepted then Done else Refused;
    }

    /** `client.get_rcb`; None where it raises `ServiceError`. */
    method GetRcb(ref: string) returns (values: Option<Rcb>)
      modifies this`link
      ensures values.Some? ==> ref in device.rcbs && values.value == device.rcbs[ref]
      ensures link == old(link) || (old(link) == Up && link == Lost)
      ensures values.Some? ==> link == old(link)
      ensures device.cooperative ==> link == old(link)
      ensures device.cooperative && link == Up && ref in device.rcbs ==> values.Some?
    {
      var fails: bool, breaks: bool := *, *;
      if link != Up || ref !in device.rcbs {
        return None;
      }
      if fails && !device.cooperative {
        if breaks {
          link := Lost;
        }
        return None;
      }
      values := Some(device.rcbs[ref]);
    }

    /** A write to the setting group control block or to a setting, through the current association. */
    method WriteSetting(ld: string, w: SettingWrite, undoing: bool) returns (reply: Reply)
      modifies this`link, device`sgcbs
      ensures reply == NotConnected <==> old(link) != Up
      ensures reply == Done ==> ld in old(device.sgcbs) && Possible(old(device.sgcbs)[ld], w)
                                && device.sgcbs == old(device.sgcbs)[ld := Performed(old(device.sgcbs)[ld], w)]
      ensures reply == NotConnected ==> device.sgcbs == old(device.sgcbs)
      ensures reply == Interrupted || reply == Refused ==>
                || device.sgcbs == old(device.sgcbs)
                || (ld in old(device.sgcbs) && Possible(old(device.sgcbs)[ld], w)
                    && device.sgcbs == old(device.sgcbs)[ld := Performed(old(device.sgcbs)[ld], w)])
      ensures reply == Interrupted ==> interruptible && !undoing
      ensures link == old(link) || (old(link) == Up && link == Lost)
      ensures device.cooperative ==> link == old(link)
      ensures device.cooperative && old(link) == Up && ld in old(device.sgcbs) && Possible(old(device.sgcbs)[ld], w) ==>
                reply == Done || reply == Interrupted
    {
      if link != Up {
        return NotConnected;
      }
      var breaks: bool, arrives: bool, answered: bool, interrupt: bool := *, *, *, *;
      if breaks && !device.cooperative {
        link := Lost;
        if !arrives {
          return Refused;
        }
      }
      var accepted := device.WriteSetting(ld, w);
      if interrupt && interruptible && !undoing {
        return Interrupted;
      }
      if link == Lost || (!answered && !device.cooperative) {
        return Refused;
      }
      return if accepted then Done else Refused;
    }

    // -------------------------------------------------------------- registry

    method RegisterCleanup(a: CleanupAction)
      modifies this`cleanups
      ensures cleanups == Registered(old(cleanups), a)
    {
      cleanups := Dropped(cleanups, a.key);
      cleanups := cleanups + [a];
    }

    method DropCleanup(key: Key)
      modifies this`cleanups
      ensures cleanups == Dropped(old(cleanups), key)
    {
      cleanups := Dropped(cleanups, key);
    }

    /** Is this RCB Owner this tool's own address? */
    predicate IsOwn(owner: Option<Address>) {
      owner.Some? && owner == ownAddress
    }

    /** Release the reservation of a buffered RCB. A reservation made by configuration, or held by
        another client, is left as it is: nothing is written. */
    method ReleaseReservation(ref: string, byConfiguration: bool) returns (outcome: UndoOutcome)
      modifies this`link, this`writes, device`rcbs
      ensures device.rcbs.Keys == old(device.rcbs).Keys
      ensures forall r :: r in device.rcbs && r != ref ==> device.rcbs[r] == old(device.rcbs)[r]
      ensures byConfiguration ==> device.rcbs == old(device.rcbs) && outcome == LeftAlone
      ensures writes == old(writes) || writes == old(writes) + [RcbWrite(ref, SetResvTms(0))]
      ensures ref in device.rcbs && !old(device.rcbs)[ref].ReservedFor(ownAddress) ==> device.rcbs == old(device.rcbs)
      ensures ref in device.rcbs ==>
                Written(old(device.rcbs)[ref], SetResvTms(0), device.rcbs[ref])
      ensures outcome == Undone ==> ref in device.rcbs
      ensures outcome == LeftAlone ==> device.rcbs == old(device.rcbs)
      ensures outcome == LeftAlone && !byConfiguration ==> ref in device.rcbs && !device.rcbs[ref].ReservedFor(ownAddress)
      // a timed reservation stays exactly when the device names another client as its Owner, or nobody
      ensures outcome != StillInEffect && (old(link) == Up && !byConfiguration ==> outcome != Disconnected)
      ensures link == old(link) || (old(link) == Up && link == Lost)
      ensures device.cooperative ==> link == old(link)
      ensures device.cooperative && old(link) == Up && !byConfiguration && ref in device.rcbs && !old(device.rcbs)[ref].rptEna ==>
                && link == Up && (outcome == Undone || outcome == LeftAlone)
                && !device.rcbs[ref].ReservedFor(ownAddress)
                && (device.rcbs[ref].TimedReservation() <==>
                    old(device.rcbs)[ref].TimedReservation() && !IsOwn(old(device.rcbs)[ref].owner))
    {
      if byConfiguration {
        return LeftAlone;
      }
      if link != Up {
        return Disconnected;
      }
      var v := GetRcb(ref);
      if v.None? {
        return Failed;
      }
      if v.value.TimedReservation() && !IsOwn(v.value.owner) {
        return LeftAlone;
      }
      if v.value.TimedReservation() {
        var reply := SetRcb(generation, ref, SetResvTms(0), true);
        return match reply case Done => Undone case Refused => Failed case _ => Disconnected;
      }
      outcome := Undone;
    }

    /** Re-read a buffered RCB after its reservation was released: is it still held for this tool?
        So it is taken to be when it cannot be read. */
    method StillReserved(ref: string) returns (lingering: bool)
      modifies this`link
      ensures !lingering && ref in device.rcbs ==> !device.rcbs[ref].ReservedFor(ownAddress)
      ensures link == old(link) || (old(link) == Up && link == Lost)
      ensures device.cooperative ==> link == old(link)
      ensures device.cooperative && old(link) == Up && ref in device.rcbs ==>
                link == Up && lingering == device.rcbs[ref].ReservedFor(ownAddress)
    {
      if link != Up {
        return true;
      }
      var v := GetRcb(ref);
      if v.None? {
        return true;
      }
      lingering := v.value.TimedReservation() && IsOwn(v.value.owner);
    }

    /** `action.undo()` and `action.check_after_undo()`. */
    method PerformUndo(a: CleanupAction) returns (outcome: UndoOutcome)
      requires a.WellKeyed()
      modifies this`link, this`writes, device`rcbs, device`sgcbs
      ensures UndoStep(a, old(device.rcbs), device.rcbs, outcome, ownAddress)
      ensures SettingsKept(a, old(device.sgcbs), device.sgcbs, outcome)
      ensures writes == old(writes) || (a.key.RcbKey? && writes == old(writes) + [RcbWrite(a.key.ref, UndoChange(a.undo))])
      ensures !Via(a, generation) ==> outcome == Disconnected && device.rcbs == old(device.rcbs)
      ensures old(link) == Up && Via(a, generation) ==> outcome != Disconnected
      ensures link == old(link) || (old(link) == Up && link == Lost)
      ensures device.cooperative && old(link) == Up && Via(a, generation)
              && (a.key.RcbKey? && a.key.ref in device.rcbs)
              && Allowed(old(device.rcbs)[a.key.ref], UndoChange(a.undo))
              && (a.undo.ReleaseBrcb? ==> !a.undo.byConfiguration)
              ==> link == Up && (outcome == Undone || outcome == LeftAlone)
      ensures device.cooperative && old(link) == Up && a.key.EditKey? && a.key.ld in old(device.sgcbs) ==> outcome == Undone
      ensures device.cooperative ==> link == old(link)
    {
      var reply: Reply;
      match a.undo {
        case EndEdit =>
          reply := WriteSetting(a.key.ld, SelectEdit(0), true);
          outcome := OutcomeOf(reply);
        case ReleaseBrcb(byConfiguration) =>
          outcome := ReleaseReservation(a.key.ref, byConfiguration);
          if outcome == Undone || outcome == LeftAlone {
            var lingering := StillReserved(a.key.ref);
            outcome := if lingering then StillInEffect else outcome;
          }
        case _ =>
          reply := SetRcb(a.undo.via, a.key.ref, UndoChange(a.undo), true);
          outcome := OutcomeOf(reply);
      }
    }

    /** Run the undo of an action just taken out of the registry `cs`. The key is given up unless the
        undo is known to have worked. */
    method RunUndo(a: CleanupAction, ghost cs: seq<CleanupAction>) returns (outcome: UndoOutcome)
      requires KeyedOnce(cs) && a in cs && cleanups == Dropped(cs, a.key)
      modifies this`link, this`writes, this`givenUp, device`rcbs, device`sgcbs
      ensures UndoStep(a, old(device.rcbs), device.rcbs, outcome, ownAddress)
      ensures givenUp == GivenUpAfter(old(givenUp), a.key, outcome)
      ensures writes == old(writes) || (a.key.RcbKey? && writes == old(writes) + [RcbWrite(a.key.ref, UndoChange(a.undo))])
      ensures old(link) == Up && Via(a, generation) ==> outcome != Disconnected
      ensures forall r :: HeldAt(r, first, old(device.rcbs), cs, old(givenUp), ownAddress) ==> HeldFor(r)
      ensures forall r :: ParamsAt(r, first, old(device.rcbs), cs, old(givenUp)) ==> ParamsFor(r)
      ensures SettingsKept(a, old(device.sgcbs), device.sgcbs, outcome)
      ensures link == old(link) || (old(link) == Up && link == Lost)
      ensures device.cooperative && old(link) == Up && Via(a, generation)
              && (a.key.RcbKey? && a.key.ref in device.rcbs)
              && Allowed(old(device.rcbs)[a.key.ref], UndoChange(a.undo))
              && (a.undo.ReleaseBrcb? ==> !a.undo.byConfiguration)
              ==> link == Up && givenUp == old(givenUp)
      ensures device.cooperative && old(link) == Up && a.key.EditKey? && a.key.ld in old(device.sgcbs) ==> outcome == Undone
      ensures device.cooperative ==> link == old(link)
    {
      hide UndoStep, HeldAt, ParamsAt, KeyedOnce, SettingsKept, Via;
      assert a.WellKeyed() by { FitsItsKey(cs, a); }
      outcome := PerformUndo(a);
      if outcome != Undone && outcome != LeftAlone {
        givenUp := givenUp + {a.key};
      }
      forall r
        ensures HeldAt(r, first, old(device.rcbs), cs, old(givenUp), ownAddress) ==> HeldFor(r)
        ensures ParamsAt(r, first, old(device.rcbs), cs, old(givenUp)) ==> ParamsFor(r)
      {
        UndoStepKeepsLaws(r, first, old(device.rcbs), device.rcbs, a, cs, old(givenUp), outcome, ownAddress);
      }
    }

    /** Take the last action out of the registry and undo it. */
    method UndoLast() returns (note: Note)
      requires cleanups != [] && Keyed()
      modifies this`link, this`writes, this`cleanups, this`givenUp, device`rcbs, device`sgcbs
      ensures cleanups == old(cleanups)[..|old(cleanups)| - 1] && Keyed() && device.rcbs.Keys == old(device.rcbs).Keys
      ensures note.key == old(cleanups)[|old(cleanups)| - 1].key
      ensures givenUp == if Succeeded(note) then old(givenUp) else old(givenUp) + {note.key}
      ensures forall r :: old(HeldFor(r)) ==> HeldFor(r)
      ensures forall r :: old(ParamsFor(r)) ==> ParamsFor(r)
      ensures forall r :: old(InOrderFor(r)) ==> InOrderFor(r)
      ensures StoresKept(old(device.sgcbs), device.sgcbs)
      ensures forall ld :: old(EditCovered(ld)) ==> EditCovered(ld)
      ensures forall r :: old(Clean(r)) ==> Clean(r)
      // an edit session that is registered is ended, and none is begun
      ensures EditsEndOrStay(old(device.sgcbs), device.sgcbs)
      ensures device.cooperative ==> link == old(link)
      ensures device.cooperative && old(link) == Up && note.key.EditKey? ==> EditOver(note.key.ld, device.sgcbs)
      ensures link == Down <==> old(link) == Down
      ensures old(link) != Up ==> device.rcbs == old(device.rcbs) && device.sgcbs == old(device.sgcbs) && link == old(link)
    {
      hide KeyedOnce, HeldAt, ParamsAt, InUndoOrder, CleanupAction.WellKeyed, EditDone, UndoStep, SettingsKept, Via, Allowed, ActionsOf, Dropped, EditsEndOrStay, EditOver;
      ghost var cs, was, set0, up, link0 := cleanups, device.rcbs, device.sgcbs, givenUp, link;
      var action := cleanups[|cleanups| - 1];
      LastTaken(cs);
      assert cs == cs[..|cs| - 1] + [action];
      DroppedKeyedOnce(cs, action.key);
      cleanups := cleanups[..|cleanups| - 1];
      var outcome := Disconnected;
      if Connected() {
        outcome := RunUndo(action, cs);
      } else {
        givenUp := givenUp + {action.key};
        NothingUndone(action, was, device.sgcbs, ownAddress);
        forall r
          ensures HeldAt(r, first, was, cs, up, ownAddress) ==> HeldFor(r)
          ensures ParamsAt(r, first, was, cs, up) ==> ParamsFor(r)
        {
          UndoStepKeepsLaws(r, first, was, was, action, cs, up, Disconnected, ownAddress);
        }
      }
      assert device.rcbs.Keys == was.Keys by {
        SameKeys(action, was, device.rcbs, outcome, ownAddress);
      }
      forall r | InUndoOrder(ActionsOf(cs, r))
        ensures InOrderFor(r)
      {
        ActionsOfDropped(cs, action.key, r);
        DroppedInOrder(ActionsOf(cs, r), action.key);
      }
      forall r | old(Clean(r))
        ensures Clean(r)
      {
        if action.Of(r) {
          LastMayBeUndone(r, cs, was, up);
        }
      }
      UndoEndsEdit(set0, device.sgcbs, action, outcome);
      UndoKeepsEdits(set0, device.sgcbs, action, cs, cleanups, up, givenUp, outcome);
      note := Note(action.key, outcome);
    }

    /** On a device that will carry out its undos, an RCB that was free when it was first read, with nothing of
        it given up or registered in an earlier association. */
    ghost predicate Clean(ref: string)
      reads `first, `cleanups, `givenUp, `link, `generation, device`rcbs
    {
      && device.cooperative && link == Up
      && HeldFor(ref) && ParamsFor(ref) && first[ref].Free()
      && (forall part :: RcbKey(ref, part) !in givenUp)
      && forall a :: a in cleanups && a.Of(ref) ==> Via(a, generation)
    }

    /** With nothing registered for it any more, a clean RCB is restored. */
    lemma CleanIsRestored(ref: string)
      requires Clean(ref) && ActionsOf(cleanups, ref) == []
      ensures Restored(ref)
    {
      assert LostOf(givenUp, ref) == {};
      NothingLeft(first[ref], device.rcbs[ref], ownAddress);
    }

    /** Undo in reverse order; anything that cannot be undone is reported. */
    method RunCleanups() returns (notes: seq<Note>)
      requires Keyed()
      modifies this`link, this`writes, this`cleanups, this`givenUp, device`rcbs, device`sgcbs
      ensures cleanups == [] && Keyed() && device.rcbs.Keys == old(device.rcbs).Keys
      // one note an action, in the reverse order of registration
      ensures |notes| == |old(cleanups)|
      ensures forall i :: 0 <= i < |notes| ==> notes[i].key == old(cleanups)[|notes| - 1 - i].key
      // what was given up here is what was reported as not undone or still in effect
      ensures forall k :: k in givenUp <==> k in old(givenUp) || Reported(notes, k)
      ensures forall r :: old(HeldFor(r)) ==> HeldFor(r)
      ensures forall r :: old(ParamsFor(r)) ==> ParamsFor(r)
      ensures forall r :: old(InOrderFor(r)) ==> InOrderFor(r)
      ensures StoresKept(old(device.sgcbs), device.sgcbs)
      ensures forall ld :: old(EditCovered(ld)) ==> EditCovered(ld)
      ensures forall r :: old(Clean(r)) ==> Clean(r) && Restored(r)
      ensures EditsEndOrStay(old(device.sgcbs), device.sgcbs)
      ensures device.cooperative && old(link) == Up ==> forall a :: a in old(cleanups) && a.key.EditKey? ==> EditOver(a.key.ld, device.sgcbs)
      ensures link == Down <==> old(link) == Down
      ensures old(link) != Up ==> device.rcbs == old(device.rcbs) && device.sgcbs == old(device.sgcbs) && link == old(link)
    {
      hide HeldAt, ParamsAt, InUndoOrder, EditCovered, Succeeded, Reported, Clean, KeyedOnce, ActionsOf, Restored, EditsEndOrStay, EditOver;
      notes := [];
      ghost var n := |cleanups|;
      NoneReported();
      NoEditBegun(device.sgcbs);
      while cleanups != []
        invariant cleanups <= old(cleanups) && |notes| == n - |cleanups| && Keyed() && device.rcbs.Keys == old(device.rcbs).Keys
        invariant forall i :: 0 <= i < |notes| ==> notes[i].key == old(cleanups)[n - 1 - i].key
        invariant forall k :: k in givenUp <==> k in old(givenUp) || Reported(notes, k)
        invariant forall r :: old(HeldFor(r)) ==> HeldFor(r)
        invariant forall r :: old(ParamsFor(r)) ==> ParamsFor(r)
        invariant forall r :: old(InOrderFor(r)) ==> InOrderFor(r)
        invariant StoresKept(old(device.sgcbs), device.sgcbs)
        invariant forall ld :: old(EditCovered(ld)) ==> EditCovered(ld)
        invariant forall r :: old(Clean(r)) ==> Clean(r)
        invariant EditsEndOrStay(old(device.sgcbs), device.sgcbs) && (device.cooperative ==> link == old(link))
        invariant device.cooperative && old(link) == Up ==>
                    forall i :: |cleanups| <= i < n && old(cleanups)[i].key.EditKey? ==> EditOver(old(cleanups)[i].key.ld, device.sgcbs)
        invariant link == Down <==> old(link) == Down
        invariant old(link) != Up ==> device.rcbs == old(device.rcbs) && device.sgcbs == old(device.sgcbs) && link == old(link)
        decreases |cleanups|
      {
        ghost var before, set0 := notes, device.sgcbs;
        var note := UndoLast();
        notes := notes + [note];
        MoreReported(before, note);
        EditsStayOver(old(device.sgcbs), set0, device.sgcbs);
      }
      forall r | Clean(r)
        ensures Restored(r)
      {
        NoActionsOf(r);
        CleanIsRestored(r);
      }
    }

    static lemma NoActionsOf(ref: string)
      ensures ActionsOf([], ref) == []
    {
    }

    static predicate Succeeded(note: Note) {
      note.outcome == Undone || note.outcome == LeftAlone
    }

    static predicate Reported(notes: seq<Note>, k: Key) {
      exists n :: n in notes && n.key == k && !Succeeded(n)
    }

    static lemma NoneReported()
      ensures forall k :: !Reported([], k)
    {
    }

    static lemma MoreReported(notes: seq<Note>, note: Note)
      ensures forall k :: Reported(notes + [note], k) <==> Reported(notes, k) || (k == note.key && !Succeeded(note))
    {
      forall k | Reported(notes, k)
        ensures Reported(notes + [note], k)
      {
        var n :| n in notes && n.key == k && !Succeeded(n);
        assert n in notes + [note];
      }
      assert note in notes + [note];
    }

    static lemma SameKeys(a: CleanupAction, before: map<string, Rcb>, after: map<string, Rcb>, outcome: UndoOutcome, own: Option<Address>)
      requires UndoStep(a, before, after, outcome, own)
      ensures after.Keys == before.Keys
    {
    }

    /** The last action of a clean RCB is one a cooperative device carries out, when it is next. */
    lemma LastMayBeUndone(ref: string, cs: seq<CleanupAction>, now: map<string, Rcb>, givenUp: set<Key>)
      requires cs != [] && cs[|cs| - 1].Of(ref) && KeyedOnce(cs)
      requires HeldAt(ref, first, now, cs, givenUp, ownAddress) && first[ref].Free()
      requires forall part :: RcbKey(ref, part) !in givenUp
      ensures var a := cs[|cs| - 1];
              && a.key.RcbKey? && a.key.ref in now
              && Allowed(now[a.key.ref], UndoChange(a.undo))
              && (a.undo.ReleaseBrcb? ==> !a.undo.byConfiguration)
    {
      var a, acts := cs[|cs| - 1], ActionsOf(cs, ref);
      assert cs == cs[..|cs| - 1] + [a] && a in cs;
      ActionsOfAppend(cs[..|cs| - 1], [a], ref);
      assert ActionsOf([a], ref) == [a] && acts[|acts| - 1] == a;
      assert LostOf(givenUp, ref) == {};
      assert a.WellKeyed();
    }

    static function OutcomeOf(reply: Reply): UndoOutcome {
      match reply
      case Done => Undone
      case Refused => Failed
      case _ => Disconnected
    }
  }
}

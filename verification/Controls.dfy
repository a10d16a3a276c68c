/** Control services: what the ctlModel of an object makes of select, operate and cancel. */
module Controls {
  import opened Results
  import opened Registry
  import opened Sessions

  // ---------------------------------------------------------------- what was sent

  /** Positive or negative. */
  predicate IsAnswer(reply: StepReply) {
    reply == Accepted || reply == Denied
  }

  /** The objects selected by us in the current association, as the answers told. */
  function Holding(sent: seq<Service>): set<string> {
    if sent == [] then {}
    else
      var before := Holding(sent[..|sent| - 1]);
      match sent[|sent| - 1]
      case Associated => {}
      case Released => {}
      case Selected(o, _, reply) => if reply == Accepted then before + {o} else before
      case Operated(o, sbo, _) => if sbo then before - {o} else before
      case Cancelled(o, reply) => if IsAnswer(reply) then before - {o} else before
      case AwaitedTermination(_, _) => before
  }

  /** The association ends, or the selection of `obj` is used up. */
  predicate Ends(s: Service, obj: string) {
    match s
    case Associated => true
    case Released => true
    case Operated(o, sbo, _) => o == obj && sbo
    case Cancelled(o, reply) => o == obj && IsAnswer(reply)
    case _ => false
  }

  /** A successful select, plain or with value. */
  predicate IsSelect(s: Service, obj: string) {
    s.Selected? && s.obj == obj && s.reply == Accepted
  }

  /** A successful select of `obj` stands at `j` and nothing since has ended it. */
  predicate StandsFrom(sent: seq<Service>, obj: string, j: int) {
    0 <= j < |sent| && IsSelect(sent[j], obj) && forall k :: j < k < |sent| ==> !Ends(sent[k], obj)
  }

  lemma {:induction false} HoldingMeans(sent: seq<Service>, obj: string)
    ensures obj in Holding(sent) <==> exists j :: StandsFrom(sent, obj, j)
  {
    if sent != [] {
      var n := |sent| - 1;
      HoldingMeans(sent[..n], obj);
      if obj in Holding(sent) {
        if IsSelect(sent[n], obj) {
          assert StandsFrom(sent, obj, n);
        } else {
          var j :| StandsFrom(sent[..n], obj, j);
          assert StandsFrom(sent, obj, j);
        }
      }
      forall j | StandsFrom(sent, obj, j)
        ensures obj in Holding(sent)
      {
        if j < n {
          assert !Ends(sent[n], obj);
          assert StandsFrom(sent[..n], obj, j);
        }
      }
    }
  }

  /** Every Operate on a select-before-operate object uses a selection that stands. */
  predicate Legal(sent: seq<Service>) {
    forall i :: 0 <= i < |sent| && sent[i].Operated? && sent[i].sbo ==> sent[i].obj in Holding(sent[..i])
  }

  lemma LegalMore(sent: seq<Service>, s: Service)
    ensures Legal(sent + [s]) <==> Legal(sent) && (s.Operated? && s.sbo ==> s.obj in Holding(sent))
    ensures (sent + [s])[..|sent|] == sent
  {
    var r := sent + [s];
    assert forall i :: 0 <= i < |sent| ==> r[..i] == sent[..i] && r[i] == sent[i];
    assert r[|sent|] == s && r[..|sent|] == sent;
    if Legal(r) {
      forall i | 0 <= i < |sent| && sent[i].Operated? && sent[i].sbo
        ensures sent[i].obj in Holding(sent[..i])
      {
        assert r[i].obj in Holding(r[..i]);
      }
    }
  }

  // ---------------------------------------------------------------- sequences

  datatype StepKind = SelectStep | SelectWithValueStep | OperateStep | TerminationStep

  /** The sequence of a ctlModel; a selection made earlier is used, not repeated. */
  function Sequence(model: int, prior: bool): seq<StepKind> {
    (if model == 2 && !prior then [SelectStep] else if model == 4 && !prior then [SelectWithValueStep] else [])
    + [OperateStep]
    + (if model in {3, 4} then [TerminationStep] else [])
  }

  predicate Fits(s: Service, kind: StepKind, obj: string, model: int) {
    match kind
    case SelectStep => s.Selected? && s.obj == obj && !s.withValue
    case SelectWithValueStep => s.Selected? && s.obj == obj && s.withValue
    case OperateStep => s.Operated? && s.obj == obj && s.sbo == (model in {2, 4})
    case TerminationStep => s.AwaitedTermination? && s.obj == obj
  }

  predicate Positive(s: Service) {
    s.Selected? || s.Operated? || s.AwaitedTermination? ==> s.reply == Accepted
  }

  function ReplyTo(s: Service): StepReply {
    match s
    case Selected(_, _, reply) => reply
    case Operated(_, _, reply) => reply
    case Cancelled(_, reply) => reply
    case AwaitedTermination(_, reply) => reply
    case _ => Accepted
  }

  /** The services of one `execute` on `obj`: each but the last was answered positively. */
  predicate Sends(sent: seq<Service>, obj: string, model: int, kinds: seq<StepKind>) {
    && |sent| <= |kinds|
    && (forall i :: 0 <= i < |sent| ==> Fits(sent[i], kinds[i], obj, model))
    && forall i :: 0 <= i < |sent| - 1 ==> Positive(sent[i])
  }

  /** Every step was sent and answered positively. */
  predicate Complete(sent: seq<Service>, kinds: seq<StepKind>) {
    |sent| == |kinds| && forall i :: 0 <= i < |sent| ==> Positive(sent[i])
  }

  // ---------------------------------------------------------------- the services used

  datatype ControlPlan = ControlPlan(obj: string, model: int)

  datatype Outcome =
    | NotAllowed
    | Declined
    | Unprepared
    | KeyboardInterrupt
    | ServiceFailed
    | Ran(ok: bool, usedEarlierSelect: bool)

  /** The law of the selections: the tool only believes in selections that stand. */
  ghost predicate Lawful(session: Session)
    reads session`selected, session`services
  {
    session.selected <= Holding(session.services) && Legal(session.services)
  }

  /** `select` and `select_with_value`. */
  method SendSelect(session: Session, obj: string, withValue: bool) returns (r: StepReply)
    modifies session`link, session`services
    ensures session.device.cooperative && old(session.link) == Up ==> session.link == Up && (r == Accepted || (r == Interrupt && session.interruptible))
    ensures r == Interrupt ==> session.interruptible
    ensures session.link == old(session.link) || (old(session.link) == Up && session.link == Lost)
    ensures session.services == old(session.services) + [Selected(obj, withValue, r)]
    ensures old(Lawful(session)) ==> Lawful(session)
    ensures r == Accepted ==> obj in Holding(session.services)
  {
    r := Answer(session);
    session.services := session.services + [Selected(obj, withValue, r)];
    LegalMore(old(session.services), Selected(obj, withValue, r));
  }

  /** How a service ends is up to the device, the network and the operator. */
  method Answer(session: Session) returns (r: StepReply)
    modifies session`link
    ensures session.device.cooperative && old(session.link) == Up ==> session.link == Up && (r == Accepted || (r == Interrupt && session.interruptible))
    ensures r == Interrupt ==> session.interruptible
    ensures session.link == old(session.link) || (old(session.link) == Up && session.link == Lost)
  {
    var choice: int := *;
    var breaks: bool := *;
    if choice == 0 && session.interruptible {
      return Interrupt;
    }
    if session.device.cooperative && session.link == Up {
      return Accepted;
    }
    if breaks && session.link == Up {
      session.link := Lost;
      return NoService;
    }
    r := if choice == 1 then Accepted else if choice == 2 then Denied else NoService;
  }

  /** An operate; on a select-before-operate object it may only use a standing selection that the tool
      has given up. */
  method SendOperate(session: Session, obj: string, sbo: bool) returns (r: StepReply)
    modifies session`link, session`services
    ensures session.device.cooperative && old(session.link) == Up ==> session.link == Up && (r == Accepted || (r == Interrupt && session.interruptible))
    ensures r == Interrupt ==> session.interruptible
    ensures session.link == old(session.link) || (old(session.link) == Up && session.link == Lost)
    ensures session.services == old(session.services) + [Operated(obj, sbo, r)]
    ensures old(Lawful(session)) && (sbo ==> obj in Holding(old(session.services)) && obj !in session.selected) ==> Lawful(session)
  {
    r := Answer(session);
    session.services := session.services + [Operated(obj, sbo, r)];
    LegalMore(old(session.services), Operated(obj, sbo, r));
  }

  /** Wait for CommandTermination: a negative one and a timeout are denials, and the wait may raise. */
  method AwaitTermination(session: Session, obj: string) returns (r: StepReply)
    modifies session`link, session`services
    ensures session.device.cooperative && old(session.link) == Up ==> session.link == Up && (r == Accepted || (r == Interrupt && session.interruptible))
    ensures r == Interrupt ==> session.interruptible
    ensures session.link == old(session.link) || (old(session.link) == Up && session.link == Lost)
    ensures session.services == old(session.services) + [AwaitedTermination(obj, r)]
    ensures old(Lawful(session)) ==> Lawful(session)
  {
    r := Answer(session);
    session.services := session.services + [AwaitedTermination(obj, r)];
    LegalMore(old(session.services), AwaitedTermination(obj, r));
  }

  /** `client.control(ref)` may fail on a connected session. */
  method Prepare(session: Session) returns (ok: bool)
    ensures ok ==> session.link == Up
    ensures session.device.cooperative && session.link == Up ==> ok
  {
    var found: bool := *;
    ok := session.Connected() && (found || session.device.cooperative);
  }

  // ---------------------------------------------------------------- operations

  /** What a single service comes to. */
  function OutcomeOf(reply: StepReply): Outcome {
    match reply
    case Accepted => Ran(true, false)
    case Denied => Ran(false, false)
    case NoService => ServiceFailed
    case Interrupt => KeyboardInterrupt
  }

  /** Select without operating. */
  method SelectOnly(session: Session, plan: ControlPlan, confirmed: bool) returns (o: Outcome)
    modifies session`link, session`selected, session`services
    ensures old(Lawful(session)) ==> Lawful(session)
    ensures o == NotAllowed <==> plan.model !in {2, 4}
    ensures o == Declined <==> plan.model in {2, 4} && !confirmed
    ensures o == Unprepared ==> !session.device.cooperative || old(session.link) != Up
    ensures o in {NotAllowed, Declined, Unprepared} ==> session.services == old(session.services) && session.selected == old(session.selected)
    // the outcome is what the device answered to the one select
    ensures o !in {NotAllowed, Declined, Unprepared} ==>
              var n := |old(session.services)|;
              && |session.services| == n + 1
              && session.services == old(session.services) + [Selected(plan.obj, plan.model == 4, ReplyTo(session.services[n]))]
              && o == OutcomeOf(ReplyTo(session.services[n]))
    ensures session.selected == if o.Ran? && o.ok then old(session.selected) + {plan.obj} else old(session.selected)
    ensures session.device.cooperative && old(session.link) == Up && confirmed && plan.model in {2, 4} ==>
              o == Ran(true, false) || (o == KeyboardInterrupt && session.interruptible)
  {
    if plan.model != 2 && plan.model != 4 {
      return NotAllowed;
    }
    if !confirmed {
      return Declined;
    }
    var ready := Prepare(session);
    if !ready {
      return Unprepared;
    }
    var r := SendSelect(session, plan.obj, plan.model == 4);
    match r {
      case Accepted =>
        session.selected := session.selected + {plan.obj};
        o := Ran(true, false);
      case Denied => o := Ran(false, false);
      case NoService => o := ServiceFailed;
      case Interrupt => o := KeyboardInterrupt;
    }
  }

  /** Cancel. The selection is forgotten when the device answered, whatever it answered. */
  method Cancel(session: Session, obj: string) returns (o: Outcome)
    modifies session`link, session`selected, session`services
    ensures old(Lawful(session)) ==> Lawful(session)
    ensures o == Unprepared ==> session.services == old(session.services) && (!session.device.cooperative || old(session.link) != Up)
    // the outcome is what the device answered to the one cancel
    ensures o != Unprepared ==>
              var n := |old(session.services)|;
              && |session.services| == n + 1
              && session.services == old(session.services) + [Cancelled(obj, ReplyTo(session.services[n]))]
              && o == OutcomeOf(ReplyTo(session.services[n]))
    ensures session.selected == if o.Ran? then old(session.selected) - {obj} else old(session.selected)
    ensures session.device.cooperative && old(session.link) == Up ==>
              o == Ran(true, false) || (o == KeyboardInterrupt && session.interruptible)
  {
    var ready := Prepare(session);
    if !ready {
      return Unprepared;
    }
    var r := Answer(session);
    var answered := r == Accepted || r == Denied;
    session.services := session.services + [Cancelled(obj, r)];
    LegalMore(old(session.services), Cancelled(obj, r));
    if answered {
      session.selected := session.selected - {obj};
      return Ran(r == Accepted, false);
    }
    o := if r == NoService then ServiceFailed else KeyboardInterrupt;
  }

  /** Run the sequence of the ctlModel. */
  method Execute(session: Session, plan: ControlPlan, confirmed: bool) returns (o: Outcome, ghost sent: seq<Service>)
    requires plan.model in {1, 2, 3, 4}
    modifies session`link, session`selected, session`services
    ensures old(Lawful(session)) ==> Lawful(session)
    ensures session.services == old(session.services) + sent
    ensures o == Declined <==> !confirmed
    ensures o == Unprepared ==> !session.device.cooperative || old(session.link) != Up
    ensures o in {Declined, Unprepared} ==> sent == [] && session.selected == old(session.selected)
    // the outcome is what the device answered to the last service sent
    ensures o !in {Declined, Unprepared} ==>
              var prior := plan.model in {2, 4} && plan.obj in old(session.selected);
              && |sent| > 0 && Sends(sent, plan.obj, plan.model, Sequence(plan.model, prior))
              && (Positive(sent[|sent| - 1]) ==> Complete(sent, Sequence(plan.model, prior)))
              && o == (match ReplyTo(sent[|sent| - 1])
                       case Accepted => Ran(true, prior)
                       case Interrupt => KeyboardInterrupt
                       case _ => Ran(false, prior))
              && session.selected == old(session.selected) - (if prior then {plan.obj} else {})
    ensures session.device.cooperative && old(session.link) == Up && confirmed ==>
              (o.Ran? && o.ok) || (o == KeyboardInterrupt && session.interruptible)
  {
    hide Legal, Holding;
    sent := [];
    if !confirmed {
      return Declined, sent;
    }
    var ready := Prepare(session);
    if !ready {
      return Unprepared, sent;
    }
    var sbo := plan.model == 2 || plan.model == 4;
    var prior := sbo && plan.obj in session.selected;
    if prior {
      session.selected := session.selected - {plan.obj};
    }
    o, sent := RunSequence(session, plan, prior);
  }

  /** The sequence of services, as far as each is answered positively. */
  method RunSequence(session: Session, plan: ControlPlan, prior: bool) returns (o: Outcome, ghost sent: seq<Service>)
    requires plan.model in {1, 2, 3, 4} && (prior ==> plan.model in {2, 4})
    modifies session`link, session`services
    ensures old(Lawful(session)) && plan.obj !in session.selected && (prior ==> plan.obj in Holding(old(session.services))) ==> Lawful(session)
    ensures old(Lawful(session)) && plan.model !in {2, 4} ==> Lawful(session)
    ensures session.services == old(session.services) + sent
    ensures |sent| > 0 && Sends(sent, plan.obj, plan.model, Sequence(plan.model, prior))
    ensures Positive(sent[|sent| - 1]) ==> Complete(sent, Sequence(plan.model, prior))
    ensures o == (match ReplyTo(sent[|sent| - 1])
                  case Accepted => Ran(true, prior)
                  case Interrupt => KeyboardInterrupt
                  case _ => Ran(false, prior))
    ensures session.device.cooperative && old(session.link) == Up ==> (o.Ran? && o.ok) || (o == KeyboardInterrupt && session.interruptible)
  {
    hide Legal, Holding, Lawful;
    sent := [];
    var sbo := plan.model == 2 || plan.model == 4;
    var r: StepReply;
    if sbo && !prior {
      r := SendSelect(session, plan.obj, plan.model == 4);
      sent := sent + [Selected(plan.obj, plan.model == 4, r)];
      if r != Accepted {
        o := if r == Interrupt then KeyboardInterrupt else Ran(false, prior);
        return;
      }
    }
    r := SendOperate(session, plan.obj, sbo);
    sent := sent + [Operated(plan.obj, sbo, r)];
    if r != Accepted {
      o := if r == Interrupt then KeyboardInterrupt else Ran(false, prior);
      return;
    }
    if plan.model == 3 || plan.model == 4 {
      r := AwaitTermination(session, plan.obj);
      sent := sent + [AwaitedTermination(plan.obj, r)];
      if r != Accepted {
        o := if r == Interrupt then KeyboardInterrupt else Ran(false, prior);
        return;
      }
    }
    o := Ran(true, prior);
  }

  // ---------------------------------------------------------------- cancels without an answer

  /** The objects selected by us if every cancel that was sent took effect. */
  function SurelyHolding(sent: seq<Service>): set<string> {
    if sent == [] then {}
    else
      var before, last := SurelyHolding(sent[..|sent| - 1]), sent[|sent| - 1];
      match last
      case Cancelled(o, _) => before - {o}
      case Associated => {}
      case Released => {}
      case Selected(o, _, reply) => if reply == Accepted then before + {o} else before
      case Operated(o, sbo, _) => if sbo then before - {o} else before
      case AwaitedTermination(_, _) => before
  }

  /** The objects with a cancel nobody answered since their select. */
  function Doubtful(sent: seq<Service>): set<string> {
    if sent == [] then {}
    else
      var before, last := Doubtful(sent[..|sent| - 1]), sent[|sent| - 1];
      match last
      case Cancelled(o, reply) => if IsAnswer(reply) then before else before + {o}
      case Selected(o, _, reply) => if reply == Accepted then before - {o} else before
      case _ => before
  }

  /** A selection the tool relies on is certain exactly when no cancel of it went unanswered. */
  lemma {:induction false} CertainUnlessDoubtful(sent: seq<Service>)
    ensures SurelyHolding(sent) == Holding(sent) - Doubtful(sent)
  {
    if sent != [] {
      CertainUnlessDoubtful(sent[..|sent| - 1]);
    }
  }

  /** A cancel that raises leaves the tool relying on a selection the device may have given up. */
  lemma UnansweredCancel(obj: string)
    ensures var sent := [Associated, Selected(obj, false, Accepted), Cancelled(obj, NoService)];
            obj in Holding(sent) && obj !in SurelyHolding(sent) && Legal(sent + [Operated(obj, true, Denied)])
  {
    var sent := [Associated, Selected(obj, false, Accepted), Cancelled(obj, NoService)];
    assert sent[..2] == [Associated, Selected(obj, false, Accepted)] && sent[..2][..1] == [Associated];
    assert Holding(sent[..2]) == {obj};
    CertainUnlessDoubtful(sent);
    LegalMore(sent, Operated(obj, true, Denied));
  }
}

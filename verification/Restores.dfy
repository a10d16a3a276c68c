/**
 Undoing the writes of a session from its log. The device is a store of values whose writes may be
 refused or stored differently; the log is an undo log whose markers keep a restore from undoing itself.
 */
module Restores {
  import opened Results
  import opened Values
  import opened ValueTexts
  import opened SessionLogs

  type Store = map<Target, Value>

  /** The declared types, and Python's texts of values. */
  datatype Typing = Typing(spec: Target -> Option<BasicSpec>, printing: Printing)

  /** What putting a recorded value back writes; None where no value can be made of it. A setting goes
      back as text. */
  function DecodedFrom(t: Target, before: Json, how: Typing): Option<Value> {
    match (how.spec(t), FromJson(before))
    case (Some(spec), Some(v)) =>
      (match t
       case Attribute(_, _) => Coerce(spec, v)
       case Setting(_, _) => ParseText(spec, TextOf(v, how.printing), how.printing)
       case ActiveGroup(_) => if v.Int? then Coerce(spec, v) else None)
    case _ => None
  }

  function Decoded(e: Entry, how: Typing): Option<Value> {
    if e.WriteEntry? then DecodedFrom(e.target, e.before, how) else None
  }

  /** The values that putting them back from the log writes again. */
  predicate Returns(t: Target, v: Value, how: Typing) {
    && how.spec(t).Some? && Fits(how.spec(t).value, v)
    && match t
       case Attribute(_, _) => true
       case Setting(_, _) => SpelledByText(how.spec(t).value, v, how.printing)
       case ActiveGroup(_) => v.Int?
  }

  /** The value recorded before a write comes back exactly when it is of the declared type and, for a setting,
      spelled by its text. */
  lemma RecordedReturns(t: Target, v: Value, how: Typing, iso: (int, int) -> string)
    ensures DecodedFrom(t, ToJson(v, iso), how) == Some(v) <==> Returns(t, v, how)
  {
    hide ParseText, TextOf, SpelledByText, FromJson, ToJson, FittingInteger, FittingBits, FittingOctets, FittingText, OctetsOf;
    if how.spec(t).Some? {
      var spec := how.spec(t).value;
      if Fits(spec, v) {
        BasicRoundTrip(v, iso);
        TextRoundTrip(spec, v, how.printing);
      } else if FromJson(ToJson(v, iso)).Some? {
        var w := FromJson(ToJson(v, iso)).value;
        CoercedFits(spec, w);
        ParsedFits(spec, TextOf(w, how.printing), how.printing);
      }
    }
  }

  /** What an entry makes of the store when it is put back. */
  function Step(now: Store, e: Entry, how: Typing): Store {
    match Decoded(e, how)
    case None => now
    case Some(v) => now[e.target := v]
  }

  /** The store after every entry of the plan was put back, in that order. */
  function PutBack(now: Store, plan: seq<Entry>, how: Typing): Store
    decreases |plan|
  {
    if plan == [] then now
    else Step(PutBack(now, plan[..|plan| - 1], how), plan[|plan| - 1], how)
  }

  /** What the plan leaves at `t`: the value before the oldest of its writes there. */
  function Left(t: Target, plan: seq<Entry>, how: Typing): Option<Value> {
    if plan == [] then None
    else
      var last := plan[|plan| - 1];
      if last.WriteEntry? && last.target == t && Decoded(last, how).Some? then Decoded(last, how)
      else Left(t, plan[..|plan| - 1], how)
  }

  lemma {:induction false} PutBackAt(now: Store, plan: seq<Entry>, how: Typing, t: Target)
    ensures var left, after := Left(t, plan, how), PutBack(now, plan, how);
            if left.Some? then t in after && after[t] == left.value
            else (t in after <==> t in now) && (t in now ==> after[t] == now[t])
    decreases |plan|
  {
    if plan != [] {
      PutBackAt(now, plan[..|plan| - 1], how, t);
    }
  }

  lemma {:induction false} LeftPrepended(t: Target, e: Entry, plan: seq<Entry>, how: Typing)
    ensures Left(t, [e] + plan, how) ==
              if Left(t, plan, how).Some? then Left(t, plan, how)
              else if e.WriteEntry? && e.target == t then Decoded(e, how)
              else None
    decreases |plan|
  {
    var r := [e] + plan;
    if plan == [] {
      assert r[..0] == [] && r[0] == e;
    } else {
      assert r[..|r| - 1] == [e] + plan[..|plan| - 1];
      LeftPrepended(t, e, plan[..|plan| - 1], how);
    }
  }

  /** The undo law: putting back what the plan lists returns every value to what it was at the start. */
  predicate Undoes(start: Store, now: Store, plan: seq<Entry>, how: Typing) {
    PutBack(now, plan, how) == start
  }

  /** Entry by entry: the law is about what is left at each target. */
  lemma UndoesPointwise(start: Store, now: Store, plan: seq<Entry>, how: Typing)
    requires start.Keys == now.Keys && forall e :: e in plan ==> e.WriteEntry? && e.target in now
    ensures Undoes(start, now, plan, how) <==>
              forall t :: t in start ==> Left(t, plan, how).GetOr(now[t]) == start[t]
  {
    var after := PutBack(now, plan, how);
    forall t
      ensures t in after <==> t in now
      ensures t in now ==> after[t] == Left(t, plan, how).GetOr(now[t])
    {
      PutBackAt(now, plan, how, t);
      LeftIsThere(t, plan, how);
    }
    if forall t :: t in start ==> Left(t, plan, how).GetOr(now[t]) == start[t] {
      assert after == start;
    }
  }

  lemma {:induction false} LeftIsThere(t: Target, plan: seq<Entry>, how: Typing)
    ensures Left(t, plan, how).Some? ==> exists e :: e in plan && e.WriteEntry? && e.target == t
  {
    if plan != [] {
      LeftIsThere(t, plan[..|plan| - 1], how);
      assert plan[|plan| - 1] in plan;
    }
  }

  /** A write that is logged as `e` keeps the law exactly when an older write of the plan already decides
      what is left there, or when the recorded value is the one that was there. */
  lemma LoggedWrite(start: Store, now: Store, plan: seq<Entry>, e: Entry, v: Value, how: Typing)
    requires start.Keys == now.Keys && forall x :: x in plan ==> x.WriteEntry? && x.target in now
    requires Undoes(start, now, plan, how) && e.WriteEntry? && e.target in now
    ensures Undoes(start, now[e.target := v], [e] + plan, how) <==>
              Left(e.target, plan, how).Some? || Decoded(e, how).GetOr(v) == now[e.target]
  {
    hide Undoes, Left, Decoded;
    UndoesPointwise(start, now, plan, how);
    UndoesPointwise(start, now[e.target := v], [e] + plan, how);
    forall t
      ensures Left(t, [e] + plan, how) ==
                if Left(t, plan, how).Some? then Left(t, plan, how)
                else if e.target == t then Decoded(e, how)
                else None
    {
      LeftPrepended(t, e, plan, how);
    }
  }

  /** A write that changed the store but never reached the log keeps it only by chance. */
  lemma UnloggedWrite(start: Store, now: Store, plan: seq<Entry>, t: Target, v: Value, how: Typing)
    requires start.Keys == now.Keys && forall x :: x in plan ==> x.WriteEntry? && x.target in now
    requires Undoes(start, now, plan, how) && t in now
    ensures Undoes(start, now[t := v], plan, how) <==> Left(t, plan, how).Some? || v == now[t]
  {
    hide Undoes, Left;
    UndoesPointwise(start, now, plan, how);
    UndoesPointwise(start, now[t := v], plan, how);
  }

  // ---------------------------------------------------------------- what a restore achieves

  /** The items whose restore did not succeed. */
  function LeftOver(items: seq<Entry>, oks: seq<bool>): (rest: seq<Entry>)
    requires |items| == |oks|
    ensures forall e :: e in rest ==> e in items
  {
    if items == [] then []
    else
      var n := |items| - 1;
      LeftOver(items[..n], oks[..n]) + if oks[n] then [] else [items[n]]
  }

  /** The value at `t` after these items were gone through: what the oldest of them writes there, as far as
      reading back can tell, if that succeeded; a failed one may have left anything. */
  predicate AsRestored(t: Target, before: Value, after: Value, items: seq<Entry>, oks: seq<bool>, how: Typing)
    requires |items| == |oks|
  {
    if items == [] then after == before
    else
      var n := |items| - 1;
      if items[n].WriteEntry? && items[n].target == t && Decoded(items[n], how).Some? then
        oks[n] ==> Same(after, Decoded(items[n], how).value)
      else
        AsRestored(t, before, after, items[..n], oks[..n], how)
  }

  /** Every value is as these items leave it. */
  predicate AllAsRestored(before: Store, after: Store, items: seq<Entry>, oks: seq<bool>, how: Typing)
    requires |items| == |oks|
  {
    && after.Keys == before.Keys
    && forall t :: t in before ==> AsRestored(t, before[t], after[t], items, oks, how)
  }

  lemma {:induction false} RestoredHere(t: Target, before: Value, after: Value, items: seq<Entry>, oks: seq<bool>,
                                        how: Typing)
    requires |items| == |oks| && AsRestored(t, before, after, items, oks, how)
    ensures Left(t, LeftOver(items, oks), how).None? ==>
              if Left(t, items, how).Some? then Same(after, Left(t, items, how).value) else after == before
  {
    if items != [] {
      var n := |items| - 1;
      var rest := LeftOver(items[..n], oks[..n]);
      if oks[n] {
        assert LeftOver(items, oks) == rest;
      } else {
        assert LeftOver(items, oks)[..|rest|] == rest;
      }
      if !(items[n].WriteEntry? && items[n].target == t && Decoded(items[n], how).Some?) {
        RestoredHere(t, before, after, items[..n], oks[..n], how);
      }
    }
  }

  /** A restore that did not complete keeps the law exactly when, wherever something is left over, the
      oldest write left over had the value of the start before it, and what was put back is exactly that;
      what was put back is so as far as reading back can tell. */
  lemma PartialRestore(start: Store, before: Store, after: Store, items: seq<Entry>, oks: seq<bool>, how: Typing)
    requires |items| == |oks| && start.Keys == before.Keys
    requires forall e :: e in items ==> e.WriteEntry? && e.target in before
    requires Undoes(start, before, items, how)
    requires AllAsRestored(before, after, items, oks, how)
    ensures forall t :: t in start && Left(t, LeftOver(items, oks), how).None? ==> Same(after[t], start[t])
    ensures Undoes(start, after, LeftOver(items, oks), how) <==> StillLeads(start, after, LeftOver(items, oks), how)
  {
    hide Undoes, Left, AsRestored, LeftOver, Same;
    var rest := LeftOver(items, oks);
    UndoesPointwise(start, before, items, how);
    UndoesPointwise(start, after, rest, how);
    forall t | t in start && Left(t, rest, how).None?
      ensures Same(after[t], start[t]) && (!start[t].Float? && !after[t].Float? ==> after[t] == start[t])
    {
      RestoredHere(t, before[t], after[t], items, oks, how);
      SameAsItself(start[t]);
      SameIsEqual(after[t], start[t]);
    }
  }

  lemma SameIsEqual(a: Value, b: Value)
    ensures !a.Float? && !b.Float? ==> (Same(a, b) <==> a == b)
  {
  }

  /** A restore that succeeded throughout brings the start back, as far as reading back can tell, and leaves
      nothing to do. */
  lemma FullRestore(start: Store, before: Store, after: Store, items: seq<Entry>, oks: seq<bool>, how: Typing)
    requires |items| == |oks| && start.Keys == before.Keys
    requires forall e :: e in items ==> e.WriteEntry? && e.target in before
    requires Undoes(start, before, items, how)
    requires AllAsRestored(before, after, items, oks, how)
    requires forall i :: 0 <= i < |oks| ==> oks[i]
    ensures LeftOver(items, oks) == [] && after.Keys == start.Keys
    ensures forall t :: t in start ==> Same(after[t], start[t])
  {
    NoneLeftOver(items, oks);
    PartialRestore(start, before, after, items, oks, how);
  }

  lemma {:induction false} NoneLeftOver(items: seq<Entry>, oks: seq<bool>)
    requires |items| == |oks| && forall i :: 0 <= i < |oks| ==> oks[i]
    ensures LeftOver(items, oks) == []
  {
    if items != [] {
      NoneLeftOver(items[..|items| - 1], oks[..|items| - 1]);
    }
  }

  // ---------------------------------------------------------------- planning

  /** What a restore works from: this session's own log, or an earlier log (`source`) and this one's markers. */
  datatype Origin = OwnLog | Earlier(entries: seq<Entry>, session: string)

  function SourceId(o: Origin, ownId: string): string {
    if o.OwnLog? then ownId else o.session
  }

  function Done(o: Origin, ownId: string, own: seq<Entry>): set<nat> {
    match o
    case OwnLog => RestoredSeqs(own, ownId, true)
    case Earlier(es, id) => RestoredSeqs(es, id, true) + RestoredSeqs(own, id, false)
  }

  function Plan(o: Origin, ownId: string, own: seq<Entry>): seq<Entry> {
    Restorable(if o.OwnLog? then own else o.entries, Done(o, ownId, own))
  }

  /** An entry that a restore of `o` adds: its own writes change no plan, and its outcome takes the write
      it put back out of the plan. */
  lemma MarkerInPlan(o: Origin, ownId: string, own: seq<Entry>, e: Entry)
    requires e.WriteEntry? || e.RestoreEntry?
    requires e.restoredFrom.Some? && e.ofSession == Some(SourceId(o, ownId))
    ensures Plan(o, ownId, own + [e]) ==
              Without(Plan(o, ownId, own), if e.RestoreEntry? && e.ok then {e.restoredFrom.value} else {})
  {
    var more := if e.RestoreEntry? && e.ok then {e.restoredFrom.value} else {};
    assert (own + [e])[..|own|] == own;
    match o
    case OwnLog =>
      assert Done(o, ownId, own + [e]) == Done(o, ownId, own) + more;
      assert Restorable(own + [e], Done(o, ownId, own + [e])) == Restorable(own, Done(o, ownId, own + [e]));
      MoreDone(own, Done(o, ownId, own), more);
    case Earlier(es, id) =>
      assert Done(o, ownId, own + [e]) == Done(o, ownId, own) + more;
      MoreDone(es, Done(o, ownId, own), more);
  }

  /** A restore of another session's log changes nothing in the plan of this one. */
  lemma OthersMarkers(ownId: string, own: seq<Entry>, e: Entry)
    requires e.WriteEntry? || e.RestoreEntry?
    requires e.restoredFrom.Some? && e.ofSession.Some? && e.ofSession != Some(ownId)
    ensures Plan(OwnLog, ownId, own + [e]) == Plan(OwnLog, ownId, own)
  {
  }

  /** A successful write of the operator's goes to the front of this session's plan. */
  lemma OperatorWrite(ownId: string, own: seq<Entry>, e: Entry)
    requires e.WriteEntry? && e.restoredFrom.None? && forall s :: s in Done(OwnLog, ownId, own) ==> s < e.no
    ensures Done(OwnLog, ownId, own + [e]) == Done(OwnLog, ownId, own)
    ensures Plan(OwnLog, ownId, own + [e]) ==
              (if e.ok && !e.test && e.before != JNull then [e] else []) + Plan(OwnLog, ownId, own)
  {
  }

  lemma {:induction false} WithoutNone(plan: seq<Entry>)
    ensures Without(plan, {}) == plan
  {
    if plan != [] {
      WithoutNone(plan[1..]);
    }
  }

  lemma {:induction false} WithoutAbsent(plan: seq<Entry>, done: set<nat>)
    requires forall e :: e in plan ==> e.no !in done
    ensures Without(plan, done) == plan
  {
    if plan != [] {
      assert plan[0] in plan && forall e :: e in plan[1..] ==> e in plan;
      WithoutAbsent(plan[1..], done);
    }
  }

  /** The numbers of the items that went well. */
  function Succeeded(items: seq<Entry>, oks: seq<bool>): (ns: set<nat>)
    requires |items| == |oks|
    ensures forall n :: n in ns ==> exists e :: e in items && e.no == n
  {
    if items == [] then {}
    else
      var n := |items| - 1;
      assert items[n] in items && forall e :: e in items[..n] ==> e in items;
      Succeeded(items[..n], oks[..n]) + if oks[n] then {items[n].no} else {}
  }

  /** As no two items have the same number, crossing out the numbers crosses out those items. */
  lemma {:induction false} LeftOverIsWithout(items: seq<Entry>, oks: seq<bool>)
    requires |items| == |oks| && Descending(items)
    ensures Without(items, Succeeded(items, oks)) == LeftOver(items, oks)
  {
    if items != [] {
      var n := |items| - 1;
      var before, last := items[..n], items[n];
      var ns := Succeeded(before, oks[..n]);
      var more := if oks[n] then {last.no} else {};
      assert items == before + [last];
      assert forall e :: e in before ==> e.no > last.no;
      LeftOverIsWithout(before, oks[..n]);
      assert forall e :: e in Without(before, ns) ==> e.no > last.no;
      assert forall m :: m in ns ==> m > last.no;
      LastLeftOver(before, last, ns, more);
    }
  }

  /** Crossing out the number of the last item, or nothing. */
  lemma LastLeftOver(before: seq<Entry>, last: Entry, ns: set<nat>, more: set<nat>)
    requires (more == {} || more == {last.no}) && last.no !in ns
    requires forall e :: e in Without(before, ns) ==> e.no > last.no
    ensures Without(before + [last], ns + more) == Without(before, ns) + if more == {} then [last] else []
  {
    WithoutConcat(before, [last], ns + more);
    WithoutTwice(before, ns, more);
    WithoutAbsent(Without(before, ns), more);
    assert [last][1..] == [];
    assert Without([last], ns + more) == if more == {} then [last] else [];
  }

  // ---------------------------------------------------------------- the law of a session's own log

  /** Only entries of the log have been put back from it. */
  predicate Bounded(id: string, own: seq<Entry>, last: nat) {
    forall s :: s in Done(OwnLog, id, own) ==> s <= last
  }

  /** The log numbered up to `last` undoes what was done to the store since the start. */
  ghost predicate LogUndoes(start: Store, now: Store, id: string, own: seq<Entry>, last: nat, how: Typing) {
    && start.Keys == now.Keys
    && Bounded(id, own, last)
    && (forall e :: e in Plan(OwnLog, id, own) ==> e.WriteEntry? && e.target in now)
    && Undoes(start, now, Plan(OwnLog, id, own), how)
  }

  /** What a restore would put back for a write that ended so: nothing if it was not logged, was not known to be
      carried out, or has no value before it. */
  function PutBackFor(t: Target, r: WriteEnd, how: Typing): Option<Value> {
    if r.Logged? && r.ok && r.before != JNull then DecodedFrom(t, r.before, how) else None
  }

  /** A write keeps the law exactly when an older write of the plan decides what is left there, or when what
      a restore would leave there is the value that was there. */
  predicate WriteKeepsLaw(t: Target, was: Value, now: Value, r: WriteEnd, plan: seq<Entry>, how: Typing) {
    Left(t, plan, how).Some? || PutBackFor(t, r, how).GetOr(now) == was
  }

  lemma LoggedLaw(start: Store, was: Store, now: Store, id: string, own: seq<Entry>, last: nat, t: Target, r: WriteEnd, how: Typing)
    requires LogUndoes(start, was, id, own, last, how)
    requires t in was && t in now && now == was[t := now[t]] && r.Logged?
    ensures LogUndoes(start, now, id, own + [Record(last + 1, t, r.before, r.ok, None)], last + 1, how) <==>
              WriteKeepsLaw(t, was[t], now[t], r, Plan(OwnLog, id, own), how)
  {
    hide Done, Plan, Undoes, DecodedFrom;
    var e := Record(last + 1, t, r.before, r.ok, None);
    OperatorWrite(id, own, e);
    var plan := Plan(OwnLog, id, own);
    if r.ok && r.before != JNull {
      LoggedWrite(start, was, plan, e, now[t], how);
    } else {
      UnloggedWrite(start, was, plan, t, now[t], how);
      assert [] + plan == plan;
    }
  }

  lemma UnloggedLaw(start: Store, was: Store, now: Store, id: string, own: seq<Entry>, last: nat, t: Target, r: WriteEnd, how: Typing)
    requires LogUndoes(start, was, id, own, last, how)
    requires t in was && t in now && now == was[t := now[t]] && r.Raised?
    ensures LogUndoes(start, now, id, own, last, how) <==> WriteKeepsLaw(t, was[t], now[t], r, Plan(OwnLog, id, own), how)
  {
    hide Done, Plan, Undoes;
    UnloggedWrite(start, was, Plan(OwnLog, id, own), t, now[t], how);
  }

  /** The law after a write, logged or not. */
  lemma LawAfterWrite(start: Store, was: Store, now: Store, id: string, own: seq<Entry>, last: nat, own': seq<Entry>, last': nat,
                      t: Target, r: WriteEnd, how: Typing)
    requires LogUndoes(start, was, id, own, last, how)
    requires now.Keys == was.Keys && forall u :: u in now && u != t ==> now[u] == was[u]
    requires if r.Raised? then own' == own && last' == last
             else t in was && last' == last + 1 && own' == own + [Record(last + 1, t, r.before, r.ok, None)]
    ensures LogUndoes(start, now, id, own', last', how) <==>
              (t in now ==> WriteKeepsLaw(t, was[t], now[t], r, Plan(OwnLog, id, own), how))
  {
    hide LogUndoes, Plan, WriteKeepsLaw;
    if t in was {
      assert now == was[t := now[t]];
      if r.Raised? {
        UnloggedLaw(start, was, now, id, own, last, t, r, how);
      } else {
        LoggedLaw(start, was, now, id, own, last, t, r, how);
      }
    } else {
      assert now == was;
    }
  }

  /** After a restore of this log, the law is down to what is left over. */
  lemma RestoredLaw(start: Store, was: Store, now: Store, id: string, own: seq<Entry>, last: nat,
                    own': seq<Entry>, last': nat, items: seq<Entry>, oks: seq<bool>, how: Typing)
    requires LogUndoes(start, was, id, own, last, how)
    requires items == Plan(OwnLog, id, own) && |oks| == |items| && Plan(OwnLog, id, own') == LeftOver(items, oks)
    requires AllAsRestored(was, now, items, oks, how)
    requires Bounded(id, own', last')
    ensures LogUndoes(start, now, id, own', last', how) <==> StillLeads(start, now, LeftOver(items, oks), how)
    ensures forall t :: t in start && Left(t, LeftOver(items, oks), how).None? ==> Same(now[t], start[t])
  {
    hide Plan, Done, Undoes, AsRestored, Left, Same;
    PartialRestore(start, was, now, items, oks, how);
  }

  /** Wherever something is left over, the oldest write left over had the value of the start before it, and
      the floats put back are exactly those of the start. */
  predicate StillLeads(start: Store, now: Store, rest: seq<Entry>, how: Typing)
    requires start.Keys == now.Keys
  {
    && (forall t :: t in start && Left(t, rest, how).Some? ==> Left(t, rest, how).value == start[t])
    && (forall t :: t in start && Left(t, rest, how).None? && (start[t].Float? || now[t].Float?) ==> now[t] == start[t])
  }

  lemma NothingRestoredYet(now: Store, items: seq<Entry>, how: Typing)
    ensures AllAsRestored(now, now, items[..0], [], how)
    ensures Without(items, Succeeded(items[..0], [])) == items
  {
    WithoutNone(items);
  }

  /** One more item gone through. */
  lemma ItemRestored(before: Store, mid: Store, after: Store, items: seq<Entry>, i: nat, oks: seq<bool>, ok: bool,
                     how: Typing)
    requires i < |items| && |oks| == i && AllAsRestored(before, mid, items[..i], oks, how)
    requires items[i].WriteEntry? && after.Keys == mid.Keys
    requires forall t :: t in mid && (t != items[i].target || Decoded(items[i], how).None?) ==> after[t] == mid[t]
    requires ok ==> items[i].target in after && Decoded(items[i], how).Some?
                    && Same(after[items[i].target], Decoded(items[i], how).value)
    ensures AllAsRestored(before, after, items[..i + 1], oks + [ok], how)
  {
    hide Decoded;
    assert items[..i + 1][..i] == items[..i] && (oks + [ok])[..i] == oks;
  }

  /** What one item adds to the log: perhaps the write, and its outcome. */
  predicate ItemLogged(own: seq<Entry>, own': seq<Entry>, from: nat, source: string, ok: bool) {
    && |own'| > |own| && own' == own + own'[|own|..]
    && own'[|own'| - 1].RestoreEntry? && own'[|own'| - 1].ok == ok
    && (|own'| == |own| + 1 || (|own'| == |own| + 2 && own'[|own|].WriteEntry?))
    && forall k :: |own| <= k < |own'| ==> Marked(own'[k], from, source)
  }

  predicate Marked(e: Entry, from: nat, source: string) {
    (e.WriteEntry? || e.RestoreEntry?) && e.restoredFrom == Some(from) && e.ofSession == Some(source)
  }

  lemma ItemInPlan(o: Origin, id: string, own: seq<Entry>, own': seq<Entry>, from: nat, ok: bool)
    requires ItemLogged(own, own', from, SourceId(o, id), ok)
    ensures Plan(o, id, own') == Without(Plan(o, id, own), if ok then {from} else {})
    ensures o.OwnLog? ==> Done(OwnLog, id, own') <= Done(OwnLog, id, own) + {from}
    ensures o.Earlier? && o.session != id ==>
              Plan(OwnLog, id, own') == Plan(OwnLog, id, own) && Done(OwnLog, id, own') == Done(OwnLog, id, own)
  {
    hide Plan;
    var n := |own'| - 1;
    var mid, last := own'[..n], own'[n];
    assert own' == mid + [last];
    if |own'| == |own| + 2 {
      var w := own'[|own|];
      assert mid == own + [w];
      MarkerInPlan(o, id, own, w);
      WithoutNone(Plan(o, id, own));
      MarkerDone(o, id, own, w);
    } else {
      assert mid == own;
    }
    MarkerInPlan(o, id, mid, last);
    MarkerDone(o, id, mid, last);
  }

  lemma MarkerDone(o: Origin, id: string, own: seq<Entry>, e: Entry)
    requires (e.WriteEntry? || e.RestoreEntry?) && e.restoredFrom.Some? && Marked(e, e.restoredFrom.value, SourceId(o, id))
    ensures o.OwnLog? ==> Done(OwnLog, id, own + [e]) <= Done(OwnLog, id, own) + {e.restoredFrom.value}
    ensures o.Earlier? && o.session != id ==>
              Plan(OwnLog, id, own + [e]) == Plan(OwnLog, id, own) && Done(OwnLog, id, own + [e]) == Done(OwnLog, id, own)
  {
  }

  // ---------------------------------------------------------------- writing and restoring

  datatype Marker = Marker(from: nat, session: string)

  /** `Raised`: an exception ended the write, and nothing reached the log; `escapes`: one that a restore does
      not handle. `Logged`: it was logged with this value before it; `applied`: it read back as written. */
  datatype WriteEnd = Raised(escapes: bool) | Logged(before: Json, ok: bool, applied: bool)

  /** The log entry of a write. */
  function Record(no: nat, t: Target, before: Json, ok: bool, marker: Option<Marker>): Entry {
    match marker
    case None => WriteEntry(no, t, false, before, ok, None, None)
    case Some(m) => WriteEntry(no, t, false, before, ok, Some(m.from), Some(m.session))
  }

  /** What is recorded of a value read: itself, the error the device answered with, or, for an active group,
      nothing when its control block cannot be read. */
  predicate RecordedBefore(t: Target, v: Value, before: Json, iso: (int, int) -> string) {
    || before == ToJson(v, iso)
    || (FromJson(before).Some? && FromJson(before).value.AccessError?)
    || (t.ActiveGroup? && before == JNull)
  }

  /** What came of a restore that was asked for; `escaped` when an exception cut it short at its last item. */
  datatype RestoreEnd = OtherDevice | NotConfirmed | WentThrough(oks: seq<bool>, escaped: bool)

  /** The outcome of each item: those not reached did not succeed. */
  function Padded(oks: seq<bool>, n: nat): (r: seq<bool>)
    requires |oks| <= n
    ensures |r| == n && r[..|oks|] == oks
    decreases n
  {
    if |oks| == n then oks else Padded(oks, n - 1) + [false]
  }

  lemma {:induction false} PaddedSucceeded(items: seq<Entry>, oks: seq<bool>, n: nat)
    requires |oks| <= n <= |items|
    ensures Succeeded(items[..n], Padded(oks, n)) == Succeeded(items[..|oks|], oks)
  {
    if n == |oks| {
      assert Padded(oks, n) == oks;
    } else {
      PaddedSucceeded(items, oks, n - 1);
      assert items[..n][..n - 1] == items[..n - 1] && Padded(oks, n)[..n - 1] == Padded(oks, n - 1);
    }
  }

  lemma {:induction false} PaddedAsRestored(t: Target, before: Value, after: Value, items: seq<Entry>, oks: seq<bool>, n: nat, how: Typing)
    requires |oks| <= n <= |items| && AsRestored(t, before, after, items[..|oks|], oks, how)
    ensures AsRestored(t, before, after, items[..n], Padded(oks, n), how)
  {
    hide Same, DecodedFrom;
    if n == |oks| {
      assert Padded(oks, n) == oks;
    } else {
      PaddedAsRestored(t, before, after, items, oks, n - 1, how);
      assert items[..n][..n - 1] == items[..n - 1] && Padded(oks, n)[..n - 1] == Padded(oks, n - 1);
    }
  }

  lemma PaddedAllAsRestored(before: Store, after: Store, items: seq<Entry>, oks: seq<bool>, how: Typing)
    requires |oks| <= |items| && AllAsRestored(before, after, items[..|oks|], oks, how)
    ensures AllAsRestored(before, after, items, Padded(oks, |items|), how)
  {
    hide Padded, AsRestored;
    assert items[..|items|] == items;
    forall t | t in before
      ensures AsRestored(t, before[t], after[t], items, Padded(oks, |items|), how)
    {
      PaddedAsRestored(t, before[t], after[t], items, oks, |items|, how);
    }
  }

  /** A value that was sent to the device, and what it answered. */
  datatype Sent = Sent(target: Target, value: Value, accepted: bool)

  class Client {
    const log: SessionLog
    /** A cooperative device answers every read and accepts and stores what fits. */
    const cooperative: bool
    const device: string
    const how: Typing
    const iso: (int, int) -> string
    var values: Store
    /** The values when the session started. */
    ghost const start: Store
    ghost var sent: seq<Sent>

    constructor (values: Store, log: SessionLog, device: string, how: Typing, iso: (int, int) -> string, cooperative: bool)
      requires log.Valid() && log.entries == []
      ensures this.values == values && this.start == values && this.log == log && this.device == device && this.how == how && this.iso == iso
      ensures this.cooperative == cooperative && sent == [] && Lawful()
    {
      this.values, this.start, this.log, this.device, this.how, this.iso := values, values, log, device, how, iso;
      this.cooperative, this.sent := cooperative, [];
    }

    ghost predicate Lawful()
      reads this`values, log
    {
      log.Valid() && LogUndoes(start, values, log.id, log.entries, log.seqNo, how)
    }

    /** Read the value before a write. `Raised` where that fails; but a change of the active group goes on
        without it, and an error the device answers with is recorded as if it were the value. */
    method ReadBefore(t: Target) returns (r: Result<Json, WriteEnd>)
      requires t in values
      ensures r.Ok? ==> RecordedBefore(t, values[t], r.value, iso)
      ensures r.Err? ==> r.error.Raised? && !t.ActiveGroup?
      ensures cooperative ==> r == Ok(ToJson(values[t], iso))
    {
      var fails, denied: bool := *, *;
      if fails && !cooperative {
        var closed: bool := *;
        if t.ActiveGroup? {
          return Ok(JNull);
        }
        return Err(Raised(closed));
      }
      if denied && !cooperative {
        var e: Value := *;
        if e.AccessError? {
          BasicRoundTrip(e, iso);
          return Ok(ToJson(e, iso));
        }
      }
      r := Ok(ToJson(values[t], iso));
    }

    /** The device: it may refuse a value or accept it, store something else of the type than it was told to,
        or store it although it ends in an error. */
    method Put(t: Target, value: Value) returns (accepted: bool)
      requires t in values && how.spec(t).Some?
      modifies this`values, this`sent
      ensures sent == old(sent) + [Sent(t, value, accepted)]
      ensures t in values && values == old(values)[t := values[t]]
      ensures (values[t] == old(values)[t] || values[t] == value || Fits(how.spec(t).value, values[t]))
      ensures accepted && t.ActiveGroup? ==> values[t] == value
      ensures cooperative ==> accepted && values[t] == value
    {
      var carriedOut: bool, stored: Value := *, *;
      accepted := *;
      accepted := accepted || cooperative;
      if accepted || carriedOut {
        if t.ActiveGroup? || cooperative {
          stored := value;
        } else if !Fits(how.spec(t).value, stored) {
          stored := values[t];
        }
        values := values[t := stored];
      }
      sent := sent + [Sent(t, value, accepted)];
    }

    /** Nothing is sent for a target that is not known, or for a value that does not fit its type. */
    predicate Writable(t: Target, value: Value)
      reads this`values
    {
      t in values && how.spec(t).Some? && Coerce(how.spec(t).value, value).Some?
    }

    function Encoded(t: Target, value: Value): Value
      requires Writable(t, value)
      reads this`values
    {
      Coerce(how.spec(t).value, value).value
    }

    /** Read, write, read back, log. When the reading back raises, the exception leaves before the write is
        logged; only for a setting is an error there handled first. */
    method Write(t: Target, value: Value, marker: Option<Marker>) returns (r: WriteEnd)
      requires log.Valid()
      modifies this`values, this`sent, log
      ensures log.Valid() && values.Keys == old(values).Keys
      ensures forall u :: u in values && u != t ==> values[u] == old(values)[u]
      ensures r.Raised? ==> log.entries == old(log.entries) && log.seqNo == old(log.seqNo)
      ensures r.Logged? ==>
                && old(Writable(t, value)) && t in old(values) && log.seqNo == old(log.seqNo) + 1
                && log.entries == old(log.entries) + [Record(log.seqNo, t, r.before, r.ok, marker)]
                && RecordedBefore(t, old(values)[t], r.before, iso)
                && (r.ok && r.applied ==> Same(values[t], old(Encoded(t, value))))
      // what is logged as the outcome is what the device answered to the one value sent
      ensures r.Logged? ==> sent == old(sent) + [Sent(t, old(Encoded(t, value)), r.ok)]
      ensures r.Raised? ==> sent == old(sent) || (old(Writable(t, value)) && exists ok :: sent == old(sent) + [Sent(t, old(Encoded(t, value)), ok)])
      ensures sent == old(sent) ==> values == old(values)
      // an error after an attribute was sent is one that a restore handles; a value that does not fit is not
      ensures r.Raised? && sent != old(sent) && t.Attribute? ==> !r.escapes
      ensures cooperative && t in old(values) && how.spec(t).Some? && !old(Writable(t, value)) ==> r == Raised(true)
      // a cooperative device stores what fits, and the log says so
      ensures cooperative && old(Writable(t, value)) ==>
                && r == Logged(ToJson(old(values)[t], iso), true, t.ActiveGroup? || Same(old(Encoded(t, value)), value))
                && values == old(values)[t := old(Encoded(t, value))]
      // the law of this session's log, for every way it ends
      ensures old(Lawful()) && (marker.None? || r.Raised?) ==>
                (Lawful() <==>
                   (t in values ==> WriteKeepsLaw(t, old(values)[t], values[t], r, Plan(OwnLog, log.id, old(log.entries)), how)))
    {
      hide LogUndoes, Plan, Left, ToJson, FromJson, Coerce, DecodedFrom, Ascending, RecordedBefore, Same, WriteKeepsLaw, Client.Encoded, Client.Writable;
      ghost var was, own, last, lawful := values, log.entries, log.seqNo, Lawful();
      r := WriteAndReadBack(t, value);
      if r.Logged? {
        log.Write(Record(0, t, r.before, r.ok, marker));
      }
      if lawful && (marker.None? || r.Raised?) {
        LawAfterWrite(start, was, values, log.id, own, last, log.entries, log.seqNo, t, r, how);
      }
    }

    /** All of a write but its log entry. */
    method WriteAndReadBack(t: Target, value: Value) returns (r: WriteEnd)
      modifies this`values, this`sent
      ensures values.Keys == old(values).Keys
      ensures forall u :: u in values && u != t ==> values[u] == old(values)[u]
      ensures r.Logged? ==>
                && old(Writable(t, value)) && t in old(values) && RecordedBefore(t, old(values)[t], r.before, iso)
                && (r.ok && r.applied ==> Same(values[t], old(Encoded(t, value))))
                && sent == old(sent) + [Sent(t, old(Encoded(t, value)), r.ok)]
      ensures r.Raised? ==> sent == old(sent) || (old(Writable(t, value)) && exists ok :: sent == old(sent) + [Sent(t, old(Encoded(t, value)), ok)])
      ensures sent == old(sent) ==> values == old(values)
      ensures r.Raised? && sent != old(sent) && t.Attribute? ==> !r.escapes
      ensures cooperative && t in old(values) && how.spec(t).Some? && !old(Writable(t, value)) ==> r == Raised(true)
      ensures cooperative && old(Writable(t, value)) ==>
                && r == Logged(ToJson(old(values)[t], iso), true, t.ActiveGroup? || Same(old(Encoded(t, value)), value))
                && values == old(values)[t := old(Encoded(t, value))]
    {
      hide ToJson, FromJson, Coerce, RecordedBefore, Same;
      var closed, broken, denied: bool := *, *, *;
      if cooperative {
        closed, broken, denied := false, false, false;
      }
      if closed || t !in values || how.spec(t).None? {
        return Raised(closed);
      }
      var before := ReadBefore(t);
      if before.Err? {
        return before.error;
      }
      var coerced := Coerce(how.spec(t).value, value);
      if coerced.None? {
        return Raised(true);
      }
      var ok := Put(t, coerced.value);
      if broken && (ok || !t.Attribute?) {
        assert sent == old(sent) + [Sent(t, old(Encoded(t, value)), ok)];
        closed := *;
        return Raised(closed && !t.Attribute?);
      }
      SameAsItself(coerced.value);
      var applied := ok && (t.ActiveGroup? || (!denied && Same(values[t], value) && Same(values[t], coerced.value)));
      r := Logged(before.value, ok, applied);
    }

    /** Making a value of the recorded one raises, with nothing tried before it that could fail otherwise. */
    predicate Unwritable(e: Entry) {
      && e.WriteEntry? && how.spec(e.target).Some? && Decoded(e, how).None?
      && (!e.target.Attribute? || FromJson(e.before).None?)
    }

    /** Put one item back and log the outcome. An exception that `run_restore` does not handle escapes, with
        nothing logged; one that it does handle, and a value that does not read back, are outcomes. */
    method RestoreItem(e: Entry, source: string) returns (ok: bool, escaped: bool)
      requires log.Valid() && e.WriteEntry?
      modifies this`values, this`sent, log
      ensures log.Valid() && values.Keys == old(values).Keys && log.seqNo >= old(log.seqNo)
      ensures cooperative && Decoded(e, how).Some? && e.target in old(values) ==> ok && values == Step(old(values), e, how)
      ensures forall u :: u in values && (u != e.target || Decoded(e, how).None?) ==> values[u] == old(values)[u]
      ensures ok ==> e.target in values && Decoded(e, how).Some? && Same(values[e.target], Decoded(e, how).value)
      ensures Unwritable(e) ==> escaped
      ensures if escaped then !ok && log.entries == old(log.entries) && log.seqNo == old(log.seqNo)
              else ItemLogged(old(log.entries), log.entries, e.no, source, ok)
    {
      hide ToJson, DecodedFrom, Ascending, Same, Coerce;
      var v := Decoded(e, how);
      if v.Some? {
        SameAsItself(v.value);
      }
      ok, escaped := false, false;
      if v.None? {
        // for an attribute, reading the value before may fail first
        escaped := *;
        escaped := escaped || Unwritable(e);
        if escaped {
          return;
        }
      } else {
        DecodedIsCoerced(e);
        var r := Write(e.target, v.value, Some(Marker(e.no, source)));
        if r.Raised? && r.escapes {
          return false, true;
        }
        ok := r.Logged? && r.ok && r.applied;
      }
      log.Write(RestoreEntry(0, ok, Some(e.no), Some(source)));
    }

    /** What is written is already of the declared type. */
    lemma DecodedIsCoerced(e: Entry)
      requires Decoded(e, how).Some?
      ensures how.spec(e.target).Some? && Coerce(how.spec(e.target).value, Decoded(e, how).value) == Decoded(e, how)
    {
      var spec := how.spec(e.target).value;
      CoercedFits(spec, FromJson(e.before).value);
      ParsedFits(spec, TextOf(FromJson(e.before).value, how.printing), how.printing);
    }

    /** The log names another device than this. */
    predicate Foreign(o: Origin) {
      o.Earlier? && StartedOn(o.entries).Some? && StartedOn(o.entries).value != "" && StartedOn(o.entries).value != device
    }

    /** `run_restore` of what `plan_restore` listed. */
    method Restore(o: Origin, confirmed: bool) returns (items: seq<Entry>, end: RestoreEnd)
      requires log.Valid() && (o.Earlier? ==> Ascending(o.entries) && o.session != log.id)
      modifies this`values, this`sent, log
      ensures log.Valid() && values.Keys == old(values).Keys
      ensures end.OtherDevice? <==> Foreign(o)
      ensures end.NotConfirmed? <==> !Foreign(o) && Plan(o, log.id, old(log.entries)) != [] && !confirmed
      ensures !end.OtherDevice? ==> items == Plan(o, log.id, old(log.entries)) && Descending(items)
      ensures !end.WentThrough? ==> values == old(values) && log.entries == old(log.entries) && sent == old(sent)
      // an item whose exception escapes is the last one tried
      ensures end.WentThrough? ==> |end.oks| <= |items|
                                   && (if end.escaped then end.oks != [] && !end.oks[|end.oks| - 1] else |end.oks| == |items|)
      // what is left over is what did not succeed or was not reached, in the same order
      ensures end.WentThrough? ==> Plan(o, log.id, log.entries) == LeftOver(items, Padded(end.oks, |items|))
      ensures end.WentThrough? ==> AllAsRestored(old(values), values, items[..|end.oks|], end.oks, how)
      ensures end.WentThrough? ==> forall i :: 0 <= i < |end.oks| && end.oks[i] ==> Decoded(items[i], how).Some?
      // no item older than one that cannot be written is reached
      ensures end.WentThrough? ==> forall i :: 0 <= i < |end.oks| && Unwritable(items[i]) ==> end.escaped && i == |end.oks| - 1
      // a cooperative device takes back every value that can be written, and with a lawful log is as at the start
      ensures cooperative && end.WentThrough? && (forall e :: e in items ==> Decoded(e, how).Some? && e.target in old(values)) ==>
                && !end.escaped && (forall i :: 0 <= i < |items| ==> end.oks[i]) && values == PutBack(old(values), items, how)
                && (o.OwnLog? && old(Lawful()) ==> values == start)
      // restoring another session leaves this one's plan alone
      ensures o.Earlier? ==> Plan(OwnLog, log.id, log.entries) == Plan(OwnLog, log.id, old(log.entries))
      // when everything succeeded, there is nothing more to restore, and the values read back as those of the start
      ensures o.OwnLog? && old(Lawful()) && end.WentThrough? && |end.oks| == |items| && (forall i :: 0 <= i < |items| ==> end.oks[i]) ==>
                Plan(o, log.id, log.entries) == [] && values.Keys == start.Keys && (forall t :: t in start ==> Same(values[t], start[t]))
      // in any case the law survives exactly when what is left over still leads to the start
      ensures o.OwnLog? && old(Lawful()) && end.WentThrough? ==>
                start.Keys == values.Keys
                && (Lawful() <==> StillLeads(start, values, LeftOver(items, Padded(end.oks, |items|)), how))
    {
      hide LogUndoes, Plan, Done, Left, AllAsRestored, Ascending, Descending, Bounded, StillLeads, Same;
      ghost var was, own, last, lawful := values, log.entries, log.seqNo, Lawful();
      var plan := MakePlan(o);
      if plan.None? {
        return [], OtherDevice;
      }
      items := plan.value;
      if items != [] && !confirmed {
        return items, NotConfirmed;
      }
      var oks, escaped := RunPlan(o, items);
      end := WentThrough(oks, escaped);
      PaddedAllAsRestored(was, values, items, oks, how);
      if lawful && o.OwnLog? {
        LawIsUndoing(start, was, log.id, own, last, how);
        DoneBound(start, was, log.id, own, last, how);
        RestoredLaw(start, was, values, log.id, own, last, log.entries, log.seqNo, items, Padded(oks, |items|), how);
        if |oks| == |items| && forall i :: 0 <= i < |items| ==> oks[i] {
          NoneLeftOver(items, Padded(oks, |items|));
          NothingLeftNothingNeeded(how);
        }
      }
    }

    lemma LawIsUndoing(start: Store, now: Store, id: string, own: seq<Entry>, last: nat, how: Typing)
      requires LogUndoes(start, now, id, own, last, how)
      ensures PutBack(now, Plan(OwnLog, id, own), how) == start
    {
    }

    lemma DoneBound(start: Store, now: Store, id: string, own: seq<Entry>, last: nat, how: Typing)
      requires LogUndoes(start, now, id, own, last, how)
      ensures Bounded(id, own, last) && start.Keys == now.Keys
    {
    }

    lemma NothingLeftNothingNeeded(how: Typing)
      ensures forall t :: Left(t, [], how).None?
    {
    }

    /** `plan_restore`; None when the log is of another device. */
    method MakePlan(o: Origin) returns (items: Option<seq<Entry>>)
      requires log.Valid() && (o.Earlier? ==> Ascending(o.entries))
      ensures items.None? <==> Foreign(o)
      ensures items.Some? ==> items.value == Plan(o, log.id, log.entries) && Descending(items.value)
    {
      if o.Earlier? {
        var owner := OwnerOf(o.entries);
        if owner.Some? && owner.value != "" && owner.value != device {
          return None;
        }
      }
      var source := if o.OwnLog? then log.entries else o.entries;
      var done := CollectRestored(source, SourceId(o, log.id), true);
      if o.Earlier? {
        var here := CollectRestored(log.entries, o.session, false);
        done := done + here;
      }
      items := Some(Restorable(source, done));
      NewestFirst(source, done);
    }

    /** The items one by one, newest first: `run_restore`. */
    method RunPlan(o: Origin, items: seq<Entry>) returns (oks: seq<bool>, escaped: bool)
      requires log.Valid() && (o.Earlier? ==> o.session != log.id)
      requires items == Plan(o, log.id, log.entries) && Descending(items)
      modifies this`values, this`sent, log
      ensures cooperative && (forall e :: e in items ==> Decoded(e, how).Some? && e.target in old(values)) ==>
                !escaped && (forall i :: 0 <= i < |oks| ==> oks[i]) && values == PutBack(old(values), items, how)
      ensures log.Valid() && values.Keys == old(values).Keys
      ensures |oks| <= |items| && (if escaped then oks != [] && !oks[|oks| - 1] else |oks| == |items|)
      ensures Plan(o, log.id, log.entries) == LeftOver(items, Padded(oks, |items|))
      ensures AllAsRestored(old(values), values, items[..|oks|], oks, how)
      ensures forall i :: 0 <= i < |oks| && oks[i] ==> Decoded(items[i], how).Some?
      ensures forall i :: 0 <= i < |oks| && Unwritable(items[i]) ==> escaped && i == |oks| - 1
      ensures o.Earlier? ==> Plan(OwnLog, log.id, log.entries) == Plan(OwnLog, log.id, old(log.entries))
      ensures Bounded(log.id, old(log.entries), old(log.seqNo)) ==> Bounded(log.id, log.entries, log.seqNo)
    {
      hide *;
      oks, escaped := [], false;
      ghost var own, last, was := log.entries, log.seqNo, values;
      PlanIsWrites(o, log.id, own);
      if o.OwnLog? {
        LoggedBefore(log);
        PlanIsLogged(log.id, own, log.seqNo);
      }
      NothingRestoredYet(was, items, how);
      NothingPutBack(was, items, how);
      for i := 0 to |items|
        invariant |oks| == i && !escaped && log.Valid() && log.seqNo >= last && values.Keys == was.Keys
        invariant Plan(o, log.id, log.entries) == Without(items, Succeeded(items[..i], oks))
        invariant AllAsRestored(was, values, items[..i], oks, how)
        invariant forall k :: 0 <= k < i && oks[k] ==> Decoded(items[k], how).Some?
        invariant forall k :: 0 <= k < i ==> !Unwritable(items[k])
        invariant cooperative && (forall e :: e in items ==> Decoded(e, how).Some? && e.target in was) ==>
                    (forall k :: 0 <= k < i ==> oks[k]) && values == PutBack(was, items[..i], how)
        invariant o.Earlier? ==> Plan(OwnLog, log.id, log.entries) == Plan(OwnLog, log.id, own)
        invariant Bounded(log.id, own, last) ==> Bounded(log.id, log.entries, log.seqNo)
      {
        var e := items[i];
        assert e in items;
        ghost var here, at, mid := log.entries, log.seqNo, values;
        var ok: bool;
        ok, escaped := RestoreItem(e, SourceId(o, log.id));
        OneMorePutBack(was, items, i, how);
        ItemRestored(was, mid, values, items, i, oks, ok, how);
        CrossedOut(items, i, oks, ok);
        if escaped {
          Uncrossed(items, oks);
          oks := oks + [ok];
          Finished(items, oks);
          return;
        }
        ItemInPlan(o, log.id, here, log.entries, e.no, ok);
        ItemBounded(o, log.id, here, at, log.entries, log.seqNo, e.no);
        oks := oks + [ok];
      }
      Finished(items, oks);
    }

    lemma NothingPutBack(was: Store, items: seq<Entry>, how: Typing)
      ensures PutBack(was, items[..0], how) == was && items[..|items|] == items
    {
    }

    lemma OneMorePutBack(was: Store, items: seq<Entry>, i: nat, how: Typing)
      requires i < |items|
      ensures PutBack(was, items[..i + 1], how) == Step(PutBack(was, items[..i], how), items[i], how)
    {
      assert items[..i + 1][..i] == items[..i];
    }

    /** An item that did not succeed crosses nothing out. */
    lemma Uncrossed(items: seq<Entry>, oks: seq<bool>)
      requires |oks| < |items|
      ensures Without(Without(items, Succeeded(items[..|oks|], oks)), {}) == Without(items, Succeeded(items[..|oks|], oks))
    {
      WithoutNone(Without(items, Succeeded(items[..|oks|], oks)));
    }

    lemma Finished(items: seq<Entry>, oks: seq<bool>)
      requires |oks| <= |items| && Descending(items)
      ensures Without(items, Succeeded(items[..|oks|], oks)) == LeftOver(items, Padded(oks, |items|))
    {
      assert items[..|items|] == items;
      PaddedSucceeded(items, oks, |items|);
      LeftOverIsWithout(items, Padded(oks, |items|));
    }

    lemma ItemBounded(o: Origin, id: string, own: seq<Entry>, last: nat, own': seq<Entry>, last': nat, from: nat)
      requires last <= last'
      requires o.OwnLog? ==> from <= last && Done(OwnLog, id, own') <= Done(OwnLog, id, own) + {from}
      requires o.Earlier? ==> Done(OwnLog, id, own') == Done(OwnLog, id, own)
      ensures Bounded(id, own, last) ==> Bounded(id, own', last')
    {
    }

    lemma PlanIsWrites(o: Origin, id: string, own: seq<Entry>)
      ensures forall e :: e in Plan(o, id, own) ==> e.WriteEntry?
    {
    }

    lemma LoggedBefore(log: SessionLog)
      requires log.Valid()
      ensures forall i :: 0 <= i < |log.entries| ==> log.entries[i].no <= log.seqNo
    {
    }

    lemma PlanIsLogged(id: string, own: seq<Entry>, last: nat)
      requires forall i :: 0 <= i < |own| ==> own[i].no <= last
      ensures forall e :: e in Plan(OwnLog, id, own) ==> e.no <= last
    {
    }

    lemma CrossedOut(items: seq<Entry>, i: nat, oks: seq<bool>, ok: bool)
      requires i < |items| && |oks| == i
      ensures var more := if ok then {items[i].no} else {};
              Without(Without(items, Succeeded(items[..i], oks)), more) == Without(items, Succeeded(items[..i + 1], oks + [ok]))
    {
      var more := if ok then {items[i].no} else {};
      WithoutTwice(items, Succeeded(items[..i], oks), more);
      assert items[..i + 1][..i] == items[..i] && (oks + [ok])[..i] == oks;
    }
  }

  /** The active group is changed from 1 to 2 while its control block cannot be read: the write is logged as
      successful, no restore will undo it, and a restore finds nothing to do. */
  lemma UnreadableGroupIsNotRestored(ld: string, id: string, how: Typing)
    ensures var t := ActiveGroup(ld);
            var r := Logged(JNull, true, true);
            var own := [Record(1, t, r.before, r.ok, None)];
            && Plan(OwnLog, id, own) == []
            && !WriteKeepsLaw(t, Int(1), Int(2), r, [], how)
            && !Undoes(map[t := Int(1)], map[t := Int(2)], [], how)
  {
    var t := ActiveGroup(ld);
    var own := [Record(1, t, JNull, true, None)];
    assert own[..0] == [] && Restorable(own[..0], Done(OwnLog, id, own)) == [];
    assert map[t := Int(1)][t] != map[t := Int(2)][t];
  }

  /** An attribute that answers the read before a write with an error: the write goes to the plan with the error
      as its value before, which no restore can write. */
  lemma ErrorBeforeIsNotRestored(ref: string, id: string, how: Typing, iso: (int, int) -> string)
    ensures var t, e := Attribute(ref, "SP"), AccessError("mms-data", Some(3), "object-access-denied");
            var r := Logged(ToJson(e, iso), true, true);
            var entry := Record(1, t, r.before, r.ok, None);
            && Plan(OwnLog, id, [entry]) == [entry]
            && Decoded(entry, how).None?
            && !WriteKeepsLaw(t, Int(1), Int(2), r, [], how)
            && !Undoes(map[t := Int(1)], map[t := Int(2)], [entry], how)
  {
    var t, e := Attribute(ref, "SP"), AccessError("mms-data", Some(3), "object-access-denied");
    var entry := Record(1, t, ToJson(e, iso), true, None);
    var own := [entry];
    BasicRoundTrip(e, iso);
    assert own[..0] == [] && RestoredSeqs(own[..0], id, true) == {};
    assert Restorable(own[..0], Done(OwnLog, id, own)) == [];
    assert PutBack(map[t := Int(2)], own[..0], how) == map[t := Int(2)];
    assert map[t := Int(1)][t] != map[t := Int(2)][t];
  }

  /** A restore that fails on a newer write and succeeds on an older one of the same value goes wrong when
      it is repeated: 1 became 2 and then 3; only the older write was put back, and the rest would write 2. */
  lemma RepeatedRestoreGoesWrong(ref: string, how: Typing)
    requires how.spec(Attribute(ref, "SP")) == Some(BasicSpec(FloatKind, Some(32)))
    ensures var t := Attribute(ref, "SP");
            var first := WriteEntry(1, t, false, JFloat(1.0), true, None, None);
            var second := WriteEntry(2, t, false, JFloat(2.0), true, None, None);
            && Undoes(map[t := Float(1.0)], map[t := Float(3.0)], [second, first], how)
            && LeftOver([second, first], [false, true]) == [second]
            && PutBack(map[t := Float(1.0)], [second], how) == map[t := Float(2.0)]
  {
    var t := Attribute(ref, "SP");
    var first := WriteEntry(1, t, false, JFloat(1.0), true, None, None);
    var second := WriteEntry(2, t, false, JFloat(2.0), true, None, None);
    var plan := [second, first];
    assert plan[..1] == [second] && plan[..1][..0] == [] && [false, true][..1] == [false];
    assert PutBack(map[t := Float(3.0)], [second], how) == map[t := Float(3.0)][t := Float(2.0)];
    assert LeftOver([second], [false]) == [] + [second];
  }
}

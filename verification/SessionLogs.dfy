/** The session log, and which of its writes a restore still has to put back. */
module SessionLogs {
  import opened Results
  import opened Values

  /** Where a value is written: an attribute, a setting of a group, or the active group of a logical device. */
  datatype Target = Attribute(ref: string, fc: string) | Setting(ref: string, group: int) | ActiveGroup(ld: string)

  /** Log entries. `restoredFrom` and `ofSession` mark the writes a restore made; logs written before
      Version 1.01 name no session. `test` wrote the current value back. */
  datatype Entry =
    | StartEntry(no: nat, session: string, device: Option<string>)
    | WriteEntry(no: nat, target: Target, test: bool, before: Json, ok: bool, restoredFrom: Option<nat>, ofSession: Option<string>)
    | RestoreEntry(no: nat, ok: bool, restoredFrom: Option<nat>, ofSession: Option<string>)
    | OtherEntry(no: nat)

  /** The write of the log of session `source` that this entry says was put back. */
  function PutBackBy(e: Entry, source: string, sameLog: bool): Option<nat> {
    if !(e.WriteEntry? || e.RestoreEntry?) || !e.ok || e.restoredFrom.None? then None
    else
      var counts := if e.ofSession.Some? then e.RestoreEntry? && e.ofSession.value == source else e.WriteEntry? && sameLog;
      if counts then e.restoredFrom else None
  }

  function RestoredSeqs(es: seq<Entry>, source: string, sameLog: bool): (done: set<nat>)
    ensures forall s :: s in done <==> exists i :: 0 <= i < |es| && PutBackBy(es[i], source, sameLog) == Some(s)
  {
    if es == [] then {}
    else
      var before, putBack := RestoredSeqs(es[..|es| - 1], source, sameLog), PutBackBy(es[|es| - 1], source, sameLog);
      if putBack.Some? then before + {putBack.value} else before
  }

  /** `restored_seqs`. */
  method CollectRestored(es: seq<Entry>, source: string, sameLog: bool) returns (done: set<nat>)
    ensures done == RestoredSeqs(es, source, sameLog)
  {
    done := {};
    for i := 0 to |es|
      invariant done == RestoredSeqs(es[..i], source, sameLog)
    {
      var e := es[i];
      assert es[..i + 1][..i] == es[..i];
      if !(e.WriteEntry? || e.RestoreEntry?) || !e.ok || e.restoredFrom.None? {
        continue;
      }
      var counts: bool;
      if e.ofSession.Some? {
        counts := e.RestoreEntry? && e.ofSession.value == source;
      } else {
        counts := e.WriteEntry? && sameLog;
      }
      if counts {
        done := done + {e.restoredFrom.value};
      }
    }
    assert es[..|es|] == es;
  }

  /** A successful write of the operator's that changed something and has not been put back. */
  predicate CanRestore(e: Entry, done: set<nat>) {
    e.WriteEntry? && e.ok && e.restoredFrom.None? && e.no !in done && !e.test && e.before != JNull
  }

  /** `restorable_writes`: newest first. */
  function Restorable(es: seq<Entry>, done: set<nat>): (plan: seq<Entry>)
    ensures forall e :: e in plan <==> e in es && CanRestore(e, done)
  {
    if es == [] then []
    else
      var last := es[|es| - 1];
      assert es == es[..|es| - 1] + [last];
      (if CanRestore(last, done) then [last] else []) + Restorable(es[..|es| - 1], done)
  }

  /** The list without the writes in `done`. */
  function Without(plan: seq<Entry>, done: set<nat>): (rest: seq<Entry>)
    ensures forall e :: e in rest <==> e in plan && e.no !in done
  {
    if plan == [] then []
    else (if plan[0].no in done then [] else [plan[0]]) + Without(plan[1..], done)
  }

  lemma {:induction false} WithoutConcat(p: seq<Entry>, q: seq<Entry>, done: set<nat>)
    ensures Without(p + q, done) == Without(p, done) + Without(q, done)
  {
    if p == [] {
      assert p + q == q;
    } else {
      assert (p + q)[1..] == p[1..] + q;
      WithoutConcat(p[1..], q, done);
    }
  }

  lemma {:induction false} WithoutTwice(p: seq<Entry>, done: set<nat>, more: set<nat>)
    ensures Without(Without(p, done), more) == Without(p, done + more)
  {
    if p != [] {
      WithoutTwice(p[1..], done, more);
      var head := if p[0].no in done then [] else [p[0]];
      WithoutConcat(head, Without(p[1..], done), more);
    }
  }

  /** Writes put back since then drop out of the plan, and nothing else changes in it. */
  lemma {:induction false} MoreDone(es: seq<Entry>, done: set<nat>, more: set<nat>)
    ensures Restorable(es, done + more) == Without(Restorable(es, done), more)
  {
    if es != [] {
      var last := es[|es| - 1];
      MoreDone(es[..|es| - 1], done, more);
      WithoutConcat(if CanRestore(last, done) then [last] else [], Restorable(es[..|es| - 1], done), more);
    }
  }

  predicate Ascending(es: seq<Entry>) {
    forall i, j :: 0 <= i < j < |es| ==> es[i].no < es[j].no
  }

  predicate Descending(es: seq<Entry>) {
    forall i, j :: 0 <= i < j < |es| ==> es[i].no > es[j].no
  }

  /** The plan is newest first. */
  lemma {:induction false} NewestFirst(es: seq<Entry>, done: set<nat>)
    requires Ascending(es)
    ensures Descending(Restorable(es, done))
  {
    if es != [] {
      var before, last := es[..|es| - 1], es[|es| - 1];
      NewestFirst(before, done);
      var rest := Restorable(before, done);
      forall e | e in rest
        ensures e.no < last.no
      {
        var i :| 0 <= i < |before| && before[i] == e;
        assert es[i] == e;
      }
    }
  }

  /** The device named in the first session-start entry. */
  function StartedOn(es: seq<Entry>): Option<string> {
    if es == [] then None
    else if es[0].StartEntry? then es[0].device
    else StartedOn(es[1..])
  }

  method OwnerOf(es: seq<Entry>) returns (device: Option<string>)
    ensures device == StartedOn(es)
  {
    assert es[0..] == es;
    for i := 0 to |es|
      invariant StartedOn(es) == StartedOn(es[i..])
    {
      if es[i].StartEntry? {
        return es[i].device;
      }
      assert es[i..][1..] == es[i + 1..];
    }
    device := None;
  }

  class SessionLog {
    const id: string
    var seqNo: nat
    var entries: seq<Entry>

    predicate Valid()
      reads this
    {
      && (forall i :: 0 <= i < |entries| ==> entries[i].no <= seqNo)
      && Ascending(entries)
    }

    constructor (id: string)
      ensures Valid() && this.id == id && entries == [] && seqNo == 0
    {
      this.id := id;
      seqNo := 0;
      entries := [];
    }

    /** `SessionLog.write`: the entry gets the next number. */
    method Write(draft: Entry)
      requires Valid()
      modifies this
      ensures Valid() && entries == old(entries) + [Numbered(draft, old(seqNo) + 1)]
      ensures seqNo == old(seqNo) + 1
    {
      seqNo := seqNo + 1;
      entries := entries + [Numbered(draft, seqNo)];
    }

    static function Numbered(draft: Entry, n: nat): Entry {
      match draft
      case StartEntry(_, s, d) => StartEntry(n, s, d)
      case WriteEntry(_, t, test, b, ok, from, session) => WriteEntry(n, t, test, b, ok, from, session)
      case RestoreEntry(_, ok, from, session) => RestoreEntry(n, ok, from, session)
      case OtherEntry(_) => OtherEntry(n)
    }
  }
}

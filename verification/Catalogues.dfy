/** The hint catalogue: which entry answers for an error in a context, and what its lint promises. */
module Catalogues {
  import opened Results

  /** What is known about the failed request: context fields and tags. */
  type Context = map<string, string>

  /** One of `values`; a star stands for any value. */
  datatype Condition = Condition(field: string, values: set<string>) {
    predicate Holds(ctx: Context) {
      field in ctx && ("*" in values || ctx[field] in values)
    }

    predicate Overlaps(other: Condition) {
      "*" in values || "*" in other.values || values * other.values != {}
    }
  }

  /** `domain:name`; the name `*` stands for every error of the domain. */
  datatype Key = Key(domain: string, name: string)

  datatype Entry = Entry(id: string, index: nat, keys: seq<Key>, when: seq<Condition>, priority: int) {
    function Specificity(): nat {
      |when|
    }

    predicate Matches(ctx: Context) {
      forall i :: 0 <= i < |when| ==> when[i].Holds(ctx)
    }

    /** The conditions of an entry come from a mapping, each with at least one value. */
    predicate WellFormed() {
      && (forall i :: 0 <= i < |when| ==> when[i].values != {})
      && forall i, j :: 0 <= i < j < |when| ==> when[i].field != when[j].field
    }

    /** `conds_b`: the condition on a field. */
    function On(field: string): Option<Condition> {
      OnAmong(when, field)
    }
  }

  function OnAmong(cs: seq<Condition>, field: string): Option<Condition> {
    if cs == [] then None
    else if cs[|cs| - 1].field == field then Some(cs[|cs| - 1])
    else OnAmong(cs[..|cs| - 1], field)
  }

  lemma {:induction false} OnFinds(cs: seq<Condition>, i: nat)
    requires i < |cs| && forall j, k :: 0 <= j < k < |cs| ==> cs[j].field != cs[k].field
    ensures OnAmong(cs, cs[i].field) == Some(cs[i])
  {
    if i < |cs| - 1 {
      OnFinds(cs[..|cs| - 1], i);
    }
  }

  lemma {:induction false} OnMeans(cs: seq<Condition>, field: string)
    ensures OnAmong(cs, field).Some? ==> OnAmong(cs, field).value in cs && OnAmong(cs, field).value.field == field
    ensures OnAmong(cs, field).None? ==> forall c :: c in cs ==> c.field != field
  {
    if cs != [] {
      OnMeans(cs[..|cs| - 1], field);
      assert cs == cs[..|cs| - 1] + [cs[|cs| - 1]];
    }
  }

  /** `_can_both_match`. */
  predicate CanBothMatch(a: Entry, b: Entry) {
    forall i :: 0 <= i < |a.when| ==> var other := b.On(a.when[i].field); other.Some? ==> a.when[i].Overlaps(other.value)
  }

  /** The test is exact: it holds when, and only when, some context matches both entries. */
  lemma CanBothMatchMeans(a: Entry, b: Entry) returns (common: Context)
    requires a.WellFormed() && b.WellFormed()
    ensures CanBothMatch(a, b) ==> a.Matches(common) && b.Matches(common)
    ensures (exists ctx :: a.Matches(ctx) && b.Matches(ctx)) ==> CanBothMatch(a, b)
  {
    common := map[];
    forall ctx | a.Matches(ctx) && b.Matches(ctx)
      ensures CanBothMatch(a, b)
    {
      BothMatchOverlap(a, b, ctx);
    }
    if CanBothMatch(a, b) {
      common := CommonContext(a, b);
    }
  }

  lemma BothMatchOverlap(a: Entry, b: Entry, ctx: Context)
    requires b.WellFormed() && a.Matches(ctx) && b.Matches(ctx)
    ensures CanBothMatch(a, b)
  {
    forall i | 0 <= i < |a.when| && b.On(a.when[i].field).Some?
      ensures a.when[i].Overlaps(b.On(a.when[i].field).value)
    {
      var c, d := a.when[i], b.On(a.when[i].field).value;
      OnMeans(b.when, c.field);
      assert c.Holds(ctx) && d.Holds(ctx);
      if "*" !in c.values && "*" !in d.values {
        assert ctx[c.field] in c.values * d.values;
      }
    }
  }

  predicate Meets(v: string, c: Option<Condition>) {
    c.Some? ==> "*" in c.value.values || v in c.value.values
  }

  /** A value that meets the conditions of both entries on a field. */
  ghost function ValueOn(c: Option<Condition>, d: Option<Condition>): (v: string)
    requires (c.Some? ==> c.value.values != {}) && (d.Some? ==> d.value.values != {})
    requires c.Some? && d.Some? ==> c.value.Overlaps(d.value)
    ensures Meets(v, c) && Meets(v, d)
  {
    if c.None? && d.None? then ""
    else if d.None? || (c.Some? && "*" in d.value.values) then
      var v :| v in c.value.values; v
    else if c.None? || "*" in c.value.values then
      var v :| v in d.value.values; v
    else
      var v :| v in c.value.values * d.value.values; v
  }

  function FieldsOf(e: Entry): set<string> {
    set c | c in e.when :: c.field
  }

  lemma OnIsOverlapping(a: Entry, b: Entry, field: string)
    requires a.WellFormed() && b.WellFormed() && CanBothMatch(a, b)
    ensures a.On(field).Some? ==> a.On(field).value.values != {}
    ensures b.On(field).Some? ==> b.On(field).value.values != {}
    ensures a.On(field).Some? && b.On(field).Some? ==> a.On(field).value.Overlaps(b.On(field).value)
  {
    OnMeans(a.when, field);
    OnMeans(b.when, field);
  }

  lemma CommonContext(a: Entry, b: Entry) returns (ctx: Context)
    requires a.WellFormed() && b.WellFormed() && CanBothMatch(a, b)
    ensures a.Matches(ctx) && b.Matches(ctx)
  {
    forall f
      ensures a.On(f).Some? ==> a.On(f).value.values != {}
      ensures b.On(f).Some? ==> b.On(f).value.values != {}
      ensures a.On(f).Some? && b.On(f).Some? ==> a.On(f).value.Overlaps(b.On(f).value)
    {
      OnIsOverlapping(a, b, f);
    }
    ctx := map f | f in FieldsOf(a) + FieldsOf(b) :: ValueOn(a.On(f), b.On(f));
    AllMet(a, ctx);
    AllMet(b, ctx);
  }

  lemma AllMet(e: Entry, ctx: Context)
    requires e.WellFormed() && FieldsOf(e) <= ctx.Keys && forall f :: f in ctx ==> Meets(ctx[f], e.On(f))
    ensures e.Matches(ctx)
  {
    forall i | 0 <= i < |e.when|
      ensures e.when[i].Holds(ctx)
    {
      OnFinds(e.when, i);
      assert e.when[i].field in FieldsOf(e);
      assert Meets(ctx[e.when[i].field], e.On(e.when[i].field));
    }
  }

  // ---------------------------------------------------------------- choosing

  datatype Candidate = Candidate(entry: Entry, exact: bool)

  predicate IsCandidate(es: seq<Entry>, key: Key, c: Candidate) {
    c.entry in es && if c.exact then key.name != "*" && key in c.entry.keys else Key(key.domain, "*") in c.entry.keys
  }

  /** The entries with this key, in load order. */
  function With(es: seq<Entry>, key: Key): (r: seq<Entry>)
    ensures forall e :: e in r <==> e in es && key in e.keys
  {
    if es == [] then []
    else
      var n := |es| - 1;
      assert es == es[..n] + [es[n]];
      With(es[..n], key) + if key in es[n].keys then [es[n]] else []
  }

  function AsCandidates(es: seq<Entry>, exact: bool): (r: seq<Candidate>)
    ensures forall c :: c in r <==> c.entry in es && c.exact == exact
    ensures |r| == |es|
  {
    if es == [] then []
    else
      assert es == [es[0]] + es[1..];
      [Candidate(es[0], exact)] + AsCandidates(es[1..], exact)
  }

  /** `_candidates`: the exact entries, then the domain's wildcards. */
  function Candidates(es: seq<Entry>, key: Key): (r: seq<Candidate>)
    ensures forall c :: c in r <==> IsCandidate(es, key, c)
  {
    (if key.name == "*" then [] else AsCandidates(With(es, key), true)) + AsCandidates(With(es, Key(key.domain, "*")), false)
  }

  /** `_rank`, compared: priority, exactness, specificity, and only then the load order. */
  predicate Outranks(a: Candidate, b: Candidate) {
    || a.entry.priority > b.entry.priority
    || (a.entry.priority == b.entry.priority
        && (|| (a.exact && !b.exact)
            || (a.exact == b.exact
                && (|| a.entry.Specificity() > b.entry.Specificity()
                    || (a.entry.Specificity() == b.entry.Specificity() && a.entry.index > b.entry.index)))))
  }

  predicate IsBest(es: seq<Entry>, key: Key, ctx: Context, w: Candidate) {
    && IsCandidate(es, key, w) && w.entry.Matches(ctx)
    && forall c :: c in Candidates(es, key) && c.entry.Matches(ctx) ==> !Outranks(c, w)
  }

  /** The best candidate is the one the rule names: no matching one has a higher priority, none of its priority is
      exact unless it is, none of these is more specific, and none of those comes later in the load order. Of two
      entries loaded one after the other at most one is best. */
  lemma OneBest(es: seq<Entry>, key: Key, ctx: Context, w: Candidate, c: Candidate)
    requires IsBest(es, key, ctx, w) && IsCandidate(es, key, c) && c.entry.Matches(ctx)
    ensures c.entry.priority <= w.entry.priority
    ensures c.entry.priority == w.entry.priority ==> (c.exact ==> w.exact)
    ensures c.entry.priority == w.entry.priority && c.exact == w.exact ==>
              && c.entry.Specificity() <= w.entry.Specificity()
              && (c.entry.Specificity() == w.entry.Specificity() ==> c.entry.index <= w.entry.index)
    ensures c.entry.index != w.entry.index ==> !IsBest(es, key, ctx, c)
  {
    assert c in Candidates(es, key) && w in Candidates(es, key);
  }

  /** `_best`. */
  method Best(es: seq<Entry>, key: Key, ctx: Context) returns (w: Option<Candidate>)
    ensures w.Some? ==> IsBest(es, key, ctx, w.value)
    ensures w.None? ==> forall c :: IsCandidate(es, key, c) ==> !c.entry.Matches(ctx)
  {
    hide Outranks, Candidates, Entry.Matches;
    var cs := Candidates(es, key);
    w := None;
    for i := 0 to |cs|
      invariant w.None? ==> forall k :: 0 <= k < i ==> !cs[k].entry.Matches(ctx)
      invariant w.Some? ==> w.value in cs && w.value.entry.Matches(ctx) && NoneBetter(cs[..i], w.value, ctx)
    {
      assert cs[..i + 1] == cs[..i] + [cs[i]];
      if cs[i].entry.Matches(ctx) && (w.None? || Outranks(cs[i], w.value)) {
        NowBetter(cs[..i], w, cs[i], ctx);
        w := Some(cs[i]);
      }
    }
    assert cs[..|cs|] == cs;
  }

  predicate NoneBetter(cs: seq<Candidate>, w: Candidate, ctx: Context) {
    forall c :: c in cs && c.entry.Matches(ctx) ==> !Outranks(c, w)
  }

  lemma NowBetter(cs: seq<Candidate>, w: Option<Candidate>, c: Candidate, ctx: Context)
    requires if w.Some? then NoneBetter(cs, w.value, ctx) && Outranks(c, w.value)
             else forall k :: 0 <= k < |cs| ==> !cs[k].entry.Matches(ctx)
    ensures NoneBetter(cs + [c], c, ctx)
  {
  }

  // ---------------------------------------------------------------- lint

  /** Both can match some context, and only the load order would choose between them. */
  predicate Tie(a: Entry, b: Entry) {
    a.priority == b.priority && a.Specificity() == b.Specificity() && CanBothMatch(a, b)
  }

  /** The entry at `i` ties with none of those after it up to `end`. */
  predicate ClearRow(entries: seq<Entry>, i: nat, end: nat)
    requires i < end <= |entries|
  {
    forall m :: i < m < end ==> !Tie(entries[i], entries[m])
  }

  predicate Clear(entries: seq<Entry>, rows: nat)
    requires rows <= |entries|
  {
    forall k :: 0 <= k < rows ==> ClearRow(entries, k, |entries|)
  }

  predicate NoTies(es: seq<Entry>, key: Key) {
    Clear(With(es, key), |With(es, key)|)
  }

  /** The ties lint reports for a key. */
  method Ties(es: seq<Entry>, key: Key) returns (ties: seq<(Entry, Entry)>)
    ensures ties == [] <==> NoTies(es, key)
    ensures forall t :: t in ties ==> Tie(t.0, t.1)
  {
    hide CanBothMatch;
    var entries := With(es, key);
    ties := [];
    for i := 0 to |entries|
      invariant ties == [] <==> Clear(entries, i)
      invariant forall t :: t in ties ==> Tie(t.0, t.1)
    {
      for j := i + 1 to |entries|
        invariant ties == [] <==> Clear(entries, i) && ClearRow(entries, i, j)
        invariant forall t :: t in ties ==> Tie(t.0, t.1)
      {
        var a, b := entries[i], entries[j];
        if a.priority == b.priority && a.Specificity() == b.Specificity() && CanBothMatch(a, b) {
          assert Tie(a, b) && !ClearRow(entries, i, j + 1);
          ties := ties + [(a, b)];
        } else {
          assert ClearRow(entries, i, j) ==> ClearRow(entries, i, j + 1);
          assert ClearRow(entries, i, j + 1) ==> ClearRow(entries, i, j);
        }
      }
      assert Clear(entries, i + 1) <==> Clear(entries, i) && ClearRow(entries, i, |entries|);
    }
  }

  /** Layering leaves one entry an id. */
  predicate OnePerId(es: seq<Entry>) {
    forall i, j :: 0 <= i < j < |es| ==> es[i].id != es[j].id
  }

  predicate SameButOrder(a: Entry, b: Entry) {
    a.(index := 0) == b.(index := 0)
  }

  predicate Covers(es: seq<Entry>, es': seq<Entry>) {
    forall f :: f in es' ==> exists e :: e in es && SameButOrder(e, f)
  }

  /** The same entries loaded in another order. */
  predicate Reordered(es: seq<Entry>, es': seq<Entry>) {
    Covers(es, es') && Covers(es', es)
  }

  /** Without a tie, two different entries of the key with equal standing never match together. */
  lemma NoTieNoContest(es: seq<Entry>, key: Key, a: Entry, b: Entry, ctx: Context)
    requires NoTies(es, key) && (forall e :: e in es ==> e.WellFormed())
    requires a in es && b in es && key in a.keys && key in b.keys
    requires a.Matches(ctx) && b.Matches(ctx) && a.priority == b.priority && a.Specificity() == b.Specificity()
    ensures a == b
  {
    var r := With(es, key);
    var i :| 0 <= i < |r| && r[i] == a;
    var j :| 0 <= j < |r| && r[j] == b;
    BothMatchOverlap(a, b, ctx);
    BothMatchOverlap(b, a, ctx);
    assert ClearRow(r, i, |r|) && ClearRow(r, j, |r|);
    assert i < j ==> !Tie(r[i], r[j]);
    assert j < i ==> !Tie(r[j], r[i]);
  }

  /** If lint reports no tie for a key, an exact entry that wins in a context wins in every load order. */
  lemma LoadOrderIsIrrelevant(es: seq<Entry>, es': seq<Entry>, key: Key, ctx: Context, w: Candidate, w': Candidate)
    requires Reordered(es, es') && NoTies(es, key) && forall e :: e in es ==> e.WellFormed()
    requires IsBest(es, key, ctx, w) && w.exact && IsBest(es', key, ctx, w')
    ensures SameButOrder(w.entry, w'.entry) && w'.exact
  {
    hide Outranks, Candidates, NoTies, Entry.WellFormed, Entry.Matches, IsBest, Reordered, Covers, SameButOrder, CanBothMatch;
    BestIsCandidate(es, key, ctx, w);
    BestIsCandidate(es', key, ctx, w');
    ReorderedCovers(es, es');
    var v := Counterpart(es, es', w'.entry);
    var u := Counterpart(es', es, w.entry);
    SameMatches(v, w'.entry, ctx);
    SameMatches(u, w.entry, ctx);
    var there, here := Candidate(u, true), Candidate(v, w'.exact);
    NotOutranked(es, key, ctx, w, here);
    NotOutranked(es', key, ctx, w', there);
    EqualStanding(w, w', here, there);
    NoTieNoContest(es, key, w.entry, v, ctx);
  }

  lemma ReorderedCovers(es: seq<Entry>, es': seq<Entry>)
    requires Reordered(es, es')
    ensures Covers(es, es') && Covers(es', es)
  {
  }

  lemma Counterpart(es: seq<Entry>, es': seq<Entry>, f: Entry) returns (v: Entry)
    requires Covers(es, es') && f in es'
    ensures v in es && SameButOrder(v, f)
  {
    v :| v in es && SameButOrder(v, f);
  }

  lemma BestIsCandidate(es: seq<Entry>, key: Key, ctx: Context, w: Candidate)
    requires IsBest(es, key, ctx, w)
    ensures IsCandidate(es, key, w) && w.entry.Matches(ctx)
  {
  }

  lemma NotOutranked(es: seq<Entry>, key: Key, ctx: Context, w: Candidate, c: Candidate)
    requires IsBest(es, key, ctx, w) && IsCandidate(es, key, c) && c.entry.Matches(ctx)
    ensures !Outranks(c, w)
  {
  }

  lemma SameMatches(a: Entry, b: Entry, ctx: Context)
    requires SameButOrder(a, b)
    ensures a.keys == b.keys && a.when == b.when && a.priority == b.priority && a.id == b.id
    ensures a.Matches(ctx) == b.Matches(ctx)
  {
  }

  /** Winners of two load orders that do not outrank one another differ at most in their index. */
  lemma EqualStanding(w: Candidate, w': Candidate, here: Candidate, there: Candidate)
    requires SameButOrder(here.entry, w'.entry) && here.exact == w'.exact
    requires SameButOrder(there.entry, w.entry) && there.exact == w.exact
    requires !Outranks(here, w) && !Outranks(there, w')
    ensures w.exact == w'.exact && w.entry.priority == here.entry.priority && w.entry.Specificity() == here.entry.Specificity()
  {
  }

  // ---------------------------------------------------------------- coverage

  /** The required keys without a context-free entry. */
  method Coverage(es: seq<Entry>, required: seq<Key>) returns (missing: seq<Key>)
    ensures forall k :: k in missing <==> k in required && !exists e :: e in With(es, k) && e.when == []
  {
    missing := [];
    for i := 0 to |required|
      invariant forall k :: k in missing <==> k in required[..i] && !exists e :: e in With(es, k) && e.when == []
    {
      assert required[..i + 1] == required[..i] + [required[i]];
      if !exists e :: e in With(es, required[i]) && e.when == [] {
        missing := missing + [required[i]];
      }
    }
    assert required[..|required|] == required;
  }

  /** With full coverage, every required key has a hint in every context; without it, some key has none
      in the empty context. */
  lemma CoverageMeans(es: seq<Entry>, key: Key, ctx: Context)
    requires key.name != "*"
    ensures (exists e :: e in With(es, key) && e.when == []) ==>
              exists c :: IsCandidate(es, key, c) && c.exact && c.entry.Matches(ctx)
    ensures (exists c :: IsCandidate(es, key, c) && c.exact && c.entry.Matches(map[])) ==>
              exists e :: e in With(es, key) && e.when == []
  {
    if e :| e in With(es, key) && e.when == [] {
      assert IsCandidate(es, key, Candidate(e, true)) && e.Matches(ctx);
    }
    if c :| IsCandidate(es, key, c) && c.exact && c.entry.Matches(map[]) {
      assert c.entry in With(es, key);
      if c.entry.when != [] {
        assert c.entry.when[0].Holds(map[]);
      }
    }
  }

  // ---------------------------------------------------------------- layering

  function WithoutId(es: seq<Entry>, id: string): (r: seq<Entry>)
    ensures forall e :: e in r <==> e in es && e.id != id
  {
    if es == [] then []
    else
      assert es == [es[0]] + es[1..];
      (if es[0].id == id then [] else [es[0]]) + WithoutId(es[1..], id)
  }

  lemma {:induction false} WithoutIdOnce(es: seq<Entry>, id: string)
    requires OnePerId(es)
    ensures OnePerId(WithoutId(es, id))
  {
    if es != [] {
      var rest := WithoutId(es[1..], id);
      WithoutIdOnce(es[1..], id);
      FirstIdOnce(es);
      hide WithoutId;
      assert forall j :: 0 <= j < |rest| ==> rest[j] in rest;
      WithoutIdStep(es, id);
      if es[0].id == id {
        assert [] + rest == rest;
      }
    }
  }

  lemma WithoutIdStep(es: seq<Entry>, id: string)
    requires es != []
    ensures WithoutId(es, id) == (if es[0].id == id then [] else [es[0]]) + WithoutId(es[1..], id)
  {
  }

  lemma FirstIdOnce(es: seq<Entry>)
    requires OnePerId(es) && es != []
    ensures forall e :: e in es[1..] ==> e.id != es[0].id
  {
  }

  /** The last entry loaded with this id. */
  function LastWith(entries: seq<Entry>, id: string): Option<Entry> {
    if entries == [] then None
    else
      var last := entries[|entries| - 1];
      if last.id == id then Some(last) else LastWith(entries[..|entries| - 1], id)
  }

  lemma {:induction false} LastWithMeans(entries: seq<Entry>, id: string)
    ensures LastWith(entries, id).None? ==> forall e :: e in entries ==> e.id != id
    ensures LastWith(entries, id).Some? ==>
              exists k :: 0 <= k < |entries| && LastWith(entries, id) == Some(entries[k]) && entries[k].id == id
                          && forall j :: k < j < |entries| ==> entries[j].id != id
  {
    if entries != [] {
      var n := |entries| - 1;
      LastWithMeans(entries[..n], id);
      assert entries == entries[..n] + [entries[n]];
      if entries[n].id != id && LastWith(entries, id).Some? {
        var k :| 0 <= k < n && LastWith(entries, id) == Some(entries[..n][k]) && entries[..n][k].id == id
                 && forall j :: k < j < n ==> entries[..n][j].id != id;
        assert entries[k] == entries[..n][k];
      }
    }
  }

  /** Load the entries in the order of their index: a later one replaces an earlier one of the same id. */
  method Layer(entries: seq<Entry>) returns (es: seq<Entry>)
    ensures OnePerId(es)
    ensures forall e :: e in es <==> LastWith(entries, e.id) == Some(e)
  {
    es := [];
    for i := 0 to |entries|
      invariant OnePerId(es)
      invariant forall e :: e in es <==> LastWith(entries[..i], e.id) == Some(e)
    {
      assert entries[..i + 1][..i] == entries[..i];
      WithoutIdOnce(es, entries[i].id);
      var kept := WithoutId(es, entries[i].id);
      assert forall j :: 0 <= j < |kept| ==> kept[j] in kept;
      es := kept + [entries[i]];
    }
    assert entries[..|entries|] == entries;
  }
}

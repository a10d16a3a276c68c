/** Counting the reports a subscription missed, from sequence numbers that wrap around. */
module ReportCounts {
  import opened Results

  /** SqNum and SubSqNum of a received report; either may be absent. */
  datatype Report = Report(seqNum: Option<int>, subSeq: Option<int>) {
    /** Only the first segment of a report takes part in the count. */
    predicate Counts() {
      seqNum.Some? && (subSeq.None? || subSeq == Some(0))
    }
  }

  datatype Counter = Counter(received: nat, gaps: nat, lastSeq: Option<int>)

  const NOTHING_YET := Counter(0, 0, None)

  /** The reports missing just before `r`. */
  function Gap(modulus: nat, lastSeq: Option<int>, r: Report): nat
    requires modulus > 0
  {
    if !r.Counts() || lastSeq.None? then 0
    else
      var expected := (lastSeq.value + 1) % modulus;
      if r.seqNum.value == expected || r.seqNum == lastSeq then 0
      else (r.seqNum.value - expected) % modulus
  }

  function Counted(modulus: nat, c: Counter, r: Report): Counter
    requires modulus > 0
  {
    Counter(c.received + 1, c.gaps + Gap(modulus, c.lastSeq, r), if r.Counts() then r.seqNum else c.lastSeq)
  }

  function Tally(modulus: nat, rs: seq<Report>): Counter
    requires modulus > 0
  {
    if rs == [] then NOTHING_YET
    else Counted(modulus, Tally(modulus, rs[..|rs| - 1]), rs[|rs| - 1])
  }

  // ---------------------------------------------------------------- what the count means

  /** A segment of the device's report number `index`, counted without wrapping. */
  datatype Arrival = Arrival(index: nat, subSeq: Option<int>)

  function AsReport(modulus: nat, a: Arrival): Report
    requires modulus > 0
  {
    Report(Some(a.index % modulus), a.subSeq)
  }

  function AsReports(modulus: nat, arrivals: seq<Arrival>): (rs: seq<Report>)
    requires modulus > 0
    ensures |rs| == |arrivals|
  {
    if arrivals == [] then []
    else AsReports(modulus, arrivals[..|arrivals| - 1]) + [AsReport(modulus, arrivals[|arrivals| - 1])]
  }

  /** The numbers of the reports whose first segment arrived, in the order of arrival. */
  function Numbers(arrivals: seq<Arrival>): seq<nat> {
    if arrivals == [] then []
    else
      var before, last := Numbers(arrivals[..|arrivals| - 1]), arrivals[|arrivals| - 1];
      if last.subSeq.None? || last.subSeq == Some(0) then before + [last.index] else before
  }

  predicate Ordered(ns: seq<nat>) {
    forall i, j :: 0 <= i < j < |ns| ==> ns[i] <= ns[j]
  }

  /** Fewer than `modulus - 1` reports are lost in a row. */
  predicate FewLostInARow(modulus: nat, ns: seq<nat>) {
    forall i :: 0 < i < |ns| ==> ns[i] - ns[i - 1] < modulus
  }

  /** The numbers from `lo` up to but not including `hi`. */
  function Span(lo: nat, hi: nat): (s: set<nat>)
    ensures forall n :: n in s <==> lo <= n < hi
    ensures |s| == if lo <= hi then hi - lo else 0
    decreases hi - lo
  {
    if lo >= hi then {} else {lo} + Span(lo + 1, hi)
  }

  /** The reports missing between the first and the last one received. */
  function Missing(ns: seq<nat>): set<nat> {
    if ns == [] then {} else set n | n in Span(ns[0], ns[|ns| - 1]) && n !in ns
  }

  lemma MissingGrows(ns: seq<nat>, n: nat)
    requires Ordered(ns + [n]) && ns != []
    ensures var last := ns[|ns| - 1];
            last <= n && |Missing(ns + [n])| == |Missing(ns)| + if n == last then 0 else n - last - 1
  {
    hide Ordered, Missing, Span;
    var last, r := ns[|ns| - 1], ns + [n];
    NoneAbove(ns, n);
    assert r[|ns|] == n && r[0] == ns[0];
    assert n in r && last in ns;
    assert forall k :: k in r <==> k in ns || k == n;
    MissingIs(ns);
    MissingIs(r);
    var more := if n == last then {} else Span(last + 1, n);
    SumOfSizes(Missing(ns), more, Missing(r));
  }

  lemma MissingIs(ns: seq<nat>)
    requires ns != []
    ensures forall k :: k in Missing(ns) <==> ns[0] <= k < ns[|ns| - 1] && k !in ns
  {
  }

  lemma SumOfSizes(a: set<nat>, b: set<nat>, c: set<nat>)
    requires a !! b
    requires forall k :: k in c <==> k in a || k in b
    ensures |c| == |a| + |b|
  {
    assert c == a + b;
  }

  lemma NoneAbove(ns: seq<nat>, n: nat)
    requires Ordered(ns + [n]) && ns != []
    ensures forall k :: k in ns ==> ns[0] <= k <= ns[|ns| - 1] <= n
  {
    var r := ns + [n];
    assert r[|ns| - 1] == ns[|ns| - 1] && r[|ns|] == n && r[0] == ns[0];
    forall k | k in ns
      ensures ns[0] <= k <= ns[|ns| - 1] <= n
    {
      var i :| 0 <= i < |ns| && ns[i] == k;
      assert r[i] == k;
    }
  }

  lemma ModUnique(m: nat, k: int, r: int)
    requires 0 <= r < m
    ensures (k * m + r) % m == r
  {
    var x := k * m + r;
    var k', r' := x / m, x % m;
    assert x == k' * m + r' && 0 <= r' < m;
    NoMultipleBetween(m, k - k', r' - r);
  }

  lemma NoMultipleBetween(m: nat, k: int, d: int)
    requires k * m == d && 0 - m < d < m
    ensures d == 0
  {
  }

  /** The remainder of a number less than a turn away from the range. */
  lemma OneTurn(m: nat, x: int)
    requires m > 0 && 0 - m <= x < 2 * m
    ensures x % m == if x < 0 then x + m else if x < m then x else x - m
  {
  }

  /** Remainders add up, modulo a turn. */
  lemma AddRemainders(m: nat, a: nat, b: nat)
    requires m > 0
    ensures (a + b) % m == (a % m + b % m) % m
  {
    var x := a % m + b % m;
    var q := a / m + b / m;
    assert a + b == q * m + x by {
      assert a == a / m * m + a % m && b == b / m * m + b % m;
      assert q * m == a / m * m + b / m * m;
    }
    var y := x % m;
    assert x == x / m * m + y;
    assert a + b == (q + x / m) * m + y by {
      assert (q + x / m) * m == q * m + x / m * m;
    }
    ModUnique(m, q + x / m, y);
  }

  /** What is counted for a jump of `turns` turns and `d` steps. */
  lemma GapOfJump(m: nat, l: nat, d: nat, s: int, subSeq: Option<int>)
    requires m >= 2 && l < m && d < m && s == (l + d) % m && (subSeq.None? || subSeq == Some(0))
    ensures Gap(m, Some(l), Report(Some(s), subSeq)) == if d <= 1 then 0 else d - 1
  {
    OneTurn(m, l + d);
    OneTurn(m, l + 1);
    if d >= 2 {
      OneTurn(m, s - (l + 1) % m);
    }
  }

  /** One jump is counted exactly when fewer than `modulus - 1` reports were lost in it, and is otherwise
      undercounted. */
  lemma JumpCount(modulus: nat, last: nat, n: nat, subSeq: Option<int>)
    requires modulus >= 2 && last <= n && (subSeq.None? || subSeq == Some(0))
    ensures var lost := if n == last then 0 else n - last - 1;
            var gap := Gap(modulus, Some(last % modulus), Report(Some(n % modulus), subSeq));
            gap <= lost && (gap == lost <==> n - last < modulus)
  {
    hide Gap;
    var jump := n - last;
    AddRemainders(modulus, last, jump);
    GapOfJump(modulus, last % modulus, jump % modulus, n % modulus, subSeq);
    Turns(modulus, jump);
  }

  lemma Turns(m: nat, jump: nat)
    requires m > 0
    ensures jump < m ==> jump % m == jump
    ensures jump >= m ==> jump % m <= jump - m
    ensures jump % m < m
  {
  }

  /** What the counters are after `received` reports, of which `ns` began a new one. */
  predicate CountsTrue(modulus: nat, c: Counter, received: nat, ns: seq<nat>)
    requires modulus > 0
  {
    && c.received == received
    && c.lastSeq == (if ns == [] then None else Some(ns[|ns| - 1] % modulus))
    && c.gaps <= |Missing(ns)|
    && (c.gaps == |Missing(ns)| <==> FewLostInARow(modulus, ns))
  }

  lemma CountOne(modulus: nat, c: Counter, received: nat, ns: seq<nat>, a: Arrival)
    requires modulus >= 2 && CountsTrue(modulus, c, received, ns)
    requires (a.subSeq.None? || a.subSeq == Some(0)) && Ordered(ns + [a.index])
    ensures CountsTrue(modulus, Counted(modulus, c, AsReport(modulus, a)), received + 1, ns + [a.index])
  {
    hide Gap, FewLostInARow, Missing, Ordered;
    if ns == [] {
      NothingMissing(modulus, a.index);
      NoGapBefore(modulus, AsReport(modulus, a));
      assert ns + [a.index] == [a.index];
    } else {
      MissingGrows(ns, a.index);
      JumpCount(modulus, ns[|ns| - 1], a.index, a.subSeq);
      LostInARowGrows(modulus, ns, a.index);
    }
  }

  lemma NoGapBefore(modulus: nat, r: Report)
    requires modulus > 0
    ensures Gap(modulus, None, r) == 0
  {
  }

  lemma CountSegment(modulus: nat, c: Counter, received: nat, ns: seq<nat>, a: Arrival)
    requires modulus >= 2 && CountsTrue(modulus, c, received, ns) && !(a.subSeq.None? || a.subSeq == Some(0))
    ensures CountsTrue(modulus, Counted(modulus, c, AsReport(modulus, a)), received + 1, ns)
  {
  }

  /** `gaps` never counts too many, and it is the number of missing reports exactly when fewer than
      `modulus - 1` are lost in a row: whatever the segments, repeats and wrap-arounds. */
  lemma {:induction false} GapsCountTheMissing(modulus: nat, arrivals: seq<Arrival>)
    requires modulus >= 2 && Ordered(Numbers(arrivals))
    ensures CountsTrue(modulus, Tally(modulus, AsReports(modulus, arrivals)), |arrivals|, Numbers(arrivals))
  {
    hide CountsTrue, Counted, Ordered;
    if arrivals != [] {
      var before, last := arrivals[..|arrivals| - 1], arrivals[|arrivals| - 1];
      var ns := Numbers(before);
      assert AsReports(modulus, arrivals)[..|arrivals| - 1] == AsReports(modulus, before);
      if last.subSeq.None? || last.subSeq == Some(0) {
        PrefixOrdered(ns, last.index);
        GapsCountTheMissing(modulus, before);
        CountOne(modulus, Tally(modulus, AsReports(modulus, before)), |before|, ns, last);
      } else {
        GapsCountTheMissing(modulus, before);
        CountSegment(modulus, Tally(modulus, AsReports(modulus, before)), |before|, ns, last);
      }
    } else {
      NothingYet(modulus);
    }
  }

  lemma NothingYet(modulus: nat)
    requires modulus > 0
    ensures CountsTrue(modulus, NOTHING_YET, 0, [])
  {
  }

  lemma NothingMissing(modulus: nat, n: nat)
    ensures |Missing([n])| == 0 && |Missing([])| == 0 && FewLostInARow(modulus, [n])
  {
  }

  lemma PrefixOrdered(ns: seq<nat>, n: nat)
    requires Ordered(ns + [n])
    ensures Ordered(ns)
  {
    forall i, j | 0 <= i < j < |ns|
      ensures ns[i] <= ns[j]
    {
      assert (ns + [n])[i] == ns[i] && (ns + [n])[j] == ns[j];
    }
  }

  lemma LostInARowGrows(modulus: nat, ns: seq<nat>, n: nat)
    requires ns != []
    ensures FewLostInARow(modulus, ns + [n]) <==> FewLostInARow(modulus, ns) && n - ns[|ns| - 1] < modulus
  {
    var r := ns + [n];
    if FewLostInARow(modulus, r) {
      forall i | 0 < i < |ns|
        ensures ns[i] - ns[i - 1] < modulus
      {
        assert r[i] - r[i - 1] < modulus;
      }
      assert r[|ns|] - r[|ns| - 1] < modulus;
    }
  }

  lemma TwoNumbers(a: nat, b: nat)
    ensures Numbers([Arrival(a, None), Arrival(b, None)]) == [a, b]
  {
    var two := [Arrival(a, None), Arrival(b, None)];
    assert two[..1] == [Arrival(a, None)] && two[..1][..0] == [];
    assert Numbers(two[..1]) == [a];
  }

  lemma InOrder(a: nat, b: nat)
    requires a <= b
    ensures Ordered([a] + [b])
  {
  }

  lemma TwoReports(modulus: nat, a: nat, b: nat)
    requires modulus > 0
    ensures AsReports(modulus, [Arrival(a, None), Arrival(b, None)])
            == [Report(Some(a % modulus), None), Report(Some(b % modulus), None)]
  {
  }

  lemma TwoCounted(modulus: nat, a: Report, b: Report)
    requires modulus > 0
    ensures Tally(modulus, [a, b]) == Counted(modulus, Counted(modulus, NOTHING_YET, a), b)
  {
    hide Gap;
    assert [a, b][..1] == [a] && [a][..0] == [];
    assert Tally(modulus, []) == NOTHING_YET;
    assert Tally(modulus, [a]) == Counted(modulus, NOTHING_YET, a);
  }

  /** A whole turn lost goes unnoticed: after report `n` comes the one with the same number again. */
  lemma WholeTurnUnnoticed(modulus: nat, n: nat)
    requires modulus >= 2
    ensures var arrivals := [Arrival(n, None), Arrival(n + modulus, None)];
            Tally(modulus, AsReports(modulus, arrivals)).gaps == 0 && |Missing(Numbers(arrivals))| == modulus - 1
  {
    hide Missing, Numbers, AsReports, Tally, Ordered, FewLostInARow;
    TwoNumbers(n, n + modulus);
    TwoReports(modulus, n, n + modulus);
    SameNumber(modulus, n);
    RepeatNotCounted(modulus, n % modulus);
    TurnMissing(modulus, n);
  }

  lemma SameNumber(modulus: nat, n: nat)
    requires modulus > 0
    ensures (n + modulus) % modulus == n % modulus
  {
    AddRemainders(modulus, n, modulus);
    ModUnique(modulus, 1, 0);
    OneTurn(modulus, n % modulus);
  }

  lemma RepeatNotCounted(modulus: nat, l: nat)
    requires modulus > 0
    ensures var r := Report(Some(l), None); Tally(modulus, [r, r]).gaps == 0
  {
    hide Tally;
    TwoCounted(modulus, Report(Some(l), None), Report(Some(l), None));
  }

  lemma TurnMissing(modulus: nat, n: nat)
    requires modulus >= 2
    ensures |Missing([n, n + modulus])| == modulus - 1
  {
    hide Missing, Ordered, FewLostInARow;
    InOrder(n, n + modulus);
    MissingGrows([n], n + modulus);
    NothingMissing(modulus, n);
    assert [n] + [n + modulus] == [n, n + modulus];
  }
}

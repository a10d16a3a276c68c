/** What the codec of `Ber` is for: decoding inverts encoding, and exactly when it does not. */
module BerLaws {
  import opened Results
  import opened Octets
  import opened Ber

  const TAG_LIMIT: nat := 0x8000_0000
  const LENGTH_LIMIT: nat := 0x1_0000_0000

  // ---------------------------------------------------------------- identifiers

  /** Reading continued digits of `q` leaves the decoder with `q` as its running number. */
  lemma {:induction false} LongTagAfterDigits(q: nat, t: Bytes)
    ensures q <= 0xFFFFFF ==>
              LongTag(ContinuedDigits(q) + t, 0) == Shifted(LongTag(t, q), |ContinuedDigits(q)|)
    ensures q > 0xFFFFFF ==> LongTag(ContinuedDigits(q) + t, 0) == Err(TagTooLarge)
  {
    if q == 0 {
      assert ContinuedDigits(q) + t == t;
      ShiftedByNothing(LongTag(t, 0));
    } else {
      var d := 128 + q % 128;
      var rest := [d] + t;
      LongTagAfterDigits(q / 128, rest);
      assert ContinuedDigits(q) + t == ContinuedDigits(q / 128) + rest;
      assert rest[1..] == t;
    }
  }

  lemma ShiftedByNothing(r: Result<(nat, nat), BerError>)
    ensures Shifted(r, 0) == r
  {
  }

  /** Identifier octets decode to their class and number exactly when the number is below 2^31. */
  lemma IdentifierRoundTrip(cls: TagClass, constructed: bool, number: nat, rest: Bytes)
    ensures var id := IdentifierOctets(cls, constructed, number);
            && ClassOf(id[0]) == cls
            && IsConstructed(id[0]) == constructed
            && TagNumber(id + rest) ==
               if number < TAG_LIMIT then Ok((number, |id|)) else Err(TagTooLarge)
  {
    var id := IdentifierOctets(cls, constructed, number);
    var s := id + rest;
    if number >= 31 {
      var q := number / 128;
      assert s[1..] == ContinuedDigits(q) + ([number % 128] + rest);
      LongTagAfterDigits(q, [number % 128] + rest);
    }
  }

  // ---------------------------------------------------------------- lengths

  /** A long-form length field of `body`, whatever follows. */
  lemma LongLength(lead: byte, body: Bytes, rest: Bytes)
    requires 128 < lead <= 132 && |body| == lead - 128
    ensures LengthAt([lead] + body + rest) == Ok((FromBytes(body), 1 + |body|))
  {
  }

  lemma LengthRoundTrip(n: nat, rest: Bytes)
    requires n < LENGTH_LIMIT
    ensures LengthAt(LengthOctets(n) + rest) == Ok((n, |LengthOctets(n)|))
  {
    if n >= 128 {
      var k := LengthSize(n);
      var body := ToBytes(n, k);
      FromToBytes(n, k);
      assert LengthOctets(n) == [128 + k] + body;
      LongLength(128 + k, body, rest);
    }
  }

  lemma LengthSize(n: nat) returns (k: nat)
    requires n >= 128
    ensures k == (BitLength(n) + 7) / 8 && 1 <= k && n < Pow256(k)
    ensures k <= 4 <==> n < LENGTH_LIMIT
  {
    k := (BitLength(n) + 7) / 8;
    OctetCount(n);
    assert Pow256(4) == LENGTH_LIMIT;
    if k <= 4 {
      Pow256Monotonic(k, 4);
    } else {
      Pow256Monotonic(4, k - 1);
    }
  }

  /** The length field is at most 127 octets long, which every length of a real buffer is. */
  predicate LengthWritable(n: nat) {
    (BitLength(n) + 7) / 8 <= 127
  }

  /** A content of 2^32 octets or more is written with a length the decoder refuses. */
  lemma LengthRefused(n: nat, rest: Bytes)
    requires LENGTH_LIMIT <= n && LengthWritable(n)
    ensures LengthAt(LengthOctets(n) + rest) == Err(InvalidLongLength)
  {
    var k := LengthSize(n);
  }

  // ---------------------------------------------------------------- elements

  /** Identifier, length and content decode to themselves, whatever follows. */
  lemma ElementRoundTrip(cls: TagClass, constructed: bool, number: nat, value: Bytes, rest: Bytes)
    requires number < TAG_LIMIT && |value| < LENGTH_LIMIT
    ensures var e := ElementOctets(cls, constructed, number, value);
            Element(e + rest) == Ok(Tlv(cls, constructed, number, value, e))
  {
    var id := IdentifierOctets(cls, constructed, number);
    var len := LengthOctets(|value|);
    var e := ElementOctets(cls, constructed, number, value);
    var s := e + rest;
    assert s == id + (len + (value + rest));
    IdentifierRoundTrip(cls, constructed, number, len + (value + rest));
    assert s[|id|..] == len + (value + rest);
    LengthRoundTrip(|value|, value + rest);
    assert s[|id| + |len|..|e|] == value;
    assert s[..|e|] == e;
    assert s[0] == id[0];
  }

  lemma ElementRefused(cls: TagClass, constructed: bool, number: nat, value: Bytes, rest: Bytes)
    requires number >= TAG_LIMIT || |value| >= LENGTH_LIMIT
    requires LengthWritable(|value|)
    ensures Element(ElementOctets(cls, constructed, number, value) + rest) ==
            Err(if number < TAG_LIMIT then InvalidLongLength else TagTooLarge)
  {
    var id := IdentifierOctets(cls, constructed, number);
    var after := LengthOctets(|value|) + (value + rest);
    assert ElementOctets(cls, constructed, number, value) + rest == id + after;
    IdentifierRoundTrip(cls, constructed, number, after);
    if number < TAG_LIMIT {
      assert (id + after)[|id|..] == after;
      LengthRefused(|value|, value + rest);
    }
  }

  /** The same at any offset of a buffer, with the offset just past the element; refused exactly
      when the tag number is 2^31 or more or the content 2^32 octets or more. */
  lemma DecodeOneInvertsEncoding(pre: Bytes, cls: TagClass, constructed: bool, number: nat, value: Bytes, rest: Bytes)
    requires LengthWritable(|value|)
    ensures var e := ElementOctets(cls, constructed, number, value);
            ElementAt(pre + e + rest, |pre|) ==
            if number < TAG_LIMIT && |value| < LENGTH_LIMIT then
              Ok((Tlv(cls, constructed, number, value, e), |pre| + |e|))
            else
              Err(if number < TAG_LIMIT then InvalidLongLength else TagTooLarge)
  {
    var e := ElementOctets(cls, constructed, number, value);
    assert (pre + e + rest)[|pre|..] == e + rest;
    assert e != [];
    if number < TAG_LIMIT && |value| < LENGTH_LIMIT {
      ElementRoundTrip(cls, constructed, number, value, rest);
    } else {
      ElementRefused(cls, constructed, number, value, rest);
    }
  }

  /** A one-octet identifier of a low tag number. */
  function LowTag(tag: byte, value: Bytes): Tlv {
    Tlv(ClassOf(tag), IsConstructed(tag), tag % 32, value, Tagged(tag, value))
  }

  lemma TaggedIsElement(tag: byte, value: Bytes)
    requires tag % 32 < 31
    ensures Tagged(tag, value) == ElementOctets(ClassOf(tag), IsConstructed(tag), tag % 32, value)
  {
  }

  lemma TaggedRoundTrip(tag: byte, value: Bytes, rest: Bytes)
    requires tag % 32 < 31 && |value| < LENGTH_LIMIT
    ensures Element(Tagged(tag, value) + rest) == Ok(LowTag(tag, value))
  {
    TaggedIsElement(tag, value);
    ElementRoundTrip(ClassOf(tag), IsConstructed(tag), tag % 32, value, rest);
  }

  /** The content of a sequence that starts with a tagged value. */
  lemma ElementsCons(tag: byte, value: Bytes, rest: Bytes)
    requires tag % 32 < 31 && |value| < LENGTH_LIMIT
    ensures Elements(Tagged(tag, value) + rest) == Prepended([LowTag(tag, value)], Elements(rest))
  {
    TaggedRoundTrip(tag, value, rest);
    var e := Tagged(tag, value);
    assert (e + rest)[|e|..] == rest;
  }

  // ---------------------------------------------------------------- concatenations

  datatype Spec = Spec(cls: TagClass, constructed: bool, number: nat, value: Bytes) {
    predicate Encodable() {
      number < TAG_LIMIT && |value| < LENGTH_LIMIT
    }

    function Octets(): Bytes {
      ElementOctets(cls, constructed, number, value)
    }

    function AsTlv(): Tlv {
      Tlv(cls, constructed, number, value, Octets())
    }
  }

  function Concatenated(specs: seq<Spec>): Bytes {
    if specs == [] then [] else specs[0].Octets() + Concatenated(specs[1..])
  }

  function AsTlvs(specs: seq<Spec>): (ts: seq<Tlv>)
    ensures |ts| == |specs|
    ensures forall i :: 0 <= i < |specs| ==> ts[i] == specs[i].AsTlv()
  {
    if specs == [] then [] else [specs[0].AsTlv()] + AsTlvs(specs[1..])
  }

  /** Decoding a concatenation of encodings gives the list that was encoded. */
  lemma {:induction false} DecodeAllInvertsConcatenation(specs: seq<Spec>)
    requires forall i :: 0 <= i < |specs| ==> specs[i].Encodable()
    ensures Elements(Concatenated(specs)) == Ok(AsTlvs(specs))
  {
    if specs != [] {
      var e := specs[0];
      var rest := Concatenated(specs[1..]);
      ElementRoundTrip(e.cls, e.constructed, e.number, e.value, rest);
      assert (e.Octets() + rest)[|e.Octets()|..] == rest;
      DecodeAllInvertsConcatenation(specs[1..]);
      ElementsStep(e.Octets() + rest, []);
      PrependedNothing(Elements(e.Octets() + rest));
    }
  }

  /** Nothing of an accepted buffer is lost or reordered: the raw octets concatenate back to it, and
      each of them decodes to its own element again. */
  lemma {:induction false} AcceptedBufferIsItsElements(s: Bytes)
    requires Elements(s).Ok?
    ensures RawOctets(Elements(s).value) == s
    ensures forall t :: t in Elements(s).value ==> Element(t.raw) == Ok(t) && |t.value| < |t.raw| <= |s|
    decreases |s|
  {
    if s != [] {
      var t := Element(s).value;
      var rest := s[|t.raw|..];
      ElementsStep(s, []);
      PrependedNothing(Elements(s));
      AcceptedBufferIsItsElements(rest);
      assert Elements(s).value == [t] + Elements(rest).value;
      assert s == t.raw + rest;
      ElementOfRaw(s);
    }
  }

  /** The decoder looks at nothing beyond the element it returns. */
  lemma ElementOfRaw(s: Bytes)
    requires Element(s).Ok?
    ensures Element(Element(s).value.raw) == Element(s)
  {
    var t := Element(s).value;
    TagOfPrefix(s, t.raw);
    var (number, tagSize) := TagNumber(s).value;
    var head := tagSize + LengthAt(s[tagSize..]).value.1;
    LengthOfPrefix(s[tagSize..], t.raw[tagSize..]);
    assert t.raw[head..|t.raw|] == s[head..|t.raw|];
    assert t.raw[..|t.raw|] == t.raw;
  }

  lemma TagOfPrefix(s: Bytes, p: Bytes)
    requires p <= s && TagNumber(s).Ok? && TagNumber(s).value.1 <= |p|
    ensures TagNumber(p) == TagNumber(s)
  {
    if s[0] % 32 == 31 {
      LongTagOfPrefix(s[1..], p[1..], 0);
    }
  }

  lemma LengthOfPrefix(s: Bytes, p: Bytes)
    requires p <= s && LengthAt(s).Ok? && LengthAt(s).value.1 <= |p|
    ensures LengthAt(p) == LengthAt(s)
  {
    if s[0] > 128 {
      assert p[1..1 + s[0] - 128] == s[1..1 + s[0] - 128];
    }
  }

  lemma {:induction false} LongTagOfPrefix(s: Bytes, p: Bytes, number: nat)
    requires p <= s && LongTag(s, number).Ok? && LongTag(s, number).value.1 <= |p|
    ensures LongTag(p, number) == LongTag(s, number)
    decreases |s|
  {
    var n := number * 128 + s[0] % 128;
    if s[0] >= 128 {
      LongTagOfPrefix(s[1..], p[1..], n);
    }
  }

  // ---------------------------------------------------------------- INTEGER

  lemma {:induction false} StrippedKeepsValue(b: Bytes)
    requires b != []
    ensures Stripped(b) != [] && FromSigned(Stripped(b)) == FromSigned(b)
    ensures !RedundantLead(Stripped(b))
    decreases |b|
  {
    if RedundantLead(b) {
      FromBytesHead(b);
      StrippedKeepsValue(b[1..]);
    }
  }

  /** Every integer survives encoding, in the fewest octets that denote it. */
  lemma IntegerRoundTrip(n: int)
    ensures IntegerOf(IntegerContent(n)) == Ok(n)
    ensures forall b: Bytes {:trigger IntegerOf(b)} :: IntegerOf(b) == Ok(n) ==> |IntegerContent(n)| <= |b|
  {
    SignedOctetCount(n);
    var k := (BitLength(Abs(n)) + 8) / 8;
    FromToSigned(n, k);
    StrippedKeepsValue(ToSigned(n, k));
    forall b: Bytes {:trigger IntegerOf(b)} | IntegerOf(b) == Ok(n)
      ensures |IntegerContent(n)| <= |b|
    {
      ShortestIsCanonical(IntegerContent(n), b);
    }
  }

  /** Contents without a redundant leading octet are the encoder's, and only those. */
  lemma IntegerCanonical(b: Bytes)
    requires b != []
    ensures b == IntegerContent(FromSigned(b)) <==> !RedundantLead(b)
  {
    var n := FromSigned(b);
    IntegerRoundTrip(n);
    var c := IntegerContent(n);
    SignedOctetCount(n);
    StrippedKeepsValue(ToSigned(n, (BitLength(Abs(n)) + 8) / 8));
    if !RedundantLead(b) {
      ShortestIsCanonical(b, c);
      ShortestIsCanonical(c, b);
      SignedInjective(b, c);
    }
  }

  lemma ShortestIsCanonical(b: Bytes, c: Bytes)
    requires b != [] && c != [] && !RedundantLead(b) && FromSigned(b) == FromSigned(c)
    ensures |b| <= |c|
  {
    if |c| < |b| {
      SignBit(c);
      Pow256Monotonic(|c|, |b| - 1);
      NeedsAllOctets(b);
      assert FitsSigned(FromSigned(c), |b| - 1);
    }
  }

  /** Without a redundant leading octet a value does not fit in one octet less. */
  lemma NeedsAllOctets(b: Bytes)
    requires |b| > 1 && !RedundantLead(b)
    ensures !FitsSigned(FromSigned(b), |b| - 1)
  {
    FromBytesHead(b);
    FromBytesBound(b[1..]);
    SignBit(b[1..]);
    LeadMatters(b[0], b[1] >= 128, Pow256(|b| - 1), FromBytes(b[1..]));
  }

  lemma LeadMatters(lead: byte, high: bool, p: nat, rest: nat)
    requires rest < p && (high <==> 2 * rest >= p)
    requires (lead == 0 ==> high) && (lead == 255 ==> !high)
    ensures var n := lead * p + rest - if lead >= 128 then 256 * p else 0;
            !(-(p as int) <= 2 * n < p)
  {
    if 0 < lead < 128 {
      assert lead * p >= p;
    } else if 128 <= lead < 255 {
      assert lead * p <= 254 * p;
    }
  }

  // ---------------------------------------------------------------- OBJECT IDENTIFIER

  lemma {:induction false} ReadAfterDigits(q: nat, t: Bytes)
    requires t != []
    ensures ReadSubIds(ContinuedDigits(q) + t, 0) == ReadSubIds(t, q)
  {
    if q == 0 {
      assert ContinuedDigits(q) + t == t;
    } else {
      var rest := [128 + q % 128] + t;
      ReadAfterDigits(q / 128, rest);
      assert ContinuedDigits(q) + t == ContinuedDigits(q / 128) + rest;
      assert rest[1..] == t;
    }
  }

  lemma {:induction false} ReadInvertsSubIds(ids: seq<nat>)
    ensures ReadSubIds(SubIdOctets(ids), 0) == Ok(ids)
  {
    if ids != [] {
      var rest := SubIdOctets(ids[1..]);
      var last := [ids[0] % 128] + rest;
      assert SubIdOctets(ids) == ContinuedDigits(ids[0] / 128) + last;
      ReadAfterDigits(ids[0] / 128, last);
      assert last[1..] == rest;
      ReadInvertsSubIds(ids[1..]);
      assert ids == [ids[0]] + ids[1..];
    }
  }

  /** An identifier the encoder accepts comes back unchanged exactly when its second arc is not
      negative: a negative second arc is absorbed by the first two arcs' shared subidentifier. */
  lemma OidRoundTrip(arcs: seq<int>)
    requires OidContent(arcs).Ok?
    ensures var back := OidArcs(OidContent(arcs).value);
            && back.Ok?
            && (back.value == arcs <==> arcs[1] >= 0)
  {
    var ids := SubIds(arcs);
    ReadInvertsSubIds(ids);
    assert ids[1..] == arcs[2..];
    var back := SplitFirst(ids[0]) + ids[1..];
    assert OidArcs(OidContent(arcs).value) == Ok(back);
    if arcs[1] >= 0 {
      assert SplitFirst(ids[0]) == arcs[..2];
      assert back == arcs[..2] + arcs[2..] == arcs;
    } else {
      assert back[1] >= 0;
    }
  }

  /** Some subidentifier of `s` starts with the octet 0x80, a padding zero digit. */
  predicate Padded(s: Bytes, atStart: bool) {
    s != [] && ((atStart && s[0] == 128) || Padded(s[1..], s[0] < 128))
  }

  /** One more octet of a subidentifier: its digits so far are one longer, unless they are all zero. */
  lemma NextDigit(value: nat, octet: byte)
    ensures var n := value * 128 + octet % 128;
            && n / 128 == value
            && n % 128 == octet % 128
            && (octet < 128 ==> Base128(n) == ContinuedDigits(value) + [octet])
            && (octet >= 128 && n > 0 ==> ContinuedDigits(n) == ContinuedDigits(value) + [octet])
  {
  }

  /** Writing back the subidentifiers read from `s`, the first one continuing `value`, takes no more
      octets, and fewer if one of them is padded. */
  lemma {:induction false} WriteReadLength(s: Bytes, value: nat, atStart: bool)
    requires ReadSubIds(s, value).Ok?
    requires (atStart ==> value == 0) && (s == [] ==> value == 0)
    ensures var back := |SubIdOctets(ReadSubIds(s, value).value)|;
            && back <= |ContinuedDigits(value)| + |s|
            && (Padded(s, atStart) ==> back < |ContinuedDigits(value)| + |s|)
    decreases |s|
  {
    if s != [] {
      var n := value * 128 + s[0] % 128;
      NextDigit(value, s[0]);
      if s[0] < 128 {
        WriteReadLength(s[1..], 0, true);
        assert ReadSubIds(s, value).value[1..] == ReadSubIds(s[1..], 0).value;
      } else {
        WriteReadLength(s[1..], n, false);
      }
    }
  }

  lemma {:induction false} WriteReadSubIds(s: Bytes, value: nat)
    requires ReadSubIds(s, value).Ok? && !Padded(s, value == 0)
    requires s == [] ==> value == 0
    ensures SubIdOctets(ReadSubIds(s, value).value) == ContinuedDigits(value) + s
    decreases |s|
  {
    if s != [] {
      var n := value * 128 + s[0] % 128;
      var rest := s[1..];
      NextDigit(value, s[0]);
      assert s == [s[0]] + rest;
      if s[0] < 128 {
        WriteReadSubIds(rest, 0);
        assert ReadSubIds(s, value).value[1..] == ReadSubIds(rest, 0).value;
      } else {
        WriteReadSubIds(rest, n);
      }
    }
  }

  /** Re-encoding an accepted content gives the same octets exactly when no subidentifier is padded. */
  lemma OidReencode(content: Bytes)
    requires OidArcs(content).Ok?
    ensures OidContent(OidArcs(content).value).Ok?
    ensures OidContent(OidArcs(content).value) == Ok(content) <==> !Padded(content, true)
  {
    var ids := ReadSubIds(content, 0).value;
    SplitFirstIsAccepted(ids);
    if Padded(content, true) {
      WriteReadLength(content, 0, true);
    } else {
      WriteReadSubIds(content, 0);
      assert [] + content == content;
    }
  }

  lemma SplitFirstIsAccepted(ids: seq<nat>)
    requires ids != []
    ensures OidAccepted(SplitFirst(ids[0]) + ids[1..])
    ensures SubIds(SplitFirst(ids[0]) + ids[1..]) == ids
  {
  }

  // ---------------------------------------------------------------- BIT STRING

  lemma BitStringRoundTrip(data: Bytes, unused: int, tag: byte)
    requires tag % 32 < 31 && 1 + |data| < LENGTH_LIMIT
    ensures var r := BitString(data, unused, tag);
            && (r.Ok? <==> 0 <= unused <= 7 && (data == [] ==> unused == 0))
            && (r.Ok? ==> exists t :: Element(r.value) == Ok(t) && BitStringOf(t.value) == Ok((data, 8 * |data| - unused)))
  {
    var r := BitString(data, unused, tag);
    if r.Ok? {
      TaggedRoundTrip(tag, [unused] + data, []);
      assert r.value + [] == r.value;
      assert ([unused] + data)[1..] == data;
    }
  }
}

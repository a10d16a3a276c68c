/**
 Basic Encoding Rules of ISO/IEC 8825-1: definite lengths, low and high tag numbers, INTEGER,
 OBJECT IDENTIFIER and BIT STRING. Each loop of the codec is a method proved against the function
 that says what it computes; the laws of the codec are lemmas about those functions.
 */
module Ber {
  import opened Results
  import opened Octets

  datatype BerError =
    | NegativeTag | InvalidOid | InvalidUnusedBits
    | EndOfIdentifier | EndOfLongTag | TagTooLarge | EndOfLength | IndefiniteLength | InvalidLongLength
    | LengthExceedsData | PrimitiveHasNoChildren | EmptyInteger | EmptyOid | TruncatedOid | EmptyBitString

  // ---------------------------------------------------------------- identifier and length octets

  datatype TagClass = Universal | Application | Context | Private {
    function Bits(): byte {
      match this
      case Universal => 0
      case Application => 0x40
      case Context => 0x80
      case Private => 0xC0
    }
  }

  function ClassOf(identifier: byte): TagClass {
    if identifier < 0x40 then Universal
    else if identifier < 0x80 then Application
    else if identifier < 0xC0 then Context
    else Private
  }

  predicate IsConstructed(identifier: byte) {
    identifier % 64 >= 32
  }

  /** The continued base-128 digits of `n`, most significant first, each with its high bit set. */
  function ContinuedDigits(n: nat): Bytes {
    if n == 0 then [] else ContinuedDigits(n / 128) + [128 + n % 128]
  }

  /** Base-128 octets of `n`: every octet but the last has its high bit set. */
  function Base128(n: nat): Bytes {
    ContinuedDigits(n / 128) + [n % 128]
  }

  function IdentifierOctets(cls: TagClass, constructed: bool, number: nat): (b: Bytes)
    ensures b != []
  {
    var first := cls.Bits() + if constructed then 0x20 else 0;
    if number < 31 then [first + number] else [first + 31] + Base128(number)
  }

  /** The chunk loop of the source: digits appended least significant first, then reversed. */
  method Base128Octets(n: nat) returns (octets: Bytes)
    ensures octets == Base128(n)
  {
    var out: Bytes := [n % 128];
    var rest: nat := n / 128;
    while rest != 0
      invariant Base128(n) == ContinuedDigits(rest) + Reversed(out)
    {
      ghost var was: nat := rest;
      out := out + [128 + rest % 128];
      rest := rest / 128;
      assert ContinuedDigits(was) + Reversed(out[..|out| - 1]) == ContinuedDigits(rest) + Reversed(out);
    }
    octets := Reversed(out);
  }

  function Reversed(s: Bytes): (r: Bytes)
    ensures |r| == |s|
  {
    if s == [] then [] else [s[|s| - 1]] + Reversed(s[..|s| - 1])
  }

  method EncodeIdentifier(cls: TagClass, constructed: bool, number: int) returns (r: Result<Bytes, BerError>)
    ensures r == if number < 0 then Err(NegativeTag) else Ok(IdentifierOctets(cls, constructed, number))
  {
    if number < 0 {
      return Err(NegativeTag);
    }
    var first: byte := cls.Bits() + if constructed then 0x20 else 0;
    if number < 31 {
      return Ok([first + number]);
    }
    var digits := Base128Octets(number);
    r := Ok([first + 31] + digits);
  }

  /** Definite-form length octets. */
  function LengthOctets(n: nat): (b: Bytes)
    ensures b != []
  {
    if n < 128 then
      [n]
    else
      var k := (BitLength(n) + 7) / 8;
      [if k < 128 then 128 + k else 255] + ToBytes(n, k)
  }

  /** An element with a one-octet identifier, as the stack's builders write it. */
  function Tagged(tag: byte, value: Bytes): (b: Bytes)
    ensures |b| > |value|
  {
    [tag] + LengthOctets(|value|) + value
  }

  function ElementOctets(cls: TagClass, constructed: bool, number: nat, value: Bytes): Bytes {
    IdentifierOctets(cls, constructed, number) + LengthOctets(|value|) + value
  }

  // ---------------------------------------------------------------- decoding one element

  datatype Tlv = Tlv(cls: TagClass, constructed: bool, number: nat, value: Bytes, raw: Bytes) {
    predicate Is(c: TagClass, n: nat) {
      cls == c && number == n
    }

    function Children(): Result<seq<Tlv>, BerError> {
      if constructed then Elements(value) else Err(PrimitiveHasNoChildren)
    }

    function AsInt(): Result<int, BerError> {
      IntegerOf(value)
    }

    function AsOid(): Result<seq<nat>, BerError> {
      OidArcs(value)
    }
  }

  /** Long-form tag number at the head of `s`: the number and the octets read. */
  function LongTag(s: Bytes, number: nat): (r: Result<(nat, nat), BerError>)
    ensures r.Ok? ==> 1 <= r.value.1 <= |s|
  {
    if s == [] then
      Err(EndOfLongTag)
    else
      var n := number * 128 + s[0] % 128;
      if s[0] < 128 then
        Ok((n, 1))
      else if n > 0xFFFFFF then
        Err(TagTooLarge)
      else
        var r :- LongTag(s[1..], n);
        Ok((r.0, r.1 + 1))
  }

  /** Tag number at the head of `s` and the number of identifier octets. */
  function TagNumber(s: Bytes): (r: Result<(nat, nat), BerError>)
    ensures r.Ok? ==> 1 <= r.value.1 <= |s|
  {
    if s == [] then
      Err(EndOfIdentifier)
    else if s[0] % 32 != 31 then
      Ok((s[0] % 32, 1))
    else
      var r :- LongTag(s[1..], 0);
      Ok((r.0, r.1 + 1))
  }

  /** Length at the head of `s` and the number of length octets. */
  function LengthAt(s: Bytes): (r: Result<(nat, nat), BerError>)
    ensures r.Ok? ==> 1 <= r.value.1 <= |s|
  {
    if s == [] then
      Err(EndOfLength)
    else if s[0] == 128 then
      Err(IndefiniteLength)
    else if s[0] > 128 then
      var k := s[0] - 128;
      if k > 4 || 1 + k > |s| then Err(InvalidLongLength) else Ok((FromBytes(s[1..1 + k]), 1 + k))
    else
      Ok((s[0], 1))
  }

  /** The element at the head of `s`; `raw` is the part of `s` it occupies. */
  function Element(s: Bytes): (r: Result<Tlv, BerError>)
    ensures r.Ok? ==> r.value.raw <= s && |r.value.value| < |r.value.raw|
    ensures r.Ok? ==> r.value.value == r.value.raw[|r.value.raw| - |r.value.value|..]
  {
    var tag :- TagNumber(s);
    var len :- LengthAt(s[tag.1..]);
    var start := tag.1 + len.1;
    var end := start + len.0;
    if end > |s| then
      Err(LengthExceedsData)
    else
      Ok(Tlv(ClassOf(s[0]), IsConstructed(s[0]), tag.0, s[start..end], s[..end]))
  }

  /** The element at `offset` and the offset just after it. */
  function ElementAt(data: Bytes, offset: nat): (r: Result<(Tlv, nat), BerError>)
    ensures r.Ok? ==> offset < r.value.1 <= |data| && data[offset..r.value.1] == r.value.0.raw
  {
    if offset >= |data| then
      Err(EndOfIdentifier)
    else
      var t :- Element(data[offset..]);
      Ok((t, offset + |t.raw|))
  }

  /** The long-tag loop: the number and the offset after its last octet. */
  method DecodeLongTag(data: Bytes, start: nat) returns (r: Result<(nat, nat), BerError>)
    requires start <= |data|
    ensures r == Shifted(LongTag(data[start..], 0), start)
  {
    var offset := start;
    var number: nat := 0;
    while true
      invariant start <= offset <= |data|
      invariant LongTag(data[start..], 0) == Shifted(LongTag(data[offset..], number), offset - start)
      decreases |data| - offset
    {
      if offset >= |data| {
        return Err(EndOfLongTag);
      }
      var b := data[offset];
      assert data[offset..][1..] == data[offset + 1..];
      offset := offset + 1;
      number := number * 128 + b % 128;
      if b < 128 {
        return Ok((number, offset));
      }
      if number > 0xFFFFFF {
        return Err(TagTooLarge);
      }
    }
  }

  method DecodeLength(data: Bytes, start: nat) returns (r: Result<(nat, nat), BerError>)
    requires start <= |data|
    ensures r == Shifted(LengthAt(data[start..]), start)
  {
    var offset := start;
    if offset >= |data| {
      return Err(EndOfLength);
    }
    var lb := data[offset];
    offset := offset + 1;
    if lb == 128 {
      return Err(IndefiniteLength);
    }
    if lb < 128 {
      return Ok((lb, offset));
    }
    var n := lb - 128;
    if n > 4 || offset + n > |data| {
      return Err(InvalidLongLength);
    }
    assert data[start..][1..1 + n] == data[offset..offset + n];
    r := Ok((FromBytes(data[offset..offset + n]), offset + n));
  }

  /** Tag number of the element at `start` and the offset after its identifier octets. */
  method DecodeTag(data: Bytes, start: nat) returns (r: Result<(nat, nat), BerError>)
    requires start <= |data|
    ensures r == Shifted(TagNumber(data[start..]), start)
  {
    if start >= |data| {
      return Err(EndOfIdentifier);
    }
    var first := data[start];
    var offset := start + 1;
    if first % 32 != 31 {
      return Ok((first % 32, offset));
    }
    assert data[offset..] == data[start..][1..];
    r := DecodeLongTag(data, offset);
  }

  method DecodeOne(data: Bytes, start: nat) returns (r: Result<(Tlv, nat), BerError>)
    ensures r == ElementAt(data, start)
  {
    hide LengthAt, TagNumber, LongTag;
    if start >= |data| {
      return Err(EndOfIdentifier);
    }
    var tag := DecodeTag(data, start);
    if tag.Err? {
      return Err(tag.error);
    }
    var (number, offset) := tag.value;
    SliceOfSuffix(data, start, offset - start, |data| - start);
    var len := DecodeLength(data, offset);
    if len.Err? {
      return Err(len.error);
    }
    var (length, content) := len.value;
    var end := content + length;
    if end > |data| {
      return Err(LengthExceedsData);
    }
    SliceOfSuffix(data, start, content - start, end - start);
    SliceOfSuffix(data, start, 0, end - start);
    var first := data[start];
    r := Ok((Tlv(ClassOf(first), IsConstructed(first), number, data[content..end], data[start..end]), end));
  }

  lemma SliceOfSuffix(data: Bytes, start: nat, a: nat, b: nat)
    requires start <= |data| && a <= b <= |data| - start
    ensures data[start..][a..b] == data[start + a..start + b]
    ensures b == |data| - start ==> data[start..][a..] == data[start + a..]
    ensures a == 0 ==> data[start..][..b] == data[start..start + b]
  {
  }

  /** The same number, read `skipped` octets further on. */
  function Shifted(r: Result<(nat, nat), BerError>, skipped: nat): Result<(nat, nat), BerError> {
    match r
    case Ok(v) => Ok((v.0, v.1 + skipped))
    case Err(e) => Err(e)
  }

  // ---------------------------------------------------------------- decoding a concatenation

  /** The elements whose encodings follow each other in `s`. */
  function Elements(s: Bytes): Result<seq<Tlv>, BerError>
    decreases |s|
  {
    if s == [] then
      Ok([])
    else
      match Element(s)
      case Err(e) => Err(e)
      case Ok(t) => Prepended([t], Elements(s[|t.raw|..]))
  }

  method DecodeAll(data: Bytes) returns (r: Result<seq<Tlv>, BerError>)
    ensures r == Elements(data)
  {
    hide Element;
    var items: seq<Tlv> := [];
    var offset := 0;
    ghost var rest := data;
    PrependedNothing(Elements(data));
    while offset < |data|
      invariant offset <= |data| && rest == data[offset..]
      invariant Elements(data) == Prepended(items, Elements(rest))
    {
      var one := DecodeOne(data, offset);
      ElementsStep(rest, items);
      if one.Err? {
        return Err(one.error);
      }
      items := items + [one.value.0];
      offset := one.value.1;
      rest := rest[|one.value.0.raw|..];
    }
    assert items + [] == items;
    r := Ok(items);
  }

  lemma PrependedNothing(r: Result<seq<Tlv>, BerError>)
    ensures Prepended([], r) == r
  {
    assert r.Ok? ==> [] + r.value == r.value;
  }

  lemma PrependedTwice(items: seq<Tlv>, t: Tlv, r: Result<seq<Tlv>, BerError>)
    ensures Prepended(items, Prepended([t], r)) == Prepended(items + [t], r)
  {
    assert r.Ok? ==> items + ([t] + r.value) == (items + [t]) + r.value;
  }

  lemma ElementsStep(s: Bytes, items: seq<Tlv>)
    requires s != []
    ensures Element(s).Err? ==> Elements(s) == Err(Element(s).error)
    ensures Element(s).Ok? ==>
              var t := Element(s).value;
              Prepended(items, Elements(s)) == Prepended(items + [t], Elements(s[|t.raw|..]))
  {
    var one := Element(s);
    if one.Ok? {
      PrependedTwice(items, one.value, Elements(s[|one.value.raw|..]));
    }
  }

  function Prepended(items: seq<Tlv>, r: Result<seq<Tlv>, BerError>): Result<seq<Tlv>, BerError> {
    match r
    case Ok(v) => Ok(items + v)
    case Err(e) => Err(e)
  }

  function RawOctets(ts: seq<Tlv>): Bytes {
    if ts == [] then [] else ts[0].raw + RawOctets(ts[1..])
  }

  // ---------------------------------------------------------------- INTEGER

  /** A leading octet that repeats the sign of the octet after it. */
  predicate RedundantLead(b: Bytes) {
    |b| > 1 && ((b[0] == 0x00 && b[1] < 0x80) || (b[0] == 0xFF && b[1] >= 0x80))
  }

  function Stripped(b: Bytes): Bytes {
    if RedundantLead(b) then Stripped(b[1..]) else b
  }

  function IntegerContent(n: int): Bytes {
    SignedOctetCount(n);
    Stripped(ToSigned(n, (BitLength(Abs(n)) + 8) / 8))
  }

  method EncodeIntegerContent(n: int) returns (body: Bytes)
    ensures body == IntegerContent(n)
  {
    SignedOctetCount(n);
    body := ToSigned(n, (BitLength(Abs(n)) + 8) / 8);
    while |body| > 1 && ((body[0] == 0x00 && body[1] < 0x80) || (body[0] == 0xFF && body[1] >= 0x80))
      invariant Stripped(body) == IntegerContent(n)
      decreases |body|
    {
      body := body[1..];
    }
  }

  function IntegerOf(content: Bytes): Result<int, BerError> {
    if content == [] then Err(EmptyInteger) else Ok(FromSigned(content))
  }

  function Integer(n: int, tag: byte): Bytes {
    Tagged(tag, IntegerContent(n))
  }

  // ---------------------------------------------------------------- OBJECT IDENTIFIER

  /** Each subidentifier in base 128. */
  function SubIdOctets(ids: seq<nat>): Bytes {
    if ids == [] then [] else Base128(ids[0]) + SubIdOctets(ids[1..])
  }

  predicate NonNegative(ids: seq<int>) {
    forall i :: 0 <= i < |ids| ==> ids[i] >= 0
  }

  predicate OidAccepted(arcs: seq<int>) {
    && |arcs| >= 2
    && arcs[0] <= 2
    && (arcs[0] < 2 ==> arcs[1] < 40)
    && arcs[0] * 40 + arcs[1] >= 0
    && NonNegative(arcs[2..])
  }

  /** Subidentifiers of an OID: the first two arcs share one. */
  function SubIds(arcs: seq<int>): (ids: seq<nat>)
    requires OidAccepted(arcs)
  {
    [arcs[0] * 40 + arcs[1]] + arcs[2..]
  }

  function OidContent(arcs: seq<int>): Result<Bytes, BerError> {
    if OidAccepted(arcs) then Ok(SubIdOctets(SubIds(arcs))) else Err(InvalidOid)
  }

  method EncodeOidContent(arcs: seq<int>) returns (r: Result<Bytes, BerError>)
    ensures r == OidContent(arcs)
  {
    if |arcs| < 2 || arcs[0] > 2 || (arcs[0] < 2 && arcs[1] >= 40) {
      return Err(InvalidOid);
    }
    var all := [arcs[0] * 40 + arcs[1]] + arcs[2..];
    var out: Bytes := [];
    var i := 0;
    while i < |all|
      invariant 0 <= i <= |all|
      invariant NonNegative(all[..i])
      invariant out == SubIdOctets(all[..i])
    {
      if all[i] < 0 {
        assert i > 0 ==> arcs[2..][i - 1] < 0;
        return Err(InvalidOid);
      }
      var chunk := Base128Octets(all[i]);
      SubIdOctetsAppend(all[..i], all[i]);
      assert all[..i + 1] == all[..i] + [all[i]];
      out := out + chunk;
      i := i + 1;
    }
    assert all[..i] == all && all[1..] == arcs[2..];
    r := Ok(out);
  }

  lemma {:induction false} SubIdOctetsAppend(ids: seq<nat>, last: nat)
    ensures SubIdOctets(ids + [last]) == SubIdOctets(ids) + Base128(last)
  {
    if ids == [] {
      assert [last][1..] == [];
    } else {
      SubIdOctetsAppend(ids[1..], last);
      assert (ids + [last])[1..] == ids[1..] + [last];
    }
  }

  /** Subidentifiers of `s`, the first one continuing `value`. */
  function ReadSubIds(s: Bytes, value: nat): (r: Result<seq<nat>, BerError>)
    ensures r.Ok? && s != [] ==> r.value != []
  {
    if s == [] then
      Ok([])
    else
      var n := value * 128 + s[0] % 128;
      if s[0] < 128 then
        var rest :- ReadSubIds(s[1..], 0);
        Ok([n] + rest)
      else if |s| == 1 then
        Err(TruncatedOid)
      else
        ReadSubIds(s[1..], n)
  }

  /** The two arcs a first subidentifier stands for. */
  function SplitFirst(first: nat): (r: seq<nat>)
    ensures |r| == 2
  {
    var a := if first / 40 < 2 then first / 40 else 2;
    [a, first - 40 * a]
  }

  function OidArcs(content: Bytes): Result<seq<nat>, BerError> {
    if content == [] then
      Err(EmptyOid)
    else
      var ids :- ReadSubIds(content, 0);
      Ok(SplitFirst(ids[0]) + ids[1..])
  }

  method DecodeOid(content: Bytes) returns (r: Result<seq<nat>, BerError>)
    ensures r == OidArcs(content)
  {
    if content == [] {
      return Err(EmptyOid);
    }
    var arcs: seq<nat> := [];
    assert forall v: seq<nat> :: [] + v == v;
    var value: nat := 0;
    var i := 0;
    assert content[0..] == content;
    while i < |content|
      invariant 0 <= i <= |content|
      invariant i > 0 && i == |content| ==> arcs != [] && value == 0
      invariant ReadSubIds(content, 0) == PrependedIds(arcs, ReadSubIds(content[i..], value))
    {
      var b := content[i];
      assert content[i..][1..] == content[i + 1..];
      value := value * 128 + b % 128;
      if b < 128 {
        ghost var rest := ReadSubIds(content[i + 1..], 0);
        assert rest.Ok? ==> arcs + ([value] + rest.value) == (arcs + [value]) + rest.value;
        arcs := arcs + [value];
        value := 0;
      } else if i == |content| - 1 {
        return Err(TruncatedOid);
      }
      i := i + 1;
    }
    assert content[i..] == [] && arcs + [] == arcs;
    r := Ok(SplitFirst(arcs[0]) + arcs[1..]);
  }

  function PrependedIds(ids: seq<nat>, r: Result<seq<nat>, BerError>): Result<seq<nat>, BerError> {
    match r
    case Ok(v) => Ok(ids + v)
    case Err(e) => Err(e)
  }

  function Oid(arcs: seq<int>, tag: byte): Result<Bytes, BerError> {
    var content :- OidContent(arcs);
    Ok(Tagged(tag, content))
  }

  // ---------------------------------------------------------------- BIT STRING

  function BitString(data: Bytes, unused: int, tag: byte): Result<Bytes, BerError> {
    if !(0 <= unused <= 7) || (unused != 0 && data == []) then
      Err(InvalidUnusedBits)
    else
      Ok(Tagged(tag, [unused] + data))
  }

  /** Octets and number of bits. */
  function BitStringOf(content: Bytes): Result<(Bytes, int), BerError> {
    if content == [] then
      Err(EmptyBitString)
    else if content[0] > 7 || (content[0] != 0 && |content| == 1) then
      Err(InvalidUnusedBits)
    else
      Ok((content[1..], 8 * (|content| - 1) - content[0]))
  }
}

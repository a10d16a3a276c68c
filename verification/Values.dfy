/**
 Decoded values and their JSON form, in which the session log and snapshots keep them.
 A JSON object keeps its members in insertion order.
 */
module Values {
  import opened Results
  import opened Octets

  datatype ValueKind =
    | ArrayKind | StructureKind | BooleanKind | BitStringKind | IntegerKind | UnsignedKind | FloatKind
    | OctetStringKind | VisibleStringKind | GeneralizedTimeKind | BinaryTimeKind | BcdKind | ObjIdKind
    | UnicodeStringKind | UtcTimeKind | AccessErrorKind
  {
    function Text(): string {
      match this
      case ArrayKind => "array"
      case StructureKind => "structure"
      case BooleanKind => "boolean"
      case BitStringKind => "bit-string"
      case IntegerKind => "integer"
      case UnsignedKind => "unsigned"
      case FloatKind => "float"
      case OctetStringKind => "octet-string"
      case VisibleStringKind => "visible-string"
      case GeneralizedTimeKind => "generalized-time"
      case BinaryTimeKind => "binary-time"
      case BcdKind => "bcd"
      case ObjIdKind => "obj-id"
      case UnicodeStringKind => "mms-string"
      case UtcTimeKind => "utc-time"
      case AccessErrorKind => "data-access-error"
    }
  }

  const ALL_KINDS: seq<ValueKind> := [
    ArrayKind, StructureKind, BooleanKind, BitStringKind, IntegerKind, UnsignedKind, FloatKind,
    OctetStringKind, VisibleStringKind, GeneralizedTimeKind, BinaryTimeKind, BcdKind, ObjIdKind,
    UnicodeStringKind, UtcTimeKind, AccessErrorKind]

  /** `ValueKind(text)`: the kind with that spelling. */
  function KindAmong(kinds: seq<ValueKind>, text: string): Option<ValueKind> {
    if kinds == [] then None
    else if kinds[0].Text() == text then Some(kinds[0])
    else KindAmong(kinds[1..], text)
  }

  /** An insertion-ordered dictionary. */
  datatype Members<T> = NoMembers | Entry(name: string, value: T, rest: Members<T>) {
    function Find(key: string): Option<T> {
      match this
      case NoMembers => None
      case Entry(n, v, rest) => if n == key then Some(v) else rest.Find(key)
    }

    predicate Has(key: string) {
      Find(key).Some?
    }

    /** `key in d and len(d) == 1`. */
    predicate HasOnly(key: string) {
      Has(key) && rest.NoMembers?
    }
  }

  datatype Value =
    | Null
    | Boolean(b: bool)
    | Int(i: int)
    | Float(r: real)
    | Str(s: string)
    | OctetString(octets: Bytes)
    | BitString(bits: seq<bool>)
    | UtcTime(ms: int, us: int, quality: int)
    | BinaryTime(at: int)
    | AccessError(domain: string, code: Option<int>, name: string)
    | RawValue(kind: ValueKind, text: string)
    | List(items: seq<Value>)
    | Dict(members: Members<Value>)

  datatype Json =
    | JNull
    | JBool(b: bool)
    | JInt(i: int)
    | JFloat(r: real)
    | JStr(s: string)
    | JList(items: seq<Json>)
    | JDict(members: Members<Json>)

  function Number(v: Value): Option<real> {
    match v
    case Float(r) => Some(r)
    case Int(i) => Some(i as real)
    case Boolean(b) => Some(if b then 1.0 else 0.0)
    case _ => None
  }

  function Absolute(r: real): real {
    if r < 0.0 then -r else r
  }

  function Larger(a: real, b: real): real {
    if a < b then b else a
  }

  /** `values_equal`: floats are compared with a tolerance. */
  predicate Same(a: Value, b: Value) {
    if a.Float? || b.Float? then
      && Number(a).Some? && Number(b).Some?
      && var x, y := Number(a).value, Number(b).value;
      Absolute(x - y) <= 0.000001 * Larger(1.0, Larger(Absolute(x), Absolute(y)))
    else
      a == b
  }

  lemma SameAsItself(v: Value)
    ensures Same(v, v)
  {
  }

  /** Integers and truth values are compared with floats as numbers; the tolerance is a millionth of the larger one,
      and of 1 below that. */
  lemma FloatsCompared(x: real, y: real, i: int, b: bool)
    ensures Same(Float(x), Float(y)) <==> Same(Float(y), Float(x))
    ensures Same(Int(i), Float(x)) <==> Same(Float(i as real), Float(x))
    ensures Same(Boolean(b), Float(x)) <==> Same(Float(if b then 1.0 else 0.0), Float(x))
    ensures -1.0 <= x <= y <= 1.0 ==> (Same(Float(x), Float(y)) <==> y - x <= 0.000001)
    ensures 1.0 <= y && -y <= x <= y ==> (Same(Float(x), Float(y)) <==> 1000000.0 * (y - x) <= y)
    ensures x <= -1.0 && x <= y <= -x ==> (Same(Float(x), Float(y)) <==> 1000000.0 * (y - x) <= -x)
  {
  }

  function HexDigit(n: nat): char
    requires n < 16
  {
    if n < 10 then ('0' as int + n) as char else ('a' as int + n - 10) as char
  }

  function HexValue(c: char): Option<nat> {
    if '0' <= c <= '9' then Some(c as int - '0' as int)
    else if 'a' <= c <= 'f' then Some(c as int - 'a' as int + 10)
    else if 'A' <= c <= 'F' then Some(c as int - 'A' as int + 10)
    else None
  }

  /** `bytes.hex()`. */
  function Hex(b: Bytes): string {
    if b == [] then "" else [HexDigit(b[0] / 16), HexDigit(b[0] % 16)] + Hex(b[1..])
  }

  /** `bytes.fromhex()`; None where it raises. */
  function FromHex(s: string): Option<Bytes> {
    if s == [] then
      Some([])
    else if |s| < 2 || HexValue(s[0]).None? || HexValue(s[1]).None? then
      None
    else
      match FromHex(s[2..])
      case None => None
      case Some(rest) => Some([HexValue(s[0]).value * 16 + HexValue(s[1]).value] + rest)
  }

  function BitText(bits: seq<bool>): string {
    if bits == [] then "" else [if bits[0] then '1' else '0'] + BitText(bits[1..])
  }

  function BitsOf(text: string): seq<bool> {
    if text == [] then [] else [text[0] == '1'] + BitsOf(text[1..])
  }

  /** `value_to_json`. How a time is spelled out (`iso`) is never read back. */
  function ToJson(v: Value, iso: (int, int) -> string): Json
    decreases v, 0
  {
    match v
    case Null => JNull
    case Boolean(b) => JBool(b)
    case Int(i) => JInt(i)
    case Float(r) => JFloat(r)
    case Str(s) => JStr(s)
    case OctetString(b) => JDict(Entry("octets", JStr(Hex(b)), NoMembers))
    case BitString(bits) => JDict(Entry("bits", JStr(BitText(bits)), NoMembers))
    case UtcTime(ms, us, q) =>
      JDict(Entry("utc", JStr(iso(ms, us)), Entry("ms", JInt(ms), Entry("us", JInt(us), Entry("quality", JInt(q), NoMembers)))))
    case BinaryTime(ms) => JDict(Entry("binary_time", JStr(iso(ms, 0)), Entry("ms", JInt(ms), NoMembers)))
    case AccessError(d, c, n) =>
      var code := if c.Some? then JInt(c.value) else JNull;
      JDict(Entry("error", JDict(Entry("domain", JStr(d), Entry("code", code, Entry("name", JStr(n), NoMembers)))), NoMembers))
    case RawValue(k, t) => JDict(Entry("raw", JStr(t), Entry("kind", JStr(k.Text()), NoMembers)))
    case List(items) => JList(ToJsonItems(items, iso))
    case Dict(members) => JDict(ToJsonMembers(members, iso))
  }

  function ToJsonItems(vs: seq<Value>, iso: (int, int) -> string): (js: seq<Json>)
    ensures |js| == |vs|
    decreases vs, 1
  {
    if vs == [] then [] else [ToJson(vs[0], iso)] + ToJsonItems(vs[1..], iso)
  }

  function ToJsonMembers(ms: Members<Value>, iso: (int, int) -> string): Members<Json>
    decreases ms, 1
  {
    match ms
    case NoMembers => NoMembers
    case Entry(n, v, rest) => Entry(n, ToJson(v, iso), ToJsonMembers(rest, iso))
  }

  function IntOr(j: Option<Json>, default: int): Option<int> {
    match j
    case None => Some(default)
    case Some(JInt(i)) => Some(i)
    case _ => None
  }

  /** The shapes `value_from_json` takes for one of its own encodings. */
  predicate Reserved(ms: Members<Json>) {
    || ms.HasOnly("octets")
    || ms.HasOnly("bits")
    || (ms.Has("utc") && ms.Has("ms"))
    || ms.Has("binary_time")
    || (ms.HasOnly("error") && ms.Find("error").value.JDict?)
    || (ms.Has("raw") && ms.Has("kind"))
  }

  /** An object of a reserved shape; None where reading it raises or gives a value of no known type. */
  function FromReserved(ms: Members<Json>): (r: Option<Value>)
    requires Reserved(ms)
    ensures r.Some? ==> !r.value.Dict? && !r.value.List?
  {
    if ms.HasOnly("octets") then
      (match ms.Find("octets").value
       case JStr(s) => if FromHex(s).Some? then Some(OctetString(FromHex(s).value)) else None
       case _ => None)
    else if ms.HasOnly("bits") then
      (match ms.Find("bits").value
       case JStr(s) => Some(BitString(BitsOf(s)))
       case _ => None)
    else if ms.Has("utc") && ms.Has("ms") then
      (match (ms.Find("ms").value, IntOr(ms.Find("us"), 0), IntOr(ms.Find("quality"), 0))
       case (JInt(at), Some(us), Some(q)) => Some(UtcTime(at, us, q))
       case _ => None)
    else if ms.Has("binary_time") then
      (match ms.Find("ms")
       case Some(JInt(at)) => Some(BinaryTime(at))
       case _ => None)
    else if ms.HasOnly("error") && ms.Find("error").value.JDict? then
      var e := ms.Find("error").value.members;
      (match (e.Find("domain"), e.Find("code"), e.Find("name"))
       case (Some(JStr(d)), Some(JInt(c)), Some(JStr(n))) => Some(AccessError(d, Some(c), n))
       case (Some(JStr(d)), Some(JNull), Some(JStr(n))) => Some(AccessError(d, None, n))
       case (Some(JStr(d)), None, Some(JStr(n))) => Some(AccessError(d, None, n))
       case _ => None)
    else
      (match (ms.Find("raw").value, ms.Find("kind").value)
       case (JStr(t), JStr(k)) =>
         if KindAmong(ALL_KINDS, k).Some? then Some(RawValue(KindAmong(ALL_KINDS, k).value, t)) else None
       case _ => None)
  }

  /** `value_from_json`. */
  function FromJson(j: Json): Option<Value>
    decreases j, 0
  {
    match j
    case JNull => Some(Null)
    case JBool(b) => Some(Boolean(b))
    case JInt(i) => Some(Int(i))
    case JFloat(r) => Some(Float(r))
    case JStr(s) => Some(Str(s))
    case JList(items) =>
      (match FromJsonItems(items)
       case None => None
       case Some(vs) => Some(List(vs)))
    case JDict(ms) =>
      if Reserved(ms) then FromReserved(ms) else
      (match FromJsonMembers(ms)
       case None => None
       case Some(vs) => Some(Dict(vs)))
  }

  function FromJsonItems(js: seq<Json>): Option<seq<Value>>
    decreases js, 1
  {
    if js == [] then
      Some([])
    else
      match (FromJson(js[0]), FromJsonItems(js[1..]))
      case (Some(v), Some(vs)) => Some([v] + vs)
      case _ => None
  }

  function FromJsonMembers(js: Members<Json>): Option<Members<Value>>
    decreases js, 1
  {
    match js
    case NoMembers => Some(NoMembers)
    case Entry(n, j, rest) =>
      match (FromJson(j), FromJsonMembers(rest))
      case (Some(v), Some(vs)) => Some(Entry(n, v, vs))
      case _ => None
  }

  // ---------------------------------------------------------------- the law

  /** A time without microseconds or quality is read as having 0 there. */
  lemma OmittedMembers(text: Json, ms: int, us: int, q: int)
    ensures var at := Entry("ms", JInt(ms), NoMembers);
            && FromJson(JDict(Entry("utc", text, at))) == Some(UtcTime(ms, 0, 0))
            && FromJson(JDict(Entry("us", JInt(us), Entry("utc", text, at)))) == Some(UtcTime(ms, us, 0))
            && FromJson(JDict(Entry("quality", JInt(q), Entry("utc", text, at)))) == Some(UtcTime(ms, 0, q))
  {
    var at := Entry("ms", JInt(ms), NoMembers);
    var plain := Entry("utc", text, at);
    assert at.Find("us") == None && at.Find("quality") == None && at.Find("ms") == Some(JInt(ms));
    assert plain.Find("us") == None && plain.Find("quality") == None && plain.Find("ms") == Some(JInt(ms));
    assert Entry("us", JInt(us), plain).Find("quality") == None && Entry("quality", JInt(q), plain).Find("us") == None;
  }

  lemma {:induction false} HexRoundTrip(b: Bytes)
    ensures FromHex(Hex(b)) == Some(b)
  {
    if b != [] {
      HexRoundTrip(b[1..]);
      assert Hex(b)[2..] == Hex(b[1..]);
      assert b == [b[0]] + b[1..];
    }
  }

  lemma {:induction false} BitsRoundTrip(bits: seq<bool>)
    ensures BitsOf(BitText(bits)) == bits
  {
    if bits != [] {
      BitsRoundTrip(bits[1..]);
      assert BitText(bits)[1..] == BitText(bits[1..]);
    }
  }

  lemma {:induction false} KindFound(kinds: seq<ValueKind>, k: ValueKind)
    requires k in kinds
    ensures KindAmong(kinds, k.Text()) == Some(k)
  {
    if kinds[0] != k {
      assert kinds[0].Text() != k.Text();
      KindFound(kinds[1..], k);
    }
  }

  /** No structure inside `v` has the members of one of the log's own encodings. */
  predicate Unambiguous(v: Value, iso: (int, int) -> string)
    decreases v, 0
  {
    match v
    case List(items) => forall i :: 0 <= i < |items| ==> Unambiguous(items[i], iso)
    case Dict(members) => !Reserved(ToJsonMembers(members, iso)) && AllUnambiguous(members, iso)
    case _ => true
  }

  predicate AllUnambiguous(ms: Members<Value>, iso: (int, int) -> string)
    decreases ms, 1
  {
    match ms
    case NoMembers => true
    case Entry(_, v, rest) => Unambiguous(v, iso) && AllUnambiguous(rest, iso)
  }

  /** A value comes back from its JSON form exactly when no structure in it is mistaken for an encoding. */
  lemma {:induction false} JsonRoundTrip(v: Value, iso: (int, int) -> string)
    ensures FromJson(ToJson(v, iso)) == Some(v) <==> Unambiguous(v, iso)
    decreases v, 0
  {
    match v
    case List(items) =>
      JsonItemsRoundTrip(items, iso);
    case Dict(members) =>
      JsonMembersRoundTrip(members, iso);
    case _ =>
      BasicRoundTrip(v, iso);
  }

  lemma Skips<T>(n: string, v: T, rest: Members<T>, key: string)
    requires |n| != |key| || exists i :: 0 <= i < |n| && n[i] != key[i]
    ensures Entry(n, v, rest).Find(key) == rest.Find(key)
  {
  }

  /** Every value that is no list or structure survives. */
  lemma BasicRoundTrip(v: Value, iso: (int, int) -> string)
    requires !v.List? && !v.Dict?
    ensures FromJson(ToJson(v, iso)) == Some(v)
  {
    match v
    case OctetString(b) =>
      HexRoundTrip(b);
    case BitString(bits) =>
      BitsRoundTrip(bits);
      Skips("bits", JStr(BitText(bits)), NoMembers, "octets");
    case UtcTime(ms, us, q) =>
      UtcTimeRoundTrip(v, iso);
    case BinaryTime(ms) =>
      var j := ToJson(v, iso).members;
      SkipsAll(j, "utc", 0);
      Skips(j.name, j.value, j.rest, "ms");
    case AccessError(d, c, n) =>
      AccessErrorRoundTrip(v, iso);
    case RawValue(k, t) =>
      RawValueRoundTrip(v, iso);
    case _ =>
  }

  /** No member of a short dictionary is spelled `key`. */
  lemma SkipsAll(ms: Members<Json>, key: string, at: nat)
    requires ms.Entry? && ms.rest.Entry? && ms.rest.rest.NoMembers?
    requires at < |key|
    requires |ms.name| != |key| || ms.name[at] != key[at]
    requires |ms.rest.name| != |key| || ms.rest.name[at] != key[at]
    ensures ms.Find(key) == None
  {
    Skips(ms.name, ms.value, ms.rest, key);
    Skips(ms.rest.name, ms.rest.value, ms.rest.rest, key);
  }

  lemma UtcTimeRoundTrip(v: Value, iso: (int, int) -> string)
    requires v.UtcTime?
    ensures FromJson(ToJson(v, iso)) == Some(v)
  {
    var a := ToJson(v, iso).members;
    var b, c := a.rest, a.rest.rest;
    var d := c.rest;
    Skips(a.name, a.value, b, "ms");
    Skips(a.name, a.value, b, "us");
    Skips(a.name, a.value, b, "quality");
    assert b.name[0] == 'm' && "us"[0] == 'u';
    Skips(b.name, b.value, c, "us");
    Skips(b.name, b.value, c, "quality");
    Skips(c.name, c.value, d, "quality");
    assert a.Find("utc") == Some(a.value) && b.Find("ms") == Some(b.value);
    assert c.Find("us") == Some(c.value) && d.Find("quality") == Some(d.value);
  }

  lemma AccessErrorRoundTrip(v: Value, iso: (int, int) -> string)
    requires v.AccessError?
    ensures FromJson(ToJson(v, iso)) == Some(v)
  {
    var ms := ToJson(v, iso).members;
    Skips(ms.name, ms.value, ms.rest, "octets");
    Skips(ms.name, ms.value, ms.rest, "bits");
    Skips(ms.name, ms.value, ms.rest, "utc");
    Skips(ms.name, ms.value, ms.rest, "binary_time");
    var d := ms.value.members;
    var c, n := d.rest, d.rest.rest;
    Skips(d.name, d.value, c, "code");
    Skips(d.name, d.value, c, "name");
    assert c.name[0] == 'c' && "name"[0] == 'n';
    Skips(c.name, c.value, n, "name");
    assert d.Find("domain") == Some(d.value) && c.Find("code") == Some(c.value) && n.Find("name") == Some(n.value);
  }

  lemma RawValueRoundTrip(v: Value, iso: (int, int) -> string)
    requires v.RawValue?
    ensures FromJson(ToJson(v, iso)) == Some(v)
  {
    hide KindAmong;
    var ms := ToJson(v, iso).members;
    assert "utc"[0] == 'u' && "raw"[0] == 'r';
    SkipsAll(ms, "utc", 0);
    SkipsAll(ms, "binary_time", 0);
    Skips(ms.name, ms.value, ms.rest, "kind");
    assert v.kind in ALL_KINDS;
    KindFound(ALL_KINDS, v.kind);
  }

  lemma {:induction false} JsonItemsRoundTrip(vs: seq<Value>, iso: (int, int) -> string)
    ensures FromJsonItems(ToJsonItems(vs, iso)) == Some(vs) <==> forall i :: 0 <= i < |vs| ==> Unambiguous(vs[i], iso)
    decreases vs, 1
  {
    if vs != [] {
      JsonRoundTrip(vs[0], iso);
      JsonItemsRoundTrip(vs[1..], iso);
      var js := ToJsonItems(vs, iso);
      assert js[1..] == ToJsonItems(vs[1..], iso);
      assert (forall i :: 0 <= i < |vs| ==> Unambiguous(vs[i], iso)) <==>
             Unambiguous(vs[0], iso) && forall i :: 0 <= i < |vs[1..]| ==> Unambiguous(vs[1..][i], iso) by {
        assert forall i :: 0 < i < |vs| ==> vs[i] == vs[1..][i - 1];
      }
      assert vs == [vs[0]] + vs[1..];
    }
  }

  lemma {:induction false} JsonMembersRoundTrip(ms: Members<Value>, iso: (int, int) -> string)
    ensures FromJsonMembers(ToJsonMembers(ms, iso)) == Some(ms) <==> AllUnambiguous(ms, iso)
    decreases ms, 1
  {
    match ms
    case NoMembers =>
    case Entry(_, v, rest) =>
      JsonRoundTrip(v, iso);
      JsonMembersRoundTrip(rest, iso);
  }
}

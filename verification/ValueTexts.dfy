/** Checking values against the declared type, and the text a setting is written from. */
module ValueTexts {
  import opened Results
  import opened Octets
  import opened Values
  import opened Texts

  /** The declared type of a basic attribute. */
  datatype BasicSpec = BasicSpec(kind: ValueKind, size: Option<int>)

  /** Python's texts of floats and of the values that have no other text. */
  datatype Printing = Printing(float: real -> string, number: string -> Option<real>, other: Value -> string)

  /** A character in UTF-8 (RFC 3629, section 3). */
  function Utf8Char(c: char): (b: Bytes)
    ensures b != []
  {
    var n: int := c as int;
    var m := n / 64;
    var k := m / 64;
    if n < 0x80 then [n]
    else if n < 0x800 then [0xC0 + m, 0x80 + n % 64]
    else if n < 0x10000 then [0xE0 + k, 0x80 + m % 64, 0x80 + n % 64]
    else [0xF0 + k / 64, 0x80 + k % 64, 0x80 + m % 64, 0x80 + n % 64]
  }

  function Utf8(s: string): Bytes {
    if s == "" then [] else Utf8Char(s[0]) + Utf8(s[1..])
  }

  predicate BitChars(s: string) {
    forall c :: c in s ==> c == '0' || c == '1'
  }

  function Removed(s: string, c: char): string {
    if s == "" then "" else (if s[0] == c then "" else [s[0]]) + Removed(s[1..], c)
  }

  /** `bytes.fromhex` of a text with spaces and colons. */
  function OctetsOf(s: string): Option<Bytes> {
    FromHex(Removed(Removed(s, ' '), ':'))
  }

  function FittingInteger(spec: BasicSpec, i: int): Option<Value> {
    if spec.kind.IntegerKind? then
      var bits := if spec.size.Some? && spec.size.value in {8, 16, 32, 64} then spec.size.value else 64;
      var limit: int := Pow2(bits - 1);
      if -limit <= i < limit then Some(Int(i)) else None
    else
      var bits := if spec.size.Some? && spec.size.value > 0 then spec.size.value else 32;
      if 0 <= i < Pow2(if bits < 32 then bits else 32) then Some(Int(i)) else None
  }

  function FittingBits(spec: BasicSpec, bits: seq<bool>): Option<Value> {
    if spec.size.Some? && spec.size.value >= 0 && |bits| != spec.size.value then None else Some(BitString(bits))
  }

  function FittingOctets(spec: BasicSpec, b: Bytes): Option<Value> {
    var most := Abs(spec.size.GetOr(|b|));
    if most > 0 && |b| > most then None else Some(OctetString(b))
  }

  function FittingText(spec: BasicSpec, s: string): Option<Value> {
    var limit := Abs(spec.size.GetOr(0));
    if spec.kind.VisibleStringKind? && exists c :: c in s && !(' ' <= c <= '~') then None
    else if limit > 0 && |Utf8(s)| > limit then None
    else Some(Str(s))
  }

  /** `coerce`: the value as it is encoded; None for an `EncodeError`. */
  function Coerce(spec: BasicSpec, v: Value): Option<Value> {
    match (spec.kind, v)
    case (BooleanKind, Boolean(_)) => Some(v)
    case (IntegerKind, Int(i)) => FittingInteger(spec, i)
    case (UnsignedKind, Int(i)) => FittingInteger(spec, i)
    case (FloatKind, Int(_)) => Some(v)
    case (FloatKind, Float(_)) => Some(v)
    case (BitStringKind, BitString(bits)) => FittingBits(spec, bits)
    case (BitStringKind, Str(s)) => if BitChars(s) then FittingBits(spec, BitsOf(s)) else None
    case (OctetStringKind, OctetString(b)) => FittingOctets(spec, b)
    case (OctetStringKind, Str(s)) => if OctetsOf(s).Some? then FittingOctets(spec, OctetsOf(s).value) else None
    case (VisibleStringKind, Str(s)) => FittingText(spec, s)
    case (UnicodeStringKind, Str(s)) => FittingText(spec, s)
    case (UtcTimeKind, UtcTime(_, _, _)) => Some(v)
    case (BinaryTimeKind, BinaryTime(_)) => Some(v)
    case _ => None
  }

  /** A value of the declared type: it is encoded as it is. */
  predicate Fits(spec: BasicSpec, v: Value) {
    Coerce(spec, v) == Some(v)
  }

  /** In one pair of quotes of the same kind. */
  predicate Quoted(s: string) {
    |s| >= 2 && s[0] == s[|s| - 1] && (s[0] == '"' || s[0] == '\'')
  }

  /** `parse_text`; None for an `EncodeError`. */
  function ParseText(spec: BasicSpec, text: string, p: Printing): Option<Value> {
    var t := Strip(text);
    match spec.kind
    case BooleanKind =>
      var low := Lower(t);
      if low in {"true", "1", "on", "yes"} then Some(Boolean(true))
      else if low in {"false", "0", "off", "no"} then Some(Boolean(false))
      else None
    case IntegerKind => if IntegerValue(t).Some? then FittingInteger(spec, IntegerValue(t).value) else None
    case UnsignedKind => if IntegerValue(t).Some? then FittingInteger(spec, IntegerValue(t).value) else None
    case FloatKind => if p.number(t).Some? then Some(Float(p.number(t).value)) else None
    case BitStringKind => if t == "" || !BitChars(t) then None else FittingBits(spec, BitsOf(t))
    case OctetStringKind => if OctetsOf(t).Some? then FittingOctets(spec, OctetsOf(t).value) else None
    case VisibleStringKind => FittingText(spec, if Quoted(t) then t[1..|t| - 1] else t)
    case UnicodeStringKind => FittingText(spec, if Quoted(t) then t[1..|t| - 1] else t)
    case _ => None
  }

  function HexEscape(n: byte): string {
    "\\x" + Hex([n])
  }

  /** What stands for an octet inside the quotes of `repr`. */
  function EscapedOctet(n: byte, quote: char): string {
    if n == quote as int || n == '\\' as int then ['\\', n as char]
    else if n == 9 then "\\t" else if n == 10 then "\\n" else if n == 13 then "\\r"
    else if 32 <= n < 127 then [n as char]
    else HexEscape(n)
  }

  function Escaped(b: Bytes, quote: char): string {
    if b == [] then "" else EscapedOctet(b[0], quote) + Escaped(b[1..], quote)
  }

  /** `str()` of octets. */
  function OctetsText(b: Bytes): string {
    var quote := if '\'' as int in b && '"' as int !in b then '"' else '\'';
    "b" + [quote] + Escaped(b, quote) + [quote]
  }

  /** The text a restore makes of a setting's value. */
  function TextOf(v: Value, p: Printing): string {
    match v
    case Boolean(b) => if b then "true" else "false"
    case Int(i) => IntegerText(i)
    case Float(r) => p.float(r)
    case Str(s) => s
    case BitString(bits) => BitText(bits)
    case OctetString(b) => OctetsText(b)
    case _ => p.other(v)
  }

  // ---------------------------------------------------------------- what fits

  /** An integer is accepted exactly when its two's complement fits the octets of the declared size, eight of them
      where no other size is declared. */
  lemma SignedFits(spec: BasicSpec, i: int, b: Bytes)
    requires spec.kind.IntegerKind?
    ensures var octets := if spec.size.Some? && spec.size.value in {8, 16, 32} then spec.size.value / 8 else 8;
            && (Coerce(spec, Int(i)).Some? ==> FitsSigned(i, octets) && FromSigned(ToSigned(i, octets)) == i)
            && (|b| == octets ==> Coerce(spec, Int(FromSigned(b))).Some?)
  {
    hide Coerce, FitsSigned, ToSigned, FromSigned;
    var octets := if spec.size.Some? && spec.size.value in {8, 16, 32} then spec.size.value / 8 else 8;
    SignedRange(spec, i);
    if FitsSigned(i, octets) {
      FromToSigned(i, octets);
    }
    if |b| == octets {
      SignBit(b);
      SignedRange(spec, FromSigned(b));
    }
  }

  lemma SignedRange(spec: BasicSpec, i: int)
    requires spec.kind.IntegerKind?
    ensures Coerce(spec, Int(i)).Some? <==>
              FitsSigned(i, if spec.size.Some? && spec.size.value in {8, 16, 32} then spec.size.value / 8 else 8)
  {
    hide Pow2, Pow256;
    var octets := if spec.size.Some? && spec.size.value in {8, 16, 32} then spec.size.value / 8 else 8;
    Pow2Octets(octets);
    HalfPow2(8 * octets);
  }

  /** What else fits, a size of nothing or 0 being no limit but for bit strings, and a negative one a maximum. */
  lemma OthersFit(kind: ValueKind, size: Option<int>, s: string, bits: seq<bool>, b: Bytes)
    ensures var spec := BasicSpec(kind, size);
            match kind
            case BitStringKind =>
              && (Fits(spec, BitString(bits)) <==> size.None? || size.value < 0 || size.value == |bits|)
              && (Coerce(spec, Str(s)).Some? <==> BitChars(s) && Fits(spec, BitString(BitsOf(s))))
            case OctetStringKind =>
              && (Fits(spec, OctetString(b)) <==> size.None? || size.value == 0 || -|b| >= size.value || size.value >= |b|)
              && (Coerce(spec, Str(s)).Some? <==> OctetsOf(s).Some? && Fits(spec, OctetString(OctetsOf(s).value)))
            case VisibleStringKind =>
              Fits(spec, Str(s)) <==>
                && (forall c :: c in s ==> 32 <= c as int <= 126)
                && (size.None? || size.value == 0 || -|Utf8(s)| >= size.value || size.value >= |Utf8(s)|)
            case UnicodeStringKind =>
              Fits(spec, Str(s)) <==> size.None? || size.value == 0 || -|Utf8(s)| >= size.value || size.value >= |Utf8(s)|
            case FloatKind => forall v: Value :: Coerce(spec, v).Some? <==> v.Int? || v.Float?
            case BooleanKind => forall v: Value :: Coerce(spec, v).Some? <==> v.Boolean?
            case UtcTimeKind => forall v: Value :: Coerce(spec, v).Some? <==> v.UtcTime?
            case BinaryTimeKind => forall v: Value :: Coerce(spec, v).Some? <==> v.BinaryTime?
            case _ => true
  {
  }

  lemma HalfPow2(n: nat)
    requires n > 0
    ensures 2 * Pow2(n - 1) == Pow2(n)
  {
  }

  /** An unsigned one when it has at most as many bits as declared, or 32. */
  lemma UnsignedFits(spec: BasicSpec, i: int)
    requires spec.kind.UnsignedKind?
    ensures Coerce(spec, Int(i)).Some? <==>
              i >= 0 && BitLength(i) <= if spec.size.Some? && 0 < spec.size.value < 32 then spec.size.value else 32
  {
    if i >= 0 {
      var bits := if spec.size.Some? && 0 < spec.size.value < 32 then spec.size.value else 32;
      hide Pow2, BitLength;
      BitLengthBounds(i);
      if BitLength(i) <= bits {
        Pow2Monotonic(BitLength(i), bits);
      } else {
        Pow2Monotonic(bits, BitLength(i) - 1);
        SomeBits(i);
      }
    }
  }

  lemma SomeBits(n: nat)
    ensures BitLength(n) > 0 ==> n > 0
  {
  }

  /** The code point a text in UTF-8 begins with, in the shortest form there is, and the octets it takes. */
  function CodePoint(b: Bytes): Option<(nat, nat)> {
    var lead := if b == [] then 0xFF else b[0];
    var more := if lead < 0x80 then 0 else if 0xC0 <= lead < 0xE0 then 1 else if 0xE0 <= lead < 0xF0 then 2
                else if 0xF0 <= lead < 0xF8 then 3 else 4;
    if more == 4 || |b| <= more || exists i :: 1 <= i <= more && !(0x80 <= b[i] < 0xC0) then None
    else if more == 0 then Some((lead, 1))
    else if more == 1 then AtLeast(0x80, Joined(lead - 0xC0, b[1]), 2)
    else if more == 2 then AtLeast(0x800, Joined(Joined(lead - 0xE0, b[1]), b[2]), 3)
    else AtLeast(0x10000, Joined(Joined(Joined(lead - 0xF0, b[1]), b[2]), b[3]), 4)
  }

  /** Six more bits, from an octet that continues a character. */
  function Joined(code: nat, b: byte): nat
    requires 0x80 <= b
  {
    code * 64 + b - 0x80
  }

  function AtLeast(least: nat, code: nat, octets: nat): Option<(nat, nat)> {
    if code < least then None else Some((code, octets))
  }

  lemma CharIsRead(c: char, rest: Bytes)
    ensures CodePoint(Utf8Char(c) + rest) == Some((c as nat, |Utf8Char(c)|))
  {
    var n, b: Bytes := c as nat, Utf8Char(c) + rest;
    var m := n / 64;
    var k := m / 64;
    if n < 0x80 {
      assert b[0] == n;
    } else if n < 0x800 {
      assert b[0] == 0xC0 + m && b[1] == 0x80 + n % 64;
    } else if n < 0x10000 {
      assert b[0] == 0xE0 + k && b[1] == 0x80 + m % 64 && b[2] == 0x80 + n % 64;
    } else {
      assert b[0] == 0xF0 + k / 64 && b[1] == 0x80 + k % 64 && b[2] == 0x80 + m % 64 && b[3] == 0x80 + n % 64;
    }
  }

  function CodePoints(b: Bytes): Option<seq<nat>>
    decreases |b|
  {
    if b == [] then Some([])
    else
      match CodePoint(b)
      case None => None
      case Some((code, octets)) =>
        if 0 < octets <= |b| && CodePoints(b[octets..]).Some? then Some([code] + CodePoints(b[octets..]).value) else None
  }

  function Codes(s: string): seq<nat> {
    if s == "" then [] else [s[0] as nat] + Codes(s[1..])
  }

  /** The octets a text is measured by are those it is read back from. */
  lemma {:induction false} Utf8RoundTrip(s: string)
    ensures CodePoints(Utf8(s)) == Some(Codes(s))
  {
    hide CodePoint, Utf8Char;
    if s != "" {
      var c, rest := Utf8Char(s[0]), Utf8(s[1..]);
      CharIsRead(s[0], rest);
      Utf8RoundTrip(s[1..]);
      assert (c + rest)[|c|..] == rest;
    }
  }

  // ---------------------------------------------------------------- what comes back

  /** Whether a value of the declared type is spelled by its text. */
  predicate SpelledByText(spec: BasicSpec, v: Value, p: Printing) {
    match v
    case Boolean(_) => true
    case Int(_) => !spec.kind.FloatKind?
    case Float(r) => p.number(Strip(p.float(r))) == Some(r)
    case BitString(bits) => bits != []
    case Str(s) => (s == "" || (!IsSpace(s[0]) && !IsSpace(s[|s| - 1]))) && !Quoted(s)
    case _ => false
  }

  /** Whatever is read from text is of the declared type. */
  lemma ParsedFits(spec: BasicSpec, text: string, p: Printing)
    ensures ParseText(spec, text, p).Some? ==> Fits(spec, ParseText(spec, text, p).value)
  {
  }

  /** What `coerce` gives is of the declared type, and differs from what it got only for text. */
  lemma CoercedFits(spec: BasicSpec, v: Value)
    ensures Coerce(spec, v).Some? ==> Fits(spec, Coerce(spec, v).value)
    ensures Coerce(spec, v).Some? && Coerce(spec, v).value != v ==> v.Str? && !Coerce(spec, v).value.Str?
  {
  }

  lemma {:induction false} BitTextIsBits(bits: seq<bool>)
    ensures BitChars(BitText(bits)) && |BitText(bits)| == |bits|
  {
    if bits != [] {
      BitTextIsBits(bits[1..]);
    }
  }

  lemma BitsComeBack(spec: BasicSpec, bits: seq<bool>, p: Printing)
    requires spec.kind.BitStringKind? && Fits(spec, BitString(bits))
    ensures ParseText(spec, BitText(bits), p) == Some(BitString(bits)) <==> bits != []
  {
    var t := BitText(bits);
    BitTextIsBits(bits);
    BitsRoundTrip(bits);
    StripKeeps(t);
    if bits != [] {
      assert t[0] in t && t[|t| - 1] in t;
    }
  }

  /** What is between the quotes, read as octets: no quote of that kind, and nothing that is not printable. */
  function Unescaped(s: string, quote: char): Option<Bytes> {
    if s == "" then Some([])
    else if s[0] == '\\' then
      if |s| >= 4 && s[1] == 'x' && FromHex(s[2..4]).Some? then Before(FromHex(s[2..4]).value, Unescaped(s[4..], quote))
      else if |s| < 2 then None
      else if s[1] == 't' then Before([9], Unescaped(s[2..], quote))
      else if s[1] == 'n' then Before([10], Unescaped(s[2..], quote))
      else if s[1] == 'r' then Before([13], Unescaped(s[2..], quote))
      else if s[1] == quote || s[1] == '\\' then Before([s[1] as int % 256], Unescaped(s[2..], quote))
      else None
    else if s[0] == quote || !(' ' <= s[0] <= '~') then None
    else Before([s[0] as int], Unescaped(s[1..], quote))
  }

  function Before(b: Bytes, rest: Option<Bytes>): Option<Bytes> {
    if rest.Some? then Some(b + rest.value) else None
  }

  lemma OctetUnescaped(n: byte, quote: char, rest: string)
    requires quote in "\"'"
    ensures Unescaped(EscapedOctet(n, quote) + rest, quote) == Before([n], Unescaped(rest, quote))
  {
    var e := EscapedOctet(n, quote);
    var s := e + rest;
    HexRoundTrip([n]);
    assert s[|e|..] == rest && forall i :: 0 <= i < |e| ==> s[i] == e[i];
    if e == HexEscape(n) {
      assert s[2..4] == Hex([n]);
    }
  }

  lemma {:induction false} EscapedRoundTrip(b: Bytes, quote: char)
    requires quote in "\"'"
    ensures Unescaped(Escaped(b, quote), quote) == Some(b)
  {
    if b != [] {
      hide Unescaped, EscapedOctet;
      EscapedRoundTrip(b[1..], quote);
      OctetUnescaped(b[0], quote, Escaped(b[1..], quote));
      assert b == [b[0]] + b[1..];
    }
  }

  /** The text of octets stands for them; double quotes are used where only single ones would need escaping. */
  lemma OctetsTextRoundTrip(b: Bytes)
    ensures var t := OctetsText(b);
            && |t| >= 3 && t[0] == 'b' && t[|t| - 1] == t[1] && Unescaped(t[2..|t| - 1], t[1]) == Some(b)
            && t[1] == (if '\'' as int in b && '"' as int !in b then '"' else '\'')
  {
    hide Unescaped, Escaped;
    var quote := if '\'' as int in b && '"' as int !in b then '"' else '\'';
    EscapedRoundTrip(b, quote);
    var t := OctetsText(b);
    assert t[2..|t| - 1] == Escaped(b, quote);
  }

  /** Octets become the text of a Python bytes object, which is no list of hexadecimal digits. */
  lemma OctetsAreRefused(spec: BasicSpec, b: Bytes, p: Printing)
    requires spec.kind.OctetStringKind?
    ensures ParseText(spec, OctetsText(b), p) == None
  {
    hide Strip, FittingOctets, Fits;
    var t := OctetsText(b);
    assert t[0] == 'b' && (t[1] == '\'' || t[1] == '"') && t[|t| - 1] == t[1];
    StripKeeps(t);
    var bare := Removed(t, ' ');
    assert Removed(t, ' ') == [t[0]] + Removed(t[1..], ' ') && Removed(t[1..], ' ') == [t[1]] + Removed(t[1..][1..], ' ');
    assert bare[0] == t[0] && bare[1] == t[1];
    var digits := Removed(bare, ':');
    assert digits == [bare[0]] + Removed(bare[1..], ':') && Removed(bare[1..], ':') == [bare[1]] + Removed(bare[1..][1..], ':');
    assert digits[1] == t[1] && HexValue(digits[1]).None?;
  }

  lemma TextComesBack(spec: BasicSpec, s: string, p: Printing)
    requires (spec.kind.VisibleStringKind? || spec.kind.UnicodeStringKind?) && Fits(spec, Str(s))
    ensures ParseText(spec, s, p) == Some(Str(s)) <==> SpelledByText(spec, Str(s), p)
  {
    var t := Strip(s);
    StripKeeps(s);
    var u := if Quoted(t) then t[1..|t| - 1] else t;
    assert |u| <= |t| && (Quoted(t) ==> |u| < |t|);
  }

  /** In quotes of either kind every text that fits comes back, quotes and white space included. */
  lemma QuotedComesBack(spec: BasicSpec, s: string, quote: char, p: Printing)
    requires (spec.kind.VisibleStringKind? || spec.kind.UnicodeStringKind?) && Fits(spec, Str(s)) && quote in "\"'"
    ensures ParseText(spec, [quote] + s + [quote], p) == Some(Str(s))
  {
    hide FittingText;
    var t := [quote] + s + [quote];
    StripKeeps(t);
    assert t[1..|t| - 1] == s;
  }

  /** Octets that fit come back from their hexadecimal digits, spaces and colons between them or not. */
  lemma OctetsComeBack(spec: BasicSpec, b: Bytes, text: string, p: Printing)
    requires spec.kind.OctetStringKind? && Fits(spec, OctetString(b)) && Removed(Removed(Strip(text), ' '), ':') == Hex(b)
    ensures ParseText(spec, text, p) == Some(OctetString(b))
  {
    HexRoundTrip(b);
  }

  /** A setting's value comes back from the text a restore makes of it exactly when it is of the declared
      type and is a boolean, an integer, a float that Python's text spells, a bit string that is not empty,
      or a string with no white space at its ends and not in quotes. Octets and times never do. */
  lemma TextRoundTrip(spec: BasicSpec, v: Value, p: Printing)
    ensures ParseText(spec, TextOf(v, p), p) == Some(v) <==> Fits(spec, v) && SpelledByText(spec, v, p)
  {
    hide Strip, Lower, IntegerValue, IntegerText, OctetsOf, BitText, OctetsText, BitChars, BitsOf, Utf8, Pow2, Quoted, Removed;
    ParsedFits(spec, TextOf(v, p), p);
    if Fits(spec, v) {
      match v {
        case Boolean(b) =>
          BooleanComesBack(b);
        case Int(i) =>
          IntegerRoundTrip(i);
        case BitString(bits) =>
          BitsComeBack(spec, bits, p);
        case OctetString(b) =>
          OctetsAreRefused(spec, b, p);
        case Str(s) =>
          TextComesBack(spec, s, p);
        case _ =>
      }
    }
  }

  lemma BooleanComesBack(b: bool)
    ensures Lower(Strip(if b then "true" else "false")) == if b then "true" else "false"
  {
    NothingToStrip("true");
    NothingToStrip("false");
    assert Lower("true") == "t" + Lower("rue") && Lower("rue") == "r" + Lower("ue") && Lower("ue") == "u" + Lower("e");
    assert Lower("e") == "e" + Lower("");
    assert Lower("false") == "f" + Lower("alse") && Lower("alse") == "a" + Lower("lse") && Lower("lse") == "l" + Lower("se");
    assert Lower("se") == "s" + Lower("e");
  }
}

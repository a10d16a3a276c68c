/**
 The ISO stack below MMS: TPKT (RFC 1006), COTP (X.224 class 0), session (X.225), presentation
 (ISO 8823-1), ACSE (ISO 8650-1) and the MMS initiate and conclude PDUs (ISO 9506-2).
 Builders are expressions over octets. Each parser that loops is a method proved against a
 recursive function over what is left to read.
 */
module Iso {
  import opened Results
  import opened Octets
  import opened Ber

  /** `ValueError` from a builder, or `IsoError` from the parser of a layer. */
  datatype IsoError = InvalidValue | TpktError | CotpError | SessionError | PresentationError | AcseError | MmsError

  /** `except BerError as e: raise IsoError(layer, ...)`. */
  function Wrapped<T>(r: Result<T, BerError>, layer: IsoError): Result<T, IsoError> {
    match r
    case Ok(v) => Ok(v)
    case Err(_) => Err(layer)
  }

  function U16(n: nat): Bytes
    requires n <= 0xFFFF
  {
    [n / 256, n % 256]
  }

  function Word(high: nat, low: nat): nat {
    high * 256 + low
  }

  // ---------------------------------------------------------------- TPKT

  const TPKT_HEADER: nat := 4

  function Tpkt(payload: Bytes): Result<Bytes, IsoError> {
    var n := |payload| + TPKT_HEADER;
    if n > 0xFFFF then Err(InvalidValue) else Ok([3, 0] + U16(n) + payload)
  }

  function TpktLength(header: Bytes): Result<nat, IsoError> {
    if |header| < TPKT_HEADER || header[0] != 3 then
      Err(TpktError)
    else
      var n := Word(header[2], header[3]);
      if n < TPKT_HEADER + 2 then Err(TpktError) else Ok(n)
  }

  // ---------------------------------------------------------------- COTP

  const COTP_CR: byte := 0xE0
  const COTP_CC: byte := 0xD0
  const COTP_DR: byte := 0x80
  const COTP_DC: byte := 0xC0
  const COTP_DT: byte := 0xF0
  const COTP_ER: byte := 0x70
  const COTP_TPDU_SIZE: byte := 0xC0
  const COTP_CALLING_TSEL: byte := 0xC1
  const COTP_CALLED_TSEL: byte := 0xC2

  predicate IsOctet(n: int) {
    0 <= n < 256
  }

  /** A selector parameter, left out when the selector is empty. */
  function TselParam(code: byte, tsel: Bytes): Bytes
    requires |tsel| < 256
  {
    if tsel == [] then [] else [code, |tsel|] + tsel
  }

  function CotpCr(srcRef: int, tpduSizeCode: int, callingTsel: Bytes, calledTsel: Bytes): Result<Bytes, IsoError> {
    if !IsOctet(tpduSizeCode) || !(0 <= srcRef <= 0xFFFF) || |callingTsel| > 255 || |calledTsel| > 255 then
      Err(InvalidValue)
    else
      var vars := [COTP_TPDU_SIZE, 1, tpduSizeCode]
                  + TselParam(COTP_CALLED_TSEL, calledTsel) + TselParam(COTP_CALLING_TSEL, callingTsel);
      var fixed := [COTP_CR, 0, 0] + U16(srcRef) + [0];
      if |fixed| + |vars| > 255 then Err(InvalidValue) else Ok([|fixed| + |vars|] + fixed + vars)
  }

  function CotpDt(payload: Bytes, eot: bool): Bytes {
    [2, COTP_DT, if eot then 0x80 else 0] + payload
  }

  datatype CotpPdu = CotpPdu(
    code: byte,
    dstRef: Option<nat>, srcRef: Option<nat>, classOption: Option<byte>,
    reason: Option<byte>, params: map<byte, Bytes>, userData: Bytes, eot: bool)

  /** The parameters of `s`, added to those already read. */
  function CotpParams(s: Bytes, read: map<byte, Bytes>): Result<map<byte, Bytes>, IsoError>
    decreases |s|
  {
    if s == [] then
      Ok(read)
    else if |s| < 2 || 2 + s[1] > |s| then
      Err(CotpError)
    else
      CotpParams(s[2 + s[1]..], read[s[0] := s[2..2 + s[1]]])
  }

  method DecodeCotpParams(data: Bytes) returns (r: Result<map<byte, Bytes>, IsoError>)
    ensures r == CotpParams(data, map[])
  {
    var out: map<byte, Bytes> := map[];
    var i := 0;
    ghost var rest := data;
    while i < |data|
      invariant i <= |data| && rest == data[i..]
      invariant CotpParams(data, map[]) == CotpParams(rest, out)
    {
      if i + 2 > |data| {
        return Err(CotpError);
      }
      var code, n := data[i], data[i + 1];
      if i + 2 + n > |data| {
        return Err(CotpError);
      }
      assert rest[2..2 + n] == data[i + 2..i + 2 + n];
      rest := rest[2 + n..];
      out := out[code := data[i + 2..i + 2 + n]];
      i := i + 2 + n;
    }
    r := Ok(out);
  }

  function ParseCotp(tpdu: Bytes): Result<CotpPdu, IsoError> {
    if |tpdu| < 2 || tpdu[0] == 0 || tpdu[0] + 1 > |tpdu| || tpdu[0] == 0xFF then
      Err(CotpError)
    else
      var header := tpdu[1..tpdu[0] + 1];
      var data := tpdu[tpdu[0] + 1..];
      var code: byte := header[0] / 16 * 16;
      var plain := CotpPdu(code, None, None, None, None, map[], [], true);
      if code == COTP_CR || code == COTP_CC then
        if |header| < 6 then Err(CotpError) else
        var params :- CotpParams(header[6..], map[]);
        Ok(plain.(dstRef := Some(FromBytes(header[1..3])), srcRef := Some(FromBytes(header[3..5])),
                  classOption := Some(header[5]), params := params, userData := data))
      else if code == COTP_DR then
        if |header| < 6 then Err(CotpError) else
        var params :- CotpParams(header[6..], map[]);
        Ok(plain.(dstRef := Some(FromBytes(header[1..3])), srcRef := Some(FromBytes(header[3..5])),
                  reason := Some(header[5]), params := params, userData := data))
      else if code == COTP_ER then
        if |header| < 4 then Err(CotpError) else
        var params :- CotpParams(header[4..], map[]);
        Ok(plain.(dstRef := Some(FromBytes(header[1..3])), reason := Some(header[3]), params := params))
      else if code == COTP_DT then
        if |header| < 2 then Err(CotpError) else
        Ok(plain.(eot := header[1] >= 0x80, userData := data))
      else if code == COTP_DC then
        Ok(plain.(dstRef := if |header| >= 3 then Some(FromBytes(header[1..3])) else None))
      else
        Ok(plain.(userData := data))
  }

  // ---------------------------------------------------------------- session

  const SPDU_DT: byte := 1
  const SPDU_FN: byte := 9
  const SPDU_RF: byte := 12
  const SPDU_CN: byte := 13
  const SPDU_AC: byte := 14
  const SPDU_AB: byte := 25
  const PI_CONNECT_ACCEPT_ITEM: byte := 5
  const PI_TRANSPORT_DISCONNECT: byte := 17
  const PI_PROTOCOL_OPTIONS: byte := 19
  const PI_SESSION_REQUIREMENTS: byte := 20
  const PI_VERSION_NUMBER: byte := 22
  const PI_REASON_CODE: byte := 50
  const PI_CALLING_SSEL: byte := 51
  const PI_CALLED_SSEL: byte := 52
  const PGI_USER_DATA: byte := 193
  const PGI_EXTENDED_USER_DATA: byte := 194

  /** Code, length (two forms) and value: the shape of both a parameter and an SPDU. */
  function SessionParam(code: byte, value: Bytes): Result<Bytes, IsoError> {
    var n := |value|;
    if n < 0xFF then Ok([code, n] + value)
    else if n > 0xFFFF then Err(InvalidValue)
    else Ok([code, 0xFF] + U16(n) + value)
  }

  function SselParam(code: byte, ssel: Bytes): Result<Bytes, IsoError> {
    if ssel == [] then Ok([]) else SessionParam(code, ssel)
  }

  function SessionConnect(userData: Bytes, callingSsel: Bytes, calledSsel: Bytes): Result<Bytes, IsoError> {
    var options :- SessionParam(PI_PROTOCOL_OPTIONS, [0]);
    var version :- SessionParam(PI_VERSION_NUMBER, [2]);
    var item :- SessionParam(PI_CONNECT_ACCEPT_ITEM, options + version);
    var requirements :- SessionParam(PI_SESSION_REQUIREMENTS, [0, 2]);
    var calling :- SselParam(PI_CALLING_SSEL, callingSsel);
    var called :- SselParam(PI_CALLED_SSEL, calledSsel);
    var user :- SessionParam(PGI_USER_DATA, userData);
    SessionParam(SPDU_CN, item + requirements + calling + called + user)
  }

  function SessionData(userData: Bytes): Bytes {
    [SPDU_DT, 0, SPDU_DT, 0] + userData
  }

  function SessionFinish(userData: Bytes): Result<Bytes, IsoError> {
    var user :- SessionParam(PGI_USER_DATA, userData);
    SessionParam(SPDU_FN, user)
  }

  function SessionAbort(userData: Bytes): Result<Bytes, IsoError> {
    var disconnect :- SessionParam(PI_TRANSPORT_DISCONNECT, [0x0b]);
    var user :- SessionParam(PGI_USER_DATA, userData);
    SessionParam(SPDU_AB, disconnect + user)
  }

  datatype Param = Param(code: byte, value: Bytes)

  datatype Spdu = Spdu(si: byte, params: seq<Param>, userData: Bytes) {
    function Value(code: byte): Option<Bytes> {
      FirstParam(params, code)
    }
  }

  function FirstParam(params: seq<Param>, code: byte): Option<Bytes> {
    if params == [] then None
    else if params[0].code == code then Some(params[0].value)
    else FirstParam(params[1..], code)
  }

  /** Code, value length and header length of a parameter or SPDU whose value fits in `s`. */
  function ParamHeader(s: Bytes): (r: Result<(byte, nat, nat), IsoError>)
    ensures r.Ok? ==> 2 <= r.value.2 && r.value.2 + r.value.1 <= |s|
  {
    if |s| < 2 then
      Err(SessionError)
    else if s[1] != 0xFF then
      if 2 + s[1] > |s| then Err(SessionError) else Ok((s[0], s[1], 2))
    else if |s| < 4 then
      Err(SessionError)
    else
      var n := Word(s[2], s[3]);
      if 4 + n > |s| then Err(SessionError) else Ok((s[0], n, 4))
  }

  function PrependedParams(ps: seq<Param>, r: Result<seq<Param>, IsoError>): Result<seq<Param>, IsoError> {
    match r
    case Ok(v) => Ok(ps + v)
    case Err(e) => Err(e)
  }

  function SessionParams(s: Bytes): Result<seq<Param>, IsoError>
    decreases |s|
  {
    if s == [] then
      Ok([])
    else
      match ParamHeader(s)
      case Err(e) => Err(e)
      case Ok((code, n, h)) => PrependedParams([Param(code, s[h..h + n])], SessionParams(s[h + n..]))
  }

  /** Code, value length and the offset of the value, for the header at `offset`. */
  method DecodeHeader(data: Bytes, offset: nat) returns (r: Result<(byte, nat, nat), IsoError>)
    requires offset <= |data|
    ensures r == match ParamHeader(data[offset..])
                 case Err(e) => Err(e)
                 case Ok((code, n, h)) => Ok((code, n, offset + h))
  {
    if offset + 2 > |data| {
      return Err(SessionError);
    }
    var code := data[offset];
    var n: nat := data[offset + 1];
    var start := offset + 2;
    if n == 0xFF {
      if start + 2 > |data| {
        return Err(SessionError);
      }
      n := Word(data[start], data[start + 1]);
      start := start + 2;
    }
    if start + n > |data| {
      return Err(SessionError);
    }
    r := Ok((code, n, start));
  }

  method DecodeSessionParams(data: Bytes) returns (r: Result<seq<Param>, IsoError>)
    ensures r == SessionParams(data)
  {
    hide ParamHeader;
    var out: seq<Param> := [];
    var i := 0;
    ghost var rest := data;
    assert PrependedParams([], SessionParams(data)) == SessionParams(data) by {
      assert forall v: seq<Param> :: [] + v == v;
    }
    while i < |data|
      invariant i <= |data| && rest == data[i..]
      invariant SessionParams(data) == PrependedParams(out, SessionParams(rest))
    {
      var header := DecodeHeader(data, i);
      if header.Err? {
        return Err(header.error);
      }
      var (code, n, start) := header.value;
      ParamsStep(rest, out);
      assert rest[start - i..start - i + n] == data[start..start + n];
      out := out + [Param(code, data[start..start + n])];
      rest := rest[start - i + n..];
      i := start + n;
    }
    assert out + [] == out;
    r := Ok(out);
  }

  lemma ParamsStep(s: Bytes, out: seq<Param>)
    requires s != [] && ParamHeader(s).Ok?
    ensures var (code, n, h) := ParamHeader(s).value;
            PrependedParams(out, SessionParams(s)) ==
            PrependedParams(out + [Param(code, s[h..h + n])], SessionParams(s[h + n..]))
  {
    var (code, n, h) := ParamHeader(s).value;
    var p := Param(code, s[h..h + n]);
    var rest := SessionParams(s[h + n..]);
    assert rest.Ok? ==> out + ([p] + rest.value) == (out + [p]) + rest.value;
  }

  /** The user information of an SPDU other than DATA TRANSFER. */
  function SpduUserData(si: byte, params: seq<Param>): Bytes {
    var user := match FirstParam(params, PGI_USER_DATA)
      case Some(v) => Some(v)
      case None => FirstParam(params, PGI_EXTENDED_USER_DATA);
    var reason := FirstParam(params, PI_REASON_CODE);
    if si == SPDU_RF && reason.Some? && |reason.value| > 1 then reason.value[1..] else user.GetOr([])
  }

  function ParseSpdu(data: Bytes): Result<Spdu, IsoError> {
    var (si, n, off) :- ParamHeader(data);
    if si == SPDU_DT then
      if n == 0 && off < |data| && data[off] == SPDU_DT then
        var (_, n2, h2) :- ParamHeader(data[off..]);
        var params :- SessionParams(data[off + h2..off + h2 + n2]);
        Ok(Spdu(SPDU_DT, params, data[off + h2 + n2..]))
      else
        var params :- SessionParams(data[off..off + n]);
        Ok(Spdu(SPDU_DT, params, data[off + n..]))
    else
      var params :- SessionParams(data[off..off + n]);
      Ok(Spdu(si, params, SpduUserData(si, params)))
  }

  // ---------------------------------------------------------------- presentation

  const ACSE_CONTEXT_ID: int := 1
  const MMS_CONTEXT_ID: int := 3
  const ACSE_ABSTRACT_SYNTAX: seq<int> := [2, 2, 1, 0, 1]
  const BER_TRANSFER_SYNTAX: seq<int> := [2, 1, 1]
  const MMS_ABSTRACT_SYNTAX: seq<int> := [1, 0, 9506, 2, 1]
  const MMS_APPLICATION_CONTEXT: seq<int> := [1, 0, 9506, 2, 3]

  /** An OBJECT IDENTIFIER whose arcs the program writes itself. */
  function KnownOid(arcs: seq<int>): Bytes
    requires OidAccepted(arcs)
  {
    Tagged(0x06, SubIdOctets(SubIds(arcs)))
  }

  function PresentationUserData(contextId: int, payload: Bytes): Bytes {
    var pdv := Integer(contextId, 0x02) + Tagged(0xA0, payload);
    Tagged(0x61, Tagged(0x30, pdv))
  }

  function OptionalSelector(tag: byte, selector: Bytes): Bytes {
    if selector == [] then [] else Tagged(tag, selector)
  }

  lemma SyntaxesAccepted()
    ensures OidAccepted(BER_TRANSFER_SYNTAX) && OidAccepted(ACSE_ABSTRACT_SYNTAX) && OidAccepted(MMS_ABSTRACT_SYNTAX)
  {
  }

  function PresentationContextList(): Bytes {
    SyntaxesAccepted();
    var ts := Tagged(0x30, KnownOid(BER_TRANSFER_SYNTAX));
    Tagged(0x30, Integer(ACSE_CONTEXT_ID, 0x02) + KnownOid(ACSE_ABSTRACT_SYNTAX) + ts)
    + Tagged(0x30, Integer(MMS_CONTEXT_ID, 0x02) + KnownOid(MMS_ABSTRACT_SYNTAX) + ts)
  }

  function PresentationNormal(acse: Bytes, callingPsel: Bytes, calledPsel: Bytes): Bytes {
    OptionalSelector(0x81, callingPsel) + OptionalSelector(0x82, calledPsel)
    + Tagged(0xA4, PresentationContextList())
    + PresentationUserData(ACSE_CONTEXT_ID, acse)
  }

  function PresentationCp(acse: Bytes, callingPsel: Bytes, calledPsel: Bytes): Bytes {
    var mode := Tagged(0xA0, Tagged(0x80, [1]));
    Tagged(0x31, mode + Tagged(0xA2, PresentationNormal(acse, callingPsel, calledPsel)))
  }

  function PresentationAru(acse: Bytes, contextId: int): Bytes {
    Tagged(0xA0, PresentationUserData(contextId, acse))
  }

  datatype Pdv = Pdv(context: Option<int>, data: Bytes)

  datatype PpduKind = CPA | CPR | ARU | ARP

  datatype PresentationResponse = PresentationResponse(
    kind: PpduKind, respondingPsel: Option<Bytes>, contextResults: seq<(int, Option<int>)>,
    providerReason: Option<int>, abortReason: Option<int>, userData: seq<Pdv>)
  {
    function Apdu(contextId: Option<int>): Option<Bytes> {
      match FirstPdv(userData, contextId)
      case Some(data) => Some(data)
      case None => if userData != [] then Some(userData[0].data) else None
    }
  }

  function FirstPdv(userData: seq<Pdv>, contextId: Option<int>): Option<Bytes> {
    if userData == [] then None
    else if userData[0].context == contextId || userData[0].context == None then Some(userData[0].data)
    else FirstPdv(userData[1..], contextId)
  }

  predicate IsDataValue(f: Tlv) {
    f.cls == Context && f.number <= 2
  }

  /** Context id and data of the fields of one PDV-list, later fields replacing earlier ones. */
  function PdvFields(fs: seq<Tlv>, context: Option<int>, data: Option<Bytes>): Result<(Option<int>, Option<Bytes>), BerError> {
    if fs == [] then
      Ok((context, data))
    else if fs[0].Is(Universal, 2) then
      var n :- fs[0].AsInt();
      PdvFields(fs[1..], Some(n), data)
    else
      PdvFields(fs[1..], context, if IsDataValue(fs[0]) then Some(fs[0].value) else data)
  }

  function PdvOf(t: Tlv): Result<Pdv, IsoError> {
    if !t.Is(Universal, 16) then
      Err(PresentationError)
    else
      var fs :- Wrapped(t.Children(), PresentationError);
      var (context, data) :- Wrapped(PdvFields(fs, None, None), PresentationError);
      if data.None? then Err(PresentationError) else Ok(Pdv(context, data.value))
  }

  function PdvList(ts: seq<Tlv>): Result<seq<Pdv>, IsoError> {
    if ts == [] then
      Ok([])
    else
      var first :- PdvOf(ts[0]);
      var rest :- PdvList(ts[1..]);
      Ok([first] + rest)
  }

  function UserData(t: Tlv): Result<seq<Pdv>, IsoError> {
    if t.Is(Application, 0) then
      Ok([Pdv(None, t.value)])
    else if !t.Is(Application, 1) then
      Err(PresentationError)
    else
      var ts :- Wrapped(t.Children(), PresentationError);
      PdvList(ts)
  }

  method ParsePdv(pdv: Tlv) returns (r: Result<Pdv, IsoError>)
    ensures r == PdvOf(pdv)
  {
    if !pdv.Is(Universal, 16) {
      return Err(PresentationError);
    }
    var fields := pdv.Children();
    if fields.Err? {
      return Err(PresentationError);
    }
    var found := ParsePdvFields(fields.value);
    if found.Err? || found.value.1.None? {
      return Err(PresentationError);
    }
    r := Ok(Pdv(found.value.0, found.value.1.value));
  }

  method ParseUserData(t: Tlv) returns (r: Result<seq<Pdv>, IsoError>)
    ensures r == UserData(t)
  {
    if t.Is(Application, 0) {
      return Ok([Pdv(None, t.value)]);
    }
    if !t.Is(Application, 1) {
      return Err(PresentationError);
    }
    var pdvs := t.Children();
    if pdvs.Err? {
      return Err(PresentationError);
    }
    r := ParsePdvList(pdvs.value);
  }

  method ParsePdvList(pdvs: seq<Tlv>) returns (r: Result<seq<Pdv>, IsoError>)
    ensures r == PdvList(pdvs)
  {
    var out: seq<Pdv> := [];
    assert pdvs[0..] == pdvs && forall v: seq<Pdv> :: [] + v == v;
    for i := 0 to |pdvs|
      invariant PdvList(pdvs) == PrependedPdvs(out, PdvList(pdvs[i..]))
    {
      var item := ParsePdv(pdvs[i]);
      assert pdvs[i..][1..] == pdvs[i + 1..];
      if item.Err? {
        return Err(item.error);
      }
      ghost var later := PdvList(pdvs[i + 1..]);
      assert later.Ok? ==> out + ([item.value] + later.value) == (out + [item.value]) + later.value;
      out := out + [item.value];
    }
    assert out + [] == out;
    r := Ok(out);
  }

  method ParsePdvFields(fs: seq<Tlv>) returns (r: Result<(Option<int>, Option<Bytes>), BerError>)
    ensures r == PdvFields(fs, None, None)
  {
    var context: Option<int>, data: Option<Bytes> := None, None;
    assert fs[0..] == fs;
    for i := 0 to |fs|
      invariant PdvFields(fs, None, None) == PdvFields(fs[i..], context, data)
    {
      var f := fs[i];
      assert fs[i..][1..] == fs[i + 1..];
      if f.Is(Universal, 2) {
        var n := f.AsInt();
        if n.Err? {
          return Err(n.error);
        }
        context := Some(n.value);
      } else if IsDataValue(f) {
        data := Some(f.value);
      }
    }
    r := Ok((context, data));
  }

  function PrependedPdvs(ps: seq<Pdv>, r: Result<seq<Pdv>, IsoError>): Result<seq<Pdv>, IsoError> {
    match r
    case Ok(v) => Ok(ps + v)
    case Err(e) => Err(e)
  }

  /** First child with the given class and number. */
  function FirstChild(ts: seq<Tlv>, cls: TagClass, number: nat): Option<Tlv> {
    if ts == [] then None
    else if ts[0].Is(cls, number) then Some(ts[0])
    else FirstChild(ts[1..], cls, number)
  }

  function OptionalInt(t: Option<Tlv>): Result<Option<int>, BerError> {
    match t
    case None => Ok(None)
    case Some(e) => var n :- e.AsInt(); Ok(Some(n))
  }

  function ContextResults(ts: seq<Tlv>): Result<seq<(int, Option<int>)>, BerError> {
    if ts == [] then
      Ok([])
    else
      var cs :- ts[0].Children();
      var result :- OptionalInt(FirstChild(cs, Context, 0));
      var reason :- OptionalInt(FirstChild(cs, Context, 2));
      var rest :- ContextResults(ts[1..]);
      Ok([(result.GetOr(-1), reason)] + rest)
  }

  /** What one field of a CPA or CPR adds. */
  function PpduField(f: Tlv, p: PresentationResponse): Result<PresentationResponse, IsoError> {
    if f.Is(Context, 3) then
      Ok(p.(respondingPsel := Some(f.value)))
    else if f.Is(Context, 5) then
      var cs :- Wrapped(f.Children(), PresentationError);
      var results :- Wrapped(ContextResults(cs), PresentationError);
      Ok(p.(contextResults := results))
    else if f.Is(Context, 10) && p.kind == CPR then
      var n :- Wrapped(f.AsInt(), PresentationError);
      Ok(p.(providerReason := Some(n)))
    else if f.cls == Application then
      var user :- UserData(f);
      Ok(p.(userData := user))
    else
      Ok(p)
  }

  function PpduFields(fs: seq<Tlv>, p: PresentationResponse): Result<PresentationResponse, IsoError> {
    if fs == [] then
      Ok(p)
    else
      var q :- PpduField(fs[0], p);
      PpduFields(fs[1..], q)
  }

  /** User data of an ARU: the last application-class field. */
  function AruFields(fs: seq<Tlv>, user: seq<Pdv>): Result<seq<Pdv>, IsoError> {
    if fs == [] then
      Ok(user)
    else if fs[0].cls == Application then
      var u :- UserData(fs[0]);
      AruFields(fs[1..], u)
    else
      AruFields(fs[1..], user)
  }

  function EmptyPpdu(kind: PpduKind): PresentationResponse {
    PresentationResponse(kind, None, [], None, None, [])
  }

  /** The fields of the PPDU `top`, and whether it is a CPA or a CPR. */
  function NormalFields(top: Tlv): Result<(PpduKind, seq<Tlv>), IsoError> {
    if top.Is(Universal, 17) then
      var cs :- Wrapped(top.Children(), PresentationError);
      var normal := FirstChild(cs, Context, 2);
      if normal.None? then Err(PresentationError) else
      var fields :- Wrapped(normal.value.Children(), PresentationError);
      Ok((CPA, fields))
    else if top.Is(Universal, 16) then
      var fields :- Wrapped(top.Children(), PresentationError);
      Ok((CPR, fields))
    else
      Err(PresentationError)
  }

  function AbortPpdu(top: Tlv): Result<PresentationResponse, IsoError> {
    if top.Is(Context, 0) && top.constructed then
      var cs :- Wrapped(top.Children(), PresentationError);
      var user :- AruFields(cs, []);
      Ok(EmptyPpdu(ARU).(userData := user))
    else if top.Is(Universal, 16) then
      var cs :- Wrapped(top.Children(), PresentationError);
      var reason :- Wrapped(OptionalInt(FirstChild(cs, Context, 0)), PresentationError);
      Ok(EmptyPpdu(ARP).(abortReason := reason))
    else
      Err(PresentationError)
  }

  function Ppdu(data: Bytes, abort: bool): Result<PresentationResponse, IsoError> {
    var (top, _) :- Wrapped(ElementAt(data, 0), PresentationError);
    if abort then
      AbortPpdu(top)
    else
      var (kind, fields) :- NormalFields(top);
      PpduFields(fields, EmptyPpdu(kind))
  }

  method ParsePresentation(data: Bytes, abort: bool) returns (r: Result<PresentationResponse, IsoError>)
    ensures r == Ppdu(data, abort)
  {
    var one := DecodeOne(data, 0);
    if one.Err? {
      return Err(PresentationError);
    }
    var top := one.value.0;
    if abort {
      return AbortPpdu(top);
    }
    var normal := NormalFields(top);
    if normal.Err? {
      return Err(normal.error);
    }
    var (kind, fields) := normal.value;
    var p := EmptyPpdu(kind);
    assert fields[0..] == fields;
    for i := 0 to |fields|
      invariant PpduFields(fields, EmptyPpdu(kind)) == PpduFields(fields[i..], p)
    {
      assert fields[i..][1..] == fields[i + 1..];
      var q := PpduField(fields[i], p);
      if q.Err? {
        return Err(q.error);
      }
      p := q.value;
    }
    r := Ok(p);
  }

  /** User data of a P-DATA or release PPDU. */
  function PresentationData(data: Bytes): Result<seq<Pdv>, IsoError> {
    var (top, _) :- Wrapped(ElementAt(data, 0), PresentationError);
    UserData(top)
  }

  // ---------------------------------------------------------------- ACSE

  /** An AP title or AE qualifier field; a title that is absent or empty is left out. */
  function ApTitleField(tag: byte, title: Option<seq<int>>): Result<Bytes, IsoError> {
    match title
    case None => Ok([])
    case Some(arcs) =>
      if arcs == [] then Ok([]) else
      var oid :- Wrapped(Oid(arcs, 0x06), InvalidValue);
      Ok(Tagged(tag, oid))
  }

  function AeQualifierField(tag: byte, qualifier: Option<int>): Bytes {
    match qualifier
    case None => []
    case Some(n) => Tagged(tag, Integer(n, 0x02))
  }

  function UserInformation(contextId: int, info: Bytes): Bytes {
    Tagged(0xBE, Tagged(0x28, Integer(contextId, 0x02) + Tagged(0xA0, info)))
  }

  function AcseAarq(userInformation: Bytes,
                    callingApTitle: Option<seq<int>>, callingAeQualifier: Option<int>,
                    calledApTitle: Option<seq<int>>, calledAeQualifier: Option<int>): Result<Bytes, IsoError> {
    var calledTitle :- ApTitleField(0xA2, calledApTitle);
    var callingTitle :- ApTitleField(0xA6, callingApTitle);
    var body := Tagged(0xA1, KnownOid(MMS_APPLICATION_CONTEXT))
                + calledTitle + AeQualifierField(0xA3, calledAeQualifier)
                + callingTitle + AeQualifierField(0xA7, callingAeQualifier)
                + UserInformation(MMS_CONTEXT_ID, userInformation);
    Ok(Tagged(0x60, body))
  }

  function AcseRlrq(reason: int): Bytes {
    Tagged(0x62, Integer(reason, 0x80))
  }

  function AcseAbrt(source: int): Bytes {
    Tagged(0x64, Integer(source, 0x80))
  }

  datatype AcseKind = AARQ | AARE | RLRQ | RLRE | ABRT

  datatype AcsePdu = AcsePdu(
    kind: AcseKind, applicationContext: Option<seq<nat>>, result: Option<int>,
    diagnosticSource: Option<nat>, diagnostic: Option<int>,
    respondingApTitle: Option<seq<nat>>, respondingAeQualifier: Option<int>,
    abortSource: Option<int>, abortDiagnostic: Option<int>, releaseReason: Option<int>,
    mechanismName: Option<seq<nat>>, userInformation: Option<Bytes>)

  function EmptyAcse(kind: AcseKind): AcsePdu {
    AcsePdu(kind, None, None, None, None, None, None, None, None, None, None, None)
  }

  function KindOf(number: nat): Option<AcseKind> {
    match number
    case 0 => Some(AARQ)
    case 1 => Some(AARE)
    case 2 => Some(RLRQ)
    case 3 => Some(RLRE)
    case 4 => Some(ABRT)
    case _ => None
  }

  function FirstDataValue(fs: seq<Tlv>): Option<Bytes> {
    if fs == [] then None
    else if IsDataValue(fs[0]) then Some(fs[0].value)
    else FirstDataValue(fs[1..])
  }

  /** First EXTERNAL's encoding among the children of an association-information element. */
  function ExternalData(exts: seq<Tlv>): Result<Option<Bytes>, BerError> {
    if exts == [] then
      Ok(None)
    else if !exts[0].Is(Universal, 8) then
      ExternalData(exts[1..])
    else
      var fs :- exts[0].Children();
      var data := FirstDataValue(fs);
      if data.Some? then Ok(data) else ExternalData(exts[1..])
  }

  function ExternalOf(t: Tlv): Result<Option<Bytes>, BerError> {
    var exts :- t.Children();
    ExternalData(exts)
  }

  function ApTitle(t: Tlv): Result<Option<seq<nat>>, BerError> {
    var inner :- t.Children();
    if inner != [] && inner[0].Is(Universal, 6) then
      var arcs :- inner[0].AsOid();
      Ok(Some(arcs))
    else
      Ok(None)
  }

  function InnerInt(t: Tlv): Result<Option<int>, BerError> {
    var inner :- t.Children();
    if inner != [] && inner[0].Is(Universal, 2) then
      var n :- inner[0].AsInt();
      Ok(Some(n))
    else
      Ok(None)
  }

  /** The diagnostics of an AARE, the last one kept. */
  function Diagnostics(ds: seq<Tlv>, p: AcsePdu): Result<AcsePdu, BerError> {
    if ds == [] then
      Ok(p)
    else
      var n :- InnerInt(ds[0]);
      Diagnostics(ds[1..], p.(diagnosticSource := Some(ds[0].number), diagnostic := n))
  }

  /** What one field adds to an association request or response. */
  function AssociateField(t: Tlv, p: AcsePdu): Result<AcsePdu, BerError> {
    if t.cls != Context then
      Ok(p)
    else if t.number == 1 then
      var c :- ApTitle(t);
      Ok(p.(applicationContext := c))
    else if t.number == 2 && p.kind == AARE then
      var n :- InnerInt(t);
      Ok(p.(result := n))
    else if t.number == 3 && p.kind == AARE then
      var ds :- t.Children();
      Diagnostics(ds, p)
    else if t.number == 4 && p.kind == AARE then
      var c :- ApTitle(t);
      Ok(p.(respondingApTitle := c))
    else if t.number == 5 && p.kind == AARE then
      var n :- InnerInt(t);
      Ok(p.(respondingAeQualifier := n))
    else if (t.number == 9 && p.kind == AARE) || (t.number == 11 && p.kind == AARQ) then
      if t.value == [] then Ok(p.(mechanismName := None)) else
      var arcs :- OidArcs(t.value);
      Ok(p.(mechanismName := Some(arcs)))
    else if t.number == 30 then
      var info :- ExternalOf(t);
      Ok(p.(userInformation := info))
    else
      Ok(p)
  }

  /** What one field adds to an abort or release APDU. */
  function EndField(t: Tlv, p: AcsePdu): Result<AcsePdu, BerError> {
    if t.cls != Context then
      Ok(p)
    else if t.number == 0 then
      var n :- t.AsInt();
      Ok(if p.kind == ABRT then p.(abortSource := Some(n)) else p.(releaseReason := Some(n)))
    else if t.number == 1 && p.kind == ABRT then
      var n :- t.AsInt();
      Ok(p.(abortDiagnostic := Some(n)))
    else if t.number == 30 then
      var info :- ExternalOf(t);
      Ok(p.(userInformation := info))
    else
      Ok(p)
  }

  function AcseField(t: Tlv, p: AcsePdu): Result<AcsePdu, BerError> {
    if p.kind == AARQ || p.kind == AARE then AssociateField(t, p) else EndField(t, p)
  }

  function AcseFields(ts: seq<Tlv>, p: AcsePdu): Result<AcsePdu, BerError> {
    if ts == [] then
      Ok(p)
    else
      var q :- AcseField(ts[0], p);
      AcseFields(ts[1..], q)
  }

  function Acse(data: Bytes): Result<AcsePdu, IsoError> {
    var (top, _) :- Wrapped(ElementAt(data, 0), AcseError);
    if top.cls != Application || KindOf(top.number).None? then
      Err(AcseError)
    else
      var ts :- Wrapped(top.Children(), AcseError);
      Wrapped(AcseFields(ts, EmptyAcse(KindOf(top.number).value)), AcseError)
  }

  method ParseAcse(data: Bytes) returns (r: Result<AcsePdu, IsoError>)
    ensures r == Acse(data)
  {
    var one := DecodeOne(data, 0);
    if one.Err? {
      return Err(AcseError);
    }
    var top := one.value.0;
    if top.cls != Application || KindOf(top.number).None? {
      return Err(AcseError);
    }
    var ts := top.Children();
    if ts.Err? {
      return Err(AcseError);
    }
    var p := EmptyAcse(KindOf(top.number).value);
    assert ts.value[0..] == ts.value;
    for i := 0 to |ts.value|
      invariant AcseFields(ts.value, EmptyAcse(KindOf(top.number).value)) == AcseFields(ts.value[i..], p)
    {
      assert ts.value[i..][1..] == ts.value[i + 1..];
      var q := AcseField(ts.value[i], p);
      if q.Err? {
        return Err(AcseError);
      }
      p := q.value;
    }
    r := Ok(p);
  }

  // ---------------------------------------------------------------- MMS

  /** Octets of a bit string and how many of their bits belong to it. */
  datatype Bits = Bits(octets: Bytes, count: int)

  function BitsField(bits: Bits, tag: byte): Result<Bytes, IsoError> {
    Wrapped(BitString(bits.octets, 8 * |bits.octets| - bits.count, tag), InvalidValue)
  }

  function OptionalInteger(n: Option<int>, tag: byte): Bytes {
    match n
    case None => []
    case Some(v) => Integer(v, tag)
  }

  /** Everything that goes into an association request. */
  datatype AssociateParams = AssociateParams(
    callingTsel: Bytes, calledTsel: Bytes, callingSsel: Bytes, calledSsel: Bytes,
    callingPsel: Bytes, calledPsel: Bytes,
    callingApTitle: Option<seq<int>>, callingAeQualifier: Option<int>,
    calledApTitle: Option<seq<int>>, calledAeQualifier: Option<int>,
    tpduSizeCode: int, maxPduSize: int, maxServOutstandingCalling: int, maxServOutstandingCalled: int,
    nestingLevel: Option<int>, version: int, parameterCbb: Bits, servicesSupported: Bits)

  function InitiateDetail(p: AssociateParams): Result<Bytes, IsoError> {
    var cbb :- BitsField(p.parameterCbb, 0x81);
    var services :- BitsField(p.servicesSupported, 0x82);
    Ok(Integer(p.version, 0x80) + cbb + services)
  }

  function MmsInitiateRequest(p: AssociateParams): Result<Bytes, IsoError> {
    var detail :- InitiateDetail(p);
    Ok(Tagged(0xA8,
              Integer(p.maxPduSize, 0x80) + Integer(p.maxServOutstandingCalling, 0x81)
              + Integer(p.maxServOutstandingCalled, 0x82) + OptionalInteger(p.nestingLevel, 0x83)
              + Tagged(0xA4, detail)))
  }

  const MMS_CONCLUDE_REQUEST: Bytes := [0x8B, 0x00]

  datatype InitiateParams = InitiateParams(
    maxPduSize: Option<int>, maxServOutstandingCalling: Option<int>, maxServOutstandingCalled: Option<int>,
    nestingLevel: Option<int>, version: Option<int>, parameterCbb: Bits, servicesSupported: Bits)

  const NO_INITIATE: InitiateParams := InitiateParams(None, None, None, None, None, Bits([], 0), Bits([], 0))

  datatype MmsPdu = MmsPdu(
    number: nat, initiate: Option<InitiateParams>, errorClass: Option<int>, errorCode: Option<int>, raw: Bytes)

  function DetailField(d: Tlv, p: InitiateParams): Result<InitiateParams, BerError> {
    match d.number
    case 0 =>
      var n :- d.AsInt();
      Ok(p.(version := Some(n)))
    case 1 =>
      var (octets, count) :- BitStringOf(d.value);
      Ok(p.(parameterCbb := Bits(octets, count)))
    case 2 =>
      var (octets, count) :- BitStringOf(d.value);
      Ok(p.(servicesSupported := Bits(octets, count)))
    case _ =>
      Ok(p)
  }

  function DetailFields(ds: seq<Tlv>, p: InitiateParams): Result<InitiateParams, BerError> {
    if ds == [] then
      Ok(p)
    else
      var q :- DetailField(ds[0], p);
      DetailFields(ds[1..], q)
  }

  function InitiateField(c: Tlv, p: InitiateParams): Result<InitiateParams, BerError> {
    if c.cls != Context then
      Ok(p)
    else
      match c.number
      case 0 =>
        var n :- c.AsInt();
        Ok(p.(maxPduSize := Some(n)))
      case 1 =>
        var n :- c.AsInt();
        Ok(p.(maxServOutstandingCalling := Some(n)))
      case 2 =>
        var n :- c.AsInt();
        Ok(p.(maxServOutstandingCalled := Some(n)))
      case 3 =>
        var n :- c.AsInt();
        Ok(p.(nestingLevel := Some(n)))
      case 4 =>
        if !c.constructed then Ok(p) else
        var ds :- c.Children();
        DetailFields(ds, p)
      case _ =>
        Ok(p)
  }

  function InitiateFields(cs: seq<Tlv>, p: InitiateParams): Result<InitiateParams, BerError> {
    if cs == [] then
      Ok(p)
    else
      var q :- InitiateField(cs[0], p);
      InitiateFields(cs[1..], q)
  }

  function Initiate(t: Tlv): Result<InitiateParams, BerError> {
    var cs :- t.Children();
    InitiateFields(cs, NO_INITIATE)
  }

  method ParseInitiate(t: Tlv) returns (r: Result<InitiateParams, BerError>)
    ensures r == Initiate(t)
  {
    var cs := t.Children();
    if cs.Err? {
      return Err(cs.error);
    }
    var p := NO_INITIATE;
    assert cs.value[0..] == cs.value;
    for i := 0 to |cs.value|
      invariant InitiateFields(cs.value, NO_INITIATE) == InitiateFields(cs.value[i..], p)
    {
      assert cs.value[i..][1..] == cs.value[i + 1..];
      var q := InitiateField(cs.value[i], p);
      if q.Err? {
        return Err(q.error);
      }
      p := q.value;
    }
    r := Ok(p);
  }

  /** Error class and code of a ServiceError. */
  function ServiceError(cs: seq<Tlv>): Result<(Option<int>, Option<int>), BerError> {
    if cs == [] then
      Ok((None, None))
    else if !(cs[0].Is(Context, 0) && cs[0].constructed) then
      ServiceError(cs[1..])
    else
      var inner :- cs[0].Children();
      if inner == [] then
        ServiceError(cs[1..])
      else if inner[0].value == [] then
        Ok((Some(inner[0].number), None))
      else
        var code :- inner[0].AsInt();
        Ok((Some(inner[0].number), Some(code)))
  }

  function RejectReason(cs: seq<Tlv>): Option<Tlv> {
    if cs == [] then None
    else if cs[0].number != 0 && cs[0].cls == Context then Some(cs[0])
    else RejectReason(cs[1..])
  }

  function MmsBody(top: Tlv): Result<MmsPdu, BerError> {
    var plain := MmsPdu(top.number, None, None, None, top.raw);
    if top.number == 8 || top.number == 9 then
      var i :- Initiate(top);
      Ok(plain.(initiate := Some(i)))
    else if top.number == 10 || top.number == 13 then
      var cs :- top.Children();
      var (cls, code) :- ServiceError(cs);
      Ok(plain.(errorClass := cls, errorCode := code))
    else if top.number == 4 && top.constructed then
      var cs :- top.Children();
      match RejectReason(cs)
      case None => Ok(plain)
      case Some(reason) =>
        var code :- reason.AsInt();
        Ok(plain.(errorClass := Some(reason.number), errorCode := Some(code)))
    else
      Ok(plain)
  }

  function ParseMms(data: Bytes): Result<MmsPdu, IsoError> {
    var (top, _) :- Wrapped(ElementAt(data, 0), MmsError);
    if top.cls != Context then Err(MmsError) else Wrapped(MmsBody(top), MmsError)
  }

  // ---------------------------------------------------------------- complete requests

  function ConnectionRequest(p: AssociateParams): Result<Bytes, IsoError> {
    CotpCr(1, p.tpduSizeCode, p.callingTsel, p.calledTsel)
  }

  function AssociationRequest(p: AssociateParams): Result<Bytes, IsoError> {
    var initiate :- MmsInitiateRequest(p);
    var aarq :- AcseAarq(initiate, p.callingApTitle, p.callingAeQualifier, p.calledApTitle, p.calledAeQualifier);
    SessionConnect(PresentationCp(aarq, p.callingPsel, p.calledPsel), p.callingSsel, p.calledSsel)
  }

  function ConcludeRequest(): Bytes {
    SessionData(PresentationUserData(MMS_CONTEXT_ID, MMS_CONCLUDE_REQUEST))
  }

  function ReleaseRequest(): Result<Bytes, IsoError> {
    SessionFinish(PresentationUserData(ACSE_CONTEXT_ID, AcseRlrq(0)))
  }

  function AbortRequest(): Result<Bytes, IsoError> {
    SessionAbort(PresentationAru(AcseAbrt(0), ACSE_CONTEXT_ID))
  }
}

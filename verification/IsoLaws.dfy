/**
 The parsers of `Iso` read back what its builders write, layer by layer and end to end, for every
 request the builders produce.
 */
module IsoLaws {
  import opened Results
  import opened Octets
  import opened Ber
  import opened BerLaws
  import opened Iso

  // ---------------------------------------------------------------- lists of tagged fields

  datatype Field = Field(tag: byte, value: Bytes)

  predicate Decodable(fs: seq<Field>) {
    && (forall f :: f in fs ==> f.tag % 32 < 31)
    && |FieldOctets(fs)| < LENGTH_LIMIT
  }

  function FieldOctets(fs: seq<Field>): Bytes {
    if fs == [] then [] else Tagged(fs[0].tag, fs[0].value) + FieldOctets(fs[1..])
  }

  function FieldTlvs(fs: seq<Field>): (ts: seq<Tlv>)
    ensures |ts| == |fs| && forall i :: 0 <= i < |fs| ==> ts[i] == LowTag(fs[i].tag, fs[i].value)
  {
    if fs == [] then [] else [LowTag(fs[0].tag, fs[0].value)] + FieldTlvs(fs[1..])
  }

  lemma {:induction false} FieldsDecode(fs: seq<Field>)
    requires Decodable(fs)
    ensures Elements(FieldOctets(fs)) == Ok(FieldTlvs(fs))
  {
    if fs != [] {
      ElementsCons(fs[0].tag, fs[0].value, FieldOctets(fs[1..]));
      FieldsDecode(fs[1..]);
    }
  }

  lemma {:induction false} FieldOctetsAppend(a: seq<Field>, b: seq<Field>)
    ensures FieldOctets(a + b) == FieldOctets(a) + FieldOctets(b)
    ensures FieldTlvs(a + b) == FieldTlvs(a) + FieldTlvs(b)
  {
    hide Tagged, LowTag;
    if a == [] {
      assert a + b == b;
      assert [] + FieldOctets(b) == FieldOctets(b) && [] + FieldTlvs(b) == FieldTlvs(b);
    } else {
      assert (a + b)[0] == a[0] && (a + b)[1..] == a[1..] + b;
      FieldOctetsAppend(a[1..], b);
      var head, rest := Tagged(a[0].tag, a[0].value), FieldOctets(a[1..]);
      assert head + (rest + FieldOctets(b)) == (head + rest) + FieldOctets(b);
    }
  }

  lemma OneField(f: Field)
    ensures FieldOctets([f]) == Tagged(f.tag, f.value)
  {
  }

  lemma TwoFields(a: Field, b: Field)
    ensures FieldOctets([a, b]) == Tagged(a.tag, a.value) + Tagged(b.tag, b.value)
  {
    assert [a, b][1..] == [b];
    OneField(b);
  }

  /** A whole buffer that is one tagged value. */
  lemma WholeElement(tag: byte, value: Bytes)
    requires tag % 32 < 31 && |value| < LENGTH_LIMIT
    ensures ElementAt(Tagged(tag, value), 0) == Ok((LowTag(tag, value), |Tagged(tag, value)|))
  {
    TaggedRoundTrip(tag, value, []);
    var e := Tagged(tag, value);
    assert e + [] == e && e[0..] == e;
  }

  lemma ChildrenOf(tag: byte, fs: seq<Field>)
    requires IsConstructed(tag) && Decodable(fs)
    ensures LowTag(tag, FieldOctets(fs)).Children() == Ok(FieldTlvs(fs))
  {
    FieldsDecode(fs);
  }

  lemma IntegerField(tag: byte, n: int)
    ensures LowTag(tag, IntegerContent(n)).AsInt() == Ok(n)
  {
    IntegerRoundTrip(n);
  }

  // ---------------------------------------------------------------- TPKT and COTP

  /** The announced length of a packet is its length; a payload of one octet or none is refused. */
  lemma TpktRoundTrip(payload: Bytes, more: Bytes)
    ensures Tpkt(payload).Ok? <==> |payload| <= 65531
    ensures Tpkt(payload).Ok? ==>
              var packet := Tpkt(payload).value;
              && packet[TPKT_HEADER..] == payload
              && TpktLength(packet[..TPKT_HEADER] + more) == if |payload| >= 2 then Ok(|packet|) else Err(TpktError)
  {
    if Tpkt(payload).Ok? {
      var packet := Tpkt(payload).value;
      assert forall i :: 0 <= i < TPKT_HEADER ==> (packet[..TPKT_HEADER] + more)[i] == packet[i];
    }
  }

  /** Refused are the headers of other lengths and versions, and those that announce less than a TPDU. */
  lemma TpktRefused(header: Bytes)
    ensures TpktLength(header).Err? <==>
              |header| < 4 || header[0] != 3 || (header[2] == 0 && header[3] < 6)
  {
  }

  lemma CotpParamsCons(code: byte, value: Bytes, rest: Bytes, read: map<byte, Bytes>)
    requires |value| < 256
    ensures CotpParams([code, |value|] + value + rest, read) == CotpParams(rest, read[code := value])
  {
  }

  function WithTsel(read: map<byte, Bytes>, code: byte, tsel: Bytes): map<byte, Bytes> {
    if tsel == [] then read else read[code := tsel]
  }

  lemma TselParamCons(code: byte, tsel: Bytes, rest: Bytes, read: map<byte, Bytes>)
    requires |tsel| < 256
    ensures CotpParams(TselParam(code, tsel) + rest, read) == CotpParams(rest, WithTsel(read, code, tsel))
  {
    if tsel == [] {
      assert TselParam(code, tsel) + rest == rest;
    } else {
      CotpParamsCons(code, tsel, rest, read);
    }
  }

  /** The parameters a connection request carries. */
  function CrParams(size: byte, calling: Bytes, called: Bytes): map<byte, Bytes> {
    WithTsel(WithTsel(map[COTP_TPDU_SIZE := [size]], COTP_CALLED_TSEL, called), COTP_CALLING_TSEL, calling)
  }

  lemma CrParamsRead(size: byte, calling: Bytes, called: Bytes)
    requires |calling| < 256 && |called| < 256
    ensures CotpParams([COTP_TPDU_SIZE, 1, size] + TselParam(COTP_CALLED_TSEL, called) + TselParam(COTP_CALLING_TSEL, calling), map[])
            == Ok(CrParams(size, calling, called))
  {
    hide CotpParams, TselParam;
    var a, b := TselParam(COTP_CALLED_TSEL, called), TselParam(COTP_CALLING_TSEL, calling);
    assert [COTP_TPDU_SIZE, 1, size] + a + b == [COTP_TPDU_SIZE, |[size]|] + [size] + (a + b);
    var none: map<byte, Bytes> := map[];
    CotpParamsCons(COTP_TPDU_SIZE, [size], a + b, none);
    var sized := none[COTP_TPDU_SIZE := [size]];
    assert sized == map[COTP_TPDU_SIZE := [size]];
    TselParamCons(COTP_CALLED_TSEL, called, b, sized);
    var both := WithTsel(sized, COTP_CALLED_TSEL, called);
    assert b + [] == b;
    TselParamCons(COTP_CALLING_TSEL, calling, [], both);
    NoMoreParams(WithTsel(both, COTP_CALLING_TSEL, calling));
  }

  lemma NoMoreParams(read: map<byte, Bytes>)
    ensures CotpParams([], read) == Ok(read)
  {
  }

  /** Octets a connection request has after its length indicator: a selector takes two more than its own
      octets, and none when it is empty. */
  function CrLength(calling: Bytes, called: Bytes): nat {
    9 + (if calling == [] then 0 else 2 + |calling|) + (if called == [] then 0 else 2 + |called|)
  }

  lemma SelectorLengths(calling: Bytes, called: Bytes)
    requires |calling| <= 255 && |called| <= 255
    ensures 9 + |TselParam(COTP_CALLED_TSEL, called)| + |TselParam(COTP_CALLING_TSEL, calling)| == CrLength(calling, called)
  {
  }

  /** A connection request can be built when its numbers fit their octets and its length is at most 255, ... */
  lemma CotpCrFits(srcRef: int, size: int, calling: Bytes, called: Bytes)
    ensures CotpCr(srcRef, size, calling, called).Ok? <==>
              0 <= srcRef < 0x10000 && 0 <= size < 0x100 && CrLength(calling, called) <= 255
  {
    hide CotpParams;
    if |calling| < 256 && |called| < 256 {
      SelectorLengths(calling, called);
    }
  }

  /** ... and parses back to its reference, TPDU size and selectors, whatever user data follows it, exactly when
      the length is not 255 itself. */
  lemma CotpCrRoundTrip(srcRef: int, size: int, calling: Bytes, called: Bytes, data: Bytes)
    requires CotpCr(srcRef, size, calling, called).Ok?
    ensures CrLength(calling, called) <= 255
    ensures var cr := CotpCr(srcRef, size, calling, called).value;
            ParseCotp(cr + data) ==
            if CrLength(calling, called) == 255 then
              Err(CotpError)
            else
              Ok(CotpPdu(COTP_CR, Some(0), Some(srcRef), Some(0), None, CrParams(size, calling, called), data, true))
  {
    hide CotpParams, TselParam, FromBytes, CrParams;
    var cr := CotpCr(srcRef, size, calling, called).value;
    var vars := [COTP_TPDU_SIZE, 1, size] + TselParam(COTP_CALLED_TSEL, called) + TselParam(COTP_CALLING_TSEL, calling);
    SelectorLengths(calling, called);
    assert |vars| + 6 == CrLength(calling, called) && cr[0] == CrLength(calling, called);
    var tpdu := cr + data;
    var header := tpdu[1..cr[0] + 1];
    assert header == [COTP_CR, 0, 0] + U16(srcRef) + [0] + vars;
    assert tpdu[cr[0] + 1..] == data;
    assert header[6..] == vars;
    CrParamsRead(size, calling, called);
    TwoOctets(0, header[1..3]);
    TwoOctets(srcRef, header[3..5]);
    assert header[0] / 16 * 16 == COTP_CR;
  }

  lemma TwoOctets(n: nat, b: Bytes)
    requires n <= 0xFFFF && b == U16(n)
    ensures FromBytes(b) == n
  {
    assert b[..1] == [n / 256];
    assert [n / 256][..0] == [];
    assert FromBytes([n / 256]) == n / 256;
  }

  lemma CotpDtRoundTrip(payload: Bytes, eot: bool)
    ensures ParseCotp(CotpDt(payload, eot)) ==
            Ok(CotpPdu(COTP_DT, None, None, None, None, map[], payload, eot))
  {
  }

  // ---------------------------------------------------------------- session

  /** Across both length forms: a parameter reads back to its code and value, whatever follows. */
  lemma ParamRoundTrip(code: byte, value: Bytes, rest: Bytes)
    requires SessionParam(code, value).Ok?
    ensures var b := SessionParam(code, value).value;
            var h := |b| - |value|;
            && 2 <= h <= 4
            && ParamHeader(b + rest) == Ok((code, |value|, h))
            && (b + rest)[h..|b|] == value
            && (b + rest)[|b|..] == rest
            && SessionParams(b + rest) == PrependedParams([Param(code, value)], SessionParams(rest))
  {
  }

  function ParamOctets(ps: seq<Param>): Result<Bytes, IsoError> {
    if ps == [] then
      Ok([])
    else
      var first :- SessionParam(ps[0].code, ps[0].value);
      var rest :- ParamOctets(ps[1..]);
      Ok(first + rest)
  }

  /** Any list of parameters of at most 65535 octets each can be written and reads back unchanged. */
  lemma {:induction false} ParamListRoundTrip(ps: seq<Param>)
    ensures ParamOctets(ps).Ok? <==> forall p :: p in ps ==> |p.value| <= 0xFFFF
    ensures ParamOctets(ps).Ok? ==> SessionParams(ParamOctets(ps).value) == Ok(ps)
  {
    if ps != [] {
      ParamListRoundTrip(ps[1..]);
      assert forall p :: p in ps <==> p == ps[0] || p in ps[1..];
      if ParamOctets(ps).Ok? {
        ParamRoundTrip(ps[0].code, ps[0].value, ParamOctets(ps[1..]).value);
        assert ps == [ps[0]] + ps[1..];
      }
    }
  }

  /** An SPDU other than DATA TRANSFER whose parameter field is a written list. */
  lemma SpduRoundTrip(si: byte, ps: seq<Param>)
    requires si != SPDU_DT && ParamOctets(ps).Ok? && SessionParam(si, ParamOctets(ps).value).Ok?
    ensures ParseSpdu(SessionParam(si, ParamOctets(ps).value).value) == Ok(Spdu(si, ps, SpduUserData(si, ps)))
  {
    var field := ParamOctets(ps).value;
    var b := SessionParam(si, field).value;
    ParamRoundTrip(si, field, []);
    assert b + [] == b;
    ParamListRoundTrip(ps);
    assert b[|b| - |field|..] == b[|b| - |field|..|b|];
  }

  lemma SessionDataRoundTrip(u: Bytes)
    ensures ParseSpdu(SessionData(u)) == Ok(Spdu(SPDU_DT, [], u))
  {
  }

  function SselParams(code: byte, ssel: Bytes): seq<Param> {
    if ssel == [] then [] else [Param(code, ssel)]
  }

  /** The parameters of a CONNECT SPDU. */
  function ConnectParams(item: Bytes, userData: Bytes, callingSsel: Bytes, calledSsel: Bytes): seq<Param> {
    [Param(PI_CONNECT_ACCEPT_ITEM, item), Param(PI_SESSION_REQUIREMENTS, [0, 2])]
    + (SselParams(PI_CALLING_SSEL, callingSsel) + (SselParams(PI_CALLED_SSEL, calledSsel) + [Param(PGI_USER_DATA, userData)]))
  }

  lemma {:induction false} ParamOctetsAppend(a: seq<Param>, b: seq<Param>)
    requires ParamOctets(a).Ok? && ParamOctets(b).Ok?
    ensures ParamOctets(a + b) == Ok(ParamOctets(a).value + ParamOctets(b).value)
  {
    hide SessionParam;
    if a == [] {
      assert a + b == b && [] + ParamOctets(b).value == ParamOctets(b).value;
    } else {
      assert (a + b)[1..] == a[1..] + b;
      ParamOctetsAppend(a[1..], b);
      var first := SessionParam(a[0].code, a[0].value).value;
      var x, y := ParamOctets(a[1..]).value, ParamOctets(b).value;
      assert first + (x + y) == (first + x) + y;
    }
  }

  lemma OneParam(p: Param)
    ensures ParamOctets([p]) == SessionParam(p.code, p.value)
  {
    assert [p][1..] == [];
    if SessionParam(p.code, p.value).Ok? {
      assert SessionParam(p.code, p.value).value + [] == SessionParam(p.code, p.value).value;
    }
  }

  lemma SselParamOctets(code: byte, ssel: Bytes)
    ensures ParamOctets(SselParams(code, ssel)) == SselParam(code, ssel)
  {
    if ssel != [] {
      OneParam(Param(code, ssel));
    }
  }

  const CONNECT_ITEM: Bytes := [PI_PROTOCOL_OPTIONS, 1, 0, PI_VERSION_NUMBER, 1, 2]

  lemma SessionConnectOctets(u: Bytes, calling: Bytes, called: Bytes)
    requires SessionConnect(u, calling, called).Ok?
    ensures ParamOctets(ConnectParams(CONNECT_ITEM, u, calling, called)).Ok?
    ensures SessionConnect(u, calling, called) ==
            SessionParam(SPDU_CN, ParamOctets(ConnectParams(CONNECT_ITEM, u, calling, called)).value)
  {
    hide ParamOctets, SselParams, SselParam;
    var item := Param(PI_CONNECT_ACCEPT_ITEM, CONNECT_ITEM);
    var requirements := Param(PI_SESSION_REQUIREMENTS, [0, 2]);
    var user := [Param(PGI_USER_DATA, u)];
    var cgs, cds := SselParams(PI_CALLING_SSEL, calling), SselParams(PI_CALLED_SSEL, called);
    assert SessionParam(PI_PROTOCOL_OPTIONS, [0]).value + SessionParam(PI_VERSION_NUMBER, [2]).value == CONNECT_ITEM;
    OneParam(item);
    OneParam(requirements);
    OneParam(user[0]);
    SselParamOctets(PI_CALLING_SSEL, calling);
    SselParamOctets(PI_CALLED_SSEL, called);
    ParamOctetsAppend([item], [requirements]);
    assert [item] + [requirements] == [item, requirements];
    ParamOctetsAppend(cds, user);
    ParamOctetsAppend(cgs, cds + user);
    ParamOctetsAppend([item, requirements], cgs + (cds + user));
    var a, b := ParamOctets([item]).value, ParamOctets([requirements]).value;
    var c, d, e := ParamOctets(cgs).value, ParamOctets(cds).value, ParamOctets(user).value;
    assert (a + b) + (c + (d + e)) == a + b + c + d + e;
  }

  /** The first parameter with a code, when an earlier list has none. */
  lemma {:induction false} FirstParamAfter(a: seq<Param>, b: seq<Param>, code: byte)
    ensures FirstParam(a + b, code) == if FirstParam(a, code).Some? then FirstParam(a, code) else FirstParam(b, code)
  {
    if a == [] {
      assert a + b == b;
    } else {
      assert (a + b)[1..] == a[1..] + b;
      FirstParamAfter(a[1..], b, code);
    }
  }

  function Selector(ssel: Bytes): Option<Bytes> {
    if ssel == [] then None else Some(ssel)
  }

  lemma SelectorFound(code: byte, ssel: Bytes, other: byte)
    ensures FirstParam(SselParams(code, ssel), other) == if other == code then Selector(ssel) else None
  {
  }

  /** A CONNECT SPDU reads back its selectors and its user data. */
  lemma SessionConnectRoundTrip(u: Bytes, calling: Bytes, called: Bytes)
    requires SessionConnect(u, calling, called).Ok?
    ensures var r := ParseSpdu(SessionConnect(u, calling, called).value);
            && |u| <= 0xFFFF
            && r.Ok?
            && r.value.si == SPDU_CN
            && r.value.userData == u
            && r.value.Value(PI_CALLING_SSEL) == Selector(calling)
            && r.value.Value(PI_CALLED_SSEL) == Selector(called)
  {
    var ps := ConnectParams(CONNECT_ITEM, u, calling, called);
    SessionConnectOctets(u, calling, called);
    SpduRoundTrip(SPDU_CN, ps);
    var user := [Param(PGI_USER_DATA, u)];
    var cgs, cds := SselParams(PI_CALLING_SSEL, calling), SselParams(PI_CALLED_SSEL, called);
    var fixed := ps[..2];
    assert ps == fixed + (cgs + (cds + user));
    forall code: byte
      ensures FirstParam(ps, code) ==
              if code == PI_CONNECT_ACCEPT_ITEM then Some(CONNECT_ITEM)
              else if code == PI_SESSION_REQUIREMENTS then Some([0, 2])
              else if code == PI_CALLING_SSEL && calling != [] then Some(calling)
              else if code == PI_CALLED_SSEL && called != [] then Some(called)
              else if code == PGI_USER_DATA then Some(u) else None
    {
      FirstParamAfter(fixed, cgs + (cds + user), code);
      FirstParamAfter(cgs, cds + user, code);
      FirstParamAfter(cds, user, code);
      SelectorFound(PI_CALLING_SSEL, calling, code);
      SelectorFound(PI_CALLED_SSEL, called, code);
      assert fixed[1..][1..] == [] && user[1..] == [];
    }
  }

  // ---------------------------------------------------------------- presentation

  /** User data with one PDV-list reads back its context and its payload. */
  lemma UserDataRoundTrip(contextId: int, payload: Bytes)
    requires |PresentationUserData(contextId, payload)| < LENGTH_LIMIT
    ensures var list := Tagged(0x30, Integer(contextId, 0x02) + Tagged(0xA0, payload));
            && PresentationUserData(contextId, payload) == Tagged(0x61, list)
            && UserData(LowTag(0x61, list)) == Ok([Pdv(Some(contextId), payload)])
  {
    hide Tagged, Element, Elements, IntegerContent, FieldOctets;
    var pdv := [Field(0x02, IntegerContent(contextId)), Field(0xA0, payload)];
    TwoFields(pdv[0], pdv[1]);
    ChildrenOf(0x30, pdv);
    IntegerField(0x02, contextId);
    var fs := FieldTlvs(pdv);
    assert fs == [fs[0], fs[1]];
    assert fs[1..] == [fs[1]] && [fs[1]][1..] == [];
    assert fs[0].AsInt() == Ok(contextId) && fs[0].Is(Universal, 2);
    assert PdvFields(fs, None, None) == PdvFields([fs[1]], Some(contextId), None);
    assert IsDataValue(fs[1]) && !fs[1].Is(Universal, 2);
    assert PdvFields([], Some(contextId), Some(payload)) == Ok((Some(contextId), Some(payload)));
    assert PdvFields([fs[1]], Some(contextId), None) == Ok((Some(contextId), Some(payload)));
    var list := [Field(0x30, FieldOctets(pdv))];
    OneField(list[0]);
    ChildrenOf(0x61, list);
    var ts := FieldTlvs(list);
    assert ts == [ts[0]] && ts[1..] == [];
    assert ts[0] == LowTag(0x30, FieldOctets(pdv)) && ts[0].Is(Universal, 16);
    assert PdvOf(ts[0]) == Ok(Pdv(Some(contextId), payload));
    assert PdvList(ts[1..]) == Ok([]);
    assert [Pdv(Some(contextId), payload)] + [] == [Pdv(Some(contextId), payload)];
    assert PdvList(ts) == Ok([Pdv(Some(contextId), payload)]);
    assert FieldOctets(list) == Tagged(0x30, Integer(contextId, 0x02) + Tagged(0xA0, payload));
    assert LowTag(0x61, FieldOctets(list)).Is(Application, 1);
    assert UserData(LowTag(0x61, FieldOctets(list))) == PdvList(ts);
  }

  predicate PpduIgnores(f: Tlv) {
    f.cls != Application && !f.Is(Context, 3) && !f.Is(Context, 5) && !f.Is(Context, 10)
  }

  lemma {:induction false} PpduFieldsSkip(skipped: seq<Tlv>, fs: seq<Tlv>, p: PresentationResponse)
    requires forall f :: f in skipped ==> PpduIgnores(f)
    ensures PpduFields(skipped + fs, p) == PpduFields(fs, p)
  {
    hide UserData, ContextResults, Elements;
    if skipped == [] {
      assert skipped + fs == fs;
    } else {
      assert (skipped + fs)[0] == skipped[0] && (skipped + fs)[1..] == skipped[1..] + fs;
      assert PpduIgnores(skipped[0]);
      PpduFieldsSkip(skipped[1..], fs, p);
    }
  }

  function SelectorFields(tag: byte, selector: Bytes): seq<Field> {
    if selector == [] then [] else [Field(tag, selector)]
  }

  lemma SelectorFieldOctets(tag: byte, selector: Bytes)
    ensures FieldOctets(SelectorFields(tag, selector)) == OptionalSelector(tag, selector)
  {
  }

  /** The normal-mode parameters as fields: selectors and contexts, then the user data. */
  function NormalFieldsOf(list: Bytes, callingPsel: Bytes, calledPsel: Bytes): seq<Field> {
    SelectorFields(0x81, callingPsel) + SelectorFields(0x82, calledPsel)
    + [Field(0xA4, PresentationContextList())] + [Field(0x61, list)]
  }

  lemma NormalFieldOctets(acse: Bytes, callingPsel: Bytes, calledPsel: Bytes)
    ensures var list := Tagged(0x30, Integer(ACSE_CONTEXT_ID, 0x02) + Tagged(0xA0, acse));
            FieldOctets(NormalFieldsOf(list, callingPsel, calledPsel)) == PresentationNormal(acse, callingPsel, calledPsel)
    ensures |PresentationUserData(ACSE_CONTEXT_ID, acse)| <= |PresentationNormal(acse, callingPsel, calledPsel)|
  {
    hide Tagged, IntegerContent, FieldOctets, PresentationContextList, OptionalSelector, SelectorFields;
    var list := Tagged(0x30, Integer(ACSE_CONTEXT_ID, 0x02) + Tagged(0xA0, acse));
    var a, b := SelectorFields(0x81, callingPsel), SelectorFields(0x82, calledPsel);
    var c, d := Field(0xA4, PresentationContextList()), Field(0x61, list);
    SelectorFieldOctets(0x81, callingPsel);
    SelectorFieldOctets(0x82, calledPsel);
    OneField(c);
    OneField(d);
    FieldOctetsAppend(a, b);
    FieldOctetsAppend(a + b, [c]);
    FieldOctetsAppend(a + b + [c], [d]);
  }

  lemma PpduSkippable(fs: seq<Field>)
    requires forall f :: f in fs ==> f.tag in [0x81, 0x82, 0xA4]
    ensures forall t :: t in FieldTlvs(fs) ==> PpduIgnores(t)
  {
  }

  lemma NormalFieldsRead(list: Bytes, callingPsel: Bytes, calledPsel: Bytes, user: seq<Pdv>)
    requires UserData(LowTag(0x61, list)) == Ok(user)
    ensures PpduFields(FieldTlvs(NormalFieldsOf(list, callingPsel, calledPsel)), EmptyPpdu(CPA)) ==
            Ok(EmptyPpdu(CPA).(userData := user))
  {
    hide Tagged, FieldOctets, UserData, PresentationContextList, PpduFields;
    var skipped := SelectorFields(0x81, callingPsel) + SelectorFields(0x82, calledPsel)
                   + [Field(0xA4, PresentationContextList())];
    var last := [Field(0x61, list)];
    FieldOctetsAppend(skipped, last);
    var t := LowTag(0x61, list);
    assert FieldTlvs(last) == [t];
    LastPpduField(t, user);
    PpduSkippable(skipped);
    PpduFieldsSkip(FieldTlvs(skipped), [t], EmptyPpdu(CPA));
  }

  lemma LastPpduField(t: Tlv, user: seq<Pdv>)
    requires t.cls == Application && UserData(t) == Ok(user)
    ensures PpduFields([t], EmptyPpdu(CPA)) == Ok(EmptyPpdu(CPA).(userData := user))
  {
  }

  /** A CP-type PPDU reads back as normal mode with the ACSE APDU as its only user data. */
  lemma PresentationCpRoundTrip(acse: Bytes, callingPsel: Bytes, calledPsel: Bytes)
    requires |PresentationCp(acse, callingPsel, calledPsel)| < LENGTH_LIMIT
    ensures Ppdu(PresentationCp(acse, callingPsel, calledPsel), false) ==
            Ok(EmptyPpdu(CPA).(userData := [Pdv(Some(ACSE_CONTEXT_ID), acse)]))
  {
    hide Tagged, Element, ElementAt, Elements, IntegerContent, FieldOctets, FieldTlvs, UserData, PpduFields, NormalFieldsOf, PresentationNormal;
    var list := Tagged(0x30, Integer(ACSE_CONTEXT_ID, 0x02) + Tagged(0xA0, acse));
    var normal := PresentationNormal(acse, callingPsel, calledPsel);
    var fs := NormalFieldsOf(list, callingPsel, calledPsel);
    NormalFieldOctets(acse, callingPsel, calledPsel);
    var mode := Tagged(0x80, [1]);
    TwoFields(Field(0xA0, mode), Field(0xA2, normal));
    var top := [Field(0xA0, mode), Field(0xA2, normal)];
    WholeElement(0x31, FieldOctets(top));
    ChildrenOf(0x31, top);
    NormalChild(mode, normal);
    NormalFieldTags(list, callingPsel, calledPsel);
    ChildrenOf(0xA2, fs);
    UserDataRoundTrip(ACSE_CONTEXT_ID, acse);
    NormalFieldsRead(list, callingPsel, calledPsel, [Pdv(Some(ACSE_CONTEXT_ID), acse)]);
    var t := LowTag(0x31, FieldOctets(top));
    assert t.Is(Universal, 17);
    assert NormalFields(t) == Ok((CPA, FieldTlvs(fs)));
  }

  lemma NormalFieldTags(list: Bytes, callingPsel: Bytes, calledPsel: Bytes)
    ensures forall f :: f in NormalFieldsOf(list, callingPsel, calledPsel) ==> f.tag % 32 < 31
  {
    hide PresentationContextList;
  }

  lemma NormalChild(mode: Bytes, normal: Bytes)
    ensures FirstChild(FieldTlvs([Field(0xA0, mode), Field(0xA2, normal)]), Context, 2) == Some(LowTag(0xA2, normal))
  {
  }

  lemma PresentationAruRoundTrip(acse: Bytes, contextId: int)
    requires |PresentationAru(acse, contextId)| < LENGTH_LIMIT
    ensures Ppdu(PresentationAru(acse, contextId), true) ==
            Ok(EmptyPpdu(ARU).(userData := [Pdv(Some(contextId), acse)]))
  {
    hide Tagged, Element, Elements, IntegerContent, FieldOctets, UserData;
    var list := Tagged(0x30, Integer(contextId, 0x02) + Tagged(0xA0, acse));
    var user := [Field(0x61, list)];
    OneField(user[0]);
    WholeElement(0xA0, FieldOctets(user));
    ChildrenOf(0xA0, user);
    UserDataRoundTrip(contextId, acse);
    var ts := FieldTlvs(user);
    assert ts == [LowTag(0x61, list)] && ts[1..] == [];
    var top := LowTag(0xA0, FieldOctets(user));
    assert top.Is(Context, 0) && top.constructed;
    assert AruFields([], [Pdv(Some(contextId), acse)]) == Ok([Pdv(Some(contextId), acse)]);
    assert AruFields(ts, []) == Ok([Pdv(Some(contextId), acse)]);
  }

  lemma PresentationDataRoundTrip(contextId: int, payload: Bytes)
    requires |PresentationUserData(contextId, payload)| < LENGTH_LIMIT
    ensures PresentationData(PresentationUserData(contextId, payload)) == Ok([Pdv(Some(contextId), payload)])
  {
    hide Tagged, Element, Elements, IntegerContent, FieldOctets, UserData;
    UserDataRoundTrip(contextId, payload);
    WholeElement(0x61, Tagged(0x30, Integer(contextId, 0x02) + Tagged(0xA0, payload)));
  }

  // ---------------------------------------------------------------- ACSE

  predicate AarqIgnores(t: Tlv) {
    t.cls == Context && t.number != 1 && t.number != 11 && t.number != 30
  }

  lemma {:induction false} AcseFieldsSkip(skipped: seq<Tlv>, ts: seq<Tlv>, p: AcsePdu)
    requires p.kind == AARQ && forall t :: t in skipped ==> AarqIgnores(t)
    ensures AcseFields(skipped + ts, p) == AcseFields(ts, p)
  {
    hide Diagnostics, Elements, OidArcs, ExternalOf, ApTitle, InnerInt;
    if skipped == [] {
      assert skipped + ts == ts;
    } else {
      assert (skipped + ts)[0] == skipped[0] && (skipped + ts)[1..] == skipped[1..] + ts;
      assert AarqIgnores(skipped[0]);
      AcseFieldsSkip(skipped[1..], ts, p);
    }
  }

  function TitleFields(tag: byte, title: Option<seq<int>>): seq<Field>
    requires ApTitleField(tag, title).Ok?
  {
    match title
    case None => []
    case Some(arcs) => if arcs == [] then [] else [Field(tag, Oid(arcs, 0x06).value)]
  }

  lemma TitleFieldOctets(tag: byte, title: Option<seq<int>>)
    requires ApTitleField(tag, title).Ok?
    ensures FieldOctets(TitleFields(tag, title)) == ApTitleField(tag, title).value
  {
  }

  function QualifierFields(tag: byte, qualifier: Option<int>): seq<Field> {
    match qualifier
    case None => []
    case Some(n) => [Field(tag, Integer(n, 0x02))]
  }

  lemma QualifierFieldOctets(tag: byte, qualifier: Option<int>)
    ensures FieldOctets(QualifierFields(tag, qualifier)) == AeQualifierField(tag, qualifier)
  {
  }

  /** An association-information element gives back the PDU wrapped in its EXTERNAL. */
  lemma UserInformationRoundTrip(contextId: int, info: Bytes)
    requires |UserInformation(contextId, info)| < LENGTH_LIMIT
    ensures var external := Tagged(0x28, Integer(contextId, 0x02) + Tagged(0xA0, info));
            && UserInformation(contextId, info) == Tagged(0xBE, external)
            && ExternalOf(LowTag(0xBE, external)) == Ok(Some(info))
  {
    hide Tagged, Elements, IntegerContent, FieldOctets;
    var fs := [Field(0x02, IntegerContent(contextId)), Field(0xA0, info)];
    TwoFields(fs[0], fs[1]);
    ChildrenOf(0x28, fs);
    var external := [Field(0x28, FieldOctets(fs))];
    OneField(external[0]);
    ChildrenOf(0xBE, external);
    var ts := FieldTlvs(fs);
    assert ts[1..][0] == LowTag(0xA0, info);
    assert FirstDataValue(ts) == Some(info);
    assert FieldTlvs(external)[0] == LowTag(0x28, FieldOctets(fs));
  }

  /** A context as it is offered: its number, its abstract syntax, and BER to transfer it in. */
  predicate Offers(t: Tlv, context: int, syntax: seq<nat>) {
    t.Is(Universal, 16) && t.Children().Ok?
    && var cs := t.Children().value;
    && |cs| == 3 && cs[0].Is(Universal, 2) && cs[0].AsInt() == Ok(context)
    && cs[1].Is(Universal, 6) && cs[1].AsOid() == Ok(syntax)
    && cs[2].Is(Universal, 16) && cs[2].Children().Ok? && |cs[2].Children().value| == 1
    && cs[2].Children().value[0].Is(Universal, 6) && cs[2].Children().value[0].AsOid() == Ok([2, 1, 1])
  }

  lemma OfferRead(context: int, syntax: seq<nat>)
    requires OidAccepted(syntax) && OidAccepted(BER_TRANSFER_SYNTAX)
    ensures var ts := Tagged(0x30, KnownOid(BER_TRANSFER_SYNTAX));
            var value := Integer(context, 0x02) + KnownOid(syntax) + ts;
            |value| < LENGTH_LIMIT ==> Offers(LowTag(0x30, value), context, syntax)
  {
    hide Tagged, Elements, IntegerContent, OidArcs, SubIdOctets, SubIds;
    var oid := Field(0x06, SubIdOctets(SubIds(BER_TRANSFER_SYNTAX)));
    OneField(oid);
    var fs := [Field(0x02, IntegerContent(context)), Field(0x06, SubIdOctets(SubIds(syntax)))];
    var transfer := Field(0x30, FieldOctets([oid]));
    TwoFields(fs[0], fs[1]);
    OneField(transfer);
    FieldOctetsAppend(fs, [transfer]);
    var value := FieldOctets(fs + [transfer]);
    if |value| < LENGTH_LIMIT {
      ChildrenOf(0x30, fs + [transfer]);
      ChildrenOf(0x30, [oid]);
      IntegerField(0x02, context);
      OidRoundTrip(syntax);
      OidRoundTrip(BER_TRANSFER_SYNTAX);
      var ts := FieldTlvs(fs + [transfer]);
      assert ts[2] == LowTag(0x30, FieldOctets([oid]));
      assert FieldTlvs([oid])[0] == LowTag(0x06, oid.value);
    }
  }

  /** A CP PPDU offers context 1 for ACSE and context 3 for MMS. */
  lemma ContextListRead()
    ensures var ts := Elements(PresentationContextList());
            && ts.Ok? && |ts.value| == 2
            && Offers(ts.value[0], 1, [2, 2, 1, 0, 1]) && Offers(ts.value[1], 3, [1, 0, 9506, 2, 1])
  {
    SyntaxesAccepted();
    ContextListSize();
    hide Tagged, Elements, IntegerContent, Offers, KnownOid, Integer;
    var ts := Tagged(0x30, KnownOid(BER_TRANSFER_SYNTAX));
    var a := Integer(ACSE_CONTEXT_ID, 0x02) + KnownOid(ACSE_ABSTRACT_SYNTAX) + ts;
    var b := Integer(MMS_CONTEXT_ID, 0x02) + KnownOid(MMS_ABSTRACT_SYNTAX) + ts;
    OfferRead(1, ACSE_ABSTRACT_SYNTAX);
    OfferRead(3, MMS_ABSTRACT_SYNTAX);
    TwoElements(a, b);
  }

  lemma TwoElements(a: Bytes, b: Bytes)
    requires |a| < 1000 && |b| < 1000
    ensures Elements(Tagged(0x30, a) + Tagged(0x30, b)) == Ok([LowTag(0x30, a), LowTag(0x30, b)])
  {
    TaggedSize(0x30, a);
    TaggedSize(0x30, b);
    hide Tagged, Elements, LowTag;
    var fs := [Field(0x30, a), Field(0x30, b)];
    TwoFields(fs[0], fs[1]);
    FieldsDecode(fs);
    assert FieldTlvs(fs) == [LowTag(0x30, a), LowTag(0x30, b)];
  }

  lemma TaggedSize(tag: byte, value: Bytes)
    requires |value| < 1000
    ensures |Tagged(tag, value)| < 2000
  {
    LengthRoundTrip(|value|, []);
  }

  lemma ContextListSize()
    requires OidAccepted(BER_TRANSFER_SYNTAX) && OidAccepted(ACSE_ABSTRACT_SYNTAX) && OidAccepted(MMS_ABSTRACT_SYNTAX)
    ensures |KnownOid(BER_TRANSFER_SYNTAX)| < 100 && |KnownOid(ACSE_ABSTRACT_SYNTAX)| < 100 && |KnownOid(MMS_ABSTRACT_SYNTAX)| < 100
    ensures |Tagged(0x30, KnownOid(BER_TRANSFER_SYNTAX))| < 200
    ensures |Integer(ACSE_CONTEXT_ID, 0x02)| < 100 && |Integer(MMS_CONTEXT_ID, 0x02)| < 100
  {
  }

  /** The application context of every request. */
  lemma ApplicationContextRoundTrip()
    ensures var oid := KnownOid(MMS_APPLICATION_CONTEXT);
            |oid| < 128 ==> ApTitle(LowTag(0xA1, oid)) == Ok(Some(MMS_APPLICATION_CONTEXT))
  {
    var content := SubIdOctets(SubIds(MMS_APPLICATION_CONTEXT));
    var oid := KnownOid(MMS_APPLICATION_CONTEXT);
    if |oid| < 128 {
      var fs := [Field(0x06, content)];
      OneField(fs[0]);
      ChildrenOf(0xA1, fs);
      OidRoundTrip(MMS_APPLICATION_CONTEXT);
      assert FieldTlvs(fs)[0] == LowTag(0x06, content);
    }
  }

  lemma ApplicationContextSize()
    ensures |KnownOid(MMS_APPLICATION_CONTEXT)| < 128
  {
  }

  function AarqSkipped(callingTitle: Option<seq<int>>, callingQualifier: Option<int>,
                       calledTitle: Option<seq<int>>, calledQualifier: Option<int>): seq<Field>
    requires ApTitleField(0xA2, calledTitle).Ok? && ApTitleField(0xA6, callingTitle).Ok?
  {
    TitleFields(0xA2, calledTitle) + QualifierFields(0xA3, calledQualifier)
    + TitleFields(0xA6, callingTitle) + QualifierFields(0xA7, callingQualifier)
  }

  lemma AarqSkippedOctets(callingTitle: Option<seq<int>>, callingQualifier: Option<int>,
                          calledTitle: Option<seq<int>>, calledQualifier: Option<int>)
    requires ApTitleField(0xA2, calledTitle).Ok? && ApTitleField(0xA6, callingTitle).Ok?
    ensures FieldOctets(AarqSkipped(callingTitle, callingQualifier, calledTitle, calledQualifier)) ==
            ApTitleField(0xA2, calledTitle).value + AeQualifierField(0xA3, calledQualifier)
            + ApTitleField(0xA6, callingTitle).value + AeQualifierField(0xA7, callingQualifier)
  {
    hide Tagged, FieldOctets, IntegerContent, Oid;
    var a, b := TitleFields(0xA2, calledTitle), QualifierFields(0xA3, calledQualifier);
    var c, d := TitleFields(0xA6, callingTitle), QualifierFields(0xA7, callingQualifier);
    TitleFieldOctets(0xA2, calledTitle);
    QualifierFieldOctets(0xA3, calledQualifier);
    TitleFieldOctets(0xA6, callingTitle);
    QualifierFieldOctets(0xA7, callingQualifier);
    FieldOctetsAppend(a, b);
    FieldOctetsAppend(a + b, c);
    FieldOctetsAppend(a + b + c, d);
  }

  lemma AarqSkippedTags(callingTitle: Option<seq<int>>, callingQualifier: Option<int>,
                        calledTitle: Option<seq<int>>, calledQualifier: Option<int>)
    requires ApTitleField(0xA2, calledTitle).Ok? && ApTitleField(0xA6, callingTitle).Ok?
    ensures forall f :: f in AarqSkipped(callingTitle, callingQualifier, calledTitle, calledQualifier) ==>
                          f.tag in [0xA2, 0xA3, 0xA6, 0xA7]
  {
  }

  function AarqFields(info: Bytes, skipped: seq<Field>): seq<Field> {
    var external := Tagged(0x28, Integer(MMS_CONTEXT_ID, 0x02) + Tagged(0xA0, info));
    [Field(0xA1, KnownOid(MMS_APPLICATION_CONTEXT))] + (skipped + [Field(0xBE, external)])
  }

  lemma AarqOctets(info: Bytes, callingTitle: Option<seq<int>>, callingQualifier: Option<int>,
                   calledTitle: Option<seq<int>>, calledQualifier: Option<int>)
    requires AcseAarq(info, callingTitle, callingQualifier, calledTitle, calledQualifier).Ok?
    ensures ApTitleField(0xA2, calledTitle).Ok? && ApTitleField(0xA6, callingTitle).Ok?
    ensures var skipped := AarqSkipped(callingTitle, callingQualifier, calledTitle, calledQualifier);
            AcseAarq(info, callingTitle, callingQualifier, calledTitle, calledQualifier).value ==
            Tagged(0x60, FieldOctets(AarqFields(info, skipped)))
  {
    hide Tagged, FieldOctets, IntegerContent, KnownOid, AarqSkipped, ApTitleField, AeQualifierField;
    var context := [Field(0xA1, KnownOid(MMS_APPLICATION_CONTEXT))];
    var last := [Field(0xBE, Tagged(0x28, Integer(MMS_CONTEXT_ID, 0x02) + Tagged(0xA0, info)))];
    var skipped := AarqSkipped(callingTitle, callingQualifier, calledTitle, calledQualifier);
    AarqSkippedOctets(callingTitle, callingQualifier, calledTitle, calledQualifier);
    OneField(context[0]);
    OneField(last[0]);
    FieldOctetsAppend(skipped, last);
    FieldOctetsAppend(context, skipped + last);
    Regrouped(Tagged(0xA1, context[0].value), ApTitleField(0xA2, calledTitle).value, AeQualifierField(0xA3, calledQualifier),
              ApTitleField(0xA6, callingTitle).value, AeQualifierField(0xA7, callingQualifier), UserInformation(MMS_CONTEXT_ID, info));
  }

  lemma Regrouped(o: Bytes, a: Bytes, b: Bytes, c: Bytes, d: Bytes, u: Bytes)
    ensures o + ((a + b + c + d) + u) == o + a + b + c + d + u
  {
  }

  function AarqWithContext(): AcsePdu {
    EmptyAcse(AARQ).(applicationContext := Some(MMS_APPLICATION_CONTEXT))
  }

  lemma AarqContextField()
    ensures AcseField(LowTag(0xA1, KnownOid(MMS_APPLICATION_CONTEXT)), EmptyAcse(AARQ)) == Ok(AarqWithContext())
  {
    hide Tagged, Elements, KnownOid, ExternalOf, ApTitle, OidArcs;
    ApplicationContextSize();
    ApplicationContextRoundTrip();
  }

  lemma AarqInformationField(info: Bytes)
    requires |UserInformation(MMS_CONTEXT_ID, info)| < LENGTH_LIMIT
    ensures var external := Tagged(0x28, Integer(MMS_CONTEXT_ID, 0x02) + Tagged(0xA0, info));
            AcseField(LowTag(0xBE, external), AarqWithContext()) == Ok(AarqWithContext().(userInformation := Some(info)))
  {
    hide Tagged, Elements, IntegerContent, ExternalOf, ApTitle, OidArcs;
    UserInformationRoundTrip(MMS_CONTEXT_ID, info);
  }

  lemma AarqSkippable(skipped: seq<Field>)
    requires forall f :: f in skipped ==> f.tag in [0xA2, 0xA3, 0xA6, 0xA7]
    ensures forall t :: t in FieldTlvs(skipped) ==> AarqIgnores(t)
  {
  }

  lemma AarqFieldsRead(info: Bytes, skipped: seq<Field>)
    requires forall f :: f in skipped ==> f.tag in [0xA2, 0xA3, 0xA6, 0xA7]
    requires |UserInformation(MMS_CONTEXT_ID, info)| < LENGTH_LIMIT
    ensures AcseFields(FieldTlvs(AarqFields(info, skipped)), EmptyAcse(AARQ)) ==
            Ok(AarqWithContext().(userInformation := Some(info)))
  {
    hide Tagged, KnownOid, AcseFields, AcseField, FieldOctets, Integer;
    var external := Tagged(0x28, Integer(MMS_CONTEXT_ID, 0x02) + Tagged(0xA0, info));
    var context := Field(0xA1, KnownOid(MMS_APPLICATION_CONTEXT));
    var last := [Field(0xBE, external)];
    FieldOctetsAppend([context], skipped + last);
    FieldOctetsAppend(skipped, last);
    AarqContextField();
    AarqInformationField(info);
    var p := AarqWithContext();
    var t := LowTag(0xBE, external);
    assert FieldTlvs(last) == [t];
    OneAcseField(t, p, p.(userInformation := Some(info)));
    AarqSkippable(skipped);
    AcseFieldsSkip(FieldTlvs(skipped), [t], p);
    assert FieldTlvs([context]) == [LowTag(0xA1, context.value)];
    FirstAcseField(LowTag(0xA1, context.value), FieldTlvs(skipped) + [t], EmptyAcse(AARQ), p);
  }

  lemma OneAcseField(t: Tlv, p: AcsePdu, q: AcsePdu)
    requires AcseField(t, p) == Ok(q)
    ensures AcseFields([t], p) == Ok(q)
  {
  }

  lemma FirstAcseField(t: Tlv, ts: seq<Tlv>, p: AcsePdu, q: AcsePdu)
    requires AcseField(t, p) == Ok(q)
    ensures AcseFields([t] + ts, p) == AcseFields(ts, q)
  {
  }

  /** An association request reads back its application context and the MMS PDU it carries, whatever
      titles and qualifiers it names. */
  lemma AarqRoundTrip(info: Bytes, callingTitle: Option<seq<int>>, callingQualifier: Option<int>,
                      calledTitle: Option<seq<int>>, calledQualifier: Option<int>)
    requires AcseAarq(info, callingTitle, callingQualifier, calledTitle, calledQualifier).Ok?
    requires |AcseAarq(info, callingTitle, callingQualifier, calledTitle, calledQualifier).value| < LENGTH_LIMIT
    ensures Acse(AcseAarq(info, callingTitle, callingQualifier, calledTitle, calledQualifier).value) ==
            Ok(EmptyAcse(AARQ).(applicationContext := Some(MMS_APPLICATION_CONTEXT), userInformation := Some(info)))
  {
    AarqOctets(info, callingTitle, callingQualifier, calledTitle, calledQualifier);
    AarqSkippedTags(callingTitle, callingQualifier, calledTitle, calledQualifier);
    var skipped := AarqSkipped(callingTitle, callingQualifier, calledTitle, calledQualifier);
    AarqParsed(info, skipped);
  }

  lemma AarqParsed(info: Bytes, skipped: seq<Field>)
    requires forall f :: f in skipped ==> f.tag in [0xA2, 0xA3, 0xA6, 0xA7]
    requires |FieldOctets(AarqFields(info, skipped))| < LENGTH_LIMIT
    ensures Acse(Tagged(0x60, FieldOctets(AarqFields(info, skipped)))) ==
            Ok(EmptyAcse(AARQ).(applicationContext := Some(MMS_APPLICATION_CONTEXT), userInformation := Some(info)))
  {
    hide Tagged, Element, ElementAt, Elements, IntegerContent, KnownOid, AcseFields, FieldOctets, FieldTlvs;
    var external := Tagged(0x28, Integer(MMS_CONTEXT_ID, 0x02) + Tagged(0xA0, info));
    var context := [Field(0xA1, KnownOid(MMS_APPLICATION_CONTEXT))];
    var last := [Field(0xBE, external)];
    OneField(last[0]);
    FieldOctetsAppend(skipped, last);
    FieldOctetsAppend(context, skipped + last);
    var fs := AarqFields(info, skipped);
    WholeElement(0x60, FieldOctets(fs));
    ChildrenOf(0x60, fs);
    AarqFieldsRead(info, skipped);
    var top := LowTag(0x60, FieldOctets(fs));
    assert top.cls == Application && KindOf(top.number) == Some(AARQ);
  }

  lemma EndApduRoundTrip(tag: byte, n: int)
    requires tag == 0x62 || tag == 0x64
    requires |Integer(n, 0x80)| < LENGTH_LIMIT
    ensures Acse(Tagged(tag, Integer(n, 0x80))) ==
            Ok(if tag == 0x64 then EmptyAcse(ABRT).(abortSource := Some(n)) else EmptyAcse(RLRQ).(releaseReason := Some(n)))
  {
    hide Tagged, Element, Elements, IntegerContent, FieldOctets;
    var fs := [Field(0x80, IntegerContent(n))];
    OneField(fs[0]);
    WholeElement(tag, FieldOctets(fs));
    ChildrenOf(tag, fs);
    IntegerField(0x80, n);
    var ts := FieldTlvs(fs);
    assert ts == [LowTag(0x80, IntegerContent(n))] && ts[1..] == [];
    var top := LowTag(tag, FieldOctets(fs));
    assert top.cls == Application && KindOf(top.number) == Some(if tag == 0x64 then ABRT else RLRQ);
    var p := EmptyAcse(if tag == 0x64 then ABRT else RLRQ);
    var q := if tag == 0x64 then p.(abortSource := Some(n)) else p.(releaseReason := Some(n));
    assert AcseField(ts[0], p) == Ok(q);
    assert AcseFields(ts[1..], q) == Ok(q);
    assert AcseFields(ts, p) == Ok(q);
  }

  // ---------------------------------------------------------------- MMS

  /** The initiate parameters a request for `p` carries. */
  function InitiateOf(p: AssociateParams): InitiateParams {
    InitiateParams(Some(p.maxPduSize), Some(p.maxServOutstandingCalling), Some(p.maxServOutstandingCalled),
                   p.nestingLevel, Some(p.version), p.parameterCbb, p.servicesSupported)
  }

  lemma BitsRoundTrip(bits: Bits, tag: byte)
    requires BitsField(bits, tag).Ok?
    ensures var unused := 8 * |bits.octets| - bits.count;
            && 0 <= unused <= 7
            && BitsField(bits, tag).value == Tagged(tag, [unused] + bits.octets)
            && BitStringOf([unused] + bits.octets) == Ok((bits.octets, bits.count))
  {
  }

  function DetailFieldsOf(p: AssociateParams): seq<Field>
    requires InitiateDetail(p).Ok?
  {
    [Field(0x80, IntegerContent(p.version)),
     Field(0x81, [8 * |p.parameterCbb.octets| - p.parameterCbb.count] + p.parameterCbb.octets),
     Field(0x82, [8 * |p.servicesSupported.octets| - p.servicesSupported.count] + p.servicesSupported.octets)]
  }

  lemma DetailRoundTrip(p: AssociateParams, q: InitiateParams)
    requires InitiateDetail(p).Ok?
    ensures FieldOctets(DetailFieldsOf(p)) == InitiateDetail(p).value
    ensures DetailFields(FieldTlvs(DetailFieldsOf(p)), q) ==
            Ok(q.(version := Some(p.version), parameterCbb := p.parameterCbb, servicesSupported := p.servicesSupported))
  {
    hide Tagged, Elements, IntegerContent, BitStringOf, BitString;
    BitsRoundTrip(p.parameterCbb, 0x81);
    BitsRoundTrip(p.servicesSupported, 0x82);
    var fs := DetailFieldsOf(p);
    assert fs[1..] == [fs[1], fs[2]];
    TwoFields(fs[1], fs[2]);
    IntegerField(0x80, p.version);
    var ts := FieldTlvs(fs);
    assert ts[1..][0] == ts[1] && ts[1..][1..] == [ts[2]] && [ts[2]][1..] == [];
    var q1 := q.(version := Some(p.version));
    var q2 := q1.(parameterCbb := p.parameterCbb);
    var q3 := q2.(servicesSupported := p.servicesSupported);
    assert DetailField(ts[0], q) == Ok(q1);
    assert DetailField(ts[1], q1) == Ok(q2);
    assert DetailField(ts[2], q2) == Ok(q3);
    assert DetailFields([], q3) == Ok(q3);
    assert DetailFields([ts[2]], q2) == Ok(q3);
    assert DetailFields(ts[1..], q1) == Ok(q3);
  }

  function LevelFields(level: Option<int>): seq<Field> {
    match level
    case None => []
    case Some(n) => [Field(0x83, IntegerContent(n))]
  }

  lemma LevelFieldsRead(level: Option<int>, rest: seq<Tlv>, q: InitiateParams)
    requires q.nestingLevel == None
    ensures FieldOctets(LevelFields(level)) == OptionalInteger(level, 0x83)
    ensures InitiateFields(FieldTlvs(LevelFields(level)) + rest, q) == InitiateFields(rest, q.(nestingLevel := level))
  {
    hide Tagged, Element, Elements, IntegerContent;
    if level.Some? {
      var f := Field(0x83, IntegerContent(level.value));
      OneField(f);
      IntegerField(0x83, level.value);
      var ts := FieldTlvs([f]);
      assert ts + rest == [LowTag(0x83, f.value)] + rest;
      assert (ts + rest)[1..] == rest;
    } else {
      assert FieldTlvs([]) + rest == rest;
    }
  }

  function SizeFieldsOf(p: AssociateParams): seq<Field> {
    [Field(0x80, IntegerContent(p.maxPduSize)), Field(0x81, IntegerContent(p.maxServOutstandingCalling)),
     Field(0x82, IntegerContent(p.maxServOutstandingCalled))]
  }

  lemma SizesRead(p: AssociateParams, rest: seq<Tlv>)
    ensures FieldOctets(SizeFieldsOf(p)) ==
            Integer(p.maxPduSize, 0x80) + Integer(p.maxServOutstandingCalling, 0x81) + Integer(p.maxServOutstandingCalled, 0x82)
    ensures InitiateFields(FieldTlvs(SizeFieldsOf(p)) + rest, NO_INITIATE) ==
            InitiateFields(rest, NO_INITIATE.(maxPduSize := Some(p.maxPduSize),
                                              maxServOutstandingCalling := Some(p.maxServOutstandingCalling),
                                              maxServOutstandingCalled := Some(p.maxServOutstandingCalled)))
  {
    hide Tagged, Elements, IntegerContent;
    var fs := SizeFieldsOf(p);
    assert fs[1..] == [fs[1], fs[2]];
    TwoFields(fs[1], fs[2]);
    IntegerField(0x80, p.maxPduSize);
    IntegerField(0x81, p.maxServOutstandingCalling);
    IntegerField(0x82, p.maxServOutstandingCalled);
    var ts := FieldTlvs(fs);
    var all := ts + rest;
    assert all[1..][1..][1..] == rest && all[1..][0] == ts[1] && all[1..][1..][0] == ts[2];
    var q1 := NO_INITIATE.(maxPduSize := Some(p.maxPduSize));
    var q2 := q1.(maxServOutstandingCalling := Some(p.maxServOutstandingCalling));
    assert InitiateFields(all, NO_INITIATE) == InitiateFields(all[1..], q1);
    assert InitiateFields(all[1..], q1) == InitiateFields(all[1..][1..], q2);
  }

  function InitiateFieldsOf(p: AssociateParams, detail: Bytes): seq<Field> {
    SizeFieldsOf(p) + (LevelFields(p.nestingLevel) + [Field(0xA4, detail)])
  }

  lemma InitiateOctets(p: AssociateParams)
    requires MmsInitiateRequest(p).Ok?
    ensures MmsInitiateRequest(p).value == Tagged(0xA8, FieldOctets(InitiateFieldsOf(p, InitiateDetail(p).value)))
  {
    hide Tagged, Integer, FieldOctets, FieldTlvs, InitiateDetail, InitiateFields, SizeFieldsOf, OptionalInteger, LevelFields;
    var detail := InitiateDetail(p).value;
    var sizes, level, last := SizeFieldsOf(p), LevelFields(p.nestingLevel), [Field(0xA4, detail)];
    OneField(last[0]);
    FieldOctetsAppend(level, last);
    FieldOctetsAppend(sizes, level + last);
    SizesRead(p, []);
    LevelFieldsRead(p.nestingLevel, [], NO_INITIATE);
    Regrouped2(FieldOctets(sizes), FieldOctets(level), Tagged(0xA4, detail));
  }

  lemma Regrouped2(a: Bytes, b: Bytes, c: Bytes)
    ensures a + (b + c) == a + b + c
  {
  }

  lemma InitiateTags(p: AssociateParams, detail: Bytes)
    ensures forall f :: f in InitiateFieldsOf(p, detail) ==> f.tag % 32 < 31
  {
  }

  lemma InitiateDetailField(p: AssociateParams, q: InitiateParams)
    requires InitiateDetail(p).Ok? && |InitiateDetail(p).value| < LENGTH_LIMIT
    ensures InitiateField(LowTag(0xA4, InitiateDetail(p).value), q) ==
            Ok(q.(version := Some(p.version), parameterCbb := p.parameterCbb, servicesSupported := p.servicesSupported))
  {
    hide Tagged, Elements, IntegerContent, FieldOctets, FieldTlvs, InitiateDetail, DetailFields;
    DetailRoundTrip(p, q);
    ChildrenOf(0xA4, DetailFieldsOf(p));
  }

  lemma OneInitiateField(t: Tlv, p: InitiateParams, q: InitiateParams)
    requires InitiateField(t, p) == Ok(q)
    ensures InitiateFields([t], p) == Ok(q)
  {
  }

  lemma InitiateFieldsRead(p: AssociateParams)
    requires InitiateDetail(p).Ok? && |InitiateDetail(p).value| < LENGTH_LIMIT
    ensures InitiateFields(FieldTlvs(InitiateFieldsOf(p, InitiateDetail(p).value)), NO_INITIATE) == Ok(InitiateOf(p))
  {
    hide Tagged, FieldOctets, InitiateDetail, InitiateFields, InitiateField, FieldTlvs, IntegerContent;
    var detail := InitiateDetail(p).value;
    var level, last := LevelFields(p.nestingLevel), [Field(0xA4, detail)];
    FieldOctetsAppend(level, last);
    FieldOctetsAppend(SizeFieldsOf(p), level + last);
    var t := LowTag(0xA4, detail);
    assert FieldTlvs(last) == [t];
    var q1 := NO_INITIATE.(maxPduSize := Some(p.maxPduSize), maxServOutstandingCalling := Some(p.maxServOutstandingCalling),
                           maxServOutstandingCalled := Some(p.maxServOutstandingCalled));
    var q2 := q1.(nestingLevel := p.nestingLevel);
    SizesRead(p, FieldTlvs(level) + [t]);
    LevelFieldsRead(p.nestingLevel, [t], q1);
    InitiateDetailField(p, q2);
    OneInitiateField(t, q2, InitiateOf(p));
  }

  /** An initiate request reads back exactly the parameters and bit strings it was built from. */
  lemma InitiateRoundTrip(p: AssociateParams)
    requires MmsInitiateRequest(p).Ok? && |MmsInitiateRequest(p).value| < LENGTH_LIMIT
    ensures var b := MmsInitiateRequest(p).value;
            ParseMms(b) == Ok(MmsPdu(8, Some(InitiateOf(p)), None, None, b))
  {
    hide Tagged, Element, ElementAt, Elements, IntegerContent, FieldOctets, FieldTlvs, InitiateDetail, InitiateFields, InitiateFieldsOf;
    var detail := InitiateDetail(p).value;
    var fs := InitiateFieldsOf(p, detail);
    InitiateOctets(p);
    InitiateTags(p, detail);
    InitiateDetailSize(p);
    WholeElement(0xA8, FieldOctets(fs));
    ChildrenOf(0xA8, fs);
    InitiateFieldsRead(p);
    var top := LowTag(0xA8, FieldOctets(fs));
    assert top.cls == Context && top.number == 8 && top.raw == MmsInitiateRequest(p).value;
  }

  lemma InitiateDetailSize(p: AssociateParams)
    requires MmsInitiateRequest(p).Ok?
    ensures |InitiateDetail(p).value| < |MmsInitiateRequest(p).value|
  {
  }

  lemma ConcludeRoundTrip()
    ensures ParseMms(MMS_CONCLUDE_REQUEST) == Ok(MmsPdu(11, None, None, None, MMS_CONCLUDE_REQUEST))
  {
    assert MMS_CONCLUDE_REQUEST == Tagged(0x8B, []);
    WholeElement(0x8B, []);
  }

  // ---------------------------------------------------------------- complete requests

  /** Six layers down: for every parameter set the builder accepts, the association request parses
      back to the session selectors, initiate parameters and bit strings it was built from. */
  lemma AssociationRoundTrip(p: AssociateParams)
    requires AssociationRequest(p).Ok?
    ensures var spdu := ParseSpdu(AssociationRequest(p).value);
            && spdu.Ok?
            && spdu.value.si == SPDU_CN
            && spdu.value.Value(PI_CALLING_SSEL) == Selector(p.callingSsel)
            && spdu.value.Value(PI_CALLED_SSEL) == Selector(p.calledSsel)
            && var ppdu := Ppdu(spdu.value.userData, false);
            && ppdu.Ok?
            && ppdu.value.Apdu(Some(ACSE_CONTEXT_ID)).Some?
            && var acse := Acse(ppdu.value.Apdu(Some(ACSE_CONTEXT_ID)).value);
            && acse.Ok?
            && acse.value.kind == AARQ
            && acse.value.applicationContext == Some(MMS_APPLICATION_CONTEXT)
            && acse.value.userInformation.Some?
            && var mms := ParseMms(acse.value.userInformation.value);
            && mms.Ok?
            && mms.value.initiate == Some(InitiateOf(p))
  {
    hide Tagged, Element, Elements, IntegerContent, Acse, Ppdu, ParseMms, ParseSpdu, PresentationCp, AcseAarq, MmsInitiateRequest, SessionConnect, FirstParam;
    var initiate := MmsInitiateRequest(p).value;
    var aarq := AcseAarq(initiate, p.callingApTitle, p.callingAeQualifier, p.calledApTitle, p.calledAeQualifier).value;
    var cp := PresentationCp(aarq, p.callingPsel, p.calledPsel);
    SessionConnectRoundTrip(cp, p.callingSsel, p.calledSsel);
    CarriedSizes(aarq, p.callingPsel, p.calledPsel);
    PresentationCpRoundTrip(aarq, p.callingPsel, p.calledPsel);
    AarqCarries(initiate, p.callingApTitle, p.callingAeQualifier, p.calledApTitle, p.calledAeQualifier);
    AarqRoundTrip(initiate, p.callingApTitle, p.callingAeQualifier, p.calledApTitle, p.calledAeQualifier);
    InitiateRoundTrip(p);
  }

  lemma CarriedSizes(acse: Bytes, callingPsel: Bytes, calledPsel: Bytes)
    ensures |acse| < |PresentationUserData(ACSE_CONTEXT_ID, acse)|
    ensures |acse| < |PresentationCp(acse, callingPsel, calledPsel)|
  {
  }

  lemma AarqCarries(info: Bytes, callingTitle: Option<seq<int>>, callingQualifier: Option<int>,
                    calledTitle: Option<seq<int>>, calledQualifier: Option<int>)
    requires AcseAarq(info, callingTitle, callingQualifier, calledTitle, calledQualifier).Ok?
    ensures |info| < |AcseAarq(info, callingTitle, callingQualifier, calledTitle, calledQualifier).value|
  {
  }

  /** The connection request, in its TPKT, parses back to the TPDU size and the selectors it was built
      from, unless its selectors bring it to a length of 255. */
  lemma ConnectionRequestRoundTrip(p: AssociateParams)
    requires ConnectionRequest(p).Ok?
    ensures var cr := ConnectionRequest(p).value;
            && Tpkt(cr).Ok? && TpktLength(Tpkt(cr).value) == Ok(|Tpkt(cr).value|)
            && var pdu := ParseCotp(Tpkt(cr).value[TPKT_HEADER..]);
            && (pdu.Ok? <==> CrLength(p.callingTsel, p.calledTsel) != 255)
            && (pdu.Ok? ==> pdu.value.code == COTP_CR && pdu.value.userData == []
                            && pdu.value.params == CrParams(p.tpduSizeCode, p.callingTsel, p.calledTsel))
  {
    hide CotpParams, CrParams, ParseCotp;
    var cr := ConnectionRequest(p).value;
    CotpCrRoundTrip(1, p.tpduSizeCode, p.callingTsel, p.calledTsel, []);
    assert cr + [] == cr;
    TpktRoundTrip(cr, cr);
  }

  /** The conclude request is a DATA TRANSFER that parses back to an MMS conclude-RequestPDU. */
  lemma ConcludeRequestRoundTrip()
    ensures var spdu := ParseSpdu(ConcludeRequest());
            && spdu.Ok? && spdu.value.si == SPDU_DT
            && PresentationData(spdu.value.userData) == Ok([Pdv(Some(MMS_CONTEXT_ID), MMS_CONCLUDE_REQUEST)])
            && ParseMms(MMS_CONCLUDE_REQUEST).Ok? && ParseMms(MMS_CONCLUDE_REQUEST).value.number == 11
  {
    SmallInteger(MMS_CONTEXT_ID);
    SessionDataRoundTrip(PresentationUserData(MMS_CONTEXT_ID, MMS_CONCLUDE_REQUEST));
    PresentationDataRoundTrip(MMS_CONTEXT_ID, MMS_CONCLUDE_REQUEST);
    ConcludeRoundTrip();
  }

  lemma SmallInteger(n: int)
    requires 0 <= n < 128
    ensures IntegerContent(n) == [n]
  {
    assert FromBytes([n]) == n by {
      assert [n][..0] == [];
    }
    IntegerCanonical([n]);
  }

  /** A FINISH SPDU carrying an ACSE release request with reason normal. */
  lemma ReleaseRequestRoundTrip()
    ensures ReleaseRequest().Ok?
    ensures var spdu := ParseSpdu(ReleaseRequest().value);
            && spdu.Ok? && spdu.value.si == SPDU_FN
            && PresentationData(spdu.value.userData) == Ok([Pdv(Some(ACSE_CONTEXT_ID), AcseRlrq(0))])
            && Acse(AcseRlrq(0)) == Ok(EmptyAcse(RLRQ).(releaseReason := Some(0)))
  {
    SmallInteger(0);
    SmallInteger(ACSE_CONTEXT_ID);
    EndApduRoundTrip(0x62, 0);
    var u := PresentationUserData(ACSE_CONTEXT_ID, AcseRlrq(0));
    assert |u| < 64;
    OneParam(Param(PGI_USER_DATA, u));
    SpduRoundTrip(SPDU_FN, [Param(PGI_USER_DATA, u)]);
    PresentationDataRoundTrip(ACSE_CONTEXT_ID, AcseRlrq(0));
  }

  /** An ABORT SPDU carrying an ARU-PPDU with an ACSE abort from the service user. */
  lemma AbortRequestRoundTrip()
    ensures AbortRequest().Ok?
    ensures var spdu := ParseSpdu(AbortRequest().value);
            && spdu.Ok? && spdu.value.si == SPDU_AB && spdu.value.Value(PI_TRANSPORT_DISCONNECT) == Some([0x0b])
            && var ppdu := Ppdu(spdu.value.userData, true);
            && ppdu.Ok? && ppdu.value.kind == ARU
            && ppdu.value.Apdu(Some(ACSE_CONTEXT_ID)) == Some(AcseAbrt(0))
            && Acse(AcseAbrt(0)) == Ok(EmptyAcse(ABRT).(abortSource := Some(0)))
  {
    hide ElementAt, Acse, Ppdu, ParseSpdu;
    SmallInteger(0);
    SmallInteger(ACSE_CONTEXT_ID);
    EndApduRoundTrip(0x64, 0);
    var u := PresentationAru(AcseAbrt(0), ACSE_CONTEXT_ID);
    assert |u| < 64;
    var a, b := Param(PI_TRANSPORT_DISCONNECT, [0x0b]), Param(PGI_USER_DATA, u);
    OneParam(a);
    OneParam(b);
    ParamOctetsAppend([a], [b]);
    assert [a] + [b] == [a, b] && [a, b][1..] == [b];
    SpduRoundTrip(SPDU_AB, [a, b]);
    PresentationAruRoundTrip(AcseAbrt(0), ACSE_CONTEXT_ID);
  }
}

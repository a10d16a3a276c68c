/**
 The parsers of `Iso` read every answer a peer may send back to exactly what it says: for each kind of
 answer, what is in the octets is what is in the parsed value.
 */
module IsoAnswers {
  import opened Results
  import opened Octets
  import opened Ber
  import opened BerLaws
  import opened Iso
  import opened IsoLaws

  // ---------------------------------------------------------------- COTP

  /** Parameters as they stand in a TPDU. */
  function ParamsOctets(ps: seq<(byte, Bytes)>): Bytes
    requires forall p :: p in ps ==> |p.1| < 256
  {
    if ps == [] then [] else [ps[0].0, |ps[0].1|] + ps[0].1 + ParamsOctets(ps[1..])
  }

  /** A parameter that comes again replaces the earlier one. */
  function Overlaid(read: map<byte, Bytes>, ps: seq<(byte, Bytes)>): map<byte, Bytes>
    decreases |ps|
  {
    if ps == [] then read else Overlaid(read[ps[0].0 := ps[0].1], ps[1..])
  }

  lemma {:induction false} ParamsRead(ps: seq<(byte, Bytes)>, read: map<byte, Bytes>)
    requires forall p :: p in ps ==> |p.1| < 256
    ensures CotpParams(ParamsOctets(ps), read) == Ok(Overlaid(read, ps))
  {
    if ps != [] {
      CotpParamsCons(ps[0].0, ps[0].1, ParamsOctets(ps[1..]), read);
      ParamsRead(ps[1..], read[ps[0].0 := ps[0].1]);
    }
  }

  /** With every parameter named once, each is found under its name. */
  lemma {:induction false} OverlaidHas(read: map<byte, Bytes>, ps: seq<(byte, Bytes)>, i: nat)
    requires i < |ps| && forall k :: i < k < |ps| ==> ps[k].0 != ps[i].0
    ensures ps[i].0 in Overlaid(read, ps) && Overlaid(read, ps)[ps[i].0] == ps[i].1
    decreases |ps|
  {
    if i > 0 {
      OverlaidHas(read[ps[0].0 := ps[0].1], ps[1..], i - 1);
    } else {
      OverlaidKeeps(read[ps[0].0 := ps[0].1], ps[1..], ps[0].0);
    }
  }

  lemma {:induction false} OverlaidKeeps(read: map<byte, Bytes>, ps: seq<(byte, Bytes)>, code: byte)
    requires forall k :: 0 <= k < |ps| ==> ps[k].0 != code
    ensures code in Overlaid(read, ps) <==> code in read
    ensures code in read ==> Overlaid(read, ps)[code] == read[code]
    decreases |ps|
  {
    if ps != [] {
      OverlaidKeeps(read[ps[0].0 := ps[0].1], ps[1..], code);
    }
  }

  /** A TPDU with this fixed part and these parameters; `credit` is the low half of its code. */
  function CotpAnswer(code: byte, credit: nat, fixed: Bytes, ps: seq<(byte, Bytes)>, data: Bytes): Bytes
    requires credit < 16 && code % 16 == 0 && |fixed| + |ps| < 255
    requires forall p :: p in ps ==> |p.1| < 256
    requires 1 + |fixed| + |ParamsOctets(ps)| < 255
  {
    [1 + |fixed| + |ParamsOctets(ps)|, code + credit] + fixed + ParamsOctets(ps) + data
  }

  /** Connection requests and confirmations: references, class and parameters. */
  lemma CotpConnectionRead(code: byte, credit: nat, dst: nat, src: nat, cls: byte, ps: seq<(byte, Bytes)>, data: Bytes)
    requires credit < 16 && (code == COTP_CR || code == COTP_CC) && dst <= 0xFFFF && src <= 0xFFFF
    requires (forall p :: p in ps ==> |p.1| < 256) && |ps| < 200 && 6 + |ParamsOctets(ps)| < 255
    ensures ParseCotp(CotpAnswer(code, credit, U16(dst) + U16(src) + [cls], ps, data)) ==
            Ok(CotpPdu(code, Some(dst), Some(src), Some(cls), None, Overlaid(map[], ps), data, true))
  {
    hide CotpParams, ParamsOctets, FromBytes;
    var tpdu := CotpAnswer(code, credit, U16(dst) + U16(src) + [cls], ps, data);
    var header := tpdu[1..tpdu[0] + 1];
    assert header == [code + credit] + U16(dst) + U16(src) + [cls] + ParamsOctets(ps);
    assert tpdu[tpdu[0] + 1..] == data && header[6..] == ParamsOctets(ps);
    ParamsRead(ps, map[]);
    TwoOctets(dst, header[1..3]);
    TwoOctets(src, header[3..5]);
    assert header[0] / 16 * 16 == code;
  }

  /** Disconnect requests: references and reason. */
  lemma CotpDisconnectRead(credit: nat, dst: nat, src: nat, reason: byte, ps: seq<(byte, Bytes)>, data: Bytes)
    requires credit < 16 && dst <= 0xFFFF && src <= 0xFFFF
    requires (forall p :: p in ps ==> |p.1| < 256) && |ps| < 200 && 6 + |ParamsOctets(ps)| < 255
    ensures ParseCotp(CotpAnswer(COTP_DR, credit, U16(dst) + U16(src) + [reason], ps, data)) ==
            Ok(CotpPdu(COTP_DR, Some(dst), Some(src), None, Some(reason), Overlaid(map[], ps), data, true))
  {
    hide CotpParams, ParamsOctets, FromBytes;
    var tpdu := CotpAnswer(COTP_DR, credit, U16(dst) + U16(src) + [reason], ps, data);
    var header := tpdu[1..tpdu[0] + 1];
    assert header == [COTP_DR + credit] + U16(dst) + U16(src) + [reason] + ParamsOctets(ps);
    assert tpdu[tpdu[0] + 1..] == data && header[6..] == ParamsOctets(ps);
    ParamsRead(ps, map[]);
    TwoOctets(dst, header[1..3]);
    TwoOctets(src, header[3..5]);
    assert header[0] / 16 * 16 == COTP_DR;
  }

  /** Error TPDUs: the reference and the reject cause. */
  lemma CotpErrorRead(credit: nat, dst: nat, cause: byte, ps: seq<(byte, Bytes)>, data: Bytes)
    requires credit < 16 && dst <= 0xFFFF
    requires (forall p :: p in ps ==> |p.1| < 256) && |ps| < 200 && 6 + |ParamsOctets(ps)| < 255
    ensures ParseCotp(CotpAnswer(COTP_ER, credit, U16(dst) + [cause], ps, data)) ==
            Ok(CotpPdu(COTP_ER, Some(dst), None, None, Some(cause), Overlaid(map[], ps), [], true))
  {
    hide CotpParams, ParamsOctets, FromBytes;
    var tpdu := CotpAnswer(COTP_ER, credit, U16(dst) + [cause], ps, data);
    var header := tpdu[1..tpdu[0] + 1];
    assert header == [COTP_ER + credit] + U16(dst) + [cause] + ParamsOctets(ps);
    assert header[4..] == ParamsOctets(ps);
    ParamsRead(ps, map[]);
    TwoOctets(dst, header[1..3]);
    assert header[0] / 16 * 16 == COTP_ER;
  }

  /** Disconnect confirmations: the reference. */
  lemma CotpDisconnectConfirmRead(credit: nat, dst: nat, data: Bytes)
    requires credit < 16 && dst <= 0xFFFF
    ensures ParseCotp(CotpAnswer(COTP_DC, credit, U16(dst), [], data)) ==
            Ok(CotpPdu(COTP_DC, Some(dst), None, None, None, map[], [], true))
  {
    hide FromBytes;
    var tpdu := CotpAnswer(COTP_DC, credit, U16(dst), [], data);
    var header := tpdu[1..tpdu[0] + 1];
    assert header == [COTP_DC + credit] + U16(dst);
    TwoOctets(dst, header[1..3]);
    assert header[0] / 16 * 16 == COTP_DC;
  }

  /** Of a TPDU of any other type the code and the user data are kept. */
  lemma CotpOtherRead(code: byte, credit: nat, fixed: Bytes, data: Bytes)
    requires credit < 16 && code % 16 == 0 && |fixed| < 250
    requires code != COTP_CR && code != COTP_CC && code != COTP_DR && code != COTP_ER && code != COTP_DT && code != COTP_DC
    ensures ParseCotp(CotpAnswer(code, credit, fixed, [], data)) ==
            Ok(CotpPdu(code, None, None, None, None, map[], data, true))
  {
    hide FromBytes;
    var tpdu := CotpAnswer(code, credit, fixed, [], data);
    var header := tpdu[1..tpdu[0] + 1];
    assert header == [code + credit] + fixed;
    assert tpdu[tpdu[0] + 1..] == data;
    assert header[0] / 16 * 16 == code;
  }

  // ---------------------------------------------------------------- session

  /** An SPDU with these parameters. */
  predicate CanBeWritten(si: byte, ps: seq<Param>) {
    si != SPDU_DT && ParamOctets(ps).Ok? && SessionParam(si, ParamOctets(ps).value).Ok?
  }

  /** The user data of an answer other than a refusal is that of its first user data parameter, or else of its
      first extended one. */
  lemma UserDataOfSpdu(si: byte, before: seq<Param>, user: Param, after: seq<Param>)
    requires si != SPDU_RF && CanBeWritten(si, before + [user] + after)
    requires FirstParam(before, PGI_USER_DATA).None?
    requires || user.code == PGI_USER_DATA
             || (user.code == PGI_EXTENDED_USER_DATA && FirstParam(before, PGI_EXTENDED_USER_DATA).None? && FirstParam(after, PGI_USER_DATA).None?)
    ensures ParseSpdu(SessionParam(si, ParamOctets(before + [user] + after).value).value) ==
            Ok(Spdu(si, before + [user] + after, user.value))
  {
    hide ParseSpdu, SessionParam, ParamOctets;
    var ps := before + [user] + after;
    SpduRoundTrip(si, ps);
    FirstParamAfter(before + [user], after, PGI_USER_DATA);
    FirstParamAfter(before, [user], PGI_USER_DATA);
    FirstParamAfter(before + [user], after, PGI_EXTENDED_USER_DATA);
    FirstParamAfter(before, [user], PGI_EXTENDED_USER_DATA);
    assert [user][1..] == [];
  }

  /** A refusal carries its reason, and behind it, where there is anything behind it, the user data. */
  lemma RefusalRead(before: seq<Param>, reason: byte, carried: Bytes, after: seq<Param>)
    requires FirstParam(before, PI_REASON_CODE).None?
    requires CanBeWritten(SPDU_RF, before + [Param(PI_REASON_CODE, [reason] + carried)] + after)
    ensures var ps := before + [Param(PI_REASON_CODE, [reason] + carried)] + after;
            var spdu := ParseSpdu(SessionParam(SPDU_RF, ParamOctets(ps).value).value);
            && spdu.Ok? && spdu.value.si == SPDU_RF && spdu.value.params == ps
            && spdu.value.Value(PI_REASON_CODE) == Some([reason] + carried)
            && spdu.value.userData == if carried != [] then carried
                                      else if FirstParam(ps, PGI_USER_DATA).Some? then FirstParam(ps, PGI_USER_DATA).value
                                      else FirstParam(ps, PGI_EXTENDED_USER_DATA).GetOr([])
  {
    hide ParseSpdu, SessionParam, ParamOctets;
    var code := Param(PI_REASON_CODE, [reason] + carried);
    var ps := before + [code] + after;
    SpduRoundTrip(SPDU_RF, ps);
    FirstParamAfter(before + [code], after, PI_REASON_CODE);
    FirstParamAfter(before, [code], PI_REASON_CODE);
    assert ([reason] + carried)[1..] == carried;
  }

  /** User information follows GIVE TOKENS and DATA TRANSFER. */
  lemma TokensThenData(user: Bytes)
    ensures ParseSpdu([SPDU_DT, 0, SPDU_DT, 0] + user) == Ok(Spdu(SPDU_DT, [], user))
  {
    var b := [SPDU_DT, 0, SPDU_DT, 0] + user;
    assert b[2..][0] == SPDU_DT && b[2..][1] == 0;
    assert b[4..4] == [] && b[4..] == user;
  }

  // ---------------------------------------------------------------- ACSE

  /** What an ACSE APDU may hold. `Reason` is the release reason, or the source of an abort. */
  datatype AcseItem =
    | ContextName(arcs: seq<nat>)
    | Outcome(result: int)
    | Diagnosis(source: nat, code: int)
    | Responder(arcs: seq<nat>)
    | Qualifier(n: int)
    | Mechanism(arcs: seq<nat>)
    | Reason(n: int)
    | AbortDiagnosis(n: int)
    | Information(contextId: int, info: Bytes)

  predicate Belongs(kind: AcseKind, item: AcseItem) {
    match item
    case ContextName(arcs) => (kind == AARQ || kind == AARE) && OidAccepted(arcs)
    case Outcome(_) => kind == AARE
    case Diagnosis(source, _) => kind == AARE && source < 31
    case Responder(arcs) => kind == AARE && OidAccepted(arcs)
    case Qualifier(_) => kind == AARE
    case Mechanism(arcs) => (kind == AARQ || kind == AARE) && OidAccepted(arcs)
    case Reason(_) => kind != AARQ && kind != AARE
    case AbortDiagnosis(_) => kind == ABRT
    case Information(_, _) => true
  }

  /** The field an item is sent in (ISO/IEC 8650-1 section 9). */
  function ItemField(kind: AcseKind, item: AcseItem): Field
    requires Belongs(kind, item)
  {
    match item
    case ContextName(arcs) => Field(0xA1, Oid(arcs, 0x06).value)
    case Outcome(n) => Field(0xA2, Integer(n, 0x02))
    case Diagnosis(source, n) => Field(0xA3, Tagged(0xA0 + source, Integer(n, 0x02)))
    case Responder(arcs) => Field(0xA4, Oid(arcs, 0x06).value)
    case Qualifier(n) => Field(0xA5, Integer(n, 0x02))
    case Mechanism(arcs) => Field(if kind == AARE then 0x89 else 0x8B, OidContent(arcs).value)
    case Reason(n) => Field(0x80, IntegerContent(n))
    case AbortDiagnosis(n) => Field(0x81, IntegerContent(n))
    case Information(c, info) => Field(0xBE, Tagged(0x28, Integer(c, 0x02) + Tagged(0xA0, info)))
  }

  function WithItem(p: AcsePdu, item: AcseItem): AcsePdu {
    match item
    case ContextName(arcs) => p.(applicationContext := Some(arcs))
    case Outcome(n) => p.(result := Some(n))
    case Diagnosis(source, n) => p.(diagnosticSource := Some(source), diagnostic := Some(n))
    case Responder(arcs) => p.(respondingApTitle := Some(arcs))
    case Qualifier(n) => p.(respondingAeQualifier := Some(n))
    case Mechanism(arcs) => p.(mechanismName := Some(arcs))
    case Reason(n) => if p.kind == ABRT then p.(abortSource := Some(n)) else p.(releaseReason := Some(n))
    case AbortDiagnosis(n) => p.(abortDiagnostic := Some(n))
    case Information(_, info) => p.(userInformation := Some(info))
  }

  lemma InnerIntRead(tag: byte, n: int)
    requires IsConstructed(tag) && |Integer(n, 0x02)| < LENGTH_LIMIT
    ensures InnerInt(LowTag(tag, Integer(n, 0x02))) == Ok(Some(n))
  {
    hide Tagged, Elements, IntegerContent;
    var fs := [Field(0x02, IntegerContent(n))];
    OneField(fs[0]);
    ChildrenOf(tag, fs);
    IntegerField(0x02, n);
    assert FieldTlvs(fs)[0] == LowTag(0x02, IntegerContent(n));
  }

  lemma ApTitleRead(tag: byte, arcs: seq<nat>)
    requires IsConstructed(tag) && OidAccepted(arcs) && |Oid(arcs, 0x06).value| < LENGTH_LIMIT
    ensures ApTitle(LowTag(tag, Oid(arcs, 0x06).value)) == Ok(Some(arcs))
  {
    hide Tagged, Elements, OidArcs, SubIdOctets;
    var fs := [Field(0x06, OidContent(arcs).value)];
    OneField(fs[0]);
    ChildrenOf(tag, fs);
    OidRoundTrip(arcs);
    assert FieldTlvs(fs)[0] == LowTag(0x06, OidContent(arcs).value);
  }

  lemma DiagnosisRead(source: nat, n: int, p: AcsePdu)
    requires source < 31 && |Tagged(0xA0 + source, Integer(n, 0x02))| < LENGTH_LIMIT
    ensures var t := LowTag(0xA3, Tagged(0xA0 + source, Integer(n, 0x02)));
            t.Children().Ok? && Diagnostics(t.Children().value, p) == Ok(p.(diagnosticSource := Some(source), diagnostic := Some(n)))
  {
    hide Tagged, Elements, IntegerContent;
    var fs := [Field(0xA0 + source, Integer(n, 0x02))];
    OneField(fs[0]);
    ChildrenOf(0xA3, fs);
    InnerIntRead(0xA0 + source, n);
    var ds := FieldTlvs(fs);
    assert ds == [LowTag(0xA0 + source, Integer(n, 0x02))] && ds[1..] == [];
    var q := p.(diagnosticSource := Some(source), diagnostic := Some(n));
    assert Diagnostics([], q) == Ok(q);
  }

  /** One item of any kind is read to its own value and changes no other. */
  lemma ItemRead(item: AcseItem, p: AcsePdu)
    requires Belongs(p.kind, item) && |ItemField(p.kind, item).value| < LENGTH_LIMIT
    ensures var f := ItemField(p.kind, item);
            f.tag % 32 < 31 && AcseField(LowTag(f.tag, f.value), p) == Ok(WithItem(p, item))
  {
    hide Tagged, Elements, IntegerContent, ApTitle, InnerInt, ExternalOf, Diagnostics, OidArcs, SubIdOctets, SubIds;
    match item {
      case ContextName(arcs) => ApTitleRead(0xA1, arcs);
      case Outcome(n) => InnerIntRead(0xA2, n);
      case Diagnosis(source, n) => DiagnosisRead(source, n, p);
      case Responder(arcs) => ApTitleRead(0xA4, arcs);
      case Qualifier(n) => InnerIntRead(0xA5, n);
      case Mechanism(arcs) => MechanismRead(arcs);
      case Reason(n) => IntegerField(0x80, n);
      case AbortDiagnosis(n) => IntegerField(0x81, n);
      case Information(c, info) => UserInformationRead(c, info);
    }
  }

  /** An empty mechanism name stands for none. */
  lemma EmptyMechanism(p: AcsePdu)
    requires p.kind == AARE || p.kind == AARQ
    ensures AcseField(LowTag(if p.kind == AARE then 0x89 else 0x8B, []), p) == Ok(p.(mechanismName := None))
  {
  }

  lemma MechanismRead(arcs: seq<nat>)
    requires OidAccepted(arcs)
    ensures var content := OidContent(arcs).value;
            content != [] && OidArcs(content) == Ok(arcs)
  {
    OidRoundTrip(arcs);
  }

  lemma UserInformationRead(contextId: int, info: Bytes)
    requires |Tagged(0x28, Integer(contextId, 0x02) + Tagged(0xA0, info))| < LENGTH_LIMIT
    ensures ExternalOf(LowTag(0xBE, Tagged(0x28, Integer(contextId, 0x02) + Tagged(0xA0, info)))) == Ok(Some(info))
  {
    hide Tagged, Elements, IntegerContent, FieldOctets;
    var fs := [Field(0x02, IntegerContent(contextId)), Field(0xA0, info)];
    TwoFields(fs[0], fs[1]);
    ChildrenOf(0x28, fs);
    var external := [Field(0x28, FieldOctets(fs))];
    OneField(external[0]);
    ChildrenOf(0xBE, external);
    var ts := FieldTlvs(fs);
    assert ts[1..][0] == LowTag(0xA0, info);
    assert FirstDataValue(ts) == Some(info);
    assert FieldTlvs(external)[0] == LowTag(0x28, FieldOctets(fs));
  }

  predicate AllBelong(kind: AcseKind, items: seq<AcseItem>) {
    forall i :: i in items ==> Belongs(kind, i)
  }

  function ItemFields(kind: AcseKind, items: seq<AcseItem>): (fs: seq<Field>)
    requires AllBelong(kind, items)
    ensures |fs| == |items|
  {
    if items == [] then []
    else
      assert items[0] in items && forall i :: i in items[1..] ==> i in items;
      [ItemField(kind, items[0])] + ItemFields(kind, items[1..])
  }

  function WithItems(p: AcsePdu, items: seq<AcseItem>): AcsePdu
    decreases |items|
  {
    if items == [] then p else WithItems(WithItem(p, items[0]), items[1..])
  }

  /** Items in any order and number. */
  lemma {:induction false} ItemsRead(items: seq<AcseItem>, p: AcsePdu)
    requires AllBelong(p.kind, items) && |FieldOctets(ItemFields(p.kind, items))| < LENGTH_LIMIT
    ensures (forall f :: f in ItemFields(p.kind, items) ==> f.tag % 32 < 31)
    ensures AcseFields(FieldTlvs(ItemFields(p.kind, items)), p) == Ok(WithItems(p, items))
  {
    if items != [] {
      hide AcseField, ItemField, Tagged;
      assert items[0] in items && forall i :: i in items[1..] ==> i in items;
      var f, rest := ItemField(p.kind, items[0]), ItemFields(p.kind, items[1..]);
      FirstFieldFits(f, rest);
      ItemRead(items[0], p);
      KindStays(p, items[0]);
      ItemsRead(items[1..], WithItem(p, items[0]));
      FirstAcseField(LowTag(f.tag, f.value), FieldTlvs(rest), p, WithItem(p, items[0]));
      assert FieldTlvs([f] + rest) == [LowTag(f.tag, f.value)] + FieldTlvs(rest);
    }
  }

  lemma KindStays(p: AcsePdu, item: AcseItem)
    ensures WithItem(p, item).kind == p.kind
  {
  }

  lemma FirstFieldFits(f: Field, rest: seq<Field>)
    ensures |f.value| < |FieldOctets([f] + rest)| && |FieldOctets(rest)| < |FieldOctets([f] + rest)|
  {
    assert ([f] + rest)[1..] == rest;
  }

  function KindNumber(kind: AcseKind): byte {
    match kind
    case AARQ => 0
    case AARE => 1
    case RLRQ => 2
    case RLRE => 3
    case ABRT => 4
  }

  function AcseOctets(kind: AcseKind, items: seq<AcseItem>): Bytes
    requires AllBelong(kind, items)
  {
    Tagged(0x60 + KindNumber(kind), FieldOctets(ItemFields(kind, items)))
  }

  /** An APDU of any kind with any items in any order: the last item of each sort is what is read. */
  lemma AcseItemsRead(kind: AcseKind, items: seq<AcseItem>)
    requires AllBelong(kind, items) && |AcseOctets(kind, items)| < LENGTH_LIMIT
    ensures Acse(AcseOctets(kind, items)) == Ok(WithItems(EmptyAcse(kind), items))
  {
    hide Tagged, ElementAt, Elements, FieldOctets, FieldTlvs, ItemField, AcseFields;
    var fs := ItemFields(kind, items);
    ItemsRead(items, EmptyAcse(kind));
    WholeElement(0x60 + KindNumber(kind), FieldOctets(fs));
    ChildrenOf(0x60 + KindNumber(kind), fs);
    var top := LowTag(0x60 + KindNumber(kind), FieldOctets(fs));
    assert top.cls == Application && KindOf(top.number) == Some(kind);
  }

  /** The APDUs that can be sent: of each kind the fields it has. */
  predicate Sendable(p: AcsePdu) {
    && (p.kind == AARQ || p.kind == AARE ==> p.abortSource.None? && p.abortDiagnostic.None? && p.releaseReason.None?)
    && (p.kind != AARE ==> p.result.None? && p.diagnosticSource.None? && p.respondingApTitle.None? && p.respondingAeQualifier.None?)
    && (p.kind != AARQ && p.kind != AARE ==> p.applicationContext.None? && p.mechanismName.None?)
    && (p.kind == ABRT ==> p.releaseReason.None?)
    && (p.kind == RLRQ || p.kind == RLRE ==> p.abortSource.None? && p.abortDiagnostic.None?)
    && (p.diagnosticSource.Some? <==> p.diagnostic.Some?) && (p.diagnosticSource.Some? ==> p.diagnosticSource.value < 31)
    && (p.applicationContext.Some? ==> OidAccepted(p.applicationContext.value))
    && (p.respondingApTitle.Some? ==> OidAccepted(p.respondingApTitle.value))
    && (p.mechanismName.Some? ==> OidAccepted(p.mechanismName.value))
  }

  function AtMost(has: bool, item: AcseItem): seq<AcseItem> {
    if has then [item] else []
  }

  /** The fields of an APDU, in the order of the standard. */
  function ItemsOf(p: AcsePdu, contextId: int): seq<AcseItem> {
    AtMost(p.applicationContext.Some?, ContextName(p.applicationContext.GetOr([])))
    + (AtMost(p.result.Some?, Outcome(p.result.GetOr(0)))
       + (AtMost(p.diagnosticSource.Some?, Diagnosis(p.diagnosticSource.GetOr(0), p.diagnostic.GetOr(0)))
          + (AtMost(p.respondingApTitle.Some?, Responder(p.respondingApTitle.GetOr([])))
             + (AtMost(p.respondingAeQualifier.Some?, Qualifier(p.respondingAeQualifier.GetOr(0)))
                + (AtMost(p.mechanismName.Some?, Mechanism(p.mechanismName.GetOr([])))
                   + LaterItems(p, contextId))))))
  }

  function LaterItems(p: AcsePdu, contextId: int): seq<AcseItem> {
    AtMost(p.abortSource.Some?, Reason(p.abortSource.GetOr(0)))
    + (AtMost(p.releaseReason.Some?, Reason(p.releaseReason.GetOr(0)))
       + (AtMost(p.abortDiagnostic.Some?, AbortDiagnosis(p.abortDiagnostic.GetOr(0)))
          + AtMost(p.userInformation.Some?, Information(contextId, p.userInformation.GetOr([])))))
  }

  lemma AtMostBelongs(kind: AcseKind, has: bool, item: AcseItem, rest: seq<AcseItem>)
    requires has ==> Belongs(kind, item)
    requires AllBelong(kind, rest)
    ensures AllBelong(kind, AtMost(has, item) + rest)
  {
  }

  lemma ItemsBelong(p: AcsePdu, contextId: int)
    requires Sendable(p)
    ensures AllBelong(p.kind, ItemsOf(p, contextId))
  {
    hide AtMost, OidAccepted, AllBelong;
    var info := Information(contextId, p.userInformation.GetOr([]));
    var r9 := AtMost(p.userInformation.Some?, info);
    NoneBelongs(p.kind);
    assert r9 + [] == r9;
    AtMostBelongs(p.kind, p.userInformation.Some?, info, []);
    var r8 := AtMost(p.abortDiagnostic.Some?, AbortDiagnosis(p.abortDiagnostic.GetOr(0))) + r9;
    AtMostBelongs(p.kind, p.abortDiagnostic.Some?, AbortDiagnosis(p.abortDiagnostic.GetOr(0)), r9);
    var r7 := AtMost(p.releaseReason.Some?, Reason(p.releaseReason.GetOr(0))) + r8;
    AtMostBelongs(p.kind, p.releaseReason.Some?, Reason(p.releaseReason.GetOr(0)), r8);
    AtMostBelongs(p.kind, p.abortSource.Some?, Reason(p.abortSource.GetOr(0)), r7);
    var r6 := LaterItems(p, contextId);
    var r5 := AtMost(p.mechanismName.Some?, Mechanism(p.mechanismName.GetOr([]))) + r6;
    AtMostBelongs(p.kind, p.mechanismName.Some?, Mechanism(p.mechanismName.GetOr([])), r6);
    var r4 := AtMost(p.respondingAeQualifier.Some?, Qualifier(p.respondingAeQualifier.GetOr(0))) + r5;
    AtMostBelongs(p.kind, p.respondingAeQualifier.Some?, Qualifier(p.respondingAeQualifier.GetOr(0)), r5);
    var r3 := AtMost(p.respondingApTitle.Some?, Responder(p.respondingApTitle.GetOr([]))) + r4;
    AtMostBelongs(p.kind, p.respondingApTitle.Some?, Responder(p.respondingApTitle.GetOr([])), r4);
    var c := Diagnosis(p.diagnosticSource.GetOr(0), p.diagnostic.GetOr(0));
    var r2 := AtMost(p.diagnosticSource.Some?, c) + r3;
    AtMostBelongs(p.kind, p.diagnosticSource.Some?, c, r3);
    var r1 := AtMost(p.result.Some?, Outcome(p.result.GetOr(0))) + r2;
    AtMostBelongs(p.kind, p.result.Some?, Outcome(p.result.GetOr(0)), r2);
    AtMostBelongs(p.kind, p.applicationContext.Some?, ContextName(p.applicationContext.GetOr([])), r1);
  }

  lemma NoneBelongs(kind: AcseKind)
    ensures AllBelong(kind, [])
  {
  }

  lemma {:induction false} WithItemsAppend(p: AcsePdu, a: seq<AcseItem>, b: seq<AcseItem>)
    ensures WithItems(p, a + b) == WithItems(WithItems(p, a), b)
    decreases |a|
  {
    if a == [] {
      assert a + b == b;
    } else {
      assert (a + b)[0] == a[0] && (a + b)[1..] == a[1..] + b;
      WithItemsAppend(WithItem(p, a[0]), a[1..], b);
    }
  }

  lemma AtMostOne(p: AcsePdu, has: bool, item: AcseItem, rest: seq<AcseItem>)
    ensures WithItems(p, AtMost(has, item) + rest) == WithItems(if has then WithItem(p, item) else p, rest)
  {
    WithItemsAppend(p, AtMost(has, item), rest);
    assert [item][1..] == [];
  }

  lemma LaterItemsMake(q: AcsePdu, p: AcsePdu, contextId: int)
    requires q == p.(abortSource := None, releaseReason := None, abortDiagnostic := None, userInformation := None) && Sendable(p)
    ensures WithItems(q, LaterItems(p, contextId)) == p
  {
    hide WithItems, AtMost;
    var last := AtMost(p.userInformation.Some?, Information(contextId, p.userInformation.GetOr([])));
    var diag, src, rel := AbortDiagnosis(p.abortDiagnostic.GetOr(0)), Reason(p.abortSource.GetOr(0)), Reason(p.releaseReason.GetOr(0));
    AtMostOne(q, p.abortSource.Some?, src,
              AtMost(p.releaseReason.Some?, rel) + (AtMost(p.abortDiagnostic.Some?, diag) + last));
    var q1 := q.(abortSource := p.abortSource);
    AtMostOne(q1, p.releaseReason.Some?, rel, AtMost(p.abortDiagnostic.Some?, diag) + last);
    var q2 := q1.(releaseReason := p.releaseReason);
    AtMostOne(q2, p.abortDiagnostic.Some?, diag, last);
    var q3 := q2.(abortDiagnostic := p.abortDiagnostic);
    assert last + [] == last;
    AtMostOne(q3, p.userInformation.Some?, Information(contextId, p.userInformation.GetOr([])), []);
    NoMoreItems(p);
  }

  lemma NoMoreItems(p: AcsePdu)
    ensures WithItems(p, []) == p
  {
  }

  lemma ItemsMake(p: AcsePdu, contextId: int)
    requires Sendable(p)
    ensures WithItems(EmptyAcse(p.kind), ItemsOf(p, contextId)) == p
  {
    hide WithItems, AtMost, LaterItems;
    var a, b := ContextName(p.applicationContext.GetOr([])), Outcome(p.result.GetOr(0));
    var c := Diagnosis(p.diagnosticSource.GetOr(0), p.diagnostic.GetOr(0));
    var d, e, f := Responder(p.respondingApTitle.GetOr([])), Qualifier(p.respondingAeQualifier.GetOr(0)), Mechanism(p.mechanismName.GetOr([]));
    var r6 := LaterItems(p, contextId);
    var r5 := AtMost(p.mechanismName.Some?, f) + r6;
    var r4 := AtMost(p.respondingAeQualifier.Some?, e) + r5;
    var r3 := AtMost(p.respondingApTitle.Some?, d) + r4;
    var r2 := AtMost(p.diagnosticSource.Some?, c) + r3;
    var r1 := AtMost(p.result.Some?, b) + r2;
    var q := EmptyAcse(p.kind);
    AtMostOne(q, p.applicationContext.Some?, a, r1);
    var q1 := q.(applicationContext := p.applicationContext);
    AtMostOne(q1, p.result.Some?, b, r2);
    var q2 := q1.(result := p.result);
    AtMostOne(q2, p.diagnosticSource.Some?, c, r3);
    var q3 := q2.(diagnosticSource := p.diagnosticSource, diagnostic := p.diagnostic);
    AtMostOne(q3, p.respondingApTitle.Some?, d, r4);
    var q4 := q3.(respondingApTitle := p.respondingApTitle);
    AtMostOne(q4, p.respondingAeQualifier.Some?, e, r5);
    var q5 := q4.(respondingAeQualifier := p.respondingAeQualifier);
    AtMostOne(q5, p.mechanismName.Some?, f, r6);
    LaterItemsMake(q5.(mechanismName := p.mechanismName), p, contextId);
  }

  /** Every AARE, AARQ, RLRE, RLRQ and ABRT that can be sent is read back as it is: each of its values under
      its own name. */
  lemma AcseRoundTrip(p: AcsePdu, contextId: int)
    requires Sendable(p)
    ensures AllBelong(p.kind, ItemsOf(p, contextId))
    ensures |AcseOctets(p.kind, ItemsOf(p, contextId))| < LENGTH_LIMIT ==> Acse(AcseOctets(p.kind, ItemsOf(p, contextId))) == Ok(p)
  {
    hide Acse, AcseOctets, ItemsOf, WithItems;
    ItemsBelong(p, contextId);
    ItemsMake(p, contextId);
    if |AcseOctets(p.kind, ItemsOf(p, contextId))| < LENGTH_LIMIT {
      AcseItemsRead(p.kind, ItemsOf(p, contextId));
    }
  }

  // ---------------------------------------------------------------- presentation

  /** Zero or one integer field. */
  function IntegerFields(n: Option<int>, tag: byte): (fs: seq<Field>)
    ensures forall f :: f in fs ==> f.tag == tag
  {
    match n
    case None => []
    case Some(v) => [Field(tag, IntegerContent(v))]
  }

  /** The fields of one PDV-list. */
  function PdvFieldsOf(u: Pdv): seq<Field> {
    IntegerFields(u.context, 0x02) + [Field(0xA0, u.data)]
  }

  function PdvsFields(us: seq<Pdv>): (fs: seq<Field>)
    ensures forall f :: f in fs ==> f.tag == 0x30
  {
    if us == [] then [] else [Field(0x30, FieldOctets(PdvFieldsOf(us[0])))] + PdvsFields(us[1..])
  }

  lemma PdvRead(u: Pdv)
    requires |FieldOctets(PdvFieldsOf(u))| < LENGTH_LIMIT
    ensures PdvOf(LowTag(0x30, FieldOctets(PdvFieldsOf(u)))) == Ok(u)
  {
    hide Tagged, Elements, IntegerContent, FieldOctets;
    var fs := PdvFieldsOf(u);
    ChildrenOf(0x30, fs);
    var ts := FieldTlvs(fs);
    var last := LowTag(0xA0, u.data);
    assert !last.Is(Universal, 2) && IsDataValue(last);
    if u.context.Some? {
      IntegerField(0x02, u.context.value);
      var first := LowTag(0x02, IntegerContent(u.context.value));
      assert ts == [first, last] && ts[1..] == [last] && [last][1..] == [];
      assert first.Is(Universal, 2);
      assert PdvFields([], u.context, Some(u.data)) == Ok((u.context, Some(u.data)));
      assert PdvFields([last], u.context, None) == Ok((u.context, Some(u.data)));
      assert PdvFields(ts, None, None) == PdvFields([last], u.context, None);
    } else {
      assert ts == [last] && ts[1..] == [];
      assert PdvFields([], None, Some(u.data)) == Ok((None, Some(u.data)));
      assert PdvFields(ts, None, None) == Ok((None, Some(u.data)));
    }
  }

  lemma {:induction false} PdvsRead(us: seq<Pdv>)
    requires |FieldOctets(PdvsFields(us))| < LENGTH_LIMIT
    ensures PdvList(FieldTlvs(PdvsFields(us))) == Ok(us)
  {
    if us != [] {
      hide Tagged, PdvOf, PdvFieldsOf;
      var f, rest := Field(0x30, FieldOctets(PdvFieldsOf(us[0]))), PdvsFields(us[1..]);
      FirstFieldFits(f, rest);
      PdvRead(us[0]);
      PdvsRead(us[1..]);
      assert FieldTlvs([f] + rest) == [LowTag(0x30, f.value)] + FieldTlvs(rest);
      var ts := FieldTlvs([f] + rest);
      assert ts[0] == LowTag(0x30, f.value) && ts[1..] == FieldTlvs(rest);
      assert us == [us[0]] + us[1..];
    }
  }

  /** Any number of presentation data values, in fully encoded user data. */
  lemma UserDataRead(us: seq<Pdv>)
    requires |FieldOctets(PdvsFields(us))| < LENGTH_LIMIT
    ensures UserData(LowTag(0x61, FieldOctets(PdvsFields(us)))) == Ok(us)
  {
    hide Tagged, Elements, FieldOctets, PdvsFields, PdvList;
    var fs := PdvsFields(us);
    ChildrenOf(0x61, fs);
    PdvsRead(us);
  }

  /** Simply encoded user data is one value of no named context. */
  lemma SimpleUserDataRead(data: Bytes)
    ensures UserData(LowTag(0x60, data)) == Ok([Pdv(None, data)])
  {
  }

  /** The value of a context is its first one, or the first of no named context; without either, the first of all. */
  lemma {:induction false} ApduOf(r: PresentationResponse, context: int, i: nat)
    requires i < |r.userData| && (r.userData[i].context == Some(context) || r.userData[i].context == None)
    requires forall k :: 0 <= k < i ==> r.userData[k].context != Some(context) && r.userData[k].context != None
    ensures r.Apdu(Some(context)) == Some(r.userData[i].data)
  {
    FirstPdvAt(r.userData, context, i);
  }

  lemma {:induction false} FirstPdvAt(us: seq<Pdv>, context: int, i: nat)
    requires i < |us| && (us[i].context == Some(context) || us[i].context == None)
    requires forall k :: 0 <= k < i ==> us[k].context != Some(context) && us[k].context != None
    ensures FirstPdv(us, Some(context)) == Some(us[i].data)
  {
    if i > 0 {
      FirstPdvAt(us[1..], context, i - 1);
    }
  }

  lemma ApduOfNoContext(r: PresentationResponse, context: int)
    requires forall u :: u in r.userData ==> u.context != Some(context) && u.context != None
    ensures r.Apdu(Some(context)) == if r.userData == [] then None else Some(r.userData[0].data)
  {
    NoPdv(r.userData, context);
  }

  lemma {:induction false} NoPdv(us: seq<Pdv>, context: int)
    requires forall u :: u in us ==> u.context != Some(context) && u.context != None
    ensures FirstPdv(us, Some(context)) == None
  {
    if us != [] {
      assert us[0] in us && forall u :: u in us[1..] ==> u in us;
      NoPdv(us[1..], context);
    }
  }

  /** The result for one context of a definition list. */
  function ResultFieldsOf(r: (int, Option<int>)): seq<Field> {
    [Field(0x80, IntegerContent(r.0))] + IntegerFields(r.1, 0x82)
  }

  function ResultsFields(rs: seq<(int, Option<int>)>): (fs: seq<Field>)
    ensures forall f :: f in fs ==> f.tag == 0x30
  {
    if rs == [] then [] else [Field(0x30, FieldOctets(ResultFieldsOf(rs[0])))] + ResultsFields(rs[1..])
  }

  lemma ResultRead(r: (int, Option<int>))
    requires |FieldOctets(ResultFieldsOf(r))| < LENGTH_LIMIT
    ensures var t := LowTag(0x30, FieldOctets(ResultFieldsOf(r)));
            && t.Children().Ok?
            && OptionalInt(FirstChild(t.Children().value, Context, 0)) == Ok(Some(r.0))
            && OptionalInt(FirstChild(t.Children().value, Context, 2)) == Ok(r.1)
  {
    hide Tagged, Elements, IntegerContent, FieldOctets;
    var fs := ResultFieldsOf(r);
    ChildrenOf(0x30, fs);
    IntegerField(0x80, r.0);
    var ts := FieldTlvs(fs);
    var first := LowTag(0x80, IntegerContent(r.0));
    assert ts[0] == first && first.Is(Context, 0) && !first.Is(Context, 2);
    if r.1.Some? {
      IntegerField(0x82, r.1.value);
      assert ts[1..] == [LowTag(0x82, IntegerContent(r.1.value))];
    } else {
      assert ts[1..] == [];
    }
  }

  lemma {:induction false} ResultsRead(rs: seq<(int, Option<int>)>)
    requires |FieldOctets(ResultsFields(rs))| < LENGTH_LIMIT
    ensures ContextResults(FieldTlvs(ResultsFields(rs))) == Ok(rs)
  {
    if rs != [] {
      hide Tagged, ResultFieldsOf, Elements, OptionalInt, ContextResults, FirstChild;
      var f, rest := Field(0x30, FieldOctets(ResultFieldsOf(rs[0]))), ResultsFields(rs[1..]);
      FirstFieldFits(f, rest);
      ResultRead(rs[0]);
      ResultsRead(rs[1..]);
      assert FieldTlvs([f] + rest) == [LowTag(0x30, f.value)] + FieldTlvs(rest);
      var ts := FieldTlvs([f] + rest);
      assert ts == [LowTag(0x30, f.value)] + FieldTlvs(rest);
      OneMoreResult(LowTag(0x30, f.value), FieldTlvs(rest), rs[0], rs[1..]);
      assert rs == [rs[0]] + rs[1..];
    } else {
      NoResults();
    }
  }

  /** A context result without a number is read as -1. */
  lemma ResultMissing(reason: Option<int>)
    requires |FieldOctets(IntegerFields(reason, 0x82))| < LENGTH_LIMIT
    ensures ContextResults([LowTag(0x30, FieldOctets(IntegerFields(reason, 0x82)))]) == Ok([(-1, reason)])
  {
    hide Tagged, Elements, IntegerContent, FieldOctets;
    var fs := IntegerFields(reason, 0x82);
    ChildrenOf(0x30, fs);
    var ts := FieldTlvs(fs);
    if reason.Some? {
      IntegerField(0x82, reason.value);
      var only := LowTag(0x82, IntegerContent(reason.value));
      assert ts == [only] && ts[1..] == [] && only.Is(Context, 2) && !only.Is(Context, 0);
    }
    assert OptionalInt(FirstChild(ts, Context, 0)) == Ok(None) && OptionalInt(FirstChild(ts, Context, 2)) == Ok(reason);
    NoResults();
    var t := LowTag(0x30, FieldOctets(fs));
    assert [t][0] == t && [t][1..] == [];
    var none: seq<(int, Option<int>)> := [];
    assert [(-1, reason)] + none == [(-1, reason)] && ContextResults([t]) == Ok([(-1, reason)] + none);
  }

  lemma NoResults()
    ensures ContextResults([]) == Ok([])
  {
  }

  lemma OneMoreResult(t: Tlv, ts: seq<Tlv>, r: (int, Option<int>), rs: seq<(int, Option<int>)>)
    requires t.Children().Ok? && ContextResults(ts) == Ok(rs)
    requires OptionalInt(FirstChild(t.Children().value, Context, 0)) == Ok(Some(r.0))
    requires OptionalInt(FirstChild(t.Children().value, Context, 2)) == Ok(r.1)
    ensures ContextResults([t] + ts) == Ok([r] + rs)
  {
    hide Elements;
    assert ([t] + ts)[0] == t && ([t] + ts)[1..] == ts;
    assert r == (r.0, r.1);
  }

  /** What a CPA or CPR may hold. */
  datatype PpduItem =
    | RespondingSelector(psel: Bytes)
    | Results(results: seq<(int, Option<int>)>)
    | ProviderReason(n: int)
    | User(data: seq<Pdv>)

  /** The field an item is sent in (ISO/IEC 8823-1 section 8.2). */
  function PpduItemField(item: PpduItem): Field {
    match item
    case RespondingSelector(psel) => Field(0x83, psel)
    case Results(rs) => Field(0xA5, FieldOctets(ResultsFields(rs)))
    case ProviderReason(n) => Field(0x8A, IntegerContent(n))
    case User(us) => Field(0x61, FieldOctets(PdvsFields(us)))
  }

  function WithPpdu(p: PresentationResponse, item: PpduItem): PresentationResponse {
    match item
    case RespondingSelector(psel) => p.(respondingPsel := Some(psel))
    case Results(rs) => p.(contextResults := rs)
    case ProviderReason(n) => if p.kind == CPR then p.(providerReason := Some(n)) else p
    case User(us) => p.(userData := us)
  }

  lemma PpduItemRead(item: PpduItem, p: PresentationResponse)
    requires |PpduItemField(item).value| < LENGTH_LIMIT
    ensures var f := PpduItemField(item);
            f.tag % 32 < 31 && PpduField(LowTag(f.tag, f.value), p) == Ok(WithPpdu(p, item))
  {
    hide Tagged, Elements, IntegerContent, FieldOctets, UserData, ContextResults, PdvsFields, ResultsFields;
    match item {
      case RespondingSelector(_) =>
      case Results(rs) =>
        ResultsRead(rs);
        ChildrenOf(0xA5, ResultsFields(rs));
      case ProviderReason(n) => IntegerField(0x8A, n);
      case User(us) => UserDataRead(us);
    }
  }

  function PpduItemFields(items: seq<PpduItem>): (fs: seq<Field>)
    ensures forall f :: f in fs ==> f.tag % 32 < 31
  {
    if items == [] then [] else [PpduItemField(items[0])] + PpduItemFields(items[1..])
  }

  function WithPpdus(p: PresentationResponse, items: seq<PpduItem>): PresentationResponse
    decreases |items|
  {
    if items == [] then p else WithPpdus(WithPpdu(p, items[0]), items[1..])
  }

  lemma {:induction false} PpduItemsRead(items: seq<PpduItem>, p: PresentationResponse)
    requires |FieldOctets(PpduItemFields(items))| < LENGTH_LIMIT
    ensures PpduFields(FieldTlvs(PpduItemFields(items)), p) == Ok(WithPpdus(p, items))
    decreases |items|
  {
    if items != [] {
      hide PpduField, PpduItemField, Tagged;
      var f, rest := PpduItemField(items[0]), PpduItemFields(items[1..]);
      FirstFieldFits(f, rest);
      PpduItemRead(items[0], p);
      PpduItemsRead(items[1..], WithPpdu(p, items[0]));
      var ts := FieldTlvs([f] + rest);
      assert ts[0] == LowTag(f.tag, f.value) && ts[1..] == FieldTlvs(rest);
    }
  }

  function CpaOctets(mode: Bytes, items: seq<PpduItem>): Bytes {
    Tagged(0x31, FieldOctets([Field(0xA0, mode), Field(0xA2, FieldOctets(PpduItemFields(items)))]))
  }

  function CprOctets(items: seq<PpduItem>): Bytes {
    Tagged(0x30, FieldOctets(PpduItemFields(items)))
  }

  /** A CPA with any items in any order, behind any mode selector. */
  lemma CpaRead(mode: Bytes, items: seq<PpduItem>)
    requires |CpaOctets(mode, items)| < LENGTH_LIMIT
    ensures Ppdu(CpaOctets(mode, items), false) == Ok(WithPpdus(EmptyPpdu(CPA), items))
  {
    hide Tagged, ElementAt, Elements, FieldTlvs, PpduFields, PpduItemFields, FieldOctets;
    var fs := PpduItemFields(items);
    var normal := FieldOctets(fs);
    var top := [Field(0xA0, mode), Field(0xA2, normal)];
    TwoFields(top[0], top[1]);
    WholeElement(0x31, FieldOctets(top));
    ChildrenOf(0x31, top);
    NormalChild(mode, normal);
    ChildrenOf(0xA2, fs);
    PpduItemsRead(items, EmptyPpdu(CPA));
    var t := LowTag(0x31, FieldOctets(top));
    assert t.Is(Universal, 17);
    assert NormalFields(t) == Ok((CPA, FieldTlvs(fs)));
  }

  lemma CprRead(items: seq<PpduItem>)
    requires |CprOctets(items)| < LENGTH_LIMIT
    ensures Ppdu(CprOctets(items), false) == Ok(WithPpdus(EmptyPpdu(CPR), items))
  {
    hide Tagged, ElementAt, Elements, FieldTlvs, PpduFields, PpduItemFields, FieldOctets;
    var fs := PpduItemFields(items);
    WholeElement(0x30, FieldOctets(fs));
    ChildrenOf(0x30, fs);
    PpduItemsRead(items, EmptyPpdu(CPR));
    var t := LowTag(0x30, FieldOctets(fs));
    assert t.Is(Universal, 16) && !t.Is(Universal, 17);
    assert NormalFields(t) == Ok((CPR, FieldTlvs(fs)));
  }

  /** The items of a response, in the order of the standard. */
  function PpduItemsOf(r: PresentationResponse): seq<PpduItem> {
    (if r.respondingPsel.Some? then [RespondingSelector(r.respondingPsel.value)] else [])
    + [Results(r.contextResults)]
    + (if r.providerReason.Some? then [ProviderReason(r.providerReason.value)] else [])
    + [User(r.userData)]
  }

  lemma PpduItemsMake(r: PresentationResponse)
    requires r.abortReason.None? && (r.kind == CPR || (r.kind == CPA && r.providerReason.None?))
    ensures WithPpdus(EmptyPpdu(r.kind), PpduItemsOf(r)) == r
  {
    var items := PpduItemsOf(r);
    var p := EmptyPpdu(r.kind);
    var q := p.(respondingPsel := r.respondingPsel);
    var last := [User(r.userData)];
    var reason := if r.providerReason.Some? then [ProviderReason(r.providerReason.value)] else [];
    var later := [Results(r.contextResults)] + (reason + last);
    if r.respondingPsel.Some? {
      assert items[0] == RespondingSelector(r.respondingPsel.value) && items[1..] == later;
    } else {
      assert items == later;
    }
    assert WithPpdus(p, items) == WithPpdus(q, later);
    var q1 := q.(contextResults := r.contextResults);
    assert later[1..] == reason + last;
    assert WithPpdus(q, later) == WithPpdus(q1, reason + last);
    var q2 := q1.(providerReason := r.providerReason);
    if r.providerReason.Some? {
      assert (reason + last)[1..] == last;
    } else {
      assert reason + last == last;
    }
    assert WithPpdus(q1, reason + last) == WithPpdus(q2, last);
    assert last[1..] == [];
    assert WithPpdus(r, []) == r;
    assert WithPpdus(q2, last) == WithPpdus(WithPpdu(q2, User(r.userData)), []);
  }

  /** Every CPA and CPR is read back as it is: selector, results of the contexts, provider reason and user data. */
  lemma PresentationAnswerRoundTrip(r: PresentationResponse, mode: Bytes)
    requires r.abortReason.None? && (r.kind == CPR || (r.kind == CPA && r.providerReason.None?))
    ensures var b := if r.kind == CPA then CpaOctets(mode, PpduItemsOf(r)) else CprOctets(PpduItemsOf(r));
            |b| < LENGTH_LIMIT ==> Ppdu(b, false) == Ok(r)
  {
    hide Ppdu, CpaOctets, CprOctets, WithPpdus, PpduItemsOf;
    PpduItemsMake(r);
    if r.kind == CPA && |CpaOctets(mode, PpduItemsOf(r))| < LENGTH_LIMIT {
      CpaRead(mode, PpduItemsOf(r));
    }
    if r.kind == CPR && |CprOctets(PpduItemsOf(r))| < LENGTH_LIMIT {
      CprRead(PpduItemsOf(r));
    }
  }

  /** Every provider abort is read back with its reason, and every user abort with its user data. */
  lemma AbortAnswerRoundTrip(reason: Option<int>, event: Option<int>, us: seq<Pdv>)
    ensures var arp := Tagged(0x30, FieldOctets(IntegerFields(reason, 0x80) + IntegerFields(event, 0x81)));
            |arp| < LENGTH_LIMIT ==> Ppdu(arp, true) == Ok(EmptyPpdu(ARP).(abortReason := reason))
    ensures var aru := Tagged(0xA0, FieldOctets([Field(0x61, FieldOctets(PdvsFields(us)))]));
            |aru| < LENGTH_LIMIT ==> Ppdu(aru, true) == Ok(EmptyPpdu(ARU).(userData := us))
  {
    hide Tagged, ElementAt, Elements, FieldOctets, IntegerContent, UserData, PdvsFields;
    var fs := IntegerFields(reason, 0x80) + IntegerFields(event, 0x81);
    if |Tagged(0x30, FieldOctets(fs))| < LENGTH_LIMIT {
      WholeElement(0x30, FieldOctets(fs));
      ChildrenOf(0x30, fs);
      var top := LowTag(0x30, FieldOctets(fs));
      assert top.Is(Universal, 16) && !top.Is(Context, 0);
      FirstIntegerRead(reason, event);
    }
    var user := [Field(0x61, FieldOctets(PdvsFields(us)))];
    if |Tagged(0xA0, FieldOctets(user))| < LENGTH_LIMIT {
      OneField(user[0]);
      WholeElement(0xA0, FieldOctets(user));
      ChildrenOf(0xA0, user);
      UserDataRead(us);
      var ts := FieldTlvs(user);
      assert ts == [LowTag(0x61, user[0].value)] && ts[1..] == [];
      var top := LowTag(0xA0, FieldOctets(user));
      assert top.Is(Context, 0) && top.constructed;
      assert AruFields([], us) == Ok(us);
      assert AruFields(ts, []) == Ok(us);
    }
  }

  lemma FirstIntegerRead(reason: Option<int>, event: Option<int>)
    ensures OptionalInt(FirstChild(FieldTlvs(IntegerFields(reason, 0x80) + IntegerFields(event, 0x81)), Context, 0)) == Ok(reason)
  {
    hide Tagged, IntegerContent;
    if reason.Some? {
      IntegerField(0x80, reason.value);
    }
    var fs := IntegerFields(reason, 0x80) + IntegerFields(event, 0x81);
    var ts := FieldTlvs(fs);
    if reason.None? && event.Some? {
      assert ts == [LowTag(0x81, IntegerContent(event.value))] && ts[1..] == [];
    }
    if reason.None? && event.None? {
      assert ts == [];
    }
  }

  // ---------------------------------------------------------------- MMS

  /** The fields of the parameters that were negotiated. */
  function SizesOf(i: InitiateParams): seq<Field> {
    IntegerFields(i.maxPduSize, 0x80) + IntegerFields(i.maxServOutstandingCalling, 0x81)
    + IntegerFields(i.maxServOutstandingCalled, 0x82) + IntegerFields(i.nestingLevel, 0x83)
  }

  predicate Writable(bits: Bits) {
    var unused := 8 * |bits.octets| - bits.count;
    0 <= unused <= 7 && (unused != 0 ==> bits.octets != [])
  }

  function BitsContent(bits: Bits): Bytes
    requires Writable(bits)
  {
    [8 * |bits.octets| - bits.count] + bits.octets
  }

  lemma BitsRead(bits: Bits)
    requires Writable(bits)
    ensures BitStringOf(BitsContent(bits)) == Ok((bits.octets, bits.count))
  {
  }

  function DetailOf(i: InitiateParams): seq<Field>
    requires Writable(i.parameterCbb) && Writable(i.servicesSupported)
  {
    IntegerFields(i.version, 0x80) + [Field(0x81, BitsContent(i.parameterCbb)), Field(0x82, BitsContent(i.servicesSupported))]
  }

  lemma DetailRead(i: InitiateParams, p: InitiateParams)
    requires Writable(i.parameterCbb) && Writable(i.servicesSupported) && p.version.None?
    ensures DetailFields(FieldTlvs(DetailOf(i)), p) ==
            Ok(p.(version := i.version, parameterCbb := i.parameterCbb, servicesSupported := i.servicesSupported))
  {
    hide Tagged, IntegerContent, BitStringOf, BitsContent;
    BitsRead(i.parameterCbb);
    BitsRead(i.servicesSupported);
    var c, d := LowTag(0x81, BitsContent(i.parameterCbb)), LowTag(0x82, BitsContent(i.servicesSupported));
    var ts := FieldTlvs(DetailOf(i));
    var q := p.(version := i.version);
    var q1 := q.(parameterCbb := i.parameterCbb);
    var q2 := q1.(servicesSupported := i.servicesSupported);
    if i.version.Some? {
      IntegerField(0x80, i.version.value);
      assert ts[1..] == [c, d];
      assert DetailField(ts[0], p) == Ok(q);
      assert DetailFields(ts, p) == DetailFields([c, d], q);
    } else {
      assert ts == [c, d];
    }
    assert [c, d][1..] == [d] && [d][1..] == [];
    assert DetailFields([], q2) == Ok(q2);
    assert DetailFields([d], q1) == Ok(q2);
    assert DetailFields([c, d], q) == Ok(q2);
  }

  function InitiateFieldList(i: InitiateParams): seq<Field>
    requires Writable(i.parameterCbb) && Writable(i.servicesSupported)
  {
    SizesOf(i) + [Field(0xA4, FieldOctets(DetailOf(i)))]
  }

  lemma InitiateListTags(i: InitiateParams)
    requires Writable(i.parameterCbb) && Writable(i.servicesSupported)
    ensures forall f :: f in InitiateFieldList(i) ==> f.tag % 32 < 31
  {
    hide IntegerFields, DetailOf, FieldOctets, Writable;
    assert forall f :: f in SizesOf(i) ==> f.tag in [0x80, 0x81, 0x82, 0x83];
  }

  lemma OneSizeRead(n: Option<int>, tag: byte, rest: seq<Tlv>, p: InitiateParams, q: InitiateParams)
    requires tag in [0x80, 0x81, 0x82, 0x83]
    requires n.None? ==> q == p
    requires n.Some? ==> q == match tag
                              case 0x80 => p.(maxPduSize := n)
                              case 0x81 => p.(maxServOutstandingCalling := n)
                              case 0x82 => p.(maxServOutstandingCalled := n)
                              case _ => p.(nestingLevel := n)
    ensures InitiateFields(FieldTlvs(IntegerFields(n, tag)) + rest, p) == InitiateFields(rest, q)
  {
    hide Tagged, IntegerContent, Elements, DetailFields;
    if n.Some? {
      IntegerField(tag, n.value);
      var t := LowTag(tag, IntegerContent(n.value));
      var ts := FieldTlvs(IntegerFields(n, tag)) + rest;
      assert FieldTlvs(IntegerFields(n, tag)) == [t];
      assert ts[0] == t && ts[1..] == rest;
      assert InitiateField(t, p) == Ok(q);
    } else {
      assert FieldTlvs([]) + rest == rest;
    }
  }

  lemma InitiateFieldsAreRead(i: InitiateParams)
    requires Writable(i.parameterCbb) && Writable(i.servicesSupported)
    requires |FieldOctets(DetailOf(i))| < LENGTH_LIMIT
    ensures InitiateFields(FieldTlvs(InitiateFieldList(i)), NO_INITIATE) == Ok(i)
  {
    hide Tagged, FieldOctets, Elements, InitiateFields, DetailOf, FieldTlvs, IntegerFields, Writable, DetailFields;
    var a, b := IntegerFields(i.maxPduSize, 0x80), IntegerFields(i.maxServOutstandingCalling, 0x81);
    var c, d := IntegerFields(i.maxServOutstandingCalled, 0x82), IntegerFields(i.nestingLevel, 0x83);
    var detail := Field(0xA4, FieldOctets(DetailOf(i)));
    var t := LowTag(0xA4, detail.value);
    FieldOctetsAppend(a, b);
    FieldOctetsAppend(a + b, c);
    FieldOctetsAppend(a + b + c, d);
    FieldOctetsAppend(a + b + c + d, [detail]);
    OneTlv(detail);
    var ta, tb, tc, td := FieldTlvs(a), FieldTlvs(b), FieldTlvs(c), FieldTlvs(d);
    assert FieldTlvs(InitiateFieldList(i)) == ta + (tb + (tc + (td + [t])));
    var p := NO_INITIATE;
    var p1 := p.(maxPduSize := i.maxPduSize);
    var p2 := p1.(maxServOutstandingCalling := i.maxServOutstandingCalling);
    var p3 := p2.(maxServOutstandingCalled := i.maxServOutstandingCalled);
    var p4 := p3.(nestingLevel := i.nestingLevel);
    OneSizeRead(i.maxPduSize, 0x80, tb + (tc + (td + [t])), p, p1);
    OneSizeRead(i.maxServOutstandingCalling, 0x81, tc + (td + [t]), p1, p2);
    OneSizeRead(i.maxServOutstandingCalled, 0x82, td + [t], p2, p3);
    OneSizeRead(i.nestingLevel, 0x83, [t], p3, p4);
    DetailFieldRead(i, p4);
    OneInitiateField(t, p4, i);
  }

  lemma OneTlv(f: Field)
    ensures FieldTlvs([f]) == [LowTag(f.tag, f.value)]
  {
  }

  lemma DetailFieldRead(i: InitiateParams, p: InitiateParams)
    requires Writable(i.parameterCbb) && Writable(i.servicesSupported) && p.version.None?
    requires |FieldOctets(DetailOf(i))| < LENGTH_LIMIT
    ensures InitiateField(LowTag(0xA4, FieldOctets(DetailOf(i))), p) ==
            Ok(p.(version := i.version, parameterCbb := i.parameterCbb, servicesSupported := i.servicesSupported))
  {
    hide Tagged, FieldOctets, Elements, FieldTlvs, DetailFields, BitsContent;
    DetailRead(i, p);
    ChildrenOf(0xA4, DetailOf(i));
  }

  /** The initiate request (8) and response (9). */
  function InitiateOctetsOf(number: nat, i: InitiateParams): Bytes
    requires (number == 8 || number == 9) && Writable(i.parameterCbb) && Writable(i.servicesSupported)
  {
    Tagged(0xA0 + number, FieldOctets(InitiateFieldList(i)))
  }

  /** Every set of negotiated parameters, whichever of them are there, is read back as it is. */
  lemma InitiateAnswerRoundTrip(number: nat, i: InitiateParams)
    requires (number == 8 || number == 9) && Writable(i.parameterCbb) && Writable(i.servicesSupported)
    ensures var b := InitiateOctetsOf(number, i);
            |b| < LENGTH_LIMIT ==> ParseMms(b) == Ok(MmsPdu(number, Some(i), None, None, b))
  {
    hide Tagged, ElementAt, Elements, FieldOctets, FieldTlvs, InitiateFields, DetailOf, Writable;
    var b, fs := InitiateOctetsOf(number, i), InitiateFieldList(i);
    if |b| < LENGTH_LIMIT {
      DetailFits(i);
      InitiateListTags(i);
      WholeElement(0xA0 + number, FieldOctets(fs));
      ChildrenOf(0xA0 + number, fs);
      InitiateFieldsAreRead(i);
      var top := LowTag(0xA0 + number, FieldOctets(fs));
      assert top.cls == Context && top.number == number && top.raw == b;
    }
  }

  lemma DetailFits(i: InitiateParams)
    requires Writable(i.parameterCbb) && Writable(i.servicesSupported)
    ensures |FieldOctets(DetailOf(i))| < |FieldOctets(InitiateFieldList(i))|
  {
    hide DetailOf, SizesOf, Tagged;
    var detail := Field(0xA4, FieldOctets(DetailOf(i)));
    FieldOctetsAppend(SizesOf(i), [detail]);
    OneField(detail);
    assert |Tagged(0xA4, detail.value)| > |detail.value|;
  }

  /** Of the other PDUs only the number is read. */
  lemma PlainPduRead(number: nat, constructed: bool, value: Bytes)
    requires number < 31 && number !in {4, 8, 9, 10, 13} && |value| < LENGTH_LIMIT
    ensures var b := Tagged((if constructed then 0xA0 else 0x80) + number, value);
            ParseMms(b) == Ok(MmsPdu(number, None, None, None, b))
  {
    hide Tagged, ElementAt, Elements;
    WholeElement((if constructed then 0xA0 else 0x80) + number, value);
  }

  /** Every ServiceError of an initiate or conclude error is read back: its class, and its code where it has one. */
  lemma ServiceErrorRoundTrip(number: nat, cls: nat, code: Option<int>)
    requires (number == 10 || number == 13) && cls < 31
    ensures var b := Tagged(0xA0 + number, Tagged(0xA0, Tagged(0x80 + cls, if code.Some? then IntegerContent(code.value) else [])));
            |b| < LENGTH_LIMIT ==> ParseMms(b) == Ok(MmsPdu(number, None, Some(cls), code, b))
  {
    hide Tagged, ElementAt, Elements, IntegerContent;
    var inner := [Field(0x80 + cls, if code.Some? then IntegerContent(code.value) else [])];
    OneField(inner[0]);
    var outer := [Field(0xA0, FieldOctets(inner))];
    OneField(outer[0]);
    if |Tagged(0xA0 + number, FieldOctets(outer))| < LENGTH_LIMIT {
      WholeElement(0xA0 + number, FieldOctets(outer));
      ChildrenOf(0xA0 + number, outer);
      ChildrenOf(0xA0, inner);
      if code.Some? {
        IntegerRoundTrip(code.value);
        ContentNotEmpty(code.value);
      }
      var ts, us := FieldTlvs(outer), FieldTlvs(inner);
      assert ts[0] == LowTag(0xA0, FieldOctets(inner)) && ts[0].Is(Context, 0) && ts[0].constructed;
      assert us[0] == LowTag(0x80 + cls, inner[0].value) && us[0].number == cls;
      assert ServiceError(ts) == Ok((Some(cls), code));
      var top := LowTag(0xA0 + number, FieldOctets(outer));
      assert top.cls == Context && top.number == number;
    }
  }

  /** A field 0 that holds no elements is passed over, as are all other fields. */
  lemma OthersPassedOver(t: Tlv, rest: seq<Tlv>)
    requires t.cls != Context || t.number != 0 || !t.constructed
    ensures ServiceError([t] + rest) == ServiceError(rest) && ServiceError([]) == Ok((None, None))
  {
    assert ([t] + rest)[1..] == rest;
  }

  lemma ContentNotEmpty(n: int)
    ensures IntegerContent(n) != []
  {
    IntegerRoundTrip(n);
  }

  function RejectFields(invocation: Option<int>, kind: nat, reason: int): seq<Field>
    requires 0 < kind < 31
  {
    IntegerFields(invocation, 0x80) + [Field(0x80 + kind, IntegerContent(reason))]
  }

  lemma RejectReasonRead(invocation: Option<int>, kind: nat, reason: int)
    requires 0 < kind < 31
    ensures RejectReason(FieldTlvs(RejectFields(invocation, kind, reason))) == Some(LowTag(0x80 + kind, IntegerContent(reason)))
    ensures forall f :: f in RejectFields(invocation, kind, reason) ==> f.tag % 32 < 31
  {
    hide Tagged, IntegerContent;
    var t := LowTag(0x80 + kind, IntegerContent(reason));
    var ts := FieldTlvs(RejectFields(invocation, kind, reason));
    assert t.number == kind && t.cls == Context;
    if invocation.Some? {
      assert ts[0] == LowTag(0x80, IntegerContent(invocation.value)) && ts[1..] == [t];
      assert ts[0].number == 0;
    } else {
      assert ts == [t];
    }
    assert RejectReason([t]) == Some(t);
  }

  /** Every reject is read back: the kind of the rejected PDU and the reason, whether or not it names an invocation. */
  lemma RejectRoundTrip(invocation: Option<int>, kind: nat, reason: int)
    requires 0 < kind < 31
    ensures var b := Tagged(0xA4, FieldOctets(RejectFields(invocation, kind, reason)));
            |b| < LENGTH_LIMIT ==> ParseMms(b) == Ok(MmsPdu(4, None, Some(kind), Some(reason), b))
  {
    hide Tagged, ElementAt, Elements, IntegerContent, FieldOctets, FieldTlvs, RejectFields, RejectReason, ServiceError, Initiate;
    var fs := RejectFields(invocation, kind, reason);
    if |Tagged(0xA4, FieldOctets(fs))| < LENGTH_LIMIT {
      RejectReasonRead(invocation, kind, reason);
      WholeElement(0xA4, FieldOctets(fs));
      ChildrenOf(0xA4, fs);
      IntegerField(0x80 + kind, reason);
      var top := LowTag(0xA4, FieldOctets(fs));
      assert top.cls == Context && top.number == 4 && top.constructed;
      assert LowTag(0x80 + kind, IntegerContent(reason)).number == kind;
    }
  }

  // ---------------------------------------------------------------- the whole answer

  /** An answer to an association request: an ACCEPT carrying a CPA, an AARE and an initiate response. */
  lemma AssociationAnswerRoundTrip(before: seq<Param>, after: seq<Param>, mode: Bytes, ppdu: PresentationResponse, acse: AcsePdu,
                                   contextId: int, i: InitiateParams)
    requires Writable(i.parameterCbb) && Writable(i.servicesSupported)
    requires Sendable(acse) && acse.kind == AARE && acse.userInformation == Some(InitiateOctetsOf(9, i))
    requires AllBelong(AARE, ItemsOf(acse, contextId))
    requires ppdu.kind == CPA && ppdu.abortReason.None? && ppdu.providerReason.None?
    requires ppdu.userData == [Pdv(Some(ACSE_CONTEXT_ID), AcseOctets(AARE, ItemsOf(acse, contextId)))]
    requires |CpaOctets(mode, PpduItemsOf(ppdu))| < LENGTH_LIMIT
    requires |AcseOctets(AARE, ItemsOf(acse, contextId))| < LENGTH_LIMIT && |InitiateOctetsOf(9, i)| < LENGTH_LIMIT
    requires FirstParam(before, PGI_USER_DATA).None?
    requires CanBeWritten(SPDU_AC, before + [Param(PGI_USER_DATA, CpaOctets(mode, PpduItemsOf(ppdu)))] + after)
    ensures var ps := before + [Param(PGI_USER_DATA, CpaOctets(mode, PpduItemsOf(ppdu)))] + after;
            var spdu := ParseSpdu(SessionParam(SPDU_AC, ParamOctets(ps).value).value);
            && spdu.Ok? && spdu.value.si == SPDU_AC && spdu.value.params == ps
            && Ppdu(spdu.value.userData, false) == Ok(ppdu)
            && ppdu.Apdu(Some(ACSE_CONTEXT_ID)).Some?
            && Acse(ppdu.Apdu(Some(ACSE_CONTEXT_ID)).value) == Ok(acse)
            && ParseMms(acse.userInformation.value).Ok?
            && ParseMms(acse.userInformation.value).value.number == 9
            && ParseMms(acse.userInformation.value).value.initiate == Some(i)
  {
    hide Acse, Ppdu, ParseMms, ParseSpdu, CpaOctets, AcseOctets, ItemsOf, PpduItemsOf, InitiateOctetsOf, SessionParam, ParamOctets, Writable;
    UserDataOfSpdu(SPDU_AC, before, Param(PGI_USER_DATA, CpaOctets(mode, PpduItemsOf(ppdu))), after);
    PresentationAnswerRoundTrip(ppdu, mode);
    ApduOf(ppdu, ACSE_CONTEXT_ID, 0);
    AcseRoundTrip(acse, contextId);
    InitiateAnswerRoundTrip(9, i);
  }
}

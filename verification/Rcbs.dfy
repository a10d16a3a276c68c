/** Report control blocks as a client sees them, and what a write does to one. */
module Rcbs {
  import opened Results

  datatype Param = TrgOps | IntgPd | OptFlds | BufTm

  datatype ParamValues = ParamValues(trgOps: int, intgPd: int, optFlds: int, bufTm: int) {
    function Get(p: Param): int {
      match p
      case TrgOps => trgOps
      case IntgPd => intgPd
      case OptFlds => optFlds
      case BufTm => bufTm
    }

    function With(changes: map<Param, int>): (v: ParamValues)
      ensures forall p :: v.Get(p) == if p in changes then changes[p] else Get(p)
    {
      ParamValues(if TrgOps in changes then changes[TrgOps] else trgOps,
                  if IntgPd in changes then changes[IntgPd] else intgPd,
                  if OptFlds in changes then changes[OptFlds] else optFlds,
                  if BufTm in changes then changes[BufTm] else bufTm)
    }
  }

  lemma SameParams(a: ParamValues, b: ParamValues)
    requires forall p :: a.Get(p) == b.Get(p)
    ensures a == b
  {
    assert a.Get(TrgOps) == b.Get(TrgOps) && a.Get(IntgPd) == b.Get(IntgPd);
    assert a.Get(OptFlds) == b.Get(OptFlds) && a.Get(BufTm) == b.Get(BufTm);
  }

  type Address = string

  /** `resvTms` is None where the device has no such attribute; `owner` is None when nobody owns the RCB. */
  datatype RcbValues = RcbValues(
    buffered: bool, rptEna: bool, resv: bool, resvTms: Option<int>, owner: Option<Address>, params: ParamValues)
  {
    predicate TimedReservation() {
      resvTms.Some? && resvTms.value != 0
    }

    predicate Free() {
      !rptEna && !resv && !TimedReservation()
    }

    /** A timed reservation made for the client at `address`. */
    predicate ReservedFor(address: Option<Address>) {
      TimedReservation() && address.Some? && owner == address
    }
  }

  /** Only buffered control blocks have a ResvTms. */
  type Rcb = r: RcbValues | r.resvTms.Some? ==> r.buffered
    witness RcbValues(false, false, false, None, None, ParamValues(0, 0, 0, 0))

  datatype Change =
    | SetResv(resv: bool)
    | SetRptEna(enabled: bool)
    | SetResvTms(seconds: int)
    | SetParams(params: map<Param, int>)
    | Trigger(purge: bool)  // PurgeBuf or GI: no attribute keeps a new value

  /** What an accepted write does. Enabling a buffered RCB with ResvTms makes the device reserve it for
      a time of its own choice, and a device may keep a reservation it was told to give up. */
  predicate Effect(before: Rcb, change: Change, after: Rcb) {
    match change
    case SetResv(b) => after == before.(resv := b, owner := after.owner)
    case SetRptEna(true) =>
      && after == before.(rptEna := true, owner := after.owner, resvTms := after.resvTms)
      && before.resvTms.Some? == after.resvTms.Some?
    case SetRptEna(false) => after == before.(rptEna := false)
    case SetResvTms(_) => after == before.(resvTms := after.resvTms, owner := after.owner) && before.resvTms.Some? && after.resvTms.Some?
    case SetParams(changes) => after == before.(params := before.params.With(changes))
    case Trigger(_) => after == before
  }

  /** What a refused write may leave behind: a part of a multi-attribute write. */
  predicate Leftover(before: Rcb, change: Change, after: Rcb) {
    if change.SetParams? then
      && after == before.(params := after.params)
      && forall p :: after.params.Get(p) == before.params.Get(p) || (p in change.params && after.params.Get(p) == change.params[p])
    else
      after == before
  }

  /** Most devices refuse parameter and reservation changes while RptEna is true; no device writes an
      attribute it does not have. */
  predicate Allowed(r: Rcb, change: Change) {
    (change.SetRptEna? || change.Trigger? || !r.rptEna) && (change.SetResvTms? ==> r.resvTms.Some?)
  }
}

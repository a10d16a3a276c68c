/** The device, with the freedom a client must expect of it: any write may be refused. */
module Devices {
  import opened Results
  import opened Rcbs
  import opened Settings

  /** How a service ended for the caller: carried out, `ServiceError`, `NotConnectedError`, or a
      keyboard interrupt, which leaves open whether the device carried it out. */
  datatype Reply = Done | Refused | NotConnected | Interrupted

  class Device {
    /** A cooperative device accepts every write that `Allowed` and `Possible` let it. */
    const cooperative: bool
    var rcbs: map<string, Rcb>
    var sgcbs: map<string, Sgcb>

    constructor (rcbs: map<string, Rcb>, sgcbs: map<string, Sgcb>, cooperative: bool)
      ensures this.rcbs == rcbs && this.sgcbs == sgcbs && this.cooperative == cooperative
    {
      this.rcbs := rcbs;
      this.sgcbs := sgcbs;
      this.cooperative := cooperative;
    }

    /** Write attributes of an RCB. */
    method SetRcb(ref: string, change: Change) returns (accepted: bool)
      modifies this`rcbs
      ensures rcbs.Keys == old(rcbs).Keys
      ensures forall r :: r in rcbs && r != ref ==> rcbs[r] == old(rcbs)[r]
      ensures ref in rcbs ==>
                if accepted then Effect(old(rcbs)[ref], change, rcbs[ref]) else Leftover(old(rcbs)[ref], change, rcbs[ref])
      ensures ref !in rcbs ==> !accepted
      ensures cooperative && ref in rcbs && Allowed(old(rcbs)[ref], change) ==>
                accepted && (change.SetResvTms? ==> rcbs[ref].resvTms == Some(change.seconds))
    {
      if ref !in rcbs {
        return false;
      }
      var before := rcbs[ref];
      var willing: bool := *;
      if cooperative && Allowed(before, change) {
        willing := true;
      }
      if change.SetResvTms? && before.resvTms.None? {
        willing := false;
      }
      var owner: Option<Address> := *;
      var seconds: int := *;
      if !willing {
        if change.SetParams? {
          var kept: map<Param, int> := *;
          rcbs := rcbs[ref := before.(params := before.params.With(PartOf(change.params, kept)))];
        }
        return false;
      }
      match change {
        case SetResv(b) =>
          rcbs := rcbs[ref := before.(resv := b, owner := owner)];
        case SetRptEna(b) =>
          if b {
            var tms := if before.resvTms.Some? then Some(seconds) else None;
            rcbs := rcbs[ref := before.(rptEna := true, owner := owner, resvTms := tms)];
          } else {
            rcbs := rcbs[ref := before.(rptEna := false)];
          }
        case SetResvTms(n) =>
          rcbs := rcbs[ref := before.(resvTms := Some(if cooperative then n else seconds), owner := owner)];
        case SetParams(changes) =>
          rcbs := rcbs[ref := before.(params := before.params.With(changes))];
        case Trigger(_) =>
      }
      accepted := true;
    }

    /** The changes a device got to before it refused. */
    static function PartOf(changes: map<Param, int>, kept: map<Param, int>): map<Param, int> {
      map p | p in changes && p in kept :: changes[p]
    }

    method WriteSetting(ld: string, w: SettingWrite) returns (accepted: bool)
      modifies this`sgcbs
      ensures accepted ==> ld in old(sgcbs) && Possible(old(sgcbs)[ld], w)
                           && sgcbs == old(sgcbs)[ld := Performed(old(sgcbs)[ld], w)]
      ensures !accepted ==> sgcbs == old(sgcbs)
      ensures cooperative && ld in sgcbs && Possible(old(sgcbs)[ld], w) ==> accepted
    {
      accepted := *;
      if ld !in sgcbs || !Possible(sgcbs[ld], w) {
        return false;
      }
      if cooperative {
        accepted := true;
      }
      if accepted {
        sgcbs := sgcbs[ld := Performed(sgcbs[ld], w)];
      }
    }
  }
}

/** Input state: the identities whose reports PSS is rejecting, and the one kind of
    report that lets go of an identity. */
module InputState {
  import opened Options
  import opened PssProtocol
  import opened RequestQueries
  import opened SubCauses

  predicate IsInputUnusable(ev: Event) {
    ev.eventType.SwFail? && ev.cause == CAUSE_CLIENT_INPUT_UNUSABLE
  }

  /** Some cause-13 SW_FAIL among the first n slots names identity b. */
  ghost predicate RejectedIn(es: seq<SensorData>, n: nat, b: Bit)
    requires n <= |es|
  {
    b in INPUT_STATE && exists i :: 0 <= i < n && IsInputUnusable(es[i].event) && b in es[i].event.objectId0
  }

  ghost predicate Rejected(req: DecisionRequest, b: Bit) {
    RejectedIn(req.summary, Count(req), b)
  }

  /** The request's presence report lists b as UNUSABLE. */
  ghost predicate Unusable(req: DecisionRequest, b: Bit) {
    ReportOf(req).Some? && b in InputStateField(ReportOf(req).value.present)
  }

  /** The request's presence report lists b as CONFIRMED USABLE. */
  ghost predicate Confirmed(req: DecisionRequest, b: Bit) {
    ReportOf(req).Some? && b in InputStateField(ReportOf(req).value.expected)
  }

  /** The request says identity b's input is being rejected. */
  ghost predicate Opens(req: DecisionRequest, b: Bit) {
    Rejected(req, b) || Unusable(req, b)
  }

  /** The one thing that lets go of identity b: outside ERROR mode a report
      confirms it usable, and nothing in the request says it is rejected. */
  ghost predicate Closes(req: DecisionRequest, b: Bit) {
    req.mode != Error && Confirmed(req, b) && !Opens(req, b)
  }

  ghost function HeldAfter(held: Mask, req: DecisionRequest): Mask {
    set b: Bit | Opens(req, b) || (b in held && !Closes(req, b))
  }

  ghost predicate InputRaises(held: Mask, req: DecisionRequest, c: SubCause) {
    c == InputUnusable && HeldAfter(held, req) != {}
  }

  ghost predicate InputClears(held: Mask, req: DecisionRequest, c: SubCause) {
    c == InputUnusable && HeldAfter(held, req) == {} && held != {}
  }

  /** The caller's persistent record of the identities it holds the cause for. */
  class InputRecord {
    var unusableSeen: Mask

    constructor ()
      ensures unusableSeen == {}
    {
      unusableSeen := {};
    }

    method SourceInputStateEvaluate(req: Option<DecisionRequest>) returns (d: Delta)
      modifies this
      ensures req.None? ==> d == NO_CHANGE && unusableSeen == old(unusableSeen)
      ensures req.Some? ==> unusableSeen == HeldAfter(old(unusableSeen), req.value)
      ensures req.Some? ==> forall c :: c in d.raised <==> InputRaises(old(unusableSeen), req.value, c)
      ensures req.Some? ==> forall c :: c in d.cleared <==> InputClears(old(unusableSeen), req.value, c)
    {
      if req.None? {
        return NO_CHANGE;
      }
      var r := req.value;
      var before := unusableSeen;
      var fromSwFail := {};
      for i := 0 to Count(r)
        invariant forall b: Bit :: b in fromSwFail <==> RejectedIn(r.summary, i, b)
        invariant unusableSeen == before
      {
        var ev := r.summary[i].event;
        if ev.eventType.SwFail? && ev.cause == CAUSE_CLIENT_INPUT_UNUSABLE {
          fromSwFail := fromSwFail + ev.objectId0 * INPUT_STATE;
        }
      }
      unusableSeen := unusableSeen + fromSwFail;

      var found, present, expected := FindPresenceReport(req);
      if found {
        var unusable := InputStateField(present);
        var confirmed := InputStateField(expected);
        unusableSeen := unusableSeen + unusable;
        if r.mode != Error {
          unusableSeen := unusableSeen - (confirmed - unusable - fromSwFail);
        }
      }
      assert unusableSeen == HeldAfter(before, r);

      d := NO_CHANGE;
      if unusableSeen != {} {
        d := Delta({InputUnusable}, {});
      } else if before != {} {
        d := Delta({}, {InputUnusable});
      }
    }
  }
}

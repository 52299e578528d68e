/** The general PSS sub-cause rules: what one request raises and refutes on the
    strength of its mode, its no-ops and its SW_FAIL entries. */
module SubCauses {
  import opened Options
  import opened PssProtocol
  import opened RequestQueries

  /** The seven bits of the sub-cause byte. */
  datatype SubCause = ModeError | GatewayComm | SwFailure | MonitorLost | PmLost | MdxLost | InputUnusable

  /** What one request makes active, and what it affirmatively refutes. */
  datatype Delta = Delta(raised: set<SubCause>, cleared: set<SubCause>)

  const NO_CHANGE := Delta({}, {})

  predicate CauseIsGatewayComm(c: EventCause) {
    c == CAUSE_PSS_ERROR || c == CAUSE_PSS_REQUEST_SEQUENCE_GAP || c == CAUSE_PSS_REQUEST_ID_INVALID
  }

  /** The one sub-cause of a SW_FAIL. An unrecognised cause, and a cause 13 that
      names no source, land in the conservative bucket. */
  function SwFailSubCause(ev: Event): SubCause {
    if CauseIsGatewayComm(ev.cause) then GatewayComm
    else if ev.cause == CAUSE_SAFETY_MONITOR_LOST then MonitorLost
    else if ev.cause == CAUSE_PERCEPTION_MONITOR_LOST then PmLost
    else if ev.cause == CAUSE_MDX_CLIENT_LOST then MdxLost
    else if ev.cause == CAUSE_CLIENT_INPUT_UNUSABLE && ev.objectId0 * INPUT_STATE != {} then InputUnusable
    else SwFailure
  }

  /** Some SW_FAIL among the first n slots has sub-cause c, whatever its
      position, the mode, or its staleness. */
  ghost predicate SwFailIn(es: seq<SensorData>, n: nat, c: SubCause)
    requires n <= |es|
  {
    exists i :: 0 <= i < n && es[i].event.eventType.SwFail? && SwFailSubCause(es[i].event) == c
  }

  method SwFailSubCausesRaised(req: DecisionRequest) returns (raised: set<SubCause>)
    ensures forall c :: c in raised <==> SwFailIn(req.summary, Count(req), c)
  {
    raised := {};
    for i := 0 to Count(req)
      invariant forall c :: c in raised <==> SwFailIn(req.summary, i, c)
    {
      var ev := req.summary[i].event;
      if ev.eventType.SwFail? {
        raised := raised + {SwFailSubCause(ev)};
      }
    }
  }

  ghost predicate ClearsSwFail(req: DecisionRequest) {
    req.mode != Error && !IsNoopOnly(req) && !HasSwFail(req)
  }

  /** Sub-cause c is made active: the mode is ERROR, or some SW_FAIL is its. */
  ghost predicate GeneralRaises(req: DecisionRequest, c: SubCause) {
    (c == ModeError && req.mode == Error) || SwFailIn(req.summary, Count(req), c)
  }

  /** Sub-cause c is refuted. The source-lost and input-unusable ones never are. */
  ghost predicate GeneralClears(req: DecisionRequest, c: SubCause) {
    match c
    case ModeError => req.mode != Error
    case GatewayComm => IsGatewayCommRecovered(req) || ClearsSwFail(req)
    case SwFailure => ClearsSwFail(req)
    case _ => false
  }

  method PssSubCausesEvaluate(req: Option<DecisionRequest>) returns (d: Delta)
    ensures req.None? ==> d == NO_CHANGE
    ensures req.Some? ==> forall c :: c in d.raised <==> GeneralRaises(req.value, c)
    ensures req.Some? ==> forall c :: c in d.cleared <==> GeneralClears(req.value, c)
  {
    if req.None? {
      return NO_CHANGE;
    }
    var r := req.value;
    if r.mode == Error {
      var swFails := SwFailSubCausesRaised(r);
      return Delta({ModeError} + swFails, {});
    }
    d := Delta({}, {ModeError});
    if IsNoopOnly(r) {
      if IsGatewayCommRecovered(r) {
        d := Delta(d.raised, d.cleared + {GatewayComm});
      }
      return;
    }
    var hasSwFail := ContainsSwFail(req);
    if !hasSwFail {
      d := Delta(d.raised, d.cleared + {SwFailure, GatewayComm});
      return;
    }
    var swFails := SwFailSubCausesRaised(r);
    d := Delta(swFails, d.cleared);
  }
}

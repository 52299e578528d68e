/** The questions every fault rule asks of one DecisionRequest. A reader looks at
    the first Count(req) slots only, so each question is about that prefix. */
module RequestQueries {
  import opened Options
  import opened PssProtocol

  ghost predicate HasSwFail(req: DecisionRequest) {
    exists i :: 0 <= i < Count(req) && req.summary[i].event.eventType.SwFail?
  }

  predicate IsNoopOnly(req: DecisionRequest) {
    req.summarySize == 1 && req.summary[0].event.eventType.StatusNoop?
  }

  predicate IsGatewayCommRecovered(req: DecisionRequest) {
    IsNoopOnly(req) && req.mode != Error && req.summary[0].event.cause == CAUSE_PSS_COMM_RECOVERED
  }

  method ContainsSwFail(req: Option<DecisionRequest>) returns (r: bool)
    ensures r <==> req.Some? && HasSwFail(req.value)
  {
    if req.None? {
      return false;
    }
    for i := 0 to Count(req.value)
      invariant forall j :: 0 <= j < i ==> !req.value.summary[j].event.eventType.SwFail?
    {
      if req.value.summary[i].event.eventType.SwFail? {
        return true;
      }
    }
    return false;
  }

  /** The two masks of a presence report. */
  datatype Report = Report(present: Mask, expected: Mask)

  predicate IsReport(ev: Event) {
    ev.eventType.StatusNoop? && ev.cause == CAUSE_SOURCE_PRESENCE
  }

  /** The presence report among the first n slots; the last one if several. */
  function LastReport(es: seq<SensorData>, n: nat): Option<Report>
    requires n <= |es|
  {
    if n == 0 then None
    else if IsReport(es[n - 1].event) then Some(Report(es[n - 1].event.objectId0, es[n - 1].event.objectId1))
    else LastReport(es, n - 1)
  }

  function ReportOf(req: DecisionRequest): Option<Report> {
    LastReport(req.summary, Count(req))
  }

  /** A batch without a report has no report entry; one with a report takes both
      masks from one entry that no later report follows. */
  lemma {:induction false} LastReportIsLast(es: seq<SensorData>, n: nat)
    requires n <= |es|
    ensures LastReport(es, n).None? <==> forall i :: 0 <= i < n ==> !IsReport(es[i].event)
    ensures forall i :: 0 <= i < n && IsReport(es[i].event) && (forall j :: i < j < n ==> !IsReport(es[j].event)) ==>
              LastReport(es, n) == Some(Report(es[i].event.objectId0, es[i].event.objectId1))
  {
    if n > 0 {
      LastReportIsLast(es, n - 1);
    }
  }

  method FindPresenceReport(req: Option<DecisionRequest>) returns (found: bool, presence: Mask, expected: Mask)
    ensures found <==> req.Some? && ReportOf(req.value).Some?
    ensures found ==> ReportOf(req.value) == Some(Report(presence, expected))
  {
    found, presence, expected := false, {}, {};
    if req.None? {
      return;
    }
    for i := 0 to Count(req.value)
      invariant LastReport(req.value.summary, i) == if found then Some(Report(presence, expected)) else None
    {
      var ev := req.value.summary[i].event;
      if ev.eventType.StatusNoop? && ev.cause == CAUSE_SOURCE_PRESENCE {
        presence, expected := ev.objectId0, ev.objectId1;
        found := true;
      }
    }
  }
}

/** What the fault state says about the whole history of requests that led to it. */
module FaultHistory {
  import opened Options
  import opened PssProtocol
  import opened RequestQueries
  import opened SubCauses
  import opened SourcePresence
  import opened InputState
  import opened FaultRun
  import Latch

  // ----- the seen record -----

  /** The request names source b in any of the three ways. */
  ghost predicate Mentions(req: DecisionRequest, b: Bit) {
    Names(req, b) || Shows(req, b)
  }

  /** Some of the first k requests mentioned source b. */
  ghost predicate EverNamed(reqs: seq<DecisionRequest>, k: nat, b: Bit)
    requires k <= |reqs|
  {
    exists i :: 0 <= i < k && Mentions(reqs[i], b)
  }

  /** The seen record is the union of the tracked sources ever mentioned. */
  lemma {:induction false} SeenIsEverNamed(s: FaultState, reqs: seq<DecisionRequest>, k: nat, b: Bit)
    requires k <= |reqs|
    ensures b in After(s, reqs, k).seen <==> b in s.seen || EverNamed(reqs, k, b)
  {
    if k > 0 {
      SeenIsEverNamed(s, reqs, k - 1, b);
      assert b in After(s, reqs, k).seen <==> b in After(s, reqs, k - 1).seen || Mentions(reqs[k - 1], b);
    }
  }

  // ----- any sub-cause: active exactly since its last uncleared raise -----

  ghost function ActiveFlags(s: FaultState, reqs: seq<DecisionRequest>, c: SubCause): seq<bool> {
    seq(|reqs| + 1, k requires 0 <= k <= |reqs| => c in After(s, reqs, k).active)
  }

  ghost function RaisingRequests(s: FaultState, reqs: seq<DecisionRequest>, c: SubCause): seq<bool> {
    seq(|reqs|, i requires 0 <= i < |reqs| => Raised(After(s, reqs, i), reqs[i], c))
  }

  ghost function ClearingRequests(s: FaultState, reqs: seq<DecisionRequest>, c: SubCause): seq<bool> {
    seq(|reqs|, i requires 0 <= i < |reqs| => Cleared(After(s, reqs, i), reqs[i], c))
  }

  lemma ActiveStep(s: FaultState, req: DecisionRequest, c: SubCause)
    ensures c in Step(s, req).active <==> Raised(s, req, c) || (c in s.active && !Cleared(s, req, c))
  {
    if Raised(s, req, c) {
      RaisedIsNeverCleared(s, req, c);
    }
  }

  lemma ActiveFlagStep(s: FaultState, reqs: seq<DecisionRequest>, k: nat, c: SubCause)
    requires k < |reqs|
    ensures Latch.StepsAt(ActiveFlags(s, reqs, c), RaisingRequests(s, reqs, c), ClearingRequests(s, reqs, c), k)
  {
    ActiveStep(After(s, reqs, k), reqs[k], c);
  }

  lemma ActiveIsLatch(s: FaultState, reqs: seq<DecisionRequest>, c: SubCause)
    ensures Latch.IsLatch(ActiveFlags(s, reqs, c), RaisingRequests(s, reqs, c), ClearingRequests(s, reqs, c))
  {
    var on, raised, cleared := ActiveFlags(s, reqs, c), RaisingRequests(s, reqs, c), ClearingRequests(s, reqs, c);
    forall k | 0 <= k < |reqs|
      ensures Latch.StepsAt(on, raised, cleared, k)
    {
      ActiveFlagStep(s, reqs, k, c);
    }
  }

  // ----- a source-lost sub-cause -----

  /** Request i reports group g lost, or its report leaves out a source of the
      group that some request up to and including it has mentioned. */
  ghost predicate LossAt(reqs: seq<DecisionRequest>, i: nat, g: Group)
    requires i < |reqs|
  {
    || ReportsLoss(reqs[i], g)
    || (ReportOf(reqs[i]).Some? && exists b :: b in GroupMask(g) && EverNamed(reqs, i + 1, b) && !Shows(reqs[i], b))
  }

  /** Request j, outside ERROR mode and reporting no loss of g, carries a presence
      report showing every source of the group ever mentioned, and at least one. */
  ghost predicate ReturnAt(reqs: seq<DecisionRequest>, j: nat, g: Group)
    requires j < |reqs|
  {
    && reqs[j].mode != Error
    && ReportOf(reqs[j]).Some?
    && ShowsSome(reqs[j], g)
    && (forall b :: b in GroupMask(g) && EverNamed(reqs, j + 1, b) ==> Shows(reqs[j], b))
    && !ReportsLoss(reqs[j], g)
  }

  lemma MissingIff(reqs: seq<DecisionRequest>, i: nat, g: Group)
    requires i < |reqs|
    ensures Missing(After(INITIAL, reqs, i).seen, reqs[i], g) <==>
            ReportOf(reqs[i]).Some? && exists b :: b in GroupMask(g) && EverNamed(reqs, i + 1, b) && !Shows(reqs[i], b)
  {
    var seen := After(INITIAL, reqs, i).seen;
    forall b: Bit | !Shows(reqs[i], b)
      ensures Knows(seen, reqs[i], b) <==> EverNamed(reqs, i + 1, b)
    {
      SeenIsEverNamed(INITIAL, reqs, i, b);
      if Knows(seen, reqs[i], b) && !EverNamed(reqs, i, b) {
        assert Mentions(reqs[i], b);
      }
    }
  }

  lemma LossAndReturnMeaning(reqs: seq<DecisionRequest>, i: nat, g: Group)
    requires i < |reqs|
    ensures Raised(After(INITIAL, reqs, i), reqs[i], GroupSubCause(g)) <==> LossAt(reqs, i, g)
    ensures Cleared(After(INITIAL, reqs, i), reqs[i], GroupSubCause(g)) <==> ReturnAt(reqs, i, g)
  {
    MissingIff(reqs, i, g);
    GeneralLostIff(reqs[i], g);
  }

  /** Over every run, a group counts as lost exactly when some request lost it and
      none since has returned it. */
  lemma LossActiveIff(reqs: seq<DecisionRequest>, k: nat, g: Group)
    requires k <= |reqs|
    ensures GroupSubCause(g) in After(INITIAL, reqs, k).active <==>
            exists i: nat :: i < k && LossAt(reqs, i, g) && forall j: nat :: i < j < k ==> !ReturnAt(reqs, j, g)
  {
    var c := GroupSubCause(g);
    var raised, cleared := RaisingRequests(INITIAL, reqs, c), ClearingRequests(INITIAL, reqs, c);
    ActiveIsLatch(INITIAL, reqs, c);
    Latch.OnIff(ActiveFlags(INITIAL, reqs, c), raised, cleared, k);
    forall i: nat | i < k
      ensures raised[i] <==> LossAt(reqs, i, g)
      ensures cleared[i] <==> ReturnAt(reqs, i, g)
    {
      LossAndReturnMeaning(reqs, i, g);
    }
    if i: nat :| Latch.RaisedSince(raised, cleared, i, k) {
      assert i < k && LossAt(reqs, i, g);
    }
    if i: nat :| i < k && LossAt(reqs, i, g) && forall j: nat :: i < j < k ==> !ReturnAt(reqs, j, g) {
      assert Latch.RaisedSince(raised, cleared, i, k);
    }
  }

  /** A loss that is later inactive was ended by one request in between: a report
      outside ERROR mode showing every source of the group, among them the one the
      SW_FAIL named. */
  lemma LossEndsOnlyOnReturn(reqs: seq<DecisionRequest>, i: nat, k: nat, g: Group) returns (j: nat)
    requires i < k <= |reqs|
    requires LossAt(reqs, i, g)
    requires GroupSubCause(g) !in After(INITIAL, reqs, k).active
    ensures i < j < k && ReturnAt(reqs, j, g)
    ensures forall b :: b in GroupMask(g) && LostSourceIn(reqs[i].summary, Count(reqs[i]), b) ==> Shows(reqs[j], b)
  {
    LossActiveIff(reqs, k, g);
    j :| i < j < k && ReturnAt(reqs, j, g);
    forall b | b in GroupMask(g) && LostSourceIn(reqs[i].summary, Count(reqs[i]), b)
      ensures Shows(reqs[j], b)
    {
      assert Mentions(reqs[i], b);
      assert EverNamed(reqs, j + 1, b);
    }
  }

  /** Ordinary traffic, a plain no-op, the gateway's recovery record and any
      ERROR-mode request leave a loss as it is, from any state. */
  lemma NothingElseEndsALoss(s: FaultState, req: DecisionRequest, g: Group)
    requires GroupSubCause(g) in s.active
    requires ReportOf(req).None? || req.mode == Error
    ensures GroupSubCause(g) in Step(s, req).active
  {
    assert !Cleared(s, req, GroupSubCause(g));
  }

  // ----- an SDM restart -----

  /** After k requests a restarted SDM knows what one that kept its record knows,
      exactly when those requests have themselves mentioned all of the record. */
  lemma RestartRelearnsIff(s: FaultState, reqs: seq<DecisionRequest>, k: nat)
    requires k <= |reqs|
    ensures After(s, reqs, k).seen == After(INITIAL, reqs, k).seen <==> forall b :: b in s.seen ==> EverNamed(reqs, k, b)
  {
    forall b: Bit
      ensures b in After(s, reqs, k).seen <==> b in s.seen || EverNamed(reqs, k, b)
      ensures b in After(INITIAL, reqs, k).seen <==> EverNamed(reqs, k, b)
    {
      SeenIsEverNamed(s, reqs, k, b);
      SeenIsEverNamed(INITIAL, reqs, k, b);
    }
    if After(s, reqs, k).seen == After(INITIAL, reqs, k).seen {
      forall b | b in s.seen
        ensures EverNamed(reqs, k, b)
      {
        assert b in After(s, reqs, k).seen;
      }
    }
  }

  lemma SameKnownSameVerdict(s: FaultState, t: FaultState, req: DecisionRequest, g: Group)
    requires forall b: Bit :: Knows(s.seen, req, b) <==> Knows(t.seen, req, b)
    ensures Raises(s.seen, req, g) <==> Raises(t.seen, req, g)
    ensures Restores(s.seen, req, g) <==> Restores(t.seen, req, g)
    ensures SeenAfter(s.seen, req) == SeenAfter(t.seen, req)
  {
    forall b: Bit
      ensures b in SeenAfter(s.seen, req) <==> b in SeenAfter(t.seen, req)
    {
      assert Knows(s.seen, req, b) <==> Knows(t.seen, req, b);
    }
  }

  /** From the first report whose expected set covers the record at the restart, an SDM
      that kept that record and the restarted one agree on what every request raises and
      restores, and on every record. */
  lemma {:induction false} RestartAgreesFrom(s: FaultState, reqs: seq<DecisionRequest>, k: nat, j: nat, g: Group)
    requires k <= j < |reqs|
    requires ReportOf(reqs[k]).Some?
    requires forall b :: b in s.seen ==> b in ReportOf(reqs[k]).value.expected && b in TRACKED
    ensures Raises(After(s, reqs, j).seen, reqs[j], g) <==> Raises(After(INITIAL, reqs, j).seen, reqs[j], g)
    ensures Restores(After(s, reqs, j).seen, reqs[j], g) <==> Restores(After(INITIAL, reqs, j).seen, reqs[j], g)
    ensures After(s, reqs, j + 1).seen == After(INITIAL, reqs, j + 1).seen
  {
    if j > k {
      RestartAgreesFrom(s, reqs, k, j - 1, g);
    } else {
      forall b: Bit
        ensures Knows(After(s, reqs, k).seen, reqs[k], b) <==> Knows(After(INITIAL, reqs, k).seen, reqs[k], b)
      {
        SeenIsEverNamed(s, reqs, k, b);
        SeenIsEverNamed(INITIAL, reqs, k, b);
      }
    }
    SameKnownSameVerdict(After(s, reqs, j), After(INITIAL, reqs, j), reqs[j], g);
  }

  /** The request speaks of group g: a source of it is known or shown, or it is reported lost. */
  ghost predicate SpeaksOf(seen: Mask, req: DecisionRequest, g: Group) {
    ShowsSome(req, g) || ReportsLoss(req, g) || exists b :: b in GroupMask(g) && Knows(seen, req, b)
  }

  /** Once both know the same, a report outside ERROR mode settles whether a group is
      lost, whatever either held active before, exactly when it speaks of the group. Of
      a group it does not speak of, each keeps what it held. */
  lemma RestartSettlesActive(s: FaultState, t: FaultState, req: DecisionRequest, g: Group)
    requires ReportOf(req).Some? && req.mode != Error
    requires forall b: Bit :: Knows(s.seen, req, b) <==> Knows(t.seen, req, b)
    ensures var c := GroupSubCause(g);
            && (SpeaksOf(s.seen, req, g) ==> (c in Step(s, req).active <==> Raises(s.seen, req, g)))
            && (!SpeaksOf(s.seen, req, g) ==> (c in Step(s, req).active <==> c in s.active))
            && ((c in Step(s, req).active <==> c in Step(t, req).active) <==>
                SpeaksOf(s.seen, req, g) || (c in s.active <==> c in t.active))
  {
    SettledBy(s, req, g);
    SettledBy(t, req, g);
    SameKnownSameVerdict(s, t, req, g);
    assert SpeaksOf(s.seen, req, g) <==> SpeaksOf(t.seen, req, g);
  }

  lemma SettledBy(s: FaultState, req: DecisionRequest, g: Group)
    requires ReportOf(req).Some? && req.mode != Error
    ensures GroupSubCause(g) in Step(s, req).active <==>
            if SpeaksOf(s.seen, req, g) then Raises(s.seen, req, g) else GroupSubCause(g) in s.active
  {
    GeneralLostIff(req, g);
    ActiveStep(s, req, GroupSubCause(g));
    if b :| b in GroupMask(g) && Knows(s.seen, req, b) {
      assert Shows(req, b) ==> ShowsSome(req, g);
    }
  }

  /** A loss of the Safety Monitor that names no source, and a report that expects none. */
  const NAMELESS_LOSS := OneEntry(SensorData(true, true, Event(1, SwFail, CAUSE_SAFETY_MONITOR_LOST, Fused, 0, {}, {})))
  const EMPTY_REPORT := OneEntry(SensorData(true, true, Event(2, StatusNoop, CAUSE_SOURCE_PRESENCE, Fused, 0, {}, {})))

  lemma EmptyReportIsSilent()
    ensures ReportOf(EMPTY_REPORT) == Some(Report({}, {}))
    ensures forall b: Bit :: !Names(NAMELESS_LOSS, b) && !Shows(NAMELESS_LOSS, b)
    ensures ReportsLoss(NAMELESS_LOSS, 0) && !SpeaksOf({}, EMPTY_REPORT, 0)
  {
    var loss, report := NAMELESS_LOSS, EMPTY_REPORT;
    assert LastReport(report.summary, 0).None? && LastReport(loss.summary, 0).None?;
    assert LastReport(report.summary, 1) == ReportOf(report);
    assert LastReport(loss.summary, 1) == ReportOf(loss);
    assert loss.summary[0].event.eventType.SwFail?;
  }

  /** Here a restart between the two drops the loss for good: what came before it is
      active in one and not in the other, and this report does not speak of it. */
  lemma RestartDropsNamelessLoss()
    ensures MonitorLost in After(INITIAL, [NAMELESS_LOSS, EMPTY_REPORT], 2).active
    ensures MonitorLost !in After(INITIAL, [EMPTY_REPORT], 1).active
  {
    EmptyReportIsSilent();
    var reqs := [NAMELESS_LOSS, EMPTY_REPORT];
    var s := After(INITIAL, reqs, 1);
    assert After(INITIAL, reqs, 0) == INITIAL && reqs[0] == NAMELESS_LOSS && reqs[1] == EMPTY_REPORT;
    assert s == Step(INITIAL, NAMELESS_LOSS) && After(INITIAL, reqs, 2) == Step(s, EMPTY_REPORT);
    ActiveStep(INITIAL, NAMELESS_LOSS, MonitorLost);
    assert s.seen == {};
    assert GroupSubCause(0) == MonitorLost;
    SettledBy(s, EMPTY_REPORT, 0);
    SettledBy(INITIAL, EMPTY_REPORT, 0);
    assert After(INITIAL, [EMPTY_REPORT], 1) == Step(INITIAL, EMPTY_REPORT);
  }

  /** Redelivering a request changes neither the record nor the verdicts. */
  lemma RedeliveryChangesNothing(seen: Mask, req: DecisionRequest, g: Group)
    ensures SeenAfter(SeenAfter(seen, req), req) == SeenAfter(seen, req)
    ensures Raises(SeenAfter(seen, req), req, g) <==> Raises(seen, req, g)
    ensures Restores(SeenAfter(seen, req), req, g) <==> Restores(seen, req, g)
  {
    assert forall b: Bit :: !Shows(req, b) ==> (Knows(SeenAfter(seen, req), req, b) <==> Knows(seen, req, b));
  }

  // ----- the input-unusable sub-cause -----

  ghost function HeldFlags(reqs: seq<DecisionRequest>, b: Bit): seq<bool> {
    seq(|reqs| + 1, k requires 0 <= k <= |reqs| => b in After(INITIAL, reqs, k).held)
  }

  ghost function OpeningRequests(reqs: seq<DecisionRequest>, b: Bit): seq<bool> {
    seq(|reqs|, i requires 0 <= i < |reqs| => Opens(reqs[i], b))
  }

  ghost function ClosingRequests(reqs: seq<DecisionRequest>, b: Bit): seq<bool> {
    seq(|reqs|, i requires 0 <= i < |reqs| => Closes(reqs[i], b))
  }

  lemma HeldIsLatch(reqs: seq<DecisionRequest>, b: Bit)
    ensures Latch.IsLatch(HeldFlags(reqs, b), OpeningRequests(reqs, b), ClosingRequests(reqs, b))
  {
    var on, raised, cleared := HeldFlags(reqs, b), OpeningRequests(reqs, b), ClosingRequests(reqs, b);
    forall k | 0 <= k < |reqs|
      ensures Latch.StepsAt(on, raised, cleared, k)
    {
      assert After(INITIAL, reqs, k + 1).held == HeldAfter(After(INITIAL, reqs, k).held, reqs[k]);
    }
  }

  /** Identity b is held exactly when some request opened it and none since closed it. */
  lemma HeldIff(reqs: seq<DecisionRequest>, k: nat, b: Bit)
    requires k <= |reqs|
    ensures b in After(INITIAL, reqs, k).held <==>
            exists i: nat :: i < k && Opens(reqs[i], b) && forall j: nat :: i < j < k ==> !Closes(reqs[j], b)
  {
    var raised, cleared := OpeningRequests(reqs, b), ClosingRequests(reqs, b);
    HeldIsLatch(reqs, b);
    Latch.OnIff(HeldFlags(reqs, b), raised, cleared, k);
    assert forall i: nat :: i < k ==> (raised[i] <==> Opens(reqs[i], b)) && (cleared[i] <==> Closes(reqs[i], b));
    if i: nat :| Latch.RaisedSince(raised, cleared, i, k) {
      assert i < k && Opens(reqs[i], b);
    }
    if i: nat :| i < k && Opens(reqs[i], b) && forall j: nat :: i < j < k ==> !Closes(reqs[j], b) {
      assert Latch.RaisedSince(raised, cleared, i, k);
    }
  }

  /** What a restart costs the held record: exactly the identities held before it that no
      request has closed, or opened again, since. */
  lemma {:induction false} RestartHeldIff(s: FaultState, reqs: seq<DecisionRequest>, k: nat, b: Bit)
    requires k <= |reqs|
    ensures b in After(s, reqs, k).held <==>
            || b in After(INITIAL, reqs, k).held
            || (b in s.held && forall i :: 0 <= i < k ==> !Closes(reqs[i], b))
  {
    if k > 0 {
      RestartHeldIff(s, reqs, k - 1, b);
      assert b in After(s, reqs, k).held <==>
             Opens(reqs[k - 1], b) || (b in After(s, reqs, k - 1).held && !Closes(reqs[k - 1], b));
    }
  }

  lemma InputBitStep(s: FaultState, req: DecisionRequest)
    requires InputUnusable in s.active <==> s.held != {}
    ensures InputUnusable in Step(s, req).active <==> Step(s, req).held != {}
  {
    ActiveStep(s, req, InputUnusable);
    if GeneralRaises(req, InputUnusable) {
      RejectedIsHeld(s.held, req);
    }
  }

  /** The input-unusable bit is active exactly while an identity is held. */
  lemma {:induction false} InputActiveIffHeld(reqs: seq<DecisionRequest>, k: nat)
    requires k <= |reqs|
    ensures InputUnusable in After(INITIAL, reqs, k).active <==> After(INITIAL, reqs, k).held != {}
  {
    if k > 0 {
      InputActiveIffHeld(reqs, k - 1);
      InputBitStep(After(INITIAL, reqs, k - 1), reqs[k - 1]);
    }
  }

  /** An entry with everything about identities other than b removed from its masks. */
  function ProjectEntry(sd: SensorData, b: Bit): SensorData {
    sd.(event := sd.event.(objectId0 := (set x | x in sd.event.objectId0 && (x == b || x == b + INPUT_STATE_SHIFT)),
                           objectId1 := (set x | x in sd.event.objectId1 && (x == b || x == b + INPUT_STATE_SHIFT))))
  }

  function Project(req: DecisionRequest, b: Bit): DecisionRequest {
    req.(summary := seq(MAX_SUMMARY, i requires 0 <= i < MAX_SUMMARY => ProjectEntry(req.summary[i], b)))
  }

  lemma {:induction false} ProjectReport(req: DecisionRequest, b: Bit, n: nat)
    requires n <= MAX_SUMMARY
    ensures LastReport(Project(req, b).summary, n).Some? <==> LastReport(req.summary, n).Some?
    ensures LastReport(req.summary, n).Some? ==>
              var r, p := LastReport(req.summary, n).value, LastReport(Project(req, b).summary, n).value;
              && (forall x :: x in p.present <==> x in r.present && (x == b || x == b + INPUT_STATE_SHIFT))
              && (forall x :: x in p.expected <==> x in r.expected && (x == b || x == b + INPUT_STATE_SHIFT))
  {
    if n > 0 {
      ProjectReport(req, b, n - 1);
    }
  }

  /** What a request says about an identity is all in its projection. */
  lemma ProjectKeepsVerdict(req: DecisionRequest, b: Bit, c: Bit)
    requires b in INPUT_STATE
    ensures Opens(Project(req, b), c) <==> c == b && Opens(req, b)
    ensures c == b ==> (Closes(Project(req, b), b) <==> Closes(req, b))
  {
    ProjectReport(req, b, Count(req));
    assert forall i :: 0 <= i < Count(req) ==> Project(req, b).summary[i] == ProjectEntry(req.summary[i], b);
    assert Rejected(Project(req, b), c) <==> c == b && Rejected(req, b) by {
      if Rejected(req, b) {
        var i :| 0 <= i < Count(req) && IsInputUnusable(req.summary[i].event) && b in req.summary[i].event.objectId0;
        assert IsInputUnusable(Project(req, b).summary[i].event) && b in Project(req, b).summary[i].event.objectId0;
      }
    }
    assert Unusable(Project(req, b), c) <==> c == b && Unusable(req, b);
  }

  function ProjectRun(reqs: seq<DecisionRequest>, b: Bit): seq<DecisionRequest> {
    seq(|reqs|, i requires 0 <= i < |reqs| => Project(reqs[i], b))
  }

  /** Each identity's membership is decided by the run projected to it. */
  lemma {:induction false} HeldByProjection(reqs: seq<DecisionRequest>, k: nat, b: Bit, c: Bit)
    requires k <= |reqs| && b in INPUT_STATE
    ensures c in After(INITIAL, ProjectRun(reqs, b), k).held <==> c == b && b in After(INITIAL, reqs, k).held
  {
    if k > 0 {
      HeldByProjection(reqs, k - 1, b, c);
      ProjectKeepsVerdict(reqs[k - 1], b, c);
      var h, p := After(INITIAL, reqs, k - 1).held, After(INITIAL, ProjectRun(reqs, b), k - 1).held;
      assert After(INITIAL, reqs, k).held == HeldAfter(h, reqs[k - 1]);
      assert After(INITIAL, ProjectRun(reqs, b), k).held == HeldAfter(p, Project(reqs[k - 1], b));
    }
  }
}

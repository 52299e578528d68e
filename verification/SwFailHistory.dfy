/** The two sub-causes on which ATL and the shared rules can differ: ATL takes a SW_FAIL
    only when it is live and not the one last taken from its slot. */
module SwFailHistory {
  import opened Options
  import opened PssProtocol
  import opened RequestQueries
  import opened SubCauses
  import opened SourcePresence
  import opened InputState
  import opened AtlState
  import opened AtlRun
  import opened AtlSafety
  import F = FaultRun
  import H = FaultHistory
  import Latch
  import Seq = GatewaySequence

  /** Gateway communication and the conservative bucket. */
  predicate IsTraffic(c: SubCause) {
    c == GatewayComm || c == SwFailure
  }

  lemma TrafficStep(f: F.FaultState, ids: EventIds, req: DecisionRequest, c: SubCause)
    requires IsTraffic(c)
    ensures c in PssAfter(f, ids, req).active <==> FreshSwFailOf(ids, req, c) || (c in f.active && !GeneralClears(req, c))
    ensures c in F.Step(f, req).active <==>
            SwFailIn(req.summary, Count(req), c) || (c in f.active && !GeneralClears(req, c))
  {
    H.ActiveStep(f, req, c);
  }

  /** From one and the same state, ATL and the shared rules agree after a request exactly
      when a SW_FAIL of the sub-cause is fresh or the sub-cause was active anyway. */
  lemma StepAgreesIff(f: F.FaultState, ids: EventIds, req: DecisionRequest, c: SubCause)
    requires IsTraffic(c)
    ensures (c in PssAfter(f, ids, req).active <==> c in F.Step(f, req).active) <==>
            (SwFailIn(req.summary, Count(req), c) ==> FreshSwFailOf(ids, req, c) || c in f.active)
  {
    TrafficStep(f, ids, req, c);
    if FreshSwFailOf(ids, req, c) {
      assert SwFailIn(req.summary, Count(req), c);
    }
    if SwFailIn(req.summary, Count(req), c) {
      assert HasSwFail(req) && !IsNoopOnly(req);
    }
  }

  // ----- over a run -----

  /** Step i takes a request with a SW_FAIL of c. */
  ghost predicate FailsAt(cfg: Config, run: seq<Action>, i: nat, c: SubCause) {
    TakenAt(cfg, run, i) && SwFailIn(run[i].request.summary, Count(run[i].request), c)
  }

  /** Step i takes a request with a fresh one. */
  ghost predicate FailsFreshAt(cfg: Config, run: seq<Action>, i: nat, c: SubCause) {
    TakenAt(cfg, run, i) && FreshSwFailOf(After(cfg, run, i).inbox.ids, run[i].request, c)
  }

  ghost predicate ClearsAt(cfg: Config, run: seq<Action>, i: nat, c: SubCause) {
    TakenAt(cfg, run, i) && GeneralClears(run[i].request, c)
  }

  ghost function Failing(cfg: Config, run: seq<Action>, c: SubCause): seq<bool> {
    seq(|run|, i requires 0 <= i < |run| => FailsAt(cfg, run, i, c))
  }

  ghost function FailingFresh(cfg: Config, run: seq<Action>, c: SubCause): seq<bool> {
    seq(|run|, i requires 0 <= i < |run| => FailsFreshAt(cfg, run, i, c))
  }

  ghost function Clearing(cfg: Config, run: seq<Action>, c: SubCause): seq<bool> {
    seq(|run|, i requires 0 <= i < |run| => ClearsAt(cfg, run, i, c))
  }

  ghost function AtlFlags(cfg: Config, run: seq<Action>, c: SubCause): seq<bool> {
    seq(|run| + 1, n requires 0 <= n <= |run| => c in After(cfg, run, n).faults.pss.active)
  }

  /** What the shared rules make of the requests taken in the first n steps. */
  ghost function SharedActive(cfg: Config, run: seq<Action>, n: nat): set<SubCause>
    requires n <= |run|
  {
    var reqs := Processed(cfg, run, n);
    F.After(F.INITIAL, reqs, |reqs|).active
  }

  ghost function SharedFlags(cfg: Config, run: seq<Action>, c: SubCause): seq<bool> {
    seq(|run| + 1, n requires 0 <= n <= |run| => c in SharedActive(cfg, run, n))
  }

  lemma AtlStep(cfg: Config, run: seq<Action>, n: nat, c: SubCause)
    requires n < |run| && IsTraffic(c)
    ensures c in After(cfg, run, n + 1).faults.pss.active <==>
            FailsFreshAt(cfg, run, n, c) || (c in After(cfg, run, n).faults.pss.active && !ClearsAt(cfg, run, n, c))
  {
    var s := After(cfg, run, n);
    OnlyPacketsMoveFaults(cfg, s, run[n]);
    if TakenAt(cfg, run, n) {
      TrafficStep(s.faults.pss, s.inbox.ids, run[n].request, c);
    }
  }

  lemma SharedStep(cfg: Config, run: seq<Action>, n: nat, c: SubCause)
    requires n < |run| && IsTraffic(c)
    ensures c in SharedActive(cfg, run, n + 1) <==>
            FailsAt(cfg, run, n, c) || (c in SharedActive(cfg, run, n) && !ClearsAt(cfg, run, n, c))
  {
    var front := Processed(cfg, run, n);
    if TakenAt(cfg, run, n) {
      var reqs := front + [run[n].request];
      assert Processed(cfg, run, n + 1) == reqs;
      AppendRequest(front, run[n].request);
      TrafficStep(F.After(F.INITIAL, front, |front|), NO_IDS, run[n].request, c);
    } else {
      assert Processed(cfg, run, n + 1) == front;
    }
  }

  /** Over every run: ATL has the sub-cause active exactly when a fresh SW_FAIL of it came
      in and nothing has cleared it since, the shared rules when any did. */
  lemma TrafficByHistory(cfg: Config, run: seq<Action>, n: nat, c: SubCause)
    requires n <= |run| && IsTraffic(c)
    ensures c in After(cfg, run, n).faults.pss.active <==>
            exists i: nat :: Latch.RaisedSince(FailingFresh(cfg, run, c), Clearing(cfg, run, c), i, n)
    ensures c in SharedActive(cfg, run, n) <==>
            exists i: nat :: Latch.RaisedSince(Failing(cfg, run, c), Clearing(cfg, run, c), i, n)
  {
    AtlByHistory(cfg, run, n, c);
    SharedByHistory(cfg, run, n, c);
  }

  lemma AtlByHistory(cfg: Config, run: seq<Action>, n: nat, c: SubCause)
    requires n <= |run| && IsTraffic(c)
    ensures c in After(cfg, run, n).faults.pss.active <==>
            exists i: nat :: Latch.RaisedSince(FailingFresh(cfg, run, c), Clearing(cfg, run, c), i, n)
  {
    var on, raised, cleared := AtlFlags(cfg, run, c), FailingFresh(cfg, run, c), Clearing(cfg, run, c);
    forall k | 0 <= k < |run|
      ensures Latch.StepsAt(on, raised, cleared, k)
    {
      AtlStep(cfg, run, k, c);
    }
    Latch.OnIff(on, raised, cleared, n);
    assert !on[0] && on[n] == (c in After(cfg, run, n).faults.pss.active);
  }

  lemma SharedByHistory(cfg: Config, run: seq<Action>, n: nat, c: SubCause)
    requires n <= |run| && IsTraffic(c)
    ensures c in SharedActive(cfg, run, n) <==>
            exists i: nat :: Latch.RaisedSince(Failing(cfg, run, c), Clearing(cfg, run, c), i, n)
  {
    var on, raised, cleared := SharedFlags(cfg, run, c), Failing(cfg, run, c), Clearing(cfg, run, c);
    forall k | 0 <= k < |run|
      ensures Latch.StepsAt(on, raised, cleared, k)
    {
      SharedStep(cfg, run, k, c);
    }
    Latch.OnIff(on, raised, cleared, n);
    assert !on[0] && on[n] == (c in SharedActive(cfg, run, n));
  }

  /** So they agree exactly when some SW_FAIL since the last clearing request, if there
      was any, was fresh. */
  lemma RunAgreesIff(cfg: Config, run: seq<Action>, n: nat, c: SubCause)
    requires n <= |run| && IsTraffic(c)
    ensures (c in After(cfg, run, n).faults.pss.active <==> c in SharedActive(cfg, run, n)) <==>
            ((exists i: nat :: Latch.RaisedSince(Failing(cfg, run, c), Clearing(cfg, run, c), i, n)) ==>
              exists i: nat :: Latch.RaisedSince(FailingFresh(cfg, run, c), Clearing(cfg, run, c), i, n))
  {
    TrafficByHistory(cfg, run, n, c);
    FaultsRefine(cfg, run, n);
  }

  // ----- a run on which they differ -----

  /** A SW_FAIL of no particular cause, with id 7. */
  const FAILURE := OneEntry(SensorData(true, true, Event(7, SwFail, CAUSE_NONE, Fused, 0, {}, {})))

  /** Ordinary traffic whose one entry has gone stale. */
  const ORDINARY := OneEntry(SensorData(true, true, Event(8, Generic(0), CAUSE_NONE, Stale, 0, {}, {})))

  const REDELIVERY := [
    PacketArrives(Seq.Packet(1, 1), FAILURE),
    PacketArrives(Seq.Packet(1, 2), ORDINARY), NextEvent, NextEvent,
    PacketArrives(Seq.Packet(1, 3), FAILURE)]

  /** Entries about no reviewed sensor leave the sensors alone. */
  lemma SensorsStay(x: Sensors, req: DecisionRequest)
    requires Count(req) == 1 && req.summary[0].event.pipelineId == 0
    ensures !SensorsEnter(SITE, x, req)
  {
    assert SensorsAfter(SITE, x, req.summary, 1) == x;
  }

  lemma FailureTaken()
    ensures var s := After(SITE, REDELIVERY, 1);
            && IsRun(SITE, REDELIVERY, 1) && TakenAt(SITE, REDELIVERY, 0) && s.output.release.NoRelease?
            && s.inbox == Inbox(Seq.SequenceState(true, 1, 1), NO_IDS[0 := 7], None)
  {
    assert After(SITE, REDELIVERY, 0) == LAUNCH && IsRun(SITE, REDELIVERY, 0);
    assert FAILURE.summary[0].event.id == 7;
    assert FreshSwFail(NO_IDS, FAILURE, 0);
    assert IdsAfter(NO_IDS, FAILURE) == NO_IDS[0 := 7];
  }

  lemma OrdinaryTaken()
    ensures var s := After(SITE, REDELIVERY, 4);
            && IsRun(SITE, REDELIVERY, 4) && TakenAt(SITE, REDELIVERY, 1) && s.output.release.NoRelease?
            && s.inbox == Inbox(Seq.SequenceState(true, 1, 2), NO_IDS[0 := 7], None)
  {
    FailureTaken();
    var s := After(SITE, REDELIVERY, 1);
    var t := Sequenced(s, Seq.Packet(1, 2));
    SensorsStay(t.faults.sensors, ORDINARY);
    assert ORDINARY.summary[0].event.eventType == Generic(0);
    assert !AnyFreshSwFail(t.inbox.ids, ORDINARY);
    assert IdsAfter(t.inbox.ids, ORDINARY) == t.inbox.ids;
    assert After(SITE, REDELIVERY, 2) == RequestStep(SITE, t, ORDINARY);
    assert After(SITE, REDELIVERY, 2).inbox.work == Some(Work(ORDINARY, 0));
    assert IsRun(SITE, REDELIVERY, 2);
    assert After(SITE, REDELIVERY, 3) == EventStep(SITE, After(SITE, REDELIVERY, 2));
    assert After(SITE, REDELIVERY, 4) == EventStep(SITE, After(SITE, REDELIVERY, 3));
    assert IsRun(SITE, REDELIVERY, 3);
  }

  /** The same SW_FAIL again, after ordinary traffic refuted it: the shared rules raise it
      again, ATL does not. */
  lemma RedeliveredSwFailIsNotRaised()
    ensures IsRun(SITE, REDELIVERY, 5)
    ensures SwFailure in SharedActive(SITE, REDELIVERY, 5)
    ensures SwFailure !in After(SITE, REDELIVERY, 5).faults.pss.active
  {
    FailureTaken();
    OrdinaryTaken();
    var c := SwFailure;
    assert SwFailSubCause(FAILURE.summary[0].event) == c;
    assert TakenAt(SITE, REDELIVERY, 4) && FailsAt(SITE, REDELIVERY, 4, c);
    SharedStep(SITE, REDELIVERY, 4, c);
    assert ORDINARY.summary[0].event.eventType == Generic(0);
    assert ClearsAt(SITE, REDELIVERY, 1, c) && !FailsFreshAt(SITE, REDELIVERY, 1, c);
    AtlStep(SITE, REDELIVERY, 1, c);
    AtlStep(SITE, REDELIVERY, 2, c);
    AtlStep(SITE, REDELIVERY, 3, c);
    assert !FailsFreshAt(SITE, REDELIVERY, 4, c);
    AtlStep(SITE, REDELIVERY, 4, c);
  }
}

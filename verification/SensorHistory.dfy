/** What the all-sensors-failed condition says about the entries of a whole run: each
    reviewed sensor is failed by evidence against it that nothing has answered since,
    and a pending initialisation seed excuses all but an explicit verdict. */
module SensorHistory {
  import opened PssProtocol
  import opened AtlState
  import opened AtlRun
  import opened AtlSafety
  import Ai = AiVerdict
  import Latch

  const ALL_WELL := Sensors({}, {})

  /** A live entry about reviewed sensor p. */
  predicate IsAbout(cfg: Config, sd: SensorData, p: nat) {
    !sd.event.status.Stale? && !sd.event.eventType.StatusNoop? && sd.event.pipelineId == p && p in cfg.reviewed
  }

  predicate IsBad(sd: SensorData) {
    sd.event.eventType.SensorInvalid? || !sd.isHealthy
  }

  predicate Recovers(cfg: Config, sd: SensorData, p: nat) {
    IsAbout(cfg, sd, p) && !IsBad(sd) && (sd.event.eventType.SensorValid? || sd.isTrustedSource)
  }

  /** SAIM's explicit initialisation seed. */
  predicate Seeds(cfg: Config, sd: SensorData, p: nat) {
    IsAbout(cfg, sd, p) && sd.event.eventType.SensorInvalid? && sd.event.cause == CAUSE_SAIM_INIT
  }

  predicate Fails(cfg: Config, sd: SensorData, p: nat, pending: bool) {
    && IsAbout(cfg, sd, p) && IsBad(sd) && sd.event.cause != CAUSE_SAIM_INIT
    && (sd.event.eventType.SensorInvalid? || !pending)
  }

  lemma EntryStep(cfg: Config, x: Sensors, sd: SensorData, p: nat)
    ensures p in SensorsAfterEntry(cfg, x, sd).pending <==> Seeds(cfg, sd, p) || (p in x.pending && !Recovers(cfg, sd, p))
    ensures p in SensorsAfterEntry(cfg, x, sd).failed <==>
            Fails(cfg, sd, p, p in x.pending) || (p in x.failed && !Recovers(cfg, sd, p))
  {
  }

  ghost function Recovering(cfg: Config, es: seq<SensorData>, p: nat): seq<bool> {
    seq(|es|, i requires 0 <= i < |es| => Recovers(cfg, es[i], p))
  }

  ghost function Seeding(cfg: Config, es: seq<SensorData>, p: nat): seq<bool> {
    seq(|es|, i requires 0 <= i < |es| => Seeds(cfg, es[i], p))
  }

  ghost function PendingFlags(cfg: Config, es: seq<SensorData>, p: nat): seq<bool> {
    seq(|es| + 1, k requires 0 <= k <= |es| => p in SensorsAfter(cfg, ALL_WELL, es, k).pending)
  }

  /** Before entry n, p's seed is out and nothing has resolved it. */
  ghost predicate IsPending(cfg: Config, es: seq<SensorData>, n: nat, p: nat) {
    exists i: nat :: Latch.RaisedSince(Seeding(cfg, es, p), Recovering(cfg, es, p), i, n)
  }

  lemma PendingIsLatch(cfg: Config, es: seq<SensorData>, p: nat)
    ensures Latch.IsLatch(PendingFlags(cfg, es, p), Seeding(cfg, es, p), Recovering(cfg, es, p))
  {
    var on, raised, cleared := PendingFlags(cfg, es, p), Seeding(cfg, es, p), Recovering(cfg, es, p);
    forall k | 0 <= k < |es|
      ensures Latch.StepsAt(on, raised, cleared, k)
    {
      EntryStep(cfg, SensorsAfter(cfg, ALL_WELL, es, k), es[k], p);
    }
  }

  lemma PendingIff(cfg: Config, es: seq<SensorData>, n: nat, p: nat)
    requires n <= |es|
    ensures p in SensorsAfter(cfg, ALL_WELL, es, n).pending <==> IsPending(cfg, es, n, p)
  {
    var on := PendingFlags(cfg, es, p);
    PendingIsLatch(cfg, es, p);
    Latch.OnIff(on, Seeding(cfg, es, p), Recovering(cfg, es, p), n);
    assert !on[0];
    assert on[n] == (p in SensorsAfter(cfg, ALL_WELL, es, n).pending);
  }

  ghost function Failing(cfg: Config, es: seq<SensorData>, p: nat): seq<bool> {
    seq(|es|, i requires 0 <= i < |es| => Fails(cfg, es[i], p, IsPending(cfg, es, i, p)))
  }

  ghost function FailedFlags(cfg: Config, es: seq<SensorData>, p: nat): seq<bool> {
    seq(|es| + 1, k requires 0 <= k <= |es| => p in SensorsAfter(cfg, ALL_WELL, es, k).failed)
  }

  /** Before entry n, some entry failed p and none since recovered it. */
  ghost predicate IsFailed(cfg: Config, es: seq<SensorData>, n: nat, p: nat) {
    exists i: nat :: Latch.RaisedSince(Failing(cfg, es, p), Recovering(cfg, es, p), i, n)
  }

  lemma FailedIsLatch(cfg: Config, es: seq<SensorData>, p: nat)
    ensures Latch.IsLatch(FailedFlags(cfg, es, p), Failing(cfg, es, p), Recovering(cfg, es, p))
  {
    var on, raised, cleared := FailedFlags(cfg, es, p), Failing(cfg, es, p), Recovering(cfg, es, p);
    forall k | 0 <= k < |es|
      ensures Latch.StepsAt(on, raised, cleared, k)
    {
      var x := SensorsAfter(cfg, ALL_WELL, es, k);
      assert raised[k] == Fails(cfg, es[k], p, p in x.pending) by {
        PendingIff(cfg, es, k, p);
      }
      EntryStep(cfg, x, es[k], p);
    }
  }

  /** A sensor counts as failed exactly by its own unanswered evidence. */
  lemma FailedIff(cfg: Config, es: seq<SensorData>, n: nat, p: nat)
    requires n <= |es|
    ensures p in SensorsAfter(cfg, ALL_WELL, es, n).failed <==> IsFailed(cfg, es, n, p)
  {
    var on := FailedFlags(cfg, es, p);
    FailedIsLatch(cfg, es, p);
    Latch.OnIff(on, Failing(cfg, es, p), Recovering(cfg, es, p), n);
    assert !on[0];
    assert on[n] == (p in SensorsAfter(cfg, ALL_WELL, es, n).failed);
  }

  // ----- over a run -----

  lemma {:induction false} SensorsOfPrefix(cfg: Config, x: Sensors, es: seq<SensorData>, fs: seq<SensorData>, n: nat)
    requires n <= |es| && n <= |fs| && forall i :: 0 <= i < n ==> es[i] == fs[i]
    ensures SensorsAfter(cfg, x, es, n) == SensorsAfter(cfg, x, fs, n)
  {
    if n > 0 {
      SensorsOfPrefix(cfg, x, es, fs, n - 1);
    }
  }

  lemma {:induction false} SensorsOfConcat(cfg: Config, x: Sensors, es: seq<SensorData>, fs: seq<SensorData>, n: nat)
    requires n <= |fs|
    ensures SensorsAfter(cfg, x, es + fs, |es| + n) == SensorsAfter(cfg, SensorsAfter(cfg, x, es, |es|), fs, n)
  {
    if n > 0 {
      SensorsOfConcat(cfg, x, es, fs, n - 1);
      assert (es + fs)[|es| + n - 1] == fs[n - 1];
    } else {
      SensorsOfPrefix(cfg, x, es + fs, es, |es|);
    }
  }

  /** Every entry read in the first n steps, in order. */
  ghost function EntriesRead(cfg: Config, run: seq<Action>, n: nat): seq<SensorData>
    requires n <= |run|
  {
    if n == 0 then []
    else if TakenAt(cfg, run, n - 1) then EntriesRead(cfg, run, n - 1) + run[n - 1].request.summary[..Count(run[n - 1].request)]
    else EntriesRead(cfg, run, n - 1)
  }

  lemma VerdictStep(cfg: Config, s: AtlState, a: Action)
    ensures var f := Step(cfg, s, a).faults;
            if a.PacketArrives? && IsTaken(s, a.packet) then
              && f.sensors == SensorsAfter(cfg, s.faults.sensors, a.request.summary, Count(a.request))
              && f.aiInvalid == Ai.InvalidAfter(s.faults.aiInvalid, a.request.summary, Count(a.request))
            else f.sensors == s.faults.sensors && f.aiInvalid == s.faults.aiInvalid
  {
  }

  lemma SensorsOfPacket(cfg: Config, x: Sensors, front: seq<SensorData>, req: DecisionRequest)
    ensures var all := front + req.summary[..Count(req)];
            SensorsAfter(cfg, x, all, |all|) == SensorsAfter(cfg, SensorsAfter(cfg, x, front, |front|), req.summary, Count(req))
  {
    var last := req.summary[..Count(req)];
    SensorsOfConcat(cfg, x, front, last, |last|);
    SensorsOfPrefix(cfg, SensorsAfter(cfg, x, front, |front|), last, req.summary, |last|);
  }

  lemma AiOfPacket(front: seq<SensorData>, req: DecisionRequest)
    ensures var all := front + req.summary[..Count(req)];
            Ai.InvalidAfter(false, all, |all|) == Ai.InvalidAfter(Ai.InvalidAfter(false, front, |front|), req.summary, Count(req))
  {
    var last := req.summary[..Count(req)];
    Ai.InvalidAfterConcat(false, front, last, |last|);
    Ai.InvalidAfterPrefix(Ai.InvalidAfter(false, front, |front|), last, req.summary, |last|);
  }

  /** The sensor record and the AI condition are folds over the entries read, whatever
      came between the packets and whichever path each request took. */
  lemma {:induction false} VerdictsAreNeverSkipped(cfg: Config, run: seq<Action>, n: nat)
    requires n <= |run|
    ensures var es := EntriesRead(cfg, run, n);
            && After(cfg, run, n).faults.sensors == SensorsAfter(cfg, ALL_WELL, es, |es|)
            && After(cfg, run, n).faults.aiInvalid == Ai.InvalidAfter(false, es, |es|)
  {
    if n > 0 {
      VerdictsAreNeverSkipped(cfg, run, n - 1);
      var a, front := run[n - 1], EntriesRead(cfg, run, n - 1);
      VerdictStep(cfg, After(cfg, run, n - 1), a);
      if TakenAt(cfg, run, n - 1) {
        SensorsOfPacket(cfg, ALL_WELL, front, a.request);
        AiOfPacket(front, a.request);
      }
    }
  }

  /** Over every run: the all-sensors-failed condition holds exactly when every reviewed
      sensor has unanswered evidence against it, and the AI condition is what the last
      live verdict says; no release is accepted while either holds. */
  lemma ReleaseNeedsAnswers(cfg: Config, run: seq<Action>, n: nat)
    requires n <= |run|
    ensures var es, f := EntriesRead(cfg, run, n), After(cfg, run, n).faults;
            && (AllFailed(cfg, f.sensors) <==> forall p :: p in cfg.reviewed ==> IsFailed(cfg, es, |es|, p))
            && Ai.Decided(false, es, f.aiInvalid)
            && (ReleasedAt(cfg, run, n) ==> !f.aiInvalid && exists p :: p in cfg.reviewed && !IsFailed(cfg, es, |es|, p))
  {
    var es := EntriesRead(cfg, run, n);
    VerdictsAreNeverSkipped(cfg, run, n);
    forall p: nat
      ensures p in SensorsAfter(cfg, ALL_WELL, es, |es|).failed <==> IsFailed(cfg, es, |es|, p)
    {
      FailedIff(cfg, es, |es|, p);
    }
    Ai.LastVerdictDecides(false, es, |es|);
    assert es[..|es|] == es;
  }
}

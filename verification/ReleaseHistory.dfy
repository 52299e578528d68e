/** What can change between a release's check and its commit, and which causes an
    accepted release can clear that were latched after its check began. */
module ReleaseHistory {
  import opened Options
  import opened PssProtocol
  import opened SubCauses
  import opened AtlState
  import opened AtlRun
  import opened AtlSafety
  import Seq = GatewaySequence

  /** Step f marks the heartbeat fault. */
  ghost predicate HeartbeatFailsAt(cfg: Config, run: seq<Action>, f: nat) {
    f < |run| && run[f].HeartbeatFault? && !After(cfg, run, f).faults.hbFault
  }

  /** Under a release only the watchdogs move faults and latch, and only the heartbeat recovers. */
  lemma UnderRelease(cfg: Config, s: AtlState, a: Action)
    requires Inv(cfg, s) && Enabled(cfg, s, a) && !Step(cfg, s, a).output.release.NoRelease?
    ensures var t := Step(cfg, s, a);
            && (AnyRequestFault(cfg, s.faults) ==> AnyRequestFault(cfg, t.faults))
            && (forall l :: l in t.latch && l !in s.latch ==>
                  || (l == DecisionFreshness && t.faults.stale)
                  || (l == GatewayHb && a.HeartbeatFault? && !s.faults.hbFault))
            && (a.HeartbeatFault? ==> GatewayHb in t.latch)
            && (s.faults.hbFault && !t.faults.hbFault ==> a == HeartbeatMiss(0))
  {
    assert !a.PacketArrives? && !a.NextEvent? && !a.ReleaseCommit?;
  }

  lemma {:induction false} RequestFaultsLast(cfg: Config, run: seq<Action>, a: nat, m: nat)
    requires ReleasingThroughout(cfg, run, a, m) && IsRun(cfg, run, m)
    requires AnyRequestFault(cfg, After(cfg, run, a).faults)
    ensures AnyRequestFault(cfg, After(cfg, run, m).faults)
  {
    if a < m {
      RequestFaultsLast(cfg, run, a, m - 1);
      RunKeepsInv(cfg, run, m - 1);
      assert !After(cfg, run, m).output.release.NoRelease?;
      UnderRelease(cfg, After(cfg, run, m - 1), run[m - 1]);
    }
  }

  /** A cause latched under a release is freshness, which stays active, or the heartbeat. */
  lemma {:induction false} LatchedUnderRelease(cfg: Config, run: seq<Action>, a: nat, m: nat, l: LatchCause)
    requires ReleasingThroughout(cfg, run, a, m) && IsRun(cfg, run, m)
    requires l in After(cfg, run, m).latch && l !in After(cfg, run, a).latch
    ensures AnyRequestFault(cfg, After(cfg, run, m).faults) ||
            (l == GatewayHb && exists f :: a <= f < m && HeartbeatFailsAt(cfg, run, f))
  {
    var s := After(cfg, run, m - 1);
    RunKeepsInv(cfg, run, m - 1);
    UnderRelease(cfg, s, run[m - 1]);
    if l in s.latch {
      LatchedUnderRelease(cfg, run, a, m - 1, l);
    } else if l == GatewayHb {
      assert AnyRequestFault(cfg, After(cfg, run, m).faults) || HeartbeatFailsAt(cfg, run, m - 1);
    }
  }

  lemma {:induction false} HeartbeatRecovered(cfg: Config, run: seq<Action>, i: nat, k: nat) returns (r: nat)
    requires i <= k <= |run| && ReleasingThroughout(cfg, run, i, k) && IsRun(cfg, run, k)
    requires After(cfg, run, i).faults.hbFault && !After(cfg, run, k).faults.hbFault
    ensures i <= r < k && run[r] == HeartbeatMiss(0)
  {
    var s := After(cfg, run, k - 1);
    if s.faults.hbFault {
      RunKeepsInv(cfg, run, k - 1);
      UnderRelease(cfg, s, run[k - 1]);
      r := k - 1;
    } else {
      r := HeartbeatRecovered(cfg, run, i, k - 1);
    }
  }

  /** From its check to its commit, an accepted release had no fault active at any moment
      but the heartbeat's. */
  lemma NoRequestFaultUnderRelease(cfg: Config, run: seq<Action>, a: nat, c: nat, m: nat)
    requires c < |run| && IsRun(cfg, run, c) && ReleasedAt(cfg, run, c) && ReleasingSince(cfg, run, a, c)
    requires a <= m <= c
    ensures !AnyRequestFault(cfg, After(cfg, run, m).faults)
  {
    if AnyRequestFault(cfg, After(cfg, run, m).faults) {
      RequestFaultsLast(cfg, run, m, c);
    }
  }

  lemma LateCauseIsHeartbeat(cfg: Config, run: seq<Action>, a: nat, b: nat, c: nat, l: LatchCause) returns (f: nat)
    requires c < |run| && IsRun(cfg, run, c) && ReleasedAt(cfg, run, c)
    requires a < b < c && ReleasingSince(cfg, run, a, c)
    requires l in After(cfg, run, b).latch && l !in After(cfg, run, a).latch
    ensures l == GatewayHb && a < f < b && HeartbeatFailsAt(cfg, run, f)
  {
    NoRequestFaultUnderRelease(cfg, run, a, c, b);
    assert ReleasingThroughout(cfg, run, a, b) && IsRun(cfg, run, b) by {
      RunOfPrefix(cfg, run, c, b);
    }
    LatchedUnderRelease(cfg, run, a, b, l);
    f :| a <= f < b && HeartbeatFailsAt(cfg, run, f);
  }

  lemma FailedHeartbeat(cfg: Config, run: seq<Action>, f: nat)
    requires HeartbeatFailsAt(cfg, run, f)
    ensures After(cfg, run, f + 1).faults.hbFault && GatewayHb in After(cfg, run, f + 1).latch
  {
    assert After(cfg, run, f + 1) == Step(cfg, After(cfg, run, f), run[f]);
  }

  lemma LateHeartbeatIsLatched(cfg: Config, run: seq<Action>, a: nat, c: nat, f: nat)
    requires c <= |run| && IsRun(cfg, run, c) && ReleasingThroughout(cfg, run, a, c)
    requires a < f < c && HeartbeatFailsAt(cfg, run, f)
    ensures GatewayHb in After(cfg, run, c).latch
  {
    FailedHeartbeat(cfg, run, f);
    LatchGrowsUnderRelease(cfg, run, f + 1, c);
  }

  /** An accepted release clears a cause latched after its check began exactly when that
      cause is the heartbeat's, marked before the latch was noted. */
  lemma ClearedLateIff(cfg: Config, run: seq<Action>, c: nat, l: LatchCause) returns (a: nat, b: nat)
    requires c < |run| && IsRun(cfg, run, c) && ReleasedAt(cfg, run, c)
    ensures a < b < c && ReleasingSince(cfg, run, a, c) && NotedAt(cfg, run, b, c)
    ensures l in After(cfg, run, c).latch && l !in After(cfg, run, a).latch <==>
            && l == GatewayHb && GatewayHb !in After(cfg, run, a).latch
            && exists f :: a < f < b && HeartbeatFailsAt(cfg, run, f)
  {
    a, b := AcceptedReleaseIsAtomic(cfg, run, c);
    assert After(cfg, run, b).latch == After(cfg, run, c).latch;
    if l in After(cfg, run, c).latch && l !in After(cfg, run, a).latch {
      var f := LateCauseIsHeartbeat(cfg, run, a, b, c, l);
    }
    if f :| a < f < b && HeartbeatFailsAt(cfg, run, f) {
      LateHeartbeatIsLatched(cfg, run, a, c, f);
    }
  }

  /** And then the heartbeat came back before the commit. */
  lemma LateHeartbeatCameBack(cfg: Config, run: seq<Action>, a: nat, c: nat, f: nat) returns (r: nat)
    requires c < |run| && IsRun(cfg, run, c) && ReleasedAt(cfg, run, c) && ReleasingSince(cfg, run, a, c)
    requires a < f < c && HeartbeatFailsAt(cfg, run, f)
    ensures f < r < c && run[r] == HeartbeatMiss(0)
  {
    FailedHeartbeat(cfg, run, f);
    r := HeartbeatRecovered(cfg, run, f + 1, c);
  }

  // ----- a run that does -----

  /** A lone no-op. */
  const NOOP := OneEntry(SensorData(true, true, Event(0, StatusNoop, CAUSE_NONE, Fused, 0, {}, {})))

  const LATE_FAULT := [
    FreshnessExpires, PacketArrives(Seq.Packet(1, 1), NOOP), HeartbeatMiss(10),
    ReleaseNext, ReleaseNext, ReleaseNext, ReleaseNext,
    HeartbeatFault, ReleaseNext, HeartbeatMiss(0), ReleaseCommit(true)]

  lemma BeforeTheCheck()
    ensures var s := After(SITE, LATE_FAULT, 3);
            && IsRun(SITE, LATE_FAULT, 3) && s.latch == {DecisionFreshness} && NoneActive(SITE, s.faults) && s.faults.miss == 10
            && s.output.release.NoRelease? && s.output.phase.Idle? && s.inbox.work.None?
  {
    assert After(SITE, LATE_FAULT, 0) == LAUNCH && IsRun(SITE, LATE_FAULT, 0);
    var s1 := After(SITE, LATE_FAULT, 1);
    assert s1 == Step(SITE, LAUNCH, FreshnessExpires) && IsRun(SITE, LATE_FAULT, 1);
    assert NOOP.summary[0].event.eventType == StatusNoop;
    QuietRequest(SITE, Sequenced(s1, Seq.Packet(1, 1)), NOOP);
    var s2 := After(SITE, LATE_FAULT, 2);
    assert s2 == RequestStep(SITE, Sequenced(s1, Seq.Packet(1, 1)), NOOP) && IsRun(SITE, LATE_FAULT, 2);
    assert After(SITE, LATE_FAULT, 3) == Step(SITE, s2, HeartbeatMiss(10));
  }

  lemma ThroughTheCheck()
    ensures var s := After(SITE, LATE_FAULT, 7);
            && IsRun(SITE, LATE_FAULT, 7) && s.latch == {DecisionFreshness} && NoneActive(SITE, s.faults) && s.faults.miss == 10
            && s.output.release == Checking(4) && s.inbox.work.None? && s.output.phase.Idle?
  {
    BeforeTheCheck();
    var s3, s4 := After(SITE, LATE_FAULT, 3), After(SITE, LATE_FAULT, 4);
    assert s4 == Step(SITE, s3, ReleaseNext) && s4.output.release == Checking(1) && IsRun(SITE, LATE_FAULT, 4);
    var s5, s6 := After(SITE, LATE_FAULT, 5), After(SITE, LATE_FAULT, 6);
    assert s5 == Step(SITE, s4, ReleaseNext) && s5.output.release == Checking(2) && IsRun(SITE, LATE_FAULT, 5);
    assert s6 == Step(SITE, s5, ReleaseNext) && s6.output.release == Checking(3) && IsRun(SITE, LATE_FAULT, 6);
    assert After(SITE, LATE_FAULT, 7) == Step(SITE, s6, ReleaseNext);
  }

  /** The check passes, the heartbeat fault latches, the latch is noted with it, the
      heartbeat comes back, and the release clears both causes, although the fault was
      active when the latch was noted and latched after the check. */
  lemma LateHeartbeatFaultIsReleased()
    ensures IsRun(SITE, LATE_FAULT, 11) && ReleasedAt(SITE, LATE_FAULT, 10)
    ensures GatewayHb !in After(SITE, LATE_FAULT, 7).latch && GatewayHb in After(SITE, LATE_FAULT, 10).latch
    ensures After(SITE, LATE_FAULT, 8).faults.hbFault && After(SITE, LATE_FAULT, 11).latch == {}
  {
    ThroughTheCheck();
    var s7, s8 := After(SITE, LATE_FAULT, 7), After(SITE, LATE_FAULT, 8);
    assert s8 == Step(SITE, s7, HeartbeatFault) && IsRun(SITE, LATE_FAULT, 8);
    var s9, s10 := After(SITE, LATE_FAULT, 9), After(SITE, LATE_FAULT, 10);
    assert s9 == Step(SITE, s8, ReleaseNext) && s9.output.release == InFlight(s8.latch) && IsRun(SITE, LATE_FAULT, 9);
    assert s10 == Step(SITE, s9, HeartbeatMiss(0)) && IsRun(SITE, LATE_FAULT, 10);
    assert Accepts(SITE, s10);
    assert After(SITE, LATE_FAULT, 11) == Step(SITE, s10, ReleaseCommit(true));
  }
}

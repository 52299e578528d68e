/** What the ATL decision maker promises over every run: a latched fault lasts until an
    accepted release, a release is accepted only with every fault gone, and after a
    source loss the loading area is muted again only once that source is back, the PLC
    has released and a forklift has entered anew. */
module AtlSafety {
  import opened Options
  import opened PssProtocol
  import opened SubCauses
  import opened SourcePresence
  import opened AtlState
  import opened AtlRun
  import F = FaultRun
  import H = FaultHistory

  // ----- the fault set refines the shared evaluators -----

  /** Same records, no sub-cause of its own, and none missing except the two that a
      redelivered SW_FAIL does not raise again. */
  ghost predicate Refines(s: F.FaultState, f: F.FaultState) {
    && s.seen == f.seen
    && s.held == f.held
    && (forall c :: c in s.active ==> c in f.active)
    && forall c :: c in f.active && c != GatewayComm && c != SwFailure ==> c in s.active
  }

  lemma MarksIsRaised(f: F.FaultState, ids: EventIds, req: DecisionRequest, c: SubCause)
    ensures Marks(f, ids, req, c) ==> F.Raised(f, req, c)
    ensures F.Raised(f, req, c) && c != GatewayComm && c != SwFailure ==> Marks(f, ids, req, c)
  {
  }

  lemma SameRecordsSameVerdict(s: F.FaultState, f: F.FaultState, req: DecisionRequest, c: SubCause)
    requires s.seen == f.seen && s.held == f.held
    ensures F.Raised(s, req, c) == F.Raised(f, req, c)
    ensures F.Cleared(s, req, c) == F.Cleared(f, req, c)
  {
  }

  lemma RequestRefines(s: F.FaultState, ids: EventIds, f: F.FaultState, req: DecisionRequest)
    requires Refines(s, f)
    ensures Refines(PssAfter(s, ids, req), F.Step(f, req))
  {
    forall c: SubCause
      ensures c in PssAfter(s, ids, req).active ==> c in F.Step(f, req).active
      ensures c in F.Step(f, req).active && c != GatewayComm && c != SwFailure ==> c in PssAfter(s, ids, req).active
    {
      MarksIsRaised(s, ids, req, c);
      SameRecordsSameVerdict(s, f, req, c);
      H.ActiveStep(f, req, c);
    }
  }

  ghost predicate TakenAt(cfg: Config, run: seq<Action>, i: nat) {
    i < |run| && run[i].PacketArrives? && IsTaken(After(cfg, run, i), run[i].packet)
  }

  /** The requests of the packets taken in the first n steps. */
  ghost function Processed(cfg: Config, run: seq<Action>, n: nat): seq<DecisionRequest>
    requires n <= |run|
  {
    if n == 0 then []
    else Processed(cfg, run, n - 1) + if TakenAt(cfg, run, n - 1) then [run[n - 1].request] else []
  }

  lemma {:induction false} FaultsOfPrefix(xs: seq<DecisionRequest>, ys: seq<DecisionRequest>, k: nat)
    requires k <= |xs| && k <= |ys| && forall i :: 0 <= i < k ==> xs[i] == ys[i]
    ensures F.After(F.INITIAL, xs, k) == F.After(F.INITIAL, ys, k)
  {
    if k > 0 {
      FaultsOfPrefix(xs, ys, k - 1);
    }
  }

  lemma TakenRefines(s: F.FaultState, ids: EventIds, front: seq<DecisionRequest>, req: DecisionRequest)
    requires Refines(s, F.After(F.INITIAL, front, |front|))
    ensures Refines(PssAfter(s, ids, req), F.After(F.INITIAL, front + [req], |front| + 1))
  {
    var f := F.After(F.INITIAL, front, |front|);
    RequestRefines(s, ids, f, req);
    assert F.After(F.INITIAL, front + [req], |front| + 1) == F.Step(f, req) by {
      AppendRequest(front, req);
    }
  }

  lemma AppendRequest(front: seq<DecisionRequest>, req: DecisionRequest)
    ensures F.After(F.INITIAL, front + [req], |front| + 1) == F.Step(F.After(F.INITIAL, front, |front|), req)
  {
    FaultsOfPrefix(front + [req], front, |front|);
  }

  lemma OnlyPacketsMoveFaults(cfg: Config, s: AtlState, a: Action)
    ensures Step(cfg, s, a).faults.pss ==
            if a.PacketArrives? && IsTaken(s, a.packet) then PssAfter(s.faults.pss, s.inbox.ids, a.request)
            else s.faults.pss
  {
  }

  /** Over every run the ATL fault set is the shared evaluators' on the requests taken,
      exactly on the source-lost, input-unusable and mode bits. */
  lemma {:induction false} FaultsRefine(cfg: Config, run: seq<Action>, n: nat)
    requires n <= |run|
    ensures var reqs := Processed(cfg, run, n);
            Refines(After(cfg, run, n).faults.pss, F.After(F.INITIAL, reqs, |reqs|))
  {
    if n > 0 {
      FaultsRefine(cfg, run, n - 1);
      var s, front := After(cfg, run, n - 1), Processed(cfg, run, n - 1);
      OnlyPacketsMoveFaults(cfg, s, run[n - 1]);
      if TakenAt(cfg, run, n - 1) {
        TakenRefines(s.faults.pss, s.inbox.ids, front, run[n - 1].request);
      } else {
        assert Processed(cfg, run, n) == front;
      }
    }
  }

  // ----- the latch falls only on an accepted release -----

  ghost predicate ReleasedAt(cfg: Config, run: seq<Action>, c: nat) {
    c < |run| && run[c] == ReleaseCommit(true) && Accepts(cfg, After(cfg, run, c))
  }

  lemma OnlyReleaseClears(cfg: Config, s: AtlState, a: Action, l: LatchCause)
    requires l in s.latch && l !in Step(cfg, s, a).latch
    ensures a == ReleaseCommit(true) && Accepts(cfg, s)
  {
  }

  lemma {:induction false} ReleasedBetween(cfg: Config, run: seq<Action>, i: nat, k: nat, l: LatchCause) returns (c: nat)
    requires i <= k <= |run|
    requires l in After(cfg, run, i).latch && l !in After(cfg, run, k).latch
    ensures i <= c < k && ReleasedAt(cfg, run, c)
  {
    var s := After(cfg, run, k - 1);
    if l in s.latch {
      OnlyReleaseClears(cfg, s, run[k - 1], l);
      c := k - 1;
    } else {
      c := ReleasedBetween(cfg, run, i, k - 1, l);
    }
  }

  // ----- a release, from its check to its commit -----

  /** A release is under way after every step from a to m. */
  ghost predicate ReleasingThroughout(cfg: Config, run: seq<Action>, a: nat, m: nat) {
    a <= m <= |run| && forall k :: a < k <= m ==> !After(cfg, run, k).output.release.NoRelease?
  }

  /** The release under way at step m began its check at step a, with no heartbeat fault. */
  ghost predicate ReleasingSince(cfg: Config, run: seq<Action>, a: nat, m: nat) {
    && a < m && ReleasingThroughout(cfg, run, a, m)
    && run[a].ReleaseNext? && After(cfg, run, a).output.release.NoRelease?
    && !After(cfg, run, a).faults.hbFault
  }

  /** It noted the latch at step b. */
  ghost predicate NotedAt(cfg: Config, run: seq<Action>, b: nat, m: nat) {
    && b < m <= |run|
    && run[b].ReleaseNext? && After(cfg, run, b).output.release.Checking?
    && (forall k :: b < k <= m ==> After(cfg, run, k).output.release == InFlight(After(cfg, run, b).latch))
  }

  lemma ReleaseStepKeepsLatch(cfg: Config, s: AtlState, a: Action)
    requires Enabled(cfg, s, a) && !Step(cfg, s, a).output.release.NoRelease?
    ensures s.latch <= Step(cfg, s, a).latch
    ensures s.output.release.NoRelease? ==> a.ReleaseNext? && !s.faults.hbFault
    ensures s.output.release.InFlight? ==> Step(cfg, s, a).output.release == s.output.release
    ensures Step(cfg, s, a).output.release.InFlight? && !s.output.release.InFlight? ==>
              a.ReleaseNext? && s.output.release.Checking? && Step(cfg, s, a).output.release == InFlight(s.latch)
  {
    forall l | l in s.latch
      ensures l in Step(cfg, s, a).latch
    {
      if l !in Step(cfg, s, a).latch {
        OnlyReleaseClears(cfg, s, a, l);
      }
    }
  }

  lemma {:induction false} ReleaseBegunAt(cfg: Config, run: seq<Action>, m: nat) returns (a: nat)
    requires m <= |run| && IsRun(cfg, run, m)
    requires !After(cfg, run, m).output.release.NoRelease?
    ensures ReleasingSince(cfg, run, a, m)
  {
    var s := After(cfg, run, m - 1);
    ReleaseStepKeepsLatch(cfg, s, run[m - 1]);
    if s.output.release.NoRelease? {
      a := m - 1;
    } else {
      a := ReleaseBegunAt(cfg, run, m - 1);
    }
  }

  lemma {:induction false} LatchNotedAt(cfg: Config, run: seq<Action>, m: nat) returns (b: nat)
    requires m <= |run| && IsRun(cfg, run, m)
    requires After(cfg, run, m).output.release.InFlight?
    ensures NotedAt(cfg, run, b, m)
  {
    var s := After(cfg, run, m - 1);
    ReleaseStepKeepsLatch(cfg, s, run[m - 1]);
    if s.output.release.InFlight? {
      b := LatchNotedAt(cfg, run, m - 1);
    } else {
      b := m - 1;
    }
  }

  lemma {:induction false} LatchGrowsUnderRelease(cfg: Config, run: seq<Action>, k: nat, m: nat)
    requires ReleasingThroughout(cfg, run, k, m) && IsRun(cfg, run, m)
    ensures After(cfg, run, k).latch <= After(cfg, run, m).latch
  {
    if k < m {
      LatchGrowsUnderRelease(cfg, run, k, m - 1);
      assert !After(cfg, run, m).output.release.NoRelease?;
      ReleaseStepKeepsLatch(cfg, After(cfg, run, m - 1), run[m - 1]);
    }
  }

  /** An accepted release found no fault active at its commit, and the latch as it was
      noted never moved until then: a cause that comes in while the response is in flight
      keeps the latch. Its check began before, without a heartbeat fault. */
  lemma AcceptedReleaseIsAtomic(cfg: Config, run: seq<Action>, c: nat) returns (a: nat, b: nat)
    requires c < |run| && IsRun(cfg, run, c)
    requires ReleasedAt(cfg, run, c)
    ensures a < b < c && ReleasingSince(cfg, run, a, c) && NotedAt(cfg, run, b, c)
    ensures NoneActive(cfg, After(cfg, run, c).faults)
    ensures forall m :: b <= m <= c ==> After(cfg, run, m).latch == After(cfg, run, c).latch
    ensures After(cfg, run, c + 1).latch == {} && After(cfg, run, c + 1).trailer == CLEAR
  {
    a := ReleaseBegunAt(cfg, run, c);
    b := LatchNotedAt(cfg, run, c);
    forall m | b <= m <= c
      ensures After(cfg, run, m).latch == After(cfg, run, c).latch
    {
      RunOfPrefix(cfg, run, c, m);
      LatchGrowsUnderRelease(cfg, run, b, m);
      LatchGrowsUnderRelease(cfg, run, m, c);
    }
  }

  // ----- how a MUTE comes about -----

  /** Step r settles on MUTE. */
  ghost predicate MuteChosenAt(cfg: Config, run: seq<Action>, r: nat) {
    r < |run| && run[r].DecideNext? && After(cfg, run, r + 1).output.phase == Chosen(true)
  }

  /** The deciding thread read trailer state t at step q and is still deciding at r. */
  ghost predicate DecidingSince(cfg: Config, run: seq<Action>, q: nat, r: nat, t: Trailer) {
    && q < r <= |run|
    && run[q].DecideNext? && Pc(After(cfg, run, q).output.phase) == 7
    && After(cfg, run, q).trailer == t
    && forall m :: q <= m <= r ==> After(cfg, run, m).output.phase.Deciding?
  }

  /** Step u is the last look at the latch of the decision that is under way until r. */
  ghost predicate LooksAt(cfg: Config, run: seq<Action>, u: nat, r: nat) {
    && u < r <= |run|
    && run[u].DecideNext? && Pc(After(cfg, run, u).output.phase) == 12
    && forall m :: u < m <= r ==> PastLatch(After(cfg, run, m).output.phase) && After(cfg, run, m).output.phase.Deciding?
  }

  /** What one step does to a decision past its read. */
  lemma DecidingStep(cfg: Config, s: AtlState, a: Action)
    requires Enabled(cfg, s, a) && Step(cfg, s, a).output.phase.Deciding? && Step(cfg, s, a).output.phase.pc >= 8
    ensures s.output.phase.Deciding?
    ensures var t := Step(cfg, s, a).output.phase;
            if a.DecideNext? then
              && s.output.phase.pc < t.pc
              && (s.output.phase.pc >= 8 ==> t.seen == s.output.phase.seen)
              && (s.output.phase.pc < 8 ==> s.output.phase.pc == 7 && t.seen == s.trailer)
              && (t.pc > 12 && s.output.phase.pc <= 12 ==> s.output.phase.pc == 12 && t.pc == 13 && s.latch == {})
              && (t.pc > 14 && s.output.phase.pc <= 14 ==>
                    s.output.phase.pc == 14 && t.pc == 15 && s.faults.miss <= cfg.maxMisses / 2)
            else t == s.output.phase
  {
  }

  /** A decision past its read goes back to the read, to a look at an empty latch and to
      one at a heartbeat below its warning tier, as far as it has come. */
  lemma {:induction false} DecidingTrace(cfg: Config, run: seq<Action>, r: nat) returns (q: nat, u: nat, v: nat)
    requires r <= |run| && IsRun(cfg, run, r)
    requires After(cfg, run, r).output.phase.Deciding? && After(cfg, run, r).output.phase.pc >= 8
    ensures DecidingSince(cfg, run, q, r, After(cfg, run, r).output.phase.seen)
    ensures After(cfg, run, r).output.phase.pc > 12 ==> q < u < r && LooksAt(cfg, run, u, r) && After(cfg, run, u).latch == {}
    ensures After(cfg, run, r).output.phase.pc > 14 ==> u < v < r && After(cfg, run, v).faults.miss <= cfg.maxMisses / 2
  {
    var s, a := After(cfg, run, r - 1), run[r - 1];
    DecidingStep(cfg, s, a);
    if a.DecideNext? && s.output.phase.pc == 7 {
      q, u, v := r - 1, 0, 0;
    } else {
      q, u, v := DecidingTrace(cfg, run, r - 1);
      if a.DecideNext? && s.output.phase.pc == 12 {
        u := r - 1;
      }
      if a.DecideNext? && s.output.phase.pc == 14 {
        v := r - 1;
      }
    }
  }

  lemma ChosenStep(cfg: Config, s: AtlState, a: Action)
    requires Enabled(cfg, s, a) && Step(cfg, s, a).output.phase == Chosen(true)
    ensures s.output.phase == Chosen(true) ||
            (a.DecideNext? && s.output.phase.Deciding? && s.output.phase.pc >= 15 && MayMute(s.output.phase.seen))
  {
  }

  /** Every MUTE sent was settled on by an earlier step. */
  lemma {:induction false} SentMuteWasChosen(cfg: Config, run: seq<Action>, n: nat) returns (r: nat)
    requires n <= |run| && IsRun(cfg, run, n)
    requires After(cfg, run, n).output.phase == Chosen(true)
    ensures r < n && MuteChosenAt(cfg, run, r)
  {
    var s := After(cfg, run, n - 1);
    ChosenStep(cfg, s, run[n - 1]);
    if s.output.phase == Chosen(true) {
      r := SentMuteWasChosen(cfg, run, n - 1);
    } else {
      r := n - 1;
    }
  }

  /** A MUTE is settled on only after, in this order, the trailer was read with a forklift
      inside, nobody in the trailer and no violation; the latch was seen empty, with no
      fault active that latches; and the heartbeat was seen below its warning tier. No
      release came in between. */
  lemma MuteMeansSafe(cfg: Config, run: seq<Action>, r: nat) returns (q: nat, u: nat, v: nat)
    requires IsRun(cfg, run, |run|) && MuteChosenAt(cfg, run, r)
    ensures q < u < v < r && DecidingSince(cfg, run, q, r, After(cfg, run, q).trailer) && MayMute(After(cfg, run, q).trailer)
    ensures var f := After(cfg, run, u).faults;
            LooksAt(cfg, run, u, r) && After(cfg, run, u).latch == {} && !f.hbFault && !AnyRequestFault(cfg, f)
    ensures After(cfg, run, v).faults.miss <= cfg.maxMisses / 2
    ensures forall c :: q <= c < r ==> !ReleasedAt(cfg, run, c)
  {
    var s := After(cfg, run, r);
    RunOfPrefix(cfg, run, |run|, r + 1);
    ChosenStep(cfg, s, run[r]);
    assert s.output.phase != Chosen(true);
    q, u, v := DecidingTrace(cfg, run, r);
    RunOfPrefix(cfg, run, r, u);
    RunKeepsInv(cfg, run, u);
    forall c | q <= c < r
      ensures !ReleasedAt(cfg, run, c)
    {
      if ReleasedAt(cfg, run, c) {
        RunOfPrefix(cfg, run, |run|, c);
        RunKeepsInv(cfg, run, c);
      }
    }
  }

  /** How a decision gets past the band: by a look at the misses, or by a heartbeat fault. */
  lemma BandStep(cfg: Config, s: AtlState, a: Action)
    requires Enabled(cfg, s, a) && Step(cfg, s, a).output.phase.Deciding? && Step(cfg, s, a).output.phase.pc == 12
    ensures s.output.phase.Deciding?
    ensures s.output.phase.pc == 12 ||
            (a.DecideNext? && s.output.phase.pc == 11 && !InBand(cfg, s.faults.miss)) ||
            (a.DecideNext? && s.output.phase.pc == 10 && s.faults.hbFault)
  {
  }

  lemma {:induction false} BandSeen(cfg: Config, run: seq<Action>, u: nat) returns (w: nat)
    requires u <= |run| && IsRun(cfg, run, u)
    requires After(cfg, run, u).output.phase.Deciding? && After(cfg, run, u).output.phase.pc == 12
    ensures w < u && run[w].DecideNext? && forall m :: w <= m <= u ==> After(cfg, run, m).output.phase.Deciding?
    ensures !InBand(cfg, After(cfg, run, w).faults.miss) || After(cfg, run, w).faults.hbFault
  {
    var s := After(cfg, run, u - 1);
    BandStep(cfg, s, run[u - 1]);
    if s.output.phase.pc == 12 {
      w := BandSeen(cfg, run, u - 1);
    } else {
      w := u - 1;
    }
  }

  /** A decision under way excludes releases, so what is latched under it stays. */
  lemma LatchGrowsUnderDecision(cfg: Config, run: seq<Action>, w: nat, u: nat)
    requires w <= u <= |run| && IsRun(cfg, run, u)
    requires forall m :: w <= m <= u ==> After(cfg, run, m).output.phase.Deciding?
    ensures After(cfg, run, w).latch <= After(cfg, run, u).latch
  {
    forall l | l in After(cfg, run, w).latch
      ensures l in After(cfg, run, u).latch
    {
      if l !in After(cfg, run, u).latch {
        var c := ReleasedBetween(cfg, run, w, u, l);
        RunOfPrefix(cfg, run, u, c);
        RunKeepsInv(cfg, run, c);
      }
    }
  }

  /** In every decision that settles on MUTE there was an instant with no hold in force. */
  lemma MuteMeansNoHold(cfg: Config, run: seq<Action>, r: nat) returns (w: nat)
    requires IsRun(cfg, run, |run|) && MuteChosenAt(cfg, run, r)
    ensures w < r && run[w].DecideNext? && !Holding(cfg, After(cfg, run, w))
    ensures forall m :: w <= m <= r ==> After(cfg, run, m).output.phase.Deciding?
  {
    var q, u, v := MuteMeansSafe(cfg, run, r);
    RunOfPrefix(cfg, run, |run|, u);
    w := BandSeen(cfg, run, u);
    LatchGrowsUnderDecision(cfg, run, w, u);
    RunOfPrefix(cfg, run, u, w);
    RunKeepsInv(cfg, run, w);
    assert After(cfg, run, w).latch == {};
  }

  lemma {:induction false} RunOfPrefix(cfg: Config, run: seq<Action>, n: nat, m: nat)
    requires m <= n <= |run| && IsRun(cfg, run, n)
    ensures IsRun(cfg, run, m)
  {
    if m < n {
      RunOfPrefix(cfg, run, n - 1, m);
    }
  }

  /** From a latched state whose hold has been sent, no MUTE is chosen or sent until a
      release is accepted. */
  lemma {:induction false} HeldUntilRelease(cfg: Config, run: seq<Action>, i: nat, k: nat)
    requires i <= k <= |run|
    requires After(cfg, run, i).latch != {} && !After(cfg, run, i).output.muted && !PastLatch(After(cfg, run, i).output.phase)
    requires forall c :: i <= c < k ==> !ReleasedAt(cfg, run, c)
    ensures After(cfg, run, k).latch != {} && !After(cfg, run, k).output.muted && !PastLatch(After(cfg, run, k).output.phase)
  {
    if i < k {
      HeldUntilRelease(cfg, run, i, k - 1);
      var s := After(cfg, run, k - 1);
      assert !ReleasedAt(cfg, run, k - 1);
      var l :| l in s.latch;
      if l !in After(cfg, run, k).latch {
        OnlyReleaseClears(cfg, s, run[k - 1], l);
      }
      LatchedStep(cfg, s, run[k - 1]);
    }
  }

  lemma LatchedStep(cfg: Config, s: AtlState, a: Action)
    requires s.latch != {} && !s.output.muted && !PastLatch(s.output.phase)
    ensures !Step(cfg, s, a).output.muted && !PastLatch(Step(cfg, s, a).output.phase)
  {
  }

  // ----- a fresh forklift after every release -----

  /** Step e applies an event that puts a forklift into the trailer. */
  ghost predicate ForkliftEntersAt(cfg: Config, run: seq<Action>, e: nat) {
    e < |run| && run[e].NextEvent? && PutsForkliftIn(cfg, After(cfg, run, e))
  }

  predicate PutsForkliftIn(cfg: Config, s: AtlState) {
    WorkActs(s) && s.inbox.work.value.req.summary[s.inbox.work.value.next].event.eventType == cfg.forkliftEntered
  }

  lemma ForkliftStep(cfg: Config, s: AtlState, a: Action)
    requires !s.trailer.forkliftIn && Step(cfg, s, a).trailer.forkliftIn
    ensures a.NextEvent? && PutsForkliftIn(cfg, s)
  {
  }

  lemma {:induction false} ForkliftEnteredBetween(cfg: Config, run: seq<Action>, i: nat, k: nat) returns (e: nat)
    requires i <= k <= |run|
    requires !After(cfg, run, i).trailer.forkliftIn && After(cfg, run, k).trailer.forkliftIn
    ensures i <= e < k && ForkliftEntersAt(cfg, run, e)
  {
    var s := After(cfg, run, k - 1);
    if s.trailer.forkliftIn {
      e := ForkliftEnteredBetween(cfg, run, i, k - 1);
    } else {
      ForkliftStep(cfg, s, run[k - 1]);
      e := k - 1;
    }
  }

  /** After any cause latched by the decision's last look at the latch, a MUTE needs an
      accepted release and then a forklift entering anew, all before that look. After one
      latched later, the MUTE is settled on with the hold owed. */
  lemma LatchBlocksMute(cfg: Config, run: seq<Action>, i: nat, r: nat, l: LatchCause) returns (u: nat, c: nat, e: nat)
    requires IsRun(cfg, run, |run|) && i <= r && MuteChosenAt(cfg, run, r)
    requires l in After(cfg, run, i).latch
    ensures u < r && LooksAt(cfg, run, u, r)
    ensures i <= u ==> i <= c < e < u && ReleasedAt(cfg, run, c) && ForkliftEntersAt(cfg, run, e)
    ensures i > u ==> After(cfg, run, r + 1).output.holdOwed
  {
    var q, v;
    q, u, v := MuteMeansSafe(cfg, run, r);
    c, e := 0, 0;
    if i <= u {
      c := ReleasedBetween(cfg, run, i, u, l);
      e := ForkliftEnteredBetween(cfg, run, c + 1, q);
    } else {
      LateCauseIsOwed(cfg, run, i, q, r, l);
    }
  }

  lemma LateCauseIsOwed(cfg: Config, run: seq<Action>, i: nat, q: nat, r: nat, l: LatchCause)
    requires IsRun(cfg, run, |run|) && q <= i <= r && MuteChosenAt(cfg, run, r) && l in After(cfg, run, i).latch
    requires forall c :: q <= c < r ==> !ReleasedAt(cfg, run, c)
    ensures After(cfg, run, r + 1).output.holdOwed
  {
    if l !in After(cfg, run, r + 1).latch {
      var c := ReleasedBetween(cfg, run, i, r + 1, l);
    }
    RunOfPrefix(cfg, run, |run|, r + 1);
    RunKeepsInv(cfg, run, r + 1);
  }

  // ----- a source loss, end to end -----

  ghost predicate LosesAt(cfg: Config, run: seq<Action>, i: nat, g: Group) {
    TakenAt(cfg, run, i) && H.LossAt(Processed(cfg, run, i + 1), |Processed(cfg, run, i)|, g)
  }

  ghost predicate ReturnsAt(cfg: Config, run: seq<Action>, j: nat, g: Group) {
    TakenAt(cfg, run, j) && H.ReturnAt(Processed(cfg, run, j + 1), |Processed(cfg, run, j)|, g)
  }

  lemma {:induction false} ProcessedGrows(cfg: Config, run: seq<Action>, m: nat, n: nat)
    requires m <= n <= |run|
    ensures Processed(cfg, run, m) <= Processed(cfg, run, n)
  {
    if m < n {
      ProcessedGrows(cfg, run, m, n - 1);
    }
  }

  /** The step that took the k-th request. */
  lemma {:induction false} StepOfRequest(cfg: Config, run: seq<Action>, n: nat, k: nat) returns (j: nat)
    requires n <= |run| && k < |Processed(cfg, run, n)|
    ensures j < n && TakenAt(cfg, run, j) && |Processed(cfg, run, j)| == k
  {
    if k < |Processed(cfg, run, n - 1)| {
      j := StepOfRequest(cfg, run, n - 1, k);
    } else {
      j := n - 1;
    }
  }

  /** Losses and returns are read off the history up to their own request. */
  lemma SameHistory(xs: seq<DecisionRequest>, ys: seq<DecisionRequest>, i: nat, g: Group)
    requires i < |xs| && i < |ys| && forall k :: 0 <= k <= i ==> xs[k] == ys[k]
    ensures H.LossAt(xs, i, g) == H.LossAt(ys, i, g)
    ensures H.ReturnAt(xs, i, g) == H.ReturnAt(ys, i, g)
  {
    var n := i + 1;
    forall b: Bit
      ensures H.EverNamed(xs, n, b) <==> H.EverNamed(ys, n, b)
    {
    }
  }

  lemma LossLatches(cfg: Config, run: seq<Action>, i: nat, g: Group)
    requires i < |run| && IsRun(cfg, run, i + 1) && LosesAt(cfg, run, i, g)
    ensures Pss in After(cfg, run, i + 1).latch
  {
    var reqs := Processed(cfg, run, i + 1);
    H.LossActiveIff(reqs, |reqs|, g);
    FaultsRefine(cfg, run, i + 1);
    RunKeepsInv(cfg, run, i + 1);
    assert GroupSubCause(g) in After(cfg, run, i + 1).faults.pss.active;
  }

  lemma NoFaultMeansReturned(cfg: Config, run: seq<Action>, i: nat, c: nat, g: Group) returns (j: nat)
    requires i < c < |run| && LosesAt(cfg, run, i, g)
    requires After(cfg, run, c).faults.pss.active == {}
    ensures i < j < c && ReturnsAt(cfg, run, j, g)
  {
    var reqs, k := Processed(cfg, run, c), |Processed(cfg, run, i)|;
    ProcessedGrows(cfg, run, i + 1, c);
    SameHistory(reqs, Processed(cfg, run, i + 1), k, g);
    FaultsRefine(cfg, run, c);
    assert GroupSubCause(g) !in F.After(F.INITIAL, reqs, |reqs|).active;
    var m := H.LossEndsOnlyOnReturn(reqs, k, |reqs|, g);
    j := StepOfRequest(cfg, run, c, m);
    ProcessedGrows(cfg, run, j + 1, c);
    SameHistory(reqs, Processed(cfg, run, j + 1), m, g);
    if j <= i {
      ProcessedGrows(cfg, run, j, i);
    }
  }

  /** Over every interleaving: if a request loses a source group and the loading area is
      later muted, then in between, in this order, a report outside ERROR mode showed
      every known source of the group, a PLC release was accepted, a forklift entered the
      trailer and the decision looked at the latch; or the loss came after that look, and
      the MUTE is settled on with the hold owed. */
  lemma LossBlocksMute(cfg: Config, run: seq<Action>, i: nat, r: nat, g: Group) returns (u: nat, j: nat, c: nat, e: nat)
    requires IsRun(cfg, run, |run|)
    requires i < r && LosesAt(cfg, run, i, g) && MuteChosenAt(cfg, run, r)
    ensures u < r && LooksAt(cfg, run, u, r)
    ensures i < u ==> i < j < c < e < u && ReturnsAt(cfg, run, j, g) && ReleasedAt(cfg, run, c) && ForkliftEntersAt(cfg, run, e)
    ensures i >= u ==> After(cfg, run, r + 1).output.holdOwed
  {
    RunOfPrefix(cfg, run, |run|, i + 1);
    LossLatches(cfg, run, i, g);
    u, c, e := LatchBlocksMute(cfg, run, i + 1, r, Pss);
    j := 0;
    if i < u {
      j := NoFaultMeansReturned(cfg, run, i, c, g);
    }
  }
}

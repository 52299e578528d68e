/** Every interleaving of the ATL threads: the gateway listener, the two watchdogs, the
    deciding thread and the PLC release handler. The listener takes a packet in one step,
    up to its events, and then each event in a step of its own. The deciding thread and
    the release handler take a step for every load of what another thread may change. */
module AtlRun {
  import opened Options
  import opened PssProtocol
  import opened RequestQueries
  import opened SubCauses
  import opened SourcePresence
  import opened InputState
  import opened FaultRun
  import opened AtlState
  import Ai = AiVerdict
  import Seq = GatewaySequence

  datatype Action =
    | PacketArrives(packet: Seq.Packet, request: DecisionRequest)
    | NextEvent
    | FreshnessExpires
    | HeartbeatMiss(misses: nat)
    | HeartbeatFault
    | SendHold
    | ReleaseNext
    | ReleaseCommit(sent: bool)
    | DecideNext
    | SendDecision

  /** What the locks allow. A packet and its events exclude a release from the first to
      the last, and a release excludes packets and decisions from its check to its
      commit. Decisions come in between events; the watchdogs are excluded by nothing. */
  predicate Enabled(cfg: Config, s: AtlState, a: Action) {
    match a
    case PacketArrives(_, _) => s.output.release.NoRelease? && s.inbox.work.None?
    case NextEvent => s.inbox.work.Some?
    case FreshnessExpires => true
    case HeartbeatMiss(_) => s.faults.hbFault || s.faults.miss < cfg.maxMisses
    case HeartbeatFault => s.faults.miss >= cfg.maxMisses
    case SendHold => s.output.release.NoRelease? && s.output.phase.Idle?
    case ReleaseNext =>
      s.output.release.Checking? || (s.output.release.NoRelease? && s.output.phase.Idle? && s.inbox.work.None?)
    case ReleaseCommit(_) => s.output.release.InFlight?
    case DecideNext => s.output.phase.Deciding? || (s.output.phase.Idle? && s.output.release.NoRelease?)
    case SendDecision => s.output.phase.Chosen?
  }

  // ----- the release -----

  /** The check loads the heartbeat fault, then the band behind it, then the rest, and
      denies on the first active cause; only then is the latch noted. */
  function NextRelease(cfg: Config, s: AtlState): Release {
    var f := s.faults;
    match s.output.release
    case NoRelease => if f.hbFault then NoRelease else Checking(1)
    case Checking(pc) =>
      if pc == 1 then (if f.hbFault then Checking(3) else Checking(2))
      else if pc == 2 then (if InBand(cfg, f.miss) then NoRelease else Checking(3))
      else if pc == 3 then (if AnyRequestFault(cfg, f) then NoRelease else Checking(4))
      else InFlight(s.latch)
    case InFlight(_) => s.output.release
  }

  /** The commit clears the latch: nothing new was latched while the response was in
      flight, and no fault is active. */
  predicate Accepts(cfg: Config, s: AtlState) {
    s.output.release == InFlight(s.latch) && s.latch != {} && NoneActive(cfg, s.faults)
  }

  // ----- the decision -----

  datatype Verdict = Pass | SkipBand | HoldNow | Quit

  /** The checks around the read of the trailer, load by load. */
  function Test(cfg: Config, s: AtlState, k: nat): Verdict {
    if k == 0 then (if s.latch != {} then HoldNow else Pass)
    else if k == 1 then (if s.faults.pss.active != {} then HoldNow else Pass)
    else if k == 2 then (if s.faults.hbFault then SkipBand else Pass)
    else if k == 3 then (if InBand(cfg, s.faults.miss) then HoldNow else Pass)
    else if k == 4 then (if s.latch != {} then Quit else Pass)
    else if k == 5 then (if s.faults.hbFault then Quit else Pass)
    else if s.faults.miss > cfg.maxMisses / 2 then Quit
    else Pass
  }

  function Pc(p: Phase): nat {
    match p
    case Idle => 0
    case Deciding(pc, _) => pc
    case Chosen(_) => 16
  }

  function Seen(p: Phase): Trailer {
    if p.Deciding? then p.seen else CLEAR
  }

  /** The test at a place in the program: the same seven before and after the read. */
  function TestAt(cfg: Config, s: AtlState, pc: nat): Verdict {
    if pc < 7 then Test(cfg, s, pc) else if 8 <= pc < 15 then Test(cfg, s, pc - 8) else Pass
  }

  function NextPhase(cfg: Config, s: AtlState): Phase {
    var pc, seen := Pc(s.output.phase), Seen(s.output.phase);
    if pc == 7 then Deciding(8, s.trailer)
    else if pc >= 15 then Chosen(MayMute(seen))
    else
      match TestAt(cfg, s, pc)
      case Pass => Deciding(pc + 1, seen)
      case SkipBand => Deciding(pc + 2, seen)
      case _ => Idle
  }

  // ----- one step -----

  function WatchdogFaults(f: Faults, a: Action): Faults {
    match a
    case FreshnessExpires => f.(stale := true)
    case HeartbeatMiss(m) => f.(miss := m, hbFault := f.hbFault && m != 0)
    case HeartbeatFault => f.(hbFault := true)
    case _ => f
  }

  function NextLatch(cfg: Config, s: AtlState, a: Action): set<LatchCause> {
    match a
    case FreshnessExpires => if s.faults.stale then s.latch else s.latch + {DecisionFreshness}
    case HeartbeatFault => if s.faults.hbFault then s.latch else s.latch + {GatewayHb}
    case ReleaseCommit(sent) => if sent && Accepts(cfg, s) then {} else s.latch
    case _ => s.latch
  }

  /** An accepted release, and one that found nothing latched, reset the trailer. */
  function NextTrailer(cfg: Config, s: AtlState, a: Action): Trailer {
    if a == ReleaseCommit(true) && (Accepts(cfg, s) || s.output.release == InFlight({})) then CLEAR else s.trailer
  }

  function NextOutput(cfg: Config, s: AtlState, a: Action): Output {
    var o, f := s.output, s.faults;
    match a
    case FreshnessExpires => o.(holdOwed := o.holdOwed || !f.stale)
    case HeartbeatMiss(m) =>
      o.(holdOwed := o.holdOwed || (InBand(cfg, m) && f.miss <= cfg.maxMisses / 2))
    case HeartbeatFault => o.(holdOwed := o.holdOwed || !f.hbFault)
    case SendHold => o.(muted := false, holdOwed := false)
    case ReleaseNext =>
      var r := NextRelease(cfg, s);
      o.(release := r, muted := o.muted && r.Checking?)
    case ReleaseCommit(_) => o.(release := NoRelease)
    case DecideNext =>
      o.(phase := NextPhase(cfg, s), muted := o.muted && TestAt(cfg, s, Pc(o.phase)) != HoldNow)
    case SendDecision => o.(phase := Idle, muted := o.phase == Chosen(true))
    case _ => o
  }

  ghost function Step(cfg: Config, s: AtlState, a: Action): AtlState {
    if a.PacketArrives? then PacketStep(cfg, s, a.packet, a.request)
    else if a.NextEvent? then EventStep(cfg, s)
    else AtlState(WatchdogFaults(s.faults, a), NextLatch(cfg, s, a), NextTrailer(cfg, s, a), s.inbox, NextOutput(cfg, s, a))
  }

  ghost function After(cfg: Config, run: seq<Action>, n: nat): AtlState
    requires n <= |run|
  {
    if n == 0 then LAUNCH else Step(cfg, After(cfg, run, n - 1), run[n - 1])
  }

  /** The locks allow the first n steps of the run. */
  ghost predicate IsRun(cfg: Config, run: seq<Action>, n: nat)
    requires n <= |run|
  {
    n == 0 || (IsRun(cfg, run, n - 1) && Enabled(cfg, After(cfg, run, n - 1), run[n - 1]))
  }

  // ----- the invariant -----

  /** Every active fault is latched; the recoverable heartbeat band alone is not. */
  ghost predicate FaultsAreLatched(cfg: Config, f: Faults, latch: set<LatchCause>) {
    && (f.hbFault ==> GatewayHb in latch)
    && (f.pss.active != {} ==> Pss in latch)
    && (f.stale ==> DecisionFreshness in latch)
    && (f.gap ==> DecisionSequence in latch)
    && (AllFailed(cfg, f.sensors) ==> AllSensorsFailed in latch)
    && (f.aiInvalid ==> AiInvalid in latch)
  }

  /** A release is alone with the outputs and the inbox, and the latch only grows under
      its snapshot. */
  ghost predicate ReleaseIsAlone(s: AtlState) {
    && (!s.output.release.NoRelease? ==> s.output.phase.Idle? && s.inbox.work.None?)
    && (s.output.release.InFlight? ==> !s.output.muted && s.output.release.snapshot <= s.latch)
  }

  /** The decision under way has passed its last look at the latch, or at the misses. */
  predicate PastLatch(p: Phase) {
    p == Chosen(true) || (p.Deciding? && p.pc > 12)
  }

  predicate PastMisses(p: Phase) {
    p == Chosen(true) || (p.Deciding? && p.pc > 14)
  }

  /** A hold in force has been sent since the last MUTE, or is owed, also where a MUTE is
      already under way. */
  ghost predicate HoldIsComing(cfg: Config, s: AtlState) {
    && (s.latch != {} && (s.output.muted || PastLatch(s.output.phase)) ==> s.output.holdOwed)
    && (InTier2(cfg, s.faults) && (s.output.muted || PastMisses(s.output.phase)) ==> s.output.holdOwed)
  }

  ghost predicate Inv(cfg: Config, s: AtlState) {
    FaultsAreLatched(cfg, s.faults, s.latch) && ReleaseIsAlone(s) && HoldIsComing(cfg, s)
  }

  // ----- what a request keeps -----

  lemma {:induction false} AllFailedMeansEntered(cfg: Config, x: Sensors, es: seq<SensorData>, n: nat)
    requires n <= |es| && AllFailed(cfg, SensorsAfter(cfg, x, es, n))
    ensures AllFailed(cfg, x) || exists i: nat :: i < n && FailsAllAt(cfg, x, es, i)
  {
    if n > 0 {
      if AllFailed(cfg, SensorsAfter(cfg, x, es, n - 1)) {
        AllFailedMeansEntered(cfg, x, es, n - 1);
      } else {
        assert FailsAllAt(cfg, x, es, n - 1);
      }
    }
  }

  /** A sub-cause that becomes active latches PSS. */
  lemma NewCauseLatches(f: FaultState, ids: EventIds, req: DecisionRequest, c: SubCause)
    requires c in PssAfter(f, ids, req).active && c !in f.active
    ensures PssLatches(f, ids, req)
  {
  }

  lemma RequestKeepsLatched(cfg: Config, s: AtlState, req: DecisionRequest)
    requires FaultsAreLatched(cfg, s.faults, s.latch)
    ensures FaultsAreLatched(cfg, FaultsAfter(cfg, s.faults, s.inbox.ids, req), LatchAfter(cfg, s, req))
  {
    var t, latch := FaultsAfter(cfg, s.faults, s.inbox.ids, req), LatchAfter(cfg, s, req);
    if t.pss.active != {} {
      var c :| c in t.pss.active;
      if c !in s.faults.pss.active {
        NewCauseLatches(s.faults.pss, s.inbox.ids, req, c);
      }
    }
    if AllFailed(cfg, t.sensors) {
      AllFailedMeansEntered(cfg, s.faults.sensors, req.summary, Count(req));
      assert AllSensorsFailed in latch;
    }
    if t.aiInvalid {
      Ai.NoEdgeLost(s.faults.aiInvalid, req.summary, Count(req));
      assert AiInvalid in latch;
    }
  }

  /** A request that latches before its events owes the hold, on whichever path it takes. */
  lemma NewHoldIsOwed(cfg: Config, s: AtlState, req: DecisionRequest)
    requires FaultsAreLatched(cfg, s.faults, s.latch)
    requires s.latch == {} && LatchAfter(cfg, s, req) != {}
    ensures OwesHold(cfg, s, req)
  {
    var l :| l in LatchAfter(cfg, s, req);
    if SomeInvalid(req) {
      Ai.NoEdgeLost(false, req.summary, Count(req));
    }
  }

  lemma RequestKeepsHold(cfg: Config, s: AtlState, req: DecisionRequest)
    requires FaultsAreLatched(cfg, s.faults, s.latch) && HoldIsComing(cfg, s)
    ensures HoldIsComing(cfg, RequestStep(cfg, s, req))
  {
    var t := RequestStep(cfg, s, req);
    RequestKeepsLatched(cfg, s, req);
    if t.latch != {} && s.latch == {} {
      NewHoldIsOwed(cfg, s, req);
    }
  }

  lemma PacketKeepsInv(cfg: Config, s: AtlState, p: Seq.Packet, req: DecisionRequest)
    requires Inv(cfg, s) && s.output.release.NoRelease? && s.inbox.work.None?
    ensures Inv(cfg, PacketStep(cfg, s, p, req))
  {
    if IsTaken(s, p) {
      var t := Sequenced(s, p);
      assert FaultsAreLatched(cfg, t.faults, t.latch);
      RequestKeepsLatched(cfg, t, req);
      RequestKeepsHold(cfg, t, req);
    }
  }

  lemma EventKeepsInv(cfg: Config, s: AtlState)
    requires Inv(cfg, s)
    ensures Inv(cfg, EventStep(cfg, s))
  {
  }

  lemma WatchdogKeepsInv(cfg: Config, s: AtlState, a: Action)
    requires Inv(cfg, s) && Enabled(cfg, s, a)
    requires a.FreshnessExpires? || a.HeartbeatMiss? || a.HeartbeatFault?
    ensures Inv(cfg, Step(cfg, s, a))
  {
  }

  lemma SendingKeepsInv(cfg: Config, s: AtlState, a: Action)
    requires Inv(cfg, s) && Enabled(cfg, s, a)
    requires a.SendHold? || a.DecideNext? || a.SendDecision? || a.ReleaseNext?
    ensures Inv(cfg, Step(cfg, s, a))
  {
  }

  lemma CommitKeepsInv(cfg: Config, s: AtlState, sent: bool)
    requires Inv(cfg, s) && s.output.release.InFlight?
    ensures Inv(cfg, Step(cfg, s, ReleaseCommit(sent)))
  {
  }

  lemma StepKeepsInv(cfg: Config, s: AtlState, a: Action)
    requires Inv(cfg, s) && Enabled(cfg, s, a)
    ensures Inv(cfg, Step(cfg, s, a))
  {
    match a
    case PacketArrives(p, req) => PacketKeepsInv(cfg, s, p, req);
    case NextEvent => EventKeepsInv(cfg, s);
    case ReleaseCommit(sent) => CommitKeepsInv(cfg, s, sent);
    case FreshnessExpires => WatchdogKeepsInv(cfg, s, a);
    case HeartbeatMiss(_) => WatchdogKeepsInv(cfg, s, a);
    case HeartbeatFault => WatchdogKeepsInv(cfg, s, a);
    case _ => SendingKeepsInv(cfg, s, a);
  }

  /** In every state of every run each active fault is latched, and a hold in force
      has been sent since the last MUTE or is owed. */
  lemma {:induction false} RunKeepsInv(cfg: Config, run: seq<Action>, n: nat)
    requires n <= |run| && IsRun(cfg, run, n)
    ensures Inv(cfg, After(cfg, run, n))
  {
    if n > 0 {
      RunKeepsInv(cfg, run, n - 1);
      StepKeepsInv(cfg, After(cfg, run, n - 1), run[n - 1]);
    }
  }

  // ----- requests that say nothing about faults -----

  predicate IsQuietEntry(cfg: Config, sd: SensorData) {
    && !sd.event.eventType.SwFail? && !sd.event.eventType.AiPipelineInvalid? && !sd.event.eventType.AiPipelineValid?
    && !(sd.event.eventType.StatusNoop? && sd.event.cause == CAUSE_SOURCE_PRESENCE)
    && sd.event.pipelineId !in cfg.reviewed
  }

  /** No SW_FAIL, no verdict, no presence report, and nothing about a reviewed sensor. */
  ghost predicate IsQuiet(cfg: Config, req: DecisionRequest) {
    req.mode != Error && forall i :: 0 <= i < Count(req) ==> IsQuietEntry(cfg, req.summary[i])
  }

  lemma {:induction false} QuietSensors(cfg: Config, x: Sensors, req: DecisionRequest, n: nat)
    requires IsQuiet(cfg, req) && n <= Count(req)
    ensures SensorsAfter(cfg, x, req.summary, n) == x
  {
    if n > 0 {
      QuietSensors(cfg, x, req, n - 1);
    }
  }

  lemma {:induction false} QuietVerdicts(cfg: Config, ai: bool, req: DecisionRequest, n: nat)
    requires IsQuiet(cfg, req) && n <= Count(req)
    ensures Ai.InvalidAfter(ai, req.summary, n) == ai && LastReport(req.summary, n).None?
  {
    if n > 0 {
      QuietVerdicts(cfg, ai, req, n - 1);
    }
  }

  /** A quiet request moves nothing before its events, and gets to them unless it is a
      lone no-op. */
  lemma QuietRequest(cfg: Config, s: AtlState, req: DecisionRequest)
    requires IsQuiet(cfg, req) && s.faults.pss.active == {} && s.faults.pss.held == {}
    ensures var t := RequestStep(cfg, s, req);
            && t.faults.pss.active == {} && t.faults.pss.held == {}
            && t.faults == s.faults.(pss := t.faults.pss)
            && t.latch == s.latch && t.trailer == s.trailer && t.output == s.output
            && t.inbox == s.inbox.(work := if IsNoopOnly(req) then None else Some(Work(req, 0)))
  {
    var n := Count(req);
    forall k: nat | k <= n
      ensures SensorsAfter(cfg, s.faults.sensors, req.summary, k) == s.faults.sensors
      ensures Ai.InvalidAfter(s.faults.aiInvalid, req.summary, k) == s.faults.aiInvalid
    {
      QuietSensors(cfg, s.faults.sensors, req, k);
      QuietVerdicts(cfg, s.faults.aiInvalid, req, k);
    }
    QuietVerdicts(cfg, s.faults.aiInvalid, req, n);
    assert !SensorsEnter(cfg, s.faults.sensors, req) && !AiEnters(s.faults.aiInvalid, req);
    assert HeldAfter({}, req) == {};
    assert IdsAfter(s.inbox.ids, req) == s.inbox.ids;
    QuietMarks(cfg, s.faults.pss, s.inbox.ids, req);
  }

  lemma QuietMarks(cfg: Config, f: FaultState, ids: EventIds, req: DecisionRequest)
    requires IsQuiet(cfg, req) && f.active == {} && f.held == {}
    ensures !PssLatches(f, ids, req) && PssAfter(f, ids, req).active == {}
  {
    QuietVerdicts(cfg, false, req, Count(req));
    assert HeldAfter({}, req) == {};
    forall c: SubCause
      ensures !Marks(f, ids, req, c)
    {
    }
  }
}

/** What one DecisionRequest does to the ATL decision maker: the sub-causes it marks
    and clears, the sensors it fails and recovers, the safe-state causes it latches and,
    event by event, the trailer state it moves. */
module AtlState {
  import opened Options
  import opened PssProtocol
  import opened RequestQueries
  import opened SubCauses
  import opened SourcePresence
  import opened InputState
  import opened FaultRun
  import opened DivMod
  import Ai = AiVerdict
  import Seq = GatewaySequence

  datatype LatchCause =
    GatewayHb | Pss | CountDrift | DecisionFreshness | DecisionSequence | AllSensorsFailed | AiInvalid

  /** The physical state a decision is made from. */
  datatype Trailer = Trailer(forkliftIn: bool, persons: nat, violation: bool)

  const CLEAR := Trailer(false, 0, false)
  const PERSONS_MAX: nat := 10000

  /** A reviewed sensor is failed, or SAIM has declared its initialisation pending. */
  datatype Sensors = Sensors(failed: set<nat>, pending: set<nat>)

  datatype RawConfig = Config(
    reviewed: set<nat>,
    forkliftEntered: EventType,
    forkliftExited: EventType,
    personEntered: EventType,
    personExited: EventType,
    roiViolation: EventType,
    roiCleared: EventType,
    maxMisses: nat,
    hbStaleMs: nat,
    hbPeriodMs: nat)

  /** A deployment; the loader refuses an empty reviewed set, and the launch a zero
      heartbeat period or failure count. */
  type Config = c: RawConfig | c.reviewed != {} && c.maxMisses > 0 && c.hbPeriodMs > 0
    witness Config({1}, Generic(0), Generic(1), Generic(2), Generic(3), Generic(4), Generic(5), 10, 5000, 5500)

  /** A deployment with one reviewed sensor and the default heartbeat timing. */
  const SITE: Config := Config({1}, Generic(0), Generic(1), Generic(2), Generic(3), Generic(4), Generic(5), 10, 5000, 5500)

  /** Where the evaluating thread stands, inside its send lock: before load `pc` of its
      program, with the trailer state it has read, or with its choice made. */
  datatype Phase = Idle | Deciding(pc: nat, seen: Trailer) | Chosen(mute: bool)

  /** Where a release stands, inside its locks: before load `pc` of its check, or past
      the snapshot of the latch. */
  datatype Release = NoRelease | Checking(pc: nat) | InFlight(snapshot: set<LatchCause>)

  type EventIds = s: seq<int> | |s| == MAX_SUMMARY
    witness [-1, -1, -1, -1, -1, -1, -1, -1]

  /** No event id yet: EVENT_ID_UNSEEN. */
  const UNSEEN: int := 0xFFFF_FFFF

  /** The faults whose sources are still bad. */
  datatype Faults = Faults(
    pss: FaultState,
    sensors: Sensors,
    aiInvalid: bool,
    stale: bool,
    gap: bool,
    hbFault: bool,
    miss: nat)

  /** A request whose events are being applied, and the slot that is next. */
  datatype Work = Work(req: DecisionRequest, next: nat)

  datatype Inbox = Inbox(sequence: Seq.SequenceState, ids: EventIds, work: Option<Work>)

  /** `holdOwed` says a fault path has still to send its hold; `muted` that the last mute
      command was MUTE. */
  datatype Output = Output(release: Release, phase: Phase, holdOwed: bool, muted: bool)

  datatype AtlState = AtlState(faults: Faults, latch: set<LatchCause>, trailer: Trailer, inbox: Inbox, output: Output)

  const NO_IDS: EventIds := [UNSEEN, UNSEEN, UNSEEN, UNSEEN, UNSEEN, UNSEEN, UNSEEN, UNSEEN]

  const LAUNCH := AtlState(
    Faults(INITIAL, Sensors({}, {}), false, false, false, false, 0), {}, CLEAR,
    Inbox(Seq.RESET, NO_IDS, None), Output(NoRelease, Idle, false, false))

  // ----- PSS sub-causes -----

  /** Slot i holds a SW_FAIL that is live and not the one last taken from the slot. */
  predicate FreshSwFail(ids: EventIds, req: DecisionRequest, i: nat) {
    && i < Count(req)
    && req.summary[i].event.eventType.SwFail?
    && !req.summary[i].event.status.Stale?
    && req.summary[i].event.id != ids[i]
  }

  ghost predicate AnyFreshSwFail(ids: EventIds, req: DecisionRequest) {
    exists i: nat :: FreshSwFail(ids, req, i)
  }

  ghost predicate FreshSwFailOf(ids: EventIds, req: DecisionRequest, c: SubCause) {
    exists i: nat :: FreshSwFail(ids, req, i) && SwFailSubCause(req.summary[i].event) == c
  }

  /** ATL marks c: as the shared evaluators do, except that a SW_FAIL counts for the
      general rules only when it is fresh. */
  ghost predicate Marks(f: FaultState, ids: EventIds, req: DecisionRequest, c: SubCause) {
    || (c == ModeError && req.mode == Error)
    || FreshSwFailOf(ids, req, c)
    || PresenceRaises(f.seen, req, c)
    || InputRaises(f.held, req, c)
  }

  ghost function PssAfter(f: FaultState, ids: EventIds, req: DecisionRequest): FaultState {
    FaultState((set c: SubCause | Marks(f, ids, req, c) || (c in f.active && !Cleared(f, req, c))),
               SeenAfter(f.seen, req),
               HeldAfter(f.held, req))
  }

  /** The request brings a dedicated evaluator's sub-cause that was not active. */
  ghost predicate SourceEnters(f: FaultState, req: DecisionRequest) {
    exists c :: c !in f.active && (PresenceRaises(f.seen, req, c) || InputRaises(f.held, req, c))
  }

  ghost predicate PssLatches(f: FaultState, ids: EventIds, req: DecisionRequest) {
    req.mode == Error || AnyFreshSwFail(ids, req) || SourceEnters(f, req)
  }

  // ----- sensor health -----

  predicate AllFailed(cfg: Config, x: Sensors) {
    cfg.reviewed <= x.failed
  }

  /** One entry: the SAIM initialisation seed fails nothing, and neither does
      unhealthy evidence on a pipeline whose seed is pending. */
  function SensorsAfterEntry(cfg: Config, x: Sensors, sd: SensorData): Sensors {
    var p, explicit := sd.event.pipelineId, sd.event.eventType.SensorInvalid?;
    if sd.event.status.Stale? || sd.event.eventType.StatusNoop? || p !in cfg.reviewed then x
    else if explicit || !sd.isHealthy then
      if sd.event.cause == CAUSE_SAIM_INIT then (if explicit then x.(pending := x.pending + {p}) else x)
      else if !explicit && p in x.pending then x
      else x.(failed := x.failed + {p})
    else if sd.event.eventType.SensorValid? || (sd.isHealthy && sd.isTrustedSource) then
      Sensors(x.failed - {p}, x.pending - {p})
    else x
  }

  function SensorsAfter(cfg: Config, x: Sensors, es: seq<SensorData>, n: nat): Sensors
    requires n <= |es|
  {
    if n == 0 then x else SensorsAfterEntry(cfg, SensorsAfter(cfg, x, es, n - 1), es[n - 1])
  }

  /** Entry i fails the last reviewed sensor that had not failed. */
  predicate FailsAllAt(cfg: Config, x: Sensors, es: seq<SensorData>, i: nat) {
    i < |es| && !AllFailed(cfg, SensorsAfter(cfg, x, es, i)) && AllFailed(cfg, SensorsAfter(cfg, x, es, i + 1))
  }

  ghost predicate SensorsEnter(cfg: Config, x: Sensors, req: DecisionRequest) {
    exists i: nat :: i < Count(req) && FailsAllAt(cfg, x, req.summary, i)
  }

  // ----- the AI pipeline -----

  ghost predicate AiEnters(ai: bool, req: DecisionRequest) {
    exists i: nat :: i < Count(req) && Ai.EntersAt(ai, req.summary, i)
  }

  ghost predicate SomeInvalid(req: DecisionRequest) {
    exists i :: 0 <= i < Count(req) && Ai.SaysInvalid(req.summary[i])
  }

  // ----- the trailer -----

  /** Slot i is an event the decision loop acts on. */
  predicate Acts(ids: EventIds, req: DecisionRequest, i: nat) {
    && i < Count(req)
    && !req.summary[i].event.status.Stale?
    && req.summary[i].event.id != ids[i]
    && !req.summary[i].event.eventType.SensorInvalid?
    && !req.summary[i].event.eventType.SensorValid?
    && !req.summary[i].event.eventType.AiPipelineInvalid?
    && !req.summary[i].event.eventType.AiPipelineValid?
    && req.summary[i].isHealthy
    && req.summary[i].isTrustedSource
  }

  function TrailerAfterEvent(cfg: Config, t: Trailer, et: EventType): Trailer {
    if et == cfg.forkliftEntered then t.(forkliftIn := true)
    else if et == cfg.forkliftExited then t.(forkliftIn := false)
    else if et == cfg.personEntered then (if t.persons < PERSONS_MAX then t.(persons := t.persons + 1) else t)
    else if et == cfg.personExited then (if t.persons > 0 then t.(persons := t.persons - 1) else t)
    else if et == cfg.roiViolation then t.(violation := true)
    else if et == cfg.roiCleared then t.(violation := false)
    else t
  }

  /** The event asks the person count to leave its range. */
  predicate Drifts(cfg: Config, t: Trailer, et: EventType) {
    && et != cfg.forkliftEntered && et != cfg.forkliftExited
    && if et == cfg.personEntered then t.persons >= PERSONS_MAX else et == cfg.personExited && t.persons == 0
  }

  function TrailerAfter(cfg: Config, t: Trailer, ids: EventIds, req: DecisionRequest, n: nat): Trailer
    requires n <= Count(req)
  {
    if n == 0 then t
    else
      var u := TrailerAfter(cfg, t, ids, req, n - 1);
      if Acts(ids, req, n - 1) then TrailerAfterEvent(cfg, u, req.summary[n - 1].event.eventType) else u
  }

  predicate DriftsAt(cfg: Config, t: Trailer, ids: EventIds, req: DecisionRequest, i: nat) {
    Acts(ids, req, i) && Drifts(cfg, TrailerAfter(cfg, t, ids, req, i), req.summary[i].event.eventType)
  }

  /** The request reaches the decision loop: nothing before it returns. */
  ghost predicate LoopRuns(cfg: Config, s: AtlState, req: DecisionRequest) {
    && req.mode != Error
    && !IsNoopOnly(req)
    && !AnyFreshSwFail(s.inbox.ids, req)
    && !SensorsEnter(cfg, s.faults.sensors, req)
  }

  // ----- a request, up to its events -----

  ghost function FaultsAfter(cfg: Config, f: Faults, ids: EventIds, req: DecisionRequest): Faults {
    f.(pss := PssAfter(f.pss, ids, req),
       sensors := SensorsAfter(cfg, f.sensors, req.summary, Count(req)),
       aiInvalid := Ai.InvalidAfter(f.aiInvalid, req.summary, Count(req)))
  }

  /** The ids once the fresh SW_FAILs are taken. */
  function IdsAfter(ids: EventIds, req: DecisionRequest): EventIds {
    seq(MAX_SUMMARY, i requires 0 <= i < MAX_SUMMARY =>
      if FreshSwFail(ids, req, i) then req.summary[i].event.id else ids[i])
  }

  ghost predicate Latches(cfg: Config, s: AtlState, req: DecisionRequest, l: LatchCause) {
    match l
    case Pss => PssLatches(s.faults.pss, s.inbox.ids, req)
    case AllSensorsFailed => SensorsEnter(cfg, s.faults.sensors, req)
    case AiInvalid => SomeInvalid(req)
    case _ => false
  }

  ghost function LatchAfter(cfg: Config, s: AtlState, req: DecisionRequest): set<LatchCause> {
    set l: LatchCause | l in s.latch || Latches(cfg, s, req, l)
  }

  /** A path of the request, up to its events, sends the hold. */
  ghost predicate OwesHold(cfg: Config, s: AtlState, req: DecisionRequest) {
    || AiEnters(s.faults.aiInvalid, req)
    || PssLatches(s.faults.pss, s.inbox.ids, req)
    || SensorsEnter(cfg, s.faults.sensors, req)
  }

  /** The verdicts and faults of a request; its events are left to do if it gets to them. */
  ghost function RequestStep(cfg: Config, s: AtlState, req: DecisionRequest): AtlState {
    AtlState(
      FaultsAfter(cfg, s.faults, s.inbox.ids, req),
      LatchAfter(cfg, s, req),
      s.trailer,
      Inbox(s.inbox.sequence, IdsAfter(s.inbox.ids, req), if LoopRuns(cfg, s, req) then Some(Work(req, 0)) else None),
      s.output.(holdOwed := s.output.holdOwed || OwesHold(cfg, s, req)))
  }

  /** The packet's number opens a sequence fault that was not active. */
  predicate GapEnters(s: AtlState, p: Seq.Packet) {
    Seq.Classify(s.inbox.sequence, p) == Seq.Gap && !s.faults.gap
  }

  /** The sequence and freshness part of a packet that is taken. */
  function Sequenced(s: AtlState, p: Seq.Packet): AtlState {
    AtlState(
      s.faults.(gap := Seq.Classify(s.inbox.sequence, p) == Seq.Gap, stale := false),
      if GapEnters(s, p) then s.latch + {DecisionSequence} else s.latch,
      s.trailer,
      s.inbox.(sequence := Seq.Observed(s.inbox.sequence, p)),
      s.output.(holdOwed := s.output.holdOwed || GapEnters(s, p)))
  }

  predicate IsTaken(s: AtlState, p: Seq.Packet) {
    Seq.IsRecorded(Seq.Classify(s.inbox.sequence, p))
  }

  /** A packet up to its events: sequence and freshness first, then the request; a
      duplicate, stale or invalid packet is dropped whole. */
  ghost function PacketStep(cfg: Config, s: AtlState, p: Seq.Packet, req: DecisionRequest): AtlState {
    if IsTaken(s, p) then RequestStep(cfg, Sequenced(s, p), req) else s
  }

  // ----- one event -----

  /** The event next in line acts on the trailer. */
  predicate WorkActs(s: AtlState) {
    s.inbox.work.Some? && Acts(s.inbox.ids, s.inbox.work.value.req, s.inbox.work.value.next)
  }

  /** It asks the person count to leave its range. */
  predicate WorkDrifts(cfg: Config, s: AtlState) {
    WorkActs(s) && Drifts(cfg, s.trailer, s.inbox.work.value.req.summary[s.inbox.work.value.next].event.eventType)
  }

  function InboxAfterEvent(x: Inbox): Inbox
    requires x.work.Some?
  {
    var req, i := x.work.value.req, x.work.value.next;
    if i >= Count(req) then x.(work := None)
    else Inbox(x.sequence, if req.summary[i].event.status.Stale? then x.ids else x.ids[i := req.summary[i].event.id],
               Some(Work(req, i + 1)))
  }

  /** One turn of the event loop; after the last slot, its end. */
  function EventStep(cfg: Config, s: AtlState): AtlState {
    if s.inbox.work.None? then s
    else
      AtlState(
        s.faults,
        if WorkDrifts(cfg, s) then s.latch + {CountDrift} else s.latch,
        if WorkActs(s) then
          TrailerAfterEvent(cfg, s.trailer, s.inbox.work.value.req.summary[s.inbox.work.value.next].event.eventType)
        else s.trailer,
        InboxAfterEvent(s.inbox),
        s.output.(holdOwed := s.output.holdOwed || (WorkDrifts(cfg, s) && s.latch == {})))
  }

  /** n turns of the event loop with nothing in between. */
  function Events(cfg: Config, s: AtlState, n: nat): AtlState {
    if n == 0 then s else EventStep(cfg, Events(cfg, s, n - 1))
  }

  // ----- faults still active -----

  /** The heartbeats missed, from the milliseconds since the last one, capped. */
  function GatewayMisses(cfg: Config, elapsed: int): (m: nat)
    ensures m <= cfg.maxMisses
  {
    if elapsed <= cfg.hbStaleMs then 0
    else
      var m := 1 + (elapsed - cfg.hbStaleMs) / cfg.hbPeriodMs;
      if m > cfg.maxMisses then cfg.maxMisses else m
  }

  /** The k-th miss comes k - 1 periods after the heartbeat goes stale, and not before. */
  lemma MissesAtLeastIff(cfg: Config, elapsed: int, k: nat)
    requires 1 <= k <= cfg.maxMisses
    ensures GatewayMisses(cfg, elapsed) >= k <==>
            elapsed > cfg.hbStaleMs && elapsed - cfg.hbStaleMs >= (k - 1) * cfg.hbPeriodMs
  {
    if elapsed > cfg.hbStaleMs {
      var n, d := elapsed - cfg.hbStaleMs, cfg.hbPeriodMs;
      DivBounds(n, d);
      if n >= (k - 1) * d {
        CancelMul(k - 1, n / d + 1, d);
      }
      if n / d >= k - 1 {
        MulLe(k - 1, n / d, d);
      }
    }
  }

  /** The miss count is in the recoverable band. */
  predicate InBand(cfg: Config, miss: nat) {
    cfg.maxMisses / 2 < miss < cfg.maxMisses
  }

  predicate InTier2(cfg: Config, f: Faults) {
    !f.hbFault && InBand(cfg, f.miss)
  }

  /** A fault that only the listener raises and clears is active, or the freshness one. */
  predicate AnyRequestFault(cfg: Config, f: Faults) {
    f.pss.active != {} || f.stale || f.gap || AllFailed(cfg, f.sensors) || f.aiInvalid
  }

  /** No cause of the latch is still active; count drift has no source of its own. */
  predicate NoneActive(cfg: Config, f: Faults) {
    !f.hbFault && !InTier2(cfg, f) && !AnyRequestFault(cfg, f)
  }

  /** The safe hold is in force. */
  predicate Holding(cfg: Config, s: AtlState) {
    s.latch != {} || s.faults.pss.active != {} || InTier2(cfg, s.faults)
  }

  predicate Suppressed(cfg: Config, f: Faults) {
    f.hbFault || f.miss > cfg.maxMisses / 2
  }

  predicate MayMute(t: Trailer) {
    t.forkliftIn && t.persons == 0 && !t.violation
  }
}

/** The ATL decision maker itself: its fields, and the methods its threads call, each
    proved to make the step of the run model that carries its name. */
module AtlControl {
  import opened Options
  import opened PssProtocol
  import opened RequestQueries
  import opened SubCauses
  import opened SourcePresence
  import opened InputState
  import F = FaultRun
  import opened AtlState
  import opened AtlRun
  import opened Uninterrupted
  import Ai = AiVerdict
  import Seq = GatewaySequence

  /** The event code is one the deployment listens to. */
  predicate Subscribes(cfg: Config, et: EventType) {
    || et == cfg.forkliftEntered || et == cfg.forkliftExited
    || et == cfg.personEntered || et == cfg.personExited
    || et == cfg.roiViolation || et == cfg.roiCleared
  }

  /** Some event of the request changes the trailer state, or tries to. */
  ghost predicate TrailerMoves(cfg: Config, s: AtlState, req: DecisionRequest) {
    && LoopRuns(cfg, s, req)
    && exists i: nat :: Acts(s.inbox.ids, req, i) && Subscribes(cfg, req.summary[i].event.eventType)
  }

  const ALL_SUB_CAUSES := [ModeError, GatewayComm, SwFailure, MonitorLost, PmLost, MdxLost, InputUnusable]

  lemma AllListed()
    ensures forall c: SubCause :: c in ALL_SUB_CAUSES[..|ALL_SUB_CAUSES|]
  {
    var all := ALL_SUB_CAUSES[..|ALL_SUB_CAUSES|];
    assert all == ALL_SUB_CAUSES;
    forall c: SubCause
      ensures c in all
    {
      match c
      case ModeError => assert all[0] == c;
      case GatewayComm => assert all[1] == c;
      case SwFailure => assert all[2] == c;
      case MonitorLost => assert all[3] == c;
      case PmLost => assert all[4] == c;
      case MdxLost => assert all[5] == c;
      case InputUnusable => assert all[6] == c;
    }
  }

  function Owing(o: Output, owes: bool): Output {
    o.(holdOwed := o.holdOwed || owes)
  }

  /** The sub-causes once the dedicated evaluators are through. */
  ghost function VerdictActive(f: F.FaultState, req: DecisionRequest): set<SubCause> {
    set c: SubCause |
      || PresenceRaises(f.seen, req, c) || InputRaises(f.held, req, c)
      || (c in f.active && !PresenceClears(f.seen, req, c) && !InputClears(f.held, req, c))
  }

  /** The sub-causes once the mode and the SW_FAILs are through. */
  ghost function TrafficActive(active: set<SubCause>, ids: EventIds, req: DecisionRequest): set<SubCause> {
    set c: SubCause |
      || (c == ModeError && req.mode == Error) || FreshSwFailOf(ids, req, c)
      || (c in active && !GeneralClears(req, c))
  }

  /** The two in a row come to PssAfter. */
  lemma PssComposed(f: F.FaultState, ids: EventIds, req: DecisionRequest)
    ensures TrafficActive(VerdictActive(f, req), ids, req) == PssAfter(f, ids, req).active
  {
  }

  function With(latch: set<LatchCause>, l: LatchCause, added: bool): set<LatchCause> {
    if added then latch + {l} else latch
  }

  /** The latch once the verdicts are through. */
  function VerdictLatch(latch: set<LatchCause>, ai: bool, sources: bool, sensors: bool): set<LatchCause> {
    With(With(With(latch, AiInvalid, ai), Pss, sources), AllSensorsFailed, sensors)
  }

  ghost predicate Faulty(ids: EventIds, req: DecisionRequest) {
    req.mode == Error || AnyFreshSwFail(ids, req)
  }

  lemma LatchComposed(cfg: Config, s: AtlState, req: DecisionRequest)
    ensures var mid := VerdictLatch(s.latch, SomeInvalid(req), SourceEnters(s.faults.pss, req),
                                    SensorsEnter(cfg, s.faults.sensors, req));
            With(mid, Pss, Faulty(s.inbox.ids, req)) == LatchAfter(cfg, s, req)
  {
  }

  class Controller {
    const cfg: Config
    const presence: PresenceRecord
    const input: InputRecord
    const observer: Seq.SequenceObserver
    var active: set<SubCause>
    var suppress: bool
    var sensors: Sensors
    var allFailed: bool
    var aiInvalid: bool
    var stale: bool
    var gap: bool
    var hbFault: bool
    var miss: nat
    var latch: set<LatchCause>
    var ids: EventIds
    var work: Option<Work>
    var trailer: Trailer
    var output: Output

    function State(): AtlState
      reads this, presence, input, observer
    {
      AtlState(
        Faults(F.FaultState(active, presence.seen, input.unusableSeen), sensors,
               aiInvalid, stale, gap, hbFault, miss),
        latch, trailer, Inbox(observer.State(), ids, work), output)
    }

    /** The two flags kept beside what they summarise. */
    ghost predicate Valid()
      reads this
    {
      && (suppress <==> active != {})
      && (allFailed <==> AllFailed(cfg, sensors))
    }

    constructor (config: Config)
      ensures cfg == config && Valid() && State() == LAUNCH
      ensures fresh(presence) && fresh(input) && fresh(observer)
    {
      cfg := config;
      presence := new PresenceRecord();
      input := new InputRecord();
      observer := new Seq.SequenceObserver();
      active, suppress, sensors, allFailed := {}, false, Sensors({}, {}), false;
      aiInvalid, stale, gap, hbFault, miss, latch := false, false, false, false, 0, {};
      ids, work, trailer, output := NO_IDS, None, CLEAR, Output(NoRelease, Idle, false, false);
    }

    // ----- sub-causes -----

    method MarkPssSubCause(c: SubCause)
      modifies this`active, this`suppress, this`latch
      ensures active == old(active) + {c} && latch == old(latch) + {Pss} && suppress
    {
      active := active + {c};
      suppress := true;
      latch := latch + {Pss};
    }

    method ClearPssSubCause(c: SubCause)
      requires Valid()
      modifies this`active, this`suppress
      ensures Valid() && active == old(active) - {c}
    {
      if c !in active {
        return;
      }
      active := active - {c};
      if active == {} {
        suppress := false;
      }
    }

    /** A fault path owes the hold; it goes out once the send lock is free. */
    method OweHold()
      modifies this`output
      ensures output == Owing(old(output), true)
    {
      output := output.(holdOwed := true);
    }

    method SendSafeHold()
      requires Enabled(cfg, State(), SendHold)
      modifies this`output
      ensures State() == Step(cfg, old(State()), SendHold)
    {
      output := output.(muted := false, holdOwed := false);
    }

    /** Clears what an evaluator refutes, and collects what it raises anew. */
    method ClearAndCollect(d: Delta) returns (entered: set<SubCause>)
      requires Valid() && d.raised !! d.cleared
      requires forall c :: c in d.raised || c in d.cleared ==> GroupOf(c).Some?
      modifies this`active, this`suppress
      ensures Valid()
      ensures forall c :: c in active <==> c in old(active) && c !in d.cleared
      ensures forall c :: c in entered <==> c in d.raised && c !in old(active)
    {
      entered := {};
      for g := 0 to GROUP_COUNT
        invariant Valid()
        invariant forall c :: c in active <==> c in old(active) && !(c in d.cleared && GroupOf(c).value < g)
        invariant forall c :: c in entered <==> c in d.raised && GroupOf(c).value < g && c !in old(active)
      {
        var c := GroupSubCause(g);
        if c in d.cleared {
          ClearPssSubCause(c);
        }
        if c in d.raised && c !in active {
          entered := entered + {c};
        }
      }
    }

    method MarkAll(raised: set<SubCause>)
      requires Valid()
      modifies this`active, this`suppress, this`latch
      ensures Valid()
      ensures forall c :: c in active <==> c in old(active) || c in raised
      ensures latch == With(old(latch), Pss, raised != {})
    {
      for i := 0 to |ALL_SUB_CAUSES|
        invariant Valid()
        invariant forall c :: c in active <==> c in old(active) || (c in raised && c in ALL_SUB_CAUSES[..i])
        invariant latch == if exists c :: c in raised && c in ALL_SUB_CAUSES[..i] then old(latch) + {Pss} else old(latch)
      {
        if ALL_SUB_CAUSES[i] in raised {
          MarkPssSubCause(ALL_SUB_CAUSES[i]);
        }
        assert ALL_SUB_CAUSES[..i + 1] == ALL_SUB_CAUSES[..i] + [ALL_SUB_CAUSES[i]];
      }
      AllListed();
    }

    /** The presence report and every source-lost SW_FAIL. */
    method ApplySourcePresence(req: DecisionRequest) returns (entered: set<SubCause>)
      requires Valid()
      modifies this`active, this`suppress, this`latch, this`output, presence
      ensures Valid() && presence.seen == SeenAfter(old(presence.seen), req)
      ensures forall c :: c in active <==> PresenceRaises(old(presence.seen), req, c) ||
                                           (c in old(active) && !PresenceClears(old(presence.seen), req, c))
      ensures forall c :: c in entered <==> c !in old(active) && PresenceRaises(old(presence.seen), req, c)
      ensures latch == With(old(latch), Pss, entered != {})
      ensures output == Owing(old(output), entered != {})
    {
      var d := presence.SourcePresenceEvaluate(Some(req));
      entered := ClearAndCollect(d);
      MarkAll(entered);
      if entered != {} {
        OweHold();
      }
    }

    /** The input-state report and every cause-13 SW_FAIL. */
    method ApplySourceInputState(req: DecisionRequest) returns (entered: bool)
      requires Valid()
      modifies this`active, this`suppress, this`latch, this`output, input
      ensures Valid() && input.unusableSeen == HeldAfter(old(input.unusableSeen), req)
      ensures forall c :: c in active <==> InputRaises(old(input.unusableSeen), req, c) ||
                                           (c in old(active) && !InputClears(old(input.unusableSeen), req, c))
      ensures entered <==> InputUnusable !in old(active) && InputRaises(old(input.unusableSeen), req, InputUnusable)
      ensures latch == With(old(latch), Pss, entered)
      ensures output == Owing(old(output), entered)
    {
      var d := input.SourceInputStateEvaluate(Some(req));
      if InputUnusable in d.cleared {
        ClearPssSubCause(InputUnusable);
      }
      if InputUnusable !in d.raised || InputUnusable in active {
        return false;
      }
      MarkPssSubCause(InputUnusable);
      OweHold();
      return true;
    }

    // ----- verdicts -----

    method UpdateAiPipelineTrust(req: DecisionRequest) returns (entered: bool)
      modifies this`aiInvalid, this`latch
      ensures aiInvalid == Ai.InvalidAfter(old(aiInvalid), req.summary, Count(req))
      ensures entered <==> AiEnters(old(aiInvalid), req)
      ensures latch == With(old(latch), AiInvalid, SomeInvalid(req))
    {
      entered := false;
      ghost var es, start := req.summary, aiInvalid;
      for i := 0 to Count(req)
        invariant aiInvalid == Ai.InvalidAfter(start, es, i)
        invariant entered <==> exists j: nat :: j < i && Ai.EntersAt(start, es, j)
        invariant latch == if exists j :: 0 <= j < i && Ai.SaysInvalid(es[j]) then old(latch) + {AiInvalid} else old(latch)
      {
        var ev := req.summary[i].event;
        ghost var was := aiInvalid;
        if !ev.status.Stale? && ev.eventType.AiPipelineInvalid? {
          assert Ai.SaysInvalid(es[i]);
          entered := entered || !aiInvalid;
          aiInvalid := true;
          latch := latch + {AiInvalid};
        } else if !ev.status.Stale? && ev.eventType.AiPipelineValid? {
          aiInvalid := false;
        }
        assert Ai.EntersAt(start, es, i) <==> !was && aiInvalid;
      }
    }

    method UpdateSensorHealth(req: DecisionRequest) returns (entered: bool)
      requires Valid()
      modifies this`sensors, this`allFailed, this`latch
      ensures Valid()
      ensures sensors == SensorsAfter(cfg, old(sensors), req.summary, Count(req))
      ensures entered <==> SensorsEnter(cfg, old(sensors), req)
      ensures latch == With(old(latch), AllSensorsFailed, entered)
    {
      entered := false;
      ghost var es, start := req.summary, sensors;
      for i := 0 to Count(req)
        invariant Valid()
        invariant sensors == SensorsAfter(cfg, start, es, i)
        invariant entered <==> exists j: nat :: j < i && FailsAllAt(cfg, start, es, j)
        invariant latch == if entered then old(latch) + {AllSensorsFailed} else old(latch)
      {
        ghost var was := allFailed;
        var enters := UpdateSensorFromEntry(req.summary[i]);
        assert FailsAllAt(cfg, start, es, i) <==> !was && allFailed;
        entered := entered || enters;
      }
    }

    method UpdateSensorFromEntry(sd: SensorData) returns (entered: bool)
      requires Valid()
      modifies this`sensors, this`allFailed, this`latch
      ensures Valid()
      ensures sensors == SensorsAfterEntry(cfg, old(sensors), sd)
      ensures entered <==> !old(allFailed) && allFailed
      ensures latch == With(old(latch), AllSensorsFailed, entered)
    {
      entered := false;
      var et, p := sd.event.eventType, sd.event.pipelineId;
      if sd.event.status.Stale? || et.StatusNoop? || p !in cfg.reviewed {
        return;
      }
      if et.SensorInvalid? || !sd.isHealthy {
        if sd.event.cause == CAUSE_SAIM_INIT {
          if et.SensorInvalid? {
            sensors := sensors.(pending := sensors.pending + {p});
          }
          return;
        }
        if !et.SensorInvalid? && p in sensors.pending {
          return;
        }
        sensors := sensors.(failed := sensors.failed + {p});
      } else if et.SensorValid? || (sd.isHealthy && sd.isTrustedSource) {
        sensors := Sensors(sensors.failed - {p}, sensors.pending - {p});
      } else {
        return;
      }
      if cfg.reviewed <= sensors.failed {
        entered := !allFailed;
        allFailed := true;
        if entered {
          latch := latch + {AllSensorsFailed};
        }
      } else {
        allFailed := false;
      }
    }

    /** Every fresh SW_FAIL in the request, each in its own sub-cause, and one hold. */
    method ApplySwFailEvents(req: DecisionRequest) returns (applied: bool)
      requires Valid()
      modifies this`ids, this`active, this`suppress, this`latch, this`output
      ensures Valid() && ids == IdsAfter(old(ids), req)
      ensures applied <==> AnyFreshSwFail(old(ids), req)
      ensures forall c :: c in active <==> c in old(active) || FreshSwFailOf(old(ids), req, c)
      ensures latch == With(old(latch), Pss, applied)
      ensures output == Owing(old(output), applied)
    {
      var raised: set<SubCause> := {};
      ghost var before := ids;
      for i := 0 to Count(req)
        modifies this`ids
        invariant forall j :: 0 <= j < MAX_SUMMARY ==>
                    ids[j] == if j < i && FreshSwFail(before, req, j) then req.summary[j].event.id else before[j]
        invariant forall c :: c in raised <==>
                    exists j: nat :: j < i && FreshSwFail(before, req, j) && SwFailSubCause(req.summary[j].event) == c
      {
        var ev := req.summary[i].event;
        if ev.eventType.SwFail? && !ev.status.Stale? && ev.id != ids[i] {
          assert FreshSwFail(before, req, i);
          ids := ids[i := ev.id];
          raised := raised + {SwFailSubCause(ev)};
        }
      }
      assert ids == IdsAfter(before, req);
      assert forall c :: c in raised <==> FreshSwFailOf(before, req, c);
      if raised == {} {
        FreshMeansOf(before, req);
        return false;
      }
      MarkAll(raised);
      OweHold();
      return true;
    }

    /** Presence and input state, in every mode. */
    method ApplySources(req: DecisionRequest) returns (entered: bool)
      requires Valid()
      modifies this`active, this`suppress, this`latch, this`output, presence, input
      ensures Valid()
      ensures presence.seen == SeenAfter(old(presence.seen), req)
      ensures input.unusableSeen == HeldAfter(old(input.unusableSeen), req)
      ensures active == VerdictActive(old(F.FaultState(active, presence.seen, input.unusableSeen)), req)
      ensures entered <==> SourceEnters(old(F.FaultState(active, presence.seen, input.unusableSeen)), req)
      ensures latch == With(old(latch), Pss, entered)
      ensures output == Owing(old(output), entered)
    {
      var sources := ApplySourcePresence(req);
      var inputs := ApplySourceInputState(req);
      entered := sources != {} || inputs;
      if inputs {
        assert InputUnusable !in old(active);
      }
    }

    /** The verdicts that apply in every mode, before anything returns. */
    method ApplyVerdicts(req: DecisionRequest) returns (sensorsEntered: bool)
      requires Valid()
      modifies this`active, this`suppress, this`latch, this`output, this`aiInvalid
      modifies this`sensors, this`allFailed, presence, input
      ensures Valid()
      ensures presence.seen == SeenAfter(old(presence.seen), req)
      ensures input.unusableSeen == HeldAfter(old(input.unusableSeen), req)
      ensures aiInvalid == Ai.InvalidAfter(old(aiInvalid), req.summary, Count(req))
      ensures sensors == SensorsAfter(cfg, old(sensors), req.summary, Count(req))
      ensures sensorsEntered <==> SensorsEnter(cfg, old(sensors), req)
      ensures active == VerdictActive(old(F.FaultState(active, presence.seen, input.unusableSeen)), req)
      ensures var entered := SourceEnters(old(F.FaultState(active, presence.seen, input.unusableSeen)), req);
              && latch == VerdictLatch(old(latch), SomeInvalid(req), entered, sensorsEntered)
              && output == Owing(old(output), AiEnters(old(aiInvalid), req) || entered)
    {
      var edge := UpdateAiPipelineTrust(req);
      if edge {
        OweHold();
      }
      var _ := ApplySources(req);
      sensorsEntered := UpdateSensorHealth(req);
    }

    /** What the request's mode and traffic refute. */
    method ClearRefuted(req: DecisionRequest)
      requires Valid()
      modifies this`active, this`suppress
      ensures Valid()
      ensures forall c :: c in active <==> c in old(active) && !GeneralClears(req, c)
    {
      if req.mode == Error {
        return;
      }
      ClearPssSubCause(ModeError);
      if IsNoopOnly(req) {
        if IsGatewayCommRecovered(req) {
          ClearPssSubCause(GatewayComm);
        }
        return;
      }
      var hasSwFail := ContainsSwFail(Some(req));
      if !hasSwFail {
        ClearPssSubCause(SwFailure);
        ClearPssSubCause(GatewayComm);
      }
    }

    method ApplyEvent(et: EventType) returns (entered: bool)
      modifies this`trailer, this`latch
      ensures trailer == TrailerAfterEvent(cfg, old(trailer), et)
      ensures latch == if Drifts(cfg, old(trailer), et) then old(latch) + {CountDrift} else old(latch)
      ensures entered <==> Drifts(cfg, old(trailer), et) && old(latch) == {}
    {
      entered := false;
      if et == cfg.forkliftEntered {
        trailer := trailer.(forkliftIn := true);
      } else if et == cfg.forkliftExited {
        trailer := trailer.(forkliftIn := false);
      } else if et == cfg.personEntered {
        if trailer.persons < PERSONS_MAX {
          trailer := trailer.(persons := trailer.persons + 1);
        } else {
          entered := MarkCountDrift();
        }
      } else if et == cfg.personExited {
        if trailer.persons > 0 {
          trailer := trailer.(persons := trailer.persons - 1);
        } else {
          entered := MarkCountDrift();
        }
      } else if et == cfg.roiViolation {
        trailer := trailer.(violation := true);
      } else if et == cfg.roiCleared {
        trailer := trailer.(violation := false);
      }
    }

    method MarkCountDrift() returns (entered: bool)
      modifies this`latch
      ensures entered == (old(latch) == {}) && latch == old(latch) + {CountDrift}
    {
      entered := latch == {};
      latch := latch + {CountDrift};
    }

    /** The mode and the SW_FAILs. */
    method ApplyFaults(req: DecisionRequest) returns (faulty: bool)
      requires Valid()
      modifies this`active, this`suppress, this`latch, this`output, this`ids
      ensures Valid()
      ensures active == TrafficActive(old(active), old(ids), req)
      ensures ids == IdsAfter(old(ids), req)
      ensures faulty <==> Faulty(old(ids), req)
      ensures latch == With(old(latch), Pss, faulty)
      ensures output == Owing(old(output), faulty)
    {
      ClearRefuted(req);
      faulty := ApplySwFailEvents(req);
      if req.mode == Error {
        MarkPssSubCause(ModeError);
        OweHold();
        faulty := true;
      }
    }

    // ----- the deciding thread -----

    /** The hold checks; true when the hold is in force and has been sent. */
    method HoldIfLatched() returns (held: bool)
      requires Valid()
      modifies this`output
      ensures Valid() && held == Holding(cfg, old(State()))
      ensures output == if held then old(output).(muted := false) else old(output)
    {
      held := latch != {} || suppress || (!hbFault && cfg.maxMisses / 2 < miss < cfg.maxMisses);
      if held {
        output := output.(muted := false);
      }
    }

    /** The checks, the read of the trailer, the checks again and the command, with no
        other thread in between. */
    method EvaluateDecision()
      requires Valid() && output.phase.Idle? && output.release.NoRelease?
      modifies this`output
      ensures Valid() && State() == Evaluated(cfg, old(State()))
    {
      var held := HoldIfLatched();
      if held || latch != {} || hbFault || miss > cfg.maxMisses / 2 {
        return;
      }
      var seen := trailer;
      held := HoldIfLatched();
      if held || latch != {} || hbFault || miss > cfg.maxMisses / 2 {
        return;
      }
      output := output.(muted := seen.forkliftIn && seen.persons == 0 && !seen.violation);
    }

    // ----- the gateway listener -----

    /** Sequence and freshness of a packet that is taken. */
    method ApplySequence(p: Seq.Packet) returns (taken: bool)
      modifies this`gap, this`stale, this`latch, this`output, observer
      ensures taken == IsTaken(old(State()), p)
      ensures State() == if taken then Sequenced(old(State()), p) else old(State())
    {
      var r := observer.Observe(p);
      if r == Seq.DuplicateOrStale || r == Seq.Invalid {
        return false;
      }
      if r == Seq.Gap {
        if !gap {
          gap := true;
          latch := latch + {DecisionSequence};
          OweHold();
        }
      } else {
        gap := false;
      }
      stale := false;
      return true;
    }

    /** The mode and the SW_FAILs, after the verdicts; `s` is the state before the request. */
    method ApplyTraffic(req: DecisionRequest, sensorsEntered: bool, ghost s: AtlState)
      requires Valid() && ids == s.inbox.ids
      requires active == VerdictActive(s.faults.pss, req)
      requires latch == VerdictLatch(s.latch, SomeInvalid(req), SourceEnters(s.faults.pss, req), sensorsEntered)
      requires sensorsEntered <==> SensorsEnter(cfg, s.faults.sensors, req)
      modifies this`active, this`suppress, this`latch, this`output, this`ids, this`work
      ensures Valid()
      ensures active == PssAfter(s.faults.pss, s.inbox.ids, req).active
      ensures latch == LatchAfter(cfg, s, req)
      ensures ids == IdsAfter(s.inbox.ids, req)
      ensures work == if LoopRuns(cfg, s, req) then Some(Work(req, 0)) else None
      ensures output == Owing(old(output), Faulty(s.inbox.ids, req) || sensorsEntered)
    {
      PssComposed(s.faults.pss, s.inbox.ids, req);
      LatchComposed(cfg, s, req);
      var faulty := ApplyFaults(req);
      if sensorsEntered {
        OweHold();
      }
      work := if faulty || IsNoopOnly(req) || sensorsEntered then None else Some(Work(req, 0));
    }

    /** Everything in a request that comes before its events. */
    method BeginRequest(req: DecisionRequest)
      requires Valid()
      modifies this`active, this`suppress, this`latch, this`output, this`aiInvalid
      modifies this`sensors, this`allFailed, this`ids, this`work, presence, input
      ensures Valid() && State() == RequestStep(cfg, old(State()), req)
    {
      ghost var s := State();
      var sensorsEntered := ApplyVerdicts(req);
      ApplyTraffic(req, sensorsEntered, s);
    }

    /** The event at slot i of the request in work. */
    method ApplySlot(req: DecisionRequest, i: nat) returns (changed: bool)
      requires i < Count(req)
      modifies this`ids, this`trailer, this`latch, this`output
      ensures ids == if req.summary[i].event.status.Stale? then old(ids) else old(ids)[i := req.summary[i].event.id]
      ensures var et := req.summary[i].event.eventType;
              var acts := Acts(old(ids), req, i);
              var drifts := acts && Drifts(cfg, old(trailer), et);
              && trailer == (if acts then TrailerAfterEvent(cfg, old(trailer), et) else old(trailer))
              && latch == (if drifts then old(latch) + {CountDrift} else old(latch))
              && output == Owing(old(output), drifts && old(latch) == {})
              && (changed <==> acts && Subscribes(cfg, et))
    {
      changed := false;
      var sd := req.summary[i];
      if sd.event.status.Stale? || sd.event.id == ids[i] {
        return;
      }
      ids := ids[i := sd.event.id];
      var et := sd.event.eventType;
      if et.SensorInvalid? || et.SensorValid? || et.AiPipelineInvalid? || et.AiPipelineValid? {
        return;
      }
      if !sd.isHealthy || !sd.isTrustedSource {
        return;
      }
      var entered := ApplyEvent(et);
      if entered {
        OweHold();
      }
      changed := Subscribes(cfg, et);
    }

    /** One turn of the event loop. */
    method ApplyNextEvent() returns (changed: bool)
      requires Valid() && Enabled(cfg, State(), NextEvent)
      modifies this`ids, this`work, this`trailer, this`latch, this`output
      ensures Valid() && State() == Step(cfg, old(State()), NextEvent)
      ensures changed <==> var w := old(work.value);
                           Acts(old(ids), w.req, w.next) && Subscribes(cfg, w.req.summary[w.next].event.eventType)
    {
      var req, i := work.value.req, work.value.next;
      if i >= Count(req) {
        work := None;
        return false;
      }
      changed := ApplySlot(req, i);
      work := Some(Work(req, i + 1));
    }

    /** The whole event loop of the request in work, with nothing in between. */
    method ApplyEvents(req: DecisionRequest) returns (moved: bool)
      requires Valid() && work == Some(Work(req, 0))
      modifies this`ids, this`work, this`trailer, this`latch, this`output
      ensures Valid() && work.None? && State() == Events(cfg, old(State()), Count(req) + 1)
      ensures moved <==> exists i: nat :: Acts(old(ids), req, i) && Subscribes(cfg, req.summary[i].event.eventType)
    {
      moved := false;
      ghost var start, before := State(), ids;
      for n := 0 to Count(req)
        invariant Valid() && State() == Events(cfg, start, n) && work == Some(Work(req, n))
        invariant forall i :: n <= i < MAX_SUMMARY ==> ids[i] == before[i]
        invariant moved <==> exists i: nat :: i < n && Acts(before, req, i) && Subscribes(cfg, req.summary[i].event.eventType)
      {
        var changed := ApplyNextEvent();
        moved := moved || changed;
      }
      var _ := ApplyNextEvent();
    }

    /** A request that nothing interrupts. `evaluate` asks for an evaluation after it. */
    method ProcessDecisionRequest(req: DecisionRequest) returns (evaluate: bool)
      requires Valid() && output.release.NoRelease? && work.None?
      modifies this, presence, input
      ensures Valid() && work.None?
      ensures State() == Events(cfg, RequestStep(cfg, old(State()), req), Count(req) + 1)
      ensures evaluate <==> TrailerMoves(cfg, old(State()), req) && latch == {}
    {
      ghost var s := State();
      BeginRequest(req);
      evaluate := false;
      if work.Some? {
        assert ids == s.inbox.ids;
        evaluate := ApplyEvents(req);
        evaluate := evaluate && latch == {};
      } else {
        IdleEvents(cfg, State(), 0, Count(req) + 1);
      }
    }

    /** A packet, with the transition lock held throughout and whatever the deciding
        thread is at. */
    method OnPacket(p: Seq.Packet, req: DecisionRequest) returns (evaluate: bool)
      requires Valid() && output.release.NoRelease? && work.None?
      modifies this, presence, input, observer
      ensures Valid() && work.None?
      ensures State() == Events(cfg, Step(cfg, old(State()), PacketArrives(p, req)), Count(req) + 1)
    {
      evaluate := false;
      var taken := ApplySequence(p);
      if taken {
        evaluate := ProcessDecisionRequest(req);
      } else {
        IdleEvents(cfg, State(), 0, Count(req) + 1);
      }
    }

    // ----- the watchdogs -----

    /** `elapsed` since the last valid request has passed the timeout. */
    method OnFreshnessExpired() returns (marked: bool)
      modifies this`stale, this`latch, this`output
      ensures State() == Step(cfg, old(State()), FreshnessExpires) && (marked <==> !old(stale))
    {
      if stale {
        return false;
      }
      stale := true;
      latch := latch + {DecisionFreshness};
      output := output.(holdOwed := true);
      return true;
    }

    /** The heartbeat check, `elapsed` milliseconds after the last heartbeat. */
    method OnHeartbeatCheck(elapsed: int) returns (m: nat)
      modifies this`miss, this`hbFault, this`output
      ensures m == GatewayMisses(cfg, elapsed) && State() == Step(cfg, old(State()), HeartbeatMiss(m))
    {
      if elapsed <= cfg.hbStaleMs {
        m := 0;
      } else {
        m := 1 + (elapsed - cfg.hbStaleMs) / cfg.hbPeriodMs;
        if m > cfg.maxMisses {
          m := cfg.maxMisses;
        }
      }
      var before := miss;
      miss := m;
      if m == 0 {
        hbFault := false;
      }
      if m > cfg.maxMisses / 2 && m < cfg.maxMisses && before <= cfg.maxMisses / 2 {
        OweHold();
      }
    }

    method OnHeartbeatFault() returns (marked: bool)
      modifies this`hbFault, this`latch, this`output
      ensures State() == Step(cfg, old(State()), HeartbeatFault) && (marked <==> !old(hbFault))
    {
      if hbFault {
        return false;
      }
      hbFault := true;
      latch := latch + {GatewayHb};
      output := output.(holdOwed := true);
      return true;
    }

    // ----- the PLC release -----

    method ActiveSafeLatchCauses() returns (causes: set<LatchCause>)
      requires Valid()
      ensures causes == {} <==> NoneActive(cfg, State().faults)
      ensures Pss in causes <==> active != {}
    {
      causes := {};
      if hbFault || (!hbFault && cfg.maxMisses / 2 < miss < cfg.maxMisses) {
        causes := causes + {GatewayHb};
      }
      if active != {} {
        causes := causes + {Pss};
      }
      if stale {
        causes := causes + {DecisionFreshness};
      }
      if gap {
        causes := causes + {DecisionSequence};
      }
      if allFailed {
        causes := causes + {AllSensorsFailed};
      }
      if aiInvalid {
        causes := causes + {AiInvalid};
      }
    }

    /** Denied while a fault is active; otherwise the latch is noted and the response
        sent. No watchdog comes in between here. */
    method BeginSafeRelease() returns (granted: bool)
      requires Valid() && output.phase.Idle? && output.release.NoRelease? && work.None?
      modifies this`output
      ensures Valid() && State() == Checked(cfg, old(State())) && (granted <==> output.release.InFlight?)
    {
      var causes := ActiveSafeLatchCauses();
      output := output.(muted := false);
      granted := causes == {};
      if granted {
        output := output.(release := InFlight(latch));
      }
    }

    /** After the response: the latch falls only if nothing has joined it meanwhile. */
    method CommitSafeRelease(sent: bool) returns (cleared: bool)
      requires Valid() && Enabled(cfg, State(), ReleaseCommit(sent))
      modifies this`output, this`latch, this`trailer
      ensures Valid() && State() == Step(cfg, old(State()), ReleaseCommit(sent))
      ensures cleared <==> sent && Accepts(cfg, old(State()))
    {
      var snapshot := output.release.snapshot;
      output := output.(release := NoRelease);
      cleared := false;
      if !sent {
        return;
      }
      if snapshot == {} {
        trailer := CLEAR;
        return;
      }
      var causes := ActiveSafeLatchCauses();
      if latch == snapshot && causes == {} {
        latch := {};
        trailer := CLEAR;
        cleared := true;
      }
    }
  }

  /** The event loop does nothing once it has ended. */
  lemma {:induction false} IdleEvents(cfg: Config, s: AtlState, m: nat, n: nat)
    requires m <= n && Events(cfg, s, m).inbox.work.None?
    ensures Events(cfg, s, n) == Events(cfg, s, m)
  {
    if m < n {
      IdleEvents(cfg, s, m, n - 1);
    }
  }

  lemma FreshMeansOf(ids: EventIds, req: DecisionRequest)
    requires forall c :: !FreshSwFailOf(ids, req, c)
    ensures !AnyFreshSwFail(ids, req)
  {
    if i: nat :| FreshSwFail(ids, req, i) {
      assert FreshSwFailOf(ids, req, SwFailSubCause(req.summary[i].event));
    }
  }
}

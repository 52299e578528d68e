# Verified model of the outside-in safety decision path

A Dafny 4.11 model of how the Safety Core decides to let a loading dock run, and of the
logic around it that scores, gates and feeds that decision.

* **Faults** (`PssProtocol`, `RequestQueries`, `SubCauses`, `SourcePresence`, `InputState`,
  `FaultRun`, `FaultHistory`, `AiVerdict`). Every decision request raises and clears fault
  sub-causes through evaluators that keep records between requests. The theorems are about
  whole runs of requests: what ends a loss, what a restart relearns, which edges may not
  be lost.
* **The ATL decision maker** (`AtlState`, `AtlRun`, `Uninterrupted`, `AtlSafety`,
  `ReleaseHistory`, `AtlControl`, `RequestEvents`, `SensorHistory`, `SwFailHistory`). Its safe-state latch, PLC release
  handshake and MUTE decision, as the methods of one class and as a state machine over
  the interleaved steps of its threads: gateway listener, freshness and heartbeat
  watchdogs, deciding thread, release handler. The end-to-end theorem is
  `AtlSafety.LossBlocksMute`.
* **The gateway sequence** (`GatewaySequence`), **tile geometry** (`DivMod`,
  `TileGeometry`), **clip scoring** (`EventMatching`, `MismatchWindows`, `ScoredFrames`,
  `ReactionLag`), **the proximity gate and the path follower that obeys it**
  (`ProximityGate`, `PathFollower`, `DriveHistory`), **the walkable-area index** (`NavMesh`), **tripwire
  geometry** (`Tripwire`) and **the two-zone bridge** (`ZoneBridge`).

`Options` holds the optional value; `Latch` is the one lemma that turns a raise-and-clear rule into a statement about history.

Masks are sets of bit positions, floats are reals, and clocks, distances, angles and
transmission results are inputs. Verify with `dafny verify dfyconfig.toml`.

## How the ATL threads are modelled

The listener takes a packet in one step up to its events, and then each event in a step of
its own, as each takes and drops the state lock on its own. A release is excluded from the
first of these steps to the last. The deciding thread and the release handler take a step
for every load of something another thread may change, so that any of these may move
between two loads:

* An evaluation loads the latch, the PSS flag, the heartbeat fault and the misses, reads
  the trailer under its lock, loads the same again, and sends. Packets, events and
  watchdogs come in between; a release does not.
* A release loads the heartbeat fault, again with the misses behind it, and the other
  faults, of which only freshness can move under it; then it notes the latch, sends and
  commits. Packets and evaluations are excluded throughout, and the watchdogs by nothing.
  The commit is one step: every mark takes the latch lock that it holds.

Before its events a packet only adds to the latch what it marks, and moves neither trailer
nor heartbeat, so its first mark is the one point that an evaluation around it can tell.

A fault path owes its hold, which a later step sends once the send lock is free; a fault may
latch after the last load and before the send, and `AtlRun.RunKeepsInv` says that a hold is
then owed.

## What does not hold

* A request is not atomic to the deciding thread. A request with a forklift and then a
  person entering may be muted neither before nor after it, and is muted by a decision
  made between the two (`RequestEvents.HalfARequestMutes`; `RequestEvents.MutesMidwayIff`
  has the exact condition).
* A release is not atomic from its check on. A heartbeat fault that is marked between the
  check and the note of the latch, and recovers before the commit, is cleared by the
  release although no check ever saw it
  (`ReleaseHistory.LateHeartbeatFaultIsReleased`; `ReleaseHistory.ClearedLateIff` has the
  exact condition).
* A packet number can be recorded twice in an epoch without a wrap: one packet of another
  epoch reopens the old numbers (`GatewaySequence.OtherEpochReopensNumbers`;
  `GatewaySequence.CopyIsRecordedIff` has the exact condition). A repeat of MAX is taken
  for a gap (`GatewaySequence.RepeatIsDuplicateIff`).
* The decision maker's fault set is not that of the shared rules. The header names one
  difference, stale entries; leaving out a SW_FAIL with the id last taken from its slot is
  another (`SwFailHistory.RedeliveredSwFailIsNotRaised`; `SwFailHistory.RunAgreesIff` has
  the exact condition).
* The proximity link's staleness is latched by queries only; a silence that ends before
  anybody asks leaves no trace (`ProximityGate.UnqueriedSilenceIsForgotten`;
  `ProximityGate.NormalExactlyWhen` has the exact condition).
* The cell index can lose a point that `point_in_tri` accepts by its tolerance
  (`NavMesh.MarginIsLost`; `NavMesh.AgreeIff` has the exact condition, and
  `NavMesh.AgreeAwayFromBorders` one to check beforehand).
* A zone whose x sides are given in reverse order has points both in its ROI and in its
  trailer (`Tripwire.RoiAndTrailerDisjointIff` has the exact condition), and a wire with
  no usable arrow that runs along the x axis depends on the order of its ends
  (`Tripwire.UnsafeSwapFlips`).
* A report does not settle a group it does not speak of, so a restarted SDM can differ
  from one that never restarted on a loss that named no source
  (`FaultHistory.RestartDropsNamelessLoss`; `FaultHistory.RestartSettlesActive` has the
  exact condition).
* Greedy matching is not optimal (`EventMatching.HalfIsTight`). It is when no event is
  contested (`EventMatching.GreedyIsOptimalForLoneGroundTruth` and
  `EventMatching.GreedyIsOptimalForLoneEvents`), and half is guaranteed always.

## Model

| member | source | states |
|---|---|---|
| `RequestQueries.ContainsSwFail` | safety-core/decision-makers/common/sdm_decision_request_state.h:25-43 | true exactly when some SW_FAIL sits among the slots read, with the count capped at the array |
| `RequestQueries.FindPresenceReport` | safety-core/decision-makers/common/sdm_decision_request_state.h:327-351 | finds a presence report exactly when one is read, and takes both masks from the last one |
| `RequestQueries.LastReportIsLast` | safety-core/decision-makers/common/sdm_decision_request_state.h:327-351 | the report found is an entry that no later report follows; none is found only if there is none |
| `SubCauses.SwFailSubCausesRaised` | safety-core/decision-makers/common/sdm_decision_request_state.h:213-236 | raises exactly the sub-causes of the SW_FAILs read, whatever the position, the mode or the staleness |
| `SubCauses.PssSubCausesEvaluate` | safety-core/decision-makers/common/sdm_decision_request_state.h:254-283 | bit by bit, both ways: what the mode and the SW_FAILs raise and what each kind of request refutes |
| `SourcePresence.PresenceRecord.SourcePresenceEvaluate` | safety-core/decision-makers/common/sdm_decision_request_state.h:397-440 | raises a group on a reported loss or a known source missing from the report; clears it only on a non-ERROR report showing every known source; the record grows by all sources named, expected or shown |
| `SourcePresence.PresenceRecord.CompareGroups` | safety-core/decision-makers/common/sdm_decision_request_state.h:418-437 | each group is decided alone, because the groups are disjoint |
| `InputState.InputRecord.SourceInputStateEvaluate` | safety-core/decision-makers/common/sdm_decision_request_state.h:465-507 | holds an identity from a rejection until a non-ERROR report confirms it and nothing in the request says otherwise; raises while any is held and clears when the last one goes |
| `FaultRun.DedicatedEvaluatorCovers` | safety-core/decision-makers/common/sdm_decision_request_state.h:193-507 | every source-lost or input-unusable bit the general rules raise, the dedicated evaluator raises too, whatever its record holds |
| `FaultRun.RaisedIsNeverCleared` | safety-core/decision-makers/common/sdm_decision_request_state.h:193-507 | no request both raises and clears a sub-cause, by any pair of evaluators and for any records |
| `FaultRun.OrderIndependent` | safety-core/decision-makers/common/sdm_decision_request_state.h:193-507 | applying the three evaluators in any order yields one and the same active set |
| `FaultHistory.SeenIsEverNamed` | safety-core/decision-makers/common/sdm_decision_request_state.h:397-440 | over every run the record is exactly the set of tracked sources ever named, expected or shown |
| `FaultHistory.LossActiveIff` | safety-core/decision-makers/common/sdm_decision_request_state.h:397-440 | over every run a group counts as lost exactly when some request lost it and none since returned it |
| `FaultHistory.LossEndsOnlyOnReturn` | safety-core/decision-makers/common/sdm_decision_request_state.h:397-440 | a loss that is later inactive was ended by one request: not ERROR, no SW_FAIL for the group, and a report showing every member seen so far, among them the one the SW_FAIL named |
| `FaultHistory.NothingElseEndsALoss` | safety-core/decision-makers/common/sdm_decision_request_state.h:397-440 | ordinary traffic, no-ops, the recovery record and every ERROR-mode request leave a loss as it is |
| `FaultHistory.RestartRelearnsIff` | safety-core/decision-makers/common/sdm_decision_request_state.h:397-440 | a restarted SDM knows what one that kept its record knows exactly when the requests since mentioned all of it |
| `FaultHistory.RestartAgreesFrom` | safety-core/decision-makers/common/sdm_decision_request_state.h:397-440 | from the first report whose expected set covers the record at the restart, both raise and restore the same on every later request and keep the same record |
| `FaultHistory.RestartSettlesActive` | safety-core/decision-makers/common/sdm_decision_request_state.h:397-440 | such a report outside ERROR mode settles whether a group is lost, whatever either held active before, exactly when it speaks of the group; of any other group each keeps what it held |
| `FaultHistory.RestartDropsNamelessLoss` | safety-core/decision-makers/common/sdm_decision_request_state.h:397-440 | a loss that names no source, a restart and a report that expects none: still lost without the restart, and not after it |
| `FaultHistory.RedeliveryChangesNothing` | safety-core/decision-makers/common/sdm_decision_request_state.h:397-440 | delivering a request again changes neither the record nor the verdicts |
| `FaultHistory.HeldIff` | safety-core/decision-makers/common/sdm_decision_request_state.h:465-507 | an identity is held exactly when some request opened it and none since closed it |
| `FaultHistory.RestartHeldIff` | safety-core/decision-makers/common/sdm_decision_request_state.h:465-507 | what a restart costs: the identities held before it that nothing since has closed or opened again |
| `FaultHistory.InputActiveIffHeld` | safety-core/decision-makers/common/sdm_decision_request_state.h:465-507 | over every run the input-unusable bit is active exactly while an identity is held |
| `FaultHistory.HeldByProjection` | safety-core/decision-makers/common/sdm_decision_request_state.h:465-507 | each identity evolves exactly as in the run projected to that identity alone |
| `AiVerdict.VerdictLatch.Apply` | safety-core/decision-makers/common/sdm_decision_request_state.h:530-561 | the condition after the request, and the three result bits, each both ways |
| `AiVerdict.RunDecidedByLastVerdict` | safety-core/decision-makers/common/sdm_decision_request_state.h:530-561 | over every run the condition is what the last live verdict among the entries read says |
| `AiVerdict.NoEdgeLost` | safety-core/decision-makers/common/sdm_decision_request_state.h:530-561 | every way in or out of the condition shows as an edge, also when it goes in and out within one request |
| `AtlControl.Controller.ApplySourcePresence` | safety-core/decision-makers/atl/sdm/ATLControl.cpp:1593-1624 | clears what came back, marks and latches what is newly lost, and sends the hold exactly then |
| `AtlControl.Controller.ApplySourceInputState` | safety-core/decision-makers/atl/sdm/ATLControl.cpp:1637-1654 | the same for rejected input |
| `AtlControl.Controller.UpdateSensorHealth` | safety-core/decision-makers/atl/sdm/ATLControl.cpp:639-756 | the failed and pending sensors are the fold over the entries; entering all-failed latches, leaving it does not unlatch |
| `AtlControl.Controller.UpdateAiPipelineTrust` | safety-core/decision-makers/atl/sdm/ATLControl.cpp:1118-1147 | the AI condition is the fold over the entries; any INVALID latches and an edge is reported |
| `AtlControl.Controller.ApplySwFailEvents` | safety-core/decision-makers/atl/sdm/ATLControl.cpp:1678-1711 | every live SW_FAIL not yet taken from its slot marks its own sub-cause, and one hold goes out |
| `AtlControl.Controller.ApplyNextEvent` | safety-core/decision-makers/atl/sdm/ATLControl.cpp:1834-1952 | one turn of the event loop: a fresh, healthy, trusted event moves the trailer state, and a person count that would leave 0..10000 latches and owes the hold |
| `AtlControl.Controller.ApplyEvents` | safety-core/decision-makers/atl/sdm/ATLControl.cpp:1832-1953 | the whole loop with nothing in between, and whether any event asked for a decision |
| `AtlControl.Controller.BeginRequest` | safety-core/decision-makers/atl/sdm/ATLControl.cpp:1716-1829 | everything before the events: verdicts, sources, mode and SW_FAILs, whether the events are reached, and whether a hold is owed |
| `AtlControl.Controller.ProcessDecisionRequest` | safety-core/decision-makers/atl/sdm/ATLControl.cpp:1716-1968 | an uninterrupted request is the request step followed by its event steps, and asks for an evaluation exactly when an event moved the trailer and nothing is latched |
| `AtlControl.Controller.OnPacket` | safety-core/decision-makers/atl/sdm/ATLControl.cpp:2442-2476 | whatever the deciding thread is at: a packet step and its event steps; duplicates and invalid numbers change nothing |
| `AtlControl.Controller.ApplySequence` | safety-core/decision-makers/atl/sdm/ATLControl.cpp:2444-2474 | a gap latches once and owes the hold, any other taken number ends the gap, and a taken packet ends a freshness fault |
| `AtlControl.Controller.HoldIfLatched` | safety-core/decision-makers/atl/sdm/ATLControl.cpp:2886-2905 | the hold goes out exactly while a cause is latched, a PSS sub-cause is active or the heartbeat is in its recoverable band |
| `AtlControl.Controller.EvaluateDecision` | safety-core/decision-makers/atl/sdm/ATLControl.cpp:2881-2957 | left alone, an evaluation sends the hold while one is in force, nothing while the heartbeat is suppressed, and else MUTE exactly when a forklift is in, nobody in the trailer and no violation |
| `Uninterrupted.EvaluationIsDecided` | safety-core/decision-makers/atl/sdm/ATLControl.cpp:2881-2957 | load by load as the deciding thread of the run takes it, and left alone, an evaluation comes to just that, in at most sixteen loads |
| `AtlControl.Controller.OnFreshnessExpired` | safety-core/decision-makers/atl/sdm/ATLControl.cpp:814-874 | marks and latches the freshness fault once, with its hold owed |
| `AtlControl.Controller.OnHeartbeatCheck` | safety-core/decision-makers/atl/sdm/ATLControl.cpp:1510-1536 | the misses from the elapsed time; they are recorded, end the fault at none, and owe a hold on entering the recoverable band |
| `AtlState.MissesAtLeastIff` | safety-core/decision-makers/atl/sdm/ATLControl.cpp:536-550 | the k-th miss comes k - 1 periods after the heartbeat goes stale, and not before |
| `AtlControl.Controller.OnHeartbeatFault` | safety-core/decision-makers/atl/sdm/ATLControl.cpp:767-776 | marks and latches the heartbeat fault once, with its hold owed |
| `AtlControl.Controller.BeginSafeRelease` | safety-core/decision-makers/atl/sdm/ATLControl.cpp:1227-1248 | left alone, a release is denied while any fault is active, and else notes the latch |
| `Uninterrupted.CheckIsChecked` | safety-core/decision-makers/atl/sdm/ATLControl.cpp:1149-1248 | load by load as the release handler of the run takes it, and left alone, the check and the note come to just that, in at most five loads |
| `AtlControl.Controller.CommitSafeRelease` | safety-core/decision-makers/atl/sdm/ATLControl.cpp:1255-1299 | the latch falls, and the trailer state resets, only if the latch is as noted and no fault is active |
| `AtlControl.PssComposed` | safety-core/decision-makers/atl/sdm/ATLControl.cpp:1716-1820 | applying the evaluators one after another, clears before marks, comes to the one-step fault set |
| `AtlRun.NewHoldIsOwed` | safety-core/decision-makers/atl/sdm/ATLControl.cpp:1716-1829 | a request that latches before its events, from a clear state, owes the hold on whichever of its paths it returns |
| `AtlRun.QuietRequest` | safety-core/decision-makers/atl/sdm/ATLControl.cpp:1716-1829 | a request without SW_FAIL, verdict, presence report or anything about a reviewed sensor moves nothing before its events, and gets to them unless it is a lone no-op |
| `AtlRun.RunKeepsInv` | safety-core/decision-makers/atl/sdm/ATLControl.cpp:1185-1194 | over every interleaving of the threads, load by load, each active fault is latched, a release is alone with the outputs from its check on, and a hold in force has been sent since the last MUTE or is owed, also where a MUTE is under way |
| `AtlSafety.FaultsRefine` | safety-core/decision-makers/atl/sdm/ATLControl.cpp:1593-1829 | over every run the ATL fault set is contained in the shared evaluators' and equals it on the source-lost, input-unusable and mode bits |
| `SwFailHistory.StepAgreesIff` | safety-core/decision-makers/atl/sdm/ATLControl.cpp:1678-1711 | on the other two bits, from one state, they agree after a request exactly when a SW_FAIL of the sub-cause is fresh or it was active anyway |
| `SwFailHistory.TrafficByHistory` | safety-core/decision-makers/atl/sdm/ATLControl.cpp:1678-1711 | over every run ATL has such a bit active exactly when a fresh SW_FAIL raised it and nothing cleared it since, the shared rules when any SW_FAIL did |
| `SwFailHistory.RunAgreesIff` | safety-core/decision-makers/atl/sdm/ATLControl.cpp:1678-1711 | so over every run they agree exactly when some SW_FAIL since the last clearing request, if there was any, was fresh |
| `SwFailHistory.RedeliveredSwFailIsNotRaised` | safety-core/decision-makers/atl/sdm/ATLControl.cpp:1688-1690 | a run on which they differ |
| `AtlSafety.ReleasedBetween` | safety-core/decision-makers/atl/sdm/ATLControl.cpp:1227-1299 | a latched cause is gone only after an accepted release in between |
| `AtlSafety.AcceptedReleaseIsAtomic` | safety-core/decision-makers/atl/sdm/ATLControl.cpp:1227-1277 | an accepted release began its check, noted the latch and committed in this order, saw no fault active at its commit, and the latch never moved from the note to the commit |
| `ReleaseHistory.NoRequestFaultUnderRelease` | safety-core/decision-makers/atl/sdm/ATLControl.cpp:1149-1277 | from the check of an accepted release to its commit no fault but the heartbeat was active at any moment |
| `ReleaseHistory.ClearedLateIff` | safety-core/decision-makers/atl/sdm/ATLControl.cpp:1232-1265 | it clears a cause latched after its check began exactly when that is the heartbeat fault, marked before the latch was noted |
| `ReleaseHistory.LateHeartbeatCameBack` | safety-core/decision-makers/atl/sdm/ATLControl.cpp:1232-1265 | and then the heartbeat came back before the commit |
| `ReleaseHistory.LateHeartbeatFaultIsReleased` | safety-core/decision-makers/atl/sdm/ATLControl.cpp:1232-1265 | a run on which it does |
| `AtlSafety.MuteMeansSafe` | safety-core/decision-makers/atl/sdm/ATLControl.cpp:2881-2957 | a MUTE is settled on only after, in this order, a look at the trailer with a forklift in, nobody in the trailer and no violation, a look at the latch with nothing latched and no latching fault active, and a look at the heartbeat below its warning tier; no release comes in between |
| `AtlSafety.MuteMeansNoHold` | safety-core/decision-makers/atl/sdm/ATLControl.cpp:2881-2957 | in every decision that settles on MUTE there was an instant with no hold in force: nothing latched, no PSS sub-cause, heartbeat not in its band |
| `RequestEvents.MuteSeesAPrefix` | safety-core/decision-makers/atl/sdm/ATLControl.cpp:1834-1952 | over every interleaving that state is the trailer at rest, or the trailer after some prefix of the events of one request |
| `RequestEvents.MutesMidwayIff` | safety-core/decision-makers/atl/sdm/ATLControl.cpp:1834-1952 | after n events of a request, undisturbed, a decision settles on MUTE exactly when those n events leave the trailer safe and none of them drifted |
| `RequestEvents.EventsAre` | safety-core/decision-makers/atl/sdm/ATLControl.cpp:1834-1952 | n turns of the event loop leave the fold of the first n events, and latch exactly when one of them drifts |
| `RequestEvents.HalfARequestMutes` | safety-core/decision-makers/atl/sdm/ATLControl.cpp:1834-1952 | a request that may be muted neither before nor after, and is between its two events |
| `AtlSafety.SentMuteWasChosen` | safety-core/decision-makers/atl/sdm/ATLControl.cpp:2927-2948 | every MUTE sent was settled on by an earlier step |
| `AtlSafety.HeldUntilRelease` | safety-core/decision-makers/atl/sdm/ATLControl.cpp:1185-1194 | once a hold has been sent for a latched state, no MUTE is chosen or sent until a release is accepted |
| `AtlSafety.LatchBlocksMute` | safety-core/decision-makers/atl/sdm/ATLControl.cpp:1075-1082 | after a cause latched by the decision's last look at the latch, MUTE needs an accepted release and then an event putting a forklift in anew, both before that look; after one latched later, MUTE is settled on with the hold owed |
| `AtlSafety.LossBlocksMute` | safety-core/decision-makers/atl/sdm/ATLControl.cpp:1593-1624 | end to end over every interleaving, event by event and load by load: loss of a source, then in this order its return, an accepted release, a forklift entering and the last look at the latch, before any MUTE; a loss after that look leaves the hold owed |
| `SensorHistory.FailedIff` | safety-core/decision-makers/atl/sdm/ATLControl.cpp:639-756 | a reviewed sensor counts as failed exactly by evidence against it that nothing has answered since, with a pending initialisation excusing all but an explicit verdict |
| `SensorHistory.VerdictsAreNeverSkipped` | safety-core/decision-makers/atl/sdm/ATLControl.cpp:1733-1767 | over every run the sensor record and the AI condition are folds over all entries read, whichever path each request took |
| `SensorHistory.ReleaseNeedsAnswers` | safety-core/decision-makers/atl/sdm/ATLControl.cpp:1149-1183 | all-failed holds exactly when every reviewed sensor has unanswered evidence, and no release is accepted then, nor while the last verdict is INVALID |
| `GatewaySequence.SequenceObserver.Observe` | safety-core/decision-makers/common/sdm_gateway_decision_sequence.hpp:37-71 | the result and the new state of one packet |
| `GatewaySequence.SequenceObserver.Reset` | safety-core/decision-makers/common/sdm_gateway_decision_sequence.hpp:28-35 | back to the state before any packet |
| `GatewaySequence.LosslessIsAccepted` | safety-core/decision-makers/common/sdm_gateway_decision_sequence.hpp:37-71 | a lossless stream is accepted packet by packet, across any number of wraps |
| `GatewaySequence.DroppedPacketsDoNotMatter` | safety-core/decision-makers/common/sdm_gateway_decision_sequence.hpp:37-71 | deleting every stale, duplicate and invalid packet changes no other result and leaves the same state |
| `GatewaySequence.NoRepeatUnlessLeftOrWrapped` | safety-core/decision-makers/common/sdm_gateway_decision_sequence.hpp:37-71 | of two packets recorded in an epoch the later has the higher number, unless from the first on another epoch or MAX was recorded |
| `GatewaySequence.CopyIsRecordedIff` | safety-core/decision-makers/common/sdm_gateway_decision_sequence.hpp:50-70 | a copy of a recorded packet is recorded again exactly when the observer is then in another epoch, at MAX, or below its number |
| `GatewaySequence.CopyIsDropped` | safety-core/decision-makers/common/sdm_gateway_decision_sequence.hpp:50-70 | it is dropped whenever neither another epoch nor MAX was recorded since |
| `GatewaySequence.OtherEpochReopensNumbers` | safety-core/decision-makers/common/sdm_gateway_decision_sequence.hpp:50-56 | three packets on which a number of an epoch is accepted twice |
| `GatewaySequence.RepeatIsDuplicateIff` | safety-core/decision-makers/common/sdm_gateway_decision_sequence.hpp:58-70 | a packet delivered twice in a row is a duplicate exactly when its number is not MAX; a repeat of MAX reads as a gap |
| `TileGeometry.LargestDivisor` | safety-core/components/ai-monitor/include/tile_geometry.h:56-66 | the largest admissible divisor up to the cap, or 0 when there is none |
| `TileGeometry.GpuPlaneGrid` | safety-core/components/ai-monitor/include/tile_geometry.h:133-160 | rows per thread, grid and per-tile block counts, for any plane and block height |
| `TileGeometry.GridAlwaysCovers` | safety-core/components/ai-monitor/include/tile_geometry.h:133-160 | validated or not, every pixel falls in some block and every block in some tile |
| `TileGeometry.AcceptedIff` | safety-core/components/ai-monitor/include/tile_geometry.h:74-100 | a frame is accepted exactly when its sides are positive multiples of 960 and 120 |
| `TileGeometry.AcceptedPlanesAreExact` | safety-core/components/ai-monitor/include/tile_geometry.h:74-100 | luma and half-size chroma planes of an accepted frame cut into whole tiles of whole blocks |
| `TileGeometry.BlocksPartitionThePlane` | safety-core/components/ai-monitor/include/tile_geometry.h:133-160 | a pixel of the plane is in exactly one block, a block holds only pixels of the plane, all in the tile its index divides to |
| `TileGeometry.EveryTileGetsItsBlocks` | safety-core/components/ai-monitor/include/tile_geometry.h:133-160 | every tile gets blocks_x * blocks_y blocks |
| `TileGeometry.TilesComposeToThePlane` | safety-core/components/ai-monitor/include/tile_geometry.h:17-24 | for any integer pixel function, block to tile to frame adds up to one pass over the plane |
| `TileGeometry.TileSumIsOverItsBlocks` | safety-core/components/ai-monitor/include/tile_geometry.h:133-160 | what a tile adds up are exactly the blocks whose index divides to it |
| `TileGeometry.AcceptedFramesCompose` | safety-core/components/ai-monitor/include/tile_geometry.h:17-24 | the composition on both planes of every accepted frame |
| `EventMatching.SortedSorts` | closed-loop-testing/regression-reporter/srr-service/srr/aggregator.py:296-299 | the same times, in order |
| `EventMatching.ClosestUnused` | closed-loop-testing/regression-reporter/srr-service/srr/aggregator.py:300-311 | the closest unused event within the delay, the earliest of the closest, or none if there is none |
| `EventMatching.MatchFirstBa` | closed-loop-testing/regression-reporter/srr-service/srr/aggregator.py:290-342 | the matching is the greedy one, and the counts are those of its matched and unused events |
| `EventMatching.GreedyIsFeasible` | closed-loop-testing/regression-reporter/srr-service/srr/aggregator.py:290-342 | pairs within the delay, and no event used twice |
| `EventMatching.GreedyIsMaximal` | closed-loop-testing/regression-reporter/srr-service/srr/aggregator.py:290-342 | no unmatched ground-truth event and unused event within the delay of each other |
| `EventMatching.CountsAddUp` | closed-loop-testing/regression-reporter/srr-service/srr/aggregator.py:328-342 | matched, missed and extra account for every event on both sides |
| `EventMatching.GreedyIsHalfOptimal` | closed-loop-testing/regression-reporter/srr-service/srr/aggregator.py:290-342 | at least half as many matches as any feasible matching |
| `EventMatching.HalfIsTight` | closed-loop-testing/regression-reporter/srr-service/srr/aggregator.py:290-342 | an input where greedy choice matches one of two |
| `EventMatching.GreedyIsOptimalForLoneGroundTruth` | closed-loop-testing/regression-reporter/srr-service/srr/aggregator.py:290-342 | greedy choice is optimal when no analytics event is within the delay of two ground-truth events |
| `EventMatching.GreedyIsOptimalForLoneEvents` | closed-loop-testing/regression-reporter/srr-service/srr/aggregator.py:290-342 | and when no ground-truth event is within the delay of two analytics events |
| `MismatchWindows.FindMismatchWindows` | closed-loop-testing/regression-reporter/srr-service/srr/aggregator.py:253-280 | the windows are exactly the maximal mismatch runs that last long enough, in order, each with its duration and dominant direction |
| `MismatchWindows.WindowsAreDisjoint` | closed-loop-testing/regression-reporter/srr-service/srr/aggregator.py:253-280 | any two windows are disjoint and in time order |
| `MismatchWindows.MismatchIsInARun` | closed-loop-testing/regression-reporter/srr-service/srr/aggregator.py:253-280 | every mismatching frame lies in a maximal run |
| `ScoredFrames.EdgeOnlyIffFlips` | closed-loop-testing/regression-reporter/srr-service/srr/aggregator.py:996-1026 | for any number of people a frame is edge_only exactly when some reading of the near-edge people would flip its expected state |
| `ScoredFrames.ScoredIsImmune` | closed-loop-testing/regression-reporter/srr-service/srr/aggregator.py:1055-1057 | a scored frame keeps its expected state under every reading of the people at the edge |
| `ScoredFrames.MarkSettling` | closed-loop-testing/regression-reporter/srr-service/srr/aggregator.py:1051-1054 | a frame settles exactly when it comes within the allowance of some change |
| `ScoredFrames.ScoreAddsUp` | closed-loop-testing/regression-reporter/srr-service/srr/aggregator.py:1055-1073 | scored, edge and settle frames partition the clip; over plus under are the scored mismatches; the two expected counts are the scored frames |
| `ReactionLag.ReactionIntervals` | closed-loop-testing/regression-reporter/srr-service/srr/aggregator.py:1087-1104 | the lags, missed and untimed intervals are those of the outcomes of the intervals in order |
| `ReactionLag.BoundsAreIntervals` | closed-loop-testing/regression-reporter/srr-service/srr/aggregator.py:1087-1092 | consecutive bounds delimit a maximal interval of constant expected state |
| `ReactionLag.EveryIntervalIsBetweenBounds` | closed-loop-testing/regression-reporter/srr-service/srr/aggregator.py:1087-1092 | every maximal interval appears, exactly once |
| `ReactionLag.OutcomeMeaning` | closed-loop-testing/regression-reporter/srr-service/srr/aggregator.py:1082-1104 | a lag ends at the first agreeing frame inside its own interval, a missed interval has none, untimed means begun at the edge |
| `ReactionLag.EveryIntervalAccounted` | closed-loop-testing/regression-reporter/srr-service/srr/aggregator.py:1087-1104 | mute lags, unmute lags, missed and untimed add up to the intervals |
| `ProximityGate.ProximityGateController.OnDecision` | closed-loop-testing/forklift-controller/proximity_gate.py:61-86 | a decision asking for a level is taken unless it is the last one republished; anything else only shows the link alive |
| `ProximityGate.ProximityGateController.QueryLevel` | closed-loop-testing/forklift-controller/proximity_gate.py:97-110 | the level answered, and the latching of a link found dead |
| `ProximityGate.ProximityGateController.Limit` | closed-loop-testing/forklift-controller/proximity_gate.py:112-124 | the command let through at the level in force |
| `ProximityGate.LimitedIsSafe` | closed-loop-testing/forklift-controller/proximity_gate.py:112-124 | zero at STOP, within reduce_speed at REDUCE, never faster than asked |
| `ProximityGate.LimitedKeepsCurve` | closed-loop-testing/forklift-controller/proximity_gate.py:112-124 | slowing keeps the ratio of linear to angular velocity |
| `ProximityGate.LevelIsHistory` | closed-loop-testing/forklift-controller/proximity_gate.py:57-110 | under a non-decreasing clock the level is a function of the whole history of decisions, liveness messages and queries |
| `ProximityGate.NormalExactlyWhen` | closed-loop-testing/forklift-controller/proximity_gate.py:97-110 | an active gate answers NORMAL exactly when the latest decision is NORMAL, no query since found the link dead and both holds have run out |
| `ProximityGate.UnqueriedSilenceIsForgotten` | closed-loop-testing/forklift-controller/proximity_gate.py:97-104 | a silence that no query looks into is not latched |
| `PathFollower.GetSegmentFlag` | closed-loop-testing/forklift-controller/robot_controller.py:727-737 | the direction of the segment whose running total first passes the pose |
| `PathFollower.FlagOfSegment` | closed-loop-testing/forklift-controller/robot_controller.py:727-737 | a pose of segment k carries segment k's direction |
| `PathFollower.NearestPose` | closed-loop-testing/forklift-controller/path_resume.py:28-41 | the pose with the lowest score, the earlier on a tie |
| `PathFollower.SkipAhead` | closed-loop-testing/forklift-controller/robot_controller.py:541-573 | the closest pose ahead within the window with no direction change up to it |
| `PathFollower.FindCarrot` | closed-loop-testing/forklift-controller/robot_controller.py:643-672 | the first point far enough along the path, in the same direction and within the window |
| `PathFollower.RobotController.ResetPath` | closed-loop-testing/forklift-controller/robot_controller.py:389-414 | drive on from the pose after the nearest, or from the start without odometry |
| `PathFollower.RobotController.ResumeOnPath` | closed-loop-testing/forklift-controller/robot_controller.py:455-471 | the index moves only from the start, to the pose after the nearest |
| `PathFollower.RobotController.UpdateTarget` | closed-loop-testing/forklift-controller/robot_controller.py:541-641 | skip ahead, give up at the end, move on to the next pose, or keep the target: each exactly when |
| `PathFollower.RobotController.Shape` | closed-loop-testing/forklift-controller/robot_controller.py:643-708 | the command drives the way the segment says, at least at the floor speed and within the turning limit |
| `PathFollower.RobotController.OnClock` | closed-loop-testing/forklift-controller/robot_controller.py:365-387 | a clock that ran back, or came again after a pause, restarts the path; any message marks the simulation running |
| `PathFollower.RobotController.OnOdometry` | closed-loop-testing/forklift-controller/robot_controller.py:416-453 | a jump restarts the path, and the first message may pick the path up |
| `PathFollower.RobotController.OnCommand` | closed-loop-testing/forklift-controller/robot_controller.py:256-316 | the state and speed factor each command leads to; entering a stopped state, and a reset, publish a stop; an unknown word sets the speed factor only |
| `PathFollower.RobotController.OnProximity` | closed-loop-testing/forklift-controller/robot_controller.py:318-358 | a decision for this truck and the lookup after it, or the sign of life of another's, which is followed by none |
| `PathFollower.RobotController.ControlLoop` | closed-loop-testing/forklift-controller/robot_controller.py:479-714 | per tick: the index moves on from where it was, or from 0 after a loop wrap; past more than one pose only within one direction; the command is what the gate lets through of what was asked, and a stop at STOP |
| `DriveHistory.Drive` | closed-loop-testing/forklift-controller/robot_controller.py:256-714 | any inputs in any order, from a fresh controller, leave a log that chains up and whose records are honest: what the index did, what was asked and published, and exactly what the gate was told and asked |
| `DriveHistory.IndexFallsOnlyOnRestartOrWrap` | closed-loop-testing/forklift-controller/robot_controller.py:504-532 | over every run the index stays within 0..len and falls only on a restart or a loop wrap |
| `DriveHistory.EveryReversalIsCrossed` | closed-loop-testing/forklift-controller/robot_controller.py:541-573 | between two restarts or wraps every change of direction the truck gets past is crossed by one record, from the last pose before it to the first after it |
| `DriveHistory.TickObeysHistory` | closed-loop-testing/forklift-controller/robot_controller.py:479-513 | an active gate is asked first in every tick, and its answer is the one the whole history calls for |
| `DriveHistory.StopHoldsTheTruck` | closed-loop-testing/forklift-controller/robot_controller.py:479-513 | a tick less than stop_hold_s after a STOP or fault was taken, or after the link was found dead and before a new decision, publishes nothing or a stop and leaves the index |
| `DriveHistory.CommandObeysHistory` | closed-loop-testing/forklift-controller/robot_controller.py:643-714 | under a clock that never runs back, the command of a tick that shaped one is what was asked for limited to the level the whole history calls for at the tick's last query |
| `DriveHistory.CommandKeepsTheCap` | closed-loop-testing/forklift-controller/robot_controller.py:643-714 | so it is a stop at STOP, within reduce_speed below NORMAL, and what was asked for at NORMAL |
| `DriveHistory.EveryCommandIsLimited` | closed-loop-testing/forklift-controller/robot_controller.py:643-714 | over every run each command is a stop, or what was asked slowed along the same curve, and just what was asked without a gate |
| `PathFollower.ReversalIsNeverSkipped` | closed-loop-testing/forklift-controller/robot_controller.py:541-573 | over every drive, each change of direction passed was aimed at pose by pose, never jumped |
| `NavMesh.FileTriangle` | closed-loop-testing/regression-reporter/scenarios/tools/randomize_paths.py:197-207 | a triangle is filed under exactly the cells its bounding box touches |
| `NavMesh.Mesh.Walkable` | closed-loop-testing/regression-reporter/scenarios/tools/randomize_paths.py:209-218 | the answer of the index: some triangle filed under the point's cell accepts it |
| `NavMesh.GridIsSound` | closed-loop-testing/regression-reporter/scenarios/tools/randomize_paths.py:209-218 | the index answers true only where a scan of all triangles would |
| `NavMesh.GridFindsEveryPoint` | closed-loop-testing/regression-reporter/scenarios/tools/randomize_paths.py:209-218 | the index finds every interior and edge point of every non-degenerate triangle |
| `NavMesh.TouchesIff` | closed-loop-testing/regression-reporter/scenarios/tools/randomize_paths.py:197-211 | a triangle is filed under a point's cell exactly when no cell border separates the point from its bounding box |
| `NavMesh.AgreeIff` | closed-loop-testing/regression-reporter/scenarios/tools/randomize_paths.py:189-218 | index and scan agree at a point exactly when no triangle accepts it or one that does is not cut off from it by a cell border |
| `NavMesh.LostOnlyInMargin` | closed-loop-testing/regression-reporter/scenarios/tools/randomize_paths.py:189-218 | where they disagree the point is cut off and outside the bounding box, by at most 2e-6 of its size |
| `NavMesh.AgreeAwayFromBorders` | closed-loop-testing/regression-reporter/scenarios/tools/randomize_paths.py:189-218 | they agree at every point with no cell border within 2e-6 of the longest box side |
| `NavMesh.MarginIsLost` | closed-loop-testing/regression-reporter/scenarios/tools/randomize_paths.py:189-218 | a point in that margin that the scan accepts and the index loses |
| `Tripwire.WrittenWireIsTheTrailer` | closed-loop-testing/regression-reporter/srr-service/srr/tripwire.py:40-79 | the wire written for a zone, read back, has exactly the points strictly beyond the trailer-side edge inside |
| `Tripwire.FlatZoneHasNoInside` | closed-loop-testing/regression-reporter/srr-service/srr/tripwire.py:66-79 | a zone without height has nothing inside its wire |
| `Tripwire.RoiAndTrailerDisjointIff` | closed-loop-testing/isaac-sim/sil/calibration/build_vss_calibration.py:60-79 | ROI and trailer share no point exactly when the x sides are in order or the zone has no height |
| `Tripwire.SwapChangesNothing` | closed-loop-testing/regression-reporter/srr-service/srr/tripwire.py:40-95 | swapping the ends of a wire with its arrow head off the line changes no side, inside or distance answer |
| `Tripwire.UnsafeSwapFlips` | closed-loop-testing/regression-reporter/srr-service/srr/tripwire.py:40-56 | for every other wire, swapping the ends flips an answer |
| `ZoneBridge.SafetyRosBridge.PublishCommand` | closed-loop-testing/comm-layer/src/ros_bridge/safety_ros_bridge.py:396-405 | one command moves its own zone's mirror and leaves the other |
| `ZoneBridge.SafetyRosBridge.RobotIsMuted` | closed-loop-testing/comm-layer/src/ros_bridge/safety_ros_bridge.py:337-341 | the mute of the robot's own zone, zone 1 for a robot of none |
| `ZoneBridge.SafetyRosBridge.FollowZone1WithoutZone2` | closed-loop-testing/comm-layer/src/ros_bridge/safety_ros_bridge.py:346-360 | zone 2 robots follow zone 1 and no other robot changes |
| `ZoneBridge.MutedByOwnLastCommand` | closed-loop-testing/comm-layer/src/ros_bridge/safety_ros_bridge.py:337-402 | over every interleaving a zone is muted exactly when its own last deciding command says so |
| `ZoneBridge.ZonesDoNotLeak` | closed-loop-testing/comm-layer/src/ros_bridge/safety_ros_bridge.py:337-402 | a zone's state is the fold of its own commands alone |
| `ZoneBridge.RepeatChangesNothing` | closed-loop-testing/comm-layer/src/ros_bridge/safety_ros_bridge.py:362-402 | delivering a command twice in place changes no state from there on |

## Left out

- A packet up to its events is not split further, for the reason given above.
- AtlControl.Controller.EvaluateDecision: proved for a call that no other thread interrupts; interruptions are steps of the run, and `Uninterrupted.EvaluationIsDecided` joins the two.
- AtlControl.Controller.BeginSafeRelease: likewise, joined to the run by `Uninterrupted.CheckIsChecked`.
- Transmission: whether a command reaches the PLC is an input of the release only; a failed hold is repeated by the next evaluation, which sends one whenever the hold is in force.
- AtlControl.Controller.ProcessDecisionRequest: the PSS suppression flag is set when the ERROR sub-cause is marked and not a moment before, which no other step of the same packet can tell.
- The object records attached to ATL commands, their acknowledgements and retries, and the rate limit on repeated release responses, which changes a log line only.
- The proximity and combined decision makers, which share the modelled header and latch design.
- Null arguments: a missing request is an Option, a missing record is not modelled.
- SubCauses.PssSubCausesEvaluate: sub-causes are members of a set, so the bit values themselves are not modelled.
- TileGeometry.GpuPlaneGrid: integers are unbounded; overflow of a plane side near the 32-bit limit is not modelled.
- TileGeometry.TilesComposeToThePlane: sums are integers; the floating-point finish of the composed statistics is left out.
- EventMatching.MatchFirstBa: per-event records beyond the matched index, and the rounding of reported delays, are left out.
- ReactionLag.ReactionIntervals: percentiles over the lags and the rounding of reported times are left out; a clip without frames is refused before this point.
- MismatchWindows.FindMismatchWindows: the window's clip-relative start and end, rounded for the report, are left out.
- ProximityGate.ProximityGateController.Limit: requires a positive reduce_speed, which the deployment loader enforces.
- PathFollower.RobotController.ControlLoop: square roots and angles are inputs per pose; visualisation and state messages are left out.
- DriveHistory.Drive: parsing of messages and addresses is left out; one that does not decode, and a command for another robot, have no effect.
- Tripwire.SwapChangesNothing: the two lengths that hypot returns are inputs.
- ZoneBridge.SafetyRosBridge.PublishCommand: callbacks and ROS publication are left out.
- Phase 2 perception statistics, report rendering, ROS, Kafka, OPC UA and GPU plumbing.

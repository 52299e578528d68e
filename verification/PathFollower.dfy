/** The controller that drives a truck along its path: which pose it aims at, how it
    shapes the speed, and how it obeys the proximity gate. */
module PathFollower {
  import opened Options
  import opened ProximityGate

  /** A run of poses driven in one direction. The flag may be missing. */
  datatype Segment = Segment(poseCount: int, reverse: Option<bool>)

  function Total(segments: seq<Segment>, n: nat): int
    requires n <= |segments|
  {
    if n == 0 then 0 else Total(segments, n - 1) + segments[n - 1].poseCount
  }

  /** The direction flag of the first segment, from k on, whose running total passes the pose. */
  function FlagFrom(segments: seq<Segment>, pose: int, k: nat): Option<bool>
    requires k <= |segments|
    decreases |segments| - k
  {
    if k == |segments| then Some(false)
    else if pose < Total(segments, k + 1) then segments[k].reverse
    else FlagFrom(segments, pose, k + 1)
  }

  function Flag(segments: seq<Segment>, pose: int): Option<bool> {
    FlagFrom(segments, pose, 0)
  }

  function IsReverse(segments: seq<Segment>, pose: int): bool {
    Flag(segments, pose) == Some(true)
  }

  method GetSegmentFlag(segments: seq<Segment>, pose: int) returns (flag: Option<bool>)
    ensures flag == Flag(segments, pose)
  {
    if segments == [] {
      return Some(false);
    }
    var cumulative := 0;
    for k := 0 to |segments|
      invariant cumulative == Total(segments, k)
      invariant Flag(segments, pose) == FlagFrom(segments, pose, k)
    {
      cumulative := cumulative + segments[k].poseCount;
      if pose < cumulative {
        return segments[k].reverse;
      }
    }
    return Some(false);
  }

  /** With no empty or negative segments, pose p of segment k has segment k's flag,
      and a pose past the last segment drives forward. */
  lemma {:induction false} FlagOfSegment(segments: seq<Segment>, pose: int, j: nat, k: nat)
    requires forall i :: 0 <= i < |segments| ==> segments[i].poseCount >= 0
    requires j <= k < |segments|
    requires Total(segments, k) <= pose < Total(segments, k + 1)
    ensures FlagFrom(segments, pose, j) == segments[k].reverse
    decreases k - j
  {
    if j < k {
      TotalGrows(segments, j + 1, k);
      FlagOfSegment(segments, pose, j + 1, k);
    }
  }

  lemma {:induction false} TotalGrows(segments: seq<Segment>, j: nat, k: nat)
    requires forall i :: 0 <= i < |segments| ==> segments[i].poseCount >= 0
    requires j <= k <= |segments|
    ensures Total(segments, j) <= Total(segments, k)
  {
    if j < k {
      TotalGrows(segments, j, k - 1);
    }
  }

  /** Poses first..last all carry the direction flag of the first. */
  ghost predicate SameDirection(segments: seq<Segment>, first: nat, last: nat) {
    forall i :: first <= i <= last ==> Flag(segments, i) == Flag(segments, first)
  }

  // ----- resuming -----

  /** The pose with the lowest score; on a tie the earlier one. */
  method NearestPose(scores: seq<real>) returns (best: nat)
    requires |scores| > 0
    ensures best < |scores|
    ensures forall i :: 0 <= i < |scores| ==> scores[best] <= scores[i]
    ensures forall i :: 0 <= i < best ==> scores[best] < scores[i]
  {
    best := 0;
    for i := 1 to |scores|
      invariant best < i
      invariant forall k :: 0 <= k < i ==> scores[best] <= scores[k]
      invariant forall k :: 0 <= k < best ==> scores[best] < scores[k]
    {
      if scores[i] < scores[best] {
        best := i;
      }
    }
  }

  // ----- skipping ahead -----

  const SKIP_WINDOW: nat := 10

  /** Pose i may be skipped to from pose idx: it is within the window and no
      direction change lies between. */
  ghost predicate Reachable(segments: seq<Segment>, count: nat, idx: nat, i: nat) {
    idx <= i < count && i < idx + SKIP_WINDOW && SameDirection(segments, idx, i)
  }

  method SkipAhead(segments: seq<Segment>, idx: nat, dist: seq<real>) returns (best: nat)
    requires idx < |dist|
    ensures Reachable(segments, |dist|, idx, best)
    ensures forall i: nat :: Reachable(segments, |dist|, idx, i) ==> dist[best] <= dist[i]
    ensures forall i: nat :: Reachable(segments, |dist|, idx, i) && i < best ==> dist[best] < dist[i]
  {
    var current := GetSegmentFlag(segments, idx);
    best := idx;
    var end := if idx + SKIP_WINDOW < |dist| then idx + SKIP_WINDOW else |dist|;
    var i := idx + 1;
    while i < end
      invariant idx < i
      invariant idx < end ==> i <= end
      invariant idx <= best < i && SameDirection(segments, idx, i - 1)
      invariant forall k :: idx <= k < i ==> dist[best] <= dist[k]
      invariant forall k :: idx <= k < best ==> dist[best] < dist[k]
    {
      var flag := GetSegmentFlag(segments, i);
      if flag != current {
        assert forall k: nat :: Reachable(segments, |dist|, idx, k) ==> k < i;
        return;
      }
      if dist[i] < dist[best] {
        best := i;
      }
      i := i + 1;
    }
  }

  /** Pose `best` is the closest that may be skipped to, and strictly closer than idx. */
  ghost predicate SkipsTo(segments: seq<Segment>, idx: nat, dist: seq<real>, best: nat) {
    && idx < best && Reachable(segments, |dist|, idx, best)
    && (forall i: nat :: Reachable(segments, |dist|, idx, i) ==> dist[best] <= dist[i])
    && (forall i: nat :: Reachable(segments, |dist|, idx, i) && i < best ==> dist[best] < dist[i])
  }

  /** The skip-ahead applies: the target is far, not among the last, and some pose
      that may be skipped to is closer. */
  ghost predicate Skips(segments: seq<Segment>, idx: nat, dist: seq<real>)
    requires idx < |dist|
  {
    dist[idx] > 1.0 && idx < |dist| - 3 && exists i: nat :: Reachable(segments, |dist|, idx, i) && dist[i] < dist[idx]
  }

  /** How close the truck has come to its target, and for how many ticks it has been
      drawing away again. */
  datatype Approach = Approach(closest: Option<real>, awayTicks: nat)

  function Track(a: Approach, distance: real): Approach {
    if a.closest.None? || distance < a.closest.value then Approach(Some(distance), 0)
    else if distance > a.closest.value + 0.2 then Approach(a.closest, a.awayTicks + 1)
    else a
  }

  /** The truck passed its target: it was close, and has been drawing away since. */
  predicate Passed(a: Approach, distance: real) {
    a.awayTicks > 20 && a.closest.Some? && a.closest.value < 0.5 && distance > a.closest.value + 0.3
  }

  // ----- pure pursuit -----

  const CARROT_WINDOW: nat := 15

  /** The point to steer at: ahead of pose idx, in the same direction, at most the
      window away, and the first one far enough along the path. */
  method FindCarrot(segments: seq<Segment>, count: nat, idx: nat, stepLen: seq<real>, lookahead: real)
    returns (carrot: nat)
    requires idx < count && |stepLen| == count
    ensures idx <= carrot < count && carrot <= idx + CARROT_WINDOW && SameDirection(segments, idx, carrot)
    ensures forall k :: idx < k < carrot ==> PathLength(stepLen, idx, k) < lookahead
    ensures carrot + 1 < count && carrot < idx + CARROT_WINDOW && Flag(segments, carrot + 1) == Flag(segments, idx) ==>
              carrot > idx && PathLength(stepLen, idx, carrot) >= lookahead
  {
    carrot := idx;
    var accumulated := 0.0;
    var current := GetSegmentFlag(segments, idx);
    var i := idx;
    while i < idx + CARROT_WINDOW && i < count - 1
      invariant idx <= i <= idx + CARROT_WINDOW && i < count
      invariant carrot == i && SameDirection(segments, idx, i)
      invariant accumulated == PathLength(stepLen, idx, i)
      invariant forall k :: idx < k <= i ==> PathLength(stepLen, idx, k) < lookahead
      decreases count - i
    {
      var next := GetSegmentFlag(segments, i + 1);
      if next != current {
        return;
      }
      accumulated := accumulated + stepLen[i];
      carrot := i + 1;
      if accumulated >= lookahead {
        return;
      }
      i := i + 1;
    }
  }

  function PathLength(stepLen: seq<real>, first: nat, last: nat): real
    requires last <= |stepLen|
    decreases last
  {
    if last <= first then 0.0 else PathLength(stepLen, first, last - 1) + stepLen[last - 1]
  }

  // ----- speed -----

  const MIN_FORWARD: real := 0.15

  function Max(x: real, y: real): real {
    if x < y then y else x
  }

  function Min(x: real, y: real): real {
    if x < y then x else y
  }

  /** The linear speed before the gate: slowed near the target and when turning,
      then floored so that the truck can steer. */
  function ShapedLinear(reverse: bool, base: real, factor: real, distance: real, errorDeg: real): real {
    var asked := (if reverse then -base else base) * factor;
    var near := if distance < 0.5 then asked * Max(0.4, distance / 0.5) else asked;
    var turning := if errorDeg > 60.0 then near * 0.2 else if errorDeg > 30.0 then near * 0.4 else near;
    if reverse then Min(turning, -MIN_FORWARD) else Max(turning, MIN_FORWARD)
  }

  function ShapedAngular(maxAngular: real, headingError: real): real {
    Max(-maxAngular, Min(maxAngular, headingError * 1.2))
  }

  /** The command always drives the way the segment says, at least the floor speed. */
  lemma ShapedKeepsDirection(reverse: bool, base: real, factor: real, distance: real, errorDeg: real)
    ensures var v := ShapedLinear(reverse, base, factor, distance, errorDeg);
            if reverse then v <= -MIN_FORWARD else v >= MIN_FORWARD
  {
  }

  // ----- the controller -----

  /** The gate after a message on its link and, if it was for this truck, the lookup
      that follows it. */
  function LinkState(l: Limits, g: Gate, d: Decision, mine: bool, now: real, nowAgain: real): Gate {
    var heard := if mine then AfterDecision(g, now, d) else AfterHeard(g, now);
    if mine && heard.latest.Some? then AfterQuery(l, heard, nowAgain) else heard
  }

  datatype Path = Path(count: nat, segments: seq<Segment>, loop: bool)

  datatype Tuning = Tuning(
    baseLinear: real, baseAngular: real, positionTolerance: real, endTolerance: real, endPoseCount: int,
    spiralTimeout: real, spiralDistance: real)

  /** What one tick reads from outside: the clocks, and the geometry of the truck
      against each pose. */
  datatype Tick = Tick(
    wallNow: real, now: real, gateNow: real, gateNowAgain: real,
    dist: seq<real>, stepLen: seq<real>, headingError: seq<real>, headingErrorDeg: seq<real>)

  predicate FitsPath(t: Tick, p: Path) {
    |t.dist| == p.count && |t.stepLen| == p.count && |t.headingError| == p.count && |t.headingErrorDeg| == p.count
  }

  const ZERO := Twist(0.0, 0.0)

  /** The operator's state machine. */
  datatype DriveState = IdleState | MovingState | PausedState | SlowState

  datatype Command = Proceed | Halt | Slow | GoIdle | Restart | Unknown

  function StateFactor(s: DriveState): real {
    match s
    case MovingState => 1.0
    case SlowState => 0.3
    case _ => 0.0
  }

  function Clamped(x: real): real {
    Max(0.0, Min(1.0, x))
  }

  const CLOCK_TIMEOUT: real := 2.0
  const ODOM_JUMP: real := 5.0

  /** Where a restart may put the index: the start, or the pose after a nearest one. */
  ghost predicate RestartsAt(odom: bool, scores: seq<real>, idx: nat) {
    idx == 0 || (odom && 1 <= idx <= |scores| && forall i :: 0 <= i < |scores| ==> scores[idx - 1] <= scores[i])
  }

  class RobotController {
    const path: Path
    const tuning: Tuning
    const gate: ProximityGateController?
    var currentPoseIdx: nat
    var completed: bool
    var minDistance: Option<real>
    var increasingCount: nat
    var poseStart: Option<real>
    var lastSimTime: Option<real>
    var lastClockWall: Option<real>
    var simRunning: bool
    var odomReceived: bool
    var positionKnown: bool
    var state: DriveState
    var speedFactor: real

    ghost predicate Valid()
      reads this
    {
      currentPoseIdx <= path.count && (gate != null ==> gate.limits.reduceSpeed > 0.0)
    }

    predicate Stopped()
      reads this
    {
      state.IdleState? || state.PausedState?
    }

    constructor (p: Path, t: Tuning, g: ProximityGateController?)
      requires g != null ==> g.limits.reduceSpeed > 0.0
      ensures Valid() && path == p && tuning == t && gate == g
      ensures currentPoseIdx == 0 && !completed && state == IdleState && !odomReceived && lastClockWall.None?
    {
      path, tuning, gate := p, t, g;
      currentPoseIdx, completed, minDistance, increasingCount, poseStart := 0, false, None, 0, None;
      lastSimTime, lastClockWall, simRunning, odomReceived, positionKnown := None, None, false, false, false;
      state, speedFactor := IdleState, 1.0;
    }

    /** Drive on from the pose after the nearest one. */
    method ResetPath(scores: seq<real>) returns (cmd: Twist)
      requires Valid() && |scores| == path.count
      modifies this
      ensures Valid() && cmd == ZERO && !completed && state == MovingState
      ensures RestartsAt(odomReceived, scores, currentPoseIdx)
      ensures odomReceived && path.count > 0 ==> currentPoseIdx > 0
      ensures odomReceived == old(odomReceived) && speedFactor == old(speedFactor) && !simRunning && lastClockWall.None?
    {
      var best := 0;
      if odomReceived && path.count > 0 {
        var nearest := NearestPose(scores);
        best := nearest + 1;
      }
      currentPoseIdx := best;
      completed := false;
      minDistance := None;
      increasingCount := 0;
      poseStart := None;
      positionKnown := false;
      simRunning := false;
      lastSimTime := None;
      lastClockWall := None;
      state := MovingState;
      cmd := ZERO;
    }

    /** The first odometry picks up a truck that is already out on its path. */
    method ResumeOnPath(farFromStart: bool, scores: seq<real>)
      requires Valid() && |scores| == path.count
      modifies this`currentPoseIdx
      ensures Valid()
      ensures currentPoseIdx == old(currentPoseIdx) ||
              (old(currentPoseIdx) == 0 && farFromStart && RestartsAt(true, scores, currentPoseIdx))
    {
      if path.count == 0 || currentPoseIdx != 0 || !farFromStart {
        return;
      }
      var nearest := NearestPose(scores);
      currentPoseIdx := nearest + 1;
    }

    /** A simulation clock message; a clock that ran back, or came again after a long
        pause, restarts the path. */
    method OnClock(simTime: real, wallNow: real, scores: seq<real>) returns (reset: bool)
      requires Valid() && |scores| == path.count
      modifies this
      ensures Valid() && simRunning && lastClockWall == Some(wallNow) && lastSimTime == Some(simTime)
      ensures reset <==> || (old(lastSimTime).Some? && simTime < old(lastSimTime).value - 0.5)
                         || (old(simRunning) && old(lastClockWall).Some? && wallNow - old(lastClockWall).value > CLOCK_TIMEOUT)
      ensures odomReceived == old(odomReceived)
      ensures if reset then RestartsAt(odomReceived, scores, currentPoseIdx) else currentPoseIdx == old(currentPoseIdx)
    {
      reset := false;
      var gap := if lastClockWall.Some? then wallNow - lastClockWall.value else 0.0;
      if (lastSimTime.Some? && simTime < lastSimTime.value - 0.5) || (simRunning && gap > CLOCK_TIMEOUT) {
        var _ := ResetPath(scores);
        reset := true;
      }
      lastSimTime := Some(simTime);
      lastClockWall := Some(wallNow);
      simRunning := true;
    }

    /** An odometry message, `jump` metres from the one before; a jump restarts the path,
        and the first message may pick the path up where the truck is. */
    method OnOdometry(jump: real, farFromStart: bool, scores: seq<real>) returns (reset: bool)
      requires Valid() && |scores| == path.count
      modifies this
      ensures Valid() && odomReceived
      ensures reset <==> old(positionKnown && odomReceived) && jump > ODOM_JUMP
      ensures reset ==> RestartsAt(true, scores, currentPoseIdx)
      ensures !reset ==> currentPoseIdx == old(currentPoseIdx) ||
                         (!old(odomReceived) && old(currentPoseIdx) == 0 && RestartsAt(true, scores, currentPoseIdx))
    {
      reset := false;
      if positionKnown && odomReceived && jump > ODOM_JUMP {
        var _ := ResetPath(scores);
        return true;
      }
      positionKnown := true;
      if !odomReceived {
        odomReceived := true;
        ResumeOnPath(farFromStart, scores);
      }
    }

    /** An operator's command. Entering a stopped state publishes a stop. A word that is
        none of the commands sets the speed factor and nothing else. */
    method OnCommand(c: Command, factor: real, scores: seq<real>) returns (cmd: Option<Twist>)
      requires Valid() && |scores| == path.count
      modifies this
      ensures Valid() && speedFactor == Clamped(factor) && odomReceived == old(odomReceived)
      ensures cmd.Some? ==> cmd.value == ZERO
      ensures if c.Restart? then RestartsAt(odomReceived, scores, currentPoseIdx) else currentPoseIdx == old(currentPoseIdx)
      ensures cmd.Some? <==> c.Restart? || (state != old(state) && (state.PausedState? || state.IdleState?))
      ensures state == match c
                       case Halt => PausedState
                       case GoIdle => IdleState
                       case Slow => SlowState
                       case Unknown => old(state)
                       case _ => MovingState
    {
      cmd := None;
      speedFactor := Clamped(factor);
      if c.Restart? {
        var zero := ResetPath(scores);
        return Some(zero);
      }
      var before := state;
      if c.Proceed? {
        state := MovingState;
      } else if c.Halt? {
        state := PausedState;
      } else if c.Slow? {
        state := SlowState;
      } else if c.GoIdle? {
        state := IdleState;
      }
      if state != before && (state.PausedState? || state.IdleState?) {
        cmd := Some(ZERO);
      }
    }

    /** A message on the proximity link: a decision for this truck, or one for another,
        which only shows the link alive. After its own the level is looked up, if there
        is one. */
    method OnProximity(d: Decision, mine: bool, now: real, nowAgain: real)
      requires gate != null
      modifies gate
      ensures gate.State() == LinkState(gate.limits, old(gate.State()), d, mine, now, nowAgain)
    {
      if !mine {
        gate.NoteHeard(now);
        return;
      }
      gate.OnDecision(now, d);
      if gate.latest.Some? {
        var _ := gate.QueryLevel(nowAgain);
      }
    }

    /** The gate is active and answers STOP at the start of the tick. */
    ghost predicate GateStops(t: Tick)
      reads this, gate
    {
      gate != null && gate.State().latest.Some? && LevelOf(gate.limits, gate.State(), t.gateNow) == StopLevel
    }

    predicate ClockDied(t: Tick)
      reads this
    {
      lastClockWall.Some? && simRunning && t.wallNow - lastClockWall.value > CLOCK_TIMEOUT
    }

    /** The simulation runs, the truck has odometry and a path to drive. */
    predicate Running(t: Tick)
      reads this
    {
      (lastClockWall.Some? ==> simRunning && !ClockDied(t)) && odomReceived && !Stopped() && !completed && path.count > 0
    }

    /** Whether the tick gets as far as driving; a stop may be published on the way. */
    method MayDrive(t: Tick) returns (go: bool, cmd: Option<Twist>)
      requires Valid()
      modifies this`simRunning, this`poseStart, gate
      ensures go <==> old(Running(t)) && !old(GateStops(t))
      ensures cmd.Some? ==> cmd.value == ZERO
      ensures cmd.Some? <==> (old(Running(t)) && old(GateStops(t))) || old(ClockDied(t))
      ensures poseStart == if old(Running(t)) && old(GateStops(t)) then None else old(poseStart)
      ensures gate != null ==> gate.State() == GateAtLimit(old(gate.State()), t)
    {
      cmd := None;
      go := false;
      var held := false;
      if gate != null && gate.latest.Some? {
        var level := gate.QueryLevel(t.gateNow);
        held := level == StopLevel;
      }
      if lastClockWall.Some? {
        if t.wallNow - lastClockWall.value > CLOCK_TIMEOUT && simRunning {
          simRunning := false;
          cmd := Some(ZERO);
        }
        if !simRunning {
          return;
        }
      }
      if !odomReceived || Stopped() || completed || path.count == 0 {
        return;
      }
      if held {
        cmd := Some(ZERO);
        poseStart := None;
        return;
      }
      go := true;
    }

    function Tolerance(): real
      reads this
    {
      if path.count - currentPoseIdx <= tuning.endPoseCount then tuning.endTolerance else tuning.positionTolerance
    }

    /** Stuck at the last pose, close to it, for longer than the timeout. */
    predicate Spirals(t: Tick)
      requires currentPoseIdx < path.count && FitsPath(t, path)
      reads this
    {
      && currentPoseIdx == path.count - 1
      && t.now - (if poseStart.None? then t.now else poseStart.value) > tuning.spiralTimeout
      && t.dist[currentPoseIdx] < tuning.spiralDistance
    }

    /** The target is reached, or was passed. */
    predicate Reached(t: Tick)
      requires currentPoseIdx < path.count && FitsPath(t, path)
      reads this
    {
      var d := t.dist[currentPoseIdx];
      d < Tolerance() || (Passed(Track(Approach(minDistance, increasingCount), d), d) && currentPoseIdx < path.count - 1)
    }

    /** Where the tick aims, before it decides on a command: skip ahead, or give up
        at the end, or move on to the next pose, or keep the target. */
    method UpdateTarget(t: Tick) returns (done: bool, cmd: Option<Twist>)
      requires Valid() && currentPoseIdx < path.count && FitsPath(t, path)
      modifies this`currentPoseIdx, this`minDistance, this`increasingCount, this`poseStart, this`completed, this`state
      ensures Valid()
      ensures cmd.Some? ==> done && cmd.value == ZERO
      ensures Skips(path.segments, old(currentPoseIdx), t.dist) ==>
                done && cmd.None? && minDistance.None? && SkipsTo(path.segments, old(currentPoseIdx), t.dist, currentPoseIdx)
      ensures !Skips(path.segments, old(currentPoseIdx), t.dist) && old(Spirals(t)) ==>
                done && cmd == Some(ZERO) && completed && state == IdleState && currentPoseIdx == old(currentPoseIdx)
      ensures !Skips(path.segments, old(currentPoseIdx), t.dist) && !old(Spirals(t)) && old(Reached(t)) ==>
                done && cmd.None? && currentPoseIdx == old(currentPoseIdx) + 1 && minDistance.None? && poseStart.None?
      ensures !Skips(path.segments, old(currentPoseIdx), t.dist) && !old(Spirals(t)) && !old(Reached(t)) ==>
                && !done && cmd.None? && currentPoseIdx == old(currentPoseIdx)
                && Approach(minDistance, increasingCount) ==
                   Track(Approach(old(minDistance), old(increasingCount)), t.dist[currentPoseIdx])
                && poseStart == Some(if old(poseStart).None? then t.now else old(poseStart).value)
      ensures !(!Skips(path.segments, old(currentPoseIdx), t.dist) && old(Spirals(t))) ==>
                completed == old(completed) && state == old(state)
    {
      cmd := None;
      done := true;
      var distance := t.dist[currentPoseIdx];
      if distance > 1.0 && currentPoseIdx < path.count - 3 {
        var best := SkipAhead(path.segments, currentPoseIdx, t.dist);
        if best > currentPoseIdx {
          currentPoseIdx := best;
          minDistance := None;
          return;
        }
      }
      if minDistance.None? || distance < minDistance.value {
        minDistance := Some(distance);
        increasingCount := 0;
      } else if distance > minDistance.value + 0.2 {
        increasingCount := increasingCount + 1;
      }
      var shouldSkip := increasingCount > 20 && minDistance.Some? && minDistance.value < 0.5 &&
                        distance > minDistance.value + 0.3 && currentPoseIdx < path.count - 1;
      var tolerance := if path.count - currentPoseIdx <= tuning.endPoseCount then tuning.endTolerance
                       else tuning.positionTolerance;
      if poseStart.None? {
        poseStart := Some(t.now);
      }
      if currentPoseIdx == path.count - 1 && t.now - poseStart.value > tuning.spiralTimeout &&
         distance < tuning.spiralDistance {
        completed := true;
        state := IdleState;
        cmd := Some(ZERO);
        return;
      }
      if distance < tolerance || shouldSkip {
        currentPoseIdx := currentPoseIdx + 1;
        minDistance := None;
        increasingCount := 0;
        poseStart := None;
        return;
      }
      done := false;
    }

    function SpeedFactor(): real
      reads this
    {
      StateFactor(state) * speedFactor
    }

    /** The command for the pose aimed at, before the gate. */
    method Shape(t: Tick) returns (cmd: Twist)
      requires Valid() && currentPoseIdx < path.count && FitsPath(t, path)
      ensures if IsReverse(path.segments, currentPoseIdx) then cmd.linear <= -MIN_FORWARD else cmd.linear >= MIN_FORWARD
      ensures tuning.baseAngular >= 0.0 ==> Abs(cmd.angular) <= tuning.baseAngular
      ensures exists carrot :: currentPoseIdx <= carrot < path.count &&
                               SameDirection(path.segments, currentPoseIdx, carrot) &&
                               cmd == Twist(ShapedLinear(IsReverse(path.segments, currentPoseIdx), tuning.baseLinear,
                                                         SpeedFactor(), t.dist[currentPoseIdx], t.headingErrorDeg[carrot]),
                                            ShapedAngular(tuning.baseAngular, t.headingError[carrot]))
    {
      var flag := GetSegmentFlag(path.segments, currentPoseIdx);
      var reverse := flag == Some(true);
      var lookahead := Max(0.8, tuning.baseLinear * 1.5);
      var carrot := FindCarrot(path.segments, path.count, currentPoseIdx, t.stepLen, lookahead);
      ShapedKeepsDirection(reverse, tuning.baseLinear, SpeedFactor(), t.dist[currentPoseIdx], t.headingErrorDeg[carrot]);
      cmd := Twist(ShapedLinear(reverse, tuning.baseLinear, SpeedFactor(), t.dist[currentPoseIdx], t.headingErrorDeg[carrot]),
                   ShapedAngular(tuning.baseAngular, t.headingError[carrot]));
    }

    /** One tick. `asked` is the command before the gate, when one was shaped. */
    method ControlLoop(t: Tick) returns (cmd: Option<Twist>, asked: Option<Twist>, base: nat)
      requires Valid() && FitsPath(t, path)
      modifies this, gate
      ensures Valid()
      // The index: from `base`, which is the old index or 0 after a loop wrap, it only moves on, and past more
      // than one pose only within one direction.
      ensures base == old(currentPoseIdx) || (base == 0 && path.loop && old(currentPoseIdx) == path.count)
      ensures MovesOn(path, base, currentPoseIdx)
      // The command: a stop, or what was asked for after the gate.
      ensures asked.None? && cmd.Some? ==> cmd.value == ZERO
      ensures asked.Some? ==> cmd.Some? && currentPoseIdx == base < path.count
      ensures asked.Some? ==> if IsReverse(path.segments, base) then asked.value.linear <= -MIN_FORWARD
                              else asked.value.linear >= MIN_FORWARD
      ensures asked.Some? && gate == null ==> cmd == asked
      ensures asked.Some? && gate != null ==>
                cmd.value == Limited(gate.limits, LevelOf(gate.limits, GateAtLimit(old(gate.State()), t), t.gateNowAgain), asked.value)
      ensures gate != null ==> gate.State() == GateAfterTick(old(gate.State()), t, asked.Some?)
      // At STOP nothing moves.
      ensures old(GateStops(t)) ==> asked.None? && currentPoseIdx == old(currentPoseIdx)
    {
      asked, base := None, currentPoseIdx;
      var go, stop := MayDrive(t);
      cmd := stop;
      if !go {
        return;
      }
      if currentPoseIdx >= path.count {
        if path.loop {
          currentPoseIdx := 0;
          base := 0;
        } else {
          completed := true;
          state := IdleState;
          cmd := Some(ZERO);
          return;
        }
      }
      var done, halt := UpdateTarget(t);
      cmd := halt;
      if done {
        return;
      }
      var shaped := Shape(t);
      asked := Some(shaped);
      if gate != null {
        shaped := gate.Limit(t.gateNowAgain, shaped);
      }
      cmd := Some(shaped);
    }

    ghost function GateAfterTick(g: Gate, t: Tick, limited: bool): Gate
      requires gate != null
    {
      if limited then AfterQuery(gate.limits, GateAtLimit(g, t), t.gateNowAgain) else GateAtLimit(g, t)
    }

    /** The gate's state when the command reaches it: the tick has queried it once,
        if it was active. */
    ghost function GateAtLimit(g: Gate, t: Tick): Gate
      requires gate != null
    {
      if g.latest.Some? then AfterQuery(gate.limits, g, t.gateNow) else g
    }
  }

  // ----- whole drives -----

  /** What one tick may do to the index, short of a reset or a loop wrap. */
  ghost predicate MovesOn(p: Path, a: nat, b: nat) {
    a <= b && (b <= a + 1 || Reachable(p.segments, p.count, a, b))
  }

  /** The indices of a drive without resets or wraps, tick by tick. */
  ghost predicate IsDrive(p: Path, idx: seq<nat>) {
    forall m :: 0 < m < |idx| ==> MovesOn(p, idx[m - 1], idx[m])
  }

  /** However the truck skips ahead, it aims at the last pose before every change of
      direction it gets past, and then at the first one after it. */
  lemma {:induction false} ReversalIsNeverSkipped(p: Path, idx: seq<nat>, k: nat) returns (m: nat)
    requires |idx| > 0 && IsDrive(p, idx)
    requires idx[0] <= k < idx[|idx| - 1]
    requires Flag(p.segments, k) != Flag(p.segments, k + 1)
    ensures m + 1 < |idx| && idx[m] == k && idx[m + 1] == k + 1
    decreases |idx|
  {
    var n := |idx| - 1;
    assert MovesOn(p, idx[n - 1], idx[n]);
    if idx[n - 1] <= k {
      m := n - 1;
    } else {
      m := ReversalIsNeverSkipped(p, idx[..n], k);
    }
  }
}

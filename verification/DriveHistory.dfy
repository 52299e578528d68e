/** Whole runs of the truck controller: ticks, proximity messages, clock, odometry and
    operator commands in any order, and what they do to the pose index and the wheels. */
module DriveHistory {
  import opened Options
  import opened ProximityGate
  import opened PathFollower

  datatype Input =
    | TickIn(t: Tick)
    | LinkIn(d: Decision, mine: bool, now: real, nowAgain: real)
    | ClockIn(simTime: real, wallNow: real, scores: seq<real>)
    | OdometryIn(jump: real, farFromStart: bool, scores: seq<real>)
    | CommandIn(c: Command, factor: real, scores: seq<real>)

  predicate Fits(p: Path, i: Input) {
    match i
    case TickIn(t) => FitsPath(t, p)
    case LinkIn(_, _, _, _) => true
    case ClockIn(_, _, scores) => |scores| == p.count
    case OdometryIn(_, _, scores) => |scores| == p.count
    case CommandIn(_, _, scores) => |scores| == p.count
  }

  /** What one input did: the index before, after, and in between if the loop wrapped;
      whether the path was restarted; the command asked for and the one published; and
      what the proximity gate went through. */
  datatype Record = Record(
    input: Input, start: nat, base: nat, end: nat, restarted: bool,
    asked: Option<Twist>, cmd: Option<Twist>, before: Gate, events: seq<Event>)

  function FoldGate(l: Limits, g: Gate, es: seq<Event>, n: nat): Gate
    requires n <= |es|
  {
    if n == 0 then g else Step(l, FoldGate(l, g, es, n - 1), es[n - 1])
  }

  function GateAfter(l: Limits, r: Record): Gate {
    FoldGate(l, r.before, r.events, |r.events|)
  }

  /** Nothing, or a stop. */
  predicate IsStill(cmd: Option<Twist>) {
    cmd.None? || cmd.value == ZERO
  }

  /** The gate is active and says STOP at the start of the tick. */
  predicate Stops(l: Limits, r: Record, t: Tick) {
    r.before.latest.Some? && LevelOf(l, r.before, t.gateNow) == StopLevel
  }

  /** What a tick asks of the gate: once at its start, if the gate has taken a decision,
      and once more when a command was shaped. */
  function TickEvents(g: Gate, t: Tick, limited: bool): seq<Event> {
    (if g.latest.Some? then [Query(t.gateNow)] else []) + if limited then [Query(t.gateNowAgain)] else []
  }

  /** What a message does to the gate; only the truck's own is followed by a lookup. */
  function LinkEvents(l: Limits, g: Gate, d: Decision, mine: bool, now: real, nowAgain: real): seq<Event> {
    if !mine then [Heard(now)]
    else [Message(now, d)] + if Step(l, g, Message(now, d)).latest.Some? then [Query(nowAgain)] else []
  }

  /** What the tick's command went through: the gate's level when it was limited, or
      nothing without a gate. */
  ghost predicate PassedGate(l: Limits, gated: bool, r: Record, t: Tick)
    requires l.reduceSpeed > 0.0 && r.asked.Some? && (gated ==> |r.events| > 0)
  {
    if !gated then r.cmd == r.asked
    else
      var g := FoldGate(l, r.before, r.events, |r.events| - 1);
      r.cmd == Some(Limited(l, LevelOf(l, g, t.gateNowAgain), r.asked.value))
  }

  /** A restart puts the index at the start or after a nearest pose; without one it stays. */
  ghost predicate Restarts(r: Record, scores: seq<real>) {
    && r.events == [] && r.base == r.end && IsStill(r.cmd)
    && if r.restarted then RestartsAt(true, scores, r.end) else r.end == r.start
  }

  /** What is true of every record of a truck on path p, with or without a gate of limits l. */
  ghost predicate Honest(p: Path, l: Limits, gated: bool, r: Record)
    requires l.reduceSpeed > 0.0
  {
    && r.end <= p.count && (!gated ==> r.events == [])
    && match r.input
       case TickIn(t) =>
         && !r.restarted
         && (r.base == r.start || (r.base == 0 && p.loop && r.start == p.count))
         && MovesOn(p, r.base, r.end)
         && (gated ==> r.events == TickEvents(r.before, t, r.asked.Some?))
         && (gated && Stops(l, r, t) ==> IsStill(r.cmd) && r.end == r.start)
         && (r.asked.None? ==> IsStill(r.cmd))
         && (r.asked.Some? ==> r.end == r.base && PassedGate(l, gated, r, t))
       case LinkIn(d, mine, now, nowAgain) =>
         && !r.restarted && r.base == r.end == r.start && r.cmd.None?
         && (gated ==> r.events == LinkEvents(l, r.before, d, mine, now, nowAgain))
       case ClockIn(_, _, scores) => Restarts(r, scores)
       case OdometryIn(_, _, scores) => Restarts(r, scores)
       case CommandIn(c, _, scores) => Restarts(r, scores) && r.restarted == c.Restart?
  }

  // ----- the controller keeps the record -----

  const NO_LIMITS := Limits(1.0, 0.0, 0.0, 0.0)

  function LimitsOf(c: RobotController): Limits {
    if c.gate == null then NO_LIMITS else c.gate.limits
  }

  function GateOf(c: RobotController): Gate
    reads c, c.gate
  {
    if c.gate == null then SILENT else c.gate.State()
  }

  method HandleTick(c: RobotController, t: Tick) returns (r: Record)
    requires c.Valid() && FitsPath(t, c.path)
    modifies c, c.gate
    ensures c.Valid() && r.input == TickIn(t) && r.start == old(c.currentPoseIdx) && r.end == c.currentPoseIdx
    ensures r.before == old(GateOf(c)) && GateOf(c) == GateAfter(LimitsOf(c), r)
    ensures Honest(c.path, LimitsOf(c), c.gate != null, r)
  {
    var start, before := c.currentPoseIdx, GateOf(c);
    var cmd, asked, base := c.ControlLoop(t);
    var events := if c.gate == null then [] else TickEvents(before, t, asked.Some?);
    r := Record(TickIn(t), start, base, c.currentPoseIdx, false, asked, cmd, before, events);
    TickFolds(LimitsOf(c), before, t, asked.Some?);
  }

  lemma TickFolds(l: Limits, g: Gate, t: Tick, limited: bool)
    ensures var es := TickEvents(g, t, limited);
            var mid := if g.latest.Some? then AfterQuery(l, g, t.gateNow) else g;
            && FoldGate(l, g, es, |es|) == (if limited then AfterQuery(l, mid, t.gateNowAgain) else mid)
            && (limited ==> FoldGate(l, g, es, |es| - 1) == mid)
  {
    var es := TickEvents(g, t, limited);
    assert FoldGate(l, g, es, 0) == g;
    if g.latest.Some? {
      assert FoldGate(l, g, es, 1) == AfterQuery(l, g, t.gateNow);
    }
  }

  method HandleLink(c: RobotController, d: Decision, mine: bool, now: real, nowAgain: real) returns (r: Record)
    requires c.Valid()
    modifies c.gate
    ensures c.Valid() && r.input == LinkIn(d, mine, now, nowAgain)
    ensures r.start == r.end == old(c.currentPoseIdx) == c.currentPoseIdx
    ensures r.before == old(GateOf(c)) && GateOf(c) == GateAfter(LimitsOf(c), r)
    ensures Honest(c.path, LimitsOf(c), c.gate != null, r)
  {
    var idx, before := c.currentPoseIdx, GateOf(c);
    var events: seq<Event> := [];
    if c.gate != null {
      c.OnProximity(d, mine, now, nowAgain);
      events := LinkEvents(c.gate.limits, before, d, mine, now, nowAgain);
      assert FoldGate(c.gate.limits, before, events, 0) == before;
      assert FoldGate(c.gate.limits, before, events, 1) == Step(c.gate.limits, before, events[0]);
    }
    r := Record(LinkIn(d, mine, now, nowAgain), idx, idx, idx, false, None, None, before, events);
  }

  /** Clock, odometry and operator: no proximity event, and at most a restart. */
  method HandleOther(c: RobotController, i: Input) returns (r: Record)
    requires c.Valid() && Fits(c.path, i) && !i.TickIn? && !i.LinkIn?
    modifies c
    ensures c.Valid() && r.input == i && r.start == old(c.currentPoseIdx) && r.end == c.currentPoseIdx
    ensures r.before == old(GateOf(c)) == GateOf(c) == GateAfter(LimitsOf(c), r)
    ensures Honest(c.path, LimitsOf(c), c.gate != null, r)
  {
    var start, before := c.currentPoseIdx, GateOf(c);
    var restarted, cmd: Option<Twist> := false, None;
    if i.ClockIn? {
      restarted := c.OnClock(i.simTime, i.wallNow, i.scores);
      cmd := if restarted then Some(ZERO) else None;
    } else if i.OdometryIn? {
      restarted := c.OnOdometry(i.jump, i.farFromStart, i.scores);
      cmd := if restarted then Some(ZERO) else None;
      restarted := restarted || c.currentPoseIdx != start;
    } else {
      cmd := c.OnCommand(i.c, i.factor, i.scores);
      restarted := i.c.Restart?;
    }
    r := Record(i, start, c.currentPoseIdx, c.currentPoseIdx, restarted, None, cmd, before, []);
  }

  method Handle(c: RobotController, i: Input) returns (r: Record)
    requires c.Valid() && Fits(c.path, i)
    modifies c, c.gate
    ensures c.Valid() && r.input == i && r.start == old(c.currentPoseIdx) && r.end == c.currentPoseIdx
    ensures r.before == old(GateOf(c)) && GateOf(c) == GateAfter(LimitsOf(c), r)
    ensures Honest(c.path, LimitsOf(c), c.gate != null, r)
  {
    if i.TickIn? {
      r := HandleTick(c, i.t);
    } else if i.LinkIn? {
      r := HandleLink(c, i.d, i.mine, i.now, i.nowAgain);
    } else {
      r := HandleOther(c, i);
    }
  }

  /** Records of one run: each begins where the one before it ended. */
  ghost predicate IsLog(p: Path, l: Limits, gated: bool, log: seq<Record>)
    requires l.reduceSpeed > 0.0
  {
    && (forall m :: 0 <= m < |log| ==> Honest(p, l, gated, log[m]))
    && (forall m :: 0 < m < |log| ==> Follows(l, log[m - 1], log[m]))
  }

  predicate Follows(l: Limits, r: Record, next: Record) {
    next.start == r.end && next.before == GateAfter(l, r)
  }

  /** Any inputs in any order, from a fresh controller, leave such a log. */
  method Drive(p: Path, tuning: Tuning, gate: ProximityGateController?, inputs: seq<Input>) returns (log: seq<Record>)
    requires forall m :: 0 <= m < |inputs| ==> Fits(p, inputs[m])
    requires gate != null ==> gate.limits.reduceSpeed > 0.0 && gate.State() == SILENT
    modifies gate
    ensures |log| == |inputs| && forall m :: 0 <= m < |log| ==> log[m].input == inputs[m]
    ensures IsLog(p, if gate == null then NO_LIMITS else gate.limits, gate != null, log)
    ensures |log| > 0 ==> log[0].start == 0 && log[0].before == SILENT
  {
    var c := new RobotController(p, tuning, gate);
    ghost var l := LimitsOf(c);
    log := [];
    for n := 0 to |inputs|
      invariant c.Valid() && c.path == p && c.gate == gate
      invariant |log| == n && forall m :: 0 <= m < n ==> log[m].input == inputs[m]
      invariant IsLog(p, l, gate != null, log)
      invariant if n == 0 then c.currentPoseIdx == 0 && GateOf(c) == SILENT
                else c.currentPoseIdx == log[n - 1].end && GateOf(c) == GateAfter(l, log[n - 1])
      invariant n > 0 ==> log[0].start == 0 && log[0].before == SILENT
    {
      var r := Handle(c, inputs[n]);
      log := log + [r];
    }
  }

  // ----- the pose index -----

  /** Over every run the index stays on the path or just past it, and falls only on a
      restart, or from past the end to the start of a path that loops. */
  lemma IndexFallsOnlyOnRestartOrWrap(p: Path, l: Limits, gated: bool, log: seq<Record>, m: nat)
    requires l.reduceSpeed > 0.0 && IsLog(p, l, gated, log) && m < |log|
    ensures log[m].end <= p.count
    ensures log[m].end < log[m].start ==>
              log[m].restarted || (log[m].input.TickIn? && p.loop && log[m].start == p.count && log[m].base == 0)
  {
    assert Honest(p, l, gated, log[m]);
  }

  /** From record a to record b there is no restart and no wrap. */
  predicate Unbroken(log: seq<Record>, a: nat, b: nat) {
    a < b <= |log| && forall m :: a <= m < b ==> !log[m].restarted && log[m].base == log[m].start
  }

  /** The index before record a and after each record up to b. */
  function Indices(log: seq<Record>, a: nat, b: nat): seq<nat>
    requires a < b <= |log|
  {
    seq(b - a + 1, i requires 0 <= i <= b - a => IndexAt(log, a, i))
  }

  function IndexAt(log: seq<Record>, a: nat, i: nat): nat
    requires a < |log| && a + i <= |log|
  {
    if i == 0 then log[a].start else log[a + i - 1].end
  }

  lemma UnbrokenIsADrive(p: Path, l: Limits, gated: bool, log: seq<Record>, a: nat, b: nat)
    requires l.reduceSpeed > 0.0 && IsLog(p, l, gated, log) && Unbroken(log, a, b)
    ensures IsDrive(p, Indices(log, a, b))
    ensures forall m :: a <= m < b ==> log[m].start == Indices(log, a, b)[m - a] && log[m].end == Indices(log, a, b)[m - a + 1]
  {
    var idx := Indices(log, a, b);
    forall m | a <= m < b
      ensures log[m].start == idx[m - a] && MovesOn(p, idx[m - a], idx[m - a + 1])
    {
      assert Honest(p, l, gated, log[m]);
      assert m > a ==> Follows(l, log[m - 1], log[m]);
    }
    forall i | 0 < i < |idx|
      ensures MovesOn(p, idx[i - 1], idx[i])
    {
      assert MovesOn(p, idx[a + i - 1 - a], idx[a + i - 1 - a + 1]);
    }
  }

  /** Over every run, wherever it restarts and wraps: between two of those, each change
      of direction the truck gets past is crossed by one record, from the last pose
      before it to the first one after it. */
  lemma EveryReversalIsCrossed(p: Path, l: Limits, gated: bool, log: seq<Record>, a: nat, b: nat, k: nat) returns (m: nat)
    requires l.reduceSpeed > 0.0 && IsLog(p, l, gated, log) && Unbroken(log, a, b)
    requires log[a].start <= k < log[b - 1].end && Flag(p.segments, k) != Flag(p.segments, k + 1)
    ensures a <= m < b && log[m].start == k && log[m].end == k + 1
  {
    UnbrokenIsADrive(p, l, gated, log, a, b);
    var i := ReversalIsNeverSkipped(p, Indices(log, a, b), k);
    m := a + i;
  }

  // ----- the gate over a run -----

  /** Every event the gate went through in the first m records. */
  function HistoryOf(log: seq<Record>, m: nat): seq<Event>
    requires m <= |log|
  {
    if m == 0 then [] else HistoryOf(log, m - 1) + log[m - 1].events
  }

  lemma {:induction false} AfterPrefix(l: Limits, h: seq<Event>, g: seq<Event>, k: nat)
    requires k <= |h| && k <= |g| && forall i :: 0 <= i < k ==> h[i] == g[i]
    ensures After(l, h, k) == After(l, g, k)
  {
    if k > 0 {
      AfterPrefix(l, h, g, k - 1);
    }
  }

  lemma {:induction false} AfterConcat(l: Limits, h: seq<Event>, es: seq<Event>, n: nat)
    requires n <= |es|
    ensures After(l, h + es, |h| + n) == FoldGate(l, After(l, h, |h|), es, n)
  {
    if n > 0 {
      AfterConcat(l, h, es, n - 1);
      assert (h + es)[|h| + n - 1] == es[n - 1];
    } else {
      AfterPrefix(l, h + es, h, |h|);
    }
  }

  lemma {:induction false} HistoryGrows(log: seq<Record>, m: nat, n: nat)
    requires m <= n <= |log|
    ensures HistoryOf(log, m) <= HistoryOf(log, n)
  {
    if m < n {
      HistoryGrows(log, m, n - 1);
    }
  }

  /** The gate a record finds is the one its history up to there leaves. */
  lemma {:induction false} BeforeIsHistory(p: Path, l: Limits, gated: bool, log: seq<Record>, m: nat)
    requires l.reduceSpeed > 0.0 && IsLog(p, l, gated, log) && m < |log| && log[0].before == SILENT
    ensures log[m].before == After(l, HistoryOf(log, m), |HistoryOf(log, m)|)
  {
    if m > 0 {
      BeforeIsHistory(p, l, gated, log, m - 1);
      assert Follows(l, log[m - 1], log[m]);
      AfterConcat(l, HistoryOf(log, m - 1), log[m - 1].events, |log[m - 1].events|);
    }
  }

  lemma {:induction false} TakenMeansActive(h: seq<Event>, i: nat, k: nat)
    requires i < k <= |h| && IsTaken(h, i)
    ensures LastTaken(h, k).Some?
  {
    if i + 1 < k {
      TakenMeansActive(h, i, k - 1);
    }
  }

  lemma ActiveIff(l: Limits, h: seq<Event>, k: nat)
    requires k <= |h|
    ensures After(l, h, k).latest.Some? <==> LastTaken(h, k).Some?
  {
    LatestField(l, h, k);
    if LastTaken(h, k).Some? {
      LastTakenIsTaken(h, k);
    }
  }

  /** A tick of a truck whose gate has taken a decision asks the gate first, and the
      answer is the one the whole history calls for; at STOP the tick publishes nothing
      or a stop and leaves the index. */
  lemma TickObeysHistory(p: Path, l: Limits, log: seq<Record>, m: nat)
    requires l.reduceSpeed > 0.0 && IsLog(p, l, true, log) && log != [] && log[0].before == SILENT
    requires m < |log| && log[m].input.TickIn? && ClockIsMonotone(HistoryOf(log, |log|))
    requires LastTaken(HistoryOf(log, m), |HistoryOf(log, m)|).Some?
    ensures var h, k := HistoryOf(log, |log|), |HistoryOf(log, m)|;
            && k < |h| && h[k] == Query(log[m].input.t.gateNow)
            && (LevelByHistory(l, h, k) == StopLevel ==> IsStill(log[m].cmd) && log[m].end == log[m].start)
  {
    var h, front := HistoryOf(log, |log|), HistoryOf(log, m);
    var k, r := |front|, log[m];
    BeforeIsHistory(p, l, true, log, m);
    ActiveIff(l, front, k);
    assert Honest(p, l, true, r);
    HistoryGrows(log, m + 1, |log|);
    assert HistoryOf(log, m + 1)[k] == r.events[0];
    assert h[k] == Query(r.input.t.gateNow);
    AfterPrefix(l, h, front, k);
    LevelIsHistory(l, h, k);
  }

  /** Over every run, under a clock that never runs back: a tick less than stop_hold_s
      after a STOP or fault was taken, and every tick from one that found the link dead
      until a decision is taken, publishes nothing or a stop and leaves the index. */
  lemma StopHoldsTheTruck(p: Path, l: Limits, log: seq<Record>, m: nat, i: nat)
    requires l.reduceSpeed > 0.0 && IsLog(p, l, true, log) && log != [] && log[0].before == SILENT
    requires m < |log| && log[m].input.TickIn? && ClockIsMonotone(HistoryOf(log, |log|))
    requires var h, k := HistoryOf(log, |log|), |HistoryOf(log, m)|;
             && i < k <= |h|
             && ((TakenAs(h, i, StopLevel) && log[m].input.t.gateNow - h[i].time < l.stopHold) ||
                 (FindsLinkDead(l, h, i) && LastTaken(h, k).Some? && LastTaken(h, k).value < i))
    ensures IsStill(log[m].cmd) && log[m].end == log[m].start
  {
    var h, front := HistoryOf(log, |log|), HistoryOf(log, m);
    var k := |front|;
    HistoryGrows(log, m, |log|);
    if TakenAs(h, i, StopLevel) {
      TakenMeansActive(h, i, k);
    }
    LastTakenPrefix(h, front, k);
    TickObeysHistory(p, l, log, m);
    assert LinkLatched(l, h, k) || HoldRuns(h, k, StopLevel, l.stopHold);
  }

  lemma {:induction false} LastTakenPrefix(h: seq<Event>, g: seq<Event>, k: nat)
    requires k <= |h| && k <= |g| && forall i :: 0 <= i < k ==> h[i] == g[i]
    ensures LastTaken(h, k) == LastTaken(g, k)
  {
    if k > 0 {
      LastTakenPrefix(h, g, k - 1);
    }
  }

  /** The place of the last event of the first m + 1 records. */
  function LastQuery(log: seq<Record>, m: nat): int
    requires m < |log|
  {
    |HistoryOf(log, m + 1)| - 1
  }

  lemma TickEndsWithQuery(p: Path, l: Limits, log: seq<Record>, m: nat)
    requires l.reduceSpeed > 0.0 && IsLog(p, l, true, log) && m < |log|
    requires log[m].input.TickIn? && log[m].asked.Some?
    ensures var es := log[m].events; |es| > 0 && es[|es| - 1] == Query(log[m].input.t.gateNowAgain)
  {
    assert Honest(p, l, true, log[m]);
  }

  /** The gate before the last event of record m is the one the history leaves there. */
  lemma GateAtLastEvent(l: Limits, log: seq<Record>, m: nat)
    requires m < |log| && log[m].events != []
    requires log[m].before == After(l, HistoryOf(log, m), |HistoryOf(log, m)|)
    ensures var h, k, r := HistoryOf(log, |log|), LastQuery(log, m), log[m];
            && 0 <= k < |h| && h[k] == r.events[|r.events| - 1]
            && FoldGate(l, r.before, r.events, |r.events| - 1) == After(l, h, k)
  {
    var h, front, r := HistoryOf(log, |log|), HistoryOf(log, m), log[m];
    var n := |r.events|;
    HistoryGrows(log, m + 1, |log|);
    assert HistoryOf(log, m + 1) == front + r.events;
    AfterConcat(l, front, r.events, n - 1);
    AfterPrefix(l, h, front + r.events, |front| + n - 1);
  }

  /** Under a clock that never runs back: the command of a tick that shaped one is what
      was asked for, limited to the level the whole history calls for at that query. */
  lemma CommandObeysHistory(p: Path, l: Limits, log: seq<Record>, m: nat)
    requires l.reduceSpeed > 0.0 && IsLog(p, l, true, log) && m < |log| && log[0].before == SILENT
    requires log[m].input.TickIn? && log[m].asked.Some? && ClockIsMonotone(HistoryOf(log, |log|))
    ensures var h, k := HistoryOf(log, |log|), LastQuery(log, m);
            && 0 <= k < |h| && h[k] == Query(log[m].input.t.gateNowAgain)
            && log[m].cmd == Some(Limited(l, LevelByHistory(l, h, k), log[m].asked.value))
  {
    var h, k, r := HistoryOf(log, |log|), LastQuery(log, m), log[m];
    TickEndsWithQuery(p, l, log, m);
    BeforeIsHistory(p, l, true, log, m);
    GateAtLastEvent(l, log, m);
    LevelIsHistory(l, h, k);
    assert PassedGate(l, true, r, r.input.t) by {
      assert Honest(p, l, true, r);
    }
  }

  /** So it stands still at STOP, and keeps to the reduced speed below NORMAL. */
  lemma CommandKeepsTheCap(p: Path, l: Limits, log: seq<Record>, m: nat)
    requires l.reduceSpeed > 0.0 && IsLog(p, l, true, log) && m < |log| && log[0].before == SILENT
    requires log[m].input.TickIn? && log[m].asked.Some? && ClockIsMonotone(HistoryOf(log, |log|))
    ensures var h, k := HistoryOf(log, |log|), LastQuery(log, m);
            && 0 <= k < |h| && log[m].cmd.Some?
            && (LevelByHistory(l, h, k) == StopLevel ==> log[m].cmd.value == ZERO)
            && (LevelByHistory(l, h, k) != NormalLevel ==> Abs(log[m].cmd.value.linear) <= l.reduceSpeed)
            && (LevelByHistory(l, h, k) == NormalLevel ==> log[m].cmd == log[m].asked)
  {
    CommandObeysHistory(p, l, log, m);
    LimitedIsSafe(l, LevelByHistory(l, HistoryOf(log, |log|), LastQuery(log, m)), log[m].asked.value);
  }

  /** Over every run each command published is a stop, or what was asked for slowed to
      what the gate lets through: no faster, not the other way, and along the same curve. */
  lemma EveryCommandIsLimited(p: Path, l: Limits, gated: bool, log: seq<Record>, m: nat)
    requires l.reduceSpeed > 0.0 && IsLog(p, l, gated, log) && m < |log| && !IsStill(log[m].cmd)
    ensures log[m].input.TickIn? && log[m].asked.Some?
    ensures IsSlowed(log[m].asked.value, log[m].cmd.value)
    ensures !gated ==> log[m].cmd == log[m].asked
  {
    var r := log[m];
    assert Honest(p, l, gated, r);
    if gated {
      LimitedIsSlowed(l, LevelOf(l, FoldGate(l, r.before, r.events, |r.events| - 1), r.input.t.gateNowAgain), r.asked.value);
    } else {
      LimitedIsSlowed(l, NormalLevel, r.asked.value);
    }
  }
}

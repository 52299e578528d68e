/** What a stream of proximity decisions does to a truck's speed: levels, holds that
    outlive a lost message, and a stop that latches when the link goes quiet. */
module ProximityGate {
  import opened Options

  datatype Level = NormalLevel | ReduceLevel | StopLevel

  /** One decoded message. `mode` is None for anything that is not a level. */
  datatype Decision = Decision(
    sequence: Option<int>, mode: Option<Level>, safetyCritical: bool, commandName: string, separation: Option<real>)

  datatype Limits = Limits(reduceSpeed: real, stopHold: real, reduceHold: real, staleAfter: real)

  datatype Fault = NoFault | LinkStale | Reported(name: string)

  /** The gate's fields. A time of None is minus infinity: it never happened. */
  datatype Gate = Gate(
    latest: Option<Level>, latestSeq: Option<int>,
    lastStop: Option<real>, lastReduce: Option<real>, lastHeard: Option<real>,
    stale: bool, separation: Option<real>, fault: Fault)

  const SILENT := Gate(None, None, None, None, None, false, None, NoFault)

  /** now - then < hold, where a time that never happened is infinitely long ago. */
  predicate Held(then_: Option<real>, now: real, hold: real) {
    then_.Some? && now - then_.value < hold
  }

  // ----- one step -----

  /** The level a decision asks for; a fault opcode asks for a stop, and anything
      else says nothing about motion. */
  function Asks(d: Decision): Option<Level> {
    if d.mode.Some? then d.mode else if d.safetyCritical then Some(StopLevel) else None
  }

  /** A decision is taken when it asks for a level and is not the last one taken,
      republished. */
  predicate Takes(latestSeq: Option<int>, d: Decision) {
    Asks(d).Some? && !(d.sequence.Some? && d.sequence == latestSeq)
  }

  function AfterHeard(g: Gate, now: real): Gate {
    g.(lastHeard := Some(now))
  }

  function AfterDecision(g: Gate, now: real, d: Decision): Gate {
    if !Takes(g.latestSeq, d) then AfterHeard(g, now)
    else
      var level := Asks(d).value;
      Gate(Some(level), d.sequence,
           if level == StopLevel then Some(now) else g.lastStop,
           if level == ReduceLevel then Some(now) else g.lastReduce,
           Some(now), false, d.separation,
           if d.mode.Some? then NoFault else Reported(if d.commandName == "" then "fault" else d.commandName))
  }

  predicate Overdue(l: Limits, g: Gate, now: real) {
    g.latest.Some? && (g.lastHeard.None? || now - g.lastHeard.value > l.staleAfter)
  }

  function AfterQuery(l: Limits, g: Gate, now: real): Gate {
    if !g.stale && Overdue(l, g, now) then g.(stale := true, fault := LinkStale) else g
  }

  function LevelOf(l: Limits, g: Gate, now: real): Level {
    if AfterQuery(l, g, now).stale then StopLevel
    else if g.latest == Some(StopLevel) || Held(g.lastStop, now, l.stopHold) then StopLevel
    else if g.latest == Some(ReduceLevel) || Held(g.lastReduce, now, l.reduceHold) then ReduceLevel
    else NormalLevel
  }

  function Abs(x: real): real {
    if x < 0.0 then -x else x
  }

  /** A drive command. */
  datatype Twist = Twist(linear: real, angular: real)

  function Scaled(t: Twist, ratio: real): Twist {
    Twist(t.linear * ratio, t.angular * ratio)
  }

  /** The command a level lets through. */
  function Limited(l: Limits, level: Level, t: Twist): Twist
    requires l.reduceSpeed > 0.0
  {
    if level == StopLevel then Twist(0.0, 0.0)
    else if level == ReduceLevel && Abs(t.linear) > l.reduceSpeed then Scaled(t, Ratio(l, t.linear))
    else t
  }

  function Ratio(l: Limits, linear: real): real
    requires linear != 0.0
  {
    l.reduceSpeed / Abs(linear)
  }

  class ProximityGateController {
    const limits: Limits
    var latest: Option<Level>
    var latestSeq: Option<int>
    var lastStop: Option<real>
    var lastReduce: Option<real>
    var lastHeard: Option<real>
    var stale: bool
    var separation: Option<real>
    var fault: Fault

    function State(): Gate
      reads this
    {
      Gate(latest, latestSeq, lastStop, lastReduce, lastHeard, stale, separation, fault)
    }

    constructor (l: Limits)
      ensures limits == l && State() == SILENT
    {
      limits := l;
      latest, latestSeq, lastStop, lastReduce, lastHeard := None, None, None, None, None;
      stale, separation, fault := false, None, NoFault;
    }

    method NoteHeard(now: real)
      modifies this
      ensures State() == AfterHeard(old(State()), now)
    {
      lastHeard := Some(now);
    }

    method OnDecision(now: real, d: Decision)
      modifies this
      ensures State() == AfterDecision(old(State()), now, d)
    {
      NoteHeard(now);
      if d.sequence.Some? && d.sequence == latestSeq {
        return;
      }
      var mode: Level;
      var f := NoFault;
      if d.mode.Some? {
        mode := d.mode.value;
      } else if d.safetyCritical {
        f := Reported(if d.commandName == "" then "fault" else d.commandName);
        mode := StopLevel;
      } else {
        return;
      }
      fault := f;
      stale := false;
      latest, latestSeq := Some(mode), d.sequence;
      separation := d.separation;
      if mode == StopLevel {
        lastStop := Some(now);
      } else if mode == ReduceLevel {
        lastReduce := Some(now);
      }
    }

    method QueryLevel(now: real) returns (level: Level)
      modifies this
      ensures level == LevelOf(limits, old(State()), now)
      ensures State() == AfterQuery(limits, old(State()), now)
    {
      if latest.Some? && !stale && (lastHeard.None? || now - lastHeard.value > limits.staleAfter) {
        stale := true;
        fault := LinkStale;
      }
      if stale {
        return StopLevel;
      }
      if latest == Some(StopLevel) || Held(lastStop, now, limits.stopHold) {
        return StopLevel;
      }
      if latest == Some(ReduceLevel) || Held(lastReduce, now, limits.reduceHold) {
        return ReduceLevel;
      }
      return NormalLevel;
    }

    method Limit(now: real, t: Twist) returns (r: Twist)
      requires limits.reduceSpeed > 0.0
      modifies this
      ensures r == Limited(limits, LevelOf(limits, old(State()), now), t)
      ensures State() == AfterQuery(limits, old(State()), now)
    {
      var level := QueryLevel(now);
      if level == StopLevel {
        return Twist(0.0, 0.0);
      }
      if level == ReduceLevel && Abs(t.linear) > limits.reduceSpeed {
        var ratio := Ratio(limits, t.linear);
        return Scaled(t, ratio);
      }
      return t;
    }
  }

  /** A limited command is zero at STOP, within the cap at REDUCE, and never faster
      than what was asked nor in the other direction. */
  lemma LimitedIsSafe(l: Limits, level: Level, t: Twist)
    requires l.reduceSpeed > 0.0
    ensures var r := Limited(l, level, t);
            && (level == StopLevel ==> r == Twist(0.0, 0.0))
            && (level == ReduceLevel ==> Abs(r.linear) <= l.reduceSpeed)
            && (level == NormalLevel ==> r == t)
            && Slower(t.linear, r.linear) && Slower(t.angular, r.angular)
  {
    if level == ReduceLevel && Abs(t.linear) > l.reduceSpeed {
      RatioInRange(l, t.linear);
      ScaledIsSafe(t, Ratio(l, t.linear), l.reduceSpeed);
    }
  }

  lemma RatioInRange(l: Limits, x: real)
    requires 0.0 < l.reduceSpeed < Abs(x)
    ensures 0.0 < Ratio(l, x) < 1.0 && Ratio(l, x) * Abs(x) == l.reduceSpeed
  {
    DivMul(l.reduceSpeed, Abs(x));
    QuotientBelowOne(l.reduceSpeed, Abs(x), Ratio(l, x));
  }

  lemma ScaledIsSafe(t: Twist, ratio: real, cap: real)
    requires 0.0 < ratio < 1.0 && ratio * Abs(t.linear) == cap && cap > 0.0
    ensures Abs(Scaled(t, ratio).linear) <= cap
    ensures Slower(t.linear, Scaled(t, ratio).linear) && Slower(t.angular, Scaled(t, ratio).angular)
  {
    assert Slower(t.linear, Scaled(t, ratio).linear) by {
      ScaleDown(t.linear, ratio);
    }
    assert Slower(t.angular, Scaled(t, ratio).angular) by {
      ScaleDown(t.angular, ratio);
    }
    assert Abs(Scaled(t, ratio).linear) == cap by {
      ScaledTo(t.linear, ratio, cap);
    }
  }

  /** r is t slowed: no larger, and not of the other sign. */
  predicate Slower(t: real, r: real) {
    Abs(r) <= Abs(t) && (t >= 0.0 ==> r >= 0.0) && (t <= 0.0 ==> r <= 0.0)
  }

  /** r is t slowed, and drives the same curve: linear and angular speed stay in the
      same ratio. */
  predicate IsSlowed(t: Twist, r: Twist) {
    Slower(t.linear, r.linear) && Slower(t.angular, r.angular) && r.linear * t.angular == r.angular * t.linear
  }

  lemma LimitedKeepsCurve(l: Limits, level: Level, t: Twist)
    requires l.reduceSpeed > 0.0
    ensures Limited(l, level, t).linear * t.angular == Limited(l, level, t).angular * t.linear
  {
  }

  lemma LimitedIsSlowed(l: Limits, level: Level, t: Twist)
    requires l.reduceSpeed > 0.0
    ensures IsSlowed(t, Limited(l, level, t))
  {
    LimitedIsSafe(l, level, t);
    LimitedKeepsCurve(l, level, t);
  }

  lemma DivMul(c: real, m: real)
    requires m != 0.0
    ensures (c / m) * m == c
  {
  }

  lemma MulNonNegative(x: real, y: real)
    requires x >= 0.0 && y >= 0.0
    ensures x * y >= 0.0
  {
  }

  lemma MulDistributes(x: real, y: real)
    ensures (x - 1.0) * y == x * y - y && (1.0 - x) * y == y - x * y && (-x) * y == -(x * y)
  {
  }

  lemma QuotientBelowOne(cap: real, m: real, q: real)
    requires 0.0 < cap < m && q * m == cap
    ensures 0.0 < q < 1.0
  {
    MulDistributes(q, m);
    if q >= 1.0 {
      MulNonNegative(q - 1.0, m);
    } else if q <= 0.0 {
      MulNonNegative(-q, m);
    }
  }

  lemma ScaleDown(x: real, ratio: real)
    requires 0.0 < ratio < 1.0
    ensures Slower(x, x * ratio)
  {
    MulDistributes(x, ratio);
    MulDistributes(ratio, x);
    MulDistributes(ratio, -x);
    if x >= 0.0 {
      MulNonNegative(ratio, x);
      MulNonNegative(1.0 - ratio, x);
    } else {
      MulNonNegative(ratio, -x);
      MulNonNegative(1.0 - ratio, -x);
    }
    SlowerFrom(x, x * ratio);
  }

  lemma SlowerFrom(t: real, r: real)
    requires t >= 0.0 ==> 0.0 <= r <= t
    requires t < 0.0 ==> t <= r <= 0.0
    ensures Slower(t, r)
  {
  }

  lemma ScaledTo(x: real, ratio: real, cap: real)
    requires ratio * Abs(x) == cap && cap > 0.0
    ensures Abs(x * ratio) == cap
  {
  }

  // ----- whole histories -----

  datatype Event = Heard(time: real) | Message(time: real, d: Decision) | Query(time: real)

  function Step(l: Limits, g: Gate, e: Event): Gate {
    match e
    case Heard(t) => AfterHeard(g, t)
    case Message(t, d) => AfterDecision(g, t, d)
    case Query(t) => AfterQuery(l, g, t)
  }

  function After(l: Limits, h: seq<Event>, k: nat): Gate
    requires k <= |h|
  {
    if k == 0 then SILENT else Step(l, After(l, h, k - 1), h[k - 1])
  }

  ghost predicate ClockIsMonotone(h: seq<Event>) {
    forall i, j :: 0 <= i < j < |h| ==> h[i].time <= h[j].time
  }

  /** The last decision taken among the first k events. */
  function LastTaken(h: seq<Event>, k: nat): (r: Option<nat>)
    requires k <= |h|
    ensures r.Some? ==> r.value < k && h[r.value].Message?
  {
    if k == 0 then None
    else if h[k - 1].Message? && Takes(SequenceOf(h, LastTaken(h, k - 1)), h[k - 1].d) then Some(k - 1)
    else LastTaken(h, k - 1)
  }

  function SequenceOf(h: seq<Event>, taken: Option<nat>): Option<int>
    requires taken.Some? ==> taken.value < |h| && h[taken.value].Message?
  {
    if taken.None? then None else h[taken.value].d.sequence
  }

  /** Event i is a decision the gate takes: a level or a fault, not a repeat. */
  predicate IsTaken(h: seq<Event>, i: nat) {
    i < |h| && LastTaken(h, i + 1) == Some(i)
  }

  predicate TakenAs(h: seq<Event>, i: nat, level: Level) {
    IsTaken(h, i) && Asks(h[i].d) == Some(level)
  }

  /** Nothing at all arrived between event i and event q. */
  ghost predicate QuietSince(h: seq<Event>, i: nat, q: nat) {
    i < q <= |h| && !h[i].Query? && forall j :: i < j < q ==> h[j].Query?
  }

  /** At query q the last message of any kind is older than the stale limit. */
  ghost predicate FindsLinkDead(l: Limits, h: seq<Event>, q: nat) {
    q < |h| && h[q].Query? && exists i: nat :: QuietSince(h, i, q) && h[q].time - h[i].time > l.staleAfter
  }

  /** Some query since the last decision taken, up to and including k, found the link dead. */
  ghost predicate LinkLatched(l: Limits, h: seq<Event>, k: nat)
    requires k < |h|
  {
    LastTaken(h, k).Some? && exists q: nat :: LastTaken(h, k).value < q <= k && FindsLinkDead(l, h, q)
  }

  /** A stop, or a reduce, taken less than its hold ago. */
  ghost predicate HoldRuns(h: seq<Event>, k: nat, level: Level, hold: real)
    requires k < |h|
  {
    exists i: nat :: i < k && TakenAs(h, i, level) && h[k].time - h[i].time < hold
  }

  ghost predicate LatestIs(h: seq<Event>, k: nat, level: Level)
    requires k <= |h|
  {
    LastTaken(h, k).Some? && TakenAs(h, LastTaken(h, k).value, level)
  }

  /** The level the whole history calls for at query k. */
  ghost function LevelByHistory(l: Limits, h: seq<Event>, k: nat): Level
    requires k < |h|
  {
    if LinkLatched(l, h, k) then StopLevel
    else if LatestIs(h, k, StopLevel) || HoldRuns(h, k, StopLevel, l.stopHold) then StopLevel
    else if LatestIs(h, k, ReduceLevel) || HoldRuns(h, k, ReduceLevel, l.reduceHold) then ReduceLevel
    else NormalLevel
  }

  lemma {:induction false} LastTakenIsTaken(h: seq<Event>, k: nat)
    requires k <= |h| && LastTaken(h, k).Some?
    ensures IsTaken(h, LastTaken(h, k).value) && Asks(h[LastTaken(h, k).value].d).Some?
  {
    if LastTaken(h, k).value < k - 1 {
      LastTakenIsTaken(h, k - 1);
    } else {
      assert LastTaken(h, k) == Some(k - 1);
    }
  }

  lemma {:induction false} LatestField(l: Limits, h: seq<Event>, k: nat)
    requires k <= |h|
    ensures After(l, h, k).latestSeq == SequenceOf(h, LastTaken(h, k))
    ensures After(l, h, k).latest == if LastTaken(h, k).None? then None else Asks(h[LastTaken(h, k).value].d)
  {
    if k > 0 {
      LatestField(l, h, k - 1);
    }
  }

  /** The recorded stop time is that of the latest stop taken. */
  ghost predicate IsLatest(h: seq<Event>, k: nat, level: Level, time: Option<real>)
    requires k <= |h|
  {
    && (time.None? ==> forall i: nat :: i < k ==> !TakenAs(h, i, level))
    && (time.Some? ==> exists i: nat :: i < k && TakenAs(h, i, level) && h[i].time == time.value)
    && (time.Some? ==> forall i: nat :: i < k && TakenAs(h, i, level) ==> h[i].time <= time.value)
  }

  lemma HoldStep(l: Limits, h: seq<Event>, k: nat)
    requires k < |h|
    ensures var before, after := After(l, h, k), After(l, h, k + 1);
            && after.lastStop == (if TakenAs(h, k, StopLevel) then Some(h[k].time) else before.lastStop)
            && after.lastReduce == (if TakenAs(h, k, ReduceLevel) then Some(h[k].time) else before.lastReduce)
  {
    LatestField(l, h, k);
  }

  /** When a decision asking for the level was last taken. */
  function HoldTime(h: seq<Event>, k: nat, level: Level): Option<real>
    requires k <= |h|
  {
    if k == 0 then None else if TakenAs(h, k - 1, level) then Some(h[k - 1].time) else HoldTime(h, k - 1, level)
  }

  lemma {:induction false} HoldFields(l: Limits, h: seq<Event>, k: nat)
    requires k <= |h|
    ensures After(l, h, k).lastStop == HoldTime(h, k, StopLevel)
    ensures After(l, h, k).lastReduce == HoldTime(h, k, ReduceLevel)
  {
    if k > 0 {
      HoldFields(l, h, k - 1);
      HoldStep(l, h, k - 1);
    }
  }

  lemma {:induction false} HoldTimeIsLatest(h: seq<Event>, k: nat, level: Level)
    requires k <= |h| && ClockIsMonotone(h)
    ensures IsLatest(h, k, level, HoldTime(h, k, level))
  {
    if k > 0 {
      HoldTimeIsLatest(h, k - 1, level);
      IsLatestStep(h, k - 1, level, HoldTime(h, k - 1, level));
    }
  }

  lemma IsLatestStep(h: seq<Event>, k: nat, level: Level, time: Option<real>)
    requires k < |h| && ClockIsMonotone(h)
    requires IsLatest(h, k, level, time)
    ensures IsLatest(h, k + 1, level, if TakenAs(h, k, level) then Some(h[k].time) else time)
  {
  }

  lemma HoldsByHistory(h: seq<Event>, k: nat, level: Level, hold: real)
    requires k < |h| && ClockIsMonotone(h)
    ensures Held(HoldTime(h, k, level), h[k].time, hold) <==> HoldRuns(h, k, level, hold)
  {
    HoldTimeIsLatest(h, k, level);
  }

  /** The last of the first k events that is a message of any kind. */
  function LastMessage(h: seq<Event>, k: nat): Option<nat>
    requires k <= |h|
  {
    if k == 0 then None else if h[k - 1].Query? then LastMessage(h, k - 1) else Some(k - 1)
  }

  lemma {:induction false} LastMessageIs(h: seq<Event>, k: nat, i: nat)
    requires k <= |h|
    ensures LastMessage(h, k) == Some(i) <==> QuietSince(h, i, k)
    ensures i < k && !h[i].Query? ==> LastMessage(h, k).Some?
  {
    if k > 0 {
      LastMessageIs(h, k - 1, i);
    }
  }

  /** The recorded heard time is that of the last message of any kind. */
  lemma {:induction false} HeardField(l: Limits, h: seq<Event>, k: nat)
    requires k <= |h|
    ensures LastMessage(h, k).Some? ==> LastMessage(h, k).value < |h|
    ensures After(l, h, k).lastHeard ==
            if LastMessage(h, k).None? then None else Some(h[LastMessage(h, k).value].time)
  {
    if k > 0 {
      HeardField(l, h, k - 1);
    }
  }

  lemma OverdueByHistory(l: Limits, h: seq<Event>, k: nat)
    requires k < |h| && h[k].Query? && LastTaken(h, k).Some?
    ensures Overdue(l, After(l, h, k), h[k].time) <==> FindsLinkDead(l, h, k)
  {
    HeardField(l, h, k);
    LatestField(l, h, k);
    LastTakenIsTaken(h, k);
    LastMessageIs(h, k, LastTaken(h, k).value);
    var i := LastMessage(h, k).value;
    LastMessageIs(h, k, i);
    forall j: nat | QuietSince(h, j, k)
      ensures j == i
    {
      LastMessageIs(h, k, j);
    }
  }

  ghost predicate LatchedBefore(l: Limits, h: seq<Event>, k: nat)
    requires k <= |h|
  {
    LastTaken(h, k).Some? && exists q: nat :: LastTaken(h, k).value < q < k && FindsLinkDead(l, h, q)
  }

  lemma {:induction false} StaleField(l: Limits, h: seq<Event>, k: nat)
    requires k <= |h|
    ensures After(l, h, k).stale <==> LatchedBefore(l, h, k)
  {
    if k > 0 {
      StaleField(l, h, k - 1);
      LatestField(l, h, k - 1);
      var e := h[k - 1];
      if LastTaken(h, k) == Some(k - 1) {
        assert !After(l, h, k).stale;
      } else {
        assert LastTaken(h, k) == LastTaken(h, k - 1);
        if e.Query? && LastTaken(h, k).Some? {
          OverdueByHistory(l, h, k - 1);
        }
        assert FindsLinkDead(l, h, k - 1) ==> e.Query?;
        StaleStep(l, h, k - 1);
      }
    }
  }

  lemma StaleStep(l: Limits, h: seq<Event>, k: nat)
    requires k < |h| && LastTaken(h, k + 1) == LastTaken(h, k)
    ensures LatchedBefore(l, h, k + 1) <==> LatchedBefore(l, h, k) || (LastTaken(h, k).Some? && FindsLinkDead(l, h, k))
  {
  }

  /** Under a clock that never runs back, level() is a function of the whole history
      of decisions, liveness messages and queries. */
  lemma LevelIsHistory(l: Limits, h: seq<Event>, k: nat)
    requires k < |h| && h[k].Query? && ClockIsMonotone(h)
    ensures LevelOf(l, After(l, h, k), h[k].time) == LevelByHistory(l, h, k)
  {
    LatestField(l, h, k);
    HoldFields(l, h, k);
    HoldsByHistory(h, k, StopLevel, l.stopHold);
    HoldsByHistory(h, k, ReduceLevel, l.reduceHold);
    StaleField(l, h, k);
    if LastTaken(h, k).Some? {
      LastTakenIsTaken(h, k);
      OverdueByHistory(l, h, k);
      assert LinkLatched(l, h, k) <==> LatchedBefore(l, h, k) || FindsLinkDead(l, h, k);
    }
  }

  /** With an active gate, NORMAL is answered exactly when the latest decision is
      NORMAL, no query since it found the link dead, and both holds have run out. */
  lemma NormalExactlyWhen(l: Limits, h: seq<Event>, k: nat)
    requires k < |h| && h[k].Query? && ClockIsMonotone(h) && LastTaken(h, k).Some?
    ensures LevelOf(l, After(l, h, k), h[k].time) == NormalLevel <==>
            && LatestIs(h, k, NormalLevel)
            && !LinkLatched(l, h, k)
            && !HoldRuns(h, k, StopLevel, l.stopHold)
            && !HoldRuns(h, k, ReduceLevel, l.reduceHold)
  {
    LevelIsHistory(l, h, k);
    LastTakenIsTaken(h, k);
    var asked := Asks(h[LastTaken(h, k).value].d).value;
    assert forall level :: LatestIs(h, k, level) <==> level == asked;
    assert asked == NormalLevel || asked == ReduceLevel || asked == StopLevel;
  }

  /** A silence no query looks into is not latched: here the link is dead for 100 s,
      a liveness message ends the silence just before the query, and NORMAL goes on. */
  lemma UnqueriedSilenceIsForgotten(l: Limits, d: Decision)
    requires l.staleAfter == 10.0 && l.stopHold > 0.0 && l.reduceHold > 0.0
    requires d.mode == Some(NormalLevel)
    ensures var h := [Message(0.0, d), Heard(100.0), Query(100.0)];
            ClockIsMonotone(h) && LevelOf(l, After(l, h, 2), 100.0) == NormalLevel
  {
    var h := [Message(0.0, d), Heard(100.0), Query(100.0)];
    assert After(l, h, 1) == AfterDecision(SILENT, 0.0, d);
    assert After(l, h, 2) == AfterHeard(After(l, h, 1), 100.0);
  }
}

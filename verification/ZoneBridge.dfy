/** The bridge that mirrors two ATL zones' mute decisions to the robots that follow
    them, without one zone leaking into the other. */
module ZoneBridge {
  import opened Options

  /** One ATL command; the tracked state, when the server sends it, wins. */
  datatype Command = Command(code: int, trackedMuted: Option<bool>, trackedAlarm: Option<bool>)

  const HW_ERROR: int := 1
  const MUTE: int := 2
  const SW_ERROR: int := 3
  const UNMUTE: int := 7

  datatype Mirror = Mirror(muted: bool, alarm: bool)

  function AtlStateAfter(c: Command, prev: Mirror): Mirror {
    if c.trackedMuted.Some? then Mirror(c.trackedMuted.value, c.trackedAlarm == Some(true))
    else if c.code == MUTE then Mirror(true, false)
    else if c.code == HW_ERROR || c.code == SW_ERROR || c.code == UNMUTE then Mirror(false, true)
    else prev
  }

  datatype ZoneCommand = ZoneCommand(zone: int, command: Command)

  /** The last command of the zone that decides its mute, among the first n: one with
      tracked state, or one of the four that state a decision. */
  ghost predicate IsLastDeciding(cs: seq<ZoneCommand>, n: nat, inZone2: bool, i: nat) {
    && i < n <= |cs| && Decides(cs[i]) && (cs[i].zone == 2) == inZone2
    && forall j :: i < j < n && (cs[j].zone == 2) == inZone2 ==> !Decides(cs[j])
  }

  predicate Decides(c: ZoneCommand) {
    || c.command.trackedMuted.Some?
    || c.command.code == MUTE || c.command.code == UNMUTE || c.command.code == HW_ERROR || c.command.code == SW_ERROR
  }

  /** The mute a deciding command states. */
  predicate SaysMuted(c: ZoneCommand) {
    if c.command.trackedMuted.Some? then c.command.trackedMuted.value else c.command.code == MUTE
  }

  class SafetyRosBridge {
    var robotZones: map<string, int>
    var currentIsMuted: bool
    var currentIsAlarm: bool
    var zone2IsMuted: bool

    function State(): BridgeState
      reads this
    {
      BridgeState(Mirror(currentIsMuted, currentIsAlarm), zone2IsMuted)
    }

    constructor (zones: map<string, int>)
      ensures robotZones == zones && State() == START
    {
      robotZones, currentIsMuted, currentIsAlarm, zone2IsMuted := zones, false, false, false;
    }

    method PublishZone2(c: Command)
      modifies this`zone2IsMuted
      ensures State() == Step(old(State()), ZoneCommand(2, c))
    {
      var m := AtlStateAfter(c, Mirror(zone2IsMuted, false));
      zone2IsMuted := m.muted;
    }

    method PublishCommand(c: Command, zone: int)
      modifies this`zone2IsMuted, this`currentIsMuted, this`currentIsAlarm
      ensures State() == Step(old(State()), ZoneCommand(zone, c))
    {
      if zone == 2 {
        PublishZone2(c);
        return;
      }
      var m := AtlStateAfter(c, Mirror(currentIsMuted, currentIsAlarm));
      currentIsMuted, currentIsAlarm := m.muted, m.alarm;
    }

    /** What the robot's own zone has last decided; a robot of no zone follows zone 1. */
    predicate RobotIsMuted(robot: string)
      reads this
      ensures RobotIsMuted(robot) == MuteOf(State(), robot in robotZones && robotZones[robot] == 2)
    {
      if robot in robotZones && robotZones[robot] == 2 then zone2IsMuted else currentIsMuted
    }

    /** Without a second zone its robots follow zone 1. */
    method FollowZone1WithoutZone2()
      modifies this`robotZones
      ensures robotZones.Keys == old(robotZones).Keys
      ensures forall r :: r in robotZones ==> robotZones[r] == if old(robotZones)[r] == 2 then 1 else old(robotZones)[r]
      ensures forall r :: RobotIsMuted(r) == if r in robotZones && old(robotZones)[r] == 2 then currentIsMuted else old(RobotIsMuted(r))
    {
      robotZones := map r | r in robotZones :: if robotZones[r] == 2 then 1 else robotZones[r];
    }
  }

  datatype BridgeState = BridgeState(zone1: Mirror, zone2Muted: bool)

  const START := BridgeState(Mirror(false, false), false)

  function Step(s: BridgeState, c: ZoneCommand): BridgeState {
    if c.zone == 2 then BridgeState(s.zone1, AtlStateAfter(c.command, Mirror(s.zone2Muted, false)).muted)
    else BridgeState(AtlStateAfter(c.command, s.zone1), s.zone2Muted)
  }

  function After(cs: seq<ZoneCommand>, n: nat): BridgeState
    requires n <= |cs|
  {
    if n == 0 then START else Step(After(cs, n - 1), cs[n - 1])
  }

  function MuteOf(s: BridgeState, inZone2: bool): bool {
    if inZone2 then s.zone2Muted else s.zone1.muted
  }

  /** Over every interleaving, a zone is muted exactly when its own last deciding
      command says so; the other zone's commands do not matter. */
  lemma {:induction false} MutedByOwnLastCommand(cs: seq<ZoneCommand>, n: nat, inZone2: bool)
    requires n <= |cs|
    ensures MuteOf(After(cs, n), inZone2) <==>
            exists i: nat :: IsLastDeciding(cs, n, inZone2, i) && SaysMuted(cs[i])
  {
    if n > 0 {
      MutedByOwnLastCommand(cs, n - 1, inZone2);
      var c := cs[n - 1];
      if (c.zone == 2) == inZone2 && Decides(c) {
        assert IsLastDeciding(cs, n, inZone2, n - 1);
        assert forall i: nat :: IsLastDeciding(cs, n, inZone2, i) ==> i == n - 1;
      } else {
        var p := n - 1;
        forall i: nat
          ensures IsLastDeciding(cs, n, inZone2, i) <==> IsLastDeciding(cs, p, inZone2, i)
        {
        }
      }
    }
  }

  /** A zone's own commands, in order. */
  function OwnCommands(cs: seq<ZoneCommand>, n: nat, inZone2: bool): seq<ZoneCommand>
    requires n <= |cs|
  {
    if n == 0 then []
    else OwnCommands(cs, n - 1, inZone2) + if (cs[n - 1].zone == 2) == inZone2 then [cs[n - 1]] else []
  }

  lemma {:induction false} AfterPrefix(cs: seq<ZoneCommand>, ds: seq<ZoneCommand>, n: nat)
    requires n <= |cs| && n <= |ds| && forall i :: 0 <= i < n ==> cs[i] == ds[i]
    ensures After(cs, n) == After(ds, n)
  {
    if n > 0 {
      AfterPrefix(cs, ds, n - 1);
    }
  }

  /** A zone's whole state is the fold of its own commands alone. */
  lemma {:induction false} ZonesDoNotLeak(cs: seq<ZoneCommand>, n: nat, inZone2: bool)
    requires n <= |cs|
    ensures var own := OwnCommands(cs, n, inZone2);
            && MuteOf(After(cs, n), inZone2) == MuteOf(After(own, |own|), inZone2)
            && (!inZone2 ==> After(cs, n).zone1 == After(own, |own|).zone1)
  {
    if n > 0 {
      ZonesDoNotLeak(cs, n - 1, inZone2);
      var front, own := OwnCommands(cs, n - 1, inZone2), OwnCommands(cs, n, inZone2);
      AfterPrefix(own, front, |front|);
    }
  }

  /** The run with command i delivered twice in a row. */
  function Repeated(cs: seq<ZoneCommand>, i: nat): seq<ZoneCommand>
    requires i < |cs|
  {
    cs[..i + 1] + [cs[i]] + cs[i + 1..]
  }

  /** Repeating a command in place changes no state from there on. */
  lemma {:induction false} RepeatChangesNothing(cs: seq<ZoneCommand>, i: nat, n: nat)
    requires i < n <= |cs|
    ensures After(Repeated(cs, i), n + 1) == After(cs, n)
  {
    var again := Repeated(cs, i);
    if n == i + 1 {
      AfterPrefix(again, cs, n);
    } else {
      RepeatChangesNothing(cs, i, n - 1);
    }
  }
}

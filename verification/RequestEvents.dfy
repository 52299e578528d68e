/** A request's events, one by one: what the deciding thread sees when it looks in
    between, and when that lets it mute. */
module RequestEvents {
  import opened Options
  import opened PssProtocol
  import opened RequestQueries
  import opened SubCauses
  import opened SourcePresence
  import opened InputState
  import opened AtlState
  import opened AtlRun
  import opened AtlSafety
  import opened Uninterrupted
  import Seq = GatewaySequence

  /** No event below slot n asks the person count to leave its range. */
  ghost predicate NoDriftBelow(cfg: Config, t: Trailer, ids: EventIds, req: DecisionRequest, n: nat) {
    forall i: nat :: i < n ==> !DriftsAt(cfg, t, ids, req, i)
  }

  // ----- events with nothing in between -----

  /** n turns of the loop leave the trailer of the first n events, and latch exactly
      when one of them drifts. */
  lemma {:induction false} EventsAre(cfg: Config, s: AtlState, req: DecisionRequest, n: nat)
    requires s.inbox.work == Some(Work(req, 0)) && n <= Count(req)
    ensures var t := Events(cfg, s, n);
            && t.trailer == TrailerAfter(cfg, s.trailer, s.inbox.ids, req, n)
            && t.inbox.work == Some(Work(req, n))
            && (forall i :: n <= i < MAX_SUMMARY ==> t.inbox.ids[i] == s.inbox.ids[i])
            && t.faults == s.faults && t.output.phase == s.output.phase && t.output.release == s.output.release
            && t.latch == if NoDriftBelow(cfg, s.trailer, s.inbox.ids, req, n) then s.latch else s.latch + {CountDrift}
  {
    if n > 0 {
      EventsAre(cfg, s, req, n - 1);
      var u := Events(cfg, s, n - 1);
      assert WorkActs(u) <==> Acts(s.inbox.ids, req, n - 1);
      assert WorkDrifts(cfg, u) <==> DriftsAt(cfg, s.trailer, s.inbox.ids, req, n - 1);
    }
  }

  /** After n events of a request, undisturbed, a decision mutes exactly when those n
      events leave the trailer safe and none of them drifted, whatever the rest of the
      request would do. */
  lemma MutesMidwayIff(cfg: Config, s: AtlState, req: DecisionRequest, n: nat)
    requires s.inbox.work == Some(Work(req, 0)) && n <= Count(req)
    requires s.output.phase.Idle? && !Holding(cfg, s) && !Suppressed(cfg, s.faults)
    ensures Decided(cfg, Events(cfg, s, n)).output.phase == Chosen(true) <==>
            MayMute(TrailerAfter(cfg, s.trailer, s.inbox.ids, req, n)) && NoDriftBelow(cfg, s.trailer, s.inbox.ids, req, n)
  {
    EventsAre(cfg, s, req, n);
    var t := Events(cfg, s, n);
    assert !NoDriftBelow(cfg, s.trailer, s.inbox.ids, req, n) ==> CountDrift in t.latch;
  }

  // ----- over every run -----

  /** The request taken at step b is at slot n when step m comes, and the trailer is
      what its first n events have made of it. */
  ghost predicate MidwayAt(cfg: Config, run: seq<Action>, b: nat, m: nat, n: nat) {
    && b < m <= |run| && TakenAt(cfg, run, b)
    && var req := run[b].request;
       && n <= Count(req)
       && After(cfg, run, b + 1).inbox.work == Some(Work(req, 0))
       && After(cfg, run, m).inbox.work == Some(Work(req, n))
       && After(cfg, run, m).trailer ==
          TrailerAfter(cfg, After(cfg, run, b + 1).trailer, After(cfg, run, b + 1).inbox.ids, req, n)
       && forall i :: n <= i < MAX_SUMMARY ==> After(cfg, run, m).inbox.ids[i] == After(cfg, run, b + 1).inbox.ids[i]
  }

  /** Between two events nothing moves the trailer, the ids or the place in the request. */
  lemma OtherStepsLeaveWork(cfg: Config, s: AtlState, a: Action)
    requires Inv(cfg, s) && Enabled(cfg, s, a) && s.inbox.work.Some? && !a.NextEvent?
    ensures Step(cfg, s, a).inbox == s.inbox && Step(cfg, s, a).trailer == s.trailer
  {
  }

  lemma WorkStarts(cfg: Config, s: AtlState, a: Action)
    requires Step(cfg, s, a).inbox.work.Some? && s.inbox.work.None?
    ensures a.PacketArrives? && IsTaken(s, a.packet) && Step(cfg, s, a).inbox.work == Some(Work(a.request, 0))
  {
  }

  /** Whenever a request is in work, the trailer is the state some prefix of its events
      leaves, counted from the step that took it. */
  lemma {:induction false} WorkIsAPrefix(cfg: Config, run: seq<Action>, m: nat) returns (b: nat, n: nat)
    requires m <= |run| && IsRun(cfg, run, m)
    requires After(cfg, run, m).inbox.work.Some?
    ensures MidwayAt(cfg, run, b, m, n)
  {
    var s, a := After(cfg, run, m - 1), run[m - 1];
    if s.inbox.work.None? {
      WorkStarts(cfg, s, a);
      b, n := m - 1, 0;
    } else {
      RunKeepsInv(cfg, run, m - 1);
      b, n := WorkIsAPrefix(cfg, run, m - 1);
      if a.NextEvent? {
        var req := run[b].request;
        assert WorkActs(s) <==> Acts(After(cfg, run, b + 1).inbox.ids, req, n);
        n := n + 1;
      } else {
        OtherStepsLeaveWork(cfg, s, a);
      }
    }
  }

  /** Over every interleaving, what a MUTE was settled on is a trailer at rest, or the
      trailer after some prefix of the events of one request. */
  lemma MuteSeesAPrefix(cfg: Config, run: seq<Action>, r: nat) returns (q: nat, b: nat, n: nat)
    requires IsRun(cfg, run, |run|) && MuteChosenAt(cfg, run, r)
    ensures q < r && DecidingSince(cfg, run, q, r, After(cfg, run, q).trailer) && MayMute(After(cfg, run, q).trailer)
    ensures After(cfg, run, q).inbox.work.None? || MidwayAt(cfg, run, b, q, n)
  {
    var u, v;
    q, u, v := MuteMeansSafe(cfg, run, r);
    b, n := 0, 0;
    if After(cfg, run, q).inbox.work.Some? {
      RunOfPrefix(cfg, run, |run|, q);
      b, n := WorkIsAPrefix(cfg, run, q);
    }
  }

  // ----- a request is not atomic to the deciding thread -----

  function EventEntry(id: nat, code: nat): SensorData {
    SensorData(true, true, Event(id, Generic(code), CAUSE_NONE, Fused, 0, {}, {}))
  }

  /** A forklift and, right behind it, a person. */
  const BOTH_ENTER: DecisionRequest :=
    DecisionRequest(2, [EventEntry(1, 0), EventEntry(2, 2), NO_ENTRY, NO_ENTRY, NO_ENTRY, NO_ENTRY, NO_ENTRY, NO_ENTRY], Normal)

  const FIRST_HALF := [PacketArrives(Seq.Packet(1, 1), BOTH_ENTER), NextEvent]

  /** The packet and its first event, a whole decision, and the second event. */
  const HALF_RUN := FIRST_HALF + seq(16, _ => DecideNext) + [NextEvent]

  lemma FirstHalf()
    ensures var s := After(SITE, HALF_RUN, 2);
            && IsRun(SITE, HALF_RUN, 2) && s.trailer == Trailer(true, 0, false) && s.inbox.work == Some(Work(BOTH_ENTER, 1))
            && s.inbox.ids == NO_IDS[0 := 1] && s.output == LAUNCH.output
            && !Holding(SITE, s) && !Suppressed(SITE, s.faults)
  {
    var req := BOTH_ENTER;
    assert req.summary[0] == EventEntry(1, 0) && req.summary[1] == EventEntry(2, 2);
    QuietRequest(SITE, Sequenced(LAUNCH, Seq.Packet(1, 1)), req);
    assert After(SITE, HALF_RUN, 0) == LAUNCH && IsTaken(LAUNCH, Seq.Packet(1, 1));
    var s := After(SITE, HALF_RUN, 1);
    assert s == Step(SITE, LAUNCH, HALF_RUN[0]);
    assert IsRun(SITE, HALF_RUN, 0) && IsRun(SITE, HALF_RUN, 1);
  }

  lemma WholeDecision()
    ensures IsRun(SITE, HALF_RUN, 18) && After(SITE, HALF_RUN, 18) == Decided(SITE, After(SITE, HALF_RUN, 2))
    ensures After(SITE, HALF_RUN, 18).output.phase == Chosen(true)
  {
    FirstHalf();
    SettlesInSixteen(SITE, After(SITE, HALF_RUN, 2));
    DecidesInARow(SITE, HALF_RUN, 2, 16);
  }

  /** Neither before nor after this request may the site be muted, and yet a decision
      made between its two events mutes it. */
  lemma HalfARequestMutes()
    ensures IsRun(SITE, HALF_RUN, 19) && MuteChosenAt(SITE, HALF_RUN, 17)
    ensures !MayMute(After(SITE, HALF_RUN, 0).trailer) && !MayMute(After(SITE, HALF_RUN, 19).trailer)
  {
    FirstHalf();
    WholeDecision();
    var s := After(SITE, HALF_RUN, 18);
    assert HALF_RUN[18] == NextEvent;
    assert After(SITE, HALF_RUN, 19) == EventStep(SITE, s);
    assert BOTH_ENTER.summary[1] == EventEntry(2, 2);
  }
}

/** Source presence: which tracked sources an SDM knows of, when a group of them
    counts as lost, and the one kind of report that ends a loss. */
module SourcePresence {
  import opened Options
  import opened PssProtocol
  import opened RequestQueries
  import opened SubCauses

  const GROUP_COUNT: nat := 3

  /** 0 the Safety Monitor, 1 the Perception Monitor, 2 the numbered MDX instances. */
  type Group = g: nat | g < GROUP_COUNT

  const TRACKED: Mask := set b: Bit | b < 2 || 8 <= b < 16

  function GroupMask(g: Group): Mask {
    if g == 0 then PRESENCE_SAFETY_MONITOR else if g == 1 then PRESENCE_PERCEPTION_MONITOR else PRESENCE_MDX
  }

  function GroupSubCause(g: Group): SubCause {
    if g == 0 then MonitorLost else if g == 1 then PmLost else MdxLost
  }

  /** The group whose loss sub-cause c stands for. */
  function GroupOf(c: SubCause): Option<Group> {
    match c
    case MonitorLost => Some(0)
    case PmLost => Some(1)
    case MdxLost => Some(2)
    case _ => None
  }

  /** The sub-cause of a source-lost SW_FAIL, by its cause. */
  function SourceLostSubCause(c: EventCause): Option<SubCause> {
    if c == CAUSE_SAFETY_MONITOR_LOST then Some(MonitorLost)
    else if c == CAUSE_PERCEPTION_MONITOR_LOST then Some(PmLost)
    else if c == CAUSE_MDX_CLIENT_LOST then Some(MdxLost)
    else None
  }

  // ----- what one request says -----

  /** Some source-lost SW_FAIL among the first n slots has sub-cause c. */
  ghost predicate LossIn(es: seq<SensorData>, n: nat, c: SubCause)
    requires n <= |es|
  {
    exists i :: 0 <= i < n && es[i].event.eventType.SwFail? && SourceLostSubCause(es[i].event.cause) == Some(c)
  }

  /** Some source-lost SW_FAIL among the first n slots names tracked source b. */
  ghost predicate LostSourceIn(es: seq<SensorData>, n: nat, b: Bit)
    requires n <= |es|
  {
    exists i :: 0 <= i < n && es[i].event.eventType.SwFail? && SourceLostSubCause(es[i].event.cause).Some? &&
                b in es[i].event.objectId0 && b in TRACKED
  }

  ghost predicate ReportsLoss(req: DecisionRequest, g: Group) {
    LossIn(req.summary, Count(req), GroupSubCause(g))
  }

  /** The request names source b: as lost, or as expected by its presence report. */
  ghost predicate Names(req: DecisionRequest, b: Bit) {
    || LostSourceIn(req.summary, Count(req), b)
    || (ReportOf(req).Some? && b in ReportOf(req).value.expected && b in TRACKED)
  }

  /** The request's presence report shows source b present. */
  ghost predicate Shows(req: DecisionRequest, b: Bit) {
    ReportOf(req).Some? && b in ReportOf(req).value.present && b in TRACKED
  }

  /** Before the report's own presence set, the SDM knows of source b. */
  ghost predicate Knows(seen: Mask, req: DecisionRequest, b: Bit) {
    b in seen || Names(req, b)
  }

  /** A source of group g the SDM knows of is missing from the request's report. */
  ghost predicate Missing(seen: Mask, req: DecisionRequest, g: Group) {
    ReportOf(req).Some? && exists b :: b in GroupMask(g) && Knows(seen, req, b) && !Shows(req, b)
  }

  ghost predicate Raises(seen: Mask, req: DecisionRequest, g: Group) {
    ReportsLoss(req, g) || Missing(seen, req, g)
  }

  ghost predicate ShowsSome(req: DecisionRequest, g: Group) {
    exists b :: b in GroupMask(g) && Shows(req, b)
  }

  /** The one thing that ends a loss of group g: outside ERROR mode, a presence
      report shows some source of the group and every one the SDM knows of,
      and no SW_FAIL of the same request reports the group lost. */
  ghost predicate Restores(seen: Mask, req: DecisionRequest, g: Group) {
    && req.mode != Error
    && ReportOf(req).Some?
    && ShowsSome(req, g)
    && !Missing(seen, req, g)
    && !ReportsLoss(req, g)
  }

  ghost function SeenAfter(seen: Mask, req: DecisionRequest): Mask {
    set b: Bit | b in seen || Names(req, b) || Shows(req, b)
  }

  ghost predicate PresenceRaises(seen: Mask, req: DecisionRequest, c: SubCause) {
    GroupOf(c).Some? && Raises(seen, req, GroupOf(c).value)
  }

  ghost predicate PresenceClears(seen: Mask, req: DecisionRequest, c: SubCause) {
    GroupOf(c).Some? && Restores(seen, req, GroupOf(c).value)
  }

  // ----- the evaluator -----

  /** One group of a report, against the sources known so far. */
  ghost predicate GroupMissing(known: Mask, mask: Mask, g: Group) {
    known * GroupMask(g) - mask != {}
  }

  ghost predicate GroupClears(known: Mask, mask: Mask, mode: OperationalMode, lost: set<SubCause>, g: Group) {
    !GroupMissing(known, mask, g) && mask * GroupMask(g) != {} && mode != Error && GroupSubCause(g) !in lost
  }

  /** The caller's persistent record of every tracked source it knows of. */
  class PresenceRecord {
    var seen: Mask

    constructor ()
      ensures seen == {}
    {
      seen := {};
    }

    /** Every source-lost SW_FAIL, wherever it sits and whatever the mode. */
    method ScanLostSources(r: DecisionRequest) returns (raised: set<SubCause>)
      modifies this
      ensures forall c :: c in raised <==> LossIn(r.summary, Count(r), c)
      ensures forall b: Bit :: b in seen <==> b in old(seen) || LostSourceIn(r.summary, Count(r), b)
    {
      raised := {};
      for i := 0 to Count(r)
        invariant forall c :: c in raised <==> LossIn(r.summary, i, c)
        invariant forall b: Bit :: b in seen <==> b in old(seen) || LostSourceIn(r.summary, i, b)
      {
        var ev := r.summary[i].event;
        var lost := SourceLostSubCause(ev.cause);
        if ev.eventType.SwFail? && lost.Some? {
          raised := raised + {lost.value};
          seen := seen + ev.objectId0 * TRACKED;
        }
      }
    }

    /** The groups of one report. They are disjoint, so each is decided alone. */
    method CompareGroups(r: DecisionRequest, mask: Mask, lost: set<SubCause>) returns (d: Delta)
      modifies this
      ensures forall b: Bit :: b in seen <==> b in old(seen) || (b in mask && b in TRACKED)
      ensures forall c :: c in d.raised <==>
                          c in lost || (GroupOf(c).Some? && GroupMissing(old(seen), mask, GroupOf(c).value))
      ensures forall c :: c in d.cleared <==>
                          GroupOf(c).Some? && GroupClears(old(seen), mask, r.mode, lost, GroupOf(c).value)
    {
      d := Delta(lost, {});
      var g: nat := 0;
      while g < GROUP_COUNT
        invariant g <= GROUP_COUNT
        invariant forall b: Bit :: b in seen <==>
                                   b in old(seen) || (b in mask && ((g > 0 && b == 0) || (g > 1 && b == 1) || (g > 2 && 8 <= b < 16)))
        invariant forall c :: c in d.raised <==>
                              c in lost || (GroupOf(c).Some? && GroupOf(c).value < g &&
                                            GroupMissing(old(seen), mask, GroupOf(c).value))
        invariant forall c :: c in d.cleared <==>
                              GroupOf(c).Some? && GroupOf(c).value < g &&
                              GroupClears(old(seen), mask, r.mode, lost, GroupOf(c).value)
      {
        var group := GroupMask(g);
        var present := mask * group;
        var missing := seen * group - present;
        assert missing == old(seen) * group - mask;
        seen := seen + present;
        if missing != {} {
          d := Delta(d.raised + {GroupSubCause(g)}, d.cleared);
        } else if present != {} && r.mode != Error && GroupSubCause(g) !in d.raised {
          d := Delta(d.raised, d.cleared + {GroupSubCause(g)});
        }
        g := g + 1;
      }
    }

    method SourcePresenceEvaluate(req: Option<DecisionRequest>) returns (d: Delta)
      modifies this
      ensures req.None? ==> d == NO_CHANGE && seen == old(seen)
      ensures req.Some? ==> seen == SeenAfter(old(seen), req.value)
      ensures req.Some? ==> forall c :: c in d.raised <==> PresenceRaises(old(seen), req.value, c)
      ensures req.Some? ==> forall c :: c in d.cleared <==> PresenceClears(old(seen), req.value, c)
    {
      if req.None? {
        return NO_CHANGE;
      }
      var lost := ScanLostSources(req.value);
      LossInIsGroup(req.value);
      var found, mask, expected := FindPresenceReport(req);
      if !found {
        return Delta(lost, {});
      }
      seen := seen + expected * TRACKED;
      ghost var known := seen;
      assert forall b: Bit :: b in known <==> Knows(old(seen), req.value, b);
      d := CompareGroups(req.value, mask, lost);
      GroupMeaning(old(seen), known, req.value, mask, 0);
      GroupMeaning(old(seen), known, req.value, mask, 1);
      GroupMeaning(old(seen), known, req.value, mask, 2);
    }
  }

  lemma LossInIsGroup(req: DecisionRequest)
    ensures forall c :: LossIn(req.summary, Count(req), c) ==> GroupOf(c).Some? && GroupSubCause(GroupOf(c).value) == c
  {
  }

  lemma GroupMeaning(seen: Mask, known: Mask, req: DecisionRequest, mask: Mask, g: Group)
    requires forall b: Bit :: b in known <==> Knows(seen, req, b)
    requires ReportOf(req).Some? && ReportOf(req).value.present == mask
    ensures GroupMissing(known, mask, g) <==> Missing(seen, req, g)
    ensures mask * GroupMask(g) != {} <==> ShowsSome(req, g)
  {
    assert GroupMask(g) <= TRACKED;
    if b :| b in GroupMask(g) && Knows(seen, req, b) && !Shows(req, b) {
      assert b in known * GroupMask(g) - mask;
    }
    if b :| b in known * GroupMask(g) - mask {
      assert b in GroupMask(g) && Knows(seen, req, b) && !Shows(req, b);
    }
    if b :| b in mask * GroupMask(g) {
      assert b in GroupMask(g) && Shows(req, b);
    }
    if b :| b in GroupMask(g) && Shows(req, b) {
      assert b in mask * GroupMask(g);
    }
  }
}

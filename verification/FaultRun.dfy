/** Whole runs of requests through the three evaluators: one request's raises and
    clears never collide, so the order of the evaluators does not matter. */
module FaultRun {
  import opened Options
  import opened PssProtocol
  import opened RequestQueries
  import opened SubCauses
  import opened SourcePresence
  import opened InputState

  /** What an SDM keeps between requests. */
  datatype FaultState = FaultState(active: set<SubCause>, seen: Mask, held: Mask)

  const INITIAL := FaultState({}, {}, {})

  /** Some evaluator makes c active. */
  ghost predicate Raised(s: FaultState, req: DecisionRequest, c: SubCause) {
    GeneralRaises(req, c) || PresenceRaises(s.seen, req, c) || InputRaises(s.held, req, c)
  }

  /** Some evaluator refutes c. */
  ghost predicate Cleared(s: FaultState, req: DecisionRequest, c: SubCause) {
    GeneralClears(req, c) || PresenceClears(s.seen, req, c) || InputClears(s.held, req, c)
  }

  /** One request, all evaluators together; OrderIndependent shows that applying
      them one after another, in any order, comes to this. */
  ghost function Step(s: FaultState, req: DecisionRequest): FaultState {
    FaultState((set c: SubCause | (c in s.active || Raised(s, req, c)) && !Cleared(s, req, c)),
               SeenAfter(s.seen, req),
               HeldAfter(s.held, req))
  }

  /** The state after the first k requests of a run. */
  ghost function After(s: FaultState, reqs: seq<DecisionRequest>, k: nat): FaultState
    requires k <= |reqs|
  {
    if k == 0 then s else Step(After(s, reqs, k - 1), reqs[k - 1])
  }

  // ----- one request: raises against clears -----

  /** A source-lost sub-cause is raised by the general rules exactly when a
      source-lost SW_FAIL reports its group. */
  lemma GeneralLostIff(req: DecisionRequest, g: Group)
    ensures GeneralRaises(req, GroupSubCause(g)) <==> ReportsLoss(req, g)
  {
    forall i | 0 <= i < Count(req)
      ensures SwFailSubCause(req.summary[i].event) == GroupSubCause(g) <==>
              SourceLostSubCause(req.summary[i].event.cause) == Some(GroupSubCause(g))
    {
    }
  }

  lemma GeneralInputIff(req: DecisionRequest)
    ensures GeneralRaises(req, InputUnusable) <==> exists b: Bit :: Rejected(req, b)
  {
    if GeneralRaises(req, InputUnusable) {
      var i :| 0 <= i < Count(req) && req.summary[i].event.eventType.SwFail? &&
               SwFailSubCause(req.summary[i].event) == InputUnusable;
      var b :| b in req.summary[i].event.objectId0 * INPUT_STATE;
      assert IsInputUnusable(req.summary[i].event);
      assert Rejected(req, b);
    }
    if b: Bit :| Rejected(req, b) {
      var i :| 0 <= i < Count(req) && IsInputUnusable(req.summary[i].event) && b in req.summary[i].event.objectId0;
      assert b in req.summary[i].event.objectId0 * INPUT_STATE;
      assert SwFailSubCause(req.summary[i].event) == InputUnusable;
    }
  }

  lemma RejectedIsHeld(held: Mask, req: DecisionRequest)
    requires GeneralRaises(req, InputUnusable)
    ensures HeldAfter(held, req) != {}
  {
    GeneralInputIff(req);
    var b: Bit :| Rejected(req, b);
    assert b in HeldAfter(held, req);
  }

  /** Every source-lost or input-unusable bit the general rules raise, the
      dedicated evaluator raises too, whatever the caller's records hold. */
  lemma DedicatedEvaluatorCovers(s: FaultState, req: DecisionRequest, c: SubCause)
    requires GeneralRaises(req, c)
    requires GroupOf(c).Some? || c == InputUnusable
    ensures PresenceRaises(s.seen, req, c) || InputRaises(s.held, req, c)
  {
    if c == InputUnusable {
      RejectedIsHeld(s.held, req);
    } else {
      GeneralLostIff(req, GroupOf(c).value);
    }
  }

  /** No request both raises and clears a sub-cause, by any pair of evaluators and
      whatever the caller's records hold. */
  lemma RaisedIsNeverCleared(s: FaultState, req: DecisionRequest, c: SubCause)
    requires Raised(s, req, c)
    ensures !Cleared(s, req, c)
  {
    if GeneralRaises(req, c) {
      if GroupOf(c).Some? || c == InputUnusable {
        DedicatedEvaluatorCovers(s, req, c);
      } else if c != ModeError {
        assert HasSwFail(req);
      }
    }
  }

  // ----- applying the evaluators one by one -----

  ghost function GeneralDelta(req: DecisionRequest): Delta {
    Delta((set c: SubCause | GeneralRaises(req, c)), (set c: SubCause | GeneralClears(req, c)))
  }

  ghost function PresenceDelta(seen: Mask, req: DecisionRequest): Delta {
    Delta((set c: SubCause | PresenceRaises(seen, req, c)), (set c: SubCause | PresenceClears(seen, req, c)))
  }

  ghost function InputDelta(held: Mask, req: DecisionRequest): Delta {
    Delta((set c: SubCause | InputRaises(held, req, c)), (set c: SubCause | InputClears(held, req, c)))
  }

  function ApplyAll(active: set<SubCause>, ds: seq<Delta>): set<SubCause> {
    if ds == [] then active
    else ApplyAll(active, ds[..|ds| - 1]) + ds[|ds| - 1].raised - ds[|ds| - 1].cleared
  }

  ghost predicate RaisedBy(ds: seq<Delta>, c: SubCause) {
    exists d :: d in ds && c in d.raised
  }

  ghost predicate ClearedBy(ds: seq<Delta>, c: SubCause) {
    exists d :: d in ds && c in d.cleared
  }

  /** When no delta clears what another raises, a fold over them decides each
      sub-cause by whether any raises and any clears it. */
  lemma {:induction false} ApplyAllPointwise(active: set<SubCause>, ds: seq<Delta>, c: SubCause)
    requires !(RaisedBy(ds, c) && ClearedBy(ds, c))
    ensures c in ApplyAll(active, ds) <==> (c in active || RaisedBy(ds, c)) && !ClearedBy(ds, c)
  {
    if ds != [] {
      var front, d := ds[..|ds| - 1], ds[|ds| - 1];
      assert forall e :: e in ds <==> e in front || e == d;
      assert RaisedBy(ds, c) <==> RaisedBy(front, c) || c in d.raised;
      assert ClearedBy(ds, c) <==> ClearedBy(front, c) || c in d.cleared;
      ApplyAllPointwise(active, front, c);
    }
  }

  /** The active set does not depend on the order the evaluators are applied in. */
  lemma OrderIndependent(s: FaultState, req: DecisionRequest, order: seq<Delta>)
    requires multiset(order) ==
             multiset{GeneralDelta(req), PresenceDelta(s.seen, req), InputDelta(s.held, req)}
    ensures ApplyAll(s.active, order) == Step(s, req).active
  {
    var g, p, i := GeneralDelta(req), PresenceDelta(s.seen, req), InputDelta(s.held, req);
    forall d
      ensures d in order <==> d == g || d == p || d == i
    {
      assert d in order <==> d in multiset(order);
    }
    forall c
      ensures c in ApplyAll(s.active, order) <==> c in Step(s, req).active
    {
      assert RaisedBy(order, c) <==> c in g.raised || c in p.raised || c in i.raised;
      assert ClearedBy(order, c) <==> c in g.cleared || c in p.cleared || c in i.cleared;
      if Raised(s, req, c) {
        RaisedIsNeverCleared(s, req, c);
      }
      ApplyAllPointwise(s.active, order, c);
    }
  }
}

/** The AI-pipeline verdict latch: INVALID and VALID verdicts applied in order, and
    the edges reported to the caller. */
module AiVerdict {
  import opened Options
  import opened PssProtocol

  predicate IsLive(sd: SensorData) {
    !sd.event.status.Stale?
  }

  predicate SaysInvalid(sd: SensorData) {
    IsLive(sd) && sd.event.eventType.AiPipelineInvalid?
  }

  predicate SaysValid(sd: SensorData) {
    IsLive(sd) && sd.event.eventType.AiPipelineValid?
  }

  /** The condition after entries `es`: the last verdict decides; without one it
      stays as it was. */
  ghost predicate Decided(start: bool, es: seq<SensorData>, after: bool) {
    if exists i: nat :: IsLastVerdict(es, i) then exists i: nat :: IsLastVerdict(es, i) && (after <==> SaysInvalid(es[i]))
    else after == start
  }

  ghost predicate IsLastVerdict(es: seq<SensorData>, i: nat) {
    i < |es| && (SaysInvalid(es[i]) || SaysValid(es[i])) &&
    forall j :: i < j < |es| ==> !SaysInvalid(es[j]) && !SaysValid(es[j])
  }

  /** The condition after the first n entries, entry by entry. */
  function InvalidAfter(start: bool, es: seq<SensorData>, n: nat): bool
    requires n <= |es|
  {
    if n == 0 then start
    else if SaysInvalid(es[n - 1]) then true
    else if SaysValid(es[n - 1]) then false
    else InvalidAfter(start, es, n - 1)
  }

  /** Entry i takes the condition from inactive to active. */
  predicate EntersAt(start: bool, es: seq<SensorData>, i: nat) {
    i < |es| && !InvalidAfter(start, es, i) && InvalidAfter(start, es, i + 1)
  }

  predicate LeavesAt(start: bool, es: seq<SensorData>, i: nat) {
    i < |es| && InvalidAfter(start, es, i) && !InvalidAfter(start, es, i + 1)
  }

  /** The result bits. */
  datatype VerdictResult = VerdictResult(sawInvalid: bool, entered: bool, cleared: bool)

  /** The caller's AI-pipeline condition. */
  class VerdictLatch {
    var invalidActive: bool

    constructor ()
      ensures !invalidActive
    {
      invalidActive := false;
    }

    method Apply(req: Option<DecisionRequest>) returns (r: VerdictResult)
      modifies this
      ensures req.None? ==> r == VerdictResult(false, false, false) && invalidActive == old(invalidActive)
      ensures req.Some? ==>
                var es := req.value.summary[..Count(req.value)];
                && invalidActive == InvalidAfter(old(invalidActive), es, |es|)
                && (r.sawInvalid <==> exists i :: 0 <= i < |es| && SaysInvalid(es[i]))
                && (r.entered <==> exists i: nat :: EntersAt(old(invalidActive), es, i))
                && (r.cleared <==> exists i: nat :: LeavesAt(old(invalidActive), es, i))
    {
      r := VerdictResult(false, false, false);
      if req.None? {
        return;
      }
      ghost var es := req.value.summary[..Count(req.value)];
      ghost var start := invalidActive;
      for i := 0 to Count(req.value)
        invariant invalidActive == InvalidAfter(start, es, i)
        invariant r.sawInvalid <==> exists j :: 0 <= j < i && SaysInvalid(es[j])
        invariant r.entered <==> exists j: nat :: j < i && EntersAt(start, es, j)
        invariant r.cleared <==> exists j: nat :: j < i && LeavesAt(start, es, j)
      {
        var ev := req.value.summary[i].event;
        assert es[i].event == ev;
        if ev.status.Stale? {
          assert !EntersAt(start, es, i) && !LeavesAt(start, es, i);
          continue;
        }
        if ev.eventType.AiPipelineInvalid? {
          r := r.(sawInvalid := true);
          assert SaysInvalid(es[i]);
          if !invalidActive {
            invalidActive := true;
            r := r.(entered := true);
            assert EntersAt(start, es, i);
          }
        } else if ev.eventType.AiPipelineValid? {
          if invalidActive {
            invalidActive := false;
            r := r.(cleared := true);
            assert LeavesAt(start, es, i);
          }
        }
        assert EntersAt(start, es, i) <==> SaysInvalid(es[i]) && !InvalidAfter(start, es, i);
        assert LeavesAt(start, es, i) <==> SaysValid(es[i]) && InvalidAfter(start, es, i);
      }
    }
  }

  /** The entry-by-entry condition is the one the last verdict decides. */
  lemma {:induction false} LastVerdictDecides(start: bool, es: seq<SensorData>, n: nat)
    requires n <= |es|
    ensures Decided(start, es[..n], InvalidAfter(start, es, n))
  {
    if n > 0 {
      LastVerdictDecides(start, es, n - 1);
      var front, all := es[..n - 1], es[..n];
      if SaysInvalid(es[n - 1]) || SaysValid(es[n - 1]) {
        assert IsLastVerdict(all, n - 1);
      } else {
        forall i: nat
          ensures IsLastVerdict(front, i) <==> IsLastVerdict(all, i)
        {
          if i < n {
            assert all[i] == es[i];
          }
          if IsLastVerdict(all, i) {
            assert forall j :: i < j < n - 1 ==> front[j] == all[j];
          }
          if IsLastVerdict(front, i) {
            assert forall j :: i < j < n - 1 ==> all[j] == front[j];
          }
        }
        forall i: nat | IsLastVerdict(front, i)
          ensures front[i] == all[i]
        {
        }
      }
    }
  }

  // ----- whole runs -----

  function EntriesOf(reqs: seq<DecisionRequest>, k: nat): seq<SensorData>
    requires k <= |reqs|
  {
    if k == 0 then [] else EntriesOf(reqs, k - 1) + reqs[k - 1].summary[..Count(reqs[k - 1])]
  }

  function ConditionAfter(start: bool, reqs: seq<DecisionRequest>, k: nat): bool
    requires k <= |reqs|
  {
    if k == 0 then start
    else InvalidAfter(ConditionAfter(start, reqs, k - 1), reqs[k - 1].summary, Count(reqs[k - 1]))
  }

  lemma {:induction false} InvalidAfterConcat(start: bool, es: seq<SensorData>, fs: seq<SensorData>, n: nat)
    requires n <= |fs|
    ensures InvalidAfter(start, es + fs, |es| + n) == InvalidAfter(InvalidAfter(start, es, |es|), fs, n)
  {
    if n > 0 {
      InvalidAfterConcat(start, es, fs, n - 1);
      assert (es + fs)[|es| + n - 1] == fs[n - 1];
    } else {
      InvalidAfterPrefix(start, es + fs, es, |es|);
    }
  }

  lemma {:induction false} InvalidAfterPrefix(start: bool, es: seq<SensorData>, fs: seq<SensorData>, n: nat)
    requires n <= |es| && n <= |fs|
    requires forall i :: 0 <= i < n ==> es[i] == fs[i]
    ensures InvalidAfter(start, es, n) == InvalidAfter(start, fs, n)
  {
    if n > 0 {
      InvalidAfterPrefix(start, es, fs, n - 1);
    }
  }

  /** Over a run of requests, the condition is the one decided by the last live
      verdict among all the entries read. */
  lemma {:induction false} RunDecidedByLastVerdict(start: bool, reqs: seq<DecisionRequest>, k: nat)
    requires k <= |reqs|
    ensures ConditionAfter(start, reqs, k) == InvalidAfter(start, EntriesOf(reqs, k), |EntriesOf(reqs, k)|)
    ensures Decided(start, EntriesOf(reqs, k), ConditionAfter(start, reqs, k))
  {
    var all := EntriesOf(reqs, k);
    if k > 0 {
      RunDecidedByLastVerdict(start, reqs, k - 1);
      var last := reqs[k - 1].summary[..Count(reqs[k - 1])];
      InvalidAfterConcat(start, EntriesOf(reqs, k - 1), last, |last|);
      InvalidAfterPrefix(ConditionAfter(start, reqs, k - 1), last, reqs[k - 1].summary, |last|);
    }
    LastVerdictDecides(start, all, |all|);
    assert all[..|all|] == all;
  }

  /** No hold edge is lost: a request that ever takes the condition from inactive
      to active holds an INVALID verdict at that entry, even if a later entry of
      the same request takes it back; and it ends active unless it also left. */
  lemma {:induction false} NoEdgeLost(start: bool, es: seq<SensorData>, n: nat)
    requires n <= |es|
    ensures (exists i: nat :: i < n && EntersAt(start, es, i)) ==> exists i :: 0 <= i < n && SaysInvalid(es[i])
    ensures !start && InvalidAfter(start, es, n) ==> exists i: nat :: i < n && EntersAt(start, es, i)
    ensures start && !InvalidAfter(start, es, n) ==> exists i: nat :: i < n && LeavesAt(start, es, i)
    ensures !start && (exists i :: 0 <= i < n && SaysInvalid(es[i])) ==> exists i: nat :: i < n && EntersAt(start, es, i)
  {
    if n > 0 {
      NoEdgeLost(start, es, n - 1);
      if EntersAt(start, es, n - 1) {
        assert SaysInvalid(es[n - 1]);
      }
      if !start && SaysInvalid(es[n - 1]) {
        assert EntersAt(start, es, n - 1) || InvalidAfter(start, es, n - 1);
      }
      if start && !InvalidAfter(start, es, n) {
        assert LeavesAt(start, es, n - 1) || !InvalidAfter(start, es, n - 1);
      }
    }
  }
}

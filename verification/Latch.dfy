/** A condition that events raise and clear. Every latched flag of the system has
    this shape; the lemma turns its step rule into a statement about history. */
module Latch {

  /** `on[k]` is the flag before event k, which `raised[k]` sets and `cleared[k]` resets. */
  ghost predicate StepsAt(on: seq<bool>, raised: seq<bool>, cleared: seq<bool>, k: nat)
    requires |on| == |raised| + 1 == |cleared| + 1 && k < |raised|
  {
    on[k + 1] <==> raised[k] || (on[k] && !cleared[k])
  }

  ghost predicate IsLatch(on: seq<bool>, raised: seq<bool>, cleared: seq<bool>) {
    && |on| == |raised| + 1 == |cleared| + 1
    && forall k :: 0 <= k < |raised| ==> StepsAt(on, raised, cleared, k)
  }

  /** Event i raised the flag and no event from there to k cleared it. */
  ghost predicate RaisedSince(raised: seq<bool>, cleared: seq<bool>, i: nat, k: nat) {
    i < k <= |raised| == |cleared| && raised[i] && forall j :: i < j < k ==> !cleared[j]
  }

  /** The flag is on exactly when some event raised it, or it was on from the start,
      and none has cleared it since. */
  lemma {:induction false} OnIff(on: seq<bool>, raised: seq<bool>, cleared: seq<bool>, k: nat)
    requires IsLatch(on, raised, cleared) && k < |on|
    ensures on[k] <==>
            || (exists i: nat :: RaisedSince(raised, cleared, i, k))
            || (on[0] && forall j :: 0 <= j < k ==> !cleared[j])
  {
    if k > 0 {
      var p := k - 1;
      OnIff(on, raised, cleared, p);
      assert StepsAt(on, raised, cleared, p);
      if raised[p] {
        assert RaisedSince(raised, cleared, p, k);
      } else {
        forall i: nat | RaisedSince(raised, cleared, i, p) && !cleared[p]
          ensures RaisedSince(raised, cleared, i, k)
        {
        }
        forall i: nat | RaisedSince(raised, cleared, i, k)
          ensures RaisedSince(raised, cleared, i, p)
        {
        }
      }
    }
  }
}

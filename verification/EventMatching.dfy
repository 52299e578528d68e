/** Greedy matching of ground-truth events to analytics events: closest unused event
    within the allowed delay, ground truth taken in time order. */
module EventMatching {
  import opened Options

  function Abs(x: real): real {
    if x < 0.0 then -x else x
  }

  // ----- sorting -----

  ghost predicate Ascending(s: seq<real>) {
    forall i, j :: 0 <= i < j < |s| ==> s[i] <= s[j]
  }

  function Insert(x: real, s: seq<real>): seq<real> {
    if s == [] || x < s[0] then [x] + s else [s[0]] + Insert(x, s[1..])
  }

  function Sorted(s: seq<real>): seq<real> {
    if s == [] then [] else Insert(s[0], Sorted(s[1..]))
  }

  lemma {:induction false} InsertKeepsLowerBound(low: real, x: real, s: seq<real>)
    requires low <= x && forall k :: 0 <= k < |s| ==> low <= s[k]
    ensures forall k :: 0 <= k < |Insert(x, s)| ==> low <= Insert(x, s)[k]
  {
    if s != [] && x >= s[0] {
      InsertKeepsLowerBound(low, x, s[1..]);
    }
  }

  lemma {:induction false} InsertAscends(x: real, s: seq<real>)
    requires Ascending(s)
    ensures Ascending(Insert(x, s))
  {
    if s != [] && x >= s[0] {
      InsertAscends(x, s[1..]);
      InsertKeepsLowerBound(s[0], x, s[1..]);
    }
  }

  lemma {:induction false} InsertAdds(x: real, s: seq<real>)
    ensures |Insert(x, s)| == |s| + 1
    ensures multiset(Insert(x, s)) == multiset(s) + multiset{x}
  {
    if s != [] && x >= s[0] {
      InsertAdds(x, s[1..]);
      assert s == [s[0]] + s[1..];
    }
  }

  /** The sort yields the same times, in order. */
  lemma {:induction false} SortedSorts(s: seq<real>)
    ensures Ascending(Sorted(s)) && multiset(Sorted(s)) == multiset(s) && |Sorted(s)| == |s|
  {
    if s != [] {
      SortedSorts(s[1..]);
      InsertAscends(s[0], Sorted(s[1..]));
      InsertAdds(s[0], Sorted(s[1..]));
      assert s == [s[0]] + s[1..];
    }
  }

  // ----- matchings -----

  /** For each ground-truth event, the index of the event matched to it. */
  type Matching = seq<Option<nat>>

  predicate Within(gt: seq<real>, ba: seq<real>, maxDelay: real, i: nat, j: nat) {
    i < |gt| && j < |ba| && Abs(ba[j] - gt[i]) <= maxDelay
  }

  /** Event j is used by one of the first k ground-truth events. */
  ghost predicate UsedBy(m: Matching, k: nat, j: nat) {
    exists i :: 0 <= i < k && i < |m| && m[i] == Some(j)
  }

  /** Pairs within the delay, and no event used twice. */
  ghost predicate Feasible(gt: seq<real>, ba: seq<real>, maxDelay: real, m: Matching) {
    && |m| <= |gt|
    && (forall i :: 0 <= i < |m| && m[i].Some? ==> Within(gt, ba, maxDelay, i, m[i].value))
    && (forall i, k :: 0 <= i < k < |m| && m[i].Some? ==> m[i] != m[k])
  }

  /** Event j is what ground-truth event i takes: the closest of the events still
      unused, the earliest of the closest. */
  ghost predicate TakesClosest(gt: seq<real>, ba: seq<real>, maxDelay: real, m: Matching, i: nat, j: nat) {
    && Within(gt, ba, maxDelay, i, j)
    && !UsedBy(m, i, j)
    && (forall k: nat :: k < |ba| && !UsedBy(m, i, k) ==> Abs(ba[j] - gt[i]) <= Abs(ba[k] - gt[i]))
    && (forall k: nat :: k < j && !UsedBy(m, i, k) ==> Abs(ba[j] - gt[i]) < Abs(ba[k] - gt[i]))
  }

  /** Ground-truth event i chose greedily against the choices before it. */
  ghost predicate ChoseGreedily(gt: seq<real>, ba: seq<real>, maxDelay: real, m: Matching, i: nat)
    requires i < |m|
  {
    match m[i]
    case None => forall k: nat :: Within(gt, ba, maxDelay, i, k) ==> UsedBy(m, i, k)
    case Some(j) => TakesClosest(gt, ba, maxDelay, m, i, j)
  }

  ghost predicate Greedy(gt: seq<real>, ba: seq<real>, maxDelay: real, m: Matching) {
    |m| <= |gt| && forall i :: 0 <= i < |m| ==> ChoseGreedily(gt, ba, maxDelay, m, i)
  }

  // ----- counting -----

  ghost function MatchedSet(m: Matching): set<nat> {
    set i: nat | i < |m| && m[i].Some?
  }

  ghost function UsedSet(m: Matching): set<nat> {
    set i: nat | i < |m| && m[i].Some? :: m[i].value
  }

  datatype MatchSet = MatchSet(gtCount: nat, matched: nat, extra: int, matches: Matching)

  function CountMatched(m: Matching, n: nat): nat
    requires n <= |m|
  {
    if n == 0 then 0 else CountMatched(m, n - 1) + if m[n - 1].Some? then 1 else 0
  }

  function CountUsed(used: seq<bool>, n: nat): nat
    requires n <= |used|
  {
    if n == 0 then 0 else CountUsed(used, n - 1) + if used[n - 1] then 1 else 0
  }

  lemma {:induction false} CountUsedIs(used: seq<bool>, n: nat)
    requires n <= |used|
    ensures CountUsed(used, n) == |set j: nat | j < n && used[j]|
  {
    var all := set j: nat | j < n && used[j];
    if n > 0 {
      CountUsedIs(used, n - 1);
      var front := set j: nat | j < n - 1 && used[j];
      assert all == if used[n - 1] then front + {n - 1} else front;
    } else {
      assert all == {};
    }
  }

  lemma {:induction false} CountMatchedIs(m: Matching, n: nat)
    requires n <= |m|
    ensures CountMatched(m, n) == |set i: nat | i < n && m[i].Some?|
  {
    var all := set i: nat | i < n && m[i].Some?;
    if n > 0 {
      CountMatchedIs(m, n - 1);
      var front := set i: nat | i < n - 1 && m[i].Some?;
      assert all == if m[n - 1].Some? then front + {n - 1} else front;
    } else {
      assert all == {};
    }
  }

  ghost function Image(m: Matching, dom: set<nat>): set<nat>
    requires forall i :: i in dom ==> i < |m| && m[i].Some?
  {
    set i | i in dom :: m[i].value
  }

  /** An injective matching uses as many events as it matches. */
  lemma {:induction false} ImageSize(m: Matching, dom: set<nat>)
    requires forall i :: i in dom ==> i < |m| && m[i].Some?
    requires forall i, k :: i in dom && k in dom && i != k ==> m[i] != m[k]
    ensures |Image(m, dom)| == |dom|
    decreases |dom|
  {
    if x :| x in dom {
      ImageSize(m, dom - {x});
      assert Image(m, dom) == Image(m, dom - {x}) + {m[x].value};
      assert m[x].value !in Image(m, dom - {x});
    } else {
      assert Image(m, dom) == {};
    }
  }

  ghost function Range(n: nat): set<nat> {
    if n == 0 then {} else Range(n - 1) + {n - 1}
  }

  lemma {:induction false} RangeIs(n: nat)
    ensures |Range(n)| == n
    ensures forall i: nat :: i in Range(n) <==> i < n
  {
    if n > 0 {
      RangeIs(n - 1);
    }
  }

  /** Two disjoint parts that make up the first n numbers have n members. */
  lemma PartsOfRange(a: set<nat>, b: set<nat>, n: nat)
    requires forall i: nat :: i < n <==> i in a || i in b
    requires a !! b
    ensures |a| + |b| == n
  {
    RangeIs(n);
    assert a + b == Range(n);
  }

  // ----- the method -----

  method ClosestUnused(gt: real, ba: seq<real>, used: array<bool>, maxDelay: real) returns (best: Option<nat>)
    requires used.Length == |ba|
    ensures best.None? ==> forall j :: 0 <= j < |ba| && !used[j] ==> Abs(ba[j] - gt) > maxDelay
    ensures best.Some? ==>
              var b := best.value;
              && b < |ba| && !used[b] && Abs(ba[b] - gt) <= maxDelay
              && (forall j :: 0 <= j < |ba| && !used[j] ==> Abs(ba[b] - gt) <= Abs(ba[j] - gt))
              && (forall j :: 0 <= j < b && !used[j] ==> Abs(ba[b] - gt) < Abs(ba[j] - gt))
  {
    best := None;
    var bestAbs: Option<real> := None;
    for j := 0 to |ba|
      invariant best.None? <==> bestAbs.None?
      invariant best.None? ==> forall k :: 0 <= k < j && !used[k] ==> Abs(ba[k] - gt) > maxDelay
      invariant best.Some? ==>
                  var b := best.value;
                  && b < j && !used[b] && Abs(ba[b] - gt) <= maxDelay && bestAbs == Some(Abs(ba[b] - gt))
                  && (forall k :: 0 <= k < j && !used[k] ==> Abs(ba[b] - gt) <= Abs(ba[k] - gt))
                  && (forall k :: 0 <= k < b && !used[k] ==> Abs(ba[b] - gt) < Abs(ba[k] - gt))
    {
      if used[j] {
        continue;
      }
      var d := ba[j] - gt;
      if Abs(d) > maxDelay {
        continue;
      }
      if bestAbs.None? || Abs(d) < bestAbs.value {
        bestAbs := Some(Abs(d));
        best := Some(j);
      }
    }
  }

  /** Ground truth in order, each taking the closest event left. */
  method MatchSorted(gt: seq<real>, ba: seq<real>, maxDelay: real) returns (matches: Matching, taken: seq<bool>)
    ensures |matches| == |gt| && |taken| == |ba|
    ensures Greedy(gt, ba, maxDelay, matches)
    ensures forall j: nat :: j < |ba| ==> (taken[j] <==> UsedBy(matches, |gt|, j))
  {
    var used := new bool[|ba|](_ => false);
    matches := [];
    for i := 0 to |gt|
      invariant |matches| == i
      invariant forall j: nat :: j < |ba| ==> (used[j] <==> UsedBy(matches, i, j))
      invariant forall k :: 0 <= k < i ==> ChoseGreedily(gt, ba, maxDelay, matches, k)
    {
      var best := ClosestUnused(gt[i], ba, used, maxDelay);
      ghost var before := matches;
      matches := matches + [best];
      ExtendKeepsChoices(gt, ba, maxDelay, before, best);
      if best.Some? {
        used[best.value] := true;
      }
    }
    taken := used[..];
  }

  lemma TakenIsUsed(gt: seq<real>, ba: seq<real>, maxDelay: real, m: Matching, taken: seq<bool>)
    requires |m| == |gt| && |taken| == |ba| && Greedy(gt, ba, maxDelay, m)
    requires forall j: nat :: j < |ba| ==> (taken[j] <==> UsedBy(m, |gt|, j))
    ensures (set j: nat | j < |ba| && taken[j]) == UsedSet(m)
  {
    var all := set j: nat | j < |ba| && taken[j];
    forall j: nat | j in UsedSet(m)
      ensures j in all
    {
      var i :| 0 <= i < |m| && m[i] == Some(j);
      assert ChoseGreedily(gt, ba, maxDelay, m, i);
      assert UsedBy(m, |gt|, j);
    }
    forall j | j in all
      ensures j in UsedSet(m)
    {
      assert UsedBy(m, |gt|, j);
      var i :| 0 <= i < |m| && m[i] == Some(j);
      assert m[i].value == j;
    }
  }

  method MatchFirstBa(gtTimes: seq<real>, baTimes: seq<real>, maxDelay: real) returns (r: MatchSet)
    ensures |r.matches| == r.gtCount == |gtTimes|
    ensures Greedy(Sorted(gtTimes), Sorted(baTimes), maxDelay, r.matches)
    ensures r.matched == |MatchedSet(r.matches)|
    ensures r.extra == |baTimes| - |UsedSet(r.matches)|
  {
    var gt, ba := Sorted(gtTimes), Sorted(baTimes);
    SortedSorts(gtTimes);
    SortedSorts(baTimes);
    var matches, taken := MatchSorted(gt, ba, maxDelay);
    CountMatchedIs(matches, |matches|);
    CountUsedIs(taken, |ba|);
    TakenIsUsed(gt, ba, maxDelay, matches, taken);
    r := MatchSet(|matches|, CountMatched(matches, |matches|), |ba| - CountUsed(taken, |ba|), matches);
  }

  lemma ExtendKeepsChoices(gt: seq<real>, ba: seq<real>, maxDelay: real, m: Matching, best: Option<nat>)
    ensures forall k: nat, j: nat :: k <= |m| ==> (UsedBy(m + [best], k, j) <==> UsedBy(m, k, j))
    ensures forall j: nat :: UsedBy(m + [best], |m| + 1, j) <==> UsedBy(m, |m|, j) || best == Some(j)
    ensures forall k :: 0 <= k < |m| && ChoseGreedily(gt, ba, maxDelay, m, k) ==>
                          ChoseGreedily(gt, ba, maxDelay, m + [best], k)
  {
    forall j: nat
      ensures UsedBy(m + [best], |m| + 1, j) <==> UsedBy(m, |m|, j) || best == Some(j)
    {
      if i :| 0 <= i < |m| && m[i] == Some(j) {
        assert (m + [best])[i] == Some(j);
      }
      if best == Some(j) {
        assert (m + [best])[|m|] == Some(j);
      }
    }
    forall k: nat, j: nat | k <= |m|
      ensures UsedBy(m + [best], k, j) <==> UsedBy(m, k, j)
    {
      if i :| 0 <= i < k && i < |m| && m[i] == Some(j) {
        assert (m + [best])[i] == Some(j);
      }
    }
  }

  // ----- what a greedy matching guarantees -----

  /** A greedy matching is injective and within the delay. */
  lemma GreedyIsFeasible(gt: seq<real>, ba: seq<real>, maxDelay: real, m: Matching)
    requires Greedy(gt, ba, maxDelay, m)
    ensures Feasible(gt, ba, maxDelay, m)
  {
    forall i, k | 0 <= i < k < |m| && m[i].Some?
      ensures m[i] != m[k]
    {
      assert ChoseGreedily(gt, ba, maxDelay, m, k);
      assert UsedBy(m, k, m[i].value);
    }
    forall i | 0 <= i < |m| && m[i].Some?
      ensures Within(gt, ba, maxDelay, i, m[i].value)
    {
      assert ChoseGreedily(gt, ba, maxDelay, m, i);
    }
  }

  /** No unmatched ground-truth event is within the delay of an unused event. */
  lemma GreedyIsMaximal(gt: seq<real>, ba: seq<real>, maxDelay: real, m: Matching, i: nat, j: nat)
    requires Greedy(gt, ba, maxDelay, m) && i < |m| && m[i].None?
    requires Within(gt, ba, maxDelay, i, j)
    ensures j in UsedSet(m)
  {
    assert ChoseGreedily(gt, ba, maxDelay, m, i);
    var k :| 0 <= k < i && m[k] == Some(j);
  }

  /** Matched, missed and extra account for every event on both sides. */
  lemma CountsAddUp(gt: seq<real>, ba: seq<real>, maxDelay: real, m: Matching)
    requires Greedy(gt, ba, maxDelay, m) && |m| == |gt|
    ensures |UsedSet(m)| == |MatchedSet(m)|
    ensures |MatchedSet(m)| + |set i: nat | i < |m| && m[i].None?| == |gt|
    ensures |UsedSet(m)| + |set j: nat | j < |ba| && j !in UsedSet(m)| == |ba|
  {
    GreedyIsFeasible(gt, ba, maxDelay, m);
    ImageSize(m, MatchedSet(m));
    assert UsedSet(m) == Image(m, MatchedSet(m));
    PartsOfRange(MatchedSet(m), set i: nat | i < |m| && m[i].None?, |m|);
    PartsOfRange(UsedSet(m), set j: nat | j < |ba| && j !in UsedSet(m), |ba|);
  }

  lemma SubsetSize(a: set<nat>, b: set<nat>)
    requires a <= b
    ensures |a| <= |b|
  {
    assert b == a + (b - a);
  }

  /** The greedy matching matches at least half as many ground-truth events as any
      feasible matching could. */
  lemma GreedyIsHalfOptimal(gt: seq<real>, ba: seq<real>, maxDelay: real, m: Matching, other: Matching)
    requires Greedy(gt, ba, maxDelay, m) && |m| == |gt|
    requires Feasible(gt, ba, maxDelay, other)
    ensures |MatchedSet(other)| <= 2 * |MatchedSet(m)|
  {
    CountsAddUp(gt, ba, maxDelay, m);
    var both := MatchedSet(other) * MatchedSet(m);
    var only := MatchedSet(other) - MatchedSet(m);
    SubsetSize(both, MatchedSet(m));
    ImageSize(other, only);
    var image := Image(other, only);
    forall j | j in image
      ensures j in UsedSet(m)
    {
      var i :| i in only && other[i].value == j;
      GreedyIsMaximal(gt, ba, maxDelay, m, i, j);
    }
    SubsetSize(image, UsedSet(m));
    assert MatchedSet(other) == both + only;
  }

  /** Every analytics event is within the delay of at most one ground-truth event. */
  ghost predicate LoneGroundTruth(gt: seq<real>, ba: seq<real>, maxDelay: real) {
    forall i: nat, k: nat, j: nat :: Within(gt, ba, maxDelay, i, j) && Within(gt, ba, maxDelay, k, j) ==> i == k
  }

  /** Every ground-truth event is within the delay of at most one analytics event. */
  ghost predicate LoneEvent(gt: seq<real>, ba: seq<real>, maxDelay: real) {
    forall i: nat, j: nat, k: nat :: Within(gt, ba, maxDelay, i, j) && Within(gt, ba, maxDelay, i, k) ==> j == k
  }

  /** Greedy choice is optimal when no event is contested by two ground-truth events. */
  lemma GreedyIsOptimalForLoneGroundTruth(gt: seq<real>, ba: seq<real>, maxDelay: real, m: Matching, other: Matching)
    requires Greedy(gt, ba, maxDelay, m) && |m| == |gt| && Feasible(gt, ba, maxDelay, other)
    requires LoneGroundTruth(gt, ba, maxDelay)
    ensures |MatchedSet(other)| <= |MatchedSet(m)|
  {
    GreedyIsFeasible(gt, ba, maxDelay, m);
    forall i | i in MatchedSet(other)
      ensures i in MatchedSet(m)
    {
      var j := other[i].value;
      if m[i].None? {
        GreedyIsMaximal(gt, ba, maxDelay, m, i, j);
      }
    }
    SubsetSize(MatchedSet(other), MatchedSet(m));
  }

  /** And when no ground-truth event has two events to choose from. */
  lemma GreedyIsOptimalForLoneEvents(gt: seq<real>, ba: seq<real>, maxDelay: real, m: Matching, other: Matching)
    requires Greedy(gt, ba, maxDelay, m) && |m| == |gt| && Feasible(gt, ba, maxDelay, other)
    requires LoneEvent(gt, ba, maxDelay)
    ensures |MatchedSet(other)| <= |MatchedSet(m)|
  {
    CountsAddUp(gt, ba, maxDelay, m);
    GreedyIsFeasible(gt, ba, maxDelay, m);
    var used := Image(other, MatchedSet(other));
    ImageSize(other, MatchedSet(other));
    forall j | j in used
      ensures j in UsedSet(m)
    {
      var i :| i in MatchedSet(other) && other[i].value == j;
      if m[i].None? {
        GreedyIsMaximal(gt, ba, maxDelay, m, i, j);
      } else {
        assert Within(gt, ba, maxDelay, i, m[i].value) && Within(gt, ba, maxDelay, i, j);
      }
    }
    SubsetSize(used, UsedSet(m));
  }

  /** Half is all it guarantees: here two events could both be matched, and greedy
      choice matches one. */
  lemma HalfIsTight(m: Matching)
    requires Greedy([0.0, 1.0], [-0.9, 0.5], 1.0, m) && |m| == 2
    ensures Feasible([0.0, 1.0], [-0.9, 0.5], 1.0, [Some(0), Some(1)])
    ensures |MatchedSet([Some(0), Some(1)])| == 2
    ensures |MatchedSet(m)| == 1
  {
    var gt, ba := [0.0, 1.0], [-0.9, 0.5];
    assert MatchedSet([Some(0), Some(1)]) == {0, 1};
    assert ChoseGreedily(gt, ba, 1.0, m, 0) && ChoseGreedily(gt, ba, 1.0, m, 1);
    assert !UsedBy(m, 0, 0) && !UsedBy(m, 0, 1);
    assert Within(gt, ba, 1.0, 0, 1);
    assert m[0] == Some(1);
    assert UsedBy(m, 1, 1);
    assert !Within(gt, ba, 1.0, 1, 0);
    assert m[1].None?;
    assert MatchedSet(m) == {0};
  }
}

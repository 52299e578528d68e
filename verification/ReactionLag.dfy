/** Reaction accounting: every interval of constant expected state is timed, missed,
    or set aside because it began at the edge of the zone. */
module ReactionLag {
  import opened Options
  import opened ScoredFrames

  /** What became of one interval. */
  datatype Outcome =
    | Lag(want: bool, hit: nat, ms: real)
    | Missed(want: bool, from: real, duration: real)
    | Untimed

  /** The interval beginning at frame i was begun by a person at the zone's edge:
      neither the forklift nor a person in the trailer changed there. */
  predicate BegunAtEdge(clip: seq<Frame>, i: nat)
    requires i < |clip|
  {
    EdgeOnly(clip[i]) &&
    (i == 0 || (clip[i].forkliftInTrailer == clip[i - 1].forkliftInTrailer &&
                AnyInTrailer(clip[i]) == AnyInTrailer(clip[i - 1])))
  }

  /** Frames s..e-1 are a maximal stretch of constant expected state. */
  ghost predicate IsInterval(clip: seq<Frame>, s: nat, e: nat) {
    && s < e <= |clip|
    && (forall i :: s < i < e ==> !ChangeAt(clip, i))
    && (s == 0 || ChangeAt(clip, s))
    && (e == |clip| || ChangeAt(clip, e))
  }

  /** The first frame of s..e-1 whose actual state is the wanted one. */
  function FirstAgreeing(clip: seq<Frame>, want: bool, s: nat, e: nat): (h: Option<nat>)
    requires s <= e <= |clip|
    ensures h.Some? ==> s <= h.value < e
    decreases e - s
  {
    if s == e then None
    else if clip[s].actualMute == want then Some(s)
    else FirstAgreeing(clip, want, s + 1, e)
  }

  lemma {:induction false} FirstAgreeingIs(clip: seq<Frame>, want: bool, s: nat, e: nat)
    requires s <= e <= |clip|
    ensures FirstAgreeing(clip, want, s, e).None? <==> forall i :: s <= i < e ==> clip[i].actualMute != want
    ensures FirstAgreeing(clip, want, s, e).Some? ==>
              var h := FirstAgreeing(clip, want, s, e).value;
              s <= h < e && clip[h].actualMute == want && forall i :: s <= i < h ==> clip[i].actualMute != want
    decreases e - s
  {
    if s < e {
      FirstAgreeingIs(clip, want, s + 1, e);
    }
  }

  function OutcomeOf(clip: seq<Frame>, s: nat, e: nat): Outcome
    requires s < e <= |clip|
  {
    var want := ExpectedMute(clip[s]);
    if BegunAtEdge(clip, s) then Untimed
    else
      match FirstAgreeing(clip, want, s, e)
      case Some(h) => Lag(want, h, (clip[h].time - clip[s].time) * 1000.0)
      case None =>
        var stop := if e < |clip| then clip[e].time else clip[|clip| - 1].time;
        Missed(want, clip[s].time - clip[0].time, stop - clip[s].time)
  }

  function Bounds(clip: seq<Frame>): seq<nat> {
    [0] + ChangesBelow(clip, |clip|) + [|clip|]
  }

  /** Consecutive bounds are in order. */
  lemma BoundsAscend(clip: seq<Frame>)
    requires |clip| > 0
    ensures forall a, b :: 0 <= a < b < |Bounds(clip)| ==> Bounds(clip)[a] < Bounds(clip)[b] <= |clip|
    ensures forall i: nat :: i in Bounds(clip) <==> i == 0 || i == |clip| || ChangeAt(clip, i)
  {
    ChangesBelowAre(clip, |clip|);
    var c := ChangesBelow(clip, |clip|);
    forall i: nat
      ensures i in Bounds(clip) <==> i == 0 || i == |clip| || ChangeAt(clip, i)
    {
      assert i in Bounds(clip) <==> i in [0] || i in c || i in [|clip|];
    }
    forall a, b | 0 <= a < b < |Bounds(clip)|
      ensures Bounds(clip)[a] < Bounds(clip)[b] <= |clip|
    {
      assert a > 0 ==> Bounds(clip)[a] == c[a - 1];
      assert b <= |c| ==> Bounds(clip)[b] == c[b - 1];
    }
  }

  /** The outcome of the k-th interval. */
  function OutcomeAt(clip: seq<Frame>, k: nat): Outcome
    requires |clip| > 0 && k + 1 < |Bounds(clip)|
  {
    BoundsAscend(clip);
    OutcomeOf(clip, Bounds(clip)[k], Bounds(clip)[k + 1])
  }

  function Outcomes(clip: seq<Frame>, n: nat): (os: seq<Outcome>)
    requires |clip| > 0 && n < |Bounds(clip)|
    ensures |os| == n
  {
    if n == 0 then [] else Outcomes(clip, n - 1) + [OutcomeAt(clip, n - 1)]
  }

  function LagsOf(os: seq<Outcome>, want: bool): seq<real> {
    if os == [] then []
    else
      var o := os[|os| - 1];
      LagsOf(os[..|os| - 1], want) + if o.Lag? && o.want == want then [o.ms] else []
  }

  function MissedOf(os: seq<Outcome>): seq<Outcome> {
    if os == [] then []
    else
      var o := os[|os| - 1];
      MissedOf(os[..|os| - 1]) + if o.Missed? then [o] else []
  }

  function UntimedIn(os: seq<Outcome>): nat {
    if os == [] then 0 else UntimedIn(os[..|os| - 1]) + if os[|os| - 1].Untimed? then 1 else 0
  }

  datatype Reaction = Reaction(muteLags: seq<real>, unmuteLags: seq<real>, missed: seq<Outcome>, untimed: nat)

  function ReactionOf(os: seq<Outcome>): Reaction {
    Reaction(LagsOf(os, true), LagsOf(os, false), MissedOf(os), UntimedIn(os))
  }

  method FirstHit(clip: seq<Frame>, want: bool, s: nat, e: nat) returns (hit: Option<nat>)
    requires s <= e <= |clip|
    ensures hit == FirstAgreeing(clip, want, s, e)
  {
    for i := s to e
      invariant FirstAgreeing(clip, want, s, e) == FirstAgreeing(clip, want, i, e)
    {
      if clip[i].actualMute == want {
        return Some(i);
      }
    }
    return None;
  }

  /** One interval added to the accounts. */
  method Account(clip: seq<Frame>, s: nat, e: nat, r: Reaction) returns (r': Reaction)
    requires s < e <= |clip|
    ensures r' == match OutcomeOf(clip, s, e)
                  case Untimed => r.(untimed := r.untimed + 1)
                  case Lag(want, _, ms) =>
                    if want then r.(muteLags := r.muteLags + [ms]) else r.(unmuteLags := r.unmuteLags + [ms])
                  case Missed(_, _, _) => r.(missed := r.missed + [OutcomeOf(clip, s, e)])
  {
    if BegunAtEdge(clip, s) {
      return r.(untimed := r.untimed + 1);
    }
    var want := ExpectedMute(clip[s]);
    var hit := FirstHit(clip, want, s, e);
    if hit.Some? {
      FirstAgreeingIs(clip, want, s, e);
      var ms := (clip[hit.value].time - clip[s].time) * 1000.0;
      if want {
        return r.(muteLags := r.muteLags + [ms]);
      }
      return r.(unmuteLags := r.unmuteLags + [ms]);
    }
    var stop := if e < |clip| then clip[e].time else clip[|clip| - 1].time;
    r' := r.(missed := r.missed + [Missed(want, clip[s].time - clip[0].time, stop - clip[s].time)]);
  }

  method ReactionIntervals(clip: seq<Frame>) returns (r: Reaction)
    requires |clip| > 0
    ensures r == ReactionOf(Outcomes(clip, |Bounds(clip)| - 1))
  {
    var changes := Changes(clip);
    var bounds := [0] + changes + [|clip|];
    BoundsAscend(clip);
    r := Reaction([], [], [], 0);
    for k := 0 to |bounds| - 1
      invariant r == ReactionOf(Outcomes(clip, k))
    {
      r := Account(clip, bounds[k], bounds[k + 1], r);
      assert Outcomes(clip, k + 1)[..k] == Outcomes(clip, k);
    }
  }

  // ----- what the accounts mean -----

  /** Consecutive bounds are exactly the maximal intervals, each once. */
  lemma BoundsAreIntervals(clip: seq<Frame>, k: nat)
    requires |clip| > 0 && k + 1 < |Bounds(clip)|
    ensures IsInterval(clip, Bounds(clip)[k], Bounds(clip)[k + 1])
  {
    BoundsAscend(clip);
    var b := Bounds(clip);
    assert b[k] in b && b[k + 1] in b;
    forall i | b[k] < i < b[k + 1]
      ensures !ChangeAt(clip, i)
    {
      if i in b {
        var j :| 0 <= j < |b| && b[j] == i;
      }
    }
  }

  lemma EveryIntervalIsBetweenBounds(clip: seq<Frame>, s: nat, e: nat) returns (k: nat)
    requires |clip| > 0 && IsInterval(clip, s, e)
    ensures k + 1 < |Bounds(clip)| && Bounds(clip)[k] == s && Bounds(clip)[k + 1] == e
    ensures forall j :: 0 <= j < |Bounds(clip)| && Bounds(clip)[j] == s ==> j == k
  {
    BoundsAscend(clip);
    var b := Bounds(clip);
    assert s in b && e in b;
    k :| 0 <= k < |b| && b[k] == s;
    var l :| 0 <= l < |b| && b[l] == e;
    assert k < l;
    var next := b[k + 1];
    assert next in b && s < next <= e;
    assert next == |clip| || ChangeAt(clip, next);
  }

  /** A timed interval is answered at its first agreeing frame, inside the interval;
      a missed one has no agreeing frame; and it is untimed exactly when it began at
      the edge. */
  lemma OutcomeMeaning(clip: seq<Frame>, s: nat, e: nat)
    requires IsInterval(clip, s, e)
    ensures var o := OutcomeOf(clip, s, e);
            && (o.Untimed? <==> BegunAtEdge(clip, s))
            && (o.Lag? ==>
                  && s <= o.hit < e && o.want == ExpectedMute(clip[s]) == ExpectedMute(clip[o.hit])
                  && clip[o.hit].actualMute == o.want && o.ms == (clip[o.hit].time - clip[s].time) * 1000.0
                  && forall i :: s <= i < o.hit ==> clip[i].actualMute != ExpectedMute(clip[i]))
            && (o.Missed? ==>
                  o.want == ExpectedMute(clip[s]) && forall i :: s <= i < e ==> clip[i].actualMute != ExpectedMute(clip[i]))
  {
    FirstAgreeingIs(clip, ExpectedMute(clip[s]), s, e);
    forall i | s <= i < e
      ensures ExpectedMute(clip[i]) == ExpectedMute(clip[s])
    {
      ConstantWithin(clip, s, e, i);
    }
  }

  lemma {:induction false} ConstantWithin(clip: seq<Frame>, s: nat, e: nat, i: nat)
    requires IsInterval(clip, s, e) && s <= i < e
    ensures ExpectedMute(clip[i]) == ExpectedMute(clip[s])
  {
    if s < i {
      ConstantWithin(clip, s, e, i - 1);
      assert !ChangeAt(clip, i);
    }
  }

  /** Mute lags, unmute lags, missed and untimed intervals add up to the intervals. */
  lemma {:induction false} EveryIntervalAccounted(os: seq<Outcome>)
    ensures var r := ReactionOf(os);
            |r.muteLags| + |r.unmuteLags| + |r.missed| + r.untimed == |os|
  {
    if os != [] {
      EveryIntervalAccounted(os[..|os| - 1]);
    }
  }
}

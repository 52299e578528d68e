/** Which frames of a clip are scored: the expected state must not hang on a person
    at the edge of the zone, nor on a state that has only just changed. */
module ScoredFrames {

  datatype Person = Person(inRoi: bool, nearEdge: bool, inTrailer: bool)

  datatype Frame = Frame(people: seq<Person>, forkliftInTrailer: bool, actualMute: bool, time: real)

  predicate AnyInRoi(f: Frame) {
    exists i :: 0 <= i < |f.people| && f.people[i].inRoi
  }

  predicate AnyInTrailer(f: Frame) {
    exists i :: 0 <= i < |f.people| && f.people[i].inTrailer
  }

  predicate AnyClearlyIn(f: Frame) {
    exists i :: 0 <= i < |f.people| && f.people[i].inRoi && !f.people[i].nearEdge
  }

  predicate AnyNearEdge(f: Frame) {
    exists i :: 0 <= i < |f.people| && f.people[i].nearEdge
  }

  predicate ExpectedMute(f: Frame) {
    f.forkliftInTrailer && !AnyInTrailer(f) && !AnyInRoi(f)
  }

  predicate EdgeOnly(f: Frame) {
    f.forkliftInTrailer && !AnyInTrailer(f) && !AnyClearlyIn(f) && AnyNearEdge(f)
  }

  // ----- edge error -----

  /** Another reading of who is in the zone, differing only for people at the edge. */
  predicate EdgeReading(f: Frame, roi: seq<bool>) {
    |roi| == |f.people| && forall i :: 0 <= i < |roi| && !f.people[i].nearEdge ==> roi[i] == f.people[i].inRoi
  }

  function Reread(f: Frame, roi: seq<bool>): Frame
    requires |roi| == |f.people|
  {
    f.(people := seq(|roi|, i requires 0 <= i < |roi| => f.people[i].(inRoi := roi[i])))
  }

  lemma RereadState(f: Frame, roi: seq<bool>)
    requires |roi| == |f.people|
    ensures ExpectedMute(Reread(f, roi)) <==>
            f.forkliftInTrailer && !AnyInTrailer(f) && forall i :: 0 <= i < |roi| ==> !roi[i]
  {
    var g := Reread(f, roi);
    assert AnyInTrailer(g) <==> AnyInTrailer(f) by {
      if i :| 0 <= i < |f.people| && f.people[i].inTrailer {
        assert g.people[i].inTrailer;
      }
    }
    if i :| 0 <= i < |roi| && roi[i] {
      assert g.people[i].inRoi;
    }
  }

  /** A frame is edge_only exactly when some reading of the people at the edge would
      flip its expected state. */
  lemma EdgeOnlyIffFlips(f: Frame)
    ensures EdgeOnly(f) <==> exists roi :: EdgeReading(f, roi) && ExpectedMute(Reread(f, roi)) != ExpectedMute(f)
  {
    if EdgeOnly(f) {
      var k :| 0 <= k < |f.people| && f.people[k].nearEdge;
      var allOut := seq(|f.people|, i => false);
      var oneIn := allOut[k := true];
      RereadState(f, allOut);
      RereadState(f, oneIn);
      assert oneIn[k];
      assert EdgeReading(f, allOut) && EdgeReading(f, oneIn);
    }
    if roi :| EdgeReading(f, roi) && ExpectedMute(Reread(f, roi)) != ExpectedMute(f) {
      RereadState(f, roi);
      if ExpectedMute(f) {
        var i :| 0 <= i < |roi| && roi[i];
        assert f.people[i].nearEdge;
      } else {
        var i :| 0 <= i < |f.people| && f.people[i].inRoi;
        assert !roi[i];
        forall k | 0 <= k < |f.people| && f.people[k].inRoi
          ensures f.people[k].nearEdge
        {
          assert !roi[k];
        }
      }
    }
  }

  // ----- settling -----

  /** The expected state changed at frame i. */
  predicate ChangeAt(clip: seq<Frame>, i: nat) {
    1 <= i < |clip| && ExpectedMute(clip[i]) != ExpectedMute(clip[i - 1])
  }

  /** Frame j comes within the settle allowance of some change. */
  ghost predicate Settling(clip: seq<Frame>, settle: real, j: nat)
    requires j < |clip|
  {
    exists i: nat :: ChangeAt(clip, i) && clip[i].time <= clip[j].time < clip[i].time + settle
  }

  /** The frames below n at which the expected state changed, in order. */
  function ChangesBelow(clip: seq<Frame>, n: nat): seq<nat>
    requires n <= |clip|
  {
    if n == 0 then [] else ChangesBelow(clip, n - 1) + if ChangeAt(clip, n - 1) then [n - 1] else []
  }

  ghost predicate Ascending(s: seq<nat>, n: nat) {
    && (forall k :: 0 <= k < |s| ==> 1 <= s[k] < n)
    && (forall a, b :: 0 <= a < b < |s| ==> s[a] < s[b])
  }

  lemma AscendingAppend(s: seq<nat>, n: nat)
    requires Ascending(s, n) && n >= 1
    ensures Ascending(s, n + 1) && Ascending(s + [n], n + 1)
  {
  }

  /** They are exactly the changes, in ascending order. */
  lemma {:induction false} ChangesBelowAre(clip: seq<Frame>, n: nat)
    requires n <= |clip|
    ensures Ascending(ChangesBelow(clip, n), n)
    ensures forall i: nat :: i in ChangesBelow(clip, n) <==> i < n && ChangeAt(clip, i)
  {
    if n > 1 {
      var front := ChangesBelow(clip, n - 1);
      ChangesBelowAre(clip, n - 1);
      AscendingAppend(front, n - 1);
    }
  }

  method Changes(clip: seq<Frame>) returns (changes: seq<nat>)
    ensures changes == ChangesBelow(clip, |clip|)
  {
    changes := [];
    if |clip| == 0 {
      return;
    }
    var i := 1;
    while i < |clip|
      invariant 1 <= i <= |clip|
      invariant changes == ChangesBelow(clip, i)
    {
      if ExpectedMute(clip[i]) != ExpectedMute(clip[i - 1]) {
        changes := changes + [i];
      }
      i := i + 1;
    }
  }

  method MarkSettling(clip: seq<Frame>, changes: seq<nat>, settle: real) returns (settling: array<bool>)
    requires forall i: nat :: i in changes <==> ChangeAt(clip, i)
    ensures fresh(settling) && settling.Length == |clip|
    ensures forall j :: 0 <= j < |clip| ==> (settling[j] <==> Settling(clip, settle, j))
  {
    settling := new bool[|clip|](_ => false);
    for c := 0 to |changes|
      invariant forall j :: 0 <= j < |clip| ==>
                              (settling[j] <==> exists k :: 0 <= k < c && WithinSettle(clip, settle, changes[k], j))
    {
      var i := changes[c];
      assert i in changes;
      ghost var before := settling[..];
      for j := 0 to |clip|
        invariant forall k :: 0 <= k < j ==> settling[k] == (before[k] || WithinSettle(clip, settle, i, k))
        invariant forall k :: j <= k < |clip| ==> settling[k] == before[k]
      {
        if clip[i].time <= clip[j].time < clip[i].time + settle {
          settling[j] := true;
        }
      }
    }
    forall j | 0 <= j < |clip|
      ensures settling[j] <==> Settling(clip, settle, j)
    {
      if settling[j] {
        var k :| 0 <= k < |changes| && WithinSettle(clip, settle, changes[k], j);
        assert changes[k] in changes;
      }
      if Settling(clip, settle, j) {
        var i: nat :| ChangeAt(clip, i) && clip[i].time <= clip[j].time < clip[i].time + settle;
        var k :| 0 <= k < |changes| && changes[k] == i;
        assert WithinSettle(clip, settle, changes[k], j);
      }
    }
  }

  predicate WithinSettle(clip: seq<Frame>, settle: real, i: nat, j: nat) {
    i < |clip| && j < |clip| && clip[i].time <= clip[j].time < clip[i].time + settle
  }

  // ----- the score -----

  datatype Score = Score(
    unscoredEdge: nat, unscoredSettle: nat, scored: nat, mismatches: nat, over: nat, under: nat,
    expectedMute: nat, expectedUnmute: nat)

  function Bit(b: bool): nat {
    if b then 1 else 0
  }

  /** What one frame adds to each count. */
  function FrameScore(f: Frame, settling: bool): Score {
    var edge, expected := EdgeOnly(f), ExpectedMute(f);
    var scored := !edge && !settling;
    Score(Bit(edge), Bit(settling && !edge), Bit(scored), Bit(f.actualMute != expected && scored),
          Bit(f.actualMute && !expected && scored), Bit(expected && !f.actualMute && scored),
          Bit(expected && scored), Bit(!expected && scored))
  }

  function Plus(a: Score, b: Score): Score {
    Score(a.unscoredEdge + b.unscoredEdge, a.unscoredSettle + b.unscoredSettle, a.scored + b.scored,
          a.mismatches + b.mismatches, a.over + b.over, a.under + b.under,
          a.expectedMute + b.expectedMute, a.expectedUnmute + b.expectedUnmute)
  }

  function ScoreOf(clip: seq<Frame>, settling: seq<bool>, n: nat): Score
    requires n <= |clip| == |settling|
  {
    if n == 0 then Score(0, 0, 0, 0, 0, 0, 0, 0)
    else Plus(ScoreOf(clip, settling, n - 1), FrameScore(clip[n - 1], settling[n - 1]))
  }

  /** Scored, edge and settle frames partition the clip; over and under make up the
      scored mismatches; expected mute and unmute make up the scored frames. */
  lemma {:induction false} ScoreAddsUp(clip: seq<Frame>, settling: seq<bool>, n: nat)
    requires n <= |clip| == |settling|
    ensures var s := ScoreOf(clip, settling, n);
            && s.scored + s.unscoredEdge + s.unscoredSettle == n
            && s.over + s.under == s.mismatches <= s.scored
            && s.expectedMute + s.expectedUnmute == s.scored
  {
    if n > 0 {
      ScoreAddsUp(clip, settling, n - 1);
    }
  }

  /** The expected state of a scored frame is the same under every reading of the
      people at the edge. */
  lemma ScoredIsImmune(f: Frame, settling: bool, roi: seq<bool>)
    requires FrameScore(f, settling).scored == 1
    requires EdgeReading(f, roi)
    ensures ExpectedMute(Reread(f, roi)) == ExpectedMute(f)
  {
    EdgeOnlyIffFlips(f);
  }
}

/** An evaluation and a release check with no other thread in between: the loads of each
    come to one look at the state. */
module Uninterrupted {
  import opened Options
  import opened AtlState
  import opened AtlRun

  function WithPhase(s: AtlState, p: Phase): AtlState {
    s.(output := s.output.(phase := p))
  }

  // ----- the evaluation -----

  /** n steps of the deciding thread in a row. */
  ghost function DecideSteps(cfg: Config, s: AtlState, n: nat): AtlState {
    if n == 0 then s else Step(cfg, DecideSteps(cfg, s, n - 1), DecideNext)
  }

  /** The evaluation, up to what it settles on: the hold first, then silence, and else
      the trailer decides. */
  function Decided(cfg: Config, s: AtlState): AtlState {
    if Holding(cfg, s) then s.(output := s.output.(muted := false))
    else if Suppressed(cfg, s.faults) then s
    else WithPhase(s, Chosen(MayMute(s.trailer)))
  }

  /** The evaluation, and the command it settled on. */
  ghost function Evaluated(cfg: Config, s: AtlState): AtlState {
    var d := Decided(cfg, s);
    if d.output.phase.Chosen? then Step(cfg, d, SendDecision) else d
  }

  /** The place reached after n loads that found nothing. */
  function PlaceAfter(s: AtlState, n: nat): Phase {
    if n == 0 then Idle else Deciding(n, if n > 7 then s.trailer else CLEAR)
  }

  lemma {:induction false} PassesTo(cfg: Config, s: AtlState, n: nat)
    requires s.output.phase.Idle? && n <= 15
    requires forall k :: 0 <= k < n ==> TestAt(cfg, s, k) == Pass
    ensures DecideSteps(cfg, s, n) == WithPhase(s, PlaceAfter(s, n))
  {
    if n > 0 {
      PassesTo(cfg, s, n - 1);
      assert TestAt(cfg, s, n - 1) == Pass;
      assert TestAt(cfg, WithPhase(s, PlaceAfter(s, n - 1)), n - 1) == Pass;
    }
  }

  lemma ClearMeansPass(cfg: Config, s: AtlState, k: nat)
    requires !Holding(cfg, s) && !Suppressed(cfg, s.faults)
    ensures TestAt(cfg, s, k) == Pass
  {
  }

  lemma SettlesInSixteen(cfg: Config, s: AtlState)
    requires s.output.phase.Idle? && !Holding(cfg, s) && !Suppressed(cfg, s.faults)
    ensures DecideSteps(cfg, s, 16) == Decided(cfg, s)
    ensures forall k :: 0 <= k < 16 ==> DecideSteps(cfg, s, k) == WithPhase(s, PlaceAfter(s, k))
  {
    forall k: nat | k < 16
      ensures DecideSteps(cfg, s, k) == WithPhase(s, PlaceAfter(s, k))
    {
      forall j: nat | j < k
        ensures TestAt(cfg, s, j) == Pass
      {
        ClearMeansPass(cfg, s, j);
      }
      PassesTo(cfg, s, k);
    }
    assert DecideSteps(cfg, s, 15) == WithPhase(s, Deciding(15, s.trailer));
  }

  /** With a heartbeat fault the second load of it ends the evaluation, past the band. */
  lemma QuitsOnFault(cfg: Config, s: AtlState)
    requires s.output.phase.Idle? && !Holding(cfg, s) && s.faults.hbFault
    ensures DecideSteps(cfg, s, 5) == s
    ensures forall k :: 0 < k < 5 ==> DecideSteps(cfg, s, k).output.phase.Deciding?
  {
    PassesTo(cfg, s, 1);
    PassesTo(cfg, s, 2);
    assert DecideSteps(cfg, s, 3) == WithPhase(s, Deciding(4, CLEAR));
    assert DecideSteps(cfg, s, 4) == WithPhase(s, Deciding(5, CLEAR));
  }

  /** Some number of loads, all but the last leaving it under way. */
  ghost predicate SettlesIn(cfg: Config, s: AtlState, n: nat) {
    && n > 0 && DecideSteps(cfg, s, n) == Decided(cfg, s)
    && forall k :: 0 < k < n ==> DecideSteps(cfg, s, k).output.phase.Deciding?
  }

  /** The load that stops an evaluation of tests 0 to n - 1. */
  lemma StopsAt(cfg: Config, s: AtlState, n: nat)
    requires s.output.phase.Idle? && 0 < n <= 7
    requires forall k :: 0 <= k < n - 1 ==> TestAt(cfg, s, k) == Pass
    requires TestAt(cfg, s, n - 1) == (if Holding(cfg, s) then HoldNow else Quit)
    requires Holding(cfg, s) || Suppressed(cfg, s.faults)
    ensures SettlesIn(cfg, s, n)
  {
    forall k: nat | k < n
      ensures DecideSteps(cfg, s, k) == WithPhase(s, PlaceAfter(s, k))
    {
      PassesTo(cfg, s, k);
    }
    var t := DecideSteps(cfg, s, n - 1);
    assert TestAt(cfg, t, n - 1) == TestAt(cfg, s, n - 1);
    assert DecideSteps(cfg, s, n) == Step(cfg, t, DecideNext);
  }

  /** Left alone, an evaluation comes to `Decided` after at most sixteen loads. */
  lemma EvaluationIsDecided(cfg: Config, s: AtlState) returns (n: nat)
    requires s.output.phase.Idle?
    ensures n <= 16 && SettlesIn(cfg, s, n)
  {
    if s.latch != {} {
      n := 1;
      StopsAt(cfg, s, n);
    } else if s.faults.pss.active != {} {
      n := 2;
      StopsAt(cfg, s, n);
    } else if s.faults.hbFault {
      n := 5;
      QuitsOnFault(cfg, s);
    } else if InTier2(cfg, s.faults) {
      n := 4;
      StopsAt(cfg, s, n);
    } else if Suppressed(cfg, s.faults) {
      n := 7;
      StopsAt(cfg, s, n);
    } else {
      n := 16;
      SettlesInSixteen(cfg, s);
    }
  }

  lemma DecidesOnce(cfg: Config, run: seq<Action>, k: nat)
    requires k < |run| && IsRun(cfg, run, k) && run[k] == DecideNext && Enabled(cfg, After(cfg, run, k), DecideNext)
    ensures IsRun(cfg, run, k + 1) && After(cfg, run, k + 1) == Step(cfg, After(cfg, run, k), DecideNext)
  {
  }

  /** Steps of the deciding thread in a row, as part of a run. */
  lemma {:induction false} DecidesInARow(cfg: Config, run: seq<Action>, m: nat, n: nat)
    requires m + n <= |run| && IsRun(cfg, run, m)
    requires forall i :: m <= i < m + n ==> run[i] == DecideNext
    requires forall k :: 0 <= k < n ==> Enabled(cfg, DecideSteps(cfg, After(cfg, run, m), k), DecideNext)
    ensures IsRun(cfg, run, m + n) && After(cfg, run, m + n) == DecideSteps(cfg, After(cfg, run, m), n)
  {
    if n > 0 {
      DecidesInARow(cfg, run, m, n - 1);
      DecidesOnce(cfg, run, m + n - 1);
    }
  }

  // ----- the release check -----

  /** n steps of the release handler in a row. */
  ghost function ReleaseSteps(cfg: Config, s: AtlState, n: nat): AtlState {
    if n == 0 then s else Step(cfg, ReleaseSteps(cfg, s, n - 1), ReleaseNext)
  }

  /** The check and the note of the latch. */
  function Checked(cfg: Config, s: AtlState): AtlState {
    s.(output := s.output.(release := if NoneActive(cfg, s.faults) then InFlight(s.latch) else NoRelease, muted := false))
  }

  /** Left alone, a release check comes to `Checked` after at most five loads. */
  lemma CheckIsChecked(cfg: Config, s: AtlState) returns (n: nat)
    requires s.output.release.NoRelease?
    ensures 0 < n <= 5 && ReleaseSteps(cfg, s, n) == Checked(cfg, s)
    ensures forall k :: 0 < k < n ==> ReleaseSteps(cfg, s, k).output.release.Checking?
  {
    n := if s.faults.hbFault then 1 else if InBand(cfg, s.faults.miss) then 3 else if AnyRequestFault(cfg, s.faults) then 4 else 5;
    if n > 1 {
      CheckingAfter(cfg, s, 1);
      CheckingAfter(cfg, s, 2);
    }
    if n > 3 {
      CheckingAfter(cfg, s, 3);
    }
    if n == 5 {
      CheckingAfter(cfg, s, 4);
    }
  }

  lemma {:induction false} CheckingAfter(cfg: Config, s: AtlState, n: nat)
    requires s.output.release.NoRelease? && 0 < n <= 4 && !s.faults.hbFault
    requires n > 2 ==> !InBand(cfg, s.faults.miss)
    requires n > 3 ==> !AnyRequestFault(cfg, s.faults)
    ensures ReleaseSteps(cfg, s, n) == s.(output := s.output.(release := Checking(n)))
  {
    if n > 1 {
      CheckingAfter(cfg, s, n - 1);
    }
  }
}

/** The reported mismatch windows: maximal runs of mismatching frames that last long
    enough, classified by their dominant direction. */
module MismatchWindows {

  datatype Direction = OverMute | UnderMute

  /** Frames start..end, both included. */
  datatype Window = Window(start: nat, end: nat, duration: real, direction: Direction)

  predicate Mismatch(over: seq<bool>, under: seq<bool>, i: nat)
    requires i < |over| == |under|
  {
    over[i] || under[i]
  }

  /** Frames s..e mismatch, and the run extends no further either way. */
  ghost predicate IsMaximalRun(over: seq<bool>, under: seq<bool>, s: nat, e: nat)
    requires |over| == |under|
  {
    && s <= e < |over|
    && (forall i :: s <= i <= e ==> Mismatch(over, under, i))
    && (s > 0 ==> !Mismatch(over, under, s - 1))
    && (e + 1 < |over| ==> !Mismatch(over, under, e + 1))
  }

  ghost predicate IsLongRun(over: seq<bool>, under: seq<bool>, times: seq<real>, minDur: real, s: nat, e: nat)
    requires |over| == |under| == |times|
  {
    IsMaximalRun(over, under, s, e) && times[e] - times[s] >= minDur
  }

  function CountIn(flags: seq<bool>, s: nat, e: nat): nat
    requires s <= e <= |flags|
    decreases e
  {
    if s == e then 0 else CountIn(flags, s, e - 1) + if flags[e - 1] then 1 else 0
  }

  /** The window of a run: its duration, and over-mute unless under-mute frames
      are strictly more. */
  function WindowOf(over: seq<bool>, under: seq<bool>, times: seq<real>, s: nat, e: nat): Window
    requires s <= e < |over| == |under| == |times|
  {
    Window(s, e, times[e] - times[s],
           if CountIn(over, s, e + 1) >= CountIn(under, s, e + 1) then OverMute else UnderMute)
  }

  ghost predicate IsWindow(over: seq<bool>, under: seq<bool>, times: seq<real>, minDur: real, w: Window)
    requires |over| == |under| == |times|
  {
    IsLongRun(over, under, times, minDur, w.start, w.end) && w == WindowOf(over, under, times, w.start, w.end)
  }

  /** Each window ends before the next one starts. */
  ghost predicate InOrder(ws: seq<Window>) {
    |ws| >= 2 ==> InOrder(ws[..|ws| - 1]) && ws[|ws| - 2].end < ws[|ws| - 1].start
  }

  /** The windows are exactly the long maximal runs among the first n frames, in
      order and apart from one another. */
  ghost predicate WindowsUpTo(
    over: seq<bool>, under: seq<bool>, times: seq<real>, minDur: real, n: nat, ws: seq<Window>)
    requires |over| == |under| == |times|
  {
    && (forall w :: w in ws ==> IsWindow(over, under, times, minDur, w) && w.end < n)
    && (forall s: nat, e: nat :: IsLongRun(over, under, times, minDur, s, e) && e < n ==>
                                   WindowOf(over, under, times, s, e) in ws)
    && InOrder(ws)
  }

  method CountFlags(flags: seq<bool>, s: nat, e: nat) returns (n: nat)
    requires s <= e <= |flags|
    ensures n == CountIn(flags, s, e)
  {
    n := 0;
    for k := s to e
      invariant n == CountIn(flags, s, k)
    {
      if flags[k] {
        n := n + 1;
      }
    }
  }

  /** The run that starts at `start`: its last frame, and its window. */
  method TakeRun(over: seq<bool>, under: seq<bool>, times: seq<real>, start: nat) returns (end: nat, w: Window)
    requires |over| == |under| == |times| && start < |over| && Mismatch(over, under, start)
    requires start > 0 ==> !Mismatch(over, under, start - 1)
    ensures IsMaximalRun(over, under, start, end)
    ensures w == WindowOf(over, under, times, start, end)
    ensures end + 1 < |over| ==> !Mismatch(over, under, end + 1)
  {
    var i := start;
    while i < |over| && (over[i] || under[i])
      invariant start <= i <= |over|
      invariant forall k :: start <= k < i ==> Mismatch(over, under, k)
    {
      i := i + 1;
    }
    end := i - 1;
    var nOver := CountFlags(over, start, end + 1);
    var nUnder := CountFlags(under, start, end + 1);
    w := Window(start, end, times[end] - times[start], if nOver >= nUnder then OverMute else UnderMute);
  }

  method FindMismatchWindows(over: seq<bool>, under: seq<bool>, times: seq<real>, minDur: real)
    returns (windows: seq<Window>)
    requires |over| == |under| == |times|
    ensures WindowsUpTo(over, under, times, minDur, |over|, windows)
  {
    var n := |over|;
    windows := [];
    var i := 0;
    while i < n
      invariant i <= n
      invariant WindowsUpTo(over, under, times, minDur, i, windows)
      invariant i > 0 && i < n && Mismatch(over, under, i) ==> !Mismatch(over, under, i - 1)
    {
      if !(over[i] || under[i]) {
        SkipFrame(over, under, times, minDur, i, windows);
        i := i + 1;
        continue;
      }
      var end, w := TakeRun(over, under, times, i);
      CloseRun(over, under, times, minDur, i, end, windows);
      i := end + 1;
      if w.duration < minDur {
        continue;
      }
      windows := windows + [w];
    }
  }

  lemma SkipFrame(over: seq<bool>, under: seq<bool>, times: seq<real>, minDur: real, i: nat, ws: seq<Window>)
    requires |over| == |under| == |times| && i < |over|
    requires WindowsUpTo(over, under, times, minDur, i, ws)
    requires !Mismatch(over, under, i)
    ensures WindowsUpTo(over, under, times, minDur, i + 1, ws)
  {
    forall s: nat, e: nat | e < i + 1 && IsMaximalRun(over, under, s, e)
      ensures e < i
    {
      assert Mismatch(over, under, e);
    }
  }

  /** Every long run up to frame `end` is an earlier one or the one that ends there. */
  lemma LongRunsUpTo(
    over: seq<bool>, under: seq<bool>, times: seq<real>, minDur: real, start: nat, end: nat, ws: seq<Window>,
    s: nat, e: nat)
    requires |over| == |under| == |times|
    requires WindowsUpTo(over, under, times, minDur, start, ws)
    requires IsMaximalRun(over, under, start, end)
    requires IsLongRun(over, under, times, minDur, s, e) && e <= end
    ensures WindowOf(over, under, times, s, e) in ws || (s == start && e == end)
  {
    if e >= start {
      OnlyRunInRange(over, under, start, end);
    }
  }

  lemma CloseRun(
    over: seq<bool>, under: seq<bool>, times: seq<real>, minDur: real, start: nat, end: nat, ws: seq<Window>)
    requires |over| == |under| == |times|
    requires WindowsUpTo(over, under, times, minDur, start, ws)
    requires IsMaximalRun(over, under, start, end)
    ensures var w := WindowOf(over, under, times, start, end);
            WindowsUpTo(over, under, times, minDur, end + 1, if w.duration < minDur then ws else ws + [w])
  {
    var w := WindowOf(over, under, times, start, end);
    var all := if w.duration < minDur then ws else ws + [w];
    forall s: nat, e: nat | IsLongRun(over, under, times, minDur, s, e) && e < end + 1
      ensures WindowOf(over, under, times, s, e) in all
    {
      LongRunsUpTo(over, under, times, minDur, start, end, ws, s, e);
    }
    forall v | v in all
      ensures IsWindow(over, under, times, minDur, v) && v.end < end + 1
    {
      assert v in ws || v == w;
    }
    assert InOrder(all) by {
      if all != ws {
        assert all[..|all| - 1] == ws;
        assert ws != [] ==> ws[|ws| - 1] in ws;
      }
    }
  }

  /** Two maximal runs that meet are the same run. */
  lemma OnlyRunInRange(over: seq<bool>, under: seq<bool>, start: nat, end: nat)
    requires |over| == |under| && IsMaximalRun(over, under, start, end)
    ensures forall s: nat, e: nat :: IsMaximalRun(over, under, s, e) && start <= e <= end ==> s == start && e == end
  {
    forall s: nat, e: nat | IsMaximalRun(over, under, s, e) && start <= e <= end
      ensures s == start && e == end
    {
    }
  }

  /** Reported windows are pairwise disjoint and in time order. */
  lemma {:induction false} WindowsAreDisjoint(ws: seq<Window>, k: nat, l: nat)
    requires InOrder(ws) && k < l < |ws|
    requires forall w :: w in ws ==> w.start <= w.end
    ensures ws[k].end < ws[l].start
  {
    if l == |ws| - 1 {
      if k < l - 1 {
        WindowsAreDisjoint(ws[..|ws| - 1], k, l - 1);
        assert ws[l - 1] in ws;
      }
    } else {
      WindowsAreDisjoint(ws[..|ws| - 1], k, l);
    }
  }

  /** Every mismatching frame lies in exactly one maximal run, so nothing longer
      than the minimum can go unreported. */
  lemma MismatchIsInARun(over: seq<bool>, under: seq<bool>, i: nat) returns (s: nat, e: nat)
    requires |over| == |under| && i < |over| && Mismatch(over, under, i)
    ensures s <= i <= e && IsMaximalRun(over, under, s, e)
  {
    s, e := i, i;
    while s > 0 && Mismatch(over, under, s - 1)
      invariant 0 <= s <= i && forall k :: s <= k <= i ==> Mismatch(over, under, k)
    {
      s := s - 1;
    }
    while e + 1 < |over| && Mismatch(over, under, e + 1)
      invariant i <= e < |over| && forall k :: s <= k <= e ==> Mismatch(over, under, k)
    {
      e := e + 1;
    }
  }
}

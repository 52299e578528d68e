/** The gateway's packet sequence as an SDM checks it: epoch-aware, wrapping from MAX
    to MIN, and blind to packets it drops. */
module GatewaySequence {

  const TX_SEQ_MIN: nat := 1
  const TX_SEQ_MAX: nat := 0xFFFF_FFFE
  const EPOCH_MAX: nat := 0xFFFF_FFFF_FFFF_FFFF

  datatype SequenceResult = Accepted | Gap | DuplicateOrStale | Invalid

  datatype Packet = Packet(epoch: nat, txSeq: nat)

  datatype SequenceState = SequenceState(initialized: bool, epoch: nat, last: nat)

  const RESET := SequenceState(false, 0, 0)

  predicate IsValid(p: Packet) {
    p.epoch != 0 && p.epoch != EPOCH_MAX && TX_SEQ_MIN <= p.txSeq <= TX_SEQ_MAX
  }

  /** The cyclic successor within MIN..MAX. */
  function Successor(txSeq: nat): nat {
    if txSeq >= TX_SEQ_MAX then TX_SEQ_MIN else txSeq + 1
  }

  /** The packet opens the observer's epoch: it is the first, or the epoch is new. */
  predicate Opens(s: SequenceState, p: Packet) {
    !s.initialized || p.epoch != s.epoch
  }

  /** What a packet means against the recorded number. */
  function Classify(s: SequenceState, p: Packet): SequenceResult {
    if !IsValid(p) then Invalid
    else if Opens(s, p) || p.txSeq == Successor(s.last) then Accepted
    else if s.last < TX_SEQ_MAX && p.txSeq <= s.last then DuplicateOrStale
    else Gap
  }

  predicate IsRecorded(r: SequenceResult) {
    r == Accepted || r == Gap
  }

  function Observed(s: SequenceState, p: Packet): SequenceState {
    if IsRecorded(Classify(s, p)) then SequenceState(true, p.epoch, p.txSeq) else s
  }

  class SequenceObserver {
    var initialized: bool
    var gatewayEpoch: nat
    var lastGatewayTxSeq: nat

    function State(): SequenceState
      reads this
    {
      SequenceState(initialized, gatewayEpoch, lastGatewayTxSeq)
    }

    constructor ()
      ensures State() == RESET
    {
      initialized, gatewayEpoch, lastGatewayTxSeq := false, 0, 0;
    }

    method Reset()
      modifies this
      ensures State() == RESET
    {
      initialized := false;
      gatewayEpoch := 0;
      lastGatewayTxSeq := 0;
    }

    method Observe(p: Packet) returns (r: SequenceResult)
      modifies this
      ensures r == Classify(old(State()), p)
      ensures State() == Observed(old(State()), p)
    {
      if !IsValid(p) {
        return Invalid;
      }
      if !initialized || p.epoch != gatewayEpoch {
        initialized := true;
        gatewayEpoch := p.epoch;
        lastGatewayTxSeq := p.txSeq;
        return Accepted;
      }
      var last := lastGatewayTxSeq;
      if last < TX_SEQ_MAX && p.txSeq <= last {
        return DuplicateOrStale;
      }
      var expected := if last >= TX_SEQ_MAX then TX_SEQ_MIN else last + 1;
      lastGatewayTxSeq := p.txSeq;
      if p.txSeq != expected {
        return Gap;
      }
      return Accepted;
    }
  }

  // ----- whole runs -----

  function After(s: SequenceState, ps: seq<Packet>, k: nat): SequenceState
    requires k <= |ps|
  {
    if k == 0 then s else Observed(After(s, ps, k - 1), ps[k - 1])
  }

  function ResultAt(s: SequenceState, ps: seq<Packet>, k: nat): SequenceResult
    requires k < |ps|
  {
    Classify(After(s, ps, k), ps[k])
  }

  /** A stream that loses nothing: one valid epoch, each number the successor of
      the one before. */
  ghost predicate Lossless(ps: seq<Packet>) {
    && (forall i :: 0 <= i < |ps| ==> IsValid(ps[i]) && ps[i].epoch == ps[0].epoch)
    && (forall i :: 1 <= i < |ps| ==> ps[i].txSeq == Successor(ps[i - 1].txSeq))
  }

  /** A lossless stream is accepted packet by packet, across any number of wraps,
      from any state its first packet continues or opens. */
  lemma {:induction false} LosslessIsAccepted(s: SequenceState, ps: seq<Packet>, k: nat)
    requires Lossless(ps) && k < |ps|
    requires Opens(s, ps[0]) || ps[0].txSeq == Successor(s.last)
    ensures ResultAt(s, ps, k) == Accepted
    ensures After(s, ps, k + 1) == SequenceState(true, ps[0].epoch, ps[k].txSeq)
  {
    if k > 0 {
      LosslessIsAccepted(s, ps, k - 1);
    }
  }

  /** The packets that were not dropped, and their results. */
  function Kept(s: SequenceState, ps: seq<Packet>, k: nat): seq<Packet>
    requires k <= |ps|
  {
    if k == 0 then []
    else Kept(s, ps, k - 1) + if IsRecorded(ResultAt(s, ps, k - 1)) then [ps[k - 1]] else []
  }

  function KeptResults(s: SequenceState, ps: seq<Packet>, k: nat): (rs: seq<SequenceResult>)
    requires k <= |ps|
    ensures |rs| == |Kept(s, ps, k)|
  {
    if k == 0 then []
    else KeptResults(s, ps, k - 1) + if IsRecorded(ResultAt(s, ps, k - 1)) then [ResultAt(s, ps, k - 1)] else []
  }

  lemma {:induction false} AfterPrefix(s: SequenceState, ps: seq<Packet>, qs: seq<Packet>, k: nat)
    requires k <= |ps| && k <= |qs|
    requires forall i :: 0 <= i < k ==> ps[i] == qs[i]
    ensures After(s, ps, k) == After(s, qs, k)
  {
    if k > 0 {
      AfterPrefix(s, ps, qs, k - 1);
    }
  }

  /** Deleting every stale, duplicate and invalid packet changes no other result
      and leaves the same state. */
  lemma {:induction false} DroppedPacketsDoNotMatter(s: SequenceState, ps: seq<Packet>, k: nat)
    requires k <= |ps|
    ensures var kept := Kept(s, ps, k);
            && After(s, kept, |kept|) == After(s, ps, k)
            && forall i :: 0 <= i < |kept| ==> ResultAt(s, kept, i) == KeptResults(s, ps, k)[i]
  {
    if k > 0 {
      DroppedPacketsDoNotMatter(s, ps, k - 1);
      var front, kept := Kept(s, ps, k - 1), Kept(s, ps, k);
      forall i | 0 <= i <= |front|
        ensures After(s, front, i) == After(s, kept, i)
      {
        AfterPrefix(s, front, kept, i);
      }
      forall i | 0 <= i < |front|
        ensures ResultAt(s, kept, i) == ResultAt(s, front, i)
      {
        assert front[i] == kept[i];
      }
    }
  }

  /** Packet i is recorded, and in epoch e. */
  predicate RecordedIn(s: SequenceState, ps: seq<Packet>, i: nat, e: nat) {
    i < |ps| && IsRecorded(ResultAt(s, ps, i)) && ps[i].epoch == e
  }

  /** Packet k is recorded and takes the observer out of epoch e, or to the wrap. */
  predicate LeavesOrWraps(s: SequenceState, ps: seq<Packet>, k: nat, e: nat) {
    k < |ps| && IsRecorded(ResultAt(s, ps, k)) && (ps[k].epoch != e || ps[k].txSeq == TX_SEQ_MAX)
  }

  /** From packet i to packet j the observer has stayed in epoch e and not recorded MAX. */
  ghost predicate StaysBelowMax(s: SequenceState, ps: seq<Packet>, i: nat, j: nat, e: nat) {
    j <= |ps| && forall k: nat :: i <= k < j ==> !LeavesOrWraps(s, ps, k, e)
  }

  lemma {:induction false} RecordedNumbersRise(s: SequenceState, ps: seq<Packet>, i: nat, j: nat, e: nat)
    requires RecordedIn(s, ps, i, e) && i < j <= |ps|
    requires StaysBelowMax(s, ps, i, j, e)
    ensures After(s, ps, j).initialized && After(s, ps, j).epoch == e
    ensures ps[i].txSeq <= After(s, ps, j).last < TX_SEQ_MAX
  {
    assert !LeavesOrWraps(s, ps, j - 1, e);
    if i + 1 < j {
      RecordedNumbersRise(s, ps, i, j - 1, e);
    }
  }

  /** Of two packets recorded in an epoch the later has the higher number, unless from
      the first on another epoch or MAX was recorded before it. */
  lemma NoRepeatUnlessLeftOrWrapped(s: SequenceState, ps: seq<Packet>, i: nat, j: nat, e: nat)
    requires i < j && RecordedIn(s, ps, i, e) && RecordedIn(s, ps, j, e)
    ensures ps[i].txSeq < ps[j].txSeq || exists k: nat :: i <= k < j && LeavesOrWraps(s, ps, k, e)
  {
    if StaysBelowMax(s, ps, i, j, e) {
      RecordedNumbersRise(s, ps, i, j, e);
    }
  }

  lemma {:induction false} RecordedStaysValid(s: SequenceState, ps: seq<Packet>, i: nat, j: nat)
    requires i < j <= |ps| && IsRecorded(ResultAt(s, ps, i))
    ensures After(s, ps, j).initialized && After(s, ps, j).last <= TX_SEQ_MAX
  {
    if i + 1 < j {
      RecordedStaysValid(s, ps, i, j - 1);
    }
  }

  /** A copy of a recorded packet is recorded again exactly when the observer is then in
      another epoch, or at MAX, or below the copy's number. */
  lemma CopyIsRecordedIff(s: SequenceState, ps: seq<Packet>, i: nat, j: nat)
    requires i < j < |ps| && IsRecorded(ResultAt(s, ps, i)) && ps[j] == ps[i]
    ensures var t := After(s, ps, j);
            IsRecorded(ResultAt(s, ps, j)) <==>
            t.epoch != ps[i].epoch || t.last == TX_SEQ_MAX || t.last < ps[i].txSeq
  {
    RecordedStaysValid(s, ps, i, j);
  }

  /** It is dropped whenever neither another epoch nor MAX was recorded since. */
  lemma CopyIsDropped(s: SequenceState, ps: seq<Packet>, i: nat, j: nat)
    requires i < j < |ps| && IsRecorded(ResultAt(s, ps, i)) && ps[j] == ps[i]
    requires StaysBelowMax(s, ps, i, j, ps[i].epoch)
    ensures ResultAt(s, ps, j) == DuplicateOrStale
  {
    RecordedNumbersRise(s, ps, i, j, ps[i].epoch);
  }

  /** One packet of another epoch opens an epoch to its old numbers: the third packet
      here is accepted although it is the first again. */
  lemma OtherEpochReopensNumbers()
    ensures var ps := [Packet(1, 5), Packet(2, 1), Packet(1, 5)];
            && RecordedIn(RESET, ps, 0, 1) && RecordedIn(RESET, ps, 2, 1)
            && ResultAt(RESET, ps, 2) == Accepted
  {
    var ps := [Packet(1, 5), Packet(2, 1), Packet(1, 5)];
    assert After(RESET, ps, 0) == RESET;
    assert After(RESET, ps, 1) == SequenceState(true, 1, 5);
    assert After(RESET, ps, 2) == SequenceState(true, 2, 1);
  }

  /** A packet delivered twice in a row is recognised as a duplicate exactly when
      its number is not MAX: MAX is followed by the wrap, so a repeat of it reads
      as a gap and is recorded again. */
  lemma RepeatIsDuplicateIff(s: SequenceState, p: Packet)
    requires IsRecorded(Classify(s, p))
    ensures Classify(Observed(s, p), p) == DuplicateOrStale <==> p.txSeq != TX_SEQ_MAX
    ensures p.txSeq == TX_SEQ_MAX ==> Classify(Observed(s, p), p) == Gap
  {
  }
}

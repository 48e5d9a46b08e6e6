/** anp/anp/e2e_encryption_hpke/seq_manager.py: sequence numbers and replay protection. */
module SequenceNumbers {
  datatype SeqMode = Strict | Window

  const DEFAULT_MAX_SKIP := 256
  const DEFAULT_SKIP_KEY_TTL := 300

  /** The manager's fields; `used` maps a used sequence number to the time its entry expires. */
  datatype SeqState = SeqState(
    mode: SeqMode, maxSkip: int, ttl: int, sendSeq: nat, recvSeq: nat, used: map<nat, int>)

  function Fresh(mode: SeqMode, maxSkip: int, ttl: int): SeqState {
    SeqState(mode, maxSkip, ttl, 0, 0, map[])
  }

  predicate IsUsed(s: SeqState, seqNo: int, now: int) {
    seqNo in s.used && s.used[seqNo] > now
  }

  /** Asking about a number whose entry has expired removes the entry. */
  function AfterCheck(s: SeqState, seqNo: int, now: int): SeqState {
    if seqNo in s.used && s.used[seqNo] <= now then s.(used := s.used - {seqNo}) else s
  }

  /** What is acceptable by the counter alone, whatever the used-number cache holds. */
  predicate InRange(s: SeqState, seqNo: int) {
    match s.mode
    case Strict => seqNo == s.recvSeq
    case Window => s.recvSeq <= seqNo < s.recvSeq + s.maxSkip
  }

  predicate Accepts(s: SeqState, seqNo: int, now: int) {
    !IsUsed(s, seqNo, now) && InRange(s, seqNo)
  }

  function Mark(s: SeqState, seqNo: nat, now: int): SeqState {
    s.(used := s.used[seqNo := now + s.ttl])
  }

  function Advance(s: SeqState, seqNo: nat): SeqState {
    s.(recvSeq := seqNo + 1)
  }

  function Cleanup(s: SeqState, now: int): SeqState {
    s.(used := map q | q in s.used && s.used[q] > now :: s.used[q])
  }

  function Reset(s: SeqState): SeqState {
    s.(sendSeq := 0, recvSeq := 0, used := map[])
  }

  class SeqManager {
    const mode: SeqMode
    const maxSkip: int
    const ttl: int
    var sendSeq: nat
    var recvSeq: nat
    var used: map<nat, int>

    ghost function State(): SeqState
      reads this
    {
      SeqState(mode, maxSkip, ttl, sendSeq, recvSeq, used)
    }

    constructor (mode: SeqMode, maxSkip: int, ttl: int)
      ensures State() == Fresh(mode, maxSkip, ttl)
    {
      this.mode, this.maxSkip, this.ttl := mode, maxSkip, ttl;
      sendSeq, recvSeq, used := 0, 0, map[];
    }

    method NextSendSeq() returns (seqNo: nat)
      modifies this
      ensures seqNo == old(sendSeq)
      ensures State() == old(State()).(sendSeq := seqNo + 1)
    {
      seqNo := sendSeq;
      sendSeq := sendSeq + 1;
    }

    method IsSeqUsed(seqNo: int, now: int) returns (yes: bool)
      modifies this
      ensures yes == IsUsed(old(State()), seqNo, now)
      ensures State() == AfterCheck(old(State()), seqNo, now)
    {
      if seqNo in used {
        if used[seqNo] > now {
          return true;
        }
        used := used - {seqNo};
      }
      return false;
    }

    method ValidateRecvSeq(seqNo: int, now: int) returns (ok: bool)
      modifies this
      ensures ok == Accepts(old(State()), seqNo, now)
      ensures State() == AfterCheck(old(State()), seqNo, now)
    {
      var isUsed := IsSeqUsed(seqNo, now);
      if isUsed {
        return false;
      }
      if mode == Strict {
        return seqNo == recvSeq;
      } else {
        return recvSeq <= seqNo < recvSeq + maxSkip;
      }
    }

    method AdvanceRecvTo(seqNo: nat)
      modifies this
      ensures State() == Advance(old(State()), seqNo)
    {
      recvSeq := seqNo + 1;
    }

    method MarkSeqUsed(seqNo: nat, now: int)
      modifies this
      ensures State() == Mark(old(State()), seqNo, now)
    {
      used := used[seqNo := now + ttl];
    }

    method CleanupExpiredCache(now: int)
      modifies this
      ensures State() == Cleanup(old(State()), now)
    {
      var expired := set q | q in used && used[q] <= now;
      ghost var was := used;
      while expired != {}
        invariant expired <= was.Keys && forall q :: q in expired ==> was[q] <= now
        invariant forall q :: q in used <==> q in was && (was[q] > now || q in expired)
        invariant forall q :: q in used ==> used[q] == was[q]
        invariant sendSeq == old(sendSeq) && recvSeq == old(recvSeq)
        decreases expired
      {
        var q :| q in expired;
        used := used - {q};
        expired := expired - {q};
      }
    }

    method ResetState()
      modifies this
      ensures State() == Reset(old(State()))
    {
      sendSeq, recvSeq, used := 0, 0, map[];
    }
  }

  // ---- Runs of the validate, mark, advance pattern ----

  /** What happens to a manager between two resets. `Probe` is a validation whose message then
      fails to decrypt; `Receive` is a validation whose message, if valid, is accepted. Clock
      readings are arbitrary. */
  datatype SeqEvent =
    | TakeSendSeq
    | Probe(seqNo: int, now: int)
    | Receive(seqNo: int, now: int)
    | CleanupAt(now: int)

  datatype SeqRun = SeqRun(state: SeqState, accepted: seq<nat>)

  function StepEvent(r: SeqRun, e: SeqEvent): SeqRun {
    match e
    case TakeSendSeq => r.(state := r.state.(sendSeq := r.state.sendSeq + 1))
    case Probe(seqNo, now) => r.(state := AfterCheck(r.state, seqNo, now))
    case Receive(seqNo, now) =>
      var checked := AfterCheck(r.state, seqNo, now);
      if Accepts(r.state, seqNo, now)
      then SeqRun(Advance(Mark(checked, seqNo, now), seqNo), r.accepted + [seqNo])
      else r.(state := checked)
    case CleanupAt(now) => r.(state := Cleanup(r.state, now))
  }

  function RunEvents(r: SeqRun, es: seq<SeqEvent>): SeqRun {
    if es == [] then r else StepEvent(RunEvents(r, es[..|es| - 1]), es[|es| - 1])
  }

  /** The same run on a manager with no used-number cache and no clock at all. */
  function RunCacheless(mode: SeqMode, maxSkip: int, recvSeq: nat, es: seq<SeqEvent>): (nat, seq<nat>) {
    if es == [] then (recvSeq, [])
    else
      var (recv, accepted) := RunCacheless(mode, maxSkip, recvSeq, es[..|es| - 1]);
      var e := es[|es| - 1];
      if e.Receive? && (if mode == Strict then e.seqNo == recv else recv <= e.seqNo < recv + maxSkip)
      then (e.seqNo + 1, accepted + [e.seqNo])
      else (recv, accepted)
  }

  ghost predicate UsedBelow(s: SeqState) {
    forall q :: q in s.used ==> q < s.recvSeq
  }

  /** A number that is marked used is taken for used until its time to live has passed; a cleanup, or asking about it,
      drops its entry exactly then. Other entries are not affected by that. */
  lemma MarkedUntil(s: SeqState, seqNo: nat, then': int, now: int)
    ensures var m := Mark(s, seqNo, then');
            && (IsUsed(m, seqNo, now) <==> now - then' < s.ttl)
            && (seqNo in Cleanup(m, now).used <==> now - then' < s.ttl)
            && (seqNo in AfterCheck(m, seqNo, now).used <==> now - then' < s.ttl)
            && (forall q :: q != seqNo ==> (q in AfterCheck(m, seqNo, now).used <==> q in s.used))
            && forall q :: q in s.used && q != seqNo ==>
                 (IsUsed(m, q, now) <==> IsUsed(s, q, now)) && (q in Cleanup(m, now).used <==> IsUsed(s, q, now))
  {
  }

  ghost predicate StrictlyIncreasing(s: seq<nat>) {
    forall i, j :: 0 <= i < j < |s| ==> s[i] < s[j]
  }

  /** Below the counter the cache is never consulted with effect. */
  lemma AcceptsIffInRange(s: SeqState, seqNo: int, now: int)
    requires UsedBelow(s)
    ensures Accepts(s, seqNo, now) <==> InRange(s, seqNo)
  {
    if InRange(s, seqNo) {
      assert s.recvSeq <= seqNo;
    }
  }

  /** Between resets the manager accepts exactly what the cacheless one accepts, for every clock,
      time to live and cleanup schedule, and the accepted numbers strictly increase. */
  lemma {:induction false} RefinesCacheless(s: SeqState, es: seq<SeqEvent>)
    requires UsedBelow(s)
    ensures var r := RunEvents(SeqRun(s, []), es);
            && (r.state.recvSeq, r.accepted) == RunCacheless(s.mode, s.maxSkip, s.recvSeq, es)
            && UsedBelow(r.state)
            && r.state.mode == s.mode && r.state.maxSkip == s.maxSkip
            && StrictlyIncreasing(r.accepted)
            && (forall i :: 0 <= i < |r.accepted| ==> s.recvSeq <= r.accepted[i] < r.state.recvSeq)
            && s.recvSeq <= r.state.recvSeq
  {
    if es != [] {
      RefinesCacheless(s, es[..|es| - 1]);
      var before := RunEvents(SeqRun(s, []), es[..|es| - 1]);
      var e := es[|es| - 1];
      if e.Receive? {
        AcceptsIffInRange(before.state, e.seqNo, e.now);
      }
    }
  }

  /** In STRICT mode the accepted numbers are recvSeq, recvSeq + 1, ... without a gap. */
  lemma {:induction false} StrictIsConsecutive(s: SeqState, es: seq<SeqEvent>)
    requires UsedBelow(s) && s.mode == Strict
    ensures var r := RunEvents(SeqRun(s, []), es);
            && r.state.recvSeq == s.recvSeq + |r.accepted|
            && (forall i :: 0 <= i < |r.accepted| ==> r.accepted[i] == s.recvSeq + i)
  {
    if es != [] {
      StrictIsConsecutive(s, es[..|es| - 1]);
      RefinesCacheless(s, es[..|es| - 1]);
    }
  }
}

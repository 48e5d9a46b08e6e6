/** Whole runs of two E2eeHpkeSession endpoints that share one e2ee_init, over a network that
    drops, duplicates, reorders and injects messages. */
module HpkeRuns {
  import opened Wrappers
  import opened E2eeMessages
  import opened Ratchet
  import opened SequenceNumbers
  import opened HpkeSessions

  datatype Side = Left | Right {
    function Other(): Side { if Left? then Right else Left }
  }

  datatype Pair<T> = Pair(left: T, right: T) {
    function At(s: Side): T { if s.Left? then left else right }
    function With(s: Side, t: T): Pair<T> { if s.Left? then Pair(t, right) else Pair(left, t) }
  }

  /** `offered` is the one genuine init of the run, `sent` and `got` log what each side encrypted
      and what it accepted, `wire` holds every ciphertext either side ever produced. */
  datatype World = World(
    ends: Pair<Session>, offered: Option<InitContent>,
    sent: Pair<seq<string>>, got: Pair<seq<Accepted>>, wire: set<Ciphertext<string>>)

  datatype Event =
    | Start(side: Side, peerKey: nat, freshId: string, rootSeed: Key, now: int)
    | DeliverInit(side: Side, init: InitContent, proofOk: bool, now: int)
    | Send(side: Side, originalType: string, text: string)
    | Deliver(side: Side, msg: MsgContent, now: int)
    | CleanupCache(side: Side, now: int)

  function Initially(left: Did, right: Did, keys: Pair<nat>, modes: Pair<SeqMode>, expires: int): World {
    World(Pair(NewSession(left, right, keys.left, modes.left, expires),
               NewSession(right, left, keys.right, modes.right, expires)),
          None, Pair([], []), Pair([], []), {})
  }

  /** A ciphertext the network can make up: junk, or one sealed under a key that does not descend
      from the session's seed. */
  predicate Foreign(w: World, c: Ciphertext<string>) {
    c.Sealed? && w.offered.Some? && w.offered.value.box.HpkeBox? ==>
      RootOf(c.key) != RootOf(w.offered.value.box.seed)
  }

  /** The network's powers. One init per run, from a fresh seed; signatures are ideal, so only the
      genuine init passes the proof check. Messages need not be genuine, timely, in order or new:
      every field of a delivered message is the network's choice, except that a ciphertext under a
      session key must have been produced by one of the two sides. Clocks are arbitrary. */
  predicate Allowed(w: World, e: Event) {
    match e
    case Start(_, _, _, rootSeed, _) => w.offered.None? && rootSeed.Seed?
    case DeliverInit(_, init, proofOk, _) => proofOk ==> w.offered == Some(init)
    case Send(_, _, _) => true
    case Deliver(_, msg, _) => msg.ciphertext in w.wire || Foreign(w, msg.ciphertext)
    case CleanupCache(_, _) => true
  }

  function WithEnd(w: World, side: Side, s: Session): World {
    w.(ends := w.ends.With(side, s))
  }

  function AfterStart(w: World, side: Side, peerKey: nat, freshId: string, rootSeed: Key, now: int): World {
    var (s, r) := InitiateSession(w.ends.At(side), peerKey, freshId, rootSeed, now);
    WithEnd(w, side, s).(offered := if r.Success? then Some(r.value) else w.offered)
  }

  function AfterSend(w: World, side: Side, originalType: string, text: string): World
    requires WellFormed(w.ends.At(side))
  {
    var (s, r) := Encrypt(w.ends.At(side), originalType, text);
    if r.Failure? then WithEnd(w, side, s)
    else WithEnd(w, side, s).(sent := w.sent.With(side, w.sent.At(side) + [text]),
                              wire := w.wire + {r.value.ciphertext})
  }

  function AfterDeliver(w: World, side: Side, msg: MsgContent, now: int): World
    requires WellFormed(w.ends.At(side))
  {
    var (s, r) := Decrypt(w.ends.At(side), msg, now);
    if r.Failure? then WithEnd(w, side, s)
    else WithEnd(w, side, s).(got := w.got.With(side, w.got.At(side) + [Accepted(msg.seqNo, r.value.text)]))
  }

  function Step(w: World, e: Event): World
    requires WellFormed(w.ends.At(e.side))
  {
    match e
    case Start(side, peerKey, freshId, rootSeed, now) => AfterStart(w, side, peerKey, freshId, rootSeed, now)
    case DeliverInit(side, init, proofOk, now) =>
      WithEnd(w, side, ProcessInit(w.ends.At(side), init, proofOk, now).0)
    case Send(side, originalType, text) => AfterSend(w, side, originalType, text)
    case Deliver(side, msg, now) => AfterDeliver(w, side, msg, now)
    case CleanupCache(side, now) =>
      WithEnd(w, side, w.ends.At(side).(seqs := Cleanup(w.ends.At(side).seqs, now)))
  }

  ghost predicate IsStep(u: World, e: Event, w: World) {
    WellFormed(u.ends.At(e.side)) && Allowed(u, e) && w == Step(u, e)
  }

  /** `ws` are the states of a run in which the events `es` happen one after the other. */
  ghost predicate Run(ws: seq<World>, es: seq<Event>) {
    |ws| == |es| + 1 && forall i :: 0 <= i < |es| ==> IsStep(ws[i], es[i], ws[i + 1])
  }

  // ---- The invariant ----

  function SeedOf(w: World): Key
    requires w.offered.Some? && w.offered.value.box.HpkeBox?
  {
    w.offered.value.box.seed
  }

  /** The chain on which `side` sends. */
  function Chain(w: World, side: Side): Key
    requires w.offered.Some? && w.offered.value.box.HpkeBox?
  {
    StartKeys(SeedOf(w), w.ends.At(side).localDid, w.ends.At(side).peerDid).0
  }

  /** The ciphertext of the n-th text `side` sent. */
  function Genuine(w: World, side: Side, n: nat): Ciphertext<string>
    requires w.offered.Some? && w.offered.value.box.HpkeBox? && n < |w.sent.At(side)|
  {
    var k := MsgKey(Ratcheted(Chain(w, side), n), n);
    Sealed(EncKey(k), Nonce(k), w.offered.value.sessionId, w.sent.At(side)[n])
  }

  ghost predicate DidsOk(w: World) {
    && w.ends.left.localDid == w.ends.right.peerDid
    && w.ends.right.localDid == w.ends.left.peerDid
    && w.ends.left.localDid != w.ends.right.localDid
  }

  ghost predicate SendOk(w: World, side: Side)
    requires w.offered.Some? && w.offered.value.box.HpkeBox?
  {
    var s := w.ends.At(side);
    var n := |w.sent.At(side)|;
    if s.state == Idle then n == 0 && s.seqs.sendSeq == 0
    else
      && s.sendCk == Some(Ratcheted(Chain(w, side), n))
      && n == if s.seqs.sendSeq < SEQ_LIMIT then s.seqs.sendSeq else SEQ_LIMIT
  }

  ghost predicate RecvOk(w: World, side: Side)
    requires w.offered.Some? && w.offered.value.box.HpkeBox?
  {
    var s := w.ends.At(side);
    && UsedBelow(s.seqs)
    && s.seqs.recvSeq <= |w.sent.At(side.Other())|
    && (s.state == Idle ==> s.seqs.recvSeq == 0)
    && (s.state == Active ==>
          s.recvCk == Some(Ratcheted(Chain(w, side.Other()), s.seqs.recvSeq))
          && s.sessionId == Some(w.offered.value.sessionId))
  }

  /** What `side` accepted are texts the other side sent, in the order they were sent and without
      repetition; a STRICT side has moreover skipped none. */
  ghost predicate InOrder(got: seq<Accepted>, sent: seq<string>, strict: bool) {
    && (forall i :: 0 <= i < |got| ==> 0 <= got[i].seqNo < |sent| && got[i].text == sent[got[i].seqNo])
    && (forall i, j :: 0 <= i < j < |got| ==> got[i].seqNo < got[j].seqNo)
    && (strict ==> forall i :: 0 <= i < |got| ==> got[i].seqNo == i)
  }

  ghost predicate GotOk(w: World, side: Side) {
    var s := w.ends.At(side);
    var got := w.got.At(side);
    && InOrder(got, w.sent.At(side.Other()), s.seqs.mode == Strict)
    && (forall i :: 0 <= i < |got| ==> got[i].seqNo < s.seqs.recvSeq)
    && (s.seqs.mode == Strict ==> |got| == s.seqs.recvSeq)
  }

  ghost predicate OnWire(w: World, c: Ciphertext<string>)
    requires w.offered.Some? && w.offered.value.box.HpkeBox?
  {
    exists side: Side, n: nat :: n < |w.sent.At(side)| && c == Genuine(w, side, n)
  }

  ghost predicate SideOk(w: World, side: Side)
    requires w.offered.Some? && w.offered.value.box.HpkeBox?
  {
    WellFormed(w.ends.At(side)) && SendOk(w, side) && RecvOk(w, side) && GotOk(w, side)
  }

  ghost predicate BoxOk(w: World) {
    && w.offered.Some? && w.offered.value.box.HpkeBox? && w.offered.value.box.seed.Seed?
    && w.offered.value.box.aad == w.offered.value.sessionId
  }

  ghost predicate Untouched(s: Session) {
    s.state == Idle && s.seqs.sendSeq == 0 && s.seqs.recvSeq == 0 && s.seqs.used == map[]
  }

  ghost predicate Inv(w: World) {
    && DidsOk(w)
    && (w.offered.None? ==>
          && w.wire == {} && w.sent == Pair([], []) && w.got == Pair([], [])
          && Untouched(w.ends.left) && Untouched(w.ends.right))
    && (w.offered.Some? ==>
          && BoxOk(w) && SideOk(w, Left) && SideOk(w, Right)
          && forall c :: c in w.wire ==> OnWire(w, c))
  }

  // ---- Preservation, one event kind at a time ----

  /** `w'` is a later state of the same session: nothing sent is unsent. */
  ghost predicate Later(w: World, w': World) {
    && BoxOk(w) && w'.offered == w.offered
    && w'.ends.left.localDid == w.ends.left.localDid && w'.ends.left.peerDid == w.ends.left.peerDid
    && w'.ends.right.localDid == w.ends.right.localDid && w'.ends.right.peerDid == w.ends.right.peerDid
    && w.sent.left <= w'.sent.left && w.sent.right <= w'.sent.right
  }

  lemma WireStays(w: World, w': World)
    requires Later(w, w') && forall c :: c in w.wire ==> OnWire(w, c)
    ensures forall c :: c in w.wire ==> OnWire(w', c)
  {
    forall c | c in w.wire
      ensures OnWire(w', c)
    {
      var side: Side, n: nat :| n < |w.sent.At(side)| && c == Genuine(w, side, n);
      assert c == Genuine(w', side, n);
    }
  }

  /** A side that did nothing keeps its part of the invariant. */
  lemma IdleSideStays(w: World, w': World, side: Side)
    requires Later(w, w') && SideOk(w, side)
    requires w'.ends.At(side) == w.ends.At(side) && w'.got.At(side) == w.got.At(side)
    requires w'.sent.At(side) == w.sent.At(side)
    ensures SideOk(w', side)
  {
    assert Chain(w', side) == Chain(w, side);
    assert Chain(w', side.Other()) == Chain(w, side.Other());
    assert w.sent.At(side.Other()) <= w'.sent.At(side.Other());
  }

  lemma {:induction false} ChainRoot(w: World, side: Side, n: nat)
    requires BoxOk(w)
    ensures RootOf(Ratcheted(Chain(w, side), n)) == SeedOf(w)
  {
    RatchetedRoot(Chain(w, side), n);
  }

  /** With distinct DIDs the two directions never share a chain key. */
  lemma ChainsApart(w: World, side: Side, n: nat)
    requires DidsOk(w) && BoxOk(w)
    ensures Ratcheted(Chain(w, side), n) != Ratcheted(Chain(w, side.Other()), n)
  {
    OneInitiator(w.ends.left.localDid, w.ends.right.localDid);
    if Ratcheted(Chain(w, side), n) == Ratcheted(Chain(w, side.Other()), n) {
      RatchetedInjective(Chain(w, side), Chain(w, side.Other()), n);
    }
  }

  /** Each side receives on the chain the other one sends on. */
  lemma ReceivesOnPeersChain(w: World, side: Side)
    requires DidsOk(w) && BoxOk(w)
    ensures StartKeys(SeedOf(w), w.ends.At(side).localDid, w.ends.At(side).peerDid).1 == Chain(w, side.Other())
  {
    StartKeysMirror(SeedOf(w), w.ends.left.localDid, w.ends.right.localDid);
  }

  lemma StartKeeps(w: World, side: Side, peerKey: nat, freshId: string, rootSeed: Key, now: int)
    requires Inv(w) && w.offered.None? && rootSeed.Seed?
    ensures Inv(AfterStart(w, side, peerKey, freshId, rootSeed, now))
  {
    var w' := AfterStart(w, side, peerKey, freshId, rootSeed, now);
    ReceivesOnPeersChain(w', side);
    assert SideOk(w', side);
    assert SideOk(w', side.Other());
  }

  lemma InitKeeps(w: World, side: Side, init: InitContent, proofOk: bool, now: int)
    requires Inv(w) && (proofOk ==> w.offered == Some(init))
    ensures Inv(WithEnd(w, side, ProcessInit(w.ends.At(side), init, proofOk, now).0))
  {
    var s := ProcessInit(w.ends.At(side), init, proofOk, now).0;
    var w' := WithEnd(w, side, s);
    if s != w.ends.At(side) {
      WireStays(w, w');
      IdleSideStays(w, w', side.Other());
      ReceivesOnPeersChain(w', side);
      assert SideOk(w', side);
    }
  }

  lemma SendKeepsSide(w: World, side: Side, originalType: string, text: string)
    requires BoxOk(w) && SideOk(w, side)
    ensures SideOk(AfterSend(w, side, originalType, text), side)
  {
    var w' := AfterSend(w, side, originalType, text);
    assert Chain(w', side) == Chain(w, side) && Chain(w', side.Other()) == Chain(w, side.Other());
    assert w'.got == w.got && w'.sent.At(side.Other()) == w.sent.At(side.Other());
  }

  lemma SendPutsGenuineOnWire(w: World, side: Side, originalType: string, text: string)
    requires BoxOk(w) && SideOk(w, side)
    requires Encrypt(w.ends.At(side), originalType, text).1.Success?
    ensures var w' := AfterSend(w, side, originalType, text);
            var c := Encrypt(w.ends.At(side), originalType, text).1.value.ciphertext;
            w'.offered == w.offered && w'.sent.At(side) == w.sent.At(side) + [text]
            && c == Genuine(w', side, |w.sent.At(side)|) && OnWire(w', c)
  {
  }

  lemma SendKeeps(w: World, side: Side, originalType: string, text: string)
    requires Inv(w) && WellFormed(w.ends.At(side))
    ensures Inv(AfterSend(w, side, originalType, text))
  {
    var w' := AfterSend(w, side, originalType, text);
    if w.offered.Some? {
      WireStays(w, w');
      IdleSideStays(w, w', side.Other());
      SendKeepsSide(w, side, originalType, text);
      if Encrypt(w.ends.At(side), originalType, text).1.Success? {
        SendPutsGenuineOnWire(w, side, originalType, text);
      }
    }
  }

  /** The heart of the argument: the only ciphertext that opens at a receiver is the genuine one of
      exactly that position of the peer's chain. */
  lemma OnlyGenuineOpens(w: World, side: Side, seqNo: int, c: Ciphertext<string>)
    requires Inv(w) && w.offered.Some? && w.ends.At(side).state == Active
    requires c in w.wire || Foreign(w, c)
    requires w.ends.At(side).seqs.recvSeq <= seqNo
    requires var k := KeyAt(w.ends.At(side), seqNo);
             k.Some? && Open(c, k.value.encKey, k.value.nonce, w.offered.value.sessionId).Some?
    ensures seqNo < |w.sent.At(side.Other())|
    ensures c == Genuine(w, side.Other(), seqNo)
  {
    var s := w.ends.At(side);
    var peer := side.Other();
    RatchetedAdd(Chain(w, peer), s.seqs.recvSeq, seqNo - s.seqs.recvSeq);
    var k := MsgKey(Ratcheted(Chain(w, peer), seqNo), seqNo);
    assert c.key == EncKey(k);
    ChainRoot(w, peer, seqNo);
    assert RootOf(EncKey(k)) == RootOf(k) == SeedOf(w);
    assert c in w.wire;
    assert OnWire(w, c);
    var from: Side, n: nat :| n < |w.sent.At(from)| && c == Genuine(w, from, n);
    assert n == seqNo;
    ChainsApart(w, peer, n);
    assert from == peer;
  }

  lemma DeliverKeeps(w: World, side: Side, msg: MsgContent, now: int)
    requires Inv(w) && WellFormed(w.ends.At(side))
    requires msg.ciphertext in w.wire || Foreign(w, msg.ciphertext)
    ensures Inv(AfterDeliver(w, side, msg, now))
  {
    var w' := AfterDeliver(w, side, msg, now);
    if w.offered.Some? {
      WireStays(w, w');
      IdleSideStays(w, w', side.Other());
      DeliverKeepsSide(w, side, msg, now);
    }
  }

  /** Accepting the genuine text of position `n` moves the receive chain just past it. */
  lemma AcceptKeepsSide(w: World, w': World, side: Side, n: nat, now: int)
    requires BoxOk(w) && SideOk(w, side) && Later(w, w') && w'.sent == w.sent
    requires w.ends.At(side).state == Active
    requires n < |w.sent.At(side.Other())| && InRange(w.ends.At(side).seqs, n)
    requires var s := w.ends.At(side);
             w'.ends.At(side) == s.(
               recvCk := Some(Ratcheted(Chain(w, side.Other()), n + 1)),
               seqs := Advance(Mark(AfterCheck(s.seqs, n, now), n, now), n))
    requires w'.got.At(side) == w.got.At(side) + [Accepted(n, w.sent.At(side.Other())[n])]
    ensures SideOk(w', side)
  {
    assert Chain(w', side) == Chain(w, side) && Chain(w', side.Other()) == Chain(w, side.Other());
  }

  lemma DeliverKeepsSide(w: World, side: Side, msg: MsgContent, now: int)
    requires Inv(w) && WellFormed(w.ends.At(side)) && w.offered.Some?
    requires msg.ciphertext in w.wire || Foreign(w, msg.ciphertext)
    ensures SideOk(AfterDeliver(w, side, msg, now), side)
  {
    var w' := AfterDeliver(w, side, msg, now);
    var s := w.ends.At(side);
    var peer := side.Other();
    var r := Decrypt(s, msg, now).1;
    if r.Success? {
      AcceptsIffInRange(s.seqs, msg.seqNo, now);
      OnlyGenuineOpens(w, side, msg.seqNo, msg.ciphertext);
      RatchetedAdd(Chain(w, peer), s.seqs.recvSeq, msg.seqNo - s.seqs.recvSeq);
      AcceptKeepsSide(w, w', side, msg.seqNo, now);
    } else {
      RefuseKeepsSide(w, side, msg, now);
    }
  }

  lemma RefuseKeepsSide(w: World, side: Side, msg: MsgContent, now: int)
    requires BoxOk(w) && SideOk(w, side)
    requires Decrypt(w.ends.At(side), msg, now).1.Failure?
    ensures SideOk(AfterDeliver(w, side, msg, now), side)
  {
    var w' := AfterDeliver(w, side, msg, now);
    FailedDecryptKeepsChain(w.ends.At(side), msg, now);
    assert Chain(w', side) == Chain(w, side) && Chain(w', side.Other()) == Chain(w, side.Other());
  }

  lemma CleanupKeeps(w: World, side: Side, now: int)
    requires Inv(w)
    ensures Inv(WithEnd(w, side, w.ends.At(side).(seqs := Cleanup(w.ends.At(side).seqs, now))))
  {
    var w' := WithEnd(w, side, w.ends.At(side).(seqs := Cleanup(w.ends.At(side).seqs, now)));
    if w.offered.Some? {
      WireStays(w, w');
      IdleSideStays(w, w', side.Other());
      assert Chain(w', side) == Chain(w, side);
      assert SideOk(w', side);
    }
  }

  lemma StepKeepsInv(w: World, e: Event)
    requires Inv(w) && Allowed(w, e) && WellFormed(w.ends.At(e.side))
    ensures Inv(Step(w, e))
  {
    match e
    case Start(side, peerKey, freshId, rootSeed, now) => StartKeeps(w, side, peerKey, freshId, rootSeed, now);
    case DeliverInit(side, init, proofOk, now) => InitKeeps(w, side, init, proofOk, now);
    case Send(side, originalType, text) => SendKeeps(w, side, originalType, text);
    case Deliver(side, msg, now) => DeliverKeeps(w, side, msg, now);
    case CleanupCache(side, now) => CleanupKeeps(w, side, now);
  }

  predicate SameConfig(w: World, w': World) {
    && w'.ends.left.seqs.mode == w.ends.left.seqs.mode && w'.ends.right.seqs.mode == w.ends.right.seqs.mode
    && w'.ends.left.seqs.maxSkip == w.ends.left.seqs.maxSkip
    && w'.ends.right.seqs.maxSkip == w.ends.right.seqs.maxSkip
  }

  lemma StepKeepsConfig(u: World, e: Event, w: World)
    requires IsStep(u, e, w)
    ensures SameConfig(u, w)
  {
  }

  lemma IsStepKeepsInv(u: World, e: Event, w: World)
    requires Inv(u) && IsStep(u, e, w)
    ensures Inv(w)
  {
    StepKeepsInv(u, e);
  }

  /** Every text ever sent is still available to the network. */
  ghost predicate AllOnWire(w: World) {
    w.offered.Some? && w.offered.value.box.HpkeBox? ==>
      forall side: Side, n: nat :: n < |w.sent.At(side)| ==> Genuine(w, side, n) in w.wire
  }

  lemma SendKeepsAllOnWire(w: World, side: Side, originalType: string, text: string)
    requires BoxOk(w) && SideOk(w, side) && AllOnWire(w)
    ensures AllOnWire(AfterSend(w, side, originalType, text))
  {
    var w' := AfterSend(w, side, originalType, text);
    if Encrypt(w.ends.At(side), originalType, text).1.Success? {
      SendPutsGenuineOnWire(w, side, originalType, text);
    }
    forall x: Side, n: nat | n < |w'.sent.At(x)|
      ensures Genuine(w', x, n) in w'.wire
    {
      if n < |w.sent.At(x)| {
        assert Genuine(w', x, n) == Genuine(w, x, n);
      }
    }
  }

  lemma QuietKeepsAllOnWire(w: World, w': World)
    requires Later(w, w') && w'.sent == w.sent && w'.wire == w.wire && AllOnWire(w)
    ensures AllOnWire(w')
  {
    forall x: Side, n: nat | n < |w'.sent.At(x)|
      ensures Genuine(w', x, n) in w'.wire
    {
      assert Genuine(w', x, n) == Genuine(w, x, n);
    }
  }

  lemma StepKeepsAllOnWire(u: World, e: Event, w: World)
    requires Inv(u) && AllOnWire(u) && IsStep(u, e, w)
    ensures AllOnWire(w)
  {
    if u.offered.Some? {
      if e.Send? {
        SendKeepsAllOnWire(u, e.side, e.originalType, e.text);
      } else {
        QuietIsLater(u, e, w);
        QuietKeepsAllOnWire(u, w);
      }
    }
  }

  lemma QuietIsLater(u: World, e: Event, w: World)
    requires BoxOk(u) && IsStep(u, e, w) && !e.Send?
    ensures Later(u, w) && w.sent == u.sent && w.wire == u.wire
  {
  }

  lemma {:induction false} RunKeepsInv(ws: seq<World>, es: seq<Event>, i: nat)
    requires Run(ws, es) && Inv(ws[0]) && i < |ws|
    ensures Inv(ws[i]) && SameConfig(ws[0], ws[i])
    ensures AllOnWire(ws[0]) ==> AllOnWire(ws[i])
  {
    if i > 0 {
      RunKeepsInv(ws, es, i - 1);
      if AllOnWire(ws[i - 1]) {
        StepKeepsAllOnWire(ws[i - 1], es[i - 1], ws[i]);
      }
      IsStepKeepsInv(ws[i - 1], es[i - 1], ws[i]);
      StepKeepsConfig(ws[i - 1], es[i - 1], ws[i]);
    }
  }

  // ---- The main results ----

  /** `w` is a state of some run of two fresh endpoints with these DIDs, keys and modes. */
  ghost predicate Reachable(left: Did, right: Did, keys: Pair<nat>, modes: Pair<SeqMode>, expires: int, w: World) {
    exists ws, es :: Run(ws, es) && ws[0] == Initially(left, right, keys, modes, expires) && w == ws[|es|]
  }

  lemma ReachableInv(left: Did, right: Did, keys: Pair<nat>, modes: Pair<SeqMode>, expires: int, w: World)
    requires left != right && Reachable(left, right, keys, modes, expires, w)
    ensures Inv(w) && AllOnWire(w)
    ensures SameConfig(Initially(left, right, keys, modes, expires), w)
  {
    var ws, es :| Run(ws, es) && ws[0] == Initially(left, right, keys, modes, expires) && w == ws[|es|];
    RunKeepsInv(ws, es, |es|);
  }

  /** Safety of every run: in each direction the accepted texts are an in-order, duplicate-free
      selection of the texts sent. */
  lemma AcceptedAreInOrder(left: Did, right: Did, keys: Pair<nat>, modes: Pair<SeqMode>, expires: int,
                           w: World, side: Side)
    requires left != right && Reachable(left, right, keys, modes, expires, w)
    ensures InOrder(w.got.At(side), w.sent.At(side.Other()), modes.At(side) == Strict)
  {
    ReachableInv(left, right, keys, modes, expires, w);
  }

  /** In STRICT mode they are exactly a prefix of the texts sent. */
  lemma StrictAcceptsPrefix(left: Did, right: Did, keys: Pair<nat>, modes: Pair<SeqMode>, expires: int,
                            w: World, side: Side)
    requires left != right && Reachable(left, right, keys, modes, expires, w)
    requires modes.At(side) == Strict
    ensures Texts(w.got.At(side)) <= w.sent.At(side.Other())
  {
    ReachableInv(left, right, keys, modes, expires, w);
    var got, sent := w.got.At(side), w.sent.At(side.Other());
    assert InOrder(got, sent, true);
    assert got == [] || got[|got| - 1].seqNo < |sent|;
    assert Texts(got) == sent[..|got|];
  }

  /** Ratchet synchronisation in every reachable state: the send chain is the |sent|-fold ratchet
      of the side's start key, the receive chain the recvSeq-fold ratchet of the peer's. */
  lemma ChainsSynchronised(left: Did, right: Did, keys: Pair<nat>, modes: Pair<SeqMode>, expires: int,
                           w: World, side: Side)
    requires left != right && Reachable(left, right, keys, modes, expires, w)
    requires w.ends.At(side).state == Active
    ensures w.offered.Some? && w.offered.value.box.HpkeBox?
    ensures w.ends.At(side).sendCk == Some(Ratcheted(Chain(w, side), |w.sent.At(side)|))
    ensures w.ends.At(side).recvCk
         == Some(Ratcheted(Chain(w, side.Other()), w.ends.At(side).seqs.recvSeq))
    ensures w.ends.At(side).seqs.recvSeq <= |w.sent.At(side.Other())|
  {
    ReachableInv(left, right, keys, modes, expires, w);
  }

  lemma GenuineDecryptsIn(w: World, side: Side, msg: MsgContent, now: int)
    requires BoxOk(w) && SideOk(w, side) && SendOk(w, side.Other())
    requires w.ends.At(side).state == Active && msg.version == E2EE_VERSION
    requires 0 <= msg.seqNo < |w.sent.At(side.Other())|
    requires msg.ciphertext == Genuine(w, side.Other(), msg.seqNo)
    ensures Decrypt(w.ends.At(side), msg, now).1
         == if InRange(w.ends.At(side).seqs, msg.seqNo)
            then Success(Plain(msg.originalType, w.sent.At(side.Other())[msg.seqNo]))
            else Failure(InvalidSeq)
  {
    var s := w.ends.At(side);
    AcceptsIffInRange(s.seqs, msg.seqNo, now);
    if InRange(s.seqs, msg.seqNo) {
      RatchetedAdd(Chain(w, side.Other()), s.seqs.recvSeq, msg.seqNo - s.seqs.recvSeq);
    }
  }

  /** A genuine message decrypts exactly when it is the next one (STRICT) or lies in the window
      ahead of the receive counter (WINDOW), whatever the clock, the session id field and the
      unauthenticated type field say, and it decrypts to the text that was sent. */
  lemma GenuineDecrypts(left: Did, right: Did, keys: Pair<nat>, modes: Pair<SeqMode>, expires: int,
                        w: World, side: Side, msg: MsgContent, now: int)
    requires left != right && Reachable(left, right, keys, modes, expires, w)
    requires WellFormed(w.ends.At(side)) && w.ends.At(side).state == Active && msg.version == E2EE_VERSION
    requires 0 <= msg.seqNo < |w.sent.At(side.Other())|
    requires w.offered.Some? && w.offered.value.box.HpkeBox?
    requires msg.ciphertext == Genuine(w, side.Other(), msg.seqNo)
    ensures var recv := w.ends.At(side).seqs.recvSeq;
            var inTime := if modes.At(side) == Strict then msg.seqNo == recv
                          else recv <= msg.seqNo < recv + DEFAULT_MAX_SKIP;
            Decrypt(w.ends.At(side), msg, now).1
            == if inTime then Success(Plain(msg.originalType, w.sent.At(side.Other())[msg.seqNo]))
               else Failure(InvalidSeq)
  {
    ReachableInv(left, right, keys, modes, expires, w);
    GenuineDecryptsIn(w, side, msg, now);
  }

  function GenuineMsg(w: World, side: Side, n: nat): MsgContent
    requires w.offered.Some? && w.offered.value.box.HpkeBox? && n < |w.sent.At(side)|
  {
    MsgContent(E2EE_VERSION, w.offered.value.sessionId, n, "text", Genuine(w, side, n))
  }

  /** Delivering the next genuine message is always accepted and advances the receiver by one. */
  lemma NextGenuineAdvances(w: World, side: Side, now: int)
    requires Inv(w) && w.offered.Some? && WellFormed(w.ends.At(side)) && w.ends.At(side).state == Active
    requires w.ends.At(side).seqs.maxSkip > 0
    requires w.ends.At(side).seqs.recvSeq < |w.sent.At(side.Other())|
    ensures var n := w.ends.At(side).seqs.recvSeq;
            var w' := AfterDeliver(w, side, GenuineMsg(w, side.Other(), n), now);
            && w'.ends.At(side).seqs.recvSeq == n + 1 && w'.ends.At(side).state == Active
            && w'.ends.At(side).seqs.maxSkip == w.ends.At(side).seqs.maxSkip
            && w'.ends.At(side).seqs.mode == w.ends.At(side).seqs.mode
            && w'.sent == w.sent && w'.offered == w.offered
  {
    var s := w.ends.At(side);
    AcceptsIffInRange(s.seqs, s.seqs.recvSeq, now);
    assert SendOk(w, side.Other());
  }

  lemma RunCons(w: World, e: Event, ws: seq<World>, es: seq<Event>)
    requires Run(ws, es) && IsStep(w, e, ws[0])
    ensures Run([w] + ws, [e] + es) && ([w] + ws)[|[e] + es|] == ws[|es|]
  {
    var vs, fs := [w] + ws, [e] + es;
    forall i | 0 <= i < |fs|
      ensures IsStep(vs[i], fs[i], vs[i + 1])
    {
      if i > 0 {
        assert IsStep(ws[i - 1], es[i - 1], ws[i]);
        assert vs[i] == ws[i - 1] && fs[i] == es[i - 1] && vs[i + 1] == ws[i];
      }
    }
  }

  lemma CatchUpStep(w: World, side: Side, now: int) returns (e: Event, u: World)
    requires Inv(w) && AllOnWire(w) && w.offered.Some? && w.ends.At(side).state == Active
    requires w.ends.At(side).seqs.maxSkip > 0
    requires w.ends.At(side).seqs.recvSeq < |w.sent.At(side.Other())|
    ensures IsStep(w, e, u) && Inv(u) && AllOnWire(u) && u.sent == w.sent && u.offered.Some?
    ensures u.ends.At(side).state == Active
    ensures u.ends.At(side).seqs.recvSeq == w.ends.At(side).seqs.recvSeq + 1
    ensures u.ends.At(side).seqs.mode == w.ends.At(side).seqs.mode
    ensures u.ends.At(side).seqs.maxSkip == w.ends.At(side).seqs.maxSkip
  {
    assert SideOk(w, side);
    var msg := GenuineMsg(w, side.Other(), w.ends.At(side).seqs.recvSeq);
    e, u := Deliver(side, msg, now), AfterDeliver(w, side, msg, now);
    NextGenuineAdvances(w, side, now);
    DeliverKeeps(w, side, msg, now);
    StepKeepsAllOnWire(w, e, u);
  }

  lemma {:induction false} CatchUpFrom(w: World, side: Side, now: int) returns (ws: seq<World>, es: seq<Event>)
    requires Inv(w) && AllOnWire(w) && w.offered.Some? && w.ends.At(side).state == Active
    requires w.ends.At(side).seqs.maxSkip > 0
    ensures Run(ws, es) && ws[0] == w && ws[|es|].sent == w.sent && Inv(ws[|es|])
    ensures ws[|es|].ends.At(side).seqs.recvSeq == |w.sent.At(side.Other())|
    ensures ws[|es|].ends.At(side).seqs.mode == w.ends.At(side).seqs.mode
    decreases |w.sent.At(side.Other())| - w.ends.At(side).seqs.recvSeq
  {
    assert RecvOk(w, side);
    if w.ends.At(side).seqs.recvSeq == |w.sent.At(side.Other())| {
      ws, es := [w], [];
    } else {
      var e, u := CatchUpStep(w, side, now);
      var vs, fs := CatchUpFrom(u, side, now);
      RunCons(w, e, vs, fs);
      ws, es := [w] + vs, [e] + fs;
    }
  }

  /** Nothing is lost for good: every reachable state extends to one where the receiver is up to
      date; a STRICT receiver then holds exactly the texts that were sent. */
  lemma CatchUp(left: Did, right: Did, keys: Pair<nat>, modes: Pair<SeqMode>, expires: int,
                w: World, side: Side, now: int)
    returns (ws: seq<World>, es: seq<Event>)
    requires left != right && Reachable(left, right, keys, modes, expires, w)
    requires w.ends.At(side).state == Active
    ensures Run(ws, es) && ws[0] == w && ws[|es|].sent == w.sent
    ensures ws[|es|].ends.At(side).seqs.recvSeq == |w.sent.At(side.Other())|
    ensures modes.At(side) == Strict ==> Texts(ws[|es|].got.At(side)) == w.sent.At(side.Other())
  {
    ReachableInv(left, right, keys, modes, expires, w);
    ws, es := CatchUpFrom(w, side, now);
    assert GotOk(ws[|es|], side);
  }
}

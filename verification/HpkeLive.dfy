/** What an HPKE session does do: an init or a rekey makes the other side ACTIVE exactly when it was sealed to its key,
    and then texts get through. */
module HpkeLives {
  import opened Wrappers
  import opened E2eeMessages
  import opened Ratchet
  import opened SequenceNumbers
  import opened HpkeSessions
  import opened HpkeRuns

  // ---- What a run keeps besides its invariant ----

  /** The offer was made by `side`, which went ACTIVE with it, for its peer. */
  ghost predicate OfferedBy(w: World, side: Side) {
    && w.offered.Some? && w.ends.At(side).state == Active
    && w.offered.value.version == E2EE_VERSION
    && w.offered.value.senderDid == w.ends.At(side).localDid
    && w.offered.value.recipientDid == w.ends.At(side).peerDid
  }

  /** Sides keep their key pairs, and an offer has a side that made it. */
  ghost predicate KeysAndOffer(w: World, keys: Pair<nat>) {
    && w.ends.left.hpkeKey == keys.left && w.ends.right.hpkeKey == keys.right
    && (w.offered.Some? ==> OfferedBy(w, Left) || OfferedBy(w, Right))
    && (w.offered.None? ==> w.ends.left.state == Idle && w.ends.right.state == Idle)
  }

  lemma StepKeepsOffer(u: World, e: Event, w: World, keys: Pair<nat>)
    requires KeysAndOffer(u, keys) && IsStep(u, e, w)
    ensures KeysAndOffer(w, keys)
  {
  }

  lemma {:induction false} RunKeepsOffer(ws: seq<World>, es: seq<Event>, keys: Pair<nat>, i: nat)
    requires Run(ws, es) && KeysAndOffer(ws[0], keys) && i < |ws|
    ensures KeysAndOffer(ws[i], keys)
  {
    if i > 0 {
      RunKeepsOffer(ws, es, keys, i - 1);
      StepKeepsOffer(ws[i - 1], es[i - 1], ws[i], keys);
    }
  }

  lemma ReachableOffer(left: Did, right: Did, keys: Pair<nat>, modes: Pair<SeqMode>, expires: int, w: World)
    requires Reachable(left, right, keys, modes, expires, w)
    ensures KeysAndOffer(w, keys)
  {
    var ws, es :| Run(ws, es) && ws[0] == Initially(left, right, keys, modes, expires) && w == ws[|es|];
    RunKeepsOffer(ws, es, keys, |es|);
  }

  lemma ReachableStep(left: Did, right: Did, keys: Pair<nat>, modes: Pair<SeqMode>, expires: int,
                      w: World, e: Event, v: World)
    requires Reachable(left, right, keys, modes, expires, w) && IsStep(w, e, v)
    ensures Reachable(left, right, keys, modes, expires, v)
  {
    var ws, es :| Run(ws, es) && ws[0] == Initially(left, right, keys, modes, expires) && w == ws[|es|];
    var vs, fs := ws + [v], es + [e];
    forall i | 0 <= i < |fs|
      ensures IsStep(vs[i], fs[i], vs[i + 1])
    {
      if i < |es| {
        assert vs[i] == ws[i] && fs[i] == es[i] && vs[i + 1] == ws[i + 1];
      }
    }
    assert Run(vs, fs) && vs[0] == Initially(left, right, keys, modes, expires) && v == vs[|fs|];
  }

  // ---- Starting ----

  /** An init passes at an IDLE session exactly when version, proof, recipient and box are right; a refused one changes
      nothing. */
  lemma InitAcceptedIff(s: Session, c: InitContent, proofOk: bool, now: int)
    ensures ProcessInit(s, c, proofOk, now).1.Success? <==>
      && s.state == Idle && c.version == "1.1" && proofOk && c.recipientDid == s.localDid
      && exists seed :: c.box == HpkeBox(s.hpkeKey, c.sessionId, seed)
    ensures ProcessInit(s, c, proofOk, now).1.Failure? ==> ProcessInit(s, c, proofOk, now).0 == s
  {
    if c.box.HpkeBox? {
      assert c.box == HpkeBox(c.box.recipientKey, c.box.aad, c.box.seed);
    }
  }

  /** Without an offer yet, either side can make one, and is ACTIVE then. */
  lemma StartOffers(left: Did, right: Did, keys: Pair<nat>, modes: Pair<SeqMode>, expires: int, w: World, side: Side,
                    peerKey: nat, freshId: string, rootSeed: Key, now: int)
    requires Reachable(left, right, keys, modes, expires, w) && w.offered.None? && rootSeed.Seed?
    ensures var v := AfterStart(w, side, peerKey, freshId, rootSeed, now);
            && Reachable(left, right, keys, modes, expires, v) && OfferedBy(v, side)
            && v.offered.value.sessionId == freshId && v.offered.value.box == HpkeBox(peerKey, freshId, rootSeed)
            && v.ends.At(side).sessionId == Some(freshId)
            && var lifetime := v.ends.At(side).defaultExpires;
               v.offered.value.expires == Some(lifetime)
               && forall later :: IsExpired(v.ends.At(side), later) <==> later - now > lifetime
  {
    ReachableOffer(left, right, keys, modes, expires, w);
    ReachableStep(left, right, keys, modes, expires, w, Start(side, peerKey, freshId, rootSeed, now),
                  AfterStart(w, side, peerKey, freshId, rootSeed, now));
  }

  /** Delivering the offer makes an IDLE side ACTIVE if and only if it was sealed to this side's key. Then the session
      has the offered id, and it expires when the offered lifetime has passed. */
  lemma InitActivatesIff(left: Did, right: Did, keys: Pair<nat>, modes: Pair<SeqMode>, expires: int, w: World,
                         side: Side, now: int)
    requires left != right && Reachable(left, right, keys, modes, expires, w)
    requires w.offered.Some? && w.ends.At(side).state == Idle
    ensures var c := w.offered.value;
            var v := WithEnd(w, side, ProcessInit(w.ends.At(side), c, true, now).0);
            var s := v.ends.At(side);
            && Reachable(left, right, keys, modes, expires, v)
            && (s.state == Active <==> c.box.HpkeBox? && c.box.recipientKey == keys.At(side))
            && (s.state == Active ==>
                  && v.ends.At(side.Other()).state == Active
                  && s.sessionId == v.ends.At(side.Other()).sessionId == Some(c.sessionId)
                  && forall later :: IsExpired(s, later) <==>
                       later - now > if c.expires.Some? then c.expires.value else s.defaultExpires)
  {
    ReachableInv(left, right, keys, modes, expires, w);
    ReachableOffer(left, right, keys, modes, expires, w);
    var e := DeliverInit(side, w.offered.value, true, now);
    assert WellFormed(w.ends.At(side));
    ReachableStep(left, right, keys, modes, expires, w, e,
                  WithEnd(w, side, ProcessInit(w.ends.At(side), w.offered.value, true, now).0));
    InitAcceptedIff(w.ends.At(side), w.offered.value, true, now);
    assert w.offered.value.box == HpkeBox(w.offered.value.box.recipientKey, w.offered.value.box.aad,
                                          w.offered.value.box.seed);
    assert SideOk(w, side.Other());
  }

  // ---- Texts get through ----

  predicate BothActive(w: World) {
    && w.offered.Some? && w.offered.value.box.HpkeBox?
    && w.ends.left.state == Active && w.ends.right.state == Active
    && WellFormed(w.ends.left) && WellFormed(w.ends.right)
  }

  /** The number is one that the receiving side takes next. */
  predicate InTime(mode: SeqMode, maxSkip: int, recv: nat, n: int) {
    if mode == Strict then n == recv else recv <= n < recv + maxSkip
  }

  /** A side encrypts as long as there are numbers left, and numbers its texts. */
  lemma NextNumber(w: World, side: Side, originalType: string, text: string)
    requires Inv(w) && BothActive(w)
    ensures var n, r := |w.sent.At(side)|, Encrypt(w.ends.At(side), originalType, text).1;
            && (r.Success? <==> n < SEQ_LIMIT)
            && (r.Success? ==>
                  r.value.version == E2EE_VERSION && r.value.seqNo == n && r.value.originalType == originalType)
  {
    assert SideOk(w, side);
  }

  /** The state after sending, as far as the receiver is concerned. */
  lemma AfterNextText(w: World, side: Side, originalType: string, text: string)
    requires Inv(w) && BothActive(w) && Encrypt(w.ends.At(side), originalType, text).1.Success?
    ensures var v, r := AfterSend(w, side, originalType, text), Encrypt(w.ends.At(side), originalType, text).1;
            && Inv(v) && v.offered == w.offered && v.ends.At(side.Other()) == w.ends.At(side.Other())
            && v.sent.At(side) == w.sent.At(side) + [text]
            && r.value.ciphertext == Genuine(v, side, |w.sent.At(side)|)
  {
    assert SideOk(w, side);
    SendPutsGenuineOnWire(w, side, originalType, text);
    SendKeeps(w, side, originalType, text);
  }

  /** The next text a side encrypts, as long as there are numbers left, decrypts at the other side exactly when that
      side is not too far behind. */
  lemma NextText(w: World, side: Side, originalType: string, text: string, now: int)
    requires Inv(w) && BothActive(w)
    ensures var n := |w.sent.At(side)|;
            var r := Encrypt(w.ends.At(side), originalType, text).1;
            var receiver := w.ends.At(side.Other());
            && (r.Success? <==> n < SEQ_LIMIT)
            && (r.Success? ==>
                  Decrypt(receiver, r.value, now).1
                  == if InTime(receiver.seqs.mode, receiver.seqs.maxSkip, receiver.seqs.recvSeq, n)
                     then Success(Plain(originalType, text)) else Failure(InvalidSeq))
  {
    NextNumber(w, side, originalType, text);
    var r := Encrypt(w.ends.At(side), originalType, text).1;
    if r.Success? {
      AfterNextText(w, side, originalType, text);
      NumberedDecrypts(AfterSend(w, side, originalType, text), side.Other(), r.value, now);
    }
  }

  lemma NumberedDecrypts(v: World, side: Side, msg: MsgContent, now: int)
    requires Inv(v) && v.offered.Some? && v.offered.value.box.HpkeBox? && WellFormed(v.ends.At(side))
    requires v.ends.At(side).state == Active && msg.version == E2EE_VERSION
    requires 0 <= msg.seqNo < |v.sent.At(side.Other())| && msg.ciphertext == Genuine(v, side.Other(), msg.seqNo)
    ensures var s := v.ends.At(side).seqs;
            Decrypt(v.ends.At(side), msg, now).1
            == if InTime(s.mode, s.maxSkip, s.recvSeq, msg.seqNo)
               then Success(Plain(msg.originalType, v.sent.At(side.Other())[msg.seqNo])) else Failure(InvalidSeq)
  {
    assert SideOk(v, side) && SideOk(v, side.Other());
    GenuineDecryptsIn(v, side, msg, now);
  }

  /** Of all that the network can deliver, exactly the genuine messages decrypt whose number is in time. */
  lemma DecryptsIff(left: Did, right: Did, keys: Pair<nat>, modes: Pair<SeqMode>, expires: int, w: World, side: Side,
                    msg: MsgContent, now: int)
    requires left != right && Reachable(left, right, keys, modes, expires, w)
    requires WellFormed(w.ends.At(side)) && w.ends.At(side).state == Active
    requires Allowed(w, Deliver(side, msg, now))
    ensures w.offered.Some? && w.offered.value.box.HpkeBox?
    ensures var recv, sent := w.ends.At(side).seqs.recvSeq, w.sent.At(side.Other());
            Decrypt(w.ends.At(side), msg, now).1.Success? <==>
              && msg.version == "1.1" && InTime(modes.At(side), DEFAULT_MAX_SKIP, recv, msg.seqNo)
              && msg.seqNo < |sent| && msg.ciphertext == Genuine(w, side.Other(), msg.seqNo)
  {
    ReachableInv(left, right, keys, modes, expires, w);
    ReachableOffer(left, right, keys, modes, expires, w);
    assert SideOk(w, side) && SideOk(w, side.Other());
    AcceptsIffInRange(w.ends.At(side).seqs, msg.seqNo, now);
    if Decrypt(w.ends.At(side), msg, now).1.Success? {
      OnlyGenuineOpens(w, side, msg.seqNo, msg.ciphertext);
    } else if msg.version == "1.1" && InTime(modes.At(side), DEFAULT_MAX_SKIP, w.ends.At(side).seqs.recvSeq, msg.seqNo)
              && msg.seqNo < |w.sent.At(side.Other())| && msg.ciphertext == Genuine(w, side.Other(), msg.seqNo) {
      GenuineDecryptsIn(w, side, msg, now);
    }
  }

  lemma StateStays(u: World, e: Event, w: World, side: Side)
    requires IsStep(u, e, w) && u.offered.Some? && u.ends.At(side).state == Active
    ensures w.offered == u.offered && w.ends.At(side).state == Active
  {
  }

  lemma ActiveStays(u: World, e: Event, w: World)
    requires IsStep(u, e, w) && BothActive(u) && Inv(w)
    ensures BothActive(w)
  {
    StateStays(u, e, w, Left);
    StateStays(u, e, w, Right);
    assert SideOk(w, Left) && SideOk(w, Right);
  }

  lemma {:induction false} RunStaysActive(ws: seq<World>, es: seq<Event>, i: nat)
    requires Run(ws, es) && BothActive(ws[0]) && Inv(ws[0]) && i < |ws|
    ensures BothActive(ws[i]) && Inv(ws[i]) && SameConfig(ws[0], ws[i])
  {
    if i > 0 {
      RunStaysActive(ws, es, i - 1);
      IsStepKeepsInv(ws[i - 1], es[i - 1], ws[i]);
      ActiveStays(ws[i - 1], es[i - 1], ws[i]);
      StepKeepsConfig(ws[i - 1], es[i - 1], ws[i]);
    }
  }

  lemma RunOneMore(ws: seq<World>, es: seq<Event>, e: Event, w: World)
    requires Run(ws, es) && IsStep(ws[|es|], e, w)
    ensures Run(ws + [w], es + [e]) && (ws + [w])[|es + [e]|] == w
  {
    var vs, fs := ws + [w], es + [e];
    forall i | 0 <= i < |fs|
      ensures IsStep(vs[i], fs[i], vs[i + 1])
    {
      if i < |es| {
        assert vs[i] == ws[i] && fs[i] == es[i] && vs[i + 1] == ws[i + 1];
      }
    }
  }

  /** The text a side sends next is accepted when the other side is up to date. */
  lemma SendAndDeliver(w: World, side: Side, originalType: string, text: string, now: int)
    returns (e: Event, v: World, f: Event, x: World)
    requires Inv(w) && BothActive(w) && w.ends.At(side.Other()).seqs.maxSkip > 0
    requires w.ends.At(side.Other()).seqs.recvSeq == |w.sent.At(side)| < SEQ_LIMIT
    ensures IsStep(w, e, v) && IsStep(v, f, x)
    ensures x.sent.At(side) == w.sent.At(side) + [text]
    ensures x.got.At(side.Other()) == w.got.At(side.Other()) + [Accepted(|w.sent.At(side)|, text)]
  {
    NextText(w, side, originalType, text, now);
    var r := Encrypt(w.ends.At(side), originalType, text).1;
    e, v := Send(side, originalType, text), AfterSend(w, side, originalType, text);
    f, x := Deliver(side.Other(), r.value, now), AfterDeliver(v, side.Other(), r.value, now);
    assert v.ends.At(side.Other()) == w.ends.At(side.Other());
    assert SideOk(w, side);
  }

  /** Whenever both sides are ACTIVE the run can go on so that any further text arrives, as the last of all that were
      sent. */
  lemma TextGetsThrough(w: World, side: Side, originalType: string, text: string, now: int)
    returns (ws: seq<World>, es: seq<Event>)
    requires Inv(w) && AllOnWire(w) && BothActive(w) && |w.sent.At(side)| < SEQ_LIMIT
    requires w.ends.At(side.Other()).seqs.maxSkip > 0
    ensures Run(ws, es) && ws[0] == w
    ensures ws[|es|].sent.At(side) == w.sent.At(side) + [text]
    ensures var got := Texts(ws[|es|].got.At(side.Other())); got != [] && got[|got| - 1] == text
  {
    ws, es := CatchUpFrom(w, side.Other(), now);
    RunStaysActive(ws, es, |es|);
    var e, v, f, x := SendAndDeliver(ws[|es|], side, originalType, text, now);
    RunOneMore(ws, es, e, v);
    ws, es := ws + [v], es + [e];
    RunOneMore(ws, es, f, x);
    ws, es := ws + [x], es + [f];
  }

  /** The text that a side encrypts now decrypts at the other side. */
  predicate Arrives(w: World, side: Side, originalType: string, text: string, now: int)
    requires BothActive(w)
  {
    var r := Encrypt(w.ends.At(side), originalType, text).1;
    r.Success? && Decrypt(w.ends.At(side.Other()), r.value, now).1 == Success(Plain(originalType, text))
  }

  /** An init that was sealed to this side opens the session for texts in both directions: its own first text decrypts
      at once, and so does the first of the other side. */
  lemma InitOpensBothWays(left: Did, right: Did, keys: Pair<nat>, modes: Pair<SeqMode>, expires: int, w: World,
                          side: Side, now: int, originalType: string, text: string, later: int)
    requires left != right && Reachable(left, right, keys, modes, expires, w)
    requires w.offered.Some? && w.ends.At(side).state == Idle
    requires w.offered.value.box.HpkeBox? && w.offered.value.box.recipientKey == keys.At(side)
    ensures var v := WithEnd(w, side, ProcessInit(w.ends.At(side), w.offered.value, true, now).0);
            && Inv(v) && AllOnWire(v) && BothActive(v)
            && Arrives(v, side, originalType, text, later)
            && (w.sent.At(side.Other()) == [] ==> Arrives(v, side.Other(), originalType, text, later))
  {
    InitActivatesIff(left, right, keys, modes, expires, w, side, now);
    var v := WithEnd(w, side, ProcessInit(w.ends.At(side), w.offered.value, true, now).0);
    ReachableInv(left, right, keys, modes, expires, w);
    ReachableInv(left, right, keys, modes, expires, v);
    assert SideOk(w, side) && SideOk(v, side) && SideOk(v, side.Other());
    NextText(v, side, originalType, text, later);
    NextText(v, side.Other(), originalType, text, later);
  }

  // ---- Starting over ----

  /** Two sessions, whatever has become of them, after a rekey of one and its delivery to the other. */
  function Rekeyed(s: Session, t: Session, peerKey: nat, freshId: string, rootSeed: Key, then': int, now: int): World {
    var (s', r) := InitiateRekey(s, peerKey, freshId, rootSeed, then');
    if r.Failure? then World(Pair(s, t), None, Pair([], []), Pair([], []), {})
    else World(Pair(s', ProcessRekey(t, r.value, true, now).0), Some(r.value), Pair([], []), Pair([], []), {})
  }

  /** A rekey goes out in any state. Delivered, it makes the other side ACTIVE if and only if it was sealed to its key;
      then the two are in a state from which texts get through in both directions, as after an init. */
  lemma RekeyActivatesIff(s: Session, t: Session, peerKey: nat, freshId: string, rootSeed: Key, then': int, now: int)
    requires s.localDid == t.peerDid && t.localDid == s.peerDid && s.localDid != t.localDid && rootSeed.Seed?
    ensures var w := Rekeyed(s, t, peerKey, freshId, rootSeed, then', now);
            && InitiateRekey(s, peerKey, freshId, rootSeed, then').1.Success?
            && w.ends.left.state == Active && w.ends.left.sessionId == Some(freshId)
            && (w.ends.right.state == Active <==> peerKey == t.hpkeKey)
            && (w.ends.right.state == Active ==>
                  && Inv(w) && AllOnWire(w) && BothActive(w) && w.ends.right.sessionId == Some(freshId)
                  && w.ends.left.seqs.maxSkip == s.seqs.maxSkip && w.ends.right.seqs.maxSkip == t.seqs.maxSkip)
  {
    var w := Rekeyed(s, t, peerKey, freshId, rootSeed, then', now);
    StartKeysMirror(rootSeed, s.localDid, t.localDid);
    if peerKey == t.hpkeKey {
      assert SideOk(w, Left);
      assert SideOk(w, Right);
    }
  }

  /** The first text in either direction after a rekey. */
  lemma RekeyOpensBothWays(s: Session, t: Session, freshId: string, rootSeed: Key, then': int, now: int, side: Side,
                           originalType: string, text: string, later: int)
    requires s.localDid == t.peerDid && t.localDid == s.peerDid && s.localDid != t.localDid && rootSeed.Seed?
    requires s.seqs.maxSkip > 0 && t.seqs.maxSkip > 0
    ensures var w := Rekeyed(s, t, t.hpkeKey, freshId, rootSeed, then', now);
            BothActive(w) && Arrives(w, side, originalType, text, later)
  {
    RekeyActivatesIff(s, t, t.hpkeKey, freshId, rootSeed, then', now);
    var w := Rekeyed(s, t, t.hpkeKey, freshId, rootSeed, then', now);
    assert SideOk(w, side) && SideOk(w, side.Other());
    NextText(w, side, originalType, text, later);
  }
}

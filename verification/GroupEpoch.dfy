/** What a group member does accept, and that every later epoch works like the first. */
module GroupEpochs {
  import opened Wrappers
  import opened E2eeMessages
  import opened Ratchet
  import opened SequenceNumbers
  import opened GroupSessions
  import opened GroupRuns
  import opened GroupDistributions

  // ---- When the operations pass ----

  /** A greater epoch, and no other, is entered: the local key goes, exactly the remote keys of the old epoch become
      read-only, and nothing else changes. */
  lemma AdvanceIff(g: Group, newEpoch: int)
    ensures var (h, r) := AdvanceEpoch(g, newEpoch);
            && (r.Success? <==> newEpoch > g.epoch)
            && (r.Failure? ==> h == g)
            && (r.Success? ==> Entered(g, newEpoch, h))
  {
  }

  ghost predicate Entered(g: Group, newEpoch: int, h: Group) {
    && h == g.(epoch := newEpoch, local := None, remotes := h.remotes) && h.remotes.Keys == g.remotes.Keys
    && forall t :: t in g.remotes ==>
         h.remotes[t] == g.remotes[t].(readOnly := g.remotes[t].readOnly || g.remotes[t].epoch == g.epoch)
  }

  /** A received advance is followed exactly when its version and its proof are good and it leads on. */
  lemma ReceivedAdvanceIff(g: Group, version: string, proofOk: bool, newEpoch: int)
    ensures var (h, r) := ProcessEpochAdvance(g, version, proofOk, newEpoch);
            && (r.Success? <==> version == "1.1" && proofOk && newEpoch > g.epoch)
            && (r.Failure? ==> h == g)
            && (r.Success? ==> Entered(g, newEpoch, h))
  {
    AdvanceIff(g, newEpoch);
  }

  /** A key message is accepted exactly when version and proof are good, its identity is new and its box opens here. */
  lemma KeyAcceptedIff(g: Group, c: KeyContent, proofOk: bool, now: int)
    ensures ProcessSenderKey(g, c, proofOk, now).1.Success? <==>
      && c.version == "1.1" && proofOk && TupleOf(c) !in g.received
      && exists chainKey :: c.box == KeyBox(g.hpkeKey, c.groupDid, c.epoch, c.keyId, chainKey)
  {
    if c.box.KeyBox? {
      assert c.box == KeyBox(c.box.recipientKey, c.box.groupDid, c.box.epoch, c.box.keyId, c.box.chainKey);
    }
  }

  /** An accepted key is there until its lifetime has passed, a day if the message has none; a cleanup drops it exactly
      then, and keeps its identity. */
  lemma KeyKeptUntil(g: Group, c: KeyContent, then': int, now: int)
    requires ProcessSenderKey(g, c, true, then').1.Success?
    ensures var h := ProcessSenderKey(g, c, true, then').0;
            var lifetime := if c.expires.Some? then c.expires.value else 86400;
            && TupleOf(c) in h.remotes && TupleOf(c) in h.received
            && (TupleOf(c) in CleanupExpired(h, now).remotes <==> now - then' <= lifetime)
            && CleanupExpired(h, now).received == h.received
            && forall t :: t in g.remotes && t != TupleOf(c) ==>
                 (t in CleanupExpired(h, now).remotes <==> now <= g.remotes[t].expiresAt)
  {
  }

  /** A message decrypts under a strict key exactly when it has the next number and opens under the key for that
      number. */
  lemma GroupDecryptsIff(g: Group, c: GroupMsg, now: int)
    requires MsgTuple(c) in g.remotes ==>
               var k := g.remotes[MsgTuple(c)]; k.seqs.mode == Strict && UsedBelow(k.seqs)
    ensures DecryptGroup(g, c, now).1.Success? <==>
      && c.version == "1.1" && MsgTuple(c) in g.remotes
      && var k := g.remotes[MsgTuple(c)];
         c.seqNo == k.seqs.recvSeq < SEQ_LIMIT && OpensUnder(c, GroupMsgKey(k.chainKey, k.seqs.recvSeq))
  {
    if MsgTuple(c) in g.remotes {
      var k := g.remotes[MsgTuple(c)];
      AcceptsIffInRange(k.seqs, c.seqNo, now);
      assert GroupRatcheted(k.chainKey, 0) == k.chainKey;
      if c.ciphertext.Sealed? {
        assert c.ciphertext == Sealed(c.ciphertext.key, c.ciphertext.nonce, c.ciphertext.aad, c.ciphertext.plaintext);
      }
    }
  }

  /** A text is encrypted exactly with a local key that may be used and has numbers left. */
  lemma GroupEncryptsIff(g: Group, originalType: string, text: string)
    ensures EncryptGroup(g, originalType, text).1.Success? <==>
              g.local.Some? && !g.local.value.readOnly && g.local.value.seqs.sendSeq < SEQ_LIMIT
  {
  }

  ghost predicate OpensUnder(c: GroupMsg, m: Key) {
    exists text :: c.ciphertext == Sealed(EncKey(m), Nonce(m), GroupAad(c.groupDid, c.epoch), text)
  }

  // ---- The next epoch ----

  /** Installed keys of the sender were generated by it. */
  ghost predicate InstalledWereGenerated(w: World) {
    forall t :: t in w.receiver.received && t.senderDid == w.sender.localDid ==> t in w.seeds
  }

  lemma KeyMessageKeepsGenerated(u: World, c: KeyContent, proofOk: bool, now: int)
    requires Inv(u) && InstalledWereGenerated(u) && Allowed(u, DeliverKey(c, proofOk, now))
    ensures InstalledWereGenerated(AfterDeliverKey(u, c, proofOk, now))
  {
    if ProcessSenderKey(u.receiver, c, proofOk, now).1.Success? && c.senderDid == u.sender.localDid {
      assert OfferOk(u, c);
    }
  }

  /** Nothing else installs keys, and no key is forgotten to have been generated. */
  lemma OthersInstallNothing(u: World, e: Event)
    requires !e.DeliverKey?
    ensures var w := Step(u, e);
            && w.receiver.received == u.receiver.received && w.sender.localDid == u.sender.localDid
            && forall t :: t in u.seeds ==> t in w.seeds
  {
    if e.DeliverMsg? {
      MsgTouchesOneKey(u, e.msg, e.now);
    }
  }

  lemma StepKeepsGenerated(u: World, e: Event, w: World)
    requires Inv(u) && InstalledWereGenerated(u) && IsStep(u, e, w)
    ensures InstalledWereGenerated(w)
  {
    if e.DeliverKey? {
      KeyMessageKeepsGenerated(u, e.key, e.proofOk, e.now);
    } else {
      OthersInstallNothing(u, e);
    }
  }

  lemma {:induction false} RunKeepsGenerated(ws: seq<World>, es: seq<Event>, i: nat)
    requires Run(ws, es) && Inv(ws[0]) && InstalledWereGenerated(ws[0]) && i < |ws|
    ensures InstalledWereGenerated(ws[i])
  {
    if i > 0 {
      RunKeepsGenerated(ws, es, i - 1);
      RunKeepsInv(ws, es, i - 1);
      StepKeepsGenerated(ws[i - 1], es[i - 1], ws[i]);
    }
  }

  lemma ReachableGenerated(w: World)
    requires Reachable(w)
    ensures InstalledWereGenerated(w)
  {
    var ws, es :| Run(ws, es) && StartsFresh(ws[0]) && w == ws[|es|];
    assert Inv(ws[0]);
    RunKeepsGenerated(ws, es, |es|);
  }

  ghost predicate FreshSeed(w: World, seed: Key) {
    seed.Seed? && forall t :: t in w.seeds ==> w.seeds[t] != seed
  }

  function Entering(w: World, newEpoch: int): World {
    w.(sender := AdvanceEpoch(w.sender, newEpoch).0)
  }

  /** The sender enters an epoch, generates its key and distributes it to the receiver. */
  function Distributed(w: World, newEpoch: int, seed: Key, now: int): World {
    AfterDistribute(AfterGenerate(Entering(w, newEpoch), seed, now), w.receiver.hpkeKey)
  }

  lemma EnteringIs(w: World, newEpoch: int, seed: Key, now: int)
    requires Reachable(w) && newEpoch > w.sender.epoch && FreshSeed(w, seed)
    ensures var v := AfterGenerate(Entering(w, newEpoch), seed, now);
            && Reachable(v) && v.sender.epoch == newEpoch
            && v.receiver == w.receiver && v.sent == w.sent && v.got == w.got
            && v.sender.localDid == w.sender.localDid && v.sender.local.Some? && UnusedKey(v)
            && LocalTuple(v.sender) !in w.receiver.received && v.sender.local.value.keyId == LocalTuple(v.sender).keyId
            && LocalTuple(v.sender) !in w.sent && LocalTuple(v.sender) !in w.got
  {
    ReachableInv(w);
    ReachableGenerated(w);
    var u := Entering(w, newEpoch);
    ReachableStep(w, SenderAdvance(newEpoch), u);
    ReachableStep(u, Generate(seed, now), AfterGenerate(u, seed, now));
  }

  /** What the receiver gets, and its state with the new key installed. */
  function KeyMessage(w: World, newEpoch: int, seed: Key, now: int): Result<KeyContent, Error> {
    BuildDistribution(AfterGenerate(Entering(w, newEpoch), seed, now).sender, w.receiver.hpkeKey)
  }

  function Installed(w: World, newEpoch: int, seed: Key, now: int): World
    requires KeyMessage(w, newEpoch, seed, now).Success?
  {
    AfterDeliverKey(Distributed(w, newEpoch, seed, now), KeyMessage(w, newEpoch, seed, now).value, true, now)
  }

  lemma InstalledIs(w: World, newEpoch: int, seed: Key, now: int)
    requires Reachable(w) && newEpoch > w.sender.epoch && FreshSeed(w, seed)
    ensures KeyMessage(w, newEpoch, seed, now).Success?
    ensures var u := Installed(w, newEpoch, seed, now);
            var t := LocalTuple(u.sender);
            && Reachable(u) && u.sender.epoch == newEpoch && u.sender.localDid == w.sender.localDid
            && u.sender.local.Some? && !u.sender.local.value.readOnly && u.sender.local.value.keyId == t.keyId
            && u.sender.local.value.chainKey == seed && UnusedKey(u) && Log(u.sent, t) == [] && Log(u.got, t) == []
            && t in u.receiver.remotes
            && u.receiver.remotes[t] == NewSenderKey(seed, t, DEFAULT_EXPIRES, false, now)
  {
    EnteringIs(w, newEpoch, seed, now);
    var a := AfterGenerate(Entering(w, newEpoch), seed, now);
    var d := Distributed(w, newEpoch, seed, now);
    var c := KeyMessage(w, newEpoch, seed, now).value;
    ReachableStep(a, Distribute(w.receiver.hpkeKey), d);
    ReachableStep(d, DeliverKey(c, true, now), Installed(w, newEpoch, seed, now));
  }

  /** From every reachable state the sender can enter any later epoch, and then everything works as in the first: it
      generates and distributes a key, the receiver installs it, and accepts the first text sent under it. */
  lemma NextEpochWorks(w: World, newEpoch: int, seed: Key, now: int, originalType: string, text: string)
    requires Reachable(w) && newEpoch > w.sender.epoch && FreshSeed(w, seed)
    ensures AdvanceEpoch(w.sender, newEpoch).1.Success? && KeyMessage(w, newEpoch, seed, now).Success?
    ensures var u := Installed(w, newEpoch, seed, now);
            var r := EncryptGroup(u.sender, originalType, text).1;
            && u.sender.epoch == newEpoch && r.Success?
            && var v := AfterDeliverMsg(AfterSend(u, originalType, text), r.value, now);
               Reachable(v) && Log(v.got, LocalTuple(u.sender)) == [Accepted(0, text)]
  {
    AdvanceIff(w.sender, newEpoch);
    InstalledIs(w, newEpoch, seed, now);
    var u := Installed(w, newEpoch, seed, now);
    var t := LocalTuple(u.sender);
    var r := EncryptGroup(u.sender, originalType, text).1;
    var s := AfterSend(u, originalType, text);
    assert GroupRatcheted(seed, 0) == seed;
    assert MsgTuple(r.value) == t && s.receiver == u.receiver && s.got == u.got && r.value.ciphertext in s.wire;
    ReachableStep(u, Send(originalType, text), s);
    FirstTextDecrypts(u, t, seed, r.value, text, now);
    ReachableStep(s, DeliverMsg(r.value, now), AfterDeliverMsg(s, r.value, now));
  }

  lemma FirstTextDecrypts(u: World, t: KeyTuple, seed: Key, c: GroupMsg, text: string, now: int)
    requires t in u.receiver.remotes && u.receiver.remotes[t] == NewSenderKey(seed, t, DEFAULT_EXPIRES, false, now)
    requires c.version == E2EE_VERSION && MsgTuple(c) == t && c.seqNo == 0
    requires var m := GroupMsgKey(seed, 0);
             c.ciphertext == Sealed(EncKey(m), Nonce(m), GroupAad(c.groupDid, c.epoch), text)
    ensures DecryptGroup(u.receiver, c, now).1 == Success(Plain(c.originalType, text))
  {
    assert GroupRatcheted(seed, 0) == seed;
  }
}

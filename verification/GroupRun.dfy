/** Whole runs of one group member that sends and one that receives, over a network that drops,
    duplicates, reorders and injects messages and on which other members distribute keys of their
    own choosing. */
module GroupRuns {
  import opened Wrappers
  import opened E2eeMessages
  import opened Ratchet
  import opened SequenceNumbers
  import opened GroupSessions

  /** `seeds` records the random chain key drawn for each of the sender's keys, `offers` the key
      messages it signed, `wire` its ciphertexts and `sent` its texts, per key; `installed` logs the
      keys the receiver stored, `got` what it accepted under each. */
  datatype World = World(
    sender: Group, receiver: Group, seeds: map<KeyTuple, Key>, offers: set<KeyContent>, wire: set<GroupCipher>,
    sent: map<KeyTuple, seq<string>>, installed: seq<KeyTuple>, got: map<KeyTuple, seq<Accepted>>)

  datatype Event =
    | Generate(seed: Key, now: int)
    | Distribute(recipientKey: nat)
    | Send(originalType: string, text: string)
    | SenderAdvance(newEpoch: int)
    | DeliverKey(key: KeyContent, proofOk: bool, now: int)
    | DeliverMsg(msg: GroupMsg, now: int)
    | ReceiverAdvance(version: string, proofOk: bool, newEpoch: int)
    | ReceiverCleanup(now: int)

  function Log<T>(m: map<KeyTuple, seq<T>>, t: KeyTuple): seq<T> {
    if t in m then m[t] else []
  }

  ghost predicate Foreign(w: World, c: GroupCipher) {
    c.Sealed? ==> forall t :: t in w.seeds ==> RootOf(c.key) != w.seeds[t]
  }

  /** A key is generated at most once per epoch, from a fresh seed. Signatures are ideal: a key
      message in the sender's name that passes the proof check was made by the sender. Everything
      else that is delivered is the network's choice, except that a ciphertext under one of the
      sender's keys was produced by the sender. */
  ghost predicate Allowed(w: World, e: Event) {
    match e
    case Generate(seed, _) =>
      seed.Seed? && LocalTuple(w.sender) !in w.seeds && forall t :: t in w.seeds ==> w.seeds[t] != seed
    case DeliverKey(key, proofOk, _) => proofOk && key.senderDid == w.sender.localDid ==> key in w.offers
    case DeliverMsg(msg, _) => msg.ciphertext in w.wire || Foreign(w, msg.ciphertext)
    case _ => true
  }

  function AfterGenerate(w: World, seed: Key, now: int): World {
    w.(sender := GenerateSenderKey(w.sender, seed, now), seeds := w.seeds[LocalTuple(w.sender) := seed])
  }

  function AfterDistribute(w: World, recipientKey: nat): World {
    var r := BuildDistribution(w.sender, recipientKey);
    if r.Failure? then w else w.(offers := w.offers + {r.value})
  }

  function AfterSend(w: World, originalType: string, text: string): World {
    var t := LocalTuple(w.sender);
    var (g, r) := EncryptGroup(w.sender, originalType, text);
    if r.Failure? then w.(sender := g)
    else w.(sender := g, sent := w.sent[t := Log(w.sent, t) + [text]], wire := w.wire + {r.value.ciphertext})
  }

  function AfterDeliverKey(w: World, c: KeyContent, proofOk: bool, now: int): World {
    var (g, r) := ProcessSenderKey(w.receiver, c, proofOk, now);
    if r.Failure? then w.(receiver := g) else w.(receiver := g, installed := w.installed + [TupleOf(c)])
  }

  function AfterDeliverMsg(w: World, c: GroupMsg, now: int): World {
    var t := MsgTuple(c);
    var (g, r) := DecryptGroup(w.receiver, c, now);
    if r.Failure? then w.(receiver := g)
    else w.(receiver := g, got := w.got[t := Log(w.got, t) + [Accepted(c.seqNo, r.value.text)]])
  }

  function Step(w: World, e: Event): World {
    match e
    case Generate(seed, now) => AfterGenerate(w, seed, now)
    case Distribute(recipientKey) => AfterDistribute(w, recipientKey)
    case Send(originalType, text) => AfterSend(w, originalType, text)
    case SenderAdvance(newEpoch) => w.(sender := AdvanceEpoch(w.sender, newEpoch).0)
    case DeliverKey(key, proofOk, now) => AfterDeliverKey(w, key, proofOk, now)
    case DeliverMsg(msg, now) => AfterDeliverMsg(w, msg, now)
    case ReceiverAdvance(version, proofOk, newEpoch) =>
      w.(receiver := ProcessEpochAdvance(w.receiver, version, proofOk, newEpoch).0)
    case ReceiverCleanup(now) => w.(receiver := CleanupExpired(w.receiver, now))
  }

  function Initially(s: Group, r: Group): World {
    World(s, r, map[], {}, {}, map[], [], map[])
  }

  predicate IsNew(g: Group) {
    g == NewGroup(g.groupDid, g.localDid, g.hpkeKey, g.shortHash, g.epoch)
  }

  ghost predicate IsStep(u: World, e: Event, w: World) {
    Allowed(u, e) && w == Step(u, e)
  }

  ghost predicate Run(ws: seq<World>, es: seq<Event>) {
    |ws| == |es| + 1 && forall i :: 0 <= i < |es| ==> IsStep(ws[i], es[i], ws[i + 1])
  }

  ghost predicate Reachable(w: World) {
    exists ws, es :: Run(ws, es) && StartsFresh(ws[0]) && w == ws[|es|]
  }

  predicate StartsFresh(w: World) {
    w == Initially(w.sender, w.receiver) && IsNew(w.sender) && IsNew(w.receiver)
  }

  // ---- The invariant ----

  /** How often a chain key has been ratcheted. */
  function Depth(k: Key): nat {
    if k.GroupNextCk? then 1 + Depth(k.ck) else 0
  }

  lemma {:induction false} DepthOfRatcheted(seed: Key, n: nat)
    requires seed.Seed?
    ensures Depth(GroupRatcheted(seed, n)) == n && RootOf(GroupRatcheted(seed, n)) == seed
  {
    if n > 0 {
      DepthOfRatcheted(seed, n - 1);
    }
  }

  /** `k` is on the chain that starts at `seed`. */
  predicate OnChain(k: Key, seed: Key) {
    seed.Seed? && k == GroupRatcheted(seed, Depth(k))
  }

  ghost predicate SeedsOk(w: World) {
    && (forall t :: t in w.seeds ==>
          w.seeds[t].Seed? && t.senderDid == w.sender.localDid && t.epoch <= w.sender.epoch)
    && (forall t, u :: t in w.seeds && u in w.seeds && w.seeds[t] == w.seeds[u] ==> t == u)
    && (forall t :: t in w.sent ==> t in w.seeds && |w.sent[t]| <= SEQ_LIMIT)
  }

  /** The local key, if there is one, belongs to the current epoch, may be used for sending, and is
      the |sent|-fold ratchet of its seed. */
  predicate SenderOk(w: World) {
    w.sender.local.Some? ==>
      var k := w.sender.local.value;
      var t := LocalTuple(w.sender);
      var n := |Log(w.sent, t)|;
      && k.epoch == w.sender.epoch && k.keyId == t.keyId && k.senderDid == t.senderDid && !k.readOnly
      && t in w.seeds && OnChain(k.chainKey, w.seeds[t]) && Depth(k.chainKey) == n
      && n == if k.seqs.sendSeq < SEQ_LIMIT then k.seqs.sendSeq else SEQ_LIMIT
  }

  predicate OfferOk(w: World, c: KeyContent) {
    && TupleOf(c) in w.seeds && c.box.KeyBox? && OnChain(c.box.chainKey, w.seeds[TupleOf(c)])
  }

  /** The ciphertext of the n-th text sent under the sender's key `t`. */
  function Genuine(w: World, t: KeyTuple, n: nat): GroupCipher
    requires t in w.seeds && n < |Log(w.sent, t)|
  {
    var k := GroupMsgKey(GroupRatcheted(w.seeds[t], n), n);
    Sealed(EncKey(k), Nonce(k), GroupAad(w.sender.groupDid, t.epoch), Log(w.sent, t)[n])
  }

  ghost predicate OnWire(w: World, c: GroupCipher) {
    exists t, n: nat :: t in w.seeds && n < |Log(w.sent, t)| && c == Genuine(w, t, n)
  }

  /** A stored key has accepted 0, 1, ..., recvSeq - 1. One of the sender's is on the sender's chain,
      and if it ever accepted anything it was installed before the sender's first use. */
  ghost predicate KeyOk(w: World, t: KeyTuple)
    requires t in w.receiver.remotes
  {
    var k := w.receiver.remotes[t];
    && t in w.receiver.received
    && k.seqs.mode == Strict && UsedBelow(k.seqs) && k.seqs.recvSeq == |Log(w.got, t)|
    && (t.senderDid == w.sender.localDid ==>
          && t in w.seeds && OnChain(k.chainKey, w.seeds[t])
          && (k.seqs.recvSeq > 0 ==> Depth(k.chainKey) == k.seqs.recvSeq))
  }

  ghost predicate GotOk(w: World, t: KeyTuple) {
    var got := Log(w.got, t);
    && (forall i :: 0 <= i < |got| ==> got[i].seqNo == i)
    && (t.senderDid == w.sender.localDid ==>
          && |got| <= |Log(w.sent, t)|
          && forall i :: 0 <= i < |got| ==> got[i].text == Log(w.sent, t)[i])
  }

  ghost predicate InstalledOk(w: World) {
    && (forall i, j :: 0 <= i < j < |w.installed| ==> w.installed[i] != w.installed[j])
    && (forall t :: t in w.receiver.received <==> t in w.installed)
    && (forall t :: t in w.got ==> t in w.receiver.received)
  }

  ghost predicate Inv(w: World) {
    && SeedsOk(w) && SenderOk(w) && InstalledOk(w)
    && (forall c :: c in w.offers ==> OfferOk(w, c))
    && (forall c :: c in w.wire ==> OnWire(w, c))
    && (forall t :: t in w.receiver.remotes ==> KeyOk(w, t))
    && (forall t :: GotOk(w, t))
  }

  // ---- Preservation ----

  /** The sender has moved on; the receiver has not. */
  ghost predicate SenderMoves(w: World, v: World) {
    && v.sender.localDid == w.sender.localDid && v.sender.groupDid == w.sender.groupDid
    && v.receiver == w.receiver && v.installed == w.installed && v.got == w.got
    && (forall t :: t in w.seeds ==> t in v.seeds && v.seeds[t] == w.seeds[t])
    && (forall t :: Log(w.sent, t) <= Log(v.sent, t))
  }

  lemma SenderMovesKeeps(w: World, v: World)
    requires Inv(w) && SenderMoves(w, v)
    requires SeedsOk(v) && SenderOk(v)
    requires forall c :: c in v.offers && c !in w.offers ==> OfferOk(v, c)
    requires forall c :: c in v.wire && c !in w.wire ==> OnWire(v, c)
    ensures Inv(v)
  {
    forall c | c in v.offers
      ensures OfferOk(v, c)
    {
      if c in w.offers { assert OfferOk(w, c); }
    }
    forall c | c in v.wire
      ensures OnWire(v, c)
    {
      if c in w.wire {
        assert OnWire(w, c);
        var t, n: nat :| t in w.seeds && n < |Log(w.sent, t)| && c == Genuine(w, t, n);
        assert c == Genuine(v, t, n);
      }
    }
    forall t | t in v.receiver.remotes
      ensures KeyOk(v, t)
    {
      assert KeyOk(w, t);
    }
    forall t
      ensures GotOk(v, t)
    {
      assert GotOk(w, t);
    }
  }

  lemma GenerateKeeps(w: World, seed: Key, now: int)
    requires Inv(w) && Allowed(w, Generate(seed, now))
    ensures Inv(AfterGenerate(w, seed, now))
  {
    var v := AfterGenerate(w, seed, now);
    assert LocalTuple(w.sender) !in w.sent;
    SenderMovesKeeps(w, v);
  }

  lemma DistributeKeeps(w: World, recipientKey: nat)
    requires Inv(w)
    ensures Inv(AfterDistribute(w, recipientKey))
  {
    var r := BuildDistribution(w.sender, recipientKey);
    if r.Success? {
      OfferIsOk(w, recipientKey);
      SenderMovesKeeps(w, AfterDistribute(w, recipientKey));
    }
  }

  lemma OfferIsOk(w: World, recipientKey: nat)
    requires SeedsOk(w) && SenderOk(w) && w.sender.local.Some?
    ensures OfferOk(w, BuildDistribution(w.sender, recipientKey).value)
  {
  }

  lemma SendKeeps(w: World, originalType: string, text: string)
    requires Inv(w)
    ensures Inv(AfterSend(w, originalType, text))
  {
    var v := AfterSend(w, originalType, text);
    SendMovesSender(w, originalType, text);
    SendKeepsSender(w, originalType, text);
    if EncryptGroup(w.sender, originalType, text).1.Success? {
      SentIsGenuine(w, originalType, text);
    }
    SenderMovesKeeps(w, v);
  }

  lemma SendMovesSender(w: World, originalType: string, text: string)
    ensures SenderMoves(w, AfterSend(w, originalType, text))
  {
  }

  lemma SendKeepsSender(w: World, originalType: string, text: string)
    requires SeedsOk(w) && SenderOk(w)
    ensures SeedsOk(AfterSend(w, originalType, text)) && SenderOk(AfterSend(w, originalType, text))
  {
  }

  lemma SentIsGenuine(w: World, originalType: string, text: string)
    requires Inv(w) && EncryptGroup(w.sender, originalType, text).1.Success?
    ensures var v := AfterSend(w, originalType, text);
            forall c :: c in v.wire && c !in w.wire ==> OnWire(v, c)
  {
    var v, t := AfterSend(w, originalType, text), LocalTuple(w.sender);
    assert EncryptGroup(w.sender, originalType, text).1.value.ciphertext == Genuine(v, t, |Log(w.sent, t)|);
  }

  lemma SenderAdvanceKeeps(w: World, newEpoch: int)
    requires Inv(w)
    ensures Inv(w.(sender := AdvanceEpoch(w.sender, newEpoch).0))
  {
    SenderMovesKeeps(w, w.(sender := AdvanceEpoch(w.sender, newEpoch).0));
  }

  /** The receiver has moved on; the sender has not. */
  ghost predicate ReceiverMoves(w: World, v: World) {
    v == w.(receiver := v.receiver, installed := v.installed, got := v.got)
  }

  lemma ReceiverMovesKeeps(w: World, v: World)
    requires Inv(w) && ReceiverMoves(w, v) && InstalledOk(v)
    requires forall t :: t in v.receiver.remotes ==> KeyOk(v, t)
    requires forall t :: Log(v.got, t) != Log(w.got, t) ==> GotOk(v, t)
    ensures Inv(v)
  {
    assert forall t, n: nat :: t in w.seeds && n < |Log(w.sent, t)| ==> Genuine(v, t, n) == Genuine(w, t, n);
    forall c | c in v.wire
      ensures OnWire(v, c)
    {
      assert OnWire(w, c);
    }
    forall c | c in v.offers
      ensures OfferOk(v, c)
    {
      assert OfferOk(w, c);
    }
    forall t
      ensures GotOk(v, t)
    {
      assert GotOk(w, t);
    }
  }

  /** A key that the step does not touch. */
  lemma OtherKeyKeeps(w: World, v: World, t: KeyTuple)
    requires ReceiverMoves(w, v) && t in w.receiver.remotes && KeyOk(w, t)
    requires t in v.receiver.remotes && v.receiver.remotes[t] == w.receiver.remotes[t]
    requires t in v.receiver.received && Log(v.got, t) == Log(w.got, t)
    ensures KeyOk(v, t)
  {
  }

  /** A key fresh from its distribution message. */
  lemma NewKeyOk(w: World, v: World, t: KeyTuple, chainKey: Key, expires: int, now: int)
    requires ReceiverMoves(w, v) && t in v.receiver.received && |Log(v.got, t)| == 0
    requires t in v.receiver.remotes && v.receiver.remotes[t] == NewSenderKey(chainKey, t, expires, false, now)
    requires t.senderDid == w.sender.localDid ==> t in w.seeds && OnChain(chainKey, w.seeds[t])
    ensures KeyOk(v, t)
  {
  }

  lemma DeliverKeyKeeps(w: World, c: KeyContent, proofOk: bool, now: int)
    requires Inv(w) && Allowed(w, DeliverKey(c, proofOk, now))
    ensures Inv(AfterDeliverKey(w, c, proofOk, now))
  {
    var v := AfterDeliverKey(w, c, proofOk, now);
    if ProcessSenderKey(w.receiver, c, proofOk, now).1.Success? {
      var chainKey := OpenBox(w.receiver.hpkeKey, c.box, c.groupDid, c.epoch, c.keyId).value;
      InstallKeeps(w, v, c, chainKey, if c.expires.Some? then c.expires.value else DEFAULT_EXPIRES, now);
    }
  }

  lemma InstallKeeps(w: World, v: World, c: KeyContent, chainKey: Key, expires: int, now: int)
    requires Inv(w) && TupleOf(c) !in w.receiver.received
    requires c.senderDid == w.sender.localDid ==> c in w.offers
    requires OpenBox(w.receiver.hpkeKey, c.box, c.groupDid, c.epoch, c.keyId) == Some(chainKey)
    requires var t := TupleOf(c);
             v == w.(receiver := w.receiver.(
                       remotes := w.receiver.remotes[t := NewSenderKey(chainKey, t, expires, false, now)],
                       received := w.receiver.received + {t}),
                     installed := w.installed + [t])
    ensures Inv(v)
  {
    var added := TupleOf(c);
    forall t | t in v.receiver.remotes
      ensures KeyOk(v, t)
    {
      if t == added {
        if c.senderDid == w.sender.localDid { assert OfferOk(w, c); }
        NewKeyOk(w, v, t, chainKey, expires, now);
      } else {
        assert KeyOk(w, t);
        OtherKeyKeeps(w, v, t);
      }
    }
    ReceiverMovesKeeps(w, v);
  }

  /** Under one of the sender's keys only the genuine next ciphertext opens, and only if the key was
      installed before its first use. */
  lemma OnlyGenuineOpens(w: World, t: KeyTuple, c: GroupMsg)
    requires Inv(w) && t in w.receiver.remotes && t.senderDid == w.sender.localDid
    requires c.ciphertext in w.wire || Foreign(w, c.ciphertext)
    requires var k := w.receiver.remotes[t];
             c.seqNo == k.seqs.recvSeq && c.seqNo < SEQ_LIMIT && MsgTuple(c) == t
             && var m := GroupMsgKey(k.chainKey, c.seqNo);
                Open(c.ciphertext, EncKey(m), Nonce(m), GroupAad(c.groupDid, c.epoch)).Some?
    ensures t in w.seeds && c.seqNo < |Log(w.sent, t)| && c.ciphertext == Genuine(w, t, c.seqNo)
    ensures Depth(w.receiver.remotes[t].chainKey) == c.seqNo
  {
    assert KeyOk(w, t);
    var k := w.receiver.remotes[t];
    var m := GroupMsgKey(k.chainKey, c.seqNo);
    DepthOfRatcheted(w.seeds[t], Depth(k.chainKey));
    assert RootOf(EncKey(m)) == RootOf(m) == w.seeds[t];
    assert OnWire(w, c.ciphertext);
    var u, n: nat :| u in w.seeds && n < |Log(w.sent, u)| && c.ciphertext == Genuine(w, u, n);
    DepthOfRatcheted(w.seeds[u], n);
  }

  /** A message touches the one key it names, and that key's log only when it is accepted. */
  lemma MsgTouchesOneKey(w: World, c: GroupMsg, now: int)
    ensures var v := AfterDeliverMsg(w, c, now);
            var t := MsgTuple(c);
            && ReceiverMoves(w, v) && v.installed == w.installed
            && v.receiver.received == w.receiver.received && v.receiver.remotes.Keys == w.receiver.remotes.Keys
            && (t !in w.receiver.remotes ==> v == w)
            && (forall u :: u != t && u in w.receiver.remotes ==> v.receiver.remotes[u] == w.receiver.remotes[u])
            && (forall u :: u != t ==> Log(v.got, u) == Log(w.got, u))
            && (forall u :: u in v.got ==> u in w.got || u in w.receiver.remotes)
  {
  }

  lemma RefuseKeepsKey(w: World, c: GroupMsg, now: int)
    requires Inv(w) && MsgTuple(c) in w.receiver.remotes
    requires DecryptGroup(w.receiver, c, now).1.Failure?
    ensures var v := AfterDeliverMsg(w, c, now);
            MsgTuple(c) in v.receiver.remotes && KeyOk(v, MsgTuple(c)) && v.got == w.got
  {
    assert KeyOk(w, MsgTuple(c));
  }

  /** Under a strict key a message moves chain and counter by one, or neither. */
  lemma DecryptMoves(k: SenderKey, c: GroupMsg, now: int)
    requires k.seqs.mode == Strict && UsedBelow(k.seqs)
    ensures var (k', r) := DecryptWith(k, c, now);
            if r.Failure? then k'.chainKey == k.chainKey && k'.seqs.recvSeq == k.seqs.recvSeq
            else c.seqNo == k.seqs.recvSeq && k'.chainKey == GroupNextCk(k.chainKey)
                 && k'.seqs.recvSeq == k.seqs.recvSeq + 1
  {
    AcceptsIffInRange(k.seqs, c.seqNo, now);
    assert GroupRatcheted(k.chainKey, 0) == k.chainKey;
  }

  /** What an accepted message changes under its key. */
  lemma AcceptedState(w: World, c: GroupMsg, now: int)
    requires MsgTuple(c) in w.receiver.remotes && DecryptGroup(w.receiver, c, now).1.Success?
    requires var k := w.receiver.remotes[MsgTuple(c)]; k.seqs.mode == Strict && UsedBelow(k.seqs)
    ensures var t, v := MsgTuple(c), AfterDeliverMsg(w, c, now);
            var k, text := w.receiver.remotes[t], DecryptGroup(w.receiver, c, now).1.value.text;
            var n := k.seqs.recvSeq;
            && c.seqNo == n && v == w.(receiver := v.receiver, got := v.got)
            && v.receiver.received == w.receiver.received && t in v.receiver.remotes
            && v.receiver.remotes[t]
            == k.(chainKey := GroupNextCk(k.chainKey), seqs := Advance(Mark(AfterCheck(k.seqs, n, now), n, now), n))
            && v.got == w.got[t := Log(w.got, t) + [Accepted(n, text)]]
  {
    var k := w.receiver.remotes[MsgTuple(c)];
    DecryptMoves(k, c, now);
    assert GroupRatcheted(k.chainKey, 0) == k.chainKey;
  }

  lemma AcceptKeepsKey(w: World, c: GroupMsg, now: int)
    requires Inv(w) && Allowed(w, DeliverMsg(c, now)) && MsgTuple(c) in w.receiver.remotes
    requires DecryptGroup(w.receiver, c, now).1.Success?
    ensures var v := AfterDeliverMsg(w, c, now);
            MsgTuple(c) in v.receiver.remotes && KeyOk(v, MsgTuple(c)) && GotOk(v, MsgTuple(c))
  {
    var t := MsgTuple(c);
    assert KeyOk(w, t) && GotOk(w, t);
    AcceptedState(w, c, now);
    if t.senderDid == w.sender.localDid {
      AcceptedIsGenuine(w, c, now);
    }
    AcceptMovesOn(w, AfterDeliverMsg(w, c, now), t, DecryptGroup(w.receiver, c, now).1.value.text, now);
  }

  lemma AcceptedIsGenuine(w: World, c: GroupMsg, now: int)
    requires Inv(w) && Allowed(w, DeliverMsg(c, now)) && MsgTuple(c) in w.receiver.remotes
    requires DecryptGroup(w.receiver, c, now).1.Success? && MsgTuple(c).senderDid == w.sender.localDid
    ensures var t := MsgTuple(c);
            var k := w.receiver.remotes[t];
            && k.seqs.recvSeq < |Log(w.sent, t)| && Depth(k.chainKey) == k.seqs.recvSeq
            && DecryptGroup(w.receiver, c, now).1.value.text == Log(w.sent, t)[k.seqs.recvSeq]
  {
    var t := MsgTuple(c);
    var k := w.receiver.remotes[t];
    assert KeyOk(w, t);
    DecryptMoves(k, c, now);
    assert GroupRatcheted(k.chainKey, 0) == k.chainKey;
    OnlyGenuineOpens(w, t, c);
  }

  /** The bookkeeping of an acceptance at position recvSeq. */
  lemma AcceptMovesOn(w: World, v: World, t: KeyTuple, text: string, now: int)
    requires t in w.receiver.remotes && KeyOk(w, t) && GotOk(w, t)
    requires v == w.(receiver := v.receiver, got := v.got)
    requires v.receiver.received == w.receiver.received && t in v.receiver.remotes
    requires var k := w.receiver.remotes[t];
             var n := k.seqs.recvSeq;
             && v.receiver.remotes[t]
             == k.(chainKey := GroupNextCk(k.chainKey), seqs := Advance(Mark(AfterCheck(k.seqs, n, now), n, now), n))
             && v.got == w.got[t := Log(w.got, t) + [Accepted(n, text)]]
             && (t.senderDid == w.sender.localDid ==>
                   n < |Log(w.sent, t)| && text == Log(w.sent, t)[n] && Depth(k.chainKey) == n)
    ensures KeyOk(v, t) && GotOk(v, t)
  {
  }

  lemma DeliverMsgKeeps(w: World, c: GroupMsg, now: int)
    requires Inv(w) && Allowed(w, DeliverMsg(c, now))
    ensures Inv(AfterDeliverMsg(w, c, now))
  {
    var v := AfterDeliverMsg(w, c, now);
    var t := MsgTuple(c);
    MsgTouchesOneKey(w, c, now);
    if t in w.receiver.remotes {
      assert KeyOk(w, t);
      if DecryptGroup(w.receiver, c, now).1.Success? {
        AcceptKeepsKey(w, c, now);
      } else {
        RefuseKeepsKey(w, c, now);
      }
      OtherKeysStay(w, v, t);
      ReceiverMovesKeeps(w, v);
    }
  }

  lemma OtherKeysStay(w: World, v: World, t: KeyTuple)
    requires Inv(w) && ReceiverMoves(w, v) && v.receiver.received == w.receiver.received
    requires v.receiver.remotes.Keys == w.receiver.remotes.Keys && t in v.receiver.remotes && KeyOk(v, t)
    requires forall u :: u != t && u in w.receiver.remotes ==> v.receiver.remotes[u] == w.receiver.remotes[u]
    requires forall u :: u != t ==> Log(v.got, u) == Log(w.got, u)
    ensures forall u :: u in v.receiver.remotes ==> KeyOk(v, u)
  {
    forall u | u in v.receiver.remotes
      ensures KeyOk(v, u)
    {
      if u != t { assert KeyOk(w, u); }
    }
  }

  lemma ReceiverAdvanceKeeps(w: World, version: string, proofOk: bool, newEpoch: int)
    requires Inv(w)
    ensures Inv(w.(receiver := ProcessEpochAdvance(w.receiver, version, proofOk, newEpoch).0))
  {
    var v := w.(receiver := ProcessEpochAdvance(w.receiver, version, proofOk, newEpoch).0);
    forall t | t in v.receiver.remotes
      ensures KeyOk(v, t)
    {
      assert KeyOk(w, t);
    }
    ReceiverMovesKeeps(w, v);
  }

  lemma CleanupKeeps(w: World, now: int)
    requires Inv(w)
    ensures Inv(w.(receiver := CleanupExpired(w.receiver, now)))
  {
    var v := w.(receiver := CleanupExpired(w.receiver, now));
    forall t | t in v.receiver.remotes
      ensures KeyOk(v, t)
    {
      assert KeyOk(w, t);
    }
    ReceiverMovesKeeps(w, v);
  }

  lemma StepKeepsInv(u: World, e: Event, w: World)
    requires Inv(u) && IsStep(u, e, w)
    ensures Inv(w)
  {
    match e
    case Generate(seed, now) => GenerateKeeps(u, seed, now);
    case Distribute(recipientKey) => DistributeKeeps(u, recipientKey);
    case Send(originalType, text) => SendKeeps(u, originalType, text);
    case SenderAdvance(newEpoch) => SenderAdvanceKeeps(u, newEpoch);
    case DeliverKey(key, proofOk, now) => DeliverKeyKeeps(u, key, proofOk, now);
    case DeliverMsg(msg, now) => DeliverMsgKeeps(u, msg, now);
    case ReceiverAdvance(version, proofOk, newEpoch) => ReceiverAdvanceKeeps(u, version, proofOk, newEpoch);
    case ReceiverCleanup(now) => CleanupKeeps(u, now);
  }

  lemma {:induction false} RunKeepsInv(ws: seq<World>, es: seq<Event>, i: nat)
    requires Run(ws, es) && Inv(ws[0]) && i < |ws|
    ensures Inv(ws[i])
  {
    if i > 0 {
      RunKeepsInv(ws, es, i - 1);
      StepKeepsInv(ws[i - 1], es[i - 1], ws[i]);
    }
  }

  lemma ReachableInv(w: World)
    requires Reachable(w)
    ensures Inv(w)
  {
    var ws, es :| Run(ws, es) && StartsFresh(ws[0]) && w == ws[|es|];
    assert Inv(ws[0]);
    RunKeepsInv(ws, es, |es|);
  }

  // ---- The main results ----

  /** No (sender, epoch, key id) is ever installed twice, even after cleanup_expired dropped it. */
  lemma InstalledAtMostOnce(w: World, i: nat, j: nat)
    requires Reachable(w) && i < j < |w.installed|
    ensures w.installed[i] != w.installed[j]
  {
    ReachableInv(w);
  }

  /** Under every key, whoever distributed it, the accepted numbers are exactly 0, 1, 2, ... */
  lemma AcceptedAreConsecutive(w: World, t: KeyTuple, i: nat)
    requires Reachable(w) && i < |Log(w.got, t)|
    ensures Log(w.got, t)[i].seqNo == i
  {
    ReachableInv(w);
    assert GotOk(w, t);
  }

  /** Under each of the sender's keys the receiver accepts a prefix of what the sender sent. */
  lemma AcceptedArePrefix(w: World, t: KeyTuple)
    requires Reachable(w) && t.senderDid == w.sender.localDid
    ensures Texts(Log(w.got, t)) <= Log(w.sent, t)
  {
    ReachableInv(w);
    assert GotOk(w, t);
    assert Texts(Log(w.got, t)) == Log(w.sent, t)[..|Log(w.got, t)|];
  }

  /** A local key always has the current epoch and is never read-only, so advance_epoch's marking of
      the old local key is followed by its removal before it can be used again. */
  lemma LocalKeyIsCurrent(w: World)
    requires Reachable(w) && w.sender.local.Some?
    ensures w.sender.local.value.epoch == w.sender.epoch && !w.sender.local.value.readOnly
    ensures EncryptGroup(w.sender, "text", "").1 != Failure(ReadOnlyKey)
  {
    ReachableInv(w);
  }

  /** The next genuine message under a stored key decrypts exactly when the chain is where the counter is. */
  lemma NextDecryptsIn(w: World, t: KeyTuple, c: GroupMsg, now: int)
    requires Inv(w) && t in w.receiver.remotes && t.senderDid == w.sender.localDid
    requires t in w.seeds && w.receiver.remotes[t].seqs.recvSeq < |Log(w.sent, t)|
    requires c.version == E2EE_VERSION && MsgTuple(c) == t && c.groupDid == w.sender.groupDid
    requires c.seqNo == w.receiver.remotes[t].seqs.recvSeq
    requires c.ciphertext == Genuine(w, t, c.seqNo)
    ensures DecryptGroup(w.receiver, c, now).1
         == if Depth(w.receiver.remotes[t].chainKey) == w.receiver.remotes[t].seqs.recvSeq
            then Success(Plain(c.originalType, Log(w.sent, t)[c.seqNo]))
            else Failure(DecryptFailed)
  {
    assert KeyOk(w, t);
    var k := w.receiver.remotes[t];
    AcceptsIffInRange(k.seqs, c.seqNo, now);
    DepthOfRatcheted(w.seeds[t], c.seqNo);
    assert GroupRatcheted(k.chainKey, 0) == k.chainKey;
  }

  /** Epochs never go back, and every successful advance is a strict increase. */
  lemma EpochsIncrease(u: World, e: Event, w: World)
    requires IsStep(u, e, w)
    ensures u.sender.epoch <= w.sender.epoch && u.receiver.epoch <= w.receiver.epoch
    ensures e.SenderAdvance? && AdvanceEpoch(u.sender, e.newEpoch).1.Success? ==>
              u.sender.epoch < w.sender.epoch && w.sender.local.None?
  {
  }
}

/** anp/anp/e2e_encryption_hpke/group_session.py: sender keys and epochs of one group member. */
module GroupSessions {
  import opened Wrappers
  import opened E2eeMessages
  import opened Ratchet
  import opened SequenceNumbers

  const DEFAULT_EXPIRES := 86400

  /** f"{short_hash}:{epoch}" */
  datatype KeyId = KeyId(shortHash: string, epoch: int)

  datatype KeyTuple = KeyTuple(senderDid: Did, epoch: int, keyId: KeyId)

  /** Associated data of a group message, f"{group_did}:{epoch}". */
  datatype GroupAad = GroupAad(groupDid: Did, epoch: int)

  type GroupCipher = Ciphertext<GroupAad>

  /** A sender chain key sealed with HPKE under the data f"{group_did}:{epoch}:{sender_key_id}". */
  datatype KeyBox = KeyBox(recipientKey: nat, groupDid: Did, epoch: int, keyId: KeyId, chainKey: Key) | BadBox

  function OpenBox(secretKey: nat, box: KeyBox, groupDid: Did, epoch: int, keyId: KeyId): Option<Key> {
    if box.KeyBox? && box.recipientKey == secretKey && box.groupDid == groupDid && box.epoch == epoch
       && box.keyId == keyId
    then Some(box.chainKey) else None
  }

  /** Content of a group_e2ee_key message. */
  datatype KeyContent = KeyContent(
    version: string, groupDid: Did, epoch: int, senderDid: Did, keyId: KeyId,
    box: KeyBox, expires: Option<int>)

  /** Content of a group_e2ee_msg message. */
  datatype GroupMsg = GroupMsg(
    version: string, groupDid: Did, epoch: int, senderDid: Did, keyId: KeyId, seqNo: int,
    originalType: string, ciphertext: GroupCipher)

  datatype Plain = Plain(originalType: string, text: string)

  datatype Error =
    UnsupportedVersion | ProofInvalid | DuplicateKey | OpenFailed | NoLocalKey | ReadOnlyKey
    | KeyNotFound | InvalidSeq | SeqOverflow | DecryptFailed | EpochNotIncreasing

  /** The fields of SenderKeyState, with those of its SeqManager. */
  datatype SenderKey = SenderKey(
    chainKey: Key, senderDid: Did, epoch: int, keyId: KeyId, isLocal: bool, readOnly: bool,
    expiresAt: int, seqs: SeqState)

  function NewSenderKey(chainKey: Key, t: KeyTuple, expires: int, isLocal: bool, now: int): SenderKey {
    SenderKey(chainKey, t.senderDid, t.epoch, t.keyId, isLocal, false, now + expires,
              Fresh(Strict, DEFAULT_MAX_SKIP, DEFAULT_SKIP_KEY_TTL))
  }

  /** The fields of GroupE2eeSession; `shortHash` is the prefix of the hash of the local DID. */
  datatype Group = Group(
    groupDid: Did, localDid: Did, hpkeKey: nat, shortHash: string, epoch: int,
    local: Option<SenderKey>, remotes: map<KeyTuple, SenderKey>, received: set<KeyTuple>)

  function NewGroup(groupDid: Did, localDid: Did, hpkeKey: nat, shortHash: string, epoch: int): Group {
    Group(groupDid, localDid, hpkeKey, shortHash, epoch, None, map[], {})
  }

  function LocalTuple(g: Group): KeyTuple {
    KeyTuple(g.localDid, g.epoch, KeyId(g.shortHash, g.epoch))
  }

  function TupleOf(c: KeyContent): KeyTuple {
    KeyTuple(c.senderDid, c.epoch, c.keyId)
  }

  function MsgTuple(c: GroupMsg): KeyTuple {
    KeyTuple(c.senderDid, c.epoch, c.keyId)
  }

  /** `seed` is the random chain key drawn by the call. */
  function GenerateSenderKey(g: Group, seed: Key, now: int): Group {
    g.(local := Some(NewSenderKey(seed, LocalTuple(g), DEFAULT_EXPIRES, true, now)))
  }

  /** The current chain key goes out, however far it has been ratcheted. */
  function BuildDistribution(g: Group, recipientKey: nat): Result<KeyContent, Error> {
    if g.local.None? then Failure(NoLocalKey)
    else
      var k := g.local.value;
      Success(KeyContent(E2EE_VERSION, g.groupDid, g.epoch, g.localDid, k.keyId,
                         KeyBox(recipientKey, g.groupDid, g.epoch, k.keyId, k.chainKey), Some(DEFAULT_EXPIRES)))
  }

  function ProcessSenderKey(g: Group, c: KeyContent, proofOk: bool, now: int): (Group, Result<(), Error>) {
    var t := TupleOf(c);
    if c.version != E2EE_VERSION then (g, Failure(UnsupportedVersion))
    else if !proofOk then (g, Failure(ProofInvalid))
    else if t in g.received then (g, Failure(DuplicateKey))
    else
      match OpenBox(g.hpkeKey, c.box, c.groupDid, c.epoch, c.keyId)
      case None => (g, Failure(OpenFailed))
      case Some(chainKey) =>
        var expires := if c.expires.Some? then c.expires.value else DEFAULT_EXPIRES;
        (g.(remotes := g.remotes[t := NewSenderKey(chainKey, t, expires, false, now)],
            received := g.received + {t}),
         Success(()))
  }

  function EncryptGroup(g: Group, originalType: string, text: string): (Group, Result<GroupMsg, Error>) {
    if g.local.None? then (g, Failure(NoLocalKey))
    else if g.local.value.readOnly then (g, Failure(ReadOnlyKey))
    else
      var k := g.local.value;
      var seqNo := k.seqs.sendSeq;
      var taken := k.(seqs := k.seqs.(sendSeq := seqNo + 1));
      match DeriveGroupMessageKey(k.chainKey, seqNo)
      case None => (g.(local := Some(taken)), Failure(SeqOverflow))
      case Some(m) =>
        (g.(local := Some(taken.(chainKey := m.nextCk))),
         Success(GroupMsg(E2EE_VERSION, g.groupDid, g.epoch, g.localDid, k.keyId, seqNo, originalType,
                          Sealed(m.encKey, m.nonce, GroupAad(g.groupDid, g.epoch), text))))
  }

  /** len(range(low, high)) */
  function RangeLength(low: int, high: int): nat {
    if low <= high then high - low else 0
  }

  function DecryptWith(k: SenderKey, c: GroupMsg, now: int): (SenderKey, Result<Plain, Error>) {
    var checked := k.(seqs := AfterCheck(k.seqs, c.seqNo, now));
    if !Accepts(k.seqs, c.seqNo, now) then (checked, Failure(InvalidSeq))
    else
      match DeriveGroupMessageKey(GroupRatcheted(k.chainKey, RangeLength(k.seqs.recvSeq, c.seqNo)), c.seqNo)
      case None => (checked, Failure(SeqOverflow))
      case Some(m) =>
        match Open(c.ciphertext, m.encKey, m.nonce, GroupAad(c.groupDid, c.epoch))
        case None => (checked, Failure(DecryptFailed))
        case Some(text) =>
          (checked.(chainKey := m.nextCk, seqs := Advance(Mark(checked.seqs, c.seqNo, now), c.seqNo)),
           Success(Plain(c.originalType, text)))
  }

  function DecryptGroup(g: Group, c: GroupMsg, now: int): (Group, Result<Plain, Error>) {
    var t := MsgTuple(c);
    if c.version != E2EE_VERSION then (g, Failure(UnsupportedVersion))
    else if t !in g.remotes then (g, Failure(KeyNotFound))
    else
      var (k, r) := DecryptWith(g.remotes[t], c, now);
      (g.(remotes := g.remotes[t := k]), r)
  }

  /** The keys of the epoch that ends become read-only. */
  function OldMarked(remotes: map<KeyTuple, SenderKey>, epoch: int): map<KeyTuple, SenderKey> {
    map t | t in remotes ::
      if remotes[t].epoch == epoch then remotes[t].(readOnly := true) else remotes[t]
  }

  function AdvanceEpoch(g: Group, newEpoch: int): (Group, Result<(), Error>) {
    if newEpoch <= g.epoch then (g, Failure(EpochNotIncreasing))
    else
      (g.(epoch := newEpoch, local := None, remotes := OldMarked(g.remotes, g.epoch)), Success(()))
  }

  function ProcessEpochAdvance(g: Group, version: string, proofOk: bool, newEpoch: int): (Group, Result<(), Error>) {
    if version != E2EE_VERSION then (g, Failure(UnsupportedVersion))
    else if !proofOk then (g, Failure(ProofInvalid))
    else AdvanceEpoch(g, newEpoch)
  }

  function CleanupExpired(g: Group, now: int): Group {
    g.(remotes := map t | t in g.remotes && now <= g.remotes[t].expiresAt :: g.remotes[t])
  }

  /** Its STRICT SeqManager is held by value, as the SeqState that the manager's methods compute. */
  class SenderKeyState {
    const senderDid: Did
    const epoch: int
    const keyId: KeyId
    const isLocal: bool
    const expiresAt: int
    var seqs: SeqState
    var chainKey: Key
    var readOnly: bool

    ghost function View(): SenderKey
      reads this
    {
      SenderKey(chainKey, senderDid, epoch, keyId, isLocal, readOnly, expiresAt, seqs)
    }

    function Tuple(): KeyTuple {
      KeyTuple(senderDid, epoch, keyId)
    }

    constructor (chainKey: Key, t: KeyTuple, expires: int, isLocal: bool, now: int)
      ensures View() == NewSenderKey(chainKey, t, expires, isLocal, now)
    {
      this.chainKey, this.senderDid, this.epoch, this.keyId := chainKey, t.senderDid, t.epoch, t.keyId;
      this.isLocal, readOnly, expiresAt := isLocal, false, now + expires;
      seqs := Fresh(Strict, DEFAULT_MAX_SKIP, DEFAULT_SKIP_KEY_TTL);
    }

    /** The part of decrypt_group_message that works on one sender key. */
    method DecryptMessage(c: GroupMsg, now: int) returns (r: Result<Plain, Error>)
      modifies this
      ensures (View(), r) == DecryptWith(old(View()), c, now)
    {
      var ok := Accepts(seqs, c.seqNo, now);
      seqs := AfterCheck(seqs, c.seqNo, now);
      if !ok {
        return Failure(InvalidSeq);
      }
      var current := seqs.recvSeq;
      var tempChainKey, s := chainKey, current;
      while s < c.seqNo
        invariant current <= s && (s <= c.seqNo || s == current)
        invariant tempChainKey == GroupRatcheted(chainKey, s - current)
        invariant s == current || s <= SEQ_LIMIT
      {
        var m := DeriveGroupMessageKey(tempChainKey, s);
        if m.None? {
          return Failure(SeqOverflow);
        }
        tempChainKey := m.value.nextCk;
        s := s + 1;
      }
      var m := DeriveGroupMessageKey(tempChainKey, c.seqNo);
      if m.None? {
        return Failure(SeqOverflow);
      }
      var text := Open(c.ciphertext, m.value.encKey, m.value.nonce, GroupAad(c.groupDid, c.epoch));
      if text.None? {
        return Failure(DecryptFailed);
      }
      chainKey := m.value.nextCk;
      seqs := Advance(Mark(seqs, c.seqNo, now), c.seqNo);
      return Success(Plain(c.originalType, text.value));
    }
  }

  class GroupE2eeSession {
    const groupDid: Did
    const localDid: Did
    const hpkeKey: nat
    const shortHash: string
    var epoch: int
    var localSenderKey: SenderKeyState?
    var remoteSenderKeys: map<KeyTuple, SenderKeyState>
    var receivedKeyIds: set<KeyTuple>

    /** Contains the sender key states. */
    ghost var Repr: set<object>

    /** Every state knows the key it belongs to, so no two keys share a state. */
    ghost predicate Valid()
      reads this
    {
      && this !in Repr
      && (forall t :: t in remoteSenderKeys ==>
            remoteSenderKeys[t] in Repr && !remoteSenderKeys[t].isLocal && remoteSenderKeys[t].Tuple() == t)
      && (localSenderKey != null ==> localSenderKey.isLocal && localSenderKey in Repr)
    }

    ghost function Remotes(): map<KeyTuple, SenderKey>
      requires Valid()
      reads this, Repr
    {
      map t | t in remoteSenderKeys :: remoteSenderKeys[t].View()
    }

    ghost function View(): Group
      requires Valid()
      reads this, Repr
    {
      Group(groupDid, localDid, hpkeKey, shortHash, epoch,
            if localSenderKey == null then None else Some(localSenderKey.View()), Remotes(), receivedKeyIds)
    }

    constructor (groupDid: Did, localDid: Did, hpkeKey: nat, shortHash: string, epoch: int)
      ensures Valid() && Repr == {} && View() == NewGroup(groupDid, localDid, hpkeKey, shortHash, epoch)
    {
      this.groupDid, this.localDid, this.hpkeKey, this.shortHash := groupDid, localDid, hpkeKey, shortHash;
      this.epoch, localSenderKey, remoteSenderKeys, receivedKeyIds, Repr := epoch, null, map[], {}, {};
    }

    method Generate(seed: Key, now: int)
      requires Valid()
      modifies this
      ensures Valid() && fresh(Repr - old(Repr))
      ensures View() == GenerateSenderKey(old(View()), seed, now)
    {
      var t := KeyTuple(localDid, epoch, KeyId(shortHash, epoch));
      localSenderKey := new SenderKeyState(seed, t, DEFAULT_EXPIRES, true, now);
      Repr := Repr + {localSenderKey};
      assert Remotes() == old(Remotes());
    }

    method Distribution(recipientKey: nat) returns (r: Result<KeyContent, Error>)
      requires Valid()
      ensures r == BuildDistribution(View(), recipientKey)
    {
      if localSenderKey == null {
        return Failure(NoLocalKey);
      }
      var k := localSenderKey;
      return Success(KeyContent(E2EE_VERSION, groupDid, epoch, localDid, k.keyId,
                                KeyBox(recipientKey, groupDid, epoch, k.keyId, k.chainKey), Some(DEFAULT_EXPIRES)));
    }

    method Install(t: KeyTuple, chainKey: Key, expires: int, now: int)
      requires Valid()
      modifies this
      ensures Valid() && fresh(Repr - old(Repr))
      ensures View() == old(View()).(
                remotes := old(Remotes())[t := NewSenderKey(chainKey, t, expires, false, now)],
                received := old(receivedKeyIds) + {t})
    {
      var state := new SenderKeyState(chainKey, t, expires, false, now);
      remoteSenderKeys := remoteSenderKeys[t := state];
      receivedKeyIds := receivedKeyIds + {t};
      Repr := Repr + {state};
      assert Remotes() == old(Remotes())[t := NewSenderKey(chainKey, t, expires, false, now)];
    }

    method OnSenderKey(c: KeyContent, proofOk: bool, now: int) returns (r: Result<(), Error>)
      requires Valid()
      modifies this
      ensures Valid() && fresh(Repr - old(Repr))
      ensures (View(), r) == ProcessSenderKey(old(View()), c, proofOk, now)
    {
      if c.version != E2EE_VERSION {
        return Failure(UnsupportedVersion);
      }
      if !proofOk {
        return Failure(ProofInvalid);
      }
      var t := KeyTuple(c.senderDid, c.epoch, c.keyId);
      if t in receivedKeyIds {
        return Failure(DuplicateKey);
      }
      var chainKey := OpenBox(hpkeKey, c.box, c.groupDid, c.epoch, c.keyId);
      if chainKey.None? {
        return Failure(OpenFailed);
      }
      var expires := if c.expires.Some? then c.expires.value else DEFAULT_EXPIRES;
      Install(t, chainKey.value, expires, now);
      return Success(());
    }

    method EncryptMessage(originalType: string, text: string) returns (r: Result<GroupMsg, Error>)
      requires Valid()
      modifies this, Repr
      ensures Valid() && Repr == old(Repr)
      ensures (View(), r) == EncryptGroup(old(View()), originalType, text)
    {
      if localSenderKey == null {
        return Failure(NoLocalKey);
      }
      if localSenderKey.readOnly {
        return Failure(ReadOnlyKey);
      }
      var sk := localSenderKey;
      var seqNo := sk.seqs.sendSeq;
      sk.seqs := sk.seqs.(sendSeq := seqNo + 1);
      var m := DeriveGroupMessageKey(sk.chainKey, seqNo);
      if m.Some? {
        sk.chainKey := m.value.nextCk;
      }
      assert Remotes() == old(Remotes());
      if m.None? {
        return Failure(SeqOverflow);
      }
      return Success(GroupMsg(E2EE_VERSION, groupDid, epoch, localDid, sk.keyId, seqNo, originalType,
                              Sealed(m.value.encKey, m.value.nonce, GroupAad(groupDid, epoch), text)));
    }

    method DecryptMessage(c: GroupMsg, now: int) returns (r: Result<Plain, Error>)
      requires Valid()
      modifies this, Repr
      ensures Valid() && Repr == old(Repr)
      ensures (View(), r) == DecryptGroup(old(View()), c, now)
    {
      if c.version != E2EE_VERSION {
        return Failure(UnsupportedVersion);
      }
      var t := KeyTuple(c.senderDid, c.epoch, c.keyId);
      if t !in remoteSenderKeys {
        return Failure(KeyNotFound);
      }
      r := remoteSenderKeys[t].DecryptMessage(c, now);
      assert Remotes() == old(Remotes())[t := remoteSenderKeys[t].View()];
    }

    method MarkOldReadOnly()
      requires Valid()
      modifies (set t | t in remoteSenderKeys :: remoteSenderKeys[t])`readOnly
      ensures Remotes() == OldMarked(old(Remotes()), epoch)
    {
      var todo := remoteSenderKeys.Keys;
      while todo != {}
        invariant todo <= remoteSenderKeys.Keys
        invariant forall t :: t in remoteSenderKeys ==>
          remoteSenderKeys[t].readOnly
          == (old(remoteSenderKeys[t].readOnly) || (t !in todo && remoteSenderKeys[t].epoch == epoch))
        decreases todo
      {
        var t :| t in todo;
        if remoteSenderKeys[t].epoch == epoch {
          remoteSenderKeys[t].readOnly := true;
        }
        todo := todo - {t};
      }
    }

    method EnterEpoch(newEpoch: int)
      requires Valid()
      modifies `epoch, `localSenderKey
      ensures Valid()
      ensures View() == old(View()).(epoch := newEpoch, local := None)
    {
      epoch := newEpoch;
      localSenderKey := null;
      assert Remotes() == old(Remotes());
    }

    method Advance(newEpoch: int) returns (r: Result<(), Error>)
      requires Valid()
      modifies this, Repr
      ensures Valid() && Repr == old(Repr)
      ensures (View(), r) == AdvanceEpoch(old(View()), newEpoch)
    {
      if newEpoch <= epoch {
        return Failure(EpochNotIncreasing);
      }
      if localSenderKey != null {
        localSenderKey.readOnly := true;
      }
      assert Remotes() == old(Remotes());
      MarkOldReadOnly();
      EnterEpoch(newEpoch);
      return Success(());
    }

    method OnEpochAdvance(version: string, proofOk: bool, newEpoch: int) returns (r: Result<(), Error>)
      requires Valid()
      modifies this, Repr
      ensures Valid() && Repr == old(Repr)
      ensures (View(), r) == ProcessEpochAdvance(old(View()), version, proofOk, newEpoch)
    {
      if version != E2EE_VERSION {
        return Failure(UnsupportedVersion);
      }
      if !proofOk {
        return Failure(ProofInvalid);
      }
      if newEpoch <= epoch {
        return Failure(EpochNotIncreasing);
      }
      r := Advance(newEpoch);
    }

    method Unexpired(now: int) returns (kept: map<KeyTuple, SenderKeyState>)
      ensures kept == map t | t in remoteSenderKeys && now <= remoteSenderKeys[t].expiresAt :: remoteSenderKeys[t]
    {
      var expired := set t | t in remoteSenderKeys && now > remoteSenderKeys[t].expiresAt;
      kept := remoteSenderKeys;
      while expired != {}
        invariant expired <= remoteSenderKeys.Keys
        invariant forall t :: t in expired ==> now > remoteSenderKeys[t].expiresAt
        invariant forall t :: t in kept <==>
          t in remoteSenderKeys && (now <= remoteSenderKeys[t].expiresAt || t in expired)
        invariant forall t :: t in kept ==> kept[t] == remoteSenderKeys[t]
        decreases expired
      {
        var t :| t in expired;
        kept := kept - {t};
        expired := expired - {t};
      }
    }

    method Cleanup(now: int)
      requires Valid()
      modifies this
      ensures Valid() && Repr == old(Repr)
      ensures View() == CleanupExpired(old(View()), now)
    {
      remoteSenderKeys := Unexpired(now);
      assert Remotes() == CleanupExpired(old(View()), now).remotes;
    }
  }
}

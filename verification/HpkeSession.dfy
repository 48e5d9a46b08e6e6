/** anp/anp/e2e_encryption_hpke/session.py: one endpoint of a private end-to-end session. */
module HpkeSessions {
  import opened Wrappers
  import opened E2eeMessages
  import opened Ratchet
  import opened SequenceNumbers

  datatype SessionState = Idle | Active

  /** HPKE seal and open (RFC 9180, section 6.1) as an oracle: only the key the box was sealed to
      opens it, and only with the same associated data. */
  datatype HpkeBox = HpkeBox(recipientKey: nat, aad: string, seed: Key) | BadBox

  function HpkeOpen(secretKey: nat, box: HpkeBox, aad: string): Option<Key> {
    if box.HpkeBox? && box.recipientKey == secretKey && box.aad == aad then Some(box.seed) else None
  }

  /** Content of an e2ee_init or e2ee_rekey message; `version` is stripped text, "" when missing. */
  datatype InitContent = InitContent(
    version: string, sessionId: string, senderDid: Did, recipientDid: Did,
    box: HpkeBox, expires: Option<int>)

  /** Content of an e2ee_msg message. */
  datatype MsgContent = MsgContent(
    version: string, sessionId: string, seqNo: int, originalType: string, ciphertext: Ciphertext<string>)

  datatype Plain = Plain(originalType: string, text: string)

  datatype Error =
    WrongState | UnsupportedVersion | ProofInvalid | RecipientMismatch | OpenFailed
    | InvalidSeq | SeqOverflow | DecryptFailed

  /** The fields of E2eeHpkeSession, with those of its SeqManager. `hpkeKey` names the local
      X25519 key pair. */
  datatype Session = Session(
    localDid: Did, peerDid: Did, hpkeKey: nat, defaultExpires: int,
    state: SessionState, sessionId: Option<string>, sendCk: Option<Key>, recvCk: Option<Key>,
    seqs: SeqState, isInitiator: Option<bool>, expiresAt: Option<int>, activeAt: Option<int>)

  /** An active session has an id and both chain keys. */
  predicate WellFormed(s: Session) {
    s.state == Active ==> s.sessionId.Some? && s.sendCk.Some? && s.recvCk.Some?
  }

  function NewSession(localDid: Did, peerDid: Did, hpkeKey: nat, mode: SeqMode, expires: int): Session {
    Session(localDid, peerDid, hpkeKey, expires, Idle, None, None, None,
            Fresh(mode, DEFAULT_MAX_SKIP, DEFAULT_SKIP_KEY_TTL), None, None, None)
  }

  function SetupChainKeys(s: Session, rootSeed: Key, expires: int, now: int): Session {
    var (sendCk, recvCk) := StartKeys(rootSeed, s.localDid, s.peerDid);
    s.(state := Active, sendCk := Some(sendCk), recvCk := Some(recvCk),
       isInitiator := Some(DetermineDirection(s.localDid, s.peerDid)),
       activeAt := Some(now), expiresAt := Some(now + expires))
  }

  /** `freshId` and `rootSeed` are the random values drawn by the call. */
  function InitiateSession(s: Session, peerKey: nat, freshId: string, rootSeed: Key, now: int)
    : (Session, Result<InitContent, Error>)
  {
    if s.state != Idle then (s, Failure(WrongState))
    else
      var content := InitContent(E2EE_VERSION, freshId, s.localDid, s.peerDid,
                                 HpkeBox(peerKey, freshId, rootSeed), Some(s.defaultExpires));
      (SetupChainKeys(s.(sessionId := Some(freshId)), rootSeed, s.defaultExpires, now), Success(content))
  }

  /** `proofOk` is the verdict of validate_proof, which depends on the clock and the signer's key. */
  function ProcessInit(s: Session, content: InitContent, proofOk: bool, now: int)
    : (Session, Result<(), Error>)
  {
    if s.state != Idle then (s, Failure(WrongState))
    else if content.version != E2EE_VERSION then (s, Failure(UnsupportedVersion))
    else if !proofOk then (s, Failure(ProofInvalid))
    else if content.recipientDid != s.localDid then (s, Failure(RecipientMismatch))
    else
      match HpkeOpen(s.hpkeKey, content.box, content.sessionId)
      case None => (s, Failure(OpenFailed))
      case Some(rootSeed) =>
        var expires := if content.expires.Some? then content.expires.value else s.defaultExpires;
        (SetupChainKeys(s.(sessionId := Some(content.sessionId)), rootSeed, expires, now), Success(()))
  }

  /** Dropping the old incarnation; the session id stays until a new one is set. */
  function Wiped(s: Session): Session {
    s.(state := Idle, seqs := Reset(s.seqs), sendCk := None, recvCk := None)
  }

  function InitiateRekey(s: Session, peerKey: nat, freshId: string, rootSeed: Key, now: int)
    : (Session, Result<InitContent, Error>)
  {
    InitiateSession(Wiped(s), peerKey, freshId, rootSeed, now)
  }

  function ProcessRekey(s: Session, content: InitContent, proofOk: bool, now: int)
    : (Session, Result<(), Error>)
  {
    ProcessInit(Wiped(s), content, proofOk, now)
  }

  /** The sequence number is taken before the key derivation that may overflow. */
  function Encrypt(s: Session, originalType: string, text: string): (Session, Result<MsgContent, Error>)
    requires WellFormed(s)
  {
    if s.state != Active then (s, Failure(WrongState))
    else
      var seqNo := s.seqs.sendSeq;
      var taken := s.(seqs := s.seqs.(sendSeq := seqNo + 1));
      match DeriveMessageKey(s.sendCk.value, seqNo)
      case None => (taken, Failure(SeqOverflow))
      case Some(k) =>
        (taken.(sendCk := Some(k.nextCk)),
         Success(MsgContent(E2EE_VERSION, s.sessionId.value, seqNo, originalType,
                            Sealed(k.encKey, k.nonce, s.sessionId.value, text))))
  }

  /** The message key of the chain position `seqNo`, reached from the receive chain in one leap. */
  function KeyAt(s: Session, seqNo: int): Option<MessageKey>
    requires s.recvCk.Some? && s.seqs.recvSeq <= seqNo
  {
    DeriveMessageKey(Ratcheted(s.recvCk.value, seqNo - s.seqs.recvSeq), seqNo)
  }

  function Decrypt(s: Session, content: MsgContent, now: int): (Session, Result<Plain, Error>)
    requires WellFormed(s)
  {
    if s.state != Active then (s, Failure(WrongState))
    else if content.version != E2EE_VERSION then (s, Failure(UnsupportedVersion))
    else
      var seqNo := content.seqNo;
      var checked := s.(seqs := AfterCheck(s.seqs, seqNo, now));
      if !Accepts(s.seqs, seqNo, now) then (checked, Failure(InvalidSeq))
      else
        match KeyAt(s, seqNo)
        case None => (checked, Failure(SeqOverflow))
        case Some(k) =>
          match Open(content.ciphertext, k.encKey, k.nonce, s.sessionId.value)
          case None => (checked, Failure(DecryptFailed))
          case Some(text) =>
            (checked.(recvCk := Some(k.nextCk), seqs := Advance(Mark(checked.seqs, seqNo, now), seqNo)),
             Success(Plain(content.originalType, text)))
  }

  predicate IsExpired(s: Session, now: int) {
    s.expiresAt.Some? && now > s.expiresAt.value
  }

  class E2eeHpkeSession {
    const localDid: Did
    const peerDid: Did
    const hpkeKey: nat
    const defaultExpires: int
    const seqManager: SeqManager
    var state: SessionState
    var sessionId: Option<string>
    var sendChainKey: Option<Key>
    var recvChainKey: Option<Key>
    var isInitiator: Option<bool>
    var expiresAt: Option<int>
    var activeAt: Option<int>

    ghost function View(): Session
      reads this, seqManager
    {
      Session(localDid, peerDid, hpkeKey, defaultExpires, state, sessionId, sendChainKey, recvChainKey,
              seqManager.State(), isInitiator, expiresAt, activeAt)
    }

    ghost predicate Valid()
      reads this, seqManager
    {
      WellFormed(View())
    }

    constructor (localDid: Did, peerDid: Did, hpkeKey: nat, mode: SeqMode, defaultExpires: int)
      ensures Valid() && fresh(seqManager)
      ensures View() == NewSession(localDid, peerDid, hpkeKey, mode, defaultExpires)
    {
      this.localDid, this.peerDid, this.hpkeKey := localDid, peerDid, hpkeKey;
      this.defaultExpires := defaultExpires;
      seqManager := new SeqManager(mode, DEFAULT_MAX_SKIP, DEFAULT_SKIP_KEY_TTL);
      state, sessionId, sendChainKey, recvChainKey := Idle, None, None, None;
      isInitiator, expiresAt, activeAt := None, None, None;
    }

    method SetupKeys(rootSeed: Key, expires: int, now: int)
      modifies this
      ensures View() == SetupChainKeys(old(View()), rootSeed, expires, now)
    {
      var (initCk, respCk) := DeriveChainKeys(rootSeed);
      var initiator := DetermineDirection(localDid, peerDid);
      var (sendCk, recvCk) := AssignChainKeys(initCk, respCk, initiator);
      isInitiator, sendChainKey, recvChainKey := Some(initiator), Some(sendCk), Some(recvCk);
      activeAt := Some(now);
      expiresAt := Some(now + expires);
      state := Active;
    }

    method Initiate(peerKey: nat, freshId: string, rootSeed: Key, now: int)
      returns (r: Result<InitContent, Error>)
      requires Valid()
      modifies this
      ensures Valid()
      ensures (View(), r) == InitiateSession(old(View()), peerKey, freshId, rootSeed, now)
    {
      if state != Idle {
        return Failure(WrongState);
      }
      sessionId := Some(freshId);
      var content := InitContent(E2EE_VERSION, freshId, localDid, peerDid,
                                 HpkeBox(peerKey, freshId, rootSeed), Some(defaultExpires));
      SetupKeys(rootSeed, defaultExpires, now);
      return Success(content);
    }

    method OnInit(content: InitContent, proofOk: bool, now: int) returns (r: Result<(), Error>)
      requires Valid()
      modifies this
      ensures Valid()
      ensures (View(), r) == ProcessInit(old(View()), content, proofOk, now)
    {
      if state != Idle {
        return Failure(WrongState);
      }
      if content.version != E2EE_VERSION {
        return Failure(UnsupportedVersion);
      }
      var expires := if content.expires.Some? then content.expires.value else defaultExpires;
      if !proofOk {
        return Failure(ProofInvalid);
      }
      if content.recipientDid != localDid {
        return Failure(RecipientMismatch);
      }
      var rootSeed := HpkeOpen(hpkeKey, content.box, content.sessionId);
      if rootSeed.None? {
        return Failure(OpenFailed);
      }
      sessionId := Some(content.sessionId);
      SetupKeys(rootSeed.value, expires, now);
      return Success(());
    }

    method Rekey(peerKey: nat, freshId: string, rootSeed: Key, now: int)
      returns (r: Result<InitContent, Error>)
      requires Valid()
      modifies this, seqManager
      ensures Valid()
      ensures (View(), r) == InitiateRekey(old(View()), peerKey, freshId, rootSeed, now)
    {
      state := Idle;
      seqManager.ResetState();
      sendChainKey, recvChainKey := None, None;
      sessionId := Some(freshId);
      var content := InitContent(E2EE_VERSION, freshId, localDid, peerDid,
                                 HpkeBox(peerKey, freshId, rootSeed), Some(defaultExpires));
      SetupKeys(rootSeed, defaultExpires, now);
      return Success(content);
    }

    method OnRekey(content: InitContent, proofOk: bool, now: int) returns (r: Result<(), Error>)
      requires Valid()
      modifies this, seqManager
      ensures Valid()
      ensures (View(), r) == ProcessRekey(old(View()), content, proofOk, now)
    {
      state := Idle;
      seqManager.ResetState();
      sendChainKey, recvChainKey := None, None;
      r := OnInit(content, proofOk, now);
    }

    method EncryptMessage(originalType: string, text: string) returns (r: Result<MsgContent, Error>)
      requires Valid()
      modifies this, seqManager
      ensures Valid()
      ensures (View(), r) == Encrypt(old(View()), originalType, text)
    {
      if state != Active {
        return Failure(WrongState);
      }
      var seqNo := seqManager.NextSendSeq();
      var k := DeriveMessageKey(sendChainKey.value, seqNo);
      if k.None? {
        return Failure(SeqOverflow);
      }
      sendChainKey := Some(k.value.nextCk);
      var aad := sessionId.value;
      return Success(MsgContent(E2EE_VERSION, aad, seqNo, originalType,
                                Sealed(k.value.encKey, k.value.nonce, aad, text)));
    }

    /** The loop fast-forwards a copy of the receive chain; fields change only after decryption. */
    method DecryptMessage(content: MsgContent, now: int) returns (r: Result<Plain, Error>)
      requires Valid()
      modifies this, seqManager
      ensures Valid()
      ensures (View(), r) == Decrypt(old(View()), content, now)
    {
      if state != Active {
        return Failure(WrongState);
      }
      if content.version != E2EE_VERSION {
        return Failure(UnsupportedVersion);
      }
      var seqNo := content.seqNo;
      var ok := seqManager.ValidateRecvSeq(seqNo, now);
      if !ok {
        return Failure(InvalidSeq);
      }
      var current := seqManager.recvSeq;
      var tempChainKey := recvChainKey.value;
      for s := current to seqNo
        invariant tempChainKey == Ratcheted(recvChainKey.value, s - current)
        invariant s == current || s <= SEQ_LIMIT
      {
        var k := DeriveMessageKey(tempChainKey, s);
        if k.None? {
          return Failure(SeqOverflow);
        }
        tempChainKey := k.value.nextCk;
      }
      var k := DeriveMessageKey(tempChainKey, seqNo);
      if k.None? {
        return Failure(SeqOverflow);
      }
      var text := Open(content.ciphertext, k.value.encKey, k.value.nonce, sessionId.value);
      if text.None? {
        return Failure(DecryptFailed);
      }
      recvChainKey := Some(k.value.nextCk);
      seqManager.MarkSeqUsed(seqNo, now);
      seqManager.AdvanceRecvTo(seqNo);
      return Success(Plain(content.originalType, text.value));
    }
  }

  /** A failed decryption leaves both chain keys and the receive counter as they were. */
  lemma FailedDecryptKeepsChain(s: Session, content: MsgContent, now: int)
    requires WellFormed(s)
    ensures var (s', r) := Decrypt(s, content, now);
            && (r.Failure? ==> s' == s.(seqs := s'.seqs) && s'.seqs == s.seqs.(used := s'.seqs.used)
                               && s'.seqs.used.Keys <= s.seqs.used.Keys)
            && (r.Success? ==> s'.seqs.recvSeq == content.seqNo + 1 > s.seqs.recvSeq)
  {
  }

  /** After a rekey the session is the one a brand-new session would become by the same init;
      only a failed rekey keeps traces (the old id and times) of the former incarnation. */
  lemma RekeyIsFreshInit(s: Session, content: InitContent, proofOk: bool, now: int)
    requires s.seqs.maxSkip == DEFAULT_MAX_SKIP && s.seqs.ttl == DEFAULT_SKIP_KEY_TTL
    ensures var brandNew := NewSession(s.localDid, s.peerDid, s.hpkeKey, s.seqs.mode, s.defaultExpires);
            var (rekeyed, r) := ProcessRekey(s, content, proofOk, now);
            && r == ProcessInit(brandNew, content, proofOk, now).1
            && (r.Success? ==> rekeyed == ProcessInit(brandNew, content, proofOk, now).0)
            && (r.Failure? ==> rekeyed == Wiped(s))
  {
  }
}

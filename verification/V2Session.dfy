/** anp/anp/e2e_encryption_v2/session.py: the four-state handshake of one endpoint. */
module V2Sessions {
  import opened Wrappers

  type Did = string

  // ---- Ideal cryptography: names instead of numbers ----

  /** The Diffie-Hellman secret of two ephemeral key pairs, whichever side computes it. */
  datatype Secret = Secret(low: nat, high: nat)

  function Exchange(privateKey: nat, point: nat): Secret {
    if privateKey <= point then Secret(privateKey, point) else Secret(point, privateKey)
  }

  /** derive_tls13_data_keys; `context` is the source random and the destination random, joined. */
  datatype DataKey =
    | SourceKey(secret: Secret, context: string, length: nat)
    | DestinationKey(secret: Secret, context: string, length: nat)

  /** generate_16_char_from_random_num: the two randoms are joined here, too. */
  datatype KeyId = KeyId(context: string)

  /** A plaintext, with the secretKeyId that json.loads finds in it, if it finds one. */
  datatype Plain = Plain(text: string, keyId: Option<KeyId>)

  datatype Cipher = Sealed(key: DataKey, plain: Plain) | Junk(bytes: nat)

  function Open(c: Cipher, key: DataKey): Option<Plain> {
    if c.Sealed? && c.key == key then Some(c.plain) else None
  }

  /** Labels of the key derivation hold one byte for the length of the context. */
  const MAX_CONTEXT := 255

  function Utf8Length(text: string): nat {
    if text == "" then 0
    else
      (if text[0] < '\U{80}' then 1 else if text[0] < '\U{800}' then 2 else if text[0] < '\U{10000}' then 3 else 4)
      + Utf8Length(text[1..])
  }

  // ---- Messages ----

  const GROUP := "secp256r1"
  const AES_128 := "TLS_AES_128_GCM_SHA256"
  const DEFAULT_CIPHER_SUITES: seq<string> := [AES_128]

  /** `point` is absent when key_exchange is not the encoding of a curve point. */
  datatype KeyShare = KeyShare(group: string, expires: Option<int>, point: Option<nat>)

  datatype SourceHello = SourceHello(
    sessionId: string, sourceDid: Did, destinationDid: Did, random: string,
    cipherSuites: seq<string>, keyShares: seq<KeyShare>)

  datatype DestinationHello = DestinationHello(
    sessionId: string, sourceDid: Did, destinationDid: Did, random: string,
    cipherSuite: string, keyShare: KeyShare)

  datatype Finished = Finished(sessionId: string, verifyData: Option<Cipher>)

  datatype DataMessage = DataMessage(secretKeyId: Option<KeyId>, originalType: string, encrypted: Cipher)

  datatype Error =
    WrongState | ProofInvalid | NoCommonSuite | NoKeyShare | WrongGroup | BadPoint | UnknownSuite
    | RandomsTooLong | WrongKeyLength | NoVerifyData | DecryptFailed | NoKeyId | KeyIdMismatch

  datatype SessionState = Idle | Initiated | Completing | Active

  /** The fields of E2eeSession; `eph` names the ephemeral key pair. */
  datatype Session = Session(
    localDid: Did, peerDid: Did, sessionId: string, defaultExpires: int, eph: nat, localRandom: string, createdAt: int,
    peerRandom: Option<string>, isInitiator: Option<bool>, sendKey: Option<DataKey>, recvKey: Option<DataKey>,
    secretKeyId: Option<KeyId>, cipherSuite: Option<string>, keyExpires: Option<int>, activeAt: Option<int>,
    state: SessionState)

  /** Keys and role are present from the moment the endpoint has sent its Finished, and the cipher takes the keys. */
  predicate WellFormed(s: Session) {
    && (s.state in {Completing, Active} ==>
          && s.peerRandom.Some? && s.isInitiator.Some? && s.sendKey.Some? && s.recvKey.Some?
          && s.sendKey.value.length == CIPHER_KEY_LENGTH)
    && (s.state == Initiated ==> s.isInitiator == Some(true))
  }

  function NewSession(localDid: Did, peerDid: Did, sessionId: string, expires: int, eph: nat, random: string, now: int)
    : Session
  {
    Session(localDid, peerDid, sessionId, expires, eph, random, now,
            None, None, None, None, None, None, None, None, Idle)
  }

  function LocalKeyShare(s: Session): KeyShare {
    KeyShare(GROUP, Some(s.defaultExpires), Some(s.eph))
  }

  /** get_key_length_from_cipher_suite */
  function KeyLength(suite: string): Option<nat> {
    if suite == AES_128 then Some(16)
    else if suite == "TLS_AES_256_GCM_SHA384" then Some(32)
    else if suite == "TLS_CHACHA20_POLY1305_SHA256" then Some(32)
    else None
  }

  function FirstCommon(mine: seq<string>, theirs: seq<string>): Option<string> {
    if mine == [] then None
    else if mine[0] in theirs then Some(mine[0])
    else FirstCommon(mine[1..], theirs)
  }

  function FirstShare(shares: seq<KeyShare>): Option<KeyShare> {
    if shares == [] then None
    else if shares[0].group == GROUP then Some(shares[0])
    else FirstShare(shares[1..])
  }

  function Min(a: int, b: int): int { if a <= b then a else b }

  function ShareExpires(share: KeyShare, default: int): int {
    Min(if share.expires.Some? then share.expires.value else default, default)
  }

  /** Source random and destination random, joined as an endpoint in the given role does. */
  function Joined(local: string, peer: string, initiator: bool): string {
    if initiator then local + peer else peer + local
  }

  /** (send key, receive key) */
  function DataKeys(secret: Secret, context: string, length: nat, initiator: bool): (DataKey, DataKey) {
    var sourceKey := SourceKey(secret, context, length);
    var destinationKey := DestinationKey(secret, context, length);
    if initiator then (sourceKey, destinationKey) else (destinationKey, sourceKey)
  }

  /** _derive_keys */
  function WithKeys(s: Session, point: Option<nat>, initiator: bool): Result<Session, Error>
    requires s.peerRandom.Some? && s.cipherSuite.Some?
  {
    var context := Joined(s.localRandom, s.peerRandom.value, initiator);
    if point.None? then Failure(BadPoint)
    else if KeyLength(s.cipherSuite.value).None? then Failure(UnknownSuite)
    else if Utf8Length(context) > MAX_CONTEXT then Failure(RandomsTooLong)
    else
      var (sendKey, recvKey) := DataKeys(Exchange(s.eph, point.value), context, KeyLength(s.cipherSuite.value).value,
                                         initiator);
      Success(s.(sendKey := Some(sendKey), recvKey := Some(recvKey)))
  }

  /** The only cipher in use is AES-128-GCM, whatever suite was selected. */
  const CIPHER_KEY_LENGTH := 16

  function BuildFinished(sessionId: string, sourceRandom: string, destinationRandom: string, sendKey: DataKey)
    : Result<Finished, Error>
  {
    if sendKey.length != CIPHER_KEY_LENGTH then Failure(WrongKeyLength)
    else
      var keyId := KeyId(sourceRandom + destinationRandom);
      Success(Finished(sessionId, Some(Sealed(sendKey, Plain("secretKeyId", Some(keyId))))))
  }

  function InitiateHandshake(s: Session): (Session, Result<SourceHello, Error>) {
    if s.state != Idle then (s, Failure(WrongState))
    else
      (s.(isInitiator := Some(true), state := Initiated),
       Success(SourceHello(s.sessionId, s.localDid, s.peerDid, s.localRandom,
                           DEFAULT_CIPHER_SUITES, [LocalKeyShare(s)])))
  }

  /** The end of process_source_hello: keys, answer and Finished. */
  function AnswerHello(s: Session, point: Option<nat>): (Session, Result<(DestinationHello, Finished), Error>)
    requires s.peerRandom.Some? && s.cipherSuite.Some?
  {
    match WithKeys(s, point, false)
    case Failure(error) => (s, Failure(error))
    case Success(t) =>
      match BuildFinished(s.sessionId, s.peerRandom.value, s.localRandom, t.sendKey.value)
      case Failure(error) => (t, Failure(error))
      case Success(finished) =>
        (t.(state := Completing),
         Success((DestinationHello(s.sessionId, s.localDid, s.peerDid, s.localRandom, s.cipherSuite.value,
                                   LocalKeyShare(s)),
                  finished)))
  }

  /** A failing call keeps whatever it had assigned before the failure; the state stays IDLE. */
  function ProcessSourceHello(s: Session, c: SourceHello, proofOk: bool)
    : (Session, Result<(DestinationHello, Finished), Error>)
  {
    if s.state != Idle then (s, Failure(WrongState))
    else
      var s1 := s.(isInitiator := Some(false));
      if !proofOk then (s1, Failure(ProofInvalid))
      else
        var s2 := s1.(sessionId := c.sessionId, peerRandom := Some(c.random),
                      cipherSuite := FirstCommon(DEFAULT_CIPHER_SUITES, c.cipherSuites));
        if s2.cipherSuite.None? then (s2, Failure(NoCommonSuite))
        else
          var share := FirstShare(c.keyShares);
          if share.None? then (s2, Failure(NoKeyShare))
          else
            var s3 := s2.(keyExpires := Some(ShareExpires(share.value, s.defaultExpires)));
            AnswerHello(s3, share.value.point)
  }

  function ProcessDestinationHello(s: Session, c: DestinationHello, proofOk: bool)
    : (Session, Result<Finished, Error>)
  {
    if s.state != Initiated then (s, Failure(WrongState))
    else if !proofOk then (s, Failure(ProofInvalid))
    else
      var s1 := s.(peerRandom := Some(c.random), cipherSuite := Some(c.cipherSuite));
      if c.keyShare.group != GROUP then (s1, Failure(WrongGroup))
      else
        var s2 := s1.(keyExpires := Some(ShareExpires(c.keyShare, s.defaultExpires)));
        match WithKeys(s2, c.keyShare.point, s.isInitiator == Some(true))
        case Failure(error) => (s2, Failure(error))
        case Success(s3) =>
          match BuildFinished(s.sessionId, s.localRandom, c.random, s3.sendKey.value)
          case Failure(error) => (s3, Failure(error))
          case Success(finished) => (s3.(state := Completing), Success(finished))
  }

  /** The two randoms as the endpoint joins them. */
  function Context(s: Session): string
    requires s.peerRandom.Some? && s.isInitiator.Some?
  {
    Joined(s.localRandom, s.peerRandom.value, s.isInitiator.value)
  }

  function ExpectedKeyId(s: Session): KeyId
    requires s.peerRandom.Some? && s.isInitiator.Some?
  {
    KeyId(Context(s))
  }

  function ProcessFinished(s: Session, c: Finished, now: int): (Session, Result<(), Error>)
    requires WellFormed(s)
  {
    if s.state != Completing then (s, Failure(WrongState))
    else if c.verifyData.None? then (s, Failure(NoVerifyData))
    else
      match Open(c.verifyData.value, s.recvKey.value)
      case None => (s, Failure(DecryptFailed))
      case Some(plain) =>
        if plain.keyId.None? then (s, Failure(NoKeyId))
        else if plain.keyId.value != ExpectedKeyId(s) then (s, Failure(KeyIdMismatch))
        else (s.(secretKeyId := Some(ExpectedKeyId(s)), activeAt := Some(now), state := Active), Success(()))
  }

  /** is_expired */
  predicate IsExpired(s: Session, now: int) {
    s.activeAt.Some? && s.keyExpires.Some? && now > s.activeAt.value + s.keyExpires.value
  }

  function Encrypt(s: Session, originalType: string, plain: Plain): Result<DataMessage, Error>
    requires WellFormed(s)
  {
    if s.state != Active then Failure(WrongState)
    else Success(DataMessage(s.secretKeyId, originalType, Sealed(s.sendKey.value, plain)))
  }

  function Decrypt(s: Session, c: DataMessage): Result<Plain, Error>
    requires WellFormed(s)
  {
    if s.state != Active then Failure(WrongState)
    else
      match Open(c.encrypted, s.recvKey.value)
      case None => Failure(DecryptFailed)
      case Some(plain) => Success(plain)
  }

  class E2eeSession {
    const localDid: Did
    const peerDid: Did
    const defaultExpires: int
    const eph: nat
    const localRandom: string
    const createdAt: int
    var sessionId: string
    var peerRandom: Option<string>
    var isInitiator: Option<bool>
    var sendKey: Option<DataKey>
    var recvKey: Option<DataKey>
    var secretKeyId: Option<KeyId>
    var cipherSuite: Option<string>
    var keyExpires: Option<int>
    var activeAt: Option<int>
    var state: SessionState

    function View(): Session
      reads this
    {
      Session(localDid, peerDid, sessionId, defaultExpires, eph, localRandom, createdAt, peerRandom, isInitiator,
              sendKey, recvKey, secretKeyId, cipherSuite, keyExpires, activeAt, state)
    }

    ghost predicate Valid()
      reads this
    {
      WellFormed(View())
    }

    constructor (localDid: Did, peerDid: Did, sessionId: string, expires: int, eph: nat, random: string, now: int)
      ensures Valid() && View() == NewSession(localDid, peerDid, sessionId, expires, eph, random, now)
    {
      this.localDid, this.peerDid, this.sessionId := localDid, peerDid, sessionId;
      this.defaultExpires, this.eph, this.localRandom, createdAt := expires, eph, random, now;
      peerRandom, isInitiator, sendKey, recvKey, secretKeyId := None, None, None, None, None;
      cipherSuite, keyExpires, activeAt, state := None, None, None, Idle;
    }

    method DeriveKeys(point: Option<nat>) returns (r: Result<(), Error>)
      requires peerRandom.Some? && isInitiator.Some? && cipherSuite.Some?
      modifies `sendKey, `recvKey
      ensures match WithKeys(old(View()), point, isInitiator.value)
              case Failure(error) => r == Failure(error) && View() == old(View())
              case Success(s) => r == Success(()) && View() == s
    {
      if point.None? {
        return Failure(BadPoint);
      }
      var secret := Exchange(eph, point.value);
      var length := KeyLength(cipherSuite.value);
      if length.None? {
        return Failure(UnknownSuite);
      }
      var sourceRandom, destinationRandom;
      if isInitiator.value {
        sourceRandom, destinationRandom := localRandom, peerRandom.value;
      } else {
        sourceRandom, destinationRandom := peerRandom.value, localRandom;
      }
      var context := sourceRandom + destinationRandom;
      if Utf8Length(context) > MAX_CONTEXT {
        return Failure(RandomsTooLong);
      }
      var sourceKey := SourceKey(secret, context, length.value);
      var destinationKey := DestinationKey(secret, context, length.value);
      if isInitiator.value {
        sendKey, recvKey := Some(sourceKey), Some(destinationKey);
      } else {
        sendKey, recvKey := Some(destinationKey), Some(sourceKey);
      }
      return Success(());
    }

    method Initiate() returns (r: Result<SourceHello, Error>)
      requires Valid()
      modifies this
      ensures Valid() && (View(), r) == InitiateHandshake(old(View()))
    {
      if state != Idle {
        return Failure(WrongState);
      }
      isInitiator := Some(true);
      var content := SourceHello(sessionId, localDid, peerDid, localRandom, DEFAULT_CIPHER_SUITES,
                                 [KeyShare(GROUP, Some(defaultExpires), Some(eph))]);
      state := Initiated;
      return Success(content);
    }

    method SelectSuite(theirs: seq<string>) returns (suite: Option<string>)
      ensures suite == FirstCommon(DEFAULT_CIPHER_SUITES, theirs)
    {
      for i := 0 to |DEFAULT_CIPHER_SUITES|
        invariant FirstCommon(DEFAULT_CIPHER_SUITES, theirs) == FirstCommon(DEFAULT_CIPHER_SUITES[i..], theirs)
      {
        if DEFAULT_CIPHER_SUITES[i] in theirs {
          return Some(DEFAULT_CIPHER_SUITES[i]);
        }
      }
      return None;
    }

    method SelectShare(shares: seq<KeyShare>) returns (share: Option<KeyShare>)
      ensures share == FirstShare(shares)
    {
      for i := 0 to |shares|
        invariant FirstShare(shares) == FirstShare(shares[i..])
      {
        if shares[i].group == GROUP {
          return Some(shares[i]);
        }
      }
      return None;
    }

    /** The end of process_source_hello. */
    method Answer(point: Option<nat>) returns (r: Result<(DestinationHello, Finished), Error>)
      requires peerRandom.Some? && cipherSuite.Some? && isInitiator == Some(false)
      modifies `sendKey, `recvKey, `state
      ensures (View(), r) == AnswerHello(old(View()), point)
    {
      var derived := DeriveKeys(point);
      if derived.Failure? {
        return Failure(derived.error);
      }
      var hello := DestinationHello(sessionId, localDid, peerDid, localRandom, cipherSuite.value,
                                    KeyShare(GROUP, Some(defaultExpires), Some(eph)));
      var finished := BuildFinished(sessionId, peerRandom.value, localRandom, sendKey.value);
      if finished.Failure? {
        return Failure(finished.error);
      }
      state := Completing;
      return Success((hello, finished.value));
    }

    method OnSourceHello(c: SourceHello, proofOk: bool) returns (r: Result<(DestinationHello, Finished), Error>)
      requires Valid()
      modifies this
      ensures Valid() && (View(), r) == ProcessSourceHello(old(View()), c, proofOk)
    {
      if state != Idle {
        return Failure(WrongState);
      }
      isInitiator := Some(false);
      if !proofOk {
        return Failure(ProofInvalid);
      }
      sessionId, peerRandom := c.sessionId, Some(c.random);
      cipherSuite := SelectSuite(c.cipherSuites);
      if cipherSuite.None? {
        return Failure(NoCommonSuite);
      }
      var share := SelectShare(c.keyShares);
      if share.None? {
        return Failure(NoKeyShare);
      }
      var peerExpires := if share.value.expires.Some? then share.value.expires.value else defaultExpires;
      keyExpires := Some(Min(peerExpires, defaultExpires));
      r := Answer(share.value.point);
    }

    method OnDestinationHello(c: DestinationHello, proofOk: bool) returns (r: Result<Finished, Error>)
      requires Valid()
      modifies this
      ensures Valid() && (View(), r) == ProcessDestinationHello(old(View()), c, proofOk)
    {
      if state != Initiated {
        return Failure(WrongState);
      }
      if !proofOk {
        return Failure(ProofInvalid);
      }
      peerRandom, cipherSuite := Some(c.random), Some(c.cipherSuite);
      if c.keyShare.group != GROUP {
        return Failure(WrongGroup);
      }
      var peerExpires := if c.keyShare.expires.Some? then c.keyShare.expires.value else defaultExpires;
      keyExpires := Some(Min(peerExpires, defaultExpires));
      var derived := DeriveKeys(c.keyShare.point);
      if derived.Failure? {
        return Failure(derived.error);
      }
      var finished := BuildFinished(sessionId, localRandom, peerRandom.value, sendKey.value);
      if finished.Failure? {
        return Failure(finished.error);
      }
      state := Completing;
      return finished;
    }

    method OnFinished(c: Finished, now: int) returns (r: Result<(), Error>)
      requires Valid()
      modifies this
      ensures Valid() && (View(), r) == ProcessFinished(old(View()), c, now)
    {
      if state != Completing {
        return Failure(WrongState);
      }
      if c.verifyData.None? {
        return Failure(NoVerifyData);
      }
      var plain := Open(c.verifyData.value, recvKey.value);
      if plain.None? {
        return Failure(DecryptFailed);
      }
      if plain.value.keyId.None? {
        return Failure(NoKeyId);
      }
      var expected;
      if isInitiator.value {
        expected := KeyId(localRandom + peerRandom.value);
      } else {
        expected := KeyId(peerRandom.value + localRandom);
      }
      if plain.value.keyId.value != expected {
        return Failure(KeyIdMismatch);
      }
      secretKeyId, activeAt, state := Some(expected), Some(now), Active;
      return Success(());
    }
  }

  /** Both sides compute the same secret. */
  lemma ExchangeSymmetric(a: nat, b: nat)
    ensures Exchange(a, b) == Exchange(b, a)
  {
  }
}

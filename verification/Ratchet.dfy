/** anp/anp/e2e_encryption_hpke/ratchet.py: the hash ratchet of the private and the group chat.

    Cryptography is ideal: every derived key is a term of a free algebra, so two keys are equal
    exactly when they were derived the same way from the same random seed. */
module Ratchet {
  import opened Wrappers

  type Did = string

  datatype Key =
    | Seed(id: nat)                    // 32 bytes of os.urandom
    | InitCk(seed: Key)
    | RespCk(seed: Key)
    | NextCk(ck: Key)
    | MsgKey(ck: Key, seqNo: nat)
    | GroupNextCk(ck: Key)
    | GroupMsgKey(ck: Key, seqNo: nat)
    | EncKey(msgKey: Key)
    | Nonce(msgKey: Key)

  /** The random seed a key was derived from. */
  function RootOf(k: Key): Key {
    match k
    case Seed(_) => k
    case InitCk(s) => RootOf(s)
    case RespCk(s) => RootOf(s)
    case NextCk(c) => RootOf(c)
    case MsgKey(c, _) => RootOf(c)
    case GroupNextCk(c) => RootOf(c)
    case GroupMsgKey(c, _) => RootOf(c)
    case EncKey(m) => RootOf(m)
    case Nonce(m) => RootOf(m)
  }

  /** AES-128-GCM as an ideal authenticated cipher, with associated data of type A. */
  datatype Ciphertext<A> =
    | Sealed(key: Key, nonce: Key, aad: A, plaintext: string)
    | Junk(bytes: nat)

  function Open<A(==)>(c: Ciphertext<A>, key: Key, nonce: Key, aad: A): Option<string> {
    if c.Sealed? && c.key == key && c.nonce == nonce && c.aad == aad then Some(c.plaintext) else None
  }

  function DeriveChainKeys(rootSeed: Key): (Key, Key) {
    (InitCk(rootSeed), RespCk(rootSeed))
  }

  /** Python's order on the UTF-8 bytes of two DIDs; UTF-8 keeps the order of the code points. */
  predicate BytesLess(a: Did, b: Did) {
    if b == [] then false
    else if a == [] then true
    else if a[0] != b[0] then a[0] < b[0]
    else BytesLess(a[1..], b[1..])
  }

  predicate DetermineDirection(localDid: Did, peerDid: Did) {
    BytesLess(localDid, peerDid)
  }

  function AssignChainKeys(initCk: Key, respCk: Key, isInitiator: bool): (Key, Key) {
    if isInitiator then (initCk, respCk) else (respCk, initCk)
  }

  /** The (send, receive) chain keys an endpoint starts with. */
  function StartKeys(rootSeed: Key, localDid: Did, peerDid: Did): (Key, Key) {
    var (initCk, respCk) := DeriveChainKeys(rootSeed);
    AssignChainKeys(initCk, respCk, DetermineDirection(localDid, peerDid))
  }

  // seq.to_bytes(8, "big") raises OverflowError outside this range.
  const SEQ_LIMIT: nat := 0x1_0000_0000_0000_0000

  datatype MessageKey = MessageKey(encKey: Key, nonce: Key, nextCk: Key)

  function DeriveMessageKey(ck: Key, seqNo: int): Option<MessageKey> {
    if 0 <= seqNo < SEQ_LIMIT
    then Some(MessageKey(EncKey(MsgKey(ck, seqNo)), Nonce(MsgKey(ck, seqNo)), NextCk(ck)))
    else None
  }

  function DeriveGroupMessageKey(ck: Key, seqNo: int): Option<MessageKey> {
    if 0 <= seqNo < SEQ_LIMIT
    then Some(MessageKey(EncKey(GroupMsgKey(ck, seqNo)), Nonce(GroupMsgKey(ck, seqNo)), GroupNextCk(ck)))
    else None
  }

  /** The n-fold ratchet. */
  function Ratcheted(ck: Key, n: nat): Key {
    if n == 0 then ck else NextCk(Ratcheted(ck, n - 1))
  }

  function GroupRatcheted(ck: Key, n: nat): Key {
    if n == 0 then ck else GroupNextCk(GroupRatcheted(ck, n - 1))
  }

  /** Exactly one of two endpoints with distinct DIDs is the initiator; with equal DIDs neither is. */
  lemma {:induction false} OneInitiator(a: Did, b: Did)
    ensures a != b <==> (DetermineDirection(a, b) != DetermineDirection(b, a))
    ensures a == b ==> !DetermineDirection(a, b)
  {
    if a != [] && b != [] && a[0] == b[0] {
      OneInitiator(a[1..], b[1..]);
      assert a == [a[0]] + a[1..] && b == [b[0]] + b[1..];
    }
  }

  /** Two endpoints hold mirror-image chain keys exactly when their DIDs differ. */
  lemma StartKeysMirror(rootSeed: Key, a: Did, b: Did)
    ensures a != b <==>
              StartKeys(rootSeed, a, b).0 == StartKeys(rootSeed, b, a).1
              && StartKeys(rootSeed, a, b).1 == StartKeys(rootSeed, b, a).0
  {
    OneInitiator(a, b);
    OneInitiator(b, a);
  }

  lemma {:induction false} RatchetedAdd(ck: Key, m: nat, n: nat)
    ensures Ratcheted(Ratcheted(ck, m), n) == Ratcheted(ck, m + n)
  {
    if n > 0 {
      RatchetedAdd(ck, m, n - 1);
    }
  }

  lemma {:induction false} RatchetedInjective(ck: Key, dk: Key, n: nat)
    requires Ratcheted(ck, n) == Ratcheted(dk, n)
    ensures ck == dk
  {
    if n > 0 {
      RatchetedInjective(ck, dk, n - 1);
    }
  }

  lemma {:induction false} RatchetedRoot(ck: Key, n: nat)
    ensures RootOf(Ratcheted(ck, n)) == RootOf(ck)
  {
    if n > 0 {
      RatchetedRoot(ck, n - 1);
    }
  }
}

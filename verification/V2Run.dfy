/** Whole runs of any number of E2eeSession endpoints over a network that drops, duplicates, reorders, misroutes and
    rewrites their messages, signs hellos of its own, and makes up ciphertexts. */
module V2Runs {
  import opened Wrappers
  import opened V2Sessions

  /** What an endpoint derived its keys from: the key share of a hello, and the DID the hello came with. */
  datatype Offer = Offer(share: KeyShare, sourceDid: Did)

  /** `used` records the offer each endpoint used, `sealed` every ciphertext with the endpoint that produced it. */
  datatype World = World(eps: seq<Session>, used: map<nat, Offer>, sealed: set<(nat, Cipher)>)

  datatype Event =
    | Initiate(i: nat)
    | OnSource(i: nat, hello: SourceHello, proofOk: bool)
    | OnDestination(i: nat, answer: DestinationHello, proofOk: bool)
    | OnFinished(i: nat, finished: Finished, now: int)
    | SendData(i: nat, originalType: string, plain: Plain)

  ghost predicate Honest(w: World, eph: nat) {
    exists k :: 0 <= k < |w.eps| && w.eps[k].eph == eph
  }

  /** The network replays any ciphertext it has seen, and seals what it likes under any key whose
      Diffie-Hellman secret it can know: one with an ephemeral key that no endpoint owns. */
  ghost predicate Deliverable(w: World, c: Cipher) {
    || c.Junk?
    || (exists j: nat :: (j, c) in w.sealed)
    || !Honest(w, c.key.secret.low) || !Honest(w, c.key.secret.high)
  }

  /** The proof of a hello is checked against a key the hello itself carries, so any hello may pass; only the ciphertext
      of a Finished is constrained. */
  ghost predicate Allowed(w: World, e: Event) {
    && e.i < |w.eps|
    && (e.OnFinished? ==> e.finished.verifyData.Some? ==> Deliverable(w, e.finished.verifyData.value))
  }

  function WithEnd(w: World, i: nat, s: Session): World
    requires i < |w.eps|
  {
    w.(eps := w.eps[i := s])
  }

  function AfterInitiate(w: World, i: nat): World
    requires i < |w.eps|
  {
    WithEnd(w, i, InitiateHandshake(w.eps[i]).0)
  }

  function AfterSource(w: World, i: nat, c: SourceHello, proofOk: bool): World
    requires i < |w.eps|
  {
    var (s, r) := ProcessSourceHello(w.eps[i], c, proofOk);
    if r.Failure? then WithEnd(w, i, s)
    else WithEnd(w, i, s).(used := w.used[i := Offer(FirstShare(c.keyShares).value, c.sourceDid)],
                           sealed := w.sealed + {(i, r.value.1.verifyData.value)})
  }

  function AfterDestination(w: World, i: nat, c: DestinationHello, proofOk: bool): World
    requires i < |w.eps|
  {
    var (s, r) := ProcessDestinationHello(w.eps[i], c, proofOk);
    if r.Failure? then WithEnd(w, i, s)
    else WithEnd(w, i, s).(used := w.used[i := Offer(c.keyShare, c.sourceDid)],
                           sealed := w.sealed + {(i, r.value.verifyData.value)})
  }

  function AfterFinished(w: World, i: nat, c: Finished, now: int): World
    requires i < |w.eps| && WellFormed(w.eps[i])
  {
    WithEnd(w, i, ProcessFinished(w.eps[i], c, now).0)
  }

  function AfterData(w: World, i: nat, originalType: string, plain: Plain): World
    requires i < |w.eps| && WellFormed(w.eps[i])
  {
    var r := Encrypt(w.eps[i], originalType, plain);
    if r.Failure? then w else w.(sealed := w.sealed + {(i, r.value.encrypted)})
  }

  function Step(w: World, e: Event): World
    requires e.i < |w.eps| && WellFormed(w.eps[e.i])
  {
    match e
    case Initiate(i) => AfterInitiate(w, i)
    case OnSource(i, c, proofOk) => AfterSource(w, i, c, proofOk)
    case OnDestination(i, c, proofOk) => AfterDestination(w, i, c, proofOk)
    case OnFinished(i, c, now) => AfterFinished(w, i, c, now)
    case SendData(i, originalType, plain) => AfterData(w, i, originalType, plain)
  }

  /** The randoms that endpoints draw: 32 bytes in hexadecimal. */
  const RANDOM_LENGTH := 64

  predicate IsHex(text: string) {
    forall c :: c in text ==> '0' <= c <= '9' || 'a' <= c <= 'f'
  }

  predicate IsRandom(random: string) {
    |random| == RANDOM_LENGTH && IsHex(random)
  }

  /** Any number of fresh endpoints with distinct ephemeral keys and distinct randoms. */
  ghost predicate Initial(w: World) {
    && w.used == map[] && w.sealed == {}
    && (forall k :: 0 <= k < |w.eps| ==> IsNew(w.eps[k]))
    && Distinct(w)
  }

  predicate IsNew(s: Session) {
    s == NewSession(s.localDid, s.peerDid, s.sessionId, s.defaultExpires, s.eph, s.localRandom, s.createdAt)
  }

  ghost predicate Distinct(w: World) {
    && (forall k :: 0 <= k < |w.eps| ==> IsRandom(w.eps[k].localRandom))
    && (forall k, l :: 0 <= k < l < |w.eps| ==>
      w.eps[k].eph != w.eps[l].eph && w.eps[k].localRandom != w.eps[l].localRandom)
  }

  ghost predicate IsStep(u: World, e: Event, w: World) {
    Allowed(u, e) && WellFormed(u.eps[e.i]) && w == Step(u, e)
  }

  ghost predicate Run(ws: seq<World>, es: seq<Event>) {
    |ws| == |es| + 1 && forall i :: 0 <= i < |es| ==> IsStep(ws[i], es[i], ws[i + 1])
  }

  ghost predicate Reachable(w: World) {
    exists ws, es :: Run(ws, es) && Initial(ws[0]) && w == ws[|es|]
  }

  // ---- The invariant ----

  predicate Done(s: Session) {
    s.state == Completing || s.state == Active
  }

  /** Endpoint `s` has derived its keys from `share`. */
  predicate Keyed(s: Session, share: KeyShare) {
    && share.point.Some? && s.peerRandom.Some? && s.isInitiator.Some?
    && s.cipherSuite == Some(AES_128)
    && s.keyExpires == Some(ShareExpires(share, s.defaultExpires))
    && var (sendKey, recvKey) := DataKeys(Exchange(s.eph, share.point.value), Context(s), CIPHER_KEY_LENGTH,
                                          s.isInitiator.value);
       s.sendKey == Some(sendKey) && s.recvKey == Some(recvKey)
  }

  /** What an active endpoint `s` may conclude about its partner `p`. */
  predicate Mirror(s: Session, p: Session) {
    && Done(p) && s.isInitiator.Some? && p.isInitiator == Some(!s.isInitiator.value)
    && s.sendKey.Some? && s.sendKey == p.recvKey && s.recvKey.Some? && s.recvKey == p.sendKey
    && s.peerRandom.Some? && p.peerRandom.Some? && Context(s) == Context(p)
    && s.cipherSuite == p.cipherSuite
  }

  /** Each has derived its keys from the other's share. */
  predicate SharesMatch(w: World, i: nat, j: nat)
    requires i < |w.eps| && j < |w.eps|
  {
    && i in w.used && w.used[i].share.point == Some(w.eps[j].eph)
    && j in w.used && w.used[j].share.point == Some(w.eps[i].eph)
  }

  /** The share that endpoint `k` used belongs to some endpoint of the run. */
  ghost predicate HonestShare(w: World, k: nat) {
    k in w.used && w.used[k].share.point.Some? && Honest(w, w.used[k].share.point.value)
  }

  ghost predicate KeysOk(w: World, k: nat)
    requires k < |w.eps|
  {
    Done(w.eps[k]) ==> k in w.used && Keyed(w.eps[k], w.used[k].share)
  }

  ghost predicate HasMirror(w: World, k: nat)
    requires k < |w.eps|
  {
    exists p: nat :: p < |w.eps| && p != k && Mirror(w.eps[k], w.eps[p]) && SharesMatch(w, k, p)
  }

  ghost predicate ActiveOk(w: World, k: nat)
    requires k < |w.eps|
  {
    w.eps[k].state == Active ==>
      && WellFormed(w.eps[k]) && w.eps[k].secretKeyId == Some(ExpectedKeyId(w.eps[k]))
      && (HonestShare(w, k) ==> HasMirror(w, k))
  }

  predicate SealedOk(w: World, j: nat, c: Cipher) {
    j < |w.eps| && c.Sealed? && Done(w.eps[j]) && w.eps[j].sendKey == Some(c.key)
  }

  ghost predicate Inv(w: World) {
    && Distinct(w)
    && (forall k :: 0 <= k < |w.eps| ==> WellFormed(w.eps[k]) && KeysOk(w, k) && ActiveOk(w, k))
    && (forall j, c :: (j, c) in w.sealed ==> SealedOk(w, j, c))
  }

  // ---- Preservation ----

  /** What an endpoint never changes, and what it no longer changes once its keys are derived. */
  predicate Evolves(s: Session, t: Session) {
    && t.eph == s.eph && t.localRandom == s.localRandom && t.defaultExpires == s.defaultExpires
    && (Done(s) ==>
          && Done(t) && t.isInitiator == s.isInitiator && t.peerRandom == s.peerRandom
          && t.sendKey == s.sendKey && t.recvKey == s.recvKey
          && t.keyExpires == s.keyExpires && t.cipherSuite == s.cipherSuite)
    && (s.state == Active ==> t.state == Active && t.secretKeyId == s.secretKeyId)
  }

  /** `v` is `w` after endpoint `i` has moved to `v.eps[i]`; a share, once used, stays. */
  ghost predicate Moves(w: World, v: World, i: nat) {
    && i < |w.eps| == |v.eps| && v.eps == w.eps[i := v.eps[i]] && Evolves(w.eps[i], v.eps[i])
    && (forall k: nat :: k in w.used && (k != i || Done(w.eps[i])) ==> k in v.used && v.used[k] == w.used[k])
    && (forall k: nat :: k in v.used && k != i ==> k in w.used)
  }

  lemma HonestStays(w: World, v: World, i: nat, eph: nat)
    requires Moves(w, v, i)
    ensures Honest(v, eph) <==> Honest(w, eph)
  {
    if Honest(w, eph) {
      var k :| 0 <= k < |w.eps| && w.eps[k].eph == eph;
      assert v.eps[k].eph == eph;
    }
    if Honest(v, eph) {
      var k :| 0 <= k < |v.eps| && v.eps[k].eph == eph;
      assert w.eps[k].eph == eph;
    }
  }

  lemma MirrorStays(w: World, v: World, i: nat, k: nat)
    requires Moves(w, v, i) && k < |w.eps| && Done(w.eps[k]) && KeysOk(w, k)
    requires forall p: nat :: p < |w.eps| ==> KeysOk(w, p)
    requires HasMirror(w, k)
    ensures HasMirror(v, k)
  {
    var p: nat :| p < |w.eps| && p != k && Mirror(w.eps[k], w.eps[p]) && SharesMatch(w, k, p);
    assert KeysOk(w, p);
    assert Mirror(v.eps[k], v.eps[p]) && SharesMatch(v, k, p);
  }

  lemma OthersStay(w: World, v: World, i: nat, k: nat)
    requires Moves(w, v, i) && k < |w.eps| && (k != i || v.eps[i] == w.eps[i])
    requires forall p: nat :: p < |w.eps| ==> KeysOk(w, p)
    requires ActiveOk(w, k)
    ensures KeysOk(v, k) && ActiveOk(v, k)
  {
    assert KeysOk(w, k);
    if w.eps[k].state == Active && HonestShare(v, k) {
      HonestStays(w, v, i, w.used[k].share.point.value);
      MirrorStays(w, v, i, k);
    }
  }

  /** The invariant survives a move as far as the mover and the new ciphertexts are not concerned. */
  lemma FrameInv(w: World, v: World, i: nat)
    requires Inv(w) && Moves(w, v, i)
    requires WellFormed(v.eps[i]) && KeysOk(v, i) && ActiveOk(v, i)
    requires forall j, c :: (j, c) in v.sealed && (j, c) !in w.sealed ==> SealedOk(v, j, c)
    ensures Inv(v)
  {
    forall k | 0 <= k < |v.eps|
      ensures WellFormed(v.eps[k]) && KeysOk(v, k) && ActiveOk(v, k)
    {
      if k != i {
        OthersStay(w, v, i, k);
      }
    }
    forall j, c | (j, c) in v.sealed
      ensures SealedOk(v, j, c)
    {
      if (j, c) in w.sealed { assert SealedOk(w, j, c); }
    }
  }

  lemma InitiateKeeps(w: World, i: nat)
    requires Inv(w) && i < |w.eps|
    ensures Inv(AfterInitiate(w, i))
  {
    var v := AfterInitiate(w, i);
    StaysOrIsNotDone(w, v, i);
    FrameInv(w, v, i);
  }

  /** A call that leaves the endpoint as it was, or before its keys. */
  lemma StaysOrIsNotDone(w: World, v: World, i: nat)
    requires Inv(w) && Moves(w, v, i) && (v.eps[i] == w.eps[i] || !Done(v.eps[i]))
    ensures KeysOk(v, i) && ActiveOk(v, i)
  {
    if v.eps[i] == w.eps[i] {
      OthersStay(w, v, i, i);
    }
  }

  lemma SourceIsKeyed(s: Session, c: SourceHello, proofOk: bool)
    requires ProcessSourceHello(s, c, proofOk).1.Success?
    ensures var (t, r) := ProcessSourceHello(s, c, proofOk);
            && FirstShare(c.keyShares).Some? && Keyed(t, FirstShare(c.keyShares).value)
            && t.state == Completing && WellFormed(t) && Evolves(s, t)
            && t.sendKey.Some? && r.value.1.verifyData.Some?
            && r.value.1.verifyData.value.Sealed? && r.value.1.verifyData.value.key == t.sendKey.value
  {
    assert FirstCommon(DEFAULT_CIPHER_SUITES, c.cipherSuites) in {None, Some(AES_128)} by {
      assert DEFAULT_CIPHER_SUITES[1..] == [];
    }
  }

  lemma SourceKeeps(w: World, i: nat, c: SourceHello, proofOk: bool)
    requires Inv(w) && i < |w.eps|
    ensures Inv(AfterSource(w, i, c, proofOk))
  {
    var v := AfterSource(w, i, c, proofOk);
    if ProcessSourceHello(w.eps[i], c, proofOk).1.Success? {
      SourceIsKeyed(w.eps[i], c, proofOk);
    } else {
      StaysOrIsNotDone(w, v, i);
    }
    FrameInv(w, v, i);
  }

  lemma DestinationIsKeyed(s: Session, c: DestinationHello, proofOk: bool)
    requires WellFormed(s) && ProcessDestinationHello(s, c, proofOk).1.Success?
    ensures var (t, r) := ProcessDestinationHello(s, c, proofOk);
            && Keyed(t, c.keyShare) && t.state == Completing && WellFormed(t) && Evolves(s, t)
            && t.sendKey.Some? && r.value.verifyData.Some?
            && r.value.verifyData.value.Sealed? && r.value.verifyData.value.key == t.sendKey.value
  {
  }

  lemma DestinationKeeps(w: World, i: nat, c: DestinationHello, proofOk: bool)
    requires Inv(w) && i < |w.eps|
    ensures Inv(AfterDestination(w, i, c, proofOk))
  {
    var v := AfterDestination(w, i, c, proofOk);
    assert WellFormed(w.eps[i]);
    if ProcessDestinationHello(w.eps[i], c, proofOk).1.Success? {
      DestinationIsKeyed(w.eps[i], c, proofOk);
    } else {
      StaysOrIsNotDone(w, v, i);
    }
    FrameInv(w, v, i);
  }

  /** Equal secrets have the same two ends. */
  lemma SameSecretEnds(a: nat, p: nat, b: nat, q: nat)
    requires Exchange(a, p) == Exchange(b, q)
    ensures (a == b && p == q) || (a == q && p == b)
  {
  }

  /** Two keyed endpoints of which one sends with the key the other receives with. */
  lemma SharedKeyMirrors(s: Session, share: KeyShare, t: Session, other: KeyShare)
    requires Keyed(s, share) && Keyed(t, other) && t.sendKey == s.recvKey && Done(t)
    requires s.eph == t.eph ==> s == t
    ensures s != t && Mirror(s, t)
    ensures share.point == Some(t.eph) && other.point == Some(s.eph)
  {
    SameSecretEnds(s.eph, share.point.value, t.eph, other.point.value);
    ExchangeSymmetric(s.eph, t.eph);
    assert t.isInitiator.value != s.isInitiator.value;
  }

  /** Key confirmation: whoever seals under the key `i` receives with is `i`'s mirror image, and each used the other's
      share. */
  lemma SameKeyIsMirror(w: World, i: nat, j: nat)
    requires Inv(w) && i < |w.eps| && j < |w.eps|
    requires Done(w.eps[i]) && Done(w.eps[j]) && w.eps[j].sendKey == w.eps[i].recvKey
    ensures i != j && Mirror(w.eps[i], w.eps[j]) && SharesMatch(w, i, j)
  {
    assert KeysOk(w, i) && KeysOk(w, j);
    SharedKeyMirrors(w.eps[i], w.used[i].share, w.eps[j], w.used[j].share);
  }

  /** If the share `i` used belongs to an endpoint, a ciphertext that opens at `i` was sealed by `i`'s mirror image. */
  lemma OpensOnlyFromMirror(w: World, i: nat, c: Cipher) returns (j: nat)
    requires Inv(w) && i < |w.eps| && Done(w.eps[i]) && w.eps[i].recvKey.Some? && HonestShare(w, i)
    requires Deliverable(w, c) && Open(c, w.eps[i].recvKey.value).Some?
    ensures j < |w.eps| && (j, c) in w.sealed && j != i
    ensures Mirror(w.eps[i], w.eps[j]) && SharesMatch(w, i, j)
  {
    assert KeysOk(w, i);
    assert Honest(w, w.eps[i].eph);
    j :| (j, c) in w.sealed;
    assert SealedOk(w, j, c);
    SameKeyIsMirror(w, i, j);
  }

  /** The endpoint after an accepted Finished. */
  function Activated(s: Session, now: int): Session
    requires WellFormed(s) && Done(s)
  {
    s.(secretKeyId := Some(ExpectedKeyId(s)), activeAt := Some(now), state := Active)
  }

  lemma ActivatedOk(w: World, v: World, i: nat, now: int)
    requires Inv(w) && i < |w.eps| && Done(w.eps[i]) && WellFormed(w.eps[i])
    requires v == WithEnd(w, i, Activated(w.eps[i], now))
    requires HonestShare(w, i) ==> HasMirror(w, i)
    ensures Moves(w, v, i) && WellFormed(v.eps[i]) && KeysOk(v, i) && ActiveOk(v, i)
  {
    assert KeysOk(w, i);
    if HonestShare(v, i) {
      HonestStays(w, v, i, w.used[i].share.point.value);
      MirrorStays(w, v, i, i);
    }
  }

  lemma FinishedKeeps(w: World, i: nat, c: Finished, now: int)
    requires Inv(w) && i < |w.eps| && WellFormed(w.eps[i])
    requires c.verifyData.Some? ==> Deliverable(w, c.verifyData.value)
    ensures Inv(AfterFinished(w, i, c, now))
  {
    var v := AfterFinished(w, i, c, now);
    if ProcessFinished(w.eps[i], c, now).1.Success? {
      if HonestShare(w, i) {
        var j := OpensOnlyFromMirror(w, i, c.verifyData.value);
      }
      ActivatedOk(w, v, i, now);
      FrameInv(w, v, i);
    } else {
      assert v == w;
    }
  }

  lemma DataKeeps(w: World, i: nat, originalType: string, plain: Plain)
    requires Inv(w) && i < |w.eps| && WellFormed(w.eps[i])
    ensures Inv(AfterData(w, i, originalType, plain))
  {
    var v := AfterData(w, i, originalType, plain);
    StaysOrIsNotDone(w, v, i);
    FrameInv(w, v, i);
  }

  lemma StepKeepsInv(u: World, e: Event, w: World)
    requires Inv(u) && IsStep(u, e, w)
    ensures Inv(w)
  {
    match e
    case Initiate(i) => InitiateKeeps(u, i);
    case OnSource(i, c, proofOk) => SourceKeeps(u, i, c, proofOk);
    case OnDestination(i, c, proofOk) => DestinationKeeps(u, i, c, proofOk);
    case OnFinished(i, c, now) => FinishedKeeps(u, i, c, now);
    case SendData(i, originalType, plain) => DataKeeps(u, i, originalType, plain);
  }

  lemma {:induction false} RunKeepsInv(ws: seq<World>, es: seq<Event>, i: nat)
    requires Run(ws, es) && Inv(ws[0]) && i < |ws|
    ensures Inv(ws[i])
  {
    if i > 0 {
      RunKeepsInv(ws, es, i - 1);
      StepKeepsInv(ws[i - 1], es[i - 1], ws[i]);
    }
  }

  lemma ReachableInv(w: World)
    requires Reachable(w)
    ensures Inv(w)
  {
    var ws, es :| Run(ws, es) && Initial(ws[0]) && w == ws[|es|];
    assert Inv(ws[0]);
    RunKeepsInv(ws, es, |es|);
  }

  // ---- The main results ----

  /** Key confirmation, in every run, for any number of endpoints and whatever hellos the network makes up: an ACTIVE
      endpoint that used a share of an endpoint has exactly one partner. It plays the opposite role, used the share of
      this endpoint, holds the mirror-image keys and the same cipher suite, and agrees on the joined randoms and so on
      the secret key id. */
  lemma ActiveHasUniqueMirror(w: World, i: nat) returns (j: nat)
    requires Reachable(w) && i < |w.eps| && w.eps[i].state == Active && HonestShare(w, i)
    ensures j < |w.eps| && j != i && Mirror(w.eps[i], w.eps[j]) && SharesMatch(w, i, j)
    ensures WellFormed(w.eps[j]) && w.eps[i].secretKeyId == Some(ExpectedKeyId(w.eps[j]))
    ensures forall k :: 0 <= k < |w.eps| && Mirror(w.eps[i], w.eps[k]) ==> k == j
  {
    ReachableInv(w);
    assert ActiveOk(w, i);
    j :| j < |w.eps| && j != i && Mirror(w.eps[i], w.eps[j]) && SharesMatch(w, i, j);
    assert WellFormed(w.eps[j]);
    forall k | 0 <= k < |w.eps| && Mirror(w.eps[i], w.eps[k])
      ensures k == j
    {
      SameKeyIsMirror(w, i, k);
    }
  }

  /** An endpoint that has no partner in the run used a share that none of the endpoints owns. */
  lemma NoMirrorForeignShare(w: World, i: nat)
    requires Reachable(w) && i < |w.eps| && w.eps[i].state == Active
    ensures HasMirror(w, i) <==> HonestShare(w, i)
  {
    ReachableInv(w);
    assert ActiveOk(w, i);
  }

  // ---- The two randoms ----

  /** Each holds the random that the other has drawn. */
  predicate RandomsAgree(s: Session, p: Session) {
    s.peerRandom == Some(p.localRandom) && p.peerRandom == Some(s.localRandom)
  }

  /** Partners hold each other's randoms if and only if the random that one of them received has the proper length;
      nothing in the handshake looks at that. */
  lemma RandomsAgreeIff(w: World, i: nat, j: nat)
    requires Reachable(w) && i < |w.eps| && j < |w.eps| && Mirror(w.eps[i], w.eps[j])
    ensures RandomsAgree(w.eps[i], w.eps[j]) <==> |w.eps[i].peerRandom.value| == RANDOM_LENGTH
    ensures |w.eps[i].peerRandom.value| == |w.eps[j].peerRandom.value|
  {
    ReachableInv(w);
    var s, p := w.eps[i], w.eps[j];
    if s.isInitiator.value {
      CutJoined(s.localRandom, s.peerRandom.value, p.peerRandom.value, p.localRandom);
    } else {
      CutJoined(p.localRandom, p.peerRandom.value, s.peerRandom.value, s.localRandom);
    }
  }

  /** Two ways to cut one text. */
  lemma CutJoined(a: string, b: string, c: string, d: string)
    requires a + b == c + d && |a| == |d|
    ensures |b| == |c| && (a == c && b == d <==> |b| == |a|)
  {
    assert |a + b| == |c + d|;
    if |b| == |a| {
      assert a == (a + b)[..|a|] == c;
      assert b == (a + b)[|a|..] == d;
    }
  }

  /** One joined text and one role leave room for one local random. */
  lemma SameRoleSameRandom(s: Session, t: Session)
    requires s.peerRandom.Some? && s.isInitiator.Some? && t.peerRandom.Some? && t.isInitiator == s.isInitiator
    requires |s.localRandom| == |t.localRandom| && Context(s) == Context(t)
    ensures s.localRandom == t.localRandom
  {
    var context, n := Context(s), |s.localRandom|;
    if s.isInitiator.value {
      assert s.localRandom == context[..n] == t.localRandom;
    } else {
      assert s.localRandom == context[|context| - n..] == t.localRandom;
    }
  }

  /** Two ACTIVE endpoints with the same secret key id are each other's partners, if one of them used an endpoint's
      share. */
  lemma SameKeyIdIsPartner(w: World, i: nat, j: nat)
    requires Reachable(w) && i < |w.eps| && j < |w.eps| && i != j
    requires w.eps[i].state == Active && w.eps[j].state == Active && HonestShare(w, i)
    requires w.eps[i].secretKeyId == w.eps[j].secretKeyId
    ensures Mirror(w.eps[i], w.eps[j]) && SharesMatch(w, i, j)
  {
    ReachableInv(w);
    assert ActiveOk(w, i) && ActiveOk(w, j);
    var p: nat :| p < |w.eps| && p != i && Mirror(w.eps[i], w.eps[p]) && SharesMatch(w, i, p);
    assert Context(w.eps[i]) == Context(w.eps[j]) == Context(w.eps[p]);
    var twin := if w.eps[j].isInitiator == w.eps[i].isInitiator then i else p;
    SameRoleSameRandom(w.eps[j], w.eps[twin]);
    assert j == twin;
  }

  /** Whatever an ACTIVE endpoint that used an endpoint's share accepts as data was sealed by its one partner. */
  lemma AcceptedFromPartner(w: World, i: nat, m: DataMessage) returns (j: nat)
    requires Reachable(w) && i < |w.eps| && WellFormed(w.eps[i]) && HonestShare(w, i)
    requires Deliverable(w, m.encrypted) && Decrypt(w.eps[i], m).Success?
    ensures j < |w.eps| && j != i && Mirror(w.eps[i], w.eps[j]) && (j, m.encrypted) in w.sealed
    ensures m.encrypted.Sealed? && m.encrypted.plain == Decrypt(w.eps[i], m).value
  {
    ReachableInv(w);
    j := OpensOnlyFromMirror(w, i, m.encrypted);
  }

  // ---- The key lifetimes ----

  /** The lifetime claimed in a share, for a side whose default is `mine`. */
  function Claim(share: KeyShare, mine: int): int {
    if share.expires.Some? then share.expires.value else mine
  }

  /** The claim of a peer whose default is `theirs` does not mislead a side whose default is `mine`. */
  predicate ClaimKeeps(claim: int, mine: int, theirs: int) {
    claim == theirs || (claim >= mine && theirs >= mine)
  }

  /** Two sides with defaults `a` and `b` that were told `x` and `y`. */
  lemma SmallerOfClaims(a: int, b: int, x: int, y: int)
    ensures Min(x, a) == Min(y, b) <==> (ClaimKeeps(x, a, b) && ClaimKeeps(y, b, a)) || x == y < Min(a, b)
    ensures Min(x, a) == Min(y, b) == Min(a, b) <==> ClaimKeeps(x, a, b) && ClaimKeeps(y, b, a)
  {
  }

  lemma LifetimeOfShare(w: World, i: nat)
    requires Inv(w) && i < |w.eps| && Done(w.eps[i])
    ensures i in w.used
    ensures w.eps[i].keyExpires == Some(Min(Claim(w.used[i].share, w.eps[i].defaultExpires), w.eps[i].defaultExpires))
  {
    assert KeysOk(w, i);
  }

  /** Partners give their keys the same lifetime exactly when neither claim misleads, or when both claim the same
      lifetime below both defaults. In the first case, and only then, it is the smaller of their defaults, as it is when
      both shares arrive as they were sent. */
  lemma LifetimesEqualIff(w: World, i: nat, j: nat)
    requires Reachable(w) && i < |w.eps| && j < |w.eps| && Done(w.eps[i]) && Done(w.eps[j]) && SharesMatch(w, i, j)
    ensures var a, b := w.eps[i].defaultExpires, w.eps[j].defaultExpires;
            var x, y := Claim(w.used[i].share, a), Claim(w.used[j].share, b);
            && (w.eps[i].keyExpires == w.eps[j].keyExpires <==>
                  (ClaimKeeps(x, a, b) && ClaimKeeps(y, b, a)) || x == y < Min(a, b))
            && (w.eps[i].keyExpires == w.eps[j].keyExpires == Some(Min(a, b)) <==>
                  ClaimKeeps(x, a, b) && ClaimKeeps(y, b, a))
    ensures w.used[i].share == LocalKeyShare(w.eps[j]) && w.used[j].share == LocalKeyShare(w.eps[i]) ==>
              w.eps[i].keyExpires == w.eps[j].keyExpires
              == Some(Min(w.eps[i].defaultExpires, w.eps[j].defaultExpires))
  {
    ReachableInv(w);
    LifetimeOfShare(w, i);
    LifetimeOfShare(w, j);
    var a, b := w.eps[i].defaultExpires, w.eps[j].defaultExpires;
    SmallerOfClaims(a, b, Claim(w.used[i].share, a), Claim(w.used[j].share, b));
  }

  // ---- Who the partner is ----

  /** The hello with the share of an endpoint carried the DID of that endpoint. */
  ghost predicate NamesOwner(w: World, i: nat) {
    && i in w.used
    && forall k :: 0 <= k < |w.eps| && w.used[i].share.point == Some(w.eps[k].eph) ==>
         w.used[i].sourceDid == w.eps[k].localDid
  }

  /** Nothing compares the DID a hello came with to the DID of the peer the session is for. The partner is that peer if
      and only if the two are the same, given that the hello came with the DID of the owner of its share. */
  lemma PartnerIsPeerIff(w: World, i: nat, j: nat)
    requires Reachable(w) && i < |w.eps| && j < |w.eps|
    requires Done(w.eps[i]) && Mirror(w.eps[i], w.eps[j]) && NamesOwner(w, i)
    ensures w.eps[j].localDid == w.eps[i].peerDid <==> w.used[i].sourceDid == w.eps[i].peerDid
  {
    ReachableInv(w);
    SameKeyIsMirror(w, i, j);
  }

  // ---- Handshakes that complete ----

  /** Four messages delivered in order between two endpoints, while the network replaces the randoms in both hellos and
      the lifetime claimed in the first: the two endpoints, if no delivery fails. */
  function Handshake(a: Session, b: Session, sourceRandom: string, destinationRandom: string, expires: Option<int>,
                     now: int): Option<(Session, Session)>
    requires WellFormed(a) && WellFormed(b)
  {
    var (a1, hello) := InitiateHandshake(a);
    if hello.Failure? then None
    else
      var sourceHello := hello.value.(random := sourceRandom, keyShares := [LocalKeyShare(a).(expires := expires)]);
      var (b1, answer) := ProcessSourceHello(b, sourceHello, true);
      if answer.Failure? then None
      else
        var destinationHello := answer.value.0.(random := destinationRandom);
        var (a2, finished) := ProcessDestinationHello(a1, destinationHello, true);
        if finished.Failure? then None
        else
          SourceIsKeyed(b, sourceHello, true);
          DestinationIsKeyed(a1, destinationHello, true);
          var (b2, confirmed) := ProcessFinished(b1, finished.value, now);
          var (a3, confirmed') := ProcessFinished(a2, answer.value.1, now);
          if confirmed.Failure? || confirmed'.Failure? then None else Some((a3, b2))
  }

  /** The handshake completes if and only if both sides arrive at the same joined randoms, and these are not too long,
      whatever DIDs the two endpoints have and expect. */
  lemma HandshakeCompletesIff(a: Session, b: Session, sourceRandom: string, destinationRandom: string,
                              expires: Option<int>, now: int)
    requires IsNew(a) && IsNew(b)
    ensures Handshake(a, b, sourceRandom, destinationRandom, expires, now).Some? <==>
              sourceRandom + b.localRandom == a.localRandom + destinationRandom
              && Utf8Length(sourceRandom + b.localRandom) <= MAX_CONTEXT
  {
    HandshakeSteps(a, b, sourceRandom, destinationRandom, expires);
  }

  lemma HandshakeSteps(a: Session, b: Session, sourceRandom: string, destinationRandom: string, expires: Option<int>)
    requires IsNew(a) && IsNew(b)
    ensures FirstCommon(DEFAULT_CIPHER_SUITES, DEFAULT_CIPHER_SUITES) == Some(AES_128)
    ensures var share := LocalKeyShare(a).(expires := expires); FirstShare([share]) == Some(share)
    ensures Exchange(a.eph, b.eph) == Exchange(b.eph, a.eph)
  {
    ExchangeSymmetric(a.eph, b.eph);
  }

  /** What a completed handshake gives: two ACTIVE mirrors that decrypt each other's data, the randoms as they were
      received, and the two lifetimes. */
  lemma HandshakeGives(a: Session, b: Session, sourceRandom: string, destinationRandom: string, expires: Option<int>,
                       now: int, originalType: string, plain: Plain)
    requires IsNew(a) && IsNew(b)
    requires Handshake(a, b, sourceRandom, destinationRandom, expires, now).Some?
    ensures var (a', b') := Handshake(a, b, sourceRandom, destinationRandom, expires, now).value;
            && a'.state == Active && b'.state == Active && Mirror(a', b') && Mirror(b', a')
            && a'.secretKeyId == b'.secretKeyId == Some(KeyId(sourceRandom + b.localRandom))
            && a'.sessionId == b'.sessionId == a.sessionId
            && b'.peerRandom == Some(sourceRandom) && a'.peerRandom == Some(destinationRandom)
            && a'.localRandom == a.localRandom && b'.localRandom == b.localRandom
            && a'.keyExpires == Some(Min(b.defaultExpires, a.defaultExpires))
            && b'.keyExpires == Some(if expires.None? then b.defaultExpires else Min(expires.value, b.defaultExpires))
            && a'.activeAt == b'.activeAt == Some(now)
            && (forall later :: IsExpired(a', later) <==> later - now > a'.keyExpires.value)
            && Encrypt(a', originalType, plain).Success?
            && Decrypt(b', Encrypt(a', originalType, plain).value) == Success(plain)
            && Encrypt(b', originalType, plain).Success?
            && Decrypt(a', Encrypt(b', originalType, plain).value) == Success(plain)
  {
    HandshakeSteps(a, b, sourceRandom, destinationRandom, expires);
  }

  lemma {:induction false} Utf8Joined(a: string, b: string)
    ensures Utf8Length(a + b) == Utf8Length(a) + Utf8Length(b)
  {
    if a == "" {
      assert a + b == b;
    } else {
      assert (a + b)[1..] == a[1..] + b;
      Utf8Joined(a[1..], b);
    }
  }

  lemma {:induction false} HexLength(text: string)
    requires IsHex(text)
    ensures Utf8Length(text) == |text|
  {
    if text != "" {
      assert text[0] in text;
      assert forall c :: c in text[1..] ==> c in text;
      HexLength(text[1..]);
    }
  }

  /** With both hellos as they were sent the handshake completes, and each endpoint holds the other's random. */
  lemma HandshakeCompletes(a: Session, b: Session, expires: Option<int>, now: int)
    requires IsNew(a) && IsNew(b) && IsRandom(a.localRandom) && IsRandom(b.localRandom)
    ensures var r := Handshake(a, b, a.localRandom, b.localRandom, expires, now);
            r.Some? && RandomsAgree(r.value.0, r.value.1)
  {
    Utf8Joined(a.localRandom, b.localRandom);
    HexLength(a.localRandom);
    HexLength(b.localRandom);
    HandshakeCompletesIff(a, b, a.localRandom, b.localRandom, expires, now);
    HandshakeGives(a, b, a.localRandom, b.localRandom, expires, now, "", Plain("", None));
  }

  /** It completes as well when the network appends a character to the first random and puts it in front of the second:
      then two confirmed partners with one key id disagree on both randoms. */
  lemma PaddedRandomsDisagree(a: Session, b: Session, expires: Option<int>, now: int)
    requires IsNew(a) && IsNew(b) && IsRandom(a.localRandom) && IsRandom(b.localRandom)
    ensures var r := Handshake(a, b, a.localRandom + "0", "0" + b.localRandom, expires, now);
            && r.Some? && Mirror(r.value.0, r.value.1) && r.value.0.secretKeyId == r.value.1.secretKeyId
            && r.value.0.peerRandom != Some(b.localRandom) && r.value.1.peerRandom != Some(a.localRandom)
  {
    var source, destination := a.localRandom + "0", "0" + b.localRandom;
    Utf8Joined(a.localRandom, "0");
    Utf8Joined(source, b.localRandom);
    HexLength(a.localRandom);
    HexLength("0");
    HexLength(b.localRandom);
    assert source + b.localRandom == a.localRandom + destination;
    HandshakeCompletesIff(a, b, source, destination, expires, now);
    HandshakeGives(a, b, source, destination, expires, now, "", Plain("", None));
    assert |source| != |a.localRandom| && |destination| != |b.localRandom|;
  }

  /** The handshake completes with an endpoint of another DID than the one expected, even when every hello arrives as it
      was sent. */
  lemma StrangerIsAccepted(a: Session, b: Session, now: int)
    requires IsNew(a) && IsNew(b) && IsRandom(a.localRandom) && IsRandom(b.localRandom)
    requires b.localDid != a.peerDid
    ensures var r := Handshake(a, b, a.localRandom, b.localRandom, Some(a.defaultExpires), now);
            && r.Some? && r.value.0.state == Active && Mirror(r.value.0, r.value.1)
            && r.value.1.localDid != r.value.0.peerDid
  {
    HandshakeCompletes(a, b, Some(a.defaultExpires), now);
    HandshakeGives(a, b, a.localRandom, b.localRandom, Some(a.defaultExpires), now, "", Plain("", None));
  }
}

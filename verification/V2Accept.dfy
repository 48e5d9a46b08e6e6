/** Exactly which hellos and Finished messages a v2 session accepts, and that partners read each other's data. */
module V2Acceptances {
  import opened Wrappers
  import opened V2Sessions
  import opened V2Runs

  const AES := "TLS_AES_128_GCM_SHA256"

  /** The first share of the supported group. */
  predicate FirstOfGroup(shares: seq<KeyShare>, i: nat) {
    && i < |shares| && shares[i].group == "secp256r1"
    && forall h :: 0 <= h < i ==> shares[h].group != "secp256r1"
  }

  lemma {:induction false} FirstShareIs(shares: seq<KeyShare>) returns (i: nat)
    ensures if i < |shares| then FirstOfGroup(shares, i) && FirstShare(shares) == Some(shares[i])
            else FirstShare(shares) == None && forall h :: 0 <= h < |shares| ==> shares[h].group != "secp256r1"
  {
    if shares == [] || shares[0].group == "secp256r1" {
      i := 0;
    } else {
      i := FirstShareIs(shares[1..]);
      forall h | 0 <= h < |shares| && h < i + 1
        ensures shares[h].group != "secp256r1"
      {
        if h > 0 { assert shares[h] == shares[1..][h - 1]; }
      }
      i := i + 1;
    }
  }

  lemma FirstShareIff(shares: seq<KeyShare>, share: KeyShare)
    ensures FirstShare(shares) == Some(share) <==> exists i: nat :: FirstOfGroup(shares, i) && shares[i] == share
  {
    var i := FirstShareIs(shares);
    forall k: nat | FirstOfGroup(shares, k)
      ensures k == i
    {
      assert i < |shares| && !(k < i) && !(i < k);
    }
  }

  lemma CommonSuite(suites: seq<string>)
    ensures FirstCommon(DEFAULT_CIPHER_SUITES, suites) == if AES in suites then Some(AES) else None
  {
    assert DEFAULT_CIPHER_SUITES[1..] == [];
  }

  /** The share that a source hello is answered for. */
  ghost predicate Offers(c: SourceHello, point: nat, expires: Option<int>) {
    exists i: nat :: FirstOfGroup(c.keyShares, i) && c.keyShares[i] == KeyShare("secp256r1", expires, Some(point))
  }

  /** A source hello is answered exactly in state IDLE, with a good proof, the supported suite among those offered, a
      curve point in the first share of the supported group, and randoms that are not too long. */
  lemma SourceHelloAcceptedIff(s: Session, c: SourceHello, proofOk: bool)
    ensures ProcessSourceHello(s, c, proofOk).1.Success? <==>
      && s.state == Idle && proofOk && AES in c.cipherSuites
      && (exists point, expires :: Offers(c, point, expires))
      && Utf8Length(c.random + s.localRandom) <= 255
  {
    CommonSuite(c.cipherSuites);
    var i := FirstShareIs(c.keyShares);
    if i < |c.keyShares| && c.keyShares[i].point.Some? {
      assert c.keyShares[i] == KeyShare("secp256r1", c.keyShares[i].expires, Some(c.keyShares[i].point.value));
      assert Offers(c, c.keyShares[i].point.value, c.keyShares[i].expires);
    }
    if point: nat, expires: Option<int> :| Offers(c, point, expires) {
      var k: nat :| FirstOfGroup(c.keyShares, k) && c.keyShares[k] == KeyShare("secp256r1", expires, Some(point));
      FirstShareIff(c.keyShares, c.keyShares[k]);
    }
  }

  /** A destination hello is followed exactly after an own hello, with a good proof, the group and the suite that were
      offered, a curve point, and randoms that are not too long. */
  lemma DestinationHelloAcceptedIff(s: Session, c: DestinationHello, proofOk: bool)
    requires WellFormed(s)
    ensures ProcessDestinationHello(s, c, proofOk).1.Success? <==>
      && s.state == Initiated && proofOk && c.keyShare.group == "secp256r1" && c.cipherSuite == AES
      && c.keyShare.point.Some? && Utf8Length(s.localRandom + c.random) <= 255
  {
  }

  /** A Finished is accepted exactly when it is awaited and was sealed with the peer's key around the expected key
      id. */
  lemma FinishedAcceptedIff(s: Session, c: Finished, now: int)
    requires WellFormed(s)
    ensures ProcessFinished(s, c, now).1.Success? <==>
      && s.state == Completing
      && exists text :: c.verifyData == Some(Sealed(s.recvKey.value, Plain(text, Some(ExpectedKeyId(s)))))
    ensures ProcessFinished(s, c, now).1.Success? <==> s.state != Active && ProcessFinished(s, c, now).0.state == Active
  {
    if s.state == Completing && c.verifyData.Some? && c.verifyData.value.Sealed? {
      var plain := c.verifyData.value.plain;
      if plain.keyId.Some? {
        assert plain == Plain(plain.text, Some(plain.keyId.value));
      }
    }
  }

  /** In every run, an ACTIVE endpoint reads whatever its ACTIVE partner sends. */
  lemma PartnerDataDecrypts(w: World, i: nat, j: nat, originalType: string, plain: Plain)
    requires Reachable(w) && i < |w.eps| && j < |w.eps| && Mirror(w.eps[i], w.eps[j])
    requires w.eps[i].state == Active && w.eps[j].state == Active
    ensures WellFormed(w.eps[i]) && WellFormed(w.eps[j])
    ensures var r := Encrypt(w.eps[j], originalType, plain);
            r.Success? && r.value.secretKeyId == w.eps[i].secretKeyId && Decrypt(w.eps[i], r.value) == Success(plain)
  {
    ReachableInv(w);
    assert ActiveOk(w, i) && ActiveOk(w, j);
  }

  /** Both hellos say who sent them and to whom, and carry the own random and share; the answer is for the session of
      the question. */
  lemma HellosNameTheirSender(s: Session, c: SourceHello)
    ensures InitiateHandshake(s).1.Success? <==> s.state == Idle
    ensures InitiateHandshake(s).1.Success? ==>
              var hello := InitiateHandshake(s).1.value;
              && (hello.sessionId, hello.sourceDid, hello.destinationDid) == (s.sessionId, s.localDid, s.peerDid)
              && hello.random == s.localRandom && hello.keyShares == [LocalKeyShare(s)] && hello.cipherSuites == [AES]
    ensures ProcessSourceHello(s, c, true).1.Success? ==>
              var hello := ProcessSourceHello(s, c, true).1.value.0;
              && (hello.sessionId, hello.sourceDid, hello.destinationDid) == (c.sessionId, s.localDid, s.peerDid)
              && hello.random == s.localRandom && hello.keyShare == LocalKeyShare(s) && hello.cipherSuite == AES
              && ProcessSourceHello(s, c, true).1.value.1.sessionId == c.sessionId
  {
    CommonSuite(c.cipherSuites);
  }

  /** A refused hello leaves the state as it was. A refused source hello leaves the keys, too; a refused destination
      hello has changed them if and only if it names a suite with a key the cipher does not take. */
  lemma RefusedHelloKeeps(s: Session, c: SourceHello, d: DestinationHello, proofOk: bool)
    requires WellFormed(s)
    ensures ProcessSourceHello(s, c, proofOk).1.Failure? ==>
              var t := ProcessSourceHello(s, c, proofOk).0;
              t.state == s.state && t.sendKey == s.sendKey && t.recvKey == s.recvKey && t.secretKeyId == s.secretKeyId
    ensures ProcessDestinationHello(s, d, proofOk).1.Failure? ==>
              var t := ProcessDestinationHello(s, d, proofOk).0;
              && t.state == s.state && t.secretKeyId == s.secretKeyId
              && (ProcessDestinationHello(s, d, proofOk).1.error == WrongKeyLength ==>
                    t.sendKey.Some? && t.sendKey.value.length == 32 && t.recvKey.Some?)
              && (ProcessDestinationHello(s, d, proofOk).1.error != WrongKeyLength ==>
                    t.sendKey == s.sendKey && t.recvKey == s.recvKey)
  {
    CommonSuite(c.cipherSuites);
  }
}

# Verified models of the EdgeMind swarm and its agent network protocol

This project models the protocol and data-structure kernels of EdgeMind in Dafny and proves what they guarantee. Each
source file has a module of its own that follows its branches, constants and error paths; a companion module
(`...Run`, `...Laws` and others) proves properties of every run or every input: what stays true, exactly what is accepted,
and what does get through. Classes are the source's classes; each of their methods is proved against a function on
values, and the run modules reason about those functions.

| part | files |
|---|---|
| HPKE end-to-end session: two endpoints, one hash ratchet per direction, a network that drops, duplicates, reorders and injects | `Ratchet`, `SeqManager`, `HpkeSession`, `HpkeRun`, `HpkeLive` |
| Group sender keys: epochs, keys installed once, one strict ratchet per sender key | `GroupSession`, `GroupRun`, `GroupDistribution`, `GroupEpoch` |
| v2 handshake: four states, Diffie-Hellman, key confirmation, any number of endpoints | `V2Session`, `V2Run`, `V2Accept` |
| v2 key manager: three indexes of one set of sessions | `KeyManager`, `KeyManagerRun`, `KeyManagerTime` |
| Bluetooth mesh: hop limit, seen cache, flooding, whom a message reaches | `Mesh`, `MeshRun`, `MeshCoverage`, `MeshDetour` |
| Kademlia routing table: XOR metric, LRU buckets, nearest-node search | `Xor`, `KBucket`, `KademliaRun`, `KademliaLru` |
| Statistics workers: window statistics, sigma rule, clipping, trend line | `TaskWorkers`, `SigmaRule`, `LeastSquares` |
| Authentication: replay window, DIDWba header, method lookup, signature check | `DidWbaVerifier`, `AuthHeader`, `AuthHeaderLaws` |
| Interface documents: schema references | `SchemaRefs`, `SchemaRefsLaws`, `SchemaRefPaths` |
| Health monitor and round-robin distribution | `HealthMonitor`, `HealthRun`, `TaskDistributor` |
| Shared | `Wrappers`, `Strings`, `E2eeMessages` |

`dafny verify dfyconfig.toml` checks everything.

## Modelling conventions

- One call of a handler is one atomic step. Clock readings are passed in, one per step (two for the two authentication
  gates); unless said otherwise the clock never goes back. Times are integers of a fixed unit.
- An exception is a failure result, and the state a failing call leaves behind is part of the model.
- Cryptography is ideal. Keys, nonces and ciphertexts are datatype terms, so two terms are equal only if they were made
  in the same way, and a ciphertext opens only under the key, nonce and associated data it was sealed with. HPKE seal and
  open (section 6.1 of RFC 9180), random numbers and proof checks are parameters.
- The 64-bit sequence number of the ratchets is modelled: at 2^64 the derivation fails, as packing the number does.
- Numbers of the statistics workers are exact reals; the square root is a function of which only its defining property is
  assumed.

## Where the code does less than its documentation says

Each of these comes with the exact condition under which the code does what is expected.

- `GroupDistributions.CanAcceptIffUnused`: a sender key that is distributed after its first use lets its receiver accept
  nothing, ever: the distributed chain key has moved on while the receiver's counter starts at 0.
  `GroupDistributions.OrderMatters` builds both cases.
- In the v2 handshake the proof of a hello is checked against a key that the hello itself carries
  (anp/anp/e2e_encryption_v2/message_parser.py:101-119), so a hello can be replaced on the way. Two confirmed partners
  always agree on keys, suite, joined randoms and key id, but not on everything else:
  - `V2Runs.RandomsAgreeIff`: keys and key id are derived from the two randoms written one after the other
    (anp/anp/utils/crypto_tool.py:32 and :267-268), and nothing looks at their lengths. The partners hold each other's
    randoms if and only if the one received has 64 characters; `V2Runs.PaddedRandomsDisagree` is a handshake in which
    they do not.
  - `V2Runs.LifetimesEqualIff`: the lifetime claimed in a key share can be replaced; when the lifetimes still agree.
  - `V2Runs.PartnerIsPeerIff`: nothing compares the DID a hello comes with to the DID of the peer the session is for, so
    the partner is that peer if and only if the two happen to be equal, given that the hello
    names its maker; `V2Runs.StrangerIsAccepted` is the failing case.
- `DidWbaVerifiers.ReplaySafeIff`: the two gates read the clock one after the other, so a nonce lifetime one minute longer
  than the timestamp lifetime, as the configuration advises, suffices only when both readings agree.
- `AuthHeaderLaws.RoundTripIff`: header fields are found by searching for `key="`, so a value that ends in `key=` hides
  the later field of that name. The letters of the key match capitals and, in the case of i and s, letters of other
  alphabets; `AuthHeaderLaws.EndsWithSignature` has a value of either kind.
- `AuthHeaderLaws.RelativeReferenceIff`: a document whose authentication method is referenced as `#fragment` can sign, but
  accepts its own headers only if a method under the full id carries the same key, because the verifier looks for the DID
  followed by the fragment.
- `KeyManagerRuns.RehandshakeExact`: pairs whose DIDs hold a `|` can share one key; then a pair that lost its last session
  may go unreported, and one that never had a session may be reported.
- `KeyManagerRuns.RegisterAgreesIff`: registering a session while another listed one has its key id, for instance the same
  session twice, makes the key-id index lose a listed session.
- `MeshCoverages.OrderedFloodCovers`: a message reaches every node within MAX_HOPS + 1 links when copies arrive in the
  order of their hop counts. In another order the first copy can come the long way round and have no hops left, while
  the later short one is dropped as seen (`MeshDetours.LongWayRound`); `MeshCoverages.ReachedIff` tells exactly who is
  reached in any order.

## Model

| member | source | states |
|---|---|---|
| Ratchet.OneInitiator | anp/anp/e2e_encryption_hpke/ratchet.py:37-43 | of two endpoints exactly one is the initiator if and only if their DIDs differ |
| Ratchet.StartKeysMirror | anp/anp/e2e_encryption_hpke/ratchet.py:16-62 | each endpoint sends on the chain the other receives on if and only if their DIDs differ |
| Ratchet.RatchetedAdd | anp/anp/e2e_encryption_hpke/ratchet.py:65-88 | ratcheting m + n times is ratcheting m times and then n times: fast-forwarding meets the sender's chain |
| Ratchet.RatchetedInjective | anp/anp/e2e_encryption_hpke/ratchet.py:65-88 | chains that agree at one position had the same start key, so the two directions never share a key at the same number |
| SequenceNumbers.SeqManager.NextSendSeq | anp/anp/e2e_encryption_hpke/seq_manager.py:45-49 | hands out the current send number and moves on by one, touching nothing else |
| SequenceNumbers.SeqManager.ValidateRecvSeq | anp/anp/e2e_encryption_hpke/seq_manager.py:51-65 | the mode's range check and, in window mode, the used-number check; forgetting an outdated entry is the only effect |
| SequenceNumbers.SeqManager.MarkSeqUsed | anp/anp/e2e_encryption_hpke/seq_manager.py:71-73 | records the number with the time of its use |
| SequenceNumbers.SeqManager.CleanupExpiredCache | anp/anp/e2e_encryption_hpke/seq_manager.py:84-89 | exactly the entries past their time to live go |
| SequenceNumbers.RefinesCacheless | anp/anp/e2e_encryption_hpke/seq_manager.py:51-95 | between resets, for every clock, time to live and cleanup schedule, the manager accepts what a manager without a used-number cache accepts, and the accepted numbers strictly increase |
| SequenceNumbers.StrictIsConsecutive | anp/anp/e2e_encryption_hpke/seq_manager.py:51-73 | in strict mode the accepted numbers follow each other without a gap |
| SequenceNumbers.MarkedUntil | anp/anp/e2e_encryption_hpke/seq_manager.py:71-95 | a used number is remembered until its time to live has passed; a cleanup, or asking about it, drops it exactly then, and no other |
| HpkeSessions.E2eeHpkeSession.Initiate | anp/anp/e2e_encryption_hpke/session.py:95-133 | the whole new state and the init message, or the failure outside IDLE |
| HpkeSessions.E2eeHpkeSession.OnInit | anp/anp/e2e_encryption_hpke/session.py:135-178 | the whole new state for every outcome of the proof, version, recipient and HPKE checks |
| HpkeSessions.E2eeHpkeSession.EncryptMessage | anp/anp/e2e_encryption_hpke/session.py:180-210 | the message under the current number and key, and the one-step ratchet; what an exhausted counter leaves behind |
| HpkeSessions.E2eeHpkeSession.DecryptMessage | anp/anp/e2e_encryption_hpke/session.py:212-254 | the fast-forward loop reaches the key of the message's number; chain key and counter move only after the ciphertext has opened |
| HpkeSessions.E2eeHpkeSession.Rekey | anp/anp/e2e_encryption_hpke/session.py:256-288 | the state after starting over, with the new id, keys and counters |
| HpkeSessions.E2eeHpkeSession.OnRekey | anp/anp/e2e_encryption_hpke/session.py:290-303 | the old incarnation is wiped before the new init is looked at |
| HpkeSessions.FailedDecryptKeepsChain | anp/anp/e2e_encryption_hpke/session.py:212-254 | a failed decryption leaves chain keys and receive counter unchanged and can only shrink the used-number cache; a success advances the counter past the message |
| HpkeSessions.RekeyIsFreshInit | anp/anp/e2e_encryption_hpke/session.py:290-303 | an accepted rekey leaves the session exactly as the same init would leave a brand-new one |
| HpkeRuns.OnlyGenuineOpens | anp/anp/e2e_encryption_hpke/session.py:234-247 | in every reachable state a ciphertext that opens under the key for a number is the one the peer made for that number |
| HpkeRuns.RunKeepsInv | anp/anp/e2e_encryption_hpke/session.py:95-254 | the run invariant (send chains, receive chains, logs, wire) survives every step of every run |
| HpkeRuns.AcceptedAreInOrder | anp/anp/e2e_encryption_hpke/session.py:180-254 | in every run the texts accepted in each direction are those sent under the same numbers, in increasing order and without duplicates |
| HpkeRuns.StrictAcceptsPrefix | anp/anp/e2e_encryption_hpke/session.py:180-254 | in strict mode they are a prefix of the texts sent |
| HpkeRuns.ChainsSynchronised | anp/anp/e2e_encryption_hpke/session.py:234-252 | in every active reachable session the send chain is the ratchet of its start key once per message sent, the receive chain that of the peer's start key once per number passed |
| HpkeRuns.GenuineDecrypts | anp/anp/e2e_encryption_hpke/session.py:212-254 | a genuine message decrypts to what was sent exactly when it is next (strict) or inside the window ahead of the counter, and is refused for its number otherwise |
| HpkeRuns.CatchUp | anp/anp/e2e_encryption_hpke/session.py:212-254 | every reachable state extends to one where the receiver is up to date; in strict mode it then holds exactly the texts sent |
| HpkeLives.InitAcceptedIff | anp/anp/e2e_encryption_hpke/session.py:135-178 | an init passes if and only if the session is IDLE, version, proof and recipient are right and the box opens; a refused one changes nothing |
| HpkeLives.StartOffers | anp/anp/e2e_encryption_hpke/session.py:95-133 | without an offer yet either side can start: it is ACTIVE then, with its lifetime, and the init is made out to the peer |
| HpkeLives.InitActivatesIff | anp/anp/e2e_encryption_hpke/session.py:135-178 | from every reachable state, delivering the init makes an IDLE side ACTIVE if and only if it was sealed to its key; the id is the offered one and the session expires with the offered lifetime |
| HpkeLives.InitOpensBothWays | anp/anp/e2e_encryption_hpke/session.py:135-254 | then the first text of either side decrypts at the other |
| HpkeLives.NextText | anp/anp/e2e_encryption_hpke/session.py:180-254 | between two ACTIVE sides a text can be encrypted if and only if numbers are left, and decrypts if and only if the receiver is not too far behind |
| HpkeLives.DecryptsIff | anp/anp/e2e_encryption_hpke/session.py:212-254 | of all a network can deliver, a message decrypts if and only if it is the genuine one for its number, of the right version, and in time |
| HpkeLives.TextGetsThrough | anp/anp/e2e_encryption_hpke/session.py:180-254 | from every such state the run can go on so that any further text arrives as the last of all that were sent |
| HpkeLives.RekeyActivatesIff | anp/anp/e2e_encryption_hpke/session.py:256-303 | whatever has become of two sessions, a rekey of one goes out, and makes the other ACTIVE if and only if it was sealed to its key; the two are then as after an init |
| HpkeLives.RekeyOpensBothWays | anp/anp/e2e_encryption_hpke/session.py:256-303 | after it the first text in either direction decrypts |
| GroupSessions.SenderKeyState.DecryptMessage | anp/anp/e2e_encryption_hpke/group_session.py:288-307 | number check, fast-forward and opening under one sender key, and what a failure leaves unchanged |
| GroupSessions.GroupE2eeSession.Generate | anp/anp/e2e_encryption_hpke/group_session.py:122-138 | the local key of the current epoch, with a fresh chain and counters |
| GroupSessions.GroupE2eeSession.Distribution | anp/anp/e2e_encryption_hpke/group_session.py:140-174 | the box carries the chain key as it is now, not as it was generated; without a local key it fails |
| GroupSessions.GroupE2eeSession.OnSenderKey | anp/anp/e2e_encryption_hpke/group_session.py:176-223 | installs a key whose proof, identity and box check out, and remembers its identity for good |
| GroupSessions.GroupE2eeSession.EncryptMessage | anp/anp/e2e_encryption_hpke/group_session.py:225-263 | the group message and the advanced local key, or which of the failures |
| GroupSessions.GroupE2eeSession.DecryptMessage | anp/anp/e2e_encryption_hpke/group_session.py:265-307 | only the key named by the message is touched |
| GroupSessions.GroupE2eeSession.Advance | anp/anp/e2e_encryption_hpke/group_session.py:309-325 | a greater epoch drops the local key and marks the remote keys of the old epoch read-only; any other is refused without effect |
| GroupSessions.GroupE2eeSession.OnEpochAdvance | anp/anp/e2e_encryption_hpke/group_session.py:327-349 | version, proof and order are checked before the epoch moves |
| GroupSessions.GroupE2eeSession.Cleanup | anp/anp/e2e_encryption_hpke/group_session.py:351-358 | exactly the expired remote keys go; the record of installed identities stays |
| GroupRuns.InstalledAtMostOnce | anp/anp/e2e_encryption_hpke/group_session.py:196-223 | in every run no (sender, epoch, key id) is installed twice, even after cleanup dropped it |
| GroupRuns.AcceptedAreConsecutive | anp/anp/e2e_encryption_hpke/group_session.py:265-307 | under every key, whoever distributed it, the accepted numbers are exactly 0, 1, 2, ... |
| GroupRuns.AcceptedArePrefix | anp/anp/e2e_encryption_hpke/group_session.py:225-307 | under each key of the sender, generated once per epoch, the receiver accepts a prefix of what was sent |
| GroupRuns.OnlyGenuineOpens | anp/anp/e2e_encryption_hpke/group_session.py:291-300 | what opens under one of the sender's keys is the sender's next message, and only if the key arrived in step |
| GroupDistributions.DistributedDepth | anp/anp/e2e_encryption_hpke/group_session.py:140-174 | the distributed chain key is the start of its chain if and only if the sender has not used the key |
| GroupDistributions.NextDecryptsIffUnused | anp/anp/e2e_encryption_hpke/group_session.py:140-307 | in every continuation after installing a distributed key, the next genuine message under it decrypts if and only if the sender had not used the key when the distribution was built |
| GroupDistributions.CanAcceptIffUnused | anp/anp/e2e_encryption_hpke/group_session.py:140-307 | a receiver that has just installed a distributed key can ever accept a message under it if and only if the sender's counter was 0 when the distribution was built and the sender has used the key since or still can; with a late key it accepts none in any continuation |
| GroupDistributions.OrderMatters | anp/anp/e2e_encryption_hpke/group_session.py:140-307 | one group in both orders: the receiver can accept messages if the key is distributed before the first message, and none if after it |
| GroupRuns.LocalKeyIsCurrent | anp/anp/e2e_encryption_hpke/group_session.py:236-240 | in every run a local key has the current epoch and is not read-only, so the read-only failure is never met |
| GroupRuns.EpochsIncrease | anp/anp/e2e_encryption_hpke/group_session.py:309-325 | no step lowers an epoch, and every accepted advance raises it and drops the local key |
| GroupEpochs.AdvanceIff | anp/anp/e2e_encryption_hpke/group_session.py:309-325 | an epoch is entered if and only if it is greater; the local key goes, and exactly the remote keys of the old epoch become read-only |
| GroupEpochs.ReceivedAdvanceIff | anp/anp/e2e_encryption_hpke/group_session.py:327-349 | a received advance is followed if and only if version and proof are good and the epoch is greater |
| GroupEpochs.NextEpochWorks | anp/anp/e2e_encryption_hpke/group_session.py:122-325 | from every reachable state any later epoch can be entered, and then a key is generated, distributed and installed and the first text under it is accepted |
| GroupEpochs.KeyAcceptedIff | anp/anp/e2e_encryption_hpke/group_session.py:176-223 | a key message is accepted if and only if version and proof are good, its identity is new and its box opens |
| GroupEpochs.KeyKeptUntil | anp/anp/e2e_encryption_hpke/group_session.py:196-358 | a cleanup drops an accepted key if and only if the lifetime in its message, or a day, has passed, and keeps its identity |
| GroupEpochs.GroupEncryptsIff | anp/anp/e2e_encryption_hpke/group_session.py:225-263 | a text is encrypted if and only if the local key may be used and has numbers left |
| GroupEpochs.GroupDecryptsIff | anp/anp/e2e_encryption_hpke/group_session.py:265-307 | a message decrypts if and only if its key is there, it has the next number and it opens under the key for that number |
| V2Sessions.ExchangeSymmetric | anp/anp/e2e_encryption_v2/session.py:435-468 | both sides of the key exchange arrive at the same secret |
| V2Sessions.E2eeSession.Initiate | anp/anp/e2e_encryption_v2/session.py:142-171 | the source hello and the state after it, or the failure outside IDLE |
| V2Sessions.E2eeSession.OnSourceHello | anp/anp/e2e_encryption_v2/session.py:173-252 | the search for a common suite and share, the keys derived from the joined randoms, both answers, and what each failing exit leaves assigned |
| V2Sessions.E2eeSession.OnDestinationHello | anp/anp/e2e_encryption_v2/session.py:254-303 | the same for the initiating side; a suite whose key the cipher does not take fails with the keys assigned and the state unchanged |
| V2Sessions.E2eeSession.DeriveKeys | anp/anp/e2e_encryption_v2/session.py:435-468 | both keys from the exchanged secret and the joined randoms, or the failure on a bad point, an unknown suite or randoms of more than 255 bytes, which assigns nothing |
| V2Sessions.E2eeSession.OnFinished | anp/anp/e2e_encryption_v2/session.py:305-350 | ACTIVE is entered only when the peer's Finished opens and carries the expected key id |
| V2Runs.SameKeyIsMirror | anp/anp/e2e_encryption_v2/session.py:435-468 | an endpoint that sends with the key I receive with is my mirror image: opposite role, swapped keys, same joined randoms and suite, and each used the other's share |
| V2Runs.OpensOnlyFromMirror | anp/anp/e2e_encryption_v2/session.py:305-350 | with any number of endpoints, any delivery order and any hellos, what opens at an endpoint that used an endpoint's share was sealed by its mirror image |
| V2Runs.RunKeepsInv | anp/anp/e2e_encryption_v2/session.py:142-350 | the invariant on keys, shares and sealed messages survives every step of every run, whatever hellos the network signs or rewrites |
| V2Runs.ActiveHasUniqueMirror | anp/anp/e2e_encryption_v2/session.py:305-350 | key confirmation: an ACTIVE endpoint that used a share of an endpoint of the run has exactly one partner, of the opposite role, which used its share, with mirrored keys and the same suite, joined randoms and key id |
| V2Runs.NoMirrorForeignShare | anp/anp/e2e_encryption_v2/session.py:173-350 | an ACTIVE endpoint has such a partner if and only if the share it used belongs to an endpoint of the run |
| V2Runs.RandomsAgreeIff | anp/anp/utils/crypto_tool.py:241-268 | partners hold each other's randoms if and only if the random that one of them received has 64 characters |
| V2Runs.SameKeyIdIsPartner | anp/anp/utils/crypto_tool.py:31-50 | two ACTIVE endpoints with one secret key id are partners, if one of them used an endpoint's share: a joined text and a role leave room for one local random |
| V2Runs.AcceptedFromPartner | anp/anp/e2e_encryption_v2/session.py:352-400 | data that an ACTIVE endpoint accepts was sealed by its partner, unaltered, if it used an endpoint's share |
| V2Runs.LifetimesEqualIff | anp/anp/e2e_encryption_v2/session.py:224-226 | partners have the same key lifetime if and only if the claim in neither share misleads, or both claim one lifetime below both defaults; only in the first case is it the smaller default, as with untouched shares |
| V2Runs.PartnerIsPeerIff | anp/anp/e2e_encryption_v2/session.py:185-205 | if the hello with an endpoint's share came with the DID of that endpoint, the partner is the peer the session is for if and only if the two DIDs are the same |
| V2Runs.HandshakeCompletesIff | anp/anp/e2e_encryption_v2/session.py:142-350 | with the randoms of both hellos replaced, four messages delivered in order make both endpoints ACTIVE if and only if the two sides still join the same text, of at most 255 bytes |
| V2Runs.HandshakeGives | anp/anp/e2e_encryption_v2/session.py:142-400 | a completed handshake gives two ACTIVE mirrors that decrypt each other's data, the randoms as received, and both lifetimes as claimed |
| V2Runs.HandshakeCompletes | anp/anp/e2e_encryption_v2/session.py:142-350 | with both randoms untouched it completes and the endpoints hold each other's randoms |
| V2Runs.PaddedRandomsDisagree | anp/anp/utils/crypto_tool.py:241-268 | one character appended to the first random and put in front of the second: it completes, with one key id, and neither random is the one drawn |
| V2Runs.StrangerIsAccepted | anp/anp/e2e_encryption_v2/session.py:173-303 | it completes between any two DIDs, also with one that is not the expected peer |
| V2Acceptances.SourceHelloAcceptedIff | anp/anp/e2e_encryption_v2/session.py:173-252 | exactly when a source hello is answered: state, proof, suite, first share of the group, length of the randoms |
| V2Acceptances.DestinationHelloAcceptedIff | anp/anp/e2e_encryption_v2/session.py:254-303 | exactly when an answer is followed |
| V2Acceptances.FinishedAcceptedIff | anp/anp/e2e_encryption_v2/session.py:305-350 | exactly when a Finished makes the session ACTIVE |
| V2Acceptances.FirstShareIff | anp/anp/e2e_encryption_v2/session.py:216-223 | the share that is used is the first of the supported group |
| V2Acceptances.HellosNameTheirSender | anp/anp/e2e_encryption_v2/session.py:142-252 | both hellos carry the DIDs, random and share of their sender, and the answer the session id of the question |
| V2Acceptances.RefusedHelloKeeps | anp/anp/e2e_encryption_v2/session.py:173-303 | a refused hello leaves state and keys alone, except that a suite the cipher does not take leaves new keys |
| V2Acceptances.PartnerDataDecrypts | anp/anp/e2e_encryption_v2/session.py:352-400 | in every run an ACTIVE endpoint reads whatever its ACTIVE partner sends |
| KeyManagers.E2eeKeyManager.GetActiveSession | anp/anp/e2e_encryption_v2/key_manager.py:40-52 | the first active unexpired session of the pair, if there is one |
| KeyManagers.E2eeKeyManager.GetPendingSession | anp/anp/e2e_encryption_v2/key_manager.py:64-79 | a pending handshake in time is returned, an overdue one dropped |
| KeyManagers.E2eeKeyManager.PromotePendingSession | anp/anp/e2e_encryption_v2/key_manager.py:81-87 | the pending session leaves the pending index and is registered in the state its handshake left it in |
| KeyManagers.E2eeKeyManager.MakeRoom | anp/anp/e2e_encryption_v2/key_manager.py:163-172 | the oldest sessions beyond the limit leave the list together with their key ids, nothing else does |
| KeyManagers.E2eeKeyManager.Register | anp/anp/e2e_encryption_v2/key_manager.py:154-178 | all three indexes after registering |
| KeyManagers.E2eeKeyManager.RemoveSession | anp/anp/e2e_encryption_v2/key_manager.py:136-152 | all three indexes after removing |
| KeyManagers.E2eeKeyManager.CleanupPairs | anp/anp/e2e_encryption_v2/key_manager.py:99-124 | the lists keep their unexpired sessions in order, emptied lists go, the key ids of expired sessions go, and the result names the emptied lists once each |
| KeyManagers.E2eeKeyManager.CleanupExpired | anp/anp/e2e_encryption_v2/key_manager.py:93-134 | all three indexes after a cleanup, and the returned pairs |
| KeyManagerRuns.RegisterKeepsInv | anp/anp/e2e_encryption_v2/key_manager.py:154-178 | registering an ACTIVE session whose key id is free keeps the indexes in agreement and the lists bounded and ordered |
| KeyManagerRuns.RegisterAgreesIff | anp/anp/e2e_encryption_v2/key_manager.py:154-178 | registering an ACTIVE session leaves the index in agreement, at once and for every registration that follows, if and only if no session that stays listed has its key id |
| KeyManagerRuns.CleanupKeepsInv | anp/anp/e2e_encryption_v2/key_manager.py:93-134 | so does a cleanup |
| KeyManagerRuns.RemoveAgreesIff | anp/anp/e2e_encryption_v2/key_manager.py:136-152 | removing a session keeps the index in agreement if and only if the sessions taken off the list are those whose key id is taken off the index |
| KeyManagerRuns.IndexesAgree | anp/anp/e2e_encryption_v2/key_manager.py:81-178 | in every run whose registrations and removals meet these conditions the key-id index is exactly the sessions of the lists |
| KeyManagerRuns.ListsAreBoundedAndOrdered | anp/anp/e2e_encryption_v2/key_manager.py:154-178 | in every such run a pair's list is not empty, holds at most MAX_CONCURRENT_KEYS registered sessions of that pair and keeps the order of their last registration |
| KeyManagerRuns.LossReason | anp/anp/e2e_encryption_v2/key_manager.py:93-178 | a session that was registered and is gone was removed after that, had expired at a cleanup after that, or made room for two later registrations under its pair key |
| KeyManagerRuns.CleanupLeavesNoExpired | anp/anp/e2e_encryption_v2/key_manager.py:93-134 | after a cleanup neither index holds an expired session and no pending handshake is over time |
| KeyManagerTimes.CleanupKeepsIff | anp/anp/e2e_encryption_v2/key_manager.py:99-124 | a listed session activated at a time with a lifetime stays listed and indexed after a cleanup if and only if their sum has not passed; one without them always stays |
| KeyManagerTimes.FirstUsableIff | anp/anp/e2e_encryption_v2/key_manager.py:40-52 | what is returned for a pair is the first session of its list that is ACTIVE and within its lifetime, and nothing if and only if there is none |
| KeyManagerTimes.RegisteredIsFound | anp/anp/e2e_encryption_v2/key_manager.py:154-178 | a session registered within its lifetime is returned, unless an older usable one comes first |
| KeyManagerTimes.PendingUntil | anp/anp/e2e_encryption_v2/key_manager.py:64-134 | a pending session is handed out, and survives a cleanup, if and only if its 300 seconds have not passed |
| KeyManagerTimes.PromotedIsListed | anp/anp/e2e_encryption_v2/key_manager.py:81-87 | a promoted session is listed last, indexed and no longer pending |
| KeyManagerTimes.RemovedIsGone | anp/anp/e2e_encryption_v2/key_manager.py:136-152 | a removed session is neither pending nor listed nor indexed; sessions of other ids stay |
| KeyManagerRuns.SplitInverts | anp/anp/e2e_encryption_v2/key_manager.py:123-124 | a pair is read back from its key if and only if the local DID holds no bar |
| KeyManagerRuns.NamedIff | anp/anp/e2e_encryption_v2/key_manager.py:119-134 | a pair is returned if and only if its local DID holds no bar and its key has listed sessions, all of them expired |
| KeyManagerRuns.RehandshakeExact | anp/anp/e2e_encryption_v2/key_manager.py:119-134 | the returned list is exactly the pairs that lost their last session if and only if for every expired session its pair keeps another one, or its whole list has expired and its local DID holds no bar |
| KeyManagerRuns.BarFreeRehandshake | anp/anp/e2e_encryption_v2/key_manager.py:119-134 | without a bar in any local DID the returned list is exactly the pairs that lost their last session |
| KeyManagerRuns.NamedForNothingIff | anp/anp/e2e_encryption_v2/key_manager.py:119-134 | a pair is returned although it lost nothing if and only if its local DID holds no bar and its key was used by sessions of other pairs only, all of them expired |
| KeyManagerRuns.SoleSessionNames | anp/anp/e2e_encryption_v2/key_manager.py:119-134 | dropping the only session of the DIDs `a`-bar-`b` and `c` reports `a` and `b`-bar-`c` and not the pair itself |
| KeyManagerRuns.DoubleRegistrationBreaksIndex | anp/anp/e2e_encryption_v2/key_manager.py:161-178 | one session registered twice and another one after it: the first stays listed without being indexed |
| Mesh.BluetoothMesh.Broadcast | swarm/bluetooth_mesh.py:47-63 | the envelope sent, and its id in the cache |
| Mesh.BluetoothMesh.OnReceive | swarm/bluetooth_mesh.py:75-106 | cache, delivery and relayed copy for every kind of input, including the cases in which delivery raises and nothing is relayed |
| Mesh.HandledIffNotRecent | swarm/bluetooth_mesh.py:81-88 | after any history a message is handled if and only if its id was neither handled nor broadcast here within the last SEEN_CACHE_TTL |
| Mesh.HandlingsFarApart | swarm/bluetooth_mesh.py:112-127 | two handlings of one id at one node are at least SEEN_CACHE_TTL apart |
| MeshRuns.RelayWeighsLess | swarm/bluetooth_mesh.py:99-106 | all copies a relay sends out together weigh less than the copy it consumed |
| MeshRuns.ConsumingDecreases | swarm/bluetooth_mesh.py:75-106 | every reception or loss lowers the weight of what is in flight |
| MeshRuns.FloodTerminates | swarm/bluetooth_mesh.py:47-106 | over every topology and schedule the receptions and losses are bounded by the initial flight and D (D+1)^MAX_HOPS per broadcast |
| MeshRuns.EveryCopyOk | swarm/bluetooth_mesh.py:99-105 | every copy in flight has a hop count within the limit and a duplicate-free seen_by list of at most hop_count + 1 nodes |
| MeshCoverages.ReachedIff | swarm/bluetooth_mesh.py:75-106 | when no copy is lost and all have arrived, in whatever order, a node has handled a message, be it for all or for one node, if and only if it is a peer of a node that passes it on and handled it with hops left |
| MeshCoverages.ReachedIsNear | swarm/bluetooth_mesh.py:99-106 | in no order does a message get further than MAX_HOPS + 1 links, or over fewer links than there are |
| MeshCoverages.OrderedFloodCovers | swarm/bluetooth_mesh.py:75-106 | delivered in order of hop counts it reaches exactly the nodes with a walk of at most MAX_HOPS + 1 links whose inner nodes are not the destination, each over a shortest one |
| MeshCoverages.DeliveredIff | swarm/bluetooth_mesh.py:90-97 | in any order, the payload goes to a handler at exactly the reached nodes it is for that have one for its type |
| MeshCoverages.OneDestination | swarm/bluetooth_mesh.py:75-106 | a message to one node, delivered in order, gets to a handler there if and only if the node is within MAX_HOPS + 1 links, and to none elsewhere |
| MeshDetours.LongWayRound | swarm/bluetooth_mesh.py:81-106 | a run without losses in which a message for all, or for that node, misses a node two links from the origin |
| XorMetric.XorInjective | swarm/kbucket.py:19-21 | distance to a fixed id tells ids apart |
| XorMetric.TopBit | swarm/kbucket.py:81-85 | a positive number lies between the powers of two its bit length names |
| Kademlia.KBucket.Add | swarm/kbucket.py:38-52 | a known contact moves to the tail, a new one is appended, a full bucket loses its head |
| Kademlia.KBucket.EvictStale | swarm/kbucket.py:61-64 | the contacts past the age go, the order of the others stays |
| Kademlia.RoutingTable.AddNode | swarm/kbucket.py:87-92 | only the bucket of the id changes; the own id changes nothing |
| Kademlia.RoutingTable.FindClosestNodes | swarm/kbucket.py:94-102 | the stable sort of all contacts, cut to the count |
| Kademlia.RoutingTable.EvictStale | swarm/kbucket.py:111-114 | every bucket drops its stale contacts |
| KademliaRuns.IndexInRange | swarm/kbucket.py:81-85 | the bucket index of any other 160-bit id is the top set bit of its distance and lies in 0..159 |
| KademliaRuns.RunKeepsTableOk | swarm/kbucket.py:38-114 | under every sequence of add_node and evict_stale the own id is absent, each id is stored once and in its bucket, buckets hold at most K contacts, least recently seen first |
| KademliaRuns.EvictedIsSuffix | swarm/kbucket.py:61-64 | evict_stale removes exactly a prefix of each bucket |
| KademliaLrus.BucketsAreMostRecent | swarm/kbucket.py:38-64 | after every run each bucket holds the K most recently added of the contacts that a bucket without limit would hold, in the order of their last addition |
| KademliaLrus.UnlimitedIff | swarm/kbucket.py:38-64 | a bucket without limit holds exactly the contacts that were not added again since and were young enough at every eviction |
| KademliaRuns.SortBySorts | swarm/kbucket.py:99-102 | the sort yields a permutation in order of distance |
| KademliaRuns.FindClosestIsNearest | swarm/kbucket.py:94-102 | find_closest returns exactly the min(count, size) contacts nearest to the target, nearest first, and no other list does |
| KademliaRuns.LowerBucketNearer | swarm/kbucket.py:81-85 | every contact of a lower bucket is strictly nearer than every contact of a higher one |
| KademliaRuns.FindClosestToOwnScans | swarm/kbucket.py:94-109 | for the own id the search equals reading the buckets from 0 upward |
| TaskWorkers.CollectFields | ml/task_workers.py:34-38 | exactly the fields with a numeric value, each with all its values in window order |
| TaskWorkers.FieldStats | ml/task_workers.py:32-46 | the mean, and the non-negative number whose square is the variance |
| TaskWorkers.RunClean | ml/task_workers.py:53-72 | missing values become the window mean or 0, numbers are clipped to three deviations, anything else is kept |
| TaskWorkers.RunAnomaly | ml/task_workers.py:96-127 | exactly the fields the sigma rule flags, with their severity, and the overall status |
| SigmaRule.CauchySchwarz | ml/task_workers.py:42-43 | the square of a sum is at most the length times the sum of squares |
| SigmaRule.Samuelson | ml/task_workers.py:42-44 | a member of a window of n values deviates from the mean by at most sqrt(n - 1) standard deviations, in squared form |
| SigmaRule.WindowMemberBounds | ml/task_workers.py:62-70 | a member of its own window is never flagged for n <= 7, never HIGH for n <= 10, never CRITICAL for n <= 17 and never changed by the clip for n <= 10 |
| SigmaRule.OwnReadingBounds | ml/task_workers.py:104-122 | the same for a reading that is already part of the window it is judged against |
| SigmaRule.SharpWindowLengths | ml/task_workers.py:104-122 | the bounds are sharp: some window of n values flags, marks HIGH, marks CRITICAL or clips one of its members if and only if n is at least 8, 11, 18 or 11 |
| SigmaRule.JudgedIff | ml/task_workers.py:104-122 | a value, above or below the mean, is flagged, HIGH or CRITICAL if and only if it is more than 2.5, 3 or 4 deviations off, in squared form |
| SigmaRule.ClippedIsNearest | ml/task_workers.py:62-70 | the clip is the nearest point within three deviations |
| LeastSquares.DenominatorClosedForm | ml/task_workers.py:155-162 | denom is n^2 (n^2 - 1) / 12, positive from two values on, so the zero-denominator branch is dead |
| LeastSquares.NormalEquations | ml/task_workers.py:163-165 | the residuals of the fitted line sum to zero, and so do their products with the positions |
| LeastSquares.SsrDecomposition | ml/task_workers.py:151-165 | the residual sum of any line exceeds that of the fitted line by exactly the squared length of their difference |
| LeastSquares.LeastSquaresOptimal | ml/task_workers.py:151-165 | for two values or more the returned line is the only one with the least sum of squared residuals |
| DidWbaVerifiers.DidWbaVerifier.IsValidServerNonce | anp/anp/authentication/did_wba_verifier.py:253-274 | expired nonces go, a known nonce is refused, a new one is remembered with its time |
| DidWbaVerifiers.DidWbaVerifier.PassGates | anp/anp/authentication/did_wba_verifier.py:149-155 | a request with a bad timestamp leaves the nonce table untouched |
| DidWbaVerifiers.NonceRemembered | anp/anp/authentication/did_wba_verifier.py:253-274 | an accepted nonce stays known for its lifetime, whatever comes between |
| DidWbaVerifiers.AcceptedIff | anp/anp/authentication/did_wba_verifier.py:192-274 | in every run, with a clock reading for each gate, a request passes if and only if its timestamp is acceptable and every earlier accepted request with its nonce is older than the nonce lifetime |
| DidWbaVerifiers.ReplaySafeIff | anp/anp/authentication/did_wba_verifier.py:149-274 | no run whose two clock readings per request are at most a gap apart accepts a nonce-timestamp pair twice if and only if nonces live at least a minute and that gap longer than timestamps, or no timestamp is ever accepted |
| DidWbaVerifiers.ShortMemoryReplays | anp/anp/authentication/did_wba_verifier.py:256-264 | with any shorter nonce lifetime a concrete run of two requests replays one |
| DidWbaVerifiers.DefaultsAreReplaySafe | anp/anp/authentication/did_wba_verifier.py:58-59 | the defaults are safe for readings that agree and for no larger gap; one more minute of nonce lifetime is safe for gaps up to a minute |
| DidWbaVerifiers.TimestampIff | anp/anp/authentication/did_wba_verifier.py:192-216 | with the defaults a timestamp passes if and only if it is at most five minutes old and one minute ahead |
| AuthHeaders.ExtractAuthHeaderParts | anp/anp/authentication/did_wba.py:1027-1055 | six leftmost matches, of which only the version is optional |
| AuthHeaders.FindVerificationMethod | anp/anp/authentication/did_wba.py:748-777 | the first match in verificationMethod, then in authentication, and the failure on a method without an id |
| AuthHeaderLaws.SearchByParts | anp/anp/authentication/did_wba.py:1027-1045 | the regular-expression search equals a walk over the text cut at its quotes |
| AuthHeaderLaws.AllFoundIff | anp/anp/authentication/did_wba.py:1042-1055 | in any printed list of plain fields all are found if and only if none is hidden by an earlier value |
| AuthHeaderLaws.RoundTripIff | anp/anp/authentication/did_wba.py:734-741 | a printed header is read back unchanged if and only if every value is non-empty, holds no quote and is not hidden |
| AuthHeaderLaws.HiddenIsLost | anp/anp/authentication/did_wba.py:1042-1047 | what is read for a hidden field is the text that follows the first value hiding it |
| AuthHeaderLaws.HiddenSignature | anp/anp/authentication/did_wba.py:1027-1033 | a DID ending in the key of the signature hides it: the text after the DID is read for it |
| AuthHeaderLaws.EndsWithSignature | anp/anp/authentication/did_wba.py:1027-1033 | two such DIDs, one in plain letters and one in letters of other alphabets that the pattern matches |
| AuthHeaderLaws.PlainValuesRoundTrip | anp/anp/authentication/did_wba.py:734-741 | values that are non-empty, hold no quote and do not end in an equals sign are always read back |
| AuthHeaderLaws.AcceptedIff | anp/anp/authentication/did_wba.py:1077-1117 | a generated header that reads back unchanged, shown for any document and domain, is accepted if and only if the domain is the signed one, the document has the DID and the method looked up in it carries the signer's key |
| AuthHeaderLaws.LookedUpIdIff | anp/anp/authentication/did_wba.py:804-815 | the verifier looks for the id the signer went by if and only if that id is the DID, a hash and a fragment without another hash |
| AuthHeaderLaws.SelectedIsFoundIff | anp/anp/authentication/did_wba.py:780-820 | the selected method is the one found under its id unless it is embedded and verificationMethod answers first with another |
| AuthHeaderLaws.OwnHeaderAccepted | anp/anp/authentication/did_wba.py:691-746 | a document accepts every header generated from it that reads back unchanged, when its authentication method has an id below its DID that leads back to it |
| AuthHeaderLaws.RelativeReferenceIff | anp/anp/authentication/did_wba.py:804-809 | a document whose method goes by a relative id accepts its own header, if it reads back unchanged, if and only if a method under the full id carries the same key |
| AuthHeaderLaws.RelativeReferenceRejected | anp/anp/authentication/did_wba.py:804-809 | a document with a relative reference to its only method signs but accepts no header at all |
| AuthHeaderLaws.UsualDocumentAccepted | anp/anp/authentication/did_wba.py:691-820 | a document whose methods have distinct ids below its DID, the authentication method at any place among them, generates headers and accepts those that read back, for the signed domain only |
| AuthHeaderLaws.FindInIff | anp/anp/authentication/did_wba.py:760-763 | in a list of methods the first with the id is found, wherever it stands; the search fails on a method without an id that comes before it |
| AuthHeaderLaws.EntriesIff | anp/anp/authentication/did_wba.py:765-777 | behind the list only methods embedded in authentication are found, never a reference |
| AuthHeaderLaws.SchemeNeeded | anp/anp/authentication/did_wba.py:1036-1040 | past spaces in front, every header that is read begins with the scheme |
| AuthHeaderLaws.VersionDefaults | anp/anp/authentication/did_wba.py:1049-1051 | a header of plain values without a version is read back with version 1.1 |
| SchemaRefs.FollowRef | anp/anp/anp_crawler/anp_interface.py:467-504 | walks the components along the path, failing on a foreign form, a missing part or a target that is no object |
| SchemaRefPaths.RefResolvesIff | anp/anp/anp_crawler/anp_interface.py:467-504 | a reference to two or more plain keys below components resolves to the object the keys lead to, and to nothing if and only if they lead to none |
| SchemaRefPaths.OtherFormsUnresolved | anp/anp/anp_crawler/anp_interface.py:478-490 | a reference of any other form resolves to nothing |
| SchemaRefPaths.ReferenceResolves | anp/anp/anp_crawler/anp_interface.py:426-435 | a schema with a reference resolves to what the non-empty object it names resolves to, and to the unresolved note without one |
| SchemaRefPaths.RoomResolves | anp/anp/anp_crawler/anp_interface.py:467-477 | the documented reference resolves to the schema it names |
| SchemaRefs.ResolveSchemaRefs | anp/anp/anp_crawler/anp_interface.py:412-465 | terminates on acyclic components, by the rank of the references and then the size of the schema, and computes the recursive specification |
| SchemaRefLaws.ResolvedIsRefFree | anp/anp/anp_crawler/anp_interface.py:412-465 | the result has no reference at any position a walk visits, and is an object if and only if the schema was |
| SchemaRefLaws.RefFreeIsUnchanged | anp/anp/anp_crawler/anp_interface.py:437-465 | a schema without references stays as it is |
| SchemaRefLaws.ResolveIdempotent | anp/anp/anp_crawler/anp_interface.py:412-465 | resolving twice is resolving once |
| SchemaRefLaws.RankIrrelevant | anp/anp/anp_crawler/anp_interface.py:426-435 | the result does not depend on the ranking that shows termination |
| SchemaRefLaws.LookupCommutes | anp/anp/anp_crawler/anp_interface.py:412-465 | walking the resolved schema along any path finds what following references on the way finds, resolved |
| HealthMonitors.HealthMonitor.OnPing | swarm/health_monitor.py:97-182 | the node's status, counters, pending mark and history after one ping; no other node changes |
| HealthMonitors.HealthMonitor.SweepSilent | swarm/health_monitor.py:185-196 | exactly the silent nodes that are neither dead nor reconnecting become dead |
| HealthMonitors.HealthMonitor.Round | swarm/health_monitor.py:88-196 | every node after a whole round: pinged at most once, then checked for silence |
| HealthMonitors.HealthMonitor.IsNodeTrusted | swarm/health_monitor.py:282-287 | alive and not flapping |
| HealthRuns.RunKeepsNodeOk | swarm/health_monitor.py:123-182 | in every run a node awaiting its handshake is reconnecting, degraded or dead, and an alive node has no failures on record |
| HealthRuns.OnlyHandshakeRevives | swarm/health_monitor.py:126-139 | a node awaiting its handshake becomes alive if and only if it answers, is validated and was not dead a moment ago |
| HealthRuns.HistoryBoundInvisible | swarm/health_monitor.py:63-69 | in every run a monitor that keeps the last changes only goes through the same statuses as one that forgets none |
| HealthRuns.SameFlappingVerdict | swarm/health_monitor.py:57-69 | the last 20 changes give the same flapping verdict as the full history, at every later time |
| HealthRuns.DeadReturnsByHandshake | swarm/health_monitor.py:88-196 | in every run of the loop a node that was dead after one pass and is alive in the course of a later one had its handshake validated in between |
| HealthRuns.PassesKeepNodeOk | swarm/health_monitor.py:155-196 | a node that is dead after a pass awaits its handshake, has used up its retries or has been silent too long, so a failed ping cannot bring it back |
| HealthRuns.HandshakeRevives | swarm/health_monitor.py:126-139 | a dead node that answers two pings, and is found trusted at the second, is alive |
| HealthRuns.AliveIff | swarm/health_monitor.py:123-160 | an answered ping makes a node alive if and only if it was not dead and is validated, if it awaits that, or not flapping |
| HealthRuns.FailuresInARow | swarm/health_monitor.py:161-182 | an alive node is degraded by its first two failed pings in a row and dead from the third |
| HealthRuns.SilentIff | swarm/health_monitor.py:185-196 | the sweep declares dead exactly the nodes silent for more than 30 seconds that are not reconnecting |
| HealthRuns.FlappingIff | swarm/health_monitor.py:57-69 | flapping is five recorded changes or more within a minute |
| HealthRuns.ChangesLogged | swarm/health_monitor.py:123-196 | exactly the turns to alive, dead and reconnecting are recorded |
| HealthRuns.PingCounts | swarm/health_monitor.py:97-182 | the counters and times a ping leaves, and the status of a flapping or unvalidated node |
| TaskDistributors.DistributeTasks | swarm/task_distributor.py:61-97 | local and remote lists hold what the turn and the send outcomes place there, and the offers go to the worker peers in turn |
| TaskDistributors.OrderKept | swarm/task_distributor.py:67-95 | every list holds exactly the requests placed there, in the order they were made |
| TaskDistributors.DistributionConserves | swarm/task_distributor.py:55-97 | for every pattern of send failures local and remote lists together are the requested multiset |
| TaskDistributors.PlacedAtTarget | swarm/task_distributor.py:85-88 | a request that is placed at a peer is placed at the peer it was offered to |
| TaskDistributors.FairShares | swarm/task_distributor.py:69-70 | of the offers the distribution makes, any two worker peers get the same number, up to one |
| TaskDistributors.EqualShares | swarm/task_distributor.py:67-73 | every worker peer is offered its equal share, rounded down or up |
| TaskDistributors.LocalIff | swarm/task_distributor.py:69-95 | a request stays local if and only if there is no worker peer or its send fails |
| TaskDistributors.WorkerIdsIff | swarm/task_distributor.py:55-59 | the peers that take part are exactly the other nodes with the worker role |

## Left out

- Cryptographic internals: HPKE, HKDF, AES-GCM, ECDSA, key encodings and proof objects; conformance to RFC 9180 or to JCS (RFC 8785) is not claimed.
- Sockets, threads, locks, asyncio, HTTP, BLE transport, files, databases, LLM calls, logging and printing.
- Interleavings inside one handler, such as between the seen check and the seen mark of the mesh.
- Floating-point rounding in the statistics workers, including the rounding of reported values.
- Replays of init and rekey messages across session incarnations: a run has one genuine init, and junk besides it.
- In the HPKE and group messages the type field is not authenticated; the results are about the texts.
- GroupRuns.AcceptedArePrefix: assumes, as the source intends, that the local key is generated once per epoch.
- The sequence manager of a group sender key is held by value in the key; it has no other reference in the source.
- The key manager holds registered sessions by value, since an ACTIVE v2 session no longer changes; a session registered before it is ACTIVE and changed afterwards is not modelled. Pending sessions are references.
- In the v2 handshake any hello may pass its proof check, because the key it is checked against comes with it; who owns a key share is what the results speak of, not who signed it.
- Associated data and ids built by string formatting are taken as tuples of their fields, except the pair keys of the v2 key manager and the header and method ids of the DIDWba code, which are strings.
- Kademlia node ids are taken by value, so the letter case of hexadecimal digits does not show; iterative lookups over the network are left out.
- Mesh.HandlingsFarApart: assumes a clock that never goes back; the source reads the wall clock.
- MeshCoverages.OrderedFloodCovers: about links that stay as they are, at nodes whose handlers raise nothing.
- The mesh network of the runs does not duplicate copies on its own; it may lose and reorder them.
- The external nonce validator, the JWT flow and DID resolution of the verifier.
- AuthHeaders.LowerCase: folds the letters A to Z of a DID only; the source folds all letters when it compares DIDs.
- v2 hellos with missing or ill-typed fields, and texts with lone surrogates, which raise before or while keys are derived.
- Parsing of the version number is a parameter, and so are the kinds of verification methods.
- Reference graphs with cycles, on which the source does not terminate normally, and the tilde escapes of section 4 of RFC 6901, which it does not decode.
- Reassignment of work from dead nodes and the events the health monitor publishes.
- The remaining workers (trend report, history, action), agents, goals, learned parameters, buses, message models, adapters and receipts.

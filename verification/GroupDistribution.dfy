/** When a distributed sender key lets its receiver accept anything: exactly when it was distributed before its first
    use. */
module GroupDistributions {
  import opened Wrappers
  import opened E2eeMessages
  import opened Ratchet
  import opened SequenceNumbers
  import opened GroupSessions
  import opened GroupRuns

  // ---- Every text sent under a key is on the wire ----

  ghost predicate AllOnWire(w: World) {
    forall t, n: nat :: t in w.seeds && n < |Log(w.sent, t)| ==> Genuine(w, t, n) in w.wire
  }

  lemma SendKeepsAllOnWire(w: World, originalType: string, text: string)
    requires Inv(w) && AllOnWire(w)
    ensures AllOnWire(AfterSend(w, originalType, text))
  {
    var v, t := AfterSend(w, originalType, text), LocalTuple(w.sender);
    var r := EncryptGroup(w.sender, originalType, text).1;
    if r.Success? {
      assert r.value.ciphertext == Genuine(v, t, |Log(w.sent, t)|);
      forall u, n: nat | u in v.seeds && n < |Log(v.sent, u)|
        ensures Genuine(v, u, n) in v.wire
      {
        if n < |Log(w.sent, u)| {
          assert Genuine(v, u, n) == Genuine(w, u, n);
        }
      }
    } else {
      SameSentKeepsAllOnWire(w, v);
    }
  }

  lemma SameSentKeepsAllOnWire(w: World, v: World)
    requires AllOnWire(w) && v.sent == w.sent && v.wire == w.wire && v.sender.groupDid == w.sender.groupDid
    requires forall t :: t in w.seeds ==> t in v.seeds && v.seeds[t] == w.seeds[t]
    requires forall t :: t in v.seeds && t !in w.seeds ==> Log(w.sent, t) == []
    ensures AllOnWire(v)
  {
    forall t, n: nat | t in v.seeds && n < |Log(v.sent, t)|
      ensures Genuine(v, t, n) in v.wire
    {
      assert Genuine(v, t, n) == Genuine(w, t, n);
    }
  }

  lemma StepKeepsAllOnWire(u: World, e: Event, w: World)
    requires Inv(u) && AllOnWire(u) && IsStep(u, e, w)
    ensures AllOnWire(w)
  {
    if e.Send? {
      SendKeepsAllOnWire(u, e.originalType, e.text);
    } else {
      SameSentKeepsAllOnWire(u, w);
    }
  }

  lemma {:induction false} RunKeepsAllOnWire(ws: seq<World>, es: seq<Event>, i: nat)
    requires Run(ws, es) && Inv(ws[0]) && AllOnWire(ws[0]) && i < |ws|
    ensures Inv(ws[i]) && AllOnWire(ws[i])
  {
    if i > 0 {
      RunKeepsAllOnWire(ws, es, i - 1);
      StepKeepsInv(ws[i - 1], es[i - 1], ws[i]);
      StepKeepsAllOnWire(ws[i - 1], es[i - 1], ws[i]);
    }
  }

  lemma ReachableAllOnWire(w: World)
    requires Reachable(w)
    ensures Inv(w) && AllOnWire(w)
  {
    var ws, es :| Run(ws, es) && StartsFresh(ws[0]) && w == ws[|es|];
    assert Inv(ws[0]) && AllOnWire(ws[0]);
    RunKeepsAllOnWire(ws, es, |es|);
  }

  // ---- The depth of the distributed chain ----

  /** The chain key in a distribution message is the start of its chain exactly when the sender has not used the key. */
  lemma DistributedDepth(w: World, recipientKey: nat)
    requires Reachable(w) && w.sender.local.Some?
    ensures var c := BuildDistribution(w.sender, recipientKey).value;
            Depth(c.box.chainKey) == 0 <==> w.sender.local.value.seqs.sendSeq == 0
  {
    ReachableInv(w);
  }

  // ---- What a step does to one stored key ----

  /** The step leaves key `t` as it was, or drops it. */
  ghost predicate KeyStays(w: World, v: World, t: KeyTuple) {
    && v.sender.localDid == w.sender.localDid && t in v.receiver.received && Log(v.got, t) == Log(w.got, t)
    && (t in v.receiver.remotes ==> t in w.receiver.remotes && SameChain(v.receiver.remotes[t], w.receiver.remotes[t]))
  }

  predicate SameChain(k: SenderKey, l: SenderKey) {
    k.chainKey == l.chainKey && k.seqs.recvSeq == l.seqs.recvSeq
  }

  lemma KeyMessageLeaves(w: World, t: KeyTuple, c: KeyContent, proofOk: bool, now: int)
    requires t in w.receiver.received
    ensures KeyStays(w, AfterDeliverKey(w, c, proofOk, now), t)
  {
  }

  lemma AdvanceLeaves(w: World, t: KeyTuple, version: string, proofOk: bool, newEpoch: int)
    requires t in w.receiver.received
    ensures KeyStays(w, w.(receiver := ProcessEpochAdvance(w.receiver, version, proofOk, newEpoch).0), t)
  {
  }

  lemma SenderLeaves(w: World, e: Event, t: KeyTuple)
    requires t in w.receiver.received && (e.Generate? || e.Distribute? || e.Send? || e.SenderAdvance?)
    ensures KeyStays(w, Step(w, e), t)
  {
  }

  /** Every step but a message leaves the key. */
  lemma QuietLeaves(w: World, e: Event, t: KeyTuple)
    requires t in w.receiver.received && !e.DeliverMsg?
    ensures KeyStays(w, Step(w, e), t)
  {
    match e
    case DeliverKey(c, proofOk, now) => KeyMessageLeaves(w, t, c, proofOk, now);
    case ReceiverAdvance(version, proofOk, newEpoch) => AdvanceLeaves(w, t, version, proofOk, newEpoch);
    case ReceiverCleanup(now) =>
    case _ => SenderLeaves(w, e, t);
  }

  /** A message leaves the key, or it is accepted under it: then its chain is where its counter is before and after. */
  lemma MessageMoves(w: World, t: KeyTuple, c: GroupMsg, now: int)
    requires Inv(w) && Allowed(w, DeliverMsg(c, now))
    requires t in w.receiver.received && t.senderDid == w.sender.localDid
    ensures var v := AfterDeliverMsg(w, c, now);
            || KeyStays(w, v, t)
            || (t in w.receiver.remotes && t in v.receiver.remotes && t in v.receiver.received
                && v.sender.localDid == w.sender.localDid
                && Depth(w.receiver.remotes[t].chainKey) == w.receiver.remotes[t].seqs.recvSeq
                && Depth(v.receiver.remotes[t].chainKey) == v.receiver.remotes[t].seqs.recvSeq)
  {
    MsgTouchesOneKey(w, c, now);
    if MsgTuple(c) == t && t in w.receiver.remotes {
      var k := w.receiver.remotes[t];
      assert KeyOk(w, t);
      DecryptMoves(k, c, now);
      if DecryptGroup(w.receiver, c, now).1.Success? {
        AcceptedIsGenuine(w, c, now);
      }
    }
  }

  // ---- A key out of step ----

  /** The key has been installed, has accepted nothing and its chain is ahead of its counter. */
  ghost predicate OutOfStep(w: World, t: KeyTuple) {
    && t.senderDid == w.sender.localDid && t in w.receiver.received && Log(w.got, t) == []
    && (t in w.receiver.remotes ==>
          w.receiver.remotes[t].seqs.recvSeq == 0 && Depth(w.receiver.remotes[t].chainKey) > 0)
  }

  lemma OutOfStepStays(w: World, t: KeyTuple, e: Event, v: World)
    requires Inv(w) && OutOfStep(w, t) && IsStep(w, e, v)
    ensures OutOfStep(v, t)
  {
    if e.DeliverMsg? {
      MessageMoves(w, t, e.msg, e.now);
      assert KeyStays(w, v, t);
    } else {
      QuietLeaves(w, e, t);
    }
  }

  lemma {:induction false} OutOfStepForever(ws: seq<World>, es: seq<Event>, i: nat, t: KeyTuple)
    requires Run(ws, es) && Inv(ws[0]) && OutOfStep(ws[0], t) && i < |ws|
    ensures OutOfStep(ws[i], t)
  {
    if i > 0 {
      OutOfStepForever(ws, es, i - 1, t);
      RunKeepsInv(ws, es, i - 1);
      OutOfStepStays(ws[i - 1], t, es[i - 1], ws[i]);
    }
  }

  // ---- A key in step ----

  /** As long as the key is stored, its chain is where its counter is. */
  ghost predicate InStep(w: World, t: KeyTuple) {
    && t.senderDid == w.sender.localDid && t in w.receiver.received
    && (t in w.receiver.remotes ==>
          Depth(w.receiver.remotes[t].chainKey) == w.receiver.remotes[t].seqs.recvSeq)
  }

  lemma InStepStays(w: World, t: KeyTuple, e: Event, v: World)
    requires Inv(w) && InStep(w, t) && IsStep(w, e, v)
    ensures InStep(v, t)
  {
    if e.DeliverMsg? {
      MessageMoves(w, t, e.msg, e.now);
    } else {
      QuietLeaves(w, e, t);
    }
  }

  lemma {:induction false} InStepForever(ws: seq<World>, es: seq<Event>, i: nat, t: KeyTuple)
    requires Run(ws, es) && Inv(ws[0]) && InStep(ws[0], t) && i < |ws|
    ensures InStep(ws[i], t)
  {
    if i > 0 {
      InStepForever(ws, es, i - 1, t);
      RunKeepsInv(ws, es, i - 1);
      InStepStays(ws[i - 1], t, es[i - 1], ws[i]);
    }
  }

  // ---- Installing a distributed key ----

  /** The receiver of `w` installs the key message `c` that the sender of `a` built, and is then in `u`. */
  ghost predicate Installs(a: World, recipientKey: nat, c: KeyContent, w: World, now: int, u: World) {
    && Reachable(a) && BuildDistribution(a.sender, recipientKey) == Success(c)
    && Reachable(w) && c.senderDid == w.sender.localDid && IsStep(w, DeliverKey(c, true, now), u)
    && ProcessSenderKey(w.receiver, c, true, now).1.Success?
  }

  /** The sender of `a` has not encrypted anything under its key yet. */
  predicate UnusedKey(a: World) {
    a.sender.local.Some? && a.sender.local.value.seqs.sendSeq == 0
  }

  lemma InstalledState(a: World, recipientKey: nat, c: KeyContent, w: World, now: int, u: World)
    requires Installs(a, recipientKey, c, w, now, u)
    ensures var t := TupleOf(c);
            && Inv(u) && AllOnWire(u) && t in u.seeds && t in u.receiver.remotes
            && (if UnusedKey(a) then InStep(u, t) else OutOfStep(u, t))
  {
    ReachableAllOnWire(w);
    DistributedDepth(a, recipientKey);
    StepKeepsInv(w, DeliverKey(c, true, now), u);
    StepKeepsAllOnWire(w, DeliverKey(c, true, now), u);
    assert KeyOk(u, TupleOf(c));
    assert TupleOf(c) !in w.got;
  }

  /** In every continuation the next genuine message under the installed key decrypts if and only if the key was
      distributed before its first use. */
  lemma NextDecryptsIffUnused(a: World, recipientKey: nat, c: KeyContent, w: World, now: int,
                              ws: seq<World>, es: seq<Event>, msg: GroupMsg, later: int)
    requires |ws| > 0 && Installs(a, recipientKey, c, w, now, ws[0]) && Run(ws, es)
    requires var v, t := ws[|es|], TupleOf(c);
             && t in v.receiver.remotes && t in v.seeds && v.receiver.remotes[t].seqs.recvSeq < |Log(v.sent, t)|
             && msg.version == E2EE_VERSION && MsgTuple(msg) == t && msg.groupDid == v.sender.groupDid
             && msg.seqNo == v.receiver.remotes[t].seqs.recvSeq && msg.ciphertext == Genuine(v, t, msg.seqNo)
    ensures DecryptGroup(ws[|es|].receiver, msg, later).1
         == if UnusedKey(a) then Success(Plain(msg.originalType, Log(ws[|es|].sent, TupleOf(c))[msg.seqNo]))
            else Failure(DecryptFailed)
  {
    var t, v := TupleOf(c), ws[|es|];
    InstalledState(a, recipientKey, c, w, now, ws[0]);
    RunKeepsInv(ws, es, |es|);
    if UnusedKey(a) {
      InStepForever(ws, es, |es|, t);
    } else {
      OutOfStepForever(ws, es, |es|, t);
    }
    assert KeyOk(v, t);
    NextDecryptsIn(v, t, msg, later);
  }

  // ---- Whether anything can be accepted at all ----

  /** Some continuation accepts a message under the key. */
  ghost predicate CanAccept(u: World, t: KeyTuple) {
    exists ws: seq<World>, es: seq<Event> ::
      Run(ws, es) && ws[0] == u && Log(ws[|es|].got, t) != []
  }

  /** The sender has used the key or can still do so. */
  predicate HasMessages(u: World, t: KeyTuple) {
    Log(u.sent, t) != [] || (u.sender.local.Some? && LocalTuple(u.sender) == t)
  }

  lemma NoMessagesStays(w: World, t: KeyTuple, e: Event, v: World)
    requires t in w.seeds && !HasMessages(w, t) && IsStep(w, e, v)
    ensures t in v.seeds && !HasMessages(v, t)
  {
  }

  lemma {:induction false} NoMessagesForever(ws: seq<World>, es: seq<Event>, i: nat, t: KeyTuple)
    requires Run(ws, es) && t in ws[0].seeds && !HasMessages(ws[0], t) && i < |ws|
    ensures t in ws[i].seeds && !HasMessages(ws[i], t)
  {
    if i > 0 {
      NoMessagesForever(ws, es, i - 1, t);
      NoMessagesStays(ws[i - 1], t, es[i - 1], ws[i]);
    }
  }

  function FirstMessage(u: World, t: KeyTuple): GroupMsg
    requires t in u.seeds && Log(u.sent, t) != []
  {
    GroupMsg(E2EE_VERSION, u.sender.groupDid, t.epoch, t.senderDid, t.keyId, 0, "text", Genuine(u, t, 0))
  }

  /** The first message sent under an unused key in step is accepted. */
  lemma FirstIsAccepted(u: World, t: KeyTuple, now: int) returns (v: World)
    requires Inv(u) && AllOnWire(u) && InStep(u, t) && t in u.seeds && t in u.receiver.remotes
    requires Log(u.got, t) == [] && Log(u.sent, t) != []
    ensures IsStep(u, DeliverMsg(FirstMessage(u, t), now), v) && Log(v.got, t) != []
  {
    var msg := FirstMessage(u, t);
    v := AfterDeliverMsg(u, msg, now);
    assert KeyOk(u, t);
    NextDecryptsIn(u, t, msg, now);
    assert Genuine(u, t, 0) in u.wire;
  }

  lemma AcceptsInOne(u: World, e: Event, v: World, t: KeyTuple)
    requires IsStep(u, e, v) && Log(v.got, t) != []
    ensures CanAccept(u, t)
  {
    var ws, es := [u, v], [e];
    assert IsStep(ws[0], es[0], ws[1]);
    assert Run(ws, es) && Log(ws[|es|].got, t) != [];
  }

  lemma AcceptsLater(u: World, e: Event, v: World, t: KeyTuple)
    requires IsStep(u, e, v) && CanAccept(v, t)
    ensures CanAccept(u, t)
  {
    var ws: seq<World>, es: seq<Event> :| Run(ws, es) && ws[0] == v && Log(ws[|es|].got, t) != [];
    RunFrom(u, e, ws, es);
    assert Log(([u] + ws)[|[e] + es|].got, t) != [];
  }

  /** What the sender encrypts next goes out under its unused key. */
  lemma SendUses(u: World, t: KeyTuple)
    requires Inv(u) && Log(u.sent, t) == [] && HasMessages(u, t)
    ensures var v := AfterSend(u, "text", "");
            && Log(v.sent, t) != [] && v.receiver == u.receiver && v.got == u.got && v.seeds == u.seeds
            && v.sender.localDid == u.sender.localDid
  {
  }

  lemma SendAndAccept(u: World, t: KeyTuple)
    requires Inv(u) && AllOnWire(u) && InStep(u, t) && t in u.seeds && t in u.receiver.remotes
    requires Log(u.got, t) == [] && Log(u.sent, t) == [] && HasMessages(u, t)
    ensures CanAccept(u, t)
  {
    var e, v := Send("text", ""), AfterSend(u, "text", "");
    StepKeepsInv(u, e, v);
    StepKeepsAllOnWire(u, e, v);
    SendUses(u, t);
    var x := FirstIsAccepted(v, t, 0);
    AcceptsInOne(v, DeliverMsg(FirstMessage(v, t), 0), x, t);
    AcceptsLater(u, e, v, t);
  }

  lemma RunFrom(w: World, e: Event, ws: seq<World>, es: seq<Event>)
    requires Run(ws, es) && IsStep(w, e, ws[0])
    ensures Run([w] + ws, [e] + es) && ([w] + ws)[|[e] + es|] == ws[|es|]
  {
    var vs, fs := [w] + ws, [e] + es;
    forall i | 0 <= i < |fs|
      ensures IsStep(vs[i], fs[i], vs[i + 1])
    {
      if i > 0 {
        assert vs[i] == ws[i - 1] && fs[i] == es[i - 1] && vs[i + 1] == ws[i];
      }
    }
  }

  lemma CannotAccept(u: World, t: KeyTuple)
    requires Inv(u) && t in u.seeds && t.senderDid == u.sender.localDid
    requires OutOfStep(u, t) || !HasMessages(u, t)
    ensures !CanAccept(u, t)
  {
    forall ws: seq<World>, es: seq<Event> | Run(ws, es) && ws[0] == u
      ensures Log(ws[|es|].got, t) == []
    {
      if OutOfStep(u, t) {
        OutOfStepForever(ws, es, |es|, t);
      } else {
        NoMessagesForever(ws, es, |es|, t);
        RunKeepsInv(ws, es, |es|);
        SenderStays(ws, es, |es|);
        assert GotOk(ws[|es|], t);
      }
    }
  }

  lemma {:induction false} SenderStays(ws: seq<World>, es: seq<Event>, i: nat)
    requires Run(ws, es) && i < |ws|
    ensures ws[i].sender.localDid == ws[0].sender.localDid
  {
    if i > 0 {
      SenderStays(ws, es, i - 1);
      assert IsStep(ws[i - 1], es[i - 1], ws[i]);
    }
  }

  /** A receiver that has just installed a distributed key can ever accept a message under it if and only if the sender
      had not used the key when the distribution was built, and has used it since or still can. With a key distributed
      late it accepts none, in any continuation. */
  lemma CanAcceptIffUnused(a: World, recipientKey: nat, c: KeyContent, w: World, now: int, u: World)
    requires Installs(a, recipientKey, c, w, now, u)
    ensures CanAccept(u, TupleOf(c)) <==> UnusedKey(a) && HasMessages(u, TupleOf(c))
  {
    var t := TupleOf(c);
    InstalledState(a, recipientKey, c, w, now, u);
    NothingAcceptedYet(a, recipientKey, c, w, now, u);
    if !UnusedKey(a) || !HasMessages(u, t) {
      CannotAccept(u, t);
    } else if Log(u.sent, t) != [] {
      var v := FirstIsAccepted(u, t, now);
      AcceptsInOne(u, DeliverMsg(FirstMessage(u, t), now), v, t);
    } else {
      SendAndAccept(u, t);
    }
  }

  lemma NothingAcceptedYet(a: World, recipientKey: nat, c: KeyContent, w: World, now: int, u: World)
    requires Installs(a, recipientKey, c, w, now, u)
    ensures Log(u.got, TupleOf(c)) == [] && TupleOf(c).senderDid == u.sender.localDid
  {
    ReachableInv(w);
    assert TupleOf(c) !in w.got;
  }

  // ---- One group, in both orders ----

  lemma ReachableStep(w: World, e: Event, v: World)
    requires Reachable(w) && IsStep(w, e, v)
    ensures Reachable(v)
  {
    var ws, es :| Run(ws, es) && StartsFresh(ws[0]) && w == ws[|es|];
    var vs, fs := ws + [v], es + [e];
    forall i | 0 <= i < |fs|
      ensures IsStep(vs[i], fs[i], vs[i + 1])
    {
      if i < |es| {
        assert vs[i] == ws[i] && fs[i] == es[i] && vs[i + 1] == ws[i + 1];
      }
    }
    assert Run(vs, fs) && StartsFresh(vs[0]) && v == vs[|fs|];
  }

  lemma ReachableStart(s: Group, r: Group)
    requires IsNew(s) && IsNew(r)
    ensures Reachable(Initially(s, r))
  {
    var ws, es: seq<Event> := [Initially(s, r)], [];
    assert Run(ws, es) && StartsFresh(ws[0]);
  }

  /** A member generates its key and distributes it, before or after its first message. */
  function BeforeDistribution(s: Group, r: Group, seed: Key, late: bool, now: int): World {
    var w := AfterGenerate(Initially(s, r), seed, now);
    if late then AfterSend(w, "text", "early") else w
  }

  lemma BeforeDistributionIs(s: Group, r: Group, seed: Key, late: bool, now: int)
    requires IsNew(s) && IsNew(r) && seed.Seed?
    ensures var a := BeforeDistribution(s, r, seed, late, now);
            && Reachable(a) && a.receiver == r && a.sender.localDid == s.localDid && a.sender.epoch == s.epoch
            && a.sender.local.Some? && LocalTuple(a.sender) == LocalTuple(s)
            && a.sender.local.value.keyId == KeyId(s.shortHash, s.epoch)
            && (UnusedKey(a) <==> !late)
  {
    var w := Initially(s, r);
    var v := AfterGenerate(w, seed, now);
    ReachableStart(s, r);
    ReachableStep(w, Generate(seed, now), v);
    ReachableStep(v, Send("text", "early"), AfterSend(v, "text", "early"));
  }

  /** The key that is distributed before its first use is of use to its receiver. Distributed after it, it is not,
      although there are messages under it. */
  lemma OrderMatters(s: Group, r: Group, seed: Key, late: bool, now: int)
    requires IsNew(s) && IsNew(r) && seed.Seed?
    ensures var a := BeforeDistribution(s, r, seed, late, now);
            var w := AfterDistribute(a, r.hpkeKey);
            && BuildDistribution(a.sender, r.hpkeKey).Success?
            && var c := BuildDistribution(a.sender, r.hpkeKey).value;
               var u := AfterDeliverKey(w, c, true, now);
               Installs(a, r.hpkeKey, c, w, now, u) && HasMessages(u, TupleOf(c))
               && (CanAccept(u, TupleOf(c)) <==> !late)
  {
    var a := BeforeDistribution(s, r, seed, late, now);
    var w := AfterDistribute(a, r.hpkeKey);
    BeforeDistributionIs(s, r, seed, late, now);
    ReachableStep(a, Distribute(r.hpkeKey), w);
    var c := BuildDistribution(a.sender, r.hpkeKey).value;
    var u := AfterDeliverKey(w, c, true, now);
    assert IsStep(w, DeliverKey(c, true, now), u);
    CanAcceptIffUnused(a, r.hpkeKey, c, w, now, u);
  }
}

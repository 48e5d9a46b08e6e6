/** Runs of the v2 key manager: its indexes agree, its lists are bounded and in registration order, and a session
    leaves them only for a reason. */
module KeyManagerRuns {
  import opened Wrappers
  import opened V2Sessions
  import opened KeyManagers

  /** `Progress` is a handshake step of a session that is pending. */
  datatype Event =
    | RegisterPending(s: Session)
    | Progress(id: string, s: Session)
    | LookUp(id: string, now: int)
    | PromotePending(id: string)
    | RegisterDirectly(s: Session)
    | CleanUp(now: int)
    | RemoveOne(s: Session)

  /** The manager, with a log of what each event registered as active. */
  datatype World = World(m: Manager, log: seq<Option<Session>>)

  function After(m: Manager, e: Event): Manager {
    match e
    case RegisterPending(s) => m.(pending := m.pending[s.sessionId := s])
    case Progress(id, s) => if id in m.pending then m.(pending := m.pending[id := s]) else m
    case LookUp(id, now) => GetPending(m, id, now).0
    case PromotePending(id) => Promote(m, id)
    case RegisterDirectly(s) => RegisterActive(m, s)
    case CleanUp(now) => Cleanup(m, now)
    case RemoveOne(s) => Remove(m, s)
  }

  function Registered(m: Manager, e: Event): Option<Session> {
    match e
    case PromotePending(id) => if id in m.pending then Some(m.pending[id]) else None
    case RegisterDirectly(s) => Some(s)
    case _ => None
  }

  function RunOf(es: seq<Event>): (w: World)
    ensures |w.log| == |es|
  {
    if es == [] then World(EMPTY, [])
    else
      var w := RunOf(es[..|es| - 1]);
      World(After(w.m, es[|es| - 1]), w.log + [Registered(w.m, es[|es| - 1])])
  }

  predicate Usual(s: Session) {
    s.state == Active && s.secretKeyId.Some?
  }

  predicate Listed(m: Manager, s: Session) {
    s in SessionsAt(m.byPair, PairOf(s))
  }

  /** No session that stays listed when room is made for `s` has the key id of `s`. */
  ghost predicate KeyIdFree(m: Manager, s: Session) {
    forall r :: Listed(m, r) && r !in Evicted(SessionsAt(m.byPair, PairOf(s))) ==> r.secretKeyId != s.secretKeyId
  }

  /** The listed sessions that removing `s` takes off their list are those whose key id it takes off the index. */
  ghost predicate Removable(m: Manager, s: Session) {
    forall r :: Listed(m, r) ==> (TakenOff(r, s) <==> r.secretKeyId == s.secretKeyId)
  }

  predicate TakenOff(r: Session, s: Session) {
    PairOf(r) == PairOf(s) && r.sessionId == s.sessionId
  }

  /** What a caller owes: sessions are registered when ACTIVE and while their key id is free, and the session removed is
      told apart by its session id as it is by its key id. */
  ghost predicate Allowed(m: Manager, e: Event) {
    && (forall s :: Registered(m, e) == Some(s) ==> Usual(s) && KeyIdFree(m, s))
    && (e.RemoveOne? ==> Removable(m, e.s))
  }

  ghost predicate AllowedRun(es: seq<Event>) {
    forall k :: 0 <= k < |es| ==> Allowed(RunOf(es[..k]).m, es[k])
  }

  // ---- The invariant ----

  /** The last event that registered `s`, or -1. */
  function LastReg(log: seq<Option<Session>>, s: Session): (k: int)
    ensures -1 <= k < |log|
    ensures k >= 0 ==> log[k] == Some(s)
    ensures forall j :: k < j < |log| ==> log[j] != Some(s)
  {
    if log == [] then -1
    else if log[|log| - 1] == Some(s) then |log| - 1
    else LastReg(log[..|log| - 1], s)
  }

  lemma LastRegExtends(log: seq<Option<Session>>, x: Option<Session>, s: Session)
    ensures LastReg(log + [x], s) == if x == Some(s) then |log| else LastReg(log, s)
  {
    assert (log + [x])[..|log|] == log;
  }

  /** In the order of their last registration. */
  ghost predicate InOrder(list: seq<Session>, log: seq<Option<Session>>) {
    forall a, b :: 0 <= a < b < |list| ==> LastReg(log, list[a]) < LastReg(log, list[b])
  }

  ghost predicate MemberOk(s: Session, key: string, log: seq<Option<Session>>) {
    Usual(s) && PairOf(s) == key && LastReg(log, s) >= 0
  }

  ghost predicate ListOk(list: seq<Session>, key: string, log: seq<Option<Session>>) {
    && 0 < |list| <= MAX_CONCURRENT_KEYS
    && (forall s :: s in list ==> MemberOk(s, key, log))
    && InOrder(list, log)
  }

  ghost predicate ListsOk(m: Manager, log: seq<Option<Session>>) {
    forall key :: key in m.byPair ==> ListOk(m.byPair[key], key, log)
  }

  /** The key-id index is exactly the listed sessions. */
  ghost predicate IndexAgrees(m: Manager) {
    && (forall id :: id in m.byKeyId ==> m.byKeyId[id].secretKeyId == Some(id) && Listed(m, m.byKeyId[id]))
    && (forall s :: Listed(m, s) ==> Indexed(m, s))
  }

  predicate Indexed(m: Manager, s: Session) {
    s.secretKeyId.Some? && s.secretKeyId.value in m.byKeyId && m.byKeyId[s.secretKeyId.value] == s
  }

  ghost predicate Inv(m: Manager, log: seq<Option<Session>>) {
    ListsOk(m, log) && IndexAgrees(m)
  }

  // ---- Filtering a list ----

  lemma {:induction false} UnexpiredMembers(list: seq<Session>, now: int, s: Session)
    ensures s in Unexpired(list, now) <==> s in list && !IsExpired(s, now)
  {
    if list != [] {
      UnexpiredMembers(list[..|list| - 1], now, s);
    }
  }

  lemma {:induction false} ExpiredMembers(list: seq<Session>, now: int, s: Session)
    ensures s in Expired(list, now) <==> s in list && IsExpired(s, now)
  {
    if list != [] {
      ExpiredMembers(list[..|list| - 1], now, s);
    }
  }

  lemma {:induction false} WithoutMembers(list: seq<Session>, id: string, s: Session)
    ensures s in Without(list, id) <==> s in list && s.sessionId != id
  {
    if list != [] {
      WithoutMembers(list[..|list| - 1], id, s);
    }
  }

  lemma {:induction false} UnexpiredInOrder(list: seq<Session>, now: int, log: seq<Option<Session>>)
    requires InOrder(list, log)
    ensures InOrder(Unexpired(list, now), log) && |Unexpired(list, now)| <= |list|
  {
    if list != [] {
      var n := |list| - 1;
      UnexpiredInOrder(list[..n], now, log);
      forall s | s in Unexpired(list[..n], now)
        ensures LastReg(log, s) < LastReg(log, list[n])
      {
        UnexpiredMembers(list[..n], now, s);
      }
    }
  }

  lemma {:induction false} WithoutInOrder(list: seq<Session>, id: string, log: seq<Option<Session>>)
    requires InOrder(list, log)
    ensures InOrder(Without(list, id), log) && |Without(list, id)| <= |list|
  {
    if list != [] {
      var n := |list| - 1;
      WithoutInOrder(list[..n], id, log);
      forall s | s in Without(list[..n], id)
        ensures LastReg(log, s) < LastReg(log, list[n])
      {
        WithoutMembers(list[..n], id, s);
      }
    }
  }

  // ---- Registering ----

  lemma OtherListOk(list: seq<Session>, key: string, log: seq<Option<Session>>, x: Option<Session>)
    requires ListOk(list, key, log) && (x.Some? ==> x.value !in list)
    ensures ListOk(list, key, log + [x])
  {
    forall s | s in list
      ensures LastReg(log + [x], s) == LastReg(log, s)
    {
      LastRegExtends(log, x, s);
    }
  }

  lemma EvictedNotKept(list: seq<Session>, key: string, log: seq<Option<Session>>)
    requires list == [] || ListOk(list, key, log)
    ensures forall s :: s in Evicted(list) ==> s !in Kept(list)
    ensures |Kept(list)| <= 1 && Evicted(list) + Kept(list) == list
  {
  }

  lemma AddedListOk(list: seq<Session>, key: string, log: seq<Option<Session>>, s: Session)
    requires list == [] || ListOk(list, key, log)
    requires Usual(s) && PairOf(s) == key && s !in Kept(list)
    ensures ListOk(Kept(list) + [s], key, log + [Some(s)])
  {
    if list == [] {
      LastRegExtends(log, Some(s), s);
      assert Kept(list) + [s] == [s];
    } else {
      var r := list[|list| - 1];
      assert Kept(list) == [r] && r in list && MemberOk(r, key, log);
      AppendedListOk(key, log, r, s);
    }
  }

  lemma AppendedListOk(key: string, log: seq<Option<Session>>, r: Session, s: Session)
    requires MemberOk(r, key, log) && Usual(s) && PairOf(s) == key && r != s
    ensures ListOk([r] + [s], key, log + [Some(s)])
  {
    LastRegExtends(log, Some(s), s);
    LastRegExtends(log, Some(s), r);
    PairListOk(key, log + [Some(s)], r, s);
    assert [r] + [s] == [r, s];
  }

  lemma PairListOk(key: string, log: seq<Option<Session>>, r: Session, s: Session)
    requires MemberOk(r, key, log) && MemberOk(s, key, log) && LastReg(log, r) < LastReg(log, s)
    ensures ListOk([r, s], key, log)
  {
  }

  /** A session that stays listed keeps its place and its key id. */
  lemma FreeKeptDiffers(m: Manager, log: seq<Option<Session>>, s: Session, r: Session)
    requires Inv(m, log) && KeyIdFree(m, s) && r in Kept(SessionsAt(m.byPair, PairOf(s)))
    ensures Listed(m, r) && r.secretKeyId != s.secretKeyId && r != s
  {
    var list := SessionsAt(m.byPair, PairOf(s));
    EvictedNotKept(list, PairOf(s), log);
    assert r in list;
  }

  lemma ListsAfterRegister(m: Manager, log: seq<Option<Session>>, s: Session, key: string)
    requires Inv(m, log) && Usual(s) && KeyIdFree(m, s) && key in RegisterActive(m, s).byPair
    ensures ListOk(RegisterActive(m, s).byPair[key], key, log + [Some(s)])
  {
    if key == PairOf(s) {
      var list := SessionsAt(m.byPair, key);
      if s in Kept(list) {
        FreeKeptDiffers(m, log, s, s);
      }
      AddedListOk(list, key, log, s);
    } else {
      OtherListOk(m.byPair[key], key, log, Some(s));
    }
  }

  /** Only an evicted session loses its key id. */
  lemma EvictedKeyIds(m: Manager, log: seq<Option<Session>>, key: string, r: Session)
    requires Inv(m, log) && Listed(m, r)
    requires r.secretKeyId.value in KeyIds(Evicted(SessionsAt(m.byPair, key)))
    ensures PairOf(r) == key && r in Evicted(SessionsAt(m.byPair, key)) && r !in Kept(SessionsAt(m.byPair, key))
  {
    var list := SessionsAt(m.byPair, key);
    var e :| e in Evicted(list) && e.secretKeyId == r.secretKeyId;
    assert e in list && Listed(m, e) && Indexed(m, e) && Indexed(m, r);
    assert e == r;
    EvictedNotKept(list, key, log);
  }

  lemma IndexedStaysListed(m: Manager, log: seq<Option<Session>>, s: Session, id: KeyId)
    requires Inv(m, log) && Usual(s)
    requires id in RegisterActive(m, s).byKeyId && Some(id) != s.secretKeyId
    ensures var m' := RegisterActive(m, s);
            m'.byKeyId[id].secretKeyId == Some(id) && Listed(m', m'.byKeyId[id])
  {
    var r, list := m.byKeyId[id], SessionsAt(m.byPair, PairOf(s));
    assert Listed(m, r);
    if PairOf(r) == PairOf(s) {
      EvictedNotKept(list, PairOf(s), log);
      assert r !in Evicted(list);
    }
  }

  lemma ListedStaysIndexed(m: Manager, log: seq<Option<Session>>, s: Session, r: Session)
    requires Inv(m, log) && Usual(s) && KeyIdFree(m, s)
    requires Listed(RegisterActive(m, s), r) && r != s
    ensures Indexed(RegisterActive(m, s), r)
  {
    var list := SessionsAt(m.byPair, PairOf(s));
    EvictedNotKept(list, PairOf(s), log);
    assert Listed(m, r) && Indexed(m, r);
    if r.secretKeyId.value in KeyIds(Evicted(list)) {
      EvictedKeyIds(m, log, PairOf(s), r);
    }
    assert r !in Evicted(list);
  }

  lemma IndexAfterRegister(m: Manager, log: seq<Option<Session>>, s: Session)
    requires Inv(m, log) && Usual(s) && KeyIdFree(m, s)
    ensures IndexAgrees(RegisterActive(m, s))
  {
    var m' := RegisterActive(m, s);
    forall id | id in m'.byKeyId
      ensures m'.byKeyId[id].secretKeyId == Some(id) && Listed(m', m'.byKeyId[id])
    {
      if Some(id) != s.secretKeyId {
        IndexedStaysListed(m, log, s, id);
      }
    }
    forall r | Listed(m', r)
      ensures Indexed(m', r)
    {
      if r != s {
        ListedStaysIndexed(m, log, s, r);
      }
    }
  }

  lemma RegisterKeepsInv(m: Manager, log: seq<Option<Session>>, s: Session)
    requires Inv(m, log) && Usual(s) && KeyIdFree(m, s)
    ensures Inv(RegisterActive(m, s), log + [Some(s)])
  {
    forall key | key in RegisterActive(m, s).byPair
      ensures ListOk(RegisterActive(m, s).byPair[key], key, log + [Some(s)])
    {
      ListsAfterRegister(m, log, s, key);
    }
    IndexAfterRegister(m, log, s);
  }

  // ---- Exactly when registering is safe ----

  lemma {:induction false} AboveAll(ids: set<KeyId>) returns (n: nat)
    ensures forall id :: id in ids ==> |id.context| < n
    decreases |ids|
  {
    if ids == {} {
      n := 0;
    } else {
      var id :| id in ids;
      var rest := AboveAll(ids - {id});
      n := if rest <= |id.context| then |id.context| + 1 else rest;
    }
  }

  /** Any session that may be registered next leaves the index in agreement. */
  ghost predicate SafeNext(m: Manager) {
    forall t :: Usual(t) && KeyIdFree(m, t) ==> IndexAgrees(RegisterActive(m, t))
  }

  /** Two listed sessions under one key id: the index can hold only one of them. */
  lemma SharedKeyIdBreaks(m: Manager, s: Session, r: Session)
    requires Usual(s) && r != s && Listed(m, r) && r !in Evicted(SessionsAt(m.byPair, PairOf(s)))
    requires r.secretKeyId == s.secretKeyId
    ensures !IndexAgrees(RegisterActive(m, s))
  {
    var m' := RegisterActive(m, s);
    var list := SessionsAt(m.byPair, PairOf(s));
    assert list == Evicted(list) + Kept(list);
    assert Listed(m', r) && !Indexed(m', r);
  }

  /** One session listed twice: the next eviction takes its key id away while it stays listed. */
  lemma ListedTwiceBreaks(m: Manager, s: Session)
    requires Usual(s) && Kept(SessionsAt(m.byPair, PairOf(s))) == [s]
    ensures IndexAgrees(RegisterActive(m, s)) ==> !SafeNext(RegisterActive(m, s))
  {
    var m' := RegisterActive(m, s);
    if IndexAgrees(m') {
      var n := AboveAll(m'.byKeyId.Keys);
      var t := s.(secretKeyId := Some(KeyId(seq(n, _ => '0'))));
      forall r | Listed(m', r)
        ensures r.secretKeyId != t.secretKeyId
      {
        assert Indexed(m', r);
      }
      assert SessionsAt(m'.byPair, PairOf(t)) == [s, s];
      assert Evicted([s, s]) == [s] && Kept([s, s]) == [s];
      var m2 := RegisterActive(m', t);
      assert s in [s] && s.secretKeyId.value in KeyIds([s]);
      assert m2.byPair[PairOf(t)] == [s, t];
      assert Listed(m2, s) by { assert s in [s, t]; }
      assert !Indexed(m2, s);
      assert Usual(t) && KeyIdFree(m', t);
    }
  }

  /** Registering an ACTIVE session is safe, at once and for every registration that follows, if and only if its key id
      is free: no session that stays listed has it. */
  lemma RegisterAgreesIff(m: Manager, log: seq<Option<Session>>, s: Session)
    requires Inv(m, log) && Usual(s)
    ensures IndexAgrees(RegisterActive(m, s)) && SafeNext(RegisterActive(m, s)) <==> KeyIdFree(m, s)
  {
    var m' := RegisterActive(m, s);
    if KeyIdFree(m, s) {
      RegisterKeepsInv(m, log, s);
      forall t | Usual(t) && KeyIdFree(m', t)
        ensures IndexAgrees(RegisterActive(m', t))
      {
        RegisterKeepsInv(m', log + [Some(s)], t);
      }
    } else {
      var r :| Listed(m, r) && r !in Evicted(SessionsAt(m.byPair, PairOf(s))) && r.secretKeyId == s.secretKeyId;
      if r == s {
        KeptAlone(SessionsAt(m.byPair, PairOf(s)), PairOf(s), log, s);
        ListedTwiceBreaks(m, s);
      } else {
        SharedKeyIdBreaks(m, s, r);
      }
    }
  }

  lemma KeptAlone(list: seq<Session>, key: string, log: seq<Option<Session>>, s: Session)
    requires ListOk(list, key, log) && s in list && s !in Evicted(list)
    ensures Kept(list) == [s]
  {
    if |list| == 2 {
      assert Evicted(list) == [list[0]] && Kept(list) == [list[1]];
    }
  }

  /** Registering one session twice and another one after it leaves a listed session that is not indexed. */
  lemma DoubleRegistrationBreaksIndex(s: Session, t: Session)
    requires Usual(s) && Usual(t) && PairOf(s) == PairOf(t) && s.secretKeyId != t.secretKeyId
    ensures var m := RegisterActive(RegisterActive(RegisterActive(EMPTY, s), s), t);
            Listed(m, s) && !Indexed(m, s)
  {
    var m1 := RegisterActive(EMPTY, s);
    assert m1.byPair[PairOf(s)] == [s];
    var m2 := RegisterActive(m1, s);
    assert m2.byPair[PairOf(s)] == [s, s];
    assert Evicted([s, s]) == [s];
    var m3 := RegisterActive(m2, t);
    assert m3.byPair[PairOf(s)] == [s, t];
    assert s in [s, t];
  }

  // ---- Cleaning up ----

  lemma ExpiredKeyIdIsOwn(m: Manager, log: seq<Option<Session>>, now: int, r: Session)
    requires Inv(m, log) && Listed(m, r)
    ensures r.secretKeyId.value in ExpiredKeyIds(m.byPair, now) <==> IsExpired(r, now)
  {
    var id := r.secretKeyId.value;
    if IsExpired(r, now) {
      ExpiredMembers(m.byPair[PairOf(r)], now, r);
      assert id in KeyIds(Expired(m.byPair[PairOf(r)], now));
    }
    if id in ExpiredKeyIds(m.byPair, now) {
      var key :| key in m.byPair && id in KeyIds(Expired(m.byPair[key], now));
      var e :| e in Expired(m.byPair[key], now) && e.secretKeyId == Some(id);
      ExpiredMembers(m.byPair[key], now, e);
      assert Listed(m, e) && Indexed(m, e) && Indexed(m, r);
    }
  }

  lemma ListedAfterCleanup(m: Manager, now: int, s: Session)
    ensures Listed(Cleanup(m, now), s) <==> Listed(m, s) && !IsExpired(s, now)
  {
    UnexpiredMembers(SessionsAt(m.byPair, PairOf(s)), now, s);
  }

  lemma CleanedListOk(list: seq<Session>, key: string, log: seq<Option<Session>>, now: int)
    requires ListOk(list, key, log) && Unexpired(list, now) != []
    ensures ListOk(Unexpired(list, now), key, log)
  {
    UnexpiredInOrder(list, now, log);
    forall s | s in Unexpired(list, now)
      ensures s in list
    {
      UnexpiredMembers(list, now, s);
    }
  }

  lemma CleanupKeepsInv(m: Manager, log: seq<Option<Session>>, now: int)
    requires Inv(m, log)
    ensures Inv(Cleanup(m, now), log)
  {
    var m' := Cleanup(m, now);
    forall key | key in m'.byPair
      ensures ListOk(m'.byPair[key], key, log)
    {
      CleanedListOk(m.byPair[key], key, log, now);
    }
    forall id | id in m'.byKeyId
      ensures m'.byKeyId[id].secretKeyId == Some(id) && Listed(m', m'.byKeyId[id])
    {
      ExpiredKeyIdIsOwn(m, log, now, m.byKeyId[id]);
      ListedAfterCleanup(m, now, m.byKeyId[id]);
    }
    forall s | Listed(m', s)
      ensures Indexed(m', s)
    {
      ListedAfterCleanup(m, now, s);
      ExpiredKeyIdIsOwn(m, log, now, s);
    }
  }

  // ---- Removing ----

  lemma ListedAfterRemove(m: Manager, s: Session, r: Session)
    ensures Listed(Remove(m, s), r) <==> Listed(m, r) && !TakenOff(r, s)
  {
    if PairOf(r) == PairOf(s) {
      WithoutMembers(SessionsAt(m.byPair, PairOf(s)), s.sessionId, r);
    }
  }

  lemma RemovedListOk(list: seq<Session>, key: string, log: seq<Option<Session>>, id: string)
    requires list == [] || ListOk(list, key, log)
    ensures Without(list, id) == [] || ListOk(Without(list, id), key, log)
  {
    WithoutInOrder(list, id, log);
    forall r | r in Without(list, id)
      ensures r in list
    {
      WithoutMembers(list, id, r);
    }
  }

  lemma ListsAfterRemove(m: Manager, log: seq<Option<Session>>, s: Session)
    requires ListsOk(m, log)
    ensures ListsOk(Remove(m, s), log)
  {
    var m' := Remove(m, s);
    forall key | key in m'.byPair
      ensures ListOk(m'.byPair[key], key, log)
    {
      if key == PairOf(s) {
        RemovedListOk(SessionsAt(m.byPair, key), key, log, s.sessionId);
      }
    }
  }

  /** Removing a session keeps the index in agreement if and only if the sessions it takes off their list are those
      whose key id it takes off the index. */
  lemma RemoveAgreesIff(m: Manager, log: seq<Option<Session>>, s: Session)
    requires Inv(m, log)
    ensures IndexAgrees(Remove(m, s)) <==> Removable(m, s)
  {
    var m' := Remove(m, s);
    if Removable(m, s) {
      forall id | id in m'.byKeyId
        ensures m'.byKeyId[id].secretKeyId == Some(id) && Listed(m', m'.byKeyId[id])
      {
        ListedAfterRemove(m, s, m.byKeyId[id]);
      }
      forall r | Listed(m', r)
        ensures Indexed(m', r)
      {
        ListedAfterRemove(m, s, r);
        assert Indexed(m, r);
      }
    } else {
      var r :| Listed(m, r) && !(TakenOff(r, s) <==> r.secretKeyId == s.secretKeyId);
      ListedAfterRemove(m, s, r);
      assert Indexed(m, r);
      if TakenOff(r, s) {
        assert r.secretKeyId.value in m'.byKeyId && !Listed(m', m'.byKeyId[r.secretKeyId.value]);
      } else {
        assert Listed(m', r) && !Indexed(m', r);
      }
    }
  }

  lemma RemoveKeepsInv(m: Manager, log: seq<Option<Session>>, s: Session)
    requires Inv(m, log) && Removable(m, s)
    ensures Inv(Remove(m, s), log)
  {
    ListsAfterRemove(m, log, s);
    RemoveAgreesIff(m, log, s);
  }

  // ---- Runs ----

  lemma PendingIsIrrelevant(m: Manager, log: seq<Option<Session>>, pending: map<string, Session>)
    requires Inv(m, log)
    ensures Inv(m.(pending := pending), log)
  {
    var m' := m.(pending := pending);
    assert forall s :: Listed(m', s) <==> Listed(m, s);
    assert forall s :: Indexed(m, s) ==> Indexed(m', s);
  }

  /** An event that registers nothing. */
  lemma QuietKeepsInv(m: Manager, log: seq<Option<Session>>)
    requires Inv(m, log)
    ensures Inv(m, log + [None])
  {
    forall key | key in m.byPair
      ensures ListOk(m.byPair[key], key, log + [None])
    {
      OtherListOk(m.byPair[key], key, log, None);
    }
  }

  lemma PromoteKeepsInv(m: Manager, log: seq<Option<Session>>, id: string)
    requires Inv(m, log) && Allowed(m, PromotePending(id))
    ensures Inv(Promote(m, id), log + [Registered(m, PromotePending(id))])
  {
    if id in m.pending {
      var m', s := m.(pending := m.pending - {id}), m.pending[id];
      PendingIsIrrelevant(m, log, m'.pending);
      assert forall r :: Listed(m', r) <==> Listed(m, r);
      assert KeyIdFree(m, s) && Usual(s);
      RegisterKeepsInv(m', log, s);
    } else {
      QuietKeepsInv(m, log);
    }
  }

  lemma StepKeepsInv(m: Manager, log: seq<Option<Session>>, e: Event)
    requires Inv(m, log) && Allowed(m, e)
    ensures Inv(After(m, e), log + [Registered(m, e)])
  {
    match e
    case PromotePending(id) => PromoteKeepsInv(m, log, id);
    case RegisterDirectly(s) => RegisterKeepsInv(m, log, s);
    case CleanUp(now) =>
      CleanupKeepsInv(m, log, now);
      QuietKeepsInv(Cleanup(m, now), log);
    case RemoveOne(s) =>
      RemoveKeepsInv(m, log, s);
      QuietKeepsInv(Remove(m, s), log);
    case _ =>
      PendingIsIrrelevant(m, log, After(m, e).pending);
      QuietKeepsInv(After(m, e), log);
  }

  lemma AllowedPrefix(es: seq<Event>, n: nat)
    requires AllowedRun(es) && n <= |es|
    ensures AllowedRun(es[..n])
  {
    forall k | 0 <= k < n
      ensures Allowed(RunOf(es[..n][..k]).m, es[..n][k])
    {
      assert es[..n][..k] == es[..k];
    }
  }

  lemma {:induction false} RunKeepsInv(es: seq<Event>)
    requires AllowedRun(es)
    ensures Inv(RunOf(es).m, RunOf(es).log)
  {
    if es != [] {
      var n := |es| - 1;
      AllowedPrefix(es, n);
      RunKeepsInv(es[..n]);
      StepKeepsInv(RunOf(es[..n]).m, RunOf(es[..n]).log, es[n]);
    }
  }

  /** In every run the key-id index is exactly the sessions in the DID-pair lists. */
  lemma IndexesAgree(es: seq<Event>, id: KeyId, s: Session)
    requires AllowedRun(es)
    ensures var m := RunOf(es).m;
            (id in m.byKeyId && m.byKeyId[id] == s) <==> (Listed(m, s) && s.secretKeyId == Some(id))
  {
    RunKeepsInv(es);
    var m := RunOf(es).m;
    if Listed(m, s) {
      assert Indexed(m, s);
    }
  }

  /** In every run a pair's list holds at most MAX_CONCURRENT_KEYS of the registered sessions of that pair, in the
      order of their last registration. */
  lemma ListsAreBoundedAndOrdered(es: seq<Event>, key: string)
    requires AllowedRun(es) && key in RunOf(es).m.byPair
    ensures ListOk(RunOf(es).m.byPair[key], key, RunOf(es).log)
  {
    RunKeepsInv(es);
  }

  // ---- Why a session is gone ----

  /** Event k takes `s` off its list on purpose or because it had expired. */
  predicate Dropped(e: Event, s: Session) {
    match e
    case RemoveOne(t) => TakenOff(s, t)
    case CleanUp(now) => IsExpired(s, now)
    case _ => false
  }

  ghost predicate DroppedAfter(es: seq<Event>, a: nat, s: Session) {
    exists k :: a < k < |es| && Dropped(es[k], s)
  }

  predicate Registers(log: seq<Option<Session>>, k: nat, key: string)
    requires k < |log|
  {
    log[k].Some? && PairOf(log[k].value) == key
  }

  /** MAX_CONCURRENT_KEYS = 2 registrations for the pair after event a. */
  ghost predicate Superseded(log: seq<Option<Session>>, a: nat, key: string) {
    exists j, l :: a < j < l < |log| && Registers(log, j, key) && Registers(log, l, key)
  }

  lemma EvictionLoss(m: Manager, log: seq<Option<Session>>, t: Session, s: Session, a: nat)
    requires ListsOk(m, log) && Listed(m, s) && !Listed(RegisterActive(m, t), s)
    requires a < |log| && log[a] == Some(s)
    ensures Superseded(log + [Some(t)], a, PairOf(s))
  {
    var list, longer := SessionsAt(m.byPair, PairOf(t)), log + [Some(t)];
    assert PairOf(s) == PairOf(t);
    assert list == Evicted(list) + Kept(list);
    assert |list| == 2 && list[0] == s && list[1] in list;
    assert MemberOk(list[1], PairOf(t), log);
    var j := LastReg(log, list[1]);
    assert a <= LastReg(log, s) < j;
    assert Registers(longer, j, PairOf(s)) && Registers(longer, |log|, PairOf(s));
  }

  lemma RegistrationLoss(m: Manager, log: seq<Option<Session>>, e: Event, s: Session, a: nat)
    requires ListsOk(m, log) && Listed(m, s) && !Listed(After(m, e), s) && Registered(m, e).Some?
    requires a < |log| && log[a] == Some(s)
    ensures Superseded(log + [Registered(m, e)], a, PairOf(s))
  {
    match e
    case PromotePending(id) =>
      EvictionLoss(m.(pending := m.pending - {id}), log, m.pending[id], s, a);
    case RegisterDirectly(t) => EvictionLoss(m, log, t, s, a);
  }

  lemma QuietLoss(m: Manager, e: Event, s: Session)
    requires Listed(m, s) && !Listed(After(m, e), s) && Registered(m, e).None?
    ensures Dropped(e, s)
  {
    match e
    case CleanUp(now) => ListedAfterCleanup(m, now, s);
    case RemoveOne(t) => ListedAfterRemove(m, t, s);
    case _ =>
  }

  lemma JustListed(m: Manager, e: Event)
    requires Registered(m, e).Some?
    ensures Listed(After(m, e), Registered(m, e).value)
  {
  }

  lemma ReasonStays(es: seq<Event>, log: seq<Option<Session>>, x: Option<Session>, a: nat, s: Session)
    requires es != []
    ensures DroppedAfter(es[..|es| - 1], a, s) ==> DroppedAfter(es, a, s)
    ensures Superseded(log, a, PairOf(s)) ==> Superseded(log + [x], a, PairOf(s))
  {
    var before, longer := es[..|es| - 1], log + [x];
    if DroppedAfter(before, a, s) {
      var k :| a < k < |before| && Dropped(before[k], s);
      assert Dropped(es[k], s);
    }
    if Superseded(log, a, PairOf(s)) {
      var j, l :| a < j < l < |log| && Registers(log, j, PairOf(s)) && Registers(log, l, PairOf(s));
      assert Registers(longer, j, PairOf(s)) && Registers(longer, l, PairOf(s));
    }
  }

  /** A session that event `a` registered and that is no longer listed was removed after that, had expired at a cleanup
      after that, or made room for two later registrations of its pair. */
  lemma {:induction false} LossReason(es: seq<Event>, a: nat)
    requires AllowedRun(es) && a < |es| && RunOf(es).log[a].Some?
    requires !Listed(RunOf(es).m, RunOf(es).log[a].value)
    ensures var s := RunOf(es).log[a].value;
            DroppedAfter(es, a, s) || Superseded(RunOf(es).log, a, PairOf(s))
  {
    var n := |es| - 1;
    var w, e, s := RunOf(es[..n]), es[n], RunOf(es).log[a].value;
    if a == n {
      JustListed(w.m, e);
    } else {
      AllowedPrefix(es, n);
      if !Listed(w.m, s) {
        LossReason(es[..n], a);
        ReasonStays(es, w.log, Registered(w.m, e), a, s);
      } else {
        RunKeepsInv(es[..n]);
        if Registered(w.m, e).Some? {
          RegistrationLoss(w.m, w.log, e, s, a);
        } else {
          QuietLoss(w.m, e, s);
          assert Dropped(es[n], s);
        }
      }
    }
  }

  // ---- What a cleanup leaves and returns ----

  /** After a cleanup neither index holds an expired session, and no pending handshake is over time. */
  lemma CleanupLeavesNoExpired(es: seq<Event>, now: int)
    requires AllowedRun(es)
    ensures var m := Cleanup(RunOf(es).m, now);
            && (forall s :: Listed(m, s) ==> !IsExpired(s, now))
            && (forall id :: id in m.byKeyId ==> !IsExpired(m.byKeyId[id], now))
            && (forall id :: id in m.pending ==> !TimedOut(m.pending[id], now))
  {
    RunKeepsInv(es);
    var w := RunOf(es);
    CleanupKeepsInv(w.m, w.log, now);
    forall s | Listed(Cleanup(w.m, now), s)
      ensures !IsExpired(s, now)
    {
      ListedAfterCleanup(w.m, now, s);
    }
  }

  lemma {:induction false} SplitJoins(key: string)
    requires '|' in key
    ensures var (first, second) := SplitKey(key); PairKey(first, second) == key && '|' !in first
  {
    if key[0] == '|' {
      assert key == "" + "|" + key[1..];
    } else {
      SplitJoins(key[1..]);
      var (first, second) := SplitKey(key[1..]);
      PrependToPair(key[0], first, second);
      assert key == [key[0]] + key[1..];
    }
  }

  lemma PrependToPair(c: char, first: Did, second: Did)
    ensures [c] + PairKey(first, second) == PairKey([c] + first, second)
  {
  }

  /** A pair is read back from its key exactly when the local DID holds no bar. */
  lemma {:induction false} SplitInverts(localDid: Did, peerDid: Did)
    ensures '|' in PairKey(localDid, peerDid)
    ensures SplitKey(PairKey(localDid, peerDid)) == (localDid, peerDid) <==> '|' !in localDid
  {
    var key := PairKey(localDid, peerDid);
    assert key[|localDid|] == '|';
    SplitJoins(key);
    if '|' !in localDid {
      SplitOfJoin(localDid, peerDid);
    }
  }

  lemma {:induction false} SplitOfJoin(localDid: Did, peerDid: Did)
    requires '|' !in localDid
    ensures '|' in PairKey(localDid, peerDid) && SplitKey(PairKey(localDid, peerDid)) == (localDid, peerDid)
  {
    var key := PairKey(localDid, peerDid);
    if localDid == "" {
      assert key[0] == '|' && key[1..] == peerDid;
    } else {
      SplitOfJoin(localDid[1..], peerDid);
      assert key[1..] == PairKey(localDid[1..], peerDid);
      assert key[0] == localDid[0];
      assert [localDid[0]] + localDid[1..] == localDid;
    }
  }

  /** The result of a cleanup by key: a pair is named exactly when its local DID holds no bar and its key has listed
      sessions, all of them expired. */
  lemma NamedIff(m: Manager, log: seq<Option<Session>>, now: int, need: seq<(Did, Did)>, lost: seq<string>,
                 localDid: Did, peerDid: Did)
    requires ListsOk(m, log) && ReadFrom(need, lost) && Gone(lost, m.byPair, Cleanup(m, now).byPair)
    ensures (localDid, peerDid) in need <==> '|' !in localDid && Emptied(m, now, PairKey(localDid, peerDid))
  {
    var key := PairKey(localDid, peerDid);
    SplitInverts(localDid, peerDid);
    EmptiedIffGone(m, log, now, key);
    if (localDid, peerDid) in need {
      var i :| 0 <= i < |need| && need[i] == (localDid, peerDid);
      SplitJoins(lost[i]);
      assert lost[i] in lost;
    }
    if '|' !in localDid && key in lost {
      var i :| 0 <= i < |lost| && lost[i] == key;
      assert need[i] == (localDid, peerDid);
    }
  }

  /** The key has listed sessions, all of them expired. */
  ghost predicate Emptied(m: Manager, now: int, key: string) {
    && (exists s :: Listed(m, s) && PairOf(s) == key)
    && (forall s :: Listed(m, s) && PairOf(s) == key ==> IsExpired(s, now))
  }

  lemma EmptiedIffGone(m: Manager, log: seq<Option<Session>>, now: int, key: string)
    requires ListsOk(m, log)
    ensures Emptied(m, now, key) <==> key in m.byPair && key !in Cleanup(m, now).byPair
  {
    if key in m.byPair {
      var list := m.byPair[key];
      assert ListOk(list, key, log) && list[0] in list;
      assert Listed(m, list[0]) && PairOf(list[0]) == key;
      if Unexpired(list, now) != [] {
        var s := Unexpired(list, now)[0];
        UnexpiredMembers(list, now, s);
        assert Listed(m, s) && PairOf(s) == key;
      } else {
        forall s | Listed(m, s) && PairOf(s) == key
          ensures IsExpired(s, now)
        {
          UnexpiredMembers(list, now, s);
        }
      }
    }
  }

  predicate Between(s: Session, localDid: Did, peerDid: Did) {
    s.localDid == localDid && s.peerDid == peerDid
  }

  ghost predicate HasSession(m: Manager, localDid: Did, peerDid: Did) {
    exists s :: Listed(m, s) && Between(s, localDid, peerDid)
  }

  /** The pair had a session and has none after the cleanup. */
  ghost predicate LostLast(m: Manager, now: int, localDid: Did, peerDid: Did) {
    HasSession(m, localDid, peerDid) && !HasSession(Cleanup(m, now), localDid, peerDid)
  }

  /** A dropped session is accounted for: its pair keeps another session, or its whole list is dropped and its local DID
      holds no bar. */
  ghost predicate Accounted(m: Manager, now: int, s: Session) {
    || (exists r :: Listed(m, r) && !IsExpired(r, now) && Between(r, s.localDid, s.peerDid))
    || (Emptied(m, now, PairOf(s)) && '|' !in s.localDid)
  }

  lemma LostLastIff(m: Manager, now: int, localDid: Did, peerDid: Did)
    ensures LostLast(m, now, localDid, peerDid) <==>
      && HasSession(m, localDid, peerDid)
      && forall s :: Listed(m, s) && Between(s, localDid, peerDid) ==> IsExpired(s, now)
  {
    forall s | Between(s, localDid, peerDid)
      ensures Listed(Cleanup(m, now), s) <==> Listed(m, s) && !IsExpired(s, now)
    {
      ListedAfterCleanup(m, now, s);
    }
  }

  /** A pair is named although it lost nothing exactly when its local DID holds no bar and its key was in use by
      sessions of other pairs only, which all expired. */
  lemma NamedForNothingIff(m: Manager, log: seq<Option<Session>>, now: int, need: seq<(Did, Did)>, lost: seq<string>,
                           localDid: Did, peerDid: Did)
    requires ListsOk(m, log) && ReadFrom(need, lost) && Gone(lost, m.byPair, Cleanup(m, now).byPair)
    ensures (localDid, peerDid) in need && !LostLast(m, now, localDid, peerDid) <==>
      '|' !in localDid && Emptied(m, now, PairKey(localDid, peerDid)) && !HasSession(m, localDid, peerDid)
  {
    NamedIff(m, log, now, need, lost, localDid, peerDid);
    LostLastIff(m, now, localDid, peerDid);
    assert forall s :: Between(s, localDid, peerDid) ==> PairOf(s) == PairKey(localDid, peerDid);
  }

  ghost predicate NamesExactlyLost(m: Manager, now: int, need: seq<(Did, Did)>) {
    forall localDid, peerDid :: (localDid, peerDid) in need <==> LostLast(m, now, localDid, peerDid)
  }

  /** An expired session that is accounted for: its pair is named if and only if it is lost. */
  lemma AccountedNames(m: Manager, log: seq<Option<Session>>, now: int, need: seq<(Did, Did)>, lost: seq<string>,
                       localDid: Did, peerDid: Did)
    requires ListsOk(m, log) && ReadFrom(need, lost) && Gone(lost, m.byPair, Cleanup(m, now).byPair)
    requires AllAccounted(m, now)
    ensures (localDid, peerDid) in need <==> LostLast(m, now, localDid, peerDid)
  {
    var key := PairKey(localDid, peerDid);
    NamedIff(m, log, now, need, lost, localDid, peerDid);
    LostLastIff(m, now, localDid, peerDid);
    if (localDid, peerDid) in need {
      var s :| Listed(m, s) && PairOf(s) == key;
      assert Accounted(m, now, s);
      forall r | Listed(m, r) && Between(r, s.localDid, s.peerDid)
        ensures IsExpired(r, now)
      {
        assert PairOf(r) == key;
      }
      SplitInverts(s.localDid, s.peerDid);
      SplitInverts(localDid, peerDid);
      assert Between(s, localDid, peerDid);
      assert forall r :: Between(r, localDid, peerDid) ==> PairOf(r) == key;
    } else if HasSession(m, localDid, peerDid) {
      var s :| Listed(m, s) && Between(s, localDid, peerDid);
      if IsExpired(s, now) {
        assert Accounted(m, now, s);
      }
    }
  }

  ghost predicate AllAccounted(m: Manager, now: int) {
    forall s :: Listed(m, s) && IsExpired(s, now) ==> Accounted(m, now, s)
  }

  /** cleanup_expired names exactly the pairs that lost their last session if and only if every expired session is
      accounted for. */
  lemma RehandshakeExact(m: Manager, log: seq<Option<Session>>, now: int, need: seq<(Did, Did)>, lost: seq<string>)
    requires ListsOk(m, log) && ReadFrom(need, lost) && Gone(lost, m.byPair, Cleanup(m, now).byPair)
    ensures NamesExactlyLost(m, now, need) <==> AllAccounted(m, now)
  {
    if AllAccounted(m, now) {
      forall localDid, peerDid
        ensures (localDid, peerDid) in need <==> LostLast(m, now, localDid, peerDid)
      {
        AccountedNames(m, log, now, need, lost, localDid, peerDid);
      }
    } else {
      UnaccountedExists(m, log, now, need, lost);
    }
  }

  lemma UnaccountedExists(m: Manager, log: seq<Option<Session>>, now: int, need: seq<(Did, Did)>, lost: seq<string>)
    requires ListsOk(m, log) && ReadFrom(need, lost) && Gone(lost, m.byPair, Cleanup(m, now).byPair)
    requires !AllAccounted(m, now)
    ensures !NamesExactlyLost(m, now, need)
  {
    var s :| Listed(m, s) && IsExpired(s, now) && !Accounted(m, now, s);
    UnaccountedMissed(m, log, now, need, lost, s);
  }

  /** Without a bar in any local DID the named pairs are exactly those that lost their last session. */
  lemma BarFreeRehandshake(m: Manager, log: seq<Option<Session>>, now: int, need: seq<(Did, Did)>, lost: seq<string>)
    requires ListsOk(m, log) && ReadFrom(need, lost) && Gone(lost, m.byPair, Cleanup(m, now).byPair)
    requires forall s :: Listed(m, s) ==> '|' !in s.localDid
    ensures NamesExactlyLost(m, now, need)
  {
    BarFreeAccounted(m, now);
    RehandshakeExact(m, log, now, need, lost);
  }

  lemma UnaccountedMissed(m: Manager, log: seq<Option<Session>>, now: int, need: seq<(Did, Did)>, lost: seq<string>,
                          s: Session)
    requires ListsOk(m, log) && ReadFrom(need, lost) && Gone(lost, m.byPair, Cleanup(m, now).byPair)
    requires Listed(m, s) && IsExpired(s, now) && !Accounted(m, now, s)
    ensures (s.localDid, s.peerDid) !in need && LostLast(m, now, s.localDid, s.peerDid)
  {
    NamedIff(m, log, now, need, lost, s.localDid, s.peerDid);
    LostLastIff(m, now, s.localDid, s.peerDid);
    assert Between(s, s.localDid, s.peerDid);
  }

  lemma BarFreeAccounted(m: Manager, now: int)
    requires forall s :: Listed(m, s) ==> '|' !in s.localDid
    ensures AllAccounted(m, now)
  {
    forall s | Listed(m, s) && IsExpired(s, now)
      ensures Accounted(m, now, s)
    {
      if r :| Listed(m, r) && PairOf(r) == PairOf(s) && !IsExpired(r, now) {
        SplitInverts(r.localDid, r.peerDid);
        SplitInverts(s.localDid, s.peerDid);
        assert Between(r, s.localDid, s.peerDid);
      } else {
        assert Emptied(m, now, PairOf(s));
      }
    }
  }

  lemma BarKeysCollide()
    ensures PairKey("a|b", "c") == PairKey("a", "b|c") && '|' in "a|b" && '|' !in "a"
  {
    assert "a|b"[1] == '|';
  }

  /** A manager with one registered session. */
  lemma SoleSessionIs(s: Session)
    requires Usual(s)
    ensures var m := RegisterActive(EMPTY, s); m.byPair == map[PairOf(s) := [s]]
  {
    var empty: seq<Session> := [];
    assert Kept(empty) + [s] == [s];
  }

  lemma SoleSessionListed(m: Manager, s: Session)
    requires m.byPair == map[PairOf(s) := [s]]
    ensures Listed(m, s) && forall r :: Listed(m, r) ==> r == s
  {
    assert s in [s];
  }

  lemma SoleSessionListsOk(m: Manager, s: Session)
    requires Usual(s) && m.byPair == map[PairOf(s) := [s]]
    ensures ListsOk(m, [Some(s)])
  {
    assert LastReg([Some(s)], s) == 0;
  }

  lemma SoleSession(s: Session, now: int)
    requires Usual(s) && IsExpired(s, now)
    ensures var m := RegisterActive(EMPTY, s);
            && ListsOk(m, [Some(s)]) && Emptied(m, now, PairOf(s)) && Listed(m, s)
            && forall r :: Listed(m, r) ==> r == s
  {
    var m := RegisterActive(EMPTY, s);
    SoleSessionIs(s);
    SoleSessionListed(m, s);
    SoleSessionListsOk(m, s);
    assert SessionsAt(m.byPair, PairOf(s)) == [s];
  }

  /** A cleanup that drops the only session of a pair names every pair of the same key whose local DID holds no bar, and
      no other: with a session of ("a|b", "c") it names ("a", "b|c"). */
  lemma SoleSessionNames(s: Session, now: int, need: seq<(Did, Did)>, lost: seq<string>, localDid: Did, peerDid: Did)
    requires Usual(s) && IsExpired(s, now)
    requires var m := RegisterActive(EMPTY, s); ReadFrom(need, lost) && Gone(lost, m.byPair, Cleanup(m, now).byPair)
    ensures var m := RegisterActive(EMPTY, s);
            && ((localDid, peerDid) in need <==> '|' !in localDid && PairKey(localDid, peerDid) == PairOf(s))
            && (HasSession(m, localDid, peerDid) <==> Between(s, localDid, peerDid))
    ensures Between(s, "a|b", "c") ==> ("a", "b|c") in need && ("a|b", "c") !in need
  {
    var m := RegisterActive(EMPTY, s);
    SoleSession(s, now);
    BarKeysCollide();
    NamedIff(m, [Some(s)], now, need, lost, localDid, peerDid);
    NamedIff(m, [Some(s)], now, need, lost, "a", "b|c");
    NamedIff(m, [Some(s)], now, need, lost, "a|b", "c");
  }
}

/** anp/anp/e2e_encryption_v2/key_manager.py: the sessions of one endpoint, indexed by DID pair, by key id and,
    while their handshake runs, by session id. */
module KeyManagers {
  import opened Wrappers
  import opened V2Sessions

  const MAX_CONCURRENT_KEYS: nat := 2
  const HANDSHAKE_TIMEOUT: int := 300

  /** _did_pair_key */
  function PairKey(localDid: Did, peerDid: Did): string {
    localDid + "|" + peerDid
  }

  /** key.split("|", 1) */
  function SplitKey(key: string): (Did, Did)
    requires '|' in key
  {
    if key[0] == '|' then ("", key[1..])
    else
      var (first, second) := SplitKey(key[1..]);
      ([key[0]] + first, second)
  }

  function PairOf(s: Session): string {
    PairKey(s.localDid, s.peerDid)
  }

  /** The manager's three dictionaries, each session by its current value. */
  datatype Manager = Manager(
    byPair: map<string, seq<Session>>, byKeyId: map<KeyId, Session>, pending: map<string, Session>)

  const EMPTY := Manager(map[], map[], map[])

  function SessionsAt(byPair: map<string, seq<Session>>, key: string): seq<Session> {
    if key in byPair then byPair[key] else []
  }

  // ---- what the operations do ----

  function KeyIds(sessions: seq<Session>): set<KeyId> {
    set s | s in sessions && s.secretKeyId.Some? :: s.secretKeyId.value
  }

  lemma KeyIdsAppend(sessions: seq<Session>, s: Session)
    ensures KeyIds(sessions + [s])
         == KeyIds(sessions) + if s.secretKeyId.Some? then {s.secretKeyId.value} else {}
  {
  }

  /** The sessions that leave a list to make room for one more. */
  function Evicted(sessions: seq<Session>): seq<Session> {
    if |sessions| >= MAX_CONCURRENT_KEYS then sessions[..|sessions| - (MAX_CONCURRENT_KEYS - 1)] else []
  }

  function Kept(sessions: seq<Session>): seq<Session> {
    sessions[|Evicted(sessions)|..]
  }

  function AddToPair(byPair: map<string, seq<Session>>, s: Session): map<string, seq<Session>> {
    byPair[PairOf(s) := Kept(SessionsAt(byPair, PairOf(s))) + [s]]
  }

  function AddToKeyIds(byPair: map<string, seq<Session>>, byKeyId: map<KeyId, Session>, s: Session)
    : map<KeyId, Session>
  {
    var remaining := byKeyId - KeyIds(Evicted(SessionsAt(byPair, PairOf(s))));
    if s.secretKeyId.Some? then remaining[s.secretKeyId.value := s] else remaining
  }

  function RegisterActive(m: Manager, s: Session): Manager {
    m.(byPair := AddToPair(m.byPair, s), byKeyId := AddToKeyIds(m.byPair, m.byKeyId, s))
  }

  function Promote(m: Manager, sessionId: string): Manager {
    if sessionId !in m.pending then m
    else RegisterActive(m.(pending := m.pending - {sessionId}), m.pending[sessionId])
  }

  predicate TimedOut(s: Session, now: int) {
    now - s.createdAt > HANDSHAKE_TIMEOUT
  }

  function GetPending(m: Manager, sessionId: string, now: int): (Manager, Option<Session>) {
    if sessionId !in m.pending then (m, None)
    else if TimedOut(m.pending[sessionId], now) then (m.(pending := m.pending - {sessionId}), None)
    else (m, Some(m.pending[sessionId]))
  }

  function Unexpired(sessions: seq<Session>, now: int): seq<Session> {
    if sessions == [] then []
    else Unexpired(sessions[..|sessions| - 1], now)
         + if IsExpired(sessions[|sessions| - 1], now) then [] else [sessions[|sessions| - 1]]
  }

  function Expired(sessions: seq<Session>, now: int): seq<Session> {
    if sessions == [] then []
    else Expired(sessions[..|sessions| - 1], now)
         + if IsExpired(sessions[|sessions| - 1], now) then [sessions[|sessions| - 1]] else []
  }

  function ExpiredKeyIds(byPair: map<string, seq<Session>>, now: int): set<KeyId> {
    set key, id | key in byPair && id in KeyIds(Expired(byPair[key], now)) :: id
  }

  function CleanPairs(byPair: map<string, seq<Session>>, now: int): map<string, seq<Session>> {
    map key | key in byPair && Unexpired(byPair[key], now) != [] :: Unexpired(byPair[key], now)
  }

  function CleanPending(pending: map<string, Session>, now: int): map<string, Session> {
    map id | id in pending && !TimedOut(pending[id], now) :: pending[id]
  }

  function Cleanup(m: Manager, now: int): Manager {
    Manager(CleanPairs(m.byPair, now), m.byKeyId - ExpiredKeyIds(m.byPair, now), CleanPending(m.pending, now))
  }

  function Without(sessions: seq<Session>, sessionId: string): seq<Session> {
    if sessions == [] then []
    else Without(sessions[..|sessions| - 1], sessionId)
         + if sessions[|sessions| - 1].sessionId == sessionId then [] else [sessions[|sessions| - 1]]
  }

  function RemoveFromPair(byPair: map<string, seq<Session>>, s: Session): map<string, seq<Session>> {
    var rest := Without(SessionsAt(byPair, PairOf(s)), s.sessionId);
    if rest == [] then byPair - {PairOf(s)} else byPair[PairOf(s) := rest]
  }

  function Remove(m: Manager, s: Session): Manager {
    Manager(RemoveFromPair(m.byPair, s),
            if s.secretKeyId.Some? then m.byKeyId - {s.secretKeyId.value} else m.byKeyId,
            m.pending - {s.sessionId})
  }

  predicate Usable(s: Session, now: int) {
    s.state == Active && !IsExpired(s, now)
  }

  function FirstUsable(sessions: seq<Session>, now: int): Option<Session> {
    if sessions == [] then None
    else if Usable(sessions[0], now) then Some(sessions[0])
    else FirstUsable(sessions[1..], now)
  }

  // ---- the class ----

  /** A session in a DID-pair list is held by its value: an ACTIVE session no longer changes. A pending one is
      held by reference, because its handshake goes on. */
  class E2eeKeyManager {
    var sessionsByDidPair: map<string, seq<Session>>
    var sessionsByKeyId: map<KeyId, Session>
    var pendingSessions: map<string, E2eeSession>

    ghost function Pending(): set<E2eeSession>
      reads `pendingSessions
    {
      set id | id in pendingSessions :: pendingSessions[id]
    }

    ghost function PendingView(): map<string, Session>
      reads `pendingSessions, Pending()
    {
      map id | id in pendingSessions :: pendingSessions[id].View()
    }

    ghost function View(): Manager
      reads this, Pending()
    {
      Manager(sessionsByDidPair, sessionsByKeyId, PendingView())
    }

    ghost predicate Valid()
      reads `sessionsByDidPair
    {
      forall key :: key in sessionsByDidPair ==> '|' in key
    }

    constructor ()
      ensures Valid() && View() == EMPTY
    {
      sessionsByDidPair, sessionsByKeyId, pendingSessions := map[], map[], map[];
    }

    method GetActiveSession(localDid: Did, peerDid: Did, now: int) returns (r: Option<Session>)
      ensures r == FirstUsable(SessionsAt(sessionsByDidPair, PairKey(localDid, peerDid)), now)
    {
      var key := PairKey(localDid, peerDid);
      var sessions := if key in sessionsByDidPair then sessionsByDidPair[key] else [];
      for i := 0 to |sessions|
        invariant FirstUsable(sessions[i..], now) == FirstUsable(sessions, now)
      {
        if sessions[i].state == Active && !IsExpired(sessions[i], now) {
          return Some(sessions[i]);
        }
        assert sessions[i..][1..] == sessions[i + 1..];
      }
      return None;
    }

    method RegisterPendingSession(session: E2eeSession)
      requires Valid()
      modifies this
      ensures Valid()
      ensures View() == old(View()).(pending := old(View()).pending[session.sessionId := session.View()])
    {
      pendingSessions := pendingSessions[session.sessionId := session];
    }

    method GetPendingSession(sessionId: string, now: int) returns (r: E2eeSession?)
      requires Valid()
      modifies this
      ensures Valid() && View() == GetPending(old(View()), sessionId, now).0
      ensures (if r == null then None else Some(r.View())) == GetPending(old(View()), sessionId, now).1
    {
      if sessionId !in pendingSessions {
        return null;
      }
      var session := pendingSessions[sessionId];
      var elapsed := now - session.createdAt;
      if elapsed > HANDSHAKE_TIMEOUT {
        DropPending(sessionId);
        return null;
      }
      return session;
    }

    method PromotePendingSession(sessionId: string)
      requires Valid()
      modifies this
      ensures Valid() && View() == Promote(old(View()), sessionId)
    {
      if sessionId !in pendingSessions {
        return;
      }
      var session := pendingSessions[sessionId];
      DropPending(sessionId);
      Register(session.View());
    }

    method RegisterSession(session: E2eeSession)
      requires Valid()
      modifies this
      ensures Valid() && View() == RegisterActive(old(View()), session.View())
    {
      Register(session.View());
    }

    /** _register_active */
    method Register(session: Session)
      requires Valid()
      modifies `sessionsByDidPair, `sessionsByKeyId
      ensures Valid() && View() == RegisterActive(old(View()), session)
    {
      var key := PairKey(session.localDid, session.peerDid);
      assert key[|session.localDid|] == '|';
      var sessions := if key in sessionsByDidPair then sessionsByDidPair[key] else [];
      sessions, sessionsByKeyId := MakeRoom(sessions, sessionsByKeyId);
      sessionsByDidPair := sessionsByDidPair[key := sessions + [session]];
      if session.secretKeyId.Some? {
        sessionsByKeyId := sessionsByKeyId[session.secretKeyId.value := session];
      }
      assert PendingView() == old(PendingView());
    }

    /** The eviction loop of _register_active. */
    static method MakeRoom(all: seq<Session>, byKeyId: map<KeyId, Session>)
      returns (sessions: seq<Session>, left: map<KeyId, Session>)
      ensures sessions == Kept(all) && left == byKeyId - KeyIds(Evicted(all))
    {
      sessions, left := all, byKeyId;
      ghost var n := 0;
      while |sessions| >= MAX_CONCURRENT_KEYS
        invariant 0 <= n <= |Evicted(all)| && sessions == all[n..]
        invariant left == byKeyId - KeyIds(all[..n])
        decreases |sessions|
      {
        var oldest := sessions[0];
        sessions := sessions[1..];
        assert all[..n + 1] == all[..n] + [oldest];
        KeyIdsAppend(all[..n], oldest);
        if oldest.secretKeyId.Some? {
          MinusTwice(byKeyId, KeyIds(all[..n]), {oldest.secretKeyId.value});
          left := left - {oldest.secretKeyId.value};
        }
        n := n + 1;
      }
      assert all[..n] == Evicted(all);
    }

    method RemoveSession(session: Session)
      requires Valid()
      modifies this
      ensures Valid() && View() == Remove(old(View()), session)
    {
      DropPending(session.sessionId);
      DropActive(session);
    }

    method DropActive(session: Session)
      requires Valid()
      modifies `sessionsByDidPair, `sessionsByKeyId
      ensures Valid() && PendingView() == old(PendingView())
      ensures sessionsByDidPair == RemoveFromPair(old(sessionsByDidPair), session)
      ensures sessionsByKeyId
           == if session.secretKeyId.None? then old(sessionsByKeyId)
              else old(sessionsByKeyId) - {session.secretKeyId.value}
    {
      if session.secretKeyId.Some? {
        sessionsByKeyId := sessionsByKeyId - {session.secretKeyId.value};
      }
      sessionsByDidPair := DropFromPair(sessionsByDidPair, session);
    }

    method DropPending(sessionId: string)
      modifies `pendingSessions
      ensures PendingView() == old(PendingView()) - {sessionId}
    {
      pendingSessions := pendingSessions - {sessionId};
    }

    static method DropFromPair(before: map<string, seq<Session>>, session: Session)
      returns (byPair: map<string, seq<Session>>)
      requires forall key :: key in before ==> '|' in key
      ensures byPair == RemoveFromPair(before, session)
      ensures forall key :: key in byPair ==> '|' in key
    {
      var key := PairKey(session.localDid, session.peerDid);
      assert key[|session.localDid|] == '|';
      var sessions := if key in before then before[key] else [];
      var rest := FilterOut(sessions, session.sessionId);
      byPair := before[key := rest];
      if byPair[key] == [] {
        byPair := byPair - {key};
      }
    }

    static method FilterOut(sessions: seq<Session>, sessionId: string) returns (rest: seq<Session>)
      ensures rest == Without(sessions, sessionId)
    {
      rest := [];
      for i := 0 to |sessions|
        invariant rest == Without(sessions[..i], sessionId)
      {
        assert sessions[..i + 1][..i] == sessions[..i];
        if sessions[i].sessionId != sessionId {
          rest := rest + [sessions[i]];
        }
      }
      assert sessions[..|sessions|] == sessions;
    }

    /** cleanup_expired: also returns, without repetition and in no particular order, the pairs whose list
        it emptied, read back from their keys. */
    method CleanupExpired(now: int) returns (needRehandshake: seq<(Did, Did)>, ghost lost: seq<string>)
      requires Valid()
      modifies this
      ensures Valid() && View() == Cleanup(old(View()), now)
      ensures ReadFrom(needRehandshake, lost)
      ensures Gone(lost, old(sessionsByDidPair), sessionsByDidPair)
    {
      sessionsByDidPair, sessionsByKeyId, needRehandshake, lost :=
        CleanupPairs(sessionsByDidPair, sessionsByKeyId, now);
      assert PendingView() == old(PendingView());
      CleanupPending(now);
    }

    /** The inner loop of cleanup_expired: split one list and forget the key ids of its expired sessions. */
    static method DropExpired(sessions: seq<Session>, byKeyId: map<KeyId, Session>, now: int)
      returns (remaining: seq<Session>, left: map<KeyId, Session>)
      ensures remaining == Unexpired(sessions, now)
      ensures left == byKeyId - KeyIds(Expired(sessions, now))
    {
      remaining, left := [], byKeyId;
      for i := 0 to |sessions|
        invariant remaining == Unexpired(sessions[..i], now)
        invariant left == byKeyId - KeyIds(Expired(sessions[..i], now))
      {
        assert sessions[..i + 1][..i] == sessions[..i];
        var session := sessions[i];
        if IsExpired(session, now) {
          assert Expired(sessions[..i + 1], now) == Expired(sessions[..i], now) + [session];
          KeyIdsAppend(Expired(sessions[..i], now), session);
          if session.secretKeyId.Some? {
            MinusTwice(byKeyId, KeyIds(Expired(sessions[..i], now)), {session.secretKeyId.value});
            left := left - {session.secretKeyId.value};
          }
        } else {
          remaining := remaining + [session];
        }
      }
      assert sessions[..|sessions|] == sessions;
    }

    static method CleanupPairs(before: map<string, seq<Session>>, byKeyId: map<KeyId, Session>, now: int)
      returns (byPair: map<string, seq<Session>>, left: map<KeyId, Session>,
               needRehandshake: seq<(Did, Did)>, ghost lost: seq<string>)
      requires forall key :: key in before ==> '|' in key
      ensures byPair == CleanPairs(before, now)
      ensures left == byKeyId - ExpiredKeyIds(before, now)
      ensures ReadFrom(needRehandshake, lost) && Gone(lost, before, byPair)
    {
      byPair, left, needRehandshake, lost := before, byKeyId, [], [];
      ghost var forgotten := {};
      var todo := before.Keys;
      while todo != {}
        invariant PartlyCleaned(before, byPair, todo, now)
        invariant left == byKeyId - forgotten && forgotten == ExpiredKeyIds(before - todo, now)
        invariant ReadFrom(needRehandshake, lost) && Gone(lost, before, byPair)
        decreases todo
      {
        var key :| key in todo;
        ghost var current := byPair;
        var remaining;
        remaining, left := DropExpired(byPair[key], left, now);
        MinusTwice(byKeyId, forgotten, KeyIds(Expired(before[key], now)));
        ExpiredKeyIdsOneMore(before, todo, key, now);
        forgotten := forgotten + KeyIds(Expired(before[key], now));
        if remaining != [] {
          byPair := byPair[key := remaining];
        } else {
          byPair := byPair - {key};
          ReadFromOneMore(needRehandshake, lost, key);
          needRehandshake, lost := needRehandshake + [SplitKey(key)], lost + [key];
        }
        PartlyCleanedStep(before, current, todo, key, byPair, now);
        todo := todo - {key};
      }
      assert before - {} == before;
    }

    method CleanupPending(now: int)
      modifies `pendingSessions
      ensures PendingView() == CleanPending(old(PendingView()), now)
    {
      var todo := pendingSessions.Keys;
      while todo != {}
        invariant todo <= pendingSessions.Keys
        invariant forall id :: id in pendingSessions ==>
          id in old(pendingSessions) && pendingSessions[id] == old(pendingSessions)[id]
        invariant forall id :: id in old(pendingSessions) ==>
          (id in pendingSessions <==> id in todo || !(now - old(pendingSessions)[id].createdAt > HANDSHAKE_TIMEOUT))
        decreases todo
      {
        var id :| id in todo;
        var elapsed := now - pendingSessions[id].createdAt;
        if elapsed > HANDSHAKE_TIMEOUT {
          pendingSessions := pendingSessions - {id};
        }
        todo := todo - {id};
      }
    }
  }

  lemma MinusTwice<K, V>(m: map<K, V>, a: set<K>, b: set<K>)
    ensures m - a - b == m - (a + b)
  {
  }

  /** The pairs are those of the keys, one for one, and no key occurs twice. */
  ghost predicate ReadFrom(pairs: seq<(Did, Did)>, keys: seq<string>) {
    && |pairs| == |keys|
    && (forall i :: 0 <= i < |keys| ==> '|' in keys[i] && pairs[i] == SplitKey(keys[i]))
    && (forall i, j :: 0 <= i < j < |keys| ==> keys[i] != keys[j])
  }

  lemma ReadFromOneMore(pairs: seq<(Did, Did)>, keys: seq<string>, key: string)
    requires ReadFrom(pairs, keys) && '|' in key && key !in keys
    ensures ReadFrom(pairs + [SplitKey(key)], keys + [key])
  {
  }

  lemma ExpiredKeyIdsOneMore(byPair: map<string, seq<Session>>, todo: set<string>, key: string, now: int)
    requires key in byPair && key in todo
    ensures ExpiredKeyIds(byPair - (todo - {key}), now)
         == ExpiredKeyIds(byPair - todo, now) + KeyIds(Expired(byPair[key], now))
  {
    var done, more := byPair - todo, byPair - (todo - {key});
    forall id | id in KeyIds(Expired(byPair[key], now))
      ensures id in ExpiredKeyIds(more, now)
    {
      assert more[key] == byPair[key];
    }
    forall id | id in ExpiredKeyIds(done, now)
      ensures id in ExpiredKeyIds(more, now)
    {
      var k :| k in done && id in KeyIds(Expired(done[k], now));
      assert more[k] == done[k];
    }
    forall id | id in ExpiredKeyIds(more, now)
      ensures id in ExpiredKeyIds(done, now) || id in KeyIds(Expired(byPair[key], now))
    {
      var k :| k in more && id in KeyIds(Expired(more[k], now));
      if k != key {
        assert done[k] == more[k];
      }
    }
  }

  /** The lists outside `todo` are cleaned, the others untouched. */
  ghost predicate PartlyCleaned(before: map<string, seq<Session>>, current: map<string, seq<Session>>,
                                todo: set<string>, now: int)
  {
    && todo <= current.Keys <= before.Keys
    && (forall key :: key in todo ==> current[key] == before[key])
    && (forall key :: key in before && key !in todo ==>
          (key in current <==> Unexpired(before[key], now) != [])
          && (key in current ==> current[key] == Unexpired(before[key], now)))
  }

  lemma PartlyCleanedStep(before: map<string, seq<Session>>, current: map<string, seq<Session>>, todo: set<string>,
                          key: string, next: map<string, seq<Session>>, now: int)
    requires PartlyCleaned(before, current, todo, now) && key in todo
    requires var rest := Unexpired(before[key], now);
             next == if rest == [] then current - {key} else current[key := rest]
    ensures PartlyCleaned(before, next, todo - {key}, now)
  {
  }

  ghost predicate Gone(lost: seq<string>, before: map<string, seq<Session>>, current: map<string, seq<Session>>) {
    forall key :: key in lost <==> key in before && key !in current
  }
}

/** Until when the v2 key manager keeps and hands out a session, said of the times in its fields. */
module KeyManagerTimes {
  import opened Wrappers
  import opened V2Sessions
  import opened KeyManagers
  import opened KeyManagerRuns

  /** A session that was never activated, or has no lifetime, or whose lifetime has not passed. */
  predicate InLifetime(s: Session, now: int) {
    s.activeAt.None? || s.keyExpires.None? || now <= s.activeAt.value + s.keyExpires.value
  }

  /** A session activated at `t` with lifetime `e` stays listed and indexed after a cleanup exactly until t + e; one
      without such times stays for good, and a cleanup lists nothing new. */
  lemma CleanupKeepsIff(m: Manager, log: seq<Option<Session>>, s: Session, now: int)
    requires Inv(m, log) && Listed(m, s)
    ensures Listed(Cleanup(m, now), s) <==> InLifetime(s, now)
    ensures Indexed(Cleanup(m, now), s) <==> InLifetime(s, now)
    ensures forall r :: Listed(Cleanup(m, now), r) ==> Listed(m, r)
  {
    CleanupKeepsInv(m, log, now);
    ListedAfterCleanup(m, now, s);
    forall r | Listed(Cleanup(m, now), r)
      ensures Listed(m, r)
    {
      ListedAfterCleanup(m, now, r);
    }
    if Indexed(Cleanup(m, now), s) {
      assert Listed(Cleanup(m, now), s);
    }
  }

  // ---- get_active_session ----

  predicate IsUsable(s: Session, now: int) {
    s.state == Active && InLifetime(s, now)
  }

  /** Position `i` is the first usable one. */
  predicate FirstAt(list: seq<Session>, now: int, i: nat) {
    i < |list| && IsUsable(list[i], now) && forall j :: 0 <= j < i ==> !IsUsable(list[j], now)
  }

  lemma {:induction false} FirstUsableIs(list: seq<Session>, now: int) returns (i: nat)
    ensures if i < |list| then FirstAt(list, now, i) && FirstUsable(list, now) == Some(list[i])
            else FirstUsable(list, now) == None && forall j :: 0 <= j < |list| ==> !IsUsable(list[j], now)
  {
    if list == [] {
      i := 0;
    } else if IsUsable(list[0], now) {
      i := 0;
    } else {
      i := FirstUsableIs(list[1..], now);
      forall j | 0 <= j < |list| && j < i + 1
        ensures !IsUsable(list[j], now)
      {
        if j > 0 { assert list[j] == list[1..][j - 1]; }
      }
      i := i + 1;
    }
  }

  /** What get_active_session returns for a list: its first session that is ACTIVE and in its lifetime, and nothing
      exactly when there is none. */
  lemma FirstUsableIff(list: seq<Session>, now: int, s: Session)
    ensures FirstUsable(list, now) == Some(s) <==> exists i: nat :: FirstAt(list, now, i) && list[i] == s
    ensures FirstUsable(list, now) == None <==> forall i :: 0 <= i < |list| ==> !IsUsable(list[i], now)
  {
    var i := FirstUsableIs(list, now);
    forall k: nat | FirstAt(list, now, k)
      ensures k == i
    {
      assert i < |list| && !(i < k);
    }
  }

  /** A session registered in its lifetime is returned, unless an older usable one of its list comes first. */
  lemma RegisteredIsFound(m: Manager, s: Session, now: int)
    requires Usual(s) && InLifetime(s, now)
    ensures var list := RegisterActive(m, s).byPair[PairOf(s)];
            && FirstUsable(list, now).Some?
            && ((forall r :: r in Kept(SessionsAt(m.byPair, PairOf(s))) ==> !IsUsable(r, now)) ==>
                  FirstUsable(list, now) == Some(s))
  {
    var kept := Kept(SessionsAt(m.byPair, PairOf(s)));
    var list := RegisterActive(m, s).byPair[PairOf(s)];
    assert list == kept + [s] && list[|kept|] == s;
    var i := FirstUsableIs(list, now);
    if i < |kept| {
      assert kept[i] == list[i];
    }
  }

  // ---- pending handshakes ----

  /** A pending session is handed out, and survives a cleanup, for as long as its handshake may take; then both drop it.
      No other pending session is touched by a look-up. */
  lemma PendingUntil(m: Manager, id: string, now: int)
    requires id in m.pending
    ensures var s := m.pending[id];
            var (m', r) := GetPending(m, id, now);
            && (r == Some(s) <==> now <= s.createdAt + HANDSHAKE_TIMEOUT)
            && (r == None <==> now > s.createdAt + HANDSHAKE_TIMEOUT)
            && m' == (if r == None then m.(pending := m.pending - {id}) else m)
            && (id in Cleanup(m, now).pending <==> now <= s.createdAt + HANDSHAKE_TIMEOUT)
  {
  }

  /** Promoting a pending session lists it, as the last of its pair, and ends its being pending. */
  lemma PromotedIsListed(m: Manager, id: string)
    requires id in m.pending && Usual(m.pending[id])
    ensures var s, m' := m.pending[id], Promote(m, id);
            && Listed(m', s) && Indexed(m', s) && m'.pending == m.pending - {id}
            && var list := m'.byPair[PairOf(s)]; list[|list| - 1] == s
  {
  }

  // ---- removal ----

  /** After its removal a session is neither pending nor listed nor indexed; sessions of other ids stay. */
  lemma RemovedIsGone(m: Manager, s: Session, r: Session)
    ensures var m' := Remove(m, s);
            && (Listed(m', r) <==> Listed(m, r) && !(PairOf(r) == PairOf(s) && r.sessionId == s.sessionId))
            && (forall id :: id in m'.pending <==> id in m.pending && id != s.sessionId)
            && (forall id :: id in m'.byKeyId <==> id in m.byKeyId && Some(id) != s.secretKeyId)
            && !Listed(m', s)
  {
    ListedAfterRemove(m, s, r);
    ListedAfterRemove(m, s, s);
  }
}

/** Every run of the health monitor on one node. */
module HealthRuns {
  import opened Wrappers
  import opened HealthMonitors

  datatype Event = Pinged(p: Probe) | Swept(now: int)

  function At(e: Event): int {
    match e
    case Pinged(p) => p.now
    case Swept(now) => now
  }

  function Step(n: Node, e: Event, keep: Option<nat>): Node {
    match e
    case Pinged(p) => Ping(n, p, keep)
    case Swept(now) => Sweep(n, now, keep)
  }

  function After(n: Node, es: seq<Event>, keep: Option<nat>): Node {
    if es == [] then n else Step(After(n, es[..|es| - 1], keep), es[|es| - 1], keep)
  }

  ghost predicate ClockNeverBack(es: seq<Event>) {
    forall i, j :: 0 <= i <= j < |es| ==> At(es[i]) <= At(es[j])
  }

  // ---- What always holds of a node ----

  predicate StatusIs(n: Node, status: Status) {
    n.health.Some? && n.health.value.status == status
  }

  predicate NodeOk(n: Node) {
    && (n.pending ==> StatusIs(n, Reconnecting) || StatusIs(n, Degraded) || StatusIs(n, Dead))
    && (StatusIs(n, Reconnecting) ==> n.pending)
    && (StatusIs(n, Alive) ==> n.health.value.failCount == 0)
  }

  /** In every run a node awaiting its handshake is reconnecting, degraded or dead, and a node that is alive has no
      failures on record. */
  lemma {:induction false} RunKeepsNodeOk(es: seq<Event>, keep: Option<nat>)
    ensures NodeOk(After(UNKNOWN, es, keep))
  {
    if es != [] {
      RunKeepsNodeOk(es[..|es| - 1], keep);
    }
  }

  /** A node awaiting its handshake becomes alive by a validated handshake only. */
  lemma OnlyHandshakeRevives(n: Node, e: Event, keep: Option<nat>)
    requires NodeOk(n) && n.pending
    ensures StatusIs(Step(n, e, keep), Alive) <==> e.Pinged? && e.p.success && e.p.trusted && !StatusIs(n, Dead)
    ensures !Step(n, e, keep).pending <==> StatusIs(Step(n, e, keep), Alive)
  {
  }

  // ---- The bounded history decides flapping like the full one ----

  ghost predicate InOrder(changes: seq<Change>, now: int) {
    && (forall i, j :: 0 <= i <= j < |changes| ==> changes[i].at <= changes[j].at)
    && (forall i :: 0 <= i < |changes| ==> changes[i].at <= now)
  }

  lemma {:induction false} RecentAtMost(changes: seq<Change>, now: int)
    ensures Recent(changes, now) <= |changes|
    ensures (forall i :: 0 <= i < |changes| ==> now - changes[i].at < FLAPPING_WINDOW) ==>
              Recent(changes, now) == |changes|
    ensures (forall i :: 0 <= i < |changes| ==> now - changes[i].at >= FLAPPING_WINDOW) ==>
              Recent(changes, now) == 0
  {
    if changes != [] {
      RecentAtMost(changes[..|changes| - 1], now);
    }
  }

  lemma {:induction false} RecentSplit(changes: seq<Change>, k: nat, now: int)
    requires k <= |changes|
    ensures Recent(changes, now) == Recent(changes[..k], now) + Recent(changes[k..], now)
  {
    if k == |changes| {
      assert changes[..k] == changes;
    } else {
      var n := |changes| - 1;
      RecentSplit(changes[..n], k, now);
      assert changes[..n][..k] == changes[..k] && changes[..n][k..] == changes[k..][..n - k];
    }
  }

  /** If a forgotten change were recent, all the remembered ones would be too. */
  lemma BoundedHistorySuffices(changes: seq<Change>, keep: nat, now: int)
    requires InOrder(changes, now) && keep >= FLAPPING_THRESHOLD
    ensures IsFlapping(Last(changes, keep), now) == IsFlapping(changes, now)
  {
    if |changes| > keep {
      var k := |changes| - keep;
      RecentSplit(changes, k, now);
      ForgottenOrAllRecent(changes, k, now);
    }
  }

  lemma ForgottenOrAllRecent(changes: seq<Change>, k: nat, now: int)
    requires InOrder(changes, now) && k <= |changes|
    ensures Recent(changes[..k], now) == 0 || Recent(changes[k..], now) == |changes| - k
  {
    RecentAtMost(changes[..k], now);
    RecentAtMost(changes[k..], now);
    if i :| 0 <= i < k && now - changes[i].at < FLAPPING_WINDOW {
      forall j | 0 <= j < |changes| - k
        ensures now - changes[k..][j].at < FLAPPING_WINDOW
      {
        assert changes[i].at <= changes[k + j].at;
      }
    } else {
      assert forall i :: 0 <= i < k ==> changes[..k][i] == changes[i];
    }
  }

  /** The bounded node `b` shows the last `keep` changes of the unbounded node `u` and is otherwise equal. */
  ghost predicate Shows(b: Node, u: Node, keep: nat) {
    b == u.(changes := Last(u.changes, keep))
  }

  lemma RecordShows(changes: seq<Change>, status: Status, now: int, keep: nat)
    requires keep > 0
    ensures Record(Last(changes, keep), status, now, Some(keep)) == Last(Record(changes, status, now, None), keep)
  {
    var bounded, full := Last(changes, keep) + [Change(now, status)], changes + [Change(now, status)];
    assert Last(bounded, keep) == Last(full, keep);
  }

  lemma PingShows(b: Node, u: Node, p: Probe, keep: nat)
    requires Shows(b, u, keep) && InOrder(u.changes, p.now) && keep >= FLAPPING_THRESHOLD
    ensures Shows(Ping(b, p, Some(keep)), Ping(u, p, None), keep)
  {
    BoundedHistorySuffices(u.changes, keep, p.now);
    RecordShows(u.changes, Alive, p.now, keep);
    RecordShows(u.changes, Dead, p.now, keep);
    RecordShows(u.changes, Reconnecting, p.now, keep);
  }

  lemma SweepShows(b: Node, u: Node, now: int, keep: nat)
    requires Shows(b, u, keep) && keep > 0
    ensures Shows(Sweep(b, now, Some(keep)), Sweep(u, now, None), keep)
  {
    RecordShows(u.changes, Dead, now, keep);
  }

  /** A step records at most one change, at its own time. */
  lemma StepStaysInOrder(u: Node, e: Event)
    requires InOrder(u.changes, At(e))
    ensures InOrder(Step(u, e, None).changes, At(e))
  {
    var changes := Step(u, e, None).changes;
    assert changes == u.changes
        || exists status :: changes == u.changes + [Change(At(e), status)] by {
      assert forall status :: Record(u.changes, status, At(e), None) == u.changes + [Change(At(e), status)];
    }
  }

  /** Keeping the last 20 changes makes no difference: in every run the monitor goes through the same statuses as one
      that forgets nothing. */
  lemma {:induction false} HistoryBoundInvisible(es: seq<Event>, keep: nat)
    requires ClockNeverBack(es) && keep >= FLAPPING_THRESHOLD
    ensures Shows(After(UNKNOWN, es, Some(keep)), After(UNKNOWN, es, None), keep)
    ensures es != [] ==> InOrder(After(UNKNOWN, es, None).changes, At(es[|es| - 1]))
  {
    if es != [] {
      var before, e := es[..|es| - 1], es[|es| - 1];
      HistoryBoundInvisible(before, keep);
      var u := After(UNKNOWN, before, None);
      assert InOrder(u.changes, At(e)) by {
        if before != [] {
          assert At(before[|before| - 1]) <= At(e);
        }
      }
      StepStaysInOrder(u, e);
      match e
      case Pinged(p) => PingShows(After(UNKNOWN, before, Some(keep)), u, p, keep);
      case Swept(now) => SweepShows(After(UNKNOWN, before, Some(keep)), u, now, keep);
    }
  }

  /** The verdict at any later time is the same too. */
  lemma SameFlappingVerdict(es: seq<Event>, now: int)
    requires ClockNeverBack(es) && (es != [] ==> At(es[|es| - 1]) <= now)
    ensures IsFlapping(After(UNKNOWN, es, Some(HISTORY)).changes, now)
         == IsFlapping(After(UNKNOWN, es, None).changes, now)
  {
    HistoryBoundInvisible(es, HISTORY);
    BoundedHistorySuffices(After(UNKNOWN, es, None).changes, HISTORY, now);
  }

  // ---- A dead node returns through a validated handshake only ----

  /** One pass of the loop for this node: at most one ping, then the check for silent nodes. */
  datatype Pass = Pass(ping: Option<Probe>, now: int)

  /** The node after a run of passes from the monitor's start. */
  function AfterPasses(ps: seq<Pass>): Node {
    if ps == [] then UNKNOWN
    else RoundOf(AfterPasses(ps[..|ps| - 1]), ps[|ps| - 1].ping, ps[|ps| - 1].now)
  }

  /** The pings of a pass come before its check, and the clock never goes back. */
  ghost predicate Timely(ps: seq<Pass>) {
    && (forall i :: 0 <= i < |ps| && ps[i].ping.Some? ==> ps[i].ping.value.now <= ps[i].now)
    && (forall i :: 0 < i < |ps| ==> ps[i - 1].now <= ps[i].now)
    && (forall i :: 0 < i < |ps| && ps[i].ping.Some? ==> ps[i - 1].now <= ps[i].ping.value.now)
  }

  /** In this pass the node's handshake is asked for and found valid. */
  predicate Validated(before: Node, p: Pass) {
    before.pending && p.ping.Some? && p.ping.value.success && p.ping.value.trusted
  }

  /** A node that a ping cannot bring back by itself: it awaits its handshake, or it is dead and either has used up its
      retries or has been silent for too long. */
  predicate Barred(n: Node, clock: int) {
    && n.health.Some?
    && (n.pending
        || (StatusIs(n, Dead)
            && (n.health.value.failCount >= MAX_RETRIES || clock - n.health.value.lastSeen > DEAD_THRESHOLD)))
  }

  lemma PassKeepsNodeOk(n: Node, p: Pass)
    requires NodeOk(n)
    ensures NodeOk(AfterPing(n, p.ping)) && NodeOk(RoundOf(n, p.ping, p.now))
  {
  }

  /** Whatever a pass does, a node that is dead after it is barred: one marked by a failed ping has no retries left, one
      marked as silent stays silent. */
  lemma DeadIsBarred(n: Node, p: Pass, clock: int)
    requires NodeOk(n) && clock <= p.now && (StatusIs(n, Dead) ==> Barred(n, clock))
    ensures StatusIs(RoundOf(n, p.ping, p.now), Dead) ==> Barred(RoundOf(n, p.ping, p.now), p.now)
  {
  }

  /** A pass without a validated handshake leaves a barred node barred, and the node is not alive in its course either:
      a failed ping may make a silent node degraded, but the check of the same pass marks it dead again. */
  lemma PassKeepsBarred(n: Node, p: Pass, clock: int)
    requires NodeOk(n) && Barred(n, clock) && clock <= p.now && !Validated(n, p)
    ensures Barred(RoundOf(n, p.ping, p.now), p.now)
    ensures !StatusIs(AfterPing(n, p.ping), Alive) && !StatusIs(RoundOf(n, p.ping, p.now), Alive)
  {
  }

  lemma {:induction false} PassesKeepNodeOk(ps: seq<Pass>)
    requires Timely(ps)
    ensures NodeOk(AfterPasses(ps))
    ensures ps != [] && StatusIs(AfterPasses(ps), Dead) ==> Barred(AfterPasses(ps), ps[|ps| - 1].now)
  {
    if ps != [] {
      var before, p := ps[..|ps| - 1], ps[|ps| - 1];
      PassesKeepNodeOk(before);
      PassKeepsNodeOk(AfterPasses(before), p);
      DeadIsBarred(AfterPasses(before), p, if before == [] then p.now else before[|before| - 1].now);
    }
  }

  /** Pass k of the run validates the node's handshake. */
  ghost predicate ValidatedAt(ps: seq<Pass>, k: nat)
    requires k < |ps|
  {
    Validated(AfterPasses(ps[..k]), ps[k])
  }

  lemma OnePassMore(ps: seq<Pass>, j: nat)
    requires Timely(ps) && 0 < j <= |ps|
    ensures Timely(ps[..j]) && Timely(ps[..j - 1])
    ensures AfterPasses(ps[..j]) == RoundOf(AfterPasses(ps[..j - 1]), ps[j - 1].ping, ps[j - 1].now)
  {
    assert ps[..j][..j - 1] == ps[..j - 1];
  }

  lemma ClockAdvances(ps: seq<Pass>, j: nat)
    requires Timely(ps) && 1 < j <= |ps|
    ensures ps[j - 2].now <= ps[j - 1].now
  {
  }

  lemma {:induction false} BarredUntilValidated(ps: seq<Pass>, i: nat, j: nat)
    requires Timely(ps) && 0 < i <= j <= |ps| && StatusIs(AfterPasses(ps[..i]), Dead)
    requires forall k :: i <= k < j ==> !ValidatedAt(ps, k)
    ensures Barred(AfterPasses(ps[..j]), ps[j - 1].now)
  {
    OnePassMore(ps, j);
    if i == j {
      PassesKeepNodeOk(ps[..j]);
    } else {
      BarredUntilValidated(ps, i, j - 1);
      PassesKeepNodeOk(ps[..j - 1]);
      ClockAdvances(ps, j);
      assert !ValidatedAt(ps, j - 1);
      PassKeepsBarred(AfterPasses(ps[..j - 1]), ps[j - 1], ps[j - 2].now);
    }
  }

  /** In every run of the loop, a node that was dead after one pass and is alive in the course of a later one, or after
      it, had its handshake validated in the meantime. */
  lemma DeadReturnsByHandshake(ps: seq<Pass>, i: nat, j: nat)
    requires Timely(ps) && 0 < i < j <= |ps| && StatusIs(AfterPasses(ps[..i]), Dead)
    requires || StatusIs(AfterPing(AfterPasses(ps[..j - 1]), ps[j - 1].ping), Alive)
             || StatusIs(AfterPasses(ps[..j]), Alive)
    ensures exists k :: i <= k < j && ValidatedAt(ps, k)
  {
    if forall k :: i <= k < j ==> !ValidatedAt(ps, k) {
      BarredUntilValidated(ps, i, j - 1);
      OnePassMore(ps, j);
      PassesKeepNodeOk(ps[..j - 1]);
      ClockAdvances(ps, j);
      assert !ValidatedAt(ps, j - 1);
      PassKeepsBarred(AfterPasses(ps[..j - 1]), ps[j - 1], ps[j - 2].now);
    }
  }

  /** And it takes no more: a dead node that answers two pings, and is found trusted at the second, is alive. */
  lemma HandshakeRevives(n: Node, first: Probe, now: int, second: Probe, later: int)
    requires NodeOk(n) && StatusIs(n, Dead) && first.success && second.success && second.trusted
    requires later - second.now <= DEAD_THRESHOLD
    ensures StatusIs(RoundOf(RoundOf(n, Some(first), now), Some(second), later), Alive)
  {
  }

  // ---- What each ping and each check does to the status ----

  /** An answered ping makes a node alive exactly when it was not dead and was either validated, if it awaits its
      handshake, or is not flapping; then it starts afresh. */
  lemma AliveIff(n: Node, p: Probe, keep: Option<nat>)
    requires NodeOk(n) && p.success
    ensures var after := Ping(n, p, keep);
            && (StatusIs(after, Alive) <==>
                  !StatusIs(n, Dead) && if n.pending then p.trusted else !IsFlapping(n.changes, p.now))
            && (StatusIs(after, Alive) ==>
                  !after.pending && after.health.value.failCount == 0 && after.health.value.lastSeen == p.now)
            && (StatusIs(n, Dead) ==> StatusIs(after, Reconnecting) && after.pending)
  {
  }

  /** What a ping counts and notes besides. Only a node that comes back to life is seen, and only failures count against
      it; an answer while flapping says so, and an unvalidated one leaves the status. */
  lemma PingCounts(n: Node, p: Probe, keep: Option<nat>)
    requires NodeOk(n) && n.health.Some?
    ensures var after := Ping(n, p, keep);
            after.health.Some? &&
            var h, g := n.health.value, after.health.value;
            && g.pingCount == h.pingCount + 1 && g.responseMs == (if p.success then p.ms else h.responseMs)
            && g.lastSeen == (if p.success && g.status == Alive then p.now else h.lastSeen)
            && g.failCount == (if !p.success then h.failCount + 1 else if g.status == Alive then 0 else h.failCount)
            && (p.success && h.status != Dead && n.pending && !p.trusted ==> g.status == h.status && after.pending)
            && (p.success && h.status != Dead && !n.pending && IsFlapping(n.changes, p.now) ==> g.status == Flapping)
  {
  }

  /** The first answer of a node that was never pinged makes it alive, without counting as a change. */
  lemma FirstPing(p: Probe, keep: Option<nat>)
    ensures var after := Ping(UNKNOWN, p, keep);
            && after.health == Some(Health(if p.success then Alive else Degraded, p.now, if p.success then 0 else 1, 1,
                                           if p.success then p.ms else 0))
            && !after.pending && after.changes == []
  {
  }

  ghost predicate AllFail(es: seq<Event>) {
    forall i :: 0 <= i < |es| ==> es[i].Pinged? && !es[i].p.success
  }

  /** An alive node is degraded by its first and second failed ping in a row and dead from the third on. */
  lemma {:induction false} FailuresInARow(n: Node, es: seq<Event>, keep: Option<nat>)
    requires StatusIs(n, Alive) && NodeOk(n) && AllFail(es) && es != []
    ensures var h := After(n, es, keep).health;
            h.Some? && h.value.failCount == |es| && h.value.status == if |es| < 3 then Degraded else Dead
  {
    var before := es[..|es| - 1];
    if before != [] {
      FailuresInARow(n, before, keep);
    } else {
      assert After(n, before, keep) == n;
    }
  }

  /** The check at the end of a round declares dead exactly the nodes not seen for more than half a minute, unless they
      are reconnecting. */
  lemma SilentIff(n: Node, now: int, keep: Option<nat>)
    ensures StatusIs(Sweep(n, now, keep), Dead) <==>
              StatusIs(n, Dead)
              || (n.health.Some? && now - n.health.value.lastSeen > 30 * SECOND && !StatusIs(n, Reconnecting))
    ensures !StatusIs(Sweep(n, now, keep), Dead) ==> Sweep(n, now, keep) == n
  {
  }

  function RecentPlaces(changes: seq<Change>, now: int): set<nat> {
    set i: nat | i < |changes| && now - changes[i].at < 60 * SECOND
  }

  lemma {:induction false} RecentCounts(changes: seq<Change>, now: int)
    ensures |RecentPlaces(changes, now)| == Recent(changes, now)
  {
    if changes != [] {
      var n := |changes| - 1;
      RecentCounts(changes[..n], now);
      var before := RecentPlaces(changes[..n], now);
      assert RecentPlaces(changes, now)
          == if now - changes[n].at < 60 * SECOND then before + {n} else before;
    }
  }

  /** A node is flapping exactly with five changes or more in the last minute. */
  lemma FlappingIff(changes: seq<Change>, now: int)
    ensures IsFlapping(changes, now) <==> |RecentPlaces(changes, now)| >= 5
  {
    RecentCounts(changes, now);
  }

  /** The history records a change exactly when the status of a known node turns to alive, dead or reconnecting. */
  lemma ChangesLogged(n: Node, e: Event)
    requires NodeOk(n) && n.health.Some?
    ensures var after := Step(n, e, None);
            after.health.Some? &&
            var status := after.health.value.status;
            after.changes
            == if status != n.health.value.status && status in {Alive, Dead, Reconnecting}
               then n.changes + [Change(At(e), status)] else n.changes
  {
  }
}

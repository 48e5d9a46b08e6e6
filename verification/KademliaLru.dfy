/** Which contacts a bucket holds after any run: the K most recently added of those that are still wanted. */
module KademliaLrus {
  import opened Wrappers
  import opened XorMetric
  import opened Kademlia
  import opened KademliaRuns

  function WithoutId(nodes: seq<Contact>, id: nat): seq<Contact> {
    if nodes == [] then []
    else (if nodes[0].id == id then [] else [nodes[0]]) + WithoutId(nodes[1..], id)
  }

  function Young(nodes: seq<Contact>, maxAge: int, now: int): seq<Contact> {
    if nodes == [] then []
    else Young(nodes[..|nodes| - 1], maxAge, now)
         + if now - nodes[|nodes| - 1].lastSeen > maxAge then [] else [nodes[|nodes| - 1]]
  }

  predicate Belongs(ownId: nat, index: nat, c: Contact) {
    c.id != ownId && BucketIndex(ownId, c.id) == index
  }

  /** A bucket without a limit on its size: every id at the place of its last addition. */
  function Unlimited(ownId: nat, index: nat, ops: seq<Op>): seq<Contact> {
    if ops == [] then []
    else
      var before := Unlimited(ownId, index, ops[..|ops| - 1]);
      match ops[|ops| - 1]
      case AddNode(c) => if Belongs(ownId, index, c) then WithoutId(before, c.id) + [c] else before
      case EvictStale(maxAge, now) => Young(before, maxAge, now)
  }

  function Last(nodes: seq<Contact>, n: nat): seq<Contact> {
    if |nodes| > n then nodes[|nodes| - n..] else nodes
  }

  // ---- What the unlimited bucket holds ----

  /** The contact was added at place `a` of the run, not replaced since, and never too old at an eviction. */
  ghost predicate WantedSince(ops: seq<Op>, c: Contact, a: nat) {
    && a < |ops| && ops[a] == AddNode(c)
    && forall b :: a < b < |ops| ==> Spares(ops[b], c)
  }

  predicate Spares(op: Op, c: Contact) {
    match op
    case AddNode(d) => d.id != c.id
    case EvictStale(maxAge, now) => now - c.lastSeen <= maxAge
  }

  ghost predicate Wanted(ops: seq<Op>, c: Contact) {
    exists a: nat :: WantedSince(ops, c, a)
  }

  lemma {:induction false} WithoutIdMembers(nodes: seq<Contact>, id: nat, c: Contact)
    ensures c in WithoutId(nodes, id) <==> c in nodes && c.id != id
  {
    if nodes != [] {
      WithoutIdMembers(nodes[1..], id, c);
    }
  }

  lemma {:induction false} YoungMembers(nodes: seq<Contact>, maxAge: int, now: int, c: Contact)
    ensures c in Young(nodes, maxAge, now) <==> c in nodes && now - c.lastSeen <= maxAge
  {
    if nodes != [] {
      YoungMembers(nodes[..|nodes| - 1], maxAge, now, c);
    }
  }

  lemma WantedStep(ops: seq<Op>, c: Contact)
    requires ops != []
    ensures var before, op := ops[..|ops| - 1], ops[|ops| - 1];
            Wanted(ops, c) <==> op == AddNode(c) || (Wanted(before, c) && Spares(op, c))
  {
    var before, n := ops[..|ops| - 1], |ops| - 1;
    if ops[n] == AddNode(c) {
      assert WantedSince(ops, c, n);
    }
    if Wanted(before, c) && Spares(ops[n], c) {
      var a: nat :| WantedSince(before, c, a);
      assert forall b :: a < b < n ==> before[b] == ops[b];
      assert WantedSince(ops, c, a);
    }
    if a: nat :| WantedSince(ops, c, a) && ops[n] != AddNode(c) {
      assert forall b :: a < b < n ==> before[b] == ops[b];
      assert WantedSince(before, c, a) && Spares(ops[n], c);
    }
  }

  /** The unlimited bucket holds exactly the wanted contacts that belong to it. */
  lemma {:induction false} UnlimitedIff(ownId: nat, index: nat, ops: seq<Op>, c: Contact)
    ensures c in Unlimited(ownId, index, ops) <==> Belongs(ownId, index, c) && Wanted(ops, c)
  {
    if ops != [] {
      var before := ops[..|ops| - 1];
      UnlimitedIff(ownId, index, before, c);
      WantedStep(ops, c);
      match ops[|ops| - 1]
      case AddNode(d) => WithoutIdMembers(Unlimited(ownId, index, before), d.id, c);
      case EvictStale(maxAge, now) => YoungMembers(Unlimited(ownId, index, before), maxAge, now, c);
    }
  }

  // ---- The order of the unlimited bucket ----

  /** Distinct ids, least recently added first. */
  ghost predicate Ordered(nodes: seq<Contact>, clock: int) {
    && DistinctIds(nodes)
    && (forall i, j :: 0 <= i < j < |nodes| ==> nodes[i].lastSeen <= nodes[j].lastSeen)
    && (forall i :: 0 <= i < |nodes| ==> nodes[i].lastSeen <= clock)
  }

  ghost predicate Absent(nodes: seq<Contact>, id: nat) {
    forall i :: 0 <= i < |nodes| ==> nodes[i].id != id
  }

  lemma {:induction false} WithoutAbsent(nodes: seq<Contact>, id: nat)
    requires Absent(nodes, id)
    ensures WithoutId(nodes, id) == nodes
  {
    if nodes != [] {
      WithoutAbsent(nodes[1..], id);
    }
  }

  lemma {:induction false} WithoutPresent(nodes: seq<Contact>, at: nat)
    requires DistinctIds(nodes) && at < |nodes|
    ensures WithoutId(nodes, nodes[at].id) == nodes[..at] + nodes[at + 1..]
  {
    var rest, id := nodes[1..], nodes[at].id;
    if at == 0 {
      WithoutAbsent(rest, id);
    } else {
      WithoutPresent(rest, at - 1);
      assert nodes[..at] == [nodes[0]] + rest[..at - 1] && nodes[at + 1..] == rest[at..];
    }
  }

  lemma PrefixOrdered(nodes: seq<Contact>, clock: int, n: nat)
    requires Ordered(nodes, clock) && n <= |nodes|
    ensures Ordered(nodes[..n], clock)
  {
  }

  /** If the last contact is too old, all are. */
  lemma OldToTheEnd(nodes: seq<Contact>, clock: int, maxAge: int, now: int, n: nat, k: nat)
    requires Ordered(nodes, clock) && n == |nodes| - 1 && IsCut(nodes[..n], maxAge, now, k)
    requires now - nodes[n].lastSeen > maxAge
    ensures k == n
  {
  }

  lemma CutOneMore(nodes: seq<Contact>, maxAge: int, now: int, n: nat, k: nat)
    requires n == |nodes| - 1 && IsCut(nodes[..n], maxAge, now, k) && now - nodes[n].lastSeen <= maxAge
    ensures IsCut(nodes, maxAge, now, k) && nodes[k..] == nodes[..n][k..] + [nodes[n]]
  {
  }

  lemma {:induction false} YoungIsSuffix(nodes: seq<Contact>, maxAge: int, now: int, clock: int) returns (k: nat)
    requires Ordered(nodes, clock)
    ensures IsCut(nodes, maxAge, now, k) && Young(nodes, maxAge, now) == nodes[k..]
  {
    if nodes == [] {
      k := 0;
    } else {
      var n := |nodes| - 1;
      PrefixOrdered(nodes, clock, n);
      k := YoungIsSuffix(nodes[..n], maxAge, now, clock);
      if now - nodes[n].lastSeen > maxAge {
        OldToTheEnd(nodes, clock, maxAge, now, n, k);
        k := |nodes|;
      } else {
        CutOneMore(nodes, maxAge, now, n, k);
      }
    }
  }

  lemma RemovedOrdered(nodes: seq<Contact>, clock: int, at: nat)
    requires Ordered(nodes, clock) && at < |nodes|
    ensures Ordered(nodes[..at] + nodes[at + 1..], clock) && Absent(nodes[..at] + nodes[at + 1..], nodes[at].id)
  {
    var rest := nodes[..at] + nodes[at + 1..];
    assert forall i :: 0 <= i < |rest| ==> rest[i] == nodes[if i < at then i else i + 1];
  }

  lemma AppendedOrdered(nodes: seq<Contact>, clock: int, c: Contact)
    requires Ordered(nodes, clock) && clock <= c.lastSeen && Absent(nodes, c.id)
    ensures Ordered(nodes + [c], c.lastSeen)
  {
  }

  lemma OrderedAfterAdd(nodes: seq<Contact>, clock: int, c: Contact)
    requires Ordered(nodes, clock) && clock <= c.lastSeen
    ensures Ordered(WithoutId(nodes, c.id) + [c], c.lastSeen)
  {
    if Absent(nodes, c.id) {
      WithoutAbsent(nodes, c.id);
    } else {
      var at: nat :| at < |nodes| && nodes[at].id == c.id;
      WithoutPresent(nodes, at);
      RemovedOrdered(nodes, clock, at);
    }
    AppendedOrdered(WithoutId(nodes, c.id), clock, c);
  }

  // ---- The limited bucket is the end of the unlimited one ----

  /** The last contacts, and what is ahead of them. */
  lemma LastIs(all: seq<Contact>, n: nat) returns (ahead: seq<Contact>)
    ensures all == ahead + Last(all, n)
    ensures |Last(all, n)| == if |all| > n then n else |all|
  {
    ahead := all[..|all| - |Last(all, n)|];
  }

  lemma LastOfSum(a: seq<Contact>, b: seq<Contact>, n: nat)
    requires |b| <= n
    ensures Last(a + b, n) == Last(a, n - |b|) + b
  {
    if |a + b| > n {
      assert (a + b)[|a + b| - n..] == a[|a| - (n - |b|)..] + b;
    }
  }

  lemma AbsentIsNowhere(nodes: seq<Contact>, id: nat)
    ensures Absent(nodes, id) <==> IndexOf(nodes, id).None?
  {
  }

  /** A new contact comes last; if the bucket is full, the first one leaves. */
  lemma AddedAbsent(nodes: seq<Contact>, c: Contact)
    requires Absent(nodes, c.id) && |nodes| <= K
    ensures Added(nodes, c) == Last(nodes + [c], K)
  {
    AbsentIsNowhere(nodes, c.id);
    if |nodes| == K {
      assert (nodes + [c])[1..] == nodes[1..] + [c];
    }
  }

  /** A known contact moves to the end. */
  lemma AddedPresent(nodes: seq<Contact>, at: nat, c: Contact)
    requires DistinctIds(nodes) && at < |nodes| && nodes[at].id == c.id
    ensures Added(nodes, c) == nodes[..at] + nodes[at + 1..] + [c]
  {
    assert IndexOf(nodes, c.id) == Some(at);
  }

  lemma SuffixDistinct(ahead: seq<Contact>, nodes: seq<Contact>)
    requires DistinctIds(ahead + nodes)
    ensures DistinctIds(ahead) && DistinctIds(nodes)
  {
    forall i, j | 0 <= i < j < |nodes|
      ensures nodes[i].id != nodes[j].id
    {
      assert (ahead + nodes)[|ahead| + i] == nodes[i] && (ahead + nodes)[|ahead| + j] == nodes[j];
    }
    forall i, j | 0 <= i < j < |ahead|
      ensures ahead[i].id != ahead[j].id
    {
      assert (ahead + nodes)[i] == ahead[i] && (ahead + nodes)[j] == ahead[j];
    }
  }

  /** With one of the last contacts moved to the end, what is ahead does not come in. */
  lemma LastBehind(ahead: seq<Contact>, rest: seq<Contact>, c: Contact)
    requires |rest| < K && (|rest| == K - 1 || ahead == [])
    ensures Last(ahead + rest + [c], K) == rest + [c]
  {
    assert ahead + rest + [c] == ahead + (rest + [c]);
    LastOfSum(ahead, rest + [c], K);
  }

  lemma MovedInLast(ahead: seq<Contact>, nodes: seq<Contact>, at: nat, c: Contact)
    requires DistinctIds(ahead + nodes) && at < |nodes| && nodes[at].id == c.id
    requires |nodes| <= K && (|nodes| == K || ahead == [])
    ensures Added(nodes, c) == Last(WithoutId(ahead + nodes, c.id) + [c], K)
  {
    var p, rest := |ahead| + at, nodes[..at] + nodes[at + 1..];
    assert (ahead + nodes)[p] == nodes[at];
    WithoutPresent(ahead + nodes, p);
    SuffixDistinct(ahead, nodes);
    AddedPresent(nodes, at, c);
    assert (ahead + nodes)[..p] + (ahead + nodes)[p + 1..] == ahead + rest;
    LastBehind(ahead, rest, c);
  }

  /** Taking a contact out of what is ahead of a full bucket. */
  lemma WithoutAhead(ahead: seq<Contact>, nodes: seq<Contact>, at: nat) returns (rest: seq<Contact>)
    requires DistinctIds(ahead + nodes) && at < |ahead|
    ensures WithoutId(ahead + nodes, ahead[at].id) == rest + nodes
  {
    assert (ahead + nodes)[at] == ahead[at];
    WithoutPresent(ahead + nodes, at);
    rest := ahead[..at] + ahead[at + 1..];
    assert (ahead + nodes)[..at] + (ahead + nodes)[at + 1..] == rest + nodes;
  }

  /** A new contact behind a full bucket pushes out its first contact, whatever is ahead of it. */
  lemma PushesOut(rest: seq<Contact>, nodes: seq<Contact>, c: Contact)
    requires |nodes| == K
    ensures Last(rest + nodes + [c], K) == nodes[1..] + [c]
  {
    assert rest + nodes + [c] == (rest + [nodes[0]]) + (nodes[1..] + [c]);
    LastOfSum(rest + [nodes[0]], nodes[1..] + [c], K);
  }

  lemma AbsentBoth(ahead: seq<Contact>, nodes: seq<Contact>, id: nat)
    requires Absent(ahead, id) && Absent(nodes, id)
    ensures WithoutId(ahead + nodes, id) == ahead + nodes
  {
    WithoutAbsent(ahead + nodes, id);
  }

  /** A contact that is new to the bucket, though it may have been ahead of it. */
  lemma NewToLast(ahead: seq<Contact>, nodes: seq<Contact>, c: Contact)
    requires DistinctIds(ahead + nodes) && Absent(nodes, c.id) && (|nodes| == K || (ahead == [] && |nodes| < K))
    ensures Added(nodes, c) == Last(WithoutId(ahead + nodes, c.id) + [c], K)
  {
    AddedAbsent(nodes, c);
    if ahead == [] {
      assert ahead + nodes == nodes;
      WithoutAbsent(nodes, c.id);
    } else {
      var rest := ahead;
      if at: nat :| at < |ahead| && ahead[at].id == c.id {
        rest := WithoutAhead(ahead, nodes, at);
      } else {
        AbsentBoth(ahead, nodes, c.id);
      }
      PushesOut(rest, nodes, c);
      PushesOut([], nodes, c);
      assert [] + nodes == nodes;
    }
  }

  lemma AddedToLast(all: seq<Contact>, c: Contact)
    requires DistinctIds(all)
    ensures Added(Last(all, K), c) == Last(WithoutId(all, c.id) + [c], K)
  {
    var nodes := Last(all, K);
    var ahead := LastIs(all, K);
    if at: nat :| at < |nodes| && nodes[at].id == c.id {
      MovedInLast(ahead, nodes, at, c);
    } else {
      NewToLast(ahead, nodes, c);
    }
  }

  lemma SuffixOrdered(ahead: seq<Contact>, nodes: seq<Contact>, clock: int)
    requires Ordered(ahead + nodes, clock)
    ensures Ordered(nodes, clock)
  {
    SuffixDistinct(ahead, nodes);
    forall i, j | 0 <= i < j < |nodes|
      ensures nodes[i].lastSeen <= nodes[j].lastSeen
    {
      assert (ahead + nodes)[|ahead| + i] == nodes[i] && (ahead + nodes)[|ahead| + j] == nodes[j];
    }
    forall i | 0 <= i < |nodes|
      ensures nodes[i].lastSeen <= clock
    {
      assert (ahead + nodes)[|ahead| + i] == nodes[i];
    }
  }

  /** The eviction of a bucket cuts it where its contacts get young enough. */
  lemma EvictedCut(nodes: seq<Contact>, clock: int, maxAge: int, now: int) returns (l: nat)
    requires Ordered(nodes, clock)
    ensures IsCut(nodes, maxAge, now, l) && Evicted(nodes, maxAge, now) == nodes[l..]
  {
    l := EvictedIsSuffix(nodes, maxAge, now);
  }

  predicate IsCut(nodes: seq<Contact>, maxAge: int, now: int, l: nat) {
    && l <= |nodes|
    && (l > 0 ==> now - nodes[l - 1].lastSeen > maxAge)
    && (l < |nodes| ==> now - nodes[l].lastSeen <= maxAge)
  }

  /** The cut of a list is the cut of its end, unless it is ahead of it. */
  lemma SameCut(ahead: seq<Contact>, nodes: seq<Contact>, clock: int, maxAge: int, now: int, k: nat, l: nat)
    requires Ordered(ahead + nodes, clock) && IsCut(ahead + nodes, maxAge, now, k) && IsCut(nodes, maxAge, now, l)
    ensures l == if k < |ahead| then 0 else k - |ahead|
  {
    var all := ahead + nodes;
    assert l > 0 ==> all[|ahead| + l - 1] == nodes[l - 1];
    assert l < |nodes| ==> all[|ahead| + l] == nodes[l];
  }

  lemma TwoCuts(ahead: seq<Contact>, nodes: seq<Contact>, clock: int, maxAge: int, now: int) returns (k: nat)
    requires Ordered(ahead + nodes, clock)
    ensures k <= |ahead| + |nodes| && Young(ahead + nodes, maxAge, now) == (ahead + nodes)[k..]
    ensures Evicted(nodes, maxAge, now) == nodes[if k < |ahead| then 0 else k - |ahead|..]
  {
    SuffixOrdered(ahead, nodes, clock);
    k := YoungIsSuffix(ahead + nodes, maxAge, now, clock);
    var l := EvictedCut(nodes, clock, maxAge, now);
    SameCut(ahead, nodes, clock, maxAge, now, k, l);
  }

  lemma EvictedFromLast(all: seq<Contact>, clock: int, maxAge: int, now: int)
    requires Ordered(all, clock)
    ensures Evicted(Last(all, K), maxAge, now) == Last(Young(all, maxAge, now), K)
  {
    var ahead := LastIs(all, K);
    var k := TwoCuts(ahead, Last(all, K), clock, maxAge, now);
    LastOfSuffix(all, k, K);
  }

  lemma LastOfSuffix(all: seq<Contact>, k: nat, n: nat)
    requires k <= |all|
    ensures var cut := |all| - |Last(all, n)|;
            Last(all[k..], n) == Last(all, n)[if k < cut then 0 else k - cut..]
  {
  }

  lemma TimelyPrefix(ops: seq<Op>, n: nat)
    requires Timely(ops) && n <= |ops|
    ensures Timely(ops[..n])
  {
  }

  lemma {:induction false} UnlimitedOrdered(ownId: nat, index: nat, ops: seq<Op>, clock: int)
    requires Timely(ops) && (ops != [] ==> Clock(ops[|ops| - 1]) <= clock)
    ensures Ordered(Unlimited(ownId, index, ops), clock)
  {
    if ops != [] {
      var n := |ops| - 1;
      TimelyPrefix(ops, n);
      UnlimitedOrdered(ownId, index, ops[..n], Clock(ops[n]));
      var before := Unlimited(ownId, index, ops[..n]);
      match ops[n]
      case AddNode(c) => OrderedAfterAdd(before, Clock(ops[n]), c);
      case EvictStale(maxAge, now) =>
        var k := YoungIsSuffix(before, maxAge, now, Clock(ops[n]));
    }
  }

  /** Least-recently-seen replacement, for every run of add_node and evict_stale: each bucket holds the K most recently
      added of the contacts that an unlimited bucket would hold, in the order of their last addition. */
  lemma {:induction false} BucketsAreMostRecent(ownId: nat, ops: seq<Op>, index: nat)
    requires Timely(ops) && index < BUCKETS
    ensures |RunOps(ownId, ops)| == BUCKETS
    ensures RunOps(ownId, ops)[index] == Last(Unlimited(ownId, index, ops), K)
  {
    if ops != [] {
      var n := |ops| - 1;
      TimelyPrefix(ops, n);
      BucketsAreMostRecent(ownId, ops[..n], index);
      UnlimitedOrdered(ownId, index, ops[..n], Clock(ops[n]));
      var all := Unlimited(ownId, index, ops[..n]);
      match ops[n]
      case AddNode(c) =>
        if Belongs(ownId, index, c) {
          AddedToLast(all, c);
        }
      case EvictStale(maxAge, now) => EvictedFromLast(all, Clock(ops[n]), maxAge, now);
    }
  }
}

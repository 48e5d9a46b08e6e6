/** What the routing table keeps over every run, and what find_closest returns. */
module KademliaRuns {
  import opened XorMetric
  import opened Kademlia

  // ---- Every run of add_node and evict_stale ----

  datatype Op = AddNode(contact: Contact) | EvictStale(maxAge: int, now: int)

  function Clock(op: Op): int {
    match op
    case AddNode(c) => c.lastSeen
    case EvictStale(_, now) => now
  }

  function Apply(ownId: nat, table: Table, op: Op): Table {
    match op
    case AddNode(c) => TableAdd(ownId, table, c)
    case EvictStale(maxAge, now) => TableEvict(table, maxAge, now)
  }

  function EmptyTable(): Table { seq(BUCKETS, _ => []) }

  function RunOps(ownId: nat, ops: seq<Op>): Table {
    if ops == [] then EmptyTable() else Apply(ownId, RunOps(ownId, ops[..|ops| - 1]), ops[|ops| - 1])
  }

  /** The clock readings never go back. */
  ghost predicate Timely(ops: seq<Op>) {
    forall i, j :: 0 <= i < j < |ops| ==> Clock(ops[i]) <= Clock(ops[j])
  }

  /** A bucket holds at most K contacts with distinct ids, none of them the own one, all of this
      bucket's index, least recently seen first and none seen after `clock`. */
  ghost predicate BucketOk(ownId: nat, nodes: seq<Contact>, index: nat, clock: int) {
    && |nodes| <= K
    && (forall i :: 0 <= i < |nodes| ==> nodes[i].id != ownId && BucketIndex(ownId, nodes[i].id) == index)
    && (forall i, j :: 0 <= i < j < |nodes| ==> nodes[i].id != nodes[j].id)
    && (forall i, j :: 0 <= i < j < |nodes| ==> nodes[i].lastSeen <= nodes[j].lastSeen)
    && (forall i :: 0 <= i < |nodes| ==> nodes[i].lastSeen <= clock)
  }

  ghost predicate TableOk(ownId: nat, table: Table, clock: int) {
    |table| == BUCKETS && forall i :: 0 <= i < |table| ==> BucketOk(ownId, table[i], i, clock)
  }

  lemma AppendedOk(ownId: nat, nodes: seq<Contact>, index: nat, clock: int, c: Contact)
    requires BucketOk(ownId, nodes, index, clock) && clock <= c.lastSeen && |nodes| < K
    requires c.id != ownId && BucketIndex(ownId, c.id) == index
    requires forall i :: 0 <= i < |nodes| ==> nodes[i].id != c.id
    ensures BucketOk(ownId, nodes + [c], index, c.lastSeen)
  {
  }

  lemma RemovedOk(ownId: nat, nodes: seq<Contact>, index: nat, clock: int, at: nat)
    requires BucketOk(ownId, nodes, index, clock) && at < |nodes|
    ensures var rest := nodes[..at] + nodes[at + 1..];
            && |rest| == |nodes| - 1 && BucketOk(ownId, rest, index, clock)
            && forall i :: 0 <= i < |rest| ==> rest[i].id != nodes[at].id
  {
    var rest := nodes[..at] + nodes[at + 1..];
    assert forall i :: 0 <= i < |rest| ==> rest[i] == if i < at then nodes[i] else nodes[i + 1];
  }

  lemma AddedOk(ownId: nat, nodes: seq<Contact>, index: nat, clock: int, c: Contact)
    requires BucketOk(ownId, nodes, index, clock) && clock <= c.lastSeen
    requires c.id != ownId && BucketIndex(ownId, c.id) == index
    ensures BucketOk(ownId, Added(nodes, c), index, c.lastSeen)
  {
    var at := IndexOf(nodes, c.id);
    if at.Some? {
      MovedOk(ownId, nodes, index, clock, c, at.value);
    } else if |nodes| < K {
      AppendedOk(ownId, nodes, index, clock, c);
    } else {
      ShiftedOk(ownId, nodes, index, clock, c);
    }
  }

  lemma ShiftedOk(ownId: nat, nodes: seq<Contact>, index: nat, clock: int, c: Contact)
    requires BucketOk(ownId, nodes, index, clock) && clock <= c.lastSeen && nodes != []
    requires c.id != ownId && BucketIndex(ownId, c.id) == index
    requires forall j :: 0 <= j < |nodes| ==> nodes[j].id != c.id
    ensures BucketOk(ownId, nodes[1..] + [c], index, c.lastSeen)
  {
    MovedOk(ownId, nodes, index, clock, c, 0);
    assert nodes[..0] + nodes[1..] == nodes[1..];
  }

  /** One contact out, another one in at the tail. */
  lemma MovedOk(ownId: nat, nodes: seq<Contact>, index: nat, clock: int, c: Contact, at: nat)
    requires BucketOk(ownId, nodes, index, clock) && clock <= c.lastSeen && at < |nodes|
    requires c.id != ownId && BucketIndex(ownId, c.id) == index
    requires nodes[at].id == c.id || forall j :: 0 <= j < |nodes| ==> nodes[j].id != c.id
    ensures BucketOk(ownId, nodes[..at] + nodes[at + 1..] + [c], index, c.lastSeen)
  {
    var rest := nodes[..at] + nodes[at + 1..];
    RemovedOk(ownId, nodes, index, clock, at);
    assert forall j :: 0 <= j < |rest| ==> rest[j] == nodes[if j < at then j else j + 1];
    AppendedOk(ownId, rest, index, clock, c);
  }

  /** evict_stale removes exactly a prefix of a bucket. */
  lemma {:induction false} EvictedIsSuffix(nodes: seq<Contact>, maxAge: int, now: int) returns (k: nat)
    requires forall i, j :: 0 <= i < j < |nodes| ==> nodes[i].lastSeen <= nodes[j].lastSeen
    ensures k <= |nodes| && Evicted(nodes, maxAge, now) == nodes[k..]
    ensures forall i :: 0 <= i < k ==> now - nodes[i].lastSeen > maxAge
    ensures forall i :: k <= i < |nodes| ==> now - nodes[i].lastSeen <= maxAge
  {
    if nodes == [] {
      k := 0;
    } else {
      var l := EvictedIsSuffix(nodes[1..], maxAge, now);
      if now - nodes[0].lastSeen <= maxAge {
        assert forall i :: 1 <= i < |nodes| ==> nodes[i] == nodes[1..][i - 1];
        k := 0;
      } else {
        k := l + 1;
        assert forall i :: 1 <= i < |nodes| ==> nodes[i] == nodes[1..][i - 1];
      }
    }
  }

  lemma EvictedOk(ownId: nat, nodes: seq<Contact>, index: nat, clock: int, maxAge: int, now: int)
    requires BucketOk(ownId, nodes, index, clock) && clock <= now
    ensures BucketOk(ownId, Evicted(nodes, maxAge, now), index, now)
  {
    var k := EvictedIsSuffix(nodes, maxAge, now);
  }

  lemma ApplyKeepsTableOk(ownId: nat, table: Table, op: Op, clock: int)
    requires TableOk(ownId, table, clock) && clock <= Clock(op)
    ensures TableOk(ownId, Apply(ownId, table, op), Clock(op))
  {
    var t := Apply(ownId, table, op);
    forall i | 0 <= i < |t|
      ensures BucketOk(ownId, t[i], i, Clock(op))
    {
      assert BucketOk(ownId, table[i], i, clock);
      match op
      case AddNode(c) =>
        if c.id != ownId && BucketIndex(ownId, c.id) == i {
          AddedOk(ownId, table[i], i, clock, c);
        }
      case EvictStale(maxAge, now) => EvictedOk(ownId, table[i], i, clock, maxAge, now);
    }
  }

  /** The invariant holds after every sequence of operations. */
  lemma {:induction false} RunKeepsTableOk(ownId: nat, ops: seq<Op>)
    requires Timely(ops)
    ensures |ops| > 0 ==> TableOk(ownId, RunOps(ownId, ops), Clock(ops[|ops| - 1]))
    ensures forall clock :: ops == [] ==> TableOk(ownId, RunOps(ownId, ops), clock)
  {
    if ops != [] {
      var before, op := ops[..|ops| - 1], ops[|ops| - 1];
      RunKeepsTableOk(ownId, before);
      var clock := if before == [] then Clock(op) else Clock(before[|before| - 1]);
      assert TableOk(ownId, RunOps(ownId, before), clock);
      ApplyKeepsTableOk(ownId, RunOps(ownId, before), op, clock);
    }
  }

  /** No 160-bit id is ever out of range: the index is the position of the top bit of its distance. */
  lemma IndexInRange(ownId: nat, id: nat)
    requires ownId < Pow2(BUCKETS) && id < Pow2(BUCKETS) && ownId != id
    ensures BucketIndex(ownId, id) < BUCKETS
    ensures Pow2(BucketIndex(ownId, id)) <= Xor(ownId, id) < Pow2(BucketIndex(ownId, id) + 1)
  {
    XorZeroIffEqual(ownId, id);
    XorBounded(ownId, id, BUCKETS);
    TopBit(Xor(ownId, id));
    BitLengthBounded(Xor(ownId, id), BUCKETS);
  }

  // ---- Sorting ----

  ghost predicate Ascending(s: seq<Contact>, target: nat) {
    forall i, j :: 0 <= i < j < |s| ==> Distance(s[i], target) < Distance(s[j], target)
  }

  ghost predicate Sorted(s: seq<Contact>, target: nat) {
    forall i, j :: 0 <= i < j < |s| ==> Distance(s[i], target) <= Distance(s[j], target)
  }

  ghost predicate DistinctIds(s: seq<Contact>) {
    forall i, j :: 0 <= i < j < |s| ==> s[i].id != s[j].id
  }

  lemma {:induction false} InsertPermutes(c: Contact, s: seq<Contact>, target: nat)
    ensures multiset(Insert(c, s, target)) == multiset(s) + multiset{c}
    ensures |Insert(c, s, target)| == |s| + 1
  {
    if s != [] {
      InsertPermutes(c, s[1..], target);
      assert s == [s[0]] + s[1..];
    }
  }

  lemma {:induction false} InsertSorts(c: Contact, s: seq<Contact>, target: nat)
    requires Sorted(s, target)
    ensures Sorted(Insert(c, s, target), target)
  {
    if s != [] && Distance(c, target) >= Distance(s[0], target) {
      InsertSorts(c, s[1..], target);
      var r := Insert(c, s[1..], target);
      InsertPermutes(c, s[1..], target);
      SameElements(r, s[1..] + [c]);
      forall i | 0 <= i < |r|
        ensures Distance(s[0], target) <= Distance(r[i], target)
      {
        assert r[i] in r;
      }
    }
  }

  /** sorted() permutes its argument into order. */
  lemma {:induction false} SortBySorts(s: seq<Contact>, target: nat)
    ensures Sorted(SortBy(s, target), target)
    ensures multiset(SortBy(s, target)) == multiset(s) && |SortBy(s, target)| == |s|
  {
    if s != [] {
      SortBySorts(s[..|s| - 1], target);
      InsertSorts(s[|s| - 1], SortBy(s[..|s| - 1], target), target);
      InsertPermutes(s[|s| - 1], SortBy(s[..|s| - 1], target), target);
      assert s == s[..|s| - 1] + [s[|s| - 1]];
    }
  }

  lemma SameElements(s: seq<Contact>, t: seq<Contact>)
    requires multiset(s) == multiset(t)
    ensures forall c :: c in s <==> c in t
  {
    forall c
      ensures c in s <==> c in t
    {
      assert c in s <==> c in multiset(s);
      assert c in t <==> c in multiset(t);
    }
  }

  /** With distinct ids no two distances are equal. */
  lemma {:induction false} DistinctIdsAscend(s: seq<Contact>, target: nat)
    requires DistinctIds(s)
    ensures Ascending(SortBy(s, target), target)
  {
    var r := SortBy(s, target);
    SortBySorts(s, target);
    forall i, j | 0 <= i < j < |r|
      ensures Distance(r[i], target) < Distance(r[j], target)
    {
      if Distance(r[i], target) == Distance(r[j], target) {
        XorInjective(r[i].id, r[j].id, target);
        TwiceInSorted(s, r, i, j);
        assert false;
      }
    }
  }

  /** Two places of a permutation of contacts with distinct ids never carry the same id. */
  lemma TwiceInSorted(s: seq<Contact>, r: seq<Contact>, i: nat, j: nat)
    requires DistinctIds(s) && multiset(r) == multiset(s) && i < j < |r|
    ensures r[i].id != r[j].id
  {
    SameElements(r, s);
    if r[i].id == r[j].id {
      assert r[i] in s && r[j] in s;
      assert r[i] == r[j];
      CountsTwice(r, i, j);
      CountsOnce(s, r[i]);
    }
  }

  lemma CountsTwice(r: seq<Contact>, i: nat, j: nat)
    requires i < j < |r| && r[i] == r[j]
    ensures multiset(r)[r[i]] >= 2
  {
    assert r == r[..j] + [r[j]] + r[j + 1..];
    assert r[i] == r[..j][i];
    assert r[i] in multiset(r[..j]);
  }

  lemma {:induction false} CountsOnce(s: seq<Contact>, c: Contact)
    requires DistinctIds(s)
    ensures multiset(s)[c] <= 1
  {
    if s != [] {
      CountsOnce(s[1..], c);
      assert s == [s[0]] + s[1..];
      assert forall k :: 0 <= k < |s[1..]| ==> s[1..][k].id != s[0].id;
    }
  }

  // ---- Exact k-nearest search ----

  ghost predicate Nearest(r: seq<Contact>, all: seq<Contact>, target: nat, count: nat) {
    && |r| == (if count <= |all| then count else |all|)
    && Ascending(r, target)
    && (forall c :: c in r ==> c in all)
    && (forall c, d :: c in all && c !in r && d in r ==> Distance(d, target) < Distance(c, target))
  }

  /** There is only one such answer. */
  lemma {:induction false} NearestUnique(r: seq<Contact>, s: seq<Contact>, all: seq<Contact>, target: nat,
                                         count: nat, i: nat)
    requires Nearest(r, all, target, count) && Nearest(s, all, target, count) && DistinctIds(all)
    requires i <= |r|
    ensures r[..i] == s[..i]
  {
    if i > 0 {
      NearestUnique(r, s, all, target, count, i - 1);
      NoNearer(r, s, all, target, count, i - 1);
      NoNearer(s, r, all, target, count, i - 1);
      XorInjective(r[i - 1].id, s[i - 1].id, target);
      assert r[i - 1] in all && s[i - 1] in all;
      assert r[..i] == r[..i - 1] + [r[i - 1]] && s[..i] == s[..i - 1] + [s[i - 1]];
    }
  }

  /** Where two ascending lists first differ, the nearer node is missing from the other list. */
  lemma NotAmong(r: seq<Contact>, s: seq<Contact>, target: nat, i: nat)
    requires Ascending(r, target) && Ascending(s, target)
    requires i < |r| && i < |s| && r[..i] == s[..i]
    requires Distance(r[i], target) < Distance(s[i], target)
    ensures r[i] !in s
  {
    forall j | 0 <= j < |s|
      ensures s[j] != r[i]
    {
      if j < i {
        assert s[..i][j] == r[..i][j];
      }
    }
  }

  lemma NoNearer(r: seq<Contact>, s: seq<Contact>, all: seq<Contact>, target: nat, count: nat, i: nat)
    requires Nearest(r, all, target, count) && Nearest(s, all, target, count)
    requires i < |r| && r[..i] == s[..i]
    ensures Distance(s[i], target) <= Distance(r[i], target)
  {
    if Distance(r[i], target) < Distance(s[i], target) {
      NotAmong(r, s, target, i);
      assert false;
    }
  }

  lemma SortedPrefixNearest(all: seq<Contact>, target: nat, count: nat)
    requires DistinctIds(all)
    ensures Nearest(Take(SortBy(all, target), count), all, target, count)
  {
    var s := SortBy(all, target);
    var r := Take(s, count);
    SortBySorts(all, target);
    SameElements(s, all);
    DistinctIdsAscend(all, target);
    assert r == s[..|r|];
    forall c, d | c in all && c !in r && d in r
      ensures Distance(d, target) < Distance(c, target)
    {
      PrefixNearer(s, |r|, target, c, d);
    }
  }

  lemma PrefixNearer(s: seq<Contact>, n: nat, target: nat, c: Contact, d: Contact)
    requires Ascending(s, target) && n <= |s| && c in s && c !in s[..n] && d in s[..n]
    ensures Distance(d, target) < Distance(c, target)
  {
    var k :| 0 <= k < |s| && s[k] == c;
    var l :| 0 <= l < n && s[..n][l] == d;
    forall i | 0 <= i < n
      ensures s[i] != c
    {
      assert s[..n][i] in s[..n];
    }
  }

  // ---- All nodes of a table ----

  lemma {:induction false} AllNodesIn(table: Table, c: Contact)
    ensures c in AllNodes(table) <==> exists i :: 0 <= i < |table| && c in table[i]
  {
    if table != [] {
      var n := |table| - 1;
      AllNodesIn(table[..n], c);
      assert forall i :: 0 <= i < n ==> table[..n][i] == table[i];
    }
  }

  /** The first `n` buckets of a table in order hold distinct ids. */
  lemma {:induction false} AllNodesDistinct(ownId: nat, table: Table, clock: int, n: nat)
    requires TableOk(ownId, table, clock) && n <= |table|
    ensures DistinctIds(AllNodes(table[..n]))
  {
    if n > 0 {
      AllNodesDistinct(ownId, table, clock, n - 1);
      assert table[..n][..n - 1] == table[..n - 1];
      var a, b := AllNodes(table[..n - 1]), table[n - 1];
      assert BucketOk(ownId, b, n - 1, clock);
      forall i, j | 0 <= i < |a| && 0 <= j < |b|
        ensures a[i].id != b[j].id
      {
        assert a[i] in a;
        AllNodesIn(table[..n - 1], a[i]);
        var k :| 0 <= k < n - 1 && a[i] in table[..n - 1][k];
        assert BucketOk(ownId, table[k], k, clock);
      }
      assert AllNodes(table[..n]) == a + b;
    }
  }

  /** find_closest returns exactly the min(count, size) nodes nearest to the target, nearest first,
      and no other list of nodes has that property. */
  lemma FindClosestIsNearest(ownId: nat, table: Table, clock: int, target: nat, count: nat)
    requires TableOk(ownId, table, clock)
    ensures Nearest(FindClosest(table, target, count), AllNodes(table), target, count)
    ensures forall r :: Nearest(r, AllNodes(table), target, count) ==> r == FindClosest(table, target, count)
  {
    AllNodesDistinct(ownId, table, clock, |table|);
    assert table[..|table|] == table;
    SortedPrefixNearest(AllNodes(table), target, count);
    var f := FindClosest(table, target, count);
    forall r | Nearest(r, AllNodes(table), target, count)
      ensures r == f
    {
      NearestUnique(r, f, AllNodes(table), target, count, |r|);
      assert r == r[..|r|] && f == f[..|r|];
    }
  }

  // ---- Scanning buckets from index 0 upward ----

  /** Every node of a lower bucket is strictly nearer than every node of a higher one. */
  lemma LowerBucketNearer(ownId: nat, x: Contact, y: Contact)
    requires x.id != ownId && y.id != ownId && BucketIndex(ownId, x.id) < BucketIndex(ownId, y.id)
    ensures Distance(x, ownId) < Distance(y, ownId)
  {
    XorZeroIffEqual(ownId, x.id);
    XorZeroIffEqual(ownId, y.id);
    XorCommutes(ownId, x.id);
    XorCommutes(ownId, y.id);
    TopBit(Xor(ownId, x.id));
    TopBit(Xor(ownId, y.id));
    Pow2Monotone(BitLength(Xor(ownId, x.id)), BitLength(Xor(ownId, y.id)) - 1);
  }

  /** The first `n` buckets one after the other, each sorted by distance. */
  function Scan(table: Table, target: nat, n: nat): seq<Contact>
    requires n <= |table|
  {
    if n == 0 then [] else Scan(table, target, n - 1) + SortBy(table[n - 1], target)
  }

  lemma SortedBag(nodes: seq<Contact>, target: nat)
    ensures multiset(SortBy(nodes, target)) == multiset(nodes) && |SortBy(nodes, target)| == |nodes|
  {
    SortBySorts(nodes, target);
  }

  lemma ConcatBags(a: seq<Contact>, b: seq<Contact>, c: seq<Contact>, d: seq<Contact>)
    requires multiset(a) == multiset(c) && multiset(b) == multiset(d) && |a| == |c| && |b| == |d|
    ensures multiset(a + b) == multiset(c + d) && |a + b| == |c + d|
  {
  }

  lemma AppendAscends(a: seq<Contact>, b: seq<Contact>, target: nat)
    requires Ascending(a, target) && Ascending(b, target)
    requires forall i, j :: 0 <= i < |a| && 0 <= j < |b| ==> Distance(a[i], target) < Distance(b[j], target)
    ensures Ascending(a + b, target)
  {
  }

  lemma {:induction false} ScanPermutes(table: Table, target: nat, n: nat)
    requires n <= |table|
    ensures multiset(Scan(table, target, n)) == multiset(AllNodes(table[..n]))
    ensures |Scan(table, target, n)| == |AllNodes(table[..n])|
  {
    if n > 0 {
      ScanPermutes(table, target, n - 1);
      SortedBag(table[n - 1], target);
      assert table[..n][..n - 1] == table[..n - 1];
      ConcatBags(Scan(table, target, n - 1), SortBy(table[n - 1], target), AllNodes(table[..n - 1]), table[n - 1]);
    }
  }

  /** Everything scanned before bucket n is nearer than everything in it. */
  lemma ScannedNearer(ownId: nat, table: Table, clock: int, n: nat, c: Contact, d: Contact)
    requires TableOk(ownId, table, clock) && n < |table|
    requires c in Scan(table, ownId, n) && d in SortBy(table[n], ownId)
    ensures Distance(c, ownId) < Distance(d, ownId)
  {
    SortedBag(table[n], ownId);
    SameElements(SortBy(table[n], ownId), table[n]);
    ScanPermutes(table, ownId, n);
    SameElements(Scan(table, ownId, n), AllNodes(table[..n]));
    LowerBucketsNearer(ownId, table, clock, n, c, d);
  }

  lemma BucketAscends(ownId: nat, table: Table, clock: int, n: nat)
    requires TableOk(ownId, table, clock) && n < |table|
    ensures Ascending(SortBy(table[n], ownId), ownId)
  {
    assert BucketOk(ownId, table[n], n, clock);
    DistinctIdsAscend(table[n], ownId);
    SortBySorts(table[n], ownId);
  }

  lemma {:induction false} ScanAscends(ownId: nat, table: Table, clock: int, n: nat)
    requires TableOk(ownId, table, clock) && n <= |table|
    ensures Ascending(Scan(table, ownId, n), ownId)
  {
    if n > 0 {
      var a, b := Scan(table, ownId, n - 1), SortBy(table[n - 1], ownId);
      ScanAscends(ownId, table, clock, n - 1);
      BucketAscends(ownId, table, clock, n - 1);
      forall i, j | 0 <= i < |a| && 0 <= j < |b|
        ensures Distance(a[i], ownId) < Distance(b[j], ownId)
      {
        ScannedNearer(ownId, table, clock, n - 1, a[i], b[j]);
      }
      AppendAscends(a, b, ownId);
    }
  }

  lemma LowerBucketsNearer(ownId: nat, table: Table, clock: int, n: nat, c: Contact, d: Contact)
    requires TableOk(ownId, table, clock) && n < |table| && c in AllNodes(table[..n]) && d in table[n]
    ensures Distance(c, ownId) < Distance(d, ownId)
  {
    AllNodesIn(table[..n], c);
    var k :| 0 <= k < n && c in table[..n][k];
    assert BucketOk(ownId, table[k], k, clock) && BucketOk(ownId, table[n], n, clock);
    LowerBucketNearer(ownId, c, d);
  }

  /** For the own id, sorting all nodes is the same as scanning the buckets from 0 upward. */
  lemma FindClosestToOwnScans(ownId: nat, table: Table, clock: int, count: nat)
    requires TableOk(ownId, table, clock)
    ensures FindClosest(table, ownId, count) == Take(Scan(table, ownId, |table|), count)
  {
    var all, scan := AllNodes(table), Scan(table, ownId, |table|);
    assert table[..|table|] == table;
    ScanPermutes(table, ownId, |table|);
    SameElements(scan, all);
    ScanAscends(ownId, table, clock, |table|);
    AllNodesDistinct(ownId, table, clock, |table|);
    assert Nearest(scan, all, ownId, |all|);
    SortedPrefixNearest(all, ownId, |all|);
    assert Take(SortBy(all, ownId), |all|) == SortBy(all, ownId) by { SortBySorts(all, ownId); }
    NearestUnique(scan, SortBy(all, ownId), all, ownId, |all|, |scan|);
    SortBySorts(all, ownId);
    assert scan == scan[..|scan|] && SortBy(all, ownId)[..|scan|] == SortBy(all, ownId);
  }
}

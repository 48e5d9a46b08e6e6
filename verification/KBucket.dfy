/** swarm/kbucket.py: the Kademlia routing table. Node ids are taken by their value, int(id, 16). */
module Kademlia {
  import opened Wrappers
  import opened XorMetric

  const K := 20
  const BUCKETS := 160

  datatype Contact = Contact(id: nat, ip: string, port: int, lastSeen: int)

  // ---- One bucket, oldest contact first ----

  function IndexOf(nodes: seq<Contact>, id: nat): (at: Option<nat>)
    ensures at.Some? ==> at.value < |nodes| && nodes[at.value].id == id
    ensures at.Some? ==> forall j :: 0 <= j < at.value ==> nodes[j].id != id
    ensures at.None? ==> forall j :: 0 <= j < |nodes| ==> nodes[j].id != id
  {
    if nodes == [] then None
    else if nodes[0].id == id then Some(0)
    else
      var rest := IndexOf(nodes[1..], id);
      if rest.None? then None else Some(rest.value + 1)
  }

  /** A known node moves to the tail; a new one is appended, pushing out the head when full. */
  function Added(nodes: seq<Contact>, c: Contact): seq<Contact> {
    var at := IndexOf(nodes, c.id);
    if at.Some? then nodes[..at.value] + nodes[at.value + 1..] + [c]
    else if |nodes| < K then nodes + [c]
    else nodes[1..] + [c]
  }

  function Evicted(nodes: seq<Contact>, maxAge: int, now: int): seq<Contact> {
    if nodes == [] then []
    else if now - nodes[0].lastSeen <= maxAge then [nodes[0]] + Evicted(nodes[1..], maxAge, now)
    else Evicted(nodes[1..], maxAge, now)
  }

  function Distance(c: Contact, target: nat): nat {
    Xor(c.id, target)
  }

  // ---- Python's sorted, by distance ----

  function Insert(c: Contact, s: seq<Contact>, target: nat): seq<Contact> {
    if s == [] then [c]
    else if Distance(c, target) < Distance(s[0], target) then [c] + s
    else [s[0]] + Insert(c, s[1..], target)
  }

  /** The stable sort: a later element goes behind the earlier ones of equal distance. */
  function SortBy(s: seq<Contact>, target: nat): seq<Contact> {
    if s == [] then [] else Insert(s[|s| - 1], SortBy(s[..|s| - 1], target), target)
  }

  /** s[:count] */
  function Take(s: seq<Contact>, count: int): seq<Contact> {
    if count > |s| then s
    else if count >= 0 then s[..count]
    else if |s| + count >= 0 then s[..|s| + count]
    else []
  }

  class KBucket {
    const rangeMin: nat
    const rangeMax: nat
    var nodes: seq<Contact>

    constructor (rangeMin: nat, rangeMax: nat)
      ensures nodes == [] && this.rangeMin == rangeMin && this.rangeMax == rangeMax
    {
      this.rangeMin, this.rangeMax, nodes := rangeMin, rangeMax, [];
    }

    method Add(id: nat, ip: string, port: int, now: int)
      modifies this
      ensures nodes == Added(old(nodes), Contact(id, ip, port, now))
    {
      var i := 0;
      while i < |nodes|
        invariant i <= |nodes| && nodes == old(nodes)
        invariant IndexOf(nodes, id)
               == if IndexOf(nodes[i..], id).None? then None else Some(IndexOf(nodes[i..], id).value + i)
      {
        assert nodes[i..][0] == nodes[i] && nodes[i..][1..] == nodes[i + 1..];
        if nodes[i].id == id {
          assert IndexOf(nodes, id) == Some(i);
          nodes := nodes[..i] + nodes[i + 1..];
          nodes := nodes + [Contact(id, ip, port, now)];
          return;
        }
        i := i + 1;
      }
      assert IndexOf(nodes, id) == None;
      if |nodes| < K {
        nodes := nodes + [Contact(id, ip, port, now)];
      } else {
        nodes := nodes[1..];
        nodes := nodes + [Contact(id, ip, port, now)];
      }
    }

    method GetClosest(target: nat, count: int) returns (r: seq<Contact>)
      ensures r == Take(SortBy(nodes, target), count)
    {
      r := Take(SortBy(nodes, target), count);
    }

    method EvictStale(maxAge: int, now: int)
      modifies this
      ensures nodes == Evicted(old(nodes), maxAge, now)
    {
      var kept := [];
      var i := 0;
      while i < |nodes|
        invariant i <= |nodes|
        invariant kept + Evicted(nodes[i..], maxAge, now) == Evicted(nodes, maxAge, now)
      {
        if now - nodes[i].lastSeen <= maxAge {
          kept := kept + [nodes[i]];
        }
        i := i + 1;
      }
      nodes := kept;
    }
  }

  // ---- The table ----

  type Table = seq<seq<Contact>>

  function BucketIndex(ownId: nat, id: nat): nat {
    var dist := Xor(ownId, id);
    if dist == 0 then 0 else BitLength(dist) - 1
  }

  /** An id too long for the table raises IndexError and changes nothing. */
  function TableAdd(ownId: nat, table: Table, c: Contact): Table {
    var i := BucketIndex(ownId, c.id);
    if c.id == ownId || i >= |table| then table else table[i := Added(table[i], c)]
  }

  function TableEvict(table: Table, maxAge: int, now: int): Table {
    seq(|table|, i requires 0 <= i < |table| => Evicted(table[i], maxAge, now))
  }

  function AllNodes(table: Table): seq<Contact> {
    if table == [] then [] else AllNodes(table[..|table| - 1]) + table[|table| - 1]
  }

  function FindClosest(table: Table, target: nat, count: int): seq<Contact> {
    Take(SortBy(AllNodes(table), target), count)
  }

  class RoutingTable {
    const ownId: nat
    const buckets: seq<KBucket>

    ghost predicate Valid() {
      |buckets| == BUCKETS && forall i, j :: 0 <= i < j < |buckets| ==> buckets[i] != buckets[j]
    }

    ghost function View(): Table
      reads buckets
    {
      seq(|buckets|, i requires 0 <= i < |buckets| reads buckets => buckets[i].nodes)
    }

    constructor (ownId: nat)
      ensures Valid() && this.ownId == ownId && fresh(buckets)
      ensures View() == seq(BUCKETS, _ => [])
    {
      var bs: seq<KBucket> := [];
      while |bs| < BUCKETS
        invariant |bs| <= BUCKETS && fresh(bs)
        invariant forall i, j :: 0 <= i < j < |bs| ==> bs[i] != bs[j]
        invariant forall i :: 0 <= i < |bs| ==> bs[i].nodes == []
      {
        var b := new KBucket(|bs|, |bs| + 1);
        bs := bs + [b];
      }
      this.ownId, buckets := ownId, bs;
    }

    method AddNode(id: nat, ip: string, port: int, now: int) returns (indexError: bool)
      requires Valid()
      modifies buckets
      ensures View() == TableAdd(ownId, old(View()), Contact(id, ip, port, now))
      ensures indexError <==> id != ownId && BucketIndex(ownId, id) >= BUCKETS
    {
      if id == ownId {
        return false;
      }
      var i := BucketIndex(ownId, id);
      if i >= |buckets| {
        return true;
      }
      buckets[i].Add(id, ip, port, now);
      assert View() == old(View())[i := Added(old(View())[i], Contact(id, ip, port, now))];
      return false;
    }

    method AllContacts() returns (all: seq<Contact>)
      ensures all == AllNodes(View())
    {
      all := [];
      ghost var view := View();
      for i := 0 to |buckets|
        invariant all == AllNodes(view[..i])
      {
        all := all + buckets[i].nodes;
        assert view[..i + 1][..i] == view[..i];
      }
      assert view[..|buckets|] == view;
    }

    method FindClosestNodes(target: nat, count: int) returns (r: seq<Contact>)
      ensures r == FindClosest(View(), target, count)
    {
      var all := AllContacts();
      r := Take(SortBy(all, target), count);
    }

    method EvictStale(maxAge: int, now: int)
      requires Valid()
      modifies buckets
      ensures View() == TableEvict(old(View()), maxAge, now)
    {
      for i := 0 to |buckets|
        invariant forall j :: i <= j < |buckets| ==> buckets[j].nodes == old(buckets[j].nodes)
        invariant forall j :: 0 <= j < i ==> buckets[j].nodes == Evicted(old(buckets[j].nodes), maxAge, now)
      {
        buckets[i].EvictStale(maxAge, now);
      }
    }
  }
}

/** How a message can miss a near node, although no copy is lost: a copy that has come the long way round has no hops
    left, and it makes the node drop the copy over the short cut. */
module MeshDetours {
  import opened Wrappers
  import opened Mesh
  import opened MeshRuns
  import opened MeshCoverages

  predicate Distinct(n: seq<Id>) {
    |n| == 8 && forall i, j :: 0 <= i < j < 8 ==> n[i] != n[j]
  }

  /** Links n[0], ..., n[6] with a short cut from n[0] to n[6], behind which lies n[7]. */
  function PeersIn(n: seq<Id>, i: nat): seq<Id>
    requires |n| == 8 && i < 8
  {
    if i == 0 then [n[6], n[1]] else if i == 7 then [] else [n[i + 1]]
  }

  /** A message from n[0] to all or to n[7]. */
  ghost predicate IsShortCut(n: seq<Id>, cast: Cast) {
    && Distinct(n) && cast.id != "" && cast.origin == n[0]
    && (forall i :: 0 <= i < 7 ==> n[i] != cast.destination)
    && (forall v :: v in cast.topo <==> v in n)
    && (forall i: nat :: i < 8 ==> n[i] in cast.topo && cast.topo[n[i]] == PeersIn(n, i))
  }

  ghost predicate IsSilent(w: World, n: seq<Id>) {
    w.flight == [] && (forall v :: v in w.nodes <==> v in n) && forall v :: v in w.nodes ==> w.nodes[v].seen == map[]
  }

  function Message(cast: Cast): Envelope {
    NewEnvelope(cast.origin, cast.id, cast.kind, cast.payload, cast.destination)
  }

  /** The copy that has gone the long way to n[i]. */
  function LongWay(n: seq<Id>, m: Envelope, i: nat): Envelope
    requires 0 < i < |n| && m.hopCount.Some? && m.seenBy.Some?
    ensures LongWay(n, m, i).hopCount == Some(m.hopCount.value + i - 1) && LongWay(n, m, i).seenBy.Some?
    ensures LongWay(n, m, i) == m.(hopCount := LongWay(n, m, i).hopCount, seenBy := LongWay(n, m, i).seenBy)
  {
    if i == 1 then m else Stamp(n[i - 1], LongWay(n, m, i - 1))
  }

  /** The message has gone the long way to n[i], while the copy over the short cut waits. */
  ghost predicate OnLongWay(w: World, n: seq<Id>, cast: Cast, i: nat)
    requires |n| == 8 && 0 < i < 7
  {
    && w.flight == [Copy(n[6], Message(cast)), Copy(n[i], LongWay(n, Message(cast), i))]
    && (forall v :: v in w.nodes <==> v in n)
    && (forall j :: i <= j < 8 ==> cast.id !in w.nodes[n[j]].seen)
  }

  function Arrival(k: nat, peers: seq<Id>): Event {
    Receive(k, peers, true, 0)
  }

  /** The second of two copies is handled and passed on to one peer. */
  lemma SecondPassesOn(w: World, a: Copy, b: Copy, next: Id, cast: Cast)
    requires w.flight == [a, b] && b.to in w.nodes && CopyFieldsOk(b.msg, cast) && IsCopyOf(b, cast.id)
    requires cast.id != "" && cast.id !in w.nodes[b.to].seen && b.to != cast.destination
    requires b.msg.hopCount.value < MAX_HOPS
    ensures var v := AfterReceive(w, Arrival(1, [next]));
            && v.flight == [a, Copy(next, Stamp(b.to, b.msg))] && v.nodes.Keys == w.nodes.Keys
            && forall x :: x in v.nodes && x != b.to ==> v.nodes[x] == w.nodes[x]
  {
    RelayedAll(b.to, w.nodes[b.to].handlers, b.msg, cast);
    assert Without(w.flight, 1) == [a];
    assert Copies([next], Stamp(b.to, b.msg)) == [Copy(next, Stamp(b.to, b.msg))];
  }

  lemma LongWayStep(w: World, n: seq<Id>, cast: Cast, i: nat)
    requires IsShortCut(n, cast) && 0 < i < 6 && OnLongWay(w, n, cast, i)
    ensures OnLongWay(AfterReceive(w, Arrival(1, PeersIn(n, i))), n, cast, i + 1)
  {
    var m, v := Message(cast), AfterReceive(w, Arrival(1, PeersIn(n, i)));
    assert n[i] in n && n[i] != cast.destination;
    SecondPassesOn(w, Copy(n[6], m), Copy(n[i], LongWay(n, m, i)), n[i + 1], cast);
    forall j | i + 1 <= j < 8
      ensures cast.id !in v.nodes[n[j]].seen
    {
      assert n[j] != n[i];
    }
  }

  /** Nothing is handled at `v` in this step. */
  predicate NotAt(w: World, e: Event, v: Id) {
    match e
    case Broadcast(node, _, _, _, _, _, _) => node != v
    case Receive(k, _, _, _) => k < |w.flight| ==> w.flight[k].to != v
    case Lose(_) => true
  }

  lemma {:induction false} NeverReached(ws: seq<World>, es: seq<Event>, id: Id, i: nat, v: Id)
    requires i <= |es| < |ws| && forall j :: 0 <= j < i ==> NotAt(ws[j], es[j], v)
    ensures v !in LevelsAt(ws, es, id, i)
  {
    if i > 0 {
      NeverReached(ws, es, id, i - 1, v);
    }
  }

  function Start(n: seq<Id>, cast: Cast): Event
    requires |n| == 8
  {
    Broadcast(n[0], cast.id, cast.kind, cast.payload, cast.destination, PeersIn(n, 0), 0)
  }

  lemma StartsOnLongWay(w: World, n: seq<Id>, cast: Cast)
    requires IsShortCut(n, cast) && IsSilent(w, n)
    ensures OnLongWay(AfterBroadcast(w, Start(n, cast)), n, cast, 1) && Allowed(w, Start(n, cast), 2)
  {
    var m, v := Message(cast), AfterBroadcast(w, Start(n, cast));
    assert Copies([n[6], n[1]], m) == [Copy(n[6], m)] + Copies([n[1]], m);
    assert Copies([n[1]], m) == [Copy(n[1], m)];
    assert n[0] in n;
    forall j | 1 <= j < 8
      ensures cast.id !in v.nodes[n[j]].seen
    {
      assert n[j] in n && n[j] != n[0];
    }
  }

  /** The node behind the short cut gets nothing. */
  lemma LongWayEnds(w: World, n: seq<Id>, cast: Cast) returns (u: World, v: World)
    requires IsShortCut(n, cast) && OnLongWay(w, n, cast, 6)
    ensures u == AfterReceive(w, Arrival(1, [n[7]])) && v == AfterReceive(u, Arrival(0, [n[7]]))
    ensures |w.flight| == 2 && w.flight[1].to == n[6] && |u.flight| == 1 && u.flight[0] == Copy(n[6], Message(cast))
    ensures v.flight == []
  {
    var m := Message(cast);
    u := AfterReceive(w, Arrival(1, [n[7]]));
    v := AfterReceive(u, Arrival(0, [n[7]]));
    RelayedAll(n[6], w.nodes[n[6]].handlers, LongWay(n, m, 6), cast);
    assert u.flight == Without(w.flight, 1) == [Copy(n[6], m)];
    assert n[6] in n;
    assert cast.id in u.nodes[n[6]].seen && u.nodes[n[6]].seen[cast.id] == 0;
    assert v.flight == Without(u.flight, 0) == [];
  }

  // ---- The run, world by world ----

  function EventAt(n: seq<Id>, cast: Cast, i: nat): Event
    requires |n| == 8
  {
    if i == 0 then Start(n, cast)
    else if i < 7 then Arrival(1, PeersIn(n, i))
    else Arrival(0, PeersIn(n, 6))
  }

  function Next(w: World, e: Event): World {
    if Allowed(w, e, 2) then Step(w, e, 2) else w
  }

  function WorldAt(w: World, n: seq<Id>, cast: Cast, i: nat): World
    requires |n| == 8
  {
    if i == 0 then w else Next(WorldAt(w, n, cast, i - 1), EventAt(n, cast, i - 1))
  }

  /** The step of a flood in which `v` handles nothing. */
  ghost predicate Misses(w: World, e: Event, cast: Cast, v: Id) {
    Allowed(w, e, 2) && Spreads(w, e, cast) && NotAt(w, e, v)
  }

  lemma ArrivalMisses(w: World, k: nat, cast: Cast, peers: seq<Id>, v: Id)
    requires k < |w.flight| && w.flight[k].to in cast.topo && cast.topo[w.flight[k].to] == peers && |peers| <= 2
    requires w.flight[k].to != v
    ensures Misses(w, Arrival(k, peers), cast, v)
    ensures Next(w, Arrival(k, peers)) == AfterReceive(w, Arrival(k, peers))
  {
  }

  lemma PeersOnWay(n: seq<Id>, cast: Cast, i: nat)
    requires IsShortCut(n, cast) && i < 7
    ensures n[i] in cast.topo && cast.topo[n[i]] == PeersIn(n, i) == Links(cast, n[i])
    ensures |PeersIn(n, i)| <= 2 && n[i] != n[7] && PeersIn(n, 6) == [n[7]]
  {
  }

  lemma {:induction false} OnLongWayAt(w: World, n: seq<Id>, cast: Cast, i: nat)
    requires IsShortCut(n, cast) && IsSilent(w, n) && 0 < i < 7
    ensures OnLongWay(WorldAt(w, n, cast, i), n, cast, i)
    ensures Misses(WorldAt(w, n, cast, i), EventAt(n, cast, i), cast, n[7])
  {
    if i == 1 {
      StartsOnLongWay(w, n, cast);
      assert WorldAt(w, n, cast, 0) == w;
    } else {
      OnLongWayAt(w, n, cast, i - 1);
      var u := WorldAt(w, n, cast, i - 1);
      PeersOnWay(n, cast, i - 1);
      ArrivalMisses(u, 1, cast, PeersIn(n, i - 1), n[7]);
      LongWayStep(u, n, cast, i - 1);
    }
    PeersOnWay(n, cast, i);
    ArrivalMisses(WorldAt(w, n, cast, i), 1, cast, PeersIn(n, i), n[7]);
  }

  lemma EndOfLongWay(w: World, n: seq<Id>, cast: Cast, last: nat)
    requires IsShortCut(n, cast) && IsSilent(w, n) && last == 8
    ensures Misses(WorldAt(w, n, cast, last - 1), EventAt(n, cast, last - 1), cast, n[7])
    ensures WorldAt(w, n, cast, last).flight == []
  {
    OnLongWayAt(w, n, cast, last - 2);
    PeersOnWay(n, cast, 6);
    var u := WorldAt(w, n, cast, last - 2);
    var v, x := LongWayEnds(u, n, cast);
    ArrivalMisses(u, 1, cast, [n[7]], n[7]);
    assert WorldAt(w, n, cast, last - 1) == v;
    ArrivalMisses(v, 0, cast, [n[7]], n[7]);
  }

  lemma MissesAt(w: World, n: seq<Id>, cast: Cast, i: nat)
    requires IsShortCut(n, cast) && IsSilent(w, n) && i < 8
    ensures var u, e := WorldAt(w, n, cast, i), EventAt(n, cast, i);
            && IsStep(u, e, WorldAt(w, n, cast, i + 1), 2) && NotAt(u, e, n[7])
            && (i > 0 ==> Spreads(u, e, cast))
  {
    if i == 0 {
      StartsOnLongWay(w, n, cast);
    } else if i < 7 {
      OnLongWayAt(w, n, cast, i);
    } else {
      EndOfLongWay(w, n, cast, i + 1);
    }
  }

  lemma ShortCutIsNear(n: seq<Id>, cast: Cast)
    requires IsShortCut(n, cast)
    ensures Near(cast, n[7], 2)
  {
    PeersOnWay(n, cast, 0);
    PeersOnWay(n, cast, 6);
    assert n[6] in Links(cast, n[0]) && n[7] in Links(cast, n[6]);
    assert Near(cast, n[0], 0) && Near(cast, n[6], 1);
  }

  predicate IsLongWay(ws: seq<World>, es: seq<Event>, w: World, n: seq<Id>, cast: Cast)
    requires |n| == 8
  {
    && |es| == 8 && |ws| == |es| + 1
    && (forall i :: 0 <= i < |ws| ==> ws[i] == WorldAt(w, n, cast, i))
    && (forall i :: 0 <= i < |es| ==> es[i] == EventAt(n, cast, i))
  }

  lemma LongWayIsRun(ws: seq<World>, es: seq<Event>, w: World, n: seq<Id>, cast: Cast)
    requires IsShortCut(n, cast) && IsSilent(w, n) && IsLongWay(ws, es, w, n, cast)
    ensures Run(ws, es, 2)
  {
    forall i | 0 <= i < |es|
      ensures IsStep(ws[i], es[i], ws[i + 1], 2)
    {
      MissesAt(w, n, cast, i);
    }
  }

  lemma LongWaySpreads(ws: seq<World>, es: seq<Event>, w: World, n: seq<Id>, cast: Cast)
    requires IsShortCut(n, cast) && IsSilent(w, n) && IsLongWay(ws, es, w, n, cast)
    ensures forall i :: 0 < i < |es| ==> Spreads(ws[i], es[i], cast)
    ensures n[7] !in LevelsAt(ws, es, cast.id, |es|)
  {
    forall i | 0 <= i < |es|
      ensures NotAt(ws[i], es[i], n[7]) && (i > 0 ==> Spreads(ws[i], es[i], cast))
    {
      MissesAt(w, n, cast, i);
    }
    NeverReached(ws, es, cast.id, |es|, n[7]);
  }

  lemma SameNodes(w: World, n: seq<Id>, cast: Cast)
    requires IsShortCut(n, cast) && IsSilent(w, n)
    ensures w.nodes.Keys == cast.topo.Keys && Unknown(w, cast.id)
  {
  }

  lemma LongWayBegins(w: World, n: seq<Id>, cast: Cast)
    requires IsShortCut(n, cast) && IsSilent(w, n)
    ensures Begins(w, Start(n, cast), cast)
  {
    SameNodes(w, n, cast);
    PeersOnWay(n, cast, 0);
  }

  /** The message, be it for all or for n[7], can miss that node, which is two links away from its origin. */
  lemma LongWayRound(w: World, n: seq<Id>, cast: Cast) returns (ws: seq<World>, es: seq<Event>)
    requires IsShortCut(n, cast) && IsSilent(w, n)
    ensures |ws| == |es| + 1 && Flood(ws, es, 2, cast) && Arrived(ws[|es|], cast.id)
    ensures Near(cast, n[7], 2) && n[7] !in LevelsAt(ws, es, cast.id, |es|)
  {
    ws := seq(9, i requires 0 <= i < 9 => WorldAt(w, n, cast, i));
    es := seq(8, i requires 0 <= i < 8 => EventAt(n, cast, i));
    assert IsLongWay(ws, es, w, n, cast);
    LongWayIsRun(ws, es, w, n, cast);
    LongWaySpreads(ws, es, w, n, cast);
    LongWayBegins(w, n, cast);
    EndOfLongWay(w, n, cast, |es|);
    ShortCutIsNear(n, cast);
  }
}

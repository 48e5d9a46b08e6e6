/** swarm/task_distributor.py: handing the requested readings out to the worker peers in turn. */
module TaskDistributors {
  import opened Wrappers

  datatype Peer = Peer(id: string, worker: bool)

  /** The ids of the worker peers other than the distributing node, in the order of the node table. */
  function WorkerIds(known: seq<Peer>, myId: string): seq<string> {
    if known == [] then []
    else
      var last := known[|known| - 1];
      WorkerIds(known[..|known| - 1], myId) + if last.id != myId && last.worker then [last.id] else []
  }

  /** The peer that task number i is offered to. */
  function Target(i: nat, peers: seq<string>): string
    requires peers != []
  {
    peers[i % |peers|]
  }

  /** The peers that the first m tasks are offered to, whether or not the sends succeed. */
  function Targets(m: nat, peers: seq<string>): (r: seq<string>)
    ensures |r| == if peers == [] then 0 else m
  {
    if peers == [] || m == 0 then [] else Targets(m - 1, peers) + [Target(m - 1, peers)]
  }

  /** Where task number i ends up: at the peer whose turn it is, or locally (None) without peers or when the send
      fails. */
  function Placed(i: nat, sent: bool, peers: seq<string>): Option<string> {
    if peers == [] || !sent then None else Some(Target(i, peers))
  }

  function Placement(sends: seq<bool>, peers: seq<string>): (r: seq<Option<string>>)
    ensures |r| == |sends|
  {
    if sends == [] then []
    else Placement(sends[..|sends| - 1], peers) + [Placed(|sends| - 1, sends[|sends| - 1], peers)]
  }

  lemma {:induction false} PlacementAt(sends: seq<bool>, peers: seq<string>, i: nat)
    requires i < |sends|
    ensures Placement(sends, peers)[i] == Placed(i, sends[i], peers)
  {
    if i < |sends| - 1 {
      PlacementAt(sends[..|sends| - 1], peers, i);
    }
  }

  /** The tasks with the given placement that end up in one place. */
  function TasksAt(data: seq<string>, placed: seq<Option<string>>, to: Option<string>): seq<string>
    requires |data| == |placed|
  {
    if data == [] then []
    else
      var n := |data| - 1;
      TasksAt(data[..n], placed[..n], to) + if placed[n] == to then [data[n]] else []
  }

  function RemoteOf(remote: map<string, seq<string>>, id: string): seq<string> {
    if id in remote then remote[id] else []
  }

  /** All lists hold what is placed there. */
  ghost predicate Holds(data: seq<string>, placed: seq<Option<string>>, local: seq<string>,
                        remote: map<string, seq<string>>)
    requires |data| == |placed|
  {
    && local == TasksAt(data, placed, None)
    && (forall id :: RemoteOf(remote, id) == TasksAt(data, placed, Some(id)))
    && (forall id :: id in remote ==> remote[id] != [])
  }

  /** distribute_tasks; `sends` tells of each task whether its send would succeed. */
  method DistributeTasks(data: seq<string>, known: seq<Peer>, myId: string, sends: seq<bool>)
    returns (local: seq<string>, remote: map<string, seq<string>>, ghost targets: seq<string>)
    requires |sends| == |data|
    ensures Holds(data, Placement(sends, WorkerIds(known, myId)), local, remote)
    ensures targets == Targets(|data|, WorkerIds(known, myId))
  {
    var peers := WorkerIds(known, myId);
    ghost var placed := Placement(sends, peers);
    local, remote, targets := [], map[], [];
    var peerIndex := 0;
    for i := 0 to |data|
      invariant peers != [] ==> peerIndex == i
      invariant Holds(data[..i], placed[..i], local, remote)
      invariant targets == Targets(i, peers)
    {
      PlacementAt(sends, peers, i);
      OneMoreTask(data, placed, i, local, remote);
      if peers != [] {
        var target := peers[peerIndex % |peers|];
        targets := targets + [target];
        peerIndex := peerIndex + 1;
        if sends[i] {
          remote := remote[target := RemoteOf(remote, target) + [data[i]]];
        } else {
          local := local + [data[i]];
        }
      } else {
        local := local + [data[i]];
      }
    }
    assert data[..|data|] == data && placed[..|data|] == placed;
  }

  lemma OneMoreTask(data: seq<string>, placed: seq<Option<string>>, i: nat, local: seq<string>,
                    remote: map<string, seq<string>>)
    requires i < |data| == |placed| && Holds(data[..i], placed[..i], local, remote)
    ensures placed[i].None? ==> Holds(data[..i + 1], placed[..i + 1], local + [data[i]], remote)
    ensures placed[i].Some? ==>
              var to := placed[i].value;
              Holds(data[..i + 1], placed[..i + 1], local, remote[to := RemoteOf(remote, to) + [data[i]]])
  {
    assert data[..i + 1][..i] == data[..i] && placed[..i + 1][..i] == placed[..i];
    forall to
      ensures TasksAt(data[..i + 1], placed[..i + 1], to)
           == TasksAt(data[..i], placed[..i], to) + if placed[i] == to then [data[i]] else []
    {
    }
  }

  // ---- nothing is lost, nothing is doubled, the order is kept ----

  /** The numbers of the tasks that end up in one place, in increasing order. */
  function Places(placed: seq<Option<string>>, to: Option<string>): (r: seq<nat>)
    ensures forall k :: 0 <= k < |r| ==> r[k] < |placed| && placed[r[k]] == to
    ensures forall a, b :: 0 <= a < b < |r| ==> r[a] < r[b]
  {
    if placed == [] then []
    else
      var n := |placed| - 1;
      Places(placed[..n], to) + if placed[n] == to then [n] else []
  }

  /** Every list holds exactly the tasks placed there, in the order they were asked for. */
  lemma {:induction false} OrderKept(data: seq<string>, placed: seq<Option<string>>, to: Option<string>)
    requires |data| == |placed|
    ensures |TasksAt(data, placed, to)| == |Places(placed, to)|
    ensures forall k :: 0 <= k < |Places(placed, to)| ==> TasksAt(data, placed, to)[k] == data[Places(placed, to)[k]]
    ensures forall i: nat :: i in Places(placed, to) <==> i < |placed| && placed[i] == to
  {
    if data != [] {
      var n := |data| - 1;
      OrderKept(data[..n], placed[..n], to);
    }
  }

  /** The tasks of several places together. */
  function Together(data: seq<string>, placed: seq<Option<string>>, places: seq<Option<string>>): multiset<string>
    requires |data| == |placed|
  {
    if places == [] then multiset{}
    else
      var n := |places| - 1;
      Together(data, placed, places[..n]) + multiset(TasksAt(data, placed, places[n]))
  }

  ghost predicate NoRepeats<T(!new)>(s: seq<T>) {
    forall i, j :: 0 <= i < j < |s| ==> s[i] != s[j]
  }

  function OneIf(here: bool, task: string): multiset<string> {
    if here then multiset{task} else multiset{}
  }

  lemma BagGrows(data: seq<string>, placed: seq<Option<string>>, n: nat, to: Option<string>)
    requires |data| == |placed| == n + 1
    ensures multiset(TasksAt(data, placed, to))
         == multiset(TasksAt(data[..n], placed[..n], to)) + OneIf(placed[n] == to, data[n])
  {
  }

  lemma {:induction false} OneMoreTogether(data: seq<string>, placed: seq<Option<string>>, n: nat,
                                           places: seq<Option<string>>)
    requires |data| == |placed| == n + 1 && NoRepeats(places)
    ensures Together(data, placed, places)
         == Together(data[..n], placed[..n], places) + OneIf(placed[n] in places, data[n])
  {
    if places != [] {
      var k := |places| - 1;
      OneMoreTogether(data, placed, n, places[..k]);
      BagGrows(data, placed, n, places[k]);
      InOneOfTwo(places, k, placed[n], data[n]);
    }
  }

  lemma InOneOfTwo(places: seq<Option<string>>, k: nat, to: Option<string>, task: string)
    requires NoRepeats(places) && |places| == k + 1
    ensures OneIf(to in places, task) == OneIf(to in places[..k], task) + OneIf(to == places[k], task)
  {
    assert places == places[..k] + [places[k]];
  }

  lemma {:induction false} NothingTogether(places: seq<Option<string>>)
    ensures Together([], [], places) == multiset{}
  {
    if places != [] {
      NothingTogether(places[..|places| - 1]);
    }
  }

  /** Local and remote tasks together are exactly the requested ones, each as often as it was requested. */
  lemma {:induction false} TasksConserved(data: seq<string>, placed: seq<Option<string>>,
                                          places: seq<Option<string>>)
    requires |data| == |placed| && NoRepeats(places) && forall i :: 0 <= i < |placed| ==> placed[i] in places
    ensures Together(data, placed, places) == multiset(data)
  {
    if data == [] {
      NothingTogether(places);
    } else {
      var n := |data| - 1;
      TasksConserved(data[..n], placed[..n], places);
      OneMoreTogether(data, placed, n, places);
      BagOfLast(data, n);
    }
  }

  lemma BagOfLast(data: seq<string>, n: nat)
    requires |data| == n + 1
    ensures multiset(data) == multiset(data[..n]) + multiset{data[n]}
  {
    assert data == data[..n] + [data[n]];
  }

  /** The places there are: the node itself and its worker peers. */
  function AllPlaces(peers: seq<string>): (r: seq<Option<string>>)
    ensures |r| == |peers| + 1 && r[0] == None && forall i :: 0 <= i < |peers| ==> r[i + 1] == Some(peers[i])
  {
    if peers == [] then [None] else AllPlaces(peers[..|peers| - 1]) + [Some(peers[|peers| - 1])]
  }

  /** Every pattern of send failures places each task at the node itself or at one of its worker peers. */
  lemma PlacedSomewhere(sends: seq<bool>, peers: seq<string>, i: nat)
    requires i < |sends|
    ensures Placement(sends, peers)[i] in AllPlaces(peers)
  {
    PlacementAt(sends, peers, i);
    var places := AllPlaces(peers);
    if Placement(sends, peers)[i].None? {
      assert places[0] == None;
    } else {
      assert places[i % |peers| + 1] == Some(Target(i, peers));
    }
  }

  lemma DistributionConserves(data: seq<string>, known: seq<Peer>, myId: string, sends: seq<bool>)
    requires |sends| == |data| && NoRepeatedIds(known)
    ensures var peers := WorkerIds(known, myId);
            Together(data, Placement(sends, peers), AllPlaces(peers)) == multiset(data)
  {
    var peers := WorkerIds(known, myId);
    WorkerIdsDistinct(known, myId);
    forall i | 0 <= i < |sends|
      ensures Placement(sends, peers)[i] in AllPlaces(peers)
    {
      PlacedSomewhere(sends, peers, i);
    }
    PlacesDistinct(peers);
    TasksConserved(data, Placement(sends, peers), AllPlaces(peers));
  }

  lemma PlacesDistinct(peers: seq<string>)
    requires NoRepeats(peers)
    ensures NoRepeats(AllPlaces(peers))
  {
    var r := AllPlaces(peers);
    forall i, j | 0 <= i < j < |r|
      ensures r[i] != r[j]
    {
      assert r[j] == Some(peers[j - 1]);
      if i > 0 { assert r[i] == Some(peers[i - 1]); }
    }
  }

  ghost predicate NoRepeatedIds(known: seq<Peer>) {
    forall i, j :: 0 <= i < j < |known| ==> known[i].id != known[j].id
  }

  lemma {:induction false} WorkerIdsDistinct(known: seq<Peer>, myId: string)
    requires NoRepeatedIds(known)
    ensures NoRepeats(WorkerIds(known, myId))
    ensures forall id :: id in WorkerIds(known, myId) ==> id != myId && Peer(id, true) in known
  {
    if known != [] {
      var n := |known| - 1;
      WorkerIdsDistinct(known[..n], myId);
      forall id | id in WorkerIds(known[..n], myId)
        ensures id != known[n].id
      {
        var i :| 0 <= i < n && known[..n][i] == Peer(id, true);
        assert known[i].id == id;
      }
    }
  }

  // ---- every peer is offered its share ----

  /** A task that is placed at a peer is placed at its target. */
  lemma PlacedAtTarget(sends: seq<bool>, peers: seq<string>, i: nat)
    requires i < |sends| && Placement(sends, peers)[i].Some?
    ensures i < |Targets(|sends|, peers)| && Placement(sends, peers)[i] == Some(Targets(|sends|, peers)[i])
  {
    PlacementAt(sends, peers, i);
    TargetsAt(|sends|, peers, i);
  }

  lemma {:induction false} TargetsAt(m: nat, peers: seq<string>, i: nat)
    requires i < m && peers != []
    ensures Targets(m, peers)[i] == Target(i, peers)
  {
    if i < m - 1 {
      TargetsAt(m - 1, peers, i);
    }
  }

  /** How often position j of n is the turn of the first m tasks. */
  function Turns(m: nat, n: nat, j: nat): nat
    requires n > 0
  {
    if m == 0 then 0 else Turns(m - 1, n, j) + if (m - 1) % n == j then 1 else 0
  }

  /** With distinct peers, what peer j is offered are its turns. */
  lemma {:induction false} OffersAreTurns(m: nat, peers: seq<string>, j: nat)
    requires j < |peers| && NoRepeats(peers)
    ensures multiset(Targets(m, peers))[peers[j]] == Turns(m, |peers|, j)
  {
    if m > 0 {
      OffersAreTurns(m - 1, peers, j);
      var i := (m - 1) % |peers|;
      assert peers[i] == peers[j] <==> i == j;
    }
  }

  lemma DivisionStep(m: nat, n: nat)
    requires n > 0
    ensures if m % n == n - 1 then (m + 1) / n == m / n + 1 && (m + 1) % n == 0
            else (m + 1) / n == m / n && (m + 1) % n == m % n + 1
  {
    var q, r := m / n, m % n;
    assert m == q * n + r;
    if r == n - 1 {
      assert m + 1 == (q + 1) * n;
      DivisionUnique(m + 1, n, q + 1, 0);
    } else {
      DivisionUnique(m + 1, n, q, r + 1);
    }
  }

  lemma DivisionUnique(m: nat, n: nat, q: nat, r: nat)
    requires r < n && m == q * n + r
    ensures m / n == q && m % n == r
  {
    var d: int := m / n - q;
    assert d * n == (m / n) * n - q * n;
    Multiples(d, n);
  }

  lemma Multiples(d: int, n: int)
    requires n > 0
    ensures d > 0 ==> d * n >= n
    ensures d < 0 ==> d * n <= -n
  {
    if d > 0 {
      assert (d - 1) * n >= 0;
    } else if d < 0 {
      assert (-d - 1) * n >= 0;
    }
  }

  lemma {:induction false} TurnsShare(m: nat, n: nat, j: nat)
    requires j < n
    ensures Turns(m, n, j) == m / n + if j < m % n then 1 else 0
  {
    if m > 0 {
      TurnsShare(m - 1, n, j);
      DivisionStep(m - 1, n);
    }
  }

  /** Any two worker peers are offered the same number of tasks, up to one. */
  lemma FairShares(m: nat, known: seq<Peer>, myId: string, a: string, b: string)
    requires NoRepeatedIds(known) && a in WorkerIds(known, myId) && b in WorkerIds(known, myId)
    ensures var offers := multiset(Targets(m, WorkerIds(known, myId)));
            offers[a] <= offers[b] + 1 && offers[b] <= offers[a] + 1
  {
    WorkerIdsDistinct(known, myId);
    FairOffers(m, WorkerIds(known, myId), a, b);
  }

  lemma FairOffers(m: nat, peers: seq<string>, a: string, b: string)
    requires NoRepeats(peers) && a in peers && b in peers
    ensures var offers := multiset(Targets(m, peers));
            offers[a] <= offers[b] + 1 && offers[b] <= offers[a] + 1
  {
    var j: nat :| j < |peers| && peers[j] == a;
    var k: nat :| k < |peers| && peers[k] == b;
    OffersAreTurns(m, peers, j);
    OffersAreTurns(m, peers, k);
    FairTurns(m, |peers|, j, k);
  }

  lemma FairTurns(m: nat, n: nat, j: nat, k: nat)
    requires j < n && k < n
    ensures Turns(m, n, j) <= Turns(m, n, k) + 1 && Turns(m, n, k) <= Turns(m, n, j) + 1
  {
    TurnsShare(m, n, j);
    TurnsShare(m, n, k);
  }

  // ---- who is offered what ----

  /** The peers that take part are exactly the other nodes with the worker role. */
  lemma {:induction false} WorkerIdsIff(known: seq<Peer>, myId: string, id: string)
    ensures id in WorkerIds(known, myId) <==> id != myId && Peer(id, true) in known
  {
    if known != [] {
      WorkerIdsIff(known[..|known| - 1], myId, id);
      assert known == known[..|known| - 1] + [known[|known| - 1]];
    }
  }

  /** A task stays local exactly when there is no worker peer or its send fails. */
  lemma LocalIff(sends: seq<bool>, known: seq<Peer>, myId: string, i: nat)
    requires i < |sends|
    ensures Placement(sends, WorkerIds(known, myId))[i].None? <==>
              !sends[i] || forall id :: id != myId ==> Peer(id, true) !in known
  {
    var peers := WorkerIds(known, myId);
    PlacementAt(sends, peers, i);
    if peers != [] {
      WorkerIdsIff(known, myId, peers[0]);
      assert peers[0] in peers;
    } else {
      forall id | id != myId
        ensures Peer(id, true) !in known
      {
        WorkerIdsIff(known, myId, id);
      }
    }
  }

  /** Every worker peer is offered its equal share of the tasks, rounded down or up. */
  lemma EqualShares(m: nat, known: seq<Peer>, myId: string, id: string)
    requires NoRepeatedIds(known) && id != myId && Peer(id, true) in known
    ensures var peers := WorkerIds(known, myId);
            peers != [] && m / |peers| <= multiset(Targets(m, peers))[id] <= m / |peers| + 1
  {
    var peers := WorkerIds(known, myId);
    WorkerIdsDistinct(known, myId);
    WorkerIdsIff(known, myId, id);
    var j: nat :| j < |peers| && peers[j] == id;
    OffersAreTurns(m, peers, j);
    TurnsShare(m, |peers|, j);
  }
}

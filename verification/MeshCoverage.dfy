/** Whom a message reaches, be it for all or for one node: over links that lose nothing, in any order of delivery and in
    order of hop counts. */
module MeshCoverages {
  import opened Wrappers
  import opened Mesh
  import opened MeshRuns

  /** The peers each node knows. */
  type Topology = map<Id, seq<Id>>

  /** One message and the network it spreads over. */
  datatype Cast = Cast(topo: Topology, origin: Id, id: Id, kind: string, payload: string, destination: Id)

  /** The peers to which a node passes the message: the origin sends it, the destination keeps it. */
  function Links(cast: Cast, u: Id): seq<Id> {
    if u in cast.topo && (u == cast.origin || u != cast.destination) then cast.topo[u] else []
  }

  /** A walk over at most `d` links leads from the origin to `v`, and its inner nodes are not the destination. */
  ghost predicate Near(cast: Cast, v: Id, d: nat)
    decreases d
  {
    v == cast.origin || (d > 0 && exists u :: v in Links(cast, u) && Near(cast, u, d - 1))
  }

  lemma {:induction false} NearMore(cast: Cast, v: Id, d: nat, e: nat)
    requires Near(cast, v, d) && d <= e
    ensures Near(cast, v, e)
    decreases d
  {
    if v != cast.origin {
      var u :| v in Links(cast, u) && Near(cast, u, d - 1);
      NearMore(cast, u, d - 1, e - 1);
    }
  }

  // ---- Runs in which every copy of one message arrives ----

  predicate IsCopyOf(c: Copy, id: Id) {
    c.msg.msgId == Some(id)
  }

  /** Over how few links the message was handled at a node; absent where it was not handled. */
  type Levels = map<Id, nat>

  function LevelsAfter(levels: Levels, w: World, e: Event, id: Id): Levels {
    match e
    case Broadcast(node, freshId, _, _, _, _, _) => if freshId == id then levels[node := 0] else levels
    case Receive(k, _, _, now) =>
      if k < |w.flight| && IsCopyOf(w.flight[k], id) && w.flight[k].to in w.nodes
         && Handles(w.nodes[w.flight[k].to].seen, Some(w.flight[k].msg), now) && Hops(w.flight[k].msg) >= 0
      then levels[w.flight[k].to := Fewer(levels, w.flight[k].to, Hops(w.flight[k].msg) + 1)]
      else levels
    case Lose(_) => levels
  }

  function Fewer(levels: Levels, v: Id, level: nat): nat {
    if v in levels && levels[v] < level then levels[v] else level
  }

  function LevelsAt(ws: seq<World>, es: seq<Event>, id: Id, i: nat): Levels
    requires i <= |es| < |ws|
  {
    if i == 0 then map[] else LevelsAfter(LevelsAt(ws, es, id, i - 1), ws[i - 1], es[i - 1], id)
  }

  /** No copy of the message is lost, its id is not drawn again, and every node passes it on to the peers it knows. */
  predicate Spreads(w: World, e: Event, cast: Cast) {
    match e
    case Broadcast(_, freshId, _, _, _, _, _) => freshId != cast.id
    case Receive(k, peers, handlerOk, _) =>
      k < |w.flight| && IsCopyOf(w.flight[k], cast.id) && w.flight[k].to in cast.topo ==>
        handlerOk && peers == cast.topo[w.flight[k].to]
    case Lose(k) => k < |w.flight| ==> !IsCopyOf(w.flight[k], cast.id)
  }

  /** A broadcast, and then any events, with any other messages, in any order. */
  ghost predicate Flood(ws: seq<World>, es: seq<Event>, D: nat, cast: Cast) {
    && Run(ws, es, D) && |es| > 0 && Begins(ws[0], es[0], cast)
    && forall i :: 0 < i < |es| ==> Spreads(ws[i], es[i], cast)
  }

  predicate IsBroadcastOf(e: Event, cast: Cast) {
    && e.Broadcast? && e.node == cast.origin && e.freshId == cast.id && e.kind == cast.kind
    && e.payload == cast.payload && e.destination == cast.destination
    && cast.origin in cast.topo && e.peers == cast.topo[cast.origin]
  }

  ghost predicate Begins(w: World, e: Event, cast: Cast) {
    IsBroadcastOf(e, cast) && cast.id != "" && w.nodes.Keys == cast.topo.Keys && Unknown(w, cast.id)
  }

  ghost predicate Unknown(w: World, id: Id) {
    && (forall c :: c in w.flight ==> !IsCopyOf(c, id))
    && (forall v :: v in w.nodes ==> id !in w.nodes[v].seen)
  }

  ghost predicate Arrived(w: World, id: Id) {
    forall c :: c in w.flight ==> !IsCopyOf(c, id)
  }

  // ---- The invariant ----

  predicate CopyFieldsOk(m: Envelope, cast: Cast) {
    && m.hopCount.Some? && 0 <= m.hopCount.value <= MAX_HOPS && m.maxHops == Some(MAX_HOPS) && m.seenBy.Some?
    && m.kind == Some(cast.kind) && m.payload == Some(cast.payload) && m.destination == Some(cast.destination)
  }

  /** A copy with so many hops is on its way to `v`. */
  ghost predicate OnItsWay(w: World, id: Id, v: Id, hops: nat) {
    exists c :: c in w.flight && IsCopyOf(c, id) && c.to == v && Hops(c.msg) == hops
  }

  /** `v` is a peer of a node that handled the message over at most `level` links. */
  ghost predicate PeerOfReached(cast: Cast, levels: Levels, v: Id, level: nat) {
    exists u :: u in levels && v in Links(cast, u) && levels[u] <= level
  }

  ghost predicate CopyOkIn(cast: Cast, levels: Levels, c: Copy) {
    CopyFieldsOk(c.msg, cast) && PeerOfReached(cast, levels, c.to, c.msg.hopCount.value)
  }

  /** Each known peer of a node that had hops left is reached, or a copy is on its way to it. */
  ghost predicate PassedOn(w: World, cast: Cast, levels: Levels, u: Id) {
    u in levels && levels[u] <= MAX_HOPS ==>
      forall v :: v in Links(cast, u) && v in cast.topo ==> v in levels || OnItsWay(w, cast.id, v, levels[u])
  }

  ghost predicate LevelOk(cast: Cast, levels: Levels, v: Id) {
    v in levels ==>
      && v in cast.topo && Near(cast, v, levels[v]) && levels[v] <= MAX_HOPS + 1
      && (v == cast.origin || PeerOfReached(cast, levels, v, MAX_HOPS))
  }

  ghost predicate FloodOk(w: World, cast: Cast, levels: Levels) {
    && w.nodes.Keys == cast.topo.Keys && cast.origin in levels && levels[cast.origin] == 0 && cast.id != ""
    && (forall c :: c in w.flight && IsCopyOf(c, cast.id) ==> CopyOkIn(cast, levels, c))
    && (forall v :: v in w.nodes && cast.id in w.nodes[v].seen ==> v in levels)
    && (forall v :: LevelOk(cast, levels, v))
    && (forall u :: PassedOn(w, cast, levels, u))
  }

  /** A step that leaves the copies of the message as they are, and marks it nowhere. */
  lemma QuietKeeps(w: World, v: World, cast: Cast, levels: Levels)
    requires FloodOk(w, cast, levels) && v.nodes.Keys == w.nodes.Keys
    requires forall n :: n in v.nodes && cast.id in v.nodes[n].seen ==> cast.id in w.nodes[n].seen
    requires forall c :: IsCopyOf(c, cast.id) ==> (c in v.flight <==> c in w.flight)
    ensures FloodOk(v, cast, levels)
  {
    forall u
      ensures PassedOn(v, cast, levels, u)
    {
      assert PassedOn(w, cast, levels, u);
      forall n | u in levels && levels[u] <= MAX_HOPS && n in Links(cast, u) && OnItsWay(w, cast.id, n, levels[u])
        ensures OnItsWay(v, cast.id, n, levels[u])
      {
        var c :| c in w.flight && IsCopyOf(c, cast.id) && c.to == n && Hops(c.msg) == levels[u];
        assert c in v.flight;
      }
    }
  }

  lemma InWithout(flight: seq<Copy>, k: nat, c: Copy)
    requires k < |flight|
    ensures c in Without(flight, k) ==> c in flight
    ensures c in flight && c != flight[k] ==> c in Without(flight, k)
  {
    if c in flight && c != flight[k] {
      var j :| 0 <= j < |flight| && flight[j] == c;
      assert c == Without(flight, k)[if j < k then j else j - 1];
    }
  }

  lemma {:induction false} InCopies(peers: seq<Id>, m: Envelope, c: Copy)
    ensures c in Copies(peers, m) <==> c.msg == m && c.to in peers
  {
    if peers != [] {
      InCopies(peers[1..], m, c);
      assert peers == [peers[0]] + peers[1..];
    }
  }

  // ---- A copy that is consumed ----

  /** Node `n` is reached when its copy is consumed; `levels'` are no higher than before. */
  ghost predicate Lowers(levels: Levels, levels': Levels, n: Id) {
    && n in levels'
    && (forall u :: u in levels ==> u in levels' && levels'[u] <= levels[u])
    && (forall u :: u in levels' && u != n ==> u in levels && levels'[u] == levels[u])
  }

  lemma PeerStays(cast: Cast, levels: Levels, levels': Levels, n: Id, v: Id, level: nat)
    requires Lowers(levels, levels', n) && PeerOfReached(cast, levels, v, level)
    ensures PeerOfReached(cast, levels', v, level)
  {
    var u :| u in levels && v in Links(cast, u) && levels[u] <= level;
    assert u in levels' && levels'[u] <= level;
  }

  lemma OthersKeepLevel(cast: Cast, levels: Levels, levels': Levels, n: Id, v: Id)
    requires Lowers(levels, levels', n) && LevelOk(cast, levels, v) && v != n
    ensures LevelOk(cast, levels', v)
  {
    if v in levels' && v != cast.origin {
      PeerStays(cast, levels, levels', n, v, MAX_HOPS);
    }
  }

  /** A copy that still has the level it was sent at stays on its way, unless it is the one consumed. */
  lemma StaysOnItsWay(w: World, k: nat, v: World, id: Id, n: Id, hops: nat)
    requires k < |w.flight| && OnItsWay(w, id, n, hops) && n != w.flight[k].to
    requires forall c :: c in Without(w.flight, k) ==> c in v.flight
    ensures OnItsWay(v, id, n, hops)
  {
    var c :| c in w.flight && IsCopyOf(c, id) && c.to == n && Hops(c.msg) == hops;
    InWithout(w.flight, k, c);
    assert c in v.flight;
  }

  lemma OthersPassedOn(w: World, k: nat, v: World, cast: Cast, levels: Levels, levels': Levels, u: Id)
    requires k < |w.flight| && Lowers(levels, levels', w.flight[k].to) && PassedOn(w, cast, levels, u)
    requires forall c :: c in Without(w.flight, k) ==> c in v.flight
    requires u in levels ==> levels'[u] == levels[u]
    requires u in levels' ==> u in levels
    ensures PassedOn(v, cast, levels', u)
  {
    if u in levels' && levels'[u] <= MAX_HOPS {
      forall n | n in Links(cast, u) && n in cast.topo
        ensures n in levels' || OnItsWay(v, cast.id, n, levels'[u])
      {
        if n !in levels' {
          StaysOnItsWay(w, k, v, cast.id, n, levels[u]);
        }
      }
    }
  }

  /** The consumed copy is dropped: its node is unknown, or has been reached. */
  lemma DropKeeps(w: World, k: nat, v: World, cast: Cast, levels: Levels)
    requires FloodOk(w, cast, levels) && k < |w.flight|
    requires v.nodes.Keys == w.nodes.Keys && v.flight == Without(w.flight, k)
    requires forall n :: n in v.nodes && cast.id in v.nodes[n].seen ==> cast.id in w.nodes[n].seen
    requires w.flight[k].to in levels || w.flight[k].to !in cast.topo
    ensures FloodOk(v, cast, levels)
  {
    forall c | c in v.flight && IsCopyOf(c, cast.id)
      ensures CopyOkIn(cast, levels, c)
    {
      InWithout(w.flight, k, c);
    }
    forall u
      ensures PassedOn(v, cast, levels, u)
    {
      assert PassedOn(w, cast, levels, u);
      if u in levels && levels[u] <= MAX_HOPS {
        forall n | n in Links(cast, u) && n in cast.topo
          ensures n in levels || OnItsWay(v, cast.id, n, levels[u])
        {
          if n !in levels {
            StaysOnItsWay(w, k, v, cast.id, n, levels[u]);
          }
        }
      }
    }
  }

  /** What the node that handles a copy sends on. */
  function Onward(cast: Cast, c: Copy): seq<Copy>
    requires c.msg.hopCount.Some? && c.msg.seenBy.Some?
  {
    if c.msg.hopCount.value < MAX_HOPS && c.to != cast.destination then Copies(Links(cast, c.to), Stamp(c.to, c.msg))
    else []
  }

  /** The world after node `n` has handled its copy. */
  ghost predicate Handled(w: World, k: nat, v: World, cast: Cast, levels: Levels, levels': Levels)
    requires k < |w.flight|
  {
    var c := w.flight[k];
    && IsCopyOf(c, cast.id) && CopyFieldsOk(c.msg, cast) && c.to in cast.topo && v.nodes.Keys == w.nodes.Keys
    && levels' == levels[c.to := Fewer(levels, c.to, c.msg.hopCount.value + 1)]
    && (forall n :: n in v.nodes && n != c.to && cast.id in v.nodes[n].seen ==> cast.id in w.nodes[n].seen)
    && v.flight == Without(w.flight, k) + Onward(cast, c)
  }

  lemma HandledLowers(w: World, k: nat, v: World, cast: Cast, levels: Levels, levels': Levels)
    requires k < |w.flight| && Handled(w, k, v, cast, levels, levels')
    ensures Lowers(levels, levels', w.flight[k].to)
    ensures forall c :: c in Without(w.flight, k) ==> c in v.flight
  {
  }

  lemma HandledCopies(w: World, k: nat, v: World, cast: Cast, levels: Levels, levels': Levels,
                      c: Copy)
    requires FloodOk(w, cast, levels) && k < |w.flight|
    requires Handled(w, k, v, cast, levels, levels') && c in v.flight && IsCopyOf(c, cast.id)
    ensures CopyOkIn(cast, levels', c)
  {
    HandledLowers(w, k, v, cast, levels, levels');
    var n, m := w.flight[k].to, w.flight[k].msg;
    if c in Without(w.flight, k) {
      InWithout(w.flight, k, c);
      PeerStays(cast, levels, levels', n, c.to, c.msg.hopCount.value);
    } else {
      InCopies(Links(cast, n), Stamp(n, m), c);
      assert n in levels' && c.to in Links(cast, n) && levels'[n] <= c.msg.hopCount.value;
    }
  }

  lemma HandledLevel(w: World, k: nat, v: World, cast: Cast, levels: Levels, levels': Levels)
    requires FloodOk(w, cast, levels) && k < |w.flight| && Handled(w, k, v, cast, levels, levels')
    ensures LevelOk(cast, levels', w.flight[k].to)
  {
    HandledLowers(w, k, v, cast, levels, levels');
    var n, h := w.flight[k].to, w.flight[k].msg.hopCount.value;
    assert w.flight[k] in w.flight;
    assert CopyOkIn(cast, levels, w.flight[k]);
    var u :| u in levels && n in Links(cast, u) && levels[u] <= h;
    assert LevelOk(cast, levels, u) && LevelOk(cast, levels, n);
    NearMore(cast, u, levels[u], h);
    assert PeerOfReached(cast, levels, n, MAX_HOPS);
    PeerStays(cast, levels, levels', n, n, MAX_HOPS);
    assert Near(cast, n, h + 1);
  }

  lemma HandledPasses(w: World, k: nat, v: World, cast: Cast, levels: Levels, levels': Levels)
    requires FloodOk(w, cast, levels) && k < |w.flight| && Handled(w, k, v, cast, levels, levels')
    ensures PassedOn(v, cast, levels', w.flight[k].to)
  {
    HandledLowers(w, k, v, cast, levels, levels');
    var n, m := w.flight[k].to, w.flight[k].msg;
    if n in levels && levels[n] == levels'[n] {
      assert PassedOn(w, cast, levels, n);
      OthersPassedOn(w, k, v, cast, levels, levels', n);
    } else if levels'[n] <= MAX_HOPS {
      forall x | x in Links(cast, n) && x in cast.topo
        ensures OnItsWay(v, cast.id, x, levels'[n])
      {
        var c := Copy(x, Stamp(n, m));
        InCopies(Links(cast, n), Stamp(n, m), c);
        assert c in v.flight && Hops(c.msg) == levels'[n];
      }
    }
  }

  lemma HandledKeeps(w: World, k: nat, v: World, cast: Cast, levels: Levels, levels': Levels)
    requires FloodOk(w, cast, levels) && k < |w.flight| && Handled(w, k, v, cast, levels, levels')
    ensures FloodOk(v, cast, levels')
  {
    HandledLowers(w, k, v, cast, levels, levels');
    var n := w.flight[k].to;
    forall c | c in v.flight && IsCopyOf(c, cast.id)
      ensures CopyOkIn(cast, levels', c)
    {
      HandledCopies(w, k, v, cast, levels, levels', c);
    }
    forall x
      ensures LevelOk(cast, levels', x)
    {
      if x == n {
        HandledLevel(w, k, v, cast, levels, levels');
      } else {
        OthersKeepLevel(cast, levels, levels', n, x);
      }
    }
    forall u
      ensures PassedOn(v, cast, levels', u)
    {
      if u == n {
        HandledPasses(w, k, v, cast, levels, levels');
      } else {
        assert PassedOn(w, cast, levels, u);
        OthersPassedOn(w, k, v, cast, levels, levels', u);
      }
    }
  }

  // ---- Steps ----

  lemma RelayedAll(self: Id, handlers: set<string>, m: Envelope, cast: Cast)
    requires CopyFieldsOk(m, cast)
    ensures Relay(self, handlers, m, true)
         == if m.hopCount.value < MAX_HOPS && self != cast.destination then Some(Stamp(self, m)) else None
  {
  }

  lemma ReceiveKeeps(w: World, e: Event, cast: Cast, levels: Levels)
    requires FloodOk(w, cast, levels) && e.Receive? && e.k < |w.flight|
    requires IsCopyOf(w.flight[e.k], cast.id) && Spreads(w, e, cast)
    ensures FloodOk(AfterReceive(w, e), cast, LevelsAfter(levels, w, e, cast.id))
  {
    var c, v := w.flight[e.k], AfterReceive(w, e);
    assert c in w.flight;
    assert CopyOkIn(cast, levels, c);
    if c.to in w.nodes && Handles(w.nodes[c.to].seen, Some(c.msg), e.now) {
      RelayedAll(c.to, w.nodes[c.to].handlers, c.msg, cast);
      assert v.flight == Without(w.flight, e.k) + Onward(cast, c);
      HandledKeeps(w, e.k, v, cast, levels, LevelsAfter(levels, w, e, cast.id));
    } else {
      DropKeeps(w, e.k, v, cast, levels);
    }
  }

  lemma OtherCopies(peers: seq<Id>, m: Envelope, id: Id)
    requires m.msgId != Some(id)
    ensures forall c :: c in Copies(peers, m) ==> !IsCopyOf(c, id)
  {
    CopiesAre(peers, m);
  }

  lemma OtherWithout(flight: seq<Copy>, k: nat, id: Id)
    requires k < |flight| && !IsCopyOf(flight[k], id)
    ensures forall c :: IsCopyOf(c, id) ==> (c in Without(flight, k) <==> c in flight)
  {
    forall c | IsCopyOf(c, id)
      ensures c in Without(flight, k) <==> c in flight
    {
      InWithout(flight, k, c);
    }
  }

  lemma OtherReceiveKeeps(w: World, e: Event, cast: Cast, levels: Levels)
    requires FloodOk(w, cast, levels) && e.Receive? && e.k < |w.flight|
    requires !IsCopyOf(w.flight[e.k], cast.id)
    ensures FloodOk(AfterReceive(w, e), cast, levels)
  {
    var c, v := w.flight[e.k], AfterReceive(w, e);
    OtherWithout(w.flight, e.k, cast.id);
    if c.to in w.nodes {
      var relay := Relay(c.to, w.nodes[c.to].handlers, c.msg, e.handlerOk);
      if relay.Some? {
        OtherCopies(e.peers, relay.value, cast.id);
      }
    }
    QuietKeeps(w, v, cast, levels);
  }

  lemma StepKeepsFloodOk(w: World, e: Event, D: nat, cast: Cast, levels: Levels)
    requires FloodOk(w, cast, levels) && Allowed(w, e, D) && Spreads(w, e, cast)
    ensures FloodOk(Step(w, e, D), cast, LevelsAfter(levels, w, e, cast.id))
  {
    match e
    case Broadcast(node, freshId, kind, payload, destination, peers, _) =>
      OtherCopies(peers, NewEnvelope(node, freshId, kind, payload, destination), cast.id);
      QuietKeeps(w, Step(w, e, D), cast, levels);
    case Receive(k, _, _, _) =>
      if IsCopyOf(w.flight[k], cast.id) {
        ReceiveKeeps(w, e, cast, levels);
      } else {
        OtherReceiveKeeps(w, e, cast, levels);
      }
    case Lose(k) =>
      OtherWithout(w.flight, k, cast.id);
      QuietKeeps(w, Step(w, e, D), cast, levels);
  }

  lemma BroadcastStarts(w: World, e: Event, cast: Cast)
    requires Begins(w, e, cast)
    ensures FloodOk(AfterBroadcast(w, e), cast, map[cast.origin := 0])
  {
    var v, levels := AfterBroadcast(w, e), map[cast.origin := 0];
    var m := NewEnvelope(cast.origin, cast.id, cast.kind, cast.payload, cast.destination);
    forall c | c in v.flight && IsCopyOf(c, cast.id)
      ensures CopyOkIn(cast, levels, c)
    {
      InCopies(cast.topo[cast.origin], m, c);
      assert cast.origin in levels && c.to in Links(cast, cast.origin);
    }
    forall x | x in cast.topo[cast.origin]
      ensures OnItsWay(v, cast.id, x, 0)
    {
      InCopies(cast.topo[cast.origin], m, Copy(x, m));
      assert Copy(x, m) in v.flight && IsCopyOf(Copy(x, m), cast.id);
    }
  }

  lemma {:induction false} FloodKeeps(ws: seq<World>, es: seq<Event>, D: nat, cast: Cast,
                                      i: nat)
    requires Flood(ws, es, D, cast) && 0 < i <= |es|
    ensures FloodOk(ws[i], cast, LevelsAt(ws, es, cast.id, i))
  {
    assert IsStep(ws[i - 1], es[i - 1], ws[i], D);
    if i == 1 {
      BroadcastStarts(ws[0], es[0], cast);
      assert LevelsAt(ws, es, cast.id, 0) == map[];
      assert LevelsAt(ws, es, cast.id, 1) == map[cast.origin := 0];
    } else {
      FloodKeeps(ws, es, D, cast, i - 1);
      StepKeepsFloodOk(ws[i - 1], es[i - 1], D, cast, LevelsAt(ws, es, cast.id, i - 1));
    }
  }

  // ---- Any order ----

  /** Once every copy has arrived, a node other than the origin has handled the message if and only if it is a peer of
      one that handled it with hops left, whatever the order of delivery. */
  lemma ReachedIff(ws: seq<World>, es: seq<Event>, D: nat, cast: Cast, v: Id)
    requires Flood(ws, es, D, cast) && Arrived(ws[|es|], cast.id) && v in cast.topo && v != cast.origin
    ensures v in LevelsAt(ws, es, cast.id, |es|) <==> PeerOfReached(cast, LevelsAt(ws, es, cast.id, |es|), v, MAX_HOPS)
  {
    FloodKeeps(ws, es, D, cast, |es|);
    var w, levels := ws[|es|], LevelsAt(ws, es, cast.id, |es|);
    assert LevelOk(cast, levels, v);
    if PeerOfReached(cast, levels, v, MAX_HOPS) {
      var u :| u in levels && v in Links(cast, u) && levels[u] <= MAX_HOPS;
      assert PassedOn(w, cast, levels, u);
    }
  }

  /** No order of delivery takes the message further than MAX_HOPS + 1 links, or reports fewer links than there are. */
  lemma ReachedIsNear(ws: seq<World>, es: seq<Event>, D: nat, cast: Cast, i: nat, v: Id)
    requires Flood(ws, es, D, cast) && 0 < i <= |es| && v in LevelsAt(ws, es, cast.id, i)
    ensures LevelsAt(ws, es, cast.id, i)[v] <= MAX_HOPS + 1 && Near(cast, v, LevelsAt(ws, es, cast.id, i)[v])
  {
    FloodKeeps(ws, es, D, cast, i);
    assert LevelOk(cast, LevelsAt(ws, es, cast.id, i), v);
  }

  // ---- In order of hop counts ----

  /** A copy of the message is delivered only when none with fewer hops is on its way. */
  ghost predicate InOrder(w: World, e: Event, id: Id) {
    e.Receive? && e.k < |w.flight| && IsCopyOf(w.flight[e.k], id) ==>
      forall c :: c in w.flight && IsCopyOf(c, id) ==> Hops(w.flight[e.k].msg) <= Hops(c.msg)
  }

  /** No node is nearer to the origin than the levels say. */
  ghost predicate Shortest(cast: Cast, levels: Levels) {
    forall v, d: nat :: v in levels && Near(cast, v, d) ==> levels[v] <= d
  }

  /** While every copy on its way has `hops` hops or more, all nodes within `hops` links have been reached. */
  lemma {:induction false} ReachedBelow(w: World, cast: Cast, levels: Levels, hops: nat, v: Id,
                                        d: nat)
    requires FloodOk(w, cast, levels) && Shortest(cast, levels)
    requires forall c :: c in w.flight && IsCopyOf(c, cast.id) ==> hops <= Hops(c.msg)
    requires v in cast.topo && Near(cast, v, d) && d <= hops && d <= MAX_HOPS + 1
    ensures v in levels
    decreases d
  {
    if v != cast.origin {
      var u :| v in Links(cast, u) && Near(cast, u, d - 1);
      ReachedBelow(w, cast, levels, hops, u, d - 1);
      assert levels[u] <= d - 1;
      assert PassedOn(w, cast, levels, u);
    }
  }

  lemma InOrderKeepsShortest(w: World, e: Event, cast: Cast, levels: Levels)
    requires FloodOk(w, cast, levels) && Shortest(cast, levels) && InOrder(w, e, cast.id)
    requires Spreads(w, e, cast)
    ensures Shortest(cast, LevelsAfter(levels, w, e, cast.id))
  {
    var levels' := LevelsAfter(levels, w, e, cast.id);
    if levels' != levels {
      var c := w.flight[e.k];
      assert c in w.flight;
      assert CopyOkIn(cast, levels, c);
      var h := c.msg.hopCount.value;
      forall v, d: nat | v in levels' && Near(cast, v, d)
        ensures levels'[v] <= d
      {
        if v == c.to && d <= h {
          ReachedBelow(w, cast, levels, h, v, d);
        }
      }
    }
  }

  lemma {:induction false} OrderedShortest(ws: seq<World>, es: seq<Event>, D: nat, cast: Cast,
                                           i: nat)
    requires Flood(ws, es, D, cast) && 0 < i <= |es|
    requires forall j :: 0 < j < |es| ==> InOrder(ws[j], es[j], cast.id)
    ensures Shortest(cast, LevelsAt(ws, es, cast.id, i))
  {
    if i == 1 {
      assert LevelsAt(ws, es, cast.id, 0) == map[];
      assert LevelsAt(ws, es, cast.id, 1) == map[cast.origin := 0];
    } else {
      OrderedShortest(ws, es, D, cast, i - 1);
      FloodKeeps(ws, es, D, cast, i - 1);
      InOrderKeepsShortest(ws[i - 1], es[i - 1], cast, LevelsAt(ws, es, cast.id, i - 1));
    }
  }

  /** Delivered in order of hop counts, the message reaches exactly the nodes within MAX_HOPS + 1 links of the origin,
      each over as few links as there can be. */
  lemma OrderedFloodCovers(ws: seq<World>, es: seq<Event>, D: nat, cast: Cast, v: Id)
    requires Flood(ws, es, D, cast) && Arrived(ws[|es|], cast.id) && v in cast.topo
    requires forall j :: 0 < j < |es| ==> InOrder(ws[j], es[j], cast.id)
    ensures v in LevelsAt(ws, es, cast.id, |es|) <==> Near(cast, v, MAX_HOPS + 1)
    ensures v in LevelsAt(ws, es, cast.id, |es|) ==>
              forall d: nat :: Near(cast, v, d) <==> LevelsAt(ws, es, cast.id, |es|)[v] <= d
  {
    FloodKeeps(ws, es, D, cast, |es|);
    OrderedShortest(ws, es, D, cast, |es|);
    var levels := LevelsAt(ws, es, cast.id, |es|);
    assert LevelOk(cast, levels, v);
    if Near(cast, v, MAX_HOPS + 1) {
      ReachedBelow(ws[|es|], cast, levels, MAX_HOPS + 1, v, MAX_HOPS + 1);
    }
    if v in levels {
      NearMore(cast, v, levels[v], MAX_HOPS + 1);
      forall d: nat | levels[v] <= d
        ensures Near(cast, v, d)
      {
        NearMore(cast, v, levels[v], d);
      }
    }
  }

  // ---- Who gets the payload ----

  /** A handler at `v` is called with the payload of the message. */
  predicate DeliversAt(w: World, e: Event, cast: Cast, v: Id) {
    && HandledAt(w, e, cast, v)
    && Delivered(v, w.nodes[v].seen, w.nodes[v].handlers, Some(w.flight[e.k].msg), e.now) == Some(cast.payload)
  }

  /** `v` handles a copy of the message. */
  predicate HandledAt(w: World, e: Event, cast: Cast, v: Id) {
    && e.Receive? && e.k < |w.flight| && IsCopyOf(w.flight[e.k], cast.id) && w.flight[e.k].to == v && v in w.nodes
    && Handles(w.nodes[v].seen, Some(w.flight[e.k].msg), e.now)
  }

  ghost predicate HandledBefore(ws: seq<World>, es: seq<Event>, cast: Cast, i: nat, v: Id)
    requires i <= |es| < |ws|
  {
    exists j :: 0 < j < i && HandledAt(ws[j], es[j], cast, v)
  }

  lemma HandledOneMore(ws: seq<World>, es: seq<Event>, cast: Cast, i: nat, v: Id)
    requires 0 < i < |es| < |ws|
    ensures HandledBefore(ws, es, cast, i + 1, v)
       <==> HandledBefore(ws, es, cast, i, v) || HandledAt(ws[i], es[i], cast, v)
  {
  }

  ghost predicate EverDelivered(ws: seq<World>, es: seq<Event>, cast: Cast, v: Id)
    requires |ws| == |es| + 1
  {
    exists j :: 0 < j < |es| && DeliversAt(ws[j], es[j], cast, v)
  }

  /** The nodes where the payload may go to a handler. */
  predicate IsFor(cast: Cast, v: Id) {
    cast.destination == "ALL" || cast.destination == v
  }

  lemma LevelStep(w: World, e: Event, cast: Cast, levels: Levels, v: Id)
    requires FloodOk(w, cast, levels) && Spreads(w, e, cast)
    ensures v in LevelsAfter(levels, w, e, cast.id) <==> v in levels || HandledAt(w, e, cast, v)
  {
    if e.Receive? && e.k < |w.flight| && IsCopyOf(w.flight[e.k], cast.id) {
      assert w.flight[e.k] in w.flight;
      assert CopyOkIn(cast, levels, w.flight[e.k]);
    }
  }

  lemma FirstLevels(ws: seq<World>, es: seq<Event>, D: nat, cast: Cast, i: nat)
    requires Flood(ws, es, D, cast) && i == 1
    ensures LevelsAt(ws, es, cast.id, i) == map[cast.origin := 0]
  {
    assert LevelsAt(ws, es, cast.id, i - 1) == map[];
  }

  /** A node other than the origin has a level exactly when it has handled a copy. */
  lemma {:induction false} ReachedIsHandled(ws: seq<World>, es: seq<Event>, D: nat, cast: Cast, i: nat, v: Id)
    requires Flood(ws, es, D, cast) && 0 < i <= |es| && v != cast.origin
    ensures v in LevelsAt(ws, es, cast.id, i) <==> HandledBefore(ws, es, cast, i, v)
  {
    if i == 1 {
      FirstLevels(ws, es, D, cast, i);
    } else {
      ReachedIsHandled(ws, es, D, cast, i - 1, v);
      FloodKeeps(ws, es, D, cast, i - 1);
      LevelStep(ws[i - 1], es[i - 1], cast, LevelsAt(ws, es, cast.id, i - 1), v);
      HandledOneMore(ws, es, cast, i - 1, v);
    }
  }

  lemma {:induction false} HandlersStay(ws: seq<World>, es: seq<Event>, D: nat, i: nat, v: Id)
    requires Run(ws, es, D) && i <= |es| && v in ws[0].nodes
    ensures v in ws[i].nodes && ws[i].nodes[v].handlers == ws[0].nodes[v].handlers
  {
    if i > 0 {
      HandlersStay(ws, es, D, i - 1, v);
      assert IsStep(ws[i - 1], es[i - 1], ws[i], D);
    }
  }

  /** Handling a copy gives its payload to the handler for its type, at the nodes it is for. */
  lemma HandlingDelivers(ws: seq<World>, es: seq<Event>, D: nat, cast: Cast, j: nat, v: Id)
    requires Flood(ws, es, D, cast) && 0 < j < |es| && HandledAt(ws[j], es[j], cast, v)
    ensures v in ws[0].nodes
    ensures var w, e := ws[j], es[j];
            Delivered(v, w.nodes[v].seen, w.nodes[v].handlers, Some(w.flight[e.k].msg), e.now)
            == if IsFor(cast, v) && cast.kind in ws[0].nodes[v].handlers then Some(cast.payload) else None
  {
    FloodKeeps(ws, es, D, cast, j);
    assert ws[j].flight[es[j].k] in ws[j].flight;
    assert CopyOkIn(cast, LevelsAt(ws, es, cast.id, j), ws[j].flight[es[j].k]);
    HandlersStay(ws, es, D, j, v);
  }

  /** In any order of delivery, the payload goes to a handler at exactly the reached nodes that it is for and that have
      one. */
  lemma DeliveredIff(ws: seq<World>, es: seq<Event>, D: nat, cast: Cast, v: Id)
    requires Flood(ws, es, D, cast) && v in cast.topo && v != cast.origin
    ensures EverDelivered(ws, es, cast, v) <==>
      && v in LevelsAt(ws, es, cast.id, |es|) && IsFor(cast, v) && cast.kind in ws[0].nodes[v].handlers
  {
    ReachedIsHandled(ws, es, D, cast, |es|, v);
    forall j | 0 < j < |es| && HandledAt(ws[j], es[j], cast, v)
      ensures DeliversAt(ws[j], es[j], cast, v) <==> IsFor(cast, v) && cast.kind in ws[0].nodes[v].handlers
    {
      HandlingDelivers(ws, es, D, cast, j, v);
    }
  }

  /** A message to one node, delivered in order of hop counts, gets to a handler there exactly when the node is within
      MAX_HOPS + 1 links, and to no handler elsewhere. */
  lemma OneDestination(ws: seq<World>, es: seq<Event>, D: nat, cast: Cast, v: Id)
    requires Flood(ws, es, D, cast) && Arrived(ws[|es|], cast.id) && v in cast.topo && v != cast.origin
    requires forall j :: 0 < j < |es| ==> InOrder(ws[j], es[j], cast.id)
    requires cast.destination != "ALL"
    ensures EverDelivered(ws, es, cast, v) <==>
      && v == cast.destination && cast.kind in ws[0].nodes[v].handlers && Near(cast, v, MAX_HOPS + 1)
  {
    DeliveredIff(ws, es, D, cast, v);
    OrderedFloodCovers(ws, es, D, cast, v);
  }
}

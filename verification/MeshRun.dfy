/** The whole mesh: message copies in flight between any number of nodes, over any topology that may
    change at every step. */
module MeshRuns {
  import opened Wrappers
  import opened Mesh

  /** A copy of an envelope on its way to a node. */
  datatype Copy = Copy(to: Id, msg: Envelope)

  datatype Node = Node(seen: map<Id, int>, handlers: set<string>)

  datatype World = World(nodes: map<Id, Node>, flight: seq<Copy>)

  /** `peers` are the peers known to the acting node at that moment. `Receive` and `Lose` consume the
      k-th copy in flight. */
  datatype Event =
    | Broadcast(node: Id, freshId: Id, kind: string, payload: string, destination: Id, peers: seq<Id>, now: int)
    | Receive(k: nat, peers: seq<Id>, handlerOk: bool, now: int)
    | Lose(k: nat)

  function Copies(peers: seq<Id>, m: Envelope): seq<Copy> {
    if peers == [] then [] else [Copy(peers[0], m)] + Copies(peers[1..], m)
  }

  function Without(flight: seq<Copy>, k: nat): seq<Copy>
    requires k < |flight|
  {
    flight[..k] + flight[k + 1..]
  }

  /** At most D peers are known to any node at any time. */
  predicate Allowed(w: World, e: Event, D: nat) {
    match e
    case Broadcast(node, _, _, _, _, peers, _) => node in w.nodes && |peers| <= D
    case Receive(k, peers, _, _) => k < |w.flight| && |peers| <= D
    case Lose(k) => k < |w.flight|
  }

  function AfterBroadcast(w: World, e: Event): World
    requires e.Broadcast? && e.node in w.nodes
  {
    var n := w.nodes[e.node];
    World(w.nodes[e.node := n.(seen := n.seen[e.freshId := e.now])],
          w.flight + Copies(e.peers, NewEnvelope(e.node, e.freshId, e.kind, e.payload, e.destination)))
  }

  /** A copy addressed to an unknown node is lost. */
  function AfterReceive(w: World, e: Event): World
    requires e.Receive? && e.k < |w.flight|
  {
    var c := w.flight[e.k];
    var rest := Without(w.flight, e.k);
    if c.to !in w.nodes then w.(flight := rest)
    else
      var n := w.nodes[c.to];
      var relay := if Handles(n.seen, Some(c.msg), e.now) then Relay(c.to, n.handlers, c.msg, e.handlerOk) else None;
      World(w.nodes[c.to := n.(seen := SeenAfter(n.seen, Some(c.msg), e.now))],
            if relay.Some? then rest + Copies(e.peers, relay.value) else rest)
  }

  function Step(w: World, e: Event, ghost D: nat): World
    requires Allowed(w, e, D)
  {
    match e
    case Broadcast(_, _, _, _, _, _, _) => AfterBroadcast(w, e)
    case Receive(_, _, _, _) => AfterReceive(w, e)
    case Lose(k) => w.(flight := Without(w.flight, k))
  }

  ghost predicate IsStep(u: World, e: Event, w: World, D: nat) {
    Allowed(u, e, D) && w == Step(u, e, D)
  }

  ghost predicate Run(ws: seq<World>, es: seq<Event>, D: nat) {
    |ws| == |es| + 1 && forall i :: 0 <= i < |es| ==> IsStep(ws[i], es[i], ws[i + 1], D)
  }

  // ---- Termination ----

  function Pow(b: nat, e: nat): (p: nat)
    ensures b > 0 ==> p > 0
  {
    if e == 0 then 1 else b * Pow(b, e - 1)
  }

  /** How many copies, at most, one copy can still give rise to, itself included. */
  function Weight(m: Envelope, D: nat): nat {
    if Hops(m) < HopLimit(m) then Pow(D + 1, HopLimit(m) - Hops(m)) else 1
  }

  function Measure(flight: seq<Copy>, D: nat): nat {
    if flight == [] then 0 else Weight(flight[0].msg, D) + Measure(flight[1..], D)
  }

  lemma {:induction false} MeasureAppend(a: seq<Copy>, b: seq<Copy>, D: nat)
    ensures Measure(a + b, D) == Measure(a, D) + Measure(b, D)
  {
    if a == [] {
      assert a + b == b;
    } else {
      assert (a + b)[1..] == a[1..] + b;
      MeasureAppend(a[1..], b, D);
    }
  }

  lemma MeasureWithout(flight: seq<Copy>, k: nat, D: nat)
    requires k < |flight|
    ensures Measure(Without(flight, k), D) + Weight(flight[k].msg, D) == Measure(flight, D)
  {
    MeasureAppend(flight[..k], flight[k + 1..], D);
    MeasureAppend(flight[..k], flight[k..], D);
    assert flight == flight[..k] + flight[k..];
    assert flight[k..][1..] == flight[k + 1..];
  }

  lemma {:induction false} MeasureCopies(peers: seq<Id>, m: Envelope, D: nat)
    ensures Measure(Copies(peers, m), D) == |peers| * Weight(m, D)
  {
    if peers != [] {
      MeasureCopies(peers[1..], m, D);
      var first := [Copy(peers[0], m)];
      assert Copies(peers, m) == first + Copies(peers[1..], m);
      assert Copies(peers, m)[1..] == Copies(peers[1..], m);
      MulSuccessor(|peers| - 1, Weight(m, D));
    }
  }

  lemma MulSuccessor(n: nat, x: nat)
    ensures (n + 1) * x == n * x + x
  {
  }

  lemma MulMonotone(a: nat, b: nat, x: nat)
    requires a <= b
    ensures a * x <= b * x
  {
  }

  /** The copies a relay sends out weigh strictly less than the copy it handled. */
  lemma RelayWeighsLess(self: Id, handlers: set<string>, m: Envelope, handlerOk: bool, peers: seq<Id>, D: nat)
    requires Relay(self, handlers, m, handlerOk).Some? && |peers| <= D
    ensures |peers| * Weight(Relay(self, handlers, m, handlerOk).value, D) < Weight(m, D)
  {
    var r := Relay(self, handlers, m, handlerOk).value;
    var left := HopLimit(m) - Hops(m) - 1;
    var p := Pow(D + 1, left);
    assert Hops(r) == Hops(m) + 1 && HopLimit(r) == HopLimit(m);
    assert Weight(r, D) == p;
    MulMonotone(|peers|, D, p);
    MulSuccessor(D, p);
  }

  /** Receiving or losing a copy decreases the measure, whatever node, peers and clock. */
  lemma ConsumingDecreases(w: World, e: Event, D: nat)
    requires Allowed(w, e, D) && !e.Broadcast?
    ensures Measure(Step(w, e, D).flight, D) < Measure(w.flight, D)
  {
    MeasureWithout(w.flight, e.k, D);
    var c := w.flight[e.k];
    assert Weight(c.msg, D) > 0;
    if e.Receive? && c.to in w.nodes {
      var n := w.nodes[c.to];
      if Handles(n.seen, Some(c.msg), e.now) {
        var relay := Relay(c.to, n.handlers, c.msg, e.handlerOk);
        if relay.Some? {
          RelayWeighsLess(c.to, n.handlers, c.msg, e.handlerOk, e.peers, D);
          MeasureCopies(e.peers, relay.value, D);
          MeasureAppend(Without(w.flight, e.k), Copies(e.peers, relay.value), D);
        }
      }
    }
  }

  lemma BroadcastAdds(w: World, e: Event, D: nat)
    requires Allowed(w, e, D) && e.Broadcast?
    ensures Measure(Step(w, e, D).flight, D) <= Measure(w.flight, D) + Cost(D)
  {
    var m := NewEnvelope(e.node, e.freshId, e.kind, e.payload, e.destination);
    MeasureAppend(w.flight, Copies(e.peers, m), D);
    MeasureCopies(e.peers, m, D);
    MulMonotone(|e.peers|, D, Pow(D + 1, MAX_HOPS));
  }

  function Broadcasts(es: seq<Event>): nat {
    if es == [] then 0
    else Broadcasts(es[..|es| - 1]) + if es[|es| - 1].Broadcast? then 1 else 0
  }

  /** The most a broadcast can add to the measure. */
  function Cost(D: nat): nat {
    D * Pow(D + 1, MAX_HOPS)
  }

  /** The books of the measure, for one broadcast and for one reception or loss. */
  lemma Booked(before: nat, after: nat, consumed: int, start: nat, broadcasts: nat, cost: nat)
    requires before + consumed <= start + broadcasts * cost
    ensures after <= before + cost ==> after + consumed <= start + (broadcasts + 1) * cost
    ensures after < before ==> after + (consumed + 1) <= start + broadcasts * cost
  {
    MulSuccessor(broadcasts, cost);
  }

  lemma {:induction false} MeasureBound(ws: seq<World>, es: seq<Event>, D: nat, i: nat)
    requires Run(ws, es, D) && i <= |es|
    ensures Broadcasts(es[..i]) <= i
    ensures Measure(ws[i].flight, D) + (i - Broadcasts(es[..i]))
         <= Measure(ws[0].flight, D) + Broadcasts(es[..i]) * Cost(D)
  {
    if i > 0 {
      MeasureBound(ws, es, D, i - 1);
      assert es[..i][..i - 1] == es[..i - 1];
      assert IsStep(ws[i - 1], es[i - 1], ws[i], D);
      var b := Broadcasts(es[..i - 1]);
      var before, after := Measure(ws[i - 1].flight, D), Measure(ws[i].flight, D);
      Booked(before, after, i - 1 - b, Measure(ws[0].flight, D), b, Cost(D));
      if es[i - 1].Broadcast? {
        BroadcastAdds(ws[i - 1], es[i - 1], D);
      } else {
        ConsumingDecreases(ws[i - 1], es[i - 1], D);
      }
    }
  }

  /** The mesh stops: in every run, over every topology with at most D peers per node and in every
      order of events, the number of receptions and losses is at most what was in flight at the start
      plus D (D+1)^MAX_HOPS for each broadcast. */
  lemma FloodTerminates(ws: seq<World>, es: seq<Event>, D: nat)
    requires Run(ws, es, D)
    ensures |es| - Broadcasts(es)
         <= Measure(ws[0].flight, D) + Broadcasts(es) * Cost(D)
  {
    MeasureBound(ws, es, D, |es|);
    assert es[..|es|] == es;
  }

  // ---- What travels ----

  predicate NoDuplicates(s: seq<Id>) {
    forall i, j :: 0 <= i < j < |s| ==> s[i] != s[j]
  }

  /** A copy that descends from a broadcast: 0 <= hop_count <= max_hops == MAX_HOPS, and seen_by is
      duplicate-free, not empty and no longer than hop_count + 1. */
  predicate CopyOk(m: Envelope) {
    && m.hopCount.Some? && m.seenBy.Some? && m.maxHops == Some(MAX_HOPS)
    && 0 <= m.hopCount.value <= MAX_HOPS
    && NoDuplicates(m.seenBy.value)
    && 1 <= |m.seenBy.value| <= m.hopCount.value + 1
  }

  ghost predicate FlightOk(w: World) {
    forall c :: c in w.flight ==> CopyOk(c.msg)
  }

  lemma {:induction false} CopiesAre(peers: seq<Id>, m: Envelope)
    ensures forall c :: c in Copies(peers, m) ==> c.msg == m
  {
    if peers != [] {
      CopiesAre(peers[1..], m);
    }
  }

  lemma RelayKeepsCopyOk(self: Id, handlers: set<string>, m: Envelope, handlerOk: bool)
    requires CopyOk(m) && Relay(self, handlers, m, handlerOk).Some?
    ensures CopyOk(Relay(self, handlers, m, handlerOk).value)
    ensures self in Relay(self, handlers, m, handlerOk).value.seenBy.value
  {
  }

  lemma StepKeepsFlightOk(u: World, e: Event, w: World, D: nat)
    requires FlightOk(u) && IsStep(u, e, w, D)
    ensures FlightOk(w)
  {
    match e
    case Broadcast(node, freshId, kind, payload, destination, peers, _) =>
      CopiesAre(peers, NewEnvelope(node, freshId, kind, payload, destination));
    case Receive(k, peers, handlerOk, now) =>
      var c := u.flight[k];
      assert c in u.flight;
      if c.to in u.nodes {
        var n := u.nodes[c.to];
        var relay := Relay(c.to, n.handlers, c.msg, handlerOk);
        if Handles(n.seen, Some(c.msg), now) && relay.Some? {
          RelayKeepsCopyOk(c.to, n.handlers, c.msg, handlerOk);
          CopiesAre(peers, relay.value);
        }
      }
    case Lose(k) =>
  }

  /** In every run that starts with nothing in flight, every copy is well formed: its hop count never
      exceeds the limit, and its seen_by list has no duplicates and at most hop_count + 1 entries. */
  lemma {:induction false} EveryCopyOk(ws: seq<World>, es: seq<Event>, D: nat, i: nat)
    requires Run(ws, es, D) && ws[0].flight == [] && i <= |es|
    ensures FlightOk(ws[i])
  {
    if i > 0 {
      EveryCopyOk(ws, es, D, i - 1);
      StepKeepsFlightOk(ws[i - 1], es[i - 1], ws[i], D);
    }
  }
}

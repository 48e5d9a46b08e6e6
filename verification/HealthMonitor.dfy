/** swarm/health_monitor.py: the status of every known peer, from the pings of each round. Times are integer
    microseconds; one clock reading serves one ping. */
module HealthMonitors {
  import opened Wrappers

  const SECOND: int := 1_000_000
  const FLAPPING_WINDOW: int := 60 * SECOND
  const FLAPPING_THRESHOLD: nat := 5
  const HISTORY: nat := 20
  const DEAD_THRESHOLD: int := 30 * SECOND
  const MAX_RETRIES: nat := 3

  datatype Status = Alive | Degraded | Dead | Reconnecting | Flapping

  datatype Health = Health(status: Status, lastSeen: int, failCount: nat, pingCount: nat, responseMs: int)

  datatype Change = Change(at: int, status: Status)

  /** All the monitor knows of one node. */
  datatype Node = Node(health: Option<Health>, pending: bool, changes: seq<Change>)

  const UNKNOWN := Node(None, false, [])

  /** The outcome of one ping; `trusted` is what a handshake validation would say. */
  datatype Probe = Probe(success: bool, ms: int, trusted: bool, now: int)

  // ---- hysteresis ----

  function Recent(changes: seq<Change>, now: int): nat {
    if changes == [] then 0
    else Recent(changes[..|changes| - 1], now) + if now - changes[|changes| - 1].at < FLAPPING_WINDOW then 1 else 0
  }

  predicate IsFlapping(changes: seq<Change>, now: int) {
    Recent(changes, now) >= FLAPPING_THRESHOLD
  }

  function Last(changes: seq<Change>, n: nat): seq<Change> {
    if |changes| > n then changes[|changes| - n..] else changes
  }

  /** _record_state_change; `keep` bounds the history, None keeps it all. */
  function Record(changes: seq<Change>, status: Status, now: int, keep: Option<nat>): seq<Change> {
    var longer := changes + [Change(now, status)];
    if keep.None? then longer else Last(longer, keep.value)
  }

  // ---- one node ----

  function NewHealth(now: int): Health {
    Health(Alive, now, 0, 0, 0)
  }

  function OnSuccess(n: Node, h: Health, p: Probe, keep: Option<nat>): Node {
    if h.status == Dead then
      Node(Some(h.(status := Reconnecting)), true, Record(n.changes, Reconnecting, p.now, keep))
    else if n.pending then
      if p.trusted then
        Node(Some(h.(status := Alive, lastSeen := p.now, failCount := 0)), false,
             Record(n.changes, Alive, p.now, keep))
      else n.(health := Some(h))
    else if IsFlapping(n.changes, p.now) then n.(health := Some(h.(status := Flapping)))
    else
      Node(Some(h.(status := Alive, lastSeen := p.now, failCount := 0)), n.pending,
           if h.status != Alive then Record(n.changes, Alive, p.now, keep) else n.changes)
  }

  function OnFailure(n: Node, h: Health, p: Probe, keep: Option<nat>): Node {
    var failed := h.(failCount := h.failCount + 1);
    if failed.failCount < MAX_RETRIES then n.(health := Some(failed.(status := Degraded)))
    else if h.status == Dead then n.(health := Some(failed))
    else n.(health := Some(failed.(status := Dead)), changes := Record(n.changes, Dead, p.now, keep))
  }

  /** The body of the peer loop. */
  function Ping(n: Node, p: Probe, keep: Option<nat>): Node {
    var known := if n.health.Some? then n.health.value else NewHealth(p.now);
    var counted := known.(pingCount := known.pingCount + 1);
    if p.success then OnSuccess(n, counted.(responseMs := p.ms), p, keep) else OnFailure(n, counted, p, keep)
  }

  predicate TimesOut(n: Node, now: int) {
    && n.health.Some?
    && now - n.health.value.lastSeen > DEAD_THRESHOLD
    && n.health.value.status !in {Dead, Reconnecting}
  }

  /** The check for silent nodes at the end of a round. */
  function Sweep(n: Node, now: int, keep: Option<nat>): Node {
    if TimesOut(n, now) then
      n.(health := Some(n.health.value.(status := Dead)), changes := Record(n.changes, Dead, now, keep))
    else n
  }

  /** The ping of one node in a round, if the round has one. */
  function ProbeOf(peers: seq<(string, Probe)>, id: string): Option<Probe> {
    if peers == [] then None
    else if peers[|peers| - 1].0 == id then Some(peers[|peers| - 1].1)
    else ProbeOf(peers[..|peers| - 1], id)
  }

  function AfterPing(n: Node, ping: Option<Probe>): Node {
    if ping.None? then n else Ping(n, ping.value, Some(HISTORY))
  }

  /** A whole round as one node sees it: at most one ping, then the check for silent nodes. */
  function RoundOf(n: Node, ping: Option<Probe>, now: int): Node {
    Sweep(AfterPing(n, ping), now, Some(HISTORY))
  }

  /** The keys of a dictionary of peers. */
  ghost predicate DistinctPeers(peers: seq<(string, Probe)>) {
    forall i, j :: 0 <= i < j < |peers| ==> peers[i].0 != peers[j].0
  }

  lemma {:induction false} NotProbed(peers: seq<(string, Probe)>, id: string)
    requires forall i :: 0 <= i < |peers| ==> peers[i].0 != id
    ensures ProbeOf(peers, id) == None
  {
    if peers != [] {
      NotProbed(peers[..|peers| - 1], id);
    }
  }

  // ---- the class ----

  class HealthMonitor {
    var nodeHealth: map<string, Health>
    var stateChanges: map<string, seq<Change>>
    var rejoinPending: set<string>

    ghost function NodeOf(id: string): Node
      reads this
    {
      Node(if id in nodeHealth then Some(nodeHealth[id]) else None, id in rejoinPending,
           if id in stateChanges then stateChanges[id] else [])
    }

    constructor ()
      ensures forall id :: NodeOf(id) == UNKNOWN
    {
      nodeHealth, stateChanges, rejoinPending := map[], map[], {};
    }

    /** _is_flapping */
    method IsNodeFlapping(id: string, now: int) returns (flapping: bool)
      ensures flapping == IsFlapping(NodeOf(id).changes, now)
    {
      var changes := if id in stateChanges then stateChanges[id] else [];
      var recent := 0;
      for i := 0 to |changes|
        invariant recent == Recent(changes[..i], now)
      {
        assert changes[..i + 1][..i] == changes[..i];
        if now - changes[i].at < FLAPPING_WINDOW {
          recent := recent + 1;
        }
      }
      assert changes[..|changes|] == changes;
      return recent >= FLAPPING_THRESHOLD;
    }

    /** _record_state_change */
    method RecordStateChange(id: string, status: Status, now: int)
      modifies `stateChanges
      ensures NodeOf(id) == old(NodeOf(id)).(changes := Record(old(NodeOf(id)).changes, status, now, Some(HISTORY)))
      ensures forall other :: other != id ==> NodeOf(other) == old(NodeOf(other))
    {
      if id !in stateChanges {
        stateChanges := stateChanges[id := []];
      }
      stateChanges := stateChanges[id := stateChanges[id] + [Change(now, status)]];
      if |stateChanges[id]| > HISTORY {
        stateChanges := stateChanges[id := stateChanges[id][|stateChanges[id]| - HISTORY..]];
      }
    }

    /** The body of the peer loop in _health_loop, for one peer with an address. */
    method OnPing(id: string, p: Probe)
      modifies this
      ensures NodeOf(id) == Ping(old(NodeOf(id)), p, Some(HISTORY))
      ensures forall other :: other != id ==> NodeOf(other) == old(NodeOf(other))
    {
      if id !in nodeHealth {
        nodeHealth := nodeHealth[id := NewHealth(p.now)];
      }
      var h := nodeHealth[id];
      h := h.(pingCount := h.pingCount + 1);
      if p.success {
        h := h.(responseMs := p.ms);
        nodeHealth := nodeHealth[id := h];
        OnPingAnswered(id, p);
      } else {
        h := h.(failCount := h.failCount + 1);
        if h.failCount >= MAX_RETRIES {
          if h.status != Dead {
            nodeHealth := nodeHealth[id := h.(status := Dead)];
            RecordStateChange(id, Dead, p.now);
          } else {
            nodeHealth := nodeHealth[id := h];
          }
        } else {
          nodeHealth := nodeHealth[id := h.(status := Degraded)];
        }
      }
    }

    method OnPingAnswered(id: string, p: Probe)
      requires id in nodeHealth
      modifies this
      ensures NodeOf(id) == OnSuccess(old(NodeOf(id)), old(nodeHealth[id]), p, Some(HISTORY))
      ensures forall other :: other != id ==> NodeOf(other) == old(NodeOf(other))
    {
      var h := nodeHealth[id];
      if h.status == Dead {
        rejoinPending := rejoinPending + {id};
        nodeHealth := nodeHealth[id := h.(status := Reconnecting)];
        RecordStateChange(id, Reconnecting, p.now);
      } else if id in rejoinPending {
        if p.trusted {
          nodeHealth := nodeHealth[id := h.(status := Alive, lastSeen := p.now, failCount := 0)];
          rejoinPending := rejoinPending - {id};
          RecordStateChange(id, Alive, p.now);
        }
      } else {
        var flapping := IsNodeFlapping(id, p.now);
        if flapping {
          nodeHealth := nodeHealth[id := h.(status := Flapping)];
        } else {
          if h.status != Alive {
            RecordStateChange(id, Alive, p.now);
          }
          assert forall other :: other != id ==> NodeOf(other) == old(NodeOf(other));
          nodeHealth := nodeHealth[id := h.(status := Alive, lastSeen := p.now, failCount := 0)];
        }
      }
    }

    /** The second half of a round of _health_loop. */
    method SweepSilent(now: int) returns (timedOut: seq<string>)
      modifies this
      ensures forall id :: NodeOf(id) == Sweep(old(NodeOf(id)), now, Some(HISTORY))
      ensures forall id :: id in timedOut <==> TimesOut(old(NodeOf(id)), now)
    {
      timedOut := [];
      var todo := nodeHealth.Keys;
      while todo != {}
        invariant todo <= nodeHealth.Keys == old(nodeHealth).Keys
        invariant forall id :: id in todo ==> NodeOf(id) == old(NodeOf(id))
        invariant forall id :: id !in todo ==> NodeOf(id) == Sweep(old(NodeOf(id)), now, Some(HISTORY))
        invariant forall id :: id in timedOut <==> id !in todo && TimesOut(old(NodeOf(id)), now)
        decreases todo
      {
        var id :| id in todo;
        var expired := SweepOne(id, now);
        if expired {
          timedOut := timedOut + [id];
        }
        todo := todo - {id};
      }
    }

    method SweepOne(id: string, now: int) returns (expired: bool)
      requires id in nodeHealth
      modifies this
      ensures NodeOf(id) == Sweep(old(NodeOf(id)), now, Some(HISTORY)) && expired == TimesOut(old(NodeOf(id)), now)
      ensures forall other :: other != id ==> NodeOf(other) == old(NodeOf(other))
      ensures nodeHealth.Keys == old(nodeHealth).Keys
    {
      var h := nodeHealth[id];
      expired := now - h.lastSeen > DEAD_THRESHOLD && h.status !in {Dead, Reconnecting};
      if expired {
        nodeHealth := nodeHealth[id := h.(status := Dead)];
        RecordStateChange(id, Dead, now);
      }
    }

    /** One round of _health_loop: ping the peers that have an address, each once, then look for silent nodes. */
    method Round(peers: seq<(string, Probe)>, now: int) returns (timedOut: seq<string>)
      requires DistinctPeers(peers)
      modifies this
      ensures forall id :: NodeOf(id) == RoundOf(old(NodeOf(id)), ProbeOf(peers, id), now)
    {
      for i := 0 to |peers|
        invariant forall id :: NodeOf(id) == AfterPing(old(NodeOf(id)), ProbeOf(peers[..i], id))
      {
        assert peers[..i + 1][..i] == peers[..i];
        NotProbed(peers[..i], peers[i].0);
        OnPing(peers[i].0, peers[i].1);
      }
      assert peers[..|peers|] == peers;
      timedOut := SweepSilent(now);
    }

    /** is_node_trusted */
    method IsNodeTrusted(id: string, now: int) returns (trusted: bool)
      ensures trusted <==> NodeOf(id).health.Some? && NodeOf(id).health.value.status == Alive
                           && !IsFlapping(NodeOf(id).changes, now)
    {
      if id in nodeHealth && nodeHealth[id].status == Alive {
        var flapping := IsNodeFlapping(id, now);
        return !flapping;
      }
      return false;
    }
  }
}

/** swarm/bluetooth_mesh.py: multi-hop flooding with a seen-message cache. */
module Mesh {
  import opened Wrappers

  const MAX_HOPS := 5
  const SEEN_CACHE_TTL := 60

  type Id = string

  /** A mesh envelope as decoded from JSON; a field is absent when the key is missing. */
  datatype Envelope = Envelope(
    msgId: Option<Id>, kind: Option<string>, destination: Option<Id>,
    hopCount: Option<int>, maxHops: Option<int>, payload: Option<string>, seenBy: Option<seq<Id>>)

  function Hops(m: Envelope): int { if m.hopCount.Some? then m.hopCount.value else 0 }
  function HopLimit(m: Envelope): int { if m.maxHops.Some? then m.maxHops.value else MAX_HOPS }
  function Destination(m: Envelope): Id { if m.destination.Some? then m.destination.value else "ALL" }

  function NewEnvelope(origin: Id, freshId: Id, kind: string, payload: string, destination: Id): Envelope {
    Envelope(Some(freshId), Some(kind), Some(destination), Some(0), Some(MAX_HOPS), Some(payload), Some([origin]))
  }

  /** The cache without the entries that are SEEN_CACHE_TTL old or older. */
  function Clean(seen: map<Id, int>, now: int): map<Id, int> {
    map id | id in seen && now - seen[id] < SEEN_CACHE_TTL :: seen[id]
  }

  /** A message with a usable id that the cache does not know is handled: marked, delivered, relayed. */
  predicate Handles(seen: map<Id, int>, raw: Option<Envelope>, now: int) {
    raw.Some? && raw.value.msgId.Some? && raw.value.msgId.value != "" && raw.value.msgId.value !in Clean(seen, now)
  }

  function SeenAfter(seen: map<Id, int>, raw: Option<Envelope>, now: int): map<Id, int> {
    if raw.None? || raw.value.msgId.None? || raw.value.msgId.value == "" then seen
    else if Handles(seen, raw, now) then Clean(seen, now)[raw.value.msgId.value := now]
    else Clean(seen, now)
  }

  predicate Addressed(self: Id, m: Envelope) {
    Destination(m) == "ALL" || Destination(m) == self
  }

  /** Delivery raises when a handler is registered and the payload is missing or the handler itself
      raises; then the message is not relayed. */
  predicate DeliveryRaises(self: Id, handlers: set<string>, m: Envelope, handlerOk: bool) {
    Addressed(self, m) && m.kind.Some? && m.kind.value in handlers && (m.payload.None? || !handlerOk)
  }

  /** The payload that a handler of the node gets, if one gets it. */
  function Delivered(self: Id, seen: map<Id, int>, handlers: set<string>, raw: Option<Envelope>, now: int)
    : Option<string>
  {
    if Handles(seen, raw, now) && Addressed(self, raw.value)
       && raw.value.kind.Some? && raw.value.kind.value in handlers
    then raw.value.payload else None
  }

  function Stamp(self: Id, m: Envelope): Envelope
    requires m.hopCount.Some? && m.seenBy.Some?
  {
    m.(hopCount := Some(m.hopCount.value + 1),
       seenBy := Some(if self in m.seenBy.value then m.seenBy.value else m.seenBy.value + [self]))
  }

  /** What a node sends on after handling `m`; relaying raises when a stamped field is missing. */
  function Relay(self: Id, handlers: set<string>, m: Envelope, handlerOk: bool): Option<Envelope> {
    if DeliveryRaises(self, handlers, m, handlerOk) then None
    else if Hops(m) < HopLimit(m) && Destination(m) != self && m.hopCount.Some? && m.seenBy.Some?
    then Some(Stamp(self, m))
    else None
  }

  class BluetoothMesh {
    const nodeId: Id
    var seen: map<Id, int>
    var handlers: set<string>

    constructor (nodeId: Id)
      ensures this.nodeId == nodeId && seen == map[] && handlers == {}
    {
      this.nodeId, seen, handlers := nodeId, map[], {};
    }

    method CleanSeen(now: int)
      modifies `seen
      ensures seen == Clean(old(seen), now)
    {
      seen := map id | id in seen && now - seen[id] < SEEN_CACHE_TTL :: seen[id];
    }

    method IsSeen(id: Id, now: int) returns (yes: bool)
      modifies `seen
      ensures seen == Clean(old(seen), now) && yes == (id in seen)
    {
      CleanSeen(now);
      yes := id in seen;
    }

    method MarkSeen(id: Id, now: int)
      modifies `seen
      ensures seen == old(seen)[id := now]
    {
      seen := seen[id := now];
    }

    /** `freshId` is the uuid drawn by the call; the result goes to every known peer. */
    method Broadcast(freshId: Id, kind: string, payload: string, destination: Id, now: int) returns (m: Envelope)
      modifies `seen
      ensures m == NewEnvelope(nodeId, freshId, kind, payload, destination)
      ensures seen == old(seen)[freshId := now]
    {
      m := Envelope(Some(freshId), Some(kind), Some(destination), Some(0), Some(MAX_HOPS), Some(payload),
                    Some([nodeId]));
      MarkSeen(freshId, now);
    }

    /** `delivered` is the payload passed to a handler, `relay` what goes to every known peer. */
    method OnReceive(raw: Option<Envelope>, handlerOk: bool, now: int)
      returns (delivered: Option<string>, relay: Option<Envelope>)
      modifies `seen
      ensures seen == SeenAfter(old(seen), raw, now)
      ensures relay == if Handles(old(seen), raw, now) then Relay(nodeId, handlers, raw.value, handlerOk) else None
      ensures delivered == Delivered(nodeId, old(seen), handlers, raw, now)
    {
      delivered, relay := None, None;
      if raw.None? {
        return;
      }
      var m := raw.value;
      if m.msgId.None? || m.msgId.value == "" {
        return;
      }
      var dup := IsSeen(m.msgId.value, now);
      if dup {
        return;
      }
      MarkSeen(m.msgId.value, now);
      var destination := Destination(m);
      if destination == "ALL" || destination == nodeId {
        if m.kind.Some? && m.kind.value in handlers {
          if m.payload.None? {
            return;
          }
          delivered := m.payload;
          if !handlerOk {
            return;
          }
        }
      }
      if Hops(m) < HopLimit(m) && destination != nodeId {
        if m.hopCount.None? {
          return;
        }
        m := m.(hopCount := Some(m.hopCount.value + 1));
        if m.seenBy.None? {
          return;
        }
        if nodeId !in m.seenBy.value {
          m := m.(seenBy := Some(m.seenBy.value + [nodeId]));
        }
        relay := Some(m);
      }
    }
  }

  // ---- One node over time: at most once per SEEN_CACHE_TTL ----

  /** What happens at one node: anything at all arrives, or the node broadcasts. */
  datatype NodeEvent = Hear(raw: Option<Envelope>, now: int) | Say(freshId: Id, now: int)

  datatype Mark = Mark(id: Id, time: int, handled: bool)

  /** `marks` logs every time the node marked an id: on handling a message or on broadcasting one. */
  datatype NodeRun = NodeRun(seen: map<Id, int>, marks: seq<Mark>, clock: int)

  function NodeStep(r: NodeRun, e: NodeEvent): NodeRun {
    match e
    case Say(id, now) => NodeRun(r.seen[id := now], r.marks + [Mark(id, now, false)], now)
    case Hear(raw, now) =>
      NodeRun(SeenAfter(r.seen, raw, now),
              if Handles(r.seen, raw, now) then r.marks + [Mark(raw.value.msgId.value, now, true)] else r.marks,
              now)
  }

  function RunNode(es: seq<NodeEvent>): NodeRun {
    if es == [] then NodeRun(map[], [], 0) else NodeStep(RunNode(es[..|es| - 1]), es[|es| - 1])
  }

  /** The clock never goes back. */
  ghost predicate Timely(es: seq<NodeEvent>) {
    && (forall i :: 0 <= i < |es| ==> 0 <= es[i].now)
    && (forall i, j :: 0 <= i < j < |es| ==> es[i].now <= es[j].now)
  }

  /** Some mark of `id` is younger than SEEN_CACHE_TTL. */
  ghost predicate Recent(r: NodeRun, id: Id, now: int) {
    exists k :: 0 <= k < |r.marks| && r.marks[k].id == id && now - r.marks[k].time < SEEN_CACHE_TTL
  }

  ghost predicate CacheOk(r: NodeRun) {
    && (forall id :: id in r.seen ==>
          exists k :: 0 <= k < |r.marks| && r.marks[k].id == id && r.marks[k].time == r.seen[id])
    && (forall k :: 0 <= k < |r.marks| ==>
          r.marks[k].time <= r.clock
          && (r.clock - r.marks[k].time >= SEEN_CACHE_TTL
              || (r.marks[k].id in r.seen && r.marks[k].time <= r.seen[r.marks[k].id])))
  }

  lemma MarkedKeepsCacheOk(r: NodeRun, seen: map<Id, int>, mark: Mark)
    requires CacheOk(r) && r.clock <= mark.time
    requires forall id :: id in seen ==> id == mark.id || (id in r.seen && seen[id] == r.seen[id])
    requires mark.id in seen && seen[mark.id] == mark.time
    requires forall id :: id in r.seen && mark.time - r.seen[id] < SEEN_CACHE_TTL ==> id in seen
    ensures CacheOk(NodeRun(seen, r.marks + [mark], mark.time))
  {
    var s := NodeRun(seen, r.marks + [mark], mark.time);
    assert s.marks[|r.marks|] == mark;
    forall id | id in seen && id != mark.id
      ensures exists k :: 0 <= k < |s.marks| && s.marks[k].id == id && s.marks[k].time == seen[id]
    {
      var k :| 0 <= k < |r.marks| && r.marks[k].id == id && r.marks[k].time == r.seen[id];
      assert s.marks[k] == r.marks[k];
    }
  }

  lemma UnmarkedKeepsCacheOk(r: NodeRun, seen: map<Id, int>, now: int)
    requires CacheOk(r) && r.clock <= now
    requires forall id :: id in seen ==> id in r.seen && seen[id] == r.seen[id]
    requires forall id :: id in r.seen && now - r.seen[id] < SEEN_CACHE_TTL ==> id in seen
    ensures CacheOk(NodeRun(seen, r.marks, now))
  {
  }

  lemma NodeStepKeepsCacheOk(r: NodeRun, e: NodeEvent)
    requires CacheOk(r) && r.clock <= e.now
    ensures CacheOk(NodeStep(r, e))
  {
    match e
    case Say(id, now) => MarkedKeepsCacheOk(r, r.seen[id := now], Mark(id, now, false));
    case Hear(raw, now) =>
      if Handles(r.seen, raw, now) {
        MarkedKeepsCacheOk(r, SeenAfter(r.seen, raw, now), Mark(raw.value.msgId.value, now, true));
      } else {
        UnmarkedKeepsCacheOk(r, SeenAfter(r.seen, raw, now), now);
      }
  }

  lemma {:induction false} RunNodeCacheOk(es: seq<NodeEvent>)
    requires Timely(es)
    ensures CacheOk(RunNode(es)) && (es != [] ==> RunNode(es).clock == es[|es| - 1].now)
  {
    if es != [] {
      RunNodeCacheOk(es[..|es| - 1]);
      NodeStepKeepsCacheOk(RunNode(es[..|es| - 1]), es[|es| - 1]);
    }
  }

  /** The cache is exact: after any history, a message is handled if and only if its id was neither
      handled nor broadcast at this node within the last SEEN_CACHE_TTL seconds. */
  lemma HandledIffNotRecent(es: seq<NodeEvent>, m: Envelope, now: int)
    requires Timely(es + [Hear(Some(m), now)])
    requires m.msgId.Some? && m.msgId.value != ""
    ensures Handles(RunNode(es).seen, Some(m), now) <==> !Recent(RunNode(es), m.msgId.value, now)
  {
    var all := es + [Hear(Some(m), now)];
    assert all[..|es|] == es;
    forall i, j | 0 <= i < j < |es|
      ensures es[i].now <= es[j].now
    {
      assert all[i].now <= all[j].now;
    }
    forall i | 0 <= i < |es|
      ensures 0 <= es[i].now <= now
    {
      assert all[i] == es[i] && all[i].now <= all[|es|].now;
    }
    RunNodeCacheOk(es);
  }

  /** At most once: a handling comes at least SEEN_CACHE_TTL after every earlier handling or
      broadcast of the same id at the node, whatever arrives and whenever the clock is read. */
  lemma {:induction false} HandlingsFarApart(es: seq<NodeEvent>, i: nat, j: nat)
    requires Timely(es) && i < j < |RunNode(es).marks|
    requires RunNode(es).marks[i].id == RunNode(es).marks[j].id && RunNode(es).marks[j].handled
    ensures RunNode(es).marks[j].time - RunNode(es).marks[i].time >= SEEN_CACHE_TTL
  {
    var before, e := es[..|es| - 1], es[|es| - 1];
    var r := RunNode(before);
    if j < |r.marks| {
      HandlingsFarApart(before, i, j);
    } else {
      RunNodeCacheOk(before);
      assert r.marks[i].time <= r.clock;
    }
  }
}

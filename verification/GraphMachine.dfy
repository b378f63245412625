// The kernel graph as a state machine over its change log: every operation of the store, what
// each one keeps, and what holds in every reachable state (kernel/src/graph/store.rs).
module GraphMachine {
  import opened Options
  import opened Ordered
  import opened GraphTypes
  import opened GraphLog

  // A change announced to the watches, and how long the log was when it was announced.
  datatype Event = Event(change: GraphChange, at: nat)

  // A watch: the events announced before it was registered (`start`) or last polled (`since`), the
  // changes handed out by its polls, and how many it lost to the bounded queue.
  datatype Watcher = Watcher(owner: Uuid, pattern: NodePattern, start: nat, since: nat,
                             delivered: seq<GraphChange>, dropped: nat)

  datatype Graph = Graph(next: nat, log: Log, events: seq<Event>, watches: map<nat, Watcher>, nextWatch: nat)

  const MAX_WATCH_QUEUE := 1024

  function Empty(): Graph { Graph(1, [], [], map[], 1) }

  // --- Watches --------------------------------------------------------------------------------

  function LastN<T>(s: seq<T>, n: nat): seq<T> {
    if |s| <= n then s else s[|s| - n..]
  }

  function Before(log: Log, n: nat): Log {
    if n <= |log| then log[..n] else log
  }

  // The changes among events[from..] that a watch receives, each judged by the log of its time.
  function Seen(env: Env, log: Log, owner: Uuid, p: NodePattern, events: seq<Event>, from: nat): seq<GraphChange> {
    if |events| <= from then []
    else
      var ev, rest := events[|events| - 1], Seen(env, log, owner, p, events[..|events| - 1], from);
      if Receives(env, Before(log, ev.at), owner, p, ev.change) then rest + [ev.change] else rest
  }

  function Pending(env: Env, g: Graph, w: Watcher): seq<GraphChange> {
    Seen(env, g.log, w.owner, w.pattern, g.events, w.since)
  }

  // The queue a watch holds: the last 1024 pending changes.
  function Queue(env: Env, g: Graph, w: Watcher): seq<GraphChange> {
    LastN(Pending(env, g, w), MAX_WATCH_QUEUE)
  }

  // --- Operations -----------------------------------------------------------------------------

  datatype NodeRequest = NodeRequest(id: Option<Uuid>, labels: seq<Symbol>, props: Map)
  datatype LinkRequest = LinkRequest(id: Option<Uuid>, pred: string, from: Uuid, to: Uuid, props: Map)
  datatype GrantRequest = GrantRequest(grantee: Uuid, target: Uuid, capability: string)
  datatype Batch = Batch(fromRevision: nat, latestRevision: nat, changes: seq<GraphChange>)

  // Appends records and announces one of them.
  function Announce(g: Graph, cs: seq<GraphChange>, c: GraphChange): Graph {
    g.(next := g.next + 1, log := g.log + cs, events := g.events + [Event(c, |g.log| + |cs|)])
  }

  function BundleThing(bundle: Uuid, revision: nat): GraphThing {
    GraphThing(bundle, BUNDLE, {BUNDLE}, map[ID := Id(bundle)], bundle, revision)
  }

  // The bundle's own node, created silently on first use.
  function EnsureBundle(g: Graph, bundle: Uuid): Graph {
    if Versions(g.log, bundle) != [] then g
    else g.(next := g.next + 1, log := g.log + [Thing(BundleThing(bundle, g.next))])
  }

  function RequestedLabels(labels: seq<Symbol>): (r: set<Symbol>)
    ensures r != {}
  {
    if labels == [] then {THING_CREATED}
    else
      var r := set l | l in labels;
      assert labels[0] in r;
      r
  }

  function NewThing(env: Env, owner: Uuid, req: NodeRequest, revision: nat): GraphThing {
    var labels := RequestedLabels(req.labels);
    var kind := Least(labels);
    var props := if OWNER in req.props then req.props else req.props[OWNER := Id(owner)];
    var id := if req.id.Some? then req.id.value else env.thingId(kind, props);
    GraphThing(id, kind, labels, props, owner, revision)
  }

  function OwnershipEdge(env: Env, owner: Uuid, node: Uuid, revision: nat): GraphEdge {
    var props := map[OWNER := Id(owner), DST := Id(node)];
    GraphEdge(env.edgeId(OWNS, props), owner, OWNS, node, props, owner, revision)
  }

  // The ownership edge is in the log before the new thing is announced.
  function FiatNode(env: Env, g: Graph, owner: Uuid, req: NodeRequest): (Graph, GraphThing) {
    var g1 := EnsureBundle(g, owner);
    var t := NewThing(env, owner, req, g1.next);
    (Announce(g1, [Thing(t), Edge(OwnershipEdge(env, owner, t.id, g1.next))], Thing(t)), t)
  }

  // The latest edge to dst.
  function LastTo(es: seq<GraphEdge>, dst: Uuid): Option<GraphEdge> {
    if es == [] then None
    else if es[|es| - 1].dst == dst then Some(es[|es| - 1])
    else LastTo(es[..|es| - 1], dst)
  }

  function NewEdge(env: Env, owner: Uuid, req: LinkRequest, revision: nat): GraphEdge {
    GraphEdge(if req.id.Some? then req.id.value else env.edgeId(req.pred, req.props),
              req.from, req.pred, req.to, req.props, owner, revision)
  }

  function LinkEdge(env: Env, g: Graph, owner: Uuid, req: LinkRequest): (Graph, nat) {
    if !CanLink(env, g.log, owner, req.from, req.to, req.pred) then (g, 0)
    else
      var existing := LastTo(EdgesFrom(g.log, req.from, req.pred), req.to);
      if existing.Some? then (g, existing.value.revision)
      else
        var e := NewEdge(env, owner, req, g.next);
        (Announce(g, [Edge(e)], Edge(e)), g.next)
  }

  predicate IsDataCapability(c: string) { c == CAN_READ || c == CAN_WRITE || c == CAN_LINK }

  predicate IsHardwareCapability(c: string) {
    c == "CAN_HANDLE_IRQ" || c == "CAN_DMA" || c == "CAN_MMIO" || c == "CAN_PORT_IO"
  }

  predicate CanGrant(log: Log, grantor: Uuid, req: GrantRequest) {
    if IsHardwareCapability(req.capability) then grantor == KERNEL
    else IsDataCapability(req.capability) && (grantor == KERNEL || Owns(log, grantor, req.target))
  }

  function CapabilityEdge(env: Env, grantor: Uuid, req: GrantRequest, revision: nat): GraphEdge {
    var props := map[OWNER := Id(grantor), DST := Id(req.target)];
    GraphEdge(env.edgeId(req.capability, props), req.grantee, req.capability, req.target, props, grantor, revision)
  }

  function GrantCapability(env: Env, g: Graph, grantor: Uuid, req: GrantRequest): (Graph, bool) {
    if !CanGrant(g.log, grantor, req) then (g, false)
    else
      var g1 := EnsureBundle(g, req.grantee);
      var e := CapabilityEdge(env, grantor, req, g1.next);
      (Announce(g1, [Edge(e)], Edge(e)), true)
  }

  function SetProps(g: Graph, owner: Uuid, node: Uuid, props: Map): (Graph, bool) {
    var current := Latest(g.log, node);
    if current.None? || !CanWrite(g.log, owner, current.value.id) then (g, false)
    else
      var t := current.value.(fields := current.value.fields + props, revision := g.next);
      (Announce(g, [Thing(t)], Thing(t)), true)
  }

  function RegisterWatch(g: Graph, owner: Uuid, p: NodePattern): (Graph, nat) {
    (g.(watches := g.watches[g.nextWatch := Watcher(owner, p, |g.events|, |g.events|, [], 0)],
        nextWatch := g.nextWatch + 1),
     g.nextWatch)
  }

  function Polled(env: Env, g: Graph, w: Watcher): Watcher {
    var q := Queue(env, g, w);
    w.(since := |g.events|, delivered := w.delivered + q, dropped := w.dropped + |Pending(env, g, w)| - |q|)
  }

  function PollWatch(env: Env, g: Graph, id: nat): (Graph, Option<Batch>) {
    if id !in g.watches || Queue(env, g, g.watches[id]) == [] then (g, None)
    else (g.(watches := g.watches[id := Polled(env, g, g.watches[id])]),
          Some(Batch(0, g.next, Queue(env, g, g.watches[id]))))
  }

  // --- Invariant ------------------------------------------------------------------------------

  ghost predicate IncreasingThings(ts: seq<GraphThing>) {
    forall i, j | 0 <= i < j < |ts| :: ts[i].revision < ts[j].revision
  }

  ghost predicate IncreasingEdges(es: seq<GraphEdge>) {
    forall i, j | 0 <= i < j < |es| :: es[i].revision < es[j].revision
  }

  // Every revision is below the next one; versions and edges are in strictly increasing order.
  ghost predicate LogOrdered(log: Log, next: nat) {
    && (forall c | c in log :: c.Revision() < next)
    && IncreasingEdges(Edges(log))
    && (forall id :: IncreasingThings(Versions(log, id)))
  }

  // Every stored edge is one its recorded owner may link now.
  ghost predicate LogAuthorized(env: Env, log: Log) {
    forall c | c in log && c.Edge? :: CanLink(env, log, c.edge.owner, c.edge.src, c.edge.dst, c.edge.pred)
  }

  ghost predicate EventsOrdered(events: seq<Event>, length: nat, next: nat) {
    && (forall i | 0 <= i < |events| :: events[i].at <= length && events[i].change.Revision() < next)
    && (forall i, j | 0 <= i < j < |events| :: events[i].change.Revision() < events[j].change.Revision())
  }

  // A change handed out was announced before the last poll.
  ghost predicate AnnouncedBefore(c: GraphChange, events: seq<Event>, n: nat) {
    exists k | 0 <= k < |events| && k < n :: events[k].change == c
  }

  ghost predicate WatchSound(env: Env, log: Log, events: seq<Event>, w: Watcher) {
    && w.start <= w.since <= |events|
    && Increasing(w.delivered)
    && (forall c | c in w.delivered :: AnnouncedBefore(c, events, w.since))
    && (forall c | c in w.delivered :: c in Seen(env, log, w.owner, w.pattern, events[..w.since], w.start))
       // Nothing is lost but what the bounded queue dropped.
    && |w.delivered| + w.dropped == |Seen(env, log, w.owner, w.pattern, events[..w.since], w.start)|
    && (w.dropped == 0 ==> w.delivered == Seen(env, log, w.owner, w.pattern, events[..w.since], w.start))
  }

  ghost predicate Sound(env: Env, g: Graph) {
    && 1 <= g.next
    && LogOrdered(g.log, g.next)
    && LogAuthorized(env, g.log)
    && EventsOrdered(g.events, |g.log|, g.next)
    && (forall id | id in g.watches :: id < g.nextWatch && WatchSound(env, g.log, g.events, g.watches[id]))
  }

  // --- What appending keeps -------------------------------------------------------------------

  lemma AddThing(env: Env, log: Log, next: nat, t: GraphThing)
    requires LogOrdered(log, next) && LogAuthorized(env, log)
    requires t.revision < next && forall v | v in Versions(log, t.id) :: v.revision < t.revision
    ensures LogOrdered(log + [Thing(t)], next) && LogAuthorized(env, log + [Thing(t)])
  {
    var log' := log + [Thing(t)];
    hide CanLink, Edges, Versions;
    Appended(log, Thing(t), t.id, 0, "");
    forall id ensures IncreasingThings(Versions(log', id)) {
      Appended(log, Thing(t), id, 0, "");
    }
    forall c | c in log' && c.Edge?
      ensures CanLink(env, log', c.edge.owner, c.edge.src, c.edge.dst, c.edge.pred)
    {
      AuthorityGrows(env, log, log', c.edge.owner, c.edge.src, c.edge.dst, c.edge.pred);
    }
  }

  lemma AddEdge(env: Env, log: Log, next: nat, e: GraphEdge)
    requires LogOrdered(log, next) && LogAuthorized(env, log)
    requires e.revision < next && forall d | d in Edges(log) :: d.revision < e.revision
    requires CanLink(env, log + [Edge(e)], e.owner, e.src, e.dst, e.pred)
    ensures LogOrdered(log + [Edge(e)], next) && LogAuthorized(env, log + [Edge(e)])
  {
    var log' := log + [Edge(e)];
    Appended(log, Edge(e), 0, 0, "");
    forall id ensures IncreasingThings(Versions(log', id)) {
      Appended(log, Edge(e), id, 0, "");
    }
    forall c | c in log' && c.Edge?
      ensures CanLink(env, log', c.edge.owner, c.edge.src, c.edge.dst, c.edge.pred)
    {
      AuthorityGrows(env, log, log', c.edge.owner, c.edge.src, c.edge.dst, c.edge.pred);
    }
  }

  lemma Later(log: Log, next: nat)
    requires LogOrdered(log, next)
    ensures LogOrdered(log, next + 1)
  {
  }

  // Records with the next revision are newer than everything stored.
  lemma NextIsNewest(log: Log, next: nat, id: Uuid)
    requires LogOrdered(log, next)
    ensures forall v | v in Versions(log, id) :: v.revision < next
    ensures forall e | e in Edges(log) :: e.revision < next
  {
    Members(log, id, 0, "");
    assert forall v | v in Versions(log, id) :: Thing(v).Revision() < next;
    assert forall e | e in Edges(log) :: Edge(e).Revision() < next;
  }

  // --- What watches see -----------------------------------------------------------------------

  // Appending to the log does not change what was seen.
  lemma {:induction false} SeenIsStable(env: Env, log: Log, more: Log, owner: Uuid, p: NodePattern,
                                        events: seq<Event>, from: nat)
    requires forall i | 0 <= i < |events| :: events[i].at <= |log|
    ensures Seen(env, log + more, owner, p, events, from) == Seen(env, log, owner, p, events, from)
  {
    if from < |events| {
      SeenIsStable(env, log, more, owner, p, events[..|events| - 1], from);
      var ev := events[|events| - 1];
      assert Before(log + more, ev.at) == Before(log, ev.at);
    }
  }

  lemma SeenOneMore(env: Env, log: Log, owner: Uuid, p: NodePattern, events: seq<Event>, ev: Event, from: nat)
    requires from <= |events|
    ensures Seen(env, log, owner, p, events + [ev], from)
         == Seen(env, log, owner, p, events, from)
            + if Receives(env, Before(log, ev.at), owner, p, ev.change) then [ev.change] else []
  {
    assert (events + [ev])[..|events|] == events;
  }

  // What is seen splits at any event.
  lemma {:induction false} SeenSplits(env: Env, log: Log, owner: Uuid, p: NodePattern, events: seq<Event>, from: nat,
                                      mid: nat)
    requires from <= mid <= |events|
    ensures Seen(env, log, owner, p, events, from)
         == Seen(env, log, owner, p, events[..mid], from) + Seen(env, log, owner, p, events, mid)
  {
    hide Receives, Before;
    if mid < |events| {
      var n := |events| - 1;
      SeenSplits(env, log, owner, p, events[..n], from, mid);
      assert events[..n][..mid] == events[..mid];
    } else {
      assert events[..mid] == events;
    }
  }

  // What is seen was announced in the range, in announcement order.
  lemma {:induction false} SeenInOrder(env: Env, log: Log, owner: Uuid, p: NodePattern, events: seq<Event>, from: nat)
    requires forall i, j | 0 <= i < j < |events| :: events[i].change.Revision() < events[j].change.Revision()
    ensures Increasing(Seen(env, log, owner, p, events, from))
    ensures forall c | c in Seen(env, log, owner, p, events, from) ::
              exists k | from <= k < |events| :: events[k].change == c
  {
    hide Receives;
    if from < |events| {
      var n := |events| - 1;
      SeenInOrder(env, log, owner, p, events[..n], from);
      forall c | c in Seen(env, log, owner, p, events[..n], from)
        ensures c.Revision() < events[n].change.Revision()
        ensures exists k | from <= k < |events| :: events[k].change == c
      {
        var k :| from <= k < n && events[..n][k].change == c;
        assert events[k].change == c;
      }
    }
  }
}

// What every operation of the kernel graph keeps, and so what holds after every run
// (kernel/src/graph/store.rs).
module GraphRuns {
  import opened Options
  import opened GraphTypes
  import opened GraphLog
  import opened GraphMachine
  import opened GraphSnapshots

  // --- Single operations ----------------------------------------------------------------------

  // A watch keeps its history when the log grows and one more change is announced.
  lemma WatchKept(env: Env, log: Log, more: Log, events: seq<Event>, news: seq<Event>, w: Watcher)
    requires WatchSound(env, log, events, w)
    requires forall i | 0 <= i < |events| :: events[i].at <= |log|
    ensures WatchSound(env, log + more, events + news, w)
  {
    assert (events + news)[..w.since] == events[..w.since];
    SeenIsStable(env, log, more, w.owner, w.pattern, events[..w.since], w.start);
    forall c | c in w.delivered ensures AnnouncedBefore(c, events + news, w.since) {
      var k :| 0 <= k < |events| && k < w.since && events[k].change == c;
      assert (events + news)[k].change == c;
    }
  }

  // The records and the announcement of one operation, on a sound graph.
  lemma AnnounceSound(env: Env, g: Graph, cs: seq<GraphChange>, c: GraphChange)
    requires Sound(env, g)
    requires LogOrdered(g.log + cs, g.next + 1) && LogAuthorized(env, g.log + cs)
    requires c.Revision() == g.next
    ensures Sound(env, Announce(g, cs, c))
  {
    var g' := Announce(g, cs, c);
    forall id | id in g'.watches ensures WatchSound(env, g'.log, g'.events, g'.watches[id]) {
      WatchKept(env, g.log, cs, g.events, [Event(c, |g.log| + |cs|)], g.watches[id]);
    }
  }

  lemma EnsureBundleSound(env: Env, g: Graph, bundle: Uuid)
    requires Sound(env, g)
    ensures Sound(env, EnsureBundle(g, bundle))
    ensures g.log <= EnsureBundle(g, bundle).log
    ensures Versions(EnsureBundle(g, bundle).log, bundle) != []
  {
    if Versions(g.log, bundle) == [] {
      var t := BundleThing(bundle, g.next);
      AddThing(env, g.log, g.next + 1, t);
      Appended(g.log, Thing(t), bundle, 0, "");
      var g' := EnsureBundle(g, bundle);
      forall id | id in g'.watches ensures WatchSound(env, g'.log, g'.events, g'.watches[id]) {
        WatchKept(env, g.log, [Thing(t)], g.events, [], g.watches[id]);
        assert g.events + [] == g.events;
      }
    }
  }

  // After a new version and its ownership edge, the version is the latest and the owner owns it.
  lemma OwnedNow(log: Log, t: GraphThing, e: GraphEdge)
    requires e.src == e.owner && e.pred == OWNS && e.dst == t.id
    ensures Owns(log + [Thing(t)] + [Edge(e)], e.owner, t.id)
    ensures Latest(log + [Thing(t)] + [Edge(e)], t.id) == Some(t)
    ensures Edges(log + [Thing(t)]) == Edges(log)
  {
    Appended(log, Thing(t), t.id, 0, "");
    Appended(log + [Thing(t)], Edge(e), t.id, 0, "");
    assert Edge(e) in log + [Thing(t)] + [Edge(e)];
  }

  // Both share one revision, and neither is out of order.
  lemma AddOwned(env: Env, log: Log, next: nat, t: GraphThing, e: GraphEdge)
    requires LogOrdered(log, next) && LogAuthorized(env, log)
    requires t.revision == e.revision == next
    requires e.src == e.owner && e.pred == OWNS && e.dst == t.id
    ensures LogOrdered(log + [Thing(t)] + [Edge(e)], next + 1) && LogAuthorized(env, log + [Thing(t)] + [Edge(e)])
  {
    NextIsNewest(log, next, t.id);
    Later(log, next);
    AddThing(env, log, next + 1, t);
    OwnedNow(log, t, e);
    AddEdge(env, log + [Thing(t)], next + 1, e);
  }

  // The records and the announcement of a new thing.
  function CreateOwned(env: Env, g: Graph, owner: Uuid, req: NodeRequest): (Graph, GraphThing) {
    var t := NewThing(env, owner, req, g.next);
    (Announce(g, [Thing(t), Edge(OwnershipEdge(env, owner, t.id, g.next))], Thing(t)), t)
  }

  lemma CreateOwnedSound(env: Env, g: Graph, owner: Uuid, req: NodeRequest)
    requires Sound(env, g)
    ensures Sound(env, CreateOwned(env, g, owner, req).0)
    ensures Owns(CreateOwned(env, g, owner, req).0.log, owner, CreateOwned(env, g, owner, req).1.id)
    ensures Latest(CreateOwned(env, g, owner, req).0.log, CreateOwned(env, g, owner, req).1.id)
            == Some(CreateOwned(env, g, owner, req).1)
  {
    var t := NewThing(env, owner, req, g.next);
    var e := OwnershipEdge(env, owner, t.id, g.next);
    assert g.log + [Thing(t), Edge(e)] == g.log + [Thing(t)] + [Edge(e)];
    AddOwned(env, g.log, g.next, t, e);
    OwnedNow(g.log, t, e);
    AnnounceSound(env, g, [Thing(t), Edge(e)], Thing(t));
  }

  // A fiat stores the new version and the ownership edge; neither is dropped.
  lemma FiatSound(env: Env, g: Graph, owner: Uuid, req: NodeRequest)
    requires Sound(env, g)
    ensures Sound(env, FiatNode(env, g, owner, req).0)
    ensures Owns(FiatNode(env, g, owner, req).0.log, owner, FiatNode(env, g, owner, req).1.id)
    ensures Latest(FiatNode(env, g, owner, req).0.log, FiatNode(env, g, owner, req).1.id)
            == Some(FiatNode(env, g, owner, req).1)
  {
    EnsureBundleSound(env, g, owner);
    CreateOwnedSound(env, EnsureBundle(g, owner), owner, req);
  }

  lemma NewEdgeSound(env: Env, g: Graph, e: GraphEdge)
    requires Sound(env, g) && e.revision == g.next
    requires CanLink(env, g.log, e.owner, e.src, e.dst, e.pred)
    ensures Sound(env, Announce(g, [Edge(e)], Edge(e)))
  {
    NextIsNewest(g.log, g.next, 0);
    AuthorityGrows(env, g.log, g.log + [Edge(e)], e.owner, e.src, e.dst, e.pred);
    AddEdge(env, g.log, g.next + 1, e);
    AnnounceSound(env, g, [Edge(e)], Edge(e));
  }

  lemma LinkSound(env: Env, g: Graph, owner: Uuid, req: LinkRequest)
    requires Sound(env, g)
    ensures Sound(env, LinkEdge(env, g, owner, req).0)
  {
    if CanLink(env, g.log, owner, req.from, req.to, req.pred)
       && LastTo(EdgesFrom(g.log, req.from, req.pred), req.to).None? {
      NewEdgeSound(env, g, NewEdge(env, owner, req, g.next));
    }
  }

  // A grant keeps the invariant; if it succeeds the grantee holds the capability.
  lemma GrantSound(env: Env, g: Graph, grantor: Uuid, req: GrantRequest)
    requires Sound(env, g)
    ensures Sound(env, GrantCapability(env, g, grantor, req).0)
    ensures GrantCapability(env, g, grantor, req).1
        ==> Linked(GrantCapability(env, g, grantor, req).0.log, req.grantee, req.capability, req.target)
  {
    if CanGrant(g.log, grantor, req) {
      var g1 := EnsureBundle(g, req.grantee);
      EnsureBundleSound(env, g, req.grantee);
      AuthorityGrows(env, g.log, g1.log, grantor, req.grantee, req.target, req.capability);
      var e := CapabilityEdge(env, grantor, req, g1.next);
      NewEdgeSound(env, g1, e);
      assert Edge(e) in GrantCapability(env, g, grantor, req).0.log;
    }
  }

  // Who may grant: the kernel may grant any capability, the owner of the target a data capability,
  // and nobody else any, not even a holder of it. A refused grant changes nothing.
  lemma GrantSucceedsIff(env: Env, g: Graph, grantor: Uuid, req: GrantRequest)
    ensures GrantCapability(env, g, grantor, req).1
       <==> (grantor == KERNEL && (IsHardwareCapability(req.capability) || IsDataCapability(req.capability)))
            || (Owns(g.log, grantor, req.target) && IsDataCapability(req.capability))
    ensures !GrantCapability(env, g, grantor, req).1 ==> GrantCapability(env, g, grantor, req).0 == g
  {
    DataIsNotHardware(req.capability);
  }

  lemma DataIsNotHardware(c: string)
    ensures !(IsDataCapability(c) && IsHardwareCapability(c))
  {
    assert |CAN_READ| == 8 && |CAN_WRITE| == 9 && |CAN_LINK| == 8;
    assert |"CAN_HANDLE_IRQ"| == 14 && |"CAN_DMA"| == 7 && |"CAN_MMIO"| == 8 && |"CAN_PORT_IO"| == 11;
    assert CAN_READ[4] == 'R' && CAN_LINK[4] == 'L' && "CAN_MMIO"[4] == 'M';
  }

  // A bundle that was granted CAN_READ holds it and may not grant it on.
  lemma HolderIsRefused(env: Env, owner: Uuid, holder: Uuid, other: Uuid, node: Uuid, labels: seq<Symbol>, props: Map)
    requires holder != owner && holder != KERNEL
    ensures var g := Run(env, [Fiat(owner, NodeRequest(Some(node), labels, props)),
                               Grant(owner, GrantRequest(holder, node, CAN_READ))]);
            && CanRead(g.log, holder, node)
            && !GrantCapability(env, g, holder, GrantRequest(other, node, CAN_READ)).1
  {
    var req, grant := NodeRequest(Some(node), labels, props), GrantRequest(holder, node, CAN_READ);
    var fiat, both := [Fiat(owner, req)], [Fiat(owner, req), Grant(owner, grant)];
    assert both[..1] == fiat && fiat[..0] == [];
    var g0, g1 := Empty(), FiatNode(env, Empty(), owner, req).0;
    assert Run(env, []) == g0 && Run(env, fiat) == g1;
    var g2 := GrantCapability(env, g1, owner, grant).0;
    assert Run(env, both) == g2;
    RunSound(env, fiat);
    EmptySound(env);
    FiatSound(env, g0, owner, req);
    hide Sound;
    GrantSucceedsIff(env, g1, owner, grant);
    GrantSound(env, g1, owner, grant);
    OnlyOwnerLinked(env, owner, holder, node, req, grant);
    GrantSucceedsIff(env, g2, holder, GrantRequest(other, node, CAN_READ));
  }

  // After the two operations no edge makes the holder an owner.
  lemma OnlyOwnerLinked(env: Env, owner: Uuid, holder: Uuid, node: Uuid, req: NodeRequest, grant: GrantRequest)
    requires holder != owner && grant.capability == CAN_READ
    ensures !Owns(GrantCapability(env, FiatNode(env, Empty(), owner, req).0, owner, grant).0.log, holder, node)
  {
    var g1 := FiatNode(env, Empty(), owner, req).0;
    forall e | Edge(e) in g1.log ensures e.src == owner { }
    assert CAN_READ[4] == 'R' && |OWNS| == 4 && |CAN_READ| == 8;
    var g2 := GrantCapability(env, g1, owner, grant).0;
    forall e | Edge(e) in g2.log ensures e.src == owner || e.pred == CAN_READ { }
  }

  lemma EmptySound(env: Env)
    ensures Sound(env, Empty())
  {
  }

  lemma SetPropsSound(env: Env, g: Graph, owner: Uuid, node: Uuid, props: Map)
    requires Sound(env, g)
    ensures Sound(env, SetProps(g, owner, node, props).0)
    ensures SetProps(g, owner, node, props).1
        ==> var t := Latest(SetProps(g, owner, node, props).0.log, node);
            t.Some? && t.value.revision == g.next
            && forall k :: k in props ==> k in t.value.fields && t.value.fields[k] == props[k]
  {
    var current := Latest(g.log, node);
    if SetProps(g, owner, node, props).1 {
      var t := current.value.(fields := current.value.fields + props, revision := g.next);
      Members(g.log, node, 0, "");
      NextIsNewest(g.log, g.next, node);
      AddThing(env, g.log, g.next + 1, t);
      Appended(g.log, Thing(t), node, 0, "");
      AnnounceSound(env, g, [Thing(t)], Thing(t));
    }
  }

  lemma RegisterSound(env: Env, g: Graph, owner: Uuid, p: NodePattern)
    requires Sound(env, g)
    ensures Sound(env, RegisterWatch(g, owner, p).0)
    ensures RegisterWatch(g, owner, p).1 !in g.watches
  {
    assert g.events[..|g.events|] == g.events;
  }

  // Everything pending was announced after everything handed out.
  lemma PendingIsNewer(env: Env, g: Graph, w: Watcher, c: GraphChange, d: GraphChange)
    requires EventsOrdered(g.events, |g.log|, g.next) && WatchSound(env, g.log, g.events, w)
    requires d in Pending(env, g, w)
    ensures AnnouncedBefore(d, g.events, |g.events|)
    ensures c in w.delivered ==> c.Revision() < d.Revision()
    ensures c in w.delivered ==> AnnouncedBefore(c, g.events, |g.events|)
  {
    SeenInOrder(env, g.log, w.owner, w.pattern, g.events, w.since);
    var m :| w.since <= m < |g.events| && g.events[m].change == d;
    if c in w.delivered {
      var k :| 0 <= k < |g.events| && k < w.since && g.events[k].change == c;
    }
  }

  // A poll hands out changes newer than all it handed out before.
  lemma PolledInOrder(env: Env, g: Graph, w: Watcher)
    requires EventsOrdered(g.events, |g.log|, g.next) && WatchSound(env, g.log, g.events, w)
    ensures Increasing(w.delivered + Queue(env, g, w))
    ensures forall c | c in w.delivered + Queue(env, g, w) :: AnnouncedBefore(c, g.events, |g.events|)
  {
    var q := Queue(env, g, w);
    SeenInOrder(env, g.log, w.owner, w.pattern, g.events, w.since);
    assert Increasing(q);
    forall c, d | c in w.delivered && d in q ensures c.Revision() < d.Revision() {
      PendingIsNewer(env, g, w, c, d);
    }
    forall c | c in w.delivered + q ensures AnnouncedBefore(c, g.events, |g.events|) {
      if c in w.delivered {
        var k :| 0 <= k < |g.events| && k < w.since && g.events[k].change == c;
      } else {
        PendingIsNewer(env, g, w, c, c);
      }
    }
  }

  lemma PolledSound(env: Env, g: Graph, w: Watcher)
    requires EventsOrdered(g.events, |g.log|, g.next) && WatchSound(env, g.log, g.events, w)
    ensures WatchSound(env, g.log, g.events, Polled(env, g, w))
  {
    PolledInOrder(env, g, w);
    SeenSplits(env, g.log, w.owner, w.pattern, g.events, w.start, w.since);
    assert g.events[..|g.events|] == g.events;
  }

  lemma PollSound(env: Env, g: Graph, id: nat)
    requires Sound(env, g)
    ensures Sound(env, PollWatch(env, g, id).0)
  {
    if id in g.watches {
      PolledSound(env, g, g.watches[id]);
    }
  }

  // The graph restored from the snapshot of g; its watches are gone.
  function Restored(g: Graph, nextWatch: nat): Graph {
    Graph(g.next, Replay(SnapshotOf(g.log, g.next)), [], map[], nextWatch)
  }

  lemma RestoreSound(env: Env, g: Graph, nextWatch: nat)
    requires Sound(env, g)
    ensures Sound(env, Restored(g, nextWatch))
  {
    RestoredSound(env, g.log, g.next);
  }

  // --- Runs -----------------------------------------------------------------------------------

  datatype Op =
    | Fiat(owner: Uuid, node: NodeRequest)
    | Link(owner: Uuid, link: LinkRequest)
    | Grant(owner: Uuid, grant: GrantRequest)
    | Set(owner: Uuid, id: Uuid, props: Map)
    | Register(owner: Uuid, pattern: NodePattern)
    | Poll(watch: nat)
      // Applies the snapshot of the store that some operations lead to: its own, now or earlier, or
      // that of another store.
    | Restore(from: seq<Op>)

  function Step(env: Env, g: Graph, op: Op): Graph
    decreases op
  {
    match op
    case Fiat(owner, req) => FiatNode(env, g, owner, req).0
    case Link(owner, req) => LinkEdge(env, g, owner, req).0
    case Grant(owner, req) => GrantCapability(env, g, owner, req).0
    case Set(owner, id, props) => SetProps(g, owner, id, props).0
    case Register(owner, p) => RegisterWatch(g, owner, p).0
    case Poll(id) => PollWatch(env, g, id).0
    case Restore(from) => Restored(Run(env, from), g.nextWatch)
  }

  function Run(env: Env, ops: seq<Op>): Graph
    decreases ops
  {
    if ops == [] then Empty() else Step(env, Run(env, ops[..|ops| - 1]), ops[|ops| - 1])
  }

  lemma {:induction false} StepSound(env: Env, g: Graph, op: Op)
    requires Sound(env, g)
    ensures Sound(env, Step(env, g, op))
    decreases op
  {
    hide Sound, FiatNode, LinkEdge, GrantCapability, SetProps, RegisterWatch, PollWatch, Restored;
    match op
    case Fiat(owner, req) => FiatSound(env, g, owner, req);
    case Link(owner, req) => LinkSound(env, g, owner, req);
    case Grant(owner, req) => GrantSound(env, g, owner, req);
    case Set(owner, id, props) => SetPropsSound(env, g, owner, id, props);
    case Register(owner, p) => RegisterSound(env, g, owner, p);
    case Poll(id) => PollSound(env, g, id);
    case Restore(from) =>
      RunSound(env, from);
      RestoreSound(env, Run(env, from), g.nextWatch);
  }

  // The invariant holds after every run from the empty store.
  lemma {:induction false} RunSound(env: Env, ops: seq<Op>)
    ensures Sound(env, Run(env, ops))
    decreases ops
  {
    if ops == [] {
      EmptySound(env);
    } else {
      hide Sound;
      RunSound(env, ops[..|ops| - 1]);
      StepSound(env, Run(env, ops[..|ops| - 1]), ops[|ops| - 1]);
    }
  }

  // In every reachable state each stored edge is one its recorded owner may still link.
  lemma EveryEdgeAuthorized(env: Env, ops: seq<Op>, e: GraphEdge)
    requires e in Edges(Run(env, ops).log)
    ensures CanLink(env, Run(env, ops).log, e.owner, e.src, e.dst, e.pred)
  {
    RunSound(env, ops);
    Members(Run(env, ops).log, 0, 0, "");
    assert Edge(e) in Run(env, ops).log;
  }

  // --- Who owns what --------------------------------------------------------------------------

  lemma CapabilitiesAreNotOwnership(c: string)
    requires IsDataCapability(c) || IsHardwareCapability(c)
    ensures c != OWNS
  {
    assert |OWNS| == 4 && |CAN_READ| == 8 && |CAN_WRITE| == 9 && |CAN_LINK| == 8;
    assert |"CAN_HANDLE_IRQ"| == 14 && |"CAN_DMA"| == 7 && |"CAN_MMIO"| == 8 && |"CAN_PORT_IO"| == 11;
  }

  // What one more edge links.
  lemma LinkedOneMore(log: Log, cs: seq<GraphChange>, e: GraphEdge, src: Uuid, pred: string, dst: Uuid)
    requires Edge(e) in cs && forall c | c in cs && c.Edge? :: c == Edge(e)
    ensures Linked(log + cs, src, pred, dst)
       <==> Linked(log, src, pred, dst) || (e.src == src && e.pred == pred && e.dst == dst)
  {
    assert forall c :: c in log + cs <==> c in log || c in cs;
  }

  lemma LinkedUnchanged(log: Log, cs: seq<GraphChange>, src: Uuid, pred: string, dst: Uuid)
    requires forall c | c in cs :: c.Thing?
    ensures Linked(log + cs, src, pred, dst) <==> Linked(log, src, pred, dst)
  {
    assert forall c :: c in log + cs <==> c in log || c in cs;
  }

  lemma EnsureBundleLinks(g: Graph, bundle: Uuid, src: Uuid, pred: string, dst: Uuid)
    ensures Linked(EnsureBundle(g, bundle).log, src, pred, dst) <==> Linked(g.log, src, pred, dst)
  {
    if Versions(g.log, bundle) == [] {
      LinkedUnchanged(g.log, [Thing(BundleThing(bundle, g.next))], src, pred, dst);
    }
  }

  lemma FiatOwns(env: Env, g: Graph, owner: Uuid, req: NodeRequest, bundle: Uuid, node: Uuid)
    ensures Owns(FiatNode(env, g, owner, req).0.log, bundle, node)
       <==> Owns(g.log, bundle, node) || (owner == bundle && FiatNode(env, g, owner, req).1.id == node)
  {
    var g1, t := EnsureBundle(g, owner), FiatNode(env, g, owner, req).1;
    var e := OwnershipEdge(env, owner, t.id, g1.next);
    EnsureBundleLinks(g, owner, bundle, OWNS, node);
    LinkedOneMore(g1.log, [Thing(t), Edge(e)], e, bundle, OWNS, node);
  }

  lemma LinkOwns(env: Env, g: Graph, owner: Uuid, req: LinkRequest, bundle: Uuid, node: Uuid)
    ensures Owns(LinkEdge(env, g, owner, req).0.log, bundle, node)
       <==> Owns(g.log, bundle, node)
            || (req.pred == OWNS && req.from == bundle && req.to == node
                && CanLink(env, g.log, owner, req.from, req.to, req.pred))
  {
    if CanLink(env, g.log, owner, req.from, req.to, req.pred) {
      var existing := LastTo(EdgesFrom(g.log, req.from, req.pred), req.to);
      if existing.Some? {
        LastToIsLinked(g.log, req.from, req.pred, req.to);
      } else {
        var e := NewEdge(env, owner, req, g.next);
        LinkedOneMore(g.log, [Edge(e)], e, bundle, OWNS, node);
      }
    }
  }

  lemma LastToIsLinked(log: Log, src: Uuid, pred: string, dst: Uuid)
    requires LastTo(EdgesFrom(log, src, pred), dst).Some?
    ensures Linked(log, src, pred, dst)
  {
    LastToIsIn(EdgesFrom(log, src, pred), dst);
    Members(log, 0, src, pred);
    var e := LastTo(EdgesFrom(log, src, pred), dst).value;
    assert Edge(e) in log;
  }

  lemma {:induction false} LastToIsIn(es: seq<GraphEdge>, dst: Uuid)
    requires LastTo(es, dst).Some?
    ensures LastTo(es, dst).value in es && LastTo(es, dst).value.dst == dst
  {
    if es[|es| - 1].dst != dst {
      LastToIsIn(es[..|es| - 1], dst);
    }
  }

  lemma GrantOwns(env: Env, g: Graph, grantor: Uuid, req: GrantRequest, bundle: Uuid, node: Uuid)
    ensures Owns(GrantCapability(env, g, grantor, req).0.log, bundle, node) <==> Owns(g.log, bundle, node)
  {
    if CanGrant(g.log, grantor, req) {
      CapabilitiesAreNotOwnership(req.capability);
      var g1 := EnsureBundle(g, req.grantee);
      var e := CapabilityEdge(env, grantor, req, g1.next);
      EnsureBundleLinks(g, req.grantee, bundle, OWNS, node);
      LinkedOneMore(g1.log, [Edge(e)], e, bundle, OWNS, node);
    }
  }

  // A bundle comes to own a thing by its own fiat of that id or by a permitted link of an ownership
  // edge, and by nothing else.
  lemma OwnsGainedIff(env: Env, g: Graph, op: Op, bundle: Uuid, node: Uuid)
    requires !op.Restore?
    ensures Owns(Step(env, g, op).log, bundle, node)
       <==> || Owns(g.log, bundle, node)
            || (op.Fiat? && op.owner == bundle && FiatNode(env, g, op.owner, op.node).1.id == node)
            || (op.Link? && op.link.pred == OWNS && op.link.from == bundle && op.link.to == node
                && CanLink(env, g.log, op.owner, bundle, node, OWNS))
  {
    hide Owns, CanLink, FiatNode, LinkEdge, GrantCapability;
    match op
    case Fiat(owner, req) => FiatOwns(env, g, owner, req, bundle, node);
    case Link(owner, req) => LinkOwns(env, g, owner, req, bundle, node);
    case Grant(owner, req) => GrantOwns(env, g, owner, req, bundle, node);
    case Set(owner, id, props) => SetOwns(g, owner, id, props, bundle, node);
    case Register(_, _) =>
    case Poll(_) =>
  }

  lemma SetOwns(g: Graph, owner: Uuid, id: Uuid, props: Map, bundle: Uuid, node: Uuid)
    ensures Owns(SetProps(g, owner, id, props).0.log, bundle, node) <==> Owns(g.log, bundle, node)
  {
    if SetProps(g, owner, id, props).1 {
      var current := Latest(g.log, id).value;
      var t := current.(fields := current.fields + props, revision := g.next);
      LinkedUnchanged(g.log, [Thing(t)], bundle, OWNS, node);
    }
  }

  // A fiat of an existing id makes its caller an owner too: before it the caller may not write.
  lemma SecondFiatOwns(env: Env, owner: Uuid, second: Uuid, req: NodeRequest, node: Uuid)
    requires second != owner && second != KERNEL && req.id == Some(node)
    ensures !CanWrite(Run(env, [Fiat(owner, req)]).log, second, node)
    ensures CanWrite(Run(env, [Fiat(owner, req), Fiat(second, req)]).log, second, node)
  {
    var first, both := [Fiat(owner, req)], [Fiat(owner, req), Fiat(second, req)];
    assert both[..1] == first && first[..0] == [];
    var g1 := FiatNode(env, Empty(), owner, req).0;
    assert Run(env, []) == Empty() && Run(env, first) == g1;
    FiatOwns(env, Empty(), owner, req, second, node);
    FiatOwns(env, g1, second, req, second, node);
    forall e | Edge(e) in g1.log ensures e.src == owner { }
  }

  ghost predicate Subsequence<T(!new)>(a: seq<T>, b: seq<T>) {
    a == [] || (b != [] &&
                var (m, n) := (|a| - 1, |b| - 1);
                (a[m] == b[n] && Subsequence(a[..m], b[..n])) || Subsequence(a, b[..n]))
  }

  // Increasing changes that are all among increasing changes are a subsequence of them.
  lemma {:induction false} IncreasingSubset(a: seq<GraphChange>, b: seq<GraphChange>)
    requires Increasing(a) && Increasing(b) && forall c | c in a :: c in b
    ensures Subsequence(a, b)
  {
    if a != [] {
      var m, n := |a| - 1, |b| - 1;
      assert a[m] in a && b == b[..n] + [b[n]];
      if a[m] == b[n] {
        forall c | c in a[..m] ensures c in b[..n] {
          assert c in a && c.Revision() < a[m].Revision();
        }
        IncreasingSubset(a[..m], b[..n]);
      } else {
        assert a[m] in b[..n];
        forall c | c in a ensures c in b[..n] {
          assert c.Revision() <= a[m].Revision() < b[n].Revision();
        }
        IncreasingSubset(a, b[..n]);
      }
    }
  }

  // In every reachable state, everything a watch was handed and everything in its queue are in
  // strictly increasing revision order and a subsequence of the visible matching changes since it
  // was registered; only the changes lost to the bound are missing.
  lemma WatchDelivery(env: Env, ops: seq<Op>, id: nat)
    requires id in Run(env, ops).watches
    ensures var g := Run(env, ops);
            var w := g.watches[id];
            var lost := w.dropped + |Pending(env, g, w)| - |Queue(env, g, w)|;
            var all := Seen(env, g.log, w.owner, w.pattern, g.events, w.start);
            && Increasing(w.delivered + Queue(env, g, w))
            && |w.delivered| + |Queue(env, g, w)| + lost == |all|
            && (lost == 0 ==> w.delivered + Queue(env, g, w) == all)
            && Subsequence(w.delivered + Queue(env, g, w), all)
  {
    RunSound(env, ops);
    var g := Run(env, ops);
    var w := g.watches[id];
    PolledSound(env, g, w);
    SeenInOrder(env, g.log, w.owner, w.pattern, g.events, w.start);
    hide Seen, LastN, Pending, Queue, Subsequence;
    assert g.events[..|g.events|] == g.events;
    IncreasingSubset(w.delivered + Queue(env, g, w), Seen(env, g.log, w.owner, w.pattern, g.events, w.start));
  }

  lemma EndsWith<T>(s: seq<T>, c: T, n: nat)
    requires 1 <= n
    ensures var q := LastN(s + [c], n); 0 < |q| <= n && q[|q| - 1] == c
  {
  }

  // What announcing a change adds to the pending changes of a watch.
  lemma PendingAnnounced(env: Env, g: Graph, cs: seq<GraphChange>, c: GraphChange, w: Watcher)
    requires w.since <= |g.events| && forall i | 0 <= i < |g.events| :: g.events[i].at <= |g.log|
    ensures Pending(env, Announce(g, cs, c), w)
         == Pending(env, g, w) + if Receives(env, g.log + cs, w.owner, w.pattern, c) then [c] else []
  {
    hide Receives, Seen;
    var ev := Event(c, |g.log| + |cs|);
    assert Before(g.log + cs, ev.at) == g.log + cs;
    SeenOneMore(env, g.log + cs, w.owner, w.pattern, g.events, ev, w.since);
    SeenIsStable(env, g.log, cs, w.owner, w.pattern, g.events, w.since);
  }

  // A watch of the caller that matches a new thing has it at the end of its queue: the ownership
  // edge is in the log when the thing is announced.
  lemma CreatedIsSeen(env: Env, g: Graph, owner: Uuid, req: NodeRequest, w: Watcher)
    requires w.owner == owner && w.since <= |g.events|
    requires forall i | 0 <= i < |g.events| :: g.events[i].at <= |g.log|
    requires MatchesPattern(env, w.pattern, CreateOwned(env, g, owner, req).1, None)
    ensures var (g', t) := CreateOwned(env, g, owner, req);
            var q := Queue(env, g', w);
            0 < |q| <= MAX_WATCH_QUEUE && q[|q| - 1] == Thing(t)
  {
    var t := NewThing(env, owner, req, g.next);
    var e := OwnershipEdge(env, owner, t.id, g.next);
    OwnedNow(g.log, t, e);
    assert g.log + [Thing(t), Edge(e)] == g.log + [Thing(t)] + [Edge(e)];
    assert Receives(env, g.log + [Thing(t), Edge(e)], owner, w.pattern, Thing(t));
    hide Receives, MatchesPattern, NewThing, OwnershipEdge, Seen;
    PendingAnnounced(env, g, [Thing(t), Edge(e)], Thing(t), w);
    EndsWith(Pending(env, g, w), Thing(t), MAX_WATCH_QUEUE);
  }

  lemma OwnFiatIsSeen(env: Env, g: Graph, owner: Uuid, req: NodeRequest, id: nat)
    requires Sound(env, g) && id in g.watches && g.watches[id].owner == owner
    requires MatchesPattern(env, g.watches[id].pattern, FiatNode(env, g, owner, req).1, None)
    ensures var (g', t) := FiatNode(env, g, owner, req);
            id in g'.watches &&
            var q := Queue(env, g', g'.watches[id]);
            0 < |q| <= MAX_WATCH_QUEUE && q[|q| - 1] == Thing(t)
  {
    EnsureBundleSound(env, g, owner);
    assert WatchSound(env, g.log, g.events, g.watches[id]);
    CreatedIsSeen(env, EnsureBundle(g, owner), owner, req, g.watches[id]);
  }
}

// Which changes reach which watches of the kernel graph, and what each kind of edge permits, said
// over requests, labels, properties and edges (kernel/src/graph/store.rs).
module GraphDelivery {
  import opened Options
  import opened Arithmetic
  import opened Ordered
  import opened GraphTypes
  import opened GraphLog
  import opened GraphMachine
  import opened GraphRuns
  import opened GraphOutcomes

  // --- What edges permit ----------------------------------------------------------------------

  // Without edges only the kernel may do anything.
  lemma NobodyMay(env: Env, log: Log, bundle: Uuid, from: Uuid, to: Uuid, pred: string)
    requires forall c | c in log :: c.Thing?
    ensures (CanRead(log, bundle, from) <==> bundle == KERNEL) && (CanWrite(log, bundle, from) <==> bundle == KERNEL)
    ensures CanLink(env, log, bundle, from, to, pred) <==> bundle == KERNEL
  {
  }

  lemma NamesDiffer()
    ensures OWNS != CAN_READ && OWNS != CAN_WRITE && OWNS != CAN_LINK
    ensures CAN_READ != CAN_WRITE && CAN_READ != CAN_LINK && CAN_WRITE != CAN_LINK
  {
    assert |OWNS| == 4 && |CAN_READ| == 8 && |CAN_WRITE| == 9 && |CAN_LINK| == 8;
    assert CAN_READ[4] == 'R' && CAN_LINK[4] == 'L';
  }

  // Each edge permits its source exactly this: an ownership edge everything at its end, a CAN_READ
  // edge reading, a CAN_WRITE edge reading and writing, a CAN_LINK edge linking either way, unless
  // its kind names another predicate.
  lemma EdgePermits(env: Env, log: Log, e: GraphEdge, bundle: Uuid, from: Uuid, to: Uuid, pred: string)
    ensures CanRead(log + [Edge(e)], bundle, from)
       <==> CanRead(log, bundle, from)
            || (e.src == bundle && e.dst == from && (e.pred == OWNS || e.pred == CAN_READ || e.pred == CAN_WRITE))
    ensures CanWrite(log + [Edge(e)], bundle, from)
       <==> CanWrite(log, bundle, from)
            || (e.src == bundle && e.dst == from && (e.pred == OWNS || e.pred == CAN_WRITE))
    ensures CanLink(env, log + [Edge(e)], bundle, from, to, pred)
       <==> CanLink(env, log, bundle, from, to, pred)
            || (e.src == bundle && (e.dst == from || e.dst == to)
                && (e.pred == OWNS
                    || (e.pred == CAN_LINK
                        && !(KIND in e.props && e.props[KIND].Sym? && env.nameOf(e.props[KIND].symbol) != pred))))
  {
    forall p, d ensures Linked(log + [Edge(e)], bundle, p, d)
                   <==> Linked(log, bundle, p, d) || (e.src == bundle && e.pred == p && e.dst == d)
    {
      LinkedOneMore(log, [Edge(e)], e, bundle, p, d);
    }
    assert forall c :: c in log + [Edge(e)] <==> c in log || c == Edge(e);
    hide Linked;
  }

  // A grant permits exactly what its capability names, to the grantee, at the target.
  lemma GrantPermits(env: Env, g: Graph, grantor: Uuid, req: GrantRequest,
                     bundle: Uuid, from: Uuid, to: Uuid, pred: string)
    requires GrantCapability(env, g, grantor, req).1
    ensures var log' := GrantCapability(env, g, grantor, req).0.log;
            && (CanRead(log', bundle, from)
                <==> CanRead(g.log, bundle, from)
                     || (bundle == req.grantee && from == req.target
                         && (req.capability == CAN_READ || req.capability == CAN_WRITE)))
            && (CanWrite(log', bundle, from)
                <==> CanWrite(g.log, bundle, from)
                     || (bundle == req.grantee && from == req.target && req.capability == CAN_WRITE))
            && (CanLink(env, log', bundle, from, to, pred)
                <==> CanLink(env, g.log, bundle, from, to, pred)
                     || (bundle == req.grantee && (from == req.target || to == req.target)
                         && req.capability == CAN_LINK))
  {
    var g1 := EnsureBundle(g, req.grantee);
    var e := CapabilityEdge(env, grantor, req, g1.next);
    CapabilitiesAreNotOwnership(req.capability);
    SameAuthority(env, g, req.grantee, bundle, from, to, pred);
    assert KIND != OWNER && KIND != DST;
    hide CanRead, CanWrite, CanLink;
    EdgePermits(env, g1.log, e, bundle, from, to, pred);
  }

  lemma SameAuthority(env: Env, g: Graph, made: Uuid, bundle: Uuid, from: Uuid, to: Uuid, pred: string)
    ensures var log' := EnsureBundle(g, made).log;
            && (CanRead(log', bundle, from) <==> CanRead(g.log, bundle, from))
            && (CanWrite(log', bundle, from) <==> CanWrite(g.log, bundle, from))
            && (CanLink(env, log', bundle, from, to, pred) <==> CanLink(env, g.log, bundle, from, to, pred))
  {
    var log' := EnsureBundle(g, made).log;
    assert forall e :: Edge(e) in log' <==> Edge(e) in g.log;
    AuthorityGrows(env, g.log, log', bundle, from, to, pred);
    AuthorityGrows(env, log', g.log, bundle, from, to, pred);
  }

  // --- Queues ---------------------------------------------------------------------------------

  // The change is the last one in the queue of a watch.
  ghost predicate EndsQueue(env: Env, g: Graph, id: nat, c: GraphChange) {
    id in g.watches && var q := Queue(env, g, g.watches[id]); q != [] && q[|q| - 1] == c
  }

  // An announced change ends the queue of a watch exactly if the watch receives it; else the queue
  // does not change.
  lemma AnnouncedIff(env: Env, g: Graph, cs: seq<GraphChange>, c: GraphChange, id: nat)
    requires Sound(env, g) && id in g.watches && c.Revision() == g.next
    ensures var w := g.watches[id];
            && (EndsQueue(env, Announce(g, cs, c), id, c) <==> Receives(env, g.log + cs, w.owner, w.pattern, c))
            && (!Receives(env, g.log + cs, w.owner, w.pattern, c) ==>
                  Queue(env, Announce(g, cs, c), w) == Queue(env, g, w))
  {
    hide Seen, Receives, Sound, Pending, LastN;
    var w := g.watches[id];
    QueuedIsOlder(env, g, id);
    assert w.since <= |g.events| && forall i | 0 <= i < |g.events| :: g.events[i].at <= |g.log| by {
      WatchInTime(env, g, id);
    }
    PendingAnnounced(env, g, cs, c, w);
    EndsWith(Pending(env, g, w), c, MAX_WATCH_QUEUE);
    assert Pending(env, g, w) + [] == Pending(env, g, w);
  }

  lemma WatchInTime(env: Env, g: Graph, id: nat)
    requires Sound(env, g) && id in g.watches
    ensures g.watches[id].since <= |g.events| && forall i | 0 <= i < |g.events| :: g.events[i].at <= |g.log|
  {
    assert WatchSound(env, g.log, g.events, g.watches[id]);
  }

  lemma QueuedIsOlder(env: Env, g: Graph, id: nat)
    requires Sound(env, g) && id in g.watches
    ensures forall c | c in Queue(env, g, g.watches[id]) :: c.Revision() < g.next
  {
    var w := g.watches[id];
    assert WatchSound(env, g.log, g.events, w);
    SeenInOrder(env, g.log, w.owner, w.pattern, g.events, w.since);
    hide Seen;
    forall c | c in Queue(env, g, w) ensures c.Revision() < g.next {
      assert c in Pending(env, g, w);
      var k :| w.since <= k < |g.events| && g.events[k].change == c;
    }
  }

  // The queue is the last changes pending since the last poll, as many as fit.
  lemma QueueIsTail(env: Env, g: Graph, w: Watcher)
    ensures |Queue(env, g, w)| == Min(|Pending(env, g, w)|, 1024)
    ensures Queue(env, g, w) == Pending(env, g, w)[|Pending(env, g, w)| - |Queue(env, g, w)|..]
  {
  }

  // A registered watch starts empty, for its owner and pattern, and leaves the others alone.
  lemma RegisterExact(env: Env, g: Graph, owner: Uuid, p: NodePattern)
    requires Sound(env, g)
    ensures var (g', id) := RegisterWatch(g, owner, p);
            && id in g'.watches && g'.watches[id].owner == owner && g'.watches[id].pattern == p
            && Queue(env, g', g'.watches[id]) == [] && g'.log == g.log && g'.events == g.events && g'.next == g.next
            && forall other | other in g.watches ::
                 other != id && other in g'.watches && g'.watches[other] == g.watches[other]
  {
  }

  // A poll hands out the whole queue and empties it; an empty queue gives nothing. Everything handed
  // out is below the revision the batch names.
  lemma PollExact(env: Env, g: Graph, id: nat)
    requires Sound(env, g)
    ensures var (g', r) := PollWatch(env, g, id);
            && (r.Some? <==> id in g.watches && Queue(env, g, g.watches[id]) != [])
            && (r.None? ==> g' == g)
            && (r.Some? ==> && r.value.changes == Queue(env, g, g.watches[id])
                            && r.value.fromRevision == 0 && r.value.latestRevision == g.next
                            && (forall c | c in r.value.changes :: c.Revision() < r.value.latestRevision)
                            && id in g'.watches && Queue(env, g', g'.watches[id]) == []
                            && g'.watches[id].delivered == g.watches[id].delivered + r.value.changes)
            && g'.log == g.log && g'.events == g.events && g'.next == g.next
            && forall other | other in g.watches && other != id ::
                 other in g'.watches && g'.watches[other] == g.watches[other]
  {
    if id in g.watches {
      QueuedIsOlder(env, g, id);
    }
  }

  // --- Which changes are received -------------------------------------------------------------

  // The keys of an edge's own properties are different.
  lemma KeysDiffer()
    ensures SRC != DST && SRC != PREDICATE && DST != PREDICATE
  {
  }

  // A new edge ends the queue of a watch if and only if the watch's owner can read one of its ends or
  // made it, and the pattern fits: its labels are among those of the source node (or, if there is
  // none, of the destination), and each of its properties is one of that node or says where the edge
  // comes from, where it leads or what its predicate is.
  lemma LinkDeliveredIff(env: Env, g: Graph, owner: Uuid, req: LinkRequest, id: nat, node: Option<GraphThing>)
    requires Sound(env, g) && id in g.watches
    requires CanLink(env, g.log, owner, req.from, req.to, req.pred) && !Linked(g.log, req.from, req.pred, req.to)
    requires node == if Latest(g.log, req.from).Some? then Latest(g.log, req.from) else Latest(g.log, req.to)
    ensures var g', w := LinkEdge(env, g, owner, req).0, g.watches[id];
            g'.events != [] && g'.events[|g'.events| - 1].change.Edge? &&
            (EndsQueue(env, g', id, g'.events[|g'.events| - 1].change)
             <==> && (CanRead(g'.log, w.owner, req.from) || CanRead(g'.log, w.owner, req.to) || owner == w.owner)
                  && node.Some?
                  && (forall l | l in w.pattern.labels :: l in node.value.labels)
                  && (forall k | k in w.pattern.props ::
                        var want := w.pattern.props[k];
                        || (k in node.value.fields && node.value.fields[k] == want)
                        || (k == SRC && want == Id(req.from)) || (k == DST && want == Id(req.to))
                        || (k == PREDICATE && (want == Text(req.pred)
                                               || (want.Sym? && env.nameOf(want.symbol) == req.pred)))))
  {
    hide CanRead, CanLink, EndsQueue, Latest, Linked, Edges;
    LinkExact(env, g, owner, req);
    var g' := LinkEdge(env, g, owner, req).0;
    var e := Edges(g'.log)[|Edges(g.log)|];
    assert g' == Announce(g, [Edge(e)], Edge(e)) by { LinkIsAnnouncement(env, g, owner, req); }
    hide LinkEdge, LastTo, EdgesFrom;
    AnnouncedIff(env, g, [Edge(e)], Edge(e), id);
    assert Target(g'.log, Edge(e)) == node;
    KeysDiffer();
  }

  lemma LinkIsAnnouncement(env: Env, g: Graph, owner: Uuid, req: LinkRequest)
    requires NewLink(env, g, LinkEdge(env, g, owner, req).0, owner, req) && LinkEdge(env, g, owner, req).1 == g.next
    requires LastTo(EdgesFrom(g.log, req.from, req.pred), req.to).None?
             && CanLink(env, g.log, owner, req.from, req.to, req.pred)
    ensures var g' := LinkEdge(env, g, owner, req).0;
            var e := Edges(g'.log)[|Edges(g.log)|];
            g' == Announce(g, [Edge(e)], Edge(e))
  {
    hide CanLink;
    var e := NewEdge(env, owner, req, g.next);
    Appended(g.log, Edge(e), 0, 0, "");
  }

  // A watch on a source gets exactly the new edges from it that its owner may see, where the node
  // matched has no such field of its own; likewise for a destination and a predicate.
  lemma EndpointWatches(env: Env, g: Graph, owner: Uuid, req: LinkRequest, id: nat, node: GraphThing,
                        s: Uuid, sym: Symbol, text: string)
    requires Sound(env, g) && id in g.watches
    requires CanLink(env, g.log, owner, req.from, req.to, req.pred) && !Linked(g.log, req.from, req.pred, req.to)
    requires Some(node) == if Latest(g.log, req.from).Some? then Latest(g.log, req.from) else Latest(g.log, req.to)
    requires SRC !in node.fields && DST !in node.fields && PREDICATE !in node.fields
    ensures var g', w := LinkEdge(env, g, owner, req).0, g.watches[id];
            g'.events != [] &&
            var got := EndsQueue(env, g', id, g'.events[|g'.events| - 1].change);
            var sees := CanRead(g'.log, w.owner, req.from) || CanRead(g'.log, w.owner, req.to) || owner == w.owner;
            && (w.pattern == NodePattern([], map[SRC := Id(s)]) ==> (got <==> sees && req.from == s))
            && (w.pattern == NodePattern([], map[DST := Id(s)]) ==> (got <==> sees && req.to == s))
            && (w.pattern == NodePattern([], map[PREDICATE := Text(text)]) ==> (got <==> sees && req.pred == text))
            && (w.pattern == NodePattern([], map[PREDICATE := Sym(sym)]) ==>
                  (got <==> sees && env.nameOf(sym) == req.pred))
  {
    hide LinkEdge, CanRead, CanLink, EndsQueue, Sound, Latest, Linked;
    LinkDeliveredIff(env, g, owner, req, id, Some(node));
    KeysDiffer();
  }

  // A version ends the queue of a watch if and only if it is public, an input event or readable to the
  // watch's owner, and it has every label and every property of the pattern.
  lemma ThingDeliveredIff(env: Env, g: Graph, cs: seq<GraphChange>, t: GraphThing, id: nat)
    requires Sound(env, g) && id in g.watches && t.revision == g.next
    ensures var g', w := Announce(g, cs, Thing(t)), g.watches[id];
            (EndsQueue(env, g', id, Thing(t))
             <==> && (|| PUBLIC in t.labels
                      || t.kind in {KEY_EVENT, KEY_PRESSED, MOUSE_MOVE, MOUSE_BUTTON, INPUT_EVENT}
                      || CanRead(g'.log, w.owner, t.id))
                  && (forall l | l in w.pattern.labels :: l in t.labels)
                  && (forall k | k in w.pattern.props :: k in t.fields && t.fields[k] == w.pattern.props[k]))
  {
    AnnouncedIff(env, g, cs, Thing(t), id);
    hide CanRead, EndsQueue, Sound;
  }

  // A fiat ends the queue of a watch if and only if its owner may see the thing and every label and
  // property of the pattern was asked for, the caller being the owner property unless one is given.
  lemma FiatDeliveredIff(env: Env, g: Graph, owner: Uuid, req: NodeRequest, id: nat)
    requires Sound(env, g) && id in g.watches
    ensures var (g', t) := FiatNode(env, g, owner, req);
            var w := g.watches[id];
            (EndsQueue(env, g', id, Thing(t))
             <==> && (|| PUBLIC in t.labels
                      || t.kind in {KEY_EVENT, KEY_PRESSED, MOUSE_MOVE, MOUSE_BUTTON, INPUT_EVENT}
                      || CanRead(g'.log, w.owner, t.id))
                  && (forall l | l in w.pattern.labels ::
                        if req.labels == [] then l == THING_CREATED else l in req.labels)
                  && (forall k | k in w.pattern.props ::
                        if k in req.props then req.props[k] == w.pattern.props[k]
                        else k == OWNER && w.pattern.props[k] == Id(owner)))
  {
    EnsureBundleSound(env, g, owner);
    EnsureBundleExact(g, owner);
    FiatExact(env, g, owner, req);
    var g1, t := EnsureBundle(g, owner), FiatNode(env, g, owner, req).1;
    NewThingRequested(env, owner, req, g1.next);
    hide Sound, CanRead, EndsQueue, EnsureBundle, NewThing;
    ThingDeliveredIff(env, g1, [Thing(t), Edge(OwnershipEdge(env, owner, t.id, g1.next))], t, id);
  }

  // Setting properties ends the queue of a watch if and only if its owner may see the thing and the
  // pattern fits its labels and the merged properties.
  lemma SetPropsDeliveredIff(env: Env, g: Graph, owner: Uuid, node: Uuid, props: Map, id: nat)
    requires Sound(env, g) && id in g.watches && SetProps(g, owner, node, props).1
    ensures Latest(g.log, node).Some?
    ensures var g', w, was := SetProps(g, owner, node, props).0, g.watches[id], Latest(g.log, node).value;
            g'.events != [] &&
            (EndsQueue(env, g', id, g'.events[|g'.events| - 1].change)
             <==> && (|| PUBLIC in was.labels
                      || was.kind in {KEY_EVENT, KEY_PRESSED, MOUSE_MOVE, MOUSE_BUTTON, INPUT_EVENT}
                      || CanRead(g'.log, w.owner, node))
                  && (forall l | l in w.pattern.labels :: l in was.labels)
                  && (forall k | k in w.pattern.props ::
                        if k in props then props[k] == w.pattern.props[k]
                        else k in was.fields && was.fields[k] == w.pattern.props[k]))
  {
    SetPropsExact(g, owner, node, props);
    LatestHasId(g.log, node);
    var was := Latest(g.log, node).value;
    var t := was.(fields := was.fields + props, revision := g.next);
    hide Sound, CanRead, CanWrite, EndsQueue, Latest;
    assert SetProps(g, owner, node, props).0 == Announce(g, [Thing(t)], Thing(t));
    ThingDeliveredIff(env, g, [Thing(t)], t, id);
  }

  // --- Nothing hidden is delivered ------------------------------------------------------------

  lemma {:induction false} SeenIsVisible(env: Env, log: Log, owner: Uuid, p: NodePattern, events: seq<Event>, from: nat,
                                         c: GraphChange)
    requires c in Seen(env, log, owner, p, events, from)
    ensures VisibleTo(log, owner, c)
  {
    var n := |events| - 1;
    var ev := events[n];
    if c in Seen(env, log, owner, p, events[..n], from) {
      SeenIsVisible(env, log, owner, p, events[..n], from, c);
    } else {
      assert c == ev.change && VisibleTo(Before(log, ev.at), owner, c);
      VisibilityGrows(env, Before(log, ev.at), log, owner, c);
    }
  }

  lemma VisibilityGrows(env: Env, log: Log, log': Log, owner: Uuid, c: GraphChange)
    requires forall x :: x in log ==> x in log'
    requires VisibleTo(log, owner, c)
    ensures VisibleTo(log', owner, c)
  {
    if c.Thing? {
      AuthorityGrows(env, log, log', owner, c.thing.id, 0, "");
    } else {
      AuthorityGrows(env, log, log', owner, c.edge.src, 0, "");
      AuthorityGrows(env, log, log', owner, c.edge.dst, 0, "");
    }
  }

  // In every reachable state, an edge that a watch was handed or holds is one whose ends its owner
  // can read, one of them at least, or one its owner made; a thing is public, an input event or
  // readable to its owner.
  lemma NothingHiddenDelivered(env: Env, ops: seq<Op>, id: nat, c: GraphChange)
    requires id in Run(env, ops).watches
    requires var g := Run(env, ops);
             c in g.watches[id].delivered || c in Queue(env, g, g.watches[id])
    ensures var g, w := Run(env, ops), Run(env, ops).watches[id];
            && (c.Edge? ==> CanRead(g.log, w.owner, c.edge.src) || CanRead(g.log, w.owner, c.edge.dst)
                            || c.edge.owner == w.owner)
            && (c.Thing? ==> || PUBLIC in c.thing.labels
                             || c.thing.kind in {KEY_EVENT, KEY_PRESSED, MOUSE_MOVE, MOUSE_BUTTON, INPUT_EVENT}
                             || CanRead(g.log, w.owner, c.thing.id))
  {
    RunSound(env, ops);
    var g := Run(env, ops);
    var w := g.watches[id];
    assert WatchSound(env, g.log, g.events, w);
    hide Run, Seen, CanRead;
    if c in w.delivered {
      SeenIsVisible(env, g.log, w.owner, w.pattern, g.events[..w.since], w.start, c);
    } else {
      SeenIsVisible(env, g.log, w.owner, w.pattern, g.events, w.since, c);
    }
  }
}

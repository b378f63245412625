// What each operation of the kernel graph leaves behind, said over the request and the latest
// versions, the edges and the authority before and after it (kernel/src/graph/store.rs).
module GraphOutcomes {
  import opened Options
  import opened Ordered
  import opened GraphTypes
  import opened GraphLog
  import opened GraphMachine
  import opened GraphRuns

  // --- One more record ------------------------------------------------------------------------

  lemma LatestAppended(log: Log, c: GraphChange, id: Uuid)
    ensures Latest(log + [c], id) == if c.Thing? && c.thing.id == id then Some(c.thing) else Latest(log, id)
  {
    Appended(log, c, id, 0, "");
  }

  lemma LatestHasId(log: Log, id: Uuid)
    requires Latest(log, id).Some?
    ensures Latest(log, id).value.id == id
  {
    Members(log, id, 0, "");
  }

  // What is no different after records of other things.
  lemma LatestKept(log: Log, cs: seq<GraphChange>, id: Uuid)
    requires forall c | c in cs && c.Thing? :: c.thing.id != id
    ensures Latest(log + cs, id) == Latest(log, id)
    decreases |cs|
  {
    if cs == [] {
      assert log + cs == log;
    } else {
      var before, c := cs[..|cs| - 1], cs[|cs| - 1];
      LatestKept(log, before, id);
      assert log + cs == log + before + [c];
      LatestAppended(log + before, c, id);
    }
  }

  // --- set_props ------------------------------------------------------------------------------

  // The new version of a thing: the given properties over the old ones, and nothing else changed.
  ghost predicate Merged(was: GraphThing, now: GraphThing, props: Map) {
    && now.id == was.id && now.kind == was.kind && now.labels == was.labels && now.owner == was.owner
    && (forall k | k in props :: k in now.fields && now.fields[k] == props[k])
    && (forall k | k !in props :: k in now.fields <==> k in was.fields)
    && (forall k | k !in props && k in was.fields :: now.fields[k] == was.fields[k])
  }

  lemma SetPropsExact(g: Graph, owner: Uuid, node: Uuid, props: Map)
    ensures SetProps(g, owner, node, props).1 <==> Latest(g.log, node).Some? && CanWrite(g.log, owner, node)
    ensures !SetProps(g, owner, node, props).1 ==> SetProps(g, owner, node, props).0 == g
    ensures SetProps(g, owner, node, props).1 ==>
              var g' := SetProps(g, owner, node, props).0;
              var now := Latest(g'.log, node);
              && now.Some? && Merged(Latest(g.log, node).value, now.value, props) && now.value.revision == g.next
              && g'.events == g.events + [Event(Thing(now.value), |g'.log|)] && g'.watches == g.watches
              && Edges(g'.log) == Edges(g.log)
    ensures forall other | other != node :: Latest(SetProps(g, owner, node, props).0.log, other) == Latest(g.log, other)
  {
    var current := Latest(g.log, node);
    if current.Some? {
      LatestHasId(g.log, node);
      if SetProps(g, owner, node, props).1 {
        var t := current.value.(fields := current.value.fields + props, revision := g.next);
        Appended(g.log, Thing(t), node, 0, "");
        LatestAppended(g.log, Thing(t), node);
        forall other | other != node ensures Latest(g.log + [Thing(t)], other) == Latest(g.log, other) {
          LatestAppended(g.log, Thing(t), other);
        }
      }
    }
  }

  // --- fiat -----------------------------------------------------------------------------------

  // The thing a request asks for: its labels, or the default one; the least of them as its kind; its
  // properties, with the caller as owner unless one is given.
  ghost predicate Requested(env: Env, t: GraphThing, owner: Uuid, req: NodeRequest) {
    && (forall l :: l in t.labels <==> if req.labels == [] then l == THING_CREATED else l in req.labels)
    && t.kind in t.labels && (forall l | l in t.labels :: t.kind <= l)
    && (forall k | k in req.props :: k in t.fields && t.fields[k] == req.props[k])
    && (forall k | k !in req.props :: k in t.fields <==> k == OWNER)
    && (OWNER !in req.props ==> t.fields[OWNER] == Id(owner))
    && t.owner == owner
    && t.id == if req.id.Some? then req.id.value else env.thingId(t.kind, t.fields)
  }

  lemma NewThingRequested(env: Env, owner: Uuid, req: NodeRequest, revision: nat)
    ensures Requested(env, NewThing(env, owner, req, revision), owner, req)
    ensures NewThing(env, owner, req, revision).revision == revision
  {
    var labels := RequestedLabels(req.labels);
    assert req.labels != [] ==> req.labels[0] in labels;
  }

  // The bundle's node as it is made on first use.
  ghost predicate IsBundleNode(t: GraphThing, bundle: Uuid) {
    t.id == bundle && t.kind == BUNDLE && t.labels == {BUNDLE} && t.fields == map[ID := Id(bundle)] && t.owner == bundle
  }

  lemma EnsureBundleExact(g: Graph, bundle: Uuid)
    ensures var g' := EnsureBundle(g, bundle);
            && Edges(g'.log) == Edges(g.log) && g'.events == g.events && g'.watches == g.watches
            && g.next <= g'.next && Latest(g'.log, bundle).Some?
            && (if Latest(g.log, bundle).Some? then Latest(g'.log, bundle) == Latest(g.log, bundle)
                else IsBundleNode(Latest(g'.log, bundle).value, bundle))
            && forall other | other != bundle :: Latest(g'.log, other) == Latest(g.log, other)
  {
    if Versions(g.log, bundle) == [] {
      var t := BundleThing(bundle, g.next);
      Appended(g.log, Thing(t), bundle, 0, "");
      forall other | other != bundle ensures Latest(g.log + [Thing(t)], other) == Latest(g.log, other) {
        LatestAppended(g.log, Thing(t), other);
      }
    }
  }

  ghost predicate IsOwnership(e: GraphEdge, owner: Uuid, node: Uuid) {
    && e.src == owner && e.pred == OWNS && e.dst == node && e.owner == owner
    && e.props == map[OWNER := Id(owner), DST := Id(node)]
  }

  // A fiat stores what was asked for, and one ownership edge; of the other things it makes at most
  // the caller's own node.
  lemma FiatExact(env: Env, g: Graph, owner: Uuid, req: NodeRequest)
    ensures var (g', t) := FiatNode(env, g, owner, req);
            && Requested(env, t, owner, req) && Latest(g'.log, t.id) == Some(t)
            && g.next <= t.revision && g'.next == t.revision + 1
            && g'.events == g.events + [Event(Thing(t), |g'.log|)] && g'.watches == g.watches
            && |Edges(g'.log)| == |Edges(g.log)| + 1 && Edges(g'.log)[..|Edges(g.log)|] == Edges(g.log)
            && IsOwnership(Edges(g'.log)[|Edges(g.log)|], owner, t.id)
            && Edges(g'.log)[|Edges(g.log)|].revision == t.revision
            && (owner != t.id ==> Latest(g'.log, owner).Some?
                                  && (if Latest(g.log, owner).Some? then Latest(g'.log, owner) == Latest(g.log, owner)
                                      else IsBundleNode(Latest(g'.log, owner).value, owner)))
            && forall other | other != owner && other != t.id :: Latest(g'.log, other) == Latest(g.log, other)
  {
    EnsureBundleExact(g, owner);
    var g1, t := EnsureBundle(g, owner), FiatNode(env, g, owner, req).1;
    NewThingRequested(env, owner, req, g1.next);
    var e := OwnershipEdge(env, owner, t.id, g1.next);
    hide NewThing, EnsureBundle, Requested, Latest, Edges, Versions;
    var log1, log2 := g1.log + [Thing(t)], g1.log + [Thing(t)] + [Edge(e)];
    assert FiatNode(env, g, owner, req).0.log == log2;
    Appended(g1.log, Thing(t), 0, 0, "");
    Appended(log1, Edge(e), 0, 0, "");
    forall id ensures Latest(log2, id) == if id == t.id then Some(t) else Latest(g1.log, id) {
      LatestAppended(g1.log, Thing(t), id);
      LatestAppended(log1, Edge(e), id);
    }
  }

  // --- link -----------------------------------------------------------------------------------

  ghost predicate IsBetween(e: GraphEdge, req: LinkRequest) {
    e.src == req.from && e.pred == req.pred && e.dst == req.to
  }

  lemma {:induction false} LastToIsLast(es: seq<GraphEdge>, dst: Uuid, e: GraphEdge)
    requires IncreasingEdges(es) && e in es && e.dst == dst
    ensures LastTo(es, dst).Some? && e.revision <= LastTo(es, dst).value.revision
  {
    var last := es[|es| - 1];
    if last.dst != dst {
      assert es == es[..|es| - 1] + [last];
      LastToIsLast(es[..|es| - 1], dst, e);
    }
  }

  // A list with one more edge increases exactly when it did and the edge is newer than all of it.
  lemma IncreasingSplits(es: seq<GraphEdge>, e: GraphEdge)
    ensures IncreasingEdges(es + [e])
       <==> (IncreasingEdges(es) && forall d | d in es :: d.revision < e.revision)
  {
    var all := es + [e];
    if IncreasingEdges(all) {
      forall i | 0 <= i < |es| ensures es[i].revision < e.revision {
        assert all[i] == es[i] && all[|es|] == e;
      }
      forall i, j | 0 <= i < j < |es| ensures es[i].revision < es[j].revision {
        assert all[i] == es[i] && all[j] == es[j];
      }
    }
  }

  lemma {:induction false} EdgesFromIncrease(log: Log, src: Uuid, pred: string)
    requires IncreasingEdges(Edges(log))
    ensures IncreasingEdges(EdgesFrom(log, src, pred))
  {
    if log != [] {
      var rest, c := log[..|log| - 1], log[|log| - 1];
      assert log == rest + [c];
      Appended(rest, c, 0, src, pred);
      Members(rest, 0, src, pred);
      hide Edges, EdgesFrom, IncreasingEdges;
      if c.Edge? {
        IncreasingSplits(Edges(rest), c.edge);
        IncreasingSplits(EdgesFrom(rest, src, pred), c.edge);
        assert forall e | e in EdgesFrom(rest, src, pred) :: e in Edges(rest);
      }
      EdgesFromIncrease(rest, src, pred);
    }
  }

  // A refused link changes nothing and returns 0. A permitted one leaves an edge between the two
  // nodes: a new one with what was asked for and the returned revision, or, if there was one, the
  // newest of those, whose revision is returned.
  lemma LinkExact(env: Env, g: Graph, owner: Uuid, req: LinkRequest)
    requires Sound(env, g)
    ensures var (g', r) := LinkEdge(env, g, owner, req);
            && (!CanLink(env, g.log, owner, req.from, req.to, req.pred) ==> g' == g && r == 0)
            && (CanLink(env, g.log, owner, req.from, req.to, req.pred) ==>
                  Linked(g'.log, req.from, req.pred, req.to)
                  && if Linked(g.log, req.from, req.pred, req.to)
                     then g' == g && (exists e :: Edge(e) in g.log && IsBetween(e, req) && e.revision == r)
                          && (forall e | Edge(e) in g.log && IsBetween(e, req) :: e.revision <= r)
                     else NewLink(env, g, g', owner, req) && r == g.next)
            && forall id :: Latest(g'.log, id) == Latest(g.log, id)
  {
    var existing := LastTo(EdgesFrom(g.log, req.from, req.pred), req.to);
    Members(g.log, 0, req.from, req.pred);
    EdgesFromIncrease(g.log, req.from, req.pred);
    if existing.Some? {
      LastToIsIn(EdgesFrom(g.log, req.from, req.pred), req.to);
      assert Edge(existing.value) in g.log && IsBetween(existing.value, req);
    }
    forall e | Edge(e) in g.log && IsBetween(e, req)
      ensures existing.Some? && e.revision <= existing.value.revision
    {
      LastToIsLast(EdgesFrom(g.log, req.from, req.pred), req.to, e);
    }
    LinkedIsEdge(g.log, req);
    if CanLink(env, g.log, owner, req.from, req.to, req.pred) && existing.None? {
      NewLinkMade(env, g, owner, req);
    }
  }

  lemma LinkedIsEdge(log: Log, req: LinkRequest)
    ensures Linked(log, req.from, req.pred, req.to) <==> exists e :: Edge(e) in log && IsBetween(e, req)
  {
    if Linked(log, req.from, req.pred, req.to) {
      var c :| c in log && c.Edge? && c.edge.src == req.from && c.edge.pred == req.pred && c.edge.dst == req.to;
      assert Edge(c.edge) in log && IsBetween(c.edge, req);
    }
  }

  // One new edge, announced, with what was asked for.
  ghost predicate NewLink(env: Env, g: Graph, g': Graph, owner: Uuid, req: LinkRequest) {
    && |Edges(g'.log)| == |Edges(g.log)| + 1 && Edges(g'.log)[..|Edges(g.log)|] == Edges(g.log)
    && var e := Edges(g'.log)[|Edges(g.log)|];
       && IsBetween(e, req) && e.props == req.props && e.owner == owner && e.revision == g.next
       && e.id == (if req.id.Some? then req.id.value else env.edgeId(req.pred, req.props))
       && g'.events == g.events + [Event(Edge(e), |g'.log|)] && g'.watches == g.watches
       && g'.log == g.log + [Edge(e)] && g'.next == g.next + 1
  }

  lemma NewLinkMade(env: Env, g: Graph, owner: Uuid, req: LinkRequest)
    requires CanLink(env, g.log, owner, req.from, req.to, req.pred)
    requires LastTo(EdgesFrom(g.log, req.from, req.pred), req.to).None?
    ensures NewLink(env, g, LinkEdge(env, g, owner, req).0, owner, req)
    ensures Linked(LinkEdge(env, g, owner, req).0.log, req.from, req.pred, req.to)
    ensures forall id :: Latest(LinkEdge(env, g, owner, req).0.log, id) == Latest(g.log, id)
  {
    hide CanLink, LastTo, EdgesFrom, Edges, Latest;
    var e := NewEdge(env, owner, req, g.next);
    Appended(g.log, Edge(e), 0, 0, "");
    EdgeKeepsLatest(g.log, e);
    assert Edge(e) in g.log + [Edge(e)];
  }

  lemma EdgeKeepsLatest(log: Log, e: GraphEdge)
    ensures forall id :: Latest(log + [Edge(e)], id) == Latest(log, id)
  {
    forall id ensures Latest(log + [Edge(e)], id) == Latest(log, id) {
      LatestAppended(log, Edge(e), id);
    }
  }

  // --- grant ----------------------------------------------------------------------------------

  // A successful grant leaves one new edge from the grantee to the target that names the capability
  // and the grantor; of the things it makes at most the grantee's own node.
  lemma GrantExact(env: Env, g: Graph, grantor: Uuid, req: GrantRequest)
    requires GrantCapability(env, g, grantor, req).1
    ensures var g' := GrantCapability(env, g, grantor, req).0;
            && |Edges(g'.log)| == |Edges(g.log)| + 1 && Edges(g'.log)[..|Edges(g.log)|] == Edges(g.log)
            && var e := Edges(g'.log)[|Edges(g.log)|];
               && e.src == req.grantee && e.pred == req.capability && e.dst == req.target && e.owner == grantor
               && e.props == map[OWNER := Id(grantor), DST := Id(req.target)] && g'.next == e.revision + 1
               && g.next <= e.revision
               && g'.events == g.events + [Event(Edge(e), |g'.log|)] && g'.watches == g.watches
    ensures var g' := GrantCapability(env, g, grantor, req).0;
            && Latest(g'.log, req.grantee).Some?
            && (if Latest(g.log, req.grantee).Some? then Latest(g'.log, req.grantee) == Latest(g.log, req.grantee)
                else IsBundleNode(Latest(g'.log, req.grantee).value, req.grantee))
            && forall other | other != req.grantee :: Latest(g'.log, other) == Latest(g.log, other)
  {
    EnsureBundleExact(g, req.grantee);
    hide EnsureBundle, IsBundleNode;
    var g1 := EnsureBundle(g, req.grantee);
    var e := CapabilityEdge(env, grantor, req, g1.next);
    Appended(g1.log, Edge(e), 0, 0, "");
    forall id ensures Latest(g1.log + [Edge(e)], id) == Latest(g1.log, id) {
      LatestAppended(g1.log, Edge(e), id);
    }
  }
}

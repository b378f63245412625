// The kernel graph store with its maps, indexes and bounded queues, proved to do what the log
// machine does (kernel/src/graph/store.rs).
module GraphStore {
  import opened Options
  import opened Ordered
  import opened GraphTypes
  import opened GraphLog
  import opened GraphMachine
  import opened GraphRuns
  import Snap = GraphSnapshots
  import opened Paging

  datatype Watch = Watch(id: nat, owner: Uuid, pattern: NodePattern, queue: seq<GraphChange>)

  function VersionsIn(things: map<Uuid, seq<GraphThing>>, id: Uuid): seq<GraphThing> {
    if id in things then things[id] else []
  }

  function IdsIn(index: map<Symbol, set<Uuid>>, kind: Symbol): set<Uuid> {
    if kind in index then index[kind] else {}
  }

  function EdgesIn(index: map<(Uuid, string), seq<GraphEdge>>, src: Uuid, pred: string): seq<GraphEdge> {
    if (src, pred) in index then index[(src, pred)] else []
  }

  // The thing map and the kind index say what the log says: every version, and every kind an id
  // ever had, with no empty entries.
  ghost predicate ThingsIndexed(things: map<Uuid, seq<GraphThing>>, kinds: map<Symbol, set<Uuid>>, log: Log) {
    && (forall id :: VersionsIn(things, id) == Versions(log, id))
    && (forall id | id in things :: things[id] != [])
    && (forall kind :: IdsIn(kinds, kind) == KindIds(log, kind))
    && (forall kind | kind in kinds :: kinds[kind] != {})
  }

  // So do the edge list and the index by source and predicate.
  ghost predicate EdgesIndexed(edges: seq<GraphEdge>, index: map<(Uuid, string), seq<GraphEdge>>, log: Log) {
    && edges == Edges(log)
    && (forall src, pred :: EdgesIn(index, src, pred) == EdgesFrom(log, src, pred))
    && (forall key | key in index :: index[key] != [])
  }

  lemma ThingAppended(things: map<Uuid, seq<GraphThing>>, kinds: map<Symbol, set<Uuid>>, log: Log, t: GraphThing)
    requires ThingsIndexed(things, kinds, log)
    ensures ThingsIndexed(things[t.id := VersionsIn(things, t.id) + [t]],
                          kinds[t.kind := IdsIn(kinds, t.kind) + {t.id}],
                          log + [Thing(t)])
  {
    var things', kinds', log' := things[t.id := VersionsIn(things, t.id) + [t]],
        kinds[t.kind := IdsIn(kinds, t.kind) + {t.id}], log + [Thing(t)];
    forall id ensures VersionsIn(things', id) == Versions(log', id) {
      Appended(log, Thing(t), id, 0, "");
    }
    forall kind ensures IdsIn(kinds', kind) == KindIds(log', kind) {
      assert KindIds(log', kind) == KindIds(log, kind) + if kind == t.kind then {t.id} else {};
    }
  }

  lemma EdgeAppended(edges: seq<GraphEdge>, index: map<(Uuid, string), seq<GraphEdge>>, log: Log, e: GraphEdge)
    requires EdgesIndexed(edges, index, log)
    ensures EdgesIndexed(edges + [e], index[(e.src, e.pred) := EdgesIn(index, e.src, e.pred) + [e]], log + [Edge(e)])
  {
    var index' := index[(e.src, e.pred) := EdgesIn(index, e.src, e.pred) + [e]];
    Appended(log, Edge(e), 0, 0, "");
    forall src, pred ensures EdgesIn(index', src, pred) == EdgesFrom(log + [Edge(e)], src, pred) {
      Appended(log, Edge(e), 0, src, pred);
    }
  }

  // Records of the other sort leave an index alone.
  lemma IndexesIndependent(things: map<Uuid, seq<GraphThing>>, kinds: map<Symbol, set<Uuid>>,
                           edges: seq<GraphEdge>, index: map<(Uuid, string), seq<GraphEdge>>, log: Log, c: GraphChange)
    ensures c.Edge? && ThingsIndexed(things, kinds, log) ==> ThingsIndexed(things, kinds, log + [c])
    ensures c.Thing? && EdgesIndexed(edges, index, log) ==> EdgesIndexed(edges, index, log + [c])
  {
    forall id, src, pred
      ensures c.Edge? ==> Versions(log + [c], id) == Versions(log, id)
      ensures c.Thing? ==> EdgesFrom(log + [c], src, pred) == EdgesFrom(log, src, pred)
    {
      Appended(log, c, id, src, pred);
    }
    Appended(log, c, 0, 0, "");
    if c.Edge? {
      assert forall kind :: KindIds(log + [c], kind) == KindIds(log, kind);
    }
  }

  // Stores that index the same contents have equal maps.
  lemma SameContentsSameMaps(things: map<Uuid, seq<GraphThing>>, kinds: map<Symbol, set<Uuid>>,
                             edges: seq<GraphEdge>, index: map<(Uuid, string), seq<GraphEdge>>, log: Log,
                             things': map<Uuid, seq<GraphThing>>, kinds': map<Symbol, set<Uuid>>,
                             edges': seq<GraphEdge>, index': map<(Uuid, string), seq<GraphEdge>>, log': Log)
    requires ThingsIndexed(things, kinds, log) && EdgesIndexed(edges, index, log)
    requires ThingsIndexed(things', kinds', log') && EdgesIndexed(edges', index', log')
    requires Snap.SameContents(log, log')
    ensures things == things' && kinds == kinds' && edges == edges' && index == index'
  {
    Snap.SameContentsSameIndexes(log, log');
    assert forall id :: VersionsIn(things, id) == VersionsIn(things', id);
    assert forall id :: id in things <==> VersionsIn(things, id) != [];
    assert forall id :: id in things' <==> VersionsIn(things', id) != [];
    assert forall kind :: IdsIn(kinds, kind) == IdsIn(kinds', kind);
    assert forall kind :: kind in kinds <==> IdsIn(kinds, kind) != {};
    assert forall kind :: kind in kinds' <==> IdsIn(kinds', kind) != {};
    assert forall src, pred :: EdgesIn(index, src, pred) == EdgesIn(index', src, pred);
    forall key: (Uuid, string) ensures key in index <==> key in index'
      ensures key in index ==> index[key] == index'[key]
    {
      assert key == (key.0, key.1);
      assert EdgesIn(index, key.0, key.1) == EdgesIn(index', key.0, key.1);
    }
  }

  // --- Queues ---------------------------------------------------------------------------------

  lemma LastNAppend<T>(s: seq<T>, c: T, n: nat)
    requires 1 <= n
    ensures LastN(LastN(s, n) + [c], n) == LastN(s + [c], n)
  {
  }

  // One stored watch is as g says.
  ghost predicate Holds(env: Env, watches: map<nat, Watch>, g: Graph, id: nat) {
    && id in watches && id in g.watches
    && watches[id] == Watch(id, g.watches[id].owner, g.watches[id].pattern, Queue(env, g, g.watches[id]))
  }

  // The first k watches are as g' says, the others still as g says.
  ghost predicate Offered(env: Env, watches: map<nat, Watch>, g: Graph, g': Graph, ids: seq<nat>, k: nat) {
    && watches.Keys == g.watches.Keys && k <= |ids|
    && (forall m | 0 <= m < k :: Holds(env, watches, g', ids[m]))
    && (forall m | k <= m < |ids| :: Holds(env, watches, g, ids[m]))
  }

  // No watch and no event is ahead of its time.
  ghost predicate Timely(g: Graph) {
    && (forall id | id in g.watches :: g.watches[id].since <= |g.events|)
    && (forall i | 0 <= i < |g.events| :: g.events[i].at <= |g.log|)
  }

  // What announcing a change does to one queue.
  lemma QueueAnnounced(env: Env, g: Graph, cs: seq<GraphChange>, c: GraphChange, w: Watcher)
    requires w.since <= |g.events| && forall i | 0 <= i < |g.events| :: g.events[i].at <= |g.log|
    ensures Queue(env, Announce(g, cs, c), w)
         == if Receives(env, g.log + cs, w.owner, w.pattern, c)
            then LastN(Queue(env, g, w) + [c], MAX_WATCH_QUEUE) else Queue(env, g, w)
  {
    PendingAnnounced(env, g, cs, c, w);
    LastNAppend(Pending(env, g, w), c, MAX_WATCH_QUEUE);
  }

  lemma OfferedNext(env: Env, ws: map<nat, Watch>, w: Watch, g: Graph, cs: seq<GraphChange>, c: GraphChange,
                    ids: seq<nat>, k: nat)
    requires Offered(env, ws, g, Announce(g, cs, c), ids, k) && k < |ids| && Ascending(ids) && Timely(g)
    requires var v := ws[ids[k]];
             |v.queue| <= MAX_WATCH_QUEUE ==>
             w == v.(queue := if Receives(env, g.log + cs, v.owner, v.pattern, c)
                              then LastN(v.queue + [c], MAX_WATCH_QUEUE) else v.queue)
    ensures Offered(env, ws[ids[k] := w], g, Announce(g, cs, c), ids, k + 1)
  {
    assert Holds(env, ws, g, ids[k]);
    QueueAnnounced(env, g, cs, c, g.watches[ids[k]]);
    assert Holds(env, ws[ids[k] := w], Announce(g, cs, c), ids[k]);
    assert forall m | 0 <= m < |ids| && m != k :: ws[ids[k] := w][ids[m]] == ws[ids[m]];
  }

  lemma OfferedToAll(env: Env, ws: map<nat, Watch>, g: Graph, g': Graph, ids: seq<nat>)
    requires Offered(env, ws, g, g', ids, |ids|) && forall id | id in g.watches :: id in ids
    ensures forall id | id in ws :: Holds(env, ws, g', id)
  {
  }

  lemma SoundIsTimely(env: Env, g: Graph)
    requires Sound(env, g)
    ensures Timely(g)
  {
    forall id | id in g.watches ensures g.watches[id].since <= |g.events| {
      assert WatchSound(env, g.log, g.events, g.watches[id]);
    }
  }

  ghost predicate AllHold(env: Env, ws: map<nat, Watch>, g: Graph) {
    ws.Keys == g.watches.Keys && forall id | id in ws :: Holds(env, ws, g, id)
  }

  // Records that are not announced change no queue.
  lemma QuietlyQueued(env: Env, ws: map<nat, Watch>, g: Graph, cs: seq<GraphChange>)
    requires Sound(env, g) && AllHold(env, ws, g)
    ensures AllHold(env, ws, g.(next := g.next + 1, log := g.log + cs))
  {
    var g' := g.(next := g.next + 1, log := g.log + cs);
    forall id | id in ws ensures Holds(env, ws, g', id) {
      assert Holds(env, ws, g, id);
      var w := g.watches[id];
      SeenIsStable(env, g.log, cs, w.owner, w.pattern, g.events, w.since);
    }
  }

  lemma RegisteredQueued(env: Env, ws: map<nat, Watch>, g: Graph, owner: Uuid, p: NodePattern)
    requires Sound(env, g) && AllHold(env, ws, g)
    ensures AllHold(env, ws[g.nextWatch := Watch(g.nextWatch, owner, p, [])], RegisterWatch(g, owner, p).0)
  {
    var (g', n) := RegisterWatch(g, owner, p);
    var ws' := ws[n := Watch(n, owner, p, [])];
    forall id | id in ws' ensures Holds(env, ws', g', id) {
      if id != n {
        assert Holds(env, ws, g, id);
      }
    }
  }

  lemma PolledQueued(env: Env, ws: map<nat, Watch>, g: Graph, id: nat)
    requires AllHold(env, ws, g) && id in ws
    ensures AllHold(env, ws[id := ws[id].(queue := [])], g.(watches := g.watches[id := Polled(env, g, g.watches[id])]))
  {
    var g', ws' := g.(watches := g.watches[id := Polled(env, g, g.watches[id])]), ws[id := ws[id].(queue := [])];
    forall other | other in ws' ensures Holds(env, ws', g', other) {
      assert Holds(env, ws, g, other);
    }
  }

  // No insert of a record with the next revision is dropped.
  lemma NewestThingKept(log: Log, next: nat, t: GraphThing)
    requires LogOrdered(log, next) && t.revision == next
    ensures Snap.InsertThing(log, t) == log + [Thing(t)]
  {
    hide Versions;
    NextIsNewest(log, next, t.id);
  }

  lemma FirstVersionKept(log: Log, t: GraphThing)
    requires Versions(log, t.id) == []
    ensures Snap.InsertThing(log, t) == log + [Thing(t)]
  {
  }

  lemma NewestEdgeKept(log: Log, next: nat, e: GraphEdge)
    requires LogOrdered(log, next) && e.revision == next
    ensures Snap.InsertEdge(log, e) == log + [Edge(e)]
  {
    hide Edges;
    NextIsNewest(log, next, 0);
  }

  lemma InsertsKept(log: Log, next: nat, t: GraphThing, e: GraphEdge)
    requires LogOrdered(log, next) && t.revision == e.revision == next
    ensures Snap.InsertThing(log, t) == log + [Thing(t)]
    ensures Snap.InsertEdge(log + [Thing(t)], e) == log + [Thing(t), Edge(e)]
  {
    hide Edges, Versions;
    NextIsNewest(log, next, t.id);
    Appended(log, Thing(t), 0, 0, "");
    assert log + [Thing(t)] + [Edge(e)] == log + [Thing(t), Edge(e)];
  }

  lemma KeysAreIds(things: map<Uuid, seq<GraphThing>>, kinds: map<Symbol, set<Uuid>>, log: Log)
    requires ThingsIndexed(things, kinds, log)
    ensures things.Keys == Snap.AllIds(log)
  {
    forall id ensures id in things <==> id in Snap.AllIds(log) {
      Snap.HasVersions(log, id);
      assert VersionsIn(things, id) == Versions(log, id);
    }
  }

  // --- Pages ----------------------------------------------------------------------------------

  function ReadableBy(log: Log, bundle: Uuid, ids: set<Uuid>): set<Uuid> {
    set id | id in ids && CanRead(log, bundle, id)
  }

  // The latest versions of the listed things.
  ghost predicate LatestAre(log: Log, things: seq<GraphThing>, ids: seq<Uuid>) {
    |things| == |ids| && forall k | 0 <= k < |ids| :: Latest(log, ids[k]) == Some(things[k])
  }

  lemma KindIdsHaveVersions(log: Log, kind: Symbol, id: Uuid)
    requires id in KindIds(log, kind)
    ensures Latest(log, id).Some?
  {
    Snap.HasVersions(log, id);
  }

  // A page under way: what positions [cursor, k) gave, and where the page will stop.
  ghost predicate Scanned(log: Log, ids: seq<Uuid>, readable: set<Uuid>, cursor: nat, k: nat,
                          results: seq<GraphThing>) {
    && cursor <= k <= |ids| && |results| <= PAGE
    && LatestAre(log, results, Readable(ids, readable, cursor, k))
    && Stop(ids, readable, cursor, PAGE) == Stop(ids, readable, k, PAGE - |results|)
  }

  lemma NothingScanned(log: Log, ids: seq<Uuid>, readable: set<Uuid>, cursor: nat)
    ensures cursor <= |ids| ==> Scanned(log, ids, readable, cursor, cursor, [])
  {
  }

  lemma ScannedOneMore(log: Log, ids: seq<Uuid>, readable: set<Uuid>, cursor: nat, k: nat,
                       results: seq<GraphThing>, latest: GraphThing)
    requires Scanned(log, ids, readable, cursor, k, results) && k < |ids| && |results| < PAGE
    requires Latest(log, ids[k]) == Some(latest)
    ensures Scanned(log, ids, readable, cursor, k + 1, if ids[k] in readable then results + [latest] else results)
  {
    hide Latest, Readable;
    ReadableOneMore(ids, readable, cursor, k);
  }

  lemma PageIsFull(log: Log, ids: seq<Uuid>, readable: set<Uuid>, cursor: nat, k: nat, results: seq<GraphThing>)
    requires Scanned(log, ids, readable, cursor, k, results) && k < |ids| && |results| == PAGE
    ensures LatestAre(log, results, Page(ids, readable, cursor)) && Next(ids, readable, cursor) == cursor + PAGE
  {
  }

  lemma PageIsLast(log: Log, ids: seq<Uuid>, readable: set<Uuid>, cursor: nat, results: seq<GraphThing>)
    requires cursor <= |ids| ==> Scanned(log, ids, readable, cursor, |ids|, results)
    requires |ids| < cursor ==> results == []
    ensures LatestAre(log, results, Page(ids, readable, cursor)) && Next(ids, readable, cursor) == 0
  {
  }

  lemma EmptyStart(log: Log, ids: seq<Uuid>)
    ensures LatestAre(log, [], []) && ids == [] + ids
  {
  }

  // One more page of a cursor that is followed.
  lemma FollowedNext(log: Log, ids: seq<Uuid>, readable: set<Uuid>, done: seq<Uuid>, results: seq<GraphThing>,
                     cursor: nat, page: seq<GraphThing>)
    requires LatestAre(log, results, done) && LatestAre(log, page, Page(ids, readable, cursor))
    ensures LatestAre(log, results + page, done + Page(ids, readable, cursor))
    ensures done + Follow(ids, readable, cursor)
         == done + Page(ids, readable, cursor)
            + if Next(ids, readable, cursor) == 0 then [] else Follow(ids, readable, Next(ids, readable, cursor))
  {
    hide Latest, Page, Next;
    var rest := if Next(ids, readable, cursor) == 0 then [] else Follow(ids, readable, Next(ids, readable, cursor));
    assert Follow(ids, readable, cursor) == Page(ids, readable, cursor) + rest;
    assert done + (Page(ids, readable, cursor) + rest) == done + Page(ids, readable, cursor) + rest;
  }

  // A thing just made is among those its maker finds by its kind.
  lemma FiatIsListed(env: Env, g: Graph, owner: Uuid, req: NodeRequest)
    requires Sound(env, g)
    ensures var (g', t) := FiatNode(env, g, owner, req);
            var ids := KindIds(g'.log, t.kind);
            t.id in Follow(Sorted(ids), ReadableBy(g'.log, owner, ids), 0)
  {
    FiatSound(env, g, owner, req);
    var (g', t) := FiatNode(env, g, owner, req);
    var ids := KindIds(g'.log, t.kind);
    Members(g'.log, t.id, 0, "");
    assert t in Versions(g'.log, t.id);
    assert Thing(t) in g'.log && t.id in ids;
    hide Follow, FiatNode, Sound;
    FollowMissesNothing(Sorted(ids), ReadableBy(g'.log, owner, ids), 0, t.id);
    var k :| 0 <= k < |Sorted(ids)| && Sorted(ids)[k] == t.id;
  }

  class Store {
    const env: Env
    var nextRevision: nat
    var things: map<Uuid, seq<GraphThing>>
    var edges: seq<GraphEdge>
    var kindIndex: map<Symbol, set<Uuid>>
    var edgesBySrcPred: map<(Uuid, string), seq<GraphEdge>>
    var watches: map<nat, Watch>
    var nextWatchId: nat
    ghost var graph: Graph

    ghost predicate Indexed(log: Log)
      reads `things, `kindIndex, `edges, `edgesBySrcPred
    {
      ThingsIndexed(things, kindIndex, log) && EdgesIndexed(edges, edgesBySrcPred, log)
    }

    // The stored watches are those of g, each with its queue.
    ghost predicate Queued(g: Graph)
      reads `watches
    {
      AllHold(env, watches, g)
    }

    ghost predicate Valid()
      reads this
    {
      && Sound(env, graph)
      && nextRevision == graph.next && nextWatchId == graph.nextWatch
      && Indexed(graph.log) && Queued(graph)
    }

    constructor (env: Env)
      ensures Valid() && graph == Empty() && this.env == env
    {
      this.env := env;
      nextRevision := 1;
      things, edges, kindIndex, edgesBySrcPred, watches := map[], [], map[], map[], map[];
      nextWatchId := 1;
      graph := Empty();
    }

    // --- Queries through the indexes ---

    function HasEdge(src: Uuid, pred: string, dst: Uuid, ghost log: Log): (r: bool)
      requires Indexed(log)
      reads this
      ensures r == Linked(log, src, pred, dst)
    {
      assert EdgesIn(edgesBySrcPred, src, pred) == EdgesFrom(log, src, pred);
      Members(log, 0, src, pred);
      assert forall c | c in log && c.Edge? :: c == Edge(c.edge);
      (src, pred) in edgesBySrcPred && exists e | e in edgesBySrcPred[(src, pred)] :: e.dst == dst
    }

    function MayWrite(bundle: Uuid, node: Uuid, ghost log: Log): (r: bool)
      requires Indexed(log)
      reads this
      ensures r == CanWrite(log, bundle, node)
    {
      bundle == KERNEL || HasEdge(bundle, OWNS, node, log) || HasEdge(bundle, CAN_WRITE, node, log)
    }

    function MayRead(bundle: Uuid, node: Uuid, ghost log: Log): (r: bool)
      requires Indexed(log)
      reads this
      ensures r == CanRead(log, bundle, node)
    {
      bundle == KERNEL || HasEdge(bundle, OWNS, node, log) || HasEdge(bundle, CAN_READ, node, log)
        || MayWrite(bundle, node, log)
    }

    function MaySee(bundle: Uuid, c: GraphChange, ghost log: Log): (r: bool)
      requires Indexed(log)
      reads this
      ensures r == VisibleTo(log, bundle, c)
    {
      if c.Thing? && PubliclyVisible(c.thing) then true
      else match c
           case Thing(t) => MayRead(bundle, t.id, log)
           case Edge(e) => MayRead(bundle, e.src, log) || MayRead(bundle, e.dst, log) || e.owner == bundle
    }

    function LatestOf(id: Uuid, ghost log: Log): (r: Option<GraphThing>)
      requires Indexed(log)
      reads this
      ensures r == Latest(log, id)
    {
      assert VersionsIn(things, id) == Versions(log, id);
      if id in things then Some(things[id][|things[id]| - 1]) else None
    }

    // The loop over the caller's CAN_LINK edges.
    method MayLink(bundle: Uuid, from: Uuid, to: Uuid, pred: string, ghost log: Log) returns (r: bool)
      requires Indexed(log)
      ensures r == CanLink(env, log, bundle, from, to, pred)
    {
      if bundle == KERNEL || HasEdge(bundle, OWNS, from, log) || HasEdge(bundle, OWNS, to, log) { return true; }
      ghost var found := EdgesFrom(log, bundle, CAN_LINK);
      assert EdgesIn(edgesBySrcPred, bundle, CAN_LINK) == found;
      Members(log, 0, bundle, CAN_LINK);
      if (bundle, CAN_LINK) in edgesBySrcPred {
        var es := edgesBySrcPred[(bundle, CAN_LINK)];
        for k := 0 to |es|
          invariant forall m | 0 <= m < k :: !Admits(env, es[m], from, to, pred)
        {
          var e := es[k];
          if e.dst == from || e.dst == to {
            if KIND in e.props && e.props[KIND].Sym? {
              if env.nameOf(e.props[KIND].symbol) == pred {
                assert e in found && Edge(e) in log;
                return true;
              }
            } else {
              assert e in found && Edge(e) in log;
              return true;
            }
          }
        }
      }
      forall c | c in log && c.Edge? && c.edge.src == bundle && c.edge.pred == CAN_LINK
        ensures !Admits(env, c.edge, from, to, pred)
      {
        assert c == Edge(c.edge) && c.edge in found;
      }
      return false;
    }

    // The latest edge between two nodes: the list is searched from its end.
    method EdgeBetween(src: Uuid, pred: string, dst: Uuid, ghost log: Log) returns (r: Option<GraphEdge>)
      requires Indexed(log)
      ensures r == LastTo(EdgesFrom(log, src, pred), dst)
    {
      assert EdgesIn(edgesBySrcPred, src, pred) == EdgesFrom(log, src, pred);
      if (src, pred) !in edgesBySrcPred { return None; }
      var es := edgesBySrcPred[(src, pred)];
      var k := |es|;
      assert es[..k] == es;
      while 0 < k
        invariant 0 <= k <= |es| && LastTo(es, dst) == LastTo(es[..k], dst)
      {
        assert es[..k][..k - 1] == es[..k - 1];
        if es[k - 1].dst == dst { return Some(es[k - 1]); }
        k := k - 1;
      }
      return None;
    }

    // --- Inserts ---

    method InsertThing(t: GraphThing, ghost log: Log)
      requires Indexed(log)
      modifies `things, `kindIndex
      ensures Indexed(Snap.InsertThing(log, t))
    {
      hide Versions, Edges, EdgesFrom, KindIds;
      assert VersionsIn(things, t.id) == Versions(log, t.id);
      var versions := if t.id in things then things[t.id] else [];
      if versions == [] || versions[|versions| - 1].revision < t.revision {
        ThingAppended(things, kindIndex, log, t);
        IndexesIndependent(things, kindIndex, edges, edgesBySrcPred, log, Thing(t));
        things := things[t.id := versions + [t]];
        kindIndex := kindIndex[t.kind := (if t.kind in kindIndex then kindIndex[t.kind] else {}) + {t.id}];
      }
    }

    method InsertEdge(e: GraphEdge, ghost log: Log)
      requires Indexed(log)
      modifies `edges, `edgesBySrcPred
      ensures Indexed(Snap.InsertEdge(log, e))
    {
      hide Versions, Edges, EdgesFrom, KindIds;
      if edges == [] || edges[|edges| - 1].revision < e.revision {
        EdgeAppended(edges, edgesBySrcPred, log, e);
        IndexesIndependent(things, kindIndex, edges, edgesBySrcPred, log, Edge(e));
        edges := edges + [e];
        var key := (e.src, e.pred);
        edgesBySrcPred := edgesBySrcPred[key := (if key in edgesBySrcPred then edgesBySrcPred[key] else []) + [e]];
      }
    }

    method NextRevision() returns (r: nat)
      modifies `nextRevision
      ensures r == old(nextRevision) && nextRevision == old(nextRevision) + 1
    {
      r := nextRevision;
      nextRevision := nextRevision + 1;
    }

    // --- Announcements ---

    function TargetOf(c: GraphChange, ghost log: Log): (r: Option<GraphThing>)
      requires Indexed(log)
      reads this
      ensures r == Target(log, c)
    {
      match c
      case Thing(t) => Some(t)
      case Edge(e) => if LatestOf(e.src, log).Some? then LatestOf(e.src, log) else LatestOf(e.dst, log)
    }

    // Offers a change to one watch, dropping the oldest change of a full queue.
    function Offer(w: Watch, c: GraphChange, ghost log: Log): (r: Watch)
      requires Indexed(log)
      reads this
      ensures |w.queue| <= MAX_WATCH_QUEUE ==>
                r == w.(queue := if Receives(env, log, w.owner, w.pattern, c)
                                 then LastN(w.queue + [c], MAX_WATCH_QUEUE) else w.queue)
    {
      var target := TargetOf(c, log);
      if MaySee(w.owner, c, log) && target.Some?
         && MatchesPattern(env, w.pattern, target.value, if c.Edge? then Some(c.edge) else None)
      then
        var queue := w.queue + [c];
        w.(queue := if MAX_WATCH_QUEUE < |queue| then queue[1..] else queue)
      else w
    }

    // Offers a change to every watch in turn. The indexes already hold the new records.
    method NotifyWatches(c: GraphChange, ghost g: Graph, ghost cs: seq<GraphChange>)
      requires Timely(g) && Queued(g) && Indexed(g.log + cs)
      modifies `watches
      ensures Queued(Announce(g, cs, c))
    {
      var ids := Sorted(watches.Keys);
      var ws := OfferAll(ids, c, g, cs);
      OfferedToAll(env, ws, g, Announce(g, cs, c), ids);
      watches := ws;
    }

    method OfferAll(ids: seq<nat>, c: GraphChange, ghost g: Graph, ghost cs: seq<GraphChange>)
      returns (ws: map<nat, Watch>)
      requires Timely(g) && Indexed(g.log + cs) && Ascending(ids)
      requires Offered(env, watches, g, Announce(g, cs, c), ids, 0)
      ensures Offered(env, ws, g, Announce(g, cs, c), ids, |ids|)
    {
      ws := watches;
      for k := 0 to |ids|
        invariant Offered(env, ws, g, Announce(g, cs, c), ids, k)
      {
        var w := Offer(ws[ids[k]], c, g.log + cs);
        OfferedNext(env, ws, w, g, cs, c, ids, k);
        ws := ws[ids[k] := w];
      }
    }

    // The end of an operation whose records are already inserted.
    method Commit(c: GraphChange, ghost cs: seq<GraphChange>)
      requires Sound(env, graph) && Queued(graph) && Indexed(graph.log + cs)
      requires nextRevision == graph.next + 1 && nextWatchId == graph.nextWatch
      requires Sound(env, Announce(graph, cs, c))
      modifies `watches, `graph
      ensures Valid() && graph == Announce(old(graph), cs, c)
    {
      SoundIsTimely(env, graph);
      NotifyWatches(c, graph, cs);
      graph := Announce(graph, cs, c);
    }

    // --- Operations ---

    method EnsureBundleNode(bundle: Uuid)
      requires Valid()
      modifies this
      ensures Valid() && graph == EnsureBundle(old(graph), bundle)
    {
      assert VersionsIn(things, bundle) == Versions(graph.log, bundle);
      if bundle !in things {
        AddBundleNode(bundle);
      }
    }

    method AddBundleNode(bundle: Uuid)
      requires Valid() && Versions(graph.log, bundle) == []
      modifies this
      ensures Valid() && graph == EnsureBundle(old(graph), bundle)
    {
      EnsureBundleSound(env, graph, bundle);
      hide Sound, Versions, ThingsIndexed, EdgesIndexed, AllHold, Snap.InsertThing;
      var rev := NextRevision();
      var t := BundleThing(bundle, rev);
      QuietlyQueued(env, watches, graph, [Thing(t)]);
      FirstVersionKept(graph.log, t);
      InsertThing(t, graph.log);
      graph := EnsureBundle(graph, bundle);
    }

    method Fiat(owner: Uuid, req: NodeRequest) returns (t: GraphThing)
      requires Valid()
      modifies this
      ensures Valid() && graph == FiatNode(env, old(graph), owner, req).0
              && t == FiatNode(env, old(graph), owner, req).1
    {
      EnsureBundleNode(owner);
      t := InsertOwned(owner, req);
    }

    // The new version, its ownership edge, and then the announcement.
    method InsertOwned(owner: Uuid, req: NodeRequest) returns (t: GraphThing)
      requires Valid()
      modifies this
      ensures Valid() && graph == CreateOwned(env, old(graph), owner, req).0
              && t == CreateOwned(env, old(graph), owner, req).1
    {
      CreateOwnedSound(env, graph, owner, req);
      var rev := NextRevision();
      t := NewThing(env, owner, req, rev);
      var e := OwnershipEdge(env, owner, t.id, rev);
      InsertBoth(t, e, graph.log, graph.next);
      Commit(Thing(t), [Thing(t), Edge(e)]);
    }

    method InsertBoth(t: GraphThing, e: GraphEdge, ghost log: Log, ghost next: nat)
      requires Indexed(log) && LogOrdered(log, next) && t.revision == e.revision == next
      modifies `things, `kindIndex, `edges, `edgesBySrcPred
      ensures Indexed(log + [Thing(t), Edge(e)])
    {
      InsertsKept(log, next, t, e);
      hide LogOrdered, ThingsIndexed, EdgesIndexed, Snap.InsertThing, Snap.InsertEdge;
      InsertThing(t, log);
      InsertEdge(e, log + [Thing(t)]);
    }

    // A new version with the next revision.
    method AppendThing(t: GraphThing)
      requires Valid() && t.revision == nextRevision && Sound(env, Announce(graph, [Thing(t)], Thing(t)))
      modifies this
      ensures Valid() && graph == Announce(old(graph), [Thing(t)], Thing(t))
    {
      var rev := NextRevision();
      NewestThingKept(graph.log, graph.next, t);
      InsertThing(t, graph.log);
      Commit(Thing(t), [Thing(t)]);
    }

    // A new edge with the next revision.
    method AppendEdge(e: GraphEdge)
      requires Valid() && e.revision == nextRevision && Sound(env, Announce(graph, [Edge(e)], Edge(e)))
      modifies this
      ensures Valid() && graph == Announce(old(graph), [Edge(e)], Edge(e))
    {
      var rev := NextRevision();
      NewestEdgeKept(graph.log, graph.next, e);
      InsertEdge(e, graph.log);
      Commit(Edge(e), [Edge(e)]);
    }

    method Link(owner: Uuid, req: LinkRequest) returns (r: nat)
      requires Valid()
      modifies this
      ensures Valid() && graph == LinkEdge(env, old(graph), owner, req).0
              && r == LinkEdge(env, old(graph), owner, req).1
    {
      var allowed := MayLink(owner, req.from, req.to, req.pred, graph.log);
      if !allowed { return 0; }
      var existing := EdgeBetween(req.from, req.pred, req.to, graph.log);
      if existing.Some? { return existing.value.revision; }
      LinkSound(env, graph, owner, req);
      r := nextRevision;
      AppendEdge(NewEdge(env, owner, req, r));
    }

    method Grant(grantor: Uuid, req: GrantRequest) returns (ok: bool)
      requires Valid()
      modifies this
      ensures Valid() && graph == GrantCapability(env, old(graph), grantor, req).0
      ensures ok == GrantCapability(env, old(graph), grantor, req).1
    {
      if !IsDataCapability(req.capability) && !IsHardwareCapability(req.capability) { return false; }
      var may := if IsHardwareCapability(req.capability) then grantor == KERNEL
                 else grantor == KERNEL || HasEdge(grantor, OWNS, req.target, graph.log);
      if !may { return false; }
      GrantSound(env, graph, grantor, req);
      EnsureBundleNode(req.grantee);
      AppendEdge(CapabilityEdge(env, grantor, req, nextRevision));
      return true;
    }

    method Props(owner: Uuid, node: Uuid, props: Map) returns (ok: bool)
      requires Valid()
      modifies this
      ensures Valid() && graph == SetProps(old(graph), owner, node, props).0
              && ok == SetProps(old(graph), owner, node, props).1
    {
      var current := LatestOf(node, graph.log);
      if current.None? { return false; }
      if !MayWrite(owner, current.value.id, graph.log) { return false; }
      SetPropsSound(env, graph, owner, node, props);
      AppendThing(current.value.(fields := current.value.fields + props, revision := nextRevision));
      return true;
    }

    method Register(owner: Uuid, p: NodePattern) returns (id: nat)
      requires Valid()
      modifies this
      ensures Valid() && graph == RegisterWatch(old(graph), owner, p).0 && id == RegisterWatch(old(graph), owner, p).1
    {
      RegisterSound(env, graph, owner, p);
      id := nextWatchId;
      nextWatchId := nextWatchId + 1;
      RegisteredQueued(env, watches, graph, owner, p);
      watches := watches[id := Watch(id, owner, p, [])];
      graph := RegisterWatch(graph, owner, p).0;
    }

    method Poll(id: nat) returns (r: Option<Batch>)
      requires Valid()
      modifies this
      ensures Valid() && graph == PollWatch(env, old(graph), id).0 && r == PollWatch(env, old(graph), id).1
    {
      if id !in watches { return None; }
      assert Holds(env, watches, graph, id);
      if watches[id].queue == [] { return None; }
      PollSound(env, graph, id);
      var changes := watches[id].queue;
      r := Some(Batch(0, nextRevision, changes));
      PolledQueued(env, watches, graph, id);
      watches := watches[id := watches[id].(queue := [])];
      graph := PollWatch(env, graph, id).0;
    }

    // --- Snapshots ---

    // Every version of every thing, in id order, and every edge.
    method TakeSnapshot() returns (s: Snap.Snapshot)
      requires Valid()
      ensures s == Snap.SnapshotOf(graph.log, graph.next)
    {
      hide Sound, AllHold, Edges, Snap.AllIds;
      KeysAreIds(things, kindIndex, graph.log);
      var ids := Sorted(things.Keys);
      var all := CollectVersions(ids, graph.log);
      s := Snap.Snapshot(if nextRevision == 0 then 0 else nextRevision - 1, all, edges);
    }

    method CollectVersions(ids: seq<Uuid>, ghost log: Log) returns (all: seq<GraphThing>)
      requires ThingsIndexed(things, kindIndex, log) && forall id | id in ids :: id in things
      ensures all == Snap.AllVersions(log, ids)
    {
      hide Versions;
      all := [];
      for k := 0 to |ids|
        invariant all == Snap.AllVersions(log, ids[..k])
      {
        assert ids[..k + 1][..k] == ids[..k];
        assert VersionsIn(things, ids[k]) == Versions(log, ids[k]);
        all := all + things[ids[k]];
      }
      assert ids[..|ids|] == ids;
    }

    // Clears the store and replays a snapshot through the guarded inserts. Any snapshot is
    // accepted; the indexes always describe what was kept.
    method ApplySnapshot(s: Snap.Snapshot)
      modifies this
      ensures Indexed(Snap.Replay(s))
      ensures nextRevision == s.revision + 1 && watches == map[] && nextWatchId == old(nextWatchId)
              && graph == old(graph)
    {
      things, edges, kindIndex, edgesBySrcPred, watches := map[], [], map[], map[], map[];
      assert Indexed([]);
      hide ThingsIndexed, EdgesIndexed;
      InsertThings(s.things, []);
      InsertEdges(s.edges, Snap.ReplayThings([], s.things));
      nextRevision := s.revision + 1;
    }

    method InsertThings(ts: seq<GraphThing>, ghost log: Log)
      requires Indexed(log)
      modifies `things, `kindIndex
      ensures Indexed(Snap.ReplayThings(log, ts))
    {
      hide ThingsIndexed, EdgesIndexed, Snap.InsertThing;
      for k := 0 to |ts|
        invariant Indexed(Snap.ReplayThings(log, ts[..k]))
      {
        assert ts[..k + 1][..k] == ts[..k];
        InsertThing(ts[k], Snap.ReplayThings(log, ts[..k]));
      }
      assert ts[..|ts|] == ts;
    }

    method InsertEdges(es: seq<GraphEdge>, ghost log: Log)
      requires Indexed(log)
      modifies `edges, `edgesBySrcPred
      ensures Indexed(Snap.ReplayEdges(log, es))
    {
      hide ThingsIndexed, EdgesIndexed, Snap.InsertEdge;
      for k := 0 to |es|
        invariant Indexed(Snap.ReplayEdges(log, es[..k]))
      {
        assert es[..k + 1][..k] == es[..k];
        InsertEdge(es[k], Snap.ReplayEdges(log, es[..k]));
      }
      assert es[..|es|] == es;
    }

    // Applying the snapshot of a sound graph gives the restored graph.
    method Reload(s: Snap.Snapshot, ghost g: Graph)
      requires Sound(env, g) && s == Snap.SnapshotOf(g.log, g.next)
      modifies this
      ensures Valid() && graph == Restored(g, old(nextWatchId)) && watches == map[] && nextWatchId == old(nextWatchId)
    {
      RestoreSound(env, g, nextWatchId);
      hide Sound, ThingsIndexed, EdgesIndexed, Snap.Replay, Snap.AllVersions;
      ApplySnapshot(s);
      graph := Restored(g, nextWatchId);
    }

    // Applying the snapshot of any valid store, itself included, restores that store's versions,
    // edges, indexes and revision counter exactly.
    method RestoreFrom(source: Store)
      requires source.Valid() && env == source.env
      modifies this
      ensures Valid() && watches == map[] && nextWatchId == old(nextWatchId)
      ensures graph == Restored(old(source.graph), nextWatchId)
      ensures things == old(source.things) && edges == old(source.edges)
      ensures kindIndex == old(source.kindIndex) && edgesBySrcPred == old(source.edgesBySrcPred)
      ensures nextRevision == old(source.nextRevision)
    {
      ghost var g := source.graph;
      Snap.SnapshotRoundTrip(g.log, g.next);
      var s := source.TakeSnapshot();
      hide Sound, ThingsIndexed, EdgesIndexed, AllHold, Snap.SameContents, Snap.Replay, Snap.SnapshotOf;
      Reload(s, g);
      SameContentsSameMaps(old(source.things), old(source.kindIndex),
                           old(source.edges), old(source.edgesBySrcPred), g.log,
                           things, kindIndex, edges, edgesBySrcPred, graph.log);
    }

    // --- Paging ---

    // One page of the readable things that ever had a kind. An unknown kind name has no symbol.
    method FindByKind(owner: Uuid, kind: Option<Symbol>, cursor: nat) returns (results: seq<GraphThing>, next: nat)
      requires Valid()
      ensures kind.None? ==> results == [] && next == 0
      ensures kind.Some? ==> var ids := Sorted(KindIds(graph.log, kind.value));
                             var readable := ReadableBy(graph.log, owner, KindIds(graph.log, kind.value));
                             && LatestAre(graph.log, results, Page(ids, readable, cursor))
                             && next == Next(ids, readable, cursor)
    {
      if kind.None? { return [], 0; }
      ghost var log := graph.log;
      assert IdsIn(kindIndex, kind.value) == KindIds(log, kind.value);
      var ids := Sorted(if kind.value in kindIndex then kindIndex[kind.value] else {});
      forall id | id in ids ensures Latest(log, id).Some? { KindIdsHaveVersions(log, kind.value, id); }
      results, next := ScanPage(owner, ids, cursor, log, ReadableBy(log, owner, KindIds(log, kind.value)));
    }

    method ScanPage(owner: Uuid, ids: seq<Uuid>, cursor: nat, ghost log: Log, ghost readable: set<Uuid>)
      returns (results: seq<GraphThing>, next: nat)
      requires Indexed(log)
      requires forall id | id in ids :: Latest(log, id).Some? && (id in readable <==> CanRead(log, owner, id))
      ensures LatestAre(log, results, Page(ids, readable, cursor)) && next == Next(ids, readable, cursor)
    {
      hide Indexed, Latest, CanRead, LatestAre, Readable, Stop;
      results, next := [], 0;
      var skipped := 0;
      NothingScanned(log, ids, readable, cursor);
      for k := 0 to |ids|
        invariant skipped == if k <= cursor then k else cursor
        invariant k <= cursor ==> results == []
        invariant cursor <= k ==> Scanned(log, ids, readable, cursor, k, results)
        invariant next == 0
      {
        if skipped < cursor {
          skipped := skipped + 1;
          continue;
        }
        if PAGE <= |results| {
          next := cursor + |results|;
          PageIsFull(log, ids, readable, cursor, k, results);
          return;
        }
        var latest := LatestOf(ids[k], log);
        ScannedOneMore(log, ids, readable, cursor, k, results, latest.value);
        if MayRead(owner, ids[k], log) {
          results := results + [latest.value];
        }
      }
      PageIsLast(log, ids, readable, cursor, results);
    }

    // The caller's loop: pages are requested until the cursor comes back as 0.
    method FollowKind(owner: Uuid, kind: Symbol) returns (results: seq<GraphThing>)
      requires Valid()
      ensures var ids := Sorted(KindIds(graph.log, kind));
              var readable := ReadableBy(graph.log, owner, KindIds(graph.log, kind));
              LatestAre(graph.log, results, Follow(ids, readable, 0))
    {
      ghost var log := graph.log;
      ghost var ids, readable := Sorted(KindIds(log, kind)), ReadableBy(log, owner, KindIds(log, kind));
      ghost var done: seq<Uuid> := [];
      hide Valid, LatestAre, KindIds, ReadableBy, Page, Next, Follow;
      EmptyStart(log, Follow(ids, readable, 0));
      var cursor := 0;
      results := [];
      while true
        invariant LatestAre(log, results, done) && Follow(ids, readable, 0) == done + Follow(ids, readable, cursor)
        decreases |ids| - cursor
      {
        var page, next := FindByKind(owner, Some(kind), cursor);
        FollowedNext(log, ids, readable, done, results, cursor, page);
        results := results + page;
        done := done + Page(ids, readable, cursor);
        NextIsInside(ids, readable, cursor);
        if next == 0 {
          assert done + [] == done;
          return;
        }
        cursor := next;
      }
    }
  }
}

// Snapshot and restore: replaying a store's own snapshot through the guarded inserts restores
// every version and every edge (kernel/src/graph/store.rs).
module GraphSnapshots {
  import opened Ordered
  import opened GraphTypes
  import opened GraphLog
  import opened GraphMachine

  datatype Snapshot = Snapshot(revision: nat, things: seq<GraphThing>, edges: seq<GraphEdge>)

  function AllIds(log: Log): set<Uuid> {
    set c | c in log && c.Thing? :: c.thing.id
  }

  // The versions of the listed things, thing by thing.
  function AllVersions(log: Log, ids: seq<Uuid>): seq<GraphThing> {
    if ids == [] then [] else AllVersions(log, ids[..|ids| - 1]) + Versions(log, ids[|ids| - 1])
  }

  function SnapshotOf(log: Log, next: nat): Snapshot {
    Snapshot(if next == 0 then 0 else next - 1, AllVersions(log, Sorted(AllIds(log))), Edges(log))
  }

  // --- The guarded inserts --------------------------------------------------------------------

  lemma {:induction false} AllVersionsExact(log: Log, ids: seq<Uuid>)
    requires Ascending(ids)
    ensures forall t :: t in AllVersions(log, ids) <==> Thing(t) in log && t.id in ids
    ensures forall i, j | 0 <= i < j < |AllVersions(log, ids)| ::
              AllVersions(log, ids)[i].id <= AllVersions(log, ids)[j].id
  {
    if ids != [] {
      var before, id := ids[..|ids| - 1], ids[|ids| - 1];
      assert ids == before + [id];
      AllVersionsExact(log, before);
      Members(log, id, 0, "");
      hide Versions;
      var a, b := AllVersions(log, before), Versions(log, id);
      assert AllVersions(log, ids) == a + b;
      forall t | t in a ensures t.id <= id {
        var k :| 0 <= k < |before| && before[k] == t.id;
        assert ids[k] == t.id && ids[|before|] == id;
      }
      forall t | t in b ensures t.id == id {
      }
      forall i, j | 0 <= i < j < |a + b| ensures (a + b)[i].id <= (a + b)[j].id {
        assert (a + b)[i] in a || (a + b)[i] in b;
        assert j < |a| || (a + b)[j] in b;
      }
    }
  }

  // A snapshot lists every version of every thing, in the order of ids, and every edge.
  lemma SnapshotLists(log: Log, next: nat)
    ensures forall t :: t in SnapshotOf(log, next).things <==> Thing(t) in log
    ensures forall e :: e in SnapshotOf(log, next).edges <==> Edge(e) in log
    ensures var ts := SnapshotOf(log, next).things;
            forall i, j | 0 <= i < j < |ts| :: ts[i].id <= ts[j].id
  {
    Members(log, 0, 0, "");
    AllVersionsExact(log, Sorted(AllIds(log)));
  }

  predicate NewerThing(log: Log, t: GraphThing) {
    var vs := Versions(log, t.id);
    vs == [] || vs[|vs| - 1].revision < t.revision
  }

  predicate NewerEdge(log: Log, e: GraphEdge) {
    var es := Edges(log);
    es == [] || es[|es| - 1].revision < e.revision
  }

  function InsertThing(log: Log, t: GraphThing): Log { if NewerThing(log, t) then log + [Thing(t)] else log }

  function InsertEdge(log: Log, e: GraphEdge): Log { if NewerEdge(log, e) then log + [Edge(e)] else log }

  function ReplayThings(log: Log, ts: seq<GraphThing>): Log {
    if ts == [] then log else InsertThing(ReplayThings(log, ts[..|ts| - 1]), ts[|ts| - 1])
  }

  function ReplayEdges(log: Log, es: seq<GraphEdge>): Log {
    if es == [] then log else InsertEdge(ReplayEdges(log, es[..|es| - 1]), es[|es| - 1])
  }

  function Replay(s: Snapshot): Log {
    ReplayEdges(ReplayThings([], s.things), s.edges)
  }

  // --- Round trip -----------------------------------------------------------------------------

  // Two logs the store cannot tell apart.
  ghost predicate SameContents(log: Log, log': Log) {
    && Edges(log') == Edges(log)
    && (forall id :: Versions(log', id) == Versions(log, id))
  }

  lemma {:induction false} ReplayConcat(log: Log, a: seq<GraphThing>, b: seq<GraphThing>)
    ensures ReplayThings(log, a + b) == ReplayThings(ReplayThings(log, a), b)
  {
    if b == [] {
      assert a + b == a;
    } else {
      ReplayConcat(log, a, b[..|b| - 1]);
      assert (a + b)[..|a + b| - 1] == a + b[..|b| - 1];
    }
  }

  lemma KeepsOthers(log: Log, t: GraphThing)
    ensures Versions(log + [Thing(t)], t.id) == Versions(log, t.id) + [t]
    ensures Edges(log + [Thing(t)]) == Edges(log)
    ensures forall other | other != t.id :: Versions(log + [Thing(t)], other) == Versions(log, other)
  {
    Appended(log, Thing(t), t.id, 0, "");
    forall other | other != t.id ensures Versions(log + [Thing(t)], other) == Versions(log, other) {
      Appended(log, Thing(t), other, 0, "");
    }
  }

  lemma KeepsVersions(log: Log, e: GraphEdge)
    ensures Edges(log + [Edge(e)]) == Edges(log) + [e]
    ensures forall id :: Versions(log + [Edge(e)], id) == Versions(log, id)
  {
    Appended(log, Edge(e), 0, 0, "");
    forall id ensures Versions(log + [Edge(e)], id) == Versions(log, id) {
      Appended(log, Edge(e), id, 0, "");
    }
  }

  // The things of the log are those with a version.
  lemma HasVersions(log: Log, id: Uuid)
    ensures id in AllIds(log) <==> Versions(log, id) != []
  {
    hide Versions;
    Members(log, id, 0, "");
    if id in AllIds(log) {
      var c :| c in log && c.Thing? && c.thing.id == id;
      assert c == Thing(c.thing) && c.thing in Versions(log, id);
    }
    if Versions(log, id) != [] {
      var t := Versions(log, id)[0];
      assert t in Versions(log, id) && Thing(t) in log;
    }
  }

  // The versions of one new thing are all kept, and nothing else changes.
  lemma {:induction false} ReplayOneThing(log: Log, id: Uuid, vs: seq<GraphThing>)
    requires IncreasingThings(vs) && (forall v | v in vs :: v.id == id) && Versions(log, id) == []
    ensures Versions(ReplayThings(log, vs), id) == vs
    ensures Edges(ReplayThings(log, vs)) == Edges(log)
    ensures forall other | other != id :: Versions(ReplayThings(log, vs), other) == Versions(log, other)
  {
    hide Edges, Versions;
    if vs != [] {
      var before, t := vs[..|vs| - 1], vs[|vs| - 1];
      ReplayOneThing(log, id, before);
      var log1 := ReplayThings(log, before);
      assert t in vs;
      assert NewerThing(log1, t);
      assert ReplayThings(log, vs) == log1 + [Thing(t)];
      KeepsOthers(log1, t);
      assert vs == before + [t];
    }
  }

  lemma {:induction false} ReplayAllThings(log: Log, ids: seq<Uuid>)
    requires forall id :: IncreasingThings(Versions(log, id))
    requires Ascending(ids)
    ensures var log' := ReplayThings([], AllVersions(log, ids));
            && Edges(log') == []
            && forall id :: Versions(log', id) == if id in ids then Versions(log, id) else []
  {
    if ids != [] {
      var before, id := ids[..|ids| - 1], ids[|ids| - 1];
      ReplayAllThings(log, before);
      ReplayConcat([], AllVersions(log, before), Versions(log, id));
      Members(log, id, 0, "");
      LastIsNew(ids);
      hide Edges, Versions, ReplayThings, Ascending;
      ReplayOneThing(ReplayThings([], AllVersions(log, before)), id, Versions(log, id));
    }
  }

  lemma LastIsNew(ids: seq<Uuid>)
    requires Ascending(ids) && ids != []
    ensures var before, id := ids[..|ids| - 1], ids[|ids| - 1];
            Ascending(before) && id !in before && forall other :: other in ids <==> other in before || other == id
  {
    assert ids == ids[..|ids| - 1] + [ids[|ids| - 1]];
  }

  lemma {:induction false} ReplayAllEdges(log: Log, es: seq<GraphEdge>)
    requires IncreasingEdges(es) && Edges(log) == []
    ensures Edges(ReplayEdges(log, es)) == es
    ensures forall id :: Versions(ReplayEdges(log, es), id) == Versions(log, id)
  {
    hide Edges, Versions;
    if es != [] {
      var before, e := es[..|es| - 1], es[|es| - 1];
      ReplayAllEdges(log, before);
      var log1 := ReplayEdges(log, before);
      assert NewerEdge(log1, e);
      assert ReplayEdges(log, es) == log1 + [Edge(e)];
      KeepsVersions(log1, e);
      assert es == before + [e];
    }
  }

  // A store in order restores exactly from its own snapshot.
  lemma SnapshotRoundTrip(log: Log, next: nat)
    requires LogOrdered(log, next) && 1 <= next
    ensures SameContents(log, Replay(SnapshotOf(log, next)))
    ensures SnapshotOf(log, next).revision + 1 == next
  {
    hide Edges, Versions, AllVersions, ReplayThings, ReplayEdges;
    var ids := Sorted(AllIds(log));
    ReplayAllThings(log, ids);
    ReplayAllEdges(ReplayThings([], AllVersions(log, ids)), Edges(log));
    forall id | id !in ids ensures Versions(log, id) == [] {
      HasVersions(log, id);
    }
  }

  // Logs with the same contents hold the same records, so they agree on every index and on
  // every question of authority.
  lemma SameContentsSameIndexes(log: Log, log': Log)
    requires SameContents(log, log')
    ensures forall c :: c in log <==> c in log'
    ensures AllIds(log) == AllIds(log')
    ensures forall kind :: KindIds(log, kind) == KindIds(log', kind)
    ensures forall src, pred :: EdgesFrom(log, src, pred) == EdgesFrom(log', src, pred)
  {
    forall c ensures c in log <==> c in log' {
      Members(log, if c.Thing? then c.thing.id else 0, 0, "");
      Members(log', if c.Thing? then c.thing.id else 0, 0, "");
      assert c == if c.Thing? then Thing(c.thing) else Edge(c.edge);
    }
    forall src, pred ensures EdgesFrom(log, src, pred) == EdgesFrom(log', src, pred) {
      hide EdgesFrom, FilterEdges;
      FilterOfEdges(log, src, pred);
      FilterOfEdges(log', src, pred);
    }
  }

  function FilterEdges(es: seq<GraphEdge>, src: Uuid, pred: string): seq<GraphEdge> {
    if es == [] then []
    else
      var e, rest := es[|es| - 1], FilterEdges(es[..|es| - 1], src, pred);
      if e.src == src && e.pred == pred then rest + [e] else rest
  }

  // The per-source index is the in-order filter of the edge list.
  lemma {:induction false} FilterOfEdges(log: Log, src: Uuid, pred: string)
    ensures EdgesFrom(log, src, pred) == FilterEdges(Edges(log), src, pred)
  {
    if log != [] {
      var before, c := log[..|log| - 1], log[|log| - 1];
      FilterOfEdges(before, src, pred);
      if c.Edge? {
        assert Edges(log)[..|Edges(log)| - 1] == Edges(before);
      }
    }
  }

  // The restored store keeps the invariants of the log.
  lemma RestoredSound(env: Env, log: Log, next: nat)
    requires LogOrdered(log, next) && LogAuthorized(env, log) && 1 <= next
    ensures LogOrdered(Replay(SnapshotOf(log, next)), next)
    ensures LogAuthorized(env, Replay(SnapshotOf(log, next)))
  {
    var log' := Replay(SnapshotOf(log, next));
    SnapshotRoundTrip(log, next);
    SameContentsSameIndexes(log, log');
    forall c | c in log' && c.Edge?
      ensures CanLink(env, log', c.edge.owner, c.edge.src, c.edge.dst, c.edge.pred)
    {
      AuthorityGrows(env, log, log', c.edge.owner, c.edge.src, c.edge.dst, c.edge.pred);
    }
  }
}

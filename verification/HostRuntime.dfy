// The host runtime over its in-memory store (thing_host/src/lib.rs, thing_host/src/store.rs), and
// the caller's paging loop (userland/src/graph.rs). Every call is one atomic step.
module HostRuntime {
  import opened Options
  import opened Ordered
  import opened GraphTypes
  import opened HostWatch

  const NIL: Uuid := 0

  datatype FiatRequest = FiatRequest(id: Option<Uuid>, kind: Symbol, labels: seq<Symbol>, fields: Map)
  datatype LinkRequest = LinkRequest(id: Option<Uuid>, pred: string, from: Uuid, to: Uuid, props: Map)

  // Every watch is exact and its re-scan is sound.
  ghost predicate AllSound(names: Names, ws: map<nat, WatchState>, ts: map<nat, Trace>, log: seq<GraphChange>,
                           things: map<Uuid, GraphThing>, revision: nat) {
    && ws.Keys == ts.Keys
    && forall id | id in ws :: WatchSound(names, ws[id], ts[id], log, things, revision)
  }

  function PushedAll(names: Names, ws: map<nat, WatchState>, c: GraphChange): map<nat, WatchState> {
    map id | id in ws :: Pushed(names, ws[id], c)
  }

  lemma PushKeepsAll(names: Names, ws: map<nat, WatchState>, ts: map<nat, Trace>, log: seq<GraphChange>,
                     things: map<Uuid, GraphThing>, revision: nat, c: GraphChange, things': map<Uuid, GraphThing>)
    requires AllSound(names, ws, ts, log, things, revision) && LogSound(log, revision) && c.Revision() == revision
    requires things' == if c.Thing? then things[c.thing.id := c.thing] else things
    ensures AllSound(names, PushedAll(names, ws, c), ts, log + [c], things', revision + 1)
  {
    hide ExactlyOnce, ScanSound, LogSound;
    forall id | id in ws
      ensures WatchSound(names, PushedAll(names, ws, c)[id], ts[id], log + [c], things', revision + 1)
    {
      PushKeepsExact(names, ws[id], ts[id], log, things, revision, c);
      PushKeepsScan(names, ws[id], ts[id], log, things, revision, c, things');
    }
  }

  // An edge is appended to the queue of a watch exactly if the watch asks for no property and, when it
  // names labels, one of them is named like the edge's predicate.
  lemma EdgePushed(names: Names, ws: map<nat, WatchState>, e: GraphEdge)
    ensures var ws' := PushedAll(names, ws, Edge(e));
            && (forall id | id in ws :: id in ws' && ws'[id].pattern == ws[id].pattern)
            && (forall id, l | id in ws && ws[id].pattern == NodePattern([l], map[]) ::
                  ws'[id].queue == ws[id].queue + if names(l) == Some(e.pred) then [Edge(e)] else [])
            && (forall id | id in ws && ws[id].pattern == NodePattern([], map[]) ::
                  ws'[id].queue == ws[id].queue + [Edge(e)])
            && (forall id | id in ws && ws[id].pattern.props != map[] :: ws'[id].queue == ws[id].queue)
            && (forall id, l | id in ws && ws[id].pattern.props == map[] && l in ws[id].pattern.labels
                               && names(l) == Some(e.pred) :: ws'[id].queue == ws[id].queue + [Edge(e)])
            && (forall id | id in ws && ws[id].pattern.labels != []
                            && (forall l | l in ws[id].pattern.labels :: names(l) != Some(e.pred)) ::
                  ws'[id].queue == ws[id].queue)
  {
  }

  // A thing is appended to the queue of a watch exactly if it has every label and property asked for.
  lemma ThingPushed(names: Names, ws: map<nat, WatchState>, t: GraphThing)
    ensures var ws' := PushedAll(names, ws, Thing(t));
            && (forall id | id in ws :: id in ws' && ws'[id].pattern == ws[id].pattern)
            && (forall id | id in ws ::
                  ws'[id].queue == ws[id].queue
                                   + if (forall l | l in ws[id].pattern.labels :: l in t.labels)
                                        && (forall k | k in ws[id].pattern.props ::
                                              k in t.fields && t.fields[k] == ws[id].pattern.props[k])
                                     then [Thing(t)] else [])
  {
  }

  lemma StoreKept(log: seq<GraphChange>, things: map<Uuid, GraphThing>, revision: nat, c: GraphChange)
    requires StoreSound(things, revision) && LogSound(log, revision) && c.Revision() == revision && 1 <= revision
    ensures StoreSound(if c.Thing? then things[c.thing.id := c.thing] else things, revision + 1)
    ensures LogSound(log + [c], revision + 1)
  {
    IncreasingAppend(log, c);
  }

  // A watch registered now is owed nothing yet.
  lemma NewWatchSound(names: Names, p: NodePattern, log: seq<GraphChange>, things: map<Uuid, GraphThing>, revision: nat)
    requires StoreSound(things, revision) && 1 <= revision
    ensures WatchSound(names, WatchState(p, [], 0), Trace(|log|, revision, [], []), log, things, revision)
  {
    assert Matching(names, p, log, |log|) == [];
  }

  lemma SameKeys(names: Names, ws: map<nat, WatchState>, ts: map<nat, Trace>, log: seq<GraphChange>,
                 things: map<Uuid, GraphThing>, revision: nat)
    requires AllSound(names, ws, ts, log, things, revision)
    ensures ws.Keys == ts.Keys
  {
  }

  lemma GetWatch(names: Names, ws: map<nat, WatchState>, ts: map<nat, Trace>, log: seq<GraphChange>,
                 things: map<Uuid, GraphThing>, revision: nat, id: nat)
    requires AllSound(names, ws, ts, log, things, revision) && id in ws && id in ts
    ensures WatchSound(names, ws[id], ts[id], log, things, revision)
  {
    hide WatchSound;
  }

  lemma PutWatch(names: Names, ws: map<nat, WatchState>, ts: map<nat, Trace>, log: seq<GraphChange>,
                 things: map<Uuid, GraphThing>, revision: nat, id: nat, w: WatchState, t: Trace)
    requires AllSound(names, ws, ts, log, things, revision) && WatchSound(names, w, t, log, things, revision)
    ensures AllSound(names, ws[id := w], ts[id := t], log, things, revision)
  {
    hide WatchSound;
  }

  // One poll of one watch: the batch is added to what was handed out, as much as was asked for.
  ghost predicate PollStep(w: WatchState, t: Trace, w': WatchState, t': Trace, batch: seq<GraphChange>,
                           max: Option<nat>) {
    && w'.pattern == w.pattern && t'.start == t.start && t'.since == t.since
    && t'.delivered == t.delivered + batch
       // At most as many as asked for, and something stays queued only if that many were handed out.
    && (max.Some? ==> |batch| <= max.value)
    && (w'.queue != [] ==> max.Some? && |batch| == max.value)
  }

  lemma PolledIsStep(w: WatchState, t: Trace, fetched: seq<GraphChange>, max: Option<nat>)
    ensures var (w', batch) := Polled(w, fetched, max);
            PollStep(w, t, w', Delivered(Rescanned(t, fetched), batch), batch, max)
  {
    hide SortByRevision;
  }

  // What a poll does to the older things of a watch, and that it keeps the pattern.
  lemma OlderThings(names: Names, w: WatchState, t: Trace, log: seq<GraphChange>, things: map<Uuid, GraphThing>,
                    revision: nat, fetched: seq<GraphChange>, max: Option<nat>)
    requires WatchSound(names, w, t, log, things, revision) && StoreSound(things, revision)
    requires Fetched(fetched, w, things)
    ensures var (w', batch) := Polled(w, fetched, max);
            var t' := Delivered(Rescanned(t, fetched), batch);
            && w'.pattern == w.pattern
            && (Owed(names, w, t, log) == [] ==> forall c :: c in t'.base <==> IsMatch(c, things, w.pattern))
            && (Owed(names, w, t, log) != [] ==> t'.base == t.base)
  {
    hide Owed, IsMatch, WatchSound, StoreSound, Fetched, Rescanned;
    if Owed(names, w, t, log) == [] {
      forall c ensures c in Rescanned(t, fetched).base <==> IsMatch(c, things, w.pattern) {
        BaseAfterPoll(names, w, t, log, things, revision, fetched, c);
      }
    } else {
      BaseAfterPoll(names, w, t, log, things, revision, fetched, Owed(names, w, t, log)[0]);
    }
  }

  // --- Paging ---------------------------------------------------------------------------------

  const FIND_PAGE_SIZE := 64

  function IdsOfKind(things: map<Uuid, GraphThing>, kind: Symbol): set<Uuid> {
    set id | id in things && things[id].kind == kind
  }

  function Pick(things: map<Uuid, GraphThing>, ids: seq<Uuid>): seq<GraphThing>
    requires forall id | id in ids :: id in things
  {
    if ids == [] then [] else Pick(things, ids[..|ids| - 1]) + [things[ids[|ids| - 1]]]
  }

  // The things of a kind, sorted by id.
  function KindMatches(things: map<Uuid, GraphThing>, kind: Symbol): seq<GraphThing> {
    Pick(things, Sorted(IdsOfKind(things, kind)))
  }

  lemma {:induction false} PickedInOrder(things: map<Uuid, GraphThing>, ids: seq<Uuid>)
    requires forall id | id in ids :: id in things && things[id].id == id
    ensures |Pick(things, ids)| == |ids| && forall k | 0 <= k < |ids| :: Pick(things, ids)[k] == things[ids[k]]
  {
    if ids != [] {
      PickedInOrder(things, ids[..|ids| - 1]);
    }
  }

  lemma {:induction false} PickedMembers(things: map<Uuid, GraphThing>, ids: seq<Uuid>, t: GraphThing)
    requires forall id | id in ids :: id in things && things[id].id == id
    ensures t in Pick(things, ids) <==> t.id in ids && things[t.id] == t
  {
    if ids != [] {
      PickedMembers(things, ids[..|ids| - 1], t);
      assert t.id in ids <==> t.id in ids[..|ids| - 1] || t.id == ids[|ids| - 1];
    }
  }

  // In id order, each thing of the kind once.
  lemma KindMatchesExact(things: map<Uuid, GraphThing>, revision: nat, kind: Symbol)
    requires StoreSound(things, revision)
    ensures var all := KindMatches(things, kind);
            && (forall i, j | 0 <= i < j < |all| :: all[i].id < all[j].id)
            && (forall t :: t in all <==> t.id in things && things[t.id] == t && t.kind == kind)
  {
    var ids := Sorted(IdsOfKind(things, kind));
    hide Pick, Sorted;
    PickedInOrder(things, ids);
    forall t ensures t in KindMatches(things, kind) <==> t.id in things && things[t.id] == t && t.kind == kind {
      PickedMembers(things, ids, t);
    }
  }

  // The id made from the n-th count: the count in both halves of 128 bits.
  function UuidAt(n: nat): Uuid { n * 0x1_0000_0000_0000_0000 + n }

  // Ids made from different counts are different, and both halves of an id are its count.
  lemma UuidsDiffer(m: nat, n: nat)
    requires m != n
    ensures UuidAt(m) != UuidAt(n)
    ensures n < 0x1_0000_0000_0000_0000 ==>
              UuidAt(n) / 0x1_0000_0000_0000_0000 == UuidAt(n) % 0x1_0000_0000_0000_0000 == n
  {
  }

  class HostRuntime {
    const names: Names
    var things: map<Uuid, GraphThing>
    var edges: map<Uuid, GraphEdge>
    var revision: nat
    var watchers: map<nat, WatchState>
    var nextWatch: nat
    var uuidCounter: nat
    ghost var log: seq<GraphChange>
    ghost var traces: map<nat, Trace>

    ghost predicate Valid()
      reads this
    {
      && 1 <= revision && StoreSound(things, revision) && LogSound(log, revision)
      && (forall id | id in watchers :: id < nextWatch)
      && AllSound(names, watchers, traces, log, things, revision)
    }

    constructor (names: Names)
      ensures Valid() && this.names == names && things == map[] && watchers == map[] && log == []
    {
      this.names := names;
      things, edges, watchers := map[], map[], map[];
      revision, nextWatch, uuidCounter := 1, 1, 0;
      log, traces := [], map[];
    }

    method NextUuid() returns (id: Uuid)
      modifies `uuidCounter
      ensures id == UuidAt(old(uuidCounter)) && uuidCounter == old(uuidCounter) + 1
    {
      id := UuidAt(uuidCounter);
      uuidCounter := uuidCounter + 1;
    }

    method PushChange(c: GraphChange)
      modifies `watchers
      ensures watchers == PushedAll(names, old(watchers), c)
    {
      var ws, rest := watchers, watchers.Keys;
      while rest != {}
        invariant ws.Keys == watchers.Keys && rest <= ws.Keys
        invariant forall id | id in ws :: ws[id] == if id in rest then watchers[id] else Pushed(names, watchers[id], c)
        decreases rest
      {
        var id :| id in rest;
        var w := ws[id];
        if MatchChange(names, c, w.pattern) {
          ws := ws[id := w.(queue := w.queue + [c], lastRevision := c.Revision())];
        }
        rest := rest - {id};
      }
      watchers := ws;
    }

    // A stored thing replaces the one with its id and is pushed to the watches.
    method StoreThing(t: GraphThing)
      requires Valid() && t.revision == revision
      modifies this
      ensures Valid() && revision == old(revision) + 1 && things == old(things)[t.id := t] && edges == old(edges)
      ensures log == old(log) + [Thing(t)] && traces == old(traces)
              && watchers == PushedAll(names, old(watchers), Thing(t))
      ensures nextWatch == old(nextWatch) && uuidCounter == old(uuidCounter)
    {
      hide AllSound, StoreSound, LogSound;
      PushKeepsAll(names, watchers, traces, log, things, revision, Thing(t), things[t.id := t]);
      StoreKept(log, things, revision, Thing(t));
      revision := revision + 1;
      things := things[t.id := t];
      log := log + [Thing(t)];
      PushChange(Thing(t));
    }

    method Fiat(req: FiatRequest) returns (t: GraphThing)
      requires Valid()
      modifies this
      ensures Valid() && revision == old(revision) + 1 && things == old(things)[t.id := t] && edges == old(edges)
      ensures log == old(log) + [Thing(t)] && traces == old(traces)
              && watchers == PushedAll(names, old(watchers), Thing(t))
      ensures t.kind == req.kind && t.fields == req.fields && t.owner == NIL && t.revision == old(revision)
      ensures t.labels == if req.labels == [] then {req.kind} else (set l | l in req.labels)
      ensures t.id == if req.id.Some? then req.id.value else UuidAt(old(uuidCounter))
      ensures uuidCounter == old(uuidCounter) + if req.id.Some? then 0 else 1
      // Which watches get the thing.
      ensures forall id | id in old(watchers) :: id in watchers
      ensures forall id | id in old(watchers) ::
                watchers[id].queue == old(watchers)[id].queue
                + if (forall l | l in old(watchers)[id].pattern.labels :: l in t.labels)
                     && (forall k | k in old(watchers)[id].pattern.props ::
                           k in req.fields && req.fields[k] == old(watchers)[id].pattern.props[k])
                  then [Thing(t)] else []
    {
      hide AllSound, PushedAll;
      var id: Uuid;
      if req.id.Some? { id := req.id.value; } else { id := NextUuid(); }
      t := GraphThing(id, req.kind, if req.labels == [] then {req.kind} else (set l | l in req.labels),
                      req.fields, NIL, revision);
      ThingPushed(names, watchers, t);
      StoreThing(t);
    }

    // A stored edge replaces the one with its id and is pushed to the watches.
    method StoreEdge(e: GraphEdge)
      requires Valid() && e.revision == revision
      modifies this
      ensures Valid() && revision == old(revision) + 1 && things == old(things) && edges == old(edges)[e.id := e]
      ensures log == old(log) + [Edge(e)] && traces == old(traces)
              && watchers == PushedAll(names, old(watchers), Edge(e))
      ensures nextWatch == old(nextWatch) && uuidCounter == old(uuidCounter)
    {
      hide AllSound, StoreSound, LogSound;
      PushKeepsAll(names, watchers, traces, log, things, revision, Edge(e), things);
      StoreKept(log, things, revision, Edge(e));
      revision := revision + 1;
      edges := edges[e.id := e];
      log := log + [Edge(e)];
      PushChange(Edge(e));
    }

    method Link(req: LinkRequest) returns (e: GraphEdge)
      requires Valid()
      modifies this
      ensures Valid() && revision == old(revision) + 1 && things == old(things) && edges == old(edges)[e.id := e]
      ensures log == old(log) + [Edge(e)] && traces == old(traces)
              && watchers == PushedAll(names, old(watchers), Edge(e))
      ensures e.src == req.from && e.pred == req.pred && e.dst == req.to && e.props == req.props
      ensures e.owner == NIL && e.revision == old(revision)
      ensures e.id == if req.id.Some? then req.id.value else UuidAt(old(uuidCounter))
      ensures uuidCounter == old(uuidCounter) + if req.id.Some? then 0 else 1
      // Which watches get the edge.
      ensures forall id | id in old(watchers) :: id in watchers
      ensures forall id, l | id in old(watchers) && old(watchers)[id].pattern == NodePattern([l], map[]) ::
                watchers[id].queue == old(watchers)[id].queue + if names(l) == Some(req.pred) then [Edge(e)] else []
      ensures forall id | id in old(watchers) && old(watchers)[id].pattern == NodePattern([], map[]) ::
                watchers[id].queue == old(watchers)[id].queue + [Edge(e)]
      ensures forall id | id in old(watchers) && old(watchers)[id].pattern.props != map[] ::
                watchers[id].queue == old(watchers)[id].queue
      ensures forall id | id in old(watchers) && old(watchers)[id].pattern.labels != []
                          && (forall l | l in old(watchers)[id].pattern.labels :: names(l) != Some(req.pred)) ::
                watchers[id].queue == old(watchers)[id].queue
    {
      hide AllSound, PushedAll;
      var id: Uuid;
      if req.id.Some? { id := req.id.value; } else { id := NextUuid(); }
      e := GraphEdge(id, req.from, req.pred, req.to, req.props, NIL, revision);
      EdgePushed(names, watchers, e);
      StoreEdge(e);
    }

    // Setting properties of a thing that is not there is an error and changes nothing.
    method PropsSet(node: Uuid, props: Map) returns (r: Option<GraphThing>)
      requires Valid()
      modifies this
      ensures Valid() && (r.Some? <==> node in old(things))
      ensures r.None? ==> revision == old(revision) && things == old(things) && log == old(log)
                          && watchers == old(watchers) && traces == old(traces)
      ensures r.Some? ==>
                && r.value == old(things)[node].(fields := old(things)[node].fields + props,
                                                 revision := old(revision))
                && things == old(things)[node := r.value] && log == old(log) + [Thing(r.value)]
                && watchers == PushedAll(names, old(watchers), Thing(r.value)) && traces == old(traces)
    {
      hide AllSound;
      if node !in things { return None; }
      var t := things[node].(fields := things[node].fields + props, revision := revision);
      StoreThing(t);
      return Some(t);
    }

    // --- Watches ---

    method WatchRegister(p: NodePattern) returns (id: nat)
      requires Valid()
      modifies this
      ensures Valid() && id !in old(watchers) && things == old(things) && log == old(log) && revision == old(revision)
      ensures watchers == old(watchers)[id := WatchState(p, [], 0)]
      ensures traces == old(traces)[id := Trace(|log|, revision, [], [])]
    {
      hide AllSound, StoreSound, LogSound;
      NewWatchSound(names, p, log, things, revision);
      PutWatch(names, watchers, traces, log, things, revision, nextWatch, WatchState(p, [], 0),
               Trace(|log|, revision, [], []));
      id := nextWatch;
      nextWatch := nextWatch + 1;
      watchers := watchers[id := WatchState(p, [], 0)];
      traces := traces[id := Trace(|log|, revision, [], [])];
    }

    method WatchUnregister(id: nat)
      requires Valid()
      modifies this
      ensures Valid() && watchers == old(watchers) - {id} && traces == old(traces) - {id}
      ensures things == old(things) && log == old(log) && revision == old(revision)
    {
      hide WatchSound;
      watchers := watchers - {id};
      traces := traces - {id};
    }

    // The things above a watermark that match a pattern. The hash map lists them in any order.
    method Scan(w: WatchState) returns (fetched: seq<GraphChange>)
      requires Valid()
      ensures Fetched(fetched, w, things)
    {
      fetched := [];
      var rest := things.Keys;
      while rest != {}
        invariant rest <= things.Keys
        invariant forall c | c in fetched :: c.Thing? && c.thing.id !in rest
        invariant forall c :: c in fetched <==> c.Thing? && Scanned(c.thing, w, things) && c.thing.id !in rest
        invariant DistinctRevisions(fetched)
        decreases rest
      {
        hide PatternMatches, AllSound;
        var id :| id in rest;
        if PatternMatches(things[id], w.pattern) && w.lastRevision < things[id].revision {
          fetched := fetched + [Thing(things[id])];
        }
        rest := rest - {id};
      }
    }

    // A poll of an unknown watch returns an empty batch.
    method WatchPoll(id: nat, max: Option<nat>) returns (batch: seq<GraphChange>, from: nat, latest: nat)
      requires Valid()
      modifies `watchers, `traces
      ensures Valid() && watchers.Keys == old(watchers).Keys && traces.Keys == old(traces).Keys
      ensures id !in old(watchers) ==>
                batch == [] && from == latest == 0 && watchers == old(watchers) && traces == old(traces)
      ensures id in old(watchers) && id in old(traces) ==>
                && watchers == old(watchers)[id := watchers[id]] && traces == old(traces)[id := traces[id]]
                && PollStep(old(watchers)[id], old(traces)[id], watchers[id], traces[id], batch, max)
                && from == old(watchers)[id].lastRevision && latest == watchers[id].lastRevision
                   // Older things are taken by a poll before any matching change, and then all of them.
                && (Owed(names, old(watchers)[id], old(traces)[id], log) == [] ==>
                      forall c :: c in traces[id].base <==> IsMatch(c, things, watchers[id].pattern))
                && (Owed(names, old(watchers)[id], old(traces)[id], log) != [] ==>
                      traces[id].base == old(traces)[id].base)
    {
      hide AllSound, WatchSound, Fetched, StoreSound, LogSound, PollStep, Polled, Delivered, Rescanned, Owed, IsMatch;
      SameKeys(names, watchers, traces, log, things, revision);
      if id !in watchers { return [], 0, 0; }
      var w := watchers[id];
      GetWatch(names, watchers, traces, log, things, revision, id);
      var fetched := Scan(w);
      PollKeeps(names, w, traces[id], log, things, revision, fetched, max);
      PolledIsStep(w, traces[id], fetched, max);
      OlderThings(names, w, traces[id], log, things, revision, fetched, max);
      var (w', changes) := Polled(w, fetched, max);
      ghost var t' := Delivered(Rescanned(traces[id], fetched), changes);
      PutWatch(names, watchers, traces, log, things, revision, id, w', t');
      batch, from, latest := changes, w.lastRevision, w'.lastRevision;
      traces := traces[id := t'];
      watchers := watchers[id := w'];
    }

    // Exactly once: the changes handed to a watch and those in its queue are, in strictly
    // increasing revision order, the older things its first re-scan found followed by exactly the
    // matching changes made since it was registered. A re-scan that found any older thing found all.
    lemma ExactlyOnceDelivery(id: nat)
      requires Valid() && id in watchers
      ensures id in traces
      ensures var all := traces[id].delivered + watchers[id].queue;
              && all == traces[id].base + Matching(names, watchers[id].pattern, log, traces[id].start)
              && Increasing(all)
              && (forall c | c in traces[id].base :: c.Revision() < traces[id].since)
              && (traces[id].base != [] ==>
                    forall c | IsMatch(c, things, watchers[id].pattern) && c.Revision() < traces[id].since ::
                      c in traces[id].base)
    {
      assert WatchSound(names, watchers[id], traces[id], log, things, revision);
    }

    // One page of the things of a kind; one more is taken to see whether there is a next page.
    method FindByKind(kind: Option<Symbol>, cursor: Option<nat>) returns (page: seq<GraphThing>, next: Option<nat>)
      requires Valid()
      ensures kind.None? ==> page == [] && next == None
      ensures kind.Some? ==>
                var all := KindMatches(things, kind.value);
                var skip := if cursor.Some? then cursor.value else 0;
                && page == (if |all| <= skip then [] else if |all| - skip <= FIND_PAGE_SIZE then all[skip..]
                            else all[skip..skip + FIND_PAGE_SIZE])
                && next == if skip + FIND_PAGE_SIZE < |all| then Some(skip + FIND_PAGE_SIZE) else None
    {
      hide KindMatches, Valid;
      if kind.None? { return [], None; }
      page, next := TakePage(KindMatches(things, kind.value), if cursor.Some? then cursor.value else 0);
    }

    static method TakePage(all: seq<GraphThing>, skip: nat) returns (page: seq<GraphThing>, next: Option<nat>)
      ensures page == (if |all| <= skip then [] else if |all| - skip <= FIND_PAGE_SIZE then all[skip..]
                       else all[skip..skip + FIND_PAGE_SIZE])
      ensures next == if skip + FIND_PAGE_SIZE < |all| then Some(skip + FIND_PAGE_SIZE) else None
    {
      if |all| <= skip { return [], None; }
      page := all[skip..if skip + FIND_PAGE_SIZE + 1 <= |all| then skip + FIND_PAGE_SIZE + 1 else |all|];
      next := None;
      if FIND_PAGE_SIZE < |page| {
        page := page[..|page| - 1];
        next := Some(skip + FIND_PAGE_SIZE);
      }
    }

    // The caller's loop collects exactly the things of the kind, in id order.
    method FindAll(kind: Symbol) returns (results: seq<GraphThing>)
      requires Valid()
      ensures results == KindMatches(things, kind)
    {
      ghost var all := KindMatches(things, kind);
      hide KindMatches, Valid;
      results := [];
      var cursor: Option<nat> := None;
      while true
        invariant cursor.Some? ==> cursor.value <= |all|
        invariant results == all[..if cursor.Some? then cursor.value else 0]
        decreases |all| - if cursor.Some? then cursor.value else 0
      {
        var page, next := FindByKind(Some(kind), cursor);
        results := results + page;
        cursor := next;
        if cursor.None? { return; }
      }
    }
  }

  // The second of two changes, seen by a watch registered between them.
  lemma OnlyTheSecond(names: Names, p: NodePattern, a: GraphChange, b: GraphChange)
    requires MatchChange(names, b, p)
    ensures Matching(names, p, [a, b], 1) == [b]
  {
    hide MatchChange;
    assert [a, b][..1] == [a];
    assert Matching(names, p, [a], 1) == [];
  }

  // A poll without a limit empties the queue.
  lemma WholeQueue(w: WatchState, t: Trace, w': WatchState, t': Trace, batch: seq<GraphChange>)
    requires PollStep(w, t, w', t', batch, None) && t.delivered == []
    ensures w'.queue == [] && t'.delivered + w'.queue == batch && w'.pattern == w.pattern && t'.start == t.start
  {
  }

  // A thing made before a watch is never handed to it if a matching change comes before its first
  // poll: the poll delivers the change only.
  method OlderThingMissed(names: Names, p: NodePattern, first: FiatRequest, second: FiatRequest)
    returns (a: GraphThing, b: GraphThing, batch: seq<GraphChange>)
    ensures PatternMatches(b, p) ==> batch == [Thing(b)]
    ensures a.revision < b.revision && a.kind == first.kind && b.kind == second.kind
  {
    hide PatternMatches, PollStep, Matching, IsMatch, WatchSound, StoreSound, LogSound, AllSound, Increasing;
    var host := new HostRuntime(names);
    a := host.Fiat(first);
    var id := host.WatchRegister(p);
    b := host.Fiat(second);
    ghost var w, t := host.watchers[id], host.traces[id];
    assert host.log == [Thing(a), Thing(b)];
    var from, latest;
    batch, from, latest := host.WatchPoll(id, None);
    if PatternMatches(b, p) {
      OnlyTheSecond(names, p, Thing(a), Thing(b));
      WholeQueue(w, t, host.watchers[id], host.traces[id], batch);
      host.ExactlyOnceDelivery(id);
    }
  }
}

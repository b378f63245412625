// The watches of the host runtime: pushed changes, the re-scan of the store on every poll, the
// revision watermark and partial drains (thing_host/src/lib.rs).
module HostWatch {
  import opened Options
  import opened Arithmetic
  import opened GraphTypes

  // The host's symbol table.
  type Names = Symbol -> Option<string>

  predicate PatternMatches(t: GraphThing, p: NodePattern) {
    && (forall l | l in p.labels :: l in t.labels)
    && (forall k | k in p.props :: k in t.fields && t.fields[k] == p.props[k])
  }

  predicate EdgeMatches(names: Names, e: GraphEdge, p: NodePattern) {
    (p.labels != [] ==> exists l | l in p.labels :: names(l) == Some(e.pred)) && p.props == map[]
  }

  predicate MatchChange(names: Names, c: GraphChange, p: NodePattern) {
    match c
    case Thing(t) => PatternMatches(t, p)
    case Edge(e) => EdgeMatches(names, e, p)
  }

  datatype WatchState = WatchState(pattern: NodePattern, queue: seq<GraphChange>, lastRevision: nat)

  // The history of a watch: the number of changes and the next revision when it was registered,
  // the older things its re-scan found, and the changes its polls handed out.
  datatype Trace = Trace(start: nat, since: nat, base: seq<GraphChange>, delivered: seq<GraphChange>)

  // The changes among log[from..] that match a pattern.
  function Matching(names: Names, p: NodePattern, log: seq<GraphChange>, from: nat): seq<GraphChange> {
    if |log| <= from then []
    else
      var c, rest := log[|log| - 1], Matching(names, p, log[..|log| - 1], from);
      if MatchChange(names, c, p) then rest + [c] else rest
  }

  function LastRevision(cs: seq<GraphChange>): nat {
    if cs == [] then 0 else cs[|cs| - 1].Revision()
  }

  // --- Sorting by revision --------------------------------------------------------------------

  function Insert(c: GraphChange, cs: seq<GraphChange>): seq<GraphChange> {
    if cs == [] || cs[|cs| - 1].Revision() <= c.Revision() then cs + [c]
    else Insert(c, cs[..|cs| - 1]) + [cs[|cs| - 1]]
  }

  // A stable sort by revision.
  function SortByRevision(cs: seq<GraphChange>): seq<GraphChange> {
    if cs == [] then [] else Insert(cs[|cs| - 1], SortByRevision(cs[..|cs| - 1]))
  }

  // No two changes have the same revision.
  ghost predicate DistinctRevisions(cs: seq<GraphChange>) {
    forall i, j | 0 <= i < j < |cs| :: cs[i].Revision() != cs[j].Revision()
  }

  // A queue already in order is left as it is.
  lemma {:induction false} SortKeeps(cs: seq<GraphChange>)
    requires Increasing(cs)
    ensures SortByRevision(cs) == cs
  {
    if cs != [] {
      SortKeeps(cs[..|cs| - 1]);
    }
  }

  lemma IncreasingAppend(cs: seq<GraphChange>, c: GraphChange)
    requires Increasing(cs) && forall x | x in cs :: x.Revision() < c.Revision()
    ensures Increasing(cs + [c])
  {
  }

  lemma {:induction false} InsertIncreasing(c: GraphChange, cs: seq<GraphChange>)
    requires Increasing(cs) && forall x | x in cs :: x.Revision() != c.Revision()
    ensures Increasing(Insert(c, cs))
    ensures forall x :: x in Insert(c, cs) <==> x == c || x in cs
  {
    if cs != [] && c.Revision() < cs[|cs| - 1].Revision() {
      var rest, last := cs[..|cs| - 1], cs[|cs| - 1];
      InsertIncreasing(c, rest);
      assert cs == rest + [last];
      forall x | x in Insert(c, rest) ensures x.Revision() < last.Revision() {
        assert x == c || x in rest;
      }
      IncreasingAppend(Insert(c, rest), last);
    } else {
      forall x | x in cs ensures x.Revision() < c.Revision() {
        assert cs[|cs| - 1] in cs;
      }
      IncreasingAppend(cs, c);
    }
  }

  // Changes with distinct revisions come out strictly increasing, whatever order they came in.
  lemma {:induction false} SortIncreasing(cs: seq<GraphChange>)
    requires DistinctRevisions(cs)
    ensures Increasing(SortByRevision(cs))
    ensures forall x :: x in SortByRevision(cs) <==> x in cs
  {
    if cs != [] {
      var rest, last := cs[..|cs| - 1], cs[|cs| - 1];
      SortIncreasing(rest);
      assert cs == rest + [last];
      InsertIncreasing(last, SortByRevision(rest));
    }
  }

  // --- The invariant of a watch ---------------------------------------------------------------

  // The store: revisions start at 1, stay below the counter and are never shared.
  ghost predicate StoreSound(things: map<Uuid, GraphThing>, revision: nat) {
    && (forall id | id in things :: things[id].id == id && 1 <= things[id].revision < revision)
    && (forall a, b | a in things && b in things && a != b :: things[a].revision != things[b].revision)
  }

  // The changes made so far are in revision order, below the counter.
  ghost predicate LogSound(log: seq<GraphChange>, revision: nat) {
    Increasing(log) && forall c | c in log :: c.Revision() < revision
  }

  // Everything a watch has been or will be handed: the older things, then the matching changes
  // since it was registered.
  function Owed(names: Names, w: WatchState, t: Trace, log: seq<GraphChange>): seq<GraphChange> {
    t.base + Matching(names, w.pattern, log, t.start)
  }

  // Exactly once: what was handed out and what is queued are together exactly what is owed, in
  // strictly increasing revision order, and the watermark is the revision of the last of it.
  ghost predicate ExactlyOnce(names: Names, w: WatchState, t: Trace, log: seq<GraphChange>) {
    && t.delivered + w.queue == Owed(names, w, t, log)
    && Increasing(Owed(names, w, t, log))
    && w.lastRevision == LastRevision(Owed(names, w, t, log))
  }

  // Which things the re-scan could still find: those changed since the registration are owed
  // already, and once older things were found all older ones were.
  ghost predicate ScanSound(names: Names, w: WatchState, t: Trace, log: seq<GraphChange>,
                            things: map<Uuid, GraphThing>, revision: nat) {
    && t.start <= |log| && 1 <= t.since <= revision
    && (forall k | t.start <= k < |log| :: t.since <= log[k].Revision())
    && (forall c | c in t.base :: c.Revision() < t.since)
    && (forall id | id in things && PatternMatches(things[id], w.pattern) && t.since <= things[id].revision ::
          Thing(things[id]) in Matching(names, w.pattern, log, t.start))
    && (t.base != [] ==>
          forall id | id in things && PatternMatches(things[id], w.pattern) && things[id].revision < t.since ::
            Thing(things[id]) in t.base)
  }

  ghost predicate WatchSound(names: Names, w: WatchState, t: Trace, log: seq<GraphChange>,
                             things: map<Uuid, GraphThing>, revision: nat) {
    ExactlyOnce(names, w, t, log) && ScanSound(names, w, t, log, things, revision)
  }

  lemma MatchingOneMore(names: Names, p: NodePattern, log: seq<GraphChange>, c: GraphChange, from: nat)
    requires from <= |log|
    ensures Matching(names, p, log + [c], from)
         == Matching(names, p, log, from) + if MatchChange(names, c, p) then [c] else []
  {
    assert (log + [c])[..|log|] == log;
  }

  lemma {:induction false} MatchingMembers(names: Names, p: NodePattern, log: seq<GraphChange>, from: nat,
                                           c: GraphChange)
    requires c in Matching(names, p, log, from)
    ensures exists k | from <= k < |log| :: log[k] == c
  {
    hide MatchChange;
    var n := |log| - 1;
    if c in Matching(names, p, log[..n], from) {
      MatchingMembers(names, p, log[..n], from, c);
      var k :| from <= k < n && log[..n][k] == c;
      assert log[k] == c;
    } else {
      assert log[n] == c;
    }
  }

  // --- Pushes ---------------------------------------------------------------------------------

  function Pushed(names: Names, w: WatchState, c: GraphChange): WatchState {
    if MatchChange(names, c, w.pattern) then w.(queue := w.queue + [c], lastRevision := c.Revision()) else w
  }

  lemma OwedBelow(names: Names, w: WatchState, t: Trace, log: seq<GraphChange>, things: map<Uuid, GraphThing>,
                  revision: nat, c: GraphChange)
    requires ScanSound(names, w, t, log, things, revision) && LogSound(log, revision)
    requires c in Owed(names, w, t, log)
    ensures c.Revision() < revision
  {
    if c !in t.base {
      MatchingMembers(names, w.pattern, log, t.start, c);
    }
  }

  // A new change keeps every watch exact.
  lemma PushKeepsExact(names: Names, w: WatchState, t: Trace, log: seq<GraphChange>, things: map<Uuid, GraphThing>,
                       revision: nat, c: GraphChange)
    requires WatchSound(names, w, t, log, things, revision) && LogSound(log, revision) && c.Revision() == revision
    ensures ExactlyOnce(names, Pushed(names, w, c), t, log + [c])
  {
    MatchingOneMore(names, w.pattern, log, c, t.start);
    var owed := Owed(names, w, t, log);
    if MatchChange(names, c, w.pattern) {
      assert Owed(names, Pushed(names, w, c), t, log + [c]) == owed + [c];
      assert t.delivered + (w.queue + [c]) == t.delivered + w.queue + [c];
      forall x | x in owed ensures x.Revision() < revision {
        OwedBelow(names, w, t, log, things, revision, x);
      }
      IncreasingAppend(owed, c);
    }
  }

  lemma PushKeepsScan(names: Names, w: WatchState, t: Trace, log: seq<GraphChange>, things: map<Uuid, GraphThing>,
                      revision: nat, c: GraphChange, things': map<Uuid, GraphThing>)
    requires ScanSound(names, w, t, log, things, revision) && c.Revision() == revision
    requires things' == if c.Thing? then things[c.thing.id := c.thing] else things
    ensures ScanSound(names, Pushed(names, w, c), t, log + [c], things', revision + 1)
  {
    hide Matching;
    MatchingOneMore(names, w.pattern, log, c, t.start);
  }

  // --- Polls ----------------------------------------------------------------------------------

  predicate Scanned(t: GraphThing, w: WatchState, things: map<Uuid, GraphThing>) {
    t.id in things && things[t.id] == t && PatternMatches(t, w.pattern) && w.lastRevision < t.revision
  }

  // A scan of the store for things above the watermark, in whatever order the store lists them.
  ghost predicate Fetched(fetched: seq<GraphChange>, w: WatchState, things: map<Uuid, GraphThing>) {
    && DistinctRevisions(fetched)
    && (forall c :: c in fetched <==> c.Thing? && Scanned(c.thing, w, things))
  }

  // The largest revision of a queue and the watermark.
  function LatestSeen(queue: seq<GraphChange>, last: nat): nat {
    if queue == [] then last else Max(queue[|queue| - 1].Revision(), LatestSeen(queue[..|queue| - 1], last))
  }

  function DrainCount(max: Option<nat>, length: nat): nat {
    if max.Some? && max.value < length then max.value else length
  }

  function Polled(w: WatchState, fetched: seq<GraphChange>, max: Option<nat>): (WatchState, seq<GraphChange>) {
    var queue := SortByRevision(w.queue + fetched);
    var n := DrainCount(max, |queue|);
    (w.(queue := queue[n..], lastRevision := LatestSeen(queue, w.lastRevision)), queue[..n])
  }

  // The first poll that finds older things makes them the start of what is owed.
  function Rescanned(t: Trace, fetched: seq<GraphChange>): Trace {
    if fetched == [] then t else t.(base := SortByRevision(fetched))
  }

  function Delivered(t: Trace, batch: seq<GraphChange>): Trace { t.(delivered := t.delivered + batch) }

  lemma {:induction false} LatestSeenIsLast(queue: seq<GraphChange>, last: nat)
    requires Increasing(queue)
    ensures LatestSeen(queue, last) == Max(LastRevision(queue), last)
  {
    if queue != [] {
      LatestSeenIsLast(queue[..|queue| - 1], last);
    }
  }

  // What is owed is nowhere above the watermark.
  lemma OwedIsSeen(names: Names, w: WatchState, t: Trace, log: seq<GraphChange>, c: GraphChange)
    requires ExactlyOnce(names, w, t, log) && c in Owed(names, w, t, log)
    ensures c.Revision() <= w.lastRevision
  {
  }

  // Once anything is owed, a re-scan finds nothing new.
  lemma NothingNew(names: Names, w: WatchState, t: Trace, log: seq<GraphChange>, things: map<Uuid, GraphThing>,
                   revision: nat, thing: GraphThing)
    requires WatchSound(names, w, t, log, things, revision) && Owed(names, w, t, log) != []
    ensures !Scanned(thing, w, things)
  {
    hide Matching;
    var recent := Matching(names, w.pattern, log, t.start);
    if thing.id in things && things[thing.id] == thing && PatternMatches(thing, w.pattern) {
      if t.since <= thing.revision || t.base != [] {
        assert Thing(thing) in Owed(names, w, t, log);
        OwedIsSeen(names, w, t, log, Thing(thing));
      } else {
        assert recent[|recent| - 1] in recent;
        MatchingMembers(names, w.pattern, log, t.start, recent[|recent| - 1]);
      }
    }
  }

  lemma FetchIsEmpty(names: Names, w: WatchState, t: Trace, log: seq<GraphChange>, things: map<Uuid, GraphThing>,
                     revision: nat, fetched: seq<GraphChange>)
    requires WatchSound(names, w, t, log, things, revision) && Owed(names, w, t, log) != []
    requires Fetched(fetched, w, things)
    ensures fetched == []
  {
    if fetched != [] {
      var c := fetched[0];
      assert c in fetched;
      NothingNew(names, w, t, log, things, revision, c.thing);
      assert false;
    }
  }

  lemma SuffixIncreasing(a: seq<GraphChange>, b: seq<GraphChange>)
    requires Increasing(a + b)
    ensures Increasing(b) && LastRevision(b) <= LastRevision(a + b)
  {
    forall i, j | 0 <= i < j < |b| ensures b[i].Revision() < b[j].Revision() {
      assert b[i] == (a + b)[|a| + i] && b[j] == (a + b)[|a| + j];
    }
  }

  // Draining n changes from a queue that completes what is owed.
  lemma DrainKeepsExact(names: Names, w: WatchState, t: Trace, log: seq<GraphChange>, queue: seq<GraphChange>, n: nat)
    requires n <= |queue| && t.delivered + queue == Owed(names, w, t, log) && Increasing(Owed(names, w, t, log))
    ensures ExactlyOnce(names, w.(queue := queue[n..], lastRevision := LastRevision(Owed(names, w, t, log))),
                        Delivered(t, queue[..n]), log)
  {
    hide Matching;
    assert t.delivered + queue[..n] + queue[n..] == t.delivered + queue;
  }

  // A poll of a watch that is owed something drains its queue from the front.
  lemma PollDrains(names: Names, w: WatchState, t: Trace, log: seq<GraphChange>, max: Option<nat>)
    requires ExactlyOnce(names, w, t, log)
    ensures var (w', batch) := Polled(w, [], max);
            ExactlyOnce(names, w', Delivered(t, batch), log)
  {
    hide Matching;
    assert w.queue + [] == w.queue;
    SuffixIncreasing(t.delivered, w.queue);
    SortKeeps(w.queue);
    LatestSeenIsLast(w.queue, w.lastRevision);
    DrainKeepsExact(names, w, t, log, w.queue, DrainCount(max, |w.queue|));
  }

  // A watch that is owed nothing yet: the re-scan lists all matching things, all of them older.
  lemma ScanIsComplete(names: Names, w: WatchState, t: Trace, log: seq<GraphChange>, things: map<Uuid, GraphThing>,
                       revision: nat, fetched: seq<GraphChange>)
    requires WatchSound(names, w, t, log, things, revision) && Owed(names, w, t, log) == []
    requires Fetched(fetched, w, things) && StoreSound(things, revision)
    ensures w.lastRevision == 0
    ensures forall c | c in fetched :: c.Revision() < t.since
    ensures forall id | id in things && PatternMatches(things[id], w.pattern) :: Thing(things[id]) in fetched
  {
    hide PatternMatches;
    assert Matching(names, w.pattern, log, t.start) == [];
    hide Matching;
    forall id | id in things && PatternMatches(things[id], w.pattern) ensures Thing(things[id]) in fetched {
      assert Scanned(things[id], w, things);
    }
  }

  // A poll of an empty watch: what it found is sorted, and split where the batch ends.
  lemma PolledFresh(w: WatchState, fetched: seq<GraphChange>, max: Option<nat>)
    requires w.queue == [] && w.lastRevision == 0 && DistinctRevisions(fetched)
    ensures var queue := SortByRevision(fetched);
            var n := DrainCount(max, |queue|);
            && Increasing(queue)
            && Polled(w, fetched, max) == (w.(queue := queue[n..], lastRevision := LastRevision(queue)), queue[..n])
  {
    hide SortByRevision, Increasing;
    assert w.queue + fetched == fetched;
    SortIncreasing(fetched);
    LatestSeenIsLast(SortByRevision(fetched), 0);
  }

  // A poll of a watch that is owed nothing yet takes every older matching thing.
  lemma PollScans(names: Names, w: WatchState, t: Trace, log: seq<GraphChange>, fetched: seq<GraphChange>,
                  max: Option<nat>)
    requires ExactlyOnce(names, w, t, log) && Owed(names, w, t, log) == [] && DistinctRevisions(fetched)
    ensures Rescanned(t, fetched).base == SortByRevision(fetched)
    ensures var (w', batch) := Polled(w, fetched, max);
            ExactlyOnce(names, w', Delivered(Rescanned(t, fetched), batch), log)
  {
    OwedNothing(names, w, t, log, fetched);
    hide ExactlyOnce, Owed, SortByRevision, Polled, Rescanned, Increasing, DistinctRevisions, Delivered, DrainCount;
    PolledFresh(w, fetched, max);
    var queue := SortByRevision(fetched);
    DrainCountBound(max, |queue|);
    DrainKeepsExact(names, w, Rescanned(t, fetched), log, queue, DrainCount(max, |queue|));
  }

  lemma DrainCountBound(max: Option<nat>, length: nat)
    ensures DrainCount(max, length) <= length
  {
  }

  // A watch that is owed nothing has no history: what the re-scan finds is all it is owed.
  lemma OwedNothing(names: Names, w: WatchState, t: Trace, log: seq<GraphChange>, fetched: seq<GraphChange>)
    requires ExactlyOnce(names, w, t, log) && Owed(names, w, t, log) == []
    ensures w.lastRevision == 0 && w.queue == []
    ensures Rescanned(t, fetched).base == SortByRevision(fetched)
    ensures Rescanned(t, fetched).delivered + SortByRevision(fetched) == SortByRevision(fetched)
         == Owed(names, w, Rescanned(t, fetched), log)
  {
    hide Matching;
  }

  // What a re-scan could still find depends on the pattern and the older things only.
  lemma ScanKept(names: Names, w: WatchState, t: Trace, w': WatchState, t': Trace, log: seq<GraphChange>,
                 things: map<Uuid, GraphThing>, revision: nat)
    requires ScanSound(names, w, t, log, things, revision)
    requires w'.pattern == w.pattern && t'.start == t.start && t'.since == t.since
    requires (forall c | c in t'.base :: c.Revision() < t.since)
    requires t'.base != [] ==>
               forall id | id in things && PatternMatches(things[id], w.pattern) && things[id].revision < t.since ::
                 Thing(things[id]) in t'.base
    ensures ScanSound(names, w', t', log, things, revision)
  {
    hide Matching, PatternMatches;
  }

  predicate IsMatch(c: GraphChange, things: map<Uuid, GraphThing>, p: NodePattern) {
    c.Thing? && c.thing.id in things && things[c.thing.id] == c.thing && PatternMatches(c.thing, p)
  }

  // Which older things a watch is handed: a poll before any matching change takes all matching
  // things of the store, and no later poll takes any.
  lemma BaseAfterPoll(names: Names, w: WatchState, t: Trace, log: seq<GraphChange>, things: map<Uuid, GraphThing>,
                      revision: nat, fetched: seq<GraphChange>, c: GraphChange)
    requires WatchSound(names, w, t, log, things, revision) && StoreSound(things, revision)
    requires Fetched(fetched, w, things)
    ensures Owed(names, w, t, log) == [] ==> (c in Rescanned(t, fetched).base <==> IsMatch(c, things, w.pattern))
    ensures Owed(names, w, t, log) != [] ==> Rescanned(t, fetched) == t
  {
    hide Matching, PatternMatches, SortByRevision, DistinctRevisions;
    if Owed(names, w, t, log) == [] {
      ScanIsComplete(names, w, t, log, things, revision, fetched);
      SortIncreasing(fetched);
      SortNothing();
    } else {
      FetchIsEmpty(names, w, t, log, things, revision, fetched);
    }
  }

  lemma SortNothing()
    ensures SortByRevision([]) == []
  {
  }

  // Every poll keeps the watch exact.
  lemma PollKeeps(names: Names, w: WatchState, t: Trace, log: seq<GraphChange>, things: map<Uuid, GraphThing>,
                  revision: nat, fetched: seq<GraphChange>, max: Option<nat>)
    requires WatchSound(names, w, t, log, things, revision) && StoreSound(things, revision)
    requires Fetched(fetched, w, things)
    ensures var (w', batch) := Polled(w, fetched, max);
            WatchSound(names, w', Delivered(Rescanned(t, fetched), batch), log, things, revision)
  {
    hide Matching, PatternMatches, DistinctRevisions;
    var (w', batch) := Polled(w, fetched, max);
    var t' := Delivered(Rescanned(t, fetched), batch);
    if Owed(names, w, t, log) == [] {
      ScanIsComplete(names, w, t, log, things, revision, fetched);
      SortIncreasing(fetched);
      PollScans(names, w, t, log, fetched, max);
      hide Owed, ExactlyOnce, ScanSound, SortByRevision;
      ScanKept(names, w, t, w', t', log, things, revision);
    } else {
      FetchIsEmpty(names, w, t, log, things, revision, fetched);
      PollDrains(names, w, t, log, max);
      ScanKept(names, w, t, w', t', log, things, revision);
    }
  }
}

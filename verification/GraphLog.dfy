// The kernel graph as a change log, and what the store's indexes and queries mean in terms of it
// (kernel/src/graph/store.rs).
module GraphLog {
  import opened Options
  import opened GraphTypes

  type Log = seq<GraphChange>

  // --- What the log holds ---------------------------------------------------------------------

  function Edges(log: Log): seq<GraphEdge> {
    if log == [] then []
    else
      var c, rest := log[|log| - 1], Edges(log[..|log| - 1]);
      if c.Edge? then rest + [c.edge] else rest
  }

  // The edges with a given source and predicate, in order.
  function EdgesFrom(log: Log, src: Uuid, pred: string): seq<GraphEdge> {
    if log == [] then []
    else
      var c, rest := log[|log| - 1], EdgesFrom(log[..|log| - 1], src, pred);
      if c.Edge? && c.edge.src == src && c.edge.pred == pred then rest + [c.edge] else rest
  }

  // The versions of a thing, oldest first.
  function Versions(log: Log, id: Uuid): seq<GraphThing> {
    if log == [] then []
    else
      var c, rest := log[|log| - 1], Versions(log[..|log| - 1], id);
      if c.Thing? && c.thing.id == id then rest + [c.thing] else rest
  }

  function Latest(log: Log, id: Uuid): Option<GraphThing> {
    var vs := Versions(log, id);
    if vs == [] then None else Some(vs[|vs| - 1])
  }

  // The ids that ever had a version of a kind.
  function KindIds(log: Log, kind: Symbol): set<Uuid> {
    set c | c in log && c.Thing? && c.thing.kind == kind :: c.thing.id
  }

  lemma Appended(log: Log, c: GraphChange, id: Uuid, src: Uuid, pred: string)
    ensures Edges(log + [c]) == if c.Edge? then Edges(log) + [c.edge] else Edges(log)
    ensures EdgesFrom(log + [c], src, pred)
         == if c.Edge? && c.edge.src == src && c.edge.pred == pred then EdgesFrom(log, src, pred) + [c.edge]
            else EdgesFrom(log, src, pred)
    ensures Versions(log + [c], id)
         == if c.Thing? && c.thing.id == id then Versions(log, id) + [c.thing] else Versions(log, id)
  {
    assert (log + [c])[..|log|] == log;
  }

  // The filters hold exactly the matching records of the log.
  lemma {:induction false} Members(log: Log, id: Uuid, src: Uuid, pred: string)
    ensures forall e :: e in Edges(log) <==> Edge(e) in log
    ensures forall e :: e in EdgesFrom(log, src, pred) <==> Edge(e) in log && e.src == src && e.pred == pred
    ensures forall t :: t in Versions(log, id) <==> Thing(t) in log && t.id == id
  {
    if log != [] {
      var rest, c := log[..|log| - 1], log[|log| - 1];
      Members(rest, id, src, pred);
      assert log == rest + [c];
      Appended(rest, c, id, src, pred);
    }
  }

  // --- Authority ------------------------------------------------------------------------------

  const KERNEL: Uuid := 0xfeed_cafe_dead_beef_cafe_babe_0000_0001

  const OWNS := "OWNS"
  const CAN_READ := "CAN_READ"
  const CAN_WRITE := "CAN_WRITE"
  const CAN_LINK := "CAN_LINK"

  const KIND := Canon('K', 'N', 'D')
  const SRC := Canon('S', 'R', 'C')
  const DST := Canon('D', 'S', 'T')
  const PREDICATE := Canon('P', 'R', 'D')
  const OWNER := Canon('O', 'W', 'N')
  const ID := Canon('I', 'D', ' ')
  const BUNDLE := Canon('B', 'N', 'D')
  const PUBLIC := Canon('P', 'U', 'B')
  const KEY_EVENT := Canon('K', 'E', 'V')
  const KEY_PRESSED := Canon('K', 'P', '\0')
  const MOUSE_MOVE := Canon('M', 'M', 'V')
  const MOUSE_BUTTON := Canon('M', 'B', 'T')
  const INPUT_EVENT := Canon('I', 'E', 'V')
  const THING_CREATED := Canon('T', 'C', '\0')

  // What the store takes from outside: the symbol table and the derived ids.
  datatype Env = Env(nameOf: Symbol -> string, thingId: (Symbol, Map) -> Uuid, edgeId: (string, Map) -> Uuid)

  predicate Linked(log: Log, src: Uuid, pred: string, dst: Uuid) {
    exists c | c in log :: c.Edge? && c.edge.src == src && c.edge.pred == pred && c.edge.dst == dst
  }

  predicate Owns(log: Log, bundle: Uuid, node: Uuid) { Linked(log, bundle, OWNS, node) }

  predicate CanWrite(log: Log, bundle: Uuid, node: Uuid) {
    bundle == KERNEL || Owns(log, bundle, node) || Linked(log, bundle, CAN_WRITE, node)
  }

  predicate CanRead(log: Log, bundle: Uuid, node: Uuid) {
    bundle == KERNEL || Owns(log, bundle, node) || Linked(log, bundle, CAN_READ, node) || CanWrite(log, bundle, node)
  }

  // A CAN_LINK edge that admits edges of a predicate: it may be narrowed to one by its KIND.
  predicate Admits(env: Env, e: GraphEdge, from: Uuid, to: Uuid, pred: string) {
    && (e.dst == from || e.dst == to)
    && (KIND in e.props && e.props[KIND].Sym? ==> env.nameOf(e.props[KIND].symbol) == pred)
  }

  predicate CanLink(env: Env, log: Log, bundle: Uuid, from: Uuid, to: Uuid, pred: string) {
    || bundle == KERNEL || Owns(log, bundle, from) || Owns(log, bundle, to)
    || exists c | c in log ::
         c.Edge? && c.edge.src == bundle && c.edge.pred == CAN_LINK && Admits(env, c.edge, from, to, pred)
  }

  // Authority only depends on which edges the log holds, and only grows with them.
  lemma AuthorityGrows(env: Env, log: Log, log': Log, bundle: Uuid, from: Uuid, to: Uuid, pred: string)
    requires forall e :: Edge(e) in log ==> Edge(e) in log'
    ensures CanRead(log, bundle, from) ==> CanRead(log', bundle, from)
    ensures CanWrite(log, bundle, from) ==> CanWrite(log', bundle, from)
    ensures CanLink(env, log, bundle, from, to, pred) ==> CanLink(env, log', bundle, from, to, pred)
  {
    assert forall c | c in log && c.Edge? :: c == Edge(c.edge);
  }

  // --- Patterns and visibility ----------------------------------------------------------------

  // One property of a pattern, against the node and, for an edge change, the edge.
  predicate PropMatches(env: Env, key: Symbol, want: Value, thing: GraphThing, edge: Option<GraphEdge>) {
    if key in thing.fields && thing.fields[key] == want then true
    else if edge.None? then false
    else if key == SRC && want == Id(edge.value.src) then true
    else if key == DST && want == Id(edge.value.dst) then true
    else if key == PREDICATE then
      (want.Text? && want.text == edge.value.pred) || (want.Sym? && env.nameOf(want.symbol) == edge.value.pred)
    else false
  }

  predicate MatchesPattern(env: Env, p: NodePattern, thing: GraphThing, edge: Option<GraphEdge>) {
    && (forall l | l in p.labels :: l in thing.labels)
    && (forall k | k in p.props :: PropMatches(env, k, p.props[k], thing, edge))
  }

  predicate PubliclyVisible(t: GraphThing) {
    || PUBLIC in t.labels
    || t.kind == KEY_EVENT || t.kind == KEY_PRESSED || t.kind == MOUSE_MOVE
    || t.kind == MOUSE_BUTTON || t.kind == INPUT_EVENT
  }

  predicate VisibleTo(log: Log, bundle: Uuid, c: GraphChange) {
    match c
    case Thing(t) => PubliclyVisible(t) || CanRead(log, bundle, t.id)
    case Edge(e) => CanRead(log, bundle, e.src) || CanRead(log, bundle, e.dst) || e.owner == bundle
  }

  // The node an edge change is matched against: its source, or else its destination.
  function Target(log: Log, c: GraphChange): Option<GraphThing> {
    match c
    case Thing(t) => Some(t)
    case Edge(e) => if Latest(log, e.src).Some? then Latest(log, e.src) else Latest(log, e.dst)
  }

  // Whether a watch of `owner` for pattern p receives the change c, given the log at that time.
  predicate Receives(env: Env, log: Log, owner: Uuid, p: NodePattern, c: GraphChange) {
    && VisibleTo(log, owner, c)
    && var node := Target(log, c);
       node.Some? && MatchesPattern(env, p, node.value, if c.Edge? then Some(c.edge) else None)
  }
}

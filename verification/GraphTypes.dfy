// The graph records shared by the kernel store and the host store (thing_abi/src/lib.rs).
module GraphTypes {

  // 128-bit ids and 32-bit symbols, ordered as numbers.
  type Uuid = nat
  type Symbol = nat
  type Map = map<Symbol, Value>

  datatype Value =
    | Null
    | Bool(flag: bool)
    | U64(unsigned: nat)
    | I64(signed: int)
    | Bytes(bytes: seq<nat>)
    | Sym(symbol: Symbol)
    | Id(uuid: Uuid)
    | Text(text: string)
    | Record(fields: map<Symbol, Value>)
    | List(items: seq<Value>)
    | Blob(blob: seq<nat>)

  datatype GraphThing = GraphThing(id: Uuid, kind: Symbol, labels: set<Symbol>, fields: Map, owner: Uuid, revision: nat)

  datatype GraphEdge = GraphEdge(id: Uuid, src: Uuid, pred: string, dst: Uuid, props: Map, owner: Uuid, revision: nat)

  datatype GraphChange = Thing(thing: GraphThing) | Edge(edge: GraphEdge)
  {
    function Revision(): nat { if Thing? then thing.revision else edge.revision }
  }

  datatype NodePattern = NodePattern(labels: seq<Symbol>, props: Map)

  // Three characters packed into a symbol.
  function Canon(a: char, b: char, c: char): Symbol {
    a as int * 0x1_0000 + b as int * 0x100 + c as int
  }

  // Changes in strictly increasing revision order.
  ghost predicate Increasing(cs: seq<GraphChange>) {
    forall i, j | 0 <= i < j < |cs| :: cs[i].Revision() < cs[j].Revision()
  }
}

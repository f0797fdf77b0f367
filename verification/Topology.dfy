/** The graph of API objects (pkg/topology/graph.go, lines 35 to 164). */
module Topology {
  import opened Common
  import opened Metadata

  /** A relation is compared by identity, so it is an object. */
  class Relation {
    const from: GroupKind
    const to: GroupKind
    const name: string
    const neighborFunc: Resource -> seq<GKNN>

    constructor (from: GroupKind, to: GroupKind, name: string, neighborFunc: Resource -> seq<GKNN>)
      ensures this.from == from && this.to == to && this.name == name && this.neighborFunc == neighborFunc
    {
      this.from, this.to, this.name, this.neighborFunc := from, to, name, neighborFunc;
    }
  }

  type Neighbors = map<(Relation, GKNN), Node>

  class Node {
    const obj: Resource
    var inNeighbors: Neighbors
    var outNeighbors: Neighbors
    var depth: int
    var metadata: NodeMetadata

    constructor (obj: Resource, depth: int)
      ensures this.obj == obj && this.depth == depth
      ensures inNeighbors == map[] && outNeighbors == map[] && metadata == None
    {
      this.obj, this.depth := obj, depth;
      inNeighbors, outNeighbors, metadata := map[], map[], None;
    }

    function Id(): GKNN {
      obj.id
    }
  }

  /** An edge of the graph: `src` refers to `dst` through `rel`. */
  datatype Edge = Edge(src: GKNN, rel: Relation, dst: GKNN)

  /** Every node is stored under its own identity. */
  ghost predicate Keyed(nodes: map<GKNN, Node>) {
    forall k :: k in nodes ==> nodes[k].Id() == k
  }

  ghost function Objects(nodes: map<GKNN, Node>): map<GKNN, Resource> {
    map k | k in nodes :: nodes[k].obj
  }

  ghost function AllMetadata(nodes: map<GKNN, Node>): map<GKNN, NodeMetadata>
    reads nodes.Values`metadata
  {
    map k | k in nodes :: nodes[k].metadata
  }

  /** What `k` refers to by `edges`, as pointers into `nodes`. */
  ghost function OutMap(nodes: map<GKNN, Node>, edges: set<Edge>, k: GKNN): Neighbors {
    map e | e in edges && e.src == k && e.dst in nodes :: (e.rel, e.dst) := nodes[e.dst]
  }

  /** What refers to `k` by `edges`, as pointers into `nodes`. */
  ghost function InMap(nodes: map<GKNN, Node>, edges: set<Edge>, k: GKNN): Neighbors {
    map e | e in edges && e.dst == k && e.src in nodes :: (e.rel, e.src) := nodes[e.src]
  }

  /** The neighbour maps of the nodes record exactly `edges`, each on the side of its source and on the
      side of its target. */
  ghost predicate Linked(nodes: map<GKNN, Node>, edges: set<Edge>)
    reads nodes.Values`outNeighbors, nodes.Values`inNeighbors
  {
    && (forall e | e in edges :: e.src in nodes && e.dst in nodes)
    && (forall k :: k in nodes ==> nodes[k].outNeighbors == OutMap(nodes, edges, k))
    && (forall k :: k in nodes ==> nodes[k].inNeighbors == InMap(nodes, edges, k))
  }

  /** The outgoing neighbours of the nodes are nodes of the graph. */
  ghost predicate OutClosed(nodes: map<GKNN, Node>)
    reads nodes.Values`outNeighbors
  {
    forall k, p | k in nodes && p in nodes[k].outNeighbors :: p.1 in nodes && nodes[k].outNeighbors[p] == nodes[p.1]
  }

  lemma AddToMaps(nodes: map<GKNN, Node>, edges: set<Edge>, e: Edge, k: GKNN)
    requires e.src in nodes && e.dst in nodes
    ensures OutMap(nodes, edges + {e}, k) ==
      if k == e.src then OutMap(nodes, edges, k)[(e.rel, e.dst) := nodes[e.dst]] else OutMap(nodes, edges, k)
    ensures InMap(nodes, edges + {e}, k) ==
      if k == e.dst then InMap(nodes, edges, k)[(e.rel, e.src) := nodes[e.src]] else InMap(nodes, edges, k)
  {
  }

  lemma RemoveFromOutMap(nodes: map<GKNN, Node>, edges: set<Edge>, e: Edge, k: GKNN)
    ensures OutMap(nodes, edges - {e}, k) ==
      if k == e.src then OutMap(nodes, edges, k) - {(e.rel, e.dst)} else OutMap(nodes, edges, k)
  {
  }

  lemma RemoveFromInMap(nodes: map<GKNN, Node>, edges: set<Edge>, e: Edge, k: GKNN)
    ensures InMap(nodes, edges - {e}, k) ==
      if k == e.dst then InMap(nodes, edges, k) - {(e.rel, e.src)} else InMap(nodes, edges, k)
  {
  }

  class Graph {
    var nodes: map<GKNN, Node>
    var sources: seq<Node>
    const maxDepth: int
    const relations: seq<Relation>

    constructor (maxDepth: int, relations: seq<Relation>)
      ensures this.maxDepth == maxDepth && this.relations == relations
      ensures nodes == map[] && sources == []
    {
      this.maxDepth, this.relations := maxDepth, relations;
      nodes, sources := map[], [];
    }

    method AddNode(node: Node)
      modifies this`nodes
      ensures nodes == old(nodes)[node.Id() := node]
    {
      nodes := nodes[node.Id() := node];
    }

    method DeleteNode(node: Node)
      modifies this`nodes
      ensures nodes == old(nodes) - {node.Id()}
    {
      nodes := nodes - {node.Id()};
    }

    predicate HasNode(id: GKNN)
      reads this`nodes
    {
      id in nodes
    }

    method AddEdge(from: Node, to: Node, relation: Relation)
      modifies from`outNeighbors, to`inNeighbors
      ensures from.outNeighbors == old(from.outNeighbors)[(relation, to.Id()) := to]
      ensures to.inNeighbors == old(to.inNeighbors)[(relation, from.Id()) := from]
    {
      from.outNeighbors := from.outNeighbors[(relation, to.Id()) := to];
      to.inNeighbors := to.inNeighbors[(relation, from.Id()) := from];
    }

    method RemoveEdge(from: Node, to: Node, relation: Relation)
      modifies from`outNeighbors, to`inNeighbors
      ensures from.outNeighbors == old(from.outNeighbors) - {(relation, to.Id())}
      ensures to.inNeighbors == old(to.inNeighbors) - {(relation, from.Id())}
    {
      from.outNeighbors := from.outNeighbors - {(relation, to.Id())};
      to.inNeighbors := to.inNeighbors - {(relation, from.Id())};
    }

    method RemoveMetadata(category: string)
      modifies nodes.Values`metadata
      ensures forall k :: k in nodes ==> nodes[k].metadata == Without(old(nodes[k].metadata), category)
    {
      var todo := nodes.Values;
      while todo != {}
        invariant todo <= nodes.Values
        invariant forall n :: n in nodes.Values && n in todo ==> n.metadata == old(n.metadata)
        invariant forall n :: n in nodes.Values && n !in todo ==> n.metadata == Without(old(n.metadata), category)
      {
        var node :| node in todo;
        todo := todo - {node};
        if node.metadata.Some? {
          node.metadata := Some(node.metadata.value - {category});
        }
      }
    }
  }
}

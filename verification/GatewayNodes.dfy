/** Going from one Gateway API object to its neighbours (pkg/topology/gateway/gateway.go, lines 200 to 299). */
module GatewayNodes {
  import opened Common
  import opened Builder
  import opened Cluster
  import opened Topology

  /** What a graph straight out of `Build` with the six relations is like: references lead to nodes of the
      graph and say what the relation says; what refers to a node is in the graph or has been pruned. */
  ghost predicate Shaped(nodes: map<GKNN, Node>, removed: map<GKNN, Node>)
    reads nodes.Values`outNeighbors, nodes.Values`inNeighbors
  {
    && Keyed(nodes) && Keyed(removed) && nodes.Keys !! removed.Keys
    && (forall k | k in nodes :: RefersWithin(nodes, nodes[k], nodes[k].outNeighbors))
    && (forall k | k in nodes :: ReferredFrom(nodes, removed, nodes[k].inNeighbors))
  }

  ghost predicate RefersWithin(nodes: map<GKNN, Node>, node: Node, outNeighbors: Neighbors) {
    forall p | p in outNeighbors ::
      && p.1 in nodes && outNeighbors[p] == nodes[p.1]
      && p.0.from == node.Id().GK() && p.1 in p.0.neighborFunc(node.obj)
  }

  ghost predicate ReferredFrom(nodes: map<GKNN, Node>, removed: map<GKNN, Node>, inNeighbors: Neighbors) {
    forall p | p in inNeighbors ::
      && p.0.from == p.1.GK()
      && (if p.1 in nodes then inNeighbors[p] == nodes[p.1] else p.1 in removed && inNeighbors[p] == removed[p.1])
  }

  lemma BuiltIsShaped(graph: Graph, removed: map<GKNN, Node>, objects: map<GKNN, Resource>, edges: set<Edge>,
                      sources: set<GKNN>, relations: seq<Relation>)
    requires Built(graph, removed, objects, edges, sources)
    requires forall e | e in edges :: IsEdge(relations, objects, e)
    ensures Shaped(graph.nodes, removed)
  {
    hide HoldsNearest, IsEdge;
    var nodes := graph.nodes;
    forall k | k in nodes ensures RefersWithin(nodes, nodes[k], nodes[k].outNeighbors) {
      forall p | p in nodes[k].outNeighbors ensures p.0.from == k.GK() && p.1 in p.0.neighborFunc(objects[k]) {
        EdgeSays(relations, objects, Edge(k, p.0, p.1));
      }
    }
    forall k | k in nodes ensures ReferredFrom(nodes, removed, nodes[k].inNeighbors) {
      forall p | p in nodes[k].inNeighbors
        ensures p.0.from == p.1.GK()
      {
        EdgeSays(relations, objects, Edge(p.1, p.0, k));
      }
    }
  }

  lemma EdgeSays(relations: seq<Relation>, objects: map<GKNN, Resource>, e: Edge)
    requires IsEdge(relations, objects, e)
    ensures e.src in objects && e.rel.from == e.src.GK() && e.dst in e.rel.neighborFunc(objects[e.src])
  {
  }

  /** What a node refers to through a relation, and what refers to it and is still in the graph. */
  ghost function Targets(node: Node, relation: Relation): set<GKNN>
    reads node`outNeighbors
  {
    set p | p in node.outNeighbors && p.0 == relation :: p.1
  }

  ghost function Referrers(nodes: map<GKNN, Node>, node: Node, relation: Relation): set<GKNN>
    reads node`inNeighbors
  {
    set p | p in node.inNeighbors && p.0 == relation && p.1 in nodes :: p.1
  }

  /** Namespace() and GatewayClass(): some neighbour through the relation. */
  method AnyNeighbor(neighbors: Neighbors, relation: Relation) returns (node: Option<Node>, ghost k: GKNN)
    ensures node.None? <==> forall p | p in neighbors :: p.0 != relation
    ensures node.Some? ==> (relation, k) in neighbors && node.value == neighbors[(relation, k)]
  {
    var todo := neighbors.Keys;
    while todo != {}
      invariant todo <= neighbors.Keys
      invariant forall p | p in neighbors && p !in todo :: p.0 != relation
    {
      var p :| p in todo;
      if p.0 == relation {
        return Some(neighbors[p]), p.1;
      }
      todo := todo - {p};
    }
    return None, GKNN("", "", "", "");
  }

  /** Gateways(), HTTPRoutes() and Backends(): the neighbours through the relation. */
  function NeighborsBy(neighbors: Neighbors, relation: Relation): (found: map<GKNN, Node>)
    ensures forall k :: k in found <==> (relation, k) in neighbors
    ensures forall k :: k in found ==> found[k] == neighbors[(relation, k)]
  {
    map p | p in neighbors && p.0 == relation :: p.1 := neighbors[p]
  }
}

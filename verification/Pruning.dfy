/** Deleting what the search has not reached (pkg/topology/graph.go, lines 304 to 325). */
module Pruning {
  import opened Common
  import opened Cluster
  import opened NodeSearch
  import opened Topology

  /** The edges that do not lead to one of `gone`. */
  ghost function WithoutTargets(edges: set<Edge>, gone: set<GKNN>): set<Edge> {
    set e | e in edges && e.dst !in gone
  }

  /** The edges into `k` that its neighbour map `incoming` records. */
  ghost function EdgesOf(incoming: set<(Relation, GKNN)>, k: GKNN): set<Edge> {
    set p | p in incoming :: Edge(p.1, p.0, k)
  }

  /** Removes one edge from both sides. */
  method Unlink(graph: Graph, from: Node, to: Node, relation: Relation, ghost all: map<GKNN, Node>,
                ghost edges: set<Edge>)
    requires Keyed(all) && In(all, from) && In(all, to) && Linked(all, edges)
    modifies from`outNeighbors, to`inNeighbors
    ensures Linked(all, edges - {Edge(from.Id(), relation, to.Id())})
  {
    hide OutMap, InMap;
    ghost var e := Edge(from.Id(), relation, to.Id());
    forall k { RemoveFromOutMap(all, edges, e, k); }
    forall k { RemoveFromInMap(all, edges, e, k); }
    graph.RemoveEdge(from, to, relation);
  }

  /** Removes every edge into `u`. */
  method UnlinkIncoming(graph: Graph, u: Node, ghost all: map<GKNN, Node>, ghost edges: set<Edge>)
    requires Keyed(all) && In(all, u) && Linked(all, edges)
    modifies all.Values`outNeighbors, all.Values`inNeighbors
    ensures Linked(all, WithoutTargets(edges, {u.Id()}))
  {
    hide Linked, EdgesOf, WithoutTargets;
    ghost var k := u.Id();
    IncomingEdges(all, edges, u);
    NoEdges(edges, k);
    var neighbors := u.inNeighbors;
    var todo := neighbors.Keys;
    ghost var done: set<(Relation, GKNN)> := {};
    while todo != {}
      invariant todo + done == neighbors.Keys
      invariant Linked(all, edges - EdgesOf(done, k))
    {
      var p :| p in todo;
      EdgesOfMore(edges, done, p, k);
      Unlink(graph, neighbors[p], u, p.0, all, edges - EdgesOf(done, k));
      todo, done := todo - {p}, done + {p};
    }
    assert done == neighbors.Keys;
  }

  lemma NoEdges(edges: set<Edge>, k: GKNN)
    ensures edges - EdgesOf({}, k) == edges && WithoutTargets(edges, {}) == edges
  {
  }

  lemma EdgesOfMore(edges: set<Edge>, done: set<(Relation, GKNN)>, p: (Relation, GKNN), k: GKNN)
    ensures edges - EdgesOf(done + {p}, k) == edges - EdgesOf(done, k) - {Edge(p.1, p.0, k)}
  {
  }

  lemma IncomingEdges(all: map<GKNN, Node>, edges: set<Edge>, u: Node)
    requires Keyed(all) && In(all, u) && Linked(all, edges)
    ensures forall p | p in u.inNeighbors :: p.1 in all && u.inNeighbors[p] == all[p.1] && all[p.1].Id() == p.1
    ensures WithoutTargets(edges, {u.Id()}) == edges - EdgesOf(u.inNeighbors.Keys, u.Id())
  {
  }

  ghost function Unreached(nodes: map<GKNN, Node>): set<GKNN>
    reads nodes.Values`depth
  {
    set k | k in nodes && nodes[k].depth >= INF
  }

  /** Deletes the nodes that the search has not reached, with the edges into them. Edges out of them stay
      where they are recorded on the side of their target. */
  method Prune(graph: Graph, ghost edges: set<Edge>) returns (ghost gone: set<GKNN>)
    requires Keyed(graph.nodes) && Linked(graph.nodes, edges)
    modifies graph`nodes, graph.nodes.Values`outNeighbors, graph.nodes.Values`inNeighbors
    ensures gone == Unreached(old(graph.nodes)) && graph.nodes == old(graph.nodes) - gone
    ensures Linked(old(graph.nodes), WithoutTargets(edges, gone))
  {
    hide Linked, WithoutTargets;
    ghost var all := graph.nodes;
    gone := {};
    NoEdges(edges, GKNN("", "", "", ""));
    var todo := graph.nodes.Keys;
    while todo != {}
      invariant todo <= graph.nodes.Keys && gone == Unreached(all) - todo
      invariant graph.nodes == all - gone
      invariant Linked(all, WithoutTargets(edges, gone))
    {
      var k :| k in todo;
      todo := todo - {k};
      var u := graph.nodes[k];
      if u.depth < INF {
        continue;
      }
      PruneNode(graph, u, all, edges, gone);
      gone := gone + {k};
    }
    assert gone == Unreached(all);
  }

  method PruneNode(graph: Graph, u: Node, ghost all: map<GKNN, Node>, ghost edges: set<Edge>, ghost gone: set<GKNN>)
    requires Keyed(all) && In(all, u) && Linked(all, WithoutTargets(edges, gone))
    modifies graph`nodes, all.Values`outNeighbors, all.Values`inNeighbors
    ensures graph.nodes == old(graph.nodes) - {u.Id()}
    ensures Linked(all, WithoutTargets(edges, gone + {u.Id()}))
  {
    WithoutOneMore(edges, gone, u.Id());
    UnlinkIncoming(graph, u, all, WithoutTargets(edges, gone));
    graph.DeleteNode(u);
  }

  lemma WithoutOneMore(edges: set<Edge>, gone: set<GKNN>, k: GKNN)
    ensures WithoutTargets(WithoutTargets(edges, gone), {k}) == WithoutTargets(edges, gone + {k})
  {
  }
}

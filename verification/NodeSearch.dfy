/** The breadth-first search over the nodes of a connected graph (pkg/topology/graph.go, lines 252 to 302). */
module NodeSearch {
  import opened Common
  import opened Cluster
  import opened Reach
  import opened Topology

  /** The depths of the nodes that have been reached. */
  ghost function Visited(nodes: map<GKNN, Node>): map<GKNN, int>
    reads nodes.Values`depth
  {
    map k | k in nodes && nodes[k].depth < INF :: nodes[k].depth
  }

  ghost function QueueIds(q: seq<Node>): seq<GKNN> {
    seq(|q|, i requires 0 <= i < |q| => q[i].Id())
  }

  /** `n` is the node that the graph holds for its identity. */
  ghost predicate In(nodes: map<GKNN, Node>, n: Node) {
    n.Id() in nodes && nodes[n.Id()] == n
  }

  ghost predicate AllIn(nodes: map<GKNN, Node>, q: seq<Node>) {
    forall i :: 0 <= i < |q| ==> In(nodes, q[i])
  }

  /** The nodes that neighbour maps lead to. */
  ghost function Ends(neighbors: Neighbors): set<GKNN> {
    set p | p in neighbors :: p.1
  }

  ghost predicate Within(neighbors: Neighbors, nodes: map<GKNN, Node>) {
    forall p | p in neighbors :: p.1 in nodes && neighbors[p] == nodes[p.1]
  }

  /** The visited nodes keep their depth; others may have been reached, one level below `level`; and the
      queue has not changed unless there are some. */
  ghost predicate Grown(before: map<GKNN, int>, after: map<GKNN, int>, level: int, q0: seq<Node>, q: seq<Node>) {
    && before.Keys <= after.Keys
    && (forall k :: k in before ==> after[k] == before[k])
    && (forall k :: k in after && k !in before ==> after[k] == level + 1)
    && (before.Keys == after.Keys ==> q == q0)
  }

  lemma GrownNot(depth: map<GKNN, int>, level: int, q: seq<Node>)
    ensures Grown(depth, depth, level, q, q)
  {
  }

  lemma GrownTransitive(a: map<GKNN, int>, b: map<GKNN, int>, c: map<GKNN, int>, level: int,
                        q0: seq<Node>, q1: seq<Node>, q2: seq<Node>)
    requires Grown(a, b, level, q0, q1) && Grown(b, c, level, q1, q2)
    ensures Grown(a, c, level, q0, q2) && b.Keys <= c.Keys
  {
  }

  /** A round that reaches nothing new leaves the queue alone, and nodes one level down are within the bound. */
  lemma GrownKeeps(all: set<GKNN>, a: map<GKNN, int>, b: map<GKNN, int>, level: int, bound: int, q0: seq<Node>,
                   q: seq<Node>)
    requires Grown(a, b, level, q0, q) && b.Keys <= all && level < bound
    requires forall k :: k in a ==> a[k] <= bound
    ensures all - b.Keys <= all - a.Keys && (all - b.Keys == all - a.Keys ==> q == q0)
    ensures a.Keys <= b.Keys && forall k :: k in b ==> b[k] <= bound
  {
  }

  /** Gives `v` its depth and queues it, unless it already has one. */
  method Visit(ghost nodes: map<GKNN, Node>, v: Node, u: Node, q0: seq<Node>,
               ghost arcs: iset<(GKNN, GKNN)>, ghost sources: set<GKNN>)
    returns (q: seq<Node>)
    requires Keyed(nodes) && In(nodes, u) && In(nodes, v)
    requires Searching(arcs, sources, Visited(nodes), [u.Id()] + QueueIds(q0))
    requires (u.Id(), v.Id()) in arcs && u.depth + 1 < INF
    requires AllIn(nodes, q0)
    modifies v`depth
    ensures u.depth == old(u.depth)
    ensures AllIn(nodes, q)
    ensures v.Id() in Visited(nodes)
    ensures Grown(old(Visited(nodes)), Visited(nodes), u.depth, q0, q)
    ensures Searching(arcs, sources, Visited(nodes), [u.Id()] + QueueIds(q))
  {
    hide Searching;
    q := q0;
    var visited := v.depth < INF;
    if visited {
      return;
    }
    SearchVisit(arcs, sources, Visited(nodes), u.Id(), QueueIds(q), v.Id());
    v.depth := u.depth + 1;
    q := q + [v];
    assert [u.Id()] + QueueIds(q0) + [v.Id()] == [u.Id()] + QueueIds(q);
    assert Visited(nodes) == old(Visited(nodes))[v.Id() := u.depth + 1];
  }

  method VisitNeighbors(ghost nodes: map<GKNN, Node>, neighbors: Neighbors, u: Node, q0: seq<Node>,
                        ghost arcs: iset<(GKNN, GKNN)>, ghost sources: set<GKNN>)
    returns (q: seq<Node>)
    requires Keyed(nodes) && In(nodes, u) && u.depth + 1 < INF
    requires Within(neighbors, nodes) && forall v :: v in Ends(neighbors) ==> (u.Id(), v) in arcs
    requires Searching(arcs, sources, Visited(nodes), [u.Id()] + QueueIds(q0))
    requires AllIn(nodes, q0)
    modifies nodes.Values`depth
    ensures u.depth == old(u.depth)
    ensures AllIn(nodes, q)
    ensures Ends(neighbors) <= Visited(nodes).Keys
    ensures Grown(old(Visited(nodes)), Visited(nodes), u.depth, q0, q)
    ensures Searching(arcs, sources, Visited(nodes), [u.Id()] + QueueIds(q))
  {
    hide Searching, Grown, Visited, QueueIds, AllIn;
    q := q0;
    GrownNot(Visited(nodes), u.depth, q0);
    var todo := neighbors.Keys;
    while todo != {}
      invariant todo <= neighbors.Keys
      invariant u.depth == old(u.depth)
      invariant AllIn(nodes, q)
      invariant forall p | p in neighbors && p !in todo :: p.1 in Visited(nodes)
      invariant Grown(old(Visited(nodes)), Visited(nodes), u.depth, q0, q)
      invariant Searching(arcs, sources, Visited(nodes), [u.Id()] + QueueIds(q))
    {
      var p :| p in todo;
      ghost var depths, q1 := Visited(nodes), q;
      q := Visit(nodes, neighbors[p], u, q, arcs, sources);
      GrownTransitive(old(Visited(nodes)), depths, Visited(nodes), u.depth, q0, q1, q);
      todo := todo - {p};
    }
  }

  /** The neighbours of a node are the other ends of its edges. */
  lemma NeighborsAreEnds(nodes: map<GKNN, Node>, edges: set<Edge>, u: Node, rel: Relation, v: GKNN)
    requires In(nodes, u) && Linked(nodes, edges)
    ensures (rel, v) in u.outNeighbors <==> Edge(u.Id(), rel, v) in edges
    ensures (rel, v) in u.inNeighbors <==> Edge(v, rel, u.Id()) in edges
  {
  }

  lemma NeighborsWithin(nodes: map<GKNN, Node>, edges: set<Edge>, u: Node)
    requires In(nodes, u) && Linked(nodes, edges)
    ensures Within(u.inNeighbors, nodes) && Within(u.outNeighbors, nodes)
  {
  }

  /** In connected nodes, the arcs that leave a node are its neighbours, in both maps, if it expands. */
  lemma NeighborsAreArcs(nodes: map<GKNN, Node>, edges: set<Edge>, sources: set<GKNN>, u: Node)
    requires In(nodes, u) && Linked(nodes, edges)
    ensures Within(u.inNeighbors, nodes) && Within(u.outNeighbors, nodes)
    ensures forall v :: (u.Id(), v) in NodeArcs(edges, sources) <==>
      MayExpand(u.Id(), sources) && v in Ends(u.inNeighbors) + Ends(u.outNeighbors)
  {
    hide Linked, MayExpand, Within;
    NeighborsWithin(nodes, edges, u);
    var k, arcs := u.Id(), NodeArcs(edges, sources);
    forall v | (k, v) in arcs ensures MayExpand(k, sources) && v in Ends(u.inNeighbors) + Ends(u.outNeighbors) {
      if e :| e in edges && e.src == k && e.dst == v && MayExpand(k, sources) {
        NeighborsAreEnds(nodes, edges, u, e.rel, v);
      } else {
        var e :| e in edges && e.dst == k && e.src == v && MayExpand(k, sources);
        NeighborsAreEnds(nodes, edges, u, e.rel, v);
      }
    }
    forall p | (p in u.outNeighbors || p in u.inNeighbors) && MayExpand(k, sources) ensures (k, p.1) in arcs {
      NeighborsAreEnds(nodes, edges, u, p.0, p.1);
    }
  }

  /** Expands `u`, unless it is of a kind that is not expanded. */
  method Expand(ghost nodes: map<GKNN, Node>, u: Node, q0: seq<Node>, ghost edges: set<Edge>, ghost sources: set<GKNN>)
    returns (q: seq<Node>)
    requires Keyed(nodes) && In(nodes, u) && u.depth + 1 < INF && AllIn(nodes, q0)
    requires Linked(nodes, edges)
    requires Searching(NodeArcs(edges, sources), sources, Visited(nodes), [u.Id()] + QueueIds(q0))
    modifies nodes.Values`depth
    ensures AllIn(nodes, q) && u.depth == old(u.depth)
    ensures Grown(old(Visited(nodes)), Visited(nodes), u.depth, q0, q)
    ensures Searching(NodeArcs(edges, sources), sources, Visited(nodes), QueueIds(q))
  {
    hide Searching, Linked, NodeArcs;
    q := q0;
    ghost var arcs := NodeArcs(edges, sources);
    NeighborsAreArcs(nodes, edges, sources, u);
    SourcesAreAtDepthZero(arcs, sources, Visited(nodes), u.Id(), QueueIds(q));
    VisitedDepth(nodes, u);
    // A Namespace has arcs into it only.
    if u.Id().GK() == NAMESPACE_GK {
      SearchPop(arcs, sources, Visited(nodes), u.Id(), QueueIds(q));
      return;
    }
    // So has a GatewayClass, unless the search starts from it.
    if u.Id().GK() == GATEWAY_CLASS_GK && u.depth != 0 {
      SearchPop(arcs, sources, Visited(nodes), u.Id(), QueueIds(q));
      return;
    }
    assert MayExpand(u.Id(), sources);
    q := VisitNeighbors(nodes, u.inNeighbors, u, q, arcs, sources);
    ghost var depths, q1 := Visited(nodes), q;
    q := VisitNeighbors(nodes, u.outNeighbors, u, q, arcs, sources);
    GrownTransitive(old(Visited(nodes)), depths, Visited(nodes), u.depth, q0, q1, q);
    SearchPop(arcs, sources, Visited(nodes), u.Id(), QueueIds(q));
  }

  lemma SourcesAreAtDepthZero(arcs: iset<(GKNN, GKNN)>, sources: set<GKNN>, depth: map<GKNN, int>, u: GKNN,
                              q: seq<GKNN>)
    requires Searching(arcs, sources, depth, [u] + q)
    ensures u in depth && 0 <= depth[u] && (depth[u] == 0 <==> u in sources)
  {
    assert ([u] + q)[0] == u;
    assert u in sources ==> Walk(arcs, sources, 0, u);
  }

  /** What the search keeps: the invariant of a breadth-first search, for nodes in a graph. */
  ghost predicate SearchKeeps(nodes: map<GKNN, Node>, arcs: iset<(GKNN, GKNN)>, sources: set<GKNN>, bound: nat,
                              q: seq<Node>)
    reads nodes.Values`depth
  {
    && AllIn(nodes, q)
    && Searching(arcs, sources, Visited(nodes), QueueIds(q))
    && sources <= Visited(nodes).Keys
    && forall k :: k in Visited(nodes) ==> Visited(nodes)[k] <= bound
  }

  /** Exactly the nodes within `bound` have been reached, and their depth is their distance. */
  ghost predicate Searched(nodes: map<GKNN, Node>, arcs: iset<(GKNN, GKNN)>, sources: set<GKNN>, bound: nat)
    reads nodes.Values`depth
  {
    && (forall k :: k in nodes ==> (nodes[k].depth < INF <==> Near(arcs, sources, bound, k)))
    && (forall k :: k in nodes && nodes[k].depth < INF ==> Dist(arcs, sources, nodes[k].depth, k))
  }

  /** The sources, at depth 0, are the first to be expanded. */
  method QueueSources(graph: Graph, sources: seq<Resource>, ghost arcs: iset<(GKNN, GKNN)>, ghost bound: nat)
    returns (q: seq<Node>)
    requires Keyed(graph.nodes) && Ids(sources) <= graph.nodes.Keys
    requires forall k :: k in graph.nodes ==> graph.nodes[k].depth == if k in Ids(sources) then 0 else INF
    modifies graph.nodes.Values`depth
    ensures SearchKeeps(graph.nodes, arcs, Ids(sources), bound, q)
  {
    q := [];
    for i := 0 to |sources|
      invariant |q| == i && forall j :: 0 <= j < i ==>
        sources[j].id in graph.nodes && q[j] == graph.nodes[sources[j].id]
      invariant forall k :: k in graph.nodes ==> graph.nodes[k].depth == if k in Ids(sources) then 0 else INF
    {
      assert sources[i].id in Ids(sources);
      var node := graph.nodes[sources[i].id];
      node.depth := 0;
      q := q + [node];
    }
    forall k ensures k in QueueIds(q) <==> k in Ids(sources) {
      if k in Ids(sources) {
        var i :| 0 <= i < |sources| && sources[i].id == k;
        assert QueueIds(q)[i] == k;
      }
    }
    SearchStart(arcs, Ids(sources), Visited(graph.nodes), QueueIds(q));
  }

  /** The second half of the builder: exact depths, up to one level below `maxDepth`. */
  method Search(graph: Graph, sources: seq<Resource>, ghost edges: set<Edge>)
    requires Keyed(graph.nodes) && Linked(graph.nodes, edges)
    requires Ids(sources) <= graph.nodes.Keys && graph.maxDepth + 1 < INF
    requires forall k :: k in graph.nodes ==> graph.nodes[k].depth == if k in Ids(sources) then 0 else INF
    modifies graph.nodes.Values`depth
    ensures Searched(graph.nodes, NodeArcs(edges, Ids(sources)), Ids(sources), AtLeastZero(graph.maxDepth + 1))
  {
    hide *;
    ghost var nodes, start, arcs := graph.nodes, Ids(sources), NodeArcs(edges, Ids(sources));
    ghost var bound := AtLeastZero(graph.maxDepth + 1);
    var q := QueueSources(graph, sources, arcs, bound);
    var done := false;
    while q != [] && !done
      invariant if done then Searched(nodes, arcs, start, bound) else SearchKeeps(nodes, arcs, start, bound, q)
      decreases !done, nodes.Keys - Visited(nodes).Keys, |q|
    {
      q, done := ExpandHead(nodes, q, graph.maxDepth, edges, start);
    }
    if !done {
      SearchExhausted(nodes, arcs, start, bound);
    }
  }

  /** One round of the search; `done` is the early exit at the first node that is too deep. */
  method ExpandHead(ghost nodes: map<GKNN, Node>, q0: seq<Node>, maxDepth: int, ghost edges: set<Edge>,
                    ghost sources: set<GKNN>)
    returns (q: seq<Node>, done: bool)
    requires q0 != [] && maxDepth + 1 < INF && Keyed(nodes) && Linked(nodes, edges)
    requires SearchKeeps(nodes, NodeArcs(edges, sources), sources, AtLeastZero(maxDepth + 1), q0)
    modifies nodes.Values`depth
    ensures done ==> Searched(nodes, NodeArcs(edges, sources), sources, AtLeastZero(maxDepth + 1))
    ensures !done ==> SearchKeeps(nodes, NodeArcs(edges, sources), sources, AtLeastZero(maxDepth + 1), q)
    ensures !done ==> nodes.Keys - Visited(nodes).Keys <= nodes.Keys - old(Visited(nodes)).Keys
    ensures !done ==> nodes.Keys - Visited(nodes).Keys == nodes.Keys - old(Visited(nodes)).Keys ==> |q| < |q0|
  {
    hide Searching, NodeArcs, Linked, Keyed, Grown, Searched;
    ghost var arcs, bound := NodeArcs(edges, sources), AtLeastZero(maxDepth + 1);
    var u := q0[0];
    q := q0[1..];
    assert [u.Id()] + QueueIds(q) == QueueIds(q0);
    SourcesAreAtDepthZero(arcs, sources, Visited(nodes), u.Id(), QueueIds(q));
    VisitedDepth(nodes, u);
    if u.depth + 1 > maxDepth + 1 {
      SearchStopped(nodes, arcs, sources, u.Id(), QueueIds(q), bound);
      return q, true;
    }
    ghost var before, q1 := Visited(nodes), q;
    q := Expand(nodes, u, q, edges, sources);
    GrownKeeps(nodes.Keys, before, Visited(nodes), u.depth, bound, q1, q);
    done := false;
  }

  lemma VisitedDepth(nodes: map<GKNN, Node>, u: Node)
    requires In(nodes, u) && u.Id() in Visited(nodes)
    ensures u.depth == Visited(nodes)[u.Id()] < INF
  {
  }

  /** Stopping at a node at the bound is as good as going on. */
  lemma SearchStopped(nodes: map<GKNN, Node>, arcs: iset<(GKNN, GKNN)>, sources: set<GKNN>, u: GKNN, q: seq<GKNN>,
                      bound: nat)
    requires Searching(arcs, sources, Visited(nodes), [u] + q)
    requires u in nodes && bound <= nodes[u].depth < INF
    requires forall k :: k in Visited(nodes) ==> Visited(nodes)[k] <= bound
    ensures Searched(nodes, arcs, sources, bound)
  {
    assert ([u] + q)[0] == u;
    forall k | k in nodes
      ensures nodes[k].depth < INF <==> Near(arcs, sources, bound, k)
      ensures nodes[k].depth < INF ==> Dist(arcs, sources, nodes[k].depth, k)
    {
      if nodes[k].depth < INF { assert k in Visited(nodes); }
      if Near(arcs, sources, bound, k) { assert Near(arcs, sources, Visited(nodes)[u], k); }
    }
  }

  lemma SearchExhausted(nodes: map<GKNN, Node>, arcs: iset<(GKNN, GKNN)>, sources: set<GKNN>, bound: nat)
    requires SearchKeeps(nodes, arcs, sources, bound, [])
    ensures Searched(nodes, arcs, sources, bound)
  {
    assert QueueIds([]) == [];
    forall k | k in nodes
      ensures nodes[k].depth < INF <==> Near(arcs, sources, bound, k)
      ensures nodes[k].depth < INF ==> Dist(arcs, sources, nodes[k].depth, k)
    {
      if nodes[k].depth < INF { assert k in Visited(nodes); }
      if Near(arcs, sources, bound, k) {
        var n := NearHasDist(arcs, sources, bound, k);
        SearchDone(arcs, sources, Visited(nodes), n, k);
      }
    }
  }
}

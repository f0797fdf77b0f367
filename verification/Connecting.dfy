/** Filling the graph with sources and fetched objects, and connecting them
    (pkg/topology/graph.go, lines 206 to 250). */
module Connecting {
  import opened Common
  import opened Cluster
  import opened Topology

  /** Nodes that are in the graph but not connected yet, and the objects they stand for. */
  ghost predicate Unlinked(nodes: map<GKNN, Node>, objects: map<GKNN, Resource>)
    reads nodes.Values`outNeighbors, nodes.Values`inNeighbors, nodes.Values`metadata
  {
    && nodes.Keys == objects.Keys
    && (forall k :: k in nodes ==> nodes[k].Id() == k && nodes[k].obj == objects[k])
    && (forall k :: k in nodes ==> nodes[k].inNeighbors == map[] && nodes[k].outNeighbors == map[])
    && (forall k :: k in nodes ==> nodes[k].metadata == None)
  }

  lemma UnlinkedPut(nodes: map<GKNN, Node>, objects: map<GKNN, Resource>, node: Node)
    requires Unlinked(nodes, objects)
    requires node.inNeighbors == map[] && node.outNeighbors == map[] && node.metadata == None
    ensures nodes.Keys == objects.Keys && Unlinked(nodes[node.Id() := node], objects[node.Id() := node.obj])
  {
  }

  lemma NothingUnlinked()
    ensures Unlinked(map[], map[])
  {
  }

  method AddSources(graph: Graph, sources: seq<Resource>)
    requires graph.nodes == map[] && graph.sources == []
    modifies graph`nodes, graph`sources
    ensures Unlinked(graph.nodes, SourceObjects(sources))
    ensures forall k :: k in graph.nodes ==> fresh(graph.nodes[k]) && graph.nodes[k].depth == 0
    ensures |graph.sources| == |sources| && forall i :: 0 <= i < |sources| ==> graph.sources[i].obj == sources[i]
  {
    hide Unlinked;
    NothingUnlinked();
    assert sources[..0] == [];
    for i := 0 to |sources|
      invariant Unlinked(graph.nodes, SourceObjects(sources[..i]))
      invariant forall k :: k in graph.nodes ==> fresh(graph.nodes[k]) && graph.nodes[k].depth == 0
      invariant |graph.sources| == i && forall j :: 0 <= j < i ==> graph.sources[j].obj == sources[j]
    {
      var node := new Node(sources[i], 0);
      graph.sources := graph.sources + [node];
      UnlinkedPut(graph.nodes, SourceObjects(sources[..i]), node);
      graph.AddNode(node);
      assert sources[..i + 1][..i] == sources[..i];
    }
    assert sources[..|sources|] == sources;
  }

  lemma NothingFetched(objects: map<GKNN, Resource>, kinds: seq<GroupKind>)
    ensures AddMissing(objects, []) == objects && kinds[..0] == []
  {
  }

  method AddFetched(graph: Graph, fetch: Fetcher, kinds: seq<GroupKind>, ghost objects: map<GKNN, Resource>)
    returns (r: Result<(), string>)
    requires Unlinked(graph.nodes, objects)
    modifies graph`nodes
    ensures r.Ok? <==> FetchAll(fetch, kinds).Ok?
    ensures r.Err? ==> r.error == FetchAll(fetch, kinds).error
    ensures r.Ok? ==> Unlinked(graph.nodes, AddMissing(objects, FetchAll(fetch, kinds).value))
    ensures forall k :: k in old(graph.nodes) ==> k in graph.nodes && graph.nodes[k] == old(graph.nodes[k])
    ensures forall k :: k in graph.nodes && k !in old(graph.nodes) ==>
      fresh(graph.nodes[k]) && graph.nodes[k].depth == INF
  {
    hide Unlinked, AddMissing;
    NothingFetched(objects, kinds);
    for i := 0 to |kinds|
      invariant FetchAll(fetch, kinds[..i]).Ok?
      invariant Unlinked(graph.nodes, AddMissing(objects, FetchAll(fetch, kinds[..i]).value))
      invariant forall k :: k in old(graph.nodes) ==> k in graph.nodes && graph.nodes[k] == old(graph.nodes[k])
      invariant forall k :: k in graph.nodes && k !in old(graph.nodes) ==>
        fresh(graph.nodes[k]) && graph.nodes[k].depth == INF
    {
      var fetched := fetch(kinds[i]);
      assert kinds[..i + 1][..i] == kinds[..i];
      if fetched.Err? {
        FetchErrorStays(fetch, kinds, i + 1);
        return Err(fetched.error);
      }
      AddResources(graph, fetched.value, objects, FetchAll(fetch, kinds[..i]).value);
    }
    assert kinds[..|kinds|] == kinds;
    return Ok(());
  }

  method AddResources(graph: Graph, resources: seq<Resource>, ghost objects: map<GKNN, Resource>,
                      ghost soFar: seq<Resource>)
    requires Unlinked(graph.nodes, AddMissing(objects, soFar))
    modifies graph`nodes
    ensures Unlinked(graph.nodes, AddMissing(objects, soFar + resources))
    ensures forall k :: k in old(graph.nodes) ==> k in graph.nodes && graph.nodes[k] == old(graph.nodes[k])
    ensures forall k :: k in graph.nodes && k !in old(graph.nodes) ==>
      fresh(graph.nodes[k]) && graph.nodes[k].depth == INF
  {
    hide AddMissing, Unlinked;
    assert soFar + resources[..0] == soFar;
    for j := 0 to |resources|
      invariant Unlinked(graph.nodes, AddMissing(objects, soFar + resources[..j]))
      invariant forall k :: k in old(graph.nodes) ==> k in graph.nodes && graph.nodes[k] == old(graph.nodes[k])
      invariant forall k :: k in graph.nodes && k !in old(graph.nodes) ==>
        fresh(graph.nodes[k]) && graph.nodes[k].depth == INF
    {
      AddMissingLast(objects, soFar + resources[..j], resources[j]);
      ghost var next := AddMissing(objects, soFar + resources[..j + 1]);
      assert next == AddMissing(objects, soFar + resources[..j] + [resources[j]]) by {
        assert soFar + resources[..j + 1] == soFar + resources[..j] + [resources[j]];
      }
      var node := new Node(resources[j], INF);
      UnlinkedPut(graph.nodes, AddMissing(objects, soFar + resources[..j]), node);
      if !graph.HasNode(node.Id()) {
        graph.AddNode(node);
      }
    }
    assert resources[..|resources|] == resources;
  }

  /** Records one edge on both sides. */
  method Link(graph: Graph, from: Node, to: Node, relation: Relation, ghost edges: set<Edge>)
    requires Keyed(graph.nodes) && Linked(graph.nodes, edges)
    requires from in graph.nodes.Values && to in graph.nodes.Values
    modifies from`outNeighbors, to`inNeighbors
    ensures Linked(graph.nodes, edges + {Edge(from.Id(), relation, to.Id())})
  {
    hide OutMap, InMap;
    ghost var e := Edge(from.Id(), relation, to.Id());
    forall k { AddToMaps(graph.nodes, edges, e, k); }
    graph.AddEdge(from, to, relation);
  }

  /** The edges from `src` through `relation` to those of `refs` that are among `ids`. */
  ghost function RefEdges(src: GKNN, relation: Relation, refs: seq<GKNN>, ids: set<GKNN>): set<Edge>
  {
    set t | t in refs && t in ids :: Edge(src, relation, t)
  }

  /** Connects one object with the objects it refers to through one relation. */
  method ConnectNode(graph: Graph, from: Node, relation: Relation, ghost edges: set<Edge>)
    returns (ghost more: set<Edge>)
    requires Keyed(graph.nodes) && Linked(graph.nodes, edges) && from in graph.nodes.Values
    modifies graph.nodes.Values`outNeighbors, graph.nodes.Values`inNeighbors
    ensures more == edges + RefEdges(from.Id(), relation, relation.neighborFunc(from.obj), graph.nodes.Keys)
    ensures Linked(graph.nodes, more)
  {
    hide Linked;
    more := edges;
    ghost var nodes, k := graph.nodes, from.Id();
    var refs := relation.neighborFunc(from.obj);
    for j := 0 to |refs|
      invariant Linked(nodes, more)
      invariant more == edges + RefEdges(k, relation, refs[..j], nodes.Keys)
    {
      var to := refs[j];
      RefEdgesLast(k, relation, refs, j, nodes.Keys);
      if to in graph.nodes {
        Link(graph, from, graph.nodes[to], relation, more);
        more := more + {Edge(k, relation, to)};
      }
    }
    assert refs[..|refs|] == refs;
  }

  lemma RefEdgesLast(src: GKNN, relation: Relation, refs: seq<GKNN>, j: nat, ids: set<GKNN>)
    requires j < |refs|
    ensures RefEdges(src, relation, refs[..j + 1], ids) ==
            RefEdges(src, relation, refs[..j], ids) + if refs[j] in ids then {Edge(src, relation, refs[j])} else {}
  {
  }

  /** The edges through `relation` that leave one of `from`. */
  ghost function RelationEdges(relation: Relation, objects: map<GKNN, Resource>, from: set<GKNN>): set<Edge>
    requires from <= objects.Keys
  {
    set s, t | s in from && t in relation.neighborFunc(objects[s]) && t in objects :: Edge(s, relation, t)
  }

  method ConnectRelation(graph: Graph, relation: Relation, ghost objects: map<GKNN, Resource>, ghost edges: set<Edge>)
    returns (ghost more: set<Edge>)
    requires Keyed(graph.nodes) && Objects(graph.nodes) == objects && Linked(graph.nodes, edges)
    modifies graph.nodes.Values`outNeighbors, graph.nodes.Values`inNeighbors
    ensures more == edges + RelationEdges(relation, objects, set k | k in objects && k.GK() == relation.from)
    ensures Linked(graph.nodes, more)
  {
    hide Linked;
    more := edges;
    ghost var nodes := graph.nodes;
    var todo := set k | k in graph.nodes && k.GK() == relation.from;
    ghost var done: set<GKNN> := {};
    while todo != {}
      invariant todo + done == (set k | k in nodes && k.GK() == relation.from)
      invariant Linked(nodes, more)
      invariant more == edges + RelationEdges(relation, objects, done)
    {
      var from :| from in todo;
      var node := graph.nodes[from];
      assert RelationEdges(relation, objects, done + {from}) == RelationEdges(relation, objects, done)
        + RefEdges(from, relation, relation.neighborFunc(node.obj), nodes.Keys);
      more := ConnectNode(graph, node, relation, more);
      todo, done := todo - {from}, done + {from};
    }
  }

  /** Connects every two objects one of which refers to the other. */
  method Connect(graph: Graph, ghost objects: map<GKNN, Resource>)
    requires Unlinked(graph.nodes, objects)
    modifies graph.nodes.Values`outNeighbors, graph.nodes.Values`inNeighbors
    ensures Linked(graph.nodes, AllEdges(graph.relations, objects))
  {
    ghost var edges: set<Edge> := {};
    assert Linked(graph.nodes, edges) && Objects(graph.nodes) == objects;
    hide Linked;
    for i := 0 to |graph.relations|
      invariant Linked(graph.nodes, edges)
      invariant edges == AllEdges(graph.relations[..i], objects)
    {
      AllEdgesLast(graph.relations, i, objects);
      edges := ConnectRelation(graph, graph.relations[i], objects, edges);
    }
    assert graph.relations[..|graph.relations|] == graph.relations;
  }

  lemma AllEdgesLast(relations: seq<Relation>, i: nat, objects: map<GKNN, Resource>)
    requires i < |relations|
    ensures AllEdges(relations[..i + 1], objects) == AllEdges(relations[..i], objects)
      + RelationEdges(relations[i], objects, set k | k in objects && k.GK() == relations[i].from)
  {
  }
}

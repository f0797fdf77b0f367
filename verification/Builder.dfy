/** Building the topology of a set of source objects (pkg/topology/graph.go, lines 166 to 328). */
module Builder {
  import opened Common
  import opened Cluster
  import opened Connecting
  import opened KindSearch
  import opened NodeSearch
  import opened Pruning
  import opened Reach
  import opened Topology

  const DEFAULT_GRAPH_MAX_DEPTH := 3

  /** The objects among which `Build` searches: the sources and, unless these are of a single kind that no
      relation within the depth connects with another one, everything fetched that they do not shadow. */
  ghost function World(sources: seq<Resource>, fetch: Fetcher, kinds: seq<GroupKind>)
    : Result<map<GKNN, Resource>, string> {
    if |kinds| == 1 then Ok(SourceObjects(sources))
    else match FetchAll(fetch, kinds)
      case Err(e) => Err(e)
      case Ok(fetched) => Ok(AddMissing(SourceObjects(sources), fetched))
  }

  /** The edges among which `Build` searches. */
  ghost function WorldEdges(relations: seq<Relation>, kinds: seq<GroupKind>, objects: map<GKNN, Resource>): set<Edge> {
    if |kinds| == 1 then {} else AllEdges(relations, objects)
  }

  /** The graph and the nodes pruned from it hold each object once, without metadata. */
  ghost predicate HoldsObjects(nodes: map<GKNN, Node>, removed: map<GKNN, Node>, objects: map<GKNN, Resource>)
    reads nodes.Values`metadata, removed.Values`metadata
  {
    && nodes.Keys !! removed.Keys && nodes.Keys + removed.Keys == objects.Keys
    && (forall k :: k in nodes ==> nodes[k].Id() == k && nodes[k].obj == objects[k] && nodes[k].metadata == None)
    && (forall k :: k in removed ==>
        removed[k].Id() == k && removed[k].obj == objects[k] && removed[k].metadata == None)
  }

  /** A node survives exactly if it is near enough, and its depth is its distance. */
  ghost predicate HoldsNearest(nodes: map<GKNN, Node>, objects: map<GKNN, Resource>, arcs: iset<(GKNN, GKNN)>,
                               sources: set<GKNN>, bound: nat)
    reads nodes.Values`depth
  {
    && (forall k :: k in nodes <==> k in objects && Near(arcs, sources, bound, k))
    && (forall k :: k in nodes ==> Dist(arcs, sources, nodes[k].depth, k))
  }

  /** The outgoing neighbours of a node are the edges to other survivors, the incoming ones are all edges:
      those from pruned nodes are still recorded. */
  ghost predicate HoldsEdges(nodes: map<GKNN, Node>, removed: map<GKNN, Node>, edges: set<Edge>)
    reads nodes.Values`outNeighbors, nodes.Values`inNeighbors
  {
    && (forall k :: k in nodes ==> nodes[k].outNeighbors == OutMap(nodes, edges, k))
    && (forall k :: k in nodes ==> nodes[k].inNeighbors == InMap(nodes + removed, edges, k))
  }

  /** What every graph straight out of `Build` is like. `removed` are the nodes that have been pruned. */
  ghost predicate Built(graph: Graph, removed: map<GKNN, Node>, objects: map<GKNN, Resource>, edges: set<Edge>,
                        sources: set<GKNN>)
    reads graph, graph.nodes.Values, removed.Values
  {
    && sources <= objects.Keys && (forall e | e in edges :: e.src in objects && e.dst in objects)
    && HoldsObjects(graph.nodes, removed, objects)
    && HoldsNearest(graph.nodes, objects, NodeArcs(edges, sources), sources, AtLeastZero(graph.maxDepth + 1))
    && HoldsEdges(graph.nodes, removed, edges)
  }

  class Builder {
    var sources: seq<Resource>
    var relations: seq<Relation>
    const fetch: Fetcher
    var maxDepth: int

    constructor (fetch: Fetcher)
      ensures this.fetch == fetch && sources == [] && relations == [] && maxDepth == 3
    {
      this.fetch := fetch;
      sources, relations, maxDepth := [], [], DEFAULT_GRAPH_MAX_DEPTH;
    }

    method StartFrom(sources: seq<Resource>)
      modifies this`sources
      ensures this.sources == sources
    {
      this.sources := sources;
    }

    method UseRelationships(relations: seq<Relation>)
      modifies this`relations
      ensures this.relations == old(this.relations) + relations
    {
      this.relations := this.relations + relations;
    }

    method WithMaxDepth(maxDepth: int)
      modifies this`maxDepth
      ensures this.maxDepth == maxDepth
    {
      this.maxDepth := maxDepth;
    }

    method Build() returns (r: Result<Graph, string>, ghost kinds: seq<GroupKind>, ghost removed: map<GKNN, Node>)
      requires maxDepth + 1 < 100_000_000
      ensures forall k :: k in kinds <==> Near(KindArcs(relations), Kinds(sources), AtLeastZero(maxDepth), k)
      ensures Distinct(kinds)
      ensures r.Err? <==> World(sources, fetch, kinds).Err?
      ensures r.Err? ==> r.error == World(sources, fetch, kinds).error
      ensures r.Ok? ==> fresh(r.value) && fresh(r.value.nodes.Values) && fresh(removed.Values)
      ensures r.Ok? ==> r.value.maxDepth == maxDepth && r.value.relations == relations
      ensures r.Ok? ==> var objects := World(sources, fetch, kinds).value;
        Built(r.value, removed, objects, WorldEdges(relations, kinds, objects), Ids(sources))
    {
      var graph := new Graph(maxDepth, relations);
      removed := map[];
      AddSources(graph, sources);
      var allGroupKinds := DetermineUniqueGroupKinds(sources, relations, maxDepth);
      kinds := allGroupKinds;
      if |allGroupKinds| == 1 {
        // The sources are of this kind.
        SourcesOnly(graph, sources);
        return Ok(graph), kinds, removed;
      }
      var fetched := AddFetched(graph, fetch, allGroupKinds, SourceObjects(sources));
      if fetched.Err? {
        return Err(fetched.error), kinds, removed;
      }
      ghost var objects := World(sources, fetch, kinds).value;
      removed := ConnectAndSearch(graph, sources, objects);
      return Ok(graph), kinds, removed;
    }
  }

  /** From the collected objects to the finished graph. */
  method ConnectAndSearch(graph: Graph, sources: seq<Resource>, ghost objects: map<GKNN, Resource>)
    returns (ghost removed: map<GKNN, Node>)
    requires Unlinked(graph.nodes, objects) && Ids(sources) <= objects.Keys && graph.maxDepth + 1 < INF
    requires forall k :: k in graph.nodes ==> graph.nodes[k].depth == if k in Ids(sources) then 0 else INF
    modifies graph`nodes, graph.nodes.Values`outNeighbors, graph.nodes.Values`inNeighbors, graph.nodes.Values`depth
    ensures graph.nodes.Values + removed.Values <= old(graph.nodes.Values)
    ensures Built(graph, removed, objects, AllEdges(graph.relations, objects), Ids(sources))
  {
    hide *;
    UnlinkedObjects(graph.nodes, objects);
    Connect(graph, objects);
    Search(graph, sources, AllEdges(graph.relations, objects));
    removed := PruneToFinish(graph, objects, AllEdges(graph.relations, objects), Ids(sources));
  }

  method PruneToFinish(graph: Graph, ghost objects: map<GKNN, Resource>, ghost edges: set<Edge>,
                       ghost sources: set<GKNN>)
    returns (ghost removed: map<GKNN, Node>)
    requires Keyed(graph.nodes) && HoldsObjects(graph.nodes, map[], objects) && Linked(graph.nodes, edges)
    requires sources <= objects.Keys
    requires Searched(graph.nodes, NodeArcs(edges, sources), sources, AtLeastZero(graph.maxDepth + 1))
    modifies graph`nodes, graph.nodes.Values`outNeighbors, graph.nodes.Values`inNeighbors
    ensures graph.nodes.Values + removed.Values <= old(graph.nodes.Values)
    ensures Built(graph, removed, objects, edges, sources)
  {
    hide HoldsObjects, HoldsNearest, HoldsEdges, Linked, Searched, Keyed, Unreached, WithoutTargets, NodeArcs;
    ghost var all := graph.nodes;
    StartingFacts(all, objects, edges);
    ghost var gone := Prune(graph, edges);
    removed := all - graph.nodes.Keys;
    MapMinus(all, gone);
    MapMinus(all, graph.nodes.Keys);
    FinishedObjects(all, gone, objects);
    FinishedDepths(all, gone, objects, NodeArcs(edges, sources), sources, AtLeastZero(graph.maxDepth + 1));
    FinishedEdges(all, gone, edges);
  }

  lemma UnlinkedObjects(nodes: map<GKNN, Node>, objects: map<GKNN, Resource>)
    requires Unlinked(nodes, objects)
    ensures nodes.Keys == objects.Keys && Keyed(nodes) && HoldsObjects(nodes, map[], objects)
  {
  }

  lemma StartingFacts(all: map<GKNN, Node>, objects: map<GKNN, Resource>, edges: set<Edge>)
    requires HoldsObjects(all, map[], objects) && Linked(all, edges)
    ensures all.Keys == objects.Keys && forall e | e in edges :: e.src in objects && e.dst in objects
  {
  }

  lemma MapMinus(m: map<GKNN, Node>, s: set<GKNN>)
    ensures (m - s).Values <= m.Values
  {
  }

  lemma FinishedObjects(all: map<GKNN, Node>, gone: set<GKNN>, objects: map<GKNN, Resource>)
    requires HoldsObjects(all, map[], objects)
    ensures HoldsObjects(all - gone, all - (all - gone).Keys, objects)
  {
  }

  lemma FinishedDepths(all: map<GKNN, Node>, gone: set<GKNN>, objects: map<GKNN, Resource>,
                       arcs: iset<(GKNN, GKNN)>, sources: set<GKNN>, bound: nat)
    requires gone == Unreached(all) && all.Keys == objects.Keys && Searched(all, arcs, sources, bound)
    ensures HoldsNearest(all - gone, objects, arcs, sources, bound)
  {
  }

  lemma FinishedEdges(all: map<GKNN, Node>, gone: set<GKNN>, edges: set<Edge>)
    requires Linked(all, WithoutTargets(edges, gone))
    ensures HoldsEdges(all - gone, all - (all - gone).Keys, edges)
  {
    var nodes := all - gone;
    assert nodes + (all - nodes.Keys) == all;
    hide OutMap, InMap;
    forall k | k in nodes { FinishedMaps(all, gone, edges, k); }
  }

  lemma FinishedMaps(all: map<GKNN, Node>, gone: set<GKNN>, edges: set<Edge>, k: GKNN)
    requires k !in gone
    ensures OutMap(all - gone, edges, k) == OutMap(all, WithoutTargets(edges, gone), k)
    ensures InMap(all, edges, k) == InMap(all, WithoutTargets(edges, gone), k)
  {
  }

  lemma SourcesOnly(graph: Graph, sources: seq<Resource>)
    requires Unlinked(graph.nodes, SourceObjects(sources))
    requires forall k :: k in graph.nodes ==> graph.nodes[k].depth == 0
    ensures Built(graph, map[], SourceObjects(sources), {}, Ids(sources))
  {
    var arcs, ids, bound := NodeArcs({}, Ids(sources)), Ids(sources), AtLeastZero(graph.maxDepth + 1);
    assert arcs == iset{};
    assert HoldsNearest(graph.nodes, SourceObjects(sources), arcs, ids, bound) by {
      forall k ensures k in ids <==> Near(arcs, ids, bound, k) {
        if Near(arcs, ids, bound, k) { NearNoArcs(arcs, ids, bound, k); }
        if k in ids { assert Walk(arcs, ids, 0, k); }
      }
      assert forall k :: k in ids ==> Dist(arcs, ids, 0, k);
    }
  }
}

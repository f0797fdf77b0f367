/** Whether "not found" reports are true of the cluster: the validator looks at the graph only, and the graph
    is what the builder left of the part of the cluster that it fetched
    (pkg/extension/notfoundrefvalidator/notfoundrefvalidator.go, pkg/topology/graph.go, lines 38 to 42). */
module Reports {
  import opened Common
  import opened Builder
  import opened Cluster
  import opened Completeness
  import opened NotFoundRefValidator
  import opened Reach
  import opened Topology

  /** What a node refers to, relation by relation. */
  lemma {:induction false} RefsMembers(relations: seq<Relation>, obj: Resource, t: GKNN)
    ensures t in Refs(relations, obj)
      <==> exists i :: 0 <= i < |relations| && relations[i].from == obj.id.GK() && t in relations[i].neighborFunc(obj)
  {
    if relations != [] {
      var init := relations[..|relations| - 1];
      RefsMembers(init, obj, t);
      assert forall i :: 0 <= i < |init| ==> init[i] == relations[i];
    }
  }

  /** The objects of the graph are those of the cluster that have been looked for. */
  lemma WorldIsLookedFor(sources: seq<Resource>, fetch: Fetcher, kinds: seq<GroupKind>, t: GKNN)
    requires TypedFetcher(fetch) && World(sources, fetch, kinds).Ok?
    ensures t in World(sources, fetch, kinds).value <==> Lookup(sources, fetch, t).Some? && LookedFor(sources, kinds, t)
  {
    if |kinds| != 1 { FetchedIsLookup(sources, fetch, kinds, t); }
  }

  /** A reference of an expanded node survives if it exists among the objects at all. */
  lemma ReferenceSurvives(graph: Graph, removed: map<GKNN, Node>, sources: seq<Resource>, fetch: Fetcher,
                          relations: seq<Relation>, kinds: seq<GroupKind>, k: GKNN, t: GKNN)
    requires BuiltFrom(graph, removed, sources, fetch, relations, kinds) && k in graph.nodes
    requires MayExpand(k, Ids(sources)) && graph.nodes[k].depth <= graph.maxDepth
    requires t in Refs(relations, graph.nodes[k].obj)
    ensures t in graph.nodes <==> t in World(sources, fetch, kinds).value
  {
    hide HoldsEdges, SelectedKinds;
    var objects := World(sources, fetch, kinds).value;
    var edges := WorldEdges(relations, kinds, objects);
    if t in objects && |kinds| != 1 {
      RefsMembers(relations, graph.nodes[k].obj, t);
      var i :| 0 <= i < |relations| && relations[i].from == k.GK() && t in relations[i].neighborFunc(objects[k]);
      var e := Edge(k, relations[i], t);
      AllEdgesAreEdges(relations, objects, e);
      ExpandedKeepsEdges(graph, removed, objects, edges, Ids(sources), k, e);
    }
    if |kinds| == 1 { GraphOfSources(graph.nodes, objects, Ids(sources), AtLeastZero(graph.maxDepth + 1), t); }
  }

  /** Main result: what the validator reports for an expanded node up to `maxDepth`: the references that do
      not exist in the cluster or that the builder has not looked for. */
  lemma ReportedExactly(graph: Graph, removed: map<GKNN, Node>, sources: seq<Resource>, fetch: Fetcher,
                        relations: seq<Relation>, kinds: seq<GroupKind>, k: GKNN)
    requires TypedFetcher(fetch) && BuiltFrom(graph, removed, sources, fetch, relations, kinds) && k in graph.nodes
    requires MayExpand(k, Ids(sources)) && graph.nodes[k].depth <= graph.maxDepth
    ensures Missing(k, Refs(relations, graph.nodes[k].obj), graph.nodes.Keys) ==
      set t | t in Refs(relations, graph.nodes[k].obj)
           && (Lookup(sources, fetch, t).None? || !LookedFor(sources, kinds, t)) :: ReferenceToNonExistentResource(k, t)
  {
    forall t | t in Refs(relations, graph.nodes[k].obj)
      ensures t in graph.nodes <==> Lookup(sources, fetch, t).Some? && LookedFor(sources, kinds, t)
    {
      ReferenceSurvives(graph, removed, sources, fetch, relations, kinds, k, t);
      WorldIsLookedFor(sources, fetch, kinds, t);
    }
    hide BuiltFrom, Lookup, LookedFor, Refs;
  }

  /** The references of an object that do not exist in the cluster. */
  function Absent(sources: seq<Resource>, fetch: Fetcher, relations: seq<Relation>, obj: Resource): set<RefError> {
    set t | t in Refs(relations, obj) && Lookup(sources, fetch, t).None? :: ReferenceToNonExistentResource(obj.id, t)
  }

  /** What the graph has of the cluster: what has been looked for and is one level below `maxDepth` at most. */
  lemma InGraphIff(graph: Graph, removed: map<GKNN, Node>, sources: seq<Resource>, fetch: Fetcher,
                   relations: seq<Relation>, kinds: seq<GroupKind>, t: GKNN)
    requires TypedFetcher(fetch) && BuiltFrom(graph, removed, sources, fetch, relations, kinds)
    ensures t in graph.nodes
      <==> Lookup(sources, fetch, t).Some? && Reached(graph.maxDepth, sources, fetch, relations, kinds, t)
  {
    hide HoldsEdges, HoldsObjects, SelectedKinds, Lookup, LookedFor, WorldEdges, NodeArcs;
    WorldIsLookedFor(sources, fetch, kinds, t);
  }

  /** The builder has looked for the object, and reaches it within one step more than `maxDepth`. */
  ghost predicate Reached(maxDepth: int, sources: seq<Resource>, fetch: Fetcher, relations: seq<Relation>,
                          kinds: seq<GroupKind>, t: GKNN)
    requires World(sources, fetch, kinds).Ok?
  {
    var edges := WorldEdges(relations, kinds, World(sources, fetch, kinds).value);
    LookedFor(sources, kinds, t) && Near(NodeArcs(edges, Ids(sources)), Ids(sources), AtLeastZero(maxDepth + 1), t)
  }

  /** Main result: at any depth, the reports of a node are true of the cluster exactly if all its references
      that resolve have been looked for and are reached. */
  lemma TrueIff(graph: Graph, removed: map<GKNN, Node>, sources: seq<Resource>, fetch: Fetcher,
                relations: seq<Relation>, kinds: seq<GroupKind>, k: GKNN)
    requires TypedFetcher(fetch) && BuiltFrom(graph, removed, sources, fetch, relations, kinds) && k in graph.nodes
    ensures Missing(k, Refs(relations, graph.nodes[k].obj), graph.nodes.Keys) ==
      Absent(sources, fetch, relations, graph.nodes[k].obj)
      <==> forall t :: t in Refs(relations, graph.nodes[k].obj) && Lookup(sources, fetch, t).Some? ==>
        Reached(graph.maxDepth, sources, fetch, relations, kinds, t)
  {
    var obj := graph.nodes[k].obj;
    assert obj.id == k;
    hide BuiltFrom, Lookup, Reached, Refs, World;
    forall t | t in Refs(relations, obj)
      ensures ReferenceToNonExistentResource(k, t) in Missing(k, Refs(relations, obj), graph.nodes.Keys)
        <==> t !in graph.nodes
      ensures t in graph.nodes
        <==> Lookup(sources, fetch, t).Some? && Reached(graph.maxDepth, sources, fetch, relations, kinds, t)
      ensures ReferenceToNonExistentResource(k, t) in Absent(sources, fetch, relations, obj)
        <==> Lookup(sources, fetch, t).None?
    {
      InGraphIff(graph, removed, sources, fetch, relations, kinds, t);
    }
  }

  /** At an expanded node up to `maxDepth` it is enough that they have been looked for. */
  lemma TrueUpToDepthIff(graph: Graph, removed: map<GKNN, Node>, sources: seq<Resource>, fetch: Fetcher,
                relations: seq<Relation>, kinds: seq<GroupKind>, k: GKNN)
    requires TypedFetcher(fetch) && BuiltFrom(graph, removed, sources, fetch, relations, kinds) && k in graph.nodes
    requires MayExpand(k, Ids(sources)) && graph.nodes[k].depth <= graph.maxDepth
    ensures Missing(k, Refs(relations, graph.nodes[k].obj), graph.nodes.Keys) ==
      Absent(sources, fetch, relations, graph.nodes[k].obj)
      <==> forall t :: t in Refs(relations, graph.nodes[k].obj) && Lookup(sources, fetch, t).Some? ==>
        LookedFor(sources, kinds, t)
  {
    ReportedExactly(graph, removed, sources, fetch, relations, kinds, k);
    var obj := graph.nodes[k].obj;
    assert obj.id == k;
    hide BuiltFrom, Lookup, LookedFor, Refs;
    forall t | t in Refs(relations, obj)
      ensures ReferenceToNonExistentResource(k, t) in Missing(k, Refs(relations, obj), graph.nodes.Keys)
        <==> Lookup(sources, fetch, t).None? || !LookedFor(sources, kinds, t)
      ensures ReferenceToNonExistentResource(k, t) in Absent(sources, fetch, relations, obj)
        <==> Lookup(sources, fetch, t).None?
    {
    }
  }

  /** It is enough that references are typed and that every relation leads to a kind that is near enough
      to be fetched. */
  lemma TrueForTypedReferences(graph: Graph, removed: map<GKNN, Node>, sources: seq<Resource>, fetch: Fetcher,
                               relations: seq<Relation>, kinds: seq<GroupKind>, k: GKNN)
    requires TypedFetcher(fetch) && BuiltFrom(graph, removed, sources, fetch, relations, kinds) && k in graph.nodes
    requires MayExpand(k, Ids(sources)) && graph.nodes[k].depth <= graph.maxDepth
    requires TypedReferences(sources, fetch, relations) && |kinds| != 1
    requires forall i :: 0 <= i < |relations| ==> relations[i].to in kinds
    ensures Missing(k, Refs(relations, graph.nodes[k].obj), graph.nodes.Keys) ==
      Absent(sources, fetch, relations, graph.nodes[k].obj)
  {
    TrueUpToDepthIff(graph, removed, sources, fetch, relations, kinds, k);
    ObjectInCluster(graph, removed, sources, fetch, relations, kinds, k);
    var obj := graph.nodes[k].obj;
    hide BuiltFrom, Lookup, Refs;
    forall t | t in Refs(relations, obj) && Lookup(sources, fetch, t).Some? ensures LookedFor(sources, kinds, t) {
      RefsMembers(relations, obj, t);
      var i :| 0 <= i < |relations| && relations[i].from == obj.id.GK() && t in relations[i].neighborFunc(obj);
      assert RefersBy(sources, fetch, relations, i, k, t);
    }
  }
}

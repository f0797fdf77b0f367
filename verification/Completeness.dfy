/** What a built graph says about the whole cluster (pkg/topology/graph.go, lines 35 to 45 and 200 to 377).

    The cluster is everything the fetcher knows of any kind, with the sources laid over it; the builder only
    ever fetches the kinds that `DetermineUniqueGroupKinds` selects. */
module Completeness {
  import opened Common
  import opened Builder
  import opened Cluster
  import opened Reach
  import opened Topology

  /** The first of `resources` with identity `k`. */
  function First(resources: seq<Resource>, k: GKNN): Option<Resource> {
    if resources == [] then None
    else if resources[0].id == k then Some(resources[0])
    else First(resources[1..], k)
  }

  /** The object with identity `k` in the cluster; the sources come first, and the last of them. */
  function Lookup(sources: seq<Resource>, fetch: Fetcher, k: GKNN): Option<Resource> {
    if k in SourceObjects(sources) then Some(SourceObjects(sources)[k])
    else match fetch(k.GK())
      case Err(_) => None
      case Ok(resources) => First(resources, k)
  }

  /** The builder has looked for the object, by fetching its kind or because it is a source. */
  predicate LookedFor(sources: seq<Resource>, kinds: seq<GroupKind>, t: GKNN) {
    t in Ids(sources) || (|kinds| != 1 && t.GK() in kinds)
  }

  /** Asking for a kind yields objects of that kind. */
  ghost predicate TypedFetcher(fetch: Fetcher) {
    forall gk, i :: fetch(gk).Ok? && 0 <= i < |fetch(gk).value| ==> fetch(gk).value[i].id.GK() == gk
  }

  /** In the cluster, `u` refers to `v`, through the relation with index `i`. */
  ghost predicate RefersBy(sources: seq<Resource>, fetch: Fetcher, relations: seq<Relation>, i: int, u: GKNN, v: GKNN) {
    && 0 <= i < |relations| && relations[i].from == u.GK()
    && Lookup(sources, fetch, u).Some? && Lookup(sources, fetch, v).Some?
    && v in relations[i].neighborFunc(Lookup(sources, fetch, u).value)
  }

  ghost predicate Refers(sources: seq<Resource>, fetch: Fetcher, relations: seq<Relation>, u: GKNN, v: GKNN) {
    exists i :: RefersBy(sources, fetch, relations, i, u, v)
  }

  /** Every reference that resolves leads to an object of the relation's To kind. */
  ghost predicate TypedReferences(sources: seq<Resource>, fetch: Fetcher, relations: seq<Relation>) {
    forall i, u, v :: RefersBy(sources, fetch, relations, i, u, v) ==> v.GK() == relations[i].to
  }

  /** The arcs along which a search of the whole cluster would go. */
  ghost function ClusterArcs(sources: seq<Resource>, fetch: Fetcher, relations: seq<Relation>): iset<(GKNN, GKNN)> {
    iset u, v | MayExpand(u, Ids(sources))
             && (Refers(sources, fetch, relations, u, v) || Refers(sources, fetch, relations, v, u)) :: (u, v)
  }

  // ---------------------------------------------------------------- the fetched part of the cluster

  lemma {:induction false} FirstOfAppend(a: seq<Resource>, b: seq<Resource>, k: GKNN)
    ensures First(a + b, k) == if First(a, k).Some? then First(a, k) else First(b, k)
  {
    if a == [] {
      assert a + b == b;
    } else {
      assert (a + b)[1..] == a[1..] + b;
      FirstOfAppend(a[1..], b, k);
    }
  }

  lemma {:induction false} FirstOfOtherKind(resources: seq<Resource>, k: GKNN)
    requires forall i :: 0 <= i < |resources| ==> resources[i].id.GK() != k.GK()
    ensures First(resources, k) == None
  {
    if resources != [] { FirstOfOtherKind(resources[1..], k); }
  }

  lemma {:induction false} AddMissingIsFirst(objects: map<GKNN, Resource>, resources: seq<Resource>, k: GKNN)
    ensures k in AddMissing(objects, resources) <==> k in objects || First(resources, k).Some?
    ensures k in objects ==> AddMissing(objects, resources)[k] == objects[k]
    ensures k !in objects && First(resources, k).Some? ==>
      AddMissing(objects, resources)[k] == First(resources, k).value
  {
    if resources != [] {
      var init, last := resources[..|resources| - 1], resources[|resources| - 1];
      AddMissingIsFirst(objects, init, k);
      assert resources == init + [last];
      FirstOfAppend(init, [last], k);
    }
  }

  lemma {:induction false} FetchedIsFirst(fetch: Fetcher, kinds: seq<GroupKind>, k: GKNN)
    requires TypedFetcher(fetch) && FetchAll(fetch, kinds).Ok?
    ensures k.GK() in kinds ==> fetch(k.GK()).Ok?
    ensures First(FetchAll(fetch, kinds).value, k) ==
      if k.GK() in kinds then First(fetch(k.GK()).value, k) else None
  {
    if kinds != [] {
      var init, last := kinds[..|kinds| - 1], kinds[|kinds| - 1];
      assert kinds == init + [last];
      FetchedIsFirst(fetch, init, k);
      FirstOfAppend(FetchAll(fetch, init).value, fetch(last).value, k);
      if last != k.GK() { FirstOfOtherKind(fetch(last).value, k); }
    }
  }

  /** The objects of a built graph are the objects of the cluster, as far as they are of a fetched kind or
      given as sources. */
  lemma FetchedIsLookup(sources: seq<Resource>, fetch: Fetcher, kinds: seq<GroupKind>, k: GKNN)
    requires TypedFetcher(fetch) && FetchAll(fetch, kinds).Ok?
    ensures var objects := AddMissing(SourceObjects(sources), FetchAll(fetch, kinds).value);
      && (k in objects <==> Lookup(sources, fetch, k).Some? && (k in Ids(sources) || k.GK() in kinds))
      && (k in objects ==> objects[k] == Lookup(sources, fetch, k).value)
  {
    AddMissingIsFirst(SourceObjects(sources), FetchAll(fetch, kinds).value, k);
    FetchedIsFirst(fetch, kinds, k);
  }

  // ---------------------------------------------------------------- distances

  /** Along references the kinds move along relations. */
  lemma {:induction false} KindsFollow(sources: seq<Resource>, fetch: Fetcher, relations: seq<Relation>, n: nat,
                                       k: GKNN)
    requires TypedReferences(sources, fetch, relations)
    requires Walk(ClusterArcs(sources, fetch, relations), Ids(sources), n, k)
    ensures Walk(KindArcs(relations), Kinds(sources), n, k.GK())
  {
    hide ClusterArcs, KindArcs;
    if n > 0 {
      var arcs := ClusterArcs(sources, fetch, relations);
      var u :| Walk(arcs, Ids(sources), n - 1, u) && (u, k) in arcs;
      KindsFollow(sources, fetch, relations, n - 1, u);
      KindsOfArc(sources, fetch, relations, u, k);
    }
  }

  lemma KindsOfArc(sources: seq<Resource>, fetch: Fetcher, relations: seq<Relation>, u: GKNN, v: GKNN)
    requires TypedReferences(sources, fetch, relations) && (u, v) in ClusterArcs(sources, fetch, relations)
    ensures (u.GK(), v.GK()) in KindArcs(relations)
  {
  }

  /** Between fetched objects the edges are the references of the cluster. */
  lemma EdgesAreReferences(sources: seq<Resource>, fetch: Fetcher, relations: seq<Relation>, kinds: seq<GroupKind>,
                           u: GKNN, v: GKNN)
    requires TypedFetcher(fetch) && FetchAll(fetch, kinds).Ok?
    ensures var objects := AddMissing(SourceObjects(sources), FetchAll(fetch, kinds).value);
      (exists e | e in AllEdges(relations, objects) :: e.src == u && e.dst == v)
      <==> u in objects && v in objects && Refers(sources, fetch, relations, u, v)
  {
    var objects := AddMissing(SourceObjects(sources), FetchAll(fetch, kinds).value);
    FetchedIsLookup(sources, fetch, kinds, u);
    FetchedIsLookup(sources, fetch, kinds, v);
    if e :| e in AllEdges(relations, objects) && e.src == u && e.dst == v {
      AllEdgesAreEdges(relations, objects, e);
      var i :| 0 <= i < |relations| && relations[i] == e.rel;
      assert RefersBy(sources, fetch, relations, i, u, v);
    }
    if u in objects && v in objects && Refers(sources, fetch, relations, u, v) {
      var i :| RefersBy(sources, fetch, relations, i, u, v);
      AllEdgesAreEdges(relations, objects, Edge(u, relations[i], v));
    }
  }

  /** The arcs of the search are those of the cluster between fetched objects. */
  lemma ArcsAreClusterArcs(sources: seq<Resource>, fetch: Fetcher, relations: seq<Relation>, kinds: seq<GroupKind>,
                           u: GKNN, v: GKNN)
    requires TypedFetcher(fetch) && FetchAll(fetch, kinds).Ok?
    ensures var objects := AddMissing(SourceObjects(sources), FetchAll(fetch, kinds).value);
      (u, v) in NodeArcs(AllEdges(relations, objects), Ids(sources))
      <==> u in objects && v in objects && (u, v) in ClusterArcs(sources, fetch, relations)
  {
    EdgesAreReferences(sources, fetch, relations, kinds, u, v);
    EdgesAreReferences(sources, fetch, relations, kinds, v, u);
    hide AllEdges, AddMissing, Refers;
  }

  /** `kinds` is what `DetermineUniqueGroupKinds` returns. */
  ghost predicate SelectedKinds(kinds: seq<GroupKind>, sources: seq<Resource>, relations: seq<Relation>, maxDepth: int)
    {
    forall gk :: gk in kinds <==> Near(KindArcs(relations), Kinds(sources), AtLeastZero(maxDepth), gk)
  }

  /** Whatever is at most `maxDepth` steps away in the cluster has been looked for. */
  ghost predicate NearLookedFor(sources: seq<Resource>, fetch: Fetcher, relations: seq<Relation>, kinds: seq<GroupKind>,
                                maxDepth: int) {
    forall k :: Near(ClusterArcs(sources, fetch, relations), Ids(sources), AtLeastZero(maxDepth), k) ==>
      LookedFor(sources, kinds, k)
  }

  /** Walks among the fetched objects are walks in the cluster; and up to the depth the other way round, if what
      they lead to has been looked for. */
  lemma {:induction false} WalksAgree(sources: seq<Resource>, fetch: Fetcher, relations: seq<Relation>,
                                      kinds: seq<GroupKind>, maxDepth: int, n: nat, k: GKNN)
    requires TypedFetcher(fetch) && FetchAll(fetch, kinds).Ok? && |kinds| != 1
    ensures var objects := AddMissing(SourceObjects(sources), FetchAll(fetch, kinds).value);
      var near := n <= AtLeastZero(maxDepth) && NearLookedFor(sources, fetch, relations, kinds, maxDepth);
      && (Walk(NodeArcs(AllEdges(relations, objects), Ids(sources)), Ids(sources), n, k) ==>
            Walk(ClusterArcs(sources, fetch, relations), Ids(sources), n, k))
      && (near && Walk(ClusterArcs(sources, fetch, relations), Ids(sources), n, k) ==>
            k in objects && Walk(NodeArcs(AllEdges(relations, objects), Ids(sources)), Ids(sources), n, k))
  {
    hide NodeArcs, AllEdges, AddMissing, ClusterArcs;
    var objects := AddMissing(SourceObjects(sources), FetchAll(fetch, kinds).value);
    var arcs, cluster, ids :=
      NodeArcs(AllEdges(relations, objects), Ids(sources)), ClusterArcs(sources, fetch, relations), Ids(sources);
    FetchedIsLookup(sources, fetch, kinds, k);
    if n > 0 {
      if Walk(arcs, ids, n, k) {
        var u :| Walk(arcs, ids, n - 1, u) && (u, k) in arcs;
        WalksAgree(sources, fetch, relations, kinds, maxDepth, n - 1, u);
        ArcsAreClusterArcs(sources, fetch, relations, kinds, u, k);
      }
      if Walk(cluster, ids, n, k) && n <= AtLeastZero(maxDepth)
        && NearLookedFor(sources, fetch, relations, kinds, maxDepth) {
        var u :| Walk(cluster, ids, n - 1, u) && (u, k) in cluster;
        WalksAgree(sources, fetch, relations, kinds, maxDepth, n - 1, u);
        assert Near(cluster, ids, AtLeastZero(maxDepth), k);
        ArcsExist(sources, fetch, relations, u, k);
        ArcsAreClusterArcs(sources, fetch, relations, kinds, u, k);
      }
    }
  }

  lemma ArcsExist(sources: seq<Resource>, fetch: Fetcher, relations: seq<Relation>, u: GKNN, v: GKNN)
    requires (u, v) in ClusterArcs(sources, fetch, relations)
    ensures Lookup(sources, fetch, u).Some? && Lookup(sources, fetch, v).Some?
  {
  }

  /** The graph is what `Build` returns for these inputs. */
  ghost predicate BuiltFrom(graph: Graph, removed: map<GKNN, Node>, sources: seq<Resource>, fetch: Fetcher,
                            relations: seq<Relation>, kinds: seq<GroupKind>)
    reads graph, graph.nodes.Values, removed.Values
  {
    && SelectedKinds(kinds, sources, relations, graph.maxDepth) && Distinct(kinds)
    && World(sources, fetch, kinds).Ok?
    && var objects := World(sources, fetch, kinds).value;
       Built(graph, removed, objects, WorldEdges(relations, kinds, objects), Ids(sources))
  }

  /** The nodes up to `maxDepth` are the cluster objects up to that distance, each at its distance. */
  ghost predicate Complete(graph: Graph, cluster: iset<(GKNN, GKNN)>, sources: set<GKNN>)
    reads graph, graph.nodes.Values`depth
  {
    forall k, n :: 0 <= n <= graph.maxDepth ==>
      ((k in graph.nodes && graph.nodes[k].depth == n) <==> Dist(cluster, sources, n, k))
  }

  lemma DistAgrees(sources: seq<Resource>, fetch: Fetcher, relations: seq<Relation>, kinds: seq<GroupKind>,
                   maxDepth: int, n: int, k: GKNN)
    requires TypedFetcher(fetch) && FetchAll(fetch, kinds).Ok? && |kinds| != 1
    requires NearLookedFor(sources, fetch, relations, kinds, maxDepth) && n <= AtLeastZero(maxDepth)
    ensures var objects := AddMissing(SourceObjects(sources), FetchAll(fetch, kinds).value);
      && (Near(NodeArcs(AllEdges(relations, objects), Ids(sources)), Ids(sources), n, k)
          <==> Near(ClusterArcs(sources, fetch, relations), Ids(sources), n, k))
      && (Dist(NodeArcs(AllEdges(relations, objects), Ids(sources)), Ids(sources), n, k)
          <==> Dist(ClusterArcs(sources, fetch, relations), Ids(sources), n, k))
      && (Near(ClusterArcs(sources, fetch, relations), Ids(sources), n, k) ==> k in objects)
  {
    hide NodeArcs, AllEdges, AddMissing, ClusterArcs, FetchAll, SourceObjects, NearLookedFor, TypedFetcher, Lookup;
    forall m: nat | m <= n { WalksAgree(sources, fetch, relations, kinds, maxDepth, m, k); }
  }

  /** The depth of a node, even of one just below `maxDepth`, is the length of a walk in the cluster; and it is
      the distance there, if everything up to `maxDepth` has been looked for. */
  lemma DepthInCluster(graph: Graph, removed: map<GKNN, Node>, sources: seq<Resource>, fetch: Fetcher,
                       relations: seq<Relation>, kinds: seq<GroupKind>, k: GKNN)
    requires TypedFetcher(fetch) && BuiltFrom(graph, removed, sources, fetch, relations, kinds) && k in graph.nodes
    ensures graph.nodes[k].depth >= 0
    ensures Walk(ClusterArcs(sources, fetch, relations), Ids(sources), graph.nodes[k].depth, k)
    ensures |kinds| == 1 || NearLookedFor(sources, fetch, relations, kinds, graph.maxDepth) ==>
      Dist(ClusterArcs(sources, fetch, relations), Ids(sources), graph.nodes[k].depth, k)
  {
    hide AllEdges, AddMissing, ClusterArcs, SelectedKinds, TypedFetcher, Lookup, HoldsObjects, HoldsEdges,
      NearLookedFor;
    var objects := World(sources, fetch, kinds).value;
    var ids, cluster, d := Ids(sources), ClusterArcs(sources, fetch, relations), graph.nodes[k].depth;
    if |kinds| == 1 {
      GraphOfSources(graph.nodes, objects, ids, AtLeastZero(graph.maxDepth + 1), k);
      DistZero(cluster, ids, k);
    } else {
      var arcs := NodeArcs(AllEdges(relations, objects), ids);
      hide NodeArcs;
      var near := NearHasDist(arcs, ids, AtLeastZero(graph.maxDepth + 1), k);
      DistUnique(arcs, ids, d, near, k);
      WalksAgree(sources, fetch, relations, kinds, graph.maxDepth, d, k);
      if NearLookedFor(sources, fetch, relations, kinds, graph.maxDepth) {
        DistAgrees(sources, fetch, relations, kinds, graph.maxDepth, d - 1, k);
      }
    }
  }

  lemma NearestInCluster(graph: Graph, removed: map<GKNN, Node>, sources: seq<Resource>, fetch: Fetcher,
                         relations: seq<Relation>, kinds: seq<GroupKind>, n: int, k: GKNN)
    requires TypedFetcher(fetch) && NearLookedFor(sources, fetch, relations, kinds, graph.maxDepth)
    requires BuiltFrom(graph, removed, sources, fetch, relations, kinds) && |kinds| != 1
    requires 0 <= n <= graph.maxDepth
    ensures (k in graph.nodes && graph.nodes[k].depth == n)
      <==> Dist(ClusterArcs(sources, fetch, relations), Ids(sources), n, k)
  {
    hide AllEdges, AddMissing, ClusterArcs, SelectedKinds, TypedFetcher, NearLookedFor, Lookup, HoldsObjects,
      HoldsEdges, HoldsNearest, NodeArcs, Near;
    var objects := World(sources, fetch, kinds).value;
    DistAgrees(sources, fetch, relations, kinds, graph.maxDepth, n, k);
    DistIsDepth(graph, objects, NodeArcs(AllEdges(relations, objects), Ids(sources)), Ids(sources), n, k);
  }

  /** A search that fetched and looked for everything near is complete. */
  lemma LookedForIsComplete(graph: Graph, removed: map<GKNN, Node>, sources: seq<Resource>, fetch: Fetcher,
                            relations: seq<Relation>, kinds: seq<GroupKind>)
    requires TypedFetcher(fetch) && NearLookedFor(sources, fetch, relations, kinds, graph.maxDepth)
    requires BuiltFrom(graph, removed, sources, fetch, relations, kinds) && |kinds| != 1
    ensures Complete(graph, ClusterArcs(sources, fetch, relations), Ids(sources))
  {
    hide BuiltFrom, ClusterArcs, Dist, NearLookedFor;
    forall k, n | 0 <= n <= graph.maxDepth
      ensures (k in graph.nodes && graph.nodes[k].depth == n)
        <==> Dist(ClusterArcs(sources, fetch, relations), Ids(sources), n, k)
    {
      NearestInCluster(graph, removed, sources, fetch, relations, kinds, n, k);
    }
  }

  /** And a complete graph has only what has been looked for. */
  lemma CompleteIsLookedFor(graph: Graph, removed: map<GKNN, Node>, sources: seq<Resource>, fetch: Fetcher,
                            relations: seq<Relation>, kinds: seq<GroupKind>, k: GKNN)
    requires TypedFetcher(fetch) && Complete(graph, ClusterArcs(sources, fetch, relations), Ids(sources))
    requires BuiltFrom(graph, removed, sources, fetch, relations, kinds)
    requires Near(ClusterArcs(sources, fetch, relations), Ids(sources), AtLeastZero(graph.maxDepth), k)
    ensures LookedFor(sources, kinds, k)
  {
    hide ClusterArcs, SelectedKinds, HoldsEdges, NodeArcs, AllEdges, AddMissing, Lookup;
    var ids, cluster := Ids(sources), ClusterArcs(sources, fetch, relations);
    var d := NearHasDist(cluster, ids, AtLeastZero(graph.maxDepth), k);
    if graph.maxDepth < 0 {
      DistZero(cluster, ids, k);
    } else {
      assert k in graph.nodes;
      if |kinds| != 1 { FetchedIsLookup(sources, fetch, kinds, k); }
    }
  }

  /** The nodes of a graph are objects of the cluster. */
  lemma ObjectInCluster(graph: Graph, removed: map<GKNN, Node>, sources: seq<Resource>, fetch: Fetcher,
                        relations: seq<Relation>, kinds: seq<GroupKind>, k: GKNN)
    requires TypedFetcher(fetch) && BuiltFrom(graph, removed, sources, fetch, relations, kinds) && k in graph.nodes
    ensures Lookup(sources, fetch, k) == Some(graph.nodes[k].obj)
  {
    hide HoldsEdges, HoldsNearest, AllEdges, NodeArcs, AddMissing, SelectedKinds;
    if |kinds| != 1 { FetchedIsLookup(sources, fetch, kinds, k); }
  }

  lemma DistIsDepth(graph: Graph, objects: map<GKNN, Resource>, arcs: iset<(GKNN, GKNN)>, ids: set<GKNN>, n: int,
                    k: GKNN)
    requires HoldsNearest(graph.nodes, objects, arcs, ids, AtLeastZero(graph.maxDepth + 1))
    requires n <= AtLeastZero(graph.maxDepth + 1) && (Near(arcs, ids, n, k) ==> k in objects)
    ensures (k in graph.nodes && graph.nodes[k].depth == n) <==> Dist(arcs, ids, n, k)
  {
  }

  /** Something in the cluster is one step away from the sources. */
  ghost predicate LeavesSources(cluster: iset<(GKNN, GKNN)>, sources: set<GKNN>) {
    exists u, v :: u in sources && v !in sources && (u, v) in cluster
  }

  lemma {:induction false} StaysInSources(cluster: iset<(GKNN, GKNN)>, sources: set<GKNN>, n: nat, v: GKNN)
    requires !LeavesSources(cluster, sources) && Walk(cluster, sources, n, v)
    ensures v in sources
  {
    if n > 0 {
      var u :| Walk(cluster, sources, n - 1, u) && (u, v) in cluster;
      StaysInSources(cluster, sources, n - 1, u);
    }
  }

  /** Nothing but the sources is within the depth exactly if no arc that the depth allows leaves them. */
  lemma OnlySources(cluster: iset<(GKNN, GKNN)>, sources: set<GKNN>, maxDepth: int)
    ensures (forall k, n :: 0 <= n <= maxDepth && Dist(cluster, sources, n, k) ==> n == 0)
      <==> maxDepth < 1 || !LeavesSources(cluster, sources)
  {
    if maxDepth >= 1 && LeavesSources(cluster, sources) {
      var u, v :| u in sources && v !in sources && (u, v) in cluster;
      assert Walk(cluster, sources, 0, u) && Walk(cluster, sources, 1, v);
      assert !Near(cluster, sources, 0, v);
      assert Dist(cluster, sources, 1, v);
    }
    if !LeavesSources(cluster, sources) {
      forall k, n | 0 <= n <= maxDepth && Dist(cluster, sources, n, k) ensures n == 0 {
        StaysInSources(cluster, sources, n, k);
        assert Walk(cluster, sources, 0, k);
        assert n > 0 ==> Near(cluster, sources, n - 1, k);
      }
    }
  }

  /** Without edges the graph consists of the sources, at depth 0. */
  lemma GraphOfSources(nodes: map<GKNN, Node>, objects: map<GKNN, Resource>, ids: set<GKNN>, bound: nat, k: GKNN)
    requires HoldsNearest(nodes, objects, NodeArcs({}, ids), ids, bound) && objects.Keys == ids
    ensures k in nodes <==> k in ids
    ensures k in nodes ==> nodes[k].depth == 0
  {
    var arcs := NodeArcs({}, ids);
    assert arcs == iset{};
    if k in ids { assert Walk(arcs, ids, 0, k); }
    if k in nodes {
      NearNoArcs(arcs, ids, bound, k);
      DistUnique(arcs, ids, 0, nodes[k].depth, k);
    }
  }

  /** The early return at a single kind, which fetches and connects nothing, is complete exactly if
      there is nothing to be found. */
  lemma SingleKindIsComplete(graph: Graph, removed: map<GKNN, Node>, sources: seq<Resource>, fetch: Fetcher,
                             relations: seq<Relation>, kinds: seq<GroupKind>)
    requires BuiltFrom(graph, removed, sources, fetch, relations, kinds) && |kinds| == 1
    ensures Complete(graph, ClusterArcs(sources, fetch, relations), Ids(sources))
      <==> graph.maxDepth < 1 || !LeavesSources(ClusterArcs(sources, fetch, relations), Ids(sources))
  {
    hide ClusterArcs, SelectedKinds, HoldsNearest, HoldsEdges, HoldsObjects, Near, Dist, LeavesSources;
    var ids, cluster := Ids(sources), ClusterArcs(sources, fetch, relations);
    forall k { GraphOfSources(graph.nodes, SourceObjects(sources), ids, AtLeastZero(graph.maxDepth + 1), k); }
    forall k ensures Dist(cluster, ids, 0, k) <==> k in ids { DistZero(cluster, ids, k); }
    OnlySources(cluster, ids, graph.maxDepth);
  }

  lemma DistZero(arcs: iset<(GKNN, GKNN)>, sources: set<GKNN>, k: GKNN)
    ensures Dist(arcs, sources, 0, k) <==> k in sources
  {
  }

  /** Main result: the graph is complete exactly if everything in the cluster up to `maxDepth` has been looked
      for: it is a source or, unless there is a single kind, of a fetched kind. */
  lemma CompleteExactly(graph: Graph, removed: map<GKNN, Node>, sources: seq<Resource>, fetch: Fetcher,
                        relations: seq<Relation>, kinds: seq<GroupKind>)
    requires TypedFetcher(fetch) && BuiltFrom(graph, removed, sources, fetch, relations, kinds)
    ensures Complete(graph, ClusterArcs(sources, fetch, relations), Ids(sources))
      <==> NearLookedFor(sources, fetch, relations, kinds, graph.maxDepth)
  {
    hide BuiltFrom, Complete, ClusterArcs, LeavesSources, TypedFetcher, Near;
    if Complete(graph, ClusterArcs(sources, fetch, relations), Ids(sources)) {
      forall k | Near(ClusterArcs(sources, fetch, relations), Ids(sources), AtLeastZero(graph.maxDepth), k)
        ensures LookedFor(sources, kinds, k)
      {
        CompleteIsLookedFor(graph, removed, sources, fetch, relations, kinds, k);
      }
    }
    if NearLookedFor(sources, fetch, relations, kinds, graph.maxDepth) {
      if |kinds| == 1 {
        SingleKindIsComplete(graph, removed, sources, fetch, relations, kinds);
        NothingNear(sources, ClusterArcs(sources, fetch, relations), kinds, graph.maxDepth);
      } else {
        LookedForIsComplete(graph, removed, sources, fetch, relations, kinds);
      }
    }
  }

  lemma NothingNear(sources: seq<Resource>, cluster: iset<(GKNN, GKNN)>, kinds: seq<GroupKind>, maxDepth: int)
    requires forall k :: Near(cluster, Ids(sources), AtLeastZero(maxDepth), k) ==> LookedFor(sources, kinds, k)
    requires |kinds| == 1
    ensures maxDepth < 1 || !LeavesSources(cluster, Ids(sources))
  {
    if maxDepth >= 1 && LeavesSources(cluster, Ids(sources)) {
      var u, v :| u in Ids(sources) && v !in Ids(sources) && (u, v) in cluster;
      assert Walk(cluster, Ids(sources), 0, u) && Walk(cluster, Ids(sources), 1, v);
      assert Near(cluster, Ids(sources), AtLeastZero(maxDepth), v);
    }
  }

  /** If references are typed, everything near has been looked for, unless the early return was taken. */
  lemma TypedIsLookedFor(sources: seq<Resource>, fetch: Fetcher, relations: seq<Relation>, kinds: seq<GroupKind>,
                         maxDepth: int)
    requires TypedReferences(sources, fetch, relations) && SelectedKinds(kinds, sources, relations, maxDepth)
    requires |kinds| != 1
    ensures NearLookedFor(sources, fetch, relations, kinds, maxDepth)
  {
    hide ClusterArcs, KindArcs, TypedReferences;
    forall k | Near(ClusterArcs(sources, fetch, relations), Ids(sources), AtLeastZero(maxDepth), k)
      ensures LookedFor(sources, kinds, k) {
      var n: nat :| n <= AtLeastZero(maxDepth) && Walk(ClusterArcs(sources, fetch, relations), Ids(sources), n, k);
      KindsFollow(sources, fetch, relations, n, k);
    }
  }

  /** So with typed references the graph is complete, except that the early return misses what relations
      between objects of the one kind would have led to. */
  lemma CompleteIfTyped(graph: Graph, removed: map<GKNN, Node>, sources: seq<Resource>, fetch: Fetcher,
                        relations: seq<Relation>, kinds: seq<GroupKind>)
    requires TypedFetcher(fetch) && TypedReferences(sources, fetch, relations)
    requires BuiltFrom(graph, removed, sources, fetch, relations, kinds)
    ensures Complete(graph, ClusterArcs(sources, fetch, relations), Ids(sources))
      <==> !(|kinds| == 1 && graph.maxDepth >= 1 && LeavesSources(ClusterArcs(sources, fetch, relations), Ids(sources)))
  {
    hide Complete, ClusterArcs, LeavesSources, TypedFetcher, TypedReferences, NearLookedFor, SelectedKinds, Built;
    if |kinds| == 1 {
      SingleKindIsComplete(graph, removed, sources, fetch, relations, kinds);
    } else {
      TypedIsLookedFor(sources, fetch, relations, kinds, graph.maxDepth);
      CompleteExactly(graph, removed, sources, fetch, relations, kinds);
    }
  }

  /** What the early return misses is due to a relation from a kind to itself. */
  lemma MissedBySelfRelation(sources: seq<Resource>, fetch: Fetcher, relations: seq<Relation>, kinds: seq<GroupKind>,
                             maxDepth: int)
    requires TypedReferences(sources, fetch, relations) && SelectedKinds(kinds, sources, relations, maxDepth)
    requires |kinds| == 1 && maxDepth >= 1 && LeavesSources(ClusterArcs(sources, fetch, relations), Ids(sources))
    ensures exists i :: 0 <= i < |relations| && relations[i].from == relations[i].to == kinds[0]
  {
    hide ClusterArcs, TypedReferences;
    var u, v :| u in Ids(sources) && v !in Ids(sources) && (u, v) in ClusterArcs(sources, fetch, relations);
    KindsOfArc(sources, fetch, relations, u, v);
    var arcs, start := KindArcs(relations), Kinds(sources);
    assert Walk(arcs, start, 0, u.GK()) && Walk(arcs, start, 1, v.GK());
    assert u.GK() in kinds && v.GK() in kinds;
  }

  /** Relations between different kinds, such as all those of the Gateway API, are always enough. */
  lemma CompleteWithoutSelfRelation(graph: Graph, removed: map<GKNN, Node>, sources: seq<Resource>, fetch: Fetcher,
                                    relations: seq<Relation>, kinds: seq<GroupKind>)
    requires TypedFetcher(fetch) && TypedReferences(sources, fetch, relations)
    requires BuiltFrom(graph, removed, sources, fetch, relations, kinds)
    requires forall i :: 0 <= i < |relations| ==> relations[i].from != relations[i].to
    ensures Complete(graph, ClusterArcs(sources, fetch, relations), Ids(sources))
  {
    hide Complete, ClusterArcs, TypedFetcher, TypedReferences, Built, SelectedKinds;
    CompleteIfTyped(graph, removed, sources, fetch, relations, kinds);
    if |kinds| == 1 && graph.maxDepth >= 1 && LeavesSources(ClusterArcs(sources, fetch, relations), Ids(sources)) {
      MissedBySelfRelation(sources, fetch, relations, kinds, graph.maxDepth);
    }
  }

  // ---------------------------------------------------------------- edges

  /** A search follows an edge from either end, so both ends of an edge at an expanded node survive. */
  lemma ExpandedKeepsEdges(graph: Graph, removed: map<GKNN, Node>, objects: map<GKNN, Resource>, edges: set<Edge>,
                           sources: set<GKNN>, k: GKNN, e: Edge)
    requires Built(graph, removed, objects, edges, sources) && k in graph.nodes
    requires MayExpand(k, sources) && graph.nodes[k].depth <= graph.maxDepth
    requires e in edges && (e.src == k || e.dst == k)
    ensures e.src in graph.nodes && e.dst in graph.nodes
  {
    hide HoldsObjects, HoldsEdges;
    var arcs, bound := NodeArcs(edges, sources), AtLeastZero(graph.maxDepth + 1);
    var other := if e.src == k then e.dst else e.src;
    assert (k, other) in arcs;
    assert Near(arcs, sources, graph.nodes[k].depth, k);
    NearStep(arcs, sources, graph.nodes[k].depth, k, other);
    assert Near(arcs, sources, bound, other);
  }

  /** The edge that a neighbour map records is recorded on the other side as well. */
  lemma EdgesAgree(graph: Graph, removed: map<GKNN, Node>, edges: set<Edge>, k: GKNN, rel: Relation, t: GKNN)
    requires HoldsEdges(graph.nodes, removed, edges) && k in graph.nodes && t in graph.nodes
    requires graph.nodes.Keys !! removed.Keys
    ensures (rel, t) in graph.nodes[k].outNeighbors <==> (rel, k) in graph.nodes[t].inNeighbors
    ensures (rel, t) in graph.nodes[k].outNeighbors ==> graph.nodes[k].outNeighbors[(rel, t)] == graph.nodes[t]
    ensures (rel, k) in graph.nodes[t].inNeighbors ==> graph.nodes[t].inNeighbors[(rel, k)] == graph.nodes[k]
  {
  }

  lemma NeighborsExist(graph: Graph, removed: map<GKNN, Node>, edges: set<Edge>, k: GKNN)
    requires HoldsEdges(graph.nodes, removed, edges) && k in graph.nodes && graph.nodes.Keys !! removed.Keys
    ensures forall p | p in graph.nodes[k].outNeighbors :: p.1 in graph.nodes
    ensures forall p | p in graph.nodes[k].inNeighbors && p.1 !in graph.nodes ::
      p.1 in removed && graph.nodes[k].inNeighbors[p] == removed[p.1] && Edge(p.1, p.0, k) in edges
  {
  }

  /** What refers to a node but is not in the graph is recorded all the same: exactly the referring objects
      that the search has not reached. */
  lemma StaleExactly(graph: Graph, removed: map<GKNN, Node>, objects: map<GKNN, Resource>, edges: set<Edge>,
                     sources: set<GKNN>, k: GKNN, rel: Relation, t: GKNN)
    requires Built(graph, removed, objects, edges, sources) && k in graph.nodes
    ensures (rel, t) in graph.nodes[k].inNeighbors && t !in graph.nodes <==>
      Edge(t, rel, k) in edges && !Near(NodeArcs(edges, sources), sources, AtLeastZero(graph.maxDepth + 1), t)
  {
  }

  /** Main result: in a built graph every outgoing neighbour is in the graph and has the edge on its side
      as well; an incoming neighbour that is in the graph has it too; and an incoming neighbour that is
      not in the graph is a referring object that the search has not reached, which occurs only at a node
      that the search has not expanded. */
  lemma EdgesClosed(graph: Graph, removed: map<GKNN, Node>, objects: map<GKNN, Resource>, edges: set<Edge>,
                    sources: set<GKNN>, k: GKNN)
    requires Built(graph, removed, objects, edges, sources) && k in graph.nodes
    ensures forall p | p in graph.nodes[k].outNeighbors ::
      && p.1 in graph.nodes && graph.nodes[k].outNeighbors[p] == graph.nodes[p.1]
      && (p.0, k) in graph.nodes[p.1].inNeighbors && graph.nodes[p.1].inNeighbors[(p.0, k)] == graph.nodes[k]
    ensures forall p | p in graph.nodes[k].inNeighbors && p.1 in graph.nodes ::
      && graph.nodes[k].inNeighbors[p] == graph.nodes[p.1]
      && (p.0, k) in graph.nodes[p.1].outNeighbors && graph.nodes[p.1].outNeighbors[(p.0, k)] == graph.nodes[k]
    ensures forall p | p in graph.nodes[k].inNeighbors && p.1 !in graph.nodes ::
      && p.1 in removed && graph.nodes[k].inNeighbors[p] == removed[p.1]
      && (!MayExpand(k, sources) || graph.nodes[k].depth > graph.maxDepth)
    ensures forall rel, t :: (rel, t) in graph.nodes[k].inNeighbors && t !in graph.nodes <==>
      Edge(t, rel, k) in edges && !Near(NodeArcs(edges, sources), sources, AtLeastZero(graph.maxDepth + 1), t)
  {
    hide HoldsNearest, HoldsEdges, HoldsObjects, MayExpand, NodeArcs;
    var nodes := graph.nodes;
    assert nodes.Keys !! removed.Keys by { ApartFromRemoved(graph, removed, objects); }
    NeighborsExist(graph, removed, edges, k);
    forall rel, t | t in nodes && ((rel, t) in nodes[k].outNeighbors || (rel, t) in nodes[k].inNeighbors)
      ensures (rel, t) in nodes[k].outNeighbors ==> (rel, k) in nodes[t].inNeighbors
      ensures (rel, t) in nodes[k].inNeighbors ==> (rel, k) in nodes[t].outNeighbors
    {
      EdgesAgree(graph, removed, edges, k, rel, t);
      EdgesAgree(graph, removed, edges, t, rel, k);
    }
    forall rel, t | t in nodes && (rel, t) in nodes[k].outNeighbors
      ensures nodes[k].outNeighbors[(rel, t)] == nodes[t] && nodes[t].inNeighbors[(rel, k)] == nodes[k]
    {
      EdgesAgree(graph, removed, edges, k, rel, t);
    }
    forall rel, t | t in nodes && (rel, t) in nodes[k].inNeighbors
      ensures nodes[k].inNeighbors[(rel, t)] == nodes[t] && nodes[t].outNeighbors[(rel, k)] == nodes[k]
    {
      EdgesAgree(graph, removed, edges, t, rel, k);
    }
    forall rel, t
      ensures (rel, t) in nodes[k].inNeighbors && t !in nodes <==>
        Edge(t, rel, k) in edges && !Near(NodeArcs(edges, sources), sources, AtLeastZero(graph.maxDepth + 1), t)
    {
      StaleExactly(graph, removed, objects, edges, sources, k, rel, t);
    }
    forall p | p in nodes[k].inNeighbors && p.1 !in nodes
      ensures !MayExpand(k, sources) || nodes[k].depth > graph.maxDepth {
      if MayExpand(k, sources) && nodes[k].depth <= graph.maxDepth {
        ExpandedKeepsEdges(graph, removed, objects, edges, sources, k, Edge(p.1, p.0, k));
      }
    }
  }

  lemma ApartFromRemoved(graph: Graph, removed: map<GKNN, Node>, objects: map<GKNN, Resource>)
    requires HoldsObjects(graph.nodes, removed, objects)
    ensures graph.nodes.Keys !! removed.Keys
  {
  }
}

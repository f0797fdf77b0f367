/** Building the graph of a cluster that is given as a list of objects, with the six relations
    (pkg/topology/graph.go with pkg/topology/gateway/gateway.go). */
module SmallClusters {
  import opened Common
  import B = Builder
  import opened Cluster
  import opened ClusterAncestors
  import opened Completeness
  import opened Gateway
  import opened GatewayGraph
  import opened Reach
  import opened SearchPaths
  import opened Topology

  function OfGroupKind(all: seq<Resource>, gk: GroupKind): seq<Resource> {
    if all == [] then []
    else (if all[0].id.GK() == gk then [all[0]] else []) + OfGroupKind(all[1..], gk)
  }

  /** An API server that has these objects. */
  function Api(all: seq<Resource>): Fetcher {
    (gk: GroupKind) => Ok(OfGroupKind(all, gk))
  }

  /** No two of the objects have the same identity, and all are of one of the five kinds. */
  ghost predicate Proper(all: seq<Resource>) {
    && (forall i, j :: 0 <= i < j < |all| ==> all[i].id != all[j].id)
    && forall i :: 0 <= i < |all| ==> all[i].id.GK() in GATEWAY_KINDS
  }

  ghost function Index(all: seq<Resource>): (objects: map<GKNN, Resource>)
    ensures forall k :: k in objects <==> exists i :: 0 <= i < |all| && all[i].id == k
    ensures forall k :: k in objects ==> objects[k] in all && objects[k].id == k
  {
    if all == [] then map[] else Index(all[1..])[all[0].id := all[0]]
  }

  lemma {:induction false} OfGroupKindMembers(all: seq<Resource>, gk: GroupKind)
    ensures forall r :: r in OfGroupKind(all, gk) <==> r in all && r.id.GK() == gk
  {
    if all != [] {
      assert all == [all[0]] + all[1..];
      OfGroupKindMembers(all[1..], gk);
    }
  }

  lemma {:induction false} FirstIsMember(list: seq<Resource>, k: GKNN)
    ensures First(list, k).Some? ==> First(list, k).value in list && First(list, k).value.id == k
    ensures First(list, k).None? ==> forall r :: r in list ==> r.id != k
  {
    if list != [] {
      assert list == [list[0]] + list[1..];
      FirstIsMember(list[1..], k);
    }
  }

  lemma ApiIsTyped(all: seq<Resource>)
    ensures TypedFetcher(Api(all))
  {
    forall gk, i | 0 <= i < |OfGroupKind(all, gk)| ensures OfGroupKind(all, gk)[i].id.GK() == gk {
      OfGroupKindMembers(all, gk);
      assert OfGroupKind(all, gk)[i] in OfGroupKind(all, gk);
    }
  }

  lemma ProperMembers(all: seq<Resource>)
    requires Proper(all)
    ensures forall r, s :: r in all && s in all && r.id == s.id ==> r == s
    ensures forall r :: r in all ==> r.id in Index(all) && Index(all)[r.id] == r
  {
    forall r, s | r in all && s in all && r.id == s.id ensures r == s {
      var i :| 0 <= i < |all| && all[i] == r;
      var j :| 0 <= j < |all| && all[j] == s;
    }
  }

  /** What is known of an object, if the search starts from one of them. */
  lemma ApiLookup(all: seq<Resource>, s: Resource, k: GKNN)
    requires Proper(all) && s in all
    ensures Lookup([s], Api(all), k) == if k in Index(all) then Some(Index(all)[k]) else None
  {
    hide First;
    ProperMembers(all);
    assert [s][..0] == [] && SourceObjects([s]) == map[s.id := s];
    OfGroupKindMembers(all, k.GK());
    FirstIsMember(OfGroupKind(all, k.GK()), k);
  }

  lemma {:induction false} ApiAnswers(all: seq<Resource>, kinds: seq<GroupKind>)
    ensures FetchAll(Api(all), kinds).Ok?
  {
    if kinds != [] { ApiAnswers(all, kinds[..|kinds| - 1]); }
  }

  lemma AllKinds(rels: Relations, s: Resource, kinds: seq<GroupKind>, maxDepth: int)
    requires rels.Valid() && s.id.GK() in GATEWAY_KINDS && maxDepth >= B.DEFAULT_GRAPH_MAX_DEPTH
    requires SelectedKinds(kinds, [s], rels.All(), maxDepth)
    ensures FiveKinds(kinds) && |kinds| != 1
  {
    hide SelectedKinds, GATEWAY_KINDS;
    assert [s][0].id.GK() in GATEWAY_KINDS;
    forall gk | gk in GATEWAY_KINDS ensures gk in kinds { DefaultDepthIsEnough(rels, [s], kinds, maxDepth, gk); }
    MoreThanOne(kinds);
  }

  /** With the default depth the builder gets them all. */
  lemma WholeWorld(all: seq<Resource>, s: Resource, kinds: seq<GroupKind>)
    requires Proper(all) && s in all && FiveKinds(kinds) && |kinds| != 1
    ensures B.World([s], Api(all), kinds) == Ok(Index(all))
  {
    hide Lookup, AddMissing, GATEWAY_KINDS, FetchAll, Index, Api;
    ApiAnswers(all, kinds);
    ApiIsTyped(all);
    var objects := B.World([s], Api(all), kinds).value;
    forall k
      ensures k in objects <==> k in Index(all)
      ensures k in objects ==> objects[k] == Index(all)[k]
    {
      ApiLookup(all, s, k);
      KindOfMember(all, k);
      FetchedIsLookup([s], Api(all), kinds, k);
      assert Ids([s]) == {s.id} by { assert Ids([s]) == {[s][0].id}; }
      ProperMembers(all);
    }
    assert objects == Index(all);
  }

  lemma KindOfMember(all: seq<Resource>, k: GKNN)
    requires Proper(all)
    ensures k in Index(all) ==> k.GK() in GATEWAY_KINDS
  {
    hide GATEWAY_KINDS;
    if k in Index(all) { var i :| 0 <= i < |all| && all[i] == Index(all)[k]; }
  }

  /** The graph of the cluster, from one of its objects, with the default depth. */
  method BuildFrom(rels: Relations, all: seq<Resource>, s: Resource)
    returns (graph: Graph, ghost removed: map<GKNN, Node>)
    requires rels.Valid() && Proper(all) && s in all
    ensures fresh(graph) && fresh(graph.nodes.Values) && fresh(removed.Values)
    ensures graph.maxDepth == 3 && graph.relations == rels.All()
    ensures B.Built(graph, removed, Index(all), AllEdges(rels.All(), Index(all)), {s.id})
  {
    hide FetchAll, Near, Kinds, KindArcs, B.Built, B.World, AllEdges, Index, FiveKinds, GATEWAY_KINDS;
    var builder := new B.Builder(Api(all));
    builder.StartFrom([s]);
    builder.UseRelationships(rels.All());
    assert builder.relations == rels.All();
    ghost var kinds;
    var built;
    built, kinds, removed := builder.Build();
    AllKinds(rels, s, kinds, builder.maxDepth);
    WholeWorld(all, s, kinds);
    assert Ids([s]) == {s.id} by { assert Ids([s]) == {[s][0].id}; }
    graph := built.value;
  }

  // ---------------------------------------------------------------- what names what

  /** The references of the five kinds. */
  lemma NamesIff(rels: Relations, objects: map<GKNN, Resource>, u: GKNN, v: GKNN)
    requires rels.Valid() && u in objects && v in objects
    ensures Names(rels.All(), objects, u, v) <==>
      || (u.GK() == GATEWAY_GK && (v == GatewayClassRef(objects[u]) || v == NamespaceRef(objects[u])))
      || (u.GK() == HTTP_ROUTE_GK && (v in ParentGateways(objects[u]) || IsBackend(objects[u], v)
                                      || v == NamespaceRef(objects[u])))
      || (u.GK() == SERVICE_GK && v == NamespaceRef(objects[u]))
  {
    hide IsBackend, ParentGateways;
    KindsDiffer();
    var all := rels.All();
    assert all[0] == rels.gatewayClass && all[1] == rels.parentRef && all[2] == rels.backendRef
        && all[3] == rels.gatewayNamespace && all[4] == rels.httpRouteNamespace && all[5] == rels.backendNamespace;
  }

  // ---------------------------------------------------------------- what is reached

  /** A set that no step leaves holds everything reached. */
  lemma {:induction false} TrailsStay(edges: set<Edge>, sources: set<GKNN>, closed: set<GKNN>, p: seq<GKNN>)
    requires IsTrail(edges, sources, p) && sources <= closed
    requires forall u, v :: u in closed && GoesOn(u, sources) && Joined(edges, u, v) ==> v in closed
    ensures p[|p| - 1] in closed
  {
    hide GoesOn, Joined;
    if |p| > 1 {
      TrailsStay(edges, sources, closed, p[..|p| - 1]);
      assert p[..|p| - 1][|p| - 2] == p[|p| - 2];
      assert p[|p| - 2 + 1] == p[|p| - 1];
    }
  }

  lemma GraphStays(graph: Graph, removed: map<GKNN, Node>, objects: map<GKNN, Resource>, edges: set<Edge>,
                   sources: set<GKNN>, closed: set<GKNN>, k: GKNN)
    requires B.Built(graph, removed, objects, edges, sources) && sources <= closed && k in graph.nodes
    requires forall u, v :: u in closed && GoesOn(u, sources) && Joined(edges, u, v) ==> v in closed
    ensures k in closed
  {
    hide B.Built, GoesOn, Joined, IsTrail;
    var d := TrailOfNode(graph, removed, objects, edges, sources, k);
    var p :| IsTrail(edges, sources, p) && |p| == d + 1 && p[d] == k;
    TrailsStay(edges, sources, closed, p);
  }

  lemma TrailOfNode(graph: Graph, removed: map<GKNN, Node>, objects: map<GKNN, Resource>, edges: set<Edge>,
                    sources: set<GKNN>, k: GKNN) returns (d: nat)
    requires B.Built(graph, removed, objects, edges, sources) && k in graph.nodes
    ensures TrailTo(edges, sources, d, k)
  {
    hide B.HoldsEdges, B.HoldsObjects, TrailTo;
    d := graph.nodes[k].depth;
    NodesByPaths(graph, removed, objects, edges, sources, k, d);
  }

  /** What is joined to a source from which the search goes on is at depth 1. */
  lemma NextToSource(graph: Graph, removed: map<GKNN, Node>, objects: map<GKNN, Resource>, edges: set<Edge>,
                     sources: set<GKNN>, s: GKNN, k: GKNN)
    requires B.Built(graph, removed, objects, edges, sources) && graph.maxDepth >= 0
    requires s in sources && k !in sources && GoesOn(s, sources) && Joined(edges, s, k)
    ensures k in graph.nodes && graph.nodes[k].depth == 1
  {
    hide B.HoldsEdges, B.HoldsObjects, GoesOn, Joined;
    var p := [s, k];
    assert IsTrail(edges, sources, p) && |p| == 1 + 1 && p[1] == k;
    assert forall q :: IsTrail(edges, sources, q) ==> q[0] in sources;
    NodesByPaths(graph, removed, objects, edges, sources, k, 1);
  }
}

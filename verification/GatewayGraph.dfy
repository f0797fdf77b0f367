/** What graphs built from the relations of the Gateway API are like
    (pkg/topology/gateway/gateway.go on top of pkg/topology/graph.go). */
module GatewayGraph {
  import opened Common
  import opened Builder
  import opened Cluster
  import opened Completeness
  import opened Gateway
  import opened NotFoundRefValidator
  import opened Reach
  import opened Reports
  import opened Topology

  const GATEWAY_KINDS := {GATEWAY_CLASS_GK, GATEWAY_GK, HTTP_ROUTE_GK, NAMESPACE_GK, SERVICE_GK}

  lemma KindsDiffer()
    ensures GATEWAY_CLASS_GK != GATEWAY_GK && GATEWAY_CLASS_GK != HTTP_ROUTE_GK && GATEWAY_CLASS_GK != NAMESPACE_GK
    ensures GATEWAY_CLASS_GK != SERVICE_GK && GATEWAY_GK != HTTP_ROUTE_GK && GATEWAY_GK != NAMESPACE_GK
    ensures GATEWAY_GK != SERVICE_GK && HTTP_ROUTE_GK != NAMESPACE_GK && HTTP_ROUTE_GK != SERVICE_GK
    ensures NAMESPACE_GK != SERVICE_GK
  {
  }

  /** Every two of the five kinds that a relation connects directly. */
  lemma KindArcsOf(rels: Relations)
    requires rels.Valid()
    ensures var arcs := KindArcs(rels.All());
      && (GATEWAY_GK, GATEWAY_CLASS_GK) in arcs && (GATEWAY_CLASS_GK, GATEWAY_GK) in arcs
      && (HTTP_ROUTE_GK, GATEWAY_GK) in arcs && (GATEWAY_GK, HTTP_ROUTE_GK) in arcs
      && (HTTP_ROUTE_GK, SERVICE_GK) in arcs && (SERVICE_GK, HTTP_ROUTE_GK) in arcs
      && (GATEWAY_GK, NAMESPACE_GK) in arcs && (NAMESPACE_GK, GATEWAY_GK) in arcs
      && (HTTP_ROUTE_GK, NAMESPACE_GK) in arcs && (NAMESPACE_GK, HTTP_ROUTE_GK) in arcs
      && (SERVICE_GK, NAMESPACE_GK) in arcs && (NAMESPACE_GK, SERVICE_GK) in arcs
  {
    var all := rels.All();
    assert all[0] == rels.gatewayClass && all[1] == rels.parentRef && all[2] == rels.backendRef
        && all[3] == rels.gatewayNamespace && all[4] == rels.httpRouteNamespace && all[5] == rels.backendNamespace;
  }

  lemma Hops(arcs: iset<(GroupKind, GroupKind)>, start: set<GroupKind>, a: GroupKind, b: GroupKind, c: GroupKind,
             d: GroupKind)
    requires a in start && (a, b) in arcs && (b, c) in arcs && (c, d) in arcs
    ensures Near(arcs, start, 3, a) && Near(arcs, start, 3, b) && Near(arcs, start, 3, c) && Near(arcs, start, 3, d)
  {
    assert Walk(arcs, start, 0, a) && Walk(arcs, start, 1, b) && Walk(arcs, start, 2, c) && Walk(arcs, start, 3, d);
  }

  /** The default depth of 3 is enough for all five kinds, wherever the search starts. */
  lemma DefaultDepthIsEnough(rels: Relations, sources: seq<Resource>, kinds: seq<GroupKind>, maxDepth: int,
                             gk: GroupKind)
    requires rels.Valid() && maxDepth >= DEFAULT_GRAPH_MAX_DEPTH && gk in GATEWAY_KINDS
    requires SelectedKinds(kinds, sources, rels.All(), maxDepth)
    requires exists i :: 0 <= i < |sources| && sources[i].id.GK() in GATEWAY_KINDS
    ensures gk in kinds
  {
    hide Near;
    KindArcsOf(rels);
    var arcs, start := KindArcs(rels.All()), Kinds(sources);
    var i :| 0 <= i < |sources| && sources[i].id.GK() in GATEWAY_KINDS;
    var s := sources[i].id.GK();
    assert s in start;
    var g, c, h, n, v := GATEWAY_GK, GATEWAY_CLASS_GK, HTTP_ROUTE_GK, NAMESPACE_GK, SERVICE_GK;
    hide KindArcs, Kinds;
    if s == c { Hops(arcs, start, c, g, h, v); Hops(arcs, start, c, g, n, v); }
    else if s == g { Hops(arcs, start, g, c, g, h); Hops(arcs, start, g, n, v, h); }
    else if s == h { Hops(arcs, start, h, g, c, g); Hops(arcs, start, h, n, v, h); }
    else if s == n { Hops(arcs, start, n, g, c, g); Hops(arcs, start, n, h, v, h); }
    else { Hops(arcs, start, v, h, g, c); Hops(arcs, start, v, n, g, h); }
    NearMore(arcs, start, 3, AtLeastZero(maxDepth), gk);
  }

  lemma NearMore(arcs: iset<(GroupKind, GroupKind)>, start: set<GroupKind>, m: int, n: int, gk: GroupKind)
    requires m <= n && Near(arcs, start, m, gk)
    ensures Near(arcs, start, n, gk)
  {
  }

  /** In the cluster, every route refers to Services only. */
  ghost predicate BackendsAreServices(sources: seq<Resource>, fetch: Fetcher) {
    forall u: GKNN, v: GKNN |
      u.GK() == HTTP_ROUTE_GK && Lookup(sources, fetch, u).Some? && Lookup(sources, fetch, v).Some?
      && IsBackend(Lookup(sources, fetch, u).value, v)
      :: v.GK() == SERVICE_GK
  }

  /** Of the six relations only the one from routes to backends can lead to another kind than it says. */
  lemma TypedReferencesIff(rels: Relations, sources: seq<Resource>, fetch: Fetcher)
    requires rels.Valid()
    ensures TypedReferences(sources, fetch, rels.All()) <==> BackendsAreServices(sources, fetch)
  {
    hide Lookup, IsBackend;
    var all := rels.All();
    if TypedReferences(sources, fetch, all) {
      forall u: GKNN, v: GKNN | (
        u.GK() == HTTP_ROUTE_GK && Lookup(sources, fetch, u).Some? && Lookup(sources, fetch, v).Some?
        && IsBackend(Lookup(sources, fetch, u).value, v)) ensures v.GK() == SERVICE_GK
      {
        assert RefersBy(sources, fetch, all, 2, u, v);
      }
    } else {
      var i, u, v :| RefersBy(sources, fetch, all, i, u, v) && v.GK() != all[i].to;
      assert all[i] == rels.backendRef;
    }
  }

  /** Main result for the Gateway API: from sources of any of the five kinds, with the default depth or more,
      the graph is complete, and an expanded node up to that depth is reported for exactly those of its
      references that do not exist, as long as all backends are Services. */
  lemma CompleteAndTrue(rels: Relations, graph: Graph, removed: map<GKNN, Node>, sources: seq<Resource>, fetch: Fetcher,
                        kinds: seq<GroupKind>)
    requires rels.Valid() && TypedFetcher(fetch) && BuiltFrom(graph, removed, sources, fetch, rels.All(), kinds)
    requires graph.maxDepth >= DEFAULT_GRAPH_MAX_DEPTH && BackendsAreServices(sources, fetch)
    requires exists i :: 0 <= i < |sources| && sources[i].id.GK() in GATEWAY_KINDS
    ensures Complete(graph, ClusterArcs(sources, fetch, rels.All()), Ids(sources))
    ensures forall k :: (
      k in graph.nodes && MayExpand(k, Ids(sources)) && graph.nodes[k].depth <= graph.maxDepth ==>
        Missing(k, Refs(rels.All(), graph.nodes[k].obj), graph.nodes.Keys) ==
          Absent(sources, fetch, rels.All(), graph.nodes[k].obj))
  {
    KindsDiffer();
    var all := rels.All();
    assert rels.gatewayClass.from == GATEWAY_GK;
    TypedReferencesIff(rels, sources, fetch);
    forall gk | gk in GATEWAY_KINDS ensures gk in kinds {
      DefaultDepthIsEnough(rels, sources, kinds, graph.maxDepth, gk);
    }
    assert GATEWAY_GK in kinds && SERVICE_GK in kinds && kinds != [kinds[0]];
    assert forall i :: 0 <= i < |all| ==> all[i].to in GATEWAY_KINDS && all[i].from != all[i].to;
    hide BuiltFrom, Complete, MayExpand, Missing, Absent, Refs, TypedReferences, TypedFetcher, BackendsAreServices;
    CompleteWithoutSelfRelation(graph, removed, sources, fetch, all, kinds);
    forall k | k in graph.nodes && MayExpand(k, Ids(sources)) && graph.nodes[k].depth <= graph.maxDepth
      ensures Missing(k, Refs(all, graph.nodes[k].obj), graph.nodes.Keys) ==
        Absent(sources, fetch, all, graph.nodes[k].obj)
    {
      TrueForTypedReferences(graph, removed, sources, fetch, all, kinds, k);
    }
  }
}

/** When what a graph says is above a Gateway, an HTTPRoute or a Backend is what the cluster says, so that the
    policies it inherits are those that the cluster has for it
    (pkg/extension/gatewayeffectivepolicy/gatewayeffectivepolicy.go, lines 52 to 176, on pkg/topology/graph.go). */
module ClusterAncestors {
  import opened Common
  import opened Builder
  import opened Cluster
  import opened Completeness
  import opened Gateway
  import opened GatewayGraph
  import opened InheritedPolicies
  import opened Metadata
  import opened PolicyEffects
  import opened Reach
  import opened Reports
  import opened Topology

  // ---------------------------------------------------------------- what is above in the cluster

  ghost predicate AboveGatewayThere(sources: seq<Resource>, fetch: Fetcher, g: GKNN, t: GKNN) {
    && g.GK() == GATEWAY_GK && Lookup(sources, fetch, g).Some? && Lookup(sources, fetch, t).Some?
    && var gateway := Lookup(sources, fetch, g).value; t == NamespaceRef(gateway) || t == GatewayClassRef(gateway)
  }

  ghost predicate AboveRouteThere(sources: seq<Resource>, fetch: Fetcher, r: GKNN, t: GKNN) {
    && r.GK() == HTTP_ROUTE_GK && Lookup(sources, fetch, r).Some? && Lookup(sources, fetch, t).Some?
    && var route := Lookup(sources, fetch, r).value;
       || t == NamespaceRef(route) || t in ParentGateways(route)
       || exists g :: g in ParentGateways(route) && AboveGatewayThere(sources, fetch, g, t)
  }

  ghost predicate RoutesThere(sources: seq<Resource>, fetch: Fetcher, r: GKNN, b: GKNN) {
    r.GK() == HTTP_ROUTE_GK && Lookup(sources, fetch, r).Some? && IsBackend(Lookup(sources, fetch, r).value, b)
  }

  ghost predicate AboveBackendThere(sources: seq<Resource>, fetch: Fetcher, b: GKNN, t: GKNN) {
    && b.GK() == SERVICE_GK && Lookup(sources, fetch, b).Some? && Lookup(sources, fetch, t).Some?
    && (t == NamespaceRef(Lookup(sources, fetch, b).value) || RoutesThere(sources, fetch, t, b)
        || exists r :: RoutesThere(sources, fetch, r, b) && AboveRouteThere(sources, fetch, r, t))
  }

  /** Above, by the kind of the object: in a graph, and in the cluster. */
  ghost predicate Above(nodes: map<GKNN, Resource>, k: GKNN, t: GKNN) {
    AboveGateway(nodes, k, t) || AboveRoute(nodes, k, t) || AboveBackend(nodes, k, t)
  }

  ghost predicate AboveThere(sources: seq<Resource>, fetch: Fetcher, k: GKNN, t: GKNN) {
    || AboveGatewayThere(sources, fetch, k, t) || AboveRouteThere(sources, fetch, k, t)
    || AboveBackendThere(sources, fetch, k, t)
  }

  // ---------------------------------------------------------------- when they agree

  /** The objects are objects of the cluster. */
  ghost predicate Within(nodes: map<GKNN, Resource>, sources: seq<Resource>, fetch: Fetcher) {
    forall k :: k in nodes ==> Lookup(sources, fetch, k) == Some(nodes[k])
  }

  /** What is above in the graph is above in the cluster. */
  lemma AboveIsThere(nodes: map<GKNN, Resource>, sources: seq<Resource>, fetch: Fetcher, k: GKNN, t: GKNN)
    requires Within(nodes, sources, fetch) && Above(nodes, k, t)
    ensures AboveThere(sources, fetch, k, t)
  {
    hide Lookup, IsBackend, ParentGateways;
    if AboveRoute(nodes, k, t) {
      RouteIsThere(nodes, sources, fetch, k, t);
    } else if AboveBackend(nodes, k, t) {
      if r :| Routes(nodes, r, k) && AboveRoute(nodes, r, t) { RouteIsThere(nodes, sources, fetch, r, t); }
    }
  }

  lemma RouteIsThere(nodes: map<GKNN, Resource>, sources: seq<Resource>, fetch: Fetcher, r: GKNN, t: GKNN)
    requires Within(nodes, sources, fetch) && AboveRoute(nodes, r, t)
    ensures AboveRouteThere(sources, fetch, r, t)
  {
    hide Lookup, ParentGateways;
    if g :| g in ParentGateways(nodes[r]) && AboveGateway(nodes, g, t) {
      assert AboveGatewayThere(sources, fetch, g, t);
    }
  }

  /** And the other way round, if all that is above is in the graph. */
  lemma ThereIsAbove(nodes: map<GKNN, Resource>, sources: seq<Resource>, fetch: Fetcher, k: GKNN, t: GKNN)
    requires Within(nodes, sources, fetch) && k in nodes && AboveThere(sources, fetch, k, t)
    requires forall u :: AboveThere(sources, fetch, k, u) ==> u in nodes
    ensures Above(nodes, k, t)
  {
    hide Lookup, IsBackend, ParentGateways;
    if AboveRouteThere(sources, fetch, k, t) {
      ThereIsRoute(nodes, sources, fetch, k, t);
    } else if AboveBackendThere(sources, fetch, k, t) {
      if r :| RoutesThere(sources, fetch, r, k) && AboveRouteThere(sources, fetch, r, t) {
        assert AboveBackendThere(sources, fetch, k, r);
        forall u | AboveRouteThere(sources, fetch, r, u) ensures u in nodes {
          assert AboveBackendThere(sources, fetch, k, u);
        }
        ThereIsRoute(nodes, sources, fetch, r, t);
      }
    }
  }

  lemma ThereIsRoute(nodes: map<GKNN, Resource>, sources: seq<Resource>, fetch: Fetcher, r: GKNN, t: GKNN)
    requires Within(nodes, sources, fetch) && r in nodes && AboveRouteThere(sources, fetch, r, t)
    requires forall u :: AboveRouteThere(sources, fetch, r, u) ==> u in nodes
    ensures AboveRoute(nodes, r, t)
  {
    hide Lookup, ParentGateways;
    if g :| g in ParentGateways(nodes[r]) && AboveGatewayThere(sources, fetch, g, t) {
      assert AboveRouteThere(sources, fetch, r, g);
      assert AboveGateway(nodes, g, t);
    }
  }

  lemma ObjectsAreWithin(graph: Graph, removed: map<GKNN, Node>, sources: seq<Resource>, fetch: Fetcher,
                         relations: seq<Relation>, kinds: seq<GroupKind>)
    requires TypedFetcher(fetch) && BuiltFrom(graph, removed, sources, fetch, relations, kinds)
    ensures Within(Objects(graph.nodes), sources, fetch)
  {
    hide BuiltFrom, Lookup;
    forall k | k in graph.nodes ensures Lookup(sources, fetch, k) == Some(graph.nodes[k].obj) {
      ObjectInCluster(graph, removed, sources, fetch, relations, kinds, k);
    }
  }

  /** Main result: at any depth, the graph has above a node what the cluster has there, exactly if all of it has
      been looked for and is reached. */
  lemma AboveAgreesIff(graph: Graph, removed: map<GKNN, Node>, sources: seq<Resource>, fetch: Fetcher,
                       relations: seq<Relation>, kinds: seq<GroupKind>, k: GKNN)
    requires TypedFetcher(fetch) && BuiltFrom(graph, removed, sources, fetch, relations, kinds) && k in graph.nodes
    ensures (forall t :: Above(Objects(graph.nodes), k, t) <==> AboveThere(sources, fetch, k, t))
      <==> forall t :: AboveThere(sources, fetch, k, t) ==> Reached(graph.maxDepth, sources, fetch, relations, kinds, t)
  {
    hide Built, SelectedKinds, Lookup, Above, AboveThere, Reached, Within, World;
    var nodes := Objects(graph.nodes);
    ObjectsAreWithin(graph, removed, sources, fetch, relations, kinds);
    forall t
      ensures AboveThere(sources, fetch, k, t) ==>
        (t in nodes <==> Reached(graph.maxDepth, sources, fetch, relations, kinds, t))
      ensures Above(nodes, k, t) ==> t in nodes && AboveThere(sources, fetch, k, t)
    {
      InGraphIff(graph, removed, sources, fetch, relations, kinds, t);
      AboveIsKnown(sources, fetch, k, t);
      AboveIsPresent(nodes, k, t);
      if Above(nodes, k, t) { AboveIsThere(nodes, sources, fetch, k, t); }
    }
    if forall t :: AboveThere(sources, fetch, k, t) ==> Reached(graph.maxDepth, sources, fetch, relations, kinds, t) {
      forall t | AboveThere(sources, fetch, k, t) ensures Above(nodes, k, t) {
        ThereIsAbove(nodes, sources, fetch, k, t);
      }
    }
  }

  lemma AboveIsKnown(sources: seq<Resource>, fetch: Fetcher, k: GKNN, t: GKNN)
    ensures AboveThere(sources, fetch, k, t) ==> Lookup(sources, fetch, t).Some?
  {
    hide Lookup, IsBackend;
  }

  lemma AboveIsPresent(nodes: map<GKNN, Resource>, k: GKNN, t: GKNN)
    ensures Above(nodes, k, t) ==> t in nodes
  {
    hide IsBackend;
  }

  // ---------------------------------------------------------------- near enough

  /** An object that is fetched, at most `n` steps away from the sources. */
  ghost predicate Found(sources: seq<Resource>, fetch: Fetcher, relations: seq<Relation>, kinds: seq<GroupKind>, n: int,
                        v: GKNN)
    requires World(sources, fetch, kinds).Ok?
  {
    var objects := World(sources, fetch, kinds).value;
    v in objects && Near(NodeArcs(WorldEdges(relations, kinds, objects), Ids(sources)), Ids(sources), n, v)
  }

  /** All of the five kinds are fetched. */
  ghost predicate FiveKinds(kinds: seq<GroupKind>) {
    forall gk :: gk in GATEWAY_KINDS ==> gk in kinds
  }

  lemma MoreThanOne(kinds: seq<GroupKind>)
    requires FiveKinds(kinds)
    ensures |kinds| != 1
  {
    KindsDiffer();
    assert GATEWAY_GK in kinds && SERVICE_GK in kinds && kinds != [kinds[0]];
  }

  lemma FoundMore(sources: seq<Resource>, fetch: Fetcher, relations: seq<Relation>, kinds: seq<GroupKind>, m: int,
                  n: int, v: GKNN)
    requires World(sources, fetch, kinds).Ok? && m <= n && Found(sources, fetch, relations, kinds, m, v)
    ensures Found(sources, fetch, relations, kinds, n, v)
  {
    hide World, WorldEdges, NodeArcs, Ids;
  }

  /** One step along a reference, in either direction. */
  lemma OneStepFurther(sources: seq<Resource>, fetch: Fetcher, relations: seq<Relation>, kinds: seq<GroupKind>, n: int,
                       u: GKNN, v: GKNN, i: int)
    requires TypedFetcher(fetch) && World(sources, fetch, kinds).Ok? && |kinds| != 1 && v.GK() in kinds
    requires Found(sources, fetch, relations, kinds, n, u) && MayExpand(u, Ids(sources))
    requires RefersBy(sources, fetch, relations, i, u, v) || RefersBy(sources, fetch, relations, i, v, u)
    ensures Found(sources, fetch, relations, kinds, n + 1, v)
  {
    hide Lookup, MayExpand, AllEdges, Near, FetchAll, AddMissing;
    var objects := World(sources, fetch, kinds).value;
    FetchedIsLookup(sources, fetch, kinds, u);
    FetchedIsLookup(sources, fetch, kinds, v);
    AllEdgesAreEdges(relations, objects, Edge(u, relations[i], v));
    AllEdgesAreEdges(relations, objects, Edge(v, relations[i], u));
    NearStep(NodeArcs(AllEdges(relations, objects), Ids(sources)), Ids(sources), n, u, v);
  }

  lemma KindsOfRefs(r: Resource)
    ensures NamespaceRef(r).GK() == NAMESPACE_GK && GatewayClassRef(r).GK() == GATEWAY_CLASS_GK
    ensures forall g :: g in ParentGateways(r) ==> g.GK() == GATEWAY_GK
    ensures forall k: GKNN, ids :: k.GK() in {GATEWAY_GK, HTTP_ROUTE_GK, SERVICE_GK} ==> MayExpand(k, ids)
  {
    KindsDiffer();
  }

  lemma GatewayFound(rels: Relations, sources: seq<Resource>, fetch: Fetcher, kinds: seq<GroupKind>, n: int, g: GKNN,
                     t: GKNN)
    requires rels.Valid() && TypedFetcher(fetch) && World(sources, fetch, kinds).Ok? && FiveKinds(kinds)
    requires Found(sources, fetch, rels.All(), kinds, n, g) && AboveGatewayThere(sources, fetch, g, t)
    ensures Found(sources, fetch, rels.All(), kinds, n + 1, t)
  {
    hide Lookup, Found, MayExpand, NamespaceRef, GatewayClassRef, TypedFetcher, World;
    MoreThanOne(kinds);
    var gateway := Lookup(sources, fetch, g).value;
    KindsOfRefs(gateway);
    var i := if t == NamespaceRef(gateway) then 3 else 0;
    assert RefersBy(sources, fetch, rels.All(), i, g, t);
    OneStepFurther(sources, fetch, rels.All(), kinds, n, g, t, i);
  }

  lemma RouteFound(rels: Relations, sources: seq<Resource>, fetch: Fetcher, kinds: seq<GroupKind>, n: int, r: GKNN,
                   t: GKNN)
    requires rels.Valid() && TypedFetcher(fetch) && World(sources, fetch, kinds).Ok? && FiveKinds(kinds)
    requires Found(sources, fetch, rels.All(), kinds, n, r) && AboveRouteThere(sources, fetch, r, t)
    ensures Found(sources, fetch, rels.All(), kinds, n + 2, t)
  {
    hide Lookup, Found, MayExpand, NamespaceRef, ParentGateways, AboveGatewayThere, TypedFetcher, World, RefersBy;
    MoreThanOne(kinds);
    var route := Lookup(sources, fetch, r).value;
    KindsOfRefs(route);
    if t == NamespaceRef(route) {
      RefersAt(rels, sources, fetch, 4, r, t);
      OneStepFurther(sources, fetch, rels.All(), kinds, n, r, t, 4);
      FoundMore(sources, fetch, rels.All(), kinds, n + 1, n + 2, t);
    } else if t in ParentGateways(route) {
      RefersAt(rels, sources, fetch, 1, r, t);
      OneStepFurther(sources, fetch, rels.All(), kinds, n, r, t, 1);
      FoundMore(sources, fetch, rels.All(), kinds, n + 1, n + 2, t);
    } else {
      var g :| g in ParentGateways(route) && AboveGatewayThere(sources, fetch, g, t);
      GatewayIsKnown(sources, fetch, g, t);
      RefersAt(rels, sources, fetch, 1, r, g);
      OneStepFurther(sources, fetch, rels.All(), kinds, n, r, g, 1);
      GatewayFound(rels, sources, fetch, kinds, n + 1, g, t);
    }
  }

  lemma GatewayIsKnown(sources: seq<Resource>, fetch: Fetcher, g: GKNN, t: GKNN)
    ensures AboveGatewayThere(sources, fetch, g, t) ==> Lookup(sources, fetch, g).Some?
  {
  }

  /** The relations of routes and backends by index. */
  lemma RefersAt(rels: Relations, sources: seq<Resource>, fetch: Fetcher, i: int, u: GKNN, v: GKNN)
    requires rels.Valid() && Lookup(sources, fetch, u).Some? && Lookup(sources, fetch, v).Some?
    ensures var obj := Lookup(sources, fetch, u).value;
      (|| (i == 1 && u.GK() == HTTP_ROUTE_GK && v in ParentGateways(obj))
       || (i == 2 && u.GK() == HTTP_ROUTE_GK && IsBackend(obj, v))
       || (i == 4 && u.GK() == HTTP_ROUTE_GK && v == NamespaceRef(obj))
       || (i == 5 && u.GK() == SERVICE_GK && v == NamespaceRef(obj))) ==>
        RefersBy(sources, fetch, rels.All(), i, u, v)
  {
    hide Lookup, IsBackend, ParentGateways;
  }

  lemma BackendFound(rels: Relations, sources: seq<Resource>, fetch: Fetcher, kinds: seq<GroupKind>, n: int, b: GKNN,
                     t: GKNN)
    requires rels.Valid() && TypedFetcher(fetch) && World(sources, fetch, kinds).Ok? && FiveKinds(kinds)
    requires Found(sources, fetch, rels.All(), kinds, n, b) && AboveBackendThere(sources, fetch, b, t)
    ensures Found(sources, fetch, rels.All(), kinds, n + 3, t)
  {
    hide Lookup, Found, MayExpand, NamespaceRef, IsBackend, AboveRouteThere, TypedFetcher, World, RefersBy;
    MoreThanOne(kinds);
    var backend := Lookup(sources, fetch, b).value;
    KindsOfRefs(backend);
    if t == NamespaceRef(backend) {
      RefersAt(rels, sources, fetch, 5, b, t);
      OneStepFurther(sources, fetch, rels.All(), kinds, n, b, t, 5);
      FoundMore(sources, fetch, rels.All(), kinds, n + 1, n + 3, t);
    } else if RoutesThere(sources, fetch, t, b) {
      RefersAt(rels, sources, fetch, 2, t, b);
      OneStepFurther(sources, fetch, rels.All(), kinds, n, b, t, 2);
      FoundMore(sources, fetch, rels.All(), kinds, n + 1, n + 3, t);
    } else {
      var r :| RoutesThere(sources, fetch, r, b) && AboveRouteThere(sources, fetch, r, t);
      RefersAt(rels, sources, fetch, 2, r, b);
      OneStepFurther(sources, fetch, rels.All(), kinds, n, b, r, 2);
      RouteFound(rels, sources, fetch, kinds, n + 1, r, t);
    }
  }

  /** How many steps it can take from an object to what is above it. */
  function StepsUp(gk: GroupKind): nat {
    if gk == GATEWAY_GK then 1 else if gk == HTTP_ROUTE_GK then 2 else 3
  }

  lemma AboveFound(rels: Relations, sources: seq<Resource>, fetch: Fetcher, kinds: seq<GroupKind>, n: int, k: GKNN,
                   t: GKNN)
    requires rels.Valid() && TypedFetcher(fetch) && World(sources, fetch, kinds).Ok? && FiveKinds(kinds)
    requires Found(sources, fetch, rels.All(), kinds, n, k) && AboveThere(sources, fetch, k, t)
    ensures Found(sources, fetch, rels.All(), kinds, n + StepsUp(k.GK()), t)
  {
    hide Found, FiveKinds, World, TypedFetcher, Lookup;
    KindsDiffer();
    if AboveGatewayThere(sources, fetch, k, t) { GatewayFound(rels, sources, fetch, kinds, n, k, t); }
    if AboveRouteThere(sources, fetch, k, t) { RouteFound(rels, sources, fetch, kinds, n, k, t); }
    if AboveBackendThere(sources, fetch, k, t) { BackendFound(rels, sources, fetch, kinds, n, k, t); }
  }

  /** Main result with the six relations: if all five kinds are fetched, a Gateway up to `maxDepth`, an HTTPRoute up
      to one less and a Backend up to two less have above them in the graph what they have in the cluster. */
  lemma AboveAgrees(rels: Relations, graph: Graph, removed: map<GKNN, Node>, sources: seq<Resource>, fetch: Fetcher,
                    kinds: seq<GroupKind>, k: GKNN)
    requires rels.Valid() && TypedFetcher(fetch) && BuiltFrom(graph, removed, sources, fetch, rels.All(), kinds)
    requires FiveKinds(kinds) && k in graph.nodes && graph.nodes[k].depth + StepsUp(k.GK()) <= graph.maxDepth + 1
    ensures forall t :: Above(Objects(graph.nodes), k, t) <==> AboveThere(sources, fetch, k, t)
  {
    hide SelectedKinds, Above, AboveThere, WorldEdges, NodeArcs, HoldsEdges, World, Ids, FiveKinds;
    AboveAgreesIff(graph, removed, sources, fetch, rels.All(), kinds, k);
    var d := graph.nodes[k].depth;
    assert Found(sources, fetch, rels.All(), kinds, d, k);
    forall t | AboveThere(sources, fetch, k, t)
      ensures Reached(graph.maxDepth, sources, fetch, rels.All(), kinds, t)
    {
      AboveFound(rels, sources, fetch, kinds, d, k, t);
      FoundMore(sources, fetch, rels.All(), kinds, d + StepsUp(k.GK()), AtLeastZero(graph.maxDepth + 1), t);
      FoundIsReached(graph.maxDepth, sources, fetch, rels.All(), kinds, t);
    }
  }

  lemma FoundIsReached(maxDepth: int, sources: seq<Resource>, fetch: Fetcher, relations: seq<Relation>,
                       kinds: seq<GroupKind>, t: GKNN)
    requires TypedFetcher(fetch) && World(sources, fetch, kinds).Ok?
    requires Found(sources, fetch, relations, kinds, AtLeastZero(maxDepth + 1), t)
    ensures Reached(maxDepth, sources, fetch, relations, kinds, t)
  {
    hide WorldEdges, NodeArcs, Near, World, Lookup;
    WorldIsLookedFor(sources, fetch, kinds, t);
  }

  /** So what such an object inherits are the inheritable policies attached to what is above it in the cluster. */
  lemma InheritsFromCluster(rels: Relations, graph: Graph, removed: map<GKNN, Node>, sources: seq<Resource>,
                            fetch: Fetcher, kinds: seq<GroupKind>, policies: Policies, k: GKNN, g: GKNN)
    requires rels.Valid() && TypedFetcher(fetch) && BuiltFrom(graph, removed, sources, fetch, rels.All(), kinds)
    requires FiveKinds(kinds) && k in graph.nodes && graph.nodes[k].depth + StepsUp(k.GK()) <= graph.maxDepth + 1
    requires k.GK() in {GATEWAY_GK, HTTP_ROUTE_GK, SERVICE_GK}
    ensures k in InheritedDue(graph.nodes, rels, policies)
    ensures g in Inherited(InheritedDue(graph.nodes, rels, policies)[k], k.GK()) <==>
      && g in policies && policies[g].inheritable
      && exists t :: t in policies[g].targetRefs && AboveThere(sources, fetch, k, t)
  {
    hide SelectedKinds, Built, AboveThere, AboveGateway, AboveRoute, AboveBackend, InheritedDue, FiveKinds, AddMissing;
    MoreThanOne(kinds);
    KindsDiffer();
    AboveAgrees(rels, graph, removed, sources, fetch, kinds, k);
    InheritsIff(graph, removed, World(sources, fetch, kinds).value, rels, Ids(sources), policies, k, g);
    forall t { AboveByKind(Objects(graph.nodes), k, t); }
  }

  /** The policies that an entry has for objects of the kind. */
  function Inherited(data: EffectiveData, gk: GroupKind): Policies {
    if gk == GATEWAY_GK then data.gatewayInherited
    else if gk == HTTP_ROUTE_GK then data.httpRouteInherited
    else data.backendInherited
  }

  lemma AboveByKind(nodes: map<GKNN, Resource>, k: GKNN, t: GKNN)
    ensures AboveGateway(nodes, k, t) ==> k.GK() == GATEWAY_GK
    ensures AboveRoute(nodes, k, t) ==> k.GK() == HTTP_ROUTE_GK
    ensures AboveBackend(nodes, k, t) ==> k.GK() == SERVICE_GK
  {
    hide IsBackend;
  }
}

/** Small clusters whose graphs show where a search stops and what a route refers to (pkg/topology/graph.go, lines
    252 to 325; pkg/topology/gateway/gateway.go, lines 60 to 94). */
module SearchExamples {
  import opened Common
  import B = Builder
  import opened Cluster
  import opened Gateway
  import opened GatewayGraph
  import opened GatewayNodes
  import opened PolicyEffects
  import opened SearchPaths
  import opened SmallClusters
  import opened Topology

  function Service(namespace: string, name: string): Resource {
    Resource(GKNN("", "Service", namespace, name), ResourceSpec("", [], []))
  }

  function Namespace(name: string): Resource {
    Resource(GKNN("", "Namespace", "", name), ResourceSpec("", [], []))
  }

  function GatewayClass(name: string): Resource {
    Resource(GKNN("gateway.networking.k8s.io", "GatewayClass", "", name), ResourceSpec("", [], []))
  }

  function AGateway(namespace: string, name: string, gatewayClassName: string): Resource {
    Resource(GKNN("gateway.networking.k8s.io", "Gateway", namespace, name), ResourceSpec(gatewayClassName, [], []))
  }

  function HTTPRoute(namespace: string, name: string, parentRefs: seq<ParentRef>, rules: seq<Rule>): Resource {
    Resource(GKNN("gateway.networking.k8s.io", "HTTPRoute", namespace, name), ResourceSpec("", parentRefs, rules))
  }

  lemma IndexOfThree(a: Resource, b: Resource, c: Resource)
    requires Proper([a, b, c])
    ensures Index([a, b, c]) == map[a.id := a, b.id := b, c.id := c]
    ensures a.id != b.id && a.id != c.id && b.id != c.id
  {
    hide Index;
    var all := [a, b, c];
    assert all[0].id != all[1].id && all[0].id != all[2].id && all[1].id != all[2].id;
    IndexMore(c, []);
    assert [c] + [] == [c];
    IndexMore(b, [c]);
    assert [b] + [c] == [b, c];
    IndexMore(a, [b, c]);
    assert [a] + [b, c] == all;
    InAnyOrder(a.id, a, b.id, b, c.id, c);
  }

  lemma InAnyOrder(i: GKNN, a: Resource, j: GKNN, b: Resource, k: GKNN, c: Resource)
    requires i != j && i != k && j != k
    ensures map[k := c][j := b][i := a] == map[i := a, j := b, k := c]
  {
  }

  lemma IndexMore(r: Resource, rest: seq<Resource>)
    ensures Index([r] + rest) == Index(rest)[r.id := r] && Index([]) == map[]
  {
    assert ([r] + rest)[1..] == rest;
  }

  // ---------------------------------------------------------------- two Services of one Namespace

  const SERVICE_A := Service("ns", "a")
  const SERVICE_B := Service("ns", "b")
  const NS := Namespace("ns")

  lemma ServicesAreProper()
    ensures Proper([SERVICE_A, SERVICE_B, NS])
  {
    KindsDiffer();
    assert "a"[0] != "b"[0];
  }

  lemma StepsFromService(rels: Relations, u: GKNN, v: GKNN)
    requires rels.Valid() && u in {SERVICE_A.id, NS.id} && GoesOn(u, {SERVICE_A.id})
    requires Joined(AllEdges(rels.All(), Index([SERVICE_A, SERVICE_B, NS])), u, v)
    ensures v in {SERVICE_A.id, NS.id}
  {
    hide AllEdges, Joined, Names, Index, IsBackend;
    KindsDiffer();
    ServicesAreProper();
    IndexOfThree(SERVICE_A, SERVICE_B, NS);
    var objects := Index([SERVICE_A, SERVICE_B, NS]);
    JoinedIff(rels.All(), objects, u, v);
    NamesWithin(rels, objects, u, v);
  }

  /** The references among known objects. */
  lemma NamesWithin(rels: Relations, objects: map<GKNN, Resource>, u: GKNN, v: GKNN)
    requires rels.Valid() && (Names(rels.All(), objects, u, v) || Names(rels.All(), objects, v, u))
    ensures u in objects && v in objects
    ensures Refers(objects[u], u, v) || Refers(objects[v], v, u)
  {
    hide IsBackend, ParentGateways;
    if Names(rels.All(), objects, u, v) {
      NamesIff(rels, objects, u, v);
    } else {
      NamesIff(rels, objects, v, u);
    }
  }

  ghost predicate Refers(r: Resource, u: GKNN, v: GKNN) {
    || (u.GK() == GATEWAY_GK && (v == GatewayClassRef(r) || v == NamespaceRef(r)))
    || (u.GK() == HTTP_ROUTE_GK && (v in ParentGateways(r) || IsBackend(r, v) || v == NamespaceRef(r)))
    || (u.GK() == SERVICE_GK && v == NamespaceRef(r))
  }

  lemma ServiceNamesNamespace(rels: Relations)
    requires rels.Valid()
    ensures Joined(AllEdges(rels.All(), Index([SERVICE_A, SERVICE_B, NS])), SERVICE_A.id, NS.id)
    ensures GoesOn(SERVICE_A.id, {SERVICE_A.id}) && NS.id != SERVICE_A.id
  {
    hide AllEdges, Joined, Names, Index, IsBackend;
    KindsDiffer();
    ServicesAreProper();
    IndexOfThree(SERVICE_A, SERVICE_B, NS);
    var objects := Index([SERVICE_A, SERVICE_B, NS]);
    NamesIff(rels, objects, SERVICE_A.id, NS.id);
    JoinedIff(rels.All(), objects, SERVICE_A.id, NS.id);
  }

  /** Main result on Namespaces: a search reaches the Namespace of a Service, but not the other Service in it. */
  method TwoServicesOfANamespace() returns (graph: Graph)
    ensures NS.id in graph.nodes && graph.nodes[NS.id].depth == 1 && SERVICE_B.id !in graph.nodes
  {
    hide B.Built, AllEdges, Joined, GoesOn, Index, Proper;
    var rels := new Relations();
    ServicesAreProper();
    var all := [SERVICE_A, SERVICE_B, NS];
    assert all[0] in all;
    ghost var removed;
    graph, removed := BuildFrom(rels, all, SERVICE_A);
    ServiceNamesNamespace(rels);
    ghost var edges := AllEdges(rels.All(), Index(all));
    NextToSource(graph, removed, Index(all), edges, {SERVICE_A.id}, SERVICE_A.id, NS.id);
    forall u, v | u in {SERVICE_A.id, NS.id} && GoesOn(u, {SERVICE_A.id}) && Joined(edges, u, v)
      ensures v in {SERVICE_A.id, NS.id}
    {
      StepsFromService(rels, u, v);
    }
    IndexOfThree(SERVICE_A, SERVICE_B, NS);
    if SERVICE_B.id in graph.nodes {
      GraphStays(graph, removed, Index(all), edges, {SERVICE_A.id}, {SERVICE_A.id, NS.id}, SERVICE_B.id);
    }
  }

  // ---------------------------------------------------------------- two Gateways of one class

  const GATEWAY_1 := AGateway("n1", "g", "x")
  const GATEWAY_2 := AGateway("n2", "g", "x")
  const CLASS := GatewayClass("x")
  const OF_ONE_CLASS := [GATEWAY_1, GATEWAY_2, CLASS]

  lemma GatewaysAreProper()
    ensures Proper(OF_ONE_CLASS)
  {
    KindsDiffer();
    assert "n1"[1] != "n2"[1];
  }

  lemma StepsFromGateway(rels: Relations, u: GKNN, v: GKNN)
    requires rels.Valid() && u in {GATEWAY_1.id, CLASS.id} && GoesOn(u, {GATEWAY_1.id})
    requires Joined(AllEdges(rels.All(), Index(OF_ONE_CLASS)), u, v)
    ensures v in {GATEWAY_1.id, CLASS.id}
  {
    hide AllEdges, Joined, Names, Index, IsBackend, ParentGateways;
    KindsDiffer();
    GatewaysAreProper();
    IndexOfThree(GATEWAY_1, GATEWAY_2, CLASS);
    JoinedIff(rels.All(), Index(OF_ONE_CLASS), u, v);
    NamesWithin(rels, Index(OF_ONE_CLASS), u, v);
  }

  lemma GatewayNamesClass(rels: Relations, g: Resource)
    requires rels.Valid() && (g == GATEWAY_1 || g == GATEWAY_2)
    ensures Joined(AllEdges(rels.All(), Index(OF_ONE_CLASS)), g.id, CLASS.id)
    ensures Joined(AllEdges(rels.All(), Index(OF_ONE_CLASS)), CLASS.id, g.id)
    ensures GoesOn(g.id, {g.id}) && GoesOn(CLASS.id, {CLASS.id}) && CLASS.id != g.id
  {
    hide AllEdges, Joined, Names, Index, IsBackend;
    KindsDiffer();
    GatewaysAreProper();
    IndexOfThree(GATEWAY_1, GATEWAY_2, CLASS);
    NamesIff(rels, Index(OF_ONE_CLASS), g.id, CLASS.id);
    JoinedIff(rels.All(), Index(OF_ONE_CLASS), g.id, CLASS.id);
    JoinedIff(rels.All(), Index(OF_ONE_CLASS), CLASS.id, g.id);
  }

  /** Main result on GatewayClasses: a search from a Gateway reaches its class, but not the other Gateway of it. */
  method FromOneGateway() returns (graph: Graph)
    ensures CLASS.id in graph.nodes && graph.nodes[CLASS.id].depth == 1 && GATEWAY_2.id !in graph.nodes
  {
    hide B.Built, AllEdges, Joined, GoesOn, Index, Proper;
    var rels := new Relations();
    GatewaysAreProper();
    assert OF_ONE_CLASS[0] == GATEWAY_1;
    ghost var removed;
    graph, removed := BuildFrom(rels, OF_ONE_CLASS, GATEWAY_1);
    GatewayNamesClass(rels, GATEWAY_1);
    ghost var edges := AllEdges(rels.All(), Index(OF_ONE_CLASS));
    NextToSource(graph, removed, Index(OF_ONE_CLASS), edges, {GATEWAY_1.id}, GATEWAY_1.id, CLASS.id);
    forall u, v | u in {GATEWAY_1.id, CLASS.id} && GoesOn(u, {GATEWAY_1.id}) && Joined(edges, u, v)
      ensures v in {GATEWAY_1.id, CLASS.id}
    {
      StepsFromGateway(rels, u, v);
    }
    IndexOfThree(GATEWAY_1, GATEWAY_2, CLASS);
    if GATEWAY_2.id in graph.nodes {
      GraphStays(graph, removed, Index(OF_ONE_CLASS), edges, {GATEWAY_1.id}, {GATEWAY_1.id, CLASS.id}, GATEWAY_2.id);
    }
  }

  /** From the class itself it reaches both. */
  method FromTheirClass() returns (graph: Graph)
    ensures GATEWAY_1.id in graph.nodes && graph.nodes[GATEWAY_1.id].depth == 1
    ensures GATEWAY_2.id in graph.nodes && graph.nodes[GATEWAY_2.id].depth == 1
  {
    hide B.Built, AllEdges, Joined, GoesOn, Index, Proper;
    var rels := new Relations();
    GatewaysAreProper();
    assert OF_ONE_CLASS[2] == CLASS;
    ghost var removed;
    graph, removed := BuildFrom(rels, OF_ONE_CLASS, CLASS);
    GatewayNamesClass(rels, GATEWAY_1);
    GatewayNamesClass(rels, GATEWAY_2);
    ghost var objects := Index(OF_ONE_CLASS);
    NextToSource(graph, removed, objects, AllEdges(rels.All(), objects), {CLASS.id}, CLASS.id, GATEWAY_1.id);
    NextToSource(graph, removed, objects, AllEdges(rels.All(), objects), {CLASS.id}, CLASS.id, GATEWAY_2.id);
  }

  // ---------------------------------------------------------------- a parent in another namespace

  const INFRA := AGateway("infra", "gw", "x")
  const APP := AGateway("app", "gw", "x")
  const ROUTE := HTTPRoute("app", "r", [ParentRef(Some("infra"), "gw")], [])
  const OF_ONE_NAME := [INFRA, APP, ROUTE]

  lemma ParentsAreProper()
    ensures Proper(OF_ONE_NAME)
  {
    KindsDiffer();
    assert "infra"[0] != "app"[0];
  }

  lemma ParentOfRoute()
    ensures ParentGateways(ROUTE) == [INFRA.id] && INFRA.id != APP.id
  {
    ParentGatewayFields(ROUTE, 0);
    ParentsAreProper();
    assert OF_ONE_NAME[0].id != OF_ONE_NAME[1].id;
  }

  lemma StepsFromRoute(rels: Relations, u: GKNN, v: GKNN)
    requires rels.Valid() && u in {ROUTE.id, INFRA.id}
    requires Joined(AllEdges(rels.All(), Index(OF_ONE_NAME)), u, v)
    ensures v in {ROUTE.id, INFRA.id}
  {
    hide AllEdges, Joined, Names, Index, ParentGateways;
    KindsDiffer();
    ParentsAreProper();
    ParentOfRoute();
    IndexOfThree(INFRA, APP, ROUTE);
    JoinedIff(rels.All(), Index(OF_ONE_NAME), u, v);
    NamesWithin(rels, Index(OF_ONE_NAME), u, v);
  }

  lemma RouteNamesParent(rels: Relations)
    requires rels.Valid()
    ensures Joined(AllEdges(rels.All(), Index(OF_ONE_NAME)), ROUTE.id, INFRA.id)
    ensures GoesOn(ROUTE.id, {ROUTE.id}) && ROUTE.id != INFRA.id && ROUTE.id.GK() == HTTP_ROUTE_GK
  {
    hide AllEdges, Joined, Names, Index, ParentGateways;
    KindsDiffer();
    ParentsAreProper();
    ParentOfRoute();
    IndexOfThree(INFRA, APP, ROUTE);
    NamesIff(rels, Index(OF_ONE_NAME), ROUTE.id, INFRA.id);
    JoinedIff(rels.All(), Index(OF_ONE_NAME), ROUTE.id, INFRA.id);
  }

  /** Main result on parents: of two Gateways of one name, the route refers to the one in the given namespace, and the
      other one is not in its graph. */
  method ParentInNamespace() returns (graph: Graph, rels: Relations)
    ensures ROUTE.id in graph.nodes && APP.id !in graph.nodes
    ensures Targets(graph.nodes[ROUTE.id], rels.parentRef) == {INFRA.id}
  {
    hide B.Built, AllEdges, Joined, GoesOn, Index, Proper, ParentGateways;
    rels := new Relations();
    ParentsAreProper();
    assert OF_ONE_NAME[2] == ROUTE;
    ghost var removed;
    graph, removed := BuildFrom(rels, OF_ONE_NAME, ROUTE);
    RouteNamesParent(rels);
    ParentOfRoute();
    ghost var objects := Index(OF_ONE_NAME);
    ghost var edges := AllEdges(rels.All(), objects);
    NextToSource(graph, removed, objects, edges, {ROUTE.id}, ROUTE.id, INFRA.id);
    forall u, v | u in {ROUTE.id, INFRA.id} && GoesOn(u, {ROUTE.id}) && Joined(edges, u, v)
      ensures v in {ROUTE.id, INFRA.id}
    {
      StepsFromRoute(rels, u, v);
    }
    if APP.id in graph.nodes {
      GraphStays(graph, removed, objects, edges, {ROUTE.id}, {ROUTE.id, INFRA.id}, APP.id);
    }
    SourceInGraph(graph, removed, objects, edges, {ROUTE.id}, ROUTE.id);
    IndexOfThree(INFRA, APP, ROUTE);
    TargetsAreReferences(graph, removed, objects, rels.All(), {ROUTE.id}, ROUTE.id, rels.parentRef);
  }

  lemma SourceInGraph(graph: Graph, removed: map<GKNN, Node>, objects: map<GKNN, Resource>, edges: set<Edge>,
                      sources: set<GKNN>, s: GKNN)
    requires B.Built(graph, removed, objects, edges, sources) && s in sources
    ensures s in graph.nodes && graph.nodes[s].obj == objects[s]
  {
    hide B.HoldsEdges;
    assert IsTrail(edges, sources, [s]);
    assert TrailTo(edges, sources, 0, s);
    NodesByPaths(graph, removed, objects, edges, sources, s, 0);
  }
}

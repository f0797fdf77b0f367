/** Concrete clusters for which the graph is incomplete, keeps a neighbour that it has pruned, leads to a report
    that is false, or lacks what is above a route (pkg/topology/graph.go with
    pkg/extension/notfoundrefvalidator/notfoundrefvalidator.go). */
module GraphExamples {
  import opened Common
  import B = Builder
  import opened Cluster
  import opened ClusterAncestors
  import opened Completeness
  import opened Gateway
  import opened GatewayGraph
  import opened NotFoundRefValidator
  import opened Reach
  import opened Reports
  import opened Topology
  import Metadata

  // ---------------------------------------------------------------- below maxDepth

  const NO_SPEC := ResourceSpec("", [], [])

  function Service(namespace: string): Resource {
    Resource(GKNN(SERVICE_GK.group, SERVICE_GK.kind, namespace, "s"), NO_SPEC)
  }

  function HTTPRoute(namespace: string, refs: seq<BackendRef>): Resource {
    Resource(GKNN(HTTP_ROUTE_GK.group, HTTP_ROUTE_GK.kind, namespace, "r"), ResourceSpec("", [], [Rule(refs, [])]))
  }

  /** The Service "s" of a namespace. */
  function Backend(namespace: string): BackendRef {
    BackendRef(None, None, Some(namespace), "s")
  }

  /** A Service; a route that refers to it and to a second Service in another namespace; that namespace; and
      another route that refers to the second Service. */
  const S1 := Service("a")
  const S2 := Service("b")
  const R1 := HTTPRoute("a", [Backend("a"), Backend("b")])
  const R2 := HTTPRoute("c", [Backend("b")])
  const NS := Resource(GKNN(NAMESPACE_GK.group, NAMESPACE_GK.kind, "", "b"), NO_SPEC)

  function Known(gk: GroupKind): Result<seq<Resource>, string> {
    if gk == SERVICE_GK then Ok([S1, S2])
    else if gk == HTTP_ROUTE_GK then Ok([R1, R2])
    else if gk == NAMESPACE_GK then Ok([NS])
    else Ok([])
  }

  lemma KnownIsTyped()
    ensures TypedFetcher(Known)
  {
  }

  lemma OneSource(s: Resource)
    ensures SourceObjects([s]) == map[s.id := s] && Ids([s]) == {s.id} && Kinds([s]) == {s.id.GK()}
  {
    assert [s][..0] == [];
    assert Ids([s]) == {[s][0].id};
    assert Kinds([s]) == {[s][0].id.GK()};
  }

  lemma FirstOfTwo(a: Resource, b: Resource, k: GKNN)
    ensures First([a], k) == if a.id == k then Some(a) else None
    ensures First([a, b], k) == if a.id == k then Some(a) else if b.id == k then Some(b) else None
  {
    assert [a, b][1..] == [b] && [b][1..] == [] && [a][1..] == [];
    assert First([b], k) == if b.id == k then Some(b) else None;
  }

  lemma KnownObjects(k: GKNN)
    ensures Lookup([S1], Known, k) ==
      if k == S1.id then Some(S1) else if k == S2.id then Some(S2) else if k == R1.id then Some(R1)
      else if k == R2.id then Some(R2) else if k == NS.id then Some(NS) else None
  {
    hide First, SourceObjects;
    KindsDiffer();
    OneSource(S1);
    FirstOfTwo(S1, S2, k);
    FirstOfTwo(R1, R2, k);
    FirstOfTwo(NS, NS, k);
    assert First([], k) == None by { FirstOfOtherKind([], k); }
  }

  lemma KnownBackends(r: Resource, t: GKNN, refs: seq<BackendRef>)
    requires r.spec.rules == [Rule(refs, [])]
    ensures IsBackend(r, t) <==> exists ref :: ref in refs && t == BackendId(r, ref)
  {
    if ref :| ref in refs && t == BackendId(r, ref) { assert RuleRefersTo(r.spec.rules[0], ref); }
  }

  /** What refers to what. */
  lemma KnownReferences(rels: Relations, rel: Relation, u: GKNN, v: GKNN)
    requires rels.Valid() && rel in rels.All() && rel.from == u.GK()
    requires Lookup([S1], Known, u).Some? && Lookup([S1], Known, v).Some?
    requires v in rel.neighborFunc(Lookup([S1], Known, u).value)
    ensures (u == R1.id && v == S1.id) || (u == R1.id && v == S2.id) || (u == R2.id && v == S2.id)
      || (u == S2.id && v == NS.id)
  {
    hide Lookup, IsBackend;
    KindsDiffer();
    KnownObjects(u);
    KnownObjects(v);
    KnownBackends(R1, v, [Backend("a"), Backend("b")]);
    KnownBackends(R2, v, [Backend("b")]);
  }

  /** The kinds one step away from Services. */
  lemma KnownKinds(rels: Relations, kinds: seq<GroupKind>)
    requires rels.Valid() && SelectedKinds(kinds, [S1], rels.All(), 1)
    ensures SERVICE_GK in kinds && HTTP_ROUTE_GK in kinds && NAMESPACE_GK in kinds && |kinds| != 1
  {
    hide KindArcs, Kinds, Near;
    KindsDiffer();
    KindArcsOf(rels);
    OneSource(S1);
    var arcs, start := KindArcs(rels.All()), Kinds([S1]);
    OneStep(arcs, start, SERVICE_GK, HTTP_ROUTE_GK);
    OneStep(arcs, start, SERVICE_GK, NAMESPACE_GK);
    AtLeastTwo(kinds, SERVICE_GK, HTTP_ROUTE_GK);
  }

  lemma AtLeastTwo<T>(s: seq<T>, a: T, b: T)
    requires a in s && b in s && a != b
    ensures |s| > 1
  {
    var i :| 0 <= i < |s| && s[i] == a;
    var j :| 0 <= j < |s| && s[j] == b;
  }

  lemma OneStep(arcs: iset<(GroupKind, GroupKind)>, start: set<GroupKind>, a: GroupKind, b: GroupKind)
    requires a in start && (a, b) in arcs
    ensures Near(arcs, start, 1, a) && Near(arcs, start, 1, b)
  {
    assert Walk(arcs, start, 0, a) && Walk(arcs, start, 1, b);
  }

  lemma KnownReference(rels: Relations, rel: Relation, u: Resource, v: Resource)
    requires rels.Valid()
    ensures rel == rels.backendRef && u == R1 && (v == S1 || v == S2) ==> v.id in rel.neighborFunc(u)
    ensures rel == rels.backendRef && u == R2 && v == S2 ==> v.id in rel.neighborFunc(u)
    ensures rel == rels.backendNamespace && u == S2 && v == NS ==> v.id in rel.neighborFunc(u)
  {
    hide IsBackend;
    KnownBackends(R1, v.id, [Backend("a"), Backend("b")]);
    KnownBackends(R2, v.id, [Backend("b")]);
    assert Backend("a") in [Backend("a"), Backend("b")] && Backend("b") in [Backend("a"), Backend("b")]
      && Backend("b") in [Backend("b")];
  }

  /** The five objects and what they refer to, in the part of the cluster that is fetched. */
  lemma KnownArcs(rels: Relations, kinds: seq<GroupKind>)
    requires rels.Valid() && SelectedKinds(kinds, [S1], rels.All(), 1)
    requires B.World([S1], Known, kinds).Ok?
    ensures var objects := B.World([S1], Known, kinds).value;
      var edges := B.WorldEdges(rels.All(), kinds, objects);
      var arcs := NodeArcs(edges, {S1.id});
      && NS.id in objects && R2.id in objects && S2.id in objects && Edge(R2.id, rels.backendRef, S2.id) in edges
      && (S1.id, R1.id) in arcs && (R1.id, S2.id) in arcs
      && (forall v :: (S1.id, v) in arcs ==> v == R1.id)
      && (forall v :: (R1.id, v) in arcs ==> v == S1.id || v == S2.id)
  {
    hide Lookup, SelectedKinds, AllEdges, AddMissing, IsBackend;
    KnownKinds(rels, kinds);
    KnownIsTyped();
    var objects := B.World([S1], Known, kinds).value;
    var edges := B.WorldEdges(rels.All(), kinds, objects);
    forall k ensures k in objects <==> k in {S1.id, S2.id, R1.id, R2.id, NS.id}
      ensures k in objects ==> Lookup([S1], Known, k) == Some(objects[k])
    {
      KnownObjects(k);
      OneSource(S1);
      FetchedIsLookup([S1], Known, kinds, k);
    }
    forall e | e in edges
      ensures (e.src, e.dst) in {(R1.id, S1.id), (R1.id, S2.id), (R2.id, S2.id), (S2.id, NS.id)}
    {
      AllEdgesAreEdges(rels.All(), objects, e);
      KnownReferences(rels, e.rel, e.src, e.dst);
    }
    KnownObjects(S1.id);
    KnownObjects(S2.id);
    KnownObjects(R1.id);
    KnownObjects(R2.id);
    KnownReference(rels, rels.backendRef, R1, S1);
    KnownReference(rels, rels.backendRef, R1, S2);
    KnownReference(rels, rels.backendRef, R2, S2);
    KindsDiffer();
    AllEdgesAreEdges(rels.All(), objects, Edge(R1.id, rels.backendRef, S1.id));
    AllEdgesAreEdges(rels.All(), objects, Edge(R1.id, rels.backendRef, S2.id));
    AllEdgesAreEdges(rels.All(), objects, Edge(R2.id, rels.backendRef, S2.id));
  }

  /** Two steps lead back or to the second Service. */
  lemma TwoSteps(arcs: iset<(GKNN, GKNN)>, s1: GKNN, r: GKNN, s2: GKNN, v: GKNN)
    requires (s1, r) in arcs && (r, s2) in arcs && s1 != s2 && r != s2 && r != s1
    requires (forall v :: (s1, v) in arcs ==> v == r) && forall v :: (r, v) in arcs ==> v == s1 || v == s2
    ensures Dist(arcs, {s1}, 2, s2) && (Near(arcs, {s1}, 2, v) ==> v == s1 || v == r || v == s2)
  {
    forall v ensures Walk(arcs, {s1}, 1, v) <==> v == r {
      assert Walk(arcs, {s1}, 0, s1);
    }
    forall v ensures Walk(arcs, {s1}, 2, v) ==> v == s1 || v == s2 {
      if Walk(arcs, {s1}, 2, v) { var u :| Walk(arcs, {s1}, 1, u) && (u, v) in arcs; }
    }
    assert Walk(arcs, {s1}, 1, r) && Walk(arcs, {s1}, 2, s2);
  }

  /** Main result below `maxDepth`: with a depth of 1 the second Service is in the graph, at depth 2, without its
      Namespace, so what is reported of it is false; and it still has the pruned route as a neighbour. */
  lemma FalseReportBelowMaxDepth(rels: Relations, graph: Graph, removed: map<GKNN, Node>, kinds: seq<GroupKind>)
    requires rels.Valid() && BuiltFrom(graph, removed, [S1], Known, rels.All(), kinds) && graph.maxDepth == 1
    ensures S2.id in graph.nodes && graph.nodes[S2.id].depth == 2 && graph.nodes[S2.id].obj == S2
    ensures NS.id in Refs(rels.All(), S2) && Lookup([S1], Known, NS.id) == Some(NS) && NS.id !in graph.nodes
    ensures Missing(S2.id, Refs(rels.All(), S2), graph.nodes.Keys) != Absent([S1], Known, rels.All(), S2)
    ensures (rels.backendRef, R2.id) in graph.nodes[S2.id].inNeighbors && R2.id !in graph.nodes
  {
    hide Lookup, SelectedKinds, B.WorldEdges, B.World, B.HoldsObjects, B.HoldsEdges, NodeArcs, Refs, Near, Dist;
    var objects := B.World([S1], Known, kinds).value;
    var edges := B.WorldEdges(rels.All(), kinds, objects);
    var arcs := NodeArcs(edges, {S1.id});
    OneSource(S1);
    KnownArcs(rels, kinds);
    KindsDiffer();
    TwoSteps(arcs, S1.id, R1.id, S2.id, NS.id);
    TwoSteps(arcs, S1.id, R1.id, S2.id, R2.id);
    NearOfDist(arcs, {S1.id}, 2, S2.id);
    DistUnique(arcs, {S1.id}, 2, graph.nodes[S2.id].depth, S2.id);
    KnownIsTyped();
    ObjectInCluster(graph, removed, [S1], Known, rels.All(), kinds, S2.id);
    KnownObjects(S2.id);
    KnownObjects(NS.id);
    RefsMembers(rels.All(), S2, NS.id);
    assert rels.All()[5] == rels.backendNamespace;
    KnownReference(rels, rels.backendNamespace, S2, NS);
    MissingNamespace(rels, graph.nodes.Keys);
    StaleExactly(graph, removed, objects, edges, {S1.id}, S2.id, rels.backendRef, R2.id);
  }

  lemma NearOfDist(arcs: iset<(GKNN, GKNN)>, sources: set<GKNN>, n: nat, v: GKNN)
    requires Dist(arcs, sources, n, v)
    ensures Near(arcs, sources, n, v)
  {
  }

  lemma MissingNamespace(rels: Relations, present: set<GKNN>)
    requires NS.id in Refs(rels.All(), S2) && Lookup([S1], Known, NS.id) == Some(NS) && NS.id !in present
    ensures Missing(S2.id, Refs(rels.All(), S2), present) != Absent([S1], Known, rels.All(), S2)
  {
    hide Lookup, Refs;
    assert ReferenceToNonExistentResource(S2.id, NS.id) in Missing(S2.id, Refs(rels.All(), S2), present);
  }

  lemma {:induction false} KnownNeverFails(kinds: seq<GroupKind>)
    ensures FetchAll(Known, kinds).Ok?
  {
    if kinds != [] { KnownNeverFails(kinds[..|kinds| - 1]); }
  }

  method BuildKnown(rels: Relations) returns (graph: Graph, ghost removed: map<GKNN, Node>, ghost kinds: seq<GroupKind>)
    requires rels.Valid()
    ensures BuiltFrom(graph, removed, [S1], Known, rels.All(), kinds) && graph.maxDepth == 1
    ensures graph.relations == rels.All()
    ensures fresh(graph) && fresh(graph.nodes.Values)
  {
    hide FetchAll, Near, Kinds, KindArcs, B.Built, B.WorldEdges, Known;
    var builder := new B.Builder(Known);
    builder.StartFrom([S1]);
    builder.UseRelationships(rels.All());
    assert builder.relations == rels.All();
    builder.WithMaxDepth(1);
    var r, selected, pruned := builder.Build();
    KnownNeverFails(selected);
    graph, kinds, removed := r.value, selected, pruned;
  }

  /** The same, built and validated. */
  method ReportBelowMaxDepth() returns (graph: Graph)
    ensures S2.id in graph.nodes && NS.id !in graph.nodes && Lookup([S1], Known, NS.id) == Some(NS)
    ensures Access(graph.nodes[S2.id]).Ok? && Access(graph.nodes[S2.id]).value.Some?
    ensures ReferenceToNonExistentResource(S2.id, NS.id) in Access(graph.nodes[S2.id]).value.value
  {
    hide Lookup, BuiltFrom, Refs, Records, Known, Missing;
    var rels := new Relations();
    ghost var removed, kinds;
    graph, removed, kinds := BuildKnown(rels);
    FalseReportBelowMaxDepth(rels, graph, removed, kinds);
    BuiltIsKeyed(graph, removed, [S1], Known, rels.All(), kinds);
    ghost var before := AllMetadata(graph.nodes);
    var validated := Execute(graph);
    MissingIsRecorded(graph, before, S2.id, NS.id);
  }

  lemma BuiltIsKeyed(graph: Graph, removed: map<GKNN, Node>, sources: seq<Resource>, fetch: Fetcher,
                     relations: seq<Relation>, kinds: seq<GroupKind>)
    requires BuiltFrom(graph, removed, sources, fetch, relations, kinds)
    ensures Keyed(graph.nodes)
  {
    hide SelectedKinds, B.HoldsEdges, B.HoldsNearest;
  }

  lemma MissingIsRecorded(graph: Graph, before: map<GKNN, Metadata.NodeMetadata>, k: GKNN, t: GKNN)
    requires graph.nodes.Keys == before.Keys && AllRecord(graph.nodes, before, Due(graph.nodes, graph.relations))
    requires k in graph.nodes && t in Refs(graph.relations, graph.nodes[k].obj) && t !in graph.nodes
    ensures Access(graph.nodes[k]).Ok? && Access(graph.nodes[k]).value.Some?
    ensures ReferenceToNonExistentResource(k, t) in Access(graph.nodes[k]).value.value
  {
    hide Refs;
    var errors := Due(graph.nodes, graph.relations)[k];
    assert ReferenceToNonExistentResource(k, t) in errors;
    assert Records(before[k], graph.nodes[k].metadata, errors);
  }

  // ---------------------------------------------------------------- above a route at maxDepth

  /** A second route that is attached to a Gateway as well, the Gateway and its GatewayClass. With the first route
      and the two Services they are a chain. */
  const R3 := Resource(GKNN(HTTP_ROUTE_GK.group, HTTP_ROUTE_GK.kind, "c", "r"),
                       ResourceSpec("", [ParentRef(None, "g")], [Rule([Backend("b")], [])]))
  const GATEWAY := Resource(GKNN(GATEWAY_GK.group, GATEWAY_GK.kind, "c", "g"), ResourceSpec("x", [], []))
  const CLASS := Resource(GKNN(GATEWAY_CLASS_GK.group, GATEWAY_CLASS_GK.kind, "", "x"), NO_SPEC)

  function Chain(gk: GroupKind): Result<seq<Resource>, string> {
    if gk == SERVICE_GK then Ok([S1, S2])
    else if gk == HTTP_ROUTE_GK then Ok([R1, R3])
    else if gk == GATEWAY_GK then Ok([GATEWAY])
    else if gk == GATEWAY_CLASS_GK then Ok([CLASS])
    else Ok([])
  }

  /** The place of an object in the chain. */
  function Place(k: GKNN): nat {
    if k == S1.id then 0 else if k == R1.id then 1 else if k == S2.id then 2 else if k == R3.id then 3
    else if k == GATEWAY.id then 4 else 5
  }

  lemma ChainIsTyped()
    ensures TypedFetcher(Chain)
  {
  }

  lemma ChainObjects(k: GKNN)
    ensures Lookup([S1], Chain, k) ==
      if k == S1.id then Some(S1) else if k == S2.id then Some(S2) else if k == R1.id then Some(R1)
      else if k == R3.id then Some(R3) else if k == GATEWAY.id then Some(GATEWAY)
      else if k == CLASS.id then Some(CLASS) else None
  {
    hide First, SourceObjects;
    KindsDiffer();
    OneSource(S1);
    FirstOfTwo(S1, S2, k);
    FirstOfTwo(R1, R3, k);
    FirstOfTwo(GATEWAY, GATEWAY, k);
    FirstOfTwo(CLASS, CLASS, k);
    assert First([], k) == None by { FirstOfOtherKind([], k); }
  }

  /** References lead one place up or down. */
  lemma ChainReferences(rels: Relations, rel: Relation, u: GKNN, v: GKNN)
    requires rels.Valid() && rel in rels.All() && rel.from == u.GK()
    requires Lookup([S1], Chain, u).Some? && Lookup([S1], Chain, v).Some?
    requires v in rel.neighborFunc(Lookup([S1], Chain, u).value)
    ensures Place(u) <= Place(v) + 1 && Place(v) <= Place(u) + 1
  {
    hide Lookup, IsBackend;
    KindsDiffer();
    ChainObjects(u);
    ChainObjects(v);
    KnownBackends(R1, v, [Backend("a"), Backend("b")]);
    KnownBackends(R3, v, [Backend("b")]);
  }

  lemma {:induction false} PlacesInSteps(arcs: iset<(GKNN, GKNN)>, sources: set<GKNN>, n: nat, v: GKNN)
    requires Walk(arcs, sources, n, v) && sources == {S1.id}
    requires forall a :: a in arcs ==> Place(a.1) <= Place(a.0) + 1
    ensures Place(v) <= n
  {
    hide Place;
    if n > 0 {
      var u :| Walk(arcs, sources, n - 1, u) && (u, v) in arcs;
      PlacesInSteps(arcs, sources, n - 1, u);
    } else {
      FirstPlace();
    }
  }

  lemma FirstPlace()
    ensures Place(S1.id) == 0
  {
  }

  /** Nothing is nearer than its place. */
  lemma ChainIsFar(rels: Relations, kinds: seq<GroupKind>, n: int, v: GKNN)
    requires rels.Valid() && B.World([S1], Chain, kinds).Ok? && |kinds| != 1
    requires Found([S1], Chain, rels.All(), kinds, n, v)
    ensures Place(v) <= n
  {
    hide Lookup, AllEdges, AddMissing, Place;
    OneSource(S1);
    ChainIsTyped();
    var objects := B.World([S1], Chain, kinds).value;
    var edges := B.WorldEdges(rels.All(), kinds, objects);
    forall e | e in edges ensures Place(e.src) <= Place(e.dst) + 1 && Place(e.dst) <= Place(e.src) + 1 {
      AllEdgesAreEdges(rels.All(), objects, e);
      FetchedIsLookup([S1], Chain, kinds, e.src);
      FetchedIsLookup([S1], Chain, kinds, e.dst);
      ChainReferences(rels, e.rel, e.src, e.dst);
    }
    var m: nat :| m <= n && Walk(NodeArcs(edges, {S1.id}), {S1.id}, m, v);
    PlacesInSteps(NodeArcs(edges, {S1.id}), {S1.id}, m, v);
  }

  lemma ChainFound(rels: Relations, kinds: seq<GroupKind>)
    requires rels.Valid() && B.World([S1], Chain, kinds).Ok? && FiveKinds(kinds)
    ensures Found([S1], Chain, rels.All(), kinds, 3, R3.id)
  {
    hide Lookup, Found, IsBackend, RefersBy, MayExpand, B.World, FiveKinds, TypedFetcher;
    KindsDiffer();
    ChainIsTyped();
    MoreThanOne(kinds);
    FiveAreFetched(kinds);
    KindsOfRefs(S1);
    ChainObjects(S1.id);
    ChainObjects(R1.id);
    ChainObjects(S2.id);
    ChainObjects(R3.id);
    KnownBackends(R1, S1.id, [Backend("a"), Backend("b")]);
    KnownBackends(R1, S2.id, [Backend("a"), Backend("b")]);
    KnownBackends(R3, S2.id, [Backend("b")]);
    assert Backend("a") in [Backend("a"), Backend("b")] && Backend("b") in [Backend("a"), Backend("b")];
    assert Backend("b") in [Backend("b")];
    RefersAt(rels, [S1], Chain, 2, R1.id, S1.id);
    RefersAt(rels, [S1], Chain, 2, R1.id, S2.id);
    RefersAt(rels, [S1], Chain, 2, R3.id, S2.id);
    SourceFound(S1, Chain, rels.All(), kinds);
    OneStepFurther([S1], Chain, rels.All(), kinds, 0, S1.id, R1.id, 2);
    OneStepFurther([S1], Chain, rels.All(), kinds, 1, R1.id, S2.id, 2);
    OneStepFurther([S1], Chain, rels.All(), kinds, 2, S2.id, R3.id, 2);
  }

  lemma FiveAreFetched(kinds: seq<GroupKind>)
    requires FiveKinds(kinds)
    ensures SERVICE_GK in kinds && HTTP_ROUTE_GK in kinds && GATEWAY_GK in kinds && GATEWAY_CLASS_GK in kinds
  {
  }

  lemma SourceFound(s: Resource, fetch: Fetcher, relations: seq<Relation>, kinds: seq<GroupKind>)
    requires TypedFetcher(fetch) && B.World([s], fetch, kinds).Ok? && |kinds| != 1
    ensures Found([s], fetch, relations, kinds, 0, s.id)
  {
    hide AddMissing, AllEdges, NodeArcs;
    OneSource(s);
    FetchedIsLookup([s], fetch, kinds, s.id);
    var edges := B.WorldEdges(relations, kinds, B.World([s], fetch, kinds).value);
    assert Walk(NodeArcs(edges, {s.id}), {s.id}, 0, s.id);
  }

  /** Main result at `maxDepth`: with the default depth, a route at just that depth has no GatewayClass above it in
      the graph, while the cluster has one. */
  lemma GatewayClassPruned(rels: Relations, graph: Graph, removed: map<GKNN, Node>, kinds: seq<GroupKind>)
    requires rels.Valid() && BuiltFrom(graph, removed, [S1], Chain, rels.All(), kinds)
    requires graph.maxDepth == B.DEFAULT_GRAPH_MAX_DEPTH
    ensures R3.id in graph.nodes && graph.nodes[R3.id].depth == graph.maxDepth
    ensures AboveThere([S1], Chain, R3.id, CLASS.id) && !Above(Objects(graph.nodes), R3.id, CLASS.id)
  {
    hide Lookup, SelectedKinds, B.WorldEdges, B.World, B.HoldsObjects, B.HoldsEdges, NodeArcs, Near, Place, Above,
      AboveThere, Found, Dist;
    ChainIsTyped();
    OneSource(S1);
    ChainKinds(rels, kinds);
    MoreThanOne(kinds);
    ChainFound(rels, kinds);
    FoundAt(graph, removed, rels, kinds);
    ChainClass();
    AboveIsPresent(Objects(graph.nodes), R3.id, CLASS.id);
  }

  lemma ChainKinds(rels: Relations, kinds: seq<GroupKind>)
    requires rels.Valid() && SelectedKinds(kinds, [S1], rels.All(), B.DEFAULT_GRAPH_MAX_DEPTH)
    ensures FiveKinds(kinds)
  {
    hide SelectedKinds;
    assert [S1][0].id.GK() in GATEWAY_KINDS;
    forall gk | gk in GATEWAY_KINDS ensures gk in kinds {
      DefaultDepthIsEnough(rels, [S1], kinds, B.DEFAULT_GRAPH_MAX_DEPTH, gk);
    }
  }

  lemma Places()
    ensures Place(R3.id) == 3 && Place(CLASS.id) == 5
  {
    KindsDiffer();
  }

  lemma ChainClass()
    ensures AboveThere([S1], Chain, R3.id, CLASS.id)
  {
    hide Lookup, IsBackend;
    KindsDiffer();
    ChainObjects(R3.id);
    ChainObjects(GATEWAY.id);
    ChainObjects(CLASS.id);
    assert ParentGateways(R3) == [GATEWAY.id];
    assert AboveGatewayThere([S1], Chain, GATEWAY.id, CLASS.id);
  }

  lemma FoundAt(graph: Graph, removed: map<GKNN, Node>, rels: Relations, kinds: seq<GroupKind>)
    requires rels.Valid() && BuiltFrom(graph, removed, [S1], Chain, rels.All(), kinds) && FiveKinds(kinds)
    requires graph.maxDepth == B.DEFAULT_GRAPH_MAX_DEPTH && Found([S1], Chain, rels.All(), kinds, 3, R3.id)
    ensures R3.id in graph.nodes && graph.nodes[R3.id].depth == 3 && CLASS.id !in graph.nodes
  {
    hide Lookup, SelectedKinds, B.WorldEdges, B.World, B.HoldsObjects, B.HoldsEdges, NodeArcs, Place, FiveKinds, Ids;
    MoreThanOne(kinds);
    Places();
    FoundMore([S1], Chain, rels.All(), kinds, 3, 4, R3.id);
    if CLASS.id in graph.nodes { ChainIsFar(rels, kinds, 4, CLASS.id); }
    var d := graph.nodes[R3.id].depth;
    assert Found([S1], Chain, rels.All(), kinds, d, R3.id);
    ChainIsFar(rels, kinds, d, R3.id);
  }

  // ---------------------------------------------------------------- the early return

  const WIDGET := GroupKind("example.com", "Widget")

  function Widget(name: string): Resource {
    Resource(GKNN(WIDGET.group, WIDGET.kind, "", name), NO_SPEC)
  }

  const W1 := Widget("w1")
  const W2 := Widget("w2")

  function Widgets(gk: GroupKind): Result<seq<Resource>, string> {
    if gk == WIDGET then Ok([W1, W2]) else Ok([])
  }

  lemma AnotherOne<T(!new)>(s: seq<T>, x: T)
    requires Distinct(s)
    ensures |s| > 1 ==> exists y :: y in s && y != x
  {
    if |s| > 1 { assert s[0] in s && s[1] in s && s[0] != s[1]; }
  }

  lemma OnlyWidgets(peer: Relation, kinds: seq<GroupKind>, maxDepth: int)
    requires peer.from == peer.to == WIDGET && SelectedKinds(kinds, [W1], [peer], maxDepth) && Distinct(kinds)
    ensures |kinds| == 1
  {
    OneSource(W1);
    var arcs, start := KindArcs([peer]), Kinds([W1]);
    forall a | a in arcs ensures a == (WIDGET, WIDGET) {}
    assert Walk(arcs, start, 0, WIDGET);
    assert WIDGET in kinds;
    forall gk | gk in kinds ensures gk == WIDGET {
      var n: nat :| n <= AtLeastZero(maxDepth) && Walk(arcs, start, n, gk);
    }
    AnotherOne(kinds, WIDGET);
  }

  /** Main result for a single kind: from an object that refers to another one of its own kind, nothing is
      fetched, so the graph is not complete, whatever depth it was built with. */
  lemma IncompleteForSelfRelation(peer: Relation, graph: Graph, removed: map<GKNN, Node>, kinds: seq<GroupKind>)
    requires peer.from == peer.to == WIDGET && W2.id in peer.neighborFunc(W1)
    requires BuiltFrom(graph, removed, [W1], Widgets, [peer], kinds) && graph.maxDepth >= 1
    ensures !Complete(graph, ClusterArcs([W1], Widgets, [peer]), Ids([W1]))
  {
    hide SelectedKinds, Complete, B.Built, SourceObjects, First;
    OnlyWidgets(peer, kinds, graph.maxDepth);
    SingleKindIsComplete(graph, removed, [W1], Widgets, [peer], kinds);
    OneSource(W1);
    FirstOfTwo(W1, W2, W1.id);
    FirstOfTwo(W1, W2, W2.id);
    assert W1.id != W2.id by { assert "w1"[1] != "w2"[1]; }
    assert RefersBy([W1], Widgets, [peer], 0, W1.id, W2.id);
    ReferenceIsArc([W1], Widgets, [peer], W1.id, W2.id);
  }

  lemma ReferenceIsArc(sources: seq<Resource>, fetch: Fetcher, relations: seq<Relation>, u: GKNN, v: GKNN)
    requires Refers(sources, fetch, relations, u, v) && MayExpand(u, Ids(sources))
    ensures (u, v) in ClusterArcs(sources, fetch, relations)
  {
    hide RefersBy, MayExpand;
  }
}

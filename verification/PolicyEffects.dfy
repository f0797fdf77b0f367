/** What the recorded policies mean: where they come from, and which of their values win
    (pkg/extension/gatewayeffectivepolicy/gatewayeffectivepolicy.go, on top of pkg/topology/gateway/gateway.go). */
module PolicyEffects {
  import opened Common
  import opened Cluster
  import opened Builder
  import opened DirectlyAttachedPolicy
  import opened EffectivePasses
  import opened EffectivePolicies
  import opened Gateway
  import opened GatewayNodes
  import opened Hierarchy
  import opened InheritedPolicies
  import opened Json
  import opened LevelHierarchy
  import opened Merger
  import opened Metadata
  import opened PolicyLevels
  import opened Sorting
  import opened Topology
  import P = Policy
  import SimilarKind

  // ---------------------------------------------------------------- inheritance, read off the objects

  /** In a graph of connected objects, the neighbours of a node through a relation are the nodes that it
      refers to. */
  lemma TargetsAreReferences(graph: Graph, removed: map<GKNN, Node>, objects: map<GKNN, Resource>,
                             relations: seq<Relation>, sources: set<GKNN>, k: GKNN, relation: Relation)
    requires Built(graph, removed, objects, AllEdges(relations, objects), sources)
    requires k in graph.nodes && relation in relations && relation.from == k.GK()
    ensures Targets(graph.nodes[k], relation) ==
      set t | t in relation.neighborFunc(graph.nodes[k].obj) && t in graph.nodes
  {
    hide HoldsNearest, AllEdges;
    var nodes := graph.nodes;
    forall t ensures t in Targets(nodes[k], relation) <==> t in relation.neighborFunc(nodes[k].obj) && t in nodes {
      AllEdgesAreEdges(relations, objects, Edge(k, relation, t));
      assert t in Targets(nodes[k], relation) <==> (relation, t) in nodes[k].outNeighbors;
    }
  }

  /** What refers to a node and is in the graph. */
  lemma ReferrersAreReferring(graph: Graph, removed: map<GKNN, Node>, objects: map<GKNN, Resource>,
                              relations: seq<Relation>, sources: set<GKNN>, k: GKNN, relation: Relation)
    requires Built(graph, removed, objects, AllEdges(relations, objects), sources)
    requires k in graph.nodes && relation in relations
    ensures Referrers(graph.nodes, graph.nodes[k], relation) ==
      set r | r in graph.nodes && r.GK() == relation.from && k in relation.neighborFunc(graph.nodes[r].obj)
  {
    hide HoldsNearest, AllEdges;
    var nodes := graph.nodes;
    forall r | r in nodes
      ensures r in Referrers(nodes, nodes[k], relation)
        <==> r.GK() == relation.from && k in relation.neighborFunc(nodes[r].obj)
    {
      AllEdgesAreEdges(relations, objects, Edge(r, relation, k));
      assert r in Referrers(nodes, nodes[k], relation) <==> (relation, r) in nodes[k].inNeighbors;
    }
  }

  /** The Namespace, the GatewayClass, and what else of the graph a Gateway depends on. */
  predicate AboveGateway(nodes: map<GKNN, Resource>, g: GKNN, t: GKNN) {
    g in nodes && g.GK() == GATEWAY_GK && t in nodes && (t == NamespaceRef(nodes[g]) || t == GatewayClassRef(nodes[g]))
  }

  ghost predicate AboveRoute(nodes: map<GKNN, Resource>, r: GKNN, t: GKNN) {
    && r in nodes && r.GK() == HTTP_ROUTE_GK && t in nodes
    && (t == NamespaceRef(nodes[r]) || t in ParentGateways(nodes[r])
        || exists g :: g in ParentGateways(nodes[r]) && AboveGateway(nodes, g, t))
  }

  ghost predicate AboveBackend(nodes: map<GKNN, Resource>, b: GKNN, t: GKNN) {
    && b in nodes && b.GK() == SERVICE_GK && t in nodes
    && (t == NamespaceRef(nodes[b]) || Routes(nodes, t, b)
        || exists r :: Routes(nodes, r, b) && AboveRoute(nodes, r, t))
  }

  /** The HTTPRoute `r` refers to `b`. */
  ghost predicate Routes(nodes: map<GKNN, Resource>, r: GKNN, b: GKNN) {
    r in nodes && r.GK() == HTTP_ROUTE_GK && IsBackend(nodes[r], b)
  }

  /** The ancestors that the passes compute are those that the objects of the graph refer to. */
  lemma AncestorsAreAbove(graph: Graph, removed: map<GKNN, Node>, objects: map<GKNN, Resource>, rels: Relations,
                          sources: set<GKNN>, k: GKNN, t: GKNN)
    requires rels.Valid() && Built(graph, removed, objects, AllEdges(rels.All(), objects), sources) && k in graph.nodes
    ensures k.GK() == GATEWAY_GK ==>
      (t in GatewayAncestors(graph.nodes, rels)[k] <==> AboveGateway(Objects(graph.nodes), k, t))
    ensures k.GK() == HTTP_ROUTE_GK ==>
      (t in RouteAncestors(graph.nodes, rels)[k] <==> AboveRoute(Objects(graph.nodes), k, t))
    ensures k.GK() == SERVICE_GK ==>
      (t in BackendAncestors(graph.nodes, rels)[k] <==> AboveBackend(Objects(graph.nodes), k, t))
  {
    hide Built, AllEdges, Targets, Referrers;
    if k.GK() == GATEWAY_GK { AboveGatewayIff(graph, removed, objects, rels, sources, k, t); }
    if k.GK() == HTTP_ROUTE_GK { AboveRouteIff(graph, removed, objects, rels, sources, k, t); }
    if k.GK() == SERVICE_GK { AboveBackendIff(graph, removed, objects, rels, sources, k, t); }
  }

  lemma AboveGatewayIff(graph: Graph, removed: map<GKNN, Node>, objects: map<GKNN, Resource>, rels: Relations,
                        sources: set<GKNN>, k: GKNN, t: GKNN)
    requires rels.Valid() && Built(graph, removed, objects, AllEdges(rels.All(), objects), sources)
    requires k in graph.nodes && k.GK() == GATEWAY_GK
    ensures t in GatewayAncestors(graph.nodes, rels)[k] <==> AboveGateway(Objects(graph.nodes), k, t)
  {
    hide Built, AllEdges, Targets;
    TargetsAreReferences(graph, removed, objects, rels.All(), sources, k, rels.gatewayNamespace);
    TargetsAreReferences(graph, removed, objects, rels.All(), sources, k, rels.gatewayClass);
  }

  lemma AboveRouteIff(graph: Graph, removed: map<GKNN, Node>, objects: map<GKNN, Resource>, rels: Relations,
                      sources: set<GKNN>, k: GKNN, t: GKNN)
    requires rels.Valid() && Built(graph, removed, objects, AllEdges(rels.All(), objects), sources)
    requires k in graph.nodes && k.GK() == HTTP_ROUTE_GK
    ensures t in RouteAncestors(graph.nodes, rels)[k] <==> AboveRoute(Objects(graph.nodes), k, t)
  {
    hide Built, AllEdges, Targets, GatewayAncestors, AboveGateway;
    AncestorKeys(graph.nodes, rels);
    TargetsAreReferences(graph, removed, objects, rels.All(), sources, k, rels.httpRouteNamespace);
    TargetsAreReferences(graph, removed, objects, rels.All(), sources, k, rels.parentRef);
    forall g | g in graph.nodes && g.GK() == GATEWAY_GK
      ensures t in GatewayAncestors(graph.nodes, rels)[g] <==> AboveGateway(Objects(graph.nodes), g, t)
    {
      AboveGatewayIff(graph, removed, objects, rels, sources, g, t);
    }
    forall g ensures AboveGateway(Objects(graph.nodes), g, t) ==> g in graph.nodes && t in graph.nodes {
      AboveIsInGraph(Objects(graph.nodes), g, t);
    }
  }

  lemma AboveIsInGraph(nodes: map<GKNN, Resource>, g: GKNN, t: GKNN)
    ensures AboveGateway(nodes, g, t) ==> g in nodes && t in nodes
    ensures AboveRoute(nodes, g, t) ==> g in nodes && t in nodes
  {
  }

  lemma AncestorKeys(nodes: map<GKNN, Node>, rels: Relations)
    ensures GatewayAncestors(nodes, rels).Keys == set k | k in nodes && k.GK() == GATEWAY_GK
    ensures RouteAncestors(nodes, rels).Keys == set k | k in nodes && k.GK() == HTTP_ROUTE_GK
  {
    hide Targets, WithAncestors;
  }

  lemma AboveBackendIff(graph: Graph, removed: map<GKNN, Node>, objects: map<GKNN, Resource>, rels: Relations,
                        sources: set<GKNN>, k: GKNN, t: GKNN)
    requires rels.Valid() && Built(graph, removed, objects, AllEdges(rels.All(), objects), sources)
    requires k in graph.nodes && k.GK() == SERVICE_GK
    ensures t in BackendAncestors(graph.nodes, rels)[k] <==> AboveBackend(Objects(graph.nodes), k, t)
  {
    hide Built, AllEdges, Targets, Referrers, RouteAncestors, AboveRoute;
    AncestorKeys(graph.nodes, rels);
    TargetsAreReferences(graph, removed, objects, rels.All(), sources, k, rels.backendNamespace);
    ReferrersAreReferring(graph, removed, objects, rels.All(), sources, k, rels.backendRef);
    forall r | r in graph.nodes && r.GK() == HTTP_ROUTE_GK
      ensures t in RouteAncestors(graph.nodes, rels)[r] <==> AboveRoute(Objects(graph.nodes), r, t)
    {
      AboveRouteIff(graph, removed, objects, rels, sources, r, t);
    }
    forall r ensures AboveRoute(Objects(graph.nodes), r, t) ==> r in graph.nodes && t in graph.nodes {
      AboveIsInGraph(Objects(graph.nodes), r, t);
    }
  }

  /** The identities of what a Gateway refers to. */
  predicate IsOfGateway(r: Resource, t: GKNN) {
    || t == GKNN("gateway.networking.k8s.io", "GatewayClass", "", r.spec.gatewayClassName)
    || t == GKNN("", "Namespace", "", r.id.namespace)
  }

  /** The Gateway of a parentRef of a route. */
  predicate IsParent(r: Resource, g: GKNN) {
    exists i :: 0 <= i < |r.spec.parentRefs| && ParentAt(r, i, g)
  }

  predicate ParentAt(r: Resource, i: nat, g: GKNN)
    requires i < |r.spec.parentRefs|
  {
    && g.group == "gateway.networking.k8s.io" && g.kind == "Gateway" && g.name == r.spec.parentRefs[i].name
    && g.namespace ==
       match r.spec.parentRefs[i].namespace
       case Some(given) => given
       case None => if r.id.namespace != "" then r.id.namespace else "default"
  }

  /** Main result on what is above an object, field by field. */
  lemma AboveFields(nodes: map<GKNN, Resource>, k: GKNN, t: GKNN)
    requires k in nodes && nodes[k].id == k && t in nodes && forall g :: g in nodes ==> nodes[g].id == g
    ensures AboveGateway(nodes, k, t) <==>
      k.group == "gateway.networking.k8s.io" && k.kind == "Gateway" && IsOfGateway(nodes[k], t)
    ensures AboveRoute(nodes, k, t) <==>
      && k.group == "gateway.networking.k8s.io" && k.kind == "HTTPRoute"
      && (t == GKNN("", "Namespace", "", k.namespace) || IsParent(nodes[k], t)
          || exists g :: g in nodes && IsParent(nodes[k], g) && IsOfGateway(nodes[g], t))
    ensures AboveBackend(nodes, k, t) <==>
      && k.group == "" && k.kind == "Service"
      && (t == GKNN("", "Namespace", "", k.namespace) || Routes(nodes, t, k)
          || exists r :: Routes(nodes, r, k) && AboveRoute(nodes, r, t))
  {
    hide IsBackend;
    ParentsAre(nodes[k]);
    if AboveRoute(nodes, k, t) {
      if g :| g in ParentGateways(nodes[k]) && AboveGateway(nodes, g, t) { assert IsOfGateway(nodes[g], t); }
    }
  }

  lemma ParentsAre(r: Resource)
    ensures forall g :: g in ParentGateways(r) <==> IsParent(r, g)
  {
    forall g ensures g in ParentGateways(r) <==> IsParent(r, g) {
      forall i: nat | i < |r.spec.parentRefs| ensures ParentAt(r, i, g) <==> ParentGateways(r)[i] == g {}
      if i: nat :| i < |r.spec.parentRefs| && ParentAt(r, i, g) { assert ParentGateways(r)[i] == g; }
      if g in ParentGateways(r) { var i: nat :| i < |ParentGateways(r)| && ParentGateways(r)[i] == g; }
    }
  }

  lemma InheritedFromIff(policies: Policies, ancestors: set<GKNN>, g: GKNN)
    ensures g in InheritedFrom(policies, ancestors)
      <==> g in policies && policies[g].inheritable && exists t :: t in policies[g].targetRefs && t in ancestors
  {
  }

  lemma DuesAt(nodes: map<GKNN, Node>, rels: Relations, policies: Policies, k: GKNN)
    requires k in nodes
    ensures k.GK() == GATEWAY_GK ==>
      && k in GatewayAncestors(nodes, rels) && k in GatewaysDue(nodes, rels, policies)
      && GatewaysDue(nodes, rels, policies)[k].gatewayInherited ==
         InheritedFrom(policies, GatewayAncestors(nodes, rels)[k])
    ensures k.GK() == HTTP_ROUTE_GK ==>
      && k in RouteAncestors(nodes, rels) && k in RoutesDue(nodes, rels, policies)
      && RoutesDue(nodes, rels, policies)[k].httpRouteInherited ==
         InheritedFrom(policies, RouteAncestors(nodes, rels)[k])
    ensures k.GK() == SERVICE_GK ==>
      && k in BackendAncestors(nodes, rels) && k in BackendsDue(nodes, rels, policies)
      && BackendsDue(nodes, rels, policies)[k].backendInherited ==
         InheritedFrom(policies, BackendAncestors(nodes, rels)[k])
  {
    hide InheritedFrom, Targets, Referrers, WithAncestors;
  }

  /** Each of the three kinds has its entry from its own pass. */
  lemma InheritedDueAt(nodes: map<GKNN, Node>, rels: Relations, policies: Policies, k: GKNN)
    requires k in nodes
    ensures k.GK() == GATEWAY_GK ==>
      && k in InheritedDue(nodes, rels, policies) && k in GatewaysDue(nodes, rels, policies)
      && InheritedDue(nodes, rels, policies)[k] == GatewaysDue(nodes, rels, policies)[k]
    ensures k.GK() == HTTP_ROUTE_GK ==>
      && k in InheritedDue(nodes, rels, policies) && k in RoutesDue(nodes, rels, policies)
      && InheritedDue(nodes, rels, policies)[k] == RoutesDue(nodes, rels, policies)[k]
    ensures k.GK() == SERVICE_GK ==>
      && k in InheritedDue(nodes, rels, policies) && k in BackendsDue(nodes, rels, policies)
      && InheritedDue(nodes, rels, policies)[k] == BackendsDue(nodes, rels, policies)[k]
  {
    hide GatewaysDue, RoutesDue, BackendsDue;
    DueKeys(nodes, rels, policies);
    assert GATEWAY_GK.kind[0] == 'G' && HTTP_ROUTE_GK.kind[0] == 'H' && SERVICE_GK.kind[0] == 'S';
  }

  /** Main result on inheritance: a policy is inherited exactly if it is inheritable and one of its references
      is above the object: its Namespace; for a Gateway its GatewayClass; for an HTTPRoute its Gateways and
      all above them; for a Backend the HTTPRoutes that refer to it and all above them. */
  lemma InheritsIff(graph: Graph, removed: map<GKNN, Node>, objects: map<GKNN, Resource>, rels: Relations,
                    sources: set<GKNN>, policies: Policies, k: GKNN, g: GKNN)
    requires rels.Valid() && Built(graph, removed, objects, AllEdges(rels.All(), objects), sources) && k in graph.nodes
    ensures k.GK() in {GATEWAY_GK, HTTP_ROUTE_GK, SERVICE_GK} ==> k in InheritedDue(graph.nodes, rels, policies)
    ensures k.GK() == GATEWAY_GK ==> (g in InheritedDue(graph.nodes, rels, policies)[k].gatewayInherited <==>
      g in policies && policies[g].inheritable
      && exists t :: t in policies[g].targetRefs && AboveGateway(Objects(graph.nodes), k, t))
    ensures k.GK() == HTTP_ROUTE_GK ==> (g in InheritedDue(graph.nodes, rels, policies)[k].httpRouteInherited <==>
      g in policies && policies[g].inheritable
      && exists t :: t in policies[g].targetRefs && AboveRoute(Objects(graph.nodes), k, t))
    ensures k.GK() == SERVICE_GK ==> (g in InheritedDue(graph.nodes, rels, policies)[k].backendInherited <==>
      g in policies && policies[g].inheritable
      && exists t :: t in policies[g].targetRefs && AboveBackend(Objects(graph.nodes), k, t))
  {
    hide Built, InheritedFrom, InheritedDue, GatewaysDue, RoutesDue, BackendsDue, GatewayAncestors, RouteAncestors,
      BackendAncestors, AboveGateway, AboveRoute, AboveBackend;
    InheritedDueAt(graph.nodes, rels, policies, k);
    DuesAt(graph.nodes, rels, policies, k);
    forall t { AncestorsAreAbove(graph, removed, objects, rels, sources, k, t); }
    if k.GK() == GATEWAY_GK { InheritedFromIff(policies, GatewayAncestors(graph.nodes, rels)[k], g); }
    if k.GK() == HTTP_ROUTE_GK { InheritedFromIff(policies, RouteAncestors(graph.nodes, rels)[k], g); }
    if k.GK() == SERVICE_GK { InheritedFromIff(policies, BackendAncestors(graph.nodes, rels)[k], g); }
  }

  // ---------------------------------------------------------------- effective policies

  /** The keys of a route are the Gateways that it refers to and that are in the graph, if its Namespace is. */
  lemma RouteKeys(graph: Graph, removed: map<GKNN, Node>, objects: map<GKNN, Resource>, rels: Relations,
                  sources: set<GKNN>, maxDepth: int, policies: Policies, due: Due, r: GKNN)
    requires rels.Valid() && Built(graph, removed, objects, AllEdges(rels.All(), objects), sources)
    requires EffectiveExactly(graph.nodes, rels, maxDepth, policies, due) && r in due && r.GK() == HTTP_ROUTE_GK
    ensures r in graph.nodes && due[r].httpRouteEffective.Keys ==
      if NamespaceRef(graph.nodes[r].obj) in graph.nodes
      then set g | g in ParentGateways(graph.nodes[r].obj) && g in graph.nodes else {}
  {
    hide GatewayEffective, BackendEffective, IsStack, Built, AllEdges, Targets;
    TargetsAreReferences(graph, removed, objects, rels.All(), sources, r, rels.httpRouteNamespace);
    TargetsAreReferences(graph, removed, objects, rels.All(), sources, r, rels.parentRef);
  }

  /** The keys of a backend are the Gateways of the graph that a route of the graph refers to which also refers to
      the backend, if the Namespaces of both are in the graph. */
  lemma BackendKeys(graph: Graph, removed: map<GKNN, Node>, objects: map<GKNN, Resource>, rels: Relations,
                    sources: set<GKNN>, maxDepth: int, policies: Policies, due: Due, b: GKNN, g: GKNN)
    requires rels.Valid() && Built(graph, removed, objects, AllEdges(rels.All(), objects), sources)
    requires EffectiveExactly(graph.nodes, rels, maxDepth, policies, due) && Covers(graph.nodes, due)
    requires b in due && b.GK() == SERVICE_GK
    ensures b in graph.nodes
    ensures g in due[b].backendEffective <==>
      && NamespaceRef(graph.nodes[b].obj) in graph.nodes && g in graph.nodes
      && exists r :: Routes(Objects(graph.nodes), r, b) && LeadsTo(Objects(graph.nodes), r, g)
  {
    hide EffectiveExactly, IsStack, Built, AllEdges, Targets, Referrers, HasPolicies;
    var nodes := Objects(graph.nodes);
    KeysOfRoutes(graph.nodes, rels, maxDepth, policies, due, b, g);
    TargetsAreReferences(graph, removed, objects, rels.All(), sources, b, rels.backendNamespace);
    ReferrersAreReferring(graph, removed, objects, rels.All(), sources, b, rels.backendRef);
    forall r | r in due && r.GK() == HTTP_ROUTE_GK
      ensures g in due[r].httpRouteEffective <==> g in graph.nodes && LeadsTo(nodes, r, g)
    {
      RouteKeys(graph, removed, objects, rels, sources, maxDepth, policies, due, r);
    }
    if r :| Routes(nodes, r, b) && LeadsTo(nodes, r, g) { assert r in due; }
  }

  /** The HTTPRoute refers to the Gateway, and its Namespace is there. */
  predicate LeadsTo(nodes: map<GKNN, Resource>, r: GKNN, g: GKNN) {
    r in nodes && NamespaceRef(nodes[r]) in nodes && g in ParentGateways(nodes[r])
  }

  lemma KeysOfRoutes(nodes: map<GKNN, Node>, rels: Relations, maxDepth: int, policies: Policies, due: Due, b: GKNN,
                     g: GKNN)
    requires EffectiveExactly(nodes, rels, maxDepth, policies, due) && b in due && b.GK() == SERVICE_GK
    ensures b in nodes
    ensures g in due[b].backendEffective <==>
      NamespaceRef(nodes[b].obj) in Targets(nodes[b], rels.backendNamespace)
      && exists r :: r in Referrers(nodes, nodes[b], rels.backendRef) && r in due && g in due[r].httpRouteEffective
  {
    hide GatewayEffective, RouteEffective, IsStack, MergedInOrder, Targets, Referrers;
    var routes := Referrers(nodes, nodes[b], rels.backendRef);
    if RoutesFor(due, routes, g) != {} {
      var r :| r in RoutesFor(due, routes, g);
    }
    if r :| r in routes && r in due && g in due[r].httpRouteEffective { assert r in RoutesFor(due, routes, g); }
  }

  /** The levels of a stack are inheritable, and so is what they merge to. */
  lemma {:induction false} InheritableFold(ps: seq<P.Policy>)
    requires ps != [] && SimilarKind.Fold(ps).Ok? && forall i :: 0 <= i < |ps| ==> ps[i].inheritable
    ensures SimilarKind.Fold(ps).value.inheritable
  {
    hide P.MergePolicy, SimilarKind.Precedes;
    if |ps| > 1 {
      var init, last := ps[..|ps| - 1], ps[|ps| - 1];
      InheritableFold(init);
      SimilarKind.MergeSameIs(SimilarKind.Fold(init).value, last);
      var existing := SimilarKind.Fold(init).value;
      var (parent, child) := if SimilarKind.Precedes(existing, last) then (last, existing) else (existing, last);
      MergedFields(parent, child);
    }
  }

  lemma LevelInheritable(direct: Policies, level: PolicyMap)
    requires IsLevel(direct, Ok(level))
    ensures AllInheritable(level)
  {
    hide SimilarKind.Fold, OfKind, SortedBy, P.TypeOf, P.StringAt;
    var s: seq<P.Policy> :| Lists(Inheritable(direct).Values, s) && SortedBy(s, SortKey) && IsFold(s, Ok(level));
    assert forall i :: 0 <= i < |s| ==> s[i].inheritable;
    forall k | k in level ensures level[k].inheritable {
      OfKindMembers(s, k);
      InheritableFold(OfKind(s, k));
    }
  }

  /** What overrides above overrides below, through any stack of levels. */
  lemma OverrideSurvivesStack(policies: Policies, above: PolicyMap, ids: seq<GKNN>, merged: PolicyMap, kind: string,
                              path: Path, c: Cell)
    requires IsStack(policies, [above], ids, merged) && kind in above && Overrides(above[kind], path, c)
    ensures kind in merged && Overrides(merged[kind], path, c)
  {
    hide IsLevel, IsHierarchy, Overrides;
    var levels :| AreLevels(policies, ids, levels) && IsHierarchy([above] + levels, merged);
    forall i | 0 <= i < |levels|
      ensures AllInheritable(levels[i])
    {
      LevelInheritable(AttachedTo(policies, ids[i]), levels[i]);
    }
    OverrideSurvivesLevels(above, levels, merged, kind, path, c);
  }

  /** Main result on overrides: what the effective policy of a Gateway overrides, it overrides for every
      HTTPRoute of the Gateway and for every Backend of such a route, in whatever order the routes of the
      backend were merged. */
  lemma GatewayOverrides(nodes: map<GKNN, Node>, rels: Relations, maxDepth: int, policies: Policies, due: Due, g: GKNN,
                         kind: string, path: Path, c: Cell)
    requires EffectiveExactly(nodes, rels, maxDepth, policies, due)
    requires g in due && kind in due[g].gatewayEffective && Overrides(due[g].gatewayEffective[kind], path, c)
    ensures forall r :: r in due && g in due[r].httpRouteEffective ==>
      kind in due[r].httpRouteEffective[g] && Overrides(due[r].httpRouteEffective[g][kind], path, c)
    ensures forall b :: b in due && g in due[b].backendEffective ==>
      kind in due[b].backendEffective[g] && Overrides(due[b].backendEffective[g][kind], path, c)
  {
    hide EffectiveExactly, Overrides;
    forall r | r in due && g in due[r].httpRouteEffective
      ensures kind in due[r].httpRouteEffective[g] && Overrides(due[r].httpRouteEffective[g][kind], path, c)
    {
      OverridesRoute(nodes, rels, maxDepth, policies, due, g, kind, path, c, r);
    }
    forall b | b in due && g in due[b].backendEffective
      ensures kind in due[b].backendEffective[g] && Overrides(due[b].backendEffective[g][kind], path, c)
    {
      OverridesBackend(nodes, rels, maxDepth, policies, due, g, kind, path, c, b);
    }
  }

  lemma OverridesRoute(nodes: map<GKNN, Node>, rels: Relations, maxDepth: int, policies: Policies, due: Due, g: GKNN,
                       kind: string, path: Path, c: Cell, r: GKNN)
    requires EffectiveExactly(nodes, rels, maxDepth, policies, due) && r in due && g in due[r].httpRouteEffective
    requires g in due && kind in due[g].gatewayEffective && Overrides(due[g].gatewayEffective[kind], path, c)
    ensures kind in due[r].httpRouteEffective[g] && Overrides(due[r].httpRouteEffective[g][kind], path, c)
  {
    hide GatewayEffective, BackendEffective, IsStack, Overrides, Targets;
    OverrideSurvivesStack(policies, due[g].gatewayEffective, [NamespaceRef(nodes[r].obj), nodes[r].Id()],
                          due[r].httpRouteEffective[g], kind, path, c);
  }

  lemma OverridesBackend(nodes: map<GKNN, Node>, rels: Relations, maxDepth: int, policies: Policies, due: Due, g: GKNN,
                         kind: string, path: Path, c: Cell, b: GKNN)
    requires EffectiveExactly(nodes, rels, maxDepth, policies, due) && b in due && g in due[b].backendEffective
    requires g in due && kind in due[g].gatewayEffective && Overrides(due[g].gatewayEffective[kind], path, c)
    ensures kind in due[b].backendEffective[g] && Overrides(due[b].backendEffective[g][kind], path, c)
  {
    var order, above := BackendStack(nodes, rels, maxDepth, policies, due, b, g);
    hide EffectiveExactly, IsStack, Overrides, IsAccumulated;
    var maps := RouteMaps(due, order, g);
    forall i | 0 <= i < |maps| ensures kind in maps[i] && Overrides(maps[i][kind], path, c) {
      OverridesRoute(nodes, rels, maxDepth, policies, due, g, kind, path, c, order[i]);
    }
    OverrideSurvivesAccumulation(maps, above, kind, path, c);
    OverrideSurvivesStack(policies, above, [NamespaceRef(nodes[b].obj), nodes[b].Id()], due[b].backendEffective[g],
                          kind, path, c);
  }

  /** How the policies of a backend for a Gateway have come about. */
  lemma BackendStack(nodes: map<GKNN, Node>, rels: Relations, maxDepth: int, policies: Policies, due: Due, b: GKNN,
                     g: GKNN)
    returns (order: seq<GKNN>, above: PolicyMap)
    requires EffectiveExactly(nodes, rels, maxDepth, policies, due) && b in due && g in due[b].backendEffective
    ensures b in nodes && order != []
    ensures IsOrder(due, RoutesFor(due, Referrers(nodes, nodes[b], rels.backendRef), g), g, order)
    ensures IsAccumulated(RouteMaps(due, order, g), above)
    ensures IsStack(policies, [above], [NamespaceRef(nodes[b].obj), nodes[b].Id()], due[b].backendEffective[g])
  {
    hide GatewayEffective, RouteEffective, IsStack, IsAccumulated, Targets, Referrers;
    var routes := RoutesFor(due, Referrers(nodes, nodes[b], rels.backendRef), g);
    order, above :| MergedInOrder(due, routes, g, order, above)
      && IsStack(policies, [above], [NamespaceRef(nodes[b].obj), nodes[b].Id()], due[b].backendEffective[g]);
    var r :| r in routes;
    assert r in order;
  }

  predicate IsLeaf(c: Cell) {
    c.Value? && c.leaf != Null
  }

  /** What a level says outside its override is not changed by merging. */
  ghost predicate KeepsDefaults(level: PolicyMap, merged: PolicyMap) {
    forall kind, path :: kind in level && |path| >= 2 && !UnderOverride(path) && IsLeaf(At(level[kind], path)) ==>
      kind in merged && At(merged[kind], path) == At(level[kind], path)
  }

  /** The last of two levels keeps its defaults. */
  lemma LastOfStack(policies: Policies, above: PolicyMap, middle: GKNN, last: GKNN, merged: PolicyMap)
    returns (own: PolicyMap)
    requires IsStack(policies, [above], [middle, last], merged)
    ensures IsLevel(AttachedTo(policies, last), Ok(own)) && KeepsDefaults(own, merged)
  {
    hide IsHierarchy, IsLevel, UnderOverride, At, AttachedTo;
    var levels :| AreLevels(policies, [middle, last], levels) && IsHierarchy([above] + levels, merged);
    own := levels[1];
    assert [above] + levels == [above, levels[0]] + [own];
    assert [middle, last][1] == last;
    forall kind, path | kind in own && |path| >= 2 && !UnderOverride(path) && IsLeaf(At(own[kind], path))
      ensures kind in merged && At(merged[kind], path) == At(own[kind], path)
    {
      DefaultSurvivesLevels([above, levels[0]], own, merged, kind, path);
    }
  }

  /** Main result on defaults: what the policies attached to a Backend itself say outside their override is
      final for every Gateway, in whatever order the routes were merged. */
  lemma BackendDefaults(nodes: map<GKNN, Node>, rels: Relations, maxDepth: int, policies: Policies, due: Due, b: GKNN,
                        g: GKNN)
    returns (own: PolicyMap)
    requires EffectiveExactly(nodes, rels, maxDepth, policies, due) && b in due && g in due[b].backendEffective
    ensures b in nodes && IsLevel(AttachedTo(policies, nodes[b].Id()), Ok(own))
    ensures KeepsDefaults(own, due[b].backendEffective[g])
  {
    hide EffectiveExactly, IsStack, IsLevel, KeepsDefaults, IsAccumulated, AttachedTo;
    var order, above := BackendStack(nodes, rels, maxDepth, policies, due, b, g);
    own := LastOfStack(policies, above, NamespaceRef(nodes[b].obj), nodes[b].Id(), due[b].backendEffective[g]);
  }
}

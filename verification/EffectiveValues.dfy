/** The effective value of every field of a Gateway's, an HTTPRoute's or a Backend's policies, read off the
    policies attached to the objects above it (pkg/extension/gatewayeffectivepolicy/gatewayeffectivepolicy.go,
    lines 191 to 444, with EffectiveSpec in pkg/policymanager/manager.go). */
module EffectiveValues {
  import opened Common
  import opened Builder
  import opened Cluster
  import opened DirectlyAttachedPolicy
  import opened EffectivePasses
  import opened EffectivePolicies
  import opened Gateway
  import opened GatewayNodes
  import opened Hierarchy
  import opened Json
  import opened LevelHierarchy
  import opened Merger
  import opened Metadata
  import opened PolicyEffects
  import opened PolicyLevels
  import opened RouteOrder
  import opened SimilarKind
  import opened Topology
  import opened UniformKinds
  import P = Policy

  // ---------------------------------------------------------------- the levels above a route

  /** The objects whose policies make up what is effective at a Gateway; none if it is too deep, or if its
      GatewayClass or its Namespace is not in the graph, or for another object. */
  ghost function GatewayIds(nodes: map<GKNN, Node>, rels: Relations, maxDepth: int, g: GKNN): seq<GKNN>
    reads nodes.Values`outNeighbors, nodes.Values`depth
  {
    if g !in nodes || g.GK() != GATEWAY_GK || nodes[g].depth > maxDepth
       || GatewayClassRef(nodes[g].obj) !in Targets(nodes[g], rels.gatewayClass)
       || NamespaceRef(nodes[g].obj) !in Targets(nodes[g], rels.gatewayNamespace)
    then []
    else [GatewayClassRef(nodes[g].obj), NamespaceRef(nodes[g].obj), nodes[g].Id()]
  }

  lemma GatewayLevels(nodes: map<GKNN, Node>, rels: Relations, maxDepth: int, policies: Policies, due: Due, g: GKNN)
    requires EffectiveExactly(nodes, rels, maxDepth, policies, due) && g in due
    ensures IsStack(policies, [], GatewayIds(nodes, rels, maxDepth, g), due[g].gatewayEffective)
  {
    hide RouteEffective, BackendEffective, Targets, IsLevel, AttachedTo;
    if GatewayIds(nodes, rels, maxDepth, g) == [] {
      NothingStacked(policies);
    } else {
      assert [GatewayClassRef(nodes[g].obj)] + [NamespaceRef(nodes[g].obj), nodes[g].Id()]
          == [GatewayClassRef(nodes[g].obj), NamespaceRef(nodes[g].obj), nodes[g].Id()];
    }
  }

  lemma NothingStacked(policies: Policies)
    ensures IsStack(policies, [], [], map[])
  {
    assert AreLevels(policies, [], []) && IsHierarchy([] + [], map[]);
  }

  lemma FlattenStack(policies: Policies, above: PolicyMap, upper: seq<GKNN>, lower: seq<GKNN>, merged: PolicyMap)
    requires IsStack(policies, [], upper, above) && IsStack(policies, [above], lower, merged)
    ensures IsStack(policies, [], upper + lower, merged)
  {
    hide IsHierarchy, AreLevels;
    var a :| AreLevels(policies, upper, a) && IsHierarchy([] + a, above);
    var b :| AreLevels(policies, lower, b) && IsHierarchy([above] + b, merged);
    assert [] + a == a && [] + (a + b) == a + b;
    HierarchyFlattens(a, above, b, merged);
    AppendLevels(policies, upper, lower, a, b);
  }

  lemma AppendLevels(policies: Policies, upper: seq<GKNN>, lower: seq<GKNN>, a: seq<PolicyMap>, b: seq<PolicyMap>)
    requires AreLevels(policies, upper, a) && AreLevels(policies, lower, b)
    ensures AreLevels(policies, upper + lower, a + b)
  {
    hide IsLevel, AttachedTo;
  }

  /** The objects whose policies make up what is effective at a route for a Gateway, top first. */
  ghost function RouteIds(nodes: map<GKNN, Node>, rels: Relations, maxDepth: int, r: GKNN, g: GKNN): seq<GKNN>
    requires r in nodes
    reads nodes.Values`outNeighbors, nodes.Values`depth
  {
    GatewayIds(nodes, rels, maxDepth, g) + [NamespaceRef(nodes[r].obj), nodes[r].Id()]
  }

  /** Main result on HTTPRoutes: for each of its Gateways, the policies of a route are a single chain of five
      levels: GatewayClass, Namespace of the Gateway, Gateway, Namespace of the route, route; or of the last
      two if nothing is calculated for the Gateway. */
  lemma RouteLevels(nodes: map<GKNN, Node>, rels: Relations, maxDepth: int, policies: Policies, due: Due, r: GKNN,
                    g: GKNN)
    requires EffectiveExactly(nodes, rels, maxDepth, policies, due) && r in due && g in due[r].httpRouteEffective
    ensures r in nodes && g in due
    ensures IsStack(policies, [], RouteIds(nodes, rels, maxDepth, r, g), due[r].httpRouteEffective[g])
  {
    hide GatewayEffective, BackendEffective, IsStack, Targets, GatewayIds;
    GatewayLevels(nodes, rels, maxDepth, policies, due, g);
    FlattenStack(policies, due[g].gatewayEffective, GatewayIds(nodes, rels, maxDepth, g),
                 [NamespaceRef(nodes[r].obj), nodes[r].Id()], due[r].httpRouteEffective[g]);
  }

  /** Main result on these objects: on a built graph, the GatewayClass, the Namespace of the Gateway and the Gateway
      itself, if all three are in the graph and the Gateway is not too deep; then the Namespace of the route and the
      route. */
  lemma RouteIdsAre(graph: Graph, removed: map<GKNN, Node>, objects: map<GKNN, Resource>, rels: Relations,
                    sources: set<GKNN>, r: GKNN, g: GKNN)
    requires rels.Valid() && Built(graph, removed, objects, AllEdges(rels.All(), objects), sources)
    requires r in graph.nodes
    ensures RouteIds(graph.nodes, rels, graph.maxDepth, r, g) ==
      (if g in graph.nodes && g.group == "gateway.networking.k8s.io" && g.kind == "Gateway"
          && graph.nodes[g].depth <= graph.maxDepth
          && ClassId(graph.nodes[g].obj.spec.gatewayClassName) in graph.nodes && NamespaceId(g.namespace) in graph.nodes
       then [ClassId(graph.nodes[g].obj.spec.gatewayClassName), NamespaceId(g.namespace), g]
       else [])
      + [NamespaceId(r.namespace), r]
  {
    hide HoldsNearest, HoldsEdges, AllEdges, Targets;
    if g in graph.nodes && g.GK() == GATEWAY_GK {
      TargetsAreReferences(graph, removed, objects, rels.All(), sources, g, rels.gatewayClass);
      TargetsAreReferences(graph, removed, objects, rels.All(), sources, g, rels.gatewayNamespace);
    }
  }

  function ClassId(name: string): GKNN {
    GKNN("gateway.networking.k8s.io", "GatewayClass", "", name)
  }

  function NamespaceId(name: string): GKNN {
    GKNN("", "Namespace", "", name)
  }

  // ---------------------------------------------------------------- values, read off the attached policies

  /** For each object the inheritable policies attached to it, sorted by name. */
  ghost predicate AreSlices(policies: Policies, ids: seq<GKNN>, slices: seq<seq<P.Policy>>) {
    |slices| == |ids| && forall i :: 0 <= i < |ids| ==> IsSlice(AttachedTo(policies, ids[i]), slices[i])
  }

  /** What wins at the first of the objects that has policies of the kind which say something at the path. */
  ghost function FirstWinner(slices: seq<seq<P.Policy>>, kind: string, path: Path): Cell {
    if slices == [] then Absent
    else Or(FirstWinner(slices[..|slices| - 1], kind, path), WinningCell(OfKind(slices[|slices| - 1], kind), path))
  }

  /** And at the last of them. */
  ghost function LastWinner(slices: seq<seq<P.Policy>>, kind: string, path: Path): Cell {
    if slices == [] then Absent
    else Or(WinningCell(OfKind(slices[|slices| - 1], kind), path), LastWinner(slices[..|slices| - 1], kind, path))
  }

  ghost predicate AnyOfKind(slices: seq<seq<P.Policy>>, kind: string) {
    exists i :: 0 <= i < |slices| && OfKind(slices[i], kind) != []
  }

  /** The levels are what the slices merge to. */
  ghost predicate SlicesMergeTo(slices: seq<seq<P.Policy>>, levels: seq<PolicyMap>) {
    |slices| == |levels| && forall i :: 0 <= i < |slices| ==> IsFold(slices[i], Ok(levels[i]))
  }

  lemma {:induction false} SlicesOf(policies: Policies, ids: seq<GKNN>, levels: seq<PolicyMap>)
    returns (slices: seq<seq<P.Policy>>)
    requires AreLevels(policies, ids, levels)
    ensures AreSlices(policies, ids, slices) && SlicesMergeTo(slices, levels)
  {
    hide AttachedTo, IsFold, IsSlice;
    if ids == [] {
      slices := [];
    } else {
      var n := |ids| - 1;
      var init := SlicesOf(policies, ids[..n], levels[..n]);
      var last := SliceOf(AttachedTo(policies, ids[n]), levels[n]);
      slices := init + [last];
    }
  }

  lemma SliceOf(direct: Policies, level: PolicyMap) returns (s: seq<P.Policy>)
    requires IsLevel(direct, Ok(level))
    ensures IsSlice(direct, s) && IsFold(s, Ok(level))
  {
    hide IsFold, Inheritable;
    s :| Sorting.Lists(Inheritable(direct).Values, s) && Sorting.SortedBy(s, SortKey) && IsFold(s, Ok(level));
  }

  lemma InitSlices(policies: Policies, ids: seq<GKNN>, slices: seq<seq<P.Policy>>, levels: seq<PolicyMap>)
    requires AreSlices(policies, ids, slices) && SlicesMergeTo(slices, levels) && ids != []
    ensures var n := |ids| - 1;
      && |slices| == |levels| == |ids| && AreSlices(policies, ids[..n], slices[..n])
      && SlicesMergeTo(slices[..n], levels[..n])
      && IsSlice(AttachedTo(policies, ids[n]), slices[n]) && IsFold(slices[n], Ok(levels[n]))
  {
    hide IsFold, IsSlice, AttachedTo;
  }

  /** What the levels have of a uniform kind. */
  lemma {:induction false} LevelsAt(policies: Policies, ids: seq<GKNN>, slices: seq<seq<P.Policy>>,
                                    levels: seq<PolicyMap>, kind: string, path: Path, namespaced: bool)
    requires AreSlices(policies, ids, slices) && SlicesMergeTo(slices, levels)
    requires UniformKind(Members(policies, kind), namespaced)
    ensures Present(levels, kind) != [] <==> AnyOfKind(slices, kind)
    ensures Topmost(Present(levels, kind), path) == FirstWinner(slices, kind, path)
    ensures MostSpecific(Present(levels, kind), path) == LastWinner(slices, kind, path)
    ensures AllDerived(Members(policies, kind), namespaced, Present(levels, kind))
  {
    hide IsFold, IsSlice, OfKind, WinningCell, UniformKind, Members, Derived, AttachedTo, At, Present, Topmost,
      MostSpecific, FirstWinner, LastWinner, AnyOfKind;
    if ids == [] {
      NoSlices(kind, path);
    } else {
      var n := |ids| - 1;
      InitSlices(policies, ids, slices, levels);
      LevelsAt(policies, ids[..n], slices[..n], levels[..n], kind, path, namespaced);
      LevelAt(policies, ids[n], levels[n], slices[n], kind, namespaced, path);
      OneMoreSlice(slices, levels, kind, path);
    }
  }

  lemma NoSlices(kind: string, path: Path)
    ensures Present([], kind) == [] && !AnyOfKind([], kind)
    ensures Topmost([], path) == MostSpecific([], path) == Absent
    ensures FirstWinner([], kind, path) == LastWinner([], kind, path) == Absent
  {
  }

  lemma OneMoreSlice(slices: seq<seq<P.Policy>>, levels: seq<PolicyMap>, kind: string, path: Path)
    requires |slices| == |levels| > 0
    ensures var n := |levels| - 1;
      var upper, all := Present(levels[..n], kind), Present(levels, kind);
      && all == upper + KindIn(levels[n], kind)
      && (AnyOfKind(slices, kind) <==> AnyOfKind(slices[..n], kind) || OfKind(slices[n], kind) != [])
      && Topmost(all, path) == Or(Topmost(upper, path), if kind in levels[n] then At(levels[n][kind], path) else Absent)
      && MostSpecific(all, path) ==
         Or(if kind in levels[n] then At(levels[n][kind], path) else Absent, MostSpecific(upper, path))
      && FirstWinner(slices, kind, path) ==
         Or(FirstWinner(slices[..n], kind, path), WinningCell(OfKind(slices[n], kind), path))
      && LastWinner(slices, kind, path) ==
         Or(WinningCell(OfKind(slices[n], kind), path), LastWinner(slices[..n], kind, path))
  {
    hide OfKind, WinningCell, At;
    var n := |levels| - 1;
    var upper := Present(levels[..n], kind);
    assert slices == slices[..n] + [slices[n]];
    if kind in levels[n] {
      assert (upper + [levels[n][kind]])[..|upper|] == upper;
    } else {
      assert upper + [] == upper;
    }
  }

  /** EffectiveSpec of the policy has this cell at the path. */
  predicate HasEffectiveValue(p: P.Policy, path: Path, c: Cell) {
    && P.EffectiveSpec(p).Ok?
    && match P.EffectiveSpec(p).value
       case Some(spec) => Probe(Obj(spec), path) == c
       case None => c == Absent
  }

  lemma EffectiveOf(members: set<P.Policy>, namespaced: bool, p: P.Policy, path: Path)
    requires UniformKind(members, namespaced) && Derived(members, namespaced, p) && path != []
    ensures HasEffectiveValue(p, path, Or(At(p, OVERRIDE + path), At(p, DEFAULT + path)))
  {
    hide UniformKind, At, P.EffectiveSpec, Kindred;
    DerivedAreAkin(members, namespaced, p, p);
    EffectiveAt(p, path);
  }

  /** A stack of levels, read off the attached policies. */
  lemma StackValue(policies: Policies, ids: seq<GKNN>, slices: seq<seq<P.Policy>>, levels: seq<PolicyMap>,
                   merged: PolicyMap, kind: string, path: Path, namespaced: bool)
    requires AreSlices(policies, ids, slices) && SlicesMergeTo(slices, levels) && IsHierarchy(levels, merged)
    requires UniformKind(Members(policies, kind), namespaced) && path != []
    ensures kind in merged <==> AnyOfKind(slices, kind)
    ensures kind in merged ==> Derived(Members(policies, kind), namespaced, merged[kind])
    ensures kind in merged ==> HasEffectiveValue(merged[kind], path,
      Or(FirstWinner(slices, kind, OVERRIDE + path), LastWinner(slices, kind, DEFAULT + path)))
  {
    hide AreSlices, SlicesMergeTo, UniformKind, Members, Derived, AnyOfKind, P.EffectiveSpec, Present, At, Topmost,
      MostSpecific, Chain;
    var members, ps := Members(policies, kind), Present(levels, kind);
    LevelsAt(policies, ids, slices, levels, kind, OVERRIDE + path, namespaced);
    LevelsAt(policies, ids, slices, levels, kind, DEFAULT + path, namespaced);
    if kind in merged {
      DerivedAreUniform(members, namespaced, ps);
      ChainIsDerived(members, namespaced, ps);
      ChainAt(ps, OVERRIDE + path);
      ChainAt(ps, DEFAULT + path);
      EffectiveOf(members, namespaced, merged[kind], path);
    }
  }

  /** What is effective of a kind is, at every path, the override of the first object that has one, otherwise
      the default of the last object that has one. */
  ghost predicate ReadsOff(merged: PolicyMap, slices: seq<seq<P.Policy>>, kind: string) {
    && (kind in merged <==> AnyOfKind(slices, kind))
    && (kind in merged ==> forall path :: path != [] ==> HasEffectiveValue(merged[kind], path,
          Or(FirstWinner(slices, kind, OVERRIDE + path), LastWinner(slices, kind, DEFAULT + path))))
  }

  lemma StackValues(policies: Policies, ids: seq<GKNN>, merged: PolicyMap, kind: string, namespaced: bool)
    returns (slices: seq<seq<P.Policy>>)
    requires IsStack(policies, [], ids, merged) && UniformKind(Members(policies, kind), namespaced)
    ensures AreSlices(policies, ids, slices) && ReadsOff(merged, slices, kind)
    ensures DerivedMap(Members(policies, kind), namespaced, merged, kind)
  {
    hide AreSlices, SlicesMergeTo, UniformKind, Members, Derived, AnyOfKind, HasEffectiveValue, IsHierarchy, AreLevels;
    var levels :| AreLevels(policies, ids, levels) && IsHierarchy([] + levels, merged);
    assert [] + levels == levels;
    slices := SlicesOf(policies, ids, levels);
    StackValue(policies, ids, slices, levels, merged, kind, ["x"], namespaced);
    forall path | path != [] && kind in merged
      ensures HasEffectiveValue(merged[kind], path,
        Or(FirstWinner(slices, kind, OVERRIDE + path), LastWinner(slices, kind, DEFAULT + path)))
    {
      StackValue(policies, ids, slices, levels, merged, kind, path, namespaced);
    }
  }

  /** Main result on values: if all inheritable policies of a kind fit together, the effective value of a route
      at any path, for any of its Gateways, is what wins among the policies attached to the topmost of the five
      objects that has an override there, otherwise to the lowest that has a default. */
  lemma RouteEffectiveValues(nodes: map<GKNN, Node>, rels: Relations, maxDepth: int, policies: Policies, due: Due,
                             r: GKNN, g: GKNN, kind: string, namespaced: bool)
    returns (slices: seq<seq<P.Policy>>)
    requires EffectiveExactly(nodes, rels, maxDepth, policies, due) && r in due && g in due[r].httpRouteEffective
    requires UniformKind(Members(policies, kind), namespaced)
    ensures r in nodes && AreSlices(policies, RouteIds(nodes, rels, maxDepth, r, g), slices)
    ensures ReadsOff(due[r].httpRouteEffective[g], slices, kind)
    ensures DerivedMap(Members(policies, kind), namespaced, due[r].httpRouteEffective[g], kind)
  {
    hide EffectiveExactly, UniformKind, ReadsOff, Members, Derived, IsStack, RouteIds, AreSlices;
    RouteLevels(nodes, rels, maxDepth, policies, due, r, g);
    slices := StackValues(policies, RouteIds(nodes, rels, maxDepth, r, g), due[r].httpRouteEffective[g], kind,
                          namespaced);
  }

  /** And likewise for a Gateway and its three objects. */
  lemma GatewayEffectiveValues(nodes: map<GKNN, Node>, rels: Relations, maxDepth: int, policies: Policies, due: Due,
                               g: GKNN, kind: string, namespaced: bool)
    returns (slices: seq<seq<P.Policy>>)
    requires EffectiveExactly(nodes, rels, maxDepth, policies, due) && g in due
    requires UniformKind(Members(policies, kind), namespaced)
    ensures AreSlices(policies, GatewayIds(nodes, rels, maxDepth, g), slices)
    ensures ReadsOff(due[g].gatewayEffective, slices, kind)
  {
    hide EffectiveExactly, UniformKind, ReadsOff, Members, Derived, IsStack, GatewayIds, AreSlices;
    GatewayLevels(nodes, rels, maxDepth, policies, due, g);
    slices := StackValues(policies, GatewayIds(nodes, rels, maxDepth, g), due[g].gatewayEffective, kind, namespaced);
  }

  // ---------------------------------------------------------------- backends

  /** What the routes of a backend have of a uniform kind. */
  lemma RoutesAreDerived(nodes: map<GKNN, Node>, rels: Relations, maxDepth: int, policies: Policies, due: Due,
                         order: seq<GKNN>, g: GKNN, kind: string, namespaced: bool)
    requires EffectiveExactly(nodes, rels, maxDepth, policies, due) && UniformKind(Members(policies, kind), namespaced)
    requires forall i :: 0 <= i < |order| ==> HasPolicies(due, order[i], g)
    ensures AllDerived(Members(policies, kind), namespaced, Present(RouteMaps(due, order, g), kind))
  {
    hide EffectiveExactly, UniformKind, Members, Derived, Present, ReadsOff, AllDerived;
    var maps := RouteMaps(due, order, g);
    forall i | 0 <= i < |maps| ensures DerivedMap(Members(policies, kind), namespaced, maps[i], kind) {
      var slices := RouteEffectiveValues(nodes, rels, maxDepth, policies, due, order[i], g, kind, namespaced);
    }
    PresentAreDerived(Members(policies, kind), namespaced, maps, kind);
  }

  /** The effective value of a backend: an override wins among the routes, then by Namespace and Backend; a
      default by Backend and Namespace, then among the routes. */
  ghost function BackendValue(routes: seq<P.Policy>, slices: seq<seq<P.Policy>>, kind: string, path: Path): Cell {
    Or(Or(WinningCell(routes, OVERRIDE + path), FirstWinner(slices, kind, OVERRIDE + path)),
       Or(LastWinner(slices, kind, DEFAULT + path), WinningCell(routes, DEFAULT + path)))
  }

  ghost predicate BackendReadsOff(merged: PolicyMap, maps: seq<PolicyMap>, slices: seq<seq<P.Policy>>, kind: string) {
    && (kind in merged <==> Present(maps, kind) != [] || AnyOfKind(slices, kind))
    && (kind in merged ==> forall path :: path != [] ==>
          HasEffectiveValue(merged[kind], path, BackendValue(Present(maps, kind), slices, kind, path)))
  }

  lemma BackendStackValue(policies: Policies, maps: seq<PolicyMap>, above: PolicyMap, ids: seq<GKNN>,
                          slices: seq<seq<P.Policy>>, levels: seq<PolicyMap>, merged: PolicyMap, kind: string,
                          path: Path, namespaced: bool)
    requires IsAccumulated(maps, above) && AreSlices(policies, ids, slices) && SlicesMergeTo(slices, levels)
    requires IsHierarchy([above] + levels, merged) && UniformKind(Members(policies, kind), namespaced) && path != []
    requires AllDerived(Members(policies, kind), namespaced, Present(maps, kind))
    ensures kind in merged <==> Present(maps, kind) != [] || AnyOfKind(slices, kind)
    ensures kind in merged ==>
      HasEffectiveValue(merged[kind], path, BackendValue(Present(maps, kind), slices, kind, path))
  {
    hide AreSlices, SlicesMergeTo, UniformKind, Members, Derived, AnyOfKind, P.EffectiveSpec, Present, At, Topmost,
      MostSpecific, IsAccumulated, Chain, WinningCell;
    var members := Members(policies, kind);
    LevelsAt(policies, ids, slices, levels, kind, OVERRIDE + path, namespaced);
    LevelsAt(policies, ids, slices, levels, kind, DEFAULT + path, namespaced);
    BackendAt(maps, above, levels, merged, kind, OVERRIDE + path, members, namespaced);
    BackendAt(maps, above, levels, merged, kind, DEFAULT + path, members, namespaced);
    BackendIsDerived(maps, above, levels, merged, kind, members, namespaced);
    if kind in merged { EffectiveOf(members, namespaced, merged[kind], path); }
  }

  lemma BackendIsDerived(maps: seq<PolicyMap>, above: PolicyMap, levels: seq<PolicyMap>, merged: PolicyMap,
                         kind: string, members: set<P.Policy>, namespaced: bool)
    requires IsAccumulated(maps, above) && IsHierarchy([above] + levels, merged) && UniformKind(members, namespaced)
    requires AllDerived(members, namespaced, Present(maps, kind))
    requires AllDerived(members, namespaced, Present(levels, kind))
    ensures kind in merged <==> Present(maps, kind) != [] || Present(levels, kind) != []
    ensures DerivedMap(members, namespaced, merged, kind)
  {
    hide UniformKind, Derived, Present, IsAccumulated, Chain, Fold;
    AccumulatedIsFold(maps, above, kind);
    PresentAppend([above], levels, kind);
    PresentOne(above, kind);
    if kind in above { FoldIsDerived(members, namespaced, Present(maps, kind)); }
    if kind in merged { ChainIsDerived(members, namespaced, Present([above] + levels, kind)); }
  }

  /** Main result on the values of a Backend, for some order of its routes. */
  lemma BackendEffectiveValues(nodes: map<GKNN, Node>, rels: Relations, maxDepth: int, policies: Policies, due: Due,
                               b: GKNN, g: GKNN, kind: string, namespaced: bool)
    returns (order: seq<GKNN>, slices: seq<seq<P.Policy>>)
    requires EffectiveExactly(nodes, rels, maxDepth, policies, due) && b in due && g in due[b].backendEffective
    requires UniformKind(Members(policies, kind), namespaced)
    ensures b in nodes && AreSlices(policies, [NamespaceRef(nodes[b].obj), nodes[b].Id()], slices)
    ensures IsOrder(due, RoutesFor(due, Referrers(nodes, nodes[b], rels.backendRef), g), g, order)
    ensures BackendReadsOff(due[b].backendEffective[g], RouteMaps(due, order, g), slices, kind)
  {
    hide EffectiveExactly, UniformKind, BackendValue, Members, Derived, IsAccumulated, IsHierarchy, AreLevels,
      AreSlices, HasEffectiveValue, SlicesMergeTo, AllDerived, AnyOfKind, Referrers;
    var above: PolicyMap;
    order, above := BackendStack(nodes, rels, maxDepth, policies, due, b, g);
    var ids, maps, merged :=
      [NamespaceRef(nodes[b].obj), nodes[b].Id()], RouteMaps(due, order, g), due[b].backendEffective[g];
    var levels :| AreLevels(policies, ids, levels) && IsHierarchy([above] + levels, merged);
    slices := SlicesOf(policies, ids, levels);
    RoutesAreDerived(nodes, rels, maxDepth, policies, due, order, g, kind, namespaced);
    BackendStackValue(policies, maps, above, ids, slices, levels, merged, kind, ["x"], namespaced);
    forall path | path != [] && kind in merged
      ensures HasEffectiveValue(merged[kind], path, BackendValue(Present(maps, kind), slices, kind, path))
    {
      BackendStackValue(policies, maps, above, ids, slices, levels, merged, kind, path, namespaced);
    }
  }
}

/** The graph and the policies determine what is effective at Gateways and HTTPRoutes; and what is effective at a
    Backend exactly if the order in which its HTTPRoutes are visited makes no difference
    (pkg/extension/gatewayeffectivepolicy/gatewayeffectivepolicy.go, lines 191 to 444). */
module Determinacy {
  import opened Common
  import opened DirectlyAttachedPolicy
  import opened EffectivePasses
  import opened EffectivePolicies
  import opened EffectiveValues
  import opened Gateway
  import opened GatewayNodes
  import opened Hierarchy
  import opened Json
  import opened LevelHierarchy
  import opened MergeOrder
  import opened Merger
  import opened Metadata
  import opened Permutations
  import opened PolicyEffects
  import opened PolicyLevels
  import opened RouteOrder
  import opened SimilarKind
  import opened Topology
  import opened UniformKinds
  import P = Policy

  // ---------------------------------------------------------------- the effective policies are unique

  ghost predicate AllPlainlyNamed(policies: Policies) {
    forall g :: g in policies && policies[g].inheritable ==> PlainlyNamed(policies[g])
  }

  lemma HierarchyIsUnique(levels: seq<PolicyMap>, a: PolicyMap, b: PolicyMap)
    requires IsHierarchy(levels, a) && IsHierarchy(levels, b)
    ensures a == b
  {
  }

  lemma StackIsUnique(policies: Policies, above: seq<PolicyMap>, ids: seq<GKNN>, a: PolicyMap, b: PolicyMap)
    requires KeyedById(policies) && AllPlainlyNamed(policies)
    requires IsStack(policies, above, ids, a) && IsStack(policies, above, ids, b)
    ensures a == b
  {
    hide IsHierarchy, IsLevel, PlainlyNamed;
    var s :| AreLevels(policies, ids, s) && IsHierarchy(above + s, a);
    var t :| AreLevels(policies, ids, t) && IsHierarchy(above + t, b);
    forall i | 0 <= i < |ids| ensures s[i] == t[i] {
      LevelIsUnique(AttachedTo(policies, ids[i]), s[i], t[i]);
    }
    assert s == t;
    HierarchyIsUnique(above + s, a, b);
  }

  /** Two outcomes agree on Gateways and HTTPRoutes. */
  lemma EffectiveIsUnique(nodes: map<GKNN, Node>, rels: Relations, maxDepth: int, policies: Policies, a: Due, b: Due,
                          k: GKNN)
    requires KeyedById(policies) && AllPlainlyNamed(policies) && a.Keys == b.Keys && k in a
    requires EffectiveExactly(nodes, rels, maxDepth, policies, a)
    requires EffectiveExactly(nodes, rels, maxDepth, policies, b)
    ensures a[k].gatewayEffective == b[k].gatewayEffective && a[k].httpRouteEffective == b[k].httpRouteEffective
  {
    forall g | g in a ensures a[g].gatewayEffective == b[g].gatewayEffective {
      GatewayIsUnique(nodes, rels, maxDepth, policies, a, b, g);
    }
    RouteIsUnique(nodes, rels, maxDepth, policies, a, b, k);
  }

  lemma GatewayIsUnique(nodes: map<GKNN, Node>, rels: Relations, maxDepth: int, policies: Policies, a: Due, b: Due,
                        g: GKNN)
    requires KeyedById(policies) && AllPlainlyNamed(policies) && g in a && g in b
    requires EffectiveExactly(nodes, rels, maxDepth, policies, a)
    requires EffectiveExactly(nodes, rels, maxDepth, policies, b)
    ensures a[g].gatewayEffective == b[g].gatewayEffective
  {
    hide RouteEffective, BackendEffective, IsStack, Targets, KeyedById, AllPlainlyNamed;
    if a[g].gatewayEffective != b[g].gatewayEffective {
      StackIsUnique(policies, [], [GatewayClassRef(nodes[g].obj)] + [NamespaceRef(nodes[g].obj), nodes[g].Id()],
                    a[g].gatewayEffective, b[g].gatewayEffective);
    }
  }

  lemma RouteIsUnique(nodes: map<GKNN, Node>, rels: Relations, maxDepth: int, policies: Policies, a: Due, b: Due,
                      r: GKNN)
    requires KeyedById(policies) && AllPlainlyNamed(policies) && r in a && r in b
    requires EffectiveExactly(nodes, rels, maxDepth, policies, a)
    requires EffectiveExactly(nodes, rels, maxDepth, policies, b)
    requires forall g :: g in a && g in b ==> a[g].gatewayEffective == b[g].gatewayEffective
    ensures a[r].httpRouteEffective == b[r].httpRouteEffective
  {
    hide GatewayEffective, BackendEffective, IsStack, Targets, KeyedById, AllPlainlyNamed;
    var m, n := a[r].httpRouteEffective, b[r].httpRouteEffective;
    assert m.Keys == n.Keys;
    forall g | g in m ensures m[g] == n[g] {
      StackIsUnique(policies, [a[g].gatewayEffective], [NamespaceRef(nodes[r].obj), nodes[r].Id()], m[g], n[g]);
    }
  }

  // ---------------------------------------------------------------- orders of routes

  lemma OrdersAreReordered(due: Due, routes: set<GKNN>, g: GKNN, order: seq<GKNN>, order': seq<GKNN>)
    requires IsOrder(due, routes, g, order) && IsOrder(due, routes, g, order')
    ensures multiset(order) == multiset(order')
  {
    hide HasPolicies;
    assert (set r | r in order) == routes == (set r | r in order');
    SameMultiset(order, order');
  }

  lemma StillAnOrder(due: Due, routes: set<GKNN>, g: GKNN, order: seq<GKNN>, order': seq<GKNN>)
    requires IsOrder(due, routes, g, order) && multiset(order') == multiset(order)
    ensures IsOrder(due, routes, g, order')
  {
    hide HasPolicies;
    StaysDistinct(order, order');
    forall i | 0 <= i < |order'| ensures HasPolicies(due, order'[i], g) { assert order'[i] in order; }
  }

  /** What each route has for a Gateway. */
  ghost function PoliciesFor(due: Due, g: GKNN): map<GKNN, PolicyMap> {
    map r | r in due && HasPolicies(due, r, g) :: due[r].httpRouteEffective[g]
  }

  lemma RouteMapsAreLooked(due: Due, order: seq<GKNN>, g: GKNN)
    requires forall i :: 0 <= i < |order| ==> HasPolicies(due, order[i], g)
    ensures forall i :: 0 <= i < |order| ==> order[i] in PoliciesFor(due, g)
    ensures RouteMaps(due, order, g) == Look(PoliciesFor(due, g), order)
  {
  }

  /** Another order of the routes is another order of their policies. */
  lemma ReorderedMaps(due: Due, routes: set<GKNN>, g: GKNN, order: seq<GKNN>, order': seq<GKNN>)
    requires IsOrder(due, routes, g, order) && IsOrder(due, routes, g, order')
    ensures multiset(RouteMaps(due, order, g)) == multiset(RouteMaps(due, order', g))
  {
    hide Look, PoliciesFor, RouteMaps;
    OrdersAreReordered(due, routes, g, order, order');
    RouteMapsAreLooked(due, order, g);
    RouteMapsAreLooked(due, order', g);
    LookReordered(PoliciesFor(due, g), order, order');
  }

  /** And every order of these comes from an order of the routes. */
  lemma OrderOfMaps(due: Due, routes: set<GKNN>, g: GKNN, order: seq<GKNN>, maps: seq<PolicyMap>)
    returns (order': seq<GKNN>)
    requires IsOrder(due, routes, g, order) && multiset(maps) == multiset(RouteMaps(due, order, g))
    ensures IsOrder(due, routes, g, order') && RouteMaps(due, order', g) == maps
  {
    hide Look, RouteMaps;
    RouteMapsAreLooked(due, order, g);
    order' := KeysInOrder(PoliciesFor(due, g), order, maps);
    StillAnOrder(due, routes, g, order, order');
    RouteMapsAreLooked(due, order', g);
  }

  // ---------------------------------------------------------------- backends

  /** The policies of a kind that routes have for a Gateway. */
  ghost function OfRoutes(due: Due, routes: set<GKNN>, g: GKNN, kind: string): set<P.Policy> {
    set r | r in routes && HasPolicies(due, r, g) && kind in due[r].httpRouteEffective[g] ::
      due[r].httpRouteEffective[g][kind]
  }

  lemma {:induction false} PresentHas(maps: seq<PolicyMap>, k: string, i: nat)
    requires i < |maps| && k in maps[i]
    ensures maps[i][k] in Present(maps, k)
  {
    if i < |maps| - 1 { PresentHas(maps[..|maps| - 1], k, i); }
  }

  lemma ElementsOfRoutes(due: Due, routes: set<GKNN>, g: GKNN, order: seq<GKNN>, kind: string)
    requires IsOrder(due, RoutesFor(due, routes, g), g, order)
    ensures Elements(Present(RouteMaps(due, order, g), kind)) == OfRoutes(due, routes, g, kind)
    ensures Present(RouteMaps(due, order, g), kind) == [] <==> OfRoutes(due, routes, g, kind) == {}
  {
    hide Present;
    var maps := RouteMaps(due, order, g);
    var ps := Present(maps, kind);
    forall p ensures p in ps <==> p in OfRoutes(due, routes, g, kind) {
      if p in ps {
        var i := PresentHolder(maps, kind, p);
        assert order[i] in order;
      }
      if p in OfRoutes(due, routes, g, kind) {
        var r :| r in routes && HasPolicies(due, r, g) && kind in due[r].httpRouteEffective[g]
          && due[r].httpRouteEffective[g][kind] == p;
        assert r in RoutesFor(due, routes, g);
        var i :| 0 <= i < |order| && order[i] == r;
        PresentHas(maps, kind, i);
      }
    }
    if ps != [] { assert ps[0] in Elements(ps); }
  }

  /** Of no kind that the routes have for the Gateway does the order of the routes make a difference. */
  ghost predicate Settled(policies: Policies, due: Due, routes: set<GKNN>, g: GKNN) {
    forall kind :: OfRoutes(due, routes, g, kind) != {} ==> SettledKind(policies, OfRoutes(due, routes, g, kind), kind)
  }

  ghost predicate SettledKind(policies: Policies, s: set<P.Policy>, kind: string) {
    && (exists namespaced :: UniformKind(Members(policies, kind), namespaced))
    && forall path :: OrderFree(s, path)
  }

  lemma RoutesAreOrderly(nodes: map<GKNN, Node>, rels: Relations, maxDepth: int, policies: Policies, due: Due,
                         routes: set<GKNN>, g: GKNN, order: seq<GKNN>, kind: string, namespaced: bool)
    requires EffectiveExactly(nodes, rels, maxDepth, policies, due) && IsOrder(due, RoutesFor(due, routes, g), g, order)
    requires UniformKind(Members(policies, kind), namespaced)
    ensures Orderly(RouteMaps(due, order, g), kind, namespaced)
  {
    hide EffectiveExactly, UniformKind, Present, FullMetadata, Uniform, OfRoutes, AllDerived;
    ElementsOfRoutes(due, routes, g, order, kind);
    RoutesAreDerived(nodes, rels, maxDepth, policies, due, order, g, kind, namespaced);
    DerivedAreUniform(Members(policies, kind), namespaced, Present(RouteMaps(due, order, g), kind));
  }

  /** What settled routes merge to does not depend on their order. */
  lemma SettledMerge(nodes: map<GKNN, Node>, rels: Relations, maxDepth: int, policies: Policies, due: Due,
                     routes: set<GKNN>, g: GKNN, order: seq<GKNN>, order': seq<GKNN>, m: PolicyMap, m': PolicyMap)
    requires EffectiveExactly(nodes, rels, maxDepth, policies, due) && Settled(policies, due, routes, g)
    requires MergedInOrder(due, RoutesFor(due, routes, g), g, order, m)
    requires MergedInOrder(due, RoutesFor(due, routes, g), g, order', m')
    ensures m == m'
  {
    hide EffectiveExactly, UniformKind, OrderFree, Present, IsAccumulated, OfRoutes, Orderly;
    var maps, maps' := RouteMaps(due, order, g), RouteMaps(due, order', g);
    ReorderedMaps(due, RoutesFor(due, routes, g), g, order, order');
    forall kind | kind in m
      ensures exists namespaced :: Orderly(maps, kind, namespaced)
      ensures forall path :: OrderFree(Elements(Present(maps, kind)), path)
    {
      AccumulatedIsFold(maps, m, kind);
      ElementsOfRoutes(due, routes, g, order, kind);
      assert SettledKind(policies, OfRoutes(due, routes, g, kind), kind);
      var namespaced :| UniformKind(Members(policies, kind), namespaced);
      RoutesAreOrderly(nodes, rels, maxDepth, policies, due, routes, g, order, kind, namespaced);
    }
    AnyOrderOfRoutes(maps, maps', m, m');
  }

  lemma SameRoutes(a: Due, b: Due, routes: set<GKNN>, g: GKNN)
    requires a.Keys == b.Keys && forall r :: r in a ==> a[r].httpRouteEffective == b[r].httpRouteEffective
    ensures RoutesFor(a, routes, g) == RoutesFor(b, routes, g)
    ensures forall order ::
      IsOrder(a, RoutesFor(a, routes, g), g, order) <==> IsOrder(b, RoutesFor(b, routes, g), g, order)
    ensures forall order :: IsOrder(a, RoutesFor(a, routes, g), g, order) ==>
      RouteMaps(a, order, g) == RouteMaps(b, order, g)
  {
  }

  /** Main result: two outcomes agree on a Backend whose routes are settled for all their Gateways. */
  lemma BackendIsUnique(nodes: map<GKNN, Node>, rels: Relations, maxDepth: int, policies: Policies, a: Due, b: Due,
                        k: GKNN)
    requires KeyedById(policies) && AllPlainlyNamed(policies) && a.Keys == b.Keys && k in a
    requires EffectiveExactly(nodes, rels, maxDepth, policies, a)
    requires EffectiveExactly(nodes, rels, maxDepth, policies, b)
    requires k in nodes && forall g :: g in a[k].backendEffective ==>
      Settled(policies, a, Referrers(nodes, nodes[k], rels.backendRef), g)
    ensures a[k].backendEffective == b[k].backendEffective
  {
    hide EffectiveExactly, AllPlainlyNamed, KeyedById, Settled, Referrers;
    forall r | r in a ensures a[r].httpRouteEffective == b[r].httpRouteEffective {
      EffectiveIsUnique(nodes, rels, maxDepth, policies, a, b, r);
    }
    var m, n := a[k].backendEffective, b[k].backendEffective;
    SameBackendKeys(nodes, rels, maxDepth, policies, a, b, k);
    forall g | g in m ensures m[g] == n[g] { BackendForIsUnique(nodes, rels, maxDepth, policies, a, b, k, g); }
  }

  lemma SameBackendKeys(nodes: map<GKNN, Node>, rels: Relations, maxDepth: int, policies: Policies, a: Due, b: Due,
                        k: GKNN)
    requires a.Keys == b.Keys && forall r :: r in a ==> a[r].httpRouteEffective == b[r].httpRouteEffective
    requires EffectiveExactly(nodes, rels, maxDepth, policies, a)
    requires EffectiveExactly(nodes, rels, maxDepth, policies, b) && k in a
    ensures a[k].backendEffective.Keys == b[k].backendEffective.Keys
  {
    if k.GK() == SERVICE_GK {
      hide EffectiveExactly, Targets, Referrers;
      forall g ensures g in a[k].backendEffective <==> g in b[k].backendEffective {
        KeysOfRoutes(nodes, rels, maxDepth, policies, a, k, g);
        KeysOfRoutes(nodes, rels, maxDepth, policies, b, k, g);
      }
    } else {
      OnlyBackends(nodes, rels, maxDepth, policies, a, k);
      OnlyBackends(nodes, rels, maxDepth, policies, b, k);
    }
  }

  lemma OnlyBackends(nodes: map<GKNN, Node>, rels: Relations, maxDepth: int, policies: Policies, due: Due, k: GKNN)
    requires EffectiveExactly(nodes, rels, maxDepth, policies, due) && k in due
    ensures k.GK() != SERVICE_GK ==> due[k].backendEffective == map[]
  {
    hide GatewayEffective, RouteEffective, BackendEffective;
  }

  lemma BackendForIsUnique(nodes: map<GKNN, Node>, rels: Relations, maxDepth: int, policies: Policies, a: Due, b: Due,
                           k: GKNN, g: GKNN)
    requires KeyedById(policies) && AllPlainlyNamed(policies) && a.Keys == b.Keys && k in a && k in nodes
    requires forall r :: r in a ==> a[r].httpRouteEffective == b[r].httpRouteEffective
    requires EffectiveExactly(nodes, rels, maxDepth, policies, a)
    requires EffectiveExactly(nodes, rels, maxDepth, policies, b)
    requires g in a[k].backendEffective && g in b[k].backendEffective
    requires Settled(policies, a, Referrers(nodes, nodes[k], rels.backendRef), g)
    ensures a[k].backendEffective[g] == b[k].backendEffective[g]
  {
    hide EffectiveExactly, AllPlainlyNamed, KeyedById, Settled, Referrers, IsStack, RouteMaps, IsAccumulated, IsOrder;
    var routes := Referrers(nodes, nodes[k], rels.backendRef);
    var order, above := BackendStack(nodes, rels, maxDepth, policies, a, k, g);
    var order', above' := BackendStack(nodes, rels, maxDepth, policies, b, k, g);
    SameRoutes(a, b, routes, g);
    SettledMerge(nodes, rels, maxDepth, policies, a, routes, g, order, order', above, above');
    StackIsUnique(policies, [above], [NamespaceRef(nodes[k].obj), nodes[k].Id()], a[k].backendEffective[g],
                  b[k].backendEffective[g]);
  }

  // ---------------------------------------------------------------- another order is another outcome

  /** What is effective at a Backend with another value for one Gateway. */
  function WithBackend(due: Due, b: GKNN, g: GKNN, merged: PolicyMap): Due
    requires b in due
  {
    due[b := due[b].(backendEffective := due[b].backendEffective[g := merged])]
  }

  /** Any order of the routes is a possible one. */
  lemma AnotherOutcome(nodes: map<GKNN, Node>, rels: Relations, maxDepth: int, policies: Policies, due: Due, b: GKNN,
                       g: GKNN, order: seq<GKNN>, above: PolicyMap, merged: PolicyMap)
    requires EffectiveExactly(nodes, rels, maxDepth, policies, due) && b in due && b in nodes
    requires g in due[b].backendEffective
    requires MergedInOrder(due, RoutesFor(due, Referrers(nodes, nodes[b], rels.backendRef), g), g, order, above)
    requires IsStack(policies, [above], [NamespaceRef(nodes[b].obj), nodes[b].Id()], merged)
    ensures EffectiveExactly(nodes, rels, maxDepth, policies, WithBackend(due, b, g, merged))
  {
    hide GatewayEffective, RouteEffective, BackendEffective, MergedInOrder, IsStack;
    RoutesStay(nodes, rels, maxDepth, policies, due, b, g, merged);
    BackendReplaced(nodes, rels, maxDepth, policies, due, b, g, order, above, merged);
    OtherBackendsStay(nodes, rels, maxDepth, policies, due, b, g, merged);
  }

  lemma RoutesStay(nodes: map<GKNN, Node>, rels: Relations, maxDepth: int, policies: Policies, due: Due, b: GKNN,
                   g: GKNN, merged: PolicyMap)
    requires EffectiveExactly(nodes, rels, maxDepth, policies, due) && b in due
    ensures forall k :: k in due && k.GK() == HTTP_ROUTE_GK ==>
      RouteEffective(nodes[k], rels, policies, WithBackend(due, b, g, merged), due[k].httpRouteEffective)
  {
    hide GatewayEffective, RouteEffective, BackendEffective;
    var due' := WithBackend(due, b, g, merged);
    forall k | k in due && k.GK() == HTTP_ROUTE_GK
      ensures RouteEffective(nodes[k], rels, policies, due', due[k].httpRouteEffective)
    {
      RouteEffectiveSame(nodes[k], rels, policies, due, due', due[k].httpRouteEffective);
    }
  }

  lemma OtherBackendsStay(nodes: map<GKNN, Node>, rels: Relations, maxDepth: int, policies: Policies, due: Due,
                          b: GKNN, g: GKNN, merged: PolicyMap)
    requires EffectiveExactly(nodes, rels, maxDepth, policies, due) && b in due
    ensures forall k :: k in due && k.GK() == SERVICE_GK ==>
      BackendEffective(nodes, nodes[k], rels, policies, WithBackend(due, b, g, merged), due[k].backendEffective)
  {
    hide GatewayEffective, RouteEffective, BackendEffective;
    var due' := WithBackend(due, b, g, merged);
    forall k | k in due && k.GK() == SERVICE_GK
      ensures BackendEffective(nodes, nodes[k], rels, policies, due', due[k].backendEffective)
    {
      BackendEffectiveSame(nodes, nodes[k], rels, policies, due, due', due[k].backendEffective);
    }
  }

  lemma BackendReplaced(nodes: map<GKNN, Node>, rels: Relations, maxDepth: int, policies: Policies, due: Due, b: GKNN,
                        g: GKNN, order: seq<GKNN>, above: PolicyMap, merged: PolicyMap)
    requires EffectiveExactly(nodes, rels, maxDepth, policies, due) && b in due && b in nodes
    requires g in due[b].backendEffective
    requires MergedInOrder(due, RoutesFor(due, Referrers(nodes, nodes[b], rels.backendRef), g), g, order, above)
    requires IsStack(policies, [above], [NamespaceRef(nodes[b].obj), nodes[b].Id()], merged)
    ensures var due' := WithBackend(due, b, g, merged);
      b.GK() == SERVICE_GK && BackendEffective(nodes, nodes[b], rels, policies, due', due'[b].backendEffective)
  {
    hide GatewayEffective, RouteEffective, BackendEffective, IsStack, MergedInOrder, Referrers;
    var due' := WithBackend(due, b, g, merged);
    OnlyBackends(nodes, rels, maxDepth, policies, due, b);
    ValueReplaced(nodes, nodes[b], rels, policies, due, due[b].backendEffective, g, order, above, merged);
    BackendEffectiveSame(nodes, nodes[b], rels, policies, due, due', due'[b].backendEffective);
  }

  lemma ValueReplaced(nodes: map<GKNN, Node>, node: Node, rels: Relations, policies: Policies, due: Due,
                      values: map<GKNN, PolicyMap>, g: GKNN, order: seq<GKNN>, above: PolicyMap, merged: PolicyMap)
    requires BackendEffective(nodes, node, rels, policies, due, values) && g in values
    requires MergedInOrder(due, RoutesFor(due, Referrers(nodes, node, rels.backendRef), g), g, order, above)
    requires IsStack(policies, [above], [NamespaceRef(node.obj), node.Id()], merged)
    ensures BackendEffective(nodes, node, rels, policies, due, values[g := merged])
  {
    hide IsStack, MergedInOrder, Targets, Referrers;
  }

  /** The policies recorded for routes are sound. */
  lemma RoutesAreSound(nodes: map<GKNN, Node>, rels: Relations, maxDepth: int, policies: Policies, due: Due,
                       order: seq<GKNN>, g: GKNN)
    requires EffectiveExactly(nodes, rels, maxDepth, policies, due) && AllReadable(policies)
    requires forall i :: 0 <= i < |order| ==> HasPolicies(due, order[i], g)
    ensures AllMapsSound(RouteMaps(due, order, g))
  {
    hide EffectiveExactly, AllReadable, Sound, IsStack, RouteIds;
    var maps := RouteMaps(due, order, g);
    forall i | 0 <= i < |maps| ensures Sound(maps[i]) {
      RouteLevels(nodes, rels, maxDepth, policies, due, order[i], g);
      StackIsSound(policies, RouteIds(nodes, rels, maxDepth, order[i], g), maps[i]);
    }
  }

  lemma LevelsAreSound(policies: Policies, ids: seq<GKNN>, levels: seq<PolicyMap>)
    requires AreLevels(policies, ids, levels) && AllReadable(policies)
    ensures AllMapsSound(levels)
  {
    hide Sound, IsLevel;
    forall i | 0 <= i < |levels| ensures Sound(levels[i]) { SoundLevel(AttachedTo(policies, ids[i]), Ok(levels[i])); }
  }

  lemma StackIsSound(policies: Policies, ids: seq<GKNN>, merged: PolicyMap)
    requires IsStack(policies, [], ids, merged) && AllReadable(policies)
    ensures Sound(merged)
  {
    hide Sound, AreLevels, IsHierarchy, AllReadable;
    var levels :| AreLevels(policies, ids, levels) && IsHierarchy([] + levels, merged);
    assert [] + levels == levels;
    LevelsAreSound(policies, ids, levels);
    SoundHierarchy(levels, merged);
  }

  lemma LevelsAreUnique(policies: Policies, ids: seq<GKNN>, s: seq<PolicyMap>, t: seq<PolicyMap>)
    requires KeyedById(policies) && AllPlainlyNamed(policies) && AreLevels(policies, ids, s)
    requires AreLevels(policies, ids, t)
    ensures s == t
  {
    hide IsLevel, PlainlyNamed;
    forall i | 0 <= i < |ids| ensures s[i] == t[i] { LevelIsUnique(AttachedTo(policies, ids[i]), s[i], t[i]); }
  }

  /** All outcomes agree on what a Backend has of a kind at a path. */
  ghost predicate Determined(nodes: map<GKNN, Node>, rels: Relations, maxDepth: int, policies: Policies, due: Due,
                             b: GKNN, g: GKNN, kind: string, path: Path)
    requires b in due && g in due[b].backendEffective
    reads nodes.Values`outNeighbors, nodes.Values`inNeighbors, nodes.Values`depth
  {
    forall due': Due :: due'.Keys == due.Keys && EffectiveExactly(nodes, rels, maxDepth, policies, due') ==>
      g in due'[b].backendEffective && SameCell(due[b].backendEffective[g], due'[b].backendEffective[g], kind, path)
  }

  lemma OrderHasPolicies(due: Due, routes: set<GKNN>, g: GKNN, order: seq<GKNN>)
    requires IsOrder(due, routes, g, order)
    ensures forall i :: 0 <= i < |order| ==> HasPolicies(due, order[i], g)
  {
  }

  lemma CellBelow(nodes: map<GKNN, Node>, rels: Relations, maxDepth: int, policies: Policies, due: Due,
                  order: seq<GKNN>, g: GKNN, above: PolicyMap, ids: seq<GKNN>, levels: seq<PolicyMap>,
                  merged: PolicyMap, kind: string, path: Path, namespaced: bool)
    requires EffectiveExactly(nodes, rels, maxDepth, policies, due) && UniformKind(Members(policies, kind), namespaced)
    requires forall i :: 0 <= i < |order| ==> HasPolicies(due, order[i], g)
    requires IsAccumulated(RouteMaps(due, order, g), above) && AreLevels(policies, ids, levels)
    requires IsHierarchy([above] + levels, merged)
    ensures CellOf(merged, kind, path) ==
      BelowRoutes(WinningCell(Present(RouteMaps(due, order, g), kind), path), Present(levels, kind), path)
  {
    hide EffectiveExactly, AreLevels, IsHierarchy, UniformKind, IsAccumulated, Members, Derived, Present, BelowRoutes,
      RouteMaps;
    RoutesAreDerived(nodes, rels, maxDepth, policies, due, order, g, kind, namespaced);
    var slices := SlicesOf(policies, ids, levels);
    LevelsAt(policies, ids, slices, levels, kind, path, namespaced);
    BackendAt(RouteMaps(due, order, g), above, levels, merged, kind, path, Members(policies, kind), namespaced);
  }

  /** What a Backend has of a kind at a path, by the order of the routes that it came from. */
  lemma BackendCell(nodes: map<GKNN, Node>, rels: Relations, maxDepth: int, policies: Policies, due: Due, b: GKNN,
                    g: GKNN, levels: seq<PolicyMap>, kind: string, path: Path, namespaced: bool)
    returns (order: seq<GKNN>, above: PolicyMap)
    requires EffectiveExactly(nodes, rels, maxDepth, policies, due) && b in due && g in due[b].backendEffective
    requires KeyedById(policies) && AllPlainlyNamed(policies) && UniformKind(Members(policies, kind), namespaced)
    requires b in nodes && AreLevels(policies, [NamespaceRef(nodes[b].obj), nodes[b].Id()], levels)
    ensures IsOrder(due, RoutesFor(due, Referrers(nodes, nodes[b], rels.backendRef), g), g, order)
    ensures IsAccumulated(RouteMaps(due, order, g), above)
    ensures CellOf(due[b].backendEffective[g], kind, path) ==
      BelowRoutes(WinningCell(Present(RouteMaps(due, order, g), kind), path), Present(levels, kind), path)
  {
    hide EffectiveExactly, AreLevels, IsHierarchy, KeyedById, AllPlainlyNamed, UniformKind, IsOrder, IsAccumulated,
      Members, Derived, Present, BelowRoutes, Referrers;
    order, above := BackendStack(nodes, rels, maxDepth, policies, due, b, g);
    var ids := [NamespaceRef(nodes[b].obj), nodes[b].Id()];
    var levels' :| AreLevels(policies, ids, levels') && IsHierarchy([above] + levels', due[b].backendEffective[g]);
    LevelsAreUnique(policies, ids, levels, levels');
    OrderHasPolicies(due, RoutesFor(due, Referrers(nodes, nodes[b], rels.backendRef), g), g, order);
    CellBelow(nodes, rels, maxDepth, policies, due, order, g, above, ids, levels, due[b].backendEffective[g], kind,
              path, namespaced);
  }

  /** Two orders of the routes that give a Backend different cells are both possible. */
  lemma OrderMatters(nodes: map<GKNN, Node>, rels: Relations, maxDepth: int, policies: Policies, due: Due, b: GKNN,
                     g: GKNN, levels: seq<PolicyMap>, order: seq<GKNN>, kind: string, path: Path, namespaced: bool)
    requires EffectiveExactly(nodes, rels, maxDepth, policies, due) && b in due && g in due[b].backendEffective
    requires AllReadable(policies) && UniformKind(Members(policies, kind), namespaced)
    requires b in nodes && AreLevels(policies, [NamespaceRef(nodes[b].obj), nodes[b].Id()], levels)
    requires IsOrder(due, RoutesFor(due, Referrers(nodes, nodes[b], rels.backendRef), g), g, order)
    requires Determined(nodes, rels, maxDepth, policies, due, b, g, kind, path)
    ensures CellOf(due[b].backendEffective[g], kind, path) ==
      BelowRoutes(WinningCell(Present(RouteMaps(due, order, g), kind), path), Present(levels, kind), path)
  {
    hide EffectiveExactly, AreLevels, IsHierarchy, AllReadable, UniformKind, IsOrder, IsAccumulated, Members, Present,
      BelowRoutes, Referrers, RouteMaps, AllMapsSound, Sound;
    var ids := [NamespaceRef(nodes[b].obj), nodes[b].Id()];
    var routes := RoutesFor(due, Referrers(nodes, nodes[b], rels.backendRef), g);
    OrderHasPolicies(due, routes, g, order);
    RoutesAreSound(nodes, rels, maxDepth, policies, due, order, g);
    LevelsAreSound(policies, ids, levels);
    var above := AccumulationExists(RouteMaps(due, order, g));
    OneOnTop(above, levels);
    var merged := HierarchyExists([above] + levels);
    AnotherOutcome(nodes, rels, maxDepth, policies, due, b, g, order, above, merged);
    CellBelow(nodes, rels, maxDepth, policies, due, order, g, above, ids, levels, merged, kind, path, namespaced);
    assert WithBackend(due, b, g, merged).Keys == due.Keys;
  }

  lemma OneOnTop(above: PolicyMap, levels: seq<PolicyMap>)
    requires Sound(above) && AllMapsSound(levels)
    ensures AllMapsSound([above] + levels)
  {
    hide Sound;
  }

  /** Main result: what a Backend has of a kind at a path is determined exactly if the path is order-free for
      what its routes have of the kind, or is not below the override and the Backend or its
      Namespace has something there. */
  lemma DeterminedIff(nodes: map<GKNN, Node>, rels: Relations, maxDepth: int, policies: Policies, due: Due, b: GKNN,
                      g: GKNN, kind: string, path: Path, namespaced: bool)
    returns (slices: seq<seq<P.Policy>>)
    requires EffectiveExactly(nodes, rels, maxDepth, policies, due) && b in due && g in due[b].backendEffective
    requires KeyedById(policies) && AllPlainlyNamed(policies) && AllReadable(policies)
    requires UniformKind(Members(policies, kind), namespaced) && b in nodes
    ensures AreSlices(policies, [NamespaceRef(nodes[b].obj), nodes[b].Id()], slices)
    ensures Determined(nodes, rels, maxDepth, policies, due, b, g, kind, path) <==>
      || OrderFree(OfRoutes(due, Referrers(nodes, nodes[b], rels.backendRef), g, kind), path)
      || (!UnderOverride(path) && LastWinner(slices, kind, path) != Absent)
  {
    hide EffectiveExactly, AreLevels, AreSlices, KeyedById, AllPlainlyNamed, AllReadable, UniformKind, IsOrder,
      IsAccumulated, Members, Present, BelowRoutes, Referrers, RouteMaps, OfRoutes, OrderFree,
      AllBackendOrdersAgree, Determined, WinningCell, AllDerived;
    var ids := [NamespaceRef(nodes[b].obj), nodes[b].Id()];
    var routes := Referrers(nodes, nodes[b], rels.backendRef);
    var levels := LevelsOf(nodes, rels, maxDepth, policies, due, b, g);
    slices := SlicesOf(policies, ids, levels);
    LevelsAt(policies, ids, slices, levels, kind, path, namespaced);
    var order, above := BackendStack(nodes, rels, maxDepth, policies, due, b, g);
    OrderHasPolicies(due, RoutesFor(due, routes, g), g, order);
    ElementsOfRoutes(due, routes, g, order, kind);
    var maps, lower := RouteMaps(due, order, g), Present(levels, kind);
    AllBackendOrdersAgreeIff(maps, lower, kind, path);
    if Determined(nodes, rels, maxDepth, policies, due, b, g, kind, path) {
      DeterminedAgrees(nodes, rels, maxDepth, policies, due, b, g, levels, order, kind, path, namespaced);
    }
    if AllBackendOrdersAgree(maps, lower, kind, path) {
      AgreeingIsDetermined(nodes, rels, maxDepth, policies, due, b, g, levels, order, kind, path, namespaced);
    }
  }

  lemma LevelsOf(nodes: map<GKNN, Node>, rels: Relations, maxDepth: int, policies: Policies, due: Due, b: GKNN, g: GKNN)
    returns (levels: seq<PolicyMap>)
    requires EffectiveExactly(nodes, rels, maxDepth, policies, due) && b in due && g in due[b].backendEffective
    ensures b in nodes && AreLevels(policies, [NamespaceRef(nodes[b].obj), nodes[b].Id()], levels)
  {
    hide EffectiveExactly, AreLevels, IsHierarchy, IsAccumulated, Referrers, IsOrder;
    var order, above := BackendStack(nodes, rels, maxDepth, policies, due, b, g);
    levels :| AreLevels(policies, [NamespaceRef(nodes[b].obj), nodes[b].Id()], levels)
      && IsHierarchy([above] + levels, due[b].backendEffective[g]);
  }

  lemma DeterminedAgrees(nodes: map<GKNN, Node>, rels: Relations, maxDepth: int, policies: Policies, due: Due, b: GKNN,
                         g: GKNN, levels: seq<PolicyMap>, order: seq<GKNN>, kind: string, path: Path, namespaced: bool)
    requires EffectiveExactly(nodes, rels, maxDepth, policies, due) && b in due && g in due[b].backendEffective
    requires AllReadable(policies) && UniformKind(Members(policies, kind), namespaced)
    requires b in nodes && AreLevels(policies, [NamespaceRef(nodes[b].obj), nodes[b].Id()], levels)
    requires IsOrder(due, RoutesFor(due, Referrers(nodes, nodes[b], rels.backendRef), g), g, order)
    requires Determined(nodes, rels, maxDepth, policies, due, b, g, kind, path)
    ensures forall i :: 0 <= i < |order| ==> HasPolicies(due, order[i], g)
    ensures AllBackendOrdersAgree(RouteMaps(due, order, g), Present(levels, kind), kind, path)
  {
    hide EffectiveExactly, AreLevels, AllReadable, UniformKind, IsOrder, Members, Present, BelowRoutes, Referrers,
      RouteMaps, Determined, WinningCell;
    var routes := RoutesFor(due, Referrers(nodes, nodes[b], rels.backendRef), g);
    OrderHasPolicies(due, routes, g, order);
    var maps, lower := RouteMaps(due, order, g), Present(levels, kind);
    OrderMatters(nodes, rels, maxDepth, policies, due, b, g, levels, order, kind, path, namespaced);
    forall maps': seq<PolicyMap> | multiset(maps') == multiset(maps) ensures SameBelow(maps, maps', lower, kind, path) {
      var order' := OrderOfMaps(due, routes, g, order, maps');
      OrderHasPolicies(due, routes, g, order');
      OrderMatters(nodes, rels, maxDepth, policies, due, b, g, levels, order', kind, path, namespaced);
    }
  }

  lemma AgreeingIsDetermined(nodes: map<GKNN, Node>, rels: Relations, maxDepth: int, policies: Policies, due: Due,
                             b: GKNN, g: GKNN, levels: seq<PolicyMap>, order: seq<GKNN>, kind: string, path: Path,
                             namespaced: bool)
    requires EffectiveExactly(nodes, rels, maxDepth, policies, due) && b in due && g in due[b].backendEffective
    requires KeyedById(policies) && AllPlainlyNamed(policies) && UniformKind(Members(policies, kind), namespaced)
    requires b in nodes && AreLevels(policies, [NamespaceRef(nodes[b].obj), nodes[b].Id()], levels)
    requires IsOrder(due, RoutesFor(due, Referrers(nodes, nodes[b], rels.backendRef), g), g, order)
    requires forall i :: 0 <= i < |order| ==> HasPolicies(due, order[i], g)
    requires AllBackendOrdersAgree(RouteMaps(due, order, g), Present(levels, kind), kind, path)
    ensures Determined(nodes, rels, maxDepth, policies, due, b, g, kind, path)
  {
    hide EffectiveExactly, AreLevels, KeyedById, AllPlainlyNamed, UniformKind, IsOrder, IsAccumulated, Members, Present,
      BelowRoutes, Referrers, RouteMaps, AllBackendOrdersAgree, WinningCell;
    OneOrderOf(nodes, rels, maxDepth, policies, due, due, b, g, levels, order, kind, path, namespaced);
    forall due': Due | due'.Keys == due.Keys && EffectiveExactly(nodes, rels, maxDepth, policies, due')
      ensures g in due'[b].backendEffective
      ensures SameCell(due[b].backendEffective[g], due'[b].backendEffective[g], kind, path)
    {
      forall r | r in due ensures due[r].httpRouteEffective == due'[r].httpRouteEffective {
        EffectiveIsUnique(nodes, rels, maxDepth, policies, due, due', r);
      }
      SameBackendKeys(nodes, rels, maxDepth, policies, due, due', b);
      OneOrderOf(nodes, rels, maxDepth, policies, due, due', b, g, levels, order, kind, path, namespaced);
    }
  }

  /** Any outcome has the cell that goes with a given order. */
  lemma OneOrderOf(nodes: map<GKNN, Node>, rels: Relations, maxDepth: int, policies: Policies, due: Due, due': Due,
                   b: GKNN, g: GKNN, levels: seq<PolicyMap>, order: seq<GKNN>, kind: string, path: Path,
                   namespaced: bool)
    requires due'.Keys == due.Keys && forall r :: r in due ==> due[r].httpRouteEffective == due'[r].httpRouteEffective
    requires EffectiveExactly(nodes, rels, maxDepth, policies, due') && b in due' && g in due'[b].backendEffective
    requires KeyedById(policies) && AllPlainlyNamed(policies) && UniformKind(Members(policies, kind), namespaced)
    requires b in nodes && AreLevels(policies, [NamespaceRef(nodes[b].obj), nodes[b].Id()], levels)
    requires IsOrder(due, RoutesFor(due, Referrers(nodes, nodes[b], rels.backendRef), g), g, order)
    requires forall i :: 0 <= i < |order| ==> HasPolicies(due, order[i], g)
    requires AllBackendOrdersAgree(RouteMaps(due, order, g), Present(levels, kind), kind, path)
    ensures CellOf(due'[b].backendEffective[g], kind, path) ==
      BelowRoutes(WinningCell(Present(RouteMaps(due, order, g), kind), path), Present(levels, kind), path)
  {
    hide EffectiveExactly, AreLevels, KeyedById, AllPlainlyNamed, UniformKind, IsOrder, IsAccumulated, Members, Present,
      BelowRoutes, Referrers, RouteMaps, WinningCell;
    var routes := Referrers(nodes, nodes[b], rels.backendRef);
    var order', above := BackendCell(nodes, rels, maxDepth, policies, due', b, g, levels, kind, path, namespaced);
    OrderHasPolicies(due', RoutesFor(due', routes, g), g, order');
    SameRoutes(due, due', routes, g);
    ReorderedMaps(due, RoutesFor(due, routes, g), g, order, order');
    assert SameBelow(RouteMaps(due, order, g), RouteMaps(due', order', g), Present(levels, kind), kind, path);
  }
}

/** The effective policies of a Gateway, an HTTPRoute or a Backend: what they are, and how they are
    calculated (pkg/extension/gatewayeffectivepolicy/gatewayeffectivepolicy.go, lines 191 to 444). */
module EffectivePolicies {
  import opened Common
  import opened DirectlyAttachedPolicy
  import opened Gateway
  import opened GatewayNodes
  import opened InheritedPolicies
  import opened LevelHierarchy
  import opened Merger
  import opened Metadata
  import opened PolicyLevels
  import opened Topology
  import SimilarKind

  /** What can go wrong: metadata that belongs to something else, say, or policies that do not merge. */
  datatype Failure = OtherError(message: string) | BadPolicies(error: Policy.Error)

  /** No policy stands in the way of a merge. */
  ghost predicate AllReadable(policies: Policies) {
    forall g :: g in policies && policies[g].inheritable ==> Readable(policies[g])
  }

  // ---------------------------------------------------------------- what is effective

  /** The levels of some objects, top first, below what has been merged already. */
  ghost predicate AreLevels(policies: Policies, ids: seq<GKNN>, levels: seq<PolicyMap>) {
    |levels| == |ids| && forall i :: 0 <= i < |ids| ==> IsLevel(AttachedTo(policies, ids[i]), Ok(levels[i]))
  }

  ghost predicate IsStack(policies: Policies, above: seq<PolicyMap>, ids: seq<GKNN>, merged: PolicyMap) {
    exists levels :: AreLevels(policies, ids, levels) && IsHierarchy(above + levels, merged)
  }

  /** A Gateway: its GatewayClass, its Namespace and itself, unless one of the two is not in the graph or the
      Gateway is too deep. */
  ghost predicate GatewayEffective(node: Node, rels: Relations, maxDepth: int, policies: Policies, merged: PolicyMap)
    reads node`outNeighbors, node`depth
  {
    if node.depth > maxDepth || GatewayClassRef(node.obj) !in Targets(node, rels.gatewayClass)
       || NamespaceRef(node.obj) !in Targets(node, rels.gatewayNamespace)
    then merged == map[]
    else IsStack(policies, [], [GatewayClassRef(node.obj)] + [NamespaceRef(node.obj), node.Id()], merged)
  }

  /** An HTTPRoute, for each of its Gateways: what is effective there, its Namespace and itself, unless the
      Namespace is not in the graph. */
  ghost predicate RouteEffective(node: Node, rels: Relations, policies: Policies, due: Due,
                                 merged: map<GKNN, PolicyMap>)
    reads node`outNeighbors
  {
    if NamespaceRef(node.obj) !in Targets(node, rels.httpRouteNamespace) then merged == map[]
    else
      && merged.Keys == Targets(node, rels.parentRef)
      && forall g :: g in merged ==>
         g in due && IsStack(policies, [due[g].gatewayEffective], [NamespaceRef(node.obj), node.Id()], merged[g])
  }

  /** The HTTPRoute `r` has effective policies for the Gateway `g`. */
  ghost predicate HasPolicies(due: Due, r: GKNN, g: GKNN) {
    r in due && g in due[r].httpRouteEffective
  }

  ghost function RouteMaps(due: Due, routes: seq<GKNN>, g: GKNN): seq<PolicyMap>
    requires forall i :: 0 <= i < |routes| ==> HasPolicies(due, routes[i], g)
  {
    seq(|routes|, i requires 0 <= i < |routes| && HasPolicies(due, routes[i], g) =>
      due[routes[i]].httpRouteEffective[g])
  }

  /** `order` lists `routes`, all of which have policies for `g`. */
  ghost predicate IsOrder(due: Due, routes: set<GKNN>, g: GKNN, order: seq<GKNN>) {
    && (forall r :: r in order <==> r in routes)
    && (forall i, j :: 0 <= i < j < |order| ==> order[i] != order[j])
    && (forall i :: 0 <= i < |order| ==> HasPolicies(due, order[i], g))
  }

  /** `order` is an order of `routes`, and `merged` what their policies for `g` merge to in this order. */
  ghost predicate MergedInOrder(due: Due, routes: set<GKNN>, g: GKNN, order: seq<GKNN>, merged: PolicyMap) {
    IsOrder(due, routes, g, order) && IsAccumulated(RouteMaps(due, order, g), merged)
  }

  ghost function RoutesFor(due: Due, routes: set<GKNN>, g: GKNN): set<GKNN> {
    set r | r in routes && HasPolicies(due, r, g)
  }

  /** A Backend, for each Gateway of one of its HTTPRoutes: what is effective there, merged in some order, its
      Namespace and itself, unless the Namespace is not in the graph. */
  ghost predicate BackendEffective(nodes: map<GKNN, Node>, node: Node, rels: Relations, policies: Policies, due: Due,
                                   merged: map<GKNN, PolicyMap>)
    reads node`outNeighbors, node`inNeighbors
  {
    if NamespaceRef(node.obj) !in Targets(node, rels.backendNamespace) then merged == map[]
    else
      var routes := Referrers(nodes, node, rels.backendRef);
      && (forall g :: g in merged <==> RoutesFor(due, routes, g) != {})
      && forall g :: g in merged ==> exists order, above ::
           MergedInOrder(due, RoutesFor(due, routes, g), g, order, above)
             && IsStack(policies, [above], [NamespaceRef(node.obj), node.Id()], merged[g])
  }

  // ---------------------------------------------------------------- levels

  /** The level that a node makes up. */
  method DirectLevel(node: Node) returns (r: Result<PolicyMap, Failure>)
    requires DirectlyAttachedPolicy.Access(node).Ok? ==> KeyedById(DirectlyAttachedPolicy.Access(node).value)
    ensures DirectlyAttachedPolicy.Access(node).Err? ==> r.Err?
    ensures DirectlyAttachedPolicy.Access(node).Ok? ==> match r
      case Ok(level) => IsLevel(DirectlyAttachedPolicy.Access(node).value, Ok(level))
      case Err(e) => e.BadPolicies? && IsLevel(DirectlyAttachedPolicy.Access(node).value, Err(e.error))
  {
    var direct := DirectlyAttachedPolicy.Access(node);
    if direct.Err? {
      return Err(OtherError(direct.error));
    }
    var level := CalculateLevel(direct.value);
    if level.Err? {
      return Err(BadPolicies(level.error));
    }
    return Ok(level.value);
  }

  lemma TwoLevels(above: PolicyMap, middle: PolicyMap, own: PolicyMap, merged: PolicyMap, all: PolicyMap)
    requires IsMerge(above, middle, ParentFirst, Ok(merged)) && IsMerge(merged, own, ParentFirst, Ok(all))
    ensures IsHierarchy([above, middle, own], all)
  {
    hide IsMerge, IsHierarchy;
    SingleLevel(above);
    NextLevel([above], above, middle, merged);
    assert [above] + [middle] == [above, middle] && [above, middle] + [own] == [above, middle, own];
    NextLevel([above, middle], merged, own, all);
  }

  /** Puts two levels below what has been merged already. */
  method MergeBelow(above: PolicyMap, middle: PolicyMap, own: PolicyMap) returns (r: Result<PolicyMap, Failure>)
    ensures r.Ok? ==> IsHierarchy([above, middle, own], r.value)
    ensures r.Err? ==> r.error.BadPolicies?
    ensures Sound(above) && Sound(middle) && Sound(own) ==> r.Ok?
  {
    hide IsMerge, IsHierarchy, Sound;
    BothArePrecedences();
    hide IsPrecedence;
    var merged := MergePoliciesOfDifferentHierarchy(above, middle);
    if Sound(above) && Sound(middle) { SoundMerge(above, middle, ParentFirst, merged); }
    if merged.Err? {
      return Err(BadPolicies(merged.error));
    }
    var all := MergePoliciesOfDifferentHierarchy(merged.value, own);
    if Sound(above) && Sound(middle) && Sound(own) { SoundMerge(merged.value, own, ParentFirst, all); }
    if all.Err? {
      return Err(BadPolicies(all.error));
    }
    TwoLevels(above, middle, own, merged.value, all.value);
    return Ok(all.value);
  }

  // ---------------------------------------------------------------- backends

  ghost function RoutesOf(pairs: set<(GKNN, GKNN)>, g: GKNN): set<GKNN> {
    set p | p in pairs && p.1 == g :: p.0
  }

  /** What has been merged of pairs of a route and a Gateway, and in what order. */
  ghost predicate Merged(due: Due, pairs: set<(GKNN, GKNN)>, orders: map<GKNN, seq<GKNN>>, result: map<GKNN, PolicyMap>)
    {
    && result.Keys == orders.Keys && (forall g :: g in result <==> RoutesOf(pairs, g) != {})
    && forall g :: g in result ==> MergedInOrder(due, RoutesOf(pairs, g), g, orders[g], result[g])
  }

  ghost predicate AllSound(maps: map<GKNN, PolicyMap>) {
    forall g :: g in maps ==> Sound(maps[g])
  }

  lemma OrderMore(due: Due, routes: set<GKNN>, r: GKNN, g: GKNN, order: seq<GKNN>, before: PolicyMap, merged: PolicyMap)
    requires HasPolicies(due, r, g) && r !in routes && MergedInOrder(due, routes, g, order, before)
    requires IsMerge(before, due[r].httpRouteEffective[g], SimilarKind.OrderByPrecedence, Ok(merged))
    ensures MergedInOrder(due, routes + {r}, g, order + [r], merged)
  {
    hide IsMerge, SimilarKind.OrderByPrecedence;
    var maps, more := RouteMaps(due, order, g), RouteMaps(due, order + [r], g);
    assert more == maps + [due[r].httpRouteEffective[g]] && more[..|more| - 1] == maps;
  }

  lemma OrderNone(due: Due, g: GKNN)
    ensures MergedInOrder(due, {}, g, [], map[])
  {
  }

  lemma RoutesOfMore(pairs: set<(GKNN, GKNN)>, r: GKNN, g: GKNN)
    ensures RoutesOf(pairs + {(r, g)}, g) == RoutesOf(pairs, g) + {r}
    ensures forall h :: h != g ==> RoutesOf(pairs + {(r, g)}, h) == RoutesOf(pairs, h)
    ensures r in RoutesOf(pairs, g) ==> (r, g) in pairs
  {
  }

  /** One iteration of the inner loop: the policies of one route for one Gateway. */
  lemma MergedMore(due: Due, pairs: set<(GKNN, GKNN)>, orders: map<GKNN, seq<GKNN>>, result: map<GKNN, PolicyMap>,
                   r: GKNN, g: GKNN, merged: PolicyMap)
    requires Merged(due, pairs, orders, result) && HasPolicies(due, r, g) && (r, g) !in pairs
    requires IsMerge(if g in result then result[g] else map[], due[r].httpRouteEffective[g],
                     SimilarKind.OrderByPrecedence, Ok(merged))
    ensures Merged(due, pairs + {(r, g)}, orders[g := (if g in orders then orders[g] else []) + [r]],
                   result[g := merged])
  {
    hide IsMerge, MergedInOrder, SimilarKind.OrderByPrecedence, RoutesOf;
    OrderNone(due, g);
    RoutesOfMore(pairs, r, g);
    OrderMore(due, RoutesOf(pairs, g), r, g, if g in orders then orders[g] else [],
              if g in result then result[g] else map[], merged);
  }

  /** The inner loop: merges the policies of one route, Gateway by Gateway, into those of the routes before. */
  method MergeRoute(result0: map<GKNN, PolicyMap>, httpRoutePoliciesByGateway: map<GKNN, PolicyMap>, ghost r: GKNN,
                    ghost due: Due, ghost pairs: set<(GKNN, GKNN)>, ghost orders0: map<GKNN, seq<GKNN>>)
    returns (result: Result<map<GKNN, PolicyMap>, Failure>, ghost orders: map<GKNN, seq<GKNN>>)
    requires Merged(due, pairs, orders0, result0) && (forall g :: (r, g) !in pairs)
    requires r in due && due[r].httpRouteEffective == httpRoutePoliciesByGateway
    ensures result.Ok? ==>
      Merged(due, pairs + (set g | g in httpRoutePoliciesByGateway :: (r, g)), orders, result.value)
    ensures result.Err? ==> result.error.BadPolicies?
    ensures AllSound(result0) && AllSound(httpRoutePoliciesByGateway) ==> result.Ok? && AllSound(result.value)
  {
    hide Merged, IsMerge, Sound, SimilarKind.OrderByPrecedence;
    BothArePrecedences();
    hide IsPrecedence;
    var all := result0;
    orders := orders0;
    var todo := httpRoutePoliciesByGateway.Keys;
    ghost var done := pairs;
    while todo != {}
      invariant todo <= httpRoutePoliciesByGateway.Keys
      invariant done == pairs + set g | g in httpRoutePoliciesByGateway.Keys - todo :: (r, g)
      invariant Merged(due, done, orders, all)
      invariant AllSound(result0) && AllSound(httpRoutePoliciesByGateway) ==> AllSound(all)
    {
      var g :| g in todo;
      todo := todo - {g};
      var policies := if g in all then all[g] else map[];
      var merged := MergePoliciesOfSameHierarchy(policies, httpRoutePoliciesByGateway[g]);
      if AllSound(result0) && AllSound(httpRoutePoliciesByGateway) {
        NoPoliciesAreSound();
        SoundMerge(policies, httpRoutePoliciesByGateway[g], SimilarKind.OrderByPrecedence, merged);
      }
      if merged.Err? {
        return Err(BadPolicies(merged.error)), orders;
      }
      MergedMore(due, done, orders, all, r, g, merged.value);
      orders := orders[g := (if g in orders then orders[g] else []) + [r]];
      all := all[g := merged.value];
      done := done + {(r, g)};
    }
    assert httpRoutePoliciesByGateway.Keys - {} == httpRoutePoliciesByGateway.Keys;
    return Ok(all), orders;
  }

  lemma NoPoliciesAreSound()
    ensures Sound(map[])
  {
  }

  /** The last loop: puts the levels of a backend below what its routes have for each Gateway. */
  method FinishBackend(accumulated: map<GKNN, PolicyMap>, middle: PolicyMap, own: PolicyMap)
    returns (r: Result<map<GKNN, PolicyMap>, Failure>)
    ensures r.Ok? ==> r.value.Keys == accumulated.Keys
    ensures r.Ok? ==> forall g :: g in accumulated ==> IsHierarchy([accumulated[g], middle, own], r.value[g])
    ensures r.Err? ==> r.error.BadPolicies?
    ensures AllSound(accumulated) && Sound(middle) && Sound(own) ==> r.Ok?
  {
    hide IsHierarchy, Sound;
    var result := accumulated;
    var todo := accumulated.Keys;
    while todo != {}
      invariant todo <= accumulated.Keys == result.Keys
      invariant forall g :: g in accumulated ==>
        if g in todo then result[g] == accumulated[g] else IsHierarchy([accumulated[g], middle, own], result[g])
    {
      var g :| g in todo;
      todo := todo - {g};
      var all := MergeBelow(result[g], middle, own);
      if all.Err? {
        return Err(all.error);
      }
      result := result[g := all.value];
    }
    return Ok(result);
  }

  // ---------------------------------------------------------------- reading the graph

  /** The neighbour of a node through a relation that leads to `ref` only. */
  method FindNeighbor(nodes: map<GKNN, Node>, k: GKNN, relation: Relation, ghost ref: GKNN,
                      ghost removed: map<GKNN, Node>)
    returns (neighbor: Option<Node>)
    requires Shaped(nodes, removed) && k in nodes && relation.neighborFunc(nodes[k].obj) == [ref]
    ensures neighbor.Some? <==> ref in Targets(nodes[k], relation)
    ensures neighbor.Some? ==> ref in nodes && neighbor.value == nodes[ref]
  {
    hide ReferredFrom;
    assert RefersWithin(nodes, nodes[k], nodes[k].outNeighbors);
    var found, t := AnyNeighbor(nodes[k].outNeighbors, relation);
    neighbor := found;
    if ref in Targets(nodes[k], relation) { assert (relation, ref) in nodes[k].outNeighbors; }
  }

  /** The level that a node of the graph makes up. */
  method LevelOf(node: Node, ghost k: GKNN, ghost nodes: map<GKNN, Node>, ghost rels: Relations, ghost c: Context,
                 ghost due: Due)
    returns (r: Result<PolicyMap, Failure>)
    requires Ready(nodes, rels, c) && AllRecord(nodes, c.before, due) && k in nodes && node == nodes[k]
    ensures match r
      case Ok(level) => IsLevel(AttachedTo(c.policies, k), Ok(level)) && (AllReadable(c.policies) ==> Sound(level))
      case Err(e) => e.BadPolicies? && !AllReadable(c.policies)
  {
    hide IsLevel, Sound, AllRecord, Shaped, Relations.Valid, RecordsDirect;
    DirectOf(nodes, rels, c, due, k);
    r := DirectLevel(node);
    if AllReadable(c.policies) {
      SoundLevel(AttachedTo(c.policies, k), if r.Ok? then Ok(r.value) else Err(r.error.error));
    }
  }

  /** What the extension has recorded for a node. */
  lemma DataOf(nodes: map<GKNN, Node>, rels: Relations, c: Context, due: Due, k: GKNN)
    requires Ready(nodes, rels, c) && AllRecord(nodes, c.before, due)
    ensures k in nodes ==> InheritedPolicies.Access(nodes[k]) == Ok(if k in due then Some(due[k]) else None)
    ensures k in c.removed ==> InheritedPolicies.Access(c.removed[k]) == Ok(None)
  {
    hide AllRecord, Shaped, Relations.Valid, RecordsDirect;
    if k in nodes { DirectOf(nodes, rels, c, due, k); }
  }

  lemma StackOf(policies: Policies, above: seq<PolicyMap>, ids: seq<GKNN>, levels: seq<PolicyMap>, all: seq<PolicyMap>,
                merged: PolicyMap)
    requires AreLevels(policies, ids, levels) && all == above + levels && IsHierarchy(all, merged)
    ensures IsStack(policies, above, ids, merged)
    ensures (forall i :: 0 <= i < |all| ==> Sound(all[i])) ==> Sound(merged)
  {
    if forall i :: 0 <= i < |all| ==> Sound(all[i]) { SoundHierarchy(all, merged); }
  }

  lemma GatewayRefs(nodes: map<GKNN, Node>, rels: Relations, c: Context, k: GKNN)
    requires Ready(nodes, rels, c) && k in nodes
    ensures Shaped(nodes, c.removed) && nodes[k].Id() == k
    ensures rels.gatewayClass.neighborFunc(nodes[k].obj) == [GatewayClassRef(nodes[k].obj)]
    ensures rels.gatewayNamespace.neighborFunc(nodes[k].obj) == [NamespaceRef(nodes[k].obj)]
    ensures rels.httpRouteNamespace.neighborFunc(nodes[k].obj) == [NamespaceRef(nodes[k].obj)]
    ensures rels.backendNamespace.neighborFunc(nodes[k].obj) == [NamespaceRef(nodes[k].obj)]
  {
    hide RefersWithin, ReferredFrom;
  }

  /** The levels of an object and of its Namespace; none if the Namespace is not in the graph. */
  method TwoLevelsOf(nodes: map<GKNN, Node>, k: GKNN, relation: Relation, ghost rels: Relations, ghost c: Context,
                     ghost due: Due)
    returns (r: Result<Option<(PolicyMap, PolicyMap)>, Failure>)
    requires Ready(nodes, rels, c) && AllRecord(nodes, c.before, due) && k in nodes
    requires relation in {rels.gatewayNamespace, rels.httpRouteNamespace, rels.backendNamespace}
    ensures r.Ok? ==> (r.value.Some? <==> NamespaceRef(nodes[k].obj) in Targets(nodes[k], relation))
    ensures r.Ok? && r.value.Some? ==>
      var (middle, own) := r.value.value;
      && AreLevels(c.policies, [NamespaceRef(nodes[k].obj), nodes[k].Id()], [middle, own])
      && (AllReadable(c.policies) ==> Sound(middle) && Sound(own))
    ensures r.Err? ==> r.error.BadPolicies? && !AllReadable(c.policies)
  {
    hide Ready, AllRecord, Shaped, Targets, IsLevel, Sound, AllReadable;
    GatewayRefs(nodes, rels, c, k);
    var namespaceNode := FindNeighbor(nodes, k, relation, NamespaceRef(nodes[k].obj), c.removed);
    if namespaceNode == None {
      return Ok(None);
    }
    var own := LevelOf(nodes[k], k, nodes, rels, c, due);
    if own.Err? { return Err(own.error); }
    var namespaceLevel := LevelOf(namespaceNode.value, NamespaceRef(nodes[k].obj), nodes, rels, c, due);
    if namespaceLevel.Err? { return Err(namespaceLevel.error); }
    return Ok(Some((namespaceLevel.value, own.value)));
  }

  /** The effective policies of a Gateway, if they are to be calculated. */
  method GatewayPolicies(nodes: map<GKNN, Node>, k: GKNN, maxDepth: int, rels: Relations, ghost c: Context,
                         ghost due: Due)
    returns (r: Result<Option<PolicyMap>, Failure>)
    requires Ready(nodes, rels, c) && AllRecord(nodes, c.before, due) && k in nodes
    ensures r.Ok? ==>
      GatewayEffective(nodes[k], rels, maxDepth, c.policies, if r.value.Some? then r.value.value else map[])
    ensures r.Ok? && r.value.Some? && AllReadable(c.policies) ==> Sound(r.value.value)
    ensures r.Err? ==> r.error.BadPolicies? && !AllReadable(c.policies)
  {
    hide Ready, AllRecord, Shaped, Targets, AreLevels, IsStack, IsHierarchy, Sound, AllReadable, IsLevel;
    GatewayRefs(nodes, rels, c, k);
    var node := nodes[k];
    if node.depth > maxDepth {
      return Ok(None);
    }
    var gatewayClassNode := FindNeighbor(nodes, k, rels.gatewayClass, GatewayClassRef(node.obj), c.removed);
    if gatewayClassNode == None {
      return Ok(None);
    }
    var levels := TwoLevelsOf(nodes, k, rels.gatewayNamespace, rels, c, due);
    if levels.Err? { return Err(levels.error); }
    if levels.value == None {
      return Ok(None);
    }
    var (namespaceLevel, own) := levels.value.value;
    var classLevel := LevelOf(gatewayClassNode.value, GatewayClassRef(node.obj), nodes, rels, c, due);
    if classLevel.Err? { return Err(classLevel.error); }
    var merged := MergeBelow(classLevel.value, namespaceLevel, own);
    if merged.Err? { return Err(merged.error); }
    GatewayStack(c.policies, GatewayClassRef(node.obj), [NamespaceRef(node.obj), node.Id()], classLevel.value,
                 namespaceLevel, own, merged.value);
    return Ok(Some(merged.value));
  }

  lemma GatewayStack(policies: Policies, gatewayClass: GKNN, ids: seq<GKNN>, classLevel: PolicyMap, middle: PolicyMap,
                     own: PolicyMap, merged: PolicyMap)
    requires IsLevel(AttachedTo(policies, gatewayClass), Ok(classLevel)) && AreLevels(policies, ids, [middle, own])
    requires IsHierarchy([classLevel, middle, own], merged)
    ensures IsStack(policies, [], [gatewayClass] + ids, merged)
    ensures Sound(classLevel) && Sound(middle) && Sound(own) ==> Sound(merged)
  {
    hide IsLevel, IsHierarchy, Sound, IsStack, AttachedTo;
    assert forall i ::
      0 < i < 3 ==> ([gatewayClass] + ids)[i] == ids[i - 1] && [classLevel, middle, own][i] == [middle, own][i - 1];
    StackOf(policies, [], [gatewayClass] + ids, [classLevel, middle, own], [classLevel, middle, own], merged);
  }

  /** What is effective at a Gateway is there to be read: it has been recorded by the passes before. */
  method GatewayEffectivePoliciesOf(gatewayNode: Node) returns (r: Result<PolicyMap, Failure>)
    requires InheritedPolicies.Access(gatewayNode).Ok? ==> InheritedPolicies.Access(gatewayNode).value.Some?
    ensures match InheritedPolicies.Access(gatewayNode)
      case Err(e) => r == Err(OtherError(e))
      case Ok(data) => r == Ok(data.value.gatewayEffective)
  {
    var gatewayNodeMetadata := InheritedPolicies.Access(gatewayNode);
    if gatewayNodeMetadata.Err? {
      return Err(OtherError(gatewayNodeMetadata.error));
    }
    return Ok(gatewayNodeMetadata.value.value.gatewayEffective);
  }

  ghost predicate GatewaysSound(nodes: map<GKNN, Node>, due: Due) {
    forall g :: g in nodes && g.GK() == GATEWAY_GK ==> g in due && Sound(due[g].gatewayEffective)
  }

  /** The policies of an HTTPRoute for one of its Gateways. */
  method RouteForGateway(gatewayNode: Node, middle: PolicyMap, own: PolicyMap, ghost g: GKNN, ghost due: Due)
    returns (r: Result<PolicyMap, Failure>)
    requires g in due && InheritedPolicies.Access(gatewayNode) == Ok(Some(due[g]))
    ensures r.Ok? ==> IsHierarchy([due[g].gatewayEffective, middle, own], r.value)
    ensures r.Err? ==> r.error.BadPolicies?
    ensures Sound(due[g].gatewayEffective) && Sound(middle) && Sound(own) ==> r.Ok?
  {
    hide IsHierarchy, Sound;
    r := GatewayEffectivePoliciesOf(gatewayNode);
    if r.Err? { return; }
    r := MergeBelow(r.value, middle, own);
  }

  /** The loop over the Gateways of an HTTPRoute. */
  method RouteForGateways(gateways: map<GKNN, Node>, middle: PolicyMap, own: PolicyMap, ghost due: Due)
    returns (r: Result<map<GKNN, PolicyMap>, Failure>)
    requires forall g :: g in gateways ==> g in due && InheritedPolicies.Access(gateways[g]) == Ok(Some(due[g]))
    ensures r.Ok? ==> r.value.Keys == gateways.Keys
    ensures r.Ok? ==> forall g :: g in gateways ==> IsHierarchy([due[g].gatewayEffective, middle, own], r.value[g])
    ensures r.Err? ==> r.error.BadPolicies?
    ensures (forall g :: g in gateways ==> Sound(due[g].gatewayEffective)) && Sound(middle) && Sound(own) ==> r.Ok?
  {
    hide IsHierarchy, Sound;
    var result: map<GKNN, PolicyMap> := map[];
    var todo := gateways.Keys;
    while todo != {}
      invariant todo <= gateways.Keys && result.Keys == gateways.Keys - todo
      invariant forall g :: g in result ==> IsHierarchy([due[g].gatewayEffective, middle, own], result[g])
    {
      var g :| g in todo;
      todo := todo - {g};
      var merged := RouteForGateway(gateways[g], middle, own, g, due);
      if merged.Err? {
        return Err(merged.error);
      }
      result := result[g := merged.value];
    }
    return Ok(result);
  }

  lemma RouteStacks(policies: Policies, above: map<GKNN, PolicyMap>, ids: seq<GKNN>, middle: PolicyMap, own: PolicyMap,
                    merged: map<GKNN, PolicyMap>)
    requires AreLevels(policies, ids, [middle, own]) && merged.Keys <= above.Keys
    requires forall g :: g in merged ==> IsHierarchy([above[g], middle, own], merged[g])
    ensures forall g :: g in merged ==> IsStack(policies, [above[g]], ids, merged[g])
    ensures AllSound(above) && Sound(middle) && Sound(own) ==> AllSound(merged)
  {
    hide IsHierarchy, Sound, AreLevels, IsStack;
    forall g | g in merged
      ensures IsStack(policies, [above[g]], ids, merged[g])
      ensures Sound(above[g]) && Sound(middle) && Sound(own) ==> Sound(merged[g])
    {
      assert [above[g]] + [middle, own] == [above[g], middle, own];
      StackOf(policies, [above[g]], ids, [middle, own], [above[g], middle, own], merged[g]);
    }
  }

  ghost function GatewayParts(due: Due, gateways: set<GKNN>): map<GKNN, PolicyMap>
    requires gateways <= due.Keys
  {
    map g | g in gateways :: due[g].gatewayEffective
  }

  /** What the parents of a route have recorded. */
  lemma ParentsRecord(nodes: map<GKNN, Node>, rels: Relations, c: Context, due: Due, k: GKNN, g: GKNN)
    requires Ready(nodes, rels, c) && AllRecord(nodes, c.before, due) && k in nodes
    requires forall t :: t in nodes && t.GK() == GATEWAY_GK ==> t in due
    requires (rels.parentRef, g) in nodes[k].outNeighbors
    ensures g in due && InheritedPolicies.Access(nodes[k].outNeighbors[(rels.parentRef, g)]) == Ok(Some(due[g]))
    ensures g in nodes && g.GK() == GATEWAY_GK
  {
    hide Ready, AllRecord, Targets;
    ParentsAreGateways(nodes, rels, c, k, g);
    DataOf(nodes, rels, c, due, g);
  }

  /** The policies of an HTTPRoute for its Gateways. */
  method RouteByGateway(nodes: map<GKNN, Node>, k: GKNN, rels: Relations, middle: PolicyMap, own: PolicyMap,
                        ghost c: Context, ghost due: Due, ghost ids: seq<GKNN>)
    returns (r: Result<map<GKNN, PolicyMap>, Failure>)
    requires Ready(nodes, rels, c) && AllRecord(nodes, c.before, due) && k in nodes
    requires (forall g :: g in nodes && g.GK() == GATEWAY_GK ==> g in due) && AreLevels(c.policies, ids, [middle, own])
    ensures r.Ok? ==> r.value.Keys == Targets(nodes[k], rels.parentRef)
    ensures r.Ok? ==> forall g :: g in r.value ==>
      g in due && IsStack(c.policies, [due[g].gatewayEffective], ids, r.value[g])
    ensures Sound(middle) && Sound(own) && GatewaysSound(nodes, due) ==> r.Ok? && AllSound(r.value)
    ensures r.Err? ==> r.error.BadPolicies?
  {
    hide Ready, AllRecord, AreLevels, IsStack, IsHierarchy, Sound, InheritedPolicies.Access;
    var gateways := NeighborsBy(nodes[k].outNeighbors, rels.parentRef);
    forall g | g in gateways
      ensures g in due && InheritedPolicies.Access(gateways[g]) == Ok(Some(due[g])) && g in nodes
      ensures g.GK() == GATEWAY_GK
    {
      ParentsRecord(nodes, rels, c, due, k, g);
    }
    r := RouteForGateways(gateways, middle, own, due);
    if r.Err? { return; }
    RouteStacks(c.policies, GatewayParts(due, gateways.Keys), ids, middle, own, r.value);
    assert Targets(nodes[k], rels.parentRef) == gateways.Keys;
  }

  /** The effective policies of an HTTPRoute, if they are to be calculated. */
  method RoutePolicies(nodes: map<GKNN, Node>, k: GKNN, rels: Relations, ghost c: Context, ghost due: Due)
    returns (r: Result<Option<map<GKNN, PolicyMap>>, Failure>)
    requires Ready(nodes, rels, c) && AllRecord(nodes, c.before, due) && k in nodes
    requires forall g :: g in nodes && g.GK() == GATEWAY_GK ==> g in due
    ensures r.Ok? ==> RouteEffective(nodes[k], rels, c.policies, due, if r.value.Some? then r.value.value else map[])
    ensures r.Ok? && r.value.Some? && AllReadable(c.policies) && GatewaysSound(nodes, due) ==> AllSound(r.value.value)
    ensures r.Err? ==> r.error.BadPolicies? && !(AllReadable(c.policies) && GatewaysSound(nodes, due))
  {
    hide Ready, AllRecord, Targets, AreLevels, IsStack, Sound, AllReadable, GatewaysSound;
    var levels := TwoLevelsOf(nodes, k, rels.httpRouteNamespace, rels, c, due);
    if levels.Err? { return Err(levels.error); }
    if levels.value == None {
      return Ok(None);
    }
    var (namespaceLevel, own) := levels.value.value;
    var result := RouteByGateway(nodes, k, rels, namespaceLevel, own, c, due,
                                 [NamespaceRef(nodes[k].obj), nodes[k].Id()]);
    if result.Err? { return Err(result.error); }
    return Ok(Some(result.value));
  }

  /** All pairs of one of the routes and a Gateway for which it has policies. */
  ghost function PairsOf(due: Due, routes: set<GKNN>): set<(GKNN, GKNN)> {
    set r, g | r in routes && r in due && g in due[r].httpRouteEffective :: (r, g)
  }

  lemma PairsOfMore(due: Due, routes: set<GKNN>, r: GKNN)
    requires r in due && r !in routes
    ensures PairsOf(due, routes + {r}) == PairsOf(due, routes) + set g | g in due[r].httpRouteEffective :: (r, g)
    ensures forall g :: (r, g) !in PairsOf(due, routes)
  {
  }

  lemma RoutesOfPairs(due: Due, routes: set<GKNN>, g: GKNN)
    ensures RoutesOf(PairsOf(due, routes), g) == RoutesFor(due, routes, g)
  {
    forall r | r in RoutesFor(due, routes, g) ensures r in RoutesOf(PairsOf(due, routes), g) {
      assert (r, g) in PairsOf(due, routes);
    }
  }

  ghost predicate RoutesSound(due: Due, routes: set<GKNN>) {
    forall r :: r in routes && r in due ==> AllSound(due[r].httpRouteEffective)
  }

  /** One HTTPRoute of a backend; one that has been pruned from the graph has nothing recorded. */
  method MergeRouteNode(httpRouteNode: Node, result0: map<GKNN, PolicyMap>, ghost r: GKNN, ghost live: bool,
                        ghost due: Due, ghost done: set<GKNN>, ghost orders0: map<GKNN, seq<GKNN>>)
    returns (result: Result<map<GKNN, PolicyMap>, Failure>, ghost orders: map<GKNN, seq<GKNN>>)
    requires live ==> r in due && r !in done
    requires InheritedPolicies.Access(httpRouteNode).Ok? ==>
      InheritedPolicies.Access(httpRouteNode).value == if live then Some(due[r]) else None
    requires Merged(due, PairsOf(due, done), orders0, result0)
    ensures InheritedPolicies.Access(httpRouteNode).Ok? && result.Ok? ==>
      Merged(due, PairsOf(due, done + if live then {r} else {}), orders, result.value)
    ensures InheritedPolicies.Access(httpRouteNode).Ok? && result.Err? ==> result.error.BadPolicies?
    ensures (&& InheritedPolicies.Access(httpRouteNode).Ok? && AllSound(result0)
             && (live ==> AllSound(due[r].httpRouteEffective))) ==>
      result.Ok? && AllSound(result.value)
  {
    hide Merged, AllSound, PairsOf;
    orders := orders0;
    var httpRouteNodeMetadata := InheritedPolicies.Access(httpRouteNode);
    if httpRouteNodeMetadata.Err? {
      return Err(OtherError(httpRouteNodeMetadata.error)), orders;
    }
    if httpRouteNodeMetadata.value == None {
      assert done + {} == done;
      return Ok(result0), orders;
    }
    PairsOfMore(due, done, r);
    result, orders := MergeRoute(result0, httpRouteNodeMetadata.value.value.httpRouteEffective, r, due,
                                 PairsOf(due, done), orders0);
  }

  /** The loop over the HTTPRoutes of a backend. */
  method MergeRoutes(routes: map<GKNN, Node>, ghost live: set<GKNN>, ghost due: Due)
    returns (r: Result<map<GKNN, PolicyMap>, Failure>, ghost orders: map<GKNN, seq<GKNN>>)
    requires live <= routes.Keys && live <= due.Keys
    requires forall t :: t in routes ==>
      InheritedPolicies.Access(routes[t]) == Ok(if t in live then Some(due[t]) else None)
    ensures r.Ok? ==> Merged(due, PairsOf(due, live), orders, r.value)
    ensures r.Err? ==> r.error.BadPolicies?
    ensures RoutesSound(due, live) ==> r.Ok? && AllSound(r.value)
  {
    hide Merged, AllSound, PairsOf, InheritedPolicies.Access;
    var result: map<GKNN, PolicyMap> := map[];
    orders := map[];
    NothingMerged(due);
    var todo := routes.Keys;
    ghost var done: set<GKNN> := {};
    while todo != {}
      invariant todo <= routes.Keys && done == live - todo
      invariant Merged(due, PairsOf(due, done), orders, result)
      invariant RoutesSound(due, live) ==> AllSound(result)
    {
      var t :| t in todo;
      todo := todo - {t};
      var merged, next := MergeRouteNode(routes[t], result, t, t in live, due, done, orders);
      if merged.Err? {
        return merged, orders;
      }
      result, orders := merged.value, next;
      done := done + if t in live then {t} else {};
    }
    assert done == live;
    return Ok(result), orders;
  }

  lemma NothingMerged(due: Due)
    ensures Merged(due, PairsOf(due, {}), map[], map[]) && AllSound(map[])
  {
  }

  /** What the routes of a backend have recorded. */
  lemma ReferrersRecord(nodes: map<GKNN, Node>, rels: Relations, c: Context, due: Due, k: GKNN, t: GKNN)
    requires Ready(nodes, rels, c) && AllRecord(nodes, c.before, due) && k in nodes
    requires forall t :: t in nodes && t.GK() == HTTP_ROUTE_GK ==> t in due
    requires (rels.backendRef, t) in nodes[k].inNeighbors
    ensures t in nodes ==> t in due && t.GK() == HTTP_ROUTE_GK
    ensures InheritedPolicies.Access(nodes[k].inNeighbors[(rels.backendRef, t)]) ==
      Ok(if t in nodes then Some(due[t]) else None)
  {
    hide Ready, AllRecord, Targets;
    ReferrersAreRoutes(nodes, rels, c, k, t);
    DataOf(nodes, rels, c, due, t);
  }

  /** The policies of a backend for its routes. */
  method BackendByGateway(nodes: map<GKNN, Node>, k: GKNN, rels: Relations, ghost c: Context, ghost due: Due)
    returns (r: Result<map<GKNN, PolicyMap>, Failure>, ghost orders: map<GKNN, seq<GKNN>>)
    requires Ready(nodes, rels, c) && AllRecord(nodes, c.before, due) && k in nodes
    requires forall t :: t in nodes && t.GK() == HTTP_ROUTE_GK ==> t in due
    ensures r.Ok? ==> Merged(due, PairsOf(due, Referrers(nodes, nodes[k], rels.backendRef)), orders, r.value)
    ensures r.Err? ==> r.error.BadPolicies?
    ensures RoutesSound(due, Referrers(nodes, nodes[k], rels.backendRef)) ==> r.Ok? && AllSound(r.value)
  {
    hide Ready, AllRecord, Merged, AllSound, RoutesSound, InheritedPolicies.Access;
    var routes := NeighborsBy(nodes[k].inNeighbors, rels.backendRef);
    ghost var live := Referrers(nodes, nodes[k], rels.backendRef);
    forall t | t in routes
      ensures t in live ==> t in due
      ensures InheritedPolicies.Access(routes[t]) == Ok(if t in live then Some(due[t]) else None)
    {
      ReferrersRecord(nodes, rels, c, due, k, t);
    }
    r, orders := MergeRoutes(routes, live, due);
  }

  lemma BackendStacks(due: Due, routes: set<GKNN>, orders: map<GKNN, seq<GKNN>>, accumulated: map<GKNN, PolicyMap>,
                      policies: Policies, ids: seq<GKNN>, middle: PolicyMap, own: PolicyMap,
                      merged: map<GKNN, PolicyMap>)
    requires Merged(due, PairsOf(due, routes), orders, accumulated) && AreLevels(policies, ids, [middle, own])
    requires merged.Keys == accumulated.Keys && forall g :: g in merged ==>
      IsHierarchy([accumulated[g], middle, own], merged[g])
    ensures forall g :: g in merged <==> RoutesFor(due, routes, g) != {}
    ensures forall g :: g in merged ==> exists order, above ::
      MergedInOrder(due, RoutesFor(due, routes, g), g, order, above) && IsStack(policies, [above], ids, merged[g])
  {
    hide IsHierarchy, AreLevels, IsStack, MergedInOrder, PairsOf, RoutesFor, RoutesOf;
    forall g { RoutesOfPairs(due, routes, g); }
    RouteStacks(policies, accumulated, ids, middle, own, merged);
    forall g | g in merged
      ensures exists order, above ::
        MergedInOrder(due, RoutesFor(due, routes, g), g, order, above) && IsStack(policies, [above], ids, merged[g])
    {
      assert MergedInOrder(due, RoutesFor(due, routes, g), g, orders[g], accumulated[g])
        && IsStack(policies, [accumulated[g]], ids, merged[g]);
    }
  }

  /** The effective policies of a Backend, if they are to be calculated. */
  method BackendPolicies(nodes: map<GKNN, Node>, k: GKNN, rels: Relations, ghost c: Context, ghost due: Due)
    returns (r: Result<Option<map<GKNN, PolicyMap>>, Failure>)
    requires Ready(nodes, rels, c) && AllRecord(nodes, c.before, due) && k in nodes
    requires forall t :: t in nodes && t.GK() == HTTP_ROUTE_GK ==> t in due
    ensures r.Ok? ==>
      BackendEffective(nodes, nodes[k], rels, c.policies, due, if r.value.Some? then r.value.value else map[])
    ensures r.Err? ==> r.error.BadPolicies?
    ensures r.Err? ==> !(AllReadable(c.policies) && RoutesSound(due, Referrers(nodes, nodes[k], rels.backendRef)))
  {
    hide Ready, AllRecord, Targets, Referrers, Merged, PairsOf, AreLevels, IsStack, IsHierarchy, MergedInOrder, Sound,
      AllSound, AllReadable, RoutesSound, RoutesFor;
    var levels := TwoLevelsOf(nodes, k, rels.backendNamespace, rels, c, due);
    if levels.Err? { return Err(levels.error); }
    if levels.value == None {
      return Ok(None);
    }
    var (namespaceLevel, own) := levels.value.value;
    var accumulated, orders := BackendByGateway(nodes, k, rels, c, due);
    if accumulated.Err? { return Err(accumulated.error); }
    var result := FinishBackend(accumulated.value, namespaceLevel, own);
    if result.Err? { return Err(result.error); }
    BackendStacks(due, Referrers(nodes, nodes[k], rels.backendRef), orders, accumulated.value, c.policies,
                  [NamespaceRef(nodes[k].obj), nodes[k].Id()], namespaceLevel, own, result.value);
    return Ok(Some(result.value));
  }
}

/** The policies that Gateways, HTTPRoutes and Backends inherit
    (pkg/extension/gatewayeffectivepolicy/gatewayeffectivepolicy.go, lines 52 to 189). */
module InheritedPolicies {
  import opened Common
  import opened DirectlyAttachedPolicy
  import opened Gateway
  import opened GatewayNodes
  import opened Metadata
  import opened PolicyLevels
  import opened Topology

  function Access(node: Node): Result<Option<EffectiveData>, string>
    reads node`metadata
  {
    match Entry(node.metadata, INHERITED_POLICY)
    case None => Ok(None)
    case Some(Effective(data)) => Ok(Some(data))
    case Some(_) => Err("unable to perform type assertion")
  }

  // ---------------------------------------------------------------- what is inherited

  /** The inheritable policies with a reference to one of `ancestors`. */
  ghost function InheritedFrom(policies: Policies, ancestors: set<GKNN>): Policies {
    map g | g in policies && policies[g].inheritable && (exists t :: t in ancestors && t in policies[g].targetRefs) ::
      policies[g]
  }

  lemma InheritedUnion(policies: Policies, a: set<GKNN>, b: set<GKNN>)
    ensures InheritedFrom(policies, a) + InheritedFrom(policies, b) == InheritedFrom(policies, a + b)
  {
  }

  lemma InheritedOne(policies: Policies, k: GKNN)
    ensures Inheritable(AttachedTo(policies, k)) == InheritedFrom(policies, {k})
    ensures InheritedFrom(policies, {}) == map[]
  {
  }

  /** A Gateway inherits from its Namespace and its GatewayClass. */
  ghost function GatewayAncestors(nodes: map<GKNN, Node>, rels: Relations): map<GKNN, set<GKNN>>
    reads nodes.Values`outNeighbors
  {
    map k | k in nodes && k.GK() == GATEWAY_GK ::
      Targets(nodes[k], rels.gatewayNamespace) + Targets(nodes[k], rels.gatewayClass)
  }

  /** Some nodes and their ancestors. */
  ghost function WithAncestors(parents: set<GKNN>, ancestors: map<GKNN, set<GKNN>>): set<GKNN> {
    parents + set p, t | p in parents && p in ancestors && t in ancestors[p] :: t
  }

  /** An HTTPRoute inherits from its Namespace, from its Gateways, and from all that these inherit from. */
  ghost function RouteAncestors(nodes: map<GKNN, Node>, rels: Relations): map<GKNN, set<GKNN>>
    reads nodes.Values`outNeighbors
  {
    map k | k in nodes && k.GK() == HTTP_ROUTE_GK ::
      Targets(nodes[k], rels.httpRouteNamespace)
      + WithAncestors(Targets(nodes[k], rels.parentRef), GatewayAncestors(nodes, rels))
  }

  /** A Backend inherits from its Namespace, from the HTTPRoutes of the graph that refer to it, and from all
      that these inherit from. */
  ghost function BackendAncestors(nodes: map<GKNN, Node>, rels: Relations): map<GKNN, set<GKNN>>
    reads nodes.Values`outNeighbors, nodes.Values`inNeighbors
  {
    map k | k in nodes && k.GK() == SERVICE_GK ::
      Targets(nodes[k], rels.backendNamespace)
      + WithAncestors(Referrers(nodes, nodes[k], rels.backendRef), RouteAncestors(nodes, rels))
  }

  // ---------------------------------------------------------------- the state of the extension

  /** The extension has recorded `data`, or nothing, and left all else alone. */
  ghost predicate Records(before: NodeMetadata, after: NodeMetadata, data: Option<EffectiveData>) {
    && after.Some? && OnlyChanges(before, after, INHERITED_POLICY)
    && Entry(after, INHERITED_POLICY) == if data.Some? then Some(Effective(data.value)) else None
  }

  ghost predicate AllRecord(nodes: map<GKNN, Node>, before: map<GKNN, NodeMetadata>, due: Due)
    requires nodes.Keys == before.Keys
    reads nodes.Values`metadata
  {
    forall k :: k in nodes ==> Records(before[k], nodes[k].metadata, if k in due then Some(due[k]) else None)
  }

  /** The node's directly attached policies have been recorded. */
  predicate RecordsDirect(metadata: NodeMetadata, direct: Policies) {
    match Entry(metadata, DIRECTLY_ATTACHED_POLICY)
    case None => direct == map[]
    case Some(Attached(policies)) => policies == direct
    case Some(_) => false
  }

  /** What does not change while the extension runs: the nodes that have been pruned, the metadata of the others
      when it starts, and the policies. */
  datatype Context = Context(removed: map<GKNN, Node>, before: map<GKNN, NodeMetadata>, policies: Policies)

  /** What the extension finds: a graph straight out of `Build`, whose nodes have metadata that says which
      of `policies` are attached to them; pruned nodes have no metadata. */
  ghost predicate Ready(nodes: map<GKNN, Node>, rels: Relations, c: Context)
    reads nodes.Values`outNeighbors, nodes.Values`inNeighbors, c.removed.Values`metadata
  {
    && Shaped(nodes, c.removed) && rels.Valid() && KeyedById(c.policies)
    && (forall k :: k in c.removed ==> c.removed[k].metadata == None)
    && nodes.Keys == c.before.Keys
    && (forall k :: k in c.before ==> c.before[k].Some? && RecordsDirect(c.before[k], AttachedTo(c.policies, k)))
  }

  // ---------------------------------------------------------------- one node

  /** Adds the inheritable policies attached to a node. */
  method AddDirect(node: Node, result: Policies) returns (r: Result<Policies, string>)
    ensures r == match DirectlyAttachedPolicy.Access(node)
      case Err(e) => Err(e)
      case Ok(direct) => Ok(result + Inheritable(direct))
  {
    var direct := DirectlyAttachedPolicy.Access(node);
    if direct.Err? {
      return Err(direct.error);
    }
    var inheritable := FilterInheritablePolicies(direct.value);
    return Ok(result + inheritable);
  }

  /** A node of the graph has its directly attached policies. */
  lemma DirectOf(nodes: map<GKNN, Node>, rels: Relations, c: Context, due: Due, k: GKNN)
    requires Ready(nodes, rels, c) && AllRecord(nodes, c.before, due) && k in nodes
    ensures DirectlyAttachedPolicy.Access(nodes[k]) == Ok(AttachedTo(c.policies, k))
    ensures Access(nodes[k]) == Ok(if k in due then Some(due[k]) else None)
    ensures nodes[k].metadata.Some?
  {
    hide Shaped, AttachedTo, Relations.Valid;
    assert Entry(nodes[k].metadata, DIRECTLY_ATTACHED_POLICY) == Entry(c.before[k], DIRECTLY_ATTACHED_POLICY);
  }

  /** Adds the policies of some neighbour through a relation that has at most one, such as a Namespace. */
  method AddFromAny(nodes: map<GKNN, Node>, node: Node, relation: Relation, result: Policies, ghost policies: Policies,
                    ghost from: set<GKNN>)
    returns (r: Result<Policies, string>)
    requires RefersWithin(nodes, node, node.outNeighbors) && |relation.neighborFunc(node.obj)| == 1
    requires forall k :: k in nodes ==> DirectlyAttachedPolicy.Access(nodes[k]) == Ok(AttachedTo(policies, k))
    requires result == InheritedFrom(policies, from)
    ensures r == Ok(InheritedFrom(policies, from + Targets(node, relation)))
  {
    hide InheritedFrom, AttachedTo, Inheritable;
    var neighbor, k := AnyNeighbor(node.outNeighbors, relation);
    if neighbor == None {
      assert from + Targets(node, relation) == from;
      return Ok(result);
    }
    assert Targets(node, relation) == {k} by {
      forall t | t in Targets(node, relation) ensures t == k { assert (relation, t) in node.outNeighbors; }
    }
    r := AddDirect(neighbor.value, result);
    InheritedOne(policies, k);
    InheritedUnion(policies, from, {k});
  }

  /** What a neighbour has to offer: itself, if it is in the graph, and what it inherits. */
  ghost predicate Offers(node: Node, k: GKNN, live: bool, pick: EffectiveData -> Policies, policies: Policies,
                         ancestors: map<GKNN, set<GKNN>>)
    reads node`metadata
  {
    if live then
      && k in ancestors && Access(node).Ok? && Access(node).value.Some?
      && pick(Access(node).value.value) == InheritedFrom(policies, ancestors[k])
      && DirectlyAttachedPolicy.Access(node) == Ok(AttachedTo(policies, k))
    else node.metadata == None
  }

  /** Adds the policies that a neighbour inherits. */
  method AddInherited(node: Node, result: Policies, pick: EffectiveData -> Policies)
    returns (r: Result<Policies, string>)
    ensures r == match Access(node)
      case Err(e) => Err(e)
      case Ok(None) => Ok(result)
      case Ok(Some(data)) => Ok(result + pick(data))
  {
    var data := Access(node);
    if data.Err? {
      return Err(data.error);
    }
    if data.value == None {
      return Ok(result);
    }
    return Ok(result + pick(data.value.value));
  }

  method AddFromOne(node: Node, result: Policies, pick: EffectiveData -> Policies, ghost k: GKNN, ghost live: bool,
                    ghost policies: Policies, ghost ancestors: map<GKNN, set<GKNN>>, ghost from: set<GKNN>)
    returns (r: Result<Policies, string>)
    requires Offers(node, k, live, pick, policies, ancestors) && result == InheritedFrom(policies, from)
    ensures r == Ok(InheritedFrom(policies, from + if live then {k} + ancestors[k] else {}))
  {
    hide InheritedFrom, AttachedTo, Inheritable;
    r := AddInherited(node, result, pick);
    if r.Err? { return; }
    r := AddDirect(node, r.value);
    InheritedOne(policies, k);
    if live {
      InheritedUnion(policies, from, ancestors[k]);
      InheritedUnion(policies, from + ancestors[k], {k});
      assert from + ancestors[k] + {k} == from + ({k} + ancestors[k]);
    } else {
      assert from + {} == from;
      NothingDirect(result);
    }
  }

  lemma NothingDirect(result: Policies)
    ensures result + Inheritable(map[]) == result
  {
  }

  /** Adds the policies of all neighbours, and what they inherit. */
  method AddFromAll(neighbors: map<GKNN, Node>, result: Policies, pick: EffectiveData -> Policies,
                    ghost live: set<GKNN>, ghost policies: Policies, ghost ancestors: map<GKNN, set<GKNN>>,
                    ghost from: set<GKNN>)
    returns (r: Result<Policies, string>)
    requires forall k :: k in neighbors ==> Offers(neighbors[k], k, k in live, pick, policies, ancestors)
    requires live <= neighbors.Keys && live <= ancestors.Keys && result == InheritedFrom(policies, from)
    ensures r == Ok(InheritedFrom(policies, from + WithAncestors(live, ancestors)))
  {
    hide InheritedFrom, Offers;
    var all := result;
    var todo := neighbors.Keys;
    ghost var done: set<GKNN> := {};
    assert from + WithAncestors({}, ancestors) == from;
    while todo != {}
      invariant todo <= neighbors.Keys && done == live - todo
      invariant all == InheritedFrom(policies, from + WithAncestors(done, ancestors))
    {
      var k :| k in todo;
      todo := todo - {k};
      r := AddFromOne(neighbors[k], all, pick, k, k in live, policies, ancestors,
                      from + WithAncestors(done, ancestors));
      if r.Err? { return; }
      AncestorsOfMore(done, k, k in live, ancestors, from);
      done := done + if k in live then {k} else {};
      all := r.value;
    }
    assert done == live;
    return Ok(all);
  }

  lemma AncestorsOfMore(done: set<GKNN>, k: GKNN, live: bool, ancestors: map<GKNN, set<GKNN>>, from: set<GKNN>)
    requires live ==> k in ancestors
    ensures from + WithAncestors(done, ancestors) + (if live then {k} + ancestors[k] else {})
      == from + WithAncestors(done + (if live then {k} else {}), ancestors)
  {
  }

  // ---------------------------------------------------------------- the passes

  /** Writes the entry of a node; Go would panic if the node had no metadata. */
  method PutData(nodes: map<GKNN, Node>, k: GKNN, data: EffectiveData, ghost before: map<GKNN, NodeMetadata>,
                 ghost due: Due)
    requires Keyed(nodes) && nodes.Keys == before.Keys && k in nodes && AllRecord(nodes, before, due)
    modifies nodes.Values`metadata
    ensures AllRecord(nodes, before, due[k := data])
  {
    nodes[k].metadata := Some(nodes[k].metadata.value[INHERITED_POLICY := Effective(data)]);
  }

  ghost function GatewaysDue(nodes: map<GKNN, Node>, rels: Relations, policies: Policies): Due
    reads nodes.Values`outNeighbors
  {
    var ancestors := GatewayAncestors(nodes, rels);
    map k | k in ancestors :: NO_EFFECTIVE_DATA.(gatewayInherited := InheritedFrom(policies, ancestors[k]))
  }

  ghost function RoutesDue(nodes: map<GKNN, Node>, rels: Relations, policies: Policies): Due
    reads nodes.Values`outNeighbors
  {
    var ancestors := RouteAncestors(nodes, rels);
    map k | k in ancestors :: NO_EFFECTIVE_DATA.(httpRouteInherited := InheritedFrom(policies, ancestors[k]))
  }

  ghost function BackendsDue(nodes: map<GKNN, Node>, rels: Relations, policies: Policies): Due
    reads nodes.Values`outNeighbors, nodes.Values`inNeighbors
  {
    var ancestors := BackendAncestors(nodes, rels);
    map k | k in ancestors :: NO_EFFECTIVE_DATA.(backendInherited := InheritedFrom(policies, ancestors[k]))
  }

  /** A relation that leads to at most one node, from any node. */
  ghost predicate ToOne(relation: Relation, rels: Relations) {
    relation in {rels.gatewayNamespace, rels.gatewayClass, rels.httpRouteNamespace, rels.backendNamespace}
  }

  method InheritFromAny(nodes: map<GKNN, Node>, k: GKNN, relation: Relation, result: Policies, ghost rels: Relations,
                        ghost c: Context, ghost due: Due, ghost from: set<GKNN>)
    returns (r: Result<Policies, string>)
    requires Ready(nodes, rels, c) && AllRecord(nodes, c.before, due) && k in nodes
    requires ToOne(relation, rels) && result == InheritedFrom(c.policies, from)
    ensures r == Ok(InheritedFrom(c.policies, from + Targets(nodes[k], relation)))
  {
    assert RefersWithin(nodes, nodes[k], nodes[k].outNeighbors) && |relation.neighborFunc(nodes[k].obj)| == 1;
    forall t | t in nodes { DirectOf(nodes, rels, c, due, t); }
    hide *;
    r := AddFromAny(nodes, nodes[k], relation, result, c.policies, from);
  }

  lemma ReadyFacts(nodes: map<GKNN, Node>, rels: Relations, c: Context)
    requires Ready(nodes, rels, c)
    ensures Keyed(nodes) && nodes.Keys == c.before.Keys && InheritedFrom(c.policies, {}) == map[]
    ensures ToOne(rels.gatewayNamespace, rels) && ToOne(rels.gatewayClass, rels) && ToOne(rels.httpRouteNamespace, rels)
    ensures ToOne(rels.backendNamespace, rels)
    ensures nodes.Values !! c.removed.Values
  {
    assert forall k, t :: k in nodes && t in c.removed ==> nodes[k] != c.removed[t];
  }

  lemma GatewayDue(nodes: map<GKNN, Node>, rels: Relations, policies: Policies, k: GKNN)
    requires k in nodes && k.GK() == GATEWAY_GK
    ensures k in GatewaysDue(nodes, rels, policies)
    ensures GatewaysDue(nodes, rels, policies)[k] == NO_EFFECTIVE_DATA.(gatewayInherited :=
      InheritedFrom(policies, {} + Targets(nodes[k], rels.gatewayNamespace) + Targets(nodes[k], rels.gatewayClass)))
  {
  }

  lemma RouteDue(nodes: map<GKNN, Node>, rels: Relations, policies: Policies, k: GKNN)
    requires k in nodes && k.GK() == HTTP_ROUTE_GK
    ensures k in RoutesDue(nodes, rels, policies)
    ensures RoutesDue(nodes, rels, policies)[k] == NO_EFFECTIVE_DATA.(httpRouteInherited :=
      InheritedFrom(policies, {} + Targets(nodes[k], rels.httpRouteNamespace)
                              + WithAncestors(Targets(nodes[k], rels.parentRef), GatewayAncestors(nodes, rels))))
  {
    hide InheritedFrom, Targets, WithAncestors, GatewayAncestors;
    assert {} + Targets(nodes[k], rels.httpRouteNamespace) == Targets(nodes[k], rels.httpRouteNamespace);
  }

  lemma BackendDue(nodes: map<GKNN, Node>, rels: Relations, policies: Policies, k: GKNN)
    requires k in nodes && k.GK() == SERVICE_GK
    ensures k in BackendsDue(nodes, rels, policies)
    ensures BackendsDue(nodes, rels, policies)[k] == NO_EFFECTIVE_DATA.(backendInherited :=
      InheritedFrom(policies, {} + Targets(nodes[k], rels.backendNamespace)
                              + WithAncestors(Referrers(nodes, nodes[k], rels.backendRef),
                                              RouteAncestors(nodes, rels))))
  {
    hide InheritedFrom, Targets, Referrers, WithAncestors, RouteAncestors;
    assert {} + Targets(nodes[k], rels.backendNamespace) == Targets(nodes[k], rels.backendNamespace);
  }

  method InheritForGateway(nodes: map<GKNN, Node>, k: GKNN, rels: Relations, ghost c: Context, ghost due: Due)
    returns (r: Result<Policies, string>)
    requires Ready(nodes, rels, c) && AllRecord(nodes, c.before, due)
    requires k in nodes && k.GK() == GATEWAY_GK
    modifies nodes.Values`metadata
    ensures r.Ok? && Ready(nodes, rels, c)
    ensures AllRecord(nodes, c.before, due[k := GatewaysDue(nodes, rels, c.policies)[k]])
  {
    hide *;
    GatewayDue(nodes, rels, c.policies, k);
    ReadyFacts(nodes, rels, c);
    // The Namespace comes first, then the GatewayClass.
    r := InheritFromAny(nodes, k, rels.gatewayNamespace, map[], rels, c, due, {});
    if r.Err? { return; }
    ghost var from := {} + Targets(nodes[k], rels.gatewayNamespace);
    r := InheritFromAny(nodes, k, rels.gatewayClass, r.value, rels, c, due, from);
    if r.Err? { return; }
    PutData(nodes, k, NO_EFFECTIVE_DATA.(gatewayInherited := r.value), c.before, due);
  }

  function GatewayPart(data: EffectiveData): Policies {
    data.gatewayInherited
  }

  function RoutePart(data: EffectiveData): Policies {
    data.httpRouteInherited
  }

  /** The nodes in `ancestors` have what they inherit recorded. */
  ghost predicate Inherits(due: Due, pick: EffectiveData -> Policies, policies: Policies,
                           ancestors: map<GKNN, set<GKNN>>) {
    forall k :: k in ancestors ==> k in due && pick(due[k]) == InheritedFrom(policies, ancestors[k])
  }

  /** A neighbour in the graph that has its policies recorded offers them; one without metadata offers none. */
  lemma NeighborOffers(nodes: map<GKNN, Node>, rels: Relations, c: Context, due: Due, pick: EffectiveData -> Policies,
                       ancestors: map<GKNN, set<GKNN>>, t: GKNN)
    requires Ready(nodes, rels, c) && AllRecord(nodes, c.before, due) && Inherits(due, pick, c.policies, ancestors)
    ensures t in nodes && t in ancestors ==> Offers(nodes[t], t, true, pick, c.policies, ancestors)
    ensures t in c.removed ==> Offers(c.removed[t], t, false, pick, c.policies, ancestors)
  {
    hide AllRecord, AttachedTo, InheritedFrom, Shaped, Relations.Valid, KeyedById, RecordsDirect;
    if t in nodes { DirectOf(nodes, rels, c, due, t); }
  }

  /** The parents of a route are Gateways of the graph. */
  lemma ParentsAreGateways(nodes: map<GKNN, Node>, rels: Relations, c: Context, k: GKNN, g: GKNN)
    requires Ready(nodes, rels, c) && k in nodes && (rels.parentRef, g) in nodes[k].outNeighbors
    ensures g in nodes && g in GatewayAncestors(nodes, rels) && nodes[k].outNeighbors[(rels.parentRef, g)] == nodes[g]
  {
    hide RecordsDirect, KeyedById, AttachedTo, ReferredFrom, Targets;
    assert g in ParentGateways(nodes[k].obj);
  }

  /** What refers to a backend is a route of the graph, or has been pruned. */
  lemma ReferrersAreRoutes(nodes: map<GKNN, Node>, rels: Relations, c: Context, k: GKNN, t: GKNN)
    requires Ready(nodes, rels, c) && k in nodes && (rels.backendRef, t) in nodes[k].inNeighbors
    ensures t in nodes ==> t in RouteAncestors(nodes, rels) && nodes[k].inNeighbors[(rels.backendRef, t)] == nodes[t]
    ensures t !in nodes ==> t in c.removed && nodes[k].inNeighbors[(rels.backendRef, t)] == c.removed[t]
  {
    hide RecordsDirect, KeyedById, AttachedTo, RefersWithin, Targets, GatewayAncestors, WithAncestors;
  }

  method AddFromGateways(nodes: map<GKNN, Node>, k: GKNN, rels: Relations, result: Policies, ghost c: Context,
                         ghost due: Due, ghost from: set<GKNN>)
    returns (r: Result<Policies, string>)
    requires Ready(nodes, rels, c) && AllRecord(nodes, c.before, due) && k in nodes
    requires Inherits(due, GatewayPart, c.policies, GatewayAncestors(nodes, rels))
    requires result == InheritedFrom(c.policies, from)
    ensures var above := WithAncestors(Targets(nodes[k], rels.parentRef), GatewayAncestors(nodes, rels));
      r == Ok(InheritedFrom(c.policies, from + above))
  {
    hide Ready, InheritedFrom, Offers, WithAncestors, GatewayAncestors, AllRecord, Inherits;
    var gateways := NeighborsBy(nodes[k].outNeighbors, rels.parentRef);
    forall g | g in gateways
      ensures Offers(gateways[g], g, true, GatewayPart, c.policies, GatewayAncestors(nodes, rels))
      ensures g in GatewayAncestors(nodes, rels)
    {
      ParentsAreGateways(nodes, rels, c, k, g);
      NeighborOffers(nodes, rels, c, due, GatewayPart, GatewayAncestors(nodes, rels), g);
    }
    assert Targets(nodes[k], rels.parentRef) == gateways.Keys;
    r := AddFromAll(gateways, result, GatewayPart, gateways.Keys, c.policies, GatewayAncestors(nodes, rels), from);
  }

  method AddFromHTTPRoutes(nodes: map<GKNN, Node>, k: GKNN, rels: Relations, result: Policies, ghost c: Context,
                           ghost due: Due, ghost from: set<GKNN>)
    returns (r: Result<Policies, string>)
    requires Ready(nodes, rels, c) && AllRecord(nodes, c.before, due) && k in nodes
    requires Inherits(due, RoutePart, c.policies, RouteAncestors(nodes, rels))
    requires result == InheritedFrom(c.policies, from)
    ensures var above := WithAncestors(Referrers(nodes, nodes[k], rels.backendRef), RouteAncestors(nodes, rels));
      r == Ok(InheritedFrom(c.policies, from + above))
  {
    hide Ready, InheritedFrom, Offers, WithAncestors, RouteAncestors, AllRecord, Inherits;
    var routes := NeighborsBy(nodes[k].inNeighbors, rels.backendRef);
    ghost var live := Referrers(nodes, nodes[k], rels.backendRef);
    forall t | t in routes
      ensures Offers(routes[t], t, t in live, RoutePart, c.policies, RouteAncestors(nodes, rels))
      ensures t in live ==> t in RouteAncestors(nodes, rels)
    {
      ReferrersAreRoutes(nodes, rels, c, k, t);
      NeighborOffers(nodes, rels, c, due, RoutePart, RouteAncestors(nodes, rels), t);
    }
    r := AddFromAll(routes, result, RoutePart, live, c.policies, RouteAncestors(nodes, rels), from);
  }

  method InheritForHTTPRoute(nodes: map<GKNN, Node>, k: GKNN, rels: Relations, ghost c: Context, ghost due: Due)
    returns (r: Result<Policies, string>)
    requires Ready(nodes, rels, c) && AllRecord(nodes, c.before, due)
    requires k in nodes && k.GK() == HTTP_ROUTE_GK
    requires Inherits(due, GatewayPart, c.policies, GatewayAncestors(nodes, rels))
    modifies nodes.Values`metadata
    ensures r.Ok? && Ready(nodes, rels, c)
    ensures AllRecord(nodes, c.before, due[k := RoutesDue(nodes, rels, c.policies)[k]])
  {
    hide *;
    RouteDue(nodes, rels, c.policies, k);
    ReadyFacts(nodes, rels, c);
    // The Namespace comes first, then the Gateways.
    r := InheritFromAny(nodes, k, rels.httpRouteNamespace, map[], rels, c, due, {});
    if r.Err? { return; }
    ghost var from := {} + Targets(nodes[k], rels.httpRouteNamespace);
    r := AddFromGateways(nodes, k, rels, r.value, c, due, from);
    if r.Err? { return; }
    PutData(nodes, k, NO_EFFECTIVE_DATA.(httpRouteInherited := r.value), c.before, due);
  }

  method InheritForBackend(nodes: map<GKNN, Node>, k: GKNN, rels: Relations, ghost c: Context, ghost due: Due)
    returns (r: Result<Policies, string>)
    requires Ready(nodes, rels, c) && AllRecord(nodes, c.before, due)
    requires k in nodes && k.GK() == SERVICE_GK && Inherits(due, RoutePart, c.policies, RouteAncestors(nodes, rels))
    modifies nodes.Values`metadata
    ensures r.Ok? && Ready(nodes, rels, c)
    ensures AllRecord(nodes, c.before, due[k := BackendsDue(nodes, rels, c.policies)[k]])
  {
    hide *;
    BackendDue(nodes, rels, c.policies, k);
    ReadyFacts(nodes, rels, c);
    // The Namespace comes first, then the HTTPRoutes.
    r := InheritFromAny(nodes, k, rels.backendNamespace, map[], rels, c, due, {});
    if r.Err? { return; }
    ghost var from := {} + Targets(nodes[k], rels.backendNamespace);
    r := AddFromHTTPRoutes(nodes, k, rels, r.value, c, due, from);
    if r.Err? { return; }
    PutData(nodes, k, NO_EFFECTIVE_DATA.(backendInherited := r.value), c.before, due);
  }

  lemma GatewaysInherit(nodes: map<GKNN, Node>, rels: Relations, policies: Policies, todo: set<GKNN>)
    ensures Inherits(GatewaysDue(nodes, rels, policies) + (RoutesDue(nodes, rels, policies) - todo),
                     GatewayPart, policies, GatewayAncestors(nodes, rels))
  {
    hide InheritedFrom, Targets, WithAncestors;
    assert GATEWAY_GK.kind[0] == 'G' && HTTP_ROUTE_GK.kind[0] == 'H';
  }

  lemma RoutesInherit(nodes: map<GKNN, Node>, rels: Relations, policies: Policies, todo: set<GKNN>)
    ensures var gateways, routes := GatewaysDue(nodes, rels, policies), RoutesDue(nodes, rels, policies);
      Inherits(gateways + routes + (BackendsDue(nodes, rels, policies) - todo), RoutePart, policies,
               RouteAncestors(nodes, rels))
  {
    hide InheritedFrom, Targets, WithAncestors, Referrers, GatewayAncestors;
    assert HTTP_ROUTE_GK.kind[0] == 'H' && SERVICE_GK.kind[0] == 'S';
  }

  /** One node of a pass is done. */
  lemma DueNext(prior: Due, all: Due, todo: set<GKNN>, k: GKNN)
    requires k in all && k in todo
    ensures (prior + (all - todo))[k := all[k]] == prior + (all - (todo - {k}))
  {
  }

  lemma DueEnds(prior: Due, all: Due)
    ensures prior + (all - all.Keys) == prior && prior + (all - {}) == prior + all
  {
  }

  lemma DueKeys(nodes: map<GKNN, Node>, rels: Relations, policies: Policies)
    ensures GatewaysDue(nodes, rels, policies).Keys == set k | k in nodes && k.GK() == GATEWAY_GK
    ensures RoutesDue(nodes, rels, policies).Keys == set k | k in nodes && k.GK() == HTTP_ROUTE_GK
    ensures BackendsDue(nodes, rels, policies).Keys == set k | k in nodes && k.GK() == SERVICE_GK
  {
    hide InheritedFrom, Targets, WithAncestors, Referrers;
  }

  method CalculateInheritedPoliciesForGateways(nodes: map<GKNN, Node>, rels: Relations, ghost c: Context)
    returns (r: Result<Policies, string>)
    requires Ready(nodes, rels, c) && AllRecord(nodes, c.before, map[])
    modifies nodes.Values`metadata
    ensures r.Ok? && Ready(nodes, rels, c)
    ensures AllRecord(nodes, c.before, GatewaysDue(nodes, rels, c.policies))
  {
    hide *;
    ReadyFacts(nodes, rels, c);
    DueKeys(nodes, rels, c.policies);
    ghost var prior, all := map[], GatewaysDue(nodes, rels, c.policies);
    DueEnds(prior, all);
    var todo := set k | k in nodes && k.GK() == GATEWAY_GK;
    r := Ok(map[]);
    while todo != {}
      invariant todo <= all.Keys && r.Ok?
      invariant Ready(nodes, rels, c) && AllRecord(nodes, c.before, prior + (all - todo))
    {
      var k :| k in todo;
      r := InheritForGateway(nodes, k, rels, c, prior + (all - todo));
      if r.Err? { return; }
      DueNext(prior, all, todo, k);
      todo := todo - {k};
    }
    assert prior + all == all;
  }

  method CalculateInheritedPoliciesForHTTPRoutes(nodes: map<GKNN, Node>, rels: Relations, ghost c: Context)
    returns (r: Result<Policies, string>)
    requires Ready(nodes, rels, c) && AllRecord(nodes, c.before, GatewaysDue(nodes, rels, c.policies))
    modifies nodes.Values`metadata
    ensures r.Ok? && Ready(nodes, rels, c)
    ensures AllRecord(nodes, c.before, GatewaysDue(nodes, rels, c.policies) + RoutesDue(nodes, rels, c.policies))
  {
    hide *;
    ReadyFacts(nodes, rels, c);
    DueKeys(nodes, rels, c.policies);
    ghost var prior, all := GatewaysDue(nodes, rels, c.policies), RoutesDue(nodes, rels, c.policies);
    DueEnds(prior, all);
    var todo := set k | k in nodes && k.GK() == HTTP_ROUTE_GK;
    r := Ok(map[]);
    while todo != {}
      invariant todo <= all.Keys && r.Ok?
      invariant Ready(nodes, rels, c) && AllRecord(nodes, c.before, prior + (all - todo))
    {
      var k :| k in todo;
      GatewaysInherit(nodes, rels, c.policies, todo);
      r := InheritForHTTPRoute(nodes, k, rels, c, prior + (all - todo));
      if r.Err? { return; }
      DueNext(prior, all, todo, k);
      todo := todo - {k};
    }
  }

  method CalculateInheritedPoliciesForBackends(nodes: map<GKNN, Node>, rels: Relations, ghost c: Context)
    returns (r: Result<Policies, string>)
    requires Ready(nodes, rels, c)
    requires AllRecord(nodes, c.before, GatewaysDue(nodes, rels, c.policies) + RoutesDue(nodes, rels, c.policies))
    modifies nodes.Values`metadata
    ensures r.Ok? && Ready(nodes, rels, c)
    ensures AllRecord(nodes, c.before, InheritedDue(nodes, rels, c.policies))
  {
    hide *;
    ReadyFacts(nodes, rels, c);
    DueKeys(nodes, rels, c.policies);
    ghost var prior, all :=
      GatewaysDue(nodes, rels, c.policies) + RoutesDue(nodes, rels, c.policies), BackendsDue(nodes, rels, c.policies);
    DueEnds(prior, all);
    var todo := set k | k in nodes && k.GK() == SERVICE_GK;
    r := Ok(map[]);
    while todo != {}
      invariant todo <= all.Keys && r.Ok?
      invariant Ready(nodes, rels, c) && AllRecord(nodes, c.before, prior + (all - todo))
    {
      var k :| k in todo;
      RoutesInherit(nodes, rels, c.policies, todo);
      r := InheritForBackend(nodes, k, rels, c, prior + (all - todo));
      if r.Err? { return; }
      DueNext(prior, all, todo, k);
      todo := todo - {k};
    }
    InheritedDueIs(nodes, rels, c.policies);
  }

  /** What all nodes have to inherit. */
  ghost function InheritedDue(nodes: map<GKNN, Node>, rels: Relations, policies: Policies): Due
    reads nodes.Values`outNeighbors, nodes.Values`inNeighbors
  {
    GatewaysDue(nodes, rels, policies) + RoutesDue(nodes, rels, policies) + BackendsDue(nodes, rels, policies)
  }

  lemma InheritedDueIs(nodes: map<GKNN, Node>, rels: Relations, policies: Policies)
    ensures InheritedDue(nodes, rels, policies)
      == GatewaysDue(nodes, rels, policies) + RoutesDue(nodes, rels, policies) + BackendsDue(nodes, rels, policies)
  {
  }

  /** Main result on inheritance: whatever the order of visits, every Gateway, HTTPRoute and Backend inherits
      exactly the inheritable policies attached to one of its ancestors. */
  method CalculateInheritedPolicies(nodes: map<GKNN, Node>, rels: Relations, ghost c: Context)
    returns (r: Result<Policies, string>)
    requires Ready(nodes, rels, c) && AllRecord(nodes, c.before, map[])
    modifies nodes.Values`metadata
    ensures r.Ok? && Ready(nodes, rels, c)
    ensures AllRecord(nodes, c.before, InheritedDue(nodes, rels, c.policies))
  {
    hide *;
    r := CalculateInheritedPoliciesForGateways(nodes, rels, c);
    if r.Err? { return; }
    r := CalculateInheritedPoliciesForHTTPRoutes(nodes, rels, c);
    if r.Err? { return; }
    r := CalculateInheritedPoliciesForBackends(nodes, rels, c);
  }
}

/** The passes that give all Gateways, HTTPRoutes and Backends of a graph what they inherit and what is
    effective (pkg/extension/gatewayeffectivepolicy/gatewayeffectivepolicy.go, lines 42 to 50 and 191 to 447). */
module EffectivePasses {
  import opened Common
  import opened DirectlyAttachedPolicy
  import opened EffectivePolicies
  import opened Gateway
  import opened GatewayNodes
  import opened InheritedPolicies
  import opened LevelHierarchy
  import opened Merger
  import opened Metadata
  import opened Topology

  // ---------------------------------------------------------------- the passes

  /** Changes the entry of a node, an empty one being made if there is none; `result` is what was calculated. */
  method ChangeData<T>(node: Node, change: EffectiveData -> EffectiveData, result: T) returns (r: Result<T, Failure>)
    requires node.metadata.Some?
    modifies node`metadata
    ensures r.Err? <==> old(InheritedPolicies.Access(node)).Err?
    ensures r.Ok? ==> r.value == result
    ensures r.Ok? ==>
      var data := old(InheritedPolicies.Access(node)).value;
      var changed := change(if data.Some? then data.value else NO_EFFECTIVE_DATA);
      node.metadata == Some(old(node.metadata).value[INHERITED_POLICY := Effective(changed)])
  {
    var data := InheritedPolicies.Access(node);
    if data.Err? {
      return Err(OtherError(data.error));
    }
    var nodeMetadata := if data.value == None then NO_EFFECTIVE_DATA else data.value.value;
    node.metadata := Some(node.metadata.value[INHERITED_POLICY := Effective(change(nodeMetadata))]);
    return Ok(result);
  }

  method RecordChange<T>(nodes: map<GKNN, Node>, k: GKNN, change: EffectiveData -> EffectiveData, result: T,
                         ghost rels: Relations, ghost c: Context, ghost due: Due)
    returns (r: Result<T, Failure>)
    requires Ready(nodes, rels, c) && AllRecord(nodes, c.before, due) && k in nodes && k in due
    modifies nodes.Values`metadata
    ensures r == Ok(result) && Ready(nodes, rels, c) && AllRecord(nodes, c.before, due[k := change(due[k])])
  {
    hide Ready;
    ReadyFacts(nodes, rels, c);
    DataOf(nodes, rels, c, due, k);
    r := ChangeData(nodes[k], change, result);
  }

  function SetGateway(merged: PolicyMap): EffectiveData -> EffectiveData {
    (d: EffectiveData) => d.(gatewayEffective := merged)
  }

  function SetRoute(merged: map<GKNN, PolicyMap>): EffectiveData -> EffectiveData {
    (d: EffectiveData) => d.(httpRouteEffective := merged)
  }

  function SetBackend(merged: map<GKNN, PolicyMap>): EffectiveData -> EffectiveData {
    (d: EffectiveData) => d.(backendEffective := merged)
  }

  method EffectForGateway(nodes: map<GKNN, Node>, k: GKNN, maxDepth: int, rels: Relations, ghost c: Context,
                          ghost due: Due)
    returns (r: Result<Option<PolicyMap>, Failure>)
    requires Ready(nodes, rels, c) && AllRecord(nodes, c.before, due) && k in nodes && k in due
    requires due[k].gatewayEffective == map[]
    modifies nodes.Values`metadata
    ensures Ready(nodes, rels, c)
    ensures r.Err? ==> r.error.BadPolicies? && !AllReadable(c.policies) && AllRecord(nodes, c.before, due)
    ensures r.Ok? ==>
      var merged := if r.value.Some? then r.value.value else map[];
      && AllRecord(nodes, c.before, due[k := due[k].(gatewayEffective := merged)])
      && GatewayEffective(nodes[k], rels, maxDepth, c.policies, merged) && (AllReadable(c.policies) ==> Sound(merged))
  {
    hide Ready, AllRecord, GatewayEffective, AllReadable;
    NoPoliciesAreSound();
    hide Sound;
    r := GatewayPolicies(nodes, k, maxDepth, rels, c, due);
    if r.Err? { return; }
    if r.value.Some? {
      r := RecordChange(nodes, k, SetGateway(r.value.value), r.value, rels, c, due);
    } else {
      assert due[k := due[k].(gatewayEffective := map[])] == due;
    }
  }

  method EffectForHTTPRoute(nodes: map<GKNN, Node>, k: GKNN, rels: Relations, ghost c: Context, ghost due: Due)
    returns (r: Result<Option<map<GKNN, PolicyMap>>, Failure>)
    requires Ready(nodes, rels, c) && AllRecord(nodes, c.before, due) && k in nodes && k in due
    requires due[k].httpRouteEffective == map[] && forall g :: g in nodes && g.GK() == GATEWAY_GK ==> g in due
    modifies nodes.Values`metadata
    ensures Ready(nodes, rels, c)
    ensures r.Err? ==>
      r.error.BadPolicies? && !(AllReadable(c.policies) && GatewaysSound(nodes, due)) && AllRecord(nodes, c.before, due)
    ensures r.Ok? ==>
      var merged := if r.value.Some? then r.value.value else map[];
      && AllRecord(nodes, c.before, due[k := due[k].(httpRouteEffective := merged)])
      && RouteEffective(nodes[k], rels, c.policies, due, merged)
      && (AllReadable(c.policies) && GatewaysSound(nodes, due) ==> AllSound(merged))
  {
    hide Ready, AllRecord, RouteEffective, AllReadable, Sound, GatewaysSound;
    r := RoutePolicies(nodes, k, rels, c, due);
    if r.Err? { return; }
    if r.value.Some? {
      r := RecordChange(nodes, k, SetRoute(r.value.value), r.value, rels, c, due);
    } else {
      assert due[k := due[k].(httpRouteEffective := map[])] == due;
    }
  }

  method EffectForBackend(nodes: map<GKNN, Node>, k: GKNN, rels: Relations, ghost c: Context, ghost due: Due)
    returns (r: Result<Option<map<GKNN, PolicyMap>>, Failure>)
    requires Ready(nodes, rels, c) && AllRecord(nodes, c.before, due) && k in nodes && k in due
    requires due[k].backendEffective == map[] && forall t :: t in nodes && t.GK() == HTTP_ROUTE_GK ==> t in due
    modifies nodes.Values`metadata
    ensures Ready(nodes, rels, c)
    ensures r.Err? ==> r.error.BadPolicies? && AllRecord(nodes, c.before, due)
    ensures r.Err? ==> !(AllReadable(c.policies) && RoutesSound(due, Referrers(nodes, nodes[k], rels.backendRef)))
    ensures r.Ok? ==>
      var merged := if r.value.Some? then r.value.value else map[];
      && AllRecord(nodes, c.before, due[k := due[k].(backendEffective := merged)])
      && BackendEffective(nodes, nodes[k], rels, c.policies, due, merged)
  {
    hide Ready, AllRecord, BackendEffective, AllReadable, RoutesSound, Referrers;
    r := BackendPolicies(nodes, k, rels, c, due);
    if r.Err? { return; }
    if r.value.Some? {
      r := RecordChange(nodes, k, SetBackend(r.value.value), r.value, rels, c, due);
    } else {
      assert due[k := due[k].(backendEffective := map[])] == due;
    }
  }

  /** The extension has an entry for exactly the Gateways, HTTPRoutes and Backends. */
  ghost predicate Covers(nodes: map<GKNN, Node>, due: Due) {
    due.Keys == set k | k in nodes && k.GK() in {GATEWAY_GK, HTTP_ROUTE_GK, SERVICE_GK}
  }

  /** The Gateways not in `todo` have their effective policies; all other nodes have none as Gateways. */
  ghost predicate GatewaysDone(nodes: map<GKNN, Node>, rels: Relations, maxDepth: int, policies: Policies, due: Due,
                               todo: set<GKNN>)
    reads nodes.Values`outNeighbors, nodes.Values`depth
  {
    forall k :: k in due ==> (
      k in nodes && if k.GK() == GATEWAY_GK && k !in todo
      then GatewayEffective(nodes[k], rels, maxDepth, policies, due[k].gatewayEffective)
        && (AllReadable(policies) ==> Sound(due[k].gatewayEffective))
      else due[k].gatewayEffective == map[])
  }

  /** The HTTPRoutes not in `todo` have their effective policies, on the basis of `base`. */
  ghost predicate RoutesDone(nodes: map<GKNN, Node>, rels: Relations, policies: Policies, base: Due, due: Due,
                             todo: set<GKNN>)
    reads nodes.Values`outNeighbors
  {
    forall k :: k in due ==> (
      k in nodes && if k.GK() == HTTP_ROUTE_GK && k !in todo
      then RouteEffective(nodes[k], rels, policies, base, due[k].httpRouteEffective)
        && (AllReadable(policies) ==> AllSound(due[k].httpRouteEffective))
      else due[k].httpRouteEffective == map[])
  }

  /** The Backends not in `todo` have their effective policies, on the basis of `base`. */
  ghost predicate BackendsDone(nodes: map<GKNN, Node>, rels: Relations, policies: Policies, base: Due, due: Due,
                               todo: set<GKNN>)
    reads nodes.Values`outNeighbors, nodes.Values`inNeighbors
  {
    forall k :: k in due ==> (
      k in nodes && if k.GK() == SERVICE_GK && k !in todo
      then BackendEffective(nodes, nodes[k], rels, policies, base, due[k].backendEffective)
      else due[k].backendEffective == map[])
  }

  ghost predicate SameButGateways(a: Due, b: Due) {
    a.Keys == b.Keys && forall k :: k in a ==> b[k] == a[k].(gatewayEffective := b[k].gatewayEffective)
  }

  ghost predicate SameButRoutes(a: Due, b: Due) {
    a.Keys == b.Keys && forall k :: k in a ==> b[k] == a[k].(httpRouteEffective := b[k].httpRouteEffective)
  }

  ghost predicate SameButBackends(a: Due, b: Due) {
    a.Keys == b.Keys && forall k :: k in a ==> b[k] == a[k].(backendEffective := b[k].backendEffective)
  }

  /** A Gateway that is still to be visited has an entry, without effective policies. */
  lemma GatewayTodo(nodes: map<GKNN, Node>, rels: Relations, maxDepth: int, policies: Policies, due: Due,
                    todo: set<GKNN>, k: GKNN)
    requires GatewaysDone(nodes, rels, maxDepth, policies, due, todo) && Covers(nodes, due)
    requires k in nodes && k.GK() == GATEWAY_GK && k in todo
    ensures k in due && due[k].gatewayEffective == map[]
  {
  }

  lemma GatewayDone(nodes: map<GKNN, Node>, rels: Relations, maxDepth: int, policies: Policies, base: Due, due: Due,
                    todo: set<GKNN>, k: GKNN, merged: PolicyMap)
    requires GatewaysDone(nodes, rels, maxDepth, policies, due, todo) && Covers(nodes, due)
    requires SameButGateways(base, due)
    requires k in nodes && k.GK() == GATEWAY_GK && k in due
    requires GatewayEffective(nodes[k], rels, maxDepth, policies, merged) && (AllReadable(policies) ==> Sound(merged))
    ensures var next := due[k := due[k].(gatewayEffective := merged)];
      GatewaysDone(nodes, rels, maxDepth, policies, next, todo - {k}) && Covers(nodes, next)
        && SameButGateways(base, next)
  {
    hide GatewayEffective, Sound, AllReadable;
  }

  /** The state of the pass over the Gateways. */
  ghost predicate GatewayPass(nodes: map<GKNN, Node>, rels: Relations, maxDepth: int, c: Context, base: Due, due: Due,
                              todo: set<GKNN>)
    reads nodes.Values, c.removed.Values`metadata
  {
    && Ready(nodes, rels, c) && AllRecord(nodes, c.before, due)
    && Covers(nodes, due) && SameButGateways(base, due) && GatewaysDone(nodes, rels, maxDepth, c.policies, due, todo)
  }

  method NextGateway(nodes: map<GKNN, Node>, k: GKNN, maxDepth: int, rels: Relations, ghost c: Context, ghost base: Due,
                     ghost due0: Due, ghost todo: set<GKNN>)
    returns (r: Result<Option<PolicyMap>, Failure>, ghost due: Due)
    requires GatewayPass(nodes, rels, maxDepth, c, base, due0, todo)
    requires k in nodes && k.GK() == GATEWAY_GK && k in todo
    modifies nodes.Values`metadata
    ensures GatewayPass(nodes, rels, maxDepth, c, base, due, if r.Ok? then todo - {k} else todo)
    ensures r.Err? ==> r.error.BadPolicies? && !AllReadable(c.policies)
  {
    hide Ready, AllRecord, Covers, GatewaysDone, SameButGateways, GatewayEffective, AllReadable, Sound;
    due := due0;
    GatewayTodo(nodes, rels, maxDepth, c.policies, due, todo, k);
    r := EffectForGateway(nodes, k, maxDepth, rels, c, due);
    if r.Ok? {
      ghost var merged := if r.value.Some? then r.value.value else map[];
      GatewayDone(nodes, rels, maxDepth, c.policies, base, due, todo, k, merged);
      due := due[k := due[k].(gatewayEffective := merged)];
    }
  }

  /** Nothing is effective yet. */
  ghost predicate NoEffects(due: Due) {
    forall k :: k in due ==>
      due[k].gatewayEffective == map[] && due[k].httpRouteEffective == map[] && due[k].backendEffective == map[]
  }

  lemma StartRoutes(nodes: map<GKNN, Node>, rels: Relations, maxDepth: int, policies: Policies, base: Due, due: Due)
    requires SameButGateways(base, due) && NoEffects(base) && Covers(nodes, due)
    requires GatewaysDone(nodes, rels, maxDepth, policies, due, {})
    ensures SameButRoutes(due, due) && (AllReadable(policies) ==> GatewaysSound(nodes, due))
    ensures RoutesDone(nodes, rels, policies, due, due, set k | k in nodes && k.GK() == HTTP_ROUTE_GK)
  {
    hide GatewayEffective, RouteEffective, Sound, AllReadable;
  }

  lemma AfterGatewayPass(nodes: map<GKNN, Node>, rels: Relations, maxDepth: int, c: Context, base: Due, due: Due,
                         todo: set<GKNN>)
    requires GatewayPass(nodes, rels, maxDepth, c, base, due, todo) && NoEffects(base)
    ensures Ready(nodes, rels, c) && AllRecord(nodes, c.before, due) && SameButGateways(base, due)
    ensures GatewaysDone(nodes, rels, maxDepth, c.policies, due, todo)
    ensures todo == {} ==> RoutePass(nodes, rels, c, due, due, set k | k in nodes && k.GK() == HTTP_ROUTE_GK)
  {
    hide Ready, AllRecord, Covers, GatewaysDone, RoutesDone, SameButGateways, SameButRoutes, AllReadable, GatewaysSound;
    if todo == {} { StartRoutes(nodes, rels, maxDepth, c.policies, base, due); }
  }

  method CalculateEffectivePoliciesForGateways(nodes: map<GKNN, Node>, maxDepth: int, rels: Relations, ghost c: Context,
                                               ghost base: Due)
    returns (r: Result<(), Failure>, ghost due: Due, ghost left: set<GKNN>)
    requires GatewayPass(nodes, rels, maxDepth, c, base, base, set k | k in nodes && k.GK() == GATEWAY_GK)
    requires NoEffects(base)
    modifies nodes.Values`metadata
    ensures Ready(nodes, rels, c) && AllRecord(nodes, c.before, due) && SameButGateways(base, due)
    ensures GatewaysDone(nodes, rels, maxDepth, c.policies, due, left) && (r.Ok? <==> left == {})
    ensures forall k :: k in left ==> k.GK() == GATEWAY_GK
    ensures r.Ok? ==> RoutePass(nodes, rels, c, due, due, set k | k in nodes && k.GK() == HTTP_ROUTE_GK)
    ensures r.Err? ==> r.error.BadPolicies? && !AllReadable(c.policies)
  {
    hide *;
    due := base;
    var todo := set k | k in nodes && k.GK() == GATEWAY_GK;
    while todo != {}
      invariant forall k :: k in todo ==> k in nodes && k.GK() == GATEWAY_GK
      invariant GatewayPass(nodes, rels, maxDepth, c, base, due, todo)
    {
      var k :| k in todo;
      var merged, next := NextGateway(nodes, k, maxDepth, rels, c, base, due, todo);
      due := next;
      if merged.Err? {
        AfterGatewayPass(nodes, rels, maxDepth, c, base, due, todo);
        return Err(merged.error), due, todo;
      }
      todo := todo - {k};
    }
    AfterGatewayPass(nodes, rels, maxDepth, c, base, due, todo);
    return Ok(()), due, {};
  }

  /** What is effective at a route depends on what has been recorded for its Gateways only. */
  lemma RouteEffectiveSame(node: Node, rels: Relations, policies: Policies, a: Due, b: Due,
                           merged: map<GKNN, PolicyMap>)
    requires RouteEffective(node, rels, policies, a, merged)
    requires a.Keys == b.Keys && forall k :: k in a ==> a[k].gatewayEffective == b[k].gatewayEffective
    ensures RouteEffective(node, rels, policies, b, merged)
  {
    hide IsStack;
  }

  lemma RouteTodo(nodes: map<GKNN, Node>, rels: Relations, policies: Policies, base: Due, due: Due, todo: set<GKNN>,
                  k: GKNN)
    requires RoutesDone(nodes, rels, policies, base, due, todo) && Covers(nodes, due) && SameButRoutes(base, due)
    requires k in nodes && k.GK() == HTTP_ROUTE_GK && k in todo
    ensures k in due && due[k].httpRouteEffective == map[] && forall g :: g in nodes && g.GK() == GATEWAY_GK ==>
      g in due
    ensures GatewaysSound(nodes, base) ==> GatewaysSound(nodes, due)
  {
    hide RouteEffective, Sound, AllSound, AllReadable;
  }

  lemma RouteDone(nodes: map<GKNN, Node>, rels: Relations, policies: Policies, base: Due, due: Due, todo: set<GKNN>,
                  k: GKNN, merged: map<GKNN, PolicyMap>)
    requires RoutesDone(nodes, rels, policies, base, due, todo) && Covers(nodes, due) && SameButRoutes(base, due)
    requires k in nodes && k.GK() == HTTP_ROUTE_GK && k in due
    requires RouteEffective(nodes[k], rels, policies, due, merged) && (AllReadable(policies) ==> AllSound(merged))
    ensures var next := due[k := due[k].(httpRouteEffective := merged)];
      RoutesDone(nodes, rels, policies, base, next, todo - {k}) && Covers(nodes, next) && SameButRoutes(base, next)
  {
    hide RouteEffective, AllSound, AllReadable;
    RouteEffectiveSame(nodes[k], rels, policies, due, base, merged);
  }

  /** The state of the pass over the HTTPRoutes. */
  ghost predicate RoutePass(nodes: map<GKNN, Node>, rels: Relations, c: Context, base: Due, due: Due, todo: set<GKNN>)
    reads nodes.Values, c.removed.Values`metadata
  {
    && Ready(nodes, rels, c) && AllRecord(nodes, c.before, due)
    && (AllReadable(c.policies) ==> GatewaysSound(nodes, base))
    && Covers(nodes, due) && SameButRoutes(base, due) && RoutesDone(nodes, rels, c.policies, base, due, todo)
  }

  method NextHTTPRoute(nodes: map<GKNN, Node>, k: GKNN, rels: Relations, ghost c: Context, ghost base: Due,
                       ghost due0: Due, ghost todo: set<GKNN>)
    returns (r: Result<Option<map<GKNN, PolicyMap>>, Failure>, ghost due: Due)
    requires RoutePass(nodes, rels, c, base, due0, todo)
    requires k in nodes && k.GK() == HTTP_ROUTE_GK && k in todo
    modifies nodes.Values`metadata
    ensures RoutePass(nodes, rels, c, base, due, if r.Ok? then todo - {k} else todo)
    ensures r.Err? ==> r.error.BadPolicies? && !AllReadable(c.policies)
  {
    hide Ready, AllRecord, Covers, RoutesDone, SameButRoutes, RouteEffective, AllReadable, GatewaysSound, AllSound;
    due := due0;
    RouteTodo(nodes, rels, c.policies, base, due, todo, k);
    r := EffectForHTTPRoute(nodes, k, rels, c, due);
    if r.Ok? {
      ghost var merged := if r.value.Some? then r.value.value else map[];
      RouteDone(nodes, rels, c.policies, base, due, todo, k, merged);
      due := due[k := due[k].(httpRouteEffective := merged)];
    }
  }

  lemma StartBackends(nodes: map<GKNN, Node>, rels: Relations, policies: Policies, base: Due, due: Due)
    requires SameButRoutes(base, due) && Covers(nodes, due) && RoutesDone(nodes, rels, policies, base, due, {})
    requires forall k :: k in base ==> base[k].backendEffective == map[]
    ensures SameButBackends(due, due) && (AllReadable(policies) ==> RoutesSound(due, due.Keys))
    ensures BackendsDone(nodes, rels, policies, due, due, set k | k in nodes && k.GK() == SERVICE_GK)
  {
    hide RouteEffective, BackendEffective, Sound, AllReadable;
  }

  lemma AfterRoutePass(nodes: map<GKNN, Node>, rels: Relations, c: Context, base: Due, due: Due, todo: set<GKNN>)
    requires RoutePass(nodes, rels, c, base, due, todo)
    requires forall k :: k in base ==> base[k].backendEffective == map[]
    ensures Ready(nodes, rels, c) && AllRecord(nodes, c.before, due) && SameButRoutes(base, due)
    ensures RoutesDone(nodes, rels, c.policies, base, due, todo)
    ensures todo == {} ==> BackendPass(nodes, rels, c, due, due, set k | k in nodes && k.GK() == SERVICE_GK)
  {
    hide Ready, AllRecord, Covers, RoutesDone, BackendsDone, SameButBackends, SameButRoutes, AllReadable, GatewaysSound,
      RoutesSound;
    if todo == {} { StartBackends(nodes, rels, c.policies, base, due); }
  }

  method CalculateEffectivePoliciesForHTTPRoutes(nodes: map<GKNN, Node>, rels: Relations, ghost c: Context,
                                                 ghost base: Due)
    returns (r: Result<(), Failure>, ghost due: Due, ghost left: set<GKNN>)
    requires RoutePass(nodes, rels, c, base, base, set k | k in nodes && k.GK() == HTTP_ROUTE_GK)
    requires forall k :: k in base ==> base[k].backendEffective == map[]
    modifies nodes.Values`metadata
    ensures Ready(nodes, rels, c) && AllRecord(nodes, c.before, due) && SameButRoutes(base, due)
    ensures RoutesDone(nodes, rels, c.policies, base, due, left) && (r.Ok? <==> left == {})
    ensures forall k :: k in left ==> k.GK() == HTTP_ROUTE_GK
    ensures r.Ok? ==> BackendPass(nodes, rels, c, due, due, set k | k in nodes && k.GK() == SERVICE_GK)
    ensures r.Err? ==> r.error.BadPolicies? && !AllReadable(c.policies)
  {
    hide *;
    due := base;
    var todo := set k | k in nodes && k.GK() == HTTP_ROUTE_GK;
    while todo != {}
      invariant forall k :: k in todo ==> k in nodes && k.GK() == HTTP_ROUTE_GK
      invariant RoutePass(nodes, rels, c, base, due, todo)
    {
      var k :| k in todo;
      var merged, next := NextHTTPRoute(nodes, k, rels, c, base, due, todo);
      due := next;
      if merged.Err? {
        AfterRoutePass(nodes, rels, c, base, due, todo);
        return Err(merged.error), due, todo;
      }
      todo := todo - {k};
    }
    AfterRoutePass(nodes, rels, c, base, due, todo);
    return Ok(()), due, {};
  }

  /** What is effective at a backend depends on what has been recorded for its routes only. */
  lemma BackendEffectiveSame(nodes: map<GKNN, Node>, node: Node, rels: Relations, policies: Policies, a: Due, b: Due,
                             merged: map<GKNN, PolicyMap>)
    requires BackendEffective(nodes, node, rels, policies, a, merged)
    requires a.Keys == b.Keys && forall k :: k in a ==> a[k].httpRouteEffective == b[k].httpRouteEffective
    ensures BackendEffective(nodes, node, rels, policies, b, merged)
  {
    hide IsStack, IsAccumulated, Targets, Referrers;
    var routes := Referrers(nodes, node, rels.backendRef);
    forall g ensures RoutesFor(a, routes, g) == RoutesFor(b, routes, g) {}
    forall g, order, above | MergedInOrder(a, RoutesFor(a, routes, g), g, order, above)
      ensures MergedInOrder(b, RoutesFor(b, routes, g), g, order, above)
    {
      assert RouteMaps(a, order, g) == RouteMaps(b, order, g);
    }
  }

  lemma BackendTodo(nodes: map<GKNN, Node>, rels: Relations, policies: Policies, base: Due, due: Due, todo: set<GKNN>,
                    k: GKNN)
    requires BackendsDone(nodes, rels, policies, base, due, todo) && Covers(nodes, due) && SameButBackends(base, due)
    requires k in nodes && k.GK() == SERVICE_GK && k in todo
    ensures k in due && due[k].backendEffective == map[] && forall t :: t in nodes && t.GK() == HTTP_ROUTE_GK ==>
      t in due
    ensures RoutesSound(base, base.Keys) ==> RoutesSound(due, Referrers(nodes, nodes[k], rels.backendRef))
  {
    hide BackendEffective, Sound, AllSound, AllReadable;
  }

  lemma BackendDone(nodes: map<GKNN, Node>, rels: Relations, policies: Policies, base: Due, due: Due, todo: set<GKNN>,
                    k: GKNN, merged: map<GKNN, PolicyMap>)
    requires BackendsDone(nodes, rels, policies, base, due, todo) && Covers(nodes, due) && SameButBackends(base, due)
    requires k in nodes && k.GK() == SERVICE_GK && k in due
    requires BackendEffective(nodes, nodes[k], rels, policies, due, merged)
    ensures var next := due[k := due[k].(backendEffective := merged)];
      BackendsDone(nodes, rels, policies, base, next, todo - {k}) && Covers(nodes, next) && SameButBackends(base, next)
  {
    hide BackendEffective;
    BackendEffectiveSame(nodes, nodes[k], rels, policies, due, base, merged);
  }

  /** The state of the pass over the Backends. */
  ghost predicate BackendPass(nodes: map<GKNN, Node>, rels: Relations, c: Context, base: Due, due: Due, todo: set<GKNN>)
    reads nodes.Values, c.removed.Values`metadata
  {
    && Ready(nodes, rels, c) && AllRecord(nodes, c.before, due)
    && (AllReadable(c.policies) ==> RoutesSound(base, base.Keys))
    && Covers(nodes, due) && SameButBackends(base, due) && BackendsDone(nodes, rels, c.policies, base, due, todo)
  }

  method NextBackend(nodes: map<GKNN, Node>, k: GKNN, rels: Relations, ghost c: Context, ghost base: Due,
                     ghost due0: Due, ghost todo: set<GKNN>)
    returns (r: Result<Option<map<GKNN, PolicyMap>>, Failure>, ghost due: Due)
    requires BackendPass(nodes, rels, c, base, due0, todo)
    requires k in nodes && k.GK() == SERVICE_GK && k in todo
    modifies nodes.Values`metadata
    ensures BackendPass(nodes, rels, c, base, due, if r.Ok? then todo - {k} else todo)
    ensures r.Err? ==> r.error.BadPolicies? && !AllReadable(c.policies)
  {
    hide Ready, AllRecord, Covers, BackendsDone, SameButBackends, BackendEffective, AllReadable, RoutesSound, Referrers;
    due := due0;
    BackendTodo(nodes, rels, c.policies, base, due, todo, k);
    r := EffectForBackend(nodes, k, rels, c, due);
    if r.Ok? {
      ghost var merged := if r.value.Some? then r.value.value else map[];
      BackendDone(nodes, rels, c.policies, base, due, todo, k, merged);
      due := due[k := due[k].(backendEffective := merged)];
    }
  }

  lemma AfterBackendPass(nodes: map<GKNN, Node>, rels: Relations, c: Context, base: Due, due: Due, todo: set<GKNN>)
    requires BackendPass(nodes, rels, c, base, due, todo)
    ensures Ready(nodes, rels, c) && AllRecord(nodes, c.before, due) && SameButBackends(base, due)
    ensures BackendsDone(nodes, rels, c.policies, base, due, todo)
  {
    hide Ready, AllRecord, Covers, BackendsDone, SameButBackends, AllReadable, RoutesSound;
  }

  method CalculateEffectivePoliciesForBackends(nodes: map<GKNN, Node>, rels: Relations, ghost c: Context,
                                               ghost base: Due)
    returns (r: Result<(), Failure>, ghost due: Due, ghost left: set<GKNN>)
    requires BackendPass(nodes, rels, c, base, base, set k | k in nodes && k.GK() == SERVICE_GK)
    modifies nodes.Values`metadata
    ensures Ready(nodes, rels, c) && AllRecord(nodes, c.before, due) && SameButBackends(base, due)
    ensures BackendsDone(nodes, rels, c.policies, base, due, left) && (r.Ok? <==> left == {})
    ensures forall k :: k in left ==> k.GK() == SERVICE_GK
    ensures r.Err? ==> r.error.BadPolicies? && !AllReadable(c.policies)
  {
    hide *;
    due := base;
    var todo := set k | k in nodes && k.GK() == SERVICE_GK;
    while todo != {}
      invariant forall k :: k in todo ==> k in nodes && k.GK() == SERVICE_GK
      invariant BackendPass(nodes, rels, c, base, due, todo)
    {
      var k :| k in todo;
      var merged, next := NextBackend(nodes, k, rels, c, base, due, todo);
      due := next;
      if merged.Err? {
        AfterBackendPass(nodes, rels, c, base, due, todo);
        return Err(merged.error), due, todo;
      }
      todo := todo - {k};
    }
    AfterBackendPass(nodes, rels, c, base, due, todo);
    return Ok(()), due, {};
  }

  // ---------------------------------------------------------------- the extension

  /** What is inherited has not changed. */
  ghost predicate SameInherited(a: Due, b: Due) {
    a.Keys == b.Keys && forall k :: k in a ==>
      b[k] == a[k].(gatewayEffective := b[k].gatewayEffective, httpRouteEffective := b[k].httpRouteEffective,
                    backendEffective := b[k].backendEffective)
  }

  /** Every Gateway, HTTPRoute and Backend has its effective policies, and no others. */
  ghost predicate EffectiveExactly(nodes: map<GKNN, Node>, rels: Relations, maxDepth: int, policies: Policies, due: Due)
    reads nodes.Values`outNeighbors, nodes.Values`inNeighbors, nodes.Values`depth
  {
    forall k :: k in due ==> (
      && k in nodes
      && (if k.GK() == GATEWAY_GK then GatewayEffective(nodes[k], rels, maxDepth, policies, due[k].gatewayEffective)
          else due[k].gatewayEffective == map[])
      && (if k.GK() == HTTP_ROUTE_GK then RouteEffective(nodes[k], rels, policies, due, due[k].httpRouteEffective)
          else due[k].httpRouteEffective == map[])
      && (if k.GK() == SERVICE_GK then BackendEffective(nodes, nodes[k], rels, policies, due, due[k].backendEffective)
          else due[k].backendEffective == map[]))
  }

  /** The same as far as the passes have come: objects in `left` have no effective policies. */
  ghost predicate EffectiveExcept(nodes: map<GKNN, Node>, rels: Relations, maxDepth: int, policies: Policies, due: Due,
                                  left: set<GKNN>)
    reads nodes.Values`outNeighbors, nodes.Values`inNeighbors, nodes.Values`depth
  {
    forall k :: k in due ==> (
      && k in nodes
      && (if k.GK() == GATEWAY_GK && k !in left
          then GatewayEffective(nodes[k], rels, maxDepth, policies, due[k].gatewayEffective)
          else due[k].gatewayEffective == map[])
      && (if k.GK() == HTTP_ROUTE_GK && k !in left
          then RouteEffective(nodes[k], rels, policies, due, due[k].httpRouteEffective)
          else due[k].httpRouteEffective == map[])
      && (if k.GK() == SERVICE_GK && k !in left
          then BackendEffective(nodes, nodes[k], rels, policies, due, due[k].backendEffective)
          else due[k].backendEffective == map[]))
  }

  /** No HTTPRoute is done before all Gateways are, and no Backend before all HTTPRoutes are. */
  ghost predicate LeftInOrder(nodes: map<GKNN, Node>, left: set<GKNN>) {
    forall k, next :: k in left && next in nodes && next.GK() in AfterKind(k.GK()) ==> next in left
  }

  function AfterKind(gk: GroupKind): set<GroupKind> {
    if gk == GATEWAY_GK then {HTTP_ROUTE_GK, SERVICE_GK} else if gk == HTTP_ROUTE_GK then {SERVICE_GK} else {}
  }

  lemma NothingEffectiveYet(nodes: map<GKNN, Node>, rels: Relations, policies: Policies)
    ensures NoEffects(GatewaysDue(nodes, rels, policies)) && NoEffects(RoutesDue(nodes, rels, policies))
    ensures NoEffects(BackendsDue(nodes, rels, policies))
  {
    hide InheritedFrom, GatewayAncestors, RouteAncestors, BackendAncestors;
  }

  lemma NothingEffective(nodes: map<GKNN, Node>, rels: Relations, policies: Policies)
    ensures NoEffects(InheritedDue(nodes, rels, policies)) && Covers(nodes, InheritedDue(nodes, rels, policies))
  {
    hide GatewaysDue, RoutesDue, BackendsDue, NoEffects;
    DueKeys(nodes, rels, policies);
    NothingEffectiveYet(nodes, rels, policies);
    UnionNoEffects(GatewaysDue(nodes, rels, policies), RoutesDue(nodes, rels, policies));
    UnionNoEffects(GatewaysDue(nodes, rels, policies) + RoutesDue(nodes, rels, policies),
                   BackendsDue(nodes, rels, policies));
  }

  lemma UnionNoEffects(a: Due, b: Due)
    requires NoEffects(a) && NoEffects(b)
    ensures NoEffects(a + b)
  {
  }

  lemma StartGateways(nodes: map<GKNN, Node>, rels: Relations, maxDepth: int, c: Context)
    requires Ready(nodes, rels, c) && AllRecord(nodes, c.before, InheritedDue(nodes, rels, c.policies))
    ensures var base := InheritedDue(nodes, rels, c.policies);
      NoEffects(base) && GatewayPass(nodes, rels, maxDepth, c, base, base, set k | k in nodes && k.GK() == GATEWAY_GK)
  {
    hide Ready, AllRecord, GatewayEffective, Sound, AllReadable, InheritedDue;
    NothingEffective(nodes, rels, c.policies);
  }

  /** The three passes together. */
  lemma PassesTogether(nodes: map<GKNN, Node>, rels: Relations, maxDepth: int, policies: Policies, gateways: Due,
                       routes: Due, due: Due, leftGateways: set<GKNN>, leftRoutes: set<GKNN>, leftBackends: set<GKNN>)
    requires GatewaysDone(nodes, rels, maxDepth, policies, gateways, leftGateways) && SameButRoutes(gateways, routes)
    requires RoutesDone(nodes, rels, policies, gateways, routes, leftRoutes) && SameButBackends(routes, due)
    requires BackendsDone(nodes, rels, policies, routes, due, leftBackends)
    requires forall k :: k in leftGateways ==> k.GK() == GATEWAY_GK
    requires forall k :: k in leftRoutes ==> k.GK() == HTTP_ROUTE_GK
    requires forall k :: k in leftBackends ==> k.GK() == SERVICE_GK
    ensures EffectiveExcept(nodes, rels, maxDepth, policies, due, leftGateways + leftRoutes + leftBackends)
  {
    hide GatewayEffective, RouteEffective, BackendEffective, Sound, AllSound, AllReadable;
    forall k | k in due && k.GK() == HTTP_ROUTE_GK && k !in leftRoutes
      ensures RouteEffective(nodes[k], rels, policies, due, due[k].httpRouteEffective)
    {
      RouteEffectiveSame(nodes[k], rels, policies, gateways, due, due[k].httpRouteEffective);
    }
    forall k | k in due && k.GK() == SERVICE_GK && k !in leftBackends
      ensures BackendEffective(nodes, nodes[k], rels, policies, due, due[k].backendEffective)
    {
      BackendEffectiveSame(nodes, nodes[k], rels, policies, routes, due, due[k].backendEffective);
    }
  }

  lemma NothingLeft(nodes: map<GKNN, Node>, rels: Relations, maxDepth: int, policies: Policies, due: Due)
    requires EffectiveExcept(nodes, rels, maxDepth, policies, due, {})
    ensures EffectiveExactly(nodes, rels, maxDepth, policies, due)
  {
    hide GatewayEffective, RouteEffective, BackendEffective;
  }

  ghost function OfGK(nodes: map<GKNN, Node>, gk: GroupKind): set<GKNN> {
    set k | k in nodes && k.GK() == gk
  }

  lemma KindsInOrder()
    ensures GATEWAY_GK != HTTP_ROUTE_GK && HTTP_ROUTE_GK != SERVICE_GK && GATEWAY_GK != SERVICE_GK
  {
    assert GATEWAY_GK.kind[0] == 'G' && HTTP_ROUTE_GK.kind[0] == 'H' && SERVICE_GK.kind[0] == 'S';
  }

  /** The first pass has not been finished. */
  lemma StoppedAtGateways(nodes: map<GKNN, Node>, rels: Relations, maxDepth: int, policies: Policies, inherited: Due,
                          due: Due, leftGateways: set<GKNN>)
    requires NoEffects(inherited) && SameButGateways(inherited, due)
    requires GatewaysDone(nodes, rels, maxDepth, policies, due, leftGateways) && forall k :: k in leftGateways ==>
      k.GK() == GATEWAY_GK
    ensures var left := leftGateways + OfGK(nodes, HTTP_ROUTE_GK) + OfGK(nodes, SERVICE_GK);
      EffectiveExcept(nodes, rels, maxDepth, policies, due, left) && LeftInOrder(nodes, left)
  {
    hide GatewayEffective, RouteEffective, BackendEffective, Sound, AllSound, AllReadable;
    KindsInOrder();
    assert RoutesDone(nodes, rels, policies, due, due, OfGK(nodes, HTTP_ROUTE_GK));
    assert BackendsDone(nodes, rels, policies, due, due, OfGK(nodes, SERVICE_GK));
    PassesTogether(nodes, rels, maxDepth, policies, due, due, due, leftGateways, OfGK(nodes, HTTP_ROUTE_GK),
                   OfGK(nodes, SERVICE_GK));
  }

  /** The second pass has not been finished. */
  lemma StoppedAtRoutes(nodes: map<GKNN, Node>, rels: Relations, maxDepth: int, policies: Policies, gateways: Due,
                        due: Due, leftRoutes: set<GKNN>)
    requires GatewaysDone(nodes, rels, maxDepth, policies, gateways, {}) && SameButRoutes(gateways, due)
    requires forall k :: k in gateways ==> gateways[k].backendEffective == map[]
    requires RoutesDone(nodes, rels, policies, gateways, due, leftRoutes) && forall k :: k in leftRoutes ==>
      k.GK() == HTTP_ROUTE_GK
    ensures var left := leftRoutes + OfGK(nodes, SERVICE_GK);
      EffectiveExcept(nodes, rels, maxDepth, policies, due, left) && LeftInOrder(nodes, left)
  {
    hide GatewayEffective, RouteEffective, BackendEffective, Sound, AllSound, AllReadable;
    KindsInOrder();
    assert BackendsDone(nodes, rels, policies, due, due, OfGK(nodes, SERVICE_GK));
    PassesTogether(nodes, rels, maxDepth, policies, gateways, due, due, {}, leftRoutes, OfGK(nodes, SERVICE_GK));
    assert {} + leftRoutes + OfGK(nodes, SERVICE_GK) == leftRoutes + OfGK(nodes, SERVICE_GK);
  }

  /** The last pass may not have been finished. */
  lemma StoppedAtBackends(nodes: map<GKNN, Node>, rels: Relations, maxDepth: int, policies: Policies, gateways: Due,
                          routes: Due, due: Due, left: set<GKNN>)
    requires GatewaysDone(nodes, rels, maxDepth, policies, gateways, {}) && SameButRoutes(gateways, routes)
    requires RoutesDone(nodes, rels, policies, gateways, routes, {}) && SameButBackends(routes, due)
    requires BackendsDone(nodes, rels, policies, routes, due, left) && forall k :: k in left ==> k.GK() == SERVICE_GK
    ensures EffectiveExcept(nodes, rels, maxDepth, policies, due, left) && LeftInOrder(nodes, left)
  {
    hide GatewaysDone, RoutesDone, BackendsDone, EffectiveExcept, SameButRoutes, SameButBackends;
    KindsInOrder();
    PassesTogether(nodes, rels, maxDepth, policies, gateways, routes, due, {}, {}, left);
    assert {} + {} + left == left;
  }

  /** The second and the third pass. */
  method CalculateBelowGateways(nodes: map<GKNN, Node>, maxDepth: int, rels: Relations, ghost c: Context,
                                ghost gateways: Due)
    returns (r: Result<(), Failure>, ghost due: Due, ghost left: set<GKNN>)
    requires RoutePass(nodes, rels, c, gateways, gateways, set k | k in nodes && k.GK() == HTTP_ROUTE_GK)
    requires GatewaysDone(nodes, rels, maxDepth, c.policies, gateways, {})
    requires forall k :: k in gateways ==> gateways[k].backendEffective == map[]
    modifies nodes.Values`metadata
    ensures Ready(nodes, rels, c) && AllRecord(nodes, c.before, due)
    ensures EffectsBelow(gateways, due)
    ensures EffectiveExcept(nodes, rels, maxDepth, c.policies, due, left) && LeftInOrder(nodes, left)
    ensures r.Ok? ==> left == {}
    ensures r.Err? ==> r.error.BadPolicies? && !AllReadable(c.policies)
  {
    hide *;
    r, due, left := CalculateEffectivePoliciesForHTTPRoutes(nodes, rels, c, gateways);
    ghost var routes := due;
    RoutesAdded(gateways, routes);
    if r.Err? {
      StoppedAtRoutes(nodes, rels, maxDepth, c.policies, gateways, routes, left);
      left := left + OfGK(nodes, SERVICE_GK);
      return;
    }
    r, due, left := CalculateEffectivePoliciesForBackends(nodes, rels, c, routes);
    BackendsAdded(gateways, routes, due);
    StoppedAtBackends(nodes, rels, maxDepth, c.policies, gateways, routes, due, left);
  }

  /** Nothing but what is effective at HTTPRoutes and Backends has changed. */
  ghost predicate EffectsBelow(a: Due, b: Due) {
    a.Keys == b.Keys && forall k :: k in a ==>
      b[k] == a[k].(httpRouteEffective := b[k].httpRouteEffective, backendEffective := b[k].backendEffective)
  }

  lemma RoutesAdded(gateways: Due, routes: Due)
    requires SameButRoutes(gateways, routes)
    ensures EffectsBelow(gateways, routes)
  {
  }

  lemma BackendsAdded(gateways: Due, routes: Due, due: Due)
    requires SameButRoutes(gateways, routes) && SameButBackends(routes, due)
    ensures EffectsBelow(gateways, due)
  {
  }

  lemma EffectsAdded(inherited: Due, gateways: Due, due: Due)
    requires SameButGateways(inherited, gateways)
    ensures SameInherited(inherited, gateways)
    ensures NoEffects(inherited) ==> forall k :: k in gateways ==> gateways[k].backendEffective == map[]
    ensures EffectsBelow(gateways, due) ==> SameInherited(inherited, due)
  {
  }

  method CalculateEffectivePolicies(nodes: map<GKNN, Node>, maxDepth: int, rels: Relations, ghost c: Context)
    returns (r: Result<(), Failure>, ghost due: Due, ghost left: set<GKNN>)
    requires Ready(nodes, rels, c) && AllRecord(nodes, c.before, InheritedDue(nodes, rels, c.policies))
    modifies nodes.Values`metadata
    ensures Ready(nodes, rels, c) && AllRecord(nodes, c.before, due)
    ensures SameInherited(InheritedDue(nodes, rels, c.policies), due)
    ensures EffectiveExcept(nodes, rels, maxDepth, c.policies, due, left) && LeftInOrder(nodes, left)
    ensures r.Ok? ==> left == {}
    ensures r.Err? ==> r.error.BadPolicies? && !AllReadable(c.policies)
  {
    hide *;
    ghost var inherited := InheritedDue(nodes, rels, c.policies);
    StartGateways(nodes, rels, maxDepth, c);
    r, due, left := CalculateEffectivePoliciesForGateways(nodes, maxDepth, rels, c, inherited);
    ghost var gateways := due;
    EffectsAdded(inherited, gateways, gateways);
    if r.Err? {
      StoppedAtGateways(nodes, rels, maxDepth, c.policies, inherited, gateways, left);
      left := left + OfGK(nodes, HTTP_ROUTE_GK) + OfGK(nodes, SERVICE_GK);
      return;
    }
    r, due, left := CalculateBelowGateways(nodes, maxDepth, rels, c, gateways);
    EffectsAdded(inherited, gateways, due);
  }

  function AsFailure(r: Result<Policies, string>): Result<(), Failure> {
    match r
    case Ok(_) => Ok(())
    case Err(e) => Err(OtherError(e))
  }

  /** Main result: on any graph straight out of `Build` whose nodes know their attached policies, nothing is
      read that is not there; every Gateway, HTTPRoute and Backend ends up with exactly what it inherits; and
      unless two policies do not merge, which takes one whose spec is no object, with what is effective. If
      they do not merge, the objects left, in the order of the passes, have no effective policies. */
  method Execute(graph: Graph, rels: Relations, ghost removed: map<GKNN, Node>, ghost policies: Policies)
    returns (r: Result<(), Failure>, ghost due: Due, ghost left: set<GKNN>)
    requires Ready(graph.nodes, rels, Context(removed, AllMetadata(graph.nodes), policies))
    modifies graph.nodes.Values`metadata
    ensures AllRecord(graph.nodes, old(AllMetadata(graph.nodes)), due)
    ensures SameInherited(InheritedDue(graph.nodes, rels, policies), due)
    ensures EffectiveExcept(graph.nodes, rels, graph.maxDepth, policies, due, left) && LeftInOrder(graph.nodes, left)
    ensures match r
      case Ok(_) => EffectiveExactly(graph.nodes, rels, graph.maxDepth, policies, due)
      case Err(e) => e.BadPolicies? && !AllReadable(policies)
  {
    hide Ready, AllRecord, SameInherited, EffectiveExactly, EffectiveExcept, LeftInOrder, AllReadable, InheritedDue,
      Without;
    ghost var c := Context(removed, AllMetadata(graph.nodes), policies);
    ReadyFacts(graph.nodes, rels, c);
    graph.RemoveMetadata(INHERITED_POLICY);
    NothingRecorded(graph.nodes, rels, c);
    var inherited := CalculateInheritedPolicies(graph.nodes, rels, c);
    r := AsFailure(inherited);
    due, left := map[], {};
    if r.Err? { return; }
    r, due, left := CalculateEffectivePolicies(graph.nodes, graph.maxDepth, rels, c);
    if r.Ok? { NothingLeft(graph.nodes, rels, graph.maxDepth, policies, due); }
  }

  lemma NothingRecorded(nodes: map<GKNN, Node>, rels: Relations, c: Context)
    requires Ready(nodes, rels, c)
    requires forall k :: k in nodes ==> nodes[k].metadata == Without(c.before[k], INHERITED_POLICY)
    ensures AllRecord(nodes, c.before, map[])
  {
    hide Shaped, Relations.Valid, KeyedById, RecordsDirect;
  }
}

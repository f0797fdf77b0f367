/** Which cross-namespace references are not permitted (pkg/extension/refgrantvalidator/refgrantvalidator.go). */
module RefGrantValidator {
  import opened Common
  import opened Metadata
  import opened Topology

  const EXTENSION := REFERENCE_GRANTS_FOR_BACKEND

  type GrantFetcher = string -> Result<seq<ReferenceGrant>, string>

  // ---------------------------------------------------------------- grants

  /** An entry of "to" names the resource, or all resources of its kind. */
  predicate ToMatches(to: GrantTo, resource: GKNN) {
    && to.group == resource.group && to.kind == resource.kind
    && (to.name == None || to.name == Some("") || to.name == Some(resource.name))
  }

  ghost predicate Exposes(grant: ReferenceGrant, resource: GKNN) {
    grant.namespace == resource.namespace && exists i :: 0 <= i < |grant.to| && ToMatches(grant.to[i], resource)
  }

  /** The same, field by field: a name that is missing or empty stands for all. */
  ghost predicate ExposesByField(grant: ReferenceGrant, resource: GKNN) {
    grant.namespace == resource.namespace && exists i :: (
      && 0 <= i < |grant.to| && grant.to[i].group == resource.group && grant.to[i].kind == resource.kind
      && match grant.to[i].name case None => true case Some(name) => name == "" || name == resource.name)
  }

  ghost predicate AcceptsByField(grant: ReferenceGrant, resource: GKNN) {
    exists i :: (
      && 0 <= i < |grant.from| && grant.from[i].group == resource.group && grant.from[i].kind == resource.kind
      && grant.from[i].namespace == resource.namespace)
  }

  method ReferenceGrantExposes(grant: ReferenceGrant, resource: GKNN) returns (exposes: bool)
    ensures exposes <==> Exposes(grant, resource)
    ensures exposes <==> ExposesByField(grant, resource)
  {
    if grant.namespace != resource.namespace {
      return false;
    }
    for i := 0 to |grant.to|
      invariant forall j :: 0 <= j < i ==> !ToMatches(grant.to[j], resource)
    {
      var to := grant.to[i];
      if to.group != resource.group {
        continue;
      }
      if to.kind != resource.kind {
        continue;
      }
      if to.name == None || |to.name.value| == 0 || to.name.value == resource.name {
        return true;
      }
    }
    return false;
  }

  /** References from the kind and namespace of the resource are accepted. */
  ghost predicate Accepts(grant: ReferenceGrant, resource: GKNN) {
    GrantFrom(resource.group, resource.kind, resource.namespace) in grant.from
  }

  method ReferenceGrantAccepts(grant: ReferenceGrant, resource0: GKNN) returns (accepts: bool)
    ensures accepts <==> Accepts(grant, resource0)
    ensures accepts <==> AcceptsByField(grant, resource0)
  {
    var resource := resource0.(name := "");
    for i := 0 to |grant.from|
      invariant GrantFrom(resource.group, resource.kind, resource.namespace) !in grant.from[..i]
    {
      var from := grant.from[i];
      var fromRef := GKNN(from.group, from.kind, from.namespace, "");
      if fromRef == resource {
        return true;
      }
    }
    return false;
  }

  function GrantId(grant: ReferenceGrant): GKNN {
    GKNN(REFERENCE_GRANT_GK.group, REFERENCE_GRANT_GK.kind, grant.namespace, grant.name)
  }

  /** The grants that expose a backend, by identity; of two with the same identity the later one. */
  ghost function Exposing(grants: seq<ReferenceGrant>, backend: GKNN): map<GKNN, ReferenceGrant> {
    if grants == [] then map[]
    else
      var last := grants[|grants| - 1];
      var before := Exposing(grants[..|grants| - 1], backend);
      if Exposes(last, backend) then before[GrantId(last) := last] else before
  }

  /** No two grants have the same identity. */
  ghost predicate UniquelyNamed(grants: seq<ReferenceGrant>) {
    forall i, j :: 0 <= i < j < |grants| ==> GrantId(grants[i]) != GrantId(grants[j])
  }

  /** The grant at `i` exposes the backend, and no later one of the same identity does. */
  ghost predicate Counts(grants: seq<ReferenceGrant>, backend: GKNN, i: nat)
    requires i < |grants|
  {
    && Exposes(grants[i], backend)
    && forall j :: i < j < |grants| && Exposes(grants[j], backend) ==> GrantId(grants[j]) != GrantId(grants[i])
  }

  /** Which grants are recorded for a backend. */
  lemma {:induction false} ExposingExactly(grants: seq<ReferenceGrant>, backend: GKNN, k: GKNN)
    ensures k in Exposing(grants, backend) ==>
      exists i: nat :: i < |grants| && Counts(grants, backend, i) && GrantId(grants[i]) == k
        && Exposing(grants, backend)[k] == grants[i]
    ensures k !in Exposing(grants, backend) ==>
      forall i :: 0 <= i < |grants| && Exposes(grants[i], backend) ==> GrantId(grants[i]) != k
  {
    if grants != [] {
      var init, last := grants[..|grants| - 1], grants[|grants| - 1];
      ExposingExactly(init, backend, k);
      if k in Exposing(grants, backend) {
        if Exposes(last, backend) && GrantId(last) == k {
          assert Counts(grants, backend, |grants| - 1);
        } else {
          var i: nat :| i < |init| && Counts(init, backend, i) && GrantId(init[i]) == k
            && Exposing(init, backend)[k] == init[i];
          assert Counts(grants, backend, i);
        }
      } else {
        assert forall i :: 0 <= i < |init| ==> init[i] == grants[i];
      }
    }
  }

  // ---------------------------------------------------------------- node metadata

  function Access(node: Node): Result<Option<(map<GKNN, ReferenceGrant>, seq<RefError>)>, string>
    reads node`metadata
  {
    match Entry(node.metadata, EXTENSION)
    case None => Ok(None)
    case Some(Grants(grants, errors)) => Ok(Some((grants, errors)))
    case Some(_) => Err("unable to perform type assertion")
  }

  /** The node records exactly these grants and errors, each once, and has no entry if there are none. */
  ghost predicate Records(before: NodeMetadata, after: NodeMetadata, grants: map<GKNN, ReferenceGrant>,
                          errors: set<RefError>) {
    && OnlyChanges(before, after, EXTENSION)
    && match Entry(after, EXTENSION)
       case None => grants == map[] && errors == {}
       case Some(Grants(g, recorded)) => g == grants && Distinct(recorded) && errors == (set e | e in recorded)
       case Some(_) => false
  }

  method PutReferenceGrantInNode(node: Node, grant: ReferenceGrant, ghost before: NodeMetadata,
                                 ghost grants: map<GKNN, ReferenceGrant>, ghost errors: set<RefError>)
    returns (r: Result<(), string>)
    modifies node`metadata
    ensures r.Err? <==> old(Access(node)).Err?
    ensures Records(before, old(node.metadata), grants, errors) ==>
      r.Ok? && Records(before, node.metadata, grants[GrantId(grant) := grant], errors)
  {
    if node.metadata == None {
      node.metadata := Some(map[]);
    }
    var data := Access(node);
    if data.Err? {
      return Err(data.error);
    }
    var (known, recorded) := if data.value.None? then (map[], []) else data.value.value;
    node.metadata := With(node.metadata, EXTENSION, Grants(known[GrantId(grant) := grant], recorded));
    return Ok(());
  }

  method PutReferenceGrantErrorInNode(node: Node, refGrantErr: RefError, ghost before: NodeMetadata,
                                      ghost grants: map<GKNN, ReferenceGrant>, ghost errors: set<RefError>)
    returns (r: Result<(), string>)
    modifies node`metadata
    ensures r.Err? <==> old(Access(node)).Err?
    ensures Records(before, old(node.metadata), grants, errors) && refGrantErr !in errors ==>
      r.Ok? && Records(before, node.metadata, grants, errors + {refGrantErr})
  {
    if node.metadata == None {
      node.metadata := Some(map[]);
    }
    var data := Access(node);
    if data.Err? {
      return Err(data.error);
    }
    var (known, recorded) := if data.value.None? then (map[], []) else data.value.value;
    node.metadata := With(node.metadata, EXTENSION, Grants(known, recorded + [refGrantErr]));
    return Ok(());
  }

  // ---------------------------------------------------------------- the two passes

  /** The grants that the first pass finds for a backend. */
  ghost function GrantsFor(fetch: GrantFetcher, backend: GKNN): map<GKNN, ReferenceGrant> {
    match fetch(backend.namespace)
    case Err(_) => map[]
    case Ok(grants) => Exposing(grants, backend)
  }

  /** A backend records the grants that expose it; other nodes record none. */
  ghost function DueGrants(fetch: GrantFetcher, k: GKNN): map<GKNN, ReferenceGrant> {
    if k.GK() == SERVICE_GK then GrantsFor(fetch, k) else map[]
  }

  /** The inner loop of discoverReferenceGrantsForBackends. */
  method DiscoverForBackend(backendNode: Node, referenceGrants: seq<ReferenceGrant>, ghost before: NodeMetadata)
    returns (r: Result<(), string>)
    requires Records(before, backendNode.metadata, map[], {})
    modifies backendNode`metadata
    ensures r.Ok? && Records(before, backendNode.metadata, Exposing(referenceGrants, backendNode.Id()), {})
  {
    hide Records;
    for i := 0 to |referenceGrants|
      invariant Records(before, backendNode.metadata, Exposing(referenceGrants[..i], backendNode.Id()), {})
    {
      var grant := referenceGrants[i];
      ghost var known := Exposing(referenceGrants[..i], backendNode.Id());
      assert referenceGrants[..i + 1][..i] == referenceGrants[..i];
      var exposes := ReferenceGrantExposes(grant, backendNode.Id());
      if exposes {
        r := PutReferenceGrantInNode(backendNode, grant, before, known, {});
        if r.Err? { return; }
      }
    }
    assert referenceGrants[..|referenceGrants|] == referenceGrants;
    return Ok(());
  }

  /** A reference to a backend in another namespace needs one of the grants recorded for it. */
  ghost predicate Permitted(fetch: GrantFetcher, route: GKNN, backend: GKNN) {
    route.namespace == backend.namespace
    || exists g :: g in DueGrants(fetch, backend) && Accepts(DueGrants(fetch, backend)[g], route)
  }

  /** The errors due at a route for some of the backends it refers to. */
  ghost function NotPermitted(fetch: GrantFetcher, route: GKNN, backends: set<GKNN>): set<RefError> {
    set b | b in backends && !Permitted(fetch, route, b) :: ReferenceNotPermitted(route, b)
  }

  /** The backends of a route, as Backends() of the HTTPRoute node finds them. */
  function Backends(route: Node, backendRef: Relation): set<GKNN>
    reads route`outNeighbors
  {
    set p | p in route.outNeighbors && p.0 == backendRef :: p.1
  }

  /** The grants recorded at a node. */
  function Recorded(node: Node): map<GKNN, ReferenceGrant>
    reads node`metadata
  {
    match Entry(node.metadata, EXTENSION)
    case Some(Grants(grants, _)) => grants
    case _ => map[]
  }

  /** Whether one of the grants recorded at the backend accepts the route. */
  method SomeGrantAccepts(backendNode: Node, route: GKNN) returns (accepted: bool)
    requires Access(backendNode).Ok?
    ensures accepted <==> exists g :: g in Recorded(backendNode) && Accepts(Recorded(backendNode)[g], route)
  {
    var data := Access(backendNode).value;
    if data.None? {
      return false;
    }
    var grants := data.value.0;
    assert grants == Recorded(backendNode);
    var todo := grants.Keys;
    while todo != {}
      invariant todo <= grants.Keys
      invariant forall g :: g in grants && g !in todo ==> !Accepts(grants[g], route)
    {
      var g :| g in todo;
      todo := todo - {g};
      var accepts := ReferenceGrantAccepts(grants[g], route);
      if accepts {
        return true;
      }
    }
    return false;
  }

  /** The state of the first pass: the backends in `todo` record nothing yet. */
  ghost predicate Discovered(nodes: map<GKNN, Node>, before: map<GKNN, NodeMetadata>, fetch: GrantFetcher,
                             todo: set<GKNN>)
    requires nodes.Keys == before.Keys
    reads nodes.Values`metadata
  {
    forall k :: k in nodes ==>
      Records(before[k], nodes[k].metadata, if k in todo then map[] else DueGrants(fetch, k), {})
  }

  /** The state of the second pass: all grants, and the errors found so far. */
  ghost predicate Reported(nodes: map<GKNN, Node>, before: map<GKNN, NodeMetadata>, fetch: GrantFetcher,
                           errors: map<GKNN, set<RefError>>)
    requires nodes.Keys == before.Keys == errors.Keys
    reads nodes.Values`metadata
  {
    forall k :: k in nodes ==> Records(before[k], nodes[k].metadata, DueGrants(fetch, k), errors[k])
  }

  // ---------------------------------------------------------------- first pass

  /** The cache holds what the fetcher returns. */
  ghost predicate Cached(fetch: GrantFetcher, cache: map<string, seq<ReferenceGrant>>) {
    forall ns :: ns in cache ==> fetch(ns) == Ok(cache[ns])
  }

  /** For one of the backends the grants could not be fetched. */
  ghost predicate FetchFailed(fetch: GrantFetcher, backends: set<GKNN>, error: string) {
    exists k :: k in backends && k.GK() == SERVICE_GK && fetch(k.namespace) == Err(error)
  }

  method DiscoverReferenceGrantsForBackends(graph: Graph, fetch: GrantFetcher, ghost before: map<GKNN, NodeMetadata>)
    returns (r: Result<(), string>, ghost left: set<GKNN>)
    requires Keyed(graph.nodes) && graph.nodes.Keys == before.Keys
    requires forall k :: k in graph.nodes ==> Records(before[k], graph.nodes[k].metadata, map[], {})
    modifies graph.nodes.Values`metadata
    ensures r.Ok? <==> forall k :: k in graph.nodes && k.GK() == SERVICE_GK ==> fetch(k.namespace).Ok?
    ensures Discovered(graph.nodes, before, fetch, left) && (r.Ok? ==> left == {})
    ensures r.Err? ==> FetchFailed(fetch, left, r.error)
  {
    hide Discovered, Keyed, Records;
    ghost var nodes := graph.nodes;
    var cache: map<string, seq<ReferenceGrant>> := map[];
    var todo := set k | k in graph.nodes && k.GK() == SERVICE_GK;
    NothingDiscovered(nodes, before, fetch, todo);
    while todo != {}
      invariant todo <= nodes.Keys && Cached(fetch, cache)
      invariant forall k :: k in todo ==> k.GK() == SERVICE_GK
      invariant forall k :: k in nodes && k.GK() == SERVICE_GK && k !in todo ==> fetch(k.namespace).Ok?
      invariant Discovered(nodes, before, fetch, todo)
    {
      var k :| k in todo;
      if k.namespace !in cache {
        var fetched := fetch(k.namespace);
        if fetched.Err? {
          return Err(fetched.error), todo;
        }
        cache := cache[k.namespace := fetched.value];
      }
      r := DiscoverOne(graph.nodes, k, cache[k.namespace], before, fetch, todo);
      todo := todo - {k};
    }
    return Ok(()), {};
  }

  lemma NothingDiscovered(nodes: map<GKNN, Node>, before: map<GKNN, NodeMetadata>, fetch: GrantFetcher, todo: set<GKNN>)
    requires nodes.Keys == before.Keys && todo == set k | k in nodes && k.GK() == SERVICE_GK
    requires forall k :: k in nodes ==> Records(before[k], nodes[k].metadata, map[], {})
    ensures Discovered(nodes, before, fetch, todo)
  {
    hide Records;
  }

  method DiscoverOne(nodes: map<GKNN, Node>, k: GKNN, found: seq<ReferenceGrant>, ghost before: map<GKNN, NodeMetadata>,
                     ghost fetch: GrantFetcher, ghost todo: set<GKNN>)
    returns (r: Result<(), string>)
    requires Keyed(nodes) && k in nodes && nodes.Keys == before.Keys && k in todo && k.GK() == SERVICE_GK
    requires fetch(k.namespace) == Ok(found) && Discovered(nodes, before, fetch, todo)
    modifies nodes.Values`metadata
    ensures r.Ok? && Discovered(nodes, before, fetch, todo - {k})
  {
    hide Records, Exposing;
    r := DiscoverForBackend(nodes[k], found, before[k]);
  }

  // ---------------------------------------------------------------- second pass

  lemma RecordedGrants(nodes: map<GKNN, Node>, before: map<GKNN, NodeMetadata>, fetch: GrantFetcher,
                       errors: map<GKNN, set<RefError>>, k: GKNN)
    requires nodes.Keys == before.Keys == errors.Keys && Reported(nodes, before, fetch, errors) && k in nodes
    ensures Access(nodes[k]).Ok? && Recorded(nodes[k]) == DueGrants(fetch, k)
  {
  }

  lemma NotPermittedMore(fetch: GrantFetcher, route: GKNN, backends: set<GKNN>, b: GKNN)
    ensures Permitted(fetch, route, b) ==>
      NotPermitted(fetch, route, backends + {b}) == NotPermitted(fetch, route, backends)
    ensures !Permitted(fetch, route, b) ==>
      (NotPermitted(fetch, route, backends + {b}) ==
       NotPermitted(fetch, route, backends) + {ReferenceNotPermitted(route, b)})
    ensures b !in backends ==> ReferenceNotPermitted(route, b) !in NotPermitted(fetch, route, backends)
  {
    hide Permitted;
  }

  /** A reference to another namespace has to be accepted by a recorded grant. */
  method CheckBackend(nodes: map<GKNN, Node>, route: GKNN, backend: GKNN, ghost fetch: GrantFetcher,
                      ghost before: map<GKNN, NodeMetadata>, ghost errors: map<GKNN, set<RefError>>)
    returns (r: Result<(), string>)
    requires Keyed(nodes) && route in nodes && backend in nodes && nodes.Keys == before.Keys == errors.Keys
    requires Reported(nodes, before, fetch, errors) && ReferenceNotPermitted(route, backend) !in errors[route]
    modifies nodes.Values`metadata
    ensures r.Ok?
    ensures Permitted(fetch, route, backend) ==> Reported(nodes, before, fetch, errors)
    ensures !Permitted(fetch, route, backend) ==>
      Reported(nodes, before, fetch, errors[route := errors[route] + {ReferenceNotPermitted(route, backend)}])
  {
    RecordedGrants(nodes, before, fetch, errors, backend);
    hide Records, Accepts, DueGrants;
    if route.namespace != backend.namespace {
      var referenceAccepted := SomeGrantAccepts(nodes[backend], route);
      if !referenceAccepted {
        var err := ReferenceNotPermitted(route, backend);
        r := PutReferenceGrantErrorInNode(nodes[route], err, before[route], DueGrants(fetch, route), errors[route]);
        return;
      }
    }
    return Ok(());
  }

  /** The inner loop of validateHTTPRoutes, for one route. */
  method ValidateHTTPRoute(nodes: map<GKNN, Node>, route: GKNN, backendRef: Relation, ghost fetch: GrantFetcher,
                           ghost before: map<GKNN, NodeMetadata>, ghost errors: map<GKNN, set<RefError>>)
    returns (r: Result<(), string>)
    requires Keyed(nodes) && OutClosed(nodes) && route in nodes && nodes.Keys == before.Keys == errors.Keys
    requires Reported(nodes, before, fetch, errors) && errors[route] == {}
    modifies nodes.Values`metadata
    ensures r.Ok?
    ensures Reported(nodes, before, fetch,
                     errors[route := NotPermitted(fetch, route, Backends(nodes[route], backendRef))])
  {
    hide Reported, Keyed, NotPermitted, Permitted;
    var routeNode := nodes[route];
    var todo := Backends(routeNode, backendRef);
    ghost var done: set<GKNN>, found: set<RefError> := {}, {};
    NotPermittedNone(fetch, route);
    assert errors[route := found] == errors;
    while todo != {}
      invariant todo + done == Backends(routeNode, backendRef) && todo !! done
      invariant found == NotPermitted(fetch, route, done)
      invariant Reported(nodes, before, fetch, errors[route := found])
    {
      var backend :| backend in todo;
      assert (backendRef, backend) in routeNode.outNeighbors
        && routeNode.outNeighbors[(backendRef, backend)] == nodes[backend];
      NotPermittedMore(fetch, route, done, backend);
      r := CheckBackend(nodes, route, backend, fetch, before, errors[route := found]);
      if r.Err? { return; }
      todo, done := todo - {backend}, done + {backend};
      assert errors[route := found][route := found + {ReferenceNotPermitted(route, backend)}]
        == errors[route := found + {ReferenceNotPermitted(route, backend)}];
      found := NotPermitted(fetch, route, done);
    }
    assert done == Backends(routeNode, backendRef);
    return Ok(());
  }

  lemma NotPermittedNone(fetch: GrantFetcher, route: GKNN)
    ensures NotPermitted(fetch, route, {}) == {}
  {
  }

  /** The errors due when the routes in `todo` have not been validated. */
  ghost function DueErrors(nodes: map<GKNN, Node>, maxDepth: int, fetch: GrantFetcher, backendRef: Relation,
                           todo: set<GKNN>)
    : map<GKNN, set<RefError>>
    reads nodes.Values`depth, nodes.Values`outNeighbors
  {
    map k | k in nodes ::
      if k !in todo && k.GK() == HTTP_ROUTE_GK && nodes[k].depth <= maxDepth
      then NotPermitted(fetch, k, Backends(nodes[k], backendRef)) else {}
  }

  lemma DueErrorsNext(nodes: map<GKNN, Node>, maxDepth: int, fetch: GrantFetcher, backendRef: Relation, todo: set<GKNN>,
                      route: GKNN)
    requires route in todo && route in nodes && route.GK() == HTTP_ROUTE_GK
    ensures var now := DueErrors(nodes, maxDepth, fetch, backendRef, todo);
      var next := DueErrors(nodes, maxDepth, fetch, backendRef, todo - {route});
      && now.Keys == next.Keys == nodes.Keys && now[route] == {}
      && (nodes[route].depth > maxDepth ==> next == now)
      && (nodes[route].depth <= maxDepth ==>
          next == now[route := NotPermitted(fetch, route, Backends(nodes[route], backendRef))])
  {
    hide NotPermitted;
  }

  method ValidateHTTPRoutes(graph: Graph, backendRef: Relation, ghost fetch: GrantFetcher,
                            ghost before: map<GKNN, NodeMetadata>)
    returns (r: Result<(), string>)
    requires Keyed(graph.nodes) && OutClosed(graph.nodes) && graph.nodes.Keys == before.Keys
    requires Discovered(graph.nodes, before, fetch, {})
    modifies graph.nodes.Values`metadata
    ensures r.Ok?
    ensures Reported(graph.nodes, before, fetch, DueErrors(graph.nodes, graph.maxDepth, fetch, backendRef, {}))
  {
    hide Reported, Keyed, NotPermitted, Discovered, DueErrors, OutClosed;
    ghost var nodes := graph.nodes;
    var todo := set k | k in graph.nodes && k.GK() == HTTP_ROUTE_GK;
    NoErrorsYet(nodes, graph.maxDepth, before, fetch, backendRef, todo);
    while todo != {}
      invariant todo <= nodes.Keys && forall k :: k in todo ==> k.GK() == HTTP_ROUTE_GK
      invariant DueErrors(nodes, graph.maxDepth, fetch, backendRef, todo).Keys == nodes.Keys
      invariant Reported(nodes, before, fetch, DueErrors(nodes, graph.maxDepth, fetch, backendRef, todo))
    {
      var route :| route in todo;
      DueErrorsNext(nodes, graph.maxDepth, fetch, backendRef, todo, route);
      if graph.nodes[route].depth <= graph.maxDepth {
        r := ValidateHTTPRoute(graph.nodes, route, backendRef, fetch, before,
                               DueErrors(nodes, graph.maxDepth, fetch, backendRef, todo));
        if r.Err? { return; }
      }
      todo := todo - {route};
    }
    return Ok(());
  }

  lemma NoErrorsYet(nodes: map<GKNN, Node>, maxDepth: int, before: map<GKNN, NodeMetadata>, fetch: GrantFetcher,
                    backendRef: Relation, todo: set<GKNN>)
    requires nodes.Keys == before.Keys && Discovered(nodes, before, fetch, {})
    requires todo == set k | k in nodes && k.GK() == HTTP_ROUTE_GK
    ensures DueErrors(nodes, maxDepth, fetch, backendRef, todo).Keys == nodes.Keys
    ensures Reported(nodes, before, fetch, DueErrors(nodes, maxDepth, fetch, backendRef, todo))
  {
    hide Records, DueGrants, NotPermitted;
  }

  /** Main result: every route up to `maxDepth` ends up with exactly one error for every backend in another
      namespace for which no recorded grant accepts it; and every backend with the grants that expose it,
      as if they had been fetched for it alone. If grants cannot be fetched, no route has been validated, and
      some backends have their grants and others, one of them in the namespace that failed, none. */
  method Execute(graph: Graph, fetch: GrantFetcher, backendRef: Relation)
    returns (r: Result<(), string>, ghost left: set<GKNN>)
    requires Keyed(graph.nodes) && OutClosed(graph.nodes)
    modifies graph.nodes.Values`metadata
    ensures r.Ok? <==> forall k :: k in graph.nodes && k.GK() == SERVICE_GK ==> fetch(k.namespace).Ok?
    ensures r.Ok? ==> Reported(graph.nodes, old(AllMetadata(graph.nodes)), fetch,
      DueErrors(graph.nodes, graph.maxDepth, fetch, backendRef, {}))
    ensures r.Err? ==>
      Discovered(graph.nodes, old(AllMetadata(graph.nodes)), fetch, left) && FetchFailed(fetch, left, r.error)
  {
    ghost var before := AllMetadata(graph.nodes);
    graph.RemoveMetadata(EXTENSION);
    hide Keyed, OutClosed, Discovered, Reported, DueErrors, Distinct, FetchFailed;
    r, left := DiscoverReferenceGrantsForBackends(graph, fetch, before);
    if r.Err? { return; }
    r := ValidateHTTPRoutes(graph, backendRef, fetch, before);
  }

  /** The grants of a namespace; none if they cannot be fetched. */
  function GrantsIn(fetch: GrantFetcher, namespace: string): seq<ReferenceGrant> {
    match fetch(namespace)
    case Err(_) => []
    case Ok(grants) => grants
  }

  /** Main result on permission: an object in another namespace may be referred to exactly if it is a Service,
      a grant in its namespace both exposes it and accepts the route, and no later grant of the same name
      replaces it. */
  lemma PermittedIff(fetch: GrantFetcher, route: GKNN, backend: GKNN)
    ensures var grants := GrantsIn(fetch, backend.namespace);
      Permitted(fetch, route, backend)
      <==> (route.namespace == backend.namespace
            || (backend.GK() == SERVICE_GK
                && exists i: nat :: i < |grants| && Counts(grants, backend, i) && Accepts(grants[i], route)))
  {
    hide Accepts, Exposes;
    var grants := GrantsIn(fetch, backend.namespace);
    var recorded := Exposing(grants, backend);
    assert backend.GK() == SERVICE_GK ==> DueGrants(fetch, backend) == recorded;
    if g :| g in recorded && Accepts(recorded[g], route) {
      ExposingExactly(grants, backend, g);
    }
    if i: nat :| i < |grants| && Counts(grants, backend, i) && Accepts(grants[i], route) {
      var k := GrantId(grants[i]);
      ExposingExactly(grants, backend, k);
      assert k in recorded;
      var j: nat :| j < |grants| && Counts(grants, backend, j) && GrantId(grants[j]) == k && recorded[k] == grants[j];
      assert i == j;
    }
  }

  /** Uniquely named grants never replace one another. */
  lemma PermittedIfUniquelyNamed(fetch: GrantFetcher, route: GKNN, backend: GKNN)
    requires UniquelyNamed(GrantsIn(fetch, backend.namespace))
    ensures Permitted(fetch, route, backend)
      <==> (route.namespace == backend.namespace
            || (backend.GK() == SERVICE_GK
                && exists g :: g in GrantsIn(fetch, backend.namespace) && Exposes(g, backend) && Accepts(g, route)))
  {
    hide Accepts, Exposes, Permitted;
    PermittedIff(fetch, route, backend);
    var grants := GrantsIn(fetch, backend.namespace);
    if g :| g in grants && Exposes(g, backend) && Accepts(g, route) {
      var i: nat :| i < |grants| && grants[i] == g;
      assert Counts(grants, backend, i);
    }
  }

  lemma ByField(grant: ReferenceGrant, resource: GKNN)
    ensures Exposes(grant, resource) <==> ExposesByField(grant, resource)
    ensures Accepts(grant, resource) <==> AcceptsByField(grant, resource)
  {
    if ExposesByField(grant, resource) {
      var i :| 0 <= i < |grant.to| && grant.to[i].group == resource.group && grant.to[i].kind == resource.kind
        && match grant.to[i].name case None => true case Some(name) => name == "" || name == resource.name;
      assert ToMatches(grant.to[i], resource);
    }
    if i :| 0 <= i < |grant.to| && ToMatches(grant.to[i], resource) {}
  }

  /** A grant of the list allows the reference, and no later one that exposes the object has its name. */
  ghost predicate Allows(grants: seq<ReferenceGrant>, i: int, route: GKNN, t: GKNN) {
    && 0 <= i < |grants| && ExposesByField(grants[i], t) && AcceptsByField(grants[i], route)
    && forall j :: i < j < |grants| && grants[j].name == grants[i].name ==> !ExposesByField(grants[j], t)
  }

  ghost predicate OneAllows(grants: seq<ReferenceGrant>, route: GKNN, t: GKNN) {
    exists i :: Allows(grants, i, route, t)
  }

  /** Main result on the errors of a node: it has one for a reference exactly if it is an HTTPRoute up to `maxDepth`,
      the object is one of its backends and in another namespace, and it is no Service that a grant of its
      namespace allows the route to refer to. */
  lemma ErrorsIff(nodes: map<GKNN, Node>, maxDepth: int, fetch: GrantFetcher, backendRef: Relation, k: GKNN, t: GKNN)
    requires k in nodes
    ensures k in DueErrors(nodes, maxDepth, fetch, backendRef, {})
    ensures ReferenceNotPermitted(k, t) in DueErrors(nodes, maxDepth, fetch, backendRef, {})[k] <==>
      && k.group == "gateway.networking.k8s.io" && k.kind == "HTTPRoute" && nodes[k].depth <= maxDepth
      && (backendRef, t) in nodes[k].outNeighbors && t.namespace != k.namespace
      && !(t.group == "" && t.kind == "Service" && fetch(t.namespace).Ok? && OneAllows(fetch(t.namespace).value, k, t))
    ensures forall e :: e in DueErrors(nodes, maxDepth, fetch, backendRef, {})[k] ==>
      e == ReferenceNotPermitted(k, e.referred)
  {
    hide Permitted, ExposesByField, AcceptsByField;
    PermittedIff(fetch, k, t);
    var grants := GrantsIn(fetch, t.namespace);
    forall g, r { ByField(g, r); }
    if i: nat :| i < |grants| && Counts(grants, t, i) && Accepts(grants[i], k) {
      CountsIff(grants, t, i);
      assert Allows(grants, i, k, t);
    }
    if i :| Allows(grants, i, k, t) { CountsIff(grants, t, i); }
  }

  /** Grants that expose one object are in one namespace, so that their names tell them apart. */
  lemma CountsIff(grants: seq<ReferenceGrant>, t: GKNN, i: nat)
    requires i < |grants|
    ensures Counts(grants, t, i) <==>
      && Exposes(grants[i], t)
      && forall j :: i < j < |grants| && grants[j].name == grants[i].name ==> !Exposes(grants[j], t)
  {
  }

  /** Main result on the grants of a node: a Service has those of its namespace that expose it, by their names. */
  lemma GrantsIff(fetch: GrantFetcher, k: GKNN, id: GKNN)
    ensures id in DueGrants(fetch, k) <==>
      && k.group == "" && k.kind == "Service" && fetch(k.namespace).Ok?
      && id.group == "gateway.networking.k8s.io" && id.kind == "ReferenceGrant" && id.namespace == k.namespace
      && exists i :: ExposedAt(fetch(k.namespace).value, i, k, id.name)
  {
    hide Exposes, ExposesByField, Exposing;
    if fetch(k.namespace).Ok? && k.GK() == SERVICE_GK {
      var grants := fetch(k.namespace).value;
      ExposingExactly(grants, k, id);
      forall g { ByField(g, k); }
      forall g | Exposes(g, k) ensures g.namespace == k.namespace { InNamespace(g, k); }
      if i: nat :| i < |grants| && Counts(grants, k, i) && GrantId(grants[i]) == id {
        assert ExposedAt(grants, i, k, id.name);
      }
    }
  }

  lemma InNamespace(grant: ReferenceGrant, k: GKNN)
    requires Exposes(grant, k)
    ensures grant.namespace == k.namespace
  {
  }

  ghost predicate ExposedAt(grants: seq<ReferenceGrant>, i: int, k: GKNN, name: string) {
    0 <= i < |grants| && ExposesByField(grants[i], k) && grants[i].name == name
  }
}

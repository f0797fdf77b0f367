/** Running the extensions on a graph (pkg/extension/extensions.go): the four that gwctl has, in the order in
    which its commands pass them. */
module Extensions {
  import opened Common
  import opened Builder
  import opened Cluster
  import opened EffectivePasses
  import opened EffectivePolicies
  import opened Gateway
  import opened GatewayNodes
  import opened Metadata
  import opened Topology
  import D = DirectlyAttachedPolicy
  import I = InheritedPolicies
  import N = NotFoundRefValidator
  import R = RefGrantValidator

  /** What the extensions need: a graph straight out of `Build`, and policies as the policy manager has them. */
  ghost predicate Suitable(nodes: map<GKNN, Node>, removed: map<GKNN, Node>, rels: Relations, policies: Policies)
    reads nodes.Values`outNeighbors, nodes.Values`inNeighbors, removed.Values`metadata
  {
    && Shaped(nodes, removed) && rels.Valid() && D.KeyedById(policies)
    && forall k :: k in removed ==> removed[k].metadata == None
  }

  // ---------------------------------------------------------------- what the nodes show

  type AllOfMetadata = map<GKNN, NodeMetadata>

  ghost predicate ShowsAttached(metadata: AllOfMetadata, policies: Policies) {
    forall k :: k in metadata ==> metadata[k].Some? && D.Records(metadata[k], metadata[k], D.AttachedTo(policies, k))
  }

  ghost predicate ShowsEffective(metadata: AllOfMetadata, due: Due) {
    forall k :: k in metadata ==> I.Records(metadata[k], metadata[k], if k in due then Some(due[k]) else None)
  }

  ghost predicate ShowsGrants(metadata: AllOfMetadata, fetch: R.GrantFetcher, errors: map<GKNN, set<RefError>>) {
    forall k :: k in metadata ==> k in errors && R.Records(metadata[k], metadata[k], R.DueGrants(fetch, k), errors[k])
  }

  /** Some backends show the grants that expose them, those in `left` and all routes show nothing. */
  ghost predicate ShowsSomeGrants(metadata: AllOfMetadata, fetch: R.GrantFetcher, left: set<GKNN>) {
    forall k :: k in metadata ==>
      R.Records(metadata[k], metadata[k], if k in left then map[] else R.DueGrants(fetch, k), {})
  }

  ghost predicate ShowsMissing(metadata: AllOfMetadata, due: map<GKNN, set<RefError>>) {
    forall k :: k in metadata ==> k in due && N.Records(metadata[k], metadata[k], due[k])
  }

  /** What every node shows after a run, whatever it showed before. */
  ghost predicate Outcome(graph: Graph, metadata: AllOfMetadata, rels: Relations, policies: Policies,
                          fetch: R.GrantFetcher, due: Due)
    reads graph, graph.nodes.Values`outNeighbors, graph.nodes.Values`inNeighbors, graph.nodes.Values`depth
  {
    && ShowsAttached(metadata, policies)
    && ShowsEffective(metadata, due) && SameInherited(I.InheritedDue(graph.nodes, rels, policies), due)
    && EffectiveExactly(graph.nodes, rels, graph.maxDepth, policies, due)
    && ShowsGrants(metadata, fetch, R.DueErrors(graph.nodes, graph.maxDepth, fetch, rels.backendRef, {}))
    && ShowsMissing(metadata, N.Due(graph.nodes, graph.relations))
  }

  /** An extension leaves what the others show as it is. */
  ghost predicate Changes(before: AllOfMetadata, after: AllOfMetadata, category: string) {
    before.Keys == after.Keys && forall k :: k in before ==> OnlyChanges(before[k], after[k], category)
  }

  /** What nodes show under a category is what they showed before. */
  ghost predicate Keeps(before: AllOfMetadata, after: AllOfMetadata, category: string) {
    before.Keys == after.Keys && forall k :: k in before ==> Entry(after[k], category) == Entry(before[k], category)
  }

  lemma ChangesKeep(before: AllOfMetadata, after: AllOfMetadata, changed: string, category: string)
    requires Changes(before, after, changed) && category != changed
    ensures Keeps(before, after, category)
  {
  }

  lemma KeepsOn(a: AllOfMetadata, b: AllOfMetadata, c: AllOfMetadata, category: string)
    requires Keeps(a, b, category) && Keeps(b, c, category)
    ensures Keeps(a, c, category)
  {
  }

  lemma AttachedStays(before: AllOfMetadata, after: AllOfMetadata, category: string, policies: Policies)
    requires Changes(before, after, category) && category != DIRECTLY_ATTACHED_POLICY && ShowsAttached(before, policies)
    ensures ShowsAttached(after, policies)
  {
    hide D.AttachedTo;
  }

  lemma EffectiveStays(before: AllOfMetadata, after: AllOfMetadata, category: string, due: Due)
    requires Changes(before, after, category) && category != INHERITED_POLICY && ShowsEffective(before, due)
    ensures ShowsEffective(after, due)
  {
  }

  lemma GrantsStay(before: AllOfMetadata, after: AllOfMetadata, category: string, fetch: R.GrantFetcher,
                   errors: map<GKNN, set<RefError>>)
    requires Changes(before, after, category) && category != REFERENCE_GRANTS_FOR_BACKEND
    requires ShowsGrants(before, fetch, errors)
    ensures ShowsGrants(after, fetch, errors)
  {
    hide R.DueGrants;
  }

  // ---------------------------------------------------------------- the run

  /** Gives every node a map to write to. */
  method InitMetadata(graph: Graph)
    modifies graph.nodes.Values`metadata
    ensures forall k :: k in graph.nodes ==>
      var before := old(graph.nodes[k].metadata);
      graph.nodes[k].metadata == if before == None then Some(map[]) else before
    ensures forall category :: Keeps(old(AllMetadata(graph.nodes)), AllMetadata(graph.nodes), category)
  {
    var todo := graph.nodes.Values;
    while todo != {}
      invariant todo <= graph.nodes.Values
      invariant forall n :: n in graph.nodes.Values && n in todo ==> n.metadata == old(n.metadata)
      invariant forall n :: n in graph.nodes.Values && n !in todo ==>
        n.metadata == if old(n.metadata) == None then Some(map[]) else old(n.metadata)
    {
      var node :| node in todo;
      todo := todo - {node};
      if node.metadata == None {
        node.metadata := Some(map[]);
      }
    }
  }

  lemma SuitableFacts(nodes: map<GKNN, Node>, removed: map<GKNN, Node>, rels: Relations, policies: Policies)
    requires Suitable(nodes, removed, rels, policies)
    ensures Keyed(nodes) && OutClosed(nodes) && nodes.Values !! removed.Values && D.KeyedById(policies)
  {
  }

  method RunAttached(graph: Graph, policies: Policies) returns (r: Result<(), string>)
    requires Keyed(graph.nodes) && D.KeyedById(policies) && forall k :: k in graph.nodes ==>
      graph.nodes[k].metadata.Some?
    modifies graph.nodes.Values`metadata
    ensures r.Ok? && ShowsAttached(AllMetadata(graph.nodes), policies)
    ensures Changes(old(AllMetadata(graph.nodes)), AllMetadata(graph.nodes), DIRECTLY_ATTACHED_POLICY)
  {
    hide D.AttachedTo, D.KeyedById;
    r := D.Execute(graph, policies);
  }

  lemma AttachedIsReady(nodes: map<GKNN, Node>, removed: map<GKNN, Node>, rels: Relations, policies: Policies)
    requires Suitable(nodes, removed, rels, policies) && ShowsAttached(AllMetadata(nodes), policies)
    ensures I.Ready(nodes, rels, I.Context(removed, AllMetadata(nodes), policies))
  {
    hide Shaped, D.AttachedTo, Relations.Valid, D.KeyedById;
    var metadata := AllMetadata(nodes);
    forall k | k in metadata ensures metadata[k].Some? && I.RecordsDirect(metadata[k], D.AttachedTo(policies, k)) {}
  }

  method RunEffective(graph: Graph, rels: Relations, ghost removed: map<GKNN, Node>, ghost policies: Policies)
    returns (r: Result<(), Failure>, ghost due: Due, ghost left: set<GKNN>)
    requires Suitable(graph.nodes, removed, rels, policies) && ShowsAttached(AllMetadata(graph.nodes), policies)
    modifies graph.nodes.Values`metadata
    ensures ShowsAttached(AllMetadata(graph.nodes), policies)
    ensures Changes(old(AllMetadata(graph.nodes)), AllMetadata(graph.nodes), INHERITED_POLICY)
    ensures EffectiveExcept(graph.nodes, rels, graph.maxDepth, policies, due, left) && LeftInOrder(graph.nodes, left)
    ensures ShowsEffective(AllMetadata(graph.nodes), due)
    ensures SameInherited(I.InheritedDue(graph.nodes, rels, policies), due)
    ensures match r
      case Ok(_) => EffectiveExactly(graph.nodes, rels, graph.maxDepth, policies, due)
      case Err(e) => e.BadPolicies? && !AllReadable(policies)
  {
    hide Suitable, ShowsAttached, ShowsEffective, SameInherited, EffectiveExactly, EffectiveExcept, LeftInOrder,
      AllReadable, I.InheritedDue, I.Ready, I.AllRecord, Changes;
    ghost var nodes, before := graph.nodes, AllMetadata(graph.nodes);
    AttachedIsReady(nodes, removed, rels, policies);
    r, due, left := EffectivePasses.Execute(graph, rels, removed, policies);
    AfterEffective(nodes, before, due);
    AttachedStays(before, AllMetadata(nodes), INHERITED_POLICY, policies);
  }

  lemma AfterEffective(nodes: map<GKNN, Node>, before: AllOfMetadata, due: Due)
    requires nodes.Keys == before.Keys && I.AllRecord(nodes, before, due)
    ensures Changes(before, AllMetadata(nodes), INHERITED_POLICY) && ShowsEffective(AllMetadata(nodes), due)
  {
  }

  method RunGrants(graph: Graph, fetch: R.GrantFetcher, backendRef: Relation)
    returns (r: Result<(), string>, ghost left: set<GKNN>)
    requires Keyed(graph.nodes) && OutClosed(graph.nodes)
    modifies graph.nodes.Values`metadata
    ensures r.Ok? <==> forall k :: k in graph.nodes && k.GK() == SERVICE_GK ==> fetch(k.namespace).Ok?
    ensures Changes(old(AllMetadata(graph.nodes)), AllMetadata(graph.nodes), REFERENCE_GRANTS_FOR_BACKEND)
    ensures r.Err? ==> ShowsSomeGrants(AllMetadata(graph.nodes), fetch, left) && R.FetchFailed(fetch, left, r.error)
    ensures r.Ok? ==>
      ShowsGrants(AllMetadata(graph.nodes), fetch, R.DueErrors(graph.nodes, graph.maxDepth, fetch, backendRef, {}))
  {
    hide R.DueGrants, R.NotPermitted, OutClosed, R.FetchFailed;
    r, left := R.Execute(graph, fetch, backendRef);
  }

  method RunMissing(graph: Graph) returns (r: Result<(), string>)
    requires Keyed(graph.nodes)
    modifies graph.nodes.Values`metadata
    ensures r.Ok? && Changes(old(AllMetadata(graph.nodes)), AllMetadata(graph.nodes), NOT_FOUND_REFERENCE_VALIDATOR)
    ensures ShowsMissing(AllMetadata(graph.nodes), N.Due(graph.nodes, graph.relations))
  {
    hide N.Missing, N.Refs;
    r := N.Execute(graph);
  }

  /** The first two extensions. */
  method RunPolicies(graph: Graph, rels: Relations, policies: Policies, ghost removed: map<GKNN, Node>)
    returns (r: Result<(), Failure>, ghost due: Due, ghost left: set<GKNN>)
    requires Suitable(graph.nodes, removed, rels, policies) && forall k :: k in graph.nodes ==>
      graph.nodes[k].metadata.Some?
    modifies graph.nodes.Values`metadata
    ensures ShowsAttached(AllMetadata(graph.nodes), policies) && ShowsEffective(AllMetadata(graph.nodes), due)
    ensures SameInherited(I.InheritedDue(graph.nodes, rels, policies), due)
    ensures EffectiveExcept(graph.nodes, rels, graph.maxDepth, policies, due, left) && LeftInOrder(graph.nodes, left)
    ensures Keeps(old(AllMetadata(graph.nodes)), AllMetadata(graph.nodes), REFERENCE_GRANTS_FOR_BACKEND)
    ensures Keeps(old(AllMetadata(graph.nodes)), AllMetadata(graph.nodes), NOT_FOUND_REFERENCE_VALIDATOR)
    ensures match r
      case Ok(_) => EffectiveExactly(graph.nodes, rels, graph.maxDepth, policies, due)
      case Err(e) => e.BadPolicies? && !AllReadable(policies)
  {
    hide Suitable, Keyed, OutClosed, D.KeyedById, ShowsAttached, ShowsEffective, SameInherited, EffectiveExactly,
      EffectiveExcept, LeftInOrder, AllReadable, I.InheritedDue, AllMetadata, Changes, Keeps;
    SuitableFacts(graph.nodes, removed, rels, policies);
    ghost var before := AllMetadata(graph.nodes);
    var attached := RunAttached(graph, policies);
    ghost var between := AllMetadata(graph.nodes);
    r := AsResult(attached);
    due, left := map[], {};
    if r.Err? { return; }
    r, due, left := RunEffective(graph, rels, removed, policies);
    PoliciesKeep(before, between, AllMetadata(graph.nodes));
  }

  lemma PoliciesKeep(a: AllOfMetadata, b: AllOfMetadata, c: AllOfMetadata)
    requires Changes(a, b, DIRECTLY_ATTACHED_POLICY) && Changes(b, c, INHERITED_POLICY)
    ensures Keeps(a, c, REFERENCE_GRANTS_FOR_BACKEND) && Keeps(a, c, NOT_FOUND_REFERENCE_VALIDATOR)
  {
    hide Changes, Keeps;
    ChangesKeep(a, b, DIRECTLY_ATTACHED_POLICY, REFERENCE_GRANTS_FOR_BACKEND);
    ChangesKeep(b, c, INHERITED_POLICY, REFERENCE_GRANTS_FOR_BACKEND);
    ChangesKeep(a, b, DIRECTLY_ATTACHED_POLICY, NOT_FOUND_REFERENCE_VALIDATOR);
    ChangesKeep(b, c, INHERITED_POLICY, NOT_FOUND_REFERENCE_VALIDATOR);
    KeepsOn(a, b, c, REFERENCE_GRANTS_FOR_BACKEND);
    KeepsOn(a, b, c, NOT_FOUND_REFERENCE_VALIDATOR);
  }

  /** The last two extensions. */
  method RunValidators(graph: Graph, fetch: R.GrantFetcher, backendRef: Relation)
    returns (r: Result<(), Failure>, ghost left: set<GKNN>)
    requires Keyed(graph.nodes) && OutClosed(graph.nodes)
    modifies graph.nodes.Values`metadata
    ensures r.Ok? <==> forall k :: k in graph.nodes && k.GK() == SERVICE_GK ==> fetch(k.namespace).Ok?
    ensures ChangesErrors(old(AllMetadata(graph.nodes)), AllMetadata(graph.nodes))
    ensures r.Ok? ==>
      ShowsGrants(AllMetadata(graph.nodes), fetch, R.DueErrors(graph.nodes, graph.maxDepth, fetch, backendRef, {}))
    ensures r.Ok? ==> ShowsMissing(AllMetadata(graph.nodes), N.Due(graph.nodes, graph.relations))
    ensures r.Err? ==> r.error.OtherError? && R.FetchFailed(fetch, left, r.error.message)
    ensures r.Err? ==> ShowsSomeGrants(AllMetadata(graph.nodes), fetch, left)
    ensures r.Err? ==> Keeps(old(AllMetadata(graph.nodes)), AllMetadata(graph.nodes), NOT_FOUND_REFERENCE_VALIDATOR)
  {
    hide ShowsGrants, ShowsSomeGrants, ShowsMissing, R.DueErrors, R.FetchFailed, N.Due, Changes, Keeps, Keyed,
      OutClosed, AllMetadata;
    ghost var before := AllMetadata(graph.nodes);
    var grants;
    grants, left := RunGrants(graph, fetch, backendRef);
    ghost var metadata := AllMetadata(graph.nodes);
    r := AsResult(grants);
    if r.Err? {
      ChangesKeep(before, metadata, REFERENCE_GRANTS_FOR_BACKEND, NOT_FOUND_REFERENCE_VALIDATOR);
      NoChange(metadata);
      return;
    }
    var missing := RunMissing(graph);
    r := AsResult(missing);
    GrantsStay(metadata, AllMetadata(graph.nodes), NOT_FOUND_REFERENCE_VALIDATOR, fetch,
               R.DueErrors(graph.nodes, graph.maxDepth, fetch, backendRef, {}));
  }

  lemma NoChange(metadata: AllOfMetadata)
    ensures Changes(metadata, metadata, NOT_FOUND_REFERENCE_VALIDATOR)
  {
  }

  /** The changes that the validators make. */
  ghost predicate ChangesErrors(before: AllOfMetadata, after: AllOfMetadata) {
    exists between ::
      Changes(before, between, REFERENCE_GRANTS_FOR_BACKEND) && Changes(between, after, NOT_FOUND_REFERENCE_VALIDATOR)
  }

  lemma PoliciesStay(before: AllOfMetadata, after: AllOfMetadata, policies: Policies, due: Due)
    requires ChangesErrors(before, after) && ShowsAttached(before, policies) && ShowsEffective(before, due)
    ensures ShowsAttached(after, policies) && ShowsEffective(after, due)
  {
    hide ShowsAttached, ShowsEffective, Changes;
    var between :| Changes(before, between, REFERENCE_GRANTS_FOR_BACKEND)
      && Changes(between, after, NOT_FOUND_REFERENCE_VALIDATOR);
    AttachedStays(before, between, REFERENCE_GRANTS_FOR_BACKEND, policies);
    AttachedStays(between, after, NOT_FOUND_REFERENCE_VALIDATOR, policies);
    EffectiveStays(before, between, REFERENCE_GRANTS_FOR_BACKEND, due);
    EffectiveStays(between, after, NOT_FOUND_REFERENCE_VALIDATOR, due);
  }

  /** Main result: on any graph straight out of `Build`, whatever metadata its nodes have, every node ends up
      showing exactly its attached, inherited and effective policies, the grants that expose it and the
      references it is not permitted or that lead nowhere; nothing stale stays. If policies do not merge, the
      objects left have no effective policies, and what the validators recorded before stays; if grants cannot
      be fetched, the policies are complete. */
  method ExecuteAll(graph: Graph, rels: Relations, policies: Policies, fetch: R.GrantFetcher,
                    ghost removed: map<GKNN, Node>)
    returns (r: Result<(), Failure>, ghost due: Due, ghost left: set<GKNN>)
    requires Suitable(graph.nodes, removed, rels, policies)
    modifies graph.nodes.Values`metadata
    ensures r.Ok? ==> Outcome(graph, AllMetadata(graph.nodes), rels, policies, fetch, due)
    ensures (&& AllReadable(policies)
             && forall k :: k in graph.nodes && k.GK() == SERVICE_GK ==> fetch(k.namespace).Ok?) ==>
      r.Ok?
    ensures r.Err? ==> Interrupted(graph, old(AllMetadata(graph.nodes)), AllMetadata(graph.nodes), rels, policies,
                                   fetch, due, left, r.error)
  {
    hide Suitable, Keyed, OutClosed, D.KeyedById, ShowsAttached, ShowsEffective, SameInherited, EffectiveExactly,
      EffectiveExcept, LeftInOrder, AllReadable, I.InheritedDue, R.FetchFailed, ShowsSomeGrants, AllMetadata, Keeps,
      Outcome;
    ghost var before := AllMetadata(graph.nodes);
    SuitableFacts(graph.nodes, removed, rels, policies);
    InitMetadata(graph);
    ghost var begun := AllMetadata(graph.nodes);
    r, due, left := RunPolicies(graph, rels, policies, removed);
    ghost var metadata := AllMetadata(graph.nodes);
    KeepsOn(before, begun, metadata, REFERENCE_GRANTS_FOR_BACKEND);
    KeepsOn(before, begun, metadata, NOT_FOUND_REFERENCE_VALIDATOR);
    if r.Err? { return; }
    r, left := FinishRun(graph, rels, policies, fetch, before, due);
  }

  /** The validators, after the policies have been recorded. */
  method FinishRun(graph: Graph, rels: Relations, ghost policies: Policies, fetch: R.GrantFetcher,
                   ghost before: AllOfMetadata, ghost due: Due)
    returns (r: Result<(), Failure>, ghost left: set<GKNN>)
    requires Keyed(graph.nodes) && OutClosed(graph.nodes)
    requires ShowsAttached(AllMetadata(graph.nodes), policies) && ShowsEffective(AllMetadata(graph.nodes), due)
    requires SameInherited(I.InheritedDue(graph.nodes, rels, policies), due)
    requires EffectiveExactly(graph.nodes, rels, graph.maxDepth, policies, due)
    requires Keeps(before, AllMetadata(graph.nodes), NOT_FOUND_REFERENCE_VALIDATOR)
    modifies graph.nodes.Values`metadata
    ensures r.Ok? ==> Outcome(graph, AllMetadata(graph.nodes), rels, policies, fetch, due)
    ensures r.Ok? <==> forall k :: k in graph.nodes && k.GK() == SERVICE_GK ==> fetch(k.namespace).Ok?
    ensures r.Err? ==>
      Interrupted(graph, before, AllMetadata(graph.nodes), rels, policies, fetch, due, left, r.error)
  {
    hide Keyed, OutClosed, ShowsAttached, ShowsEffective, SameInherited, EffectiveExactly, EffectiveExcept, LeftInOrder,
      AllReadable, I.InheritedDue, ShowsGrants, ShowsSomeGrants, ShowsMissing, R.DueErrors, R.FetchFailed, N.Due,
      ChangesErrors, AllMetadata, Keeps;
    ghost var metadata := AllMetadata(graph.nodes);
    r, left := RunValidators(graph, fetch, rels.backendRef);
    PoliciesStay(metadata, AllMetadata(graph.nodes), policies, due);
    if r.Err? { KeepsOn(before, metadata, AllMetadata(graph.nodes), NOT_FOUND_REFERENCE_VALIDATOR); }
  }

  /** What nodes show after a run that failed. */
  ghost predicate Interrupted(graph: Graph, before: AllOfMetadata, metadata: AllOfMetadata, rels: Relations,
                              policies: Policies, fetch: R.GrantFetcher, due: Due, left: set<GKNN>, error: Failure)
    reads graph, graph.nodes.Values`outNeighbors, graph.nodes.Values`inNeighbors, graph.nodes.Values`depth
  {
    && ShowsAttached(metadata, policies)
    && ShowsEffective(metadata, due) && SameInherited(I.InheritedDue(graph.nodes, rels, policies), due)
    && Keeps(before, metadata, NOT_FOUND_REFERENCE_VALIDATOR)
    && match error
       case BadPolicies(_) =>
         && !AllReadable(policies) && Keeps(before, metadata, REFERENCE_GRANTS_FOR_BACKEND)
         && EffectiveExcept(graph.nodes, rels, graph.maxDepth, policies, due, left) && LeftInOrder(graph.nodes, left)
       case OtherError(message) =>
         && R.FetchFailed(fetch, left, message) && ShowsSomeGrants(metadata, fetch, left)
         && EffectiveExactly(graph.nodes, rels, graph.maxDepth, policies, due)
  }

  function AsResult(r: Result<(), string>): Result<(), Failure> {
    match r
    case Ok(_) => Ok(())
    case Err(e) => Err(OtherError(e))
  }

  /** Every graph straight out of `Build` with the six relations can be given to the extensions. */
  lemma BuiltIsSuitable(graph: Graph, removed: map<GKNN, Node>, objects: map<GKNN, Resource>, edges: set<Edge>,
                        sources: set<GKNN>, rels: Relations, policies: Policies)
    requires Built(graph, removed, objects, edges, sources) && rels.Valid() && D.KeyedById(policies)
    requires forall e | e in edges :: IsEdge(rels.All(), objects, e)
    ensures Suitable(graph.nodes, removed, rels, policies)
  {
    hide Shaped, HoldsNearest, HoldsEdges, IsEdge, D.KeyedById;
    BuiltIsShaped(graph, removed, objects, edges, sources, rels.All());
  }
}

/** Running the extensions again on the same graph and inputs changes nothing that can be told apart, except
    for the order of errors, and for the effective policies of Backends whose routes are not settled
    (pkg/extension/extensions.go, lines 28 to 44). */
module Reruns {
  import opened Common
  import opened Determinacy
  import opened EffectivePasses
  import opened EffectivePolicies
  import opened Extensions
  import opened Gateway
  import opened GatewayNodes
  import opened Merger
  import opened Metadata
  import opened Permutations
  import opened Topology
  import D = DirectlyAttachedPolicy
  import I = InheritedPolicies
  import N = NotFoundRefValidator
  import R = RefGrantValidator

  // ---------------------------------------------------------------- what can be told apart

  /** What readers of the metadata see, the order of errors aside. */
  datatype View = View(direct: Policies, effective: Option<EffectiveData>, backends: map<GKNN, PolicyMap>,
                       grants: map<GKNN, ReferenceGrant>, notPermitted: multiset<RefError>,
                       notFound: multiset<RefError>)

  function ViewOf(metadata: NodeMetadata): View {
    View(
      match Entry(metadata, DIRECTLY_ATTACHED_POLICY) case Some(Attached(policies)) => policies case _ => map[],
      match Entry(metadata, INHERITED_POLICY)
      case Some(Effective(data)) => Some(data.(backendEffective := map[]))
      case _ => None,
      match Entry(metadata, INHERITED_POLICY) case Some(Effective(data)) => data.backendEffective case _ => map[],
      match Entry(metadata, REFERENCE_GRANTS_FOR_BACKEND) case Some(Grants(grants, _)) => grants case _ => map[],
      match Entry(metadata, REFERENCE_GRANTS_FOR_BACKEND)
      case Some(Grants(_, errors)) => multiset(errors)
      case _ => multiset{},
      match Entry(metadata, NOT_FOUND_REFERENCE_VALIDATOR)
      case Some(NotFound(errors)) => multiset(errors)
      case _ => multiset{})
  }

  /** What the shown errors are as a multiset. */
  lemma MissingView(a: NodeMetadata, b: NodeMetadata, errors: set<RefError>)
    requires N.Records(a, a, errors) && N.Records(b, b, errors)
    ensures ViewOf(a).notFound == ViewOf(b).notFound
  {
    var s := match Entry(a, NOT_FOUND_REFERENCE_VALIDATOR) case Some(NotFound(e)) => e case _ => [];
    var t := match Entry(b, NOT_FOUND_REFERENCE_VALIDATOR) case Some(NotFound(e)) => e case _ => [];
    SameMultiset(s, t);
  }

  lemma GrantsView(a: NodeMetadata, b: NodeMetadata, grants: map<GKNN, ReferenceGrant>, errors: set<RefError>)
    requires R.Records(a, a, grants, errors) && R.Records(b, b, grants, errors)
    ensures ViewOf(a).grants == ViewOf(b).grants && ViewOf(a).notPermitted == ViewOf(b).notPermitted
  {
    var s := match Entry(a, REFERENCE_GRANTS_FOR_BACKEND) case Some(Grants(_, e)) => e case _ => [];
    var t := match Entry(b, REFERENCE_GRANTS_FOR_BACKEND) case Some(Grants(_, e)) => e case _ => [];
    SameMultiset(s, t);
  }

  /** For none of its Gateways does the order of its routes make a difference to a Backend. */
  ghost predicate SettledBackend(graph: Graph, rels: Relations, policies: Policies, due: Due, k: GKNN)
    reads graph, graph.nodes.Values`inNeighbors
  {
    k in graph.nodes && k in due ==>
      forall g :: g in due[k].backendEffective ==>
        Settled(policies, due, Referrers(graph.nodes, graph.nodes[k], rels.backendRef), g)
  }

  /** Main result: two runs leave the same view of every node, of a Backend if its routes are settled; and of
      any other Backend a view that is the same apart from its effective policies. */
  lemma RunAgain(graph: Graph, rels: Relations, policies: Policies, fetch: R.GrantFetcher, m1: AllOfMetadata,
                 m2: AllOfMetadata, due1: Due, due2: Due, k: GKNN)
    requires D.KeyedById(policies) && AllPlainlyNamed(policies) && k in m1 && k in m2
    requires Outcome(graph, m1, rels, policies, fetch, due1) && Outcome(graph, m2, rels, policies, fetch, due2)
    ensures ViewOf(m1[k]).(backends := map[]) == ViewOf(m2[k]).(backends := map[])
    ensures SettledBackend(graph, rels, policies, due1, k) ==> ViewOf(m1[k]) == ViewOf(m2[k])
  {
    hide I.InheritedDue, EffectiveExactly, R.DueErrors, R.DueGrants, N.Due, D.AttachedTo, R.Records, N.Records,
      D.KeyedById, AllPlainlyNamed, Settled, Referrers;
    MissingView(m1[k], m2[k], N.Due(graph.nodes, graph.relations)[k]);
    GrantsView(m1[k], m2[k], R.DueGrants(fetch, k),
               R.DueErrors(graph.nodes, graph.maxDepth, fetch, rels.backendRef, {})[k]);
    if k in due1 {
      EffectiveIsUnique(graph.nodes, rels, graph.maxDepth, policies, due1, due2, k);
      DueIsInGraph(graph, rels, policies, due1, k);
      if SettledBackend(graph, rels, policies, due1, k) {
        BackendIsUnique(graph.nodes, rels, graph.maxDepth, policies, due1, due2, k);
      }
    }
  }

  lemma DueIsInGraph(graph: Graph, rels: Relations, policies: Policies, due: Due, k: GKNN)
    requires EffectiveExactly(graph.nodes, rels, graph.maxDepth, policies, due) && k in due
    ensures k in graph.nodes
  {
    hide GatewayEffective, RouteEffective, BackendEffective;
  }

  /** A run leaves the graph as suitable as it was. */
  method Run(graph: Graph, rels: Relations, policies: Policies, fetch: R.GrantFetcher, ghost removed: map<GKNN, Node>)
    returns (r: Result<(), Failure>, ghost metadata: AllOfMetadata, ghost due: Due)
    requires Suitable(graph.nodes, removed, rels, policies)
    modifies graph.nodes.Values`metadata
    ensures Suitable(graph.nodes, removed, rels, policies)
    ensures metadata == AllMetadata(graph.nodes)
    ensures r.Ok? ==> Outcome(graph, metadata, rels, policies, fetch, due)
    ensures AllReadable(policies) && AllFetched(graph.nodes, fetch) ==> r.Ok?
  {
    hide Suitable, Outcome, Interrupted, AllReadable, D.KeyedById;
    SuitableFacts(graph.nodes, removed, rels, policies);
    ghost var left;
    r, due, left := ExecuteAll(graph, rels, policies, fetch, removed);
    metadata := AllMetadata(graph.nodes);
  }

  /** The grants of the namespaces of all Backends can be fetched. */
  ghost predicate AllFetched(nodes: map<GKNN, Node>, fetch: R.GrantFetcher) {
    forall k :: k in nodes && k.GK() == SERVICE_GK ==> fetch(k.namespace).Ok?
  }

  /** Main result on runs: after a run, another one leaves the same, if both succeed; and they do if the policies
      are readable and grants can be fetched. */
  method RunTwice(graph: Graph, rels: Relations, policies: Policies, fetch: R.GrantFetcher,
                  ghost removed: map<GKNN, Node>)
    returns (r: Result<(), Failure>, ghost first: AllOfMetadata, ghost due: Due)
    requires Suitable(graph.nodes, removed, rels, policies) && AllPlainlyNamed(policies)
    modifies graph.nodes.Values`metadata
    ensures r.Ok? ==> Outcome(graph, first, rels, policies, fetch, due) && first.Keys == graph.nodes.Keys
    ensures r.Ok? ==> forall k :: k in graph.nodes ==>
      SameView(graph, rels, policies, due, k, first[k], graph.nodes[k].metadata)
    ensures AllReadable(policies) && AllFetched(graph.nodes, fetch) ==> r.Ok?
  {
    hide Suitable, Outcome, AllPlainlyNamed, AllReadable, AllFetched, D.KeyedById, SameView;
    r, first, due := Run(graph, rels, policies, fetch, removed);
    if r.Err? { return; }
    ghost var second, again;
    r, second, again := Run(graph, rels, policies, fetch, removed);
    if r.Ok? { SameViews(graph, rels, policies, fetch, removed, first, second, due, again); }
  }

  lemma SameViews(graph: Graph, rels: Relations, policies: Policies, fetch: R.GrantFetcher, removed: map<GKNN, Node>,
                  m1: AllOfMetadata, m2: AllOfMetadata, due1: Due, due2: Due)
    requires Suitable(graph.nodes, removed, rels, policies) && AllPlainlyNamed(policies) && m1.Keys == m2.Keys
    requires Outcome(graph, m1, rels, policies, fetch, due1) && Outcome(graph, m2, rels, policies, fetch, due2)
    ensures forall k :: k in m1 ==> SameView(graph, rels, policies, due1, k, m1[k], m2[k])
  {
    hide Suitable, Outcome, AllPlainlyNamed, SettledBackend, D.KeyedById;
    SuitableFacts(graph.nodes, removed, rels, policies);
    forall k | k in m1 ensures SameView(graph, rels, policies, due1, k, m1[k], m2[k]) {
      RunAgain(graph, rels, policies, fetch, m1, m2, due1, due2, k);
    }
  }

  /** Equal views of a node, up to the effective policies of a Backend whose routes are not settled. */
  ghost predicate SameView(graph: Graph, rels: Relations, policies: Policies, due: Due, k: GKNN, a: NodeMetadata,
                           b: NodeMetadata)
    reads graph, graph.nodes.Values`inNeighbors
  {
    && ViewOf(a).(backends := map[]) == ViewOf(b).(backends := map[])
    && (SettledBackend(graph, rels, policies, due, k) ==> ViewOf(a) == ViewOf(b))
  }
}

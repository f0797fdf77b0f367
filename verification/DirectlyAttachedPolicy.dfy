/** The policies attached to each node (pkg/extension/directlyattachedpolicy/directlyattachedpolicy.go). */
module DirectlyAttachedPolicy {
  import opened Common
  import opened Metadata
  import opened Topology

  const EXTENSION := DIRECTLY_ATTACHED_POLICY

  function Access(node: Node): Result<Policies, string>
    reads node`metadata
  {
    match Entry(node.metadata, EXTENSION)
    case None => Ok(map[])
    case Some(Attached(policies)) => Ok(policies)
    case Some(_) => Err("unable to perform type assertion")
  }

  /** Every policy is stored under its own identity, as the policy manager does. */
  ghost predicate KeyedById(policies: Policies) {
    forall g :: g in policies ==> policies[g].GKNN() == g
  }

  /** The policies with a reference to `k`. */
  function AttachedTo(policies: Policies, k: GKNN): Policies {
    map g | g in policies && k in policies[g].targetRefs :: policies[g]
  }

  /** The node records exactly these policies, and has no entry if there are none. */
  ghost predicate Records(before: NodeMetadata, after: NodeMetadata, attached: Policies) {
    && OnlyChanges(before, after, EXTENSION)
    && match Entry(after, EXTENSION)
       case None => attached == map[]
       case Some(Attached(policies)) => policies == attached
       case Some(_) => false
  }

  /** Every node records the policies attached to it. */
  ghost predicate Attaches(nodes: map<GKNN, Node>, before: map<GKNN, NodeMetadata>, policies: Policies)
    requires nodes.Keys == before.Keys
    reads nodes.Values`metadata
  {
    forall k :: k in nodes ==> Records(before[k], nodes[k].metadata, AttachedTo(policies, k))
  }

  /** The index after some of the policies, and of `g` the references in `refs`. */
  ghost predicate Indexed(nodes: map<GKNN, Node>, before: map<GKNN, NodeMetadata>, done: Policies,
                          g: GKNN, policy: Policy.Policy, refs: seq<GKNN>)
    requires nodes.Keys == before.Keys
    reads nodes.Values`metadata
  {
    forall k :: k in nodes ==> Records(before[k], nodes[k].metadata,
      if k in refs then AttachedTo(done, k)[g := policy] else AttachedTo(done, k))
  }

  /** Main result: a node of the graph records a policy exactly if one of the policy's references is the
      identity of the node; nothing stale, and its other metadata as before. */
  method Execute(graph: Graph, policies: Policies) returns (r: Result<(), string>)
    requires Keyed(graph.nodes) && KeyedById(policies)
    modifies graph.nodes.Values`metadata
    ensures r.Ok?
    ensures Attaches(graph.nodes, old(AllMetadata(graph.nodes)), policies)
  {
    hide Attaches, Indexed, Without, Keyed;
    ghost var nodes, before := graph.nodes, AllMetadata(graph.nodes);
    graph.RemoveMetadata(EXTENSION);
    var todo := policies.Keys;
    ghost var done: Policies := map[];
    NothingAttached(nodes, before);
    while todo != {}
      invariant todo <= policies.Keys && done == policies - todo
      invariant Attaches(nodes, before, done)
    {
      var g :| g in todo;
      r := AttachPolicy(graph, g, policies[g], done, before);
      if r.Err? { return; }
      AttachedNext(nodes, before, done, g, policies[g]);
      OneLessToDo(policies, todo, g);
      done := done[g := policies[g]];
      todo := todo - {g};
    }
    assert policies - {} == policies;
    return Ok(());
  }

  lemma OneLessToDo(policies: Policies, todo: set<GKNN>, g: GKNN)
    requires g in todo && g in policies
    ensures (policies - todo)[g := policies[g]] == policies - (todo - {g})
  {
  }

  lemma NothingAttached(nodes: map<GKNN, Node>, before: map<GKNN, NodeMetadata>)
    requires nodes.Keys == before.Keys
    requires forall k :: k in nodes ==> nodes[k].metadata == Without(before[k], EXTENSION)
    ensures Attaches(nodes, before, map[])
  {
  }

  lemma AttachedNext(nodes: map<GKNN, Node>, before: map<GKNN, NodeMetadata>, done: Policies, g: GKNN,
                     policy: Policy.Policy)
    requires nodes.Keys == before.Keys && g !in done
    requires Indexed(nodes, before, done, g, policy, policy.targetRefs)
    ensures Attaches(nodes, before, done[g := policy])
  {
    hide Records;
    forall k ensures AttachedTo(done[g := policy], k) ==
      if k in policy.targetRefs then AttachedTo(done, k)[g := policy] else AttachedTo(done, k)
    {
    }
  }

  /** The inner loop: one policy, all its references. */
  method AttachPolicy(graph: Graph, ghost g: GKNN, policy: Policy.Policy, ghost done: Policies,
                      ghost before: map<GKNN, NodeMetadata>)
    returns (r: Result<(), string>)
    requires Keyed(graph.nodes) && graph.nodes.Keys == before.Keys && policy.GKNN() == g
    requires Attaches(graph.nodes, before, done)
    modifies graph.nodes.Values`metadata
    ensures r.Ok? && Indexed(graph.nodes, before, done, g, policy, policy.targetRefs)
  {
    ghost var nodes := graph.nodes;
    hide Indexed, Keyed, Attaches;
    NoneIndexed(nodes, before, done, g, policy);
    for i := 0 to |policy.targetRefs|
      invariant Indexed(nodes, before, done, g, policy, policy.targetRefs[..i])
    {
      r := AttachTo(graph, policy.targetRefs[i], g, policy, done, before, policy.targetRefs[..i]);
      if r.Err? { return; }
      assert policy.targetRefs[..i + 1] == policy.targetRefs[..i] + [policy.targetRefs[i]];
    }
    assert policy.targetRefs[..|policy.targetRefs|] == policy.targetRefs;
    return Ok(());
  }

  lemma NoneIndexed(nodes: map<GKNN, Node>, before: map<GKNN, NodeMetadata>, done: Policies, g: GKNN,
                    policy: Policy.Policy)
    requires nodes.Keys == before.Keys && Attaches(nodes, before, done)
    ensures policy.targetRefs[..0] == [] && Indexed(nodes, before, done, g, policy, [])
  {
    hide Records, AttachedTo;
  }

  method AttachTo(graph: Graph, targetRef: GKNN, ghost g: GKNN, policy: Policy.Policy, ghost done: Policies,
                  ghost before: map<GKNN, NodeMetadata>, ghost refs: seq<GKNN>)
    returns (r: Result<(), string>)
    requires Keyed(graph.nodes) && graph.nodes.Keys == before.Keys && policy.GKNN() == g
    requires Indexed(graph.nodes, before, done, g, policy, refs)
    modifies graph.nodes.Values`metadata
    ensures r.Ok? && Indexed(graph.nodes, before, done, g, policy, refs + [targetRef])
  {
    if targetRef !in graph.nodes {
      // Only nodes of the graph record policies.
      return Ok(());
    }
    var node := graph.nodes[targetRef];
    ghost var attached := AttachedTo(done, targetRef);
    if targetRef in refs { attached := attached[g := policy]; }
    r := Put(node, policy, before[targetRef], attached);
  }

  /** Adds a policy to those of a node; fails if the entry belongs to something else. */
  method Put(node: Node, policy: Policy.Policy, ghost before: NodeMetadata, ghost attached: Policies)
    returns (r: Result<(), string>)
    modifies node`metadata
    ensures r.Err? <==> old(Access(node)).Err?
    ensures Records(before, old(node.metadata), attached) ==>
      r.Ok? && Records(before, node.metadata, attached[policy.GKNN() := policy])
  {
    if node.metadata == None {
      node.metadata := Some(map[]);
    }
    var data := Access(node);
    if data.Err? {
      return Err(data.error);
    }
    node.metadata := With(node.metadata, EXTENSION, Attached(data.value[policy.GKNN() := policy]));
    return Ok(());
  }
}

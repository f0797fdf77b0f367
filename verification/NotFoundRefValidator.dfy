/** Reports references to objects that do not exist
    (pkg/extension/notfoundrefvalidator/notfoundrefvalidator.go). */
module NotFoundRefValidator {
  import opened Common
  import opened Metadata
  import opened Topology

  const EXTENSION := NOT_FOUND_REFERENCE_VALIDATOR

  function Access(node: Node): Result<Option<seq<RefError>>, string>
    reads node`metadata
  {
    match Entry(node.metadata, EXTENSION)
    case None => Ok(None)
    case Some(NotFound(errors)) => Ok(Some(errors))
    case Some(_) => Err("unable to perform type assertion")
  }

  /** Everything an object refers to through some of the relations. */
  function Refs(relations: seq<Relation>, obj: Resource): set<GKNN> {
    if relations == [] then {}
    else
      var last := relations[|relations| - 1];
      Refs(relations[..|relations| - 1], obj)
        + if last.from == obj.id.GK() then (set r | r in last.neighborFunc(obj)) else {}
  }

  /** The errors due for those references of `from` that are not `present`. */
  function Missing(from: GKNN, refs: set<GKNN>, present: set<GKNN>): set<RefError> {
    set r | r in refs && r !in present :: ReferenceToNonExistentResource(from, r)
  }

  /** The node records exactly these errors, each once, and has no entry if there are none. */
  ghost predicate Records(before: NodeMetadata, after: NodeMetadata, errors: set<RefError>) {
    && OnlyChanges(before, after, EXTENSION)
    && match Entry(after, EXTENSION)
       case None => errors == {}
       case Some(NotFound(recorded)) => recorded != [] && Distinct(recorded) && errors == (set e | e in recorded)
       case Some(_) => false
  }

  /** Adds an error that is not recorded yet; fails if the entry belongs to something else. */
  method PutErrorInNode(node: Node, notFoundErr: RefError, ghost before: NodeMetadata, ghost errors: set<RefError>)
    returns (r: Result<(), string>)
    modifies node`metadata
    ensures r.Err? <==> old(Access(node)).Err?
    ensures r.Err? ==> node.metadata == old(node.metadata)
    ensures Records(before, old(node.metadata), errors) ==>
      r.Ok? && Records(before, node.metadata, errors + {notFoundErr})
  {
    if node.metadata == None {
      node.metadata := Some(map[]);
    }
    var data := Access(node);
    if data.Err? {
      return Err(data.error);
    }
    var recorded := if data.value.None? then [] else data.value.value;
    if notFoundErr !in recorded {
      node.metadata := With(node.metadata, EXTENSION, NotFound(recorded + [notFoundErr]));
    }
    return Ok(());
  }

  /** The references of one node through one relation. */
  method ValidateNode(graph: Graph, node: Node, relation: Relation, ghost before: NodeMetadata, ghost seen: set<GKNN>)
    returns (r: Result<(), string>)
    requires Records(before, node.metadata, Missing(node.Id(), seen, graph.nodes.Keys))
    modifies node`metadata
    ensures r.Ok?
    ensures var refs := set t | t in relation.neighborFunc(node.obj);
      Records(before, node.metadata, Missing(node.Id(), seen + refs, graph.nodes.Keys))
  {
    var refs := relation.neighborFunc(node.obj);
    ghost var done := seen;
    hide Records;
    for j := 0 to |refs|
      invariant done == seen + (set t | t in refs[..j])
      invariant Records(before, node.metadata, Missing(node.Id(), done, graph.nodes.Keys))
    {
      var to := refs[j];
      var err := ReferenceToNonExistentResource(node.Id(), to);
      MissingMore(node.Id(), done, to, graph.nodes.Keys);
      if !graph.HasNode(to) {
        r := PutErrorInNode(node, err, before, Missing(node.Id(), done, graph.nodes.Keys));
        if r.Err? { return; }
      }
      done := done + {to};
    }
    assert refs[..|refs|] == refs;
    return Ok(());
  }

  lemma MissingMore(from: GKNN, refs: set<GKNN>, t: GKNN, present: set<GKNN>)
    ensures Missing(from, refs + {t}, present) ==
      Missing(from, refs, present) + if t in present then {} else {ReferenceToNonExistentResource(from, t)}
  {
  }

  /** What every node has to report of the references through `relations`. */
  ghost function Due(nodes: map<GKNN, Node>, relations: seq<Relation>): (due: map<GKNN, set<RefError>>)
    ensures due.Keys == nodes.Keys
  {
    map k | k in nodes :: Missing(k, Refs(relations, nodes[k].obj), nodes.Keys)
  }

  ghost predicate AllRecord(nodes: map<GKNN, Node>, before: map<GKNN, NodeMetadata>, due: map<GKNN, set<RefError>>)
    requires nodes.Keys == before.Keys == due.Keys
    reads nodes.Values`metadata
  {
    forall k :: k in nodes ==> Records(before[k], nodes[k].metadata, due[k])
  }

  /** Main result: whatever the graph, every node ends up with exactly the references that do not lead to a
      node of the graph, each once, nothing stale, and its other metadata as before. */
  method Execute(graph: Graph) returns (r: Result<(), string>)
    requires Keyed(graph.nodes)
    modifies graph.nodes.Values`metadata
    ensures r.Ok?
    ensures AllRecord(graph.nodes, old(AllMetadata(graph.nodes)), Due(graph.nodes, graph.relations))
  {
    hide AllRecord, Due, Without;
    graph.RemoveMetadata(EXTENSION);
    ghost var nodes, before := graph.nodes, old(AllMetadata(graph.nodes));
    NothingDue(nodes, before);
    for i := 0 to |graph.relations|
      invariant AllRecord(nodes, before, Due(nodes, graph.relations[..i]))
    {
      r := ValidateRelation(graph, before, i);
      if r.Err? { return; }
    }
    assert graph.relations[..|graph.relations|] == graph.relations;
    return Ok(());
  }

  lemma NothingDue(nodes: map<GKNN, Node>, before: map<GKNN, NodeMetadata>)
    requires nodes.Keys == before.Keys && forall k :: k in nodes ==> nodes[k].metadata == Without(before[k], EXTENSION)
    ensures Due(nodes, []).Keys == nodes.Keys && AllRecord(nodes, before, Due(nodes, []))
  {
  }

  method ValidateRelation(graph: Graph, ghost before: map<GKNN, NodeMetadata>, i: nat) returns (r: Result<(), string>)
    requires Keyed(graph.nodes) && graph.nodes.Keys == before.Keys && i < |graph.relations|
    requires AllRecord(graph.nodes, before, Due(graph.nodes, graph.relations[..i]))
    modifies graph.nodes.Values`metadata
    ensures r.Ok? && AllRecord(graph.nodes, before, Due(graph.nodes, graph.relations[..i + 1]))
  {
    hide *;
    var relation := graph.relations[i];
    ghost var nodes := graph.nodes;
    ghost var now, next := Due(nodes, graph.relations[..i]), Due(nodes, graph.relations[..i + 1]);
    DueNext(nodes, graph.relations, i);
    var todo := set k | k in graph.nodes && k.GK() == relation.from;
    MixedEnds(now, next, todo);
    while todo != {}
      invariant forall k :: k in todo ==> k in nodes && k.GK() == relation.from
      invariant AllRecord(nodes, before, Mixed(now, next, todo))
    {
      var from :| from in todo;
      MixedNext(now, next, todo, from);
      r := ValidateOne(graph, from, i, before, Mixed(now, next, todo));
      if r.Err? { return; }
      todo := todo - {from};
    }
    MixedEnds(now, next, todo);
    return Ok(());
  }

  /** What is due while the nodes in `todo` have still to be validated. */
  ghost function Mixed(now: map<GKNN, set<RefError>>, next: map<GKNN, set<RefError>>, todo: set<GKNN>)
    : (due: map<GKNN, set<RefError>>)
    requires now.Keys == next.Keys
    ensures due.Keys == now.Keys
  {
    map k | k in now :: if k in todo then now[k] else next[k]
  }

  lemma MixedNext(now: map<GKNN, set<RefError>>, next: map<GKNN, set<RefError>>, todo: set<GKNN>, k: GKNN)
    requires now.Keys == next.Keys && k in todo && k in now
    ensures Mixed(now, next, todo)[k] == now[k] && Mixed(now, next, todo)[k := next[k]] == Mixed(now, next, todo - {k})
  {
  }

  lemma MixedEnds(now: map<GKNN, set<RefError>>, next: map<GKNN, set<RefError>>, todo: set<GKNN>)
    requires now.Keys == next.Keys
    ensures (forall k :: k in now && k !in todo ==> next[k] == now[k]) ==> Mixed(now, next, todo) == now
    ensures Mixed(now, next, {}) == next
  {
  }

  method ValidateOne(graph: Graph, from: GKNN, i: nat, ghost before: map<GKNN, NodeMetadata>,
                     ghost due: map<GKNN, set<RefError>>)
    returns (r: Result<(), string>)
    requires Keyed(graph.nodes) && graph.nodes.Keys == before.Keys == due.Keys && AllRecord(graph.nodes, before, due)
    requires i < |graph.relations| && from in graph.nodes && graph.relations[i].from == from.GK()
    requires due[from] == Due(graph.nodes, graph.relations[..i])[from]
    modifies graph.nodes.Values`metadata
    ensures r.Ok? && AllRecord(graph.nodes, before, due[from := Due(graph.nodes, graph.relations[..i + 1])[from]])
  {
    DueNext(graph.nodes, graph.relations, i);
    hide Records, Refs;
    r := ValidateNode(graph, graph.nodes[from], graph.relations[i], before[from],
                      Refs(graph.relations[..i], graph.nodes[from].obj));
  }

  lemma DueNext(nodes: map<GKNN, Node>, relations: seq<Relation>, i: nat)
    requires i < |relations| && Keyed(nodes)
    ensures Due(nodes, relations[..i]).Keys == Due(nodes, relations[..i + 1]).Keys == nodes.Keys
    ensures forall k :: k in nodes && k.GK() != relations[i].from ==>
      Due(nodes, relations[..i + 1])[k] == Due(nodes, relations[..i])[k]
    ensures forall k :: k in nodes && k.GK() == relations[i].from ==>
      (Due(nodes, relations[..i + 1])[k] ==
       Missing(k, Refs(relations[..i], nodes[k].obj) + (set t | t in relations[i].neighborFunc(nodes[k].obj)),
               nodes.Keys))
  {
    hide Missing, Refs;
    forall k | k in nodes { RefsLast(relations, i, nodes[k].obj); }
    assert forall k :: k in nodes ==> Refs(relations[..i], nodes[k].obj) + {} == Refs(relations[..i], nodes[k].obj);
  }

  lemma RefsLast(relations: seq<Relation>, i: nat, obj: Resource)
    requires i < |relations|
    ensures Refs(relations[..i + 1], obj) == Refs(relations[..i], obj)
      + if relations[i].from == obj.id.GK() then (set t | t in relations[i].neighborFunc(obj)) else {}
  {
    assert relations[..i + 1][..i] == relations[..i];
  }
}

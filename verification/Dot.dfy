/** The DOT graph of a topology (pkg/topology/gateway/graphviz.go): what is drawn, as lists of clusters, nodes
    and edges; the text that the dot library makes of it is not part of the model. */
module Dot {
  import opened Common
  import opened Builder
  import opened Cluster
  import opened Gateway
  import opened Identity
  import opened Sorting
  import opened Topology
  import Strings

  datatype DotNode = DotNode(id: GKNN, cluster: Option<string>, caption: string, color: string)

  datatype DotEdge = DotEdge(tail: DotNode, head: DotNode, caption: string, back: bool)

  datatype DotGraph = DotGraph(clusters: seq<string>, nodes: seq<DotNode>, edges: seq<DotEdge>)

  function KindString(gk: GroupKind): string {
    if gk.group == "" then gk.kind else gk.kind + "." + gk.group
  }

  function NameString(g: GKNN): string {
    g.namespace + "/" + g.name
  }

  function MapNodeColor(g: GKNN): string {
    if g.GK() == GATEWAY_CLASS_GK then "#e5e9f0"
    else if g.GK() == GATEWAY_GK then "#ebcb8b"
    else if g.GK() == HTTP_ROUTE_GK then "#a3be8c"
    else if g.GK() == SERVICE_GK then "#88c0d0"
    else "#d8dee9"
  }

  // ---------------------------------------------------------------- what is to be drawn

  /** How a node is drawn: in the cluster of its namespace, if it has one. */
  function DrawNode(g: GKNN): DotNode {
    var gk := if g.group == GATEWAY_GROUP then GroupKind("", g.kind) else g.GK();
    DotNode(g, if g.namespace == "" then None else Some(g.namespace), KindString(gk) + "\n" + g.name, MapNodeColor(g))
  }

  /** Edges from HTTPRoutes to Services are drawn from the Service, with the arrow back. */
  predicate Reversed(e: Edge) {
    e.src.GK() == HTTP_ROUTE_GK && e.dst.GK() == SERVICE_GK
  }

  function DrawEdge(e: Edge): DotEdge {
    if Reversed(e) then DotEdge(DrawNode(e.dst), DrawNode(e.src), e.rel.name, true)
    else DotEdge(DrawNode(e.src), DrawNode(e.dst), e.rel.name, false)
  }

  /** Namespaces are clusters, not nodes. */
  ghost function Drawn(nodes: map<GKNN, Node>): set<GKNN> {
    set k | k in nodes && k.GK() != NAMESPACE_GK
  }

  ghost function Clusters(nodes: map<GKNN, Node>): set<string> {
    set k | k in Drawn(nodes) && k.namespace != "" :: k.namespace
  }

  /** The references of `from` through `relation` that are drawn. */
  ghost function DrawnBy(from: Node, relation: Relation): set<Edge>
    reads from`outNeighbors
  {
    set p | p in from.outNeighbors && p.0 == relation && p.1.GK() != NAMESPACE_GK :: Edge(from.Id(), relation, p.1)
  }

  ghost function DrawnFrom(from: Node): set<Edge>
    reads from`outNeighbors
  {
    set p | p in from.outNeighbors && p.1.GK() != NAMESPACE_GK :: Edge(from.Id(), p.0, p.1)
  }

  ghost function DrawnEdges(nodes: map<GKNN, Node>): set<Edge>
    reads nodes.Values`outNeighbors
  {
    set k, p | k in nodes && k.GK() != NAMESPACE_GK && p in nodes[k].outNeighbors && p.1.GK() != NAMESPACE_GK ::
      Edge(k, p.0, p.1)
  }

  /** `drawn` are the drawings of `edges`, one for each. */
  ghost predicate Draws(drawn: seq<DotEdge>, edges: seq<Edge>) {
    |drawn| == |edges| && forall i :: 0 <= i < |edges| ==> drawn[i] == DrawEdge(edges[i])
  }

  // ---------------------------------------------------------------- the order

  /** Identities can be told apart when printed, and the relations of a node by their names. */
  ghost predicate Distinguishable(nodes: map<GKNN, Node>)
    reads nodes.Values`outNeighbors
  {
    forall k :: k in nodes ==> Plain(k) && NamedApart(nodes[k])
  }

  ghost predicate NamedApart(node: Node)
    reads node`outNeighbors
  {
    && (forall p | p in node.outNeighbors :: Plain(p.1))
    && (forall p, q | p in node.outNeighbors && q in node.outNeighbors && p.0.name == q.0.name :: p.0 == q.0)
  }

  /** The order in which edges are drawn. */
  predicate Before(a: Edge, b: Edge) {
    if a.src != b.src then Strings.Less(String(a.src), String(b.src))
    else if a.rel != b.rel then Strings.Less(a.rel.name, b.rel.name)
    else Strings.Less(String(a.dst), String(b.dst))
  }

  lemma BeforeAsymmetric(a: Edge, b: Edge)
    requires Before(a, b)
    ensures !Before(b, a)
  {
    var (s, t) := if a.src != b.src then (String(a.src), String(b.src))
                  else if a.rel != b.rel then (a.rel.name, b.rel.name) else (String(a.dst), String(b.dst));
    if Strings.Less(t, s) {
      Strings.LessTransitive(s, t, s);
      Strings.LessIrreflexive(s);
    }
  }

  // ---------------------------------------------------------------- drawing

  lemma Nothing()
    ensures Lists<Edge>({}, []) && Draws([], []) && Ordered<Edge>([], Before)
  {
  }

  lemma Single(e: Edge)
    ensures Lists({e}, [e]) && Ordered([e], Before)
  {
  }

  lemma DrawsMore(drawn: seq<DotEdge>, edges: seq<Edge>, more: seq<DotEdge>, moreEdges: seq<Edge>)
    requires Draws(drawn, edges) && Draws(more, moreEdges)
    ensures Draws(drawn + more, edges + moreEdges)
  {
    hide DrawEdge;
  }

  /** The edges to some of the targets that are drawn. */
  ghost function DrawnTo(from: GKNN, relation: Relation, targets: seq<GKNN>): set<Edge> {
    set t | t in targets && t.GK() != NAMESPACE_GK :: Edge(from, relation, t)
  }

  /** One more target, in the order of the targets. */
  lemma DrawnToNext(from: GKNN, relation: Relation, targets: set<GKNN>, sorted: seq<GKNN>, i: nat, e: Edge)
    requires Lists(targets, sorted) && SortedBy(sorted, String) && i < |sorted| && e == Edge(from, relation, sorted[i])
    ensures DrawnTo(from, relation, sorted[..i + 1]) ==
      if sorted[i].GK() == NAMESPACE_GK then DrawnTo(from, relation, sorted[..i])
      else DrawnTo(from, relation, sorted[..i]) + {e}
    ensures DrawnTo(from, relation, sorted[..i]) !! {e}
    ensures (forall t :: t in targets ==> Plain(t)) ==>
      forall x, y | x in DrawnTo(from, relation, sorted[..i]) && y in {e} :: Before(x, y)
  {
    hide String, Plain;
    assert sorted[..i + 1] == sorted[..i] + [sorted[i]];
    if forall t :: t in targets ==> Plain(t) {
      forall x | x in DrawnTo(from, relation, sorted[..i]) ensures Before(x, e) {
        var j :| 0 <= j < i && sorted[j] == x.dst;
        Strings.LessTotal(String(x.dst), String(e.dst));
        if String(x.dst) == String(e.dst) { StringInjective(x.dst, e.dst); }
      }
    }
  }

  lemma AllDrawnTo(from: Node, relation: Relation, targets: set<GKNN>, sorted: seq<GKNN>)
    requires Lists(targets, sorted) && targets == set p | p in from.outNeighbors && p.0 == relation :: p.1
    ensures sorted[..|sorted|] == sorted && DrawnTo(from.Id(), relation, sorted) == DrawnBy(from, relation)
    ensures NamedApart(from) ==> forall t :: t in targets ==> Plain(t)
  {
  }

  /** Draws what a node refers to through one relation. */
  method DrawRelation(from: Node, relation: Relation, dotNodeMap: map<GKNN, DotNode>)
    returns (drawn: seq<DotEdge>, ghost edges: seq<Edge>)
    requires from.Id() in dotNodeMap && IsNodeMap(dotNodeMap)
    requires forall p | p in from.outNeighbors && p.1.GK() != NAMESPACE_GK :: p.1 in dotNodeMap
    ensures Lists(DrawnBy(from, relation), edges) && Draws(drawn, edges)
    ensures NamedApart(from) ==> Ordered(edges, Before)
  {
    hide Before, String, DrawNode, Lists, SortedBy, Draws, Ordered, NamedApart;
    var targets := set p | p in from.outNeighbors && p.0 == relation :: p.1;
    var sorted := SortBy(targets, String);
    AllDrawnTo(from, relation, targets, sorted);
    drawn, edges := [], [];
    Nothing();
    assert DrawnTo(from.Id(), relation, sorted[..0]) == {};
    for i := 0 to |sorted|
      invariant Lists(DrawnTo(from.Id(), relation, sorted[..i]), edges) && Draws(drawn, edges)
      invariant NamedApart(from) ==> Ordered(edges, Before)
    {
      var to := sorted[i];
      ghost var e := Edge(from.Id(), relation, to);
      DrawnToNext(from.Id(), relation, targets, sorted, i, e);
      if to.GK() == NAMESPACE_GK {
        // The Namespace is shown as a cluster.
        continue;
      }
      TargetInMap(from, relation, targets, sorted, i, dotNodeMap);
      var reverse := from.Id().GK() == HTTP_ROUTE_GK && to.GK() == SERVICE_GK;
      var u, v := dotNodeMap[from.Id()], dotNodeMap[to];
      if reverse {
        u, v := v, u;
      }
      Single(e);
      AppendLists(DrawnTo(from.Id(), relation, sorted[..i]), {e}, edges, [e]);
      if NamedApart(from) { AppendOrdered(DrawnTo(from.Id(), relation, sorted[..i]), {e}, edges, [e], Before); }
      DrawsOne(e, DotEdge(u, v, relation.name, reverse));
      DrawsMore(drawn, edges, [DotEdge(u, v, relation.name, reverse)], [e]);
      drawn := drawn + [DotEdge(u, v, relation.name, reverse)];
      edges := edges + [e];
    }
  }

  lemma DrawsOne(e: Edge, d: DotEdge)
    requires d == DrawEdge(e)
    ensures Draws([d], [e])
  {
  }

  lemma TargetInMap(from: Node, relation: Relation, targets: set<GKNN>, sorted: seq<GKNN>, i: nat,
                    dotNodeMap: map<GKNN, DotNode>)
    requires Lists(targets, sorted) && targets == (set p | p in from.outNeighbors && p.0 == relation :: p.1)
    requires i < |sorted|
    requires forall p | p in from.outNeighbors && p.1.GK() != NAMESPACE_GK :: p.1 in dotNodeMap
    ensures sorted[i].GK() != NAMESPACE_GK ==> sorted[i] in dotNodeMap
  {
  }

  /** The references of a node through some relations that are drawn. */
  ghost function DrawnThrough(from: Node, relations: seq<Relation>): set<Edge>
    reads from`outNeighbors
  {
    set p | p in from.outNeighbors && p.0 in relations && p.1.GK() != NAMESPACE_GK :: Edge(from.Id(), p.0, p.1)
  }

  function RelationName(relation: Relation): string {
    relation.name
  }

  /** One more relation, in the order of the names. */
  lemma DrawnThroughNext(from: Node, relations: set<Relation>, sorted: seq<Relation>, i: nat)
    requires Lists(relations, sorted) && SortedBy(sorted, RelationName) && i < |sorted|
    requires relations == set p | p in from.outNeighbors :: p.0
    ensures DrawnThrough(from, sorted[..i + 1]) == DrawnThrough(from, sorted[..i]) + DrawnBy(from, sorted[i])
    ensures DrawnThrough(from, sorted[..i]) !! DrawnBy(from, sorted[i])
    ensures NamedApart(from) ==>
      forall x, y | x in DrawnThrough(from, sorted[..i]) && y in DrawnBy(from, sorted[i]) :: Before(x, y)
  {
    hide String, Plain;
    assert sorted[..i + 1] == sorted[..i] + [sorted[i]];
    if NamedApart(from) {
      forall x, y | x in DrawnThrough(from, sorted[..i]) && y in DrawnBy(from, sorted[i]) ensures Before(x, y) {
        var j :| 0 <= j < i && sorted[j] == x.rel;
        Strings.LessTotal(x.rel.name, y.rel.name);
        assert (x.rel, x.dst) in from.outNeighbors && (y.rel, y.dst) in from.outNeighbors;
      }
    }
  }

  lemma AllDrawnThrough(from: Node, relations: set<Relation>, sorted: seq<Relation>)
    requires Lists(relations, sorted) && relations == set p | p in from.outNeighbors :: p.0
    ensures sorted[..|sorted|] == sorted && DrawnThrough(from, sorted) == DrawnFrom(from)
  {
  }

  /** Draws what a node refers to. */
  method DrawEdgesOf(from: Node, dotNodeMap: map<GKNN, DotNode>) returns (drawn: seq<DotEdge>, ghost edges: seq<Edge>)
    requires from.Id() in dotNodeMap && IsNodeMap(dotNodeMap)
    requires forall p | p in from.outNeighbors && p.1.GK() != NAMESPACE_GK :: p.1 in dotNodeMap
    ensures Lists(DrawnFrom(from), edges) && Draws(drawn, edges)
    ensures NamedApart(from) ==> Ordered(edges, Before)
  {
    hide Before, DrawNode, Lists, SortedBy, Draws, Ordered, NamedApart, DrawnBy, DrawnThrough, DrawnFrom;
    var relations := set p | p in from.outNeighbors :: p.0;
    var sorted := SortBy(relations, RelationName);
    AllDrawnThrough(from, relations, sorted);
    drawn, edges := [], [];
    Nothing();
    NothingThrough(from);
    for i := 0 to |sorted|
      invariant Lists(DrawnThrough(from, sorted[..i]), edges) && Draws(drawn, edges)
      invariant NamedApart(from) ==> Ordered(edges, Before)
    {
      DrawnThroughNext(from, relations, sorted, i);
      var more, moreEdges := DrawRelation(from, sorted[i], dotNodeMap);
      AppendLists(DrawnThrough(from, sorted[..i]), DrawnBy(from, sorted[i]), edges, moreEdges);
      if NamedApart(from) {
        AppendOrdered(DrawnThrough(from, sorted[..i]), DrawnBy(from, sorted[i]), edges, moreEdges, Before);
      }
      DrawsMore(drawn, edges, more, moreEdges);
      drawn := drawn + more;
      edges := edges + moreEdges;
    }
  }

  lemma NothingThrough(from: Node)
    ensures DrawnThrough(from, []) == {}
  {
  }

  /** The references of some nodes that are drawn. */
  ghost function DrawnAmong(nodes: map<GKNN, Node>, froms: seq<GKNN>): set<Edge>
    reads nodes.Values`outNeighbors
  {
    set k, p | k in nodes && k in froms && p in nodes[k].outNeighbors && p.1.GK() != NAMESPACE_GK :: Edge(k, p.0, p.1)
  }

  lemma DrawnAmongNext(nodes: map<GKNN, Node>, ids: set<GKNN>, sorted: seq<GKNN>, i: nat)
    requires Keyed(nodes) && Lists(ids, sorted) && SortedBy(sorted, String) && i < |sorted| && ids == Drawn(nodes)
    ensures sorted[i] in ids && sorted[i] in nodes && nodes[sorted[i]].Id() == sorted[i]
    ensures DrawnAmong(nodes, sorted[..i + 1]) == DrawnAmong(nodes, sorted[..i]) + DrawnFrom(nodes[sorted[i]])
    ensures DrawnAmong(nodes, sorted[..i]) !! DrawnFrom(nodes[sorted[i]])
    ensures Distinguishable(nodes) ==>
      forall x, y | x in DrawnAmong(nodes, sorted[..i]) && y in DrawnFrom(nodes[sorted[i]]) :: Before(x, y)
  {
    hide String, Plain;
    assert sorted[..i + 1] == sorted[..i] + [sorted[i]];
    assert sorted[i] in ids;
    if Distinguishable(nodes) {
      forall x, y | x in DrawnAmong(nodes, sorted[..i]) && y in DrawnFrom(nodes[sorted[i]]) ensures Before(x, y) {
        var j :| 0 <= j < i && sorted[j] == x.src;
        assert sorted[j] in ids;
        Strings.LessTotal(String(x.src), String(y.src));
        if String(x.src) == String(y.src) { StringInjective(x.src, y.src); }
      }
    }
  }

  lemma AllDrawnAmong(nodes: map<GKNN, Node>, ids: set<GKNN>, sorted: seq<GKNN>)
    requires Lists(ids, sorted) && ids == Drawn(nodes)
    ensures sorted[..|sorted|] == sorted && DrawnAmong(nodes, sorted) == DrawnEdges(nodes)
    ensures DrawnAmong(nodes, []) == {}
  {
  }

  /** Draws the edges of the graph. */
  method DrawEdges(nodes: map<GKNN, Node>, dotNodeMap: map<GKNN, DotNode>)
    returns (drawn: seq<DotEdge>, ghost edges: seq<Edge>)
    requires Keyed(nodes) && OutClosed(nodes)
    requires dotNodeMap.Keys == Drawn(nodes) && IsNodeMap(dotNodeMap)
    ensures Lists(DrawnEdges(nodes), edges) && Draws(drawn, edges)
    ensures Distinguishable(nodes) ==> Ordered(edges, Before)
  {
    hide Before, String, DrawNode, Lists, SortedBy, Draws, Ordered, NamedApart, DrawnFrom, DrawnAmong, DrawnEdges;
    var sorted := SortBy(dotNodeMap.Keys, String);
    AllDrawnAmong(nodes, dotNodeMap.Keys, sorted);
    drawn, edges := [], [];
    Nothing();
    for i := 0 to |sorted|
      invariant Lists(DrawnAmong(nodes, sorted[..i]), edges) && Draws(drawn, edges)
      invariant Distinguishable(nodes) ==> Ordered(edges, Before)
    {
      DrawnAmongNext(nodes, dotNodeMap.Keys, sorted, i);
      var from := nodes[sorted[i]];
      var more, moreEdges := DrawEdgesOf(from, dotNodeMap);
      AppendLists(DrawnAmong(nodes, sorted[..i]), DrawnFrom(from), edges, moreEdges);
      if Distinguishable(nodes) {
        AppendOrdered(DrawnAmong(nodes, sorted[..i]), DrawnFrom(from), edges, moreEdges, Before);
      }
      DrawsMore(drawn, edges, more, moreEdges);
      drawn := drawn + more;
      edges := edges + moreEdges;
    }
  }

  // ---------------------------------------------------------------- nodes and clusters

  /** The order in which nodes are drawn. */
  predicate IdBefore(a: GKNN, b: GKNN) {
    if a.GK() != b.GK() then Strings.Less(KindString(a.GK()), KindString(b.GK()))
    else Strings.Less(NameString(a), NameString(b))
  }

  lemma IdBeforeAsymmetric(a: GKNN, b: GKNN)
    requires IdBefore(a, b)
    ensures !IdBefore(b, a)
  {
    var (s, t) := if a.GK() != b.GK() then (KindString(a.GK()), KindString(b.GK())) else (NameString(a), NameString(b));
    if Strings.Less(t, s) {
      Strings.LessTransitive(s, t, s);
      Strings.LessIrreflexive(s);
    }
  }

  lemma KindsApart(a: GKNN, b: GKNN)
    requires Plain(a) && Plain(b)
    ensures KindString(a.GK()) == KindString(b.GK()) ==> a.GK() == b.GK()
    ensures a.GK() == b.GK() && NameString(a) == NameString(b) ==> a == b
  {
    if KindString(a.GK()) == KindString(b.GK()) {
      StringInjective(GKNN(a.group, a.kind, "", ""), GKNN(b.group, b.kind, "", ""));
    }
    if NameString(a) == NameString(b) {
      assert a.namespace + ['/'] + a.name == b.namespace + ['/'] + b.name;
      Strings.JoinInjective(a.namespace, a.name, b.namespace, b.name, '/');
    }
  }

  /** `drawn` are the drawings of the nodes `ids`, one for each. */
  ghost predicate DrawsNodes(drawn: seq<DotNode>, ids: seq<GKNN>) {
    |drawn| == |ids| && forall i :: 0 <= i < |ids| ==> drawn[i] == DrawNode(ids[i])
  }

  ghost predicate IsNodeMap(dotNodeMap: map<GKNN, DotNode>) {
    forall k :: k in dotNodeMap ==> dotNodeMap[k] == DrawNode(k)
  }

  ghost predicate AllPlain(ids: set<GKNN>) {
    forall k :: k in ids ==> Plain(k)
  }

  ghost function OfGroupKind(ids: set<GKNN>, gks: seq<GroupKind>): set<GKNN> {
    set k | k in ids && k.GK() in gks
  }

  /** Draws the nodes of one kind. */
  method DrawKind(ids: set<GKNN>, clusterMap: set<string>, dotNodeMap0: map<GKNN, DotNode>)
    returns (drawn: seq<DotNode>, dotNodeMap: map<GKNN, DotNode>, ghost order: seq<GKNN>)
    requires forall k :: k in ids && k.namespace != "" ==> k.namespace in clusterMap
    requires (forall k, l :: k in ids && l in ids ==> k.GK() == l.GK()) && IsNodeMap(dotNodeMap0)
    ensures dotNodeMap.Keys == dotNodeMap0.Keys + ids && IsNodeMap(dotNodeMap)
    ensures Lists(ids, order) && DrawsNodes(drawn, order)
    ensures AllPlain(ids) ==> Ordered(order, IdBefore)
  {
    hide KindString, Plain, NameString, DrawsNodes, IsNodeMap, DrawNode, Lists, SortedBy, Ordered, AllPlain;
    var sorted := SortBy(ids, NameString);
    order := sorted;
    drawn, dotNodeMap := [], dotNodeMap0;
    AllListed(ids, sorted);
    NoNodes();
    for i := 0 to |sorted|
      invariant DrawsNodes(drawn, sorted[..i])
      invariant dotNodeMap.Keys == dotNodeMap0.Keys + (set j | 0 <= j < i :: sorted[j]) && IsNodeMap(dotNodeMap)
    {
      var g := sorted[i];
      var dotNode := MakeNode(g, clusterMap);
      NodesNext(drawn, sorted, i, dotNode, dotNodeMap);
      drawn := drawn + [dotNode];
      dotNodeMap := dotNodeMap[g := dotNode];
    }
    if AllPlain(ids) { SortedNamesOrdered(ids, sorted); }
  }

  method MakeNode(g: GKNN, clusterMap: set<string>) returns (dotNode: DotNode)
    requires g.namespace != "" ==> g.namespace in clusterMap
    ensures dotNode == DrawNode(g)
  {
    hide KindString;
    var targetGraph: Option<string> := None;
    if g.namespace != "" {
      assert g.namespace in clusterMap;
      targetGraph := Some(g.namespace);
    }
    var gk := g.GK();
    if gk.group == GATEWAY_GROUP {
      gk := GroupKind("", gk.kind);
    }
    dotNode := DotNode(g, targetGraph, KindString(gk) + "\n" + g.name, MapNodeColor(g));
  }

  lemma AllListed(ids: set<GKNN>, sorted: seq<GKNN>)
    requires Lists(ids, sorted)
    ensures sorted[..|sorted|] == sorted && (set j | 0 <= j < |sorted| :: sorted[j]) == ids
    ensures forall i :: 0 <= i < |sorted| ==> sorted[i] in ids
  {
  }

  lemma NodesNext(drawn: seq<DotNode>, sorted: seq<GKNN>, i: nat, dotNode: DotNode, dotNodeMap: map<GKNN, DotNode>)
    requires i < |sorted| && DrawsNodes(drawn, sorted[..i]) && dotNode == DrawNode(sorted[i]) && IsNodeMap(dotNodeMap)
    ensures DrawsNodes(drawn + [dotNode], sorted[..i + 1]) && IsNodeMap(dotNodeMap[sorted[i] := dotNode])
  {
    hide DrawNode;
  }

  lemma SortedNamesOrdered(ids: set<GKNN>, sorted: seq<GKNN>)
    requires AllPlain(ids) && Lists(ids, sorted) && SortedBy(sorted, NameString)
    requires forall k, l :: k in ids && l in ids ==> k.GK() == l.GK()
    ensures Ordered(sorted, IdBefore)
  {
    hide KindString, Plain, NameString;
    forall i, j | 0 <= i < j < |sorted| ensures IdBefore(sorted[i], sorted[j]) {
      assert sorted[i] in ids && sorted[j] in ids;
      Strings.LessTotal(NameString(sorted[i]), NameString(sorted[j]));
      KindsApart(sorted[i], sorted[j]);
    }
  }

  /** One more kind, in the order of the kinds. */
  lemma OfGroupKindNext(ids: set<GKNN>, gks: set<GroupKind>, sorted: seq<GroupKind>, i: nat)
    requires Lists(gks, sorted) && SortedBy(sorted, KindString) && i < |sorted|
    ensures OfGroupKind(ids, sorted[..i + 1]) == OfGroupKind(ids, sorted[..i]) + OfGroupKind(ids, [sorted[i]])
    ensures OfGroupKind(ids, sorted[..i]) !! OfGroupKind(ids, [sorted[i]])
    ensures AllPlain(ids) ==>
      forall x, y | x in OfGroupKind(ids, sorted[..i]) && y in OfGroupKind(ids, [sorted[i]]) :: IdBefore(x, y)
  {
    hide KindString, Plain, NameString;
    assert sorted[..i + 1] == sorted[..i] + [sorted[i]];
    if AllPlain(ids) {
      forall x, y | x in OfGroupKind(ids, sorted[..i]) && y in OfGroupKind(ids, [sorted[i]]) ensures IdBefore(x, y) {
        var j :| 0 <= j < i && sorted[j] == x.GK();
        Strings.LessTotal(KindString(x.GK()), KindString(y.GK()));
        KindsApart(x, y);
      }
    }
  }

  lemma AllGroupKinds(ids: set<GKNN>, gks: set<GroupKind>, sorted: seq<GroupKind>)
    requires Lists(gks, sorted) && gks == set k | k in ids :: k.GK()
    ensures sorted[..|sorted|] == sorted && OfGroupKind(ids, sorted) == ids && OfGroupKind(ids, []) == {}
  {
  }

  /** Draws the nodes, kind by kind. */
  method DrawNodes(ids: set<GKNN>, clusterMap: set<string>)
    returns (drawn: seq<DotNode>, dotNodeMap: map<GKNN, DotNode>, ghost order: seq<GKNN>)
    requires forall k :: k in ids && k.namespace != "" ==> k.namespace in clusterMap
    ensures dotNodeMap.Keys == ids && IsNodeMap(dotNodeMap)
    ensures Lists(ids, order) && DrawsNodes(drawn, order)
    ensures AllPlain(ids) ==> Ordered(order, IdBefore)
  {
    hide KindString, IdBefore, Lists, Ordered, SortedBy, DrawsNodes, OfGroupKind, AllPlain, IsNodeMap;
    var gks := set k | k in ids :: k.GK();
    var sorted := SortBy(gks, KindString);
    AllGroupKinds(ids, gks, sorted);
    drawn, dotNodeMap, order := [], map[], [];
    NoNodes();
    for i := 0 to |sorted|
      invariant dotNodeMap.Keys == OfGroupKind(ids, sorted[..i]) && IsNodeMap(dotNodeMap)
      invariant Lists(OfGroupKind(ids, sorted[..i]), order) && DrawsNodes(drawn, order)
      invariant AllPlain(ids) ==> Ordered(order, IdBefore)
    {
      OfGroupKindNext(ids, gks, sorted, i);
      var nodeMap := set k | k in ids && k.GK() == sorted[i];
      OneGroupKind(ids, sorted[i], nodeMap);
      var more, moreNodes, moreOrder := DrawKind(nodeMap, clusterMap, dotNodeMap);
      AppendLists(OfGroupKind(ids, sorted[..i]), nodeMap, order, moreOrder);
      if AllPlain(ids) { AppendOrdered(OfGroupKind(ids, sorted[..i]), nodeMap, order, moreOrder, IdBefore); }
      NodesMore(drawn, order, more, moreOrder);
      drawn, dotNodeMap := drawn + more, moreNodes;
      order := order + moreOrder;
    }
  }

  lemma NoNodes()
    ensures IsNodeMap(map[]) && Lists<GKNN>({}, []) && DrawsNodes([], []) && Ordered<GKNN>([], IdBefore)
  {
  }

  lemma OneGroupKind(ids: set<GKNN>, gk: GroupKind, nodeMap: set<GKNN>)
    requires nodeMap == set k | k in ids && k.GK() == gk
    ensures nodeMap == OfGroupKind(ids, [gk]) && (AllPlain(ids) ==> AllPlain(nodeMap))
  {
  }

  lemma NodesMore(drawn: seq<DotNode>, order: seq<GKNN>, more: seq<DotNode>, moreOrder: seq<GKNN>)
    requires DrawsNodes(drawn, order) && DrawsNodes(more, moreOrder)
    ensures DrawsNodes(drawn + more, order + moreOrder)
  {
    hide DrawNode;
  }

  // ---------------------------------------------------------------- the whole graph

  function Same(s: string): string {
    s
  }

  /** The drawing of a graph: every namespace of a drawn node as a cluster, every node that is no Namespace,
      and every reference between two such nodes, each once. */
  ghost predicate IsDrawing(nodes: map<GKNN, Node>, dot: DotGraph, order: seq<GKNN>, edges: seq<Edge>)
    reads nodes.Values`outNeighbors
  {
    && Lists(Clusters(nodes), dot.clusters) && SortedBy(dot.clusters, Same)
    && Lists(Drawn(nodes), order) && DrawsNodes(dot.nodes, order)
    && Lists(DrawnEdges(nodes), edges) && Draws(dot.edges, edges)
    && (Distinguishable(nodes) ==> Ordered(order, IdBefore) && Ordered(edges, Before))
  }

  method ToDot(graph: Graph) returns (dot: DotGraph)
    requires Keyed(graph.nodes) && OutClosed(graph.nodes)
    ensures exists order, edges :: IsDrawing(graph.nodes, dot, order, edges)
  {
    hide Distinguishable, Lists, SortedBy, Draws, DrawsNodes, Ordered, DrawnEdges, DrawNode, AllPlain, Keyed, OutClosed;
    var ids := set k | k in graph.nodes && k.GK() != NAMESPACE_GK;
    var namespaces := set k | k in ids && k.namespace != "" :: k.namespace;
    var clusters := SortBy(namespaces, Same);
    var drawnNodes, dotNodeMap, order := DrawNodes(ids, namespaces);
    var drawnEdges, edges := DrawEdges(graph.nodes, dotNodeMap);
    DistinguishableIsPlain(graph.nodes);
    assert namespaces == Clusters(graph.nodes);
    dot := DotGraph(clusters, drawnNodes, drawnEdges);
    assert IsDrawing(graph.nodes, dot, order, edges);
  }

  lemma DistinguishableIsPlain(nodes: map<GKNN, Node>)
    ensures Distinguishable(nodes) ==> AllPlain(Drawn(nodes))
  {
  }

  /** Main result on faithfulness: the drawn edges are in one-to-one correspondence with the references
      between nodes that are no Namespaces, their ends and clusters have been drawn as well, and between an
      HTTPRoute and a Service they always lead from the Service. */
  lemma DrawnExactly(nodes: map<GKNN, Node>, dot: DotGraph)
    requires OutClosed(nodes) && exists order, edges :: IsDrawing(nodes, dot, order, edges)
    ensures |dot.edges| == |DrawnEdges(nodes)| && forall e :: e in DrawnEdges(nodes) ==> DrawEdge(e) in dot.edges
    ensures |dot.nodes| == |Drawn(nodes)| && forall k :: k in Drawn(nodes) ==> DrawNode(k) in dot.nodes
    ensures forall d :: d in dot.edges ==> d.tail in dot.nodes && d.head in dot.nodes
    ensures forall n :: n in dot.nodes && n.cluster.Some? ==> n.cluster.value in dot.clusters
    ensures forall d :: d in dot.edges && d.back ==> d.tail.id.GK() == SERVICE_GK && d.head.id.GK() == HTTP_ROUTE_GK
    ensures forall d :: d in dot.edges ==> !(d.tail.id.GK() == HTTP_ROUTE_GK && d.head.id.GK() == SERVICE_GK)
  {
    hide Lists, SortedBy, Ordered, Distinguishable, Draws, DrawsNodes, DrawnEdges, Drawn, DrawNode, OutClosed;
    var order: seq<GKNN>, edges: seq<Edge> :| IsDrawing(nodes, dot, order, edges);
    NodesAreDrawn(Drawn(nodes), dot.nodes, order);
    EdgesAreDrawn(DrawnEdges(nodes), dot.edges, edges);
    forall i | 0 <= i < |dot.edges|
      ensures dot.edges[i].tail in dot.nodes && dot.edges[i].head in dot.nodes
      ensures dot.edges[i].back ==>
        dot.edges[i].tail.id.GK() == SERVICE_GK && dot.edges[i].head.id.GK() == HTTP_ROUTE_GK
      ensures !(dot.edges[i].tail.id.GK() == HTTP_ROUTE_GK && dot.edges[i].head.id.GK() == SERVICE_GK)
    {
      EndsOf(nodes, edges[i]);
    }
    ClustersAreDrawn(nodes, dot, order, edges);
  }

  lemma NodesAreDrawn(ids: set<GKNN>, drawn: seq<DotNode>, order: seq<GKNN>)
    requires Lists(ids, order) && DrawsNodes(drawn, order)
    ensures |drawn| == |ids| && forall k :: k in ids ==> DrawNode(k) in drawn
  {
    hide DrawNode;
    ListsSize(ids, order);
    forall k | k in ids ensures DrawNode(k) in drawn {
      var i :| 0 <= i < |order| && order[i] == k;
      assert drawn[i] == DrawNode(k);
    }
  }

  lemma EdgesAreDrawn(all: set<Edge>, drawn: seq<DotEdge>, edges: seq<Edge>)
    requires Lists(all, edges) && Draws(drawn, edges)
    ensures |drawn| == |all| == |edges| && forall e | e in all :: DrawEdge(e) in drawn
    ensures forall i :: 0 <= i < |drawn| ==> edges[i] in all && drawn[i] == DrawEdge(edges[i])
  {
    hide DrawEdge;
    ListsSize(all, edges);
    forall e | e in all ensures DrawEdge(e) in drawn {
      var i :| 0 <= i < |edges| && edges[i] == e;
      assert drawn[i] == DrawEdge(e);
    }
  }

  lemma EndsOf(nodes: map<GKNN, Node>, e: Edge)
    requires e in DrawnEdges(nodes) && OutClosed(nodes)
    ensures e.src in Drawn(nodes) && e.dst in Drawn(nodes)
    ensures DrawEdge(e).tail in {DrawNode(e.src), DrawNode(e.dst)}
    ensures DrawEdge(e).head in {DrawNode(e.src), DrawNode(e.dst)}
    ensures DrawEdge(e).back ==> DrawEdge(e).tail.id.GK() == SERVICE_GK && DrawEdge(e).head.id.GK() == HTTP_ROUTE_GK
    ensures !(DrawEdge(e).tail.id.GK() == HTTP_ROUTE_GK && DrawEdge(e).head.id.GK() == SERVICE_GK)
  {
    assert SERVICE_GK.kind[0] == 'S' && HTTP_ROUTE_GK.kind[0] == 'H';
  }

  lemma ClustersAreDrawn(nodes: map<GKNN, Node>, dot: DotGraph, order: seq<GKNN>, edges: seq<Edge>)
    requires IsDrawing(nodes, dot, order, edges)
    ensures forall n :: n in dot.nodes && n.cluster.Some? ==> n.cluster.value in dot.clusters
  {
  }

  // ---------------------------------------------------------------- what the drawing shows

  predicate IsNamespace(k: GKNN) {
    k.group == "" && k.kind == "Namespace"
  }

  /** The drawing of a node: cluster, caption and colour. */
  predicate ShowsNode(n: DotNode, k: GKNN) {
    && n.id == k && n.cluster == (if k.namespace == "" then None else Some(k.namespace))
    && (k.group == "" || k.group == "gateway.networking.k8s.io" ==> n.caption == k.kind + "\n" + k.name)
    && (k.group != "" && k.group != "gateway.networking.k8s.io" ==>
        n.caption == k.kind + "." + k.group + "\n" + k.name)
    && n.color ==
       match (k.group, k.kind)
       case ("gateway.networking.k8s.io", "GatewayClass") => "#e5e9f0"
       case ("gateway.networking.k8s.io", "Gateway") => "#ebcb8b"
       case ("gateway.networking.k8s.io", "HTTPRoute") => "#a3be8c"
       case ("", "Service") => "#88c0d0"
       case _ => "#d8dee9"
  }

  /** The drawing of a reference: from HTTPRoute to Service it is turned round and has the arrow back. */
  predicate ShowsEdge(d: DotEdge, src: GKNN, name: string, dst: GKNN) {
    && d.caption == name
    && if GKNN(src.group, src.kind, "", "") == GKNN("gateway.networking.k8s.io", "HTTPRoute", "", "")
          && dst.group == "" && dst.kind == "Service"
       then d.tail.id == dst && d.head.id == src && d.back
       else d.tail.id == src && d.head.id == dst && !d.back
  }

  ghost predicate EveryNodeShown(nodes: map<GKNN, Node>, drawn: seq<DotNode>) {
    forall k :: k in nodes && !IsNamespace(k) ==> exists n :: n in drawn && ShowsNode(n, k)
  }

  ghost predicate OnlyNodesShown(nodes: map<GKNN, Node>, drawn: seq<DotNode>) {
    forall n :: n in drawn ==> n.id in nodes && !IsNamespace(n.id) && ShowsNode(n, n.id)
  }

  ghost predicate ClustersFit(clusters: seq<string>, drawn: seq<DotNode>) {
    forall c :: c in clusters <==> exists n :: n in drawn && n.cluster == Some(c)
  }

  lemma NodeIsShown(k: GKNN)
    ensures ShowsNode(DrawNode(k), k)
  {
  }

  lemma EdgeIsShown(e: Edge)
    ensures ShowsEdge(DrawEdge(e), e.src, e.rel.name, e.dst)
  {
  }

  /** Main result on nodes: every node that is no Namespace is shown, nothing else is, and the clusters are those
      that nodes are in. */
  lemma NodesShown(nodes: map<GKNN, Node>, dot: DotGraph)
    requires exists order, edges :: IsDrawing(nodes, dot, order, edges)
    ensures EveryNodeShown(nodes, dot.nodes) && OnlyNodesShown(nodes, dot.nodes) && ClustersFit(dot.clusters, dot.nodes)
  {
    hide IsDrawing, EveryNodeShown, OnlyNodesShown, ClustersFit;
    var order: seq<GKNN>, edges: seq<Edge> :| IsDrawing(nodes, dot, order, edges);
    NodesAreShown(nodes, dot, order, edges);
    ClustersAreShown(nodes, dot, order, edges);
  }

  lemma NodesAreShown(nodes: map<GKNN, Node>, dot: DotGraph, order: seq<GKNN>, edges: seq<Edge>)
    requires IsDrawing(nodes, dot, order, edges)
    ensures EveryNodeShown(nodes, dot.nodes) && OnlyNodesShown(nodes, dot.nodes)
  {
    hide SortedBy, Ordered, Distinguishable, Draws, DrawnEdges, Clusters, ShowsNode, IsNamespace, Lists, DrawsNodes,
      Drawn;
    forall k | k in nodes && !IsNamespace(k) ensures exists n :: n in dot.nodes && ShowsNode(n, k) {
      NodeHasDrawing(nodes, dot.nodes, order, k);
    }
    forall n | n in dot.nodes ensures n.id in nodes && !IsNamespace(n.id) && ShowsNode(n, n.id) {
      DrawingHasNode(nodes, dot.nodes, order, n);
    }
  }

  lemma NodeHasDrawing(nodes: map<GKNN, Node>, drawn: seq<DotNode>, order: seq<GKNN>, k: GKNN)
    requires Lists(Drawn(nodes), order) && DrawsNodes(drawn, order) && k in nodes && !IsNamespace(k)
    ensures exists n :: n in drawn && ShowsNode(n, k)
  {
    hide DrawNode, ShowsNode;
    assert k in Drawn(nodes);
    var i :| 0 <= i < |order| && order[i] == k;
    NodeIsShown(k);
    assert drawn[i] in drawn;
  }

  lemma DrawingHasNode(nodes: map<GKNN, Node>, drawn: seq<DotNode>, order: seq<GKNN>, n: DotNode)
    requires Lists(Drawn(nodes), order) && DrawsNodes(drawn, order) && n in drawn
    ensures n.id in nodes && !IsNamespace(n.id) && ShowsNode(n, n.id)
  {
    hide DrawNode, ShowsNode;
    var i :| 0 <= i < |drawn| && drawn[i] == n;
    NodeIsShown(order[i]);
    IdOfDrawing(order[i]);
  }

  lemma IdOfDrawing(k: GKNN)
    ensures DrawNode(k).id == k
  {
  }

  lemma ClustersAreShown(nodes: map<GKNN, Node>, dot: DotGraph, order: seq<GKNN>, edges: seq<Edge>)
    requires IsDrawing(nodes, dot, order, edges)
    ensures ClustersFit(dot.clusters, dot.nodes)
  {
    hide SortedBy, Ordered, Distinguishable, Draws, DrawnEdges, MapNodeColor, KindString;
    forall c ensures c in dot.clusters <==> exists n :: n in dot.nodes && n.cluster == Some(c) {
      if c in dot.clusters {
        var k :| k in Drawn(nodes) && k.namespace == c && c != "";
        var i :| 0 <= i < |order| && order[i] == k;
        assert dot.nodes[i] in dot.nodes && dot.nodes[i].cluster == Some(c);
      }
    }
  }

  /** Main result on edges: every reference between two nodes that are no Namespaces is shown, in its direction, and
      nothing else is. */
  lemma EdgesShown(nodes: map<GKNN, Node>, dot: DotGraph)
    requires OutClosed(nodes) && exists order, edges :: IsDrawing(nodes, dot, order, edges)
    ensures forall k, rel, t :: (
      k in nodes && (rel, t) in nodes[k].outNeighbors && !IsNamespace(k) && !IsNamespace(t) ==>
        exists d :: d in dot.edges && ShowsEdge(d, k, rel.name, t))
    ensures forall d :: d in dot.edges ==> Shown(nodes, d)
  {
    hide Lists, SortedBy, Ordered, Distinguishable, Draws, DrawsNodes, DrawnEdges, Drawn, Clusters, OutClosed,
      ShowsEdge, IsNamespace, Shown;
    var order: seq<GKNN>, edges: seq<Edge> :| IsDrawing(nodes, dot, order, edges);
    forall k, rel, t | k in nodes && (rel, t) in nodes[k].outNeighbors && !IsNamespace(k) && !IsNamespace(t)
      ensures exists d :: d in dot.edges && ShowsEdge(d, k, rel.name, t)
    {
      ReferenceIsShown(nodes, dot.edges, edges, Edge(k, rel, t));
    }
    forall d | d in dot.edges ensures Shown(nodes, d) { DrawingIsOfReference(nodes, dot.edges, edges, d); }
  }

  lemma ReferenceIsShown(nodes: map<GKNN, Node>, drawn: seq<DotEdge>, edges: seq<Edge>, e: Edge)
    requires Lists(DrawnEdges(nodes), edges) && Draws(drawn, edges)
    requires e.src in nodes && (e.rel, e.dst) in nodes[e.src].outNeighbors && !IsNamespace(e.src) && !IsNamespace(e.dst)
    ensures exists d :: d in drawn && ShowsEdge(d, e.src, e.rel.name, e.dst)
  {
    hide Lists, Draws, DrawnEdges, IsNamespace, DrawEdge, ShowsEdge;
    EdgesAreDrawn(DrawnEdges(nodes), drawn, edges);
    DrawnEdgesAre(nodes, e);
    EdgeIsShown(e);
  }

  lemma DrawingIsOfReference(nodes: map<GKNN, Node>, drawn: seq<DotEdge>, edges: seq<Edge>, d: DotEdge)
    requires Lists(DrawnEdges(nodes), edges) && Draws(drawn, edges) && d in drawn
    ensures Shown(nodes, d)
  {
    hide Lists, Draws, DrawnEdges, IsNamespace, DrawEdge, ShowsEdge;
    EdgesAreDrawn(DrawnEdges(nodes), drawn, edges);
    var i :| 0 <= i < |drawn| && drawn[i] == d;
    EdgeIsShown(edges[i]);
    DrawnEdgesAre(nodes, edges[i]);
  }

  lemma DrawnEdgesAre(nodes: map<GKNN, Node>, e: Edge)
    ensures e in DrawnEdges(nodes) <==>
      e.src in nodes && (e.rel, e.dst) in nodes[e.src].outNeighbors && !IsNamespace(e.src) && !IsNamespace(e.dst)
  {
  }

  /** It is the drawing of a reference between two nodes that are no Namespaces. */
  ghost predicate Shown(nodes: map<GKNN, Node>, d: DotEdge)
    reads nodes.Values`outNeighbors
  {
    exists k, p | k in nodes && p in nodes[k].outNeighbors ::
      !IsNamespace(k) && !IsNamespace(p.1) && ShowsEdge(d, k, p.0.name, p.1)
  }

  /** The text by which kinds are compared. */
  function KindText(k: GKNN): string {
    if k.group == "" then k.kind else k.kind + "." + k.group
  }

  /** Main result on the order of nodes: by kind, and among those of a kind by namespace and name. */
  lemma NodesInOrder(nodes: map<GKNN, Node>, dot: DotGraph)
    requires Distinguishable(nodes) && exists order, edges :: IsDrawing(nodes, dot, order, edges)
    ensures forall i, j :: 0 <= i < j < |dot.nodes| ==>
      var a, b := dot.nodes[i].id, dot.nodes[j].id;
      || Strings.Alphabetical(KindText(a), KindText(b))
      || (KindText(a) == KindText(b) && Strings.Alphabetical(a.namespace + "/" + a.name, b.namespace + "/" + b.name))
    ensures forall i, j :: 0 <= i < j < |dot.clusters| ==> Strings.Alphabetical(dot.clusters[i], dot.clusters[j])
  {
    hide Distinguishable, Draws, DrawnEdges, Drawn, Clusters, Before, Strings.Alphabetical;
    var order: seq<GKNN>, edges: seq<Edge> :| IsDrawing(nodes, dot, order, edges);
    forall i, j | 0 <= i < j < |dot.nodes|
      ensures var a, b := dot.nodes[i].id, dot.nodes[j].id;
        || Strings.Alphabetical(KindText(a), KindText(b))
        || (KindText(a) == KindText(b) && Strings.Alphabetical(a.namespace + "/" + a.name, b.namespace + "/" + b.name))
    {
      Strings.LessIff(KindText(order[i]), KindText(order[j]));
      Strings.LessIff(NameString(order[i]), NameString(order[j]));
    }
    SortedAlphabetically(dot.clusters, Same);
  }

  /** The two ends of the reference that is drawn. */
  function From(d: DotEdge): GKNN {
    if d.back then d.head.id else d.tail.id
  }

  function To(d: DotEdge): GKNN {
    if d.back then d.tail.id else d.head.id
  }

  /** Main result on the order of edges: by what is referred from, the name of the relation and what is referred to. */
  lemma EdgesInOrder(nodes: map<GKNN, Node>, dot: DotGraph)
    requires Distinguishable(nodes) && exists order, edges :: IsDrawing(nodes, dot, order, edges)
    ensures forall i, j :: 0 <= i < j < |dot.edges| ==>
      var a, b := dot.edges[i], dot.edges[j];
      || Strings.Alphabetical(String(From(a)), String(From(b)))
      || (From(a) == From(b) && Strings.Alphabetical(a.caption, b.caption))
      || (From(a) == From(b) && a.caption == b.caption && Strings.Alphabetical(String(To(a)), String(To(b))))
  {
    hide Distinguishable, Drawn, DrawsNodes, Clusters, IdBefore, DrawNode, Strings.Alphabetical, String, Lists,
      SortedBy;
    var order: seq<GKNN>, edges: seq<Edge> :| IsDrawing(nodes, dot, order, edges);
    forall i, j | 0 <= i < j < |dot.edges|
      ensures var a, b := dot.edges[i], dot.edges[j];
        || Strings.Alphabetical(String(From(a)), String(From(b)))
        || (From(a) == From(b) && Strings.Alphabetical(a.caption, b.caption))
        || (From(a) == From(b) && a.caption == b.caption && Strings.Alphabetical(String(To(a)), String(To(b))))
    {
      var e, f := edges[i], edges[j];
      EndsOfDrawing(e);
      EndsOfDrawing(f);
      assert Before(e, f);
      Strings.LessIff(String(e.src), String(f.src));
      Strings.LessIff(e.rel.name, f.rel.name);
      Strings.LessIff(String(e.dst), String(f.dst));
    }
  }

  lemma EndsOfDrawing(e: Edge)
    ensures From(DrawEdge(e)) == e.src && To(DrawEdge(e)) == e.dst && DrawEdge(e).caption == e.rel.name
  {
  }

  /** Main result on determinism: if identities and relations can be told apart, there is only one drawing. */
  lemma DrawingIsUnique(nodes: map<GKNN, Node>, a: DotGraph, b: DotGraph)
    requires Distinguishable(nodes)
    requires exists order, edges :: IsDrawing(nodes, a, order, edges)
    requires exists order, edges :: IsDrawing(nodes, b, order, edges)
    ensures a == b
  {
    hide Distinguishable, Lists, SortedBy, Ordered, DrawnEdges, DrawNode, DrawEdge, Clusters, Drawn, Before, IdBefore;
    var orderA, edgesA :| IsDrawing(nodes, a, orderA, edgesA);
    var orderB, edgesB :| IsDrawing(nodes, b, orderB, edgesB);
    SortedIsUnique(Clusters(nodes), a.clusters, b.clusters, Same);
    forall x, y | x in Drawn(nodes) && y in Drawn(nodes) && IdBefore(x, y)
      ensures !IdBefore(y, x)
    {
      IdBeforeAsymmetric(x, y);
    }
    OrderedIsUnique(Drawn(nodes), orderA, orderB, IdBefore);
    forall x, y | x in DrawnEdges(nodes) && y in DrawnEdges(nodes) && Before(x, y)
      ensures !Before(y, x)
    {
      BeforeAsymmetric(x, y);
    }
    OrderedIsUnique(DrawnEdges(nodes), edgesA, edgesB, Before);
    assert a.nodes == b.nodes && a.edges == b.edges;
  }

  /** Graphs built from the six relations meet the condition, as long as their identities can be told apart. */
  lemma BuiltIsDistinguishable(graph: Graph, removed: map<GKNN, Node>, objects: map<GKNN, Resource>, edges: set<Edge>,
                               sources: set<GKNN>, rels: Relations)
    requires Built(graph, removed, objects, edges, sources) && rels.Valid() && AllPlain(objects.Keys)
    requires forall e | e in edges :: IsEdge(rels.All(), objects, e)
    ensures Distinguishable(graph.nodes)
  {
    hide HoldsNearest, Plain, IsBackend;
    var nodes := graph.nodes;
    forall k | k in nodes ensures NamedApart(nodes[k]) {
      forall p | p in nodes[k].outNeighbors
        ensures p.0 in rels.All() && p.0.from == k.GK()
      {
        assert IsEdge(rels.All(), objects, Edge(k, p.0, p.1));
      }
      forall p, q | p in nodes[k].outNeighbors && q in nodes[k].outNeighbors && p.0.name == q.0.name
        ensures p.0 == q.0 {
        NamesApart(rels, p.0, q.0);
      }
    }
  }

  lemma NamesApart(rels: Relations, a: Relation, b: Relation)
    requires rels.Valid() && a in rels.All() && b in rels.All() && a.from == b.from && a.name == b.name
    ensures a == b
  {
  }
}

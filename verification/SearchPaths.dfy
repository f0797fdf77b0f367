/** Which objects a built graph has, and how deep, by explicit paths (pkg/topology/graph.go, lines 252 to 325). */
module SearchPaths {
  import opened Common
  import opened Builder
  import opened Cluster
  import opened Completeness
  import opened Reach
  import opened Topology

  /** A search goes on from an object unless it is a Namespace, or a GatewayClass that is not a source. */
  predicate GoesOn(u: GKNN, sources: set<GKNN>) {
    && !(u.group == "" && u.kind == "Namespace")
    && (u.group == "gateway.networking.k8s.io" && u.kind == "GatewayClass" ==> u in sources)
  }

  /** An edge has the two ends, in either direction. */
  ghost predicate Joined(edges: set<Edge>, u: GKNN, v: GKNN) {
    exists e | e in edges :: (e.src == u && e.dst == v) || (e.src == v && e.dst == u)
  }

  /** The path starts at a source, follows edges, and goes on from every object on the way. */
  ghost predicate IsTrail(edges: set<Edge>, sources: set<GKNN>, p: seq<GKNN>) {
    && p != [] && p[0] in sources
    && forall i :: 0 <= i < |p| - 1 ==> GoesOn(p[i], sources) && Joined(edges, p[i], p[i + 1])
  }

  ghost predicate TrailTo(edges: set<Edge>, sources: set<GKNN>, n: nat, k: GKNN) {
    exists p :: IsTrail(edges, sources, p) && |p| == n + 1 && p[n] == k
  }

  lemma ArcsAreJoined(edges: set<Edge>, sources: set<GKNN>, u: GKNN, v: GKNN)
    ensures (u, v) in NodeArcs(edges, sources) <==> GoesOn(u, sources) && Joined(edges, u, v)
  {
  }

  lemma TrailsArePaths(edges: set<Edge>, sources: set<GKNN>, p: seq<GKNN>)
    ensures IsTrail(edges, sources, p) <==> IsPath(NodeArcs(edges, sources), sources, p)
  {
    hide NodeArcs, GoesOn, Joined;
    var arcs := NodeArcs(edges, sources);
    forall i | 0 <= i < |p| - 1
      ensures (p[i], p[i + 1]) in arcs <==> GoesOn(p[i], sources) && Joined(edges, p[i], p[i + 1])
    {
      ArcsAreJoined(edges, sources, p[i], p[i + 1]);
    }
    if IsTrail(edges, sources, p) {
      forall i | 0 < i < |p| ensures (p[i - 1], p[i]) in arcs { assert p[i] == p[i - 1 + 1]; }
    }
    if IsPath(arcs, sources, p) {
      forall i | 0 <= i < |p| - 1 ensures GoesOn(p[i], sources) && Joined(edges, p[i], p[i + 1]) {
        assert (p[i + 1 - 1], p[i + 1]) in arcs;
      }
    }
  }

  lemma TrailsAreWalks(edges: set<Edge>, sources: set<GKNN>, n: nat, k: GKNN)
    ensures TrailTo(edges, sources, n, k) <==> Walk(NodeArcs(edges, sources), sources, n, k)
  {
    hide IsTrail, IsPath, Walk, NodeArcs;
    WalkIffPath(NodeArcs(edges, sources), sources, n, k);
    forall p: seq<GKNN> { TrailsArePaths(edges, sources, p); }
  }

  /** Main result: an object is in the graph, at a certain depth, exactly if this is the length of a shortest path
      that leads to it, and at most one more than the maximal depth. */
  lemma NodesByPaths(graph: Graph, removed: map<GKNN, Node>, objects: map<GKNN, Resource>, edges: set<Edge>,
                     sources: set<GKNN>, k: GKNN, n: nat)
    requires Built(graph, removed, objects, edges, sources)
    ensures k in graph.nodes && graph.nodes[k].depth == n <==>
      && n <= (if graph.maxDepth < 0 then 0 else graph.maxDepth + 1)
      && TrailTo(edges, sources, n, k) && forall m: nat :: m < n ==> !TrailTo(edges, sources, m, k)
  {
    hide HoldsObjects, HoldsEdges, NodeArcs, TrailTo, Walk;
    var arcs := NodeArcs(edges, sources);
    forall m: nat ensures TrailTo(edges, sources, m, k) <==> Walk(arcs, sources, m, k) {
      TrailsAreWalks(edges, sources, m, k);
    }
    if Walk(arcs, sources, n, k) { WalksStayInObjects(objects, edges, sources, n, k); }
  }

  lemma WalksStayInObjects(objects: map<GKNN, Resource>, edges: set<Edge>, sources: set<GKNN>, n: nat, k: GKNN)
    requires sources <= objects.Keys && forall e | e in edges :: e.src in objects && e.dst in objects
    requires Walk(NodeArcs(edges, sources), sources, n, k)
    ensures k in objects
  {
  }

  /** One object names the other, by a relation from its kind. */
  ghost predicate Names(relations: seq<Relation>, objects: map<GKNN, Resource>, u: GKNN, v: GKNN) {
    && u in objects && v in objects
    && exists i :: 0 <= i < |relations| && relations[i].from == u.GK() && v in relations[i].neighborFunc(objects[u])
  }

  /** And two objects are joined exactly if one of them names the other. */
  lemma JoinedIff(relations: seq<Relation>, objects: map<GKNN, Resource>, u: GKNN, v: GKNN)
    ensures Joined(AllEdges(relations, objects), u, v) <==>
      Names(relations, objects, u, v) || Names(relations, objects, v, u)
  {
    hide AllEdges;
    if e :| e in AllEdges(relations, objects) && ((e.src == u && e.dst == v) || (e.src == v && e.dst == u)) {
      AllEdgesAreEdges(relations, objects, e);
      var i :| 0 <= i < |relations| && relations[i] == e.rel;
    }
    if Names(relations, objects, u, v) { EdgeOfNames(relations, objects, u, v); }
    if Names(relations, objects, v, u) { EdgeOfNames(relations, objects, v, u); }
  }

  lemma EdgeOfNames(relations: seq<Relation>, objects: map<GKNN, Resource>, u: GKNN, v: GKNN)
    requires Names(relations, objects, u, v)
    ensures exists e | e in AllEdges(relations, objects) :: e.src == u && e.dst == v
  {
    hide AllEdges;
    var i :| 0 <= i < |relations| && relations[i].from == u.GK() && v in relations[i].neighborFunc(objects[u]);
    AllEdgesAreEdges(relations, objects, Edge(u, relations[i], v));
  }

  // ---------------------------------------------------------------- kinds

  /** A relation connects the two kinds, in either direction. */
  ghost predicate Related(relations: seq<Relation>, a: GroupKind, b: GroupKind) {
    exists i :: 0 <= i < |relations| &&
      ((relations[i].from == a && relations[i].to == b) || (relations[i].from == b && relations[i].to == a))
  }

  /** The kinds on the way from that of a source, each related to the next. */
  ghost predicate IsKindPath(relations: seq<Relation>, sources: seq<Resource>, p: seq<GroupKind>) {
    && p != [] && (exists i :: 0 <= i < |sources| && sources[i].id.GK() == p[0])
    && forall i :: 0 < i < |p| ==> Related(relations, p[i - 1], p[i])
  }

  lemma KindPathsArePaths(relations: seq<Relation>, sources: seq<Resource>, p: seq<GroupKind>)
    ensures IsKindPath(relations, sources, p) <==> IsPath(KindArcs(relations), Kinds(sources), p)
  {
    hide KindArcs, Related;
    forall a, b ensures (a, b) in KindArcs(relations) <==> Related(relations, a, b) { ArcsAreRelated(relations, a, b); }
  }

  lemma ArcsAreRelated(relations: seq<Relation>, a: GroupKind, b: GroupKind)
    ensures (a, b) in KindArcs(relations) <==> Related(relations, a, b)
  {
  }

  /** Main result on kinds: a kind is fetched exactly if it can be reached from that of a source through as many
      relations as the depth allows. */
  lemma KindsByPaths(kinds: seq<GroupKind>, sources: seq<Resource>, relations: seq<Relation>, maxDepth: int,
                     gk: GroupKind)
    requires SelectedKinds(kinds, sources, relations, maxDepth)
    ensures gk in kinds <==> exists p :: KindPathTo(relations, sources, maxDepth, gk, p)
  {
    hide KindArcs, IsPath, IsKindPath, Walk;
    var arcs, start, bound := KindArcs(relations), Kinds(sources), AtLeastZero(maxDepth);
    if gk in kinds {
      var n: nat :| n <= bound && Walk(arcs, start, n, gk);
      WalkIffPath(arcs, start, n, gk);
      var p: seq<GroupKind> :| |p| == n + 1 && IsPath(arcs, start, p) && p[n] == gk;
      KindPathsArePaths(relations, sources, p);
      assert KindPathTo(relations, sources, maxDepth, gk, p);
    }
    if p :| KindPathTo(relations, sources, maxDepth, gk, p) {
      KindPathsArePaths(relations, sources, p);
      WalkIffPath(arcs, start, |p| - 1, gk);
      assert |p| == |p| - 1 + 1 && p[|p| - 1] == gk;
      assert Near(arcs, start, bound, gk);
    }
  }

  ghost predicate KindPathTo(relations: seq<Relation>, sources: seq<Resource>, maxDepth: int, gk: GroupKind,
                             p: seq<GroupKind>)
  {
    && IsKindPath(relations, sources, p) && p != [] && p[|p| - 1] == gk
    && |p| - 1 <= (if maxDepth < 0 then 0 else maxDepth)
  }
}

/** Which kinds have to be fetched (pkg/topology/graph.go, lines 330 to 377). */
module KindSearch {
  import opened Common
  import opened Cluster
  import opened Reach
  import opened Topology

  /** The kinds visited so far, all of them within `bound`, are those in the result. */
  ghost predicate KindsVisited(depth: map<GroupKind, int>, bound: nat, result: seq<GroupKind>) {
    && (forall k :: k in result <==> k in depth)
    && (forall k :: k in depth ==> depth[k] <= bound)
    && Distinct(result)
  }

  /** The kinds at most `maxDepth` relations away from the kinds of the sources: each exactly once, and
      no other kind, although the search returns as soon as it meets one kind that is too deep. */
  method DetermineUniqueGroupKinds(sources: seq<Resource>, relations: seq<Relation>, maxDepth: int)
    returns (result: seq<GroupKind>)
    ensures forall k :: k in result <==> Near(KindArcs(relations), Kinds(sources), AtLeastZero(maxDepth), k)
    ensures Distinct(result)
  {
    hide Near, KindArcs, Kinds;
    ghost var arcs, start, bound := KindArcs(relations), Kinds(sources), AtLeastZero(maxDepth);
    ghost var universe := start + (set i | 0 <= i < |relations| :: relations[i].from)
                                + (set i | 0 <= i < |relations| :: relations[i].to);
    var depth, q;
    result, depth, q := StartFromKinds(sources);
    SearchStart(arcs, start, depth, q);
    while q != []
      invariant Searching(arcs, start, depth, q)
      invariant start <= depth.Keys <= universe
      invariant KindsVisited(depth, bound, result)
      decreases universe - depth.Keys, |q|
    {
      var u := q[0];
      assert [u] + q[1..] == q;
      var tooDeep;
      ghost var before := depth;
      result, depth, q, tooDeep := ExpandKind(sources, relations, maxDepth, universe, u, result, depth, q[1..]);
      if tooDeep {
        StoppedEarly(arcs, start, depth, bound, result, u, q);
        return;
      }
      SearchPop(arcs, start, depth, u, q);
    }
    RanToTheEnd(arcs, start, depth, bound, result);
  }

  /** Where the search meets a kind that is too deep, it has seen all that are not. */
  lemma StoppedEarly(arcs: iset<(GroupKind, GroupKind)>, start: set<GroupKind>, depth: map<GroupKind, int>, bound: nat,
                     result: seq<GroupKind>, u: GroupKind, q: seq<GroupKind>)
    requires Searching(arcs, start, depth, [u] + q) && KindsVisited(depth, bound, result) && u in depth
    requires depth[u] >= bound
    ensures forall k :: k in result <==> Near(arcs, start, bound, k)
  {
  }

  lemma RanToTheEnd(arcs: iset<(GroupKind, GroupKind)>, start: set<GroupKind>, depth: map<GroupKind, int>, bound: nat,
                    result: seq<GroupKind>)
    requires Searching(arcs, start, depth, []) && start <= depth.Keys && KindsVisited(depth, bound, result)
    ensures forall k :: k in result <==> Near(arcs, start, bound, k)
  {
    forall k ensures k in result <==> Near(arcs, start, bound, k) {
      if k in result { assert Near(arcs, start, bound, k); }
      if Near(arcs, start, bound, k) {
        var n := NearHasDist(arcs, start, bound, k);
        SearchDone(arcs, start, depth, n, k);
      }
    }
  }

  /** The first loop: the distinct kinds of the sources, at depth 0. */
  method StartFromKinds(sources: seq<Resource>)
    returns (result: seq<GroupKind>, depth: map<GroupKind, int>, q: seq<GroupKind>)
    ensures q == result && Distinct(result)
    ensures depth.Keys == (set k | k in result) == Kinds(sources)
    ensures forall k :: k in depth ==> depth[k] == 0
  {
    result, depth, q := [], map[], [];
    for i := 0 to |sources|
      invariant q == result && Distinct(result)
      invariant depth.Keys == (set k | k in result) == (set j | 0 <= j < i :: sources[j].id.GK())
      invariant forall k :: k in depth ==> depth[k] == 0
    {
      var gk := sources[i].id.GK();
      if gk !in depth {
        result := result + [gk];
        q := q + [gk];
        depth := depth[gk := 0];
      }
    }
  }

  /** The inner loop: visit the kinds that a relation connects with `u`, up to the first too deep one. */
  method ExpandKind(ghost sources: seq<Resource>, relations: seq<Relation>, maxDepth: int,
                    ghost universe: set<GroupKind>, u: GroupKind,
                    result0: seq<GroupKind>, depth0: map<GroupKind, int>, q0: seq<GroupKind>)
    returns (result: seq<GroupKind>, depth: map<GroupKind, int>, q: seq<GroupKind>, tooDeep: bool)
    requires Searching(KindArcs(relations), Kinds(sources), depth0, [u] + q0)
    requires u in depth0 && depth0.Keys <= universe
    requires forall r :: r in relations ==> r.from in universe && r.to in universe
    requires KindsVisited(depth0, AtLeastZero(maxDepth), result0)
    ensures Searching(KindArcs(relations), Kinds(sources), depth, [u] + q)
    ensures KindsVisited(depth, AtLeastZero(maxDepth), result)
    ensures depth0.Keys <= depth.Keys <= universe && (depth0.Keys == depth.Keys ==> q == q0)
    ensures u in depth && (tooDeep ==> depth[u] >= maxDepth)
    ensures !tooDeep ==> forall v :: (u, v) in KindArcs(relations) ==> v in depth
  {
    hide Searching;
    result, depth, q, tooDeep := result0, depth0, q0, false;
    ghost var arcs, start := KindArcs(relations), Kinds(sources);
    for i := 0 to |relations|
      invariant Searching(arcs, start, depth, [u] + q)
      invariant KindsVisited(depth, AtLeastZero(maxDepth), result)
      invariant depth0.Keys <= depth.Keys <= universe && (depth0.Keys == depth.Keys ==> q == q0)
      invariant forall j :: 0 <= j < i && relations[j].from == u ==> relations[j].to in depth
      invariant forall j :: 0 <= j < i && relations[j].to == u ==> relations[j].from in depth
    {
      var relation := relations[i];
      if relation.from != u && relation.to != u {
        continue;
      }
      var v := relation.to;
      if u == v {
        v := relation.from;
      }
      if v in depth {
        continue;
      }
      if depth[u] + 1 > maxDepth {
        tooDeep := true;
        return;
      }
      assert (u, v) in arcs;
      SearchVisit(arcs, start, depth, u, q, v);
      assert [u] + q + [v] == [u] + (q + [v]);
      depth := depth[v := depth[u] + 1];
      q := q + [v];
      result := result + [v];
    }
  }
}

/** Walks and distances in a directed graph, and the invariant of a breadth-first search.

    Both searches of the topology builder (over kinds and over nodes) are instances: the arcs of the
    kind search are the relations read in either direction, the arcs of the node search are the edges
    read in either direction that leave a node which the search is allowed to expand. */
module Reach {

  /** There is a walk of exactly `n` arcs from one of the sources to `v`. */
  ghost predicate Walk<T(!new)>(arcs: iset<(T, T)>, sources: set<T>, n: nat, v: T)
  {
    if n == 0 then v in sources
    else exists u :: Walk(arcs, sources, n - 1, u) && (u, v) in arcs
  }

  /** `v` is at most `n` arcs away from the sources. */
  ghost predicate Near<T(!new)>(arcs: iset<(T, T)>, sources: set<T>, n: int, v: T)
  {
    exists m: nat :: m <= n && Walk(arcs, sources, m, v)
  }

  /** The shortest walk from the sources to `v` has exactly `n` arcs. */
  ghost predicate Dist<T(!new)>(arcs: iset<(T, T)>, sources: set<T>, n: int, v: T)
  {
    0 <= n && Walk(arcs, sources, n, v) && !Near(arcs, sources, n - 1, v)
  }

  /** The vertices of a path, listed: it starts at a source and follows arcs. */
  ghost predicate IsPath<T(!new)>(arcs: iset<(T, T)>, sources: set<T>, p: seq<T>)
  {
    |p| > 0 && p[0] in sources && forall i :: 0 < i < |p| ==> (p[i - 1], p[i]) in arcs
  }

  /** Walks are exactly the lengths of explicit paths. */
  lemma {:induction false} WalkIffPath<T(!new)>(arcs: iset<(T, T)>, sources: set<T>, n: nat, v: T)
    ensures Walk(arcs, sources, n, v)
      <==> exists p: seq<T> :: |p| == n + 1 && IsPath(arcs, sources, p) && p[n] == v
  {
    if n == 0 {
      if v in sources {
        assert |[v]| == 1 && IsPath(arcs, sources, [v]) && [v][0] == v;
      }
    } else {
      if Walk(arcs, sources, n, v) {
        var u :| Walk(arcs, sources, n - 1, u) && (u, v) in arcs;
        WalkIffPath(arcs, sources, n - 1, u);
        var p: seq<T> :| |p| == n && IsPath(arcs, sources, p) && p[n - 1] == u;
        var q := p + [v];
        assert |q| == n + 1 && IsPath(arcs, sources, q) && q[n] == v;
      }
      if q: seq<T> :| |q| == n + 1 && IsPath(arcs, sources, q) && q[n] == v {
        var p := q[..n];
        WalkIffPath(arcs, sources, n - 1, q[n - 1]);
        assert |p| == n && IsPath(arcs, sources, p) && p[n - 1] == q[n - 1];
        assert (q[n - 1], q[n]) in arcs;
      }
    }
  }

  /** Whatever is within some distance is at an exact distance. */
  lemma {:induction false} NearHasDist<T(!new)>(arcs: iset<(T, T)>, sources: set<T>, n: int, v: T) returns (d: nat)
    requires Near(arcs, sources, n, v)
    ensures d <= n && Dist(arcs, sources, d, v)
    decreases n
  {
    var m: nat :| m <= n && Walk(arcs, sources, m, v);
    if Near(arcs, sources, m - 1, v) {
      d := NearHasDist(arcs, sources, m - 1, v);
    } else {
      d := m;
    }
  }

  lemma DistUnique<T(!new)>(arcs: iset<(T, T)>, sources: set<T>, a: int, b: int, v: T)
    requires Dist(arcs, sources, a, v) && Dist(arcs, sources, b, v)
    ensures a == b
  {
  }

  /** One more arc is one more step. */
  lemma NearStep<T(!new)>(arcs: iset<(T, T)>, sources: set<T>, n: int, u: T, v: T)
    requires Near(arcs, sources, n, u) && (u, v) in arcs
    ensures Near(arcs, sources, n + 1, v)
  {
    var m: nat :| m <= n && Walk(arcs, sources, m, u);
    assert Walk(arcs, sources, m + 1, v);
  }

  /** A shorter walk is a walk in every larger set of arcs. */
  lemma {:induction false} WalkMonotone<T(!new)>(a: iset<(T, T)>, b: iset<(T, T)>, sources: set<T>, n: nat, v: T)
    requires Walk(a, sources, n, v) && a <= b
    ensures Walk(b, sources, n, v)
  {
    if n > 0 {
      var u :| Walk(a, sources, n - 1, u) && (u, v) in a;
      WalkMonotone(a, b, sources, n - 1, u);
    }
  }

  /** Without arcs nothing but the sources is reached. */
  lemma NearNoArcs<T(!new)>(arcs: iset<(T, T)>, sources: set<T>, n: int, v: T)
    requires arcs == iset{} && Near(arcs, sources, n, v)
    ensures v in sources && Dist(arcs, sources, 0, v)
  {
  }

  // ---------------------------------------------------------------- breadth-first search

  /** What a breadth-first search keeps. `depth` holds the visited vertices, `queue` those still to be
      expanded. Depths are exact; the queue is sorted by depth and at most one level wide; the arcs of
      every vertex that has left the queue lead to visited vertices; and everything at most as far as
      the head of the queue has been visited, which is why stopping at the first vertex that is too
      deep loses nothing. */
  ghost predicate Searching<T(!new)>(arcs: iset<(T, T)>, sources: set<T>, depth: map<T, int>, queue: seq<T>)
  {
    && (forall v :: v in depth ==> Dist(arcs, sources, depth[v], v))
    && (forall i :: 0 <= i < |queue| ==> queue[i] in depth)
    && (forall i, j :: 0 <= i < j < |queue| ==> depth[queue[i]] <= depth[queue[j]] <= depth[queue[i]] + 1)
    && (forall u, v :: u in depth && u !in queue && (u, v) in arcs ==> v in depth)
    && (queue != [] ==> forall v :: Near(arcs, sources, depth[queue[0]], v) ==> v in depth)
  }

  lemma SearchStart<T(!new)>(arcs: iset<(T, T)>, sources: set<T>, depth: map<T, int>, queue: seq<T>)
    requires depth.Keys == sources == (set v | v in queue)
    requires forall v :: v in depth ==> depth[v] == 0
    ensures Searching(arcs, sources, depth, queue)
  {
  }

  /** A neighbour of the vertex at the head that has not been visited yet goes to the back. */
  lemma SearchVisit<T(!new)>(arcs: iset<(T, T)>, sources: set<T>, depth: map<T, int>, u: T, rest: seq<T>, v: T)
    requires Searching(arcs, sources, depth, [u] + rest)
    requires (u, v) in arcs && v !in depth
    ensures u in depth && Searching(arcs, sources, depth[v := depth[u] + 1], [u] + rest + [v])
  {
  }

  /** Once all its neighbours have been visited, the head leaves the queue. */
  lemma SearchPop<T(!new)>(arcs: iset<(T, T)>, sources: set<T>, depth: map<T, int>, u: T, rest: seq<T>)
    requires Searching(arcs, sources, depth, [u] + rest)
    requires forall v :: (u, v) in arcs ==> v in depth
    ensures Searching(arcs, sources, depth, rest)
  {
    var queue := [u] + rest;
    assert forall i :: 0 <= i < |rest| ==> rest[i] == queue[i + 1];
    assert queue[0] == u && u in depth;
    forall w, x | w in depth && w !in rest && (w, x) in arcs ensures x in depth {
      if w != u { assert w !in queue; }
    }
    if rest != [] {
      forall v | Near(arcs, sources, depth[rest[0]], v) ensures v in depth {
        if depth[rest[0]] > depth[u] {
          NextLevel(arcs, sources, depth, rest, depth[u], v);
        }
      }
    }
  }

  /** If every vertex up to level `level` has been visited and has left the queue, then every vertex of
      the level after it has been visited. */
  lemma NextLevel<T(!new)>(arcs: iset<(T, T)>, sources: set<T>, depth: map<T, int>, queue: seq<T>, level: int, v: T)
    requires forall w :: w in depth ==> Dist(arcs, sources, depth[w], w)
    requires forall i :: 0 <= i < |queue| ==> queue[i] in depth && depth[queue[i]] > level
    requires forall u, w :: u in depth && u !in queue && (u, w) in arcs ==> w in depth
    requires 0 <= level && forall w :: Near(arcs, sources, level, w) ==> w in depth
    requires Near(arcs, sources, level + 1, v)
    ensures v in depth
  {
    var m: nat :| m <= level + 1 && Walk(arcs, sources, m, v);
    if m == level + 1 {
      var u :| Walk(arcs, sources, level, u) && (u, v) in arcs;
      assert Near(arcs, sources, level, u);
      assert u in depth;
      assert u in queue ==> depth[u] > level;
      assert depth[u] > level ==> Near(arcs, sources, depth[u] - 1, u);
    } else {
      assert Near(arcs, sources, level, v);
    }
  }

  /** When the queue has run empty, everything reachable has been visited. */
  lemma {:induction false} SearchDone<T(!new)>(arcs: iset<(T, T)>, sources: set<T>, depth: map<T, int>, n: nat, v: T)
    requires Searching(arcs, sources, depth, [])
    requires sources <= depth.Keys
    requires Walk(arcs, sources, n, v)
    ensures v in depth
  {
    if n > 0 {
      var u :| Walk(arcs, sources, n - 1, u) && (u, v) in arcs;
      SearchDone(arcs, sources, depth, n - 1, u);
    }
  }
}

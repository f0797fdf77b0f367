/** On what the effective policies of a backend depend when its routes are visited in another order: Go's map
    iteration leaves it open (pkg/extension/gatewayeffectivepolicy/gatewayeffectivepolicy.go, lines 396 to 415). */
module RouteOrder {
  import opened Common
  import opened Hierarchy
  import opened Json
  import opened LevelHierarchy
  import opened MergeOrder
  import opened Merger
  import opened Permutations
  import opened Policy
  import opened SimilarKind
  import opened UniformKinds

  /** Main result: kind by kind, the routes that have policies of the kind are merged like policies of one kind
      and one level; so what wins is what `DefaultsIff` and `OverridesIff` say. */
  lemma {:induction false} AccumulatedIsFold(maps: seq<PolicyMap>, merged: PolicyMap, k: string)
    requires IsAccumulated(maps, merged)
    ensures k in merged <==> Present(maps, k) != []
    ensures k in merged ==> Fold(Present(maps, k)) == Ok(merged[k])
  {
    hide MergeSame, MergePolicy, OrderByPrecedence;
    if maps != [] {
      var init, last := maps[..|maps| - 1], maps[|maps| - 1];
      var before :| IsAccumulated(init, before) && IsMerge(before, last, OrderByPrecedence, Ok(merged));
      AccumulatedIsFold(init, before, k);
      if k in merged { assert MergedKind(before, last, OrderByPrecedence, k) == Ok(merged[k]); }
      if k in before && k in last {
        MergedKindIsMergeSame(before, last, k);
        FoldLast(Present(init, k), last[k]);
      } else if k in last {
        assert [] + [last[k]] == [last[k]];
      } else {
        assert Present(init, k) + [] == Present(init, k);
      }
    }
  }

  ghost predicate AllMapsSound(maps: seq<PolicyMap>) {
    forall i :: 0 <= i < |maps| ==> Sound(maps[i])
  }

  /** And it has one: readable policies merge. */
  lemma {:induction false} AccumulationExists(maps: seq<PolicyMap>) returns (merged: PolicyMap)
    requires AllMapsSound(maps)
    ensures IsAccumulated(maps, merged) && Sound(merged)
  {
    hide Sound, OrderByPrecedence, IsPrecedence;
    if maps == [] {
      merged := NothingMerged();
    } else {
      var before := AccumulationExists(maps[..|maps| - 1]);
      BothArePrecedences();
      merged := OneMore(before, maps[|maps| - 1], OrderByPrecedence);
    }
  }

  lemma NothingMerged() returns (merged: PolicyMap)
    ensures merged == map[] && Sound(merged)
  {
    merged := map[];
  }

  lemma OneMore(before: PolicyMap, last: PolicyMap, precedence: Precedence) returns (merged: PolicyMap)
    requires Sound(before) && Sound(last) && IsPrecedence(precedence)
    ensures IsMerge(before, last, precedence, Ok(merged)) && Sound(merged)
  {
    hide Readable, TypeOf, StringAt, MergedKind, IsPrecedence, Sound;
    forall k | k in before || k in last ensures MergedKind(before, last, precedence, k).Ok?
    {
      SoundKind(before, last, precedence, k);
    }
    merged := map k | k in before.Keys + last.Keys :: MergedKind(before, last, precedence, k).value;
    SoundMerge(before, last, precedence, Ok(merged));
  }

  /** Likewise for levels on top of each other. */
  lemma {:induction false} HierarchyExists(levels: seq<PolicyMap>) returns (merged: PolicyMap)
    requires AllMapsSound(levels)
    ensures IsHierarchy(levels, merged) && Sound(merged)
  {
    hide Sound, IsPrecedence, IsMerge;
    if levels == [] {
      merged := NothingMerged();
    } else {
      var init, last := levels[..|levels| - 1], levels[|levels| - 1];
      var above := HierarchyExists(init);
      BothArePrecedences();
      merged := OneMore(above, last, ParentFirst);
      NextLevel(init, above, last, merged);
      assert levels == init + [last];
    }
  }

  // ---------------------------------------------------------------- two routes

  /** For two routes the order makes no difference, as long as different policies of one kind can be told
      apart. */
  lemma TwoRoutesEitherOrder(a: PolicyMap, b: PolicyMap, m: PolicyMap, n: PolicyMap)
    requires IsAccumulated([a, b], m) && IsAccumulated([b, a], n)
    requires forall k :: k in a ==> '/' !in a[k].Namespace()
    requires forall k :: k in b ==> '/' !in b[k].Namespace()
    requires forall k :: k in a && k in b && SameIdentity(a[k], b[k]) ==> a[k] == b[k]
    ensures m == n
  {
    hide MergePolicy, OrderByPrecedence, IsAccumulated, MergedKind, StringAt;
    TwoRoutes(a, b, m);
    TwoRoutes(b, a, n);
    SameHierarchyCommutes(b, a, Ok(n));
    MergeIsUnique(a, b, OrderByPrecedence, Ok(m), Ok(n));
  }

  lemma OneRoute(a: PolicyMap, one: PolicyMap)
    requires IsAccumulated([a], one)
    ensures one == a
  {
  }

  lemma TwoRoutes(a: PolicyMap, b: PolicyMap, m: PolicyMap)
    requires IsAccumulated([a, b], m)
    ensures IsMerge(a, b, OrderByPrecedence, Ok(m))
  {
    hide IsMerge;
    assert [a, b][..1] == [a];
    var one :| IsAccumulated([a], one) && IsMerge(one, b, OrderByPrecedence, Ok(m));
    OneRoute(a, one);
  }

  lemma PresentOfThree(a: PolicyMap, b: PolicyMap, c: PolicyMap, k: string)
    requires k in a && k in b && k in c
    ensures Present([a, b, c], k) == [a[k], b[k], c[k]]
  {
    hide Present;
    PresentOne(a, k);
    PresentOne(b, k);
    PresentOne(c, k);
    PresentAppend([a], [b], k);
    PresentAppend([a] + [b], [c], k);
    assert [a] + [b] + [c] == [a, b, c];
  }

  lemma FirstOfThree(h: PolicyMap, a: PolicyMap, b: PolicyMap, k: string, path: Path, m: PolicyMap, namespaced: bool)
    requires k in h && k in a && k in b && IsAccumulated([h, a, b], m)
    requires Uniform([h[k], a[k], b[k]])
    requires FullMetadata(h[k], namespaced) && FullMetadata(a[k], namespaced) && FullMetadata(b[k], namespaced)
    requires Precedes(h[k], a[k]) && Precedes(h[k], b[k]) && !UnderOverride(path)
    requires At(h[k], path) == Absent && At(a[k], path) != Absent && At(b[k], path) != Absent
    ensures k in m && At(m[k], path) == At(a[k], path)
  {
    hide At, FullMetadata, Precedes, Uniform, Fold, IsAccumulated, Present;
    PresentOfThree(h, a, b, k);
    AccumulatedIsFold([h, a, b], m, k);
    FoldAt([h[k], a[k], b[k]], path, namespaced);
    ThreeWinners(h[k], a[k], b[k], path);
  }

  lemma UniformSwapped(p: Policy, q: Policy, r: Policy)
    requires Uniform([p, q, r])
    ensures Uniform([p, r, q])
  {
    hide WellFormed, Kindred;
    var ps, qs := [p, q, r], [p, r, q];
    assert forall i :: 0 <= i < 3 ==> qs[i] == ps[if i == 0 then 0 else 3 - i];
  }

  /** Three routes can do: if the policy of one precedes those of two others and says nothing at a path where
      these differ, the outcome depends on which of the two comes first. */
  lemma ThreeRoutesOrderMatters(h: PolicyMap, a: PolicyMap, b: PolicyMap, k: string, path: Path, m: PolicyMap,
                                n: PolicyMap, namespaced: bool)
    requires k in h && k in a && k in b && IsAccumulated([h, a, b], m) && IsAccumulated([h, b, a], n)
    requires Uniform([h[k], a[k], b[k]])
    requires FullMetadata(h[k], namespaced) && FullMetadata(a[k], namespaced) && FullMetadata(b[k], namespaced)
    requires Precedes(h[k], a[k]) && Precedes(h[k], b[k]) && !UnderOverride(path)
    requires At(h[k], path) == Absent && At(a[k], path) != Absent && At(b[k], path) != Absent
    requires At(a[k], path) != At(b[k], path)
    ensures k in m && At(m[k], path) == At(a[k], path) && k in n && At(n[k], path) == At(b[k], path) && m[k] != n[k]
  {
    hide At, FullMetadata, Precedes, Uniform, IsAccumulated;
    UniformSwapped(h[k], a[k], b[k]);
    FirstOfThree(h, a, b, k, path, m, namespaced);
    FirstOfThree(h, b, a, k, path, n, namespaced);
  }

  /** Two routes are enough, if their policies have the same identity: `shared` is attached to both and says
      nothing at a path, `other` is attached to the first one only, and `above` to the Namespace of both. */
  lemma TwoRoutesOrderMatters(shared: Policy, other: Policy, above: Policy, path: Path, namespaced: bool)
    requires UniformKind({shared, other, above}, namespaced) && Precedes(shared, other) && !UnderOverride(path)
    requires At(shared, path) == Absent && At(other, path) != Absent && At(above, path) != Absent
    ensures Fold([shared, other]).Ok? && MergePolicy(above, Fold([shared, other]).value).Ok?
    ensures MergePolicy(above, shared).Ok?
    ensures var first := MergePolicy(above, Fold([shared, other]).value).value;
      var second := MergePolicy(above, shared).value;
      && SameIdentity(first, second)
      && MergeSame(first, second).Ok? && At(MergeSame(first, second).value, path) == At(above, path)
      && MergeSame(second, first).Ok? && At(MergeSame(second, first).value, path) == At(other, path)
  {
    hide At, Precedes, FullMetadata, WellFormed, Kindred, MergePolicy, MergeSame, SameIdentity, AkinToAll;
    var members := {shared, other, above};
    MembersAreDerived(members, namespaced, shared);
    MembersAreDerived(members, namespaced, other);
    MembersAreDerived(members, namespaced, above);
    assert [shared, other][..1] == [shared];
    MergeSameIs(shared, other);
    var both := MergedOf(members, namespaced, other, shared, path);
    var first := MergedOf(members, namespaced, above, both, path);
    var second := MergedOf(members, namespaced, above, shared, path);
    SameIdentityTransitive(first, both, shared);
    EqualIdentity(first, second, shared);
    MergeSameIs(first, second);
    MergeSameIs(second, first);
    var third := MergedOf(members, namespaced, first, second, path);
    var fourth := MergedOf(members, namespaced, second, first, path);
  }

  lemma MergedOf(members: set<Policy>, namespaced: bool, parent: Policy, child: Policy, path: Path)
    returns (merged: Policy)
    requires UniformKind(members, namespaced)
    requires Derived(members, namespaced, parent) && Derived(members, namespaced, child) && !UnderOverride(path)
    ensures MergePolicy(parent, child) == Ok(merged) && Derived(members, namespaced, merged)
    ensures SameIdentity(merged, child) && At(merged, path) == Or(At(child, path), At(parent, path))
  {
    hide At, FullMetadata, WellFormed, Kindred, MergePolicy, SameIdentity, UniformKind;
    DerivedAreAkin(members, namespaced, parent, child);
    MergedIsWellFormed(parent, child);
    MergedAt(parent, child, path);
    ChildKeepsMetadata(parent, child, namespaced);
    merged := MergePolicy(parent, child).value;
  }

  lemma EqualIdentity(a: Policy, b: Policy, c: Policy)
    requires SameIdentity(a, c) && SameIdentity(b, c)
    ensures SameIdentity(a, b) && !Precedes(a, b) && !Precedes(b, a)
  {
    PrecedesByIdentity(a, c, a);
    Irreflexive(c);
  }

  // ---------------------------------------------------------------- any number of routes

  ghost function KindIn(level: PolicyMap, k: string): seq<Policy> {
    if k in level then [level[k]] else []
  }

  function Without(maps: seq<PolicyMap>, i: nat): (rest: seq<PolicyMap>)
    requires i < |maps|
    ensures |rest| == |maps| - 1
  {
    maps[..i] + maps[i + 1..]
  }

  lemma PresentAt(maps: seq<PolicyMap>, i: nat, k: string)
    requires i < |maps|
    ensures multiset(maps) == multiset(Without(maps, i)) + multiset{maps[i]}
    ensures multiset(Present(maps, k)) == multiset(Present(Without(maps, i), k)) + multiset(KindIn(maps[i], k))
  {
    hide Present;
    assert maps == maps[..i] + ([maps[i]] + maps[i + 1..]);
    PresentAppend(maps[..i], [maps[i]] + maps[i + 1..], k);
    PresentAppend([maps[i]], maps[i + 1..], k);
    PresentAppend(maps[..i], maps[i + 1..], k);
    PresentOne(maps[i], k);
    assert multiset(maps) == multiset(maps[..i]) + (multiset([maps[i]]) + multiset(maps[i + 1..]));
  }

  /** Another order of the routes is another order of their policies of a kind. */
  lemma {:induction false} ReorderedPresent(maps: seq<PolicyMap>, maps': seq<PolicyMap>, k: string)
    requires multiset(maps) == multiset(maps')
    ensures multiset(Present(maps, k)) == multiset(Present(maps', k))
    decreases |maps'|
  {
    hide Present, KindIn;
    if maps' == [] {
      assert |multiset(maps)| == 0;
      assert maps == [];
    } else {
      var n := |maps'| - 1;
      var i := Holder(maps, maps', maps'[n]);
      var rest, rest' := Without(maps, i), Without(maps', n);
      PresentAt(maps, i, k);
      PresentAt(maps', n, k);
      Cancel(multiset(rest), multiset(rest'), maps'[n]);
      ReorderedPresent(rest, rest', k);
    }
  }

  lemma {:induction false} PresentHolder(maps: seq<PolicyMap>, k: string, p: Policy) returns (i: nat)
    requires p in Present(maps, k)
    ensures i < |maps| && k in maps[i] && maps[i][k] == p
  {
    var init, last := maps[..|maps| - 1], maps[|maps| - 1];
    if k in last && last[k] == p {
      i := |maps| - 1;
    } else {
      i := PresentHolder(init, k, p);
    }
  }

  /** And every order of these policies comes from one of the routes. */
  lemma {:induction false} RoutesInOrder(maps: seq<PolicyMap>, k: string, qs: seq<Policy>)
    returns (maps': seq<PolicyMap>)
    requires multiset(qs) == multiset(Present(maps, k))
    ensures multiset(maps') == multiset(maps) && Present(maps', k) == qs
    decreases |qs|
  {
    hide Present, Without;
    if qs == [] {
      assert |multiset(Present(maps, k))| == 0;
      assert Present(maps, k) == [];
      maps' := maps;
    } else {
      var init, last := qs[..|qs| - 1], qs[|qs| - 1];
      assert last in multiset(qs);
      var i := PresentHolder(maps, k, last);
      PresentAt(maps, i, k);
      InitAndLast(qs);
      Cancel(multiset(Present(Without(maps, i), k)), multiset(init), last);
      var rest := RoutesInOrder(Without(maps, i), k, init);
      maps' := rest + [maps[i]];
      PresentAppend(rest, [maps[i]], k);
      PresentOne(maps[i], k);
      assert qs == init + [last];
    }
  }

  /** In any order of the routes, the merged policy of a kind has the same at the path. */
  ghost predicate AllRouteOrdersAgree(maps: seq<PolicyMap>, k: string, path: Path) {
    forall maps': seq<PolicyMap>, m, m' ::
      multiset(maps') == multiset(maps) && IsAccumulated(maps, m) && IsAccumulated(maps', m') ==>
        SameCell(m, m', k, path)
  }

  ghost predicate SameCell(m: PolicyMap, m': PolicyMap, k: string, path: Path) {
    CellOf(m, k, path) == CellOf(m', k, path)
  }

  function CellOf(m: PolicyMap, k: string, path: Path): Cell {
    if k in m then At(m[k], path) else Absent
  }

  /** The policies that the routes have of a kind fit together. */
  ghost predicate Orderly(maps: seq<PolicyMap>, k: string, namespaced: bool) {
    && Uniform(Present(maps, k))
    && forall i :: 0 <= i < |Present(maps, k)| ==> FullMetadata(Present(maps, k)[i], namespaced)
  }

  lemma OrderlyReordered(maps: seq<PolicyMap>, maps': seq<PolicyMap>, k: string, namespaced: bool)
    requires Orderly(maps, k, namespaced) && multiset(maps') == multiset(maps)
    ensures Orderly(maps', k, namespaced) && Elements(Present(maps', k)) == Elements(Present(maps, k))
    ensures multiset(Present(maps, k)) == multiset(Present(maps', k))
  {
    hide Present, FullMetadata, WellFormed, Kindred;
    ReorderedPresent(maps, maps', k);
    var ps, qs := Present(maps, k), Present(maps', k);
    SameElements(ps, qs);
    forall i | 0 <= i < |qs| ensures qs[i] in ps {}
    forall q | q in ps ensures WellFormed(q) && FullMetadata(q, namespaced) {}
    forall p, q | p in ps && q in ps ensures Kindred(p, q) {}
  }

  /** What the merge has at a path is what wins among the routes. */
  lemma AccumulatedAt(maps: seq<PolicyMap>, merged: PolicyMap, k: string, path: Path, namespaced: bool)
    requires IsAccumulated(maps, merged) && Orderly(maps, k, namespaced)
    ensures WinningCell(Present(maps, k), path) == CellOf(merged, k, path)
  {
    hide Present, FullMetadata, Uniform, IsAccumulated, Fold;
    AccumulatedIsFold(maps, merged, k);
    if k in merged { FoldAt(Present(maps, k), path, namespaced); }
  }

  /** Main result at a path: the order of the routes makes no difference to what the backend gets from them
      exactly if the path is order-free for their policies of the kind. */
  lemma AllRouteOrdersAgreeIff(maps: seq<PolicyMap>, k: string, path: Path, namespaced: bool)
    requires AllMapsSound(maps) && Orderly(maps, k, namespaced)
    ensures AllRouteOrdersAgree(maps, k, path) <==> OrderFree(Elements(Present(maps, k)), path)
  {
    hide Present, IsAccumulated, Orderly, OrderFree, WinningCell, AllMapsSound, At;
    var ps := Present(maps, k);
    OrderlyReordered(maps, maps, k, namespaced);
    AllOrdersAgreeIff(ps, path);
    if AllOrdersAgree(ps, path) {
      forall maps': seq<PolicyMap>, m, m' | multiset(maps') == multiset(maps) && IsAccumulated(maps, m)
        && IsAccumulated(maps', m')
        ensures SameCell(m, m', k, path)
      {
        OrderlyReordered(maps, maps', k, namespaced);
        AccumulatedAt(maps, m, k, path, namespaced);
        AccumulatedAt(maps', m', k, path, namespaced);
      }
    } else {
      var qs: seq<Policy> :| multiset(qs) == multiset(ps) && WinningCell(qs, path) != WinningCell(ps, path);
      var maps' := RoutesInOrder(maps, k, qs);
      OrderlyReordered(maps, maps', k, namespaced);
      SoundReordered(maps, maps');
      var m := AccumulationExists(maps);
      var m' := AccumulationExists(maps');
      AccumulatedAt(maps, m, k, path, namespaced);
      AccumulatedAt(maps', m', k, path, namespaced);
      assert !SameCell(m, m', k, path);
    }
  }

  lemma SoundReordered(maps: seq<PolicyMap>, maps': seq<PolicyMap>)
    requires AllMapsSound(maps) && multiset(maps') == multiset(maps)
    ensures AllMapsSound(maps')
  {
    hide Sound;
    forall i | 0 <= i < |maps'| ensures Sound(maps'[i]) { assert maps'[i] in multiset(maps); }
  }

  ghost predicate SameInAnyOrder(maps: seq<PolicyMap>, m: PolicyMap) {
    forall maps': seq<PolicyMap>, m' :: multiset(maps') == multiset(maps) && IsAccumulated(maps', m') ==> m == m'
  }

  ghost predicate AllOrderFree(maps: seq<PolicyMap>, m: PolicyMap) {
    forall k, path :: k in m ==> OrderFree(Elements(Present(maps, k)), path)
  }

  /** Main result: routes merge to the same policies in any order exactly if all kinds are order-free at every
      path. */
  lemma AnyOrderOfRoutesIff(maps: seq<PolicyMap>, m: PolicyMap)
    requires AllMapsSound(maps) && IsAccumulated(maps, m)
    requires forall k :: k in m ==> exists namespaced :: Orderly(maps, k, namespaced)
    ensures SameInAnyOrder(maps, m) <==> AllOrderFree(maps, m)
  {
    hide Present, IsAccumulated, Orderly, OrderFree, AllMapsSound, At, Elements;
    if AllOrderFree(maps, m) {
      forall maps': seq<PolicyMap>, m' | multiset(maps') == multiset(maps) && IsAccumulated(maps', m') ensures m == m' {
        AnyOrderOfRoutes(maps, maps', m, m');
      }
    }
    if SameInAnyOrder(maps, m) {
      forall k, path | k in m
        ensures OrderFree(Elements(Present(maps, k)), path)
      {
        SameMeansOrderFree(maps, m, k, path);
      }
    }
  }

  lemma SameMeansOrderFree(maps: seq<PolicyMap>, m: PolicyMap, k: string, path: Path)
    requires AllMapsSound(maps) && IsAccumulated(maps, m) && SameInAnyOrder(maps, m) && k in m
    requires exists namespaced :: Orderly(maps, k, namespaced)
    ensures OrderFree(Elements(Present(maps, k)), path)
  {
    hide Present, IsAccumulated, Orderly, OrderFree, AllMapsSound, At;
    AccumulatedIsFold(maps, m, k);
    var namespaced :| Orderly(maps, k, namespaced);
    AllRouteOrdersAgreeIff(maps, k, path, namespaced);
    forall maps': seq<PolicyMap>, n, m' | multiset(maps') == multiset(maps) && IsAccumulated(maps, n)
      && IsAccumulated(maps', m')
      ensures SameCell(n, m', k, path)
    {
      assert m == n == m';
    }
  }

  lemma AnyOrderOfRoutes(maps: seq<PolicyMap>, maps': seq<PolicyMap>, m: PolicyMap, m': PolicyMap)
    requires multiset(maps') == multiset(maps) && IsAccumulated(maps, m) && IsAccumulated(maps', m')
    requires forall k :: k in m ==> exists namespaced :: Orderly(maps, k, namespaced)
    requires AllOrderFree(maps, m)
    ensures m == m'
  {
    hide Present, IsAccumulated, Orderly, OrderFree, Fold;
    forall k ensures k in m <==> k in m'
      ensures k in m ==> m[k] == m'[k]
    {
      AccumulatedIsFold(maps, m, k);
      AccumulatedIsFold(maps', m', k);
      ReorderedPresent(maps, maps', k);
      SameElements(Present(maps, k), Present(maps', k));
      if k in m {
        var namespaced :| Orderly(maps, k, namespaced);
        OneKindInAnyOrder(maps, maps', k, namespaced);
      }
    }
  }

  lemma OneKindInAnyOrder(maps: seq<PolicyMap>, maps': seq<PolicyMap>, k: string, namespaced: bool)
    requires multiset(maps') == multiset(maps) && Orderly(maps, k, namespaced)
    requires Present(maps, k) != [] && Present(maps', k) != []
    requires forall path :: OrderFree(Elements(Present(maps, k)), path)
    ensures Fold(Present(maps', k)) == Fold(Present(maps, k))
  {
    hide Present, OrderFree, Fold;
    ReorderedPresent(maps, maps', k);
    FoldsAgree(Present(maps, k), Present(maps', k), namespaced);
  }

  // ---------------------------------------------------------------- the levels of the backend below

  /** What a backend has of a kind at a path, given what its routes have and the policies of its own levels. */
  function BelowRoutes(won: Cell, lower: seq<Policy>, path: Path): Cell {
    if UnderOverride(path) then Or(won, Topmost(lower, path)) else Or(MostSpecific(lower, path), won)
  }

  /** Main result: what wins among the routes is the top of the chain that ends with the levels of the backend. */
  lemma BackendAt(maps: seq<PolicyMap>, above: PolicyMap, levels: seq<PolicyMap>, merged: PolicyMap, k: string,
                  path: Path, members: set<Policy>, namespaced: bool)
    requires IsAccumulated(maps, above) && IsHierarchy([above] + levels, merged) && UniformKind(members, namespaced)
    requires AllDerived(members, namespaced, Present(maps, k)) && AllDerived(members, namespaced, Present(levels, k))
    ensures CellOf(merged, k, path) == BelowRoutes(WinningCell(Present(maps, k), path), Present(levels, k), path)
  {
    hide Present, IsAccumulated, Derived, Chain, Fold, At, UniformKind;
    var ps, lower := Present(maps, k), Present(levels, k);
    AccumulatedIsFold(maps, above, k);
    PresentAppend([above], levels, k);
    PresentOne(above, k);
    if k in above {
      FoldIsDerived(members, namespaced, ps);
      DerivedAreUniform(members, namespaced, ps);
      FoldAt(ps, path, namespaced);
      FirstAndLastReversed(above[k], lower, path);
    } else {
      assert [] + lower == lower;
    }
    var all := Present([above] + levels, k);
    DerivedAreUniform(members, namespaced, all);
    if k in merged { ChainAt(all, path); }
  }

  /** In any order of the routes, the backend ends up with the same of a kind at the path. */
  ghost predicate AllBackendOrdersAgree(maps: seq<PolicyMap>, lower: seq<Policy>, k: string, path: Path) {
    forall maps': seq<PolicyMap> :: multiset(maps') == multiset(maps) ==> SameBelow(maps, maps', lower, k, path)
  }

  ghost predicate SameBelow(maps: seq<PolicyMap>, maps': seq<PolicyMap>, lower: seq<Policy>, k: string, path: Path) {
    BelowRoutes(WinningCell(Present(maps, k), path), lower, path) ==
      BelowRoutes(WinningCell(Present(maps', k), path), lower, path)
  }

  lemma BothSet(qs: seq<Policy>, rs: seq<Policy>, path: Path)
    requires multiset(qs) == multiset(rs)
    ensures WinningCell(qs, path) == Absent <==> WinningCell(rs, path) == Absent
  {
    hide At;
    SameElements(qs, rs);
    WinningCellIs(qs, path);
    WinningCellIs(rs, path);
    if i :| 0 <= i < |qs| && At(qs[i], path) != Absent { assert qs[i] in rs; }
    if i :| 0 <= i < |rs| && At(rs[i], path) != Absent { assert rs[i] in qs; }
  }

  /** Main result: so the order of the routes makes no difference to the backend exactly if the path is
      order-free, or it is not below the override and a level of the backend itself has something there. */
  lemma AllBackendOrdersAgreeIff(maps: seq<PolicyMap>, lower: seq<Policy>, k: string, path: Path)
    ensures AllBackendOrdersAgree(maps, lower, k, path) <==>
      || OrderFree(Elements(Present(maps, k)), path)
      || (!UnderOverride(path) && MostSpecific(lower, path) != Absent)
  {
    hide Present, OrderFree, At, Topmost, MostSpecific, WinningCell;
    var ps := Present(maps, k);
    AllOrdersAgreeIff(ps, path);
    if AllOrdersAgree(ps, path) {
      forall maps': seq<PolicyMap> | multiset(maps') == multiset(maps) ensures SameBelow(maps, maps', lower, k, path) {
        ReorderedPresent(maps, maps', k);
      }
    } else {
      var qs, rs := OrdersDiffer(ps, path);
      BothSet(qs, rs, path);
      var maps' := RoutesInOrder(maps, k, qs);
      var maps'' := RoutesInOrder(maps, k, rs);
      assert AllBackendOrdersAgree(maps, lower, k, path) ==>
        SameBelow(maps, maps', lower, k, path) && SameBelow(maps, maps'', lower, k, path);
    }
  }
}

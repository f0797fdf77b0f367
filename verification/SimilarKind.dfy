/** Merging policies of one kind at one level of the hierarchy
    (MergePoliciesOfSimilarKind and orderPolicyByPrecedence, pkg/policymanager/merger.go). */
module SimilarKind {
  import opened Common
  import opened Json
  import opened Policy
  import opened Hierarchy
  import Strings

  /** The namespaced name that precedence looks at. */
  function NN(p: Policy): string {
    p.Namespace() + "/" + p.Name()
  }

  /** GEP-713: `a` has precedence over `b` if it is older or, at the same age, alphabetically first. */
  predicate Precedes(a: Policy, b: Policy) {
    a.Created() < b.Created() || (a.Created() == b.Created() && Strings.Less(NN(a), NN(b)))
  }

  /** orderPolicyByPrecedence: copies of the two, the one with precedence last. */
  function OrderByPrecedence(a: Policy, b: Policy): (Policy, Policy) {
    var lower, higher := a.DeepCopy(), b.DeepCopy();
    if lower.Created() == higher.Created() then
      if Strings.Less(NN(lower), NN(higher)) then (higher, lower) else (lower, higher)
    else if lower.Created() < higher.Created() then (higher, lower)
    else (lower, higher)
  }

  lemma OrderPutsPrecedingLast(a: Policy, b: Policy)
    ensures OrderByPrecedence(a, b) ==
      if Precedes(a, b) then (b.DeepCopy(), a.DeepCopy()) else (a.DeepCopy(), b.DeepCopy())
  {
  }

  /** Main result on two policies: whichever way round, the older one comes last, and at the same age the one
      that is alphabetically first. */
  lemma OldestThenFirst(a: Policy, b: Policy)
    requires || a.Created() < b.Created()
             || (a.Created() == b.Created()
                 && Strings.Alphabetical(a.Namespace() + "/" + a.Name(), b.Namespace() + "/" + b.Name()))
    ensures OrderByPrecedence(a, b) == OrderByPrecedence(b, a) == (b.DeepCopy(), a.DeepCopy())
  {
    Strings.LessIff(NN(a), NN(b));
    if a.Created() == b.Created() {
      if Strings.Less(NN(b), NN(a)) {
        Strings.LessTransitive(NN(a), NN(b), NN(a));
        Strings.LessIrreflexive(NN(a));
      }
    }
  }

  /** In one namespace that is the one whose name is alphabetically first. */
  lemma FirstNameLast(a: Policy, b: Policy)
    requires a.Created() == b.Created() && a.Namespace() == b.Namespace()
    requires Strings.Alphabetical(a.Name(), b.Name())
    ensures OrderByPrecedence(a, b) == OrderByPrecedence(b, a) == (b.DeepCopy(), a.DeepCopy())
  {
    var prefix := a.Namespace() + "/";
    Strings.LessIff(a.Name(), b.Name());
    Strings.LessBehind(prefix, a.Name(), b.Name());
    Strings.LessIff(prefix + a.Name(), prefix + b.Name());
    OldestThenFirst(a, b);
  }

  lemma PrecedesTransitive(a: Policy, b: Policy, c: Policy)
    requires Precedes(a, b) && Precedes(b, c)
    ensures Precedes(a, c)
  {
    if a.Created() == c.Created() { Strings.LessTransitive(NN(a), NN(b), NN(c)); }
  }

  /** Precedence is a strict total order on policies whose namespaces have no slash: exactly two policies
      with the same time, namespace and name are not ordered. */
  lemma PrecedesTotal(a: Policy, b: Policy)
    requires '/' !in a.Namespace() && '/' !in b.Namespace()
    ensures !(Precedes(a, b) && Precedes(b, a))
    ensures !Precedes(a, b) && !Precedes(b, a)
      <==> a.Created() == b.Created() && a.Namespace() == b.Namespace() && a.Name() == b.Name()
  {
    Strings.LessTotal(NN(a), NN(b));
    Strings.LessIrreflexive(NN(a));
    if Precedes(a, b) && Precedes(b, a) { PrecedesTransitive(a, b, a); }
    if NN(a) == NN(b) {
      assert a.Namespace() + ['/'] + a.Name() == b.Namespace() + ['/'] + b.Name();
      Strings.JoinInjective(a.Namespace(), a.Name(), b.Namespace(), b.Name(), '/');
    }
  }

  /** One step of a merge at the same level. */
  function MergeSame(a: Policy, b: Policy): Result<Policy, Error> {
    var (lower, higher) := OrderByPrecedence(a, b);
    MergePolicy(lower, higher)
  }

  lemma MergeSameIs(a: Policy, b: Policy)
    ensures MergeSame(a, b) == if Precedes(a, b) then MergePolicy(b, a) else MergePolicy(a, b)
  {
  }

  /** Merging at the same level does not depend on which of the two comes first, unless they are different
      policies that cannot be told apart. */
  lemma MergeSameCommutes(a: Policy, b: Policy)
    requires '/' !in a.Namespace() && '/' !in b.Namespace()
    requires SameIdentity(a, b) ==> a == b
    ensures MergeSame(a, b) == MergeSame(b, a)
  {
    PrecedesTotal(a, b);
    MergeSameIs(a, b);
    MergeSameIs(b, a);
  }

  /** What the loop of MergePoliciesOfSimilarKind does with the policies of one kind. */
  function Fold(ps: seq<Policy>): Result<Policy, Error>
    requires ps != []
  {
    if |ps| == 1 then Ok(ps[0])
    else match Fold(ps[..|ps| - 1])
      case Err(e) => Err(e)
      case Ok(existing) => MergeSame(existing, ps[|ps| - 1])
  }

  // ---------------------------------------------------------------- identity

  /** The metadata that precedence needs, of a policy in a namespace or of a cluster-wide one. */
  predicate FullMetadata(p: Policy, namespaced: bool) {
    && IsString(At(p, ["metadata", "name"]))
    && (if namespaced then IsString(At(p, ["metadata", "namespace"])) else At(p, ["metadata", "namespace"]) == Absent)
    && At(p, ["metadata", "creationTimestamp"]).Value? && At(p, ["metadata", "creationTimestamp"]).leaf.Time?
  }

  predicate SameIdentity(a: Policy, b: Policy) {
    a.Created() == b.Created() && a.Namespace() == b.Namespace() && a.Name() == b.Name()
  }

  lemma PrecedesByIdentity(a: Policy, a': Policy, b: Policy)
    requires SameIdentity(a, a')
    ensures Precedes(a, b) == Precedes(a', b) && Precedes(b, a) == Precedes(b, a')
  {
  }

  /** The policy with the highest precedence; of several with the same identity the last one. */
  function Highest(ps: seq<Policy>): (h: nat)
    requires ps != []
    ensures h < |ps|
  {
    if |ps| == 1 then 0
    else
      var h := Highest(ps[..|ps| - 1]);
      if Precedes(ps[h], ps[|ps| - 1]) then h else |ps| - 1
  }

  /** Main result on identity: whatever the order and the content, the result is the policy with the
      highest precedence as far as name, namespace and time go, and it keeps all that this policy says
      outside its override. */
  lemma {:induction false} FoldKeepsHighest(ps: seq<Policy>, path: Path, namespaced: bool)
    requires ps != [] && Fold(ps).Ok? && forall i :: 0 <= i < |ps| ==> FullMetadata(ps[i], namespaced)
    ensures FullMetadata(Fold(ps).value, namespaced) && SameIdentity(Fold(ps).value, ps[Highest(ps)])
    ensures var c := At(ps[Highest(ps)], path);
      |path| >= 2 && !UnderOverride(path) && c.Value? && c.leaf != Null ==> At(Fold(ps).value, path) == c
  {
    hide Precedes, FullMetadata, MergePolicy, SameIdentity;
    if |ps| == 1 {
      SameIdentityReflexive(ps[0]);
    } else {
      var init, last := ps[..|ps| - 1], ps[|ps| - 1];
      FoldKeepsHighest(init, path, namespaced);
      var existing := Fold(init).value;
      MergeSameIs(existing, last);
      PrecedesByIdentity(existing, ps[Highest(init)], last);
      var (parent, child) := if Precedes(existing, last) then (last, existing) else (existing, last);
      ChildKeepsMetadata(parent, child, namespaced);
      SameIdentityTransitive(Fold(ps).value, child, ps[Highest(ps)]);
      var c := At(child, path);
      if |path| >= 2 && !UnderOverride(path) && c.Value? && c.leaf != Null {
        ChildValueSurvives(parent, child, path);
      }
    }
  }

  lemma SameIdentityReflexive(a: Policy)
    ensures SameIdentity(a, a)
  {
  }

  lemma SameIdentityTransitive(a: Policy, b: Policy, c: Policy)
    requires SameIdentity(a, b)
    ensures SameIdentity(b, c) ==> SameIdentity(a, c)
  {
  }

  lemma ChildKeepsMetadata(parent: Policy, child: Policy, namespaced: bool)
    requires MergePolicy(parent, child).Ok? && FullMetadata(parent, namespaced) && FullMetadata(child, namespaced)
    ensures FullMetadata(MergePolicy(parent, child).value, namespaced)
    ensures SameIdentity(MergePolicy(parent, child).value, child)
  {
    hide MergePolicy;
    if namespaced {
      ChildValueSurvives(parent, child, ["metadata", "namespace"]);
    } else {
      AbsentStays(parent, child, ["metadata", "namespace"]);
    }
    ChildValueSurvives(parent, child, ["metadata", "name"]);
    ChildValueSurvives(parent, child, ["metadata", "creationTimestamp"]);
  }

  // ---------------------------------------------------------------- which policy a value comes from

  lemma PrecedesAsymmetric(a: Policy, b: Policy)
    requires Precedes(a, b)
    ensures !Precedes(b, a)
  {
    if Precedes(b, a) { PrecedesTransitive(a, b, a); Strings.LessIrreflexive(NN(a)); }
  }

  /** No two policies have the same identity. */
  ghost predicate Ranked(ps: seq<Policy>) {
    forall i, j :: 0 <= i < |ps| && 0 <= j < |ps| && i != j ==> Precedes(ps[i], ps[j]) || Precedes(ps[j], ps[i])
  }

  lemma {:induction false} HighestPrecedesAll(ps: seq<Policy>, i: nat)
    requires ps != [] && Ranked(ps) && i < |ps| && i != Highest(ps)
    ensures Precedes(ps[Highest(ps)], ps[i])
  {
    var init, last := ps[..|ps| - 1], ps[|ps| - 1];
    var h := Highest(init);
    assert Ranked(init);
    if i < |init| && i != h {
      HighestPrecedesAll(init, i);
      if Highest(ps) == |ps| - 1 { PrecedesTransitive(last, ps[h], ps[i]); }
    }
  }

  /** A policy precedes the highest of others exactly if it precedes each of them. */
  lemma PrecedesHighest(ps: seq<Policy>, p: Policy)
    requires ps != [] && Ranked(ps)
    ensures Precedes(p, ps[Highest(ps)]) <==> forall i :: 0 <= i < |ps| ==> Precedes(p, ps[i])
  {
    var h := Highest(ps);
    if Precedes(p, ps[h]) {
      forall i | 0 <= i < |ps| ensures Precedes(p, ps[i]) {
        if i != h {
          HighestPrecedesAll(ps, i);
          PrecedesTransitive(p, ps[h], ps[i]);
        }
      }
    }
  }

  /** The policy whose default the fold ends up with: a new one takes over if it has precedence over all
      before it, or if none before it has said anything. */
  function DefaultWinner(ps: seq<Policy>, path: Path): (w: Option<nat>)
    ensures w.Some? ==> w.value < |ps| && At(ps[w.value], path) != Absent
    ensures w.Some? <==> exists i :: 0 <= i < |ps| && At(ps[i], path) != Absent
  {
    if ps == [] then None
    else
      var init, last := ps[..|ps| - 1], ps[|ps| - 1];
      var w := DefaultWinner(init, path);
      if At(last, path) == Absent then w
      else if w.Some? && Precedes(ps[Highest(init)], last) then w
      else Some(|ps| - 1)
  }

  /** The policy whose override the fold ends up with. */
  function OverrideWinner(ps: seq<Policy>, path: Path): (w: Option<nat>)
    ensures w.Some? ==> w.value < |ps| && At(ps[w.value], path) != Absent
    ensures w.Some? <==> exists i :: 0 <= i < |ps| && At(ps[i], path) != Absent
  {
    if ps == [] then None
    else
      var init, last := ps[..|ps| - 1], ps[|ps| - 1];
      var w := OverrideWinner(init, path);
      if At(last, path) == Absent then w
      else if w.Some? && !Precedes(ps[Highest(init)], last) then w
      else Some(|ps| - 1)
  }

  function Winner(ps: seq<Policy>, path: Path): Option<nat> {
    if UnderOverride(path) then OverrideWinner(ps, path) else DefaultWinner(ps, path)
  }

  lemma {:induction false} FoldIsWellFormed(ps: seq<Policy>)
    requires Uniform(ps) && ps != []
    ensures Fold(ps).Ok? && WellFormed(Fold(ps).value)
    ensures forall other :: (forall i :: 0 <= i < |ps| ==> Kindred(ps[i], other)) ==> Kindred(Fold(ps).value, other)
  {
    if |ps| > 1 {
      var init, last := ps[..|ps| - 1], ps[|ps| - 1];
      FoldIsWellFormed(init);
      var existing := Fold(init).value;
      assert Kindred(existing, last);
      KindredSymmetric(existing, last);
      MergeSameIs(existing, last);
      if Precedes(existing, last) { MergedIsWellFormed(last, existing); } else { MergedIsWellFormed(existing, last); }
    }
  }

  /** Main result on content: at every path the fold has what the winner of that path has. */
  lemma {:induction false} FoldAt(ps: seq<Policy>, path: Path, namespaced: bool)
    requires Uniform(ps) && ps != [] && forall i :: 0 <= i < |ps| ==> FullMetadata(ps[i], namespaced)
    ensures Fold(ps).Ok?
    ensures At(Fold(ps).value, path) == match Winner(ps, path) case Some(w) => At(ps[w], path) case None => Absent
  {
    hide Kindred, Precedes, FullMetadata, MergePolicy, WellFormed, SameIdentity, MergeSame;
    FoldIsWellFormed(ps);
    if |ps| > 1 {
      var init, last := ps[..|ps| - 1], ps[|ps| - 1];
      FoldIsWellFormed(init);
      FoldAt(init, path, namespaced);
      FoldKeepsHighest(init, path, namespaced);
      var existing := Fold(init).value;
      assert Kindred(existing, last);
      KindredSymmetric(existing, last);
      PrecedesByIdentity(existing, ps[Highest(init)], last);
      MergeSameIs(existing, last);
      if Precedes(existing, last) { MergedAt(last, existing, path); } else { MergedAt(existing, last, path); }
    } else {
      assert ps[..0] == [];
    }
  }

  /** Main result on defaults: the one of the highest-precedence policy that says something is the one that
      wins, exactly if nobody before it in the list says anything or it has precedence over all before it. */
  lemma {:induction false} DefaultsIff(ps: seq<Policy>, path: Path, h: nat)
    requires Ranked(ps) && h < |ps| && At(ps[h], path) != Absent
    requires forall i :: 0 <= i < |ps| && i != h && At(ps[i], path) != Absent ==> Precedes(ps[h], ps[i])
    ensures DefaultWinner(ps, path) == Some(h)
      <==> (forall j :: 0 <= j < h ==> At(ps[j], path) == Absent) || (forall j :: 0 <= j < h ==> Precedes(ps[h], ps[j]))
  {
    hide Precedes, At;
    var init, last := ps[..|ps| - 1], ps[|ps| - 1];
    assert Ranked(init);
    if h == |ps| - 1 {
      if init != [] {
        PrecedesHighest(init, last);
        AsymmetricAt(ps, Highest(init), h);
      }
    } else {
      DefaultsIff(init, path, h);
      if At(last, path) != Absent && Highest(init) != h {
        HighestPrecedesAll(init, h);
        PrecedesTransitive(ps[Highest(init)], ps[h], last);
      }
    }
  }

  lemma AsymmetricAt(ps: seq<Policy>, i: nat, j: nat)
    requires Ranked(ps) && i < |ps| && j < |ps| && i != j
    ensures Precedes(ps[i], ps[j]) <==> !Precedes(ps[j], ps[i])
  {
    if Precedes(ps[i], ps[j]) { PrecedesAsymmetric(ps[i], ps[j]); }
  }

  /** Main result on overrides: the one of the lowest-precedence policy that says something is the one that
      wins, exactly if every later policy that says something has precedence over all before it. */
  lemma {:induction false} OverridesIff(ps: seq<Policy>, path: Path, l: nat)
    requires Ranked(ps) && l < |ps| && At(ps[l], path) != Absent
    requires forall i :: 0 <= i < |ps| && i != l && At(ps[i], path) != Absent ==> Precedes(ps[i], ps[l])
    ensures OverrideWinner(ps, path) == Some(l)
      <==> forall j :: l < j < |ps| && At(ps[j], path) != Absent ==> forall i :: 0 <= i < j ==> Precedes(ps[j], ps[i])
  {
    hide Precedes, At;
    var init, last := ps[..|ps| - 1], ps[|ps| - 1];
    assert Ranked(init);
    if l == |ps| - 1 {
      if w :| 0 <= w < |init| && At(init[w], path) != Absent {
        if w != Highest(init) {
          HighestPrecedesAll(init, w);
          PrecedesTransitive(ps[Highest(init)], ps[w], last);
        }
      }
    } else {
      OverridesIff(init, path, l);
      if At(last, path) != Absent {
        PrecedesHighest(init, last);
        AsymmetricAt(ps, Highest(init), |ps| - 1);
      }
      assert forall j :: l < j < |init| ==>
        forall i :: 0 <= i < j ==> Precedes(ps[j], ps[i]) == Precedes(init[j], init[i]);
    }
  }

  /** So a default can come from the lower of two policies that set it: a higher one that sets nothing,
      and comes first in the list, makes the second lose against the first of them. */
  lemma DefaultFromLower(highest: Policy, lower: Policy, higher: Policy, path: Path, namespaced: bool)
    requires Uniform([highest, lower, higher]) && !UnderOverride(path)
    requires FullMetadata(highest, namespaced) && FullMetadata(lower, namespaced) && FullMetadata(higher, namespaced)
    requires Precedes(highest, higher) && Precedes(higher, lower)
    requires At(highest, path) == Absent && At(lower, path) != Absent && At(higher, path) != Absent
    ensures Fold([highest, lower, higher]).Ok? && At(Fold([highest, lower, higher]).value, path) == At(lower, path)
  {
    hide At, FullMetadata, Precedes, Uniform, Fold;
    PrecedesTransitive(highest, higher, lower);
    ThreeWinners(highest, lower, higher, path);
    FoldAt([highest, lower, higher], path, namespaced);
  }

  /** And an override can come from the higher of two: every policy below the highest so far replaces it. */
  lemma OverrideFromHigher(highest: Policy, lower: Policy, higher: Policy, path: Path, namespaced: bool)
    requires Uniform([highest, lower, higher]) && UnderOverride(path)
    requires FullMetadata(highest, namespaced) && FullMetadata(lower, namespaced) && FullMetadata(higher, namespaced)
    requires Precedes(highest, higher) && Precedes(higher, lower)
    requires At(lower, path) != Absent && At(higher, path) != Absent
    ensures Fold([highest, lower, higher]).Ok? && At(Fold([highest, lower, higher]).value, path) == At(higher, path)
  {
    hide At, FullMetadata, Precedes, Uniform, Fold;
    PrecedesTransitive(highest, higher, lower);
    ThreeWinners(highest, lower, higher, path);
    FoldAt([highest, lower, higher], path, namespaced);
  }

  lemma ThreeWinners(highest: Policy, second: Policy, third: Policy, path: Path)
    requires Precedes(highest, second) && Precedes(highest, third)
    requires At(second, path) != Absent && At(third, path) != Absent
    ensures At(highest, path) == Absent ==> DefaultWinner([highest, second, third], path) == Some(1)
    ensures OverrideWinner([highest, second, third], path) == Some(2)
  {
    hide Precedes, At;
    var one, two, three := [highest], [highest, second], [highest, second, third];
    assert three[..2] == two && two[..1] == one && one[..0] == [];
    assert Highest(one) == 0 && Highest(two) == 0;
  }

  // ---------------------------------------------------------------- sorted lists

  /** Lowest precedence first. */
  ghost predicate Ascending(ps: seq<Policy>) {
    forall i, j :: 0 <= i < j < |ps| ==> Precedes(ps[j], ps[i])
  }

  ghost predicate Descending(ps: seq<Policy>) {
    forall i, j :: 0 <= i < j < |ps| ==> Precedes(ps[i], ps[j])
  }

  function Reverse(ps: seq<Policy>): seq<Policy> {
    if ps == [] then [] else [ps[|ps| - 1]] + Reverse(ps[..|ps| - 1])
  }

  lemma {:induction false} ReverseAt(ps: seq<Policy>, i: nat)
    requires i < |ps|
    ensures |Reverse(ps)| == |ps| && Reverse(ps)[i] == ps[|ps| - 1 - i]
  {
    if i > 0 { ReverseAt(ps[..|ps| - 1], i - 1); }
    else if |ps| > 1 { ReverseAt(ps[..|ps| - 1], 0); }
  }

  function WinningCell(ps: seq<Policy>, path: Path): Cell {
    match Winner(ps, path) case Some(w) => At(ps[w], path) case None => Absent
  }

  lemma {:induction false} AscendingWinner(ps: seq<Policy>, path: Path)
    requires Ascending(ps)
    ensures WinningCell(ps, path) == if UnderOverride(path) then Topmost(ps, path) else MostSpecific(ps, path)
  {
    if ps != [] {
      var init, last := ps[..|ps| - 1], ps[|ps| - 1];
      AscendingWinner(init, path);
      if init != [] { PrecedesAsymmetric(last, ps[Highest(init)]); }
    }
  }

  lemma {:induction false} DescendingWinner(ps: seq<Policy>, path: Path)
    requires Descending(ps)
    ensures WinningCell(ps, path) == if UnderOverride(path) then MostSpecific(ps, path) else Topmost(ps, path)
  {
    if ps != [] {
      var init, last := ps[..|ps| - 1], ps[|ps| - 1];
      DescendingWinner(init, path);
      if init != [] { assert Precedes(ps[Highest(init)], last); }
    }
  }

  lemma {:induction false} FirstAndLastReversed(p: Policy, ps: seq<Policy>, path: Path)
    ensures Topmost([p] + ps, path) == Or(At(p, path), Topmost(ps, path))
    ensures MostSpecific([p] + ps, path) == Or(MostSpecific(ps, path), At(p, path))
  {
    if ps == [] {
      assert [p] + ps == [p] && [p][..0] == [];
    } else {
      assert ([p] + ps)[..|ps|] == [p] + ps[..|ps| - 1];
      FirstAndLastReversed(p, ps[..|ps| - 1], path);
    }
  }

  lemma {:induction false} ReversedCells(ps: seq<Policy>, path: Path)
    ensures Topmost(Reverse(ps), path) == MostSpecific(ps, path)
    ensures MostSpecific(Reverse(ps), path) == Topmost(ps, path)
  {
    if ps != [] {
      ReversedCells(ps[..|ps| - 1], path);
      FirstAndLastReversed(ps[|ps| - 1], Reverse(ps[..|ps| - 1]), path);
    }
  }

  lemma FoldDropsTargets(ps: seq<Policy>)
    requires |ps| > 1 && Fold(ps).Ok?
    ensures Fold(ps).value.targetRefs == [] && Fold(ps).value.status == ""
  {
    hide MergePolicy, Precedes;
    var existing, last := Fold(ps[..|ps| - 1]).value, ps[|ps| - 1];
    MergeSameIs(existing, last);
    if Precedes(existing, last) { MergedFields(last, existing); } else { MergedFields(existing, last); }
  }

  lemma ReverseKeeps(ps: seq<Policy>, namespaced: bool)
    requires Uniform(ps) && Ascending(ps) && forall i :: 0 <= i < |ps| ==> FullMetadata(ps[i], namespaced)
    ensures |Reverse(ps)| == |ps| && Uniform(Reverse(ps)) && Descending(Reverse(ps))
    ensures forall i :: 0 <= i < |ps| ==> FullMetadata(Reverse(ps)[i], namespaced)
  {
    hide Kindred, Precedes, FullMetadata, WellFormed;
    if ps != [] { ReverseAt(ps, 0); } else { assert Reverse(ps) == []; }
    forall i | 0 <= i < |ps| ensures Reverse(ps)[i] == ps[|ps| - 1 - i] { ReverseAt(ps, i); }
  }

  lemma SortedCells(ps: seq<Policy>, path: Path, namespaced: bool)
    requires Uniform(ps) && ps != [] && Ascending(ps) && forall i :: 0 <= i < |ps| ==> FullMetadata(ps[i], namespaced)
    ensures Fold(ps).Ok? && Reverse(ps) != [] && Fold(Reverse(ps)).Ok?
    ensures At(Fold(ps).value, path) == if UnderOverride(path) then Topmost(ps, path) else MostSpecific(ps, path)
    ensures At(Fold(Reverse(ps)).value, path) == At(Fold(ps).value, path)
  {
    hide Uniform, FullMetadata, Ascending, Descending, Fold;
    ReverseKeeps(ps, namespaced);
    FoldAt(ps, path, namespaced);
    FoldAt(Reverse(ps), path, namespaced);
    AscendingWinner(ps, path);
    DescendingWinner(Reverse(ps), path);
    ReversedCells(ps, path);
  }

  /** Main result on sorted lists: lowest precedence first or highest first gives the same policy, with
      defaults from the highest and overrides from the lowest policy that says something. */
  lemma SortedEitherWay(ps: seq<Policy>, namespaced: bool)
    requires Uniform(ps) && ps != [] && Ascending(ps) && forall i :: 0 <= i < |ps| ==> FullMetadata(ps[i], namespaced)
    ensures Fold(ps).Ok? && Reverse(ps) != [] && Fold(Reverse(ps)) == Fold(ps)
    ensures forall path ::
      At(Fold(ps).value, path) == if UnderOverride(path) then Topmost(ps, path) else MostSpecific(ps, path)
  {
    hide Uniform, FullMetadata, Ascending, Fold, Probe, WellFormed;
    SortedCells(ps, [], namespaced);
    var a, b := Fold(ps).value, Fold(Reverse(ps)).value;
    forall path
      ensures Probe(a.Doc(), path) == Probe(b.Doc(), path)
      ensures At(a, path) == if UnderOverride(path) then Topmost(ps, path) else MostSpecific(ps, path)
    {
      SortedCells(ps, path, namespaced);
    }
    ReverseKeeps(ps, namespaced);
    Extensionality(a.Doc(), b.Doc());
    FoldInheritable(ps);
    FoldInheritable(Reverse(ps));
    if |ps| > 1 {
      FoldDropsTargets(ps);
      FoldDropsTargets(Reverse(ps));
    } else {
      ReverseAt(ps, 0);
      assert Reverse(ps) == ps;
    }
  }

  lemma FoldInheritable(ps: seq<Policy>)
    requires Uniform(ps) && ps != []
    ensures Fold(ps).Ok? && Fold(ps).value.inheritable
  {
    FoldIsWellFormed(ps);
  }
}

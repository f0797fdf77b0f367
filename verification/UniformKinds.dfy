/** Kinds of which all policies fit together: what is merged of them, by level and down the hierarchy, fits
    together again, and can be read off the policies themselves (pkg/policymanager/merger.go, as
    pkg/extension/gatewayeffectivepolicy/gatewayeffectivepolicy.go uses it). */
module UniformKinds {
  import opened Common
  import opened DirectlyAttachedPolicy
  import opened Hierarchy
  import opened Json
  import opened LevelHierarchy
  import opened Merger
  import opened Metadata
  import opened Policy
  import opened PolicyLevels
  import opened SimilarKind
  import opened Sorting

  /** The inheritable policies of a kind. */
  ghost function Members(policies: Policies, kind: string): set<Policy> {
    set g | g in policies && policies[g].inheritable && policies[g].PolicyCrdID() == kind :: policies[g]
  }

  /** They are well-formed, with full metadata, and pairwise akin. */
  ghost predicate UniformKind(members: set<Policy>, namespaced: bool) {
    && (forall p :: p in members ==> WellFormed(p) && FullMetadata(p, namespaced))
    && (forall p, q :: p in members && q in members ==> Kindred(p, q))
  }

  ghost predicate AkinToAll(members: set<Policy>, other: Policy) {
    forall p :: p in members ==> Kindred(p, other)
  }

  /** A policy that fits in: well-formed, with full metadata, and akin to whatever they are all akin to. */
  ghost predicate Derived(members: set<Policy>, namespaced: bool, p: Policy) {
    && WellFormed(p) && FullMetadata(p, namespaced)
    && forall other :: AkinToAll(members, other) ==> Kindred(p, other)
  }

  ghost predicate AllDerived(members: set<Policy>, namespaced: bool, ps: seq<Policy>) {
    forall i :: 0 <= i < |ps| ==> Derived(members, namespaced, ps[i])
  }

  lemma MembersAreDerived(members: set<Policy>, namespaced: bool, p: Policy)
    requires UniformKind(members, namespaced) && p in members
    ensures Derived(members, namespaced, p)
  {
    hide Kindred, WellFormed, FullMetadata;
  }

  /** Two policies that fit in are akin. */
  lemma DerivedAreAkin(members: set<Policy>, namespaced: bool, p: Policy, q: Policy)
    requires UniformKind(members, namespaced) && Derived(members, namespaced, p) && Derived(members, namespaced, q)
    ensures Kindred(p, q)
  {
    hide Kindred, WellFormed, FullMetadata;
    forall o | o in members ensures Kindred(o, q) { KindredSymmetric(q, o); }
  }

  lemma DerivedAreUniform(members: set<Policy>, namespaced: bool, ps: seq<Policy>)
    requires UniformKind(members, namespaced) && AllDerived(members, namespaced, ps)
    ensures Uniform(ps) && forall i :: 0 <= i < |ps| ==> FullMetadata(ps[i], namespaced)
  {
    hide Kindred, WellFormed, FullMetadata;
    forall i, j | 0 <= i < |ps| && 0 <= j < |ps| ensures Kindred(ps[i], ps[j]) {
      DerivedAreAkin(members, namespaced, ps[i], ps[j]);
    }
  }

  lemma FoldIsDerived(members: set<Policy>, namespaced: bool, ps: seq<Policy>)
    requires UniformKind(members, namespaced) && AllDerived(members, namespaced, ps) && ps != []
    ensures Fold(ps).Ok? && Derived(members, namespaced, Fold(ps).value)
  {
    hide Kindred, WellFormed, FullMetadata, Fold, AkinToAll;
    DerivedAreUniform(members, namespaced, ps);
    FoldIsWellFormed(ps);
    FoldKeepsHighest(ps, [], namespaced);
  }

  lemma {:induction false} ChainIsDerived(members: set<Policy>, namespaced: bool, ps: seq<Policy>)
    requires UniformKind(members, namespaced) && AllDerived(members, namespaced, ps) && ps != []
    ensures Chain(ps).Ok? && Derived(members, namespaced, Chain(ps).value)
  {
    hide Kindred, WellFormed, FullMetadata, AkinToAll, MergePolicy, UniformKind;
    if |ps| > 1 {
      var init, last := ps[..|ps| - 1], ps[|ps| - 1];
      ChainIsDerived(members, namespaced, init);
      var above := Chain(init).value;
      DerivedAreAkin(members, namespaced, above, last);
      MergedIsWellFormed(above, last);
      ChildKeepsMetadata(above, last, namespaced);
    }
  }

  // ---------------------------------------------------------------- levels

  ghost predicate DerivedMap(members: set<Policy>, namespaced: bool, policies: PolicyMap, kind: string) {
    kind in policies ==> Derived(members, namespaced, policies[kind])
  }

  lemma {:induction false} PresentAreDerived(members: set<Policy>, namespaced: bool, levels: seq<PolicyMap>,
                                             kind: string)
    requires forall i :: 0 <= i < |levels| ==> DerivedMap(members, namespaced, levels[i], kind)
    ensures AllDerived(members, namespaced, Present(levels, kind))
  {
    hide Derived;
    if levels != [] { PresentAreDerived(members, namespaced, levels[..|levels| - 1], kind); }
  }

  /** The policies attached to an object, in the order in which they are merged. */
  ghost predicate IsSlice(direct: Policies, s: seq<Policy>) {
    Lists(Inheritable(direct).Values, s) && SortedBy(s, SortKey)
  }

  lemma SliceMembers(policies: Policies, k: GKNN, s: seq<Policy>, kind: string)
    requires IsSlice(AttachedTo(policies, k), s)
    ensures forall i :: 0 <= i < |OfKind(s, kind)| ==> OfKind(s, kind)[i] in Members(policies, kind)
  {
    hide OfKind, SortKey, SortedBy;
    OfKindMembers(s, kind);
    var direct := Inheritable(AttachedTo(policies, k));
    forall i | 0 <= i < |OfKind(s, kind)| ensures OfKind(s, kind)[i] in Members(policies, kind) {
      assert OfKind(s, kind)[i] in direct.Values;
      var g :| g in direct && direct[g] == OfKind(s, kind)[i];
      assert policies[g] == OfKind(s, kind)[i];
    }
  }

  /** Main result on a level: of a uniform kind it has, at every path, what wins among the policies attached
      to the object, sorted by name. */
  lemma LevelAt(policies: Policies, k: GKNN, level: PolicyMap, s: seq<Policy>, kind: string, namespaced: bool,
                path: Path)
    requires UniformKind(Members(policies, kind), namespaced)
    requires IsSlice(AttachedTo(policies, k), s) && IsFold(s, Ok(level))
    ensures DerivedMap(Members(policies, kind), namespaced, level, kind) && (kind in level <==> OfKind(s, kind) != [])
    ensures WinningCell(OfKind(s, kind), path) == if kind in level then At(level[kind], path) else Absent
  {
    hide IsSlice, OfKind, Derived, Fold, UniformKind, At;
    var members, ps := Members(policies, kind), OfKind(s, kind);
    if kind in level {
      SliceMembers(policies, k, s, kind);
      forall i | 0 <= i < |ps|
        ensures Derived(members, namespaced, ps[i])
      {
        MembersAreDerived(members, namespaced, ps[i]);
      }
      FoldIsDerived(members, namespaced, ps);
      DerivedAreUniform(members, namespaced, ps);
      FoldAt(ps, path, namespaced);
    }
  }
}

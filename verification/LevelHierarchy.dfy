/** What the levels of the hierarchy contribute to the merged policies of each kind: how
    pkg/extension/gatewayeffectivepolicy/gatewayeffectivepolicy.go puts levels on top of each other. */
module LevelHierarchy {
  import opened Common
  import opened Hierarchy
  import opened Json
  import opened Merger
  import opened Metadata
  import opened Policy
  import opened PolicyLevels
  import opened SimilarKind
  import opened Sorting

  // ---------------------------------------------------------------- levels on top of each other

  lemma {:induction false} PresentAppend(upper: seq<PolicyMap>, lower: seq<PolicyMap>, k: string)
    ensures Present(upper + lower, k) == Present(upper, k) + Present(lower, k)
  {
    if lower == [] {
      assert upper + lower == upper;
      assert Present(upper, k) + [] == Present(upper, k);
    } else {
      var init := lower[..|lower| - 1];
      assert (upper + lower)[..|upper + lower| - 1] == upper + init;
      PresentAppend(upper, init, k);
    }
  }

  lemma {:induction false} ChainAppend(ps: seq<Policy>, qs: seq<Policy>, above: Policy)
    requires ps != [] && Chain(ps) == Ok(above)
    ensures Chain(ps + qs) == Chain([above] + qs)
  {
    hide MergePolicy;
    if qs == [] {
      assert ps + qs == ps && [above] + qs == [above];
    } else {
      var init := qs[..|qs| - 1];
      assert (ps + qs)[..|ps + qs| - 1] == ps + init && ([above] + qs)[..|qs|] == [above] + init;
      ChainAppend(ps, init, above);
    }
  }

  /** Levels merged on top of what other levels have been merged to are all these levels merged: so five
      levels, from the GatewayClass to the HTTPRoute, are a single chain. */
  lemma HierarchyFlattens(upper: seq<PolicyMap>, above: PolicyMap, lower: seq<PolicyMap>, merged: PolicyMap)
    requires IsHierarchy(upper, above) && IsHierarchy([above] + lower, merged)
    ensures IsHierarchy(upper + lower, merged)
  {
    hide Chain, Present;
    forall k
      ensures k in merged <==> Present(upper + lower, k) != []
      ensures k in merged ==> Chain(Present(upper + lower, k)) == Ok(merged[k])
    {
      KindFlattens(upper, above, lower, k);
    }
  }

  /** The step for one kind. */
  lemma KindFlattens(upper: seq<PolicyMap>, above: PolicyMap, lower: seq<PolicyMap>, k: string)
    requires IsHierarchy(upper, above)
    ensures Present(upper + lower, k) == [] <==> Present([above] + lower, k) == []
    ensures Present(upper + lower, k) != [] ==> Chain(Present(upper + lower, k)) == Chain(Present([above] + lower, k))
  {
    hide Chain, Present;
    PresentAppend(upper, lower, k);
    PresentAppend([above], lower, k);
    PresentOne(above, k);
    if k in above {
      ChainAppend(Present(upper, k), Present(lower, k), above[k]);
    } else {
      assert [] + Present(lower, k) == Present(lower, k);
    }
  }

  lemma PresentOne(level: PolicyMap, k: string)
    ensures Present([level], k) == if k in level then [level[k]] else []
  {
  }

  /** Main result: the effective spec of a kind, at every path, read off the levels themselves. */
  lemma EffectiveAtLevels(levels: seq<PolicyMap>, merged: PolicyMap, k: string, path: Path)
    requires IsHierarchy(levels, merged) && k in merged && Uniform(Present(levels, k)) && path != []
    ensures EffectiveSpec(merged[k]).Ok?
    ensures match EffectiveSpec(merged[k]).value
      case Some(spec) => Probe(Obj(spec), path) == EffectiveValue(Present(levels, k), path)
      case None => EffectiveValue(Present(levels, k), path) == Absent
  {
    EffectiveChain(Present(levels, k), path);
  }

  // ---------------------------------------------------------------- merging does not fail

  /** An inheritable policy that says of what type it is, and whose spec is an object if it has one. */
  predicate Readable(p: Policy) {
    p.inheritable && Typed(p) && At(p, ["spec"]) in {Absent, Object}
  }

  lemma ReadableOverride(p: Policy)
    requires Readable(p)
    ensures Nested(p.Doc(), OVERRIDE).Ok?
  {
    if Nested(p.Doc(), OVERRIDE).Err? {
      NestedErrors(p.Doc(), OVERRIDE);
      assert ["spec"][1..] == [] && OVERRIDE[1..] == ["override"] && ["override"][1..] == [];
      assert Probe(p.Doc(), ["spec"]) == Probe(p.content["spec"], []);
      assert !Blocks(p.content["spec"], ["override"]);
    }
  }

  lemma SpecOfMerge(target: Json, patch: Json)
    requires target.Obj? && patch.Obj?
    requires Probe(target, ["spec"]) in {Absent, Object} && Probe(patch, ["spec"]) in {Absent, Object}
    ensures Probe(MergePatch(target, patch), ["spec"]) in {Absent, Object}
  {
  }

  /** Two readable policies of one type merge to another one. */
  lemma ReadableMerge(parent: Policy, child: Policy)
    requires Readable(parent) && Readable(child) && parent.PolicyCrdID() == child.PolicyCrdID()
    ensures MergePolicy(parent, child).Ok? && Readable(MergePolicy(parent, child).value)
    ensures MergePolicy(parent, child).value.PolicyCrdID() == child.PolicyCrdID()
  {
    ReadableOverride(parent);
    MergedKeepsType(parent, child);
    var merged := MergePatch(parent.Doc(), child.Doc());
    SpecOfMerge(parent.Doc(), child.Doc());
    var override := Nested(parent.Doc(), OVERRIDE).value;
    if override.Some? {
      OverridePatchAt(override.value, ["spec"]);
      SpecOfMerge(merged, OverridePatch(override.value));
    }
  }

  /** Every policy is readable and stored under its type. */
  ghost predicate Sound(policies: PolicyMap) {
    forall k :: k in policies ==> policies[k].PolicyCrdID() == k && Readable(policies[k])
  }

  lemma SoundKind(policies1: PolicyMap, policies2: PolicyMap, precedence: Precedence, k: string)
    requires Sound(policies1) && Sound(policies2) && IsPrecedence(precedence) && (k in policies1 || k in policies2)
    ensures MergedKind(policies1, policies2, precedence, k).Ok?
    ensures var p := MergedKind(policies1, policies2, precedence, k).value; p.PolicyCrdID() == k && Readable(p)
  {
    hide MergePolicy, Readable, TypeOf, StringAt;
    if k in policies1 && k in policies2 {
      var (lower, higher) := precedence(policies1[k], policies2[k]);
      ReadableCopy(policies1[k]);
      ReadableCopy(policies2[k]);
      ReadableMerge(lower, higher);
    }
  }

  lemma SoundMerge(policies1: PolicyMap, policies2: PolicyMap, precedence: Precedence, r: Result<PolicyMap, Error>)
    requires Sound(policies1) && Sound(policies2) && IsPrecedence(precedence)
    requires IsMerge(policies1, policies2, precedence, r)
    ensures r.Ok? && Sound(r.value)
  {
    hide MergedKind, Readable, TypeOf, StringAt;
    forall k | k in policies1 || k in policies2 { SoundKind(policies1, policies2, precedence, k); }
  }

  lemma ReadableCopy(p: Policy)
    ensures p.DeepCopy().PolicyCrdID() == p.PolicyCrdID() && Readable(p.DeepCopy()) == Readable(p)
  {
  }

  lemma {:induction false} ReadableFold(ps: seq<Policy>, k: string)
    requires ps != [] && forall i :: 0 <= i < |ps| ==> Readable(ps[i]) && ps[i].PolicyCrdID() == k
    ensures Fold(ps).Ok? && Readable(Fold(ps).value) && Fold(ps).value.PolicyCrdID() == k
  {
    hide MergePolicy, Readable, TypeOf, StringAt;
    if |ps| > 1 {
      var init, last := ps[..|ps| - 1], ps[|ps| - 1];
      ReadableFold(init, k);
      var existing := Fold(init).value;
      MergeSameIs(existing, last);
      var (parent, child) := if Precedes(existing, last) then (last, existing) else (existing, last);
      ReadableMerge(parent, child);
    }
  }

  lemma {:induction false} OfKindMembers(policies: seq<Policy>, k: string)
    ensures forall i :: 0 <= i < |OfKind(policies, k)| ==>
      OfKind(policies, k)[i] in policies && OfKind(policies, k)[i].PolicyCrdID() == k
  {
    hide TypeOf, StringAt;
    if policies != [] { OfKindMembers(policies[..|policies| - 1], k); }
  }

  /** A level whose policies are readable is sound; merging it does not fail. */
  lemma SoundLevel(direct: Policies, r: Result<PolicyMap, Error>)
    requires IsLevel(direct, r) && forall g :: g in direct && direct[g].inheritable ==> Readable(direct[g])
    ensures r.Ok? && Sound(r.value)
  {
    hide Readable, Fold, OfKind, SortedBy, TypeOf, StringAt;
    var s :| Lists(Inheritable(direct).Values, s) && SortedBy(s, SortKey) && IsFold(s, r);
    assert forall i :: 0 <= i < |s| ==> Readable(s[i]);
    forall k | OfKind(s, k) != []
      ensures Fold(OfKind(s, k)).Ok? && Readable(Fold(OfKind(s, k)).value)
      ensures Fold(OfKind(s, k)).value.PolicyCrdID() == k
    {
      OfKindMembers(s, k);
      ReadableFold(OfKind(s, k), k);
    }
  }

  lemma {:induction false} ReadableChain(ps: seq<Policy>, k: string)
    requires ps != [] && forall i :: 0 <= i < |ps| ==> Readable(ps[i]) && ps[i].PolicyCrdID() == k
    ensures Chain(ps).Ok? && Readable(Chain(ps).value) && Chain(ps).value.PolicyCrdID() == k
  {
    hide MergePolicy, Readable, TypeOf, StringAt;
    if |ps| > 1 {
      var init, last := ps[..|ps| - 1], ps[|ps| - 1];
      ReadableChain(init, k);
      ReadableMerge(Chain(init).value, last);
    }
  }

  lemma {:induction false} SoundPresent(levels: seq<PolicyMap>, k: string)
    requires forall i :: 0 <= i < |levels| ==> Sound(levels[i])
    ensures forall i :: 0 <= i < |Present(levels, k)| ==>
      Readable(Present(levels, k)[i]) && Present(levels, k)[i].PolicyCrdID() == k
  {
    hide Readable, TypeOf, StringAt;
    if levels != [] { SoundPresent(levels[..|levels| - 1], k); }
  }

  /** Sound levels merge to sound policies. */
  lemma SoundHierarchy(levels: seq<PolicyMap>, merged: PolicyMap)
    requires IsHierarchy(levels, merged) && forall i :: 0 <= i < |levels| ==> Sound(levels[i])
    ensures Sound(merged)
  {
    hide Readable, TypeOf, StringAt, Present, Chain;
    forall k | k in merged ensures merged[k].PolicyCrdID() == k && Readable(merged[k]) {
      SoundPresent(levels, k);
      ReadableChain(Present(levels, k), k);
    }
  }

  // ---------------------------------------------------------------- what survives

  ghost predicate AllInheritable(policies: PolicyMap) {
    forall k :: k in policies ==> policies[k].inheritable
  }

  /** A value below the override. */
  predicate Overrides(p: Policy, path: Path, c: Cell) {
    p.inheritable && UnderOverride(path) && c.Value? && c.leaf != Null && At(p, path) == c
  }

  /** Overrides of the top policy of a chain survive. */
  lemma {:induction false} TopOverrideSurvives(ps: seq<Policy>, path: Path, c: Cell)
    requires ps != [] && Chain(ps).Ok? && (forall i :: 0 <= i < |ps| ==> ps[i].inheritable) && Overrides(ps[0], path, c)
    ensures Overrides(Chain(ps).value, path, c)
  {
    hide MergePolicy, At;
    if |ps| > 1 {
      var init, last := ps[..|ps| - 1], ps[|ps| - 1];
      TopOverrideSurvives(init, path, c);
      ParentOverrideSurvives(Chain(init).value, last, path);
      MergedFields(Chain(init).value, last);
    }
  }

  lemma {:induction false} PresentMembers(levels: seq<PolicyMap>, k: string)
    requires forall i :: 0 <= i < |levels| ==> AllInheritable(levels[i])
    ensures forall i :: 0 <= i < |Present(levels, k)| ==> Present(levels, k)[i].inheritable
  {
    if levels != [] { PresentMembers(levels[..|levels| - 1], k); }
  }

  lemma OverrideSurvivesLevels(above: PolicyMap, lower: seq<PolicyMap>, merged: PolicyMap, k: string, path: Path,
                               c: Cell)
    requires IsHierarchy([above] + lower, merged)
    requires forall i :: 0 <= i < |lower| ==> AllInheritable(lower[i])
    requires k in above && Overrides(above[k], path, c)
    ensures k in merged && Overrides(merged[k], path, c)
  {
    hide Chain;
    PresentAppend([above], lower, k);
    PresentOne(above, k);
    PresentMembers(lower, k);
    TopOverrideSurvives(Present([above] + lower, k), path, c);
  }

  /** What the last level says outside its override survives. */
  lemma DefaultSurvivesLevels(upper: seq<PolicyMap>, last: PolicyMap, merged: PolicyMap, k: string, path: Path)
    requires IsHierarchy(upper + [last], merged) && k in last
    requires |path| >= 2 && !UnderOverride(path) && At(last[k], path).Value? && At(last[k], path).leaf != Null
    ensures k in merged && At(merged[k], path) == At(last[k], path)
  {
    hide MergePolicy, At;
    PresentAppend(upper, [last], k);
    PresentOne(last, k);
    var ps := Present(upper + [last], k);
    if |ps| > 1 { ChildValueSurvives(Chain(ps[..|ps| - 1]).value, last[k], path); }
  }

  /** The policies of several HTTPRoutes for one Gateway, merged at the same level in this order. */
  ghost predicate IsAccumulated(maps: seq<PolicyMap>, merged: PolicyMap) {
    if maps == [] then merged == map[]
    else
      var init, last := maps[..|maps| - 1], maps[|maps| - 1];
      exists before :: IsAccumulated(init, before) && IsMerge(before, last, OrderByPrecedence, Ok(merged))
  }

  lemma OverrideSurvivesMerge(a: Policy, b: Policy, path: Path, c: Cell)
    requires MergeSame(a, b).Ok? && Overrides(a, path, c) && Overrides(b, path, c)
    ensures Overrides(MergeSame(a, b).value, path, c)
  {
    MergeSameIs(a, b);
    hide MergePolicy, At, Precedes;
    if Precedes(a, b) {
      ParentOverrideSurvives(b, a, path);
      MergedFields(b, a);
    } else {
      ParentOverrideSurvives(a, b, path);
      MergedFields(a, b);
    }
  }

  /** An override that all have survives, in whatever order they are merged. */
  lemma {:induction false} OverrideSurvivesAccumulation(maps: seq<PolicyMap>, merged: PolicyMap, k: string, path: Path,
                                                        c: Cell)
    requires IsAccumulated(maps, merged) && maps != []
    requires forall i :: 0 <= i < |maps| ==> k in maps[i] && Overrides(maps[i][k], path, c)
    ensures k in merged && Overrides(merged[k], path, c)
  {
    hide Overrides, MergeSame, MergePolicy, OrderByPrecedence;
    var init, last := maps[..|maps| - 1], maps[|maps| - 1];
    var before :| IsAccumulated(init, before) && IsMerge(before, last, OrderByPrecedence, Ok(merged));
    assert MergedKind(before, last, OrderByPrecedence, k) == Ok(merged[k]);
    if init != [] {
      OverrideSurvivesAccumulation(init, before, k, path, c);
      MergedKindIsMergeSame(before, last, k);
      OverrideSurvivesMerge(before[k], last[k], path, c);
    }
  }

  lemma MergedKindIsMergeSame(a: PolicyMap, b: PolicyMap, k: string)
    requires k in a && k in b
    ensures MergedKind(a, b, OrderByPrecedence, k) == MergeSame(a[k], b[k])
  {
  }
}

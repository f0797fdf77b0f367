/** Merging collections of policies kind by kind (pkg/policymanager/merger.go, lines 29 to 107). */
module Merger {
  import opened Common
  import opened Json
  import opened Policy
  import opened Hierarchy
  import opened SimilarKind

  type PolicyMap = map<string, Policy>
  type Precedence = (Policy, Policy) -> (Policy, Policy)

  /** MergePoliciesOfDifferentHierarchy keeps the parent first. */
  function ParentFirst(a: Policy, b: Policy): (Policy, Policy) {
    (a, b)
  }

  /** What has to become of the policies of one kind. */
  function MergedKind(policies1: PolicyMap, policies2: PolicyMap, precedence: Precedence, k: string)
    : Result<Policy, Error>
    requires k in policies1 || k in policies2
  {
    if k !in policies2 then Ok(policies1[k])
    else if k !in policies1 then Ok(policies2[k])
    else
      var (lower, higher) := precedence(policies1[k], policies2[k]);
      MergePolicy(lower, higher)
  }

  /** The outcome of mergePolicies: all kinds merged, or an error of one of them. */
  ghost predicate IsMerge(policies1: PolicyMap, policies2: PolicyMap, precedence: Precedence,
                          r: Result<PolicyMap, Error>) {
    match r
    case Ok(merged) =>
      && merged.Keys == policies1.Keys + policies2.Keys
      && forall k :: k in merged ==> MergedKind(policies1, policies2, precedence, k) == Ok(merged[k])
    case Err(e) =>
      exists k :: k in policies1 && k in policies2 && MergedKind(policies1, policies2, precedence, k) == Err(e)
  }

  /** In whatever order the kinds are visited, each is merged once; an error ends the merge. */
  method MergePolicies(policies1: PolicyMap, policies2: PolicyMap, precedence: Precedence)
    returns (r: Result<PolicyMap, Error>)
    ensures IsMerge(policies1, policies2, precedence, r)
  {
    var result: PolicyMap := map[];
    var todo := policies1.Keys;
    while todo != {}
      invariant todo <= policies1.Keys
      invariant result == policies1 - todo
    {
      var k :| k in todo;
      result := result[k := policies1[k]];
      todo := todo - {k};
    }
    assert result == policies1;
    todo := policies2.Keys;
    while todo != {}
      invariant todo <= policies2.Keys
      invariant result.Keys == policies1.Keys + (policies2.Keys - todo)
      invariant forall k :: k in todo && k in result ==> result[k] == policies1[k]
      invariant forall k :: k in result && k !in todo ==>
        MergedKind(policies1, policies2, precedence, k) == Ok(result[k])
    {
      var k :| k in todo;
      todo := todo - {k};
      var policy := policies2[k];
      if k !in result {
        result := result[k := policy];
        continue;
      }
      var (lower, higher) := precedence(result[k], policy);
      var res := MergePolicy(lower, higher);
      if res.Err? {
        assert MergedKind(policies1, policies2, precedence, k) == Err(res.error);
        return Err(res.error);
      }
      result := result[k := res.value];
    }
    return Ok(result);
  }

  method MergePoliciesOfSameHierarchy(policies1: PolicyMap, policies2: PolicyMap) returns (r: Result<PolicyMap, Error>)
    ensures IsMerge(policies1, policies2, OrderByPrecedence, r)
  {
    r := MergePolicies(policies1, policies2, OrderByPrecedence);
  }

  method MergePoliciesOfDifferentHierarchy(parentPolicies: PolicyMap, childPolicies: PolicyMap)
    returns (r: Result<PolicyMap, Error>)
    ensures IsMerge(parentPolicies, childPolicies, ParentFirst, r)
  {
    r := MergePolicies(parentPolicies, childPolicies, ParentFirst);
  }

  /** The policies of one kind, in order. */
  function OfKind(policies: seq<Policy>, k: string): seq<Policy> {
    if policies == [] then []
    else
      var last := policies[|policies| - 1];
      OfKind(policies[..|policies| - 1], k) + if last.PolicyCrdID() == k then [last] else []
  }

  /** The outcome of MergePoliciesOfSimilarKind: every kind folded, or the error of a fold. */
  ghost predicate IsFold(policies: seq<Policy>, r: Result<PolicyMap, Error>) {
    match r
    case Ok(folded) =>
      && (forall k :: k in folded <==> OfKind(policies, k) != [])
      && forall k :: k in folded ==> Fold(OfKind(policies, k)) == Ok(folded[k])
    case Err(e) =>
      exists k :: OfKind(policies, k) != [] && Fold(OfKind(policies, k)) == Err(e)
  }

  lemma OfKindLast(policies: seq<Policy>, i: nat, k: string)
    requires i < |policies|
    ensures OfKind(policies[..i + 1], k) ==
      OfKind(policies[..i], k) + if policies[i].PolicyCrdID() == k then [policies[i]] else []
  {
    assert policies[..i + 1][..i] == policies[..i];
  }

  lemma FoldLast(ps: seq<Policy>, p: Policy)
    requires ps != []
    ensures Fold(ps + [p]) == match Fold(ps) case Err(e) => Err(e) case Ok(existing) => MergeSame(existing, p)
  {
  }

  /** One more policy changes what is to be known of its own kind only. */
  lemma IsFoldNext(policies: seq<Policy>, i: nat, result: PolicyMap, v: Policy)
    requires i < |policies| && IsFold(policies[..i], Ok(result))
    requires var now := OfKind(policies[..i + 1], policies[i].PolicyCrdID()); now != [] && Fold(now) == Ok(v)
    ensures IsFold(policies[..i + 1], Ok(result[policies[i].PolicyCrdID() := v]))
  {
    hide OfKind, Fold;
    forall k ensures k != policies[i].PolicyCrdID() ==> OfKind(policies[..i + 1], k) == OfKind(policies[..i], k) {
      OfKindLast(policies, i, k);
    }
  }

  method MergePoliciesOfSimilarKind(policies: seq<Policy>) returns (r: Result<PolicyMap, Error>)
    ensures IsFold(policies, r)
  {
    var result: PolicyMap := map[];
    assert policies[..0] == [];
    for i := 0 to |policies|
      invariant IsFold(policies[..i], Ok(result))
    {
      hide Fold, MergePolicy, OrderByPrecedence;
      var policy := policies[i];
      var id := policy.PolicyCrdID();
      ghost var before := OfKind(policies[..i], id);
      OfKindLast(policies, i, id);
      if id !in result {
        FoldOne(policy);
        IsFoldNext(policies, i, result, policy);
        result := result[id := policy];
        continue;
      }
      FoldLast(before, policy);
      var merged := MergePoliciesOfSameHierarchy(map[id := result[id]], map[id := policy]);
      if merged.Err? {
        FoldErrorStays(policies, i + 1, id);
        return Err(merged.error);
      }
      assert MergedKind(map[id := result[id]], map[id := policy], OrderByPrecedence, id) == Ok(merged.value[id]);
      IsFoldNext(policies, i, result, merged.value[id]);
      result := result[id := merged.value[id]];
    }
    assert policies[..|policies|] == policies;
    return Ok(result);
  }

  lemma FoldOne(p: Policy)
    ensures Fold([p]) == Ok(p) && [] + [p] == [p]
  {
  }

  lemma {:induction false} FoldErrorStays(policies: seq<Policy>, i: nat, k: string)
    requires i <= |policies| && OfKind(policies[..i], k) != [] && Fold(OfKind(policies[..i], k)).Err?
    ensures OfKind(policies, k) != [] && Fold(OfKind(policies, k)) == Fold(OfKind(policies[..i], k))
    decreases |policies| - i
  {
    hide Fold, MergeSame;
    if i == |policies| {
      assert policies[..i] == policies;
    } else {
      OfKindLast(policies, i, k);
      FoldLast(OfKind(policies[..i], k), policies[i]);
      assert OfKind(policies[..i], k) + [] == OfKind(policies[..i], k);
      FoldErrorStays(policies, i + 1, k);
    }
  }

  // ---------------------------------------------------------------- well-keyed maps

  /** Every policy is stored under its type. */
  ghost predicate WellKeyed(policies: PolicyMap) {
    forall k :: k in policies ==> policies[k].PolicyCrdID() == k && Typed(policies[k])
  }

  /** It orders two policies, or copies of them, one way or the other. */
  ghost predicate IsPrecedence(precedence: Precedence) {
    forall a, b :: precedence(a, b) == (a, b)
      || precedence(a, b) == (a.DeepCopy(), b.DeepCopy()) || precedence(a, b) == (b.DeepCopy(), a.DeepCopy())
  }

  lemma BothArePrecedences()
    ensures IsPrecedence(ParentFirst) && IsPrecedence(OrderByPrecedence)
  {
  }

  lemma MergedKindKeepsType(policies1: PolicyMap, policies2: PolicyMap, precedence: Precedence, k: string)
    requires WellKeyed(policies1) && WellKeyed(policies2) && IsPrecedence(precedence)
    requires k in policies1 || k in policies2
    ensures match MergedKind(policies1, policies2, precedence, k)
      case Ok(p) => p.PolicyCrdID() == k && Typed(p)
      case Err(e) => e == AccessorError
  {
    hide MergePolicy;
    if k in policies1 && k in policies2 {
      var (lower, higher) := precedence(policies1[k], policies2[k]);
      CopyHasSameType(policies1[k]);
      CopyHasSameType(policies2[k]);
      assert lower.PolicyCrdID() == higher.PolicyCrdID() == k;
      if MergePolicy(lower, higher).Ok? { MergedKeepsType(lower, higher); } else { MergeFailsIff(lower, higher); }
    }
  }

  lemma CopyHasSameType(p: Policy)
    ensures p.DeepCopy().PolicyCrdID() == p.PolicyCrdID() && Typed(p.DeepCopy()) == Typed(p)
  {
  }

  /** Two policies fail to merge exactly if they are of different types, or the parent is inheritable and has a
      spec that is neither an object nor null. */
  lemma MergeFailsIff(parent: Policy, child: Policy)
    ensures MergePolicy(parent, child).Err? <==>
      || parent.PolicyCrdID() != child.PolicyCrdID()
      || (parent.inheritable && At(parent, ["spec"]).Value? && At(parent, ["spec"]).leaf != Null)
    ensures MergePolicy(parent, child).Err? && parent.PolicyCrdID() == child.PolicyCrdID() ==>
      MergePolicy(parent, child).error == AccessorError
  {
    hide TypeOf, StringAt;
    var doc := parent.Doc();
    assert OVERRIDE[1..] == ["override"] && ["override"][1..] == [] && ["spec"][1..] == [];
    if "spec" in parent.content {
      var spec := parent.content["spec"];
      assert Probe(doc, ["spec"]) == Probe(spec, []);
      assert Nested(doc, OVERRIDE) == Nested(spec, ["override"]);
      if spec.Obj? && "override" in spec.fields {
        assert Nested(spec, ["override"]) == Nested(spec.fields["override"], []);
      }
    }
  }

  lemma {:induction false} NestedErrors(j: Json, path: Path)
    requires Nested(j, path).Err?
    ensures Nested(j, path).error == AccessorError && Blocks(j, path)
  {
    if j.Obj? { NestedErrors(j.fields[path[0]], path[1..]); }
  }

  /** Main result on maps: merging well-keyed maps never meets two kinds under one key, and yields a
      well-keyed map of the kinds of both. */
  lemma MergeKeepsKeys(policies1: PolicyMap, policies2: PolicyMap, precedence: Precedence, r: Result<PolicyMap, Error>)
    requires WellKeyed(policies1) && WellKeyed(policies2) && IsPrecedence(precedence)
    requires IsMerge(policies1, policies2, precedence, r)
    ensures match r
      case Ok(merged) => WellKeyed(merged) && merged.Keys == policies1.Keys + policies2.Keys
      case Err(e) => e == AccessorError
  {
    hide MergedKind;
    forall k | k in policies1 || k in policies2 { MergedKindKeepsType(policies1, policies2, precedence, k); }
  }

  /** The order in which the kinds are visited makes no difference to a merge that succeeds, nor to
      whether it succeeds. */
  lemma MergeIsUnique(policies1: PolicyMap, policies2: PolicyMap, precedence: Precedence,
                      r: Result<PolicyMap, Error>, r': Result<PolicyMap, Error>)
    requires IsMerge(policies1, policies2, precedence, r) && IsMerge(policies1, policies2, precedence, r')
    ensures r.Ok? == r'.Ok? && (r.Ok? ==> r == r')
  {
    hide MergedKind;
    if r.Ok? && r'.Ok? {
      assert r.value == r'.value by {
        assert forall k :: k in r.value ==> r.value[k] == r'.value[k];
      }
    }
  }

  /** Merging at the same level commutes, as long as different policies of one kind have different identities. */
  lemma SameHierarchyCommutes(policies1: PolicyMap, policies2: PolicyMap, r: Result<PolicyMap, Error>)
    requires forall k :: k in policies1 ==> '/' !in policies1[k].Namespace()
    requires forall k :: k in policies2 ==> '/' !in policies2[k].Namespace()
    requires forall k :: k in policies1 && k in policies2 && SameIdentity(policies1[k], policies2[k]) ==>
      policies1[k] == policies2[k]
    requires IsMerge(policies1, policies2, OrderByPrecedence, r)
    ensures IsMerge(policies2, policies1, OrderByPrecedence, r)
  {
    forall k | k in policies1 || k in policies2
      ensures MergedKind(policies1, policies2, OrderByPrecedence, k) ==
        MergedKind(policies2, policies1, OrderByPrecedence, k)
    {
      hide MergePolicy, OrderByPrecedence;
      if k in policies1 && k in policies2 { MergeSameCommutes(policies1[k], policies2[k]); }
    }
    hide MergedKind;
  }

  // ---------------------------------------------------------------- levels

  /** The policies that the levels have of one kind, top first. */
  function Present(levels: seq<PolicyMap>, k: string): seq<Policy> {
    if levels == [] then []
    else
      var last := levels[|levels| - 1];
      Present(levels[..|levels| - 1], k) + if k in last then [last[k]] else []
  }

  /** `merged` holds, for every kind, the chain of the policies that the levels have. */
  ghost predicate IsHierarchy(levels: seq<PolicyMap>, merged: PolicyMap) {
    && (forall k :: k in merged <==> Present(levels, k) != [])
    && (forall k :: k in merged ==> Chain(Present(levels, k)) == Ok(merged[k]))
  }

  lemma SingleLevel(level: PolicyMap)
    ensures IsHierarchy([level], level)
  {
  }

  /** Merging one more level below yields the hierarchy with one more level. */
  lemma NextLevel(levels: seq<PolicyMap>, above: PolicyMap, below: PolicyMap, merged: PolicyMap)
    requires IsHierarchy(levels, above) && IsMerge(above, below, ParentFirst, Ok(merged))
    ensures IsHierarchy(levels + [below], merged)
  {
    hide Present, Chain, MergedKind;
    forall k
      ensures k in merged <==> Present(levels + [below], k) != []
      ensures k in merged ==> Chain(Present(levels + [below], k)) == Ok(merged[k])
    {
      NextLevelOfKind(levels, above, below, k);
    }
  }

  /** The step for one kind. */
  lemma NextLevelOfKind(levels: seq<PolicyMap>, above: PolicyMap, below: PolicyMap, k: string)
    requires k in above <==> Present(levels, k) != []
    requires k in above ==> Chain(Present(levels, k)) == Ok(above[k])
    ensures Present(levels + [below], k) != [] <==> k in above || k in below
    ensures k in above || k in below ==>
      Chain(Present(levels + [below], k)) == MergedKind(above, below, ParentFirst, k)
  {
    hide MergePolicy;
    assert (levels + [below])[..|levels|] == levels;
    var ps := Present(levels, k);
    if k in below && k in above {
      assert (ps + [below[k]])[..|ps|] == ps;
    } else if k in below {
      assert [] + [below[k]] == [below[k]];
    } else {
      assert ps + [] == ps;
    }
  }
}

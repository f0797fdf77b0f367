/** Where the extensions get their policies from (pkg/policymanager/manager.go, lines 36 to 131). */
module PolicyManager {
  import opened Common
  import opened DirectlyAttachedPolicy
  import opened Metadata
  import opened Policy

  /** A policy of the list counts if no later one has the same identity. */
  predicate CountsLast(list: seq<Policy>, i: nat) {
    i < |list| && forall j :: i < j < |list| ==> list[j].GKNN() != list[i].GKNN()
  }

  /** Some policy of the list has the identity. */
  predicate Listed(list: seq<Policy>, g: GKNN) {
    exists i: nat :: i < |list| && list[i].GKNN() == g
  }

  /** The policies of the list are stored, the last of each identity, and others are as before. */
  ghost predicate Stored(before: Policies, list: seq<Policy>, after: Policies) {
    && (forall i: nat :: CountsLast(list, i) ==> list[i].GKNN() in after && after[list[i].GKNN()] == list[i])
    && (forall g :: g in after ==> g in before || Listed(list, g))
    && (forall g :: g in before && !Listed(list, g) ==> g in after && after[g] == before[g])
  }

  class PolicyManager {
    var policies: Policies

    ghost predicate Valid()
      reads this
    {
      KeyedById(policies)
    }

    constructor ()
      ensures Valid() && policies == map[]
    {
      policies := map[];
    }

    /** Stores the policies of one kind, as initPolicies does after it has constructed them. */
    method Store(list: seq<Policy>)
      requires Valid()
      modifies this
      ensures Valid() && Stored(old(policies), list, policies)
    {
      for i := 0 to |list|
        invariant Valid() && Stored(old(policies), list[..i], policies)
      {
        StoredMore(old(policies), list[..i], list[i], policies);
        assert list[..i] + [list[i]] == list[..i + 1];
        policies := policies[list[i].GKNN() := list[i]];
      }
      assert list[..|list|] == list;
    }
  }

  /** What one more policy changes. */
  lemma OneMoreCounts(list: seq<Policy>, p: Policy)
    ensures forall i: nat :: CountsLast(list + [p], i) <==>
      i == |list| || (CountsLast(list, i) && list[i].GKNN() != p.GKNN())
    ensures forall g :: Listed(list + [p], g) <==> Listed(list, g) || p.GKNN() == g
  {
    hide TypeOf, StringAt;
    var more := list + [p];
    assert forall i: nat :: i < |list| ==> more[i] == list[i];
    forall g | Listed(list, g) ensures Listed(more, g) {
      var i: nat :| i < |list| && list[i].GKNN() == g;
      assert more[i].GKNN() == g;
    }
    assert more[|list|] == p;
  }

  lemma StoredMore(before: Policies, list: seq<Policy>, p: Policy, after: Policies)
    requires Stored(before, list, after)
    ensures Stored(before, list + [p], after[p.GKNN() := p])
  {
    hide Listed, CountsLast, TypeOf, StringAt;
    OneMoreCounts(list, p);
    assert forall i: nat :: CountsLast(list, i) ==> i < |list| by { CountedIsListed(list); }
  }

  lemma CountedIsListed(list: seq<Policy>)
    ensures forall i: nat :: CountsLast(list, i) ==> i < |list|
  {
  }
}

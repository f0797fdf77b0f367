/** One level of the policy hierarchy: the inheritable policies of an object, sorted by name and merged kind
    by kind (ConvertPoliciesMapToSlice in pkg/policymanager/manager.go, filterInheritablePolicies in
    pkg/extension/gatewayeffectivepolicy/gatewayeffectivepolicy.go). */
module PolicyLevels {
  import opened Common
  import opened DirectlyAttachedPolicy
  import opened Merger
  import opened Metadata
  import opened Policy
  import opened SimilarKind
  import opened Sorting
  import Strings

  // ---------------------------------------------------------------- one level

  ghost function Inheritable(policies: Policies): Policies {
    map g | g in policies && policies[g].inheritable :: policies[g]
  }

  method FilterInheritablePolicies(policies: Policies) returns (inheritable: Policies)
    ensures inheritable == Inheritable(policies)
  {
    inheritable := map[];
    var todo := policies.Keys;
    while todo != {}
      invariant todo <= policies.Keys && inheritable == Inheritable(policies - todo)
    {
      var g :| g in todo;
      todo := todo - {g};
      if policies[g].inheritable {
        inheritable := inheritable[g := policies[g]];
      }
    }
  }

  /** What ConvertPoliciesMapToSlice sorts by. */
  function SortKey(p: Policy): string {
    p.PolicyCrdID() + "/" + p.Namespace() + "/" + p.Name()
  }

  /** The policies of a map, one for each of the keys. */
  function ValuesOf(policies: Policies, keys: seq<GKNN>): seq<Policy>
    requires forall i :: 0 <= i < |keys| ==> keys[i] in policies
  {
    seq(|keys|, i requires 0 <= i < |keys| && keys[i] in policies => policies[keys[i]])
  }

  /** Type, namespace and name, joined as they are compared. */
  ghost predicate InOrder(p: Policy, q: Policy) {
    var a := p.PolicyCrdID() + "/" + p.Namespace() + "/" + p.Name();
    var b := q.PolicyCrdID() + "/" + q.Namespace() + "/" + q.Name();
    a == b || Strings.Alphabetical(a, b)
  }

  /** Whatever the policies are stored under, each entry of the map is listed once. */
  method ConvertPoliciesMapToSlice(policies: Policies) returns (result: seq<Policy>, ghost keys: seq<GKNN>)
    ensures Lists(policies.Keys, keys) && result == ValuesOf(policies, keys) && SortedBy(result, SortKey)
    ensures forall i, j :: 0 <= i < j < |result| ==> InOrder(result[i], result[j])
  {
    var sorted := SortBy(policies.Keys, k => if k in policies then SortKey(policies[k]) else "");
    result, keys := ValuesOf(policies, sorted), sorted;
    SlicesAreInOrder(result);
  }

  lemma SlicesAreInOrder(s: seq<Policy>)
    requires SortedBy(s, SortKey)
    ensures forall i, j :: 0 <= i < j < |s| ==> InOrder(s[i], s[j])
  {
    hide Strings.Alphabetical, TypeOf, StringAt;
    SortedAlphabetically(s, SortKey);
  }

  /** Stored under their own identities, the policies are all different. */
  lemma DifferentPolicies(policies: Policies, keys: seq<GKNN>)
    requires KeyedById(policies) && Lists(policies.Keys, keys)
    ensures Lists(policies.Values, ValuesOf(policies, keys))
  {
    var s := ValuesOf(policies, keys);
    forall p | p in policies.Values ensures p in s {
      var k :| k in policies && policies[k] == p;
      var i :| 0 <= i < |keys| && keys[i] == k;
      assert s[i] == p;
    }
    forall i, j | 0 <= i < j < |s| ensures s[i] != s[j] {
      assert s[i].GKNN() == keys[i] && s[j].GKNN() == keys[j];
    }
  }

  // ---------------------------------------------------------------- the order is unique

  /** Namespace and type have no slash and the kind has no dot, as the API server demands of names. */
  predicate PlainlyNamed(p: Policy) {
    '/' !in p.PolicyCrdID() && '/' !in p.Namespace() && '.' !in p.GKNN().kind
  }

  /** The key tells all policies apart. */
  lemma SortKeyInjective(p: Policy, q: Policy)
    requires PlainlyNamed(p) && PlainlyNamed(q) && SortKey(p) == SortKey(q)
    ensures p.GKNN() == q.GKNN()
  {
    hide TypeOf, StringAt;
    var a, b := p.Namespace() + "/" + p.Name(), q.Namespace() + "/" + q.Name();
    assert SortKey(p) == p.PolicyCrdID() + ['/'] + a && SortKey(q) == q.PolicyCrdID() + ['/'] + b;
    Strings.JoinInjective(p.PolicyCrdID(), a, q.PolicyCrdID(), b, '/');
    assert a == p.Namespace() + ['/'] + p.Name() && b == q.Namespace() + ['/'] + q.Name();
    Strings.JoinInjective(p.Namespace(), p.Name(), q.Namespace(), q.Name(), '/');
    var f, g := p.GKNN(), q.GKNN();
    assert p.PolicyCrdID() == f.kind + ['.'] + f.group && q.PolicyCrdID() == g.kind + ['.'] + g.group;
    Strings.JoinInjective(f.kind, f.group, g.kind, g.group, '.');
  }

  /** Main result on the order: however the map was iterated over, and whatever the sorting does with equal
      keys, there is only one sorted sequence. */
  lemma SliceIsUnique(policies: Policies, s: seq<Policy>, t: seq<Policy>)
    requires KeyedById(policies) && forall g :: g in policies ==> PlainlyNamed(policies[g])
    requires Lists(policies.Values, s) && SortedBy(s, SortKey) && Lists(policies.Values, t) && SortedBy(t, SortKey)
    ensures s == t
  {
    hide SortKey, PlainlyNamed, TypeOf, StringAt, Lists, SortedBy;
    forall p, q | p in policies.Values && q in policies.Values && SortKey(p) == SortKey(q) ensures p == q {
      SortKeyInjective(p, q);
      assert p == policies[p.GKNN()] && q == policies[q.GKNN()];
    }
    SortedIsUnique(policies.Values, s, t, SortKey);
  }

  /** The level that the policies attached to one object make up. */
  ghost predicate IsLevel(direct: Policies, r: Result<PolicyMap, Error>) {
    exists s :: Lists(Inheritable(direct).Values, s) && SortedBy(s, SortKey) && IsFold(s, r)
  }

  method CalculateLevel(direct: Policies) returns (r: Result<PolicyMap, Error>)
    requires KeyedById(direct)
    ensures IsLevel(direct, r)
  {
    var inheritable := FilterInheritablePolicies(direct);
    ghost var keys;
    var policies;
    policies, keys := ConvertPoliciesMapToSlice(inheritable);
    DifferentPolicies(inheritable, keys);
    r := MergePoliciesOfSimilarKind(policies);
  }

  /** So a level does not depend on any order either. */
  lemma LevelIsUnique(direct: Policies, a: PolicyMap, b: PolicyMap)
    requires KeyedById(direct) && forall g :: g in direct && direct[g].inheritable ==> PlainlyNamed(direct[g])
    requires IsLevel(direct, Ok(a)) && IsLevel(direct, Ok(b))
    ensures a == b
  {
    hide Lists, SortedBy, PlainlyNamed, Fold, OfKind;
    var s :| Lists(Inheritable(direct).Values, s) && SortedBy(s, SortKey) && IsFold(s, Ok(a));
    var t :| Lists(Inheritable(direct).Values, t) && SortedBy(t, SortKey) && IsFold(t, Ok(b));
    SliceIsUnique(Inheritable(direct), s, t);
    assert a.Keys == b.Keys;
    forall k | k in a ensures a[k] == b[k] {}
  }
}

/** Concrete policies for which the order of merging makes a difference. */
module PolicyExamples {
  import opened Common
  import opened DirectlyAttachedPolicy
  import opened EffectivePolicies
  import opened Hierarchy
  import opened Json
  import opened LevelHierarchy
  import opened Merger
  import M = Metadata
  import opened Policy
  import opened PolicyLevels
  import opened RouteOrder
  import opened SimilarKind
  import opened Sorting
  import opened UniformKinds
  import Strings

  const X: Path := ["x"]

  function Metadata(name: string, time: nat): Json {
    Obj(map["namespace" := Text("ns"), "name" := Text(name), "creationTimestamp" := Time("", time)])
  }

  function Values(value: Option<string>): Json {
    Obj(if value.Some? then map["x" := Opaque(value.value)] else map[])
  }

  /** An inheritable policy that has under `part`, its default or its override, a value for x or nothing. */
  function Sample(name: string, time: nat, part: string, value: Option<string>): Policy {
    Policy(map["apiVersion" := Text("example.com/v1"), "kind" := Text("RetryPolicy"),
               "metadata" := Metadata(name, time),
               "spec" := Obj(map[part := Values(value)])], [], true, "")
  }

  const KIND := "RetryPolicy.example.com"

  function SampleId(name: string): GKNN {
    GKNN("example.com", "RetryPolicy", "ns", name)
  }

  predicate IsPart(part: string) {
    part == "default" || part == "override"
  }

  lemma SampleShape(v: Option<string>, w: Option<string>, part: string)
    ensures SameShape(Values(v), Values(w)) && NullFree(Values(v))
    ensures SameShape(Obj(map[part := Values(v)]), Obj(map[part := Values(w)])) && NullFree(Obj(map[part := Values(v)]))
  {
  }

  lemma MetadataShape(a: string, s: nat, b: string, t: nat)
    ensures SameShape(Metadata(a, s), Metadata(b, t)) && NullFree(Metadata(a, s))
  {
  }

  lemma Step(fields: map<string, Json>, k: string, rest: Path)
    ensures Probe(Obj(fields), [k] + rest) == if k in fields then Probe(fields[k], rest) else Absent
  {
    assert ([k] + rest)[1..] == rest;
  }

  lemma SpecCells(name: string, time: nat, part: string, value: Option<string>, other: string, path: Path)
    ensures At(Sample(name, time, part, value), ["spec", other] + path) ==
      if other == part then Probe(Values(value), path) else Absent
    ensures At(Sample(name, time, part, value), ["spec"]) == Object
  {
    var p := Sample(name, time, part, value);
    assert ["spec", other] + path == ["spec"] + ([other] + path);
    Step(p.content, "spec", [other] + path);
    Step(map[part := Values(value)], other, path);
    assert ["spec"] == ["spec"] + [];
    Step(p.content, "spec", []);
  }

  lemma MetadataCells(name: string, time: nat, part: string, value: Option<string>)
    ensures var p := Sample(name, time, part, value);
      && At(p, ["kind"]) == Value(Text("RetryPolicy")) && At(p, ["apiVersion"]) == Value(Text("example.com/v1"))
      && At(p, ["metadata", "name"]) == Value(Text(name)) && At(p, ["metadata", "namespace"]) == Value(Text("ns"))
      && At(p, ["metadata", "creationTimestamp"]) == Value(Time("", time))
  {
    var p := Sample(name, time, part, value);
    forall k: string ensures [k] == [k] + [] {}
    forall k: string ensures ["metadata", k] == ["metadata"] + ([k] + []) {}
    Step(p.content, "kind", []);
    Step(p.content, "apiVersion", []);
    forall k: string ensures At(p, ["metadata", k]) == Probe(Metadata(name, time), [k] + []) {
      assert ["metadata", k] == ["metadata"] + ([k] + []);
      Step(p.content, "metadata", [k] + []);
    }
    Step(Metadata(name, time).fields, "name", []);
    Step(Metadata(name, time).fields, "namespace", []);
    Step(Metadata(name, time).fields, "creationTimestamp", []);
  }

  lemma SampleIsWellFormed(name: string, time: nat, part: string, value: Option<string>)
    requires IsPart(part)
    ensures WellFormed(Sample(name, time, part, value)) && FullMetadata(Sample(name, time, part, value), true)
    ensures Sample(name, time, part, value).Created() == time
    ensures NN(Sample(name, time, part, value)) == "ns" + "/" + name
  {
    var p := Sample(name, time, part, value);
    MetadataCells(name, time, part, value);
    assert DEFAULT == ["spec", "default"] + [] && OVERRIDE == ["spec", "override"] + [];
    SpecCells(name, time, part, value, "default", []);
    SpecCells(name, time, part, value, "override", []);
    MetadataShape(name, time, name, time);
    SampleShape(value, value, part);
  }

  lemma SampleIdentity(name: string, time: nat, part: string, value: Option<string>)
    ensures Sample(name, time, part, value).GKNN() == SampleId(name)
    ensures Sample(name, time, part, value).PolicyCrdID() == KIND
  {
    var p := Sample(name, time, part, value);
    hide Sample, Slashes, BeforeSlash;
    MetadataCells(name, time, part, value);
    TypeOfVersioned(p.Doc(), "example.com", "v1");
    assert "example.com" + "/" + "v1" == "example.com/v1";
  }

  lemma DocShape(name: string, time: nat, value: Option<string>, name': string, time': nat, value': Option<string>,
                 part: string)
    ensures SameShape(Sample(name, time, part, value).Doc(), Sample(name', time', part, value').Doc())
  {
    hide Metadata, Values;
    MetadataShape(name, time, name', time');
    SampleShape(value, value', part);
  }

  lemma SamplesAreKindred(name: string, time: nat, value: Option<string>, name': string, time': nat,
                          value': Option<string>, part: string)
    requires IsPart(part)
    ensures Kindred(Sample(name, time, part, value), Sample(name', time', part, value'))
  {
    var p, q := Sample(name, time, part, value), Sample(name', time', part, value');
    hide TypeOf, At;
    SampleIdentity(name, time, part, value);
    SampleIdentity(name', time', part, value');
    DocShape(name, time, value, name', time', value', part);
    forall rest
      ensures Fits(At(p, DEFAULT + rest), At(q, OVERRIDE + rest)) && Fits(At(q, DEFAULT + rest), At(p, OVERRIDE + rest))
    {
      SpecCells(name, time, part, value, "default", rest);
      SpecCells(name, time, part, value, "override", rest);
      SpecCells(name', time', part, value', "default", rest);
      SpecCells(name', time', part, value', "override", rest);
    }
  }

  // ---------------------------------------------------------------- one level

  /** Three policies in the order of their names: the oldest says nothing about x, the youngest comes before
      the one of medium age. */
  function Three(part: string): seq<Policy> {
    [Sample("a", 1, part, None), Sample("aa", 3, part, Some("lower")), Sample("b", 2, part, Some("higher"))]
  }

  function Attached(part: string): M.Policies {
    map[SampleId("a") := Three(part)[0], SampleId("aa") := Three(part)[1], SampleId("b") := Three(part)[2]]
  }

  lemma ThreeAreUniform(part: string)
    requires IsPart(part)
    ensures Uniform(Three(part)) && forall i :: 0 <= i < 3 ==> FullMetadata(Three(part)[i], true)
    ensures Precedes(Three(part)[0], Three(part)[2]) && Precedes(Three(part)[2], Three(part)[1])
    ensures Three(part)[0] != Three(part)[1]
  {
    var names, times := ["a", "aa", "b"], [1, 3, 2];
    var values := [None, Some("lower"), Some("higher")];
    hide Sample, Kindred, WellFormed, FullMetadata;
    forall i | 0 <= i < 3
      ensures WellFormed(Three(part)[i]) && FullMetadata(Three(part)[i], true) && Three(part)[i].Created() == times[i]
    {
      SampleIsWellFormed(names[i], times[i], part, values[i]);
    }
    forall i, j | 0 <= i < 3 && 0 <= j < 3 ensures Kindred(Three(part)[i], Three(part)[j]) {
      SamplesAreKindred(names[i], times[i], values[i], names[j], times[j], values[j], part);
    }
  }

  lemma PlainNames()
    ensures '/' !in KIND && '/' !in "ns" && '.' !in "RetryPolicy"
  {
    var kind, ns, gk := KIND, "ns", "RetryPolicy";
    assert forall i :: 0 <= i < |kind| ==> kind[i] != '/';
    assert forall i :: 0 <= i < |gk| ==> gk[i] != '.';
  }

  lemma KeyOfSample(name: string, time: nat, part: string, value: Option<string>)
    ensures SortKey(Sample(name, time, part, value)) == KIND + "/ns/" + name
    ensures PlainlyNamed(Sample(name, time, part, value))
  {
    hide Sample, TypeOf, StringAt, KIND;
    PlainNames();
    SampleIdentity(name, time, part, value);
    var p := Sample(name, time, part, value);
    assert p.Namespace() == p.GKNN().namespace && p.Name() == p.GKNN().name;
    assert KIND + "/" + "ns" + "/" + name == KIND + "/ns/" + name;
  }

  lemma ThreeAreListed(part: string)
    ensures Lists(Attached(part).Values, Three(part))
  {
    hide Sample;
    SampleIdentity("a", 1, part, None);
    SampleIdentity("aa", 3, part, Some("lower"));
    SampleIdentity("b", 2, part, Some("higher"));
    var m := Attached(part);
    assert m[SampleId("a")] == Three(part)[0] && m[SampleId("aa")] == Three(part)[1]
      && m[SampleId("b")] == Three(part)[2];
  }

  lemma ThreeAreKeyed(part: string)
    ensures KeyedById(Attached(part)) && forall g :: g in Attached(part) ==> PlainlyNamed(Attached(part)[g])
  {
    hide Sample, PlainlyNamed, TypeOf, StringAt;
    SampleIdentity("a", 1, part, None);
    SampleIdentity("aa", 3, part, Some("lower"));
    SampleIdentity("b", 2, part, Some("higher"));
    KeyOfSample("a", 1, part, None);
    KeyOfSample("aa", 3, part, Some("lower"));
    KeyOfSample("b", 2, part, Some("higher"));
  }

  lemma ThreeAreSorted(part: string)
    ensures SortedBy(Three(part), SortKey)
  {
    hide Sample, SortKey, PlainlyNamed;
    KeyOfSample("a", 1, part, None);
    KeyOfSample("aa", 3, part, Some("lower"));
    KeyOfSample("b", 2, part, Some("higher"));
    var prefix := KIND + "/ns/";
    Strings.LessBehind(prefix, "aa", "a");
    Strings.LessBehind(prefix, "b", "a");
    Strings.LessBehind(prefix, "b", "aa");
  }

  /** In a list of policies of one kind all are of that kind. */
  lemma {:induction false} AllOfKind(ps: seq<Policy>, k: string)
    requires forall i :: 0 <= i < |ps| ==> ps[i].PolicyCrdID() == k
    ensures OfKind(ps, k) == ps
  {
    hide TypeOf, StringAt;
    if ps != [] { AllOfKind(ps[..|ps| - 1], k); }
  }

  lemma LevelOfThree(part: string, level: PolicyMap)
    requires IsLevel(Attached(part), Ok(level))
    ensures KIND in level && Fold(Three(part)) == Ok(level[KIND])
  {
    hide Sample, Lists, SortedBy, SortKey, PlainlyNamed, KeyedById, OfKind, Fold;
    ThreeAreListed(part);
    ThreeAreKeyed(part);
    ThreeAreSorted(part);
    var s :| Lists(Inheritable(Attached(part)).Values, s) && SortedBy(s, SortKey) && IsFold(s, Ok(level));
    ThreeAreInheritable(part);
    SliceIsUnique(Attached(part), s, Three(part));
    SampleIdentity("a", 1, part, None);
    SampleIdentity("aa", 3, part, Some("lower"));
    SampleIdentity("b", 2, part, Some("higher"));
    AllOfKind(Three(part), KIND);
  }

  lemma ThreeAreInheritable(part: string)
    ensures Inheritable(Attached(part)) == Attached(part)
  {
  }

  lemma XOf(name: string, time: nat, part: string, value: Option<string>)
    ensures At(Sample(name, time, part, value), ["spec", part, "x"]) ==
      if value.Some? then Value(Opaque(value.value)) else Absent
  {
    assert ["spec", part, "x"] == ["spec", part] + X;
    SpecCells(name, time, part, value, part, X);
    assert X[1..] == [];
  }

  /** Main result on defaults: attached to one object, these three policies give it the default of the
      policy that is lower than the other one with a default. */
  lemma LowerDefaultWins(level: PolicyMap)
    requires IsLevel(Attached("default"), Ok(level))
    ensures Precedes(Attached("default")[SampleId("b")], Attached("default")[SampleId("aa")])
    ensures KIND in level && At(level[KIND], ["spec", "default", "x"]) == Value(Opaque("lower"))
  {
    hide Sample, Precedes, Fold, IsLevel, At, FullMetadata, Uniform;
    var ps := Three("default");
    LevelOfThree("default", level);
    ThreeAreUniform("default");
    XOf("a", 1, "default", None);
    XOf("aa", 3, "default", Some("lower"));
    XOf("b", 2, "default", Some("higher"));
    DefaultFromLower(ps[0], ps[1], ps[2], ["spec", "default", "x"], true);
  }

  /** Main result on overrides: and the override of the policy that is higher than another one with an
      override, though not the highest. */
  lemma HigherOverrideWins(level: PolicyMap)
    requires IsLevel(Attached("override"), Ok(level))
    ensures Precedes(Attached("override")[SampleId("b")], Attached("override")[SampleId("aa")])
    ensures KIND in level && At(level[KIND], ["spec", "override", "x"]) == Value(Opaque("higher"))
  {
    hide Sample, Precedes, Fold, IsLevel, At, FullMetadata, Uniform;
    var ps := Three("override");
    LevelOfThree("override", level);
    ThreeAreUniform("override");
    XOf("aa", 3, "override", Some("lower"));
    XOf("b", 2, "override", Some("higher"));
    OverrideFromHigher(ps[0], ps[1], ps[2], ["spec", "override", "x"], true);
  }

  /** The slice that the three make up, as it is calculated. */
  method SliceOfThree() returns (slice: seq<Policy>)
    ensures slice == Three("default")
  {
    hide Sample, Lists, SortedBy, SortKey, PlainlyNamed, KeyedById, ValuesOf;
    ghost var keys;
    slice, keys := ConvertPoliciesMapToSlice(Attached("default"));
    ThreeAreListed("default");
    ThreeAreKeyed("default");
    ThreeAreSorted("default");
    DifferentPolicies(Attached("default"), keys);
    SliceIsUnique(Attached("default"), slice, Three("default"));
  }

  // ---------------------------------------------------------------- the same age

  /** Two policies of one age. */
  function Pair(): seq<Policy> {
    [Sample("a", 5, "default", Some("first")), Sample("b", 5, "default", Some("second"))]
  }

  function PairAttached(): M.Policies {
    map[SampleId("a") := Pair()[0], SampleId("b") := Pair()[1]]
  }

  lemma PairFacts()
    ensures UniformPair(Pair()[0], Pair()[1])
    ensures KeyedById(PairAttached()) && forall g :: g in PairAttached() ==> PlainlyNamed(PairAttached()[g])
    ensures !Strings.Less(SortKey(Pair()[1]), SortKey(Pair()[0]))
    ensures forall i :: 0 <= i < 2 ==> Pair()[i].PolicyCrdID() == KIND
  {
    hide Sample, SortKey, PlainlyNamed, TypeOf, StringAt, Kindred, WellFormed, FullMetadata;
    SampleIdentity("a", 5, "default", Some("first"));
    SampleIdentity("b", 5, "default", Some("second"));
    KeyOfSample("a", 5, "default", Some("first"));
    KeyOfSample("b", 5, "default", Some("second"));
    Strings.LessBehind(KIND + "/ns/", "b", "a");
    SampleIsWellFormed("a", 5, "default", Some("first"));
    SampleIsWellFormed("b", 5, "default", Some("second"));
    SamplesAreKindred("a", 5, Some("first"), "b", 5, Some("second"), "default");
    SamplesAreKindred("b", 5, Some("second"), "a", 5, Some("first"), "default");
  }

  ghost predicate UniformPair(p: Policy, q: Policy) {
    WellFormed(p) && WellFormed(q) && Kindred(q, p) && p.Created() == q.Created()
  }

  /** Main result on ties: attached to one object, these two give it the default of the alphabetically first. */
  lemma FirstNameWins(level: PolicyMap)
    requires IsLevel(PairAttached(), Ok(level))
    ensures KIND in level && At(level[KIND], ["spec", "default", "x"]) == Value(Opaque("first"))
  {
    hide Sample, IsFold, SortKey, PlainlyNamed, KeyedById, Lists, SortedBy, At, Kindred, WellFormed, Inheritable;
    PairFacts();
    PairOrder();
    PairLists();
    var s :| Lists(Inheritable(PairAttached()).Values, s) && SortedBy(s, SortKey) && IsFold(s, Ok(level));
    SliceIsUnique(PairAttached(), s, Pair());
    FoldOfPair(level);
    MergedAt(Pair()[1], Pair()[0], ["spec", "default", "x"]);
    XOf("a", 5, "default", Some("first"));
  }

  lemma PairLists()
    ensures Inheritable(PairAttached()) == PairAttached()
    ensures IsSlice(PairAttached(), Pair())
  {
    hide SortKey, Sample, IsSlice;
    PairFacts();
    PairInheritable();
    TwoSlices(PairAttached(), SampleId("a"), Pair()[0], SampleId("b"), Pair()[1]);
  }

  lemma PairInheritable()
    ensures Inheritable(PairAttached()) == PairAttached() && Pair()[0].inheritable && Pair()[1].inheritable
    ensures Pair()[0] != Pair()[1] && SampleId("a") != SampleId("b")
  {
    hide Sample;
    SampleIsWellFormed("a", 5, "default", Some("first"));
    SampleIsWellFormed("b", 5, "default", Some("second"));
    SampleIdentity("a", 5, "default", Some("first"));
    SampleIdentity("b", 5, "default", Some("second"));
  }

  lemma PairOrder()
    ensures OrderByPrecedence(Pair()[0], Pair()[1]) == (Pair()[1].DeepCopy(), Pair()[0].DeepCopy())
    ensures Pair()[0].DeepCopy() == Pair()[0] && Pair()[1].DeepCopy() == Pair()[1]
  {
    hide OrderByPrecedence;
    PairNames();
    FirstNameLast(Pair()[0], Pair()[1]);
  }

  lemma PairNames()
    ensures Pair()[0].Created() == Pair()[1].Created() && Pair()[0].Namespace() == Pair()[1].Namespace()
    ensures Strings.Alphabetical(Pair()[0].Name(), Pair()[1].Name())
    ensures Pair()[0].status == Pair()[1].status == ""
  {
    PairFacts();
    hide TypeOf, StringAt, SortKey, Kindred, WellFormed;
    SampleIdentity("a", 5, "default", Some("first"));
    SampleIdentity("b", 5, "default", Some("second"));
    assert Strings.DiffersAt("a", "b", 0);
  }

  lemma FoldOfPair(level: PolicyMap)
    requires IsFold(Pair(), Ok(level))
    requires OrderByPrecedence(Pair()[0], Pair()[1]) == (Pair()[1], Pair()[0])
    requires forall i :: 0 <= i < 2 ==> Pair()[i].PolicyCrdID() == KIND
    ensures KIND in level && MergePolicy(Pair()[1], Pair()[0]) == Ok(level[KIND])
  {
    hide Sample, OfKind, OrderByPrecedence, MergePolicy, TypeOf, StringAt;
    AllOfKind(Pair(), KIND);
    assert Pair()[..1] == [Pair()[0]];
  }

  // ---------------------------------------------------------------- three routes

  /** A route with one policy. */
  function Route(p: Policy): PolicyMap {
    map[KIND := p]
  }

  lemma RouteIsSound(name: string, time: nat, part: string, value: Option<string>)
    requires IsPart(part)
    ensures Sound(Route(Sample(name, time, part, value)))
  {
    hide Sample, At;
    SampleIsWellFormed(name, time, part, value);
    SampleIdentity(name, time, part, value);
  }

  /** Main result on routes: the same three routes of a backend give it two different defaults in two orders. */
  lemma RouteOrderMatters() returns (abc: PolicyMap, acb: PolicyMap)
    ensures var ps := Three("default");
      && IsAccumulated([Route(ps[0]), Route(ps[1]), Route(ps[2])], abc)
      && IsAccumulated([Route(ps[0]), Route(ps[2]), Route(ps[1])], acb)
    ensures KIND in abc && At(abc[KIND], ["spec", "default", "x"]) == Value(Opaque("lower"))
    ensures KIND in acb && At(acb[KIND], ["spec", "default", "x"]) == Value(Opaque("higher"))
  {
    hide Sample, IsAccumulated, At, Sound, FullMetadata, Uniform, Precedes;
    var ps := Three("default");
    RouteIsSound("a", 1, "default", None);
    RouteIsSound("aa", 3, "default", Some("lower"));
    RouteIsSound("b", 2, "default", Some("higher"));
    abc := AccumulationExists([Route(ps[0]), Route(ps[1]), Route(ps[2])]);
    acb := AccumulationExists([Route(ps[0]), Route(ps[2]), Route(ps[1])]);
    ThreeAreUniform("default");
    PrecedesTransitive(ps[0], ps[2], ps[1]);
    XOf("a", 1, "default", None);
    XOf("aa", 3, "default", Some("lower"));
    XOf("b", 2, "default", Some("higher"));
    ThreeRoutesOrderMatters(Route(ps[0]), Route(ps[1]), Route(ps[2]), KIND, ["spec", "default", "x"], abc, acb, true);
  }

  // ---------------------------------------------------------------- two routes with a policy in common

  function Id(gk: GroupKind, namespace: string, name: string): GKNN {
    GKNN(gk.group, gk.kind, namespace, name)
  }

  const ROUTE1 := Id(HTTP_ROUTE_GK, "ns", "r1")
  const ROUTE2 := Id(HTTP_ROUTE_GK, "ns", "r2")
  const NAMESPACE := Id(NAMESPACE_GK, "", "ns")

  /** A sample that is attached to something. */
  function Aimed(name: string, time: nat, value: Option<string>, refs: seq<GKNN>): Policy {
    Sample(name, time, "default", value).(targetRefs := refs)
  }

  /** The oldest policy, which is silent, is attached to both routes, another one to the first of them, and a
      third one to their Namespace. */
  const SHARED := Aimed("a", 1, None, [ROUTE1, ROUTE2])
  const OTHER := Aimed("b", 3, Some("other"), [ROUTE1])
  const ABOVE := Aimed("n", 2, Some("above"), [NAMESPACE])

  function InCommon(): M.Policies {
    map[SampleId("a") := SHARED, SampleId("b") := OTHER, SampleId("n") := ABOVE]
  }

  lemma IdsDiffer()
    ensures ROUTE1 != ROUTE2 && ROUTE1 != NAMESPACE && ROUTE2 != NAMESPACE
    ensures SampleId("a") != SampleId("b") && SampleId("a") != SampleId("n") && SampleId("b") != SampleId("n")
  {
    assert "r1"[1] != "r2"[1] && HTTP_ROUTE_GK.kind[0] != NAMESPACE_GK.kind[0];
    assert "a"[0] != "b"[0] && "a"[0] != "n"[0] && "b"[0] != "n"[0];
  }

  /** What a policy is attached to makes no difference to what it says. */
  lemma AimedAlike(p: Policy, refs: seq<GKNN>)
    ensures var q := p.(targetRefs := refs);
      && q.Doc() == p.Doc() && WellFormed(q) == WellFormed(p) && q.Created() == p.Created()
      && q.PolicyCrdID() == p.PolicyCrdID() && SortKey(q) == SortKey(p)
      && forall namespaced :: FullMetadata(q, namespaced) == FullMetadata(p, namespaced)
  {
  }

  lemma KindredAlike(p: Policy, q: Policy, p': Policy, q': Policy)
    requires p.Doc() == p'.Doc() && q.Doc() == q'.Doc() && Kindred(p, q)
    ensures Kindred(p', q')
  {
  }

  lemma AimedFacts(name: string, time: nat, value: Option<string>, refs: seq<GKNN>)
    ensures var p := Aimed(name, time, value, refs);
      && WellFormed(p) && FullMetadata(p, true) && p.PolicyCrdID() == KIND && p.Created() == time
      && SortKey(p) == KIND + "/ns/" + name
      && At(p, ["spec", "default", "x"]) == if value.Some? then Value(Opaque(value.value)) else Absent
  {
    hide Sample, WellFormed, FullMetadata, SortKey, TypeOf, StringAt, Probe;
    AimedAlike(Sample(name, time, "default", value), refs);
    SampleIsWellFormed(name, time, "default", value);
    SampleIdentity(name, time, "default", value);
    KeyOfSample(name, time, "default", value);
    XOf(name, time, "default", value);
  }

  lemma AimedAreKindred(name: string, time: nat, value: Option<string>, refs: seq<GKNN>,
                        name': string, time': nat, value': Option<string>, refs': seq<GKNN>)
    ensures Kindred(Aimed(name, time, value, refs), Aimed(name', time', value', refs'))
  {
    hide Sample, Kindred;
    var p, q := Sample(name, time, "default", value), Sample(name', time', "default", value');
    SamplesAreKindred(name, time, value, name', time', value', "default");
    KindredAlike(p, q, p.(targetRefs := refs), q.(targetRefs := refs'));
  }

  lemma InCommonAreUniform()
    ensures UniformKind({SHARED, OTHER, ABOVE}, true)
  {
    hide Sample, Kindred, WellFormed, FullMetadata, Aimed;
    var names, times, values := ["a", "b", "n"], [1, 3, 2], [None, Some("other"), Some("above")];
    var refs := [[ROUTE1, ROUTE2], [ROUTE1], [NAMESPACE]];
    var ps := [SHARED, OTHER, ABOVE];
    forall i | 0 <= i < 3 ensures WellFormed(ps[i]) && FullMetadata(ps[i], true) {
      AimedFacts(names[i], times[i], values[i], refs[i]);
    }
    forall i, j | 0 <= i < 3 && 0 <= j < 3 ensures Kindred(ps[i], ps[j]) {
      AimedAreKindred(names[i], times[i], values[i], refs[i], names[j], times[j], values[j], refs[j]);
    }
    assert SHARED == ps[0] && OTHER == ps[1] && ABOVE == ps[2];
  }

  lemma {:induction false} NoneOfKind(ps: seq<Policy>, k: string)
    requires forall i :: 0 <= i < |ps| ==> ps[i].PolicyCrdID() != k
    ensures OfKind(ps, k) == []
  {
    hide TypeOf, StringAt;
    if ps != [] { NoneOfKind(ps[..|ps| - 1], k); }
  }

  /** A list of policies of one kind merges to a level of one policy. */
  lemma LevelOfOneKind(direct: M.Policies, s: seq<Policy>, merged: Policy)
    requires IsSlice(direct, s) && s != [] && Fold(s) == Ok(merged)
    requires forall i :: 0 <= i < |s| ==> s[i].PolicyCrdID() == KIND
    ensures IsLevel(direct, Ok(Route(merged)))
  {
    hide TypeOf, StringAt, IsFold, Fold, Inheritable, Lists, SortedBy, Route;
    FoldOfOneKind(s, merged);
  }

  lemma FoldOfOneKind(s: seq<Policy>, merged: Policy)
    requires s != [] && Fold(s) == Ok(merged) && forall i :: 0 <= i < |s| ==> s[i].PolicyCrdID() == KIND
    ensures IsFold(s, Ok(Route(merged)))
  {
    hide TypeOf, StringAt, OfKind, Fold, KIND;
    forall k ensures OfKind(s, k) == if k == KIND then s else [] { OneKindOnly(s, k); }
  }

  lemma OneKindOnly(s: seq<Policy>, k: string)
    requires forall i :: 0 <= i < |s| ==> s[i].PolicyCrdID() == KIND
    ensures OfKind(s, k) == if k == KIND then s else []
  {
    hide TypeOf, StringAt, OfKind, KIND;
    if k == KIND { AllOfKind(s, k); } else { NoneOfKind(s, k); }
  }

  lemma OneSlice(direct: M.Policies, k: GKNN, p: Policy)
    requires direct == map[k := p] && p.inheritable
    ensures IsSlice(direct, [p])
  {
    assert Inheritable(direct) == direct && direct[k] == p;
  }

  lemma TwoSlices(direct: M.Policies, k: GKNN, p: Policy, l: GKNN, q: Policy)
    requires direct == map[k := p, l := q] && k != l && p != q && p.inheritable && q.inheritable
    requires !Strings.Less(SortKey(q), SortKey(p))
    ensures IsSlice(direct, [p, q])
  {
    hide SortKey;
    assert Inheritable(direct) == direct;
    assert direct[k] == p && direct[l] == q;
  }

  lemma AttachedMore(policies: M.Policies, a: GKNN, p: Policy, k: GKNN)
    requires a !in policies
    ensures AttachedTo(policies[a := p], k) ==
      if k in p.targetRefs then AttachedTo(policies, k)[a := p] else AttachedTo(policies, k)
  {
  }

  lemma AttachedOfThree(a: GKNN, p: Policy, b: GKNN, q: Policy, c: GKNN, r: Policy, k: GKNN)
    requires a != b && a != c && b != c
    ensures AttachedTo(map[a := p, b := q, c := r], k) ==
      (if k in p.targetRefs then map[a := p] else map[]) + (if k in q.targetRefs then map[b := q] else map[])
      + if k in r.targetRefs then map[c := r] else map[]
  {
    hide AttachedTo;
    assert AttachedTo(map[], k) == map[] by { NothingAttached(k); }
    AttachedMore(map[], a, p, k);
    AttachedMore(map[a := p], b, q, k);
    AttachedMore(map[a := p, b := q], c, r, k);
  }

  lemma NothingAttached(k: GKNN)
    ensures AttachedTo(map[], k) == map[]
  {
  }

  lemma AttachedInCommon()
    ensures AttachedTo(InCommon(), ROUTE1) == map[SampleId("a") := SHARED, SampleId("b") := OTHER]
    ensures AttachedTo(InCommon(), ROUTE2) == map[SampleId("a") := SHARED]
    ensures AttachedTo(InCommon(), NAMESPACE) == map[SampleId("n") := ABOVE]
  {
    hide Sample, AttachedTo, SampleId, ROUTE1, ROUTE2, NAMESPACE;
    IdsDiffer();
    var a, b, n := SampleId("a"), SampleId("b"), SampleId("n");
    AttachedOfThree(a, SHARED, b, OTHER, n, ABOVE, ROUTE1);
    AttachedOfThree(a, SHARED, b, OTHER, n, ABOVE, ROUTE2);
    AttachedOfThree(a, SHARED, b, OTHER, n, ABOVE, NAMESPACE);
  }

  lemma SlicesInCommon()
    ensures IsSlice(AttachedTo(InCommon(), ROUTE1), [SHARED, OTHER])
    ensures IsSlice(AttachedTo(InCommon(), ROUTE2), [SHARED])
    ensures IsSlice(AttachedTo(InCommon(), NAMESPACE), [ABOVE])
    ensures SHARED.PolicyCrdID() == OTHER.PolicyCrdID() == ABOVE.PolicyCrdID() == KIND
  {
    hide Sample, Aimed, SortKey, IsSlice, InCommon, AttachedTo, TypeOf, StringAt, WellFormed, FullMetadata;
    IdsDiffer();
    AttachedInCommon();
    FactsInCommon();
    Strings.LessBehind(KIND + "/ns/", "b", "a");
    TwoSlices(AttachedTo(InCommon(), ROUTE1), SampleId("a"), SHARED, SampleId("b"), OTHER);
    OneSlice(AttachedTo(InCommon(), ROUTE2), SampleId("a"), SHARED);
    OneSlice(AttachedTo(InCommon(), NAMESPACE), SampleId("n"), ABOVE);
  }

  lemma FactsInCommon()
    ensures SHARED.PolicyCrdID() == OTHER.PolicyCrdID() == ABOVE.PolicyCrdID() == KIND
    ensures SHARED.inheritable && OTHER.inheritable && ABOVE.inheritable && SHARED != OTHER
    ensures SortKey(SHARED) == KIND + "/ns/" + "a" && SortKey(OTHER) == KIND + "/ns/" + "b"
    ensures Precedes(SHARED, OTHER)
    ensures At(SHARED, ["spec", "default", "x"]) == Absent
    ensures At(OTHER, ["spec", "default", "x"]) == Value(Opaque("other"))
    ensures At(ABOVE, ["spec", "default", "x"]) == Value(Opaque("above"))
  {
    hide Sample, Aimed, SortKey, TypeOf, StringAt, FullMetadata, At;
    AimedFacts("a", 1, None, [ROUTE1, ROUTE2]);
    AimedFacts("b", 3, Some("other"), [ROUTE1]);
    AimedFacts("n", 2, Some("above"), [NAMESPACE]);
  }

  lemma TwoLevelStack(policies: M.Policies, upper: GKNN, lower: GKNN, above: Policy, own: Policy, merged: Policy)
    requires IsLevel(AttachedTo(policies, upper), Ok(Route(above)))
    requires IsLevel(AttachedTo(policies, lower), Ok(Route(own)))
    requires MergePolicy(above, own) == Ok(merged)
    ensures IsStack(policies, [], [upper, lower], Route(merged))
  {
    hide AttachedTo, IsLevel, MergePolicy, IsHierarchy;
    var levels := [Route(above), Route(own)];
    assert MergedKind(Route(above), Route(own), ParentFirst, KIND) == Ok(merged);
    SingleLevel(Route(above));
    NextLevel([Route(above)], Route(above), Route(own), Route(merged));
    assert [Route(above)] + [Route(own)] == levels == [] + levels;
    assert AreLevels(policies, [upper, lower], levels);
  }

  /** The policies of a route below those of its Namespace. */
  lemma StackInCommon(route: GKNN, s: seq<Policy>, own: Policy, merged: Policy)
    requires IsSlice(AttachedTo(InCommon(), route), s) && s != [] && Fold(s) == Ok(own)
    requires forall i :: 0 <= i < |s| ==> s[i].PolicyCrdID() == KIND
    requires MergePolicy(ABOVE, own) == Ok(merged)
    ensures IsStack(InCommon(), [], [NAMESPACE, route], Route(merged))
  {
    hide InCommon, AttachedTo, IsSlice, IsLevel, IsStack, Aimed, MergePolicy, Fold, TypeOf, StringAt, NAMESPACE;
    SlicesInCommon();
    FoldOne(ABOVE);
    LevelOfOneKind(AttachedTo(InCommon(), NAMESPACE), [ABOVE], ABOVE);
    LevelOfOneKind(AttachedTo(InCommon(), route), s, own);
    TwoLevelStack(InCommon(), NAMESPACE, route, ABOVE, own, merged);
  }

  /** Main result on two routes: with these three policies, the two routes of a backend give it two different
      defaults in the two orders, since both their policies have the identity of the shared one. */
  lemma TwoRoutesInCommon() returns (first: Policy, second: Policy, m: PolicyMap, n: PolicyMap)
    ensures IsStack(InCommon(), [], [NAMESPACE, ROUTE1], Route(first))
    ensures IsStack(InCommon(), [], [NAMESPACE, ROUTE2], Route(second))
    ensures SameIdentity(first, second)
    ensures IsAccumulated([Route(first), Route(second)], m) && IsAccumulated([Route(second), Route(first)], n)
    ensures KIND in m && At(m[KIND], ["spec", "default", "x"]) == Value(Opaque("above"))
    ensures KIND in n && At(n[KIND], ["spec", "default", "x"]) == Value(Opaque("other"))
  {
    hide InCommon, AttachedTo, IsSlice, IsStack, Aimed, MergePolicy, Fold, TypeOf, StringAt, At, UniformKind, Precedes,
      SameIdentity, MergeSame;
    FactsInCommon();
    SlicesInCommon();
    InCommonAreUniform();
    TwoRoutesOrderMatters(SHARED, OTHER, ABOVE, ["spec", "default", "x"], true);
    var both := Fold([SHARED, OTHER]).value;
    first, second := MergePolicy(ABOVE, both).value, MergePolicy(ABOVE, SHARED).value;
    FoldOne(SHARED);
    StackInCommon(ROUTE1, [SHARED, OTHER], both, first);
    StackInCommon(ROUTE2, [SHARED], SHARED, second);
    m := TwoAccumulated(first, second);
    n := TwoAccumulated(second, first);
  }

  lemma TwoAccumulated(p: Policy, q: Policy) returns (merged: PolicyMap)
    requires MergeSame(p, q).Ok?
    ensures IsAccumulated([Route(p), Route(q)], merged) && merged == Route(MergeSame(p, q).value)
  {
    hide MergeSame, OrderByPrecedence;
    merged := Route(MergeSame(p, q).value);
    assert [Route(p), Route(q)][..1] == [Route(p)] && [Route(p)][..0] == [];
    MergedKindIsMergeSame(Route(p), Route(q), KIND);
    var nothing: PolicyMap := map[];
    assert IsAccumulated([], nothing) && IsMerge(nothing, Route(p), OrderByPrecedence, Ok(Route(p)));
    assert IsAccumulated([Route(p)], Route(p));
    assert IsMerge(Route(p), Route(q), OrderByPrecedence, Ok(merged));
  }
}

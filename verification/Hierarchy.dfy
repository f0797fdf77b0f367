/** What merging policies from the top of the hierarchy to the bottom yields at every path
    (mergePolicy and EffectiveSpec; pkg/extension/gatewayeffectivepolicy chains them). */
module Hierarchy {
  import opened Common
  import opened Json
  import opened Policy

  const OVERRIDE: Path := ["spec", "override"]
  const DEFAULT: Path := ["spec", "default"]

  predicate UnderOverride(path: Path) {
    |path| >= 2 && path[0] == "spec" && path[1] == "override"
  }

  function At(p: Policy, path: Path): Cell {
    Probe(p.Doc(), path)
  }

  /** The first of two cells that is not absent. */
  function Or(a: Cell, b: Cell): Cell {
    if a != Absent then a else b
  }

  /** An inheritable policy of the form that EffectiveSpec can deal with, without nulls, whose object says
      of what type it is. */
  predicate WellFormed(p: Policy) {
    && p.inheritable && NullFree(p.Doc())
    && At(p, ["spec"]) in {Absent, Object} && At(p, OVERRIDE) in {Absent, Object} && At(p, DEFAULT) in {Absent, Object}
    && Typed(p)
  }

  predicate IsString(c: Cell) {
    c.Value? && (c.leaf.Text? || c.leaf.Time?)
  }

  /** Policies of one CRD: of the same type and, with their defaults and overrides, of the same shape. */
  ghost predicate Kindred(p: Policy, q: Policy) {
    && p.PolicyCrdID() == q.PolicyCrdID()
    && SameShape(p.Doc(), q.Doc())
    && (forall rest :: Fits(At(p, DEFAULT + rest), At(q, OVERRIDE + rest)))
    && (forall rest :: Fits(At(q, DEFAULT + rest), At(p, OVERRIDE + rest)))
  }

  /** Every cell of `r` comes from one of `p` and `q`, and its type from `q`. */
  lemma KindredMerge(p: Policy, q: Policy, r: Policy, other: Policy)
    requires forall path :: At(r, path) == At(p, path) || At(r, path) == At(q, path)
    requires r.PolicyCrdID() == other.PolicyCrdID()
    requires Kindred(p, other) && Kindred(q, other)
    ensures Kindred(r, other)
  {
    if !SameShape(r.Doc(), other.Doc()) {
      var path := FindMisfit(r.Doc(), other.Doc());
      assert At(r, path) == At(p, path) || At(r, path) == At(q, path);
      SameShapeAt(p.Doc(), other.Doc(), path);
      SameShapeAt(q.Doc(), other.Doc(), path);
    }
  }

  // ---------------------------------------------------------------- two levels

  lemma OverridePatchAt(override: Json, path: Path)
    ensures NullFree(override) ==> NullFree(OverridePatch(override))
    ensures Probe(OverridePatch(override), path) ==
      if UnderOverride(path) then Probe(override, path[2..])
      else if path == [] || path == ["spec"] then Object else Absent
    ensures Blocks(OverridePatch(override), path) <==> UnderOverride(path) && Blocks(override, path[2..])
  {
  }

  /** Reading a nested field, by path. */
  lemma {:induction false} NestedAt(j: Json, path: Path, rest: Path)
    requires NullFree(j)
    ensures Nested(j, path).Err? <==> Blocks(j, path)
    ensures Nested(j, path) == Ok(None) ==> Probe(j, path + rest) == Absent
    ensures Nested(j, path).Ok? && Nested(j, path).value.Some? ==>
      var v := Nested(j, path).value.value;
      NullFree(v) && Probe(j, path + rest) == Probe(v, rest) && (Blocks(j, path + rest) <==> Blocks(v, rest))
  {
    if path == [] {
      assert [] + rest == rest;
    } else {
      assert (path + rest)[0] == path[0] && (path + rest)[1..] == path[1..] + rest;
      if path[0] in Fields(j) { NestedAt(Fields(j)[path[0]], path[1..], rest); }
    }
  }

  /** The override of a policy. */
  lemma OverrideAt(p: Policy, path: Path)
    requires NullFree(p.Doc()) && At(p, ["spec"]) in {Absent, Object}
    ensures Nested(p.Doc(), OVERRIDE).Ok?
    ensures UnderOverride(path) && Nested(p.Doc(), OVERRIDE).value.None? ==> At(p, path) == Absent
    ensures Nested(p.Doc(), OVERRIDE).value.Some? ==> NullFree(Nested(p.Doc(), OVERRIDE).value.value)
    ensures UnderOverride(path) && Nested(p.Doc(), OVERRIDE).value.Some? ==>
      var o := Nested(p.Doc(), OVERRIDE).value.value;
      Probe(o, path[2..]) == At(p, path) && (Blocks(o, path[2..]) <==> Blocks(p.Doc(), path))
  {
    var rest := if UnderOverride(path) then path[2..] else [];
    NestedAt(p.Doc(), OVERRIDE, rest);
    assert OVERRIDE[1..] == ["override"] && OVERRIDE[1..][1..] == [];
    assert !Blocks(p.Doc(), OVERRIDE) by {
      assert ["spec"][1..] == [];
      if "spec" in p.content {
        assert Probe(p.Doc(), ["spec"]) == Probe(Fields(p.Doc())["spec"], ["spec"][1..]);
        var spec := p.content["spec"];
        assert ["override"][1..] == [] && !Blocks(spec, ["override"]);
      }
    }
    assert UnderOverride(path) ==> path == OVERRIDE + rest;
  }

  /** Main result for two levels: overrides come from the parent first, all the rest from the child first. */
  lemma MergedAt(parent: Policy, child: Policy, path: Path)
    requires WellFormed(parent) && WellFormed(child) && Kindred(parent, child)
    ensures MergePolicy(parent, child).Ok?
    ensures At(MergePolicy(parent, child).value, path) ==
      if UnderOverride(path) then Or(At(parent, path), At(child, path)) else Or(At(child, path), At(parent, path))
  {
    var p, c := parent.Doc(), child.Doc();
    var merged := MergePatch(p, c);
    OverrideAt(parent, path);
    LaidOver(p, c, path);
    if Blocks(c, path) { SameShapeBlocks(p, c, path); }
    if Nested(p, OVERRIDE).value.Some? {
      var o := Nested(p, OVERRIDE).value.value;
      OverridePatchAt(o, path);
      LaidOver(merged, OverridePatch(o), path);
      if Blocks(OverridePatch(o), path) {
        SameShapeSymmetric(p, c);
        SameShapeBlocks(c, p, path);
      }
    }
  }

  /** A parent that is not inheritable has no say over the child, not even by what it has as an override. */
  lemma DirectMergedAt(parent: Policy, child: Policy, path: Path)
    requires !parent.inheritable && parent.PolicyCrdID() == child.PolicyCrdID()
    ensures MergePolicy(parent, child).Ok?
    ensures At(MergePolicy(parent, child).value, path) ==
      if path == [] then Object
      else if Blocks(child.Doc(), path) || At(child, path) == Value(Null) then Absent
      else Or(At(child, path), At(parent, path))
  {
    MergeAt(parent.Doc(), child.Doc(), path);
  }

  /** A value of the child outside the override survives any merge, whatever the two documents are. */
  lemma ChildValueSurvives(parent: Policy, child: Policy, path: Path)
    requires MergePolicy(parent, child).Ok? && At(child, path).Value? && At(child, path).leaf != Null
    requires path != [] && path != ["spec"] && !UnderOverride(path)
    ensures At(MergePolicy(parent, child).value, path) == At(child, path)
  {
    var merged := MergePatch(parent.Doc(), child.Doc());
    MergeAt(parent.Doc(), child.Doc(), path);
    if Blocks(child.Doc(), path) { BlockedIsAbsent(child.Doc(), path); }
    if parent.inheritable && Nested(parent.Doc(), OVERRIDE).Ok? && Nested(parent.Doc(), OVERRIDE).value.Some? {
      var o := Nested(parent.Doc(), OVERRIDE).value.value;
      OverridePatchAt(o, path);
      MergeAt(merged, OverridePatch(o), path);
    }
  }

  /** A value below the override of an inheritable parent survives any merge. */
  lemma ParentOverrideSurvives(parent: Policy, child: Policy, path: Path)
    requires MergePolicy(parent, child).Ok? && parent.inheritable && UnderOverride(path)
    requires At(parent, path).Value? && At(parent, path).leaf != Null
    ensures At(MergePolicy(parent, child).value, path) == At(parent, path)
  {
    assert path == OVERRIDE + path[2..];
    var o := NestedOfValue(parent.Doc(), OVERRIDE, path[2..]);
    var merged := MergePatch(parent.Doc(), child.Doc());
    OverridePatchAt(o, path);
    MergeAt(merged, OverridePatch(o), path);
    if Blocks(o, path[2..]) { BlockedIsAbsent(o, path[2..]); }
  }

  /** What neither has, the merge does not have. */
  lemma AbsentStays(parent: Policy, child: Policy, path: Path)
    requires MergePolicy(parent, child).Ok? && path != [] && path != ["spec"] && !UnderOverride(path)
    requires At(parent, path) == Absent && At(child, path) == Absent
    ensures At(MergePolicy(parent, child).value, path) == Absent
  {
    var merged := MergePatch(parent.Doc(), child.Doc());
    MergeAt(parent.Doc(), child.Doc(), path);
    if parent.inheritable && Nested(parent.Doc(), OVERRIDE).value.Some? {
      var o := Nested(parent.Doc(), OVERRIDE).value.value;
      OverridePatchAt(o, path);
      MergeAt(merged, OverridePatch(o), path);
    }
  }

  /** Where there is a value further down, there is a field to read. */
  lemma {:induction false} NestedOfValue(j: Json, path: Path, rest: Path) returns (v: Json)
    requires Probe(j, path + rest) != Absent
    ensures Nested(j, path) == Ok(Some(v)) && Probe(v, rest) == Probe(j, path + rest)
  {
    if path == [] {
      assert [] + rest == rest;
      v := j;
    } else {
      assert (path + rest)[0] == path[0] && (path + rest)[1..] == path[1..] + rest;
      v := NestedOfValue(Fields(j)[path[0]], path[1..], rest);
    }
  }

  predicate Typed(p: Policy) {
    IsString(At(p, ["kind"])) && IsString(At(p, ["apiVersion"]))
  }

  /** The merge of two policies of one type is of that type. */
  lemma MergedKeepsType(parent: Policy, child: Policy)
    requires MergePolicy(parent, child).Ok? && Typed(child)
    ensures Typed(MergePolicy(parent, child).value)
    ensures MergePolicy(parent, child).value.PolicyCrdID() == child.PolicyCrdID()
  {
    ChildValueSurvives(parent, child, ["kind"]);
    ChildValueSurvives(parent, child, ["apiVersion"]);
  }

  /** The result of a merge is again a well-formed policy, of the same type, and akin to all that its two
      parts are akin to. */
  lemma MergedIsWellFormed(parent: Policy, child: Policy)
    requires WellFormed(parent) && WellFormed(child) && Kindred(parent, child)
    ensures MergePolicy(parent, child).Ok? && WellFormed(MergePolicy(parent, child).value)
    ensures MergePolicy(parent, child).value.PolicyCrdID() == child.PolicyCrdID()
    ensures forall other :: Kindred(parent, other) && Kindred(child, other) ==>
      Kindred(MergePolicy(parent, child).value, other)
  {
    MergedAt(parent, child, []);
    var r := MergePolicy(parent, child).value;
    forall path
      ensures MergePolicy(parent, child).Ok?
      ensures At(r, path) == At(parent, path) || At(r, path) == At(child, path)
    {
      MergedAt(parent, child, path);
    }
    if !NullFree(r.Doc()) {
      var path := FindNull(r.Doc());
      assert At(r, path) == At(parent, path) || At(r, path) == At(child, path);
      NullFreeAt(parent.Doc(), path);
      NullFreeAt(child.Doc(), path);
    }
    MergedAt(parent, child, ["kind"]);
    MergedAt(parent, child, ["apiVersion"]);
    forall other | Kindred(parent, other) && Kindred(child, other) { KindredMerge(parent, child, r, other); }
  }

  /** At every path, two ways of bracketing three policies agree. */
  lemma AssociativeAt(a: Policy, b: Policy, c: Policy, path: Path)
    requires WellFormed(a) && WellFormed(b) && WellFormed(c) && Kindred(a, b) && Kindred(a, c) && Kindred(b, c)
    ensures MergePolicy(a, b).Ok? && MergePolicy(b, c).Ok?
    ensures MergePolicy(MergePolicy(a, b).value, c).Ok? && MergePolicy(a, MergePolicy(b, c).value).Ok?
    ensures At(MergePolicy(MergePolicy(a, b).value, c).value, path) ==
      At(MergePolicy(a, MergePolicy(b, c).value).value, path)
  {
    hide Kindred, WellFormed, MergePolicy;
    MergedIsWellFormed(a, b);
    MergedIsWellFormed(b, c);
    KindredSymmetric(a, b);
    KindredSymmetric(a, c);
    KindredSymmetric(MergePolicy(b, c).value, a);
    MergedAt(a, b, path);
    MergedAt(b, c, path);
    MergedAt(MergePolicy(a, b).value, c, path);
    MergedAt(a, MergePolicy(b, c).value, path);
  }

  lemma MergedFields(parent: Policy, child: Policy)
    requires MergePolicy(parent, child).Ok?
    ensures MergePolicy(parent, child).value ==
      child.(content := MergePolicy(parent, child).value.content, targetRefs := [], status := "")
  {
  }

  /** Merging is associative on policies of one CRD. */
  lemma MergePolicyAssociative(a: Policy, b: Policy, c: Policy)
    requires WellFormed(a) && WellFormed(b) && WellFormed(c) && Kindred(a, b) && Kindred(a, c) && Kindred(b, c)
    ensures MergePolicy(a, b).Ok? && MergePolicy(b, c).Ok?
    ensures MergePolicy(MergePolicy(a, b).value, c) == MergePolicy(a, MergePolicy(b, c).value)
  {
    hide Kindred, WellFormed, MergePolicy, Probe;
    AssociativeAt(a, b, c, []);
    var left, right := MergePolicy(MergePolicy(a, b).value, c).value, MergePolicy(a, MergePolicy(b, c).value).value;
    forall path ensures Probe(left.Doc(), path) == Probe(right.Doc(), path) { AssociativeAt(a, b, c, path); }
    Extensionality(left.Doc(), right.Doc());
    MergedFields(b, c);
    MergedFields(MergePolicy(a, b).value, c);
    MergedFields(a, MergePolicy(b, c).value);
  }

  // ---------------------------------------------------------------- any number of levels

  /** Merging a chain of policies, top first. */
  function Chain(ps: seq<Policy>): Result<Policy, Error>
    requires ps != []
  {
    if |ps| == 1 then Ok(ps[0])
    else match Chain(ps[..|ps| - 1])
      case Err(e) => Err(e)
      case Ok(above) => MergePolicy(above, ps[|ps| - 1])
  }

  ghost predicate Uniform(ps: seq<Policy>) {
    && (forall i :: 0 <= i < |ps| ==> WellFormed(ps[i]))
    && (forall i, j :: 0 <= i < |ps| && 0 <= j < |ps| ==> Kindred(ps[i], ps[j]))
  }

  /** The cell of the first policy of the chain that has one, and that of the last. */
  function Topmost(ps: seq<Policy>, path: Path): Cell {
    if ps == [] then Absent else Or(Topmost(ps[..|ps| - 1], path), At(ps[|ps| - 1], path))
  }

  function MostSpecific(ps: seq<Policy>, path: Path): Cell {
    if ps == [] then Absent else Or(At(ps[|ps| - 1], path), MostSpecific(ps[..|ps| - 1], path))
  }

  lemma {:induction false} ChainIsWellFormed(ps: seq<Policy>)
    requires Uniform(ps) && ps != []
    ensures Chain(ps).Ok? && WellFormed(Chain(ps).value)
    ensures forall other :: (forall i :: 0 <= i < |ps| ==> Kindred(ps[i], other)) ==> Kindred(Chain(ps).value, other)
  {
    if |ps| > 1 {
      var init, last := ps[..|ps| - 1], ps[|ps| - 1];
      ChainIsWellFormed(init);
      MergedIsWellFormed(Chain(init).value, last);
    }
  }

  /** Main result for a chain: at every path below the override the topmost policy that says something
      wins, at every other path the most specific one. */
  lemma {:induction false} ChainAt(ps: seq<Policy>, path: Path)
    requires Uniform(ps) && ps != []
    ensures Chain(ps).Ok?
    ensures At(Chain(ps).value, path) == if UnderOverride(path) then Topmost(ps, path) else MostSpecific(ps, path)
  {
    if |ps| > 1 {
      var init, last := ps[..|ps| - 1], ps[|ps| - 1];
      ChainIsWellFormed(init);
      ChainAt(init, path);
      MergedAt(Chain(init).value, last, path);
    }
  }

  /** Topmost and MostSpecific pick a policy of the chain: the one before, respectively after, which no
      other has anything at the path. */
  lemma {:induction false} TopmostIsFirst(ps: seq<Policy>, path: Path, i: nat)
    requires i < |ps| && At(ps[i], path) != Absent
    requires forall j :: 0 <= j < i ==> At(ps[j], path) == Absent
    ensures Topmost(ps, path) == At(ps[i], path)
  {
    var init := ps[..|ps| - 1];
    if i < |init| {
      TopmostIsFirst(init, path, i);
    } else {
      NothingAnywhere(init, path);
    }
  }

  lemma {:induction false} MostSpecificIsLast(ps: seq<Policy>, path: Path, i: nat)
    requires i < |ps| && At(ps[i], path) != Absent
    requires forall j :: i < j < |ps| ==> At(ps[j], path) == Absent
    ensures MostSpecific(ps, path) == At(ps[i], path)
  {
    if i < |ps| - 1 { MostSpecificIsLast(ps[..|ps| - 1], path, i); }
  }

  lemma {:induction false} NothingAnywhere(ps: seq<Policy>, path: Path)
    requires forall j :: 0 <= j < |ps| ==> At(ps[j], path) == Absent
    ensures Topmost(ps, path) == MostSpecific(ps, path) == Absent
  {
    if ps != [] { NothingAnywhere(ps[..|ps| - 1], path); }
  }

  // ---------------------------------------------------------------- effective values

  /** The part of the spec that EffectiveSpec looks at under a name. */
  function Part(p: Policy, name: string): Json {
    match Spec(p)
    case None => Obj(map[])
    case Some(spec) => if name in spec then spec[name] else Obj(map[])
  }

  lemma PartAt(p: Policy, name: string, path: Path)
    requires NullFree(p.Doc()) && At(p, ["spec"]) in {Absent, Object} && At(p, ["spec", name]) in {Absent, Object}
    ensures Spec(p).None? <==> At(p, ["spec"]) == Absent
    ensures Part(p, name).Obj? && NullFree(Part(p, name))
    ensures path != [] ==> Probe(Part(p, name), path) == At(p, ["spec", name] + path)
    ensures At(p, ["spec"]) == Absent ==> At(p, ["spec", name] + path) == Absent
  {
    var doc, full := p.Doc(), ["spec", name] + path;
    assert ["spec"][1..] == [] && ["spec", name][1..] == [name] && [name][1..] == [] && full[1..] == [name] + path
      && ([name] + path)[1..] == path;
    assert Probe(doc, full) == if "spec" in p.content then Probe(p.content["spec"], [name] + path) else Absent;
    if "spec" in p.content {
      var spec := p.content["spec"];
      assert NullFree(Fields(doc)["spec"]);
      assert Probe(doc, ["spec"]) == Probe(spec, []) && Probe(doc, ["spec", name]) == Probe(spec, [name]);
      if name in Fields(spec) {
        assert NullFree(Fields(spec)[name]);
        assert Probe(spec, [name]) == Probe(Fields(spec)[name], []);
      }
    }
  }

  /** What EffectiveSpec makes of a single policy: overrides over defaults. */
  lemma EffectiveAt(p: Policy, path: Path)
    requires WellFormed(p) && Kindred(p, p) && path != []
    ensures EffectiveSpec(p).Ok? && (EffectiveSpec(p).value == None <==> At(p, ["spec"]) == Absent)
    ensures EffectiveSpec(p).value.Some? ==>
      Probe(Obj(EffectiveSpec(p).value.value), path) == Or(At(p, OVERRIDE + path), At(p, DEFAULT + path))
    ensures EffectiveSpec(p).value.None? ==> At(p, OVERRIDE + path) == At(p, DEFAULT + path) == Absent
  {
    var default, override := Part(p, "default"), Part(p, "override");
    PartAt(p, "default", path);
    PartAt(p, "override", path);
    if !SameShape(default, override) {
      var misfit := FindMisfit(default, override);
      PartAt(p, "default", misfit);
      PartAt(p, "override", misfit);
    }
    LaidOver(default, override, path);
    if Blocks(override, path) { SameShapeBlocks(default, override, path); }
  }

  /** A direct policy: its spec without the target reference. */
  lemma EffectiveOfDirect(p: Policy, path: Path)
    requires !p.inheritable && path != []
    ensures EffectiveSpec(p).Ok? && (EffectiveSpec(p).value == None <==> At(p, ["spec"]) != Object)
    ensures EffectiveSpec(p).value.Some? ==>
      Probe(Obj(EffectiveSpec(p).value.value), path) ==
        if path[0] == "targetRef" then Absent else At(p, ["spec"] + path)
  {
    assert ["spec"][1..] == [] && (["spec"] + path)[1..] == path;
    if "spec" in p.content {
      assert Probe(p.Doc(), ["spec"]) == Probe(p.content["spec"], []);
      assert At(p, ["spec"] + path) == Probe(p.content["spec"], path);
    }
  }

  /** The effective spec fails exactly if the default or the override of an inheritable policy is no object. */
  lemma EffectiveFailsIff(p: Policy)
    ensures EffectiveSpec(p).Err? <==> p.inheritable && (At(p, DEFAULT).Value? || At(p, OVERRIDE).Value?)
  {
    FieldOfSpec(p, "default");
    FieldOfSpec(p, "override");
  }

  lemma FieldOfSpec(p: Policy, name: string)
    ensures At(p, ["spec", name]) ==
      if Spec(p).Some? && name in Spec(p).value then Probe(Spec(p).value[name], []) else Absent
  {
    assert ["spec", name][1..] == [name] && [name][1..] == [];
    assert Probe(p.Doc(), ["spec", name]) == if "spec" in p.content then Probe(p.content["spec"], [name]) else Absent;
  }

  /** The effective value at a path, read off the policies themselves: the override of the topmost level
      that has one, otherwise the default of the most specific level that has one. */
  function EffectiveValue(ps: seq<Policy>, path: Path): Cell {
    Or(Topmost(ps, OVERRIDE + path), MostSpecific(ps, DEFAULT + path))
  }

  /** Main result: merging a chain and taking the effective spec yields the effective value everywhere. */
  lemma EffectiveChain(ps: seq<Policy>, path: Path)
    requires Uniform(ps) && ps != [] && path != []
    ensures Chain(ps).Ok? && EffectiveSpec(Chain(ps).value).Ok?
    ensures match EffectiveSpec(Chain(ps).value).value
      case Some(spec) => Probe(Obj(spec), path) == EffectiveValue(ps, path)
      case None => EffectiveValue(ps, path) == Absent
  {
    ChainIsWellFormed(ps);
    assert Kindred(Chain(ps).value, Chain(ps).value) by {
      forall i | 0 <= i < |ps| ensures Kindred(ps[i], Chain(ps).value) { KindredSymmetric(Chain(ps).value, ps[i]); }
    }
    EffectiveAt(Chain(ps).value, path);
    ChainAt(ps, OVERRIDE + path);
    ChainAt(ps, DEFAULT + path);
  }

  lemma KindredSymmetric(p: Policy, q: Policy)
    requires Kindred(p, q)
    ensures Kindred(q, p)
  {
    SameShapeSymmetric(p.Doc(), q.Doc());
  }
}

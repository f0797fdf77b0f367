/** Policies and the merging of two of them (pkg/policymanager/manager.go, pkg/policymanager/merger.go). */
module Policy {
  import opened Common
  import opened Json

  /** `content` is the unstructured object of the policy. */
  datatype Policy = Policy(content: map<string, Json>, targetRefs: seq<GKNN>, inheritable: bool, status: string) {
    function Doc(): Json {
      Obj(content)
    }

    function PolicyCrdID(): string {
      var gk := TypeOf(Doc());
      gk.kind + "." + gk.group
    }

    function Namespace(): string {
      StringAt(Doc(), ["metadata", "namespace"])
    }

    function Name(): string {
      StringAt(Doc(), ["metadata", "name"])
    }

    function GKNN(): GKNN {
      var gk := TypeOf(Doc());
      Common.GKNN(gk.group, gk.kind, Namespace(), Name())
    }

    /** The creation time; 0 is Go's zero time, which is before all others. */
    function Created(): nat {
      match Probe(Doc(), ["metadata", "creationTimestamp"])
      case Value(Time(_, t)) => t
      case _ => 0
    }

    /** A copy; it has no status. */
    function DeepCopy(): Policy {
      this.(status := "")
    }
  }

  datatype Error = KindMismatch(parent: string, child: string) | AccessorError | ScalarDefaultOrOverride

  /** The string at a path, or the empty string. */
  function StringAt(j: Json, path: Path): string {
    match Probe(j, path)
    case Value(Text(s)) => s
    case Value(Time(s, _)) => s
    case _ => ""
  }

  function Slashes(s: string): nat {
    if s == "" then 0 else (if s[0] == '/' then 1 else 0) + Slashes(s[1..])
  }

  function BeforeSlash(s: string): string {
    if s == "" || s[0] == '/' then "" else [s[0]] + BeforeSlash(s[1..])
  }

  /** Group and kind of an object, from its apiVersion ("version" or "group/version") and its kind. */
  function TypeOf(j: Json): GroupKind {
    var apiVersion, kind := StringAt(j, ["apiVersion"]), StringAt(j, ["kind"]);
    if apiVersion == "" || apiVersion == "/" || Slashes(apiVersion) == 0 then GroupKind("", kind)
    else if Slashes(apiVersion) == 1 then GroupKind(BeforeSlash(apiVersion), kind)
    else GroupKind("", "")
  }

  lemma {:induction false} SlashOnce(group: string, version: string)
    requires '/' !in group && '/' !in version
    ensures Slashes(group + "/" + version) == 1 && BeforeSlash(group + "/" + version) == group && Slashes(version) == 0
  {
    var s := group + "/" + version;
    if group != "" {
      assert s[1..] == group[1..] + "/" + version;
      SlashOnce(group[1..], version);
      assert group == [group[0]] + group[1..];
    } else {
      assert s[1..] == version;
      NoSlash(version);
    }
  }

  lemma {:induction false} NoSlash(s: string)
    requires '/' !in s
    ensures Slashes(s) == 0
  {
    if s != "" { NoSlash(s[1..]); }
  }

  /** The group is what the apiVersion has before its slash; an apiVersion without one is of the core group. */
  lemma TypeOfVersioned(j: Json, group: string, version: string)
    requires '/' !in group && '/' !in version && version != ""
    ensures StringAt(j, ["apiVersion"]) == group + "/" + version ==>
      TypeOf(j) == GroupKind(group, StringAt(j, ["kind"]))
    ensures StringAt(j, ["apiVersion"]) == version ==> TypeOf(j) == GroupKind("", StringAt(j, ["kind"]))
  {
    hide StringAt;
    SlashOnce(group, version);
    assert |group + "/" + version| >= 2;
  }

  /** The field at a path: an error if something on the way is neither an object nor null. */
  function Nested(j: Json, path: Path): Result<Option<Json>, Error> {
    if path == [] then Ok(Some(j))
    else if j == Null then Ok(None)
    else if !j.Obj? then Err(AccessorError)
    else if path[0] in j.fields then Nested(j.fields[path[0]], path[1..])
    else Ok(None)
  }

  function OverridePatch(override: Json): Json {
    Obj(map["spec" := Obj(map["override" := override])])
  }

  /** mergePolicy: what the child says wins, except that overrides of an inheritable parent win. */
  function MergePolicy(parent: Policy, child: Policy): Result<Policy, Error> {
    if parent.PolicyCrdID() != child.PolicyCrdID() then Err(KindMismatch(parent.PolicyCrdID(), child.PolicyCrdID()))
    else
      var merged := MergePatch(parent.Doc(), child.Doc());
      if !parent.inheritable then Ok(Merged(child, merged))
      else match Nested(parent.Doc(), ["spec", "override"])
        case Err(e) => Err(e)
        case Ok(None) => Ok(Merged(child, merged))
        case Ok(Some(override)) => Ok(Merged(child, MergePatch(merged, OverridePatch(override))))
  }

  /** The merged policy is a copy of the child with the merged content and without targets. */
  function Merged(child: Policy, content: Json): Policy {
    child.DeepCopy().(content := Fields(content), targetRefs := [])
  }

  function Spec(p: Policy): Option<map<string, Json>> {
    if "spec" in p.content && p.content["spec"].Obj? then Some(p.content["spec"].fields) else None
  }

  function EffectiveSpec(p: Policy): Result<Option<map<string, Json>>, Error> {
    if !p.inheritable then
      Ok(match Spec(p) case None => None case Some(spec) => Some(spec - {"targetRef"}))
    else match Spec(p)
      case None => Ok(None)
      case Some(spec) =>
        var default := if "default" in spec then spec["default"] else Obj(map[]);
        var override := if "override" in spec then spec["override"] else Obj(map[]);
        if !default.Obj? || !override.Obj? then Err(ScalarDefaultOrOverride)
        else Ok(Some(Fields(MergePatch(default, override))))
  }
}

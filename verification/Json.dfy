/** JSON documents and JSON Merge Patch, section 2 of RFC 7396
    (mergeUnstructured, pkg/policymanager/merger.go, lines 156 to 178). */
module Json {

  /** `Time` is a string that denotes a point in time; `Opaque` stands for numbers, booleans and arrays,
      which a patch replaces as a whole. */
  datatype Json =
    | Null
    | Text(text: string)
    | Time(text: string, time: nat)
    | Opaque(value: string)
    | Obj(fields: map<string, Json>)

  type Path = seq<string>

  /** The fields of an object; anything else has none. */
  function Fields(j: Json): map<string, Json> {
    if j.Obj? then j.fields else map[]
  }

  /** MergePatch of RFC 7396. A field that the target does not have is merged like a null one. */
  function MergePatch(target: Json, patch: Json): Json
    decreases patch
  {
    if !patch.Obj? then patch
    else
      var before := Fields(target);
      Obj(map k | k in before.Keys + patch.fields.Keys && (k in patch.fields ==> patch.fields[k] != Null) ::
        if k in patch.fields then MergePatch(if k in before then before[k] else Null, patch.fields[k]) else before[k])
  }

  // ---------------------------------------------------------------- documents by path

  /** What a document has at a path: nothing, an object, or a value that is not an object. */
  datatype Cell = Absent | Object | Value(leaf: Json)

  function Probe(j: Json, path: Path): Cell {
    if path == [] then (if j.Obj? then Object else Value(j))
    else if path[0] in Fields(j) then Probe(Fields(j)[path[0]], path[1..])
    else Absent
  }

  /** A strict prefix of the path leads to a value that is not an object. */
  predicate Blocks(j: Json, path: Path) {
    path != [] && (!j.Obj? || (path[0] in j.fields && Blocks(j.fields[path[0]], path[1..])))
  }

  /** No null anywhere. */
  predicate NullFree(j: Json) {
    j != Null && forall k :: k in Fields(j) ==> NullFree(Fields(j)[k])
  }

  /** Where both have something, either both or neither have an object. */
  predicate SameShape(a: Json, b: Json) {
    a.Obj? == b.Obj? && forall k :: k in Fields(a) && k in Fields(b) ==> SameShape(Fields(a)[k], Fields(b)[k])
  }

  /** Documents that look the same at every path are the same. */
  lemma {:induction false} Extensionality(a: Json, b: Json)
    requires forall path :: Probe(a, path) == Probe(b, path)
    ensures a == b
  {
    assert Probe(a, []) == Probe(b, []);
    if a.Obj? {
      forall k ensures k in a.fields <==> k in b.fields {
        assert [k][1..] == [];
        assert Probe(a, [k]) == if k in a.fields then Probe(a.fields[k], []) else Absent;
        assert Probe(b, [k]) == if k in b.fields then Probe(b.fields[k], []) else Absent;
        assert Probe(a, [k]) == Probe(b, [k]);
      }
      forall k | k in a.fields ensures a.fields[k] == b.fields[k] {
        forall path ensures Probe(a.fields[k], path) == Probe(b.fields[k], path) {
          assert ([k] + path)[1..] == path;
          assert Probe(a, [k] + path) == Probe(b, [k] + path);
        }
        Extensionality(a.fields[k], b.fields[k]);
      }
    }
  }

  /** Main result: what a patch does to any document, path by path. */
  lemma {:induction false} MergeAt(target: Json, patch: Json, path: Path)
    ensures Probe(MergePatch(target, patch), path) ==
      if path == [] then Probe(patch, [])
      else if Blocks(patch, path) || Probe(patch, path) == Value(Null) then Absent
      else if Probe(patch, path) == Absent then Probe(target, path)
      else Probe(patch, path)
    decreases patch
  {
    if path != [] && patch.Obj? {
      var k := path[0];
      if k in patch.fields && patch.fields[k] != Null {
        var inner := if k in Fields(target) then Fields(target)[k] else Null;
        MergeAt(inner, patch.fields[k], path[1..]);
      }
    }
  }

  // ---------------------------------------------------------------- algebra

  lemma {:induction false} NullFreeAt(j: Json, path: Path)
    requires NullFree(j)
    ensures Probe(j, path) != Value(Null)
  {
    if path != [] && path[0] in Fields(j) { NullFreeAt(Fields(j)[path[0]], path[1..]); }
  }

  lemma {:induction false} BlockedIsAbsent(j: Json, path: Path)
    requires Blocks(j, path)
    ensures Probe(j, path) == Absent
  {
    if path != [] && path[0] in Fields(j) { BlockedIsAbsent(Fields(j)[path[0]], path[1..]); }
  }

  /** Patching with a null-free document: it is laid over the target. */
  lemma LaidOver(target: Json, patch: Json, path: Path)
    requires NullFree(patch)
    ensures Probe(MergePatch(target, patch), path) ==
      if Probe(patch, path) != Absent then Probe(patch, path)
      else if Blocks(patch, path) then Absent
      else Probe(target, path)
  {
    MergeAt(target, patch, path);
    NullFreeAt(patch, path);
    if Blocks(patch, path) { BlockedIsAbsent(patch, path); }
  }

  /** `patch` has an object where `target` has something else on the way along the path. */
  predicate Reopens(target: Json, patch: Json, path: Path) {
    && path != [] && patch.Obj?
    && (!target.Obj? || (path[0] in target.fields && path[0] in patch.fields
                          && Reopens(target.fields[path[0]], patch.fields[path[0]], path[1..])))
  }

  lemma {:induction false} BlocksOfMerge(target: Json, patch: Json, path: Path)
    requires NullFree(patch)
    ensures Blocks(MergePatch(target, patch), path)
      <==> Blocks(patch, path) || (Blocks(target, path) && !Reopens(target, patch, path))
    decreases patch
  {
    if path != [] && patch.Obj? && path[0] in patch.fields {
      var inner := if path[0] in Fields(target) then Fields(target)[path[0]] else Null;
      assert NullFree(Fields(patch)[path[0]]);
      BlocksOfMerge(inner, patch.fields[path[0]], path[1..]);
    }
  }

  /** The path at which `a` shows through one way of bracketing but not through the other: `b` ends above
      it without an object, `c` puts an object there again, and says nothing itself. */
  predicate Clash(a: Json, b: Json, c: Json, path: Path) {
    && Probe(a, path) != Absent && Probe(c, path) == Absent && !Blocks(c, path)
    && Blocks(b, path) && Reopens(b, c, path)
  }

  /** Main result: merging null-free patches is associative exactly if no path clashes. */
  lemma MergeAssociativeIff(a: Json, b: Json, c: Json)
    requires NullFree(b) && NullFree(c)
    ensures MergePatch(MergePatch(a, b), c) == MergePatch(a, MergePatch(b, c)) <==> forall path :: !Clash(a, b, c, path)
  {
    var left, right := MergePatch(MergePatch(a, b), c), MergePatch(a, MergePatch(b, c));
    MergeNullFree(b, c);
    forall path ensures Probe(left, path) != Probe(right, path) <==> Clash(a, b, c, path) {
      LaidOver(MergePatch(a, b), c, path);
      LaidOver(a, b, path);
      LaidOver(a, MergePatch(b, c), path);
      LaidOver(b, c, path);
      BlocksOfMerge(b, c, path);
      if Blocks(b, path) { BlockedIsAbsent(b, path); }
    }
    if forall path :: !Clash(a, b, c, path) {
      Extensionality(left, right);
    }
  }

  function ObjectXY(): Json {
    Obj(map["x" := Obj(map["y" := Opaque("1")])])
  }

  function ScalarX(): Json {
    Obj(map["x" := Opaque("1")])
  }

  function ObjectXZ(): Json {
    Obj(map["x" := Obj(map["z" := Opaque("2")])])
  }

  lemma ScalarClashes()
    ensures NullFree(ScalarX()) && NullFree(ObjectXZ()) && Clash(ObjectXY(), ScalarX(), ObjectXZ(), ["x", "y"])
  {
    var path: Path := ["x", "y"];
    assert path[1..] == ["y"] && ["y"][1..] == [];
  }

  /** It does happen: a scalar between two objects. */
  lemma MergeNotAssociative()
    ensures MergePatch(MergePatch(ObjectXY(), ScalarX()), ObjectXZ()) !=
      MergePatch(ObjectXY(), MergePatch(ScalarX(), ObjectXZ()))
  {
    hide *;
    ScalarClashes();
    MergeAssociativeIff(ObjectXY(), ScalarX(), ObjectXZ());
  }

  lemma {:induction false} SameShapeNeverReopens(a: Json, b: Json, path: Path)
    requires SameShape(a, b)
    ensures !(Blocks(a, path) && Reopens(a, b, path))
  {
    if path != [] && a.Obj? && path[0] in a.fields && path[0] in Fields(b) {
      SameShapeNeverReopens(a.fields[path[0]], b.fields[path[0]], path[1..]);
    }
  }

  lemma MergeAssociative(a: Json, b: Json, c: Json)
    requires NullFree(b) && NullFree(c) && SameShape(b, c)
    ensures MergePatch(MergePatch(a, b), c) == MergePatch(a, MergePatch(b, c))
  {
    MergeAssociativeIff(a, b, c);
    forall path ensures !Clash(a, b, c, path) { SameShapeNeverReopens(b, c, path); }
  }

  lemma {:induction false} MergeNullFree(a: Json, b: Json)
    requires NullFree(b) && (a.Obj? ==> NullFree(a))
    ensures NullFree(MergePatch(a, b))
    decreases b
  {
    if b.Obj? {
      forall k | k in b.fields
        ensures NullFree(MergePatch(if k in Fields(a) then Fields(a)[k] else Null, b.fields[k])) {
        assert NullFree(Fields(b)[k]);
        MergeNullFree(if k in Fields(a) then Fields(a)[k] else Null, b.fields[k]);
      }
    }
  }

  lemma {:induction false} MergeSameShape(a: Json, b: Json, c: Json)
    requires NullFree(b) && (a.Obj? && b.Obj? ==> SameShape(a, c)) && SameShape(b, c)
    ensures SameShape(MergePatch(a, b), c)
    decreases b
  {
    if b.Obj? {
      forall k | k in b.fields && k in Fields(c)
        ensures SameShape(MergePatch(if k in Fields(a) then Fields(a)[k] else Null, b.fields[k]), Fields(c)[k])
      {
        MergeSameShape(if k in Fields(a) then Fields(a)[k] else Null, b.fields[k], Fields(c)[k]);
      }
    }
  }

  /** Merging a document with itself changes nothing exactly if there is no null inside. */
  lemma {:induction false} MergeIdempotentIff(a: Json)
    ensures MergePatch(a, a) == a <==> a == Null || NullFree(a)
  {
    if a.Obj? {
      forall k | k in a.fields { MergeIdempotentIff(a.fields[k]); }
      if MergePatch(a, a) == a {
        forall k | k in a.fields ensures NullFree(a.fields[k]) {
          assert k in MergePatch(a, a).fields;
        }
      }
    }
  }

  lemma {:induction false} SameShapeSymmetric(a: Json, b: Json)
    requires SameShape(a, b)
    ensures SameShape(b, a)
  {
    forall k | k in Fields(a) && k in Fields(b) { SameShapeSymmetric(Fields(a)[k], Fields(b)[k]); }
  }

  // ---------------------------------------------------------------- null-freeness and shape by path

  lemma {:induction false} FindNull(j: Json) returns (path: Path)
    requires !NullFree(j)
    ensures Probe(j, path) == Value(Null)
  {
    if j == Null {
      path := [];
    } else {
      var k :| k in Fields(j) && !NullFree(Fields(j)[k]);
      var rest := FindNull(Fields(j)[k]);
      path := [k] + rest;
      assert path[1..] == rest;
    }
  }

  /** Two cells that may be at the same path of documents of the same shape. */
  predicate Fits(a: Cell, b: Cell) {
    a == Absent || b == Absent || (a == Object <==> b == Object)
  }

  lemma {:induction false} SameShapeAt(a: Json, b: Json, path: Path)
    requires SameShape(a, b)
    ensures Fits(Probe(a, path), Probe(b, path))
  {
    if path != [] && path[0] in Fields(a) && path[0] in Fields(b) {
      SameShapeAt(Fields(a)[path[0]], Fields(b)[path[0]], path[1..]);
    }
  }

  lemma {:induction false} FindMisfit(a: Json, b: Json) returns (path: Path)
    requires !SameShape(a, b)
    ensures !Fits(Probe(a, path), Probe(b, path))
  {
    if a.Obj? != b.Obj? {
      path := [];
    } else {
      var k :| k in Fields(a) && k in Fields(b) && !SameShape(Fields(a)[k], Fields(b)[k]);
      var rest := FindMisfit(Fields(a)[k], Fields(b)[k]);
      path := [k] + rest;
      assert path[1..] == rest;
    }
  }

  /** In documents of the same shape, one that is blocked where the other has something does not occur. */
  lemma {:induction false} SameShapeBlocks(a: Json, b: Json, path: Path)
    requires SameShape(a, b) && Blocks(b, path)
    ensures Probe(a, path) == Absent
  {
    if b.Obj? && path[0] in Fields(a) {
      SameShapeBlocks(Fields(a)[path[0]], Fields(b)[path[0]], path[1..]);
    }
  }
}

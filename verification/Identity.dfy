/** Printed identities (GKNN.String in pkg/common/types.go). */
module Identity {
  import opened Common

  function String(g: GKNN): string {
    var gk := if g.group != "" then g.kind + "." + g.group else g.kind;
    var name := if g.namespace != "" then g.namespace + "/" + g.name else g.name;
    gk + "/" + name
  }

  /** Main result on what is printed: kind, group, namespace and name, without what is empty. */
  lemma StringFields(kind: string, group: string, namespace: string, name: string)
    requires group != "" && namespace != ""
    ensures String(GKNN(group, kind, namespace, name)) == kind + "." + group + "/" + namespace + "/" + name
    ensures String(GKNN("", kind, namespace, name)) == kind + "/" + namespace + "/" + name
    ensures String(GKNN(group, kind, "", name)) == kind + "." + group + "/" + name
    ensures String(GKNN("", kind, "", name)) == kind + "/" + name
  {
    assert kind + "." + group + "/" + (namespace + "/" + name) == kind + "." + group + "/" + namespace + "/" + name;
    assert kind + "/" + (namespace + "/" + name) == kind + "/" + namespace + "/" + name;
  }

  /** What is before and, if there is one, after the first separator. */
  function Cut(s: string, separator: char): (string, Option<string>) {
    if s == "" then ("", None)
    else if s[0] == separator then ("", Some(s[1..]))
    else
      var (before, after) := Cut(s[1..], separator);
      ([s[0]] + before, after)
  }

  /** Reads a printed identity. */
  function Parse(s: string): GKNN {
    var (gk, name) := Cut(s, '/');
    var (kind, group) := Cut(gk, '.');
    var (first, second) := Cut(if name.Some? then name.value else "", '/');
    GKNN(if group.Some? then group.value else "", kind,
         if second.Some? then first else "", if second.Some? then second.value else first)
  }

  lemma {:induction false} CutNone(a: string, separator: char)
    requires separator !in a
    ensures Cut(a, separator) == (a, None)
  {
    if a != "" {
      CutNone(a[1..], separator);
      assert a == [a[0]] + a[1..];
    }
  }

  lemma {:induction false} CutJoined(a: string, b: string, separator: char)
    requires separator !in a
    ensures Cut(a + [separator] + b, separator) == (a, Some(b))
  {
    var s := a + [separator] + b;
    if a == "" {
      assert s[1..] == b;
    } else {
      assert s[1..] == a[1..] + [separator] + b;
      CutJoined(a[1..], b, separator);
      assert a == [a[0]] + a[1..];
    }
  }

  /** The kind has no dot, and no part has a slash. */
  predicate Plain(g: GKNN) {
    '.' !in g.kind && '/' !in g.kind && '/' !in g.group && '/' !in g.namespace && '/' !in g.name
  }

  /** Main result: what is printed can be read back. */
  lemma ParseString(g: GKNN)
    requires Plain(g)
    ensures Parse(String(g)) == g
  {
    var gk := if g.group != "" then g.kind + "." + g.group else g.kind;
    var name := if g.namespace != "" then g.namespace + "/" + g.name else g.name;
    assert String(g) == gk + ['/'] + name;
    CutJoined(gk, name, '/');
    if g.group != "" {
      assert gk == g.kind + ['.'] + g.group;
      CutJoined(g.kind, g.group, '.');
    } else {
      CutNone(g.kind, '.');
    }
    if g.namespace != "" {
      assert name == g.namespace + ['/'] + g.name;
      CutJoined(g.namespace, g.name, '/');
    } else {
      CutNone(g.name, '/');
    }
  }

  /** So no two identities are printed the same. */
  lemma StringInjective(a: GKNN, b: GKNN)
    requires Plain(a) && Plain(b) && String(a) == String(b)
    ensures a == b
  {
    ParseString(a);
    ParseString(b);
  }
}

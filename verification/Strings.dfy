/** Strings in lexicographic order, and what joining them with separators loses. */
module Strings {

  /** Go's `<` on strings. */
  predicate Less(a: string, b: string) {
    b != [] && (a == [] || a[0] < b[0] || (a[0] == b[0] && Less(a[1..], b[1..])))
  }

  lemma {:induction false} LessIrreflexive(a: string)
    ensures !Less(a, a)
  {
    if a != [] { LessIrreflexive(a[1..]); }
  }

  lemma {:induction false} LessTransitive(a: string, b: string, c: string)
    requires Less(a, b) && Less(b, c)
    ensures Less(a, c)
  {
    if a != [] && a[0] == b[0] == c[0] { LessTransitive(a[1..], b[1..], c[1..]); }
  }

  lemma {:induction false} LessTotal(a: string, b: string)
    ensures a == b || Less(a, b) || Less(b, a)
  {
    if a != [] && b != [] && a[0] == b[0] {
      LessTotal(a[1..], b[1..]);
      assert a == [a[0]] + a[1..] && b == [b[0]] + b[1..];
    }
  }

  /** They are the same up to this place, where `a` has the smaller character. */
  predicate DiffersAt(a: string, b: string, i: nat) {
    i < |a| && i < |b| && a[..i] == b[..i] && a[i] < b[i]
  }

  /** Alphabetical order: `a` is a proper prefix of `b`, or has the smaller character at the first difference. */
  ghost predicate Alphabetical(a: string, b: string) {
    a < b || exists i: nat :: DiffersAt(a, b, i)
  }

  /** A common first character makes no difference. */
  lemma DiffersInTail(a: string, b: string, i: nat)
    requires a != "" && b != "" && a[0] == b[0]
    ensures DiffersAt(a, b, i + 1) <==> DiffersAt(a[1..], b[1..], i)
  {
    if i < |a| - 1 && i < |b| - 1 {
      assert a[..i + 1] == [a[0]] + a[1..][..i] && b[..i + 1] == [b[0]] + b[1..][..i];
      assert a[..i + 1][1..] == a[1..][..i] && b[..i + 1][1..] == b[1..][..i];
    }
  }

  lemma PrefixInTail(a: string, b: string)
    requires a != "" && b != "" && a[0] == b[0]
    ensures a < b <==> a[1..] < b[1..]
  {
    assert a == [a[0]] + a[1..] && b == [b[0]] + b[1..];
  }

  lemma AlphabeticalTail(a: string, b: string)
    requires a != "" && b != "" && a[0] == b[0]
    ensures Alphabetical(a, b) <==> Alphabetical(a[1..], b[1..])
  {
    hide DiffersAt;
    PrefixInTail(a, b);
    assert !DiffersAt(a, b, 0) by { SameAtZero(a, b); }
    if i: nat :| DiffersAt(a, b, i) { DiffersInTail(a, b, i - 1); }
    if i: nat :| DiffersAt(a[1..], b[1..], i) { DiffersInTail(a, b, i); }
  }

  lemma SameAtZero(a: string, b: string)
    requires a != "" && b != "" && a[0] == b[0]
    ensures !DiffersAt(a, b, 0)
  {
  }

  lemma AlphabeticalHead(a: string, b: string)
    requires a != "" && b != "" && a[0] != b[0]
    ensures Alphabetical(a, b) <==> a[0] < b[0]
  {
    if a[0] < b[0] { assert DiffersAt(a, b, 0); }
    forall i: nat { DiffersAtStart(a, b, i); }
  }

  lemma DiffersAtStart(a: string, b: string, i: nat)
    requires a != "" && b != "" && a[0] != b[0]
    ensures DiffersAt(a, b, i) ==> i == 0
  {
    if 0 < i < |a| && i < |b| { assert a[..i][0] == a[0] && b[..i][0] == b[0]; }
  }

  /** Main result: this is what the comparison character by character decides. */
  lemma {:induction false} LessIff(a: string, b: string)
    ensures Less(a, b) <==> Alphabetical(a, b)
  {
    if a == "" || b == "" {
      assert forall i: nat :: !DiffersAt(a, b, i);
    } else if a[0] == b[0] {
      hide Alphabetical;
      LessIff(a[1..], b[1..]);
      AlphabeticalTail(a, b);
    } else {
      hide Alphabetical;
      AlphabeticalHead(a, b);
    }
  }

  /** Behind the same beginning, the rest decides. */
  lemma {:induction false} LessBehind(prefix: string, a: string, b: string)
    ensures Less(prefix + a, prefix + b) == Less(a, b)
  {
    if prefix == "" {
      assert prefix + a == a && prefix + b == b;
    } else {
      assert (prefix + a)[1..] == prefix[1..] + a && (prefix + b)[1..] == prefix[1..] + b;
      LessBehind(prefix[1..], a, b);
    }
  }

  /** A string without the separator can be told from what follows the first separator. */
  lemma {:induction false} JoinInjective(a: string, rest: string, b: string, rest': string, separator: char)
    requires separator !in a && separator !in b
    requires a + [separator] + rest == b + [separator] + rest'
    ensures a == b && rest == rest'
  {
    var s, t := a + [separator] + rest, b + [separator] + rest';
    assert t[0] == if b == [] then separator else b[0];
    if a == [] {
      assert s[0] == separator;
      assert s[1..] == rest && t[1..] == rest';
    } else {
      assert s[0] == a[0];
      assert s[1..] == a[1..] + [separator] + rest && t[1..] == b[1..] + [separator] + rest';
      JoinInjective(a[1..], rest, b[1..], rest', separator);
      assert a == [a[0]] + a[1..] && b == [b[0]] + b[1..];
    }
  }
}

/** Sequences with the same elements in another order. */
module Permutations {
  import opened Common

  /** Lists without duplicates: each element counts once. */
  lemma {:induction false} DistinctMultiset<T(!new)>(s: seq<T>, x: T)
    requires Distinct(s)
    ensures multiset(s)[x] == if x in s then 1 else 0
  {
    if s != [] {
      var init, last := s[..|s| - 1], s[|s| - 1];
      assert s == init + [last];
      DistinctMultiset(init, x);
    }
  }

  /** Lists without duplicates that have the same elements are permutations of each other. */
  lemma SameMultiset<T(!new)>(s: seq<T>, t: seq<T>)
    requires Distinct(s) && Distinct(t) && (set x | x in s) == (set x | x in t)
    ensures multiset(s) == multiset(t)
  {
    var of := set x | x in s;
    forall x ensures multiset(s)[x] == multiset(t)[x] {
      DistinctMultiset(s, x);
      DistinctMultiset(t, x);
      assert x in s <==> x in of;
      assert x in t <==> x in of;
    }
  }

  lemma TwiceInMultiset<T>(s: seq<T>, i: nat, j: nat)
    requires i < j < |s| && s[i] == s[j]
    ensures multiset(s)[s[i]] >= 2
  {
    assert s == s[..j] + [s[j]] + s[j + 1..];
    assert s[i] in s[..j];
  }

  lemma StaysDistinct<T(!new)>(s: seq<T>, t: seq<T>)
    requires Distinct(s) && multiset(s) == multiset(t)
    ensures Distinct(t) && forall x :: x in s <==> x in t
  {
    forall x ensures x in s <==> x in t { assert x in multiset(s) <==> x in multiset(t); }
    forall i, j | 0 <= i < j < |t| ensures t[i] != t[j] {
      if t[i] == t[j] {
        DistinctMultiset(s, t[i]);
        TwiceInMultiset(t, i, j);
      }
    }
  }

  // ---------------------------------------------------------------- images

  /** What a sequence of keys stands for. */
  function Look<A, B>(m: map<A, B>, s: seq<A>): (t: seq<B>)
    requires forall i :: 0 <= i < |s| ==> s[i] in m
    ensures |t| == |s| && forall i :: 0 <= i < |s| ==> t[i] == m[s[i]]
  {
    seq(|s|, i requires 0 <= i < |s| && s[i] in m => m[s[i]])
  }

  lemma LookLast<A, B>(m: map<A, B>, s: seq<A>, x: A)
    requires x in m && forall i :: 0 <= i < |s| ==> s[i] in m
    ensures forall i :: 0 <= i < |s + [x]| ==> (s + [x])[i] in m
    ensures Look(m, s + [x]) == Look(m, s) + [m[x]]
  {
  }

  /** Without one element. */
  lemma LookAt<A, B>(m: map<A, B>, s: seq<A>, i: nat) returns (rest: seq<A>)
    requires i < |s| && forall j :: 0 <= j < |s| ==> s[j] in m
    ensures |rest| == |s| - 1 && forall j :: 0 <= j < |rest| ==> rest[j] in m
    ensures multiset(s) == multiset(rest) + multiset{s[i]}
    ensures multiset(Look(m, s)) == multiset(Look(m, rest)) + multiset{m[s[i]]}
  {
    rest := s[..i] + s[i + 1..];
    var t := Look(m, s);
    assert s == s[..i] + [s[i]] + s[i + 1..];
    assert Look(m, rest) == t[..i] + t[i + 1..];
    assert t == t[..i] + [t[i]] + t[i + 1..];
  }

  lemma Cancel<T>(a: multiset<T>, b: multiset<T>, x: T)
    requires a + multiset{x} == b + multiset{x}
    ensures a == b
  {
    assert a == a + multiset{x} - multiset{x};
    assert b == b + multiset{x} - multiset{x};
  }

  lemma InitAndLast<T>(s: seq<T>)
    requires s != []
    ensures multiset(s) == multiset(s[..|s| - 1]) + multiset{s[|s| - 1]}
  {
    assert s == s[..|s| - 1] + [s[|s| - 1]];
  }

  /** Keys in another order stand for values in another order. */
  lemma {:induction false} LookReordered<A, B>(m: map<A, B>, s: seq<A>, t: seq<A>)
    requires multiset(s) == multiset(t) && forall i :: 0 <= i < |s| ==> s[i] in m
    ensures forall i :: 0 <= i < |t| ==> t[i] in m
    ensures multiset(Look(m, s)) == multiset(Look(m, t))
    decreases |t|
  {
    hide Look;
    KeysStay(m, s, t);
    if t == [] {
      assert |multiset(s)| == 0;
      assert s == [];
    } else {
      var init, last := t[..|t| - 1], t[|t| - 1];
      var i := Holder(s, t, last);
      var rest := LookAt(m, s, i);
      InitAndLast(t);
      Cancel(multiset(rest), multiset(init), last);
      LookReordered(m, rest, init);
      LookLast(m, init, last);
      assert t == init + [last];
    }
  }

  lemma KeysStay<A, B>(m: map<A, B>, s: seq<A>, t: seq<A>)
    requires multiset(s) == multiset(t) && forall i :: 0 <= i < |s| ==> s[i] in m
    ensures forall i :: 0 <= i < |t| ==> t[i] in m
  {
    forall i | 0 <= i < |t| ensures t[i] in m { assert t[i] in multiset(s); }
  }

  lemma Holder<T>(s: seq<T>, t: seq<T>, x: T) returns (i: nat)
    requires multiset(s) == multiset(t) && x in t
    ensures i < |s| && s[i] == x
  {
    assert x in multiset(t);
    i :| i < |s| && s[i] == x;
  }

  /** And every order of the values comes from one of the keys. */
  lemma {:induction false} KeysInOrder<A, B>(m: map<A, B>, s: seq<A>, values: seq<B>) returns (t: seq<A>)
    requires (forall i :: 0 <= i < |s| ==> s[i] in m) && multiset(values) == multiset(Look(m, s))
    ensures multiset(t) == multiset(s) && (forall i :: 0 <= i < |t| ==> t[i] in m) && Look(m, t) == values
    decreases |values|
  {
    hide Look;
    if values == [] {
      assert |multiset(Look(m, s))| == 0;
      t := s;
    } else {
      var init, last := values[..|values| - 1], values[|values| - 1];
      var i := Holder(Look(m, s), values, last);
      var others := LookAt(m, s, i);
      InitAndLast(values);
      Cancel(multiset(Look(m, others)), multiset(init), last);
      var rest := KeysInOrder(m, others, init);
      LookLast(m, rest, s[i]);
      t := rest + [s[i]];
      assert values == init + [last];
    }
  }
}

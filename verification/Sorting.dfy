/** Sorting by a string key, as sort.Slice, slices.Sorted and slices.SortedFunc do: every element once, in the
    order of the keys; elements with the same key in any order. */
module Sorting {
  import Strings

  /** Every item once. */
  ghost predicate Lists<T>(items: set<T>, s: seq<T>) {
    && (forall x | x in items :: x in s)
    && (forall i :: 0 <= i < |s| ==> s[i] in items)
    && (forall i, j :: 0 <= i < j < |s| ==> s[i] != s[j])
  }

  ghost predicate SortedBy<T>(s: seq<T>, key: T -> string) {
    forall i, j :: 0 <= i < j < |s| ==> !Strings.Less(key(s[j]), key(s[i]))
  }

  lemma NotLessTransitive(a: string, b: string, c: string)
    requires !Strings.Less(b, a) && !Strings.Less(c, b)
    ensures !Strings.Less(c, a)
  {
  }

  /** Where an element belongs in a sorted sequence: after all that are not greater. */
  method Position<T>(s: seq<T>, x: T, key: T -> string) returns (i: nat)
    requires SortedBy(s, key)
    ensures i <= |s|
    ensures forall j :: 0 <= j < i ==> !Strings.Less(key(x), key(s[j]))
    ensures forall j :: i <= j < |s| ==> !Strings.Less(key(s[j]), key(x))
  {
    i := |s|;
    while i > 0 && Strings.Less(key(x), key(s[i - 1]))
      invariant i <= |s|
      invariant forall j :: i <= j < |s| ==> Strings.Less(key(x), key(s[j]))
    {
      i := i - 1;
    }
    forall j | 0 <= j < i ensures !Strings.Less(key(x), key(s[j])) {
      if j < i - 1 { NotLessTransitive(key(s[j]), key(s[i - 1]), key(x)); }
    }
    forall j | i <= j < |s| ensures !Strings.Less(key(s[j]), key(x)) {
      if Strings.Less(key(s[j]), key(x)) {
        Strings.LessTransitive(key(x), key(s[j]), key(x));
        Strings.LessIrreflexive(key(x));
      }
    }
  }

  lemma InsertLists<T>(items: set<T>, s: seq<T>, x: T, i: nat)
    requires Lists(items, s) && x !in items && i <= |s|
    ensures Lists(items + {x}, s[..i] + [x] + s[i..])
  {
  }

  lemma AppendLists<T>(a: set<T>, b: set<T>, s: seq<T>, t: seq<T>)
    requires Lists(a, s) && Lists(b, t) && a !! b
    ensures Lists(a + b, s + t)
  {
  }

  lemma InsertSorted<T>(s: seq<T>, x: T, key: T -> string, i: nat)
    requires SortedBy(s, key) && i <= |s|
    requires forall j :: 0 <= j < i ==> !Strings.Less(key(x), key(s[j]))
    requires forall j :: i <= j < |s| ==> !Strings.Less(key(s[j]), key(x))
    ensures SortedBy(s[..i] + [x] + s[i..], key)
  {
  }

  /** Main result on the order: of two elements, the earlier one has the alphabetically first key. */
  lemma SortedAlphabetically<T>(s: seq<T>, key: T -> string)
    ensures SortedBy(s, key) <==> forall i, j :: 0 <= i < j < |s| ==>
      key(s[i]) == key(s[j]) || Strings.Alphabetical(key(s[i]), key(s[j]))
  {
    hide Strings.Alphabetical;
    forall i, j | 0 <= i < j < |s|
      ensures !Strings.Less(key(s[j]), key(s[i])) <==>
        key(s[i]) == key(s[j]) || Strings.Alphabetical(key(s[i]), key(s[j]))
    {
      NotLessIff(key(s[i]), key(s[j]));
    }
  }

  lemma NotLessIff(a: string, b: string)
    ensures !Strings.Less(b, a) <==> a == b || Strings.Alphabetical(a, b)
  {
    Strings.LessIff(a, b);
    Strings.LessTotal(a, b);
    Strings.LessIrreflexive(a);
    if Strings.Less(a, b) && Strings.Less(b, a) { Strings.LessTransitive(a, b, a); }
  }

  method SortBy<T(==)>(items: set<T>, key: T -> string) returns (s: seq<T>)
    ensures Lists(items, s) && SortedBy(s, key)
    ensures forall i, j :: 0 <= i < j < |s| ==>
      key(s[i]) == key(s[j]) || Strings.Alphabetical(key(s[i]), key(s[j]))
  {
    s := [];
    var todo := items;
    while todo != {}
      invariant todo <= items && Lists(items - todo, s) && SortedBy(s, key)
    {
      hide Lists, SortedBy;
      var x :| x in todo;
      var i := Position(s, x, key);
      InsertLists(items - todo, s, x, i);
      InsertSorted(s, x, key, i);
      assert items - (todo - {x}) == items - todo + {x};
      s := s[..i] + [x] + s[i..];
      todo := todo - {x};
    }
    assert items - {} == items;
    SortedAlphabetically(s, key);
  }

  lemma ListsEmpty<T>(items: set<T>, s: seq<T>)
    requires Lists(items, s)
    ensures s == [] <==> items == {}
  {
    assert s != [] ==> s[0] in items;
  }

  lemma {:induction false} ListsSize<T>(items: set<T>, s: seq<T>)
    requires Lists(items, s)
    ensures |s| == |items|
  {
    ListsEmpty(items, s);
    if s != [] {
      assert s[0] in items;
      ListsTail(items, s);
      ListsSize(items - {s[0]}, s[1..]);
    }
  }

  lemma SortedHeads<T>(items: set<T>, s: seq<T>, t: seq<T>, key: T -> string)
    requires Lists(items, s) && SortedBy(s, key) && Lists(items, t) && SortedBy(t, key) && s != [] && t != []
    ensures key(s[0]) == key(t[0])
  {
    var i :| 0 <= i < |s| && s[i] == t[0];
    var j :| 0 <= j < |t| && t[j] == s[0];
    Strings.LessTotal(key(s[0]), key(t[0]));
    Strings.LessIrreflexive(key(s[0]));
  }

  lemma ListsTail<T>(items: set<T>, s: seq<T>)
    requires Lists(items, s) && s != []
    ensures Lists(items - {s[0]}, s[1..])
  {
  }

  /** Main result: if the keys tell the items apart, there is only one sorted sequence of them. */
  lemma {:induction false} SortedIsUnique<T>(items: set<T>, s: seq<T>, t: seq<T>, key: T -> string)
    requires forall x, y | x in items && y in items && key(x) == key(y) :: x == y
    requires Lists(items, s) && SortedBy(s, key) && Lists(items, t) && SortedBy(t, key)
    ensures s == t
  {
    ListsEmpty(items, s);
    ListsEmpty(items, t);
    if s != [] {
      SortedHeads(items, s, t, key);
      assert s[0] in items && t[0] in items;
      ListsTail(items, s);
      ListsTail(items, t);
      SortedIsUnique(items - {s[0]}, s[1..], t[1..], key);
    }
  }

  /** Every element comes before all later ones. */
  ghost predicate Ordered<T>(s: seq<T>, before: (T, T) -> bool) {
    forall i, j :: 0 <= i < j < |s| ==> before(s[i], s[j])
  }

  lemma AppendOrdered<T>(a: set<T>, b: set<T>, s: seq<T>, t: seq<T>, before: (T, T) -> bool)
    requires Lists(a, s) && Lists(b, t) && Ordered(s, before) && Ordered(t, before)
    requires forall x, y | x in a && y in b :: before(x, y)
    ensures Ordered(s + t, before)
  {
  }

  /** If no two elements come before each other, there is only one such list of them. */
  lemma {:induction false} OrderedIsUnique<T>(items: set<T>, s: seq<T>, t: seq<T>, before: (T, T) -> bool)
    requires forall x, y | x in items && y in items && before(x, y) :: !before(y, x)
    requires Lists(items, s) && Ordered(s, before) && Lists(items, t) && Ordered(t, before)
    ensures s == t
  {
    ListsEmpty(items, s);
    ListsEmpty(items, t);
    if s != [] {
      assert s[0] in items && t[0] in items;
      var i :| 0 <= i < |s| && s[i] == t[0];
      var j :| 0 <= j < |t| && t[j] == s[0];
      ListsTail(items, s);
      ListsTail(items, t);
      OrderedIsUnique(items - {s[0]}, s[1..], t[1..], before);
    }
  }
}

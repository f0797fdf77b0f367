/** When the order in which policies of one kind are merged at the same level makes a difference
    (MergePoliciesOfSimilarKind and MergePoliciesOfSameHierarchy, pkg/policymanager/merger.go). */
module MergeOrder {
  import opened Common
  import opened Hierarchy
  import opened Json
  import opened Policy
  import opened SimilarKind
  import Strings

  ghost function Elements(ps: seq<Policy>): set<Policy> {
    set p | p in ps
  }

  /** Those that no other precedes. Several policies can have the same time, namespace and name. */
  ghost function Top(s: set<Policy>): (top: set<Policy>)
    ensures top <= s
  {
    set p | p in s && forall q :: q in s ==> !Precedes(q, p)
  }

  ghost predicate SaysSomething(s: set<Policy>, path: Path) {
    exists p :: p in s && At(p, path) != Absent
  }

  /** All policies that say something at the path say the same. */
  ghost predicate Agree(s: set<Policy>, path: Path) {
    forall p, q :: p in s && q in s && At(p, path) != Absent && At(q, path) != Absent ==> At(p, path) == At(q, path)
  }

  /** The policies that can win at the path: for a default, those at the top if one of them says something,
      otherwise all; for an override, those below the top if one of them says something, otherwise the top. */
  ghost function Deciding(s: set<Policy>, path: Path): (deciding: set<Policy>)
    ensures deciding <= s
  {
    if UnderOverride(path) then
      if SaysSomething(s - Top(s), path) then s - Top(s) else Top(s)
    else
      if SaysSomething(Top(s), path) then Top(s) else s
  }

  /** The order cannot matter at the path. */
  ghost predicate OrderFree(s: set<Policy>, path: Path) {
    Agree(Deciding(s, path), path)
  }

  // ---------------------------------------------------------------- permutations

  lemma SameElements(ps: seq<Policy>, qs: seq<Policy>)
    requires multiset(ps) == multiset(qs)
    ensures Elements(ps) == Elements(qs) && |ps| == |qs|
    ensures forall p :: p in ps <==> p in qs
  {
    forall p ensures p in ps <==> p in qs { assert p in multiset(ps) <==> p in multiset(qs); }
    assert |multiset(ps)| == |multiset(qs)|;
  }

  /** A policy can be put first, or last. */
  lemma Extract(ps: seq<Policy>, p: Policy) returns (rest: seq<Policy>)
    requires p in ps
    ensures multiset([p] + rest) == multiset(ps) == multiset(rest + [p])
    ensures forall q :: q in ps && q != p ==> q in rest
  {
    var i :| 0 <= i < |ps| && ps[i] == p;
    rest := ps[..i] + ps[i + 1..];
    assert ps == ps[..i] + [p] + ps[i + 1..];
    assert multiset([p] + rest) == multiset(ps);
    SameElements([p] + rest, ps);
  }

  /** Two policies can be put first, or one of them last. */
  lemma ExtractTwo(ps: seq<Policy>, h: Policy, a: Policy) returns (rest: seq<Policy>)
    requires h in ps && a in ps && a != h
    ensures multiset([h, a] + rest) == multiset(ps) == multiset([h] + rest + [a])
  {
    var others := Extract(ps, h);
    rest := Extract(others, a);
    assert [h, a] + rest == [h] + ([a] + rest) && [h] + rest + [a] == [h] + (rest + [a]);
    PutFirst(h, [a] + rest, others);
    PutFirst(h, rest + [a], others);
  }

  lemma PutFirst(h: Policy, ps: seq<Policy>, qs: seq<Policy>)
    requires multiset(ps) == multiset(qs)
    ensures multiset([h] + ps) == multiset([h] + qs)
  {
  }

  // ---------------------------------------------------------------- the top

  /** What precedes one of two policies precedes the other, or the other comes between. */
  lemma PrecedesEither(a: Policy, b: Policy, c: Policy)
    requires Precedes(a, b)
    ensures Precedes(a, c) || Precedes(c, b)
  {
    if a.Created() == b.Created() == c.Created() && !Strings.Less(NN(a), NN(c)) {
      Strings.LessTotal(NN(a), NN(c));
      if NN(a) != NN(c) { Strings.LessTransitive(NN(c), NN(a), NN(b)); }
    }
  }

  /** `top` is above all other policies of the list, and no policy of it is above another one. */
  ghost predicate Splits(top: set<Policy>, ps: seq<Policy>) {
    && (forall p, q :: p in ps && q in ps && p in top && q !in top ==> Precedes(p, q))
    && (forall p, q :: p in ps && q in ps && q in top ==> !Precedes(p, q))
  }

  lemma TopSplits(ps: seq<Policy>)
    ensures Splits(Top(Elements(ps)), ps)
  {
    hide Precedes;
    var s := Elements(ps);
    forall p, q | p in ps && q in ps && p in Top(s) && q !in Top(s) ensures Precedes(p, q) {
      assert q in s;
      var r :| r in s && Precedes(r, q);
      PrecedesEither(r, q, p);
    }
  }

  lemma InitSplits(top: set<Policy>, ps: seq<Policy>)
    requires ps != [] && Splits(top, ps)
    ensures Splits(top, ps[..|ps| - 1])
    ensures forall p :: p in ps <==> p in ps[..|ps| - 1] || p == ps[|ps| - 1]
  {
    hide Precedes;
    assert ps == ps[..|ps| - 1] + [ps[|ps| - 1]];
  }

  /** As soon as one policy of the top has come, later ones are compared with one of the top. */
  lemma {:induction false} HighestInTop(top: set<Policy>, ps: seq<Policy>)
    requires ps != [] && Splits(top, ps)
    ensures (exists p :: p in ps && p in top) ==> ps[Highest(ps)] in top
  {
    hide Precedes, Splits;
    if |ps| > 1 {
      var init, last := ps[..|ps| - 1], ps[|ps| - 1];
      InitSplits(top, ps);
      HighestInTop(top, init);
      Compared(top, ps, init[Highest(init)], last);
    }
  }

  lemma Compared(top: set<Policy>, ps: seq<Policy>, p: Policy, q: Policy)
    requires Splits(top, ps) && p in ps && q in ps
    ensures q in top ==> !Precedes(p, q)
    ensures p in top && q !in top ==> Precedes(p, q)
  {
    hide Precedes;
  }

  lemma {:induction false} NothingAboveHighest(ps: seq<Policy>)
    requires ps != []
    ensures forall p :: p in ps ==> !Precedes(p, ps[Highest(ps)])
  {
    hide Precedes;
    if |ps| > 1 {
      var init, last := ps[..|ps| - 1], ps[|ps| - 1];
      NothingAboveHighest(init);
      var h, g := init[Highest(init)], ps[Highest(ps)];
      forall p | p in ps ensures !Precedes(p, g) {
        assert p in init || p == last;
        NotAbove(p, h, last);
      }
    } else {
      Irreflexive(ps[0]);
    }
  }

  lemma HighestIsTop(ps: seq<Policy>)
    requires ps != []
    ensures ps[Highest(ps)] in Top(Elements(ps))
  {
    hide Precedes;
    NothingAboveHighest(ps);
  }

  lemma Irreflexive(p: Policy)
    ensures !Precedes(p, p)
  {
    Strings.LessIrreflexive(NN(p));
  }

  lemma NotAbove(p: Policy, h: Policy, last: Policy)
    ensures !Precedes(last, last)
    ensures Precedes(h, last) ==> !Precedes(last, h)
    ensures !Precedes(p, h) && !Precedes(h, last) ==> !Precedes(p, last)
  {
    hide Precedes;
    Irreflexive(last);
    if Precedes(h, last) { PrecedesAsymmetric(h, last); }
    if Precedes(p, last) { PrecedesEither(p, last, h); }
  }

  // ---------------------------------------------------------------- what wins

  /** If one of the top has a default, one of them wins. */
  lemma {:induction false} TopDefaultWins(top: set<Policy>, ps: seq<Policy>, path: Path)
    requires Splits(top, ps)
    ensures var w := DefaultWinner(ps, path);
      w.Some? && (exists p :: p in ps && p in top && At(p, path) != Absent) ==> ps[w.value] in top
  {
    hide Precedes, At, Splits;
    if ps != [] {
      var init, last := ps[..|ps| - 1], ps[|ps| - 1];
      InitSplits(top, ps);
      TopDefaultWins(top, init, path);
      if init != [] {
        HighestInTop(top, init);
        Compared(top, ps, init[Highest(init)], last);
      }
    }
  }

  /** If one below the top has an override, one of those wins. */
  lemma {:induction false} LowOverrideWins(top: set<Policy>, ps: seq<Policy>, path: Path)
    requires Splits(top, ps)
    ensures var w := OverrideWinner(ps, path);
      w.Some? && (exists p :: p in ps && p !in top && At(p, path) != Absent) ==> ps[w.value] !in top
  {
    hide Precedes, At, Splits;
    if ps != [] {
      var init, last := ps[..|ps| - 1], ps[|ps| - 1];
      InitSplits(top, ps);
      LowOverrideWins(top, init, path);
      if init != [] {
        HighestInTop(top, init);
        Compared(top, ps, init[Highest(init)], last);
      }
    }
  }

  /** Only those that can win do. */
  lemma WinnerDecides(ps: seq<Policy>, path: Path)
    ensures Winner(ps, path).Some? ==> ps[Winner(ps, path).value] in Deciding(Elements(ps), path)
  {
    hide Precedes, At, Splits, Top;
    var top := Top(Elements(ps));
    TopSplits(ps);
    TopDefaultWins(top, ps, path);
    LowOverrideWins(top, ps, path);
  }

  /** If the top has no default and one of it comes first, the next policy that has one wins. */
  lemma {:induction false} FirstSetterWins(top: set<Policy>, h: Policy, first: Policy, rest: seq<Policy>, path: Path)
    requires Splits(top, [h, first] + rest) && h in top && At(first, path) != Absent
    requires forall p :: p in [h, first] + rest && p in top ==> At(p, path) == Absent
    ensures DefaultWinner([h, first] + rest, path) == Some(1)
  {
    hide Precedes, At, Splits;
    var ps := [h, first] + rest;
    var init, last := ps[..|ps| - 1], ps[|ps| - 1];
    InitSplits(top, ps);
    HighestInTop(top, init);
    Compared(top, ps, init[Highest(init)], last);
    assert init[0] == h;
    if rest == [] {
      assert ps == [h, first] && init == [h] && init[..0] == [];
    } else {
      assert init == [h, first] + rest[..|rest| - 1];
      FirstSetterWins(top, h, first, rest[..|rest| - 1], path);
    }
  }

  /** If only the top has overrides, the first one stays. */
  lemma {:induction false} FirstOverrideStays(top: set<Policy>, first: Policy, rest: seq<Policy>, path: Path)
    requires Splits(top, [first] + rest) && At(first, path) != Absent
    requires forall p :: p in [first] + rest && p !in top ==> At(p, path) == Absent
    ensures OverrideWinner([first] + rest, path) == Some(0)
  {
    hide Precedes, At, Splits;
    var ps := [first] + rest;
    var init, last := ps[..|ps| - 1], ps[|ps| - 1];
    InitSplits(top, ps);
    if rest == [] {
      assert init == [];
    } else {
      assert init == [first] + rest[..|rest| - 1];
      Compared(top, ps, init[Highest(init)], last);
      FirstOverrideStays(top, first, rest[..|rest| - 1], path);
    }
  }

  /** What comes last wins: a default of the top, or an override below it, once the top has come. */
  lemma LastWins(top: set<Policy>, init: seq<Policy>, last: Policy, path: Path)
    requires Splits(top, init + [last]) && At(last, path) != Absent
    ensures last in top ==> DefaultWinner(init + [last], path) == Some(|init|)
    ensures last !in top && (exists h :: h in init && h in top) ==> OverrideWinner(init + [last], path) == Some(|init|)
  {
    hide Precedes, At, Splits;
    var ps := init + [last];
    assert ps[..|ps| - 1] == init;
    InitSplits(top, ps);
    if init != [] {
      HighestInTop(top, init);
      Compared(top, ps, init[Highest(init)], last);
    }
  }

  // ---------------------------------------------------------------- all orders

  /** What the fold has at the path, in the order of the list. */
  ghost predicate AllOrdersAgree(ps: seq<Policy>, path: Path) {
    forall qs: seq<Policy> :: multiset(qs) == multiset(ps) ==> WinningCell(qs, path) == WinningCell(ps, path)
  }

  lemma WinningCellIs(ps: seq<Policy>, path: Path)
    ensures WinningCell(ps, path) ==
      match (if UnderOverride(path) then OverrideWinner(ps, path) else DefaultWinner(ps, path))
      case Some(w) => At(ps[w], path)
      case None => Absent
  {
  }

  /** What wins in a list at an order-free path depends on its elements only. */
  lemma OrderFreeAgree(ps: seq<Policy>, qs: seq<Policy>, path: Path)
    requires OrderFree(Elements(ps), path) && multiset(qs) == multiset(ps)
    ensures WinningCell(qs, path) == WinningCell(ps, path)
  {
    hide At, Deciding;
    SameElements(ps, qs);
    WinnerDecides(ps, path);
    WinnerDecides(qs, path);
    WinnerSays(ps, qs, path);
    WinnerSays(qs, ps, path);
  }

  /** The winner says something, and if another list of the same policies has one, so has this. */
  lemma WinnerSays(ps: seq<Policy>, qs: seq<Policy>, path: Path)
    requires forall p :: p in ps <==> p in qs
    ensures Winner(ps, path).Some? ==> At(ps[Winner(ps, path).value], path) != Absent && Winner(qs, path).Some?
  {
    hide At;
    if w :| 0 <= w < |ps| && At(ps[w], path) != Absent { assert ps[w] in qs; }
  }

  /** Otherwise two orders differ. */
  lemma OrdersDiffer(ps: seq<Policy>, path: Path) returns (qs: seq<Policy>, rs: seq<Policy>)
    requires !OrderFree(Elements(ps), path)
    ensures multiset(qs) == multiset(ps) == multiset(rs) && WinningCell(qs, path) != WinningCell(rs, path)
  {
    hide Deciding, At;
    var a, b :| a in Deciding(Elements(ps), path) && b in Deciding(Elements(ps), path)
      && At(a, path) != Absent && At(b, path) != Absent && At(a, path) != At(b, path);
    qs := OrderFor(ps, path, a);
    rs := OrderFor(ps, path, b);
  }

  /** Whoever can win does win in some order. */
  lemma OrderFor(ps: seq<Policy>, path: Path, a: Policy) returns (qs: seq<Policy>)
    requires a in Deciding(Elements(ps), path) && At(a, path) != Absent
    ensures multiset(qs) == multiset(ps) && WinningCell(qs, path) == At(a, path)
  {
    hide Precedes, At, Top;
    assert a in ps;
    if a in Top(Elements(ps)) { qs := OrderForTop(ps, path, a); } else { qs := OrderForLow(ps, path, a); }
  }

  lemma OrderForTop(ps: seq<Policy>, path: Path, a: Policy) returns (qs: seq<Policy>)
    requires a in ps && a in Deciding(Elements(ps), path) && a in Top(Elements(ps)) && At(a, path) != Absent
    ensures multiset(qs) == multiset(ps) && WinningCell(qs, path) == At(a, path)
  {
    hide Precedes, At, Splits, Top;
    var rest := Extract(ps, a);
    qs := if UnderOverride(path) then [a] + rest else rest + [a];
    SameElements(ps, qs);
    TopSplits(qs);
    if UnderOverride(path) {
      FirstOverrideStays(Top(Elements(ps)), a, rest, path);
    } else {
      LastWins(Top(Elements(ps)), rest, a, path);
    }
    WinningCellIs(qs, path);
  }

  lemma OrderForLow(ps: seq<Policy>, path: Path, a: Policy) returns (qs: seq<Policy>)
    requires a in ps && a in Deciding(Elements(ps), path) && a !in Top(Elements(ps)) && At(a, path) != Absent
    ensures multiset(qs) == multiset(ps) && WinningCell(qs, path) == At(a, path)
  {
    hide Precedes, At, Splits, Top;
    var top, h := Top(Elements(ps)), ps[Highest(ps)];
    HighestIsTop(ps);
    var rest := ExtractTwo(ps, h, a);
    qs := if UnderOverride(path) then [h] + rest + [a] else [h, a] + rest;
    SameElements(ps, qs);
    TopSplits(qs);
    if UnderOverride(path) {
      LastWins(top, [h] + rest, a, path);
    } else {
      FirstSetterWins(top, h, a, rest, path);
    }
    WinningCellIs(qs, path);
  }

  /** Main result at a path: all orders agree exactly if the path is order-free. */
  lemma AllOrdersAgreeIff(ps: seq<Policy>, path: Path)
    ensures AllOrdersAgree(ps, path) <==> OrderFree(Elements(ps), path)
  {
    hide WinningCell, OrderFree;
    if OrderFree(Elements(ps), path) {
      forall qs: seq<Policy> | multiset(qs) == multiset(ps) ensures WinningCell(qs, path) == WinningCell(ps, path) {
        OrderFreeAgree(ps, qs, path);
      }
    } else {
      var qs, rs := OrdersDiffer(ps, path);
    }
  }

  /** Different policies have different identities. */
  ghost predicate Apart(s: set<Policy>) {
    forall p, q :: p in s && q in s ==> p == q || Precedes(p, q) || Precedes(q, p)
  }

  /** Then the top is a single policy: all orders agree on a default exactly if it has one or all that have one
      agree, and on an override exactly if all others agree. */
  lemma OrderFreeIfApart(ps: seq<Policy>, path: Path)
    requires ps != [] && Apart(Elements(ps))
    ensures var s, h := Elements(ps), ps[Highest(ps)];
      OrderFree(s, path) <==>
      if UnderOverride(path) then Agree(s - {h}, path) else At(h, path) != Absent || Agree(s, path)
  {
    hide Precedes, At;
    HighestIsTop(ps);
    var s, h := Elements(ps), ps[Highest(ps)];
    assert Top(s) == {h};
  }

  /** One policy, or two, are order-free everywhere. */
  lemma FewAreOrderFree(ps: seq<Policy>, path: Path)
    requires ps != [] && Apart(Elements(ps)) && |Elements(ps)| <= 2
    ensures OrderFree(Elements(ps), path)
  {
    hide Apart, OrderFree, At;
    OrderFreeIfApart(ps, path);
    var s, h := Elements(ps), ps[Highest(ps)];
    assert s == (s - {h}) + {h} && |s| == |s - {h}| + 1;
    forall p, q | p in s - {h} && q in s - {h} ensures p == q { OnlyOne(s - {h}, p, q); }
  }

  lemma OnlyOne<T>(s: set<T>, p: T, q: T)
    requires p in s && q in s && |s| <= 1
    ensures p == q
  {
    assert {p, q} <= s;
    assert |s - {p, q}| == |s| - |{p, q}|;
  }

  ghost predicate AllFoldsAgree(ps: seq<Policy>)
    requires ps != []
  {
    forall qs: seq<Policy> :: multiset(qs) == multiset(ps) ==> SameFold(ps, qs)
  }

  predicate SameFold(ps: seq<Policy>, qs: seq<Policy>)
    requires ps != []
  {
    qs != [] && Fold(qs) == Fold(ps)
  }

  /** Main result: all orders yield the same policy exactly if all paths are order-free. */
  lemma AllFoldsAgreeIff(ps: seq<Policy>, namespaced: bool)
    requires ps != [] && Uniform(ps) && forall i :: 0 <= i < |ps| ==> FullMetadata(ps[i], namespaced)
    ensures AllFoldsAgree(ps) <==> forall path :: OrderFree(Elements(ps), path)
  {
    hide Uniform, FullMetadata, OrderFree, Fold, WinningCell, At;
    if forall path :: OrderFree(Elements(ps), path) {
      forall qs: seq<Policy> | multiset(qs) == multiset(ps) ensures SameFold(ps, qs) {
        FoldsAgree(ps, qs, namespaced);
      }
    } else {
      var path :| !OrderFree(Elements(ps), path);
      var qs, rs := OrdersDiffer(ps, path);
      FoldCell(ps, qs, path, namespaced);
      FoldCell(ps, rs, path, namespaced);
      assert !(SameFold(ps, qs) && SameFold(ps, rs));
    }
  }

  /** Any order can be folded, and has the winning cells. */
  lemma FoldCell(ps: seq<Policy>, qs: seq<Policy>, path: Path, namespaced: bool)
    requires ps != [] && Uniform(ps) && multiset(qs) == multiset(ps)
    requires forall i :: 0 <= i < |ps| ==> FullMetadata(ps[i], namespaced)
    ensures qs != [] && Uniform(qs) && Fold(qs).Ok? && At(Fold(qs).value, path) == WinningCell(qs, path)
  {
    hide FullMetadata, WellFormed, Kindred, Fold, At;
    SameElements(ps, qs);
    forall i | 0 <= i < |qs| ensures WellFormed(qs[i]) && FullMetadata(qs[i], namespaced) { assert qs[i] in ps; }
    forall i, j | 0 <= i < |qs| && 0 <= j < |qs| ensures Kindred(qs[i], qs[j]) { assert qs[i] in ps && qs[j] in ps; }
    FoldAt(qs, path, namespaced);
  }

  lemma FoldsAgree(ps: seq<Policy>, qs: seq<Policy>, namespaced: bool)
    requires ps != [] && Uniform(ps) && multiset(qs) == multiset(ps)
    requires forall i :: 0 <= i < |ps| ==> FullMetadata(ps[i], namespaced)
    requires forall path :: OrderFree(Elements(ps), path)
    ensures qs != [] && Fold(qs) == Fold(ps)
  {
    hide Uniform, FullMetadata, OrderFree, Fold, WinningCell, Probe;
    SameElements(ps, qs);
    FoldCell(ps, qs, [], namespaced);
    FoldCell(ps, ps, [], namespaced);
    var a, b := Fold(ps).value, Fold(qs).value;
    forall path ensures Probe(a.Doc(), path) == Probe(b.Doc(), path) {
      FoldCell(ps, qs, path, namespaced);
      FoldCell(ps, ps, path, namespaced);
      OrderFreeAgree(ps, qs, path);
    }
    Extensionality(a.Doc(), b.Doc());
    SameDocument(ps, qs);
  }

  lemma SameDocument(ps: seq<Policy>, qs: seq<Policy>)
    requires ps != [] && Uniform(ps) && qs != [] && Uniform(qs) && multiset(qs) == multiset(ps)
    requires Fold(ps).Ok? && Fold(qs).Ok? && Fold(ps).value.Doc() == Fold(qs).value.Doc()
    ensures Fold(qs) == Fold(ps)
  {
    hide Uniform, Fold;
    SameElements(ps, qs);
    FoldInheritable(ps);
    FoldInheritable(qs);
    if |ps| > 1 {
      FoldDropsTargets(ps);
      FoldDropsTargets(qs);
    } else {
      assert ps[0] in qs && qs == ps;
    }
  }
}

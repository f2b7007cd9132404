/** Macro-regions and the subjects they cover. */
module Regions {
  import opened Prelude

  /** Subject ids by macro id; two subjects belong to both macros. */
  const SUBJECTS_BY_MACRO: map<int, seq<int>> := map[
    1 := [72, 85, 87, 88, 89, 90, 91, 93, 94, 95, 96],
    2 := [27, 28, 29, 30, 34, 68, 69, 76, 87, 96]
  ]

  /** Some of these macros lists the subject. */
  ghost predicate CoveredBy(cover: map<int, seq<int>>, macros: set<int>, subject: int) {
    exists m :: m in macros && m in cover && subject in cover[m]
  }

  function SetOf(ids: seq<int>): set<int> { set x | x in ids }

  /** No id is both a macro and a subject. */
  ghost predicate Separated(cover: map<int, seq<int>>) {
    forall m, n :: m in cover && n in cover ==> m !in cover[n]
  }

  lemma CatalogueSeparated()
    ensures Separated(SUBJECTS_BY_MACRO)
  {
  }

  /** The subject lists of the macros, one behind the other; unknown macros are skipped. */
  function Offered(cover: map<int, seq<int>>, macros: seq<int>): seq<int> {
    if macros == [] then []
    else
      var m := macros[|macros| - 1];
      Offered(cover, macros[..|macros| - 1]) + if m in cover then cover[m] else []
  }

  function FirstAt(all: seq<int>, x: int): (k: nat)
    requires x in all
    ensures k < |all|
  {
    if all[0] == x then 0 else 1 + FirstAt(all[1..], x)
  }

  lemma {:induction false} FirstAtIs(all: seq<int>, x: int)
    requires x in all
    ensures var k := FirstAt(all, x); all[k] == x && forall i :: 0 <= i < k ==> all[i] != x
  {
    if all[0] != x { FirstAtIs(all[1..], x); }
  }

  /** Each member once, in the order of its first appearance. */
  ghost predicate OnceInOrder(r: seq<int>, all: seq<int>) {
    && Distinct(r) && (forall x :: x in r <==> x in all)
    && forall i, j :: 0 <= i < j < |r| ==> FirstAt(all, r[i]) < FirstAt(all, r[j])
  }

  lemma {:induction false} FirstStays(all: seq<int>, x: int, y: int)
    requires y in all
    ensures FirstAt(all + [x], y) == FirstAt(all, y)
  {
    if all[0] != y {
      assert all == [all[0]] + all[1..] && (all + [x])[1..] == all[1..] + [x];
      FirstStays(all[1..], x, y);
    }
  }

  lemma {:induction false} NewAtEnd(all: seq<int>, x: int)
    requires x !in all
    ensures FirstAt(all + [x], x) == |all|
  {
    if all != [] {
      assert (all + [x])[1..] == all[1..] + [x];
      NewAtEnd(all[1..], x);
    }
  }

  lemma OneMoreOffered(r: seq<int>, all: seq<int>, x: int)
    requires OnceInOrder(r, all)
    ensures OnceInOrder(if x in r then r else r + [x], all + [x])
  {
    hide FirstAt;
    forall y | y in all ensures FirstAt(all + [x], y) == FirstAt(all, y) {
      FirstStays(all, x, y);
    }
    if x !in all { NewAtEnd(all, x); }
    forall i | 0 <= i < |r| ensures r[i] in all { assert r[i] in r; }
  }

  /** One macro's subjects behind those offered before. */
  method AddSubjects(before: seq<int>, ghost offered: seq<int>, subjects: seq<int>) returns (r: seq<int>)
    requires OnceInOrder(before, offered)
    ensures OnceInOrder(r, offered + subjects)
    ensures forall s :: s in r <==> s in before || s in subjects
  {
    hide OnceInOrder, FirstAt;
    r := before;
    assert offered + subjects[..0] == offered;
    for j := 0 to |subjects|
      invariant OnceInOrder(r, offered + subjects[..j])
      invariant forall s :: s in r <==> s in before || s in subjects[..j]
    {
      OneMoreOffered(r, offered + subjects[..j], subjects[j]);
      assert offered + subjects[..j] + [subjects[j]] == offered + subjects[..j + 1];
      if subjects[j] !in r {
        r := r + [subjects[j]];
      }
    }
    assert subjects[..|subjects|] == subjects;
  }

  /** The union of the macros' subjects without repetition, in order of first appearance; unknown
      macros are skipped. */
  method SubjectsForMacros(cover: map<int, seq<int>>, macros: seq<int>) returns (r: seq<int>)
    ensures Distinct(r)
    ensures forall s :: s in r <==> CoveredBy(cover, SetOf(macros), s)
    ensures OnceInOrder(r, Offered(cover, macros))
  {
    r := [];
    for i := 0 to |macros|
      invariant OnceInOrder(r, Offered(cover, macros[..i]))
      invariant forall s :: s in r <==> CoveredBy(cover, SetOf(macros[..i]), s)
    {
      var m := macros[i];
      r := AddSubjects(r, Offered(cover, macros[..i]), if m in cover then cover[m] else []);
      assert macros[..i + 1][..i] == macros[..i];
      OneMoreMacro(cover, macros, i);
    }
    assert macros[..|macros|] == macros;
  }

  lemma OneMoreMacro(cover: map<int, seq<int>>, macros: seq<int>, i: nat)
    requires i < |macros|
    ensures forall s :: CoveredBy(cover, SetOf(macros[..i + 1]), s) <==>
      CoveredBy(cover, SetOf(macros[..i]), s) || (macros[i] in cover && s in cover[macros[i]])
  {
    var less, more := SetOf(macros[..i]), SetOf(macros[..i + 1]);
    assert macros[..i + 1] == macros[..i] + [macros[i]];
    assert forall m :: m in more <==> m in less || m == macros[i];
    forall s
      ensures CoveredBy(cover, more, s) <==> CoveredBy(cover, less, s) || (macros[i] in cover && s in cover[macros[i]])
    {
      if m :| m in more && m in cover && s in cover[m] {
        assert m in less || m == macros[i];
      }
      if CoveredBy(cover, less, s) {
        var m :| m in less && m in cover && s in cover[m];
        assert m in more;
      }
      if macros[i] in cover && s in cover[macros[i]] {
        assert macros[i] in more;
      }
    }
  }
}

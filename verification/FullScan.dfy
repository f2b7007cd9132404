/** The daily scan: offset pagination over the active lots while the loop itself shrinks them. */
module FullScan {
  import opened Prelude

  // ---------------------------------------------------------------------
  // One scan on the ordered list of active lots
  // ---------------------------------------------------------------------

  /** The lots that were seen on the site, in order. */
  function Present(lots: seq<int>, seen: set<int>): seq<int> {
    if lots == [] then []
    else if lots[0] in seen then [lots[0]] + Present(lots[1..], seen)
    else Present(lots[1..], seen)
  }

  /** The lots that were not, in order. */
  function Missing(lots: seq<int>, seen: set<int>): seq<int> {
    if lots == [] then []
    else if lots[0] in seen then Missing(lots[1..], seen)
    else [lots[0]] + Missing(lots[1..], seen)
  }

  lemma {:induction false} PresentMembers(lots: seq<int>, seen: set<int>)
    ensures forall x :: x in Present(lots, seen) <==> x in lots && x in seen
    ensures forall x :: x in Missing(lots, seen) <==> x in lots && x !in seen
  {
    if lots != [] { PresentMembers(lots[1..], seen); }
  }

  lemma {:induction false} SplitPresent(a: seq<int>, b: seq<int>, seen: set<int>)
    ensures Present(a + b, seen) == Present(a, seen) + Present(b, seen)
  {
    if a == [] {
      assert a + b == b;
    } else {
      assert (a + b)[1..] == a[1..] + b;
      SplitPresent(a[1..], b, seen);
    }
  }

  lemma {:induction false} SplitMissing(a: seq<int>, b: seq<int>, seen: set<int>)
    ensures Missing(a + b, seen) == Missing(a, seen) + Missing(b, seen)
  {
    if a == [] {
      assert a + b == b;
    } else {
      assert (a + b)[1..] == a[1..] + b;
      SplitMissing(a[1..], b, seen);
    }
  }

  function Min(a: nat, b: nat): nat { if a <= b then a else b }

  function Take(s: seq<int>, n: nat): seq<int> { if n <= |s| then s[..n] else s }

  function Drop(s: seq<int>, n: nat): seq<int> { if n <= |s| then s[n..] else [] }

  lemma TakeDrop(s: seq<int>, n: nat)
    ensures Take(s, n) + Drop(s, n) == s
  {
  }

  lemma {:induction false} PresentOrMissing(lots: seq<int>, seen: set<int>)
    ensures |Present(lots, seen)| + |Missing(lots, seen)| == |lots|
  {
    if lots != [] { PresentOrMissing(lots[1..], seen); }
  }

  lemma {:induction false} AllPresent(lots: seq<int>, seen: set<int>)
    requires Missing(lots, seen) == []
    ensures Present(lots, seen) == lots
  {
    if lots != [] {
      AllPresent(lots[1..], seen);
    }
  }

  lemma {:induction false} KeptIsPresent(lots: seq<int>, seen: set<int>)
    ensures Missing(Present(lots, seen), seen) == [] && Present(Present(lots, seen), seen) == Present(lots, seen)
  {
    if lots != [] {
      KeptIsPresent(lots[1..], seen);
      var p := Present(lots[1..], seen);
      assert ([lots[0]] + p)[1..] == p;
    }
  }

  lemma Split3(a: seq<int>, b: seq<int>, c: seq<int>, seen: set<int>)
    ensures Missing(a + b + c, seen) == Missing(a, seen) + Missing(b, seen) + Missing(c, seen)
    ensures Present(a + b + c, seen) == Present(a, seen) + Present(b, seen) + Present(c, seen)
  {
    SplitMissing(a + b, c, seen);
    SplitMissing(a, b, seen);
    SplitPresent(a + b, c, seen);
    SplitPresent(a, b, seen);
  }

  /** What a scan leaves active, the lots it passed to mark_seen, and those it deactivated. */
  datatype Scan = Scan(active: seq<int>, marked: seq<int>, dropped: seq<int>)

  /** One batch worked off at the front of a list: the lots marked, the lots deactivated, what then
      lies behind the grown offset -- survivors, and lots that slid up because others left --
      and what lies ahead of it. */
  datatype Work = Work(marked: seq<int>, dropped: seq<int>, behind: seq<int>, next: seq<int>)

  function WorkOff(tail: seq<int>, seen: set<int>, size: nat, enabled: bool): Work {
    var batch, after := Take(tail, size), Drop(tail, size);
    var present, missing := Present(batch, seen), Missing(batch, seen);
    if enabled then Work(present, missing, present + Take(after, |missing|), Drop(after, |missing|))
    else Work(present, [], batch, after)
  }

  lemma WorkShrinks(tail: seq<int>, seen: set<int>, size: nat, enabled: bool)
    requires size >= 1 && tail != []
    ensures |WorkOff(tail, seen, size, enabled).next| < |tail|
  {
  }

  /** The lots still active after working from here on, one batch at a time; `budget` batches
      until a stop is seen. */
  function StillActive(tail: seq<int>, seen: set<int>, size: nat, enabled: bool, budget: nat): seq<int>
    decreases budget
  {
    if budget == 0 || tail == [] then tail
    else
      var w := WorkOff(tail, seen, size, enabled);
      w.behind + StillActive(w.next, seen, size, enabled, budget - 1)
  }

  function MarkedSeen(tail: seq<int>, seen: set<int>, size: nat, enabled: bool, budget: nat): seq<int>
    decreases budget
  {
    if budget == 0 || tail == [] then []
    else
      var w := WorkOff(tail, seen, size, enabled);
      w.marked + MarkedSeen(w.next, seen, size, enabled, budget - 1)
  }

  function Dropped(tail: seq<int>, seen: set<int>, size: nat, enabled: bool, budget: nat): seq<int>
    decreases budget
  {
    if budget == 0 || tail == [] then []
    else
      var w := WorkOff(tail, seen, size, enabled);
      w.dropped + Dropped(w.next, seen, size, enabled, budget - 1)
  }

  function ScanFrom(tail: seq<int>, seen: set<int>, size: nat, enabled: bool, budget: nat): Scan
    requires size >= 1
  {
    Scan(StillActive(tail, seen, size, enabled, budget), MarkedSeen(tail, seen, size, enabled, budget),
         Dropped(tail, seen, size, enabled, budget))
  }

  /** A scan that no stop cuts: the budget outlasts the table. */
  function FullRun(active: seq<int>, seen: set<int>, size: nat): Scan
    requires size >= 1
  {
    ScanFrom(active, seen, size, true, |active|)
  }

  lemma ScanEnds(tail: seq<int>, seen: set<int>, size: nat, enabled: bool, budget: nat)
    requires budget == 0 || tail == []
    ensures StillActive(tail, seen, size, enabled, budget) == tail
    ensures MarkedSeen(tail, seen, size, enabled, budget) == [] && Dropped(tail, seen, size, enabled, budget) == []
    ensures tail == [] ==> Missing(tail, seen) == [] && Present(tail, seen) == [] && (size >= 1 ==> GapsClear(tail, seen, size))
  {
  }

  /** Unfolding one batch. */
  lemma ScanOpens(tail: seq<int>, seen: set<int>, size: nat, enabled: bool, budget: nat)
    requires budget > 0 && tail != []
    ensures var w := WorkOff(tail, seen, size, enabled);
      && StillActive(tail, seen, size, enabled, budget) == w.behind + StillActive(w.next, seen, size, enabled, budget - 1)
      && MarkedSeen(tail, seen, size, enabled, budget) == w.marked + MarkedSeen(w.next, seen, size, enabled, budget - 1)
      && Dropped(tail, seen, size, enabled, budget) == w.dropped + Dropped(w.next, seen, size, enabled, budget - 1)
  {
    hide WorkOff;
  }

  /** A budget of a batch per lot is as good as any larger one. */
  lemma {:induction false} BudgetBeyond(tail: seq<int>, seen: set<int>, size: nat, enabled: bool, budget: nat, more: nat)
    requires size >= 1 && |tail| <= budget && |tail| <= more
    ensures ScanFrom(tail, seen, size, enabled, budget) == ScanFrom(tail, seen, size, enabled, more)
    decreases budget
  {
    hide WorkOff, StillActive, MarkedSeen, Dropped;
    if tail == [] {
      ScanEnds(tail, seen, size, enabled, budget);
      ScanEnds(tail, seen, size, enabled, more);
    } else {
      ScanOpens(tail, seen, size, enabled, budget);
      ScanOpens(tail, seen, size, enabled, more);
      WorkShrinks(tail, seen, size, enabled);
      BudgetBeyond(WorkOff(tail, seen, size, enabled).next, seen, size, enabled, budget - 1, more - 1);
    }
  }

  lemma SplitBoth(a: seq<int>, b: seq<int>, seen: set<int>)
    ensures Present(a + b, seen) == Present(a, seen) + Present(b, seen)
    ensures |Missing(a + b, seen)| == |Missing(a, seen)| + |Missing(b, seen)|
  {
    SplitPresent(a, b, seen);
    SplitMissing(a, b, seen);
  }

  /** Survivors of a batch and lots sliding up behind them. */
  lemma SlidFacts(batch: seq<int>, after: seq<int>, seen: set<int>)
    ensures var kept, lost := Present(batch, seen), |Missing(batch, seen)|;
      var gap, next := Take(after, lost), Drop(after, lost);
      && Present(kept + gap, seen) + Present(next, seen) == Present(batch, seen) + Present(after, seen)
      && |Missing(kept + gap, seen)| == |Missing(gap, seen)| <= lost
      && |Missing(gap, seen)| + |Missing(next, seen)| == |Missing(after, seen)|
  {
    var kept, lost := Present(batch, seen), |Missing(batch, seen)|;
    var gap, next := Take(after, lost), Drop(after, lost);
    KeptIsPresent(batch, seen);
    PresentOrMissing(gap, seen);
    TakeDrop(after, lost);
    SplitBoth(kept, gap, seen);
    SplitBoth(gap, next, seen);
    hide Present, Missing;
    assert (Present(kept, seen) + Present(gap, seen)) + Present(next, seen) == kept + (Present(gap, seen) + Present(next, seen));
  }

  /** One batch: the seen lots stay in order, the missing ones lose exactly those deactivated, and
      no more missing lots slide under the offset than were deactivated. */
  lemma WorkFacts(tail: seq<int>, seen: set<int>, size: nat, enabled: bool)
    ensures var w := WorkOff(tail, seen, size, enabled);
      && Present(w.behind, seen) + Present(w.next, seen) == Present(tail, seen)
      && |Missing(w.behind, seen)| + |Missing(w.next, seen)| + |w.dropped| == |Missing(tail, seen)|
      && (enabled ==> |Missing(w.behind, seen)| <= |w.dropped|)
      && (enabled ==>
            var slide := |Missing(Take(tail, size), seen)|;
            |Missing(w.behind, seen)| == |Missing(Take(Drop(tail, size), slide), seen)| && w.next == Drop(Drop(tail, size), slide))
  {
    hide Present, Missing;
    TakeDrop(tail, size);
    SplitBoth(Take(tail, size), Drop(tail, size), seen);
    SlidFacts(Take(tail, size), Drop(tail, size), seen);
    hide Take, Drop;
  }

  /** The missing lots shrink by exactly the dropped ones; the seen ones stay, in order. */
  lemma {:induction false} ScanCounts(tail: seq<int>, seen: set<int>, size: nat, enabled: bool, budget: nat)
    requires size >= 1
    ensures var r := ScanFrom(tail, seen, size, enabled, budget);
      && Present(r.active, seen) == Present(tail, seen)
      && |Missing(r.active, seen)| + |r.dropped| == |Missing(tail, seen)|
    decreases budget
  {
    hide WorkOff, Missing, Present, Take, Drop, StillActive, MarkedSeen, Dropped;
    if budget == 0 || tail == [] {
      ScanEnds(tail, seen, size, enabled, budget);
      return;
    }
    ScanOpens(tail, seen, size, enabled, budget);
    var w := WorkOff(tail, seen, size, enabled);
    var rest := StillActive(w.next, seen, size, enabled, budget - 1);
    ScanCounts(w.next, seen, size, enabled, budget - 1);
    WorkFacts(tail, seen, size, enabled);
    SplitPresent(w.behind, rest, seen);
    SplitMissing(w.behind, rest, seen);
  }

  lemma WorkMembers(tail: seq<int>, seen: set<int>, size: nat, enabled: bool, x: int)
    ensures var w := WorkOff(tail, seen, size, enabled);
      && (x in w.behind || x in w.next ==> x in tail)
      && (x in w.dropped ==> enabled && x !in seen && x in tail)
  {
    PresentMembers(Take(tail, size), seen);
    TakeDrop(tail, size);
  }

  /** A lot is deactivated only while deactivation is on, if active and not seen. */
  lemma {:induction false} DroppedUnseen(tail: seq<int>, seen: set<int>, size: nat, enabled: bool, budget: nat, x: int)
    requires x in Dropped(tail, seen, size, enabled, budget)
    ensures enabled && x !in seen && x in tail
    decreases budget
  {
    var w := WorkOff(tail, seen, size, enabled);
    WorkMembers(tail, seen, size, enabled, x);
    if x !in w.dropped { DroppedUnseen(w.next, seen, size, enabled, budget - 1, x); }
  }

  lemma {:induction false} NoneBroughtBack(tail: seq<int>, seen: set<int>, size: nat, enabled: bool, budget: nat, x: int)
    requires x in StillActive(tail, seen, size, enabled, budget)
    ensures x in tail
    decreases budget
  {
    if budget > 0 && tail != [] {
      var w := WorkOff(tail, seen, size, enabled);
      WorkMembers(tail, seen, size, enabled, x);
      if x !in w.behind { NoneBroughtBack(w.next, seen, size, enabled, budget - 1, x); }
    }
  }

  /** Every deactivation, stopped or not, hits an active lot that was not seen; no lot is
      deactivated while deactivation is off, and none is brought back. */
  lemma ScanSound(active: seq<int>, seen: set<int>, size: nat, enabled: bool, budget: nat)
    requires size >= 1
    ensures var r := ScanFrom(active, seen, size, enabled, budget);
      && (forall x :: x in r.dropped ==> enabled && x !in seen && x in active)
      && (forall x :: x in r.active ==> x in active)
  {
    var r := ScanFrom(active, seen, size, enabled, budget);
    forall x | x in r.dropped { DroppedUnseen(active, seen, size, enabled, budget, x); }
    forall x | x in r.active { NoneBroughtBack(active, seen, size, enabled, budget, x); }
  }

  /** Lots are skipped only because earlier ones left the list: an uninterrupted scan leaves at
      most as many missing lots active as it deactivates. */
  lemma {:induction false} SkipsPaidByDrops(tail: seq<int>, seen: set<int>, size: nat, budget: nat)
    requires size >= 1 && budget >= |tail|
    ensures |Missing(StillActive(tail, seen, size, true, budget), seen)| <= |Dropped(tail, seen, size, true, budget)|
    decreases budget
  {
    hide WorkOff, Missing, Present, Take, Drop, StillActive, MarkedSeen, Dropped;
    if tail == [] {
      ScanEnds(tail, seen, size, true, budget);
      return;
    }
    ScanOpens(tail, seen, size, true, budget);
    var w := WorkOff(tail, seen, size, true);
    WorkShrinks(tail, seen, size, true);
    SkipsPaidByDrops(w.next, seen, size, budget - 1);
    WorkFacts(tail, seen, size, true);
    SplitMissing(w.behind, StillActive(w.next, seen, size, true, budget - 1), seen);
  }

  /** One full scan deactivates at least half of what is missing, hence something if anything is. */
  lemma ScanDropsHalf(active: seq<int>, seen: set<int>, size: nat)
    requires size >= 1
    ensures var r := FullRun(active, seen, size);
      2 * |r.dropped| >= |Missing(active, seen)| && 2 * |Missing(r.active, seen)| <= |Missing(active, seen)|
  {
    SkipsPaidByDrops(active, seen, size, |active|);
    ScanCounts(active, seen, size, true, |active|);
  }

  /** The first missing lot is in this batch, or nothing has moved yet and it is further on. */
  lemma FirstMissingInBatch(tail: seq<int>, seen: set<int>, size: nat)
    requires size >= 1 && Missing(tail, seen) != []
    ensures var w := WorkOff(tail, seen, size, true);
      if w.dropped == [] then Missing(w.next, seen) == Missing(tail, seen)
      else w.dropped[0] == Missing(tail, seen)[0]
  {
    TakeDrop(tail, size);
    SplitMissing(Take(tail, size), Drop(tail, size), seen);
  }

  /** The batch holding the first missing lot is never skipped. */
  lemma {:induction false} FirstMissingDropped(tail: seq<int>, seen: set<int>, size: nat, budget: nat)
    requires size >= 1 && budget >= |tail| && Missing(tail, seen) != []
    ensures var dropped := Dropped(tail, seen, size, true, budget);
      dropped != [] && dropped[0] == Missing(tail, seen)[0]
    decreases budget
  {
    assert tail != [];
    hide WorkOff, Missing, Present, Take, Drop, StillActive, MarkedSeen, Dropped;
    ScanOpens(tail, seen, size, true, budget);
    var w := WorkOff(tail, seen, size, true);
    WorkShrinks(tail, seen, size, true);
    FirstMissingInBatch(tail, seen, size);
    if w.dropped == [] { FirstMissingDropped(w.next, seen, size, budget - 1); }
  }

  lemma NothingToDrop(tail: seq<int>, seen: set<int>, size: nat, enabled: bool)
    requires Missing(tail, seen) == []
    ensures var w := WorkOff(tail, seen, size, enabled); var batch := Take(tail, size);
      && w == Work(batch, [], batch, Drop(tail, size)) && Missing(Drop(tail, size), seen) == []
  {
    TakeDrop(tail, size);
    SplitMissing(Take(tail, size), Drop(tail, size), seen);
    AllPresent(Take(tail, size), seen);
    assert Take(tail, size) + [] == Take(tail, size);
  }

  /** With nothing missing, every active lot is marked seen exactly once, in list order. */
  lemma {:induction false} NothingMissingMarksAll(tail: seq<int>, seen: set<int>, size: nat, enabled: bool, budget: nat)
    requires size >= 1 && budget >= |tail| && Missing(tail, seen) == []
    ensures StillActive(tail, seen, size, enabled, budget) == MarkedSeen(tail, seen, size, enabled, budget) == tail
    ensures Dropped(tail, seen, size, enabled, budget) == []
    decreases budget
  {
    hide WorkOff, Missing, Present, Take, Drop, StillActive, MarkedSeen, Dropped;
    if tail == [] {
      ScanEnds(tail, seen, size, enabled, budget);
      return;
    }
    ScanOpens(tail, seen, size, enabled, budget);
    var w := WorkOff(tail, seen, size, enabled);
    WorkShrinks(tail, seen, size, enabled);
    NothingToDrop(tail, seen, size, enabled);
    NothingMissingMarksAll(w.next, seen, size, enabled, budget - 1);
    TakeDrop(tail, size);
  }

  // ---------------------------------------------------------------------
  // Repeated scans
  // ---------------------------------------------------------------------

  function AfterScans(active: seq<int>, seen: set<int>, size: nat, n: nat): seq<int>
    requires size >= 1
    decreases n
  {
    if n == 0 then active else AfterScans(FullRun(active, seen, size).active, seen, size, n - 1)
  }

  function Pow2(n: nat): (p: nat)
    ensures p > n
  {
    if n == 0 then 1 else 2 * Pow2(n - 1)
  }

  lemma FullRunIs(active: seq<int>, seen: set<int>, size: nat)
    requires size >= 1
    ensures FullRun(active, seen, size) == ScanFrom(active, seen, size, true, |active|)
  {
  }

  lemma {:induction false} MissingHalves(active: seq<int>, seen: set<int>, size: nat, n: nat)
    requires size >= 1
    ensures Pow2(n) * |Missing(AfterScans(active, seen, size, n), seen)| <= |Missing(active, seen)|
    ensures Present(AfterScans(active, seen, size, n), seen) == Present(active, seen)
    decreases n
  {
    hide FullRun, ScanFrom, Missing, Present;
    if n > 0 {
      var next := FullRun(active, seen, size).active;
      FullRunIs(active, seen, size);
      ScanDropsHalf(active, seen, size);
      ScanCounts(active, seen, size, true, |active|);
      MissingHalves(next, seen, size, n - 1);
      DoubledBound(Pow2(n - 1), |Missing(AfterScans(active, seen, size, n), seen)|, |Missing(next, seen)|, |Missing(active, seen)|);
    }
  }

  lemma DoubledBound(p: nat, m: nat, next: nat, all: nat)
    requires p * m <= next && 2 * next <= all
    ensures (2 * p) * m <= all
  {
    assert (2 * p) * m == 2 * (p * m);
  }

  /** Repeated scans converge in logarithmically many rounds: once 2^n exceeds the missing
      lots, exactly the seen active lots are left, in their order. */
  lemma ScansConverge(active: seq<int>, seen: set<int>, size: nat, n: nat)
    requires size >= 1 && Pow2(n) > |Missing(active, seen)|
    ensures AfterScans(active, seen, size, n) == Present(active, seen)
  {
    MissingHalves(active, seen, size, n);
    var last := AfterScans(active, seen, size, n);
    SmallFactor(Pow2(n), |Missing(last, seen)|, |Missing(active, seen)|);
    AllPresent(last, seen);
  }

  lemma SmallFactor(p: nat, m: nat, all: nat)
    requires p * m <= all < p
    ensures m == 0
  {
    assert m >= 1 ==> p * m >= p * 1;
  }

  // ---------------------------------------------------------------------
  // When one scan is enough
  // ---------------------------------------------------------------------

  /** Read off the list before the scan: behind each batch, as many lots as the batch has missing
      ones slide under the offset; none of those may be missing. The next batch starts after them. */
  predicate GapsClear(tail: seq<int>, seen: set<int>, size: nat)
    requires size >= 1
    decreases |tail|
  {
    tail == [] ||
    var slide := |Missing(Take(tail, size), seen)|;
    Missing(Take(Drop(tail, size), slide), seen) == [] && GapsClear(Drop(Drop(tail, size), slide), seen, size)
  }

  lemma {:induction false} ScanCompleteIff(tail: seq<int>, seen: set<int>, size: nat, budget: nat)
    requires size >= 1 && budget >= |tail|
    ensures |Missing(StillActive(tail, seen, size, true, budget), seen)| == 0 <==> GapsClear(tail, seen, size)
    decreases budget
  {
    hide WorkOff, Missing, Present, Take, Drop, StillActive, MarkedSeen, Dropped;
    if tail == [] {
      ScanEnds(tail, seen, size, true, budget);
      return;
    }
    ScanOpens(tail, seen, size, true, budget);
    var w := WorkOff(tail, seen, size, true);
    WorkShrinks(tail, seen, size, true);
    ScanCompleteIff(w.next, seen, size, budget - 1);
    WorkFacts(tail, seen, size, true);
    SplitMissing(w.behind, StillActive(w.next, seen, size, true, budget - 1), seen);
  }

  /** One scan leaves exactly the seen active lots if and only if no gap of the list it starts
      from holds a missing lot; otherwise some missing lot stays active. */
  lemma OneScanSufficesIff(active: seq<int>, seen: set<int>, size: nat)
    requires size >= 1
    ensures FullRun(active, seen, size).active == Present(active, seen) <==> GapsClear(active, seen, size)
  {
    var last := FullRun(active, seen, size).active;
    ScanCompleteIff(active, seen, size, |active|);
    ScanCounts(active, seen, size, true, |active|);
    if Missing(last, seen) == [] { AllPresent(last, seen); }
    KeptIsPresent(active, seen);
  }

  /** A single scan really can leave a missing lot active: it slid under the offset. */
  lemma OneScanMaySkip()
    ensures FullRun([1, 2, 3], {3}, 1).active == [2, 3] && !GapsClear([1, 2, 3], {3}, 1)
  {
    assert [1, 2, 3][..1] == [1] && [1, 2, 3][1..] == [2, 3] && [2, 3][..1] == [2] && [2, 3][1..] == [3];
    assert Missing([1], {3}) == [1] && Present([1], {3}) == [] && Missing([2], {3}) == [2];
    assert WorkOff([1, 2, 3], {3}, 1, true) == Work([], [1], [2], [3]);
    NothingMissingMarksAll([3], {3}, 1, true, 2);
  }

  // ---------------------------------------------------------------------
  // The table and the batch loop
  // ---------------------------------------------------------------------

  lemma {:induction false} PresentDistinct(order: seq<int>, active: set<int>)
    requires Distinct(order)
    ensures Distinct(Present(order, active))
  {
    if order != [] {
      assert Distinct(order[1..]) && order[0] !in order[1..];
      PresentDistinct(order[1..], active);
      PresentMembers(order[1..], active);
      if order[0] in active { DistinctCons(order[0], Present(order[1..], active)); }
    }
  }

  lemma {:induction false} Deactivated(order: seq<int>, active: set<int>, gone: set<int>)
    ensures Present(order, active - gone) == Missing(Present(order, active), gone)
  {
    if order != [] {
      Deactivated(order[1..], active, gone);
      assert ([order[0]] + Present(order[1..], active))[1..] == Present(order[1..], active);
    }
  }

  lemma {:induction false} NoneGone(lots: seq<int>, gone: set<int>)
    requires forall i :: 0 <= i < |lots| ==> lots[i] !in gone
    ensures Missing(lots, gone) == lots
  {
    if lots != [] {
      assert [lots[0]] + lots[1..] == lots;
      NoneGone(lots[1..], gone);
    }
  }

  lemma {:induction false} GoneAreMissing(lots: seq<int>, seen: set<int>, gone: set<int>)
    requires forall i :: 0 <= i < |lots| ==> (lots[i] in gone <==> lots[i] !in seen)
    ensures Missing(lots, gone) == Present(lots, seen)
  {
    if lots != [] {
      GoneAreMissing(lots[1..], seen, gone);
    }
  }

  lemma Apart(a: seq<int>, b: seq<int>, c: seq<int>)
    requires Distinct(a + b + c)
    ensures forall i :: 0 <= i < |a| ==> a[i] !in b
    ensures forall i :: 0 <= i < |c| ==> c[i] !in b
  {
    var all := a + b + c;
    forall i, j | 0 <= i < |a| && 0 <= j < |b| ensures a[i] != b[j] {
      assert all[i] == a[i] && all[|a| + j] == b[j];
    }
    forall i, j | 0 <= i < |c| && 0 <= j < |b| ensures c[i] != b[j] {
      assert all[|a| + |b| + i] == c[i] && all[|a| + j] == b[j];
    }
  }

  /** Deactivating the missing lots of a batch by id is cutting them out of the active list. */
  lemma BatchDeactivated(behind: seq<int>, batch: seq<int>, after: seq<int>, seen: set<int>, gone: set<int>)
    requires Distinct(behind + batch + after)
    requires forall x :: x in gone <==> x in Missing(batch, seen)
    ensures Missing(behind + batch + after, gone) == behind + Present(batch, seen) + after
  {
    Apart(behind, batch, after);
    PresentMembers(batch, seen);
    var lost := Missing(batch, seen);
    assert forall x :: x in gone <==> x in lost;
    assert forall x :: x in lost <==> x in batch && x !in seen;
    Split3(behind, batch, after, gone);
    NoneGone(behind, gone);
    NoneGone(after, gone);
    GoneAreMissing(batch, seen, gone);
  }

  /** Between two batches: what lies behind the offset, what was marked so far, what lies ahead. */
  datatype Stage = Stage(behind: seq<int>, marked: seq<int>, tail: seq<int>)

  function NextStage(s: Stage, seen: set<int>, size: nat, enabled: bool): Stage {
    var w := WorkOff(s.tail, seen, size, enabled);
    Stage(s.behind + w.behind, s.marked + w.marked, w.next)
  }

  ghost predicate Follows(stages: seq<Stage>, i: nat, seen: set<int>, size: nat, enabled: bool)
    requires i < |stages| - 1
  {
    stages[i].tail != [] && stages[i + 1] == NextStage(stages[i], seen, size, enabled)
  }

  /** The stages of a batch loop, one batch apart. */
  ghost predicate Stages(stages: seq<Stage>, seen: set<int>, size: nat, enabled: bool) {
    forall i {:trigger Follows(stages, i, seen, size, enabled)} ::
      0 <= i < |stages| - 1 ==> Follows(stages, i, seen, size, enabled)
  }

  lemma FirstStage(start: Stage, seen: set<int>, size: nat, enabled: bool)
    requires size >= 1
    ensures Stages([start], seen, size, enabled)
  {
  }

  lemma StagesExtend(stages: seq<Stage>, seen: set<int>, size: nat, enabled: bool, next: Stage)
    requires stages != [] && Stages(stages, seen, size, enabled) && stages[|stages| - 1].tail != []
    requires next == NextStage(stages[|stages| - 1], seen, size, enabled)
    ensures Stages(stages + [next], seen, size, enabled)
  {
    var more := stages + [next];
    forall i | 0 <= i < |more| - 1 ensures Follows(more, i, seen, size, enabled) {
      if i < |stages| - 1 { assert Follows(stages, i, seen, size, enabled); }
    }
  }

  /** Stages that end with nothing ahead, or with the budget spent, carry out the scan. */
  lemma {:induction false} StagesScan(stages: seq<Stage>, seen: set<int>, size: nat, enabled: bool, i: nat, budget: nat)
    requires i < |stages| && Stages(stages, seen, size, enabled)
    requires var left := |stages| - 1 - i; budget >= left && (budget == left || stages[|stages| - 1].tail == [])
    ensures var s, last := stages[i], stages[|stages| - 1];
      && s.behind + StillActive(s.tail, seen, size, enabled, budget) == last.behind + last.tail
      && s.marked + MarkedSeen(s.tail, seen, size, enabled, budget) == last.marked
    decreases |stages| - i
  {
    hide WorkOff;
    if i < |stages| - 1 {
      assert Follows(stages, i, seen, size, enabled);
      StagesScan(stages, seen, size, enabled, i + 1, budget - 1);
      StageOpens(stages[i], seen, size, enabled, budget);
    }
  }

  lemma StageOpens(s: Stage, seen: set<int>, size: nat, enabled: bool, budget: nat)
    requires budget > 0 && s.tail != []
    ensures var n := NextStage(s, seen, size, enabled);
      && s.behind + StillActive(s.tail, seen, size, enabled, budget)
         == n.behind + StillActive(n.tail, seen, size, enabled, budget - 1)
      && s.marked + MarkedSeen(s.tail, seen, size, enabled, budget)
         == n.marked + MarkedSeen(n.tail, seen, size, enabled, budget - 1)
  {
    hide WorkOff, StillActive, MarkedSeen;
    ScanOpens(s.tail, seen, size, enabled, budget);
  }

  lemma StartsAt(behind: seq<int>, tail: seq<int>, offset: nat)
    requires tail != [] && tail == Drop(behind + tail, offset)
    ensures |behind| == offset
  {
  }

  lemma Lengths(s: seq<int>, n: nat)
    ensures |Take(s, n)| == Min(n, |s|) && |Drop(s, n)| == |s| - Min(n, |s|)
  {
  }

  lemma CutAfter(a: seq<int>, b: seq<int>, n: nat)
    requires n == |a| || (n > |a| && b == [])
    ensures Take(a + b, n) == a && Drop(a + b, n) == b
  {
  }

  /** After a batch the next offset falls behind its survivors and the lots that slid up. */
  lemma OffsetMoves(behind: seq<int>, tail: seq<int>, seen: set<int>, size: nat, enabled: bool, offset: nat)
    requires size >= 1 && tail != [] && tail == Drop(behind + tail, offset)
    ensures var w := WorkOff(tail, seen, size, enabled); var batch := Take(tail, size);
      var list := behind + (if enabled then Present(batch, seen) else batch) + Drop(tail, size);
      && w.marked == Present(batch, seen) && list == behind + w.behind + w.next
      && Take(list, offset + size) == behind + w.behind && Drop(list, offset + size) == w.next
  {
    hide Present, Missing, Take, Drop;
    var w := WorkOff(tail, seen, size, enabled);
    PresentOrMissing(Take(tail, size), seen);
    TakeDrop(Drop(tail, size), |w.dropped|);
    TakeDrop(tail, size);
    StartsAt(behind, tail, offset);
    Lengths(tail, size);
    Lengths(Drop(tail, size), |w.dropped|);
    CutAfter(behind + w.behind, w.next, offset + size);
  }

  lemma NothingAhead(list: seq<int>, offset: nat)
    requires Drop(list, offset) == []
    ensures |list| <= offset
  {
  }

  lemma OneMoreBatch(batches: nat, size: nat)
    ensures (batches + 1) * size == batches * size + size
  {
  }

  /** The lots table: a fixed order and an is_active flag per lot; `seenLog` records mark_seen. */
  class LotTable {
    const order: seq<int>
    var active: set<int>
    var seenLog: seq<int>

    constructor (order: seq<int>, active: set<int>)
      ensures this.order == order && this.active == active && seenLog == []
    {
      this.order, this.active, this.seenLog := order, active, [];
    }

    function Active(): seq<int>
      reads this
    {
      Present(order, active)
    }

    method ListActive(limit: nat, offset: nat) returns (batch: seq<int>)
      ensures batch == Take(Drop(Active(), offset), limit)
    {
      var all := Present(order, active);
      batch := if offset >= |all| then [] else all[offset..Min(offset + limit, |all|)];
      assert batch == Take(Drop(all, offset), limit);
    }

    method MarkSeen(ids: seq<int>)
      modifies this`seenLog
      ensures seenLog == old(seenLog) + ids
    {
      seenLog := seenLog + ids;
    }

    method MarkInactive(id: int)
      modifies this`active
      ensures active == old(active) - {id}
    {
      active := active - {id};
    }
  }

  class FullScanService {
    const lots: LotTable
    const batchSize: nat

    constructor (lots: LotTable, batchSize: nat)
      ensures this.lots == lots && this.batchSize == batchSize
    {
      this.lots, this.batchSize := lots, batchSize;
    }

    /** The stop event is looked at before each batch and during the wait after it, and first found
        set after `clear` looks. The loop works off batches until then, or until the offset has
        passed the end of the list. */
    method ProcessBatches(seen: set<int>, massDeactivation: bool, clear: nat) returns (batches: nat)
      requires batchSize >= 1 && Distinct(lots.order)
      modifies lots
      ensures clear == 2 * batches || clear + 1 == 2 * batches || (2 * batches < clear && |lots.Active()| <= batches * batchSize)
      ensures var r := ScanFrom(old(lots.Active()), seen, batchSize, massDeactivation, batches);
        lots.Active() == r.active && lots.seenLog == old(lots.seenLog) + r.marked
      ensures var r := ScanFrom(old(lots.Active()), seen, batchSize, massDeactivation, (clear + 1) / 2);
        lots.Active() == r.active && lots.seenLog == old(lots.seenLog) + r.marked
    {
      hide Stages, StillActive, MarkedSeen, Dropped, Distinct, StandsAt;
      StartsAtZero();
      ghost var stages;
      batches, stages := RunBatches(seen, massDeactivation, clear, Stage([], [], lots.Active()));
      StagesScan(stages, seen, batchSize, massDeactivation, 0, batches);
      StagesScan(stages, seen, batchSize, massDeactivation, 0, (clear + 1) / 2);
    }

    lemma StartsAtZero()
      requires Distinct(lots.order)
      ensures StandsAt(Stage([], [], lots.Active()), 0)
    {
    }

    /** The loop itself, with every stage it passes. */
    method RunBatches(seen: set<int>, massDeactivation: bool, clear: nat, ghost start: Stage)
      returns (batches: nat, ghost stages: seq<Stage>)
      requires batchSize >= 1 && StandsAt(start, 0) && start.marked == []
      modifies lots
      ensures Stages(stages, seen, batchSize, massDeactivation) && |stages| == batches + 1 && stages[0] == start
      ensures var last := stages[batches];
        && lots.Active() == last.behind + last.tail && lots.seenLog == old(lots.seenLog) + last.marked
        && (clear == 2 * batches || clear + 1 == 2 * batches
            || (2 * batches < clear && last.tail == [] && |lots.Active()| <= batches * batchSize))
    {
      hide Stages, NextStage, WorkOff, Present, Missing, Take, Drop;
      var offset: nat, looks: nat := 0, clear;
      batches := 0;
      ghost var now, log := start, lots.seenLog;
      stages := [now];
      FirstStage(now, seen, batchSize, massDeactivation);
      while true
        invariant StandsAt(now, offset) && lots.seenLog == log + now.marked && offset == batches * batchSize
        invariant Stages(stages, seen, batchSize, massDeactivation) && |stages| == batches + 1
        invariant stages[0] == start && stages[batches] == now
        invariant looks == clear - 2 * batches
        decreases looks
      {
        if looks == 0 {
          return;
        }
        looks := looks - 1;
        var more;
        ghost var next;
        more, next := NextBatch(seen, massDeactivation, offset, now, log);
        if !more {
          NothingAhead(lots.Active(), offset);
          return;
        }
        StagesExtend(stages, seen, batchSize, massDeactivation, next);
        now, stages := next, stages + [next];
        OneMoreBatch(batches, batchSize);
        offset, batches := offset + batchSize, batches + 1;
        if looks == 0 {
          return;
        }
        looks := looks - 1;
      }
    }

    /** The offset splits the active list as the stage says. */
    ghost predicate StandsAt(now: Stage, offset: nat)
      reads lots
    {
      && Distinct(lots.order) && lots.Active() == now.behind + now.tail
      && now.behind == Take(lots.Active(), offset) && now.tail == Drop(lots.Active(), offset)
    }

    /** One round of the loop: a batch is listed and worked off, or there is none. */
    method NextBatch(seen: set<int>, massDeactivation: bool, offset: nat, ghost now: Stage, ghost log: seq<int>)
      returns (more: bool, ghost next: Stage)
      requires batchSize >= 1 && StandsAt(now, offset) && lots.seenLog == log + now.marked
      modifies lots
      ensures more <==> now.tail != []
      ensures next == if more then NextStage(now, seen, batchSize, massDeactivation) else now
      ensures StandsAt(next, if more then offset + batchSize else offset)
      ensures lots.seenLog == log + next.marked
    {
      hide Present, Missing, Distinct, WorkOff, Drop;
      var batch := lots.ListActive(batchSize, offset);
      next := now;
      if batch == [] {
        return false, now;
      }
      OffsetMoves(now.behind, now.tail, seen, batchSize, massDeactivation, offset);
      WorkBatch(seen, massDeactivation, now.behind, now.tail, batch);
      return true, NextStage(now, seen, batchSize, massDeactivation);
    }

    method WorkBatch(seen: set<int>, massDeactivation: bool, ghost behind: seq<int>, ghost tail: seq<int>, batch: seq<int>)
      requires Distinct(lots.order) && lots.Active() == behind + tail && batch == Take(tail, batchSize)
      modifies lots
      ensures lots.Active() == behind + (if massDeactivation then Present(batch, seen) else batch) + Drop(tail, batchSize)
      ensures lots.seenLog == old(lots.seenLog) + Present(batch, seen)
    {
      var seenInBatch := Present(batch, seen);
      var missingInBatch := Missing(batch, seen);
      PresentDistinct(lots.order, lots.active);
      ghost var after := Drop(tail, batchSize);
      assert lots.Active() == behind + batch + after;
      if seenInBatch != [] {
        lots.MarkSeen(seenInBatch);
      }
      if massDeactivation {
        DeactivateAll(missingInBatch);
        BatchDeactivated(behind, batch, after, seen, set x | x in missingInBatch);
      }
    }

    method DeactivateAll(ids: seq<int>)
      modifies lots`active
      ensures lots.active == old(lots.active) - set x | x in ids
      ensures lots.Active() == Missing(old(lots.Active()), set x | x in ids)
    {
      for i := 0 to |ids|
        invariant lots.active == old(lots.active) - set x | x in ids[..i]
      {
        lots.MarkInactive(ids[i]);
        assert ids[..i + 1] == ids[..i] + [ids[i]];
      }
      assert ids[..|ids|] == ids;
      Deactivated(lots.order, old(lots.active), set x | x in ids);
    }
  }
}

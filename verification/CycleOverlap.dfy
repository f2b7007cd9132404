/** The scheduler beside the backfill: when a monitor cycle and a backfill work on one region at
    the same time, which the skip-set is there to prevent. */
module CycleOverlap {
  import opened Prelude
  import opened Backfill

  /** The backfill machine and the region the scheduler runs a cycle for, if any. */
  datatype Joint = Joint(backfill: State, cycle: Option<int>)

  datatype Move =
    | Other(a: Action)
    | Check(region: int)   // done flag and skip-set looked at, the cycle entered
    | Leave                // the cycle has ended

  /** A region found in the skip-set, or a missing done flag, means no cycle. */
  predicate May(j: Joint, m: Move) {
    match m
    case Other(a) => Enabled(j.backfill, a)
    case Check(region) => j.cycle.None? && j.backfill.done && region !in j.backfill.skip
    case Leave => j.cycle.Some?
  }

  function Next(j: Joint, m: Move): Joint
    requires May(j, m)
  {
    match m
    case Other(a) => j.(backfill := Step(j.backfill, a))
    case Check(region) => j.(cycle := Some(region))
    case Leave => j.(cycle := None)
  }

  ghost predicate Nexts(tr: seq<Joint>, moves: seq<Move>, i: nat)
    requires i < |moves| && |tr| == |moves| + 1
  {
    May(tr[i], moves[i]) && tr[i + 1] == Next(tr[i], moves[i])
  }

  ghost predicate Goes(tr: seq<Joint>, moves: seq<Move>) {
    && |tr| == |moves| + 1
    && Initial(tr[0].backfill) && tr[0].cycle.None?
    && (forall i {:trigger Nexts(tr, moves, i)} :: 0 <= i < |moves| ==> Nexts(tr, moves, i))
  }

  lemma {:induction false} GoesInv(tr: seq<Joint>, moves: seq<Move>, k: nat)
    requires Goes(tr, moves) && k < |tr|
    ensures Inv(tr[k].backfill)
  {
    hide Inv, Step, Enabled;
    if k == 0 {
      InitialInv(tr[0].backfill);
    } else {
      GoesInv(tr, moves, k - 1);
      assert Nexts(tr, moves, k - 1);
      if moves[k - 1].Other? { InvStep(tr[k - 1].backfill, moves[k - 1].a); }
    }
  }

  /** Worker h is at the rows of this region. */
  predicate AtRows(s: State, h: nat, region: int) {
    h < |s.workers| && s.workers[h].pc == Looping && s.workers[h].region == region
  }

  /** A cycle and a backfill work on the same region. */
  ghost predicate Overlaps(j: Joint) {
    j.cycle.Some? && exists h :: AtRows(j.backfill, h, j.cycle.value)
  }

  /** A worker marks the region the scheduler is in a cycle of. */
  predicate MarksInCycle(j: Joint, m: Move) {
    && m.Other? && m.a.Work? && m.a.i < |j.backfill.workers|
    && j.backfill.workers[m.a.i].pc == Marking && j.cycle == Some(j.backfill.workers[m.a.i].region)
  }

  lemma ComesToRows(s: State, a: Action, h: nat, region: int)
    requires Enabled(s, a) && AtRows(Step(s, a), h, region)
    ensures AtRows(s, h, region)
         || (a == Work(h) && h < |s.workers| && s.workers[h].pc == Marking && s.workers[h].region == region)
  {
  }

  /** While a worker is at its rows, its region is in the skip-set. */
  lemma AtRowsSkipped(s: State, h: nat, region: int)
    requires Inv(s) && AtRows(s, h, region)
    ensures region in s.skip
  {
    assert s.workers[h].pc == Looping;
  }

  lemma MarkingOverlaps(j: Joint, m: Move)
    requires May(j, m) && MarksInCycle(j, m)
    ensures Overlaps(Next(j, m))
  {
    assert AtRows(Next(j, m).backfill, m.a.i, j.cycle.value);
  }

  /** Overlap begins exactly when a worker marks the region of a cycle that is under way: the check
      of the skip-set never lets one begin, and nothing else does. */
  lemma OverlapBeginsIff(j: Joint, m: Move)
    requires Inv(j.backfill) && May(j, m) && !Overlaps(j)
    ensures Overlaps(Next(j, m)) <==> MarksInCycle(j, m)
  {
    hide Inv, Step, Enabled, AtRows;
    var t := Next(j, m);
    if MarksInCycle(j, m) {
      MarkingOverlaps(j, m);
    } else if Overlaps(t) {
      var h :| AtRows(t.backfill, h, t.cycle.value);
      if m.Other? {
        ComesToRows(j.backfill, m.a, h, t.cycle.value);
      } else {
        AtRowsSkipped(j.backfill, h, t.cycle.value);
      }
    }
  }

  /** Over every run of scheduler and backfill: no cycle ever overlaps a backfill of its region if
      and only if no worker marks a region while a cycle of it is under way. */
  lemma {:induction false} NoOverlapIff(tr: seq<Joint>, moves: seq<Move>)
    requires Goes(tr, moves)
    ensures (forall k :: 0 <= k < |tr| ==> !Overlaps(tr[k]))
       <==> (forall k :: 0 <= k < |moves| ==> !MarksInCycle(tr[k], moves[k]))
  {
    hide Overlaps, MarksInCycle, May, Next;
    if forall k :: 0 <= k < |moves| ==> !MarksInCycle(tr[k], moves[k]) {
      forall k: nat | k < |tr| ensures !Overlaps(tr[k]) { NoMarkNoOverlap(tr, moves, k); }
    } else {
      var k: nat :| k < |moves| && MarksInCycle(tr[k], moves[k]);
      assert Nexts(tr, moves, k);
      MarkingOverlaps(tr[k], moves[k]);
      assert Overlaps(tr[k + 1]);
    }
  }

  lemma {:induction false} NoMarkNoOverlap(tr: seq<Joint>, moves: seq<Move>, k: nat)
    requires Goes(tr, moves) && k < |tr|
    requires forall i :: 0 <= i < k ==> !MarksInCycle(tr[i], moves[i])
    ensures !Overlaps(tr[k])
  {
    hide MarksInCycle, May, Next;
    if k > 0 {
      NoMarkNoOverlap(tr, moves, k - 1);
      GoesInv(tr, moves, k - 1);
      assert Nexts(tr, moves, k - 1);
      OverlapBeginsIff(tr[k - 1], moves[k - 1]);
    }
  }

  // ---------------------------------------------------------------------
  // A cycle's own delta trigger
  // ---------------------------------------------------------------------

  /** A cycle of region 7 is under way and its own backfill stands at `pc`. */
  function Own(pc: Pc): Joint {
    var worker := Worker(pc, 7, 1, 1, if pc == Spawned then None else Some(1), false, false, false, None);
    Joint(State(true, Some(0), [false, false], 1, {}, [], if pc == Looping then {7} else {}, true, [], Some(50),
                pc != Spawned, [worker]), Some(7))
  }

  /** The process before: a backfill has been completed, fifty lots were upstream then. */
  const Before := Joint(State(false, None, [false], 0, {}, [], {}, true, [], Some(50), false, []), None)

  /** The page shows a hundred lots. */
  const Triggering := Other(MaybeStart(7, Some(100), Some(50), 50, 20, 1))

  lemma OwnTriggered()
    ensures May(Before, Check(7)) && May(Next(Before, Check(7)), Triggering)
    ensures Next(Next(Before, Check(7)), Triggering) == Own(Spawned)
  {
  }

  lemma OwnStep(pc: Pc, next: Pc)
    requires (pc, next) in {(Spawned, Entered), (Entered, Marking), (Marking, Looping)}
    ensures May(Own(pc), Other(Work(0))) && Next(Own(pc), Other(Work(0))) == Own(next)
  {
    var s := Own(pc).backfill;
    assert WorkStep(s, 0).workers == [Advanced(s, s.workers[0])];
  }

  /** What a cycle can do to itself: it sees more lots upstream than were backfilled, starts a
      backfill of its own region, and is still at work when that reaches its rows. */
  lemma OwnTriggerOverlaps()
    ensures exists tr: seq<Joint> ::
      && |tr| == 6 && Goes(tr, [Check(7), Triggering, Other(Work(0)), Other(Work(0)), Other(Work(0))])
      && Overlaps(tr[5])
  {
    hide May, Next;
    var moves := [Check(7), Triggering, Other(Work(0)), Other(Work(0)), Other(Work(0))];
    OwnTriggered();
    var tr := [Before, Next(Before, Check(7)), Own(Spawned), Own(Entered), Own(Marking), Own(Looping)];
    OwnStep(Spawned, Entered);
    OwnStep(Entered, Marking);
    OwnStep(Marking, Looping);
    assert Nexts(tr, moves, 0) && Nexts(tr, moves, 1) && Nexts(tr, moves, 2) && Nexts(tr, moves, 3) && Nexts(tr, moves, 4);
    assert AtRows(Own(Looping).backfill, 0, 7);
    assert Goes(tr, moves);
  }
}

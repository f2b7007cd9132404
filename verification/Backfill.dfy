/** Single-flight backfill: claims, stop events, the skip-set and the done flag, over every
    interleaving of callers, cancellers, watchers and workers. */
module Backfill {
  import opened Prelude

  // ---------------------------------------------------------------------
  // The delta trigger
  // ---------------------------------------------------------------------

  const DELTA_THRESHOLD: int := 3

  datatype Decision = SkipNone | SkipRunning | SkipNegative | SkipThreshold | Trigger

  /** The decision taken under the flight lock; `last` is the persisted total read before it. */
  function Decide(siteTotal: Option<int>, last: Option<int>, dbCount: int, hint: int, running: bool): (d: Decision)
    ensures d == SkipNone <==> siteTotal.None?
    ensures d == SkipRunning <==> siteTotal.Some? && running
    ensures siteTotal.Some? && !running ==>
      var delta := siteTotal.value - if last.Some? then last.value else dbCount;
      && (d == SkipNegative <==> delta < 0)
      && (d == SkipThreshold <==> 0 <= delta <= hint + 3)
      && (d == Trigger <==> delta >= 0 && delta > hint + 3)
    ensures hint >= 0 ==> (d == Trigger <==>
      siteTotal.Some? && !running && siteTotal.value > (if last.Some? then last.value else dbCount) + hint + 3)
  {
    var reference := if last.Some? then last.value else dbCount;
    if siteTotal.None? then SkipNone
    else if running then SkipRunning
    else if siteTotal.value - reference < 0 then SkipNegative
    else if siteTotal.value - reference <= hint + DELTA_THRESHOLD then SkipThreshold
    else Trigger
  }

  // ---------------------------------------------------------------------
  // The machine
  // ---------------------------------------------------------------------

  /** Where a worker thread stands; each step is one lock region, event access or repository call. */
  datatype Pc =
    | Spawned        // thread made, claim already held
    | Entered        // combined event made, watcher started
    | Marking        // stop found clear
    | Looping        // region in the skip-set, rows being processed
    | Clearing       // row loop over, finally clause ahead
    | CheckInternal  // cancelled = self._stop_event.is_set() ..
    | CheckExternal  // .. or stop_event_external.is_set()
    | WritingDone
    | WritingTotal
    | Stopping       // self._stop_event.set()
    | Releasing      // the worker's finally clause
    | Lingering      // claim released, progress still says running
    | Gone

  predicate Active(pc: Pc) { pc != Lingering && pc != Gone }

  /** `own` is the event made with this worker's claim, `internal` the one its watcher polls;
      `cut` records that the rows were cut short because the combined event was found set. */
  datatype Worker = Worker(pc: Pc, region: int, external: nat, own: nat, internal: Option<nat>,
                           combined: bool, cut: bool, errored: bool, total: Option<int>)

  /** `events` are the internal stop events made so far, `current` is self._stop_event, `fired`
      the external ones that are set. `holder` is the worker that holds the claim; `doneBy` lists
      the workers that wrote backfill.done. */
  datatype State = State(running: bool, holder: Option<nat>, events: seq<bool>, current: nat, fired: set<nat>,
                         cancels: seq<nat>, skip: set<int>, done: bool, doneBy: seq<nat>, total: Option<int>,
                         showing: bool, workers: seq<Worker>)

  datatype LoopEnd =
    | Completed(total: Option<int>)
    | CutByStop(total: Option<int>)
    | Failed

  datatype Action =
    | Start(region: int, external: nat)
    | MaybeStart(region: int, siteTotal: Option<int>, last: Option<int>, dbCount: int, hint: nat, external: nat)
    | WriteNegative(value: int)
    | CancelRead
    | CancelSet(k: nat)
    | FireExternal(external: nat)
    | Watch(i: nat)
    | Work(i: nat)
    | EndLoop(i: nat, end: LoopEnd)
    | Raise(i: nat)

  predicate Enabled(s: State, a: Action) {
    match a
    case CancelSet(k) => k < |s.cancels| && s.cancels[k] < |s.events|
    case Watch(i) => i < |s.workers| && Triggered(s, s.workers[i])
    case Work(i) => i < |s.workers| && s.workers[i].pc != Looping && s.workers[i].pc != Gone
    case EndLoop(i, end) => i < |s.workers| && s.workers[i].pc == Looping && (end.CutByStop? ==> s.workers[i].combined)
    case Raise(i) => i < |s.workers| && MayRaise(s.workers[i].pc)
    case _ => true
  }

  /** Where an exception can leave the run for the worker's finally clause. */
  predicate MayRaise(pc: Pc) {
    pc == Spawned || pc == Entered || pc == CheckInternal || pc == WritingDone || pc == WritingTotal || pc == Stopping
  }

  /** The watcher's condition: the polled internal event or the external one is set. */
  predicate Triggered(s: State, w: Worker) {
    w.internal.Some? && ((w.internal.value < |s.events| && s.events[w.internal.value]) || w.external in s.fired)
  }

  function Claim(s: State, region: int, external: nat): State {
    if s.running then s
    else s.(running := true, holder := Some(|s.workers|), events := s.events + [false], current := |s.events|,
            workers := s.workers + [Worker(Spawned, region, external, |s.events|, None, false, false, false, None)])
  }

  function Put(s: State, i: nat, w: Worker): State
    requires i < |s.workers|
  {
    s.(workers := s.workers[i := w])
  }

  function CurrentSet(s: State): bool { s.current < |s.events| && s.events[s.current] }

  /** Where the worker's next step takes it. */
  function NextPc(s: State, w: Worker): Pc {
    match w.pc
    case Spawned => Entered
    case Entered => if w.combined then CheckInternal else Marking
    case Marking => Looping
    case Looping => Looping
    case Clearing => CheckInternal
    case CheckInternal => if CurrentSet(s) then Stopping else CheckExternal
    case CheckExternal => if w.external in s.fired || w.errored then Stopping else WritingDone
    case WritingDone => WritingTotal
    case WritingTotal => Stopping
    case Stopping => Releasing
    case Releasing => Lingering
    case Lingering => Gone
    case Gone => Gone
  }

  /** The worker after its step: it captures the current event when it enters, and counts as cut
      short when it finds the combined event set before its rows. */
  function Advanced(s: State, w: Worker): Worker {
    Worker(NextPc(s, w), w.region, w.external, w.own, if w.pc == Spawned then Some(s.current) else w.internal,
           w.combined, w.cut || (w.pc == Entered && w.combined), w.errored, w.total)
  }

  /** What the step does to the shared state, field by field. */
  function WorkStep(s: State, i: nat): State
    requires i < |s.workers|
  {
    var w := s.workers[i];
    State(s.running && w.pc != Releasing,
          if w.pc == Releasing then None else s.holder,
          if w.pc == Stopping then SetAt(s.events, s.current) else s.events,
          s.current, s.fired, s.cancels,
          if w.pc == Marking then s.skip + {w.region} else if w.pc == Clearing then s.skip - {w.region} else s.skip,
          s.done || w.pc == WritingDone,
          if w.pc == WritingDone then s.doneBy + [i] else s.doneBy,
          if w.pc == WritingTotal && w.total.Some? then w.total else s.total,
          w.pc == Spawned || (s.showing && w.pc != Lingering),
          s.workers[i := Advanced(s, w)])
  }

  function SetAt(events: seq<bool>, k: nat): (r: seq<bool>)
    ensures |r| == |events|
    ensures forall j :: 0 <= j < |r| ==> r[j] == (events[j] || j == k)
  {
    if k < |events| then events[k := true] else events
  }

  function LoopEnded(w: Worker, end: LoopEnd): Worker {
    Worker(Clearing, w.region, w.external, w.own, w.internal, w.combined, w.cut || end.CutByStop?,
           w.errored || end.Failed?, if end.Failed? then w.total else end.total)
  }

  function Step(s: State, a: Action): State
    requires Enabled(s, a)
  {
    match a
    case Start(region, external) => Claim(s, region, external)
    case MaybeStart(region, siteTotal, last, dbCount, hint, external) =>
      if Decide(siteTotal, last, dbCount, hint, s.running) == Trigger then Claim(s, region, external) else s
    case WriteNegative(v) => s.(total := Some(v))
    case CancelRead => s.(cancels := s.cancels + [s.current])
    case CancelSet(k) => s.(events := SetAt(s.events, s.cancels[k]))
    case FireExternal(e) => s.(fired := s.fired + {e})
    case Watch(i) => Put(s, i, s.workers[i].(combined := true))
    case Work(i) => WorkStep(s, i)
    case EndLoop(i, end) => Put(s, i, LoopEnded(s.workers[i], end))
    case Raise(i) => Put(s, i, s.workers[i].(pc := Releasing))
  }

  /** A fresh process: one unset event from the constructor, whatever the last process persisted. */
  predicate Initial(s: State) {
    s == State(false, None, [false], 0, {}, [], {}, s.done, [], s.total, false, [])
  }

  // ---------------------------------------------------------------------
  // What every step keeps
  // ---------------------------------------------------------------------

  predicate StopSeen(s: State, w: Worker) {
    (w.own < |s.events| && s.events[w.own]) || w.external in s.fired
  }

  ghost predicate WorkerOk(s: State, w: Worker) {
    && w.own < |s.events|
    && (w.internal.Some? ==> w.internal.value == w.own)
    && (w.combined ==> StopSeen(s, w))
    && (w.cut ==> StopSeen(s, w))
    && (w.pc == CheckExternal && w.cut ==> w.external in s.fired)
    && (w.pc == WritingDone || w.pc == WritingTotal ==> !w.cut && !w.errored)
  }

  ghost predicate WorkersOk(s: State) {
    forall i {:trigger s.workers[i]} :: 0 <= i < |s.workers| ==> WorkerOk(s, s.workers[i])
  }

  /** The claim is held by exactly the active worker, and self._stop_event is still its own. */
  ghost predicate ClaimOk(s: State) {
    && s.current < |s.events|
    && (s.running <==> s.holder.Some?)
    && (s.holder.Some? ==> s.holder.value < |s.workers| && s.workers[s.holder.value].own == s.current)
    && (forall i {:trigger s.workers[i]} :: 0 <= i < |s.workers| ==> (Active(s.workers[i].pc) <==> s.holder == Some(i)))
  }

  function SkipOf(s: State): set<int> {
    if s.holder.Some? && s.holder.value < |s.workers|
       && (s.workers[s.holder.value].pc == Looping || s.workers[s.holder.value].pc == Clearing)
    then {s.workers[s.holder.value].region}
    else {}
  }

  ghost predicate DoneOk(s: State) {
    forall k {:trigger s.doneBy[k]} :: 0 <= k < |s.doneBy| ==>
      s.doneBy[k] < |s.workers| && !s.workers[s.doneBy[k]].cut && !s.workers[s.doneBy[k]].errored
      && AfterDone(s.workers[s.doneBy[k]].pc)
  }

  ghost predicate Inv(s: State) {
    WorkersOk(s) && ClaimOk(s) && s.skip == SkipOf(s) && DoneOk(s)
  }

  lemma InitialInv(s: State)
    requires Initial(s)
    ensures Inv(s)
  {
  }

  /** Events are only ever set, and the lists only grow. */
  ghost predicate Grows(s: State, t: State) {
    && |s.events| <= |t.events| && s.fired <= t.fired && |s.workers| <= |t.workers|
    && (forall j {:trigger t.events[j]} :: 0 <= j < |s.events| && s.events[j] ==> t.events[j])
  }

  lemma StepGrows(s: State, a: Action)
    requires Enabled(s, a)
    ensures Grows(s, Step(s, a))
  {
  }

  lemma GrowsWorker(s: State, t: State, w: Worker)
    requires Grows(s, t) && WorkerOk(s, w)
    ensures WorkerOk(t, w)
  {
    if StopSeen(s, w) && w.external !in s.fired { assert t.events[w.own]; }
  }

  /** One worker moved, and nothing about the claims changed. */
  ghost predicate Moved(s: State, t: State, i: nat) {
    && i < |s.workers| && |t.workers| == |s.workers| && t.workers == s.workers[i := t.workers[i]]
    && t.current == s.current && |t.events| == |s.events|
    && t.workers[i].own == s.workers[i].own && t.workers[i].region == s.workers[i].region
    && t.workers[i].external == s.workers[i].external
  }

  ghost predicate SameClaim(s: State, t: State, i: nat)
    requires Moved(s, t, i)
  {
    t.running == s.running && t.holder == s.holder && Active(t.workers[i].pc) == Active(s.workers[i].pc)
  }

  lemma WorkMoves(s: State, i: nat)
    requires i < |s.workers|
    ensures Moved(s, WorkStep(s, i), i)
    ensures s.workers[i].pc != Releasing ==> SameClaim(s, WorkStep(s, i), i)
  {
  }

  /** The action moves worker i. */
  predicate Moves(a: Action, i: nat) {
    (a.Work? || a.Watch? || a.Raise? || a.EndLoop?) && a.i == i
  }

  lemma MoverMoves(s: State, a: Action, i: nat)
    requires Enabled(s, a) && Moves(a, i)
    ensures Moved(s, Step(s, a), i)
    ensures !(a.Work? && s.workers[i].pc == Releasing) ==> SameClaim(s, Step(s, a), i)
  {
    if a.Work? { WorkMoves(s, i); }
  }

  /** Callers, cancellers and shutdown leave every worker as it is. */
  lemma OutsiderLeavesWorkers(s: State, a: Action)
    requires Enabled(s, a) && !a.Work? && !a.Watch? && !a.Raise? && !a.EndLoop?
    ensures var t := Step(s, a);
      || (t.workers == s.workers && t.running == s.running && t.holder == s.holder && t.current == s.current
          && |t.events| == |s.events| && t.skip == s.skip && t.doneBy == s.doneBy && t.done == s.done)
      || (!s.running && (exists region, external :: t == Claim(s, region, external)))
  {
    if a.Start? {
      assert Step(s, a) == Claim(s, a.region, a.external);
    } else if a.MaybeStart? {
      assert Step(s, a) == s || Step(s, a) == Claim(s, a.region, a.external);
    }
  }

  // --- workers -------------------------------------------------------------

  lemma WorkedOk(s: State, i: nat)
    requires i < |s.workers| && WorkerOk(s, s.workers[i]) && (Active(s.workers[i].pc) ==> s.workers[i].own == s.current)
    requires s.workers[i].pc != Looping && s.workers[i].pc != Gone
    requires Grows(s, WorkStep(s, i))
    ensures WorkerOk(WorkStep(s, i), WorkStep(s, i).workers[i])
  {
    GrowsWorker(s, WorkStep(s, i), s.workers[i]);
  }

  lemma MovedWorkerOk(s: State, i: nat, a: Action)
    requires Enabled(s, a) && Moves(a, i) && WorkersOk(s) && ClaimOk(s) && i < |s.workers|
    ensures var t := Step(s, a); i < |t.workers| && WorkerOk(t, t.workers[i])
  {
    var w := s.workers[i];
    assert WorkerOk(s, w);
    StepGrows(s, a);
    if a.Work? {
      WorkMoves(s, i);
      WorkedOk(s, i);
    } else {
      GrowsWorker(s, Step(s, a), w);
    }
  }

  lemma WorkersStep(s: State, a: Action)
    requires Enabled(s, a) && WorkersOk(s) && ClaimOk(s)
    ensures WorkersOk(Step(s, a))
  {
    var t := Step(s, a);
    StepGrows(s, a);
    if i: nat :| Moves(a, i) {
      MoverMoves(s, a, i);
      forall j | 0 <= j < |t.workers| ensures WorkerOk(t, t.workers[j]) {
        if j == i { MovedWorkerOk(s, i, a); } else { GrowsWorker(s, t, s.workers[j]); }
      }
    } else {
      assert !Moves(a, 0) && (a.Work? || a.Watch? || a.Raise? || a.EndLoop? ==> Moves(a, a.i));
      OutsiderLeavesWorkers(s, a);
      forall j | 0 <= j < |t.workers| ensures WorkerOk(t, t.workers[j]) {
        if j < |s.workers| { GrowsWorker(s, t, s.workers[j]); }
      }
    }
  }

  // --- claims --------------------------------------------------------------

  lemma SameClaimOk(s: State, t: State, i: nat)
    requires ClaimOk(s) && Moved(s, t, i) && SameClaim(s, t, i)
    ensures ClaimOk(t)
  {
    forall j | 0 <= j < |t.workers| ensures Active(t.workers[j].pc) <==> t.holder == Some(j) {
      assert j != i ==> t.workers[j] == s.workers[j];
      assert Active(s.workers[j].pc) <==> s.holder == Some(j);
    }
  }

  lemma ReleaseOk(s: State, i: nat)
    requires ClaimOk(s) && i < |s.workers| && s.workers[i].pc == Releasing
    ensures ClaimOk(WorkStep(s, i))
  {
    var t := WorkStep(s, i);
    assert s.holder == Some(i);
    forall j | 0 <= j < |t.workers| ensures !Active(t.workers[j].pc) {
      assert j != i ==> t.workers[j] == s.workers[j];
      assert Active(s.workers[j].pc) <==> s.holder == Some(j);
    }
  }

  lemma NewClaimOk(s: State, region: int, external: nat)
    requires ClaimOk(s) && !s.running
    ensures ClaimOk(Claim(s, region, external))
  {
    var t := Claim(s, region, external);
    forall j | 0 <= j < |t.workers| ensures Active(t.workers[j].pc) <==> t.holder == Some(j) {
      assert j < |s.workers| ==> t.workers[j] == s.workers[j];
    }
  }

  lemma ClaimStep(s: State, a: Action)
    requires Enabled(s, a) && ClaimOk(s)
    ensures ClaimOk(Step(s, a))
  {
    var t := Step(s, a);
    if i: nat :| Moves(a, i) {
      MoverMoves(s, a, i);
      if a.Work? && s.workers[i].pc == Releasing { ReleaseOk(s, i); } else { SameClaimOk(s, t, i); }
    } else {
      assert a.Work? || a.Watch? || a.Raise? || a.EndLoop? ==> Moves(a, a.i);
      OutsiderLeavesWorkers(s, a);
      if !s.running && exists region, external :: t == Claim(s, region, external) {
        var region, external :| t == Claim(s, region, external);
        NewClaimOk(s, region, external);
      }
    }
  }

  // --- the skip-set --------------------------------------------------------

  predicate InSkip(pc: Pc) { pc == Looping || pc == Clearing }

  lemma SkipMoved(s: State, t: State, i: nat)
    requires ClaimOk(s) && ClaimOk(t) && s.skip == SkipOf(s) && Moved(s, t, i) && SameClaim(s, t, i)
    requires var w, v := s.workers[i], t.workers[i];
      if !InSkip(w.pc) && InSkip(v.pc) then Active(v.pc) && t.skip == s.skip + {w.region}
      else if InSkip(w.pc) && !InSkip(v.pc) then t.skip == s.skip - {w.region}
      else t.skip == s.skip
    ensures t.skip == SkipOf(t)
  {
    assert Active(s.workers[i].pc) <==> s.holder == Some(i);
    assert s.holder.Some? && s.holder.value != i ==> t.workers[s.holder.value] == s.workers[s.holder.value];
  }

  lemma WorkSkips(s: State, i: nat)
    requires i < |s.workers|
    ensures var t := WorkStep(s, i); var w, v := s.workers[i], t.workers[i];
      if !InSkip(w.pc) && InSkip(v.pc) then Active(v.pc) && t.skip == s.skip + {w.region}
      else if InSkip(w.pc) && !InSkip(v.pc) then t.skip == s.skip - {w.region}
      else t.skip == s.skip
  {
  }

  lemma SkipStep(s: State, a: Action)
    requires Enabled(s, a) && ClaimOk(s) && s.skip == SkipOf(s)
    ensures Step(s, a).skip == SkipOf(Step(s, a))
  {
    var t := Step(s, a);
    ClaimStep(s, a);
    if i: nat :| Moves(a, i) {
      MoverMoves(s, a, i);
      if a.Work? && s.workers[i].pc == Releasing {
        assert s.holder == Some(i) && t.holder == None;
      } else {
        if a.Work? { WorkSkips(s, i); }
        SkipMoved(s, t, i);
      }
    } else {
      assert a.Work? || a.Watch? || a.Raise? || a.EndLoop? ==> Moves(a, a.i);
      OutsiderLeavesWorkers(s, a);
    }
  }

  // --- the done flag -------------------------------------------------------

  predicate AfterDone(pc: Pc) { pc in {WritingTotal, Stopping, Releasing, Lingering, Gone} }

  lemma WriterGoesOn(s: State, a: Action, i: nat)
    requires Enabled(s, a) && Moves(a, i) && AfterDone(s.workers[i].pc)
    ensures var v := Step(s, a).workers[i]; AfterDone(v.pc) && v.cut == s.workers[i].cut && v.errored == s.workers[i].errored
    ensures Step(s, a).doneBy == s.doneBy
  {
    if a.Work? { WorkerIs(s, i); } else { OtherMoveIs(s, a, i); }
  }

  lemma WritesDone(s: State, a: Action)
    requires Enabled(s, a)
    ensures var t := Step(s, a);
      t.doneBy == s.doneBy
      || (a.Work? && s.workers[a.i].pc == WritingDone && t.doneBy == s.doneBy + [a.i] && AfterDone(t.workers[a.i].pc)
          && t.workers[a.i].cut == s.workers[a.i].cut && t.workers[a.i].errored == s.workers[a.i].errored)
  {
  }

  lemma DoneStep(s: State, a: Action)
    requires Enabled(s, a) && DoneOk(s) && WorkersOk(s)
    ensures DoneOk(Step(s, a))
  {
    var t := Step(s, a);
    WritesDone(s, a);
    forall k | 0 <= k < |t.doneBy|
      ensures t.doneBy[k] < |t.workers| && !t.workers[t.doneBy[k]].cut && !t.workers[t.doneBy[k]].errored
      ensures AfterDone(t.workers[t.doneBy[k]].pc)
    {
      var i := t.doneBy[k];
      if k < |s.doneBy| { assert s.doneBy[k] == i; }
      if Moves(a, i) {
        MoverMoves(s, a, i);
        if k < |s.doneBy| { WriterGoesOn(s, a, i); } else { assert WorkerOk(s, s.workers[i]); }
      } else if j: nat :| Moves(a, j) {
        MoverMoves(s, a, j);
      } else {
        assert a.Work? || a.Watch? || a.Raise? || a.EndLoop? ==> Moves(a, a.i);
        OutsiderLeavesWorkers(s, a);
      }
    }
  }

  lemma InvStep(s: State, a: Action)
    requires Enabled(s, a) && Inv(s)
    ensures Inv(Step(s, a))
  {
    WorkersStep(s, a);
    ClaimStep(s, a);
    SkipStep(s, a);
    DoneStep(s, a);
  }

  // ---------------------------------------------------------------------
  // Runs
  // ---------------------------------------------------------------------

  ghost predicate Steps(tr: seq<State>, acts: seq<Action>, i: nat)
    requires i < |acts| && |tr| == |acts| + 1
  {
    Enabled(tr[i], acts[i]) && tr[i + 1] == Step(tr[i], acts[i])
  }

  ghost predicate Run(tr: seq<State>, acts: seq<Action>) {
    && |tr| == |acts| + 1
    && Initial(tr[0])
    && (forall i {:trigger Steps(tr, acts, i)} :: 0 <= i < |acts| ==> Steps(tr, acts, i))
  }

  lemma {:induction false} RunInv(tr: seq<State>, acts: seq<Action>, k: nat)
    requires Run(tr, acts) && k < |tr|
    ensures Inv(tr[k])
  {
    if k == 0 {
      InitialInv(tr[0]);
    } else {
      RunInv(tr, acts, k - 1);
      assert Steps(tr, acts, k - 1);
      InvStep(tr[k - 1], acts[k - 1]);
    }
  }

  /** Whoever calls start and maybe_start in whatever interleaving: at most one worker holds the
      claim, and the flag says exactly whether one does. */
  lemma SingleFlight(tr: seq<State>, acts: seq<Action>, k: nat, i: nat, j: nat)
    requires Run(tr, acts) && k < |tr| && i < |tr[k].workers| && j < |tr[k].workers|
    ensures Active(tr[k].workers[i].pc) && Active(tr[k].workers[j].pc) ==> i == j
    ensures tr[k].running <==> exists h :: 0 <= h < |tr[k].workers| && Active(tr[k].workers[h].pc)
  {
    RunInv(tr, acts, k);
    var s := tr[k];
    assert Active(s.workers[i].pc) <==> s.holder == Some(i);
    assert Active(s.workers[j].pc) <==> s.holder == Some(j);
    if s.holder.Some? { assert Active(s.workers[s.holder.value].pc); }
  }

  /** The skip-set holds at most the claiming worker's region, and nothing when unclaimed. */
  lemma SkipSetFollowsClaim(tr: seq<State>, acts: seq<Action>, k: nat)
    requires Run(tr, acts) && k < |tr|
    ensures !tr[k].running ==> tr[k].skip == {}
    ensures tr[k].skip != {} ==>
      exists i :: 0 <= i < |tr[k].workers| && Active(tr[k].workers[i].pc) && tr[k].skip == {tr[k].workers[i].region}
  {
    RunInv(tr, acts, k);
    var s := tr[k];
    if s.skip != {} {
      assert Active(s.workers[s.holder.value].pc) && s.skip == {s.workers[s.holder.value].region};
    }
  }

  lemma {:induction false} DoneHasWriter(tr: seq<State>, acts: seq<Action>, k: nat)
    requires Run(tr, acts) && k < |tr|
    ensures tr[k].done <==> tr[0].done || tr[k].doneBy != []
    decreases k
  {
    if k > 0 {
      DoneHasWriter(tr, acts, k - 1);
      assert Steps(tr, acts, k - 1);
      WritesDone(tr[k - 1], acts[k - 1]);
      DoneWritten(tr[k - 1], acts[k - 1]);
    }
  }

  lemma DoneWritten(s: State, a: Action)
    requires Enabled(s, a)
    ensures Step(s, a).done == (s.done || Step(s, a).doneBy != s.doneBy)
  {
  }

  /** backfill.done is never written by a run whose rows were cut short by a stop, or that failed:
      every writer ran its rows to their end, and the flag is only ever set by such a writer. */
  lemma CutRunNeverDone(tr: seq<State>, acts: seq<Action>, k: nat)
    requires Run(tr, acts) && k < |tr|
    ensures forall i :: i in tr[k].doneBy ==> i < |tr[k].workers| && !tr[k].workers[i].cut && !tr[k].workers[i].errored
    ensures tr[k].done <==> tr[0].done || tr[k].doneBy != []
  {
    RunInv(tr, acts, k);
    DoneHasWriter(tr, acts, k);
    var s := tr[k];
    forall i | i in s.doneBy ensures i < |s.workers| && !s.workers[i].cut && !s.workers[i].errored {
      var n :| 0 <= n < |s.doneBy| && s.doneBy[n] == i;
    }
  }

  /** The worker's stop event is set and it is not past its last look at it. */
  ghost predicate Doomed(s: State, i: nat) {
    && i < |s.workers| && s.workers[i].own < |s.events| && s.events[s.workers[i].own]
    && s.workers[i].pc !in {CheckExternal, WritingDone, WritingTotal}
    && i !in s.doneBy
  }

  lemma DoomedStays(s: State, a: Action, i: nat)
    requires Enabled(s, a) && Inv(s) && Doomed(s, i)
    ensures Doomed(Step(s, a), i)
  {
    StepGrows(s, a);
    WritesDone(s, a);
    if Moves(a, i) {
      MoverMoves(s, a, i);
      assert Active(s.workers[i].pc) <==> s.holder == Some(i);
    } else if j: nat :| Moves(a, j) {
      MoverMoves(s, a, j);
    } else {
      assert a.Work? || a.Watch? || a.Raise? || a.EndLoop? ==> Moves(a, a.i);
      OutsiderLeavesWorkers(s, a);
    }
  }

  /** A cancel that sets the run's event at any time before its final check keeps that run from
      ever writing the flag, even when all its rows were already through. */
  lemma {:induction false} CancelledNeverDone(tr: seq<State>, acts: seq<Action>, m: nat, k: nat, i: nat)
    requires Run(tr, acts) && m <= k < |tr| && i < |tr[m].workers|
    requires tr[m].workers[i].own < |tr[m].events| && tr[m].events[tr[m].workers[i].own]
    requires tr[m].workers[i].pc in {Spawned, Entered, Marking, Looping, Clearing, CheckInternal}
    ensures i !in tr[k].doneBy
  {
    DoomedFrom(tr, acts, m, k, i);
  }

  lemma {:induction false} DoomedFrom(tr: seq<State>, acts: seq<Action>, m: nat, k: nat, i: nat)
    requires Run(tr, acts) && m <= k < |tr| && i < |tr[m].workers|
    requires tr[m].workers[i].own < |tr[m].events| && tr[m].events[tr[m].workers[i].own]
    requires tr[m].workers[i].pc in {Spawned, Entered, Marking, Looping, Clearing, CheckInternal}
    ensures Doomed(tr[k], i)
    decreases k
  {
    if k == m {
      RunInv(tr, acts, m);
      forall n | 0 <= n < |tr[m].doneBy| ensures tr[m].doneBy[n] != i {
        assert AfterDone(tr[m].workers[tr[m].doneBy[n]].pc);
      }
    } else {
      DoomedFrom(tr, acts, m, k - 1, i);
      RunInv(tr, acts, k - 1);
      assert Steps(tr, acts, k - 1);
      DoomedStays(tr[k - 1], acts[k - 1], i);
    }
  }

  /** The worker's look at the external event, with what it then saw. */
  ghost predicate LooksOut(tr: seq<State>, acts: seq<Action>, n: nat, i: nat, clear: bool) {
    && n < |acts| && n < |tr| && acts[n] == Work(i) && i < |tr[n].workers| && tr[n].workers[i].pc == CheckExternal
    && (clear <==> tr[n].workers[i].external !in tr[n].fired)
  }

  /** Worker i found its own event clear and the external one clear, and its rows had not failed. */
  ghost predicate Passed(tr: seq<State>, acts: seq<Action>, m: nat, k: nat, i: nat)
    requires m < k < |tr| && i < |tr[m].workers| && tr[m].workers[i].own < |tr[m].events|
  {
    && !tr[m].events[tr[m].workers[i].own] && !tr[m].workers[i].errored
    && exists n :: m < n < k && LooksOut(tr, acts, n, i, true)
  }

  /** Where worker i stands at k after its final check began at m, and whether it has written. */
  ghost predicate Judged(tr: seq<State>, acts: seq<Action>, m: nat, k: nat, i: nat)
    requires m < k < |tr| && i < |tr[m].workers| && tr[m].workers[i].own < |tr[m].events|
  {
    && i < |tr[k].workers| && tr[k].workers[i].errored == tr[m].workers[i].errored
    && var pc := tr[k].workers[i].pc;
    && (pc == CheckExternal || pc == WritingDone || AfterDone(pc))
    && (pc == CheckExternal ==> !tr[m].events[tr[m].workers[i].own] && i !in tr[k].doneBy
                                && forall n, clear :: m < n < k ==> !LooksOut(tr, acts, n, i, clear))
    && (pc == WritingDone ==> Passed(tr, acts, m, k, i) && i !in tr[k].doneBy)
    && (AfterDone(pc) ==> (i in tr[k].doneBy <==> Passed(tr, acts, m, k, i)))
  }

  lemma NotMoved(s: State, a: Action, i: nat)
    requires Enabled(s, a) && i < |s.workers| && !Moves(a, i)
    ensures var t := Step(s, a);
      i < |t.workers| && t.workers[i] == s.workers[i] && (i in t.doneBy <==> i in s.doneBy)
  {
    WritesDone(s, a);
    if j: nat :| Moves(a, j) {
      MoverMoves(s, a, j);
    } else {
      assert a.Work? || a.Watch? || a.Raise? || a.EndLoop? ==> Moves(a, a.i);
      OutsiderLeavesWorkers(s, a);
    }
  }

  /** A step of the final check and of what follows it. */
  lemma CheckStep(s: State, a: Action, i: nat)
    requires Enabled(s, a) && ClaimOk(s) && Moves(a, i) && !a.Raise? && s.workers[i].own < |s.events|
    requires var pc := s.workers[i].pc; pc == CheckInternal || pc == CheckExternal || pc == WritingDone || AfterDone(pc)
    ensures i < |Step(s, a).workers|
    ensures var t := Step(s, a); var w, v := s.workers[i], t.workers[i];
      && v.errored == w.errored
      && v.pc == (if !a.Work? then w.pc
                  else if w.pc == CheckInternal then (if s.events[w.own] then Stopping else CheckExternal)
                  else if w.pc == CheckExternal then (if w.external in s.fired || w.errored then Stopping else WritingDone)
                  else v.pc)
      && (w.pc == WritingDone && a.Work? ==> v.pc == WritingTotal) && (AfterDone(w.pc) ==> AfterDone(v.pc))
      && t.doneBy == if a.Work? && w.pc == WritingDone then s.doneBy + [i] else s.doneBy
  {
    hide WorkStep, SetAt, Claim, Decide, Triggered;
    MoverMoves(s, a, i);
    assert Active(s.workers[i].pc) <==> s.holder == Some(i);
    if a.Work? { WorkerIs(s, i); } else { OtherMoveIs(s, a, i); }
  }

  lemma JudgedStep(tr: seq<State>, acts: seq<Action>, m: nat, k: nat, i: nat)
    requires |tr| == |acts| + 1 && m < k < |acts| && i < |tr[m].workers| && tr[m].workers[i].own < |tr[m].events|
    requires Judged(tr, acts, m, k, i) && acts[k] != Raise(i) && Inv(tr[k]) && Steps(tr, acts, k)
    ensures Judged(tr, acts, m, k + 1, i)
  {
    hide Step, Enabled, ClaimOk, DoneOk;
    assert WorkerOk(tr[k], tr[k].workers[i]);
    var clear := !tr[m].events[tr[m].workers[i].own] && !tr[m].workers[i].errored;
    assert Passed(tr, acts, m, k + 1, i) == (Passed(tr, acts, m, k, i) || (clear && LooksOut(tr, acts, k, i, true)));
    if Moves(acts[k], i) {
      CheckStep(tr[k], acts[k], i);
    } else {
      NotMoved(tr[k], acts[k], i);
    }
  }

  /** When a run writes backfill.done: a worker that began its final check at m, and was not thrown
      out of it by an exception, has written the flag by the time it is through exactly if its own
      event was clear at m, its rows had not failed, and the external event was clear when it
      looked at that. */
  lemma {:induction false} FlagWrittenIff(tr: seq<State>, acts: seq<Action>, m: nat, k: nat, i: nat)
    requires Run(tr, acts) && m < k < |tr| && i < |tr[m].workers|
    requires acts[m] == Work(i) && tr[m].workers[i].pc == CheckInternal && Raise(i) !in acts[m..k]
    ensures tr[m].workers[i].own < |tr[m].events| && i < |tr[k].workers|
    ensures tr[k].workers[i].pc in {WritingTotal, Stopping, Releasing, Lingering, Gone} ==>
      (i in tr[k].doneBy <==>
        && !tr[m].events[tr[m].workers[i].own] && !tr[m].workers[i].errored
        && exists n :: m < n < k && LooksOut(tr, acts, n, i, true))
  {
    JudgedFrom(tr, acts, m, k, i);
  }

  lemma {:induction false} JudgedFrom(tr: seq<State>, acts: seq<Action>, m: nat, k: nat, i: nat)
    requires Run(tr, acts) && m < k < |tr| && i < |tr[m].workers|
    requires acts[m] == Work(i) && tr[m].workers[i].pc == CheckInternal && Raise(i) !in acts[m..k]
    ensures tr[m].workers[i].own < |tr[m].events|
    ensures Judged(tr, acts, m, k, i)
    decreases k
  {
    RunInv(tr, acts, m);
    assert WorkerOk(tr[m], tr[m].workers[i]);
    if k == m + 1 {
      JudgedFirst(tr, acts, m, i);
    } else {
      assert acts[m..k] == acts[m..k - 1] + [acts[k - 1]];
      JudgedFrom(tr, acts, m, k - 1, i);
      RunInv(tr, acts, k - 1);
      assert Steps(tr, acts, k - 1);
      JudgedStep(tr, acts, m, k - 1, i);
    }
  }

  lemma JudgedFirst(tr: seq<State>, acts: seq<Action>, m: nat, i: nat)
    requires Run(tr, acts) && m < |acts| && i < |tr[m].workers| && tr[m].workers[i].own < |tr[m].events|
    requires acts[m] == Work(i) && tr[m].workers[i].pc == CheckInternal && Inv(tr[m])
    ensures Judged(tr, acts, m, m + 1, i)
  {
    hide Step, Enabled;
    assert Steps(tr, acts, m) && WorkerOk(tr[m], tr[m].workers[i]);
    CheckStep(tr[m], acts[m], i);
    forall n | 0 <= n < |tr[m].doneBy| ensures tr[m].doneBy[n] != i {
      assert AfterDone(tr[m].workers[tr[m].doneBy[n]].pc);
    }
  }

  // ---------------------------------------------------------------------
  // When the status is right
  // ---------------------------------------------------------------------

  predicate LingersAt(s: State, i: nat) { i < |s.workers| && s.workers[i].pc == Lingering }

  /** Everyone lingering in s lingers in t. */
  ghost predicate NoneLeft(s: State, t: State) {
    forall i :: LingersAt(s, i) ==> LingersAt(t, i)
  }

  /** Worker h is at work, past its entry in state `start`; nobody has begun to linger since, and
      the status is shown exactly while nobody has stopped. */
  ghost predicate Shown(start: State, s: State, h: nat) {
    && h < |s.workers| && Active(s.workers[h].pc) && s.workers[h].pc != Spawned
    && (forall i :: LingersAt(s, i) ==> LingersAt(start, i))
    && (s.showing <==> NoneLeft(start, s))
  }

  lemma OthersLinger(s: State, t: State, i: nat, j: nat)
    requires Moved(s, t, i) && j != i
    ensures LingersAt(t, j) <==> LingersAt(s, j)
  {
    if j < |s.workers| { assert t.workers[j] == s.workers[j]; }
  }

  /** A worker that is not the claim's can only stop lingering. */
  lemma LeavesOrStays(s: State, a: Action, i: nat)
    requires Enabled(s, a) && Moves(a, i) && !Active(s.workers[i].pc)
    ensures var t := Step(s, a);
      if a.Work? then LingersAt(s, i) && !LingersAt(t, i) && !t.showing
      else (LingersAt(t, i) <==> LingersAt(s, i)) && t.showing == s.showing
  {
  }

  lemma WorkerIs(s: State, i: nat)
    requires i < |s.workers|
    ensures var t, w := WorkStep(s, i), s.workers[i];
      && t.workers[i] == Advanced(s, w) && t.showing == (w.pc == Spawned || (s.showing && w.pc != Lingering))
      && t.doneBy == if w.pc == WritingDone then s.doneBy + [i] else s.doneBy
  {
  }

  lemma OtherMoveIs(s: State, a: Action, i: nat)
    requires Enabled(s, a) && Moves(a, i) && !a.Work?
    ensures var t, w := Step(s, a), s.workers[i];
      && t.workers[i] == (if a.Watch? then w.(combined := true)
                          else if a.Raise? then w.(pc := Releasing)
                          else LoopEnded(w, a.end))
      && t.showing == s.showing && t.doneBy == s.doneBy
  {
  }

  lemma WorkingShows(s: State, a: Action, h: nat)
    requires Enabled(s, a) && Moves(a, h) && Active(s.workers[h].pc) && s.workers[h].pc != Spawned
    requires Active(Step(s, a).workers[h].pc)
    ensures var t := Step(s, a);
      !LingersAt(s, h) && !LingersAt(t, h) && t.showing == s.showing && t.workers[h].pc != Spawned
  {
    if a.Work? { WorkerIs(s, h); } else { OtherMoveIs(s, a, h); }
  }

  lemma MovedShown(start: State, s: State, a: Action, h: nat, i: nat)
    requires Enabled(s, a) && ClaimOk(s) && Shown(start, s, h) && Moves(a, i)
    requires Active(Step(s, a).workers[h].pc) && |Step(s, a).workers| == |s.workers|
    ensures Shown(start, Step(s, a), h)
  {
    var t := Step(s, a);
    MoverMoves(s, a, i);
    assert Active(s.workers[h].pc) <==> s.holder == Some(h);
    assert Active(s.workers[i].pc) <==> s.holder == Some(i);
    forall j: nat | j != i ensures LingersAt(t, j) <==> LingersAt(s, j) {
      OthersLinger(s, t, i, j);
    }
    if i == h {
      WorkingShows(s, a, h);
    } else {
      LeavesOrStays(s, a, i);
      if a.Work? { assert LingersAt(start, i); }
    }
  }

  lemma ShownStep(start: State, s: State, a: Action, h: nat)
    requires Enabled(s, a) && ClaimOk(s) && Shown(start, s, h)
    requires h < |Step(s, a).workers| && Active(Step(s, a).workers[h].pc)
    ensures Shown(start, Step(s, a), h)
  {
    if i: nat :| Moves(a, i) {
      MoverMoves(s, a, i);
      MovedShown(start, s, a, h, i);
    } else {
      assert a.Work? || a.Watch? || a.Raise? || a.EndLoop? ==> Moves(a, a.i);
      OutsiderLeavesWorkers(s, a);
      assert Active(s.workers[h].pc) <==> s.holder == Some(h);
      OutsiderShows(s, a);
    }
  }

  lemma OutsiderShows(s: State, a: Action)
    requires Enabled(s, a) && !a.Work? && !a.Watch? && !a.Raise? && !a.EndLoop?
    ensures Step(s, a).showing == s.showing
  {
  }

  lemma EntryShown(s: State, h: nat)
    requires h < |s.workers| && s.workers[h].pc == Spawned
    ensures Shown(s, Step(s, Work(h)), h)
  {
    var t := Step(s, Work(h));
    forall i: nat ensures LingersAt(t, i) <==> LingersAt(s, i) {
      if i < |s.workers| && i != h { assert t.workers[i] == s.workers[i]; }
    }
  }

  lemma StillActive(s: State, a: Action, h: nat)
    requires Enabled(s, a) && h < |s.workers|
    ensures h < |Step(s, a).workers| && (Active(Step(s, a).workers[h].pc) ==> Active(s.workers[h].pc))
  {
    if i: nat :| Moves(a, i) {
      MoverMoves(s, a, i);
    } else {
      assert a.Work? || a.Watch? || a.Raise? || a.EndLoop? ==> Moves(a, a.i);
      OutsiderLeavesWorkers(s, a);
    }
  }

  lemma {:induction false} ShownFrom(tr: seq<State>, acts: seq<Action>, m: nat, k: nat, h: nat)
    requires Run(tr, acts) && m < k < |tr| && acts[m] == Work(h)
    requires h < |tr[m].workers| && tr[m].workers[h].pc == Spawned
    requires h < |tr[k].workers| && Active(tr[k].workers[h].pc)
    ensures Shown(tr[m], tr[k], h)
    decreases k
  {
    hide Shown, Step, Enabled, ClaimOk, Active;
    assert Steps(tr, acts, k - 1);
    if k == m + 1 {
      EntryShown(tr[m], h);
    } else {
      WorkersStay(tr, acts, m, k - 1);
      StillActive(tr[k - 1], acts[k - 1], h);
      ShownFrom(tr, acts, m, k - 1, h);
      RunInv(tr, acts, k - 1);
      ShownStep(tr[m], tr[k - 1], acts[k - 1], h);
    }
  }

  /** While a run is at work, from its entry at step m on, the status says so exactly as long as
      every worker that lingered at its entry still does: the one way it can be wrong is a
      predecessor clearing the flag late. If nobody lingered then, it is right throughout. */
  lemma StatusRightIff(tr: seq<State>, acts: seq<Action>, m: nat, k: nat, h: nat)
    requires Run(tr, acts) && m < k < |tr| && acts[m] == Work(h)
    requires h < |tr[m].workers| && tr[m].workers[h].pc == Spawned
    requires h < |tr[k].workers| && Active(tr[k].workers[h].pc)
    ensures tr[k].showing <==> NoneLeft(tr[m], tr[k])
    ensures (forall i :: !LingersAt(tr[m], i)) ==> tr[k].showing
  {
    ShownFrom(tr, acts, m, k, h);
  }

  lemma {:induction false} WorkersStay(tr: seq<State>, acts: seq<Action>, m: nat, k: nat)
    requires Run(tr, acts) && m <= k < |tr|
    ensures |tr[m].workers| <= |tr[k].workers|
    decreases k
  {
    if m < k {
      WorkersStay(tr, acts, m, k - 1);
      assert Steps(tr, acts, k - 1);
      StepGrows(tr[k - 1], acts[k - 1]);
    }
  }

  // ---------------------------------------------------------------------
  // What does not hold
  // ---------------------------------------------------------------------

  ghost predicate Reachable(s: State) {
    exists tr, acts :: Run(tr, acts) && tr[|tr| - 1] == s
  }

  lemma ReachNext(s: State, a: Action)
    requires Reachable(s) && Enabled(s, a)
    ensures Reachable(Step(s, a))
  {
    var tr, acts :| Run(tr, acts) && tr[|tr| - 1] == s;
    var tr', acts' := tr + [Step(s, a)], acts + [a];
    forall i | 0 <= i < |acts'| ensures Steps(tr', acts', i) {
      if i < |acts| {
        assert Steps(tr, acts, i);
        assert tr'[i] == tr[i] && tr'[i + 1] == tr[i + 1] && acts'[i] == acts[i];
      } else {
        assert tr'[i] == s && tr'[i + 1] == Step(s, a) && acts'[i] == a;
      }
    }
    assert Run(tr', acts');
  }

  /** A worker stopped before its rows, with the claim released and the progress not yet cleared. */
  function Lingerer(): Worker { Worker(Lingering, 1, 7, 1, Some(1), true, true, false, None) }

  function Between(w: Worker, running: bool, showing: bool): State {
    State(running, if running then Some(0) else None, [false, w.pc == Releasing || w.pc == Lingering], 1, {7}, [], {},
          false, [], None, showing, [w])
  }

  lemma LingererReached()
    ensures Reachable(Between(Lingerer(), false, true))
  {
    var s0 := State(false, None, [false], 0, {}, [], {}, false, [], None, false, []);
    assert Run([s0], []);
    assert [s0][|[s0]| - 1] == s0;
    ReachNext(s0, FireExternal(7));
    var s1 := s0.(fired := {7});
    ReachNext(s1, Start(1, 7));
    var w := Worker(Spawned, 1, 7, 1, None, false, false, false, None);
    var s2 := Between(w, true, false);
    assert Step(s1, Start(1, 7)) == s2;
    Tail(w);
  }

  lemma Tail(w: Worker)
    requires w == Worker(Spawned, 1, 7, 1, None, false, false, false, None)
    requires Reachable(Between(w, true, false))
    ensures Reachable(Between(Lingerer(), false, true))
  {
    ReachNext(Between(w, true, false), Work(0));
    var entered := w.(pc := Entered, internal := Some(1));
    assert Step(Between(w, true, false), Work(0)) == Between(entered, true, true);
    ReachNext(Between(entered, true, true), Watch(0));
    var told := entered.(combined := true);
    assert Step(Between(entered, true, true), Watch(0)) == Between(told, true, true);
    Wound(told, CheckInternal);
    Wound(Lingerer().(pc := CheckInternal), CheckExternal);
    Wound(Lingerer().(pc := CheckExternal), Stopping);
    Wound(Lingerer().(pc := Stopping), Releasing);
    ReachNext(Between(Lingerer().(pc := Releasing), true, true), Work(0));
    assert Step(Between(Lingerer().(pc := Releasing), true, true), Work(0)) == Between(Lingerer(), false, true);
  }

  lemma Wound(w: Worker, next: Pc)
    requires Reachable(Between(w, true, true))
    requires w == Lingerer().(pc := w.pc, cut := w.cut) && (w.cut <==> w.pc != Entered)
    requires (w.pc, next) in {(Entered, CheckInternal), (CheckInternal, CheckExternal), (CheckExternal, Stopping), (Stopping, Releasing)}
    ensures Reachable(Between(Lingerer().(pc := next), true, true))
  {
    var s, t := Between(w, true, true), Between(Lingerer().(pc := next), true, true);
    ReachNext(s, Work(0));
    assert Step(s, Work(0)).workers == t.workers;
    assert Step(s, Work(0)).events == t.events;
    assert Step(s, Work(0)) == t;
  }

  /** The second run's worker beside the lingering first one. */
  function Beside(pc: Pc, internal: Option<nat>, skip: set<int>): State {
    State(true, Some(1), [false, true, false], 2, {7}, [], skip, false, [], None, true,
          [Lingerer(), Worker(pc, 1, 8, 2, internal, false, false, false, None)])
  }

  lemma SecondStarted()
    ensures Reachable(Beside(Spawned, None, {}))
  {
    LingererReached();
    var s0 := Between(Lingerer(), false, true);
    ReachNext(s0, Start(1, 8));
    assert Step(s0, Start(1, 8)) == Beside(Spawned, None, {});
  }

  /** The status lags: a worker that released its claim clears progress.running later, so a run
      started in between is shown as not running while it works on its rows. */
  lemma StatusMayLie()
    ensures exists s :: Reachable(s) && s.running && !s.showing && |s.workers| == 2 && s.workers[1].pc == Looping
  {
    SecondStarted();
    Onward(Spawned, Entered, None, {}, {});
    Onward(Entered, Marking, Some(2), {}, {});
    Onward(Marking, Looping, Some(2), {}, {1});
    ReachNext(Beside(Looping, Some(2), {1}), Work(0));
  }

  lemma Onward(pc: Pc, next: Pc, internal: Option<nat>, skip: set<int>, skip': set<int>)
    requires Reachable(Beside(pc, internal, skip))
    requires (pc, next) in {(Spawned, Entered), (Entered, Marking), (Marking, Looping)}
    requires (internal == if pc == Spawned then None else Some(2)) && skip == {} && skip' == (if pc == Marking then {1} else {})
    ensures Reachable(Beside(next, Some(2), skip'))
  {
    ReachNext(Beside(pc, internal, skip), Work(1));
    assert Step(Beside(pc, internal, skip), Work(1)) == Beside(next, Some(2), skip');
  }
}

/** The in-memory event bus as a state machine: any number of publishers, subscribers and
    readers interleave, one lock-delimited region or one queue operation per step. */
module EventBus {
  import opened Prelude

  const CAPACITY: nat := 100
  const REPLAY_TTL: real := 30.0

  datatype Priority = Normal | Critical

  /** `id` names the publication: two publish calls never share one. */
  datatype Event = Event(id: nat, kind: string, priority: Priority)

  /** One entry of the per-kind replay slots, in the order of the Python dict. */
  datatype Slot = Slot(event: Event, at: real)

  /** A subscription handle. `history` records everything ever put into the queue. */
  datatype Handle = Handle(alive: bool, queue: seq<Event>, history: seq<Event>)

  /** What one publish call found at one subscriber of its snapshot. */
  datatype Outcome = Enqueued | FoundDead | Lost | TimedOut

  datatype Pc = WritingSlot | ReadingAlive | Putting | Evicting | Reputting | Removing(next: nat) | Returned

  /** A publish call in progress; `outcomes[i]` is what happened at `snapshot[i]`. */
  datatype Publisher = Publisher(event: Event, snapshot: seq<nat>, pc: Pc, outcomes: seq<Outcome>)

  datatype State = State(
    registered: seq<nat>,
    handles: map<nat, Handle>,
    lastNormal: seq<Slot>,
    lastCritical: map<string, Event>,
    publishers: map<nat, Publisher>)

  datatype Action =
    | Begin(event: Event)
    | WriteSlot(id: nat, now: real)
    | ReadAlive(id: nat)
    | Put(id: nat)
    | TimeOut(id: nat)
    | Evict(id: nat)
    | Reput(id: nat)
    | ForceRemove(id: nat)
    | Subscribe(sub: nat, now: real)
    | Unsubscribe(sub: nat)
    | Consume(sub: nat)
    | EvictReplay(kind: string)

  const Init := State([], map[], [], map[], map[])

  // ---------------------------------------------------------------------
  // Operations shared by the machine and by the class in ThreadEventBus.dfy
  // ---------------------------------------------------------------------

  predicate Full(q: seq<Event>) { |q| >= CAPACITY }

  /** Overwriting a key of an insertion-ordered dict keeps its position. */
  function SetSlot(slots: seq<Slot>, event: Event, now: real): (r: seq<Slot>)
    ensures forall x :: x in r ==> x in slots || x == Slot(event, now)
    ensures Slot(event, now) in r
  {
    if slots == [] then [Slot(event, now)]
    else if slots[0].event.kind == event.kind then [Slot(event, now)] + slots[1..]
    else [slots[0]] + SetSlot(slots[1..], event, now)
  }

  function DropKind(slots: seq<Slot>, kind: string): seq<Slot> {
    Filter((x: Slot) => x.event.kind != kind, slots)
  }

  function Fresh(slots: seq<Slot>, now: real): seq<Slot> {
    Filter((x: Slot) => now - x.at < REPLAY_TTL, slots)
  }

  /** The events a new subscriber starts with; a put into a full queue is suppressed. */
  function Replay(slots: seq<Slot>, now: real): (r: seq<Event>)
    ensures |r| <= CAPACITY
    ensures forall e :: e in r ==> exists x :: x in slots && x.event == e
  {
    var recent := Fresh(slots, now);
    var events := seq(|recent|, i requires 0 <= i < |recent| => recent[i].event);
    if |events| <= CAPACITY then events else events[..CAPACITY]
  }

  function Enqueue(h: Handle, e: Event): Handle {
    h.(queue := h.queue + [e], history := h.history + [e])
  }

  // ---------------------------------------------------------------------
  // Steps
  // ---------------------------------------------------------------------

  predicate InPc(s: State, id: nat, pc: Pc) {
    id in s.publishers && s.publishers[id].pc == pc
  }

  /** The subscriber a publish call is working on exists. */
  predicate AtHandle(s: State, id: nat) {
    id in s.publishers && |s.publishers[id].outcomes| < |s.publishers[id].snapshot| && Current(s, id) in s.handles
  }

  function Current(s: State, id: nat): nat
    requires id in s.publishers && |s.publishers[id].outcomes| < |s.publishers[id].snapshot|
  {
    s.publishers[id].snapshot[|s.publishers[id].outcomes|]
  }

  predicate Enabled(s: State, a: Action) {
    match a
    case Begin(e) => e.id !in s.publishers
    case WriteSlot(id, _) => InPc(s, id, WritingSlot)
    case ReadAlive(id) => InPc(s, id, ReadingAlive) && AtHandle(s, id)
    case Put(id) =>
      InPc(s, id, Putting) && AtHandle(s, id)
      && (s.publishers[id].event.priority == Critical ==> !Full(s.handles[Current(s, id)].queue))
    case TimeOut(id) =>
      InPc(s, id, Putting) && AtHandle(s, id) && s.publishers[id].event.priority == Critical
      && Full(s.handles[Current(s, id)].queue)
    case Evict(id) => InPc(s, id, Evicting) && AtHandle(s, id)
    case Reput(id) => InPc(s, id, Reputting) && AtHandle(s, id)
    case ForceRemove(id) =>
      id in s.publishers && s.publishers[id].pc.Removing?
      && s.publishers[id].pc.next < |SlowOf(s.publishers[id])|
      && SlowOf(s.publishers[id])[s.publishers[id].pc.next] in s.handles
    case Subscribe(sub, _) => sub !in s.handles
    case Unsubscribe(sub) => sub in s.handles
    case Consume(sub) => sub in s.handles && s.handles[sub].queue != []
    case EvictReplay(_) => true
  }

  /** The subscribers this call timed out on, in order (`to_force_unsubscribe`). */
  function Slow(snapshot: seq<nat>, outcomes: seq<Outcome>): (r: seq<nat>)
    ensures forall x :: x in r ==> x in snapshot
    ensures |outcomes| <= |snapshot| ==>
              forall i :: 0 <= i < |outcomes| && outcomes[i] == TimedOut ==> snapshot[i] in r
  {
    if outcomes == [] || |outcomes| > |snapshot| then []
    else
      var k := |outcomes| - 1;
      Slow(snapshot, outcomes[..k]) + (if outcomes[k] == TimedOut then [snapshot[k]] else [])
  }

  function SlowOf(p: Publisher): seq<nat> { Slow(p.snapshot, p.outcomes) }

  /** Move on to the next subscriber, the force-removals, or the return. */
  function Record(p: Publisher, o: Outcome): Publisher {
    Settle(p.(outcomes := p.outcomes + [o], pc := ReadingAlive))
  }

  function Settle(p: Publisher): Publisher {
    if |p.outcomes| < |p.snapshot| then p
    else SettleRemoving(p, 0)
  }

  function SettleRemoving(p: Publisher, next: nat): Publisher {
    if next < |SlowOf(p)| then p.(pc := Removing(next)) else p.(pc := Returned)
  }

  function SetPub(s: State, id: nat, p: Publisher): State {
    s.(publishers := s.publishers[id := p])
  }

  function SetHandle(s: State, sub: nat, h: Handle): State {
    s.(handles := s.handles[sub := h])
  }

  function Kill(s: State, sub: nat): State
    requires sub in s.handles
  {
    SetHandle(s, sub, s.handles[sub].(alive := false)).(registered := RemoveFirst(s.registered, sub))
  }

  function Step(s: State, a: Action): State
    requires Enabled(s, a)
  {
    match a
    case Begin(e) => SetPub(s, e.id, Publisher(e, s.registered, WritingSlot, []))
    case WriteSlot(id, now) =>
      var p := s.publishers[id];
      var s' := SetPub(s, id, Settle(p.(pc := ReadingAlive)));
      if p.event.priority == Normal
      then s'.(lastNormal := SetSlot(s.lastNormal, p.event, now))
      else s'.(lastCritical := s.lastCritical[p.event.kind := p.event])
    case ReadAlive(id) =>
      var p := s.publishers[id];
      if s.handles[Current(s, id)].alive then SetPub(s, id, p.(pc := Putting))
      else SetPub(s, id, Record(p, FoundDead))
    case Put(id) =>
      var p := s.publishers[id];
      var sub := Current(s, id);
      if Full(s.handles[sub].queue) then SetPub(s, id, p.(pc := Evicting))
      else SetPub(SetHandle(s, sub, Enqueue(s.handles[sub], p.event)), id, Record(p, Enqueued))
    case TimeOut(id) => SetPub(s, id, Record(s.publishers[id], TimedOut))
    case Evict(id) =>
      var sub := Current(s, id);
      var h := s.handles[sub];
      SetPub(SetHandle(s, sub, if h.queue == [] then h else h.(queue := h.queue[1..])),
             id, s.publishers[id].(pc := Reputting))
    case Reput(id) =>
      var p := s.publishers[id];
      var sub := Current(s, id);
      if Full(s.handles[sub].queue) then SetPub(s, id, Record(p, Lost))
      else SetPub(SetHandle(s, sub, Enqueue(s.handles[sub], p.event)), id, Record(p, Enqueued))
    case ForceRemove(id) =>
      var p := s.publishers[id];
      SetPub(Kill(s, SlowOf(p)[p.pc.next]), id, SettleRemoving(p, p.pc.next + 1))
    case Subscribe(sub, now) =>
      var q := Replay(s.lastNormal, now);
      SetHandle(s, sub, Handle(true, q, q)).(registered := s.registered + [sub], lastNormal := Fresh(s.lastNormal, now))
    case Unsubscribe(sub) => Kill(s, sub)
    case Consume(sub) => SetHandle(s, sub, s.handles[sub].(queue := s.handles[sub].queue[1..]))
    case EvictReplay(kind) => s.(lastNormal := DropKind(s.lastNormal, kind))
  }

  // ---------------------------------------------------------------------
  // Invariant
  // ---------------------------------------------------------------------

  ghost predicate RegistryOk(s: State) {
    && Distinct(s.registered)
    && (forall x :: x in s.registered ==> x in s.handles)
    && (forall x :: x in s.handles ==> (s.handles[x].alive <==> x in s.registered))
  }

  /** The queue is bounded and is the tail of the enqueue history. */
  ghost predicate QueueOk(h: Handle) {
    && |h.queue| <= CAPACITY
    && |h.queue| <= |h.history|
    && h.queue == h.history[|h.history| - |h.queue|..]
  }

  ghost predicate OncePerPublication(history: seq<Event>) {
    forall i, j :: 0 <= i < j < |history| ==> history[i].id != history[j].id
  }

  /** Did publisher p's live path put its event into x's queue? */
  ghost predicate LiveServed(p: Publisher, x: nat) {
    exists i :: 0 <= i < |p.outcomes| && i < |p.snapshot| && p.snapshot[i] == x && p.outcomes[i] == Enqueued
  }

  /** Where an entry of x's history came from: the live path or, outside the snapshot, a replay. */
  ghost predicate Explained(s: State, x: nat, e: Event) {
    && e.id in s.publishers
    && s.publishers[e.id].event == e
    && (LiveServed(s.publishers[e.id], x)
        || (x !in s.publishers[e.id].snapshot && s.publishers[e.id].pc != WritingSlot && e.priority == Normal))
  }

  ghost predicate HandleOk(s: State, x: nat)
    requires x in s.handles
  {
    && QueueOk(s.handles[x])
    && OncePerPublication(s.handles[x].history)
    && (forall e {:trigger Explained(s, x, e)} :: e in s.handles[x].history ==> Explained(s, x, e))
  }

  ghost predicate PublisherOk(s: State, id: nat)
    requires id in s.publishers
  {
    var p := s.publishers[id];
    && p.event.id == id
    && Distinct(p.snapshot)
    && (forall x :: x in p.snapshot ==> x in s.handles)
    && |p.outcomes| <= |p.snapshot|
    && (p.pc == WritingSlot ==> p.outcomes == [])
    && (p.pc in {ReadingAlive, Putting, Evicting, Reputting} ==> |p.outcomes| < |p.snapshot|)
    && (p.pc.Removing? || p.pc == Returned ==> |p.outcomes| == |p.snapshot|)
    && (p.pc in {Evicting, Reputting} ==> p.event.priority == Normal)
    && (p.pc.Removing? ==> p.pc.next < |SlowOf(p)|)
    && (forall i {:trigger OutcomeOk(s, p, i)} :: 0 <= i < |p.outcomes| ==> OutcomeOk(s, p, i))
    && (p.pc.Removing? ==> forall i :: 0 <= i < p.pc.next ==> SlowOf(p)[i] in s.handles && !s.handles[SlowOf(p)[i]].alive)
    && (p.pc == Returned ==> forall x :: x in SlowOf(p) ==> x in s.handles && !s.handles[x].alive)
  }

  ghost predicate OutcomeOk(s: State, p: Publisher, i: nat)
    requires i < |p.outcomes| <= |p.snapshot|
  {
    var x := p.snapshot[i];
    && x in s.handles
    && match p.outcomes[i]
       case Enqueued => p.event in s.handles[x].history
       case FoundDead => !s.handles[x].alive
       case Lost => p.event.priority == Normal
       case TimedOut => p.event.priority == Critical
  }

  ghost predicate SlotsOk(s: State) {
    && (forall x :: x in s.lastNormal ==>
          x.event.id in s.publishers && s.publishers[x.event.id].event == x.event
          && x.event.priority == Normal && s.publishers[x.event.id].pc != WritingSlot)
    && KindsDistinct(s.lastNormal)
  }

  ghost predicate Inv(s: State) {
    && RegistryOk(s)
    && (forall x {:trigger HandleOk(s, x)} :: x in s.handles ==> HandleOk(s, x))
    && (forall id {:trigger PublisherOk(s, id)} :: id in s.publishers ==> PublisherOk(s, id))
    && SlotsOk(s)
  }

  // ---------------------------------------------------------------------
  // Every step keeps the invariant
  // ---------------------------------------------------------------------

  ghost predicate PublisherGrows(p: Publisher, q: Publisher) {
    && q.event == p.event
    && q.snapshot == p.snapshot
    && p.outcomes <= q.outcomes
    && (q.pc == WritingSlot ==> p.pc == WritingSlot)
  }

  ghost predicate HandleGrows(h: Handle, g: Handle) {
    (g.alive ==> h.alive) && h.history <= g.history
  }

  /** What a step never undoes, whoever takes it. */
  ghost predicate Evolves(s: State, t: State) {
    && (forall id :: id in s.publishers ==> id in t.publishers && PublisherGrows(s.publishers[id], t.publishers[id]))
    && (forall x :: x in s.handles ==> x in t.handles && HandleGrows(s.handles[x], t.handles[x]))
  }

  lemma SetPubEvolves(s: State, id: nat, q: Publisher)
    requires id in s.publishers ==> PublisherGrows(s.publishers[id], q)
    ensures Evolves(s, SetPub(s, id, q))
  {
  }

  lemma SetHandleEvolves(s: State, x: nat, g: Handle)
    requires x in s.handles ==> HandleGrows(s.handles[x], g)
    ensures Evolves(s, SetHandle(s, x, g))
  {
  }

  lemma EvolvesTrans(s: State, t: State, u: State)
    requires Evolves(s, t) && Evolves(t, u)
    ensures Evolves(s, u)
  {
  }

  lemma RecordGrows(p: Publisher, o: Outcome)
    ensures PublisherGrows(p, Record(p, o))
  {
  }

  /** Replacing a publisher, possibly after a change to one handle. */
  lemma BothEvolve(s: State, x: nat, g: Handle, id: nat, q: Publisher)
    requires x in s.handles && HandleGrows(s.handles[x], g)
    requires id in s.publishers && PublisherGrows(s.publishers[id], q)
    ensures Evolves(s, SetPub(SetHandle(s, x, g), id, q))
  {
    SetHandleEvolves(s, x, g);
    SetPubEvolves(SetHandle(s, x, g), id, q);
    EvolvesTrans(s, SetHandle(s, x, g), SetPub(SetHandle(s, x, g), id, q));
  }

  lemma PutEvolves(s: State, id: nat)
    requires id in s.publishers && AtHandle(s, id)
    ensures var h := s.handles[Current(s, id)];
      Evolves(s, SetPub(SetHandle(s, Current(s, id), Enqueue(h, s.publishers[id].event)), id, Record(s.publishers[id], Enqueued)))
  {
    RecordGrows(s.publishers[id], Enqueued);
    BothEvolve(s, Current(s, id), Enqueue(s.handles[Current(s, id)], s.publishers[id].event), id, Record(s.publishers[id], Enqueued));
  }

  lemma StepEvolves(s: State, a: Action)
    requires Enabled(s, a)
    ensures Evolves(s, Step(s, a))
  {
    match a {
      case Begin(e) => SetPubEvolves(s, e.id, Publisher(e, s.registered, WritingSlot, []));
      case WriteSlot(id, _) => SetPubEvolves(s, id, Settle(s.publishers[id].(pc := ReadingAlive)));
      case ReadAlive(id) =>
        RecordGrows(s.publishers[id], FoundDead);
        SetPubEvolves(s, id, Record(s.publishers[id], FoundDead));
        SetPubEvolves(s, id, s.publishers[id].(pc := Putting));
      case Put(id) =>
        PutEvolves(s, id);
        SetPubEvolves(s, id, s.publishers[id].(pc := Evicting));
      case TimeOut(id) =>
        RecordGrows(s.publishers[id], TimedOut);
        SetPubEvolves(s, id, Record(s.publishers[id], TimedOut));
      case Evict(id) =>
        var h := s.handles[Current(s, id)];
        BothEvolve(s, Current(s, id), if h.queue == [] then h else h.(queue := h.queue[1..]), id,
                   s.publishers[id].(pc := Reputting));
      case Reput(id) =>
        PutEvolves(s, id);
        RecordGrows(s.publishers[id], Lost);
        SetPubEvolves(s, id, Record(s.publishers[id], Lost));
      case ForceRemove(id) =>
        var p := s.publishers[id];
        var x := SlowOf(p)[p.pc.next];
        BothEvolve(s, x, s.handles[x].(alive := false), id, SettleRemoving(p, p.pc.next + 1));
      case _ =>
    }
  }

  lemma ExplainedLater(s: State, t: State, x: nat, e: Event)
    requires Evolves(s, t) && Explained(s, x, e)
    ensures Explained(t, x, e)
  {
    if LiveServed(s.publishers[e.id], x) {
      var i :| 0 <= i < |s.publishers[e.id].outcomes| && i < |s.publishers[e.id].snapshot|
        && s.publishers[e.id].snapshot[i] == x && s.publishers[e.id].outcomes[i] == Enqueued;
      assert t.publishers[e.id].outcomes[i] == Enqueued;
    }
  }

  /** A handle the step left as it was stays in order. */
  lemma HandleLater(s: State, t: State, x: nat)
    requires Evolves(s, t) && x in s.handles && HandleOk(s, x)
    requires t.handles[x].history == s.handles[x].history && QueueOk(t.handles[x])
    ensures HandleOk(t, x)
  {
    forall e | e in t.handles[x].history ensures Explained(t, x, e) {
      ExplainedLater(s, t, x, e);
    }
  }

  /** A publish call the step left as it was stays in order. */
  lemma PublisherLater(s: State, t: State, id: nat)
    requires Evolves(s, t) && id in s.publishers && PublisherOk(s, id)
    requires t.publishers[id] == s.publishers[id]
    ensures PublisherOk(t, id)
  {
    var p := s.publishers[id];
    forall i | 0 <= i < |p.outcomes| ensures OutcomeOk(t, p, i) {
      assert OutcomeOk(s, p, i);
    }
  }

  lemma RegistryStep(s: State, a: Action)
    requires RegistryOk(s) && Enabled(s, a)
    ensures RegistryOk(Step(s, a))
  {
    match a {
      case ForceRemove(id) =>
        RemoveFirstDistinct(s.registered, SlowOf(s.publishers[id])[s.publishers[id].pc.next]);
      case Unsubscribe(sub) => RemoveFirstDistinct(s.registered, sub);
      case _ =>
    }
  }

  ghost predicate KindsDistinct(slots: seq<Slot>) {
    forall i, j :: 0 <= i < j < |slots| ==> slots[i].event.kind != slots[j].event.kind
  }

  lemma KindsCons(x: Slot, rest: seq<Slot>)
    requires KindsDistinct(rest) && forall y :: y in rest ==> y.event.kind != x.event.kind
    ensures KindsDistinct([x] + rest)
  {
  }

  lemma {:induction false} SetSlotDistinct(slots: seq<Slot>, event: Event, now: real)
    requires KindsDistinct(slots)
    ensures KindsDistinct(SetSlot(slots, event, now))
  {
    if slots != [] {
      assert KindsDistinct(slots[1..]);
      if slots[0].event.kind == event.kind {
        KindsCons(Slot(event, now), slots[1..]);
      } else {
        SetSlotDistinct(slots[1..], event, now);
        KindsCons(slots[0], SetSlot(slots[1..], event, now));
      }
    }
  }

  /** The slots after a publish: every other kind keeps its slot and its place, the kind's own slot
      is overwritten where it stands, or comes last if there was none. */
  ghost predicate SlotWritten(before: seq<Slot>, event: Event, now: real, after: seq<Slot>) {
    && |before| <= |after| <= |before| + 1
    && (forall i :: 0 <= i < |before| ==>
          after[i] == if before[i].event.kind == event.kind then Slot(event, now) else before[i])
    && (|after| == |before| <==> exists i :: 0 <= i < |before| && before[i].event.kind == event.kind)
    && (|after| > |before| ==> after[|before|] == Slot(event, now))
  }

  lemma {:induction false} SetSlotWrites(slots: seq<Slot>, event: Event, now: real)
    requires KindsDistinct(slots)
    ensures SlotWritten(slots, event, now, SetSlot(slots, event, now))
  {
    if slots != [] {
      var rest, after := slots[1..], SetSlot(slots, event, now);
      assert KindsDistinct(rest);
      if slots[0].event.kind == event.kind {
        assert forall i :: 0 < i < |slots| ==> after[i] == slots[i];
      } else {
        SetSlotWrites(rest, event, now);
        assert after[1..] == SetSlot(rest, event, now);
        assert forall i :: 0 < i < |slots| ==> after[i] == after[1..][i - 1] && slots[i] == rest[i - 1];
        if i :| 0 <= i < |slots| && slots[i].event.kind == event.kind { assert rest[i - 1] == slots[i]; }
      }
    }
  }

  /** Membership read off that: the new slot, and the slots of other kinds. */
  lemma WrittenMembers(before: seq<Slot>, event: Event, now: real, after: seq<Slot>)
    requires SlotWritten(before, event, now, after)
    ensures forall x :: x in after <==> x == Slot(event, now) || (x in before && x.event.kind != event.kind)
  {
    forall x ensures x in after <==> x == Slot(event, now) || (x in before && x.event.kind != event.kind) {
      if x in after {
        var i :| 0 <= i < |after| && after[i] == x;
        if i < |before| && before[i].event.kind != event.kind { assert x == before[i]; }
      }
      if x in before && x.event.kind != event.kind {
        var i :| 0 <= i < |before| && before[i] == x;
        assert after[i] == x;
      }
      if i :| 0 <= i < |before| && before[i].event.kind == event.kind {
        assert after[i] == Slot(event, now);
      }
    }
  }

  lemma {:induction false} FilterKinds(p: Slot -> bool, slots: seq<Slot>)
    requires KindsDistinct(slots)
    ensures KindsDistinct(Filter(p, slots))
  {
    if slots != [] {
      assert KindsDistinct(slots[1..]);
      FilterKinds(p, slots[1..]);
      KindsCons(slots[0], Filter(p, slots[1..]));
      assert [] + Filter(p, slots[1..]) == Filter(p, slots[1..]);
    }
  }

  lemma WriteSlotOk(s: State, id: nat, now: real)
    requires SlotsOk(s) && Enabled(s, WriteSlot(id, now)) && PublisherOk(s, id)
    ensures SlotsOk(Step(s, WriteSlot(id, now)))
  {
    hide KindsDistinct, OutcomeOk, Distinct;
    SetSlotDistinct(s.lastNormal, s.publishers[id].event, now);
  }

  lemma SlotsStep(s: State, a: Action)
    requires SlotsOk(s) && Enabled(s, a) && (a.WriteSlot? ==> PublisherOk(s, a.id))
    ensures SlotsOk(Step(s, a))
  {
    hide KindsDistinct, PublisherOk;
    StepEvolves(s, a);
    match a {
      case WriteSlot(id, now) => WriteSlotOk(s, id, now);
      case Subscribe(_, now) => FilterKinds((x: Slot) => now - x.at < REPLAY_TTL, s.lastNormal);
      case EvictReplay(kind) => FilterKinds((x: Slot) => x.event.kind != kind, s.lastNormal);
      case _ =>
    }
  }

  /** A publication that is about to be put into x's queue has never been there. */
  lemma NotYetServed(s: State, id: nat)
    requires Inv(s) && AtHandle(s, id)
    ensures forall e :: e in s.handles[Current(s, id)].history ==> e.id != id
  {
    var x := Current(s, id);
    assert PublisherOk(s, id) && HandleOk(s, x);
    forall e | e in s.handles[x].history ensures e.id != id {
      assert Explained(s, x, e);
    }
  }

  lemma AppendOnce(history: seq<Event>, e: Event)
    requires OncePerPublication(history) && forall f :: f in history ==> f.id != e.id
    ensures OncePerPublication(history + [e])
  {
  }

  lemma PutHandle(s: State, id: nat)
    requires Inv(s) && AtHandle(s, id) && !Full(s.handles[Current(s, id)].queue)
    ensures var x := Current(s, id);
      HandleOk(SetPub(SetHandle(s, x, Enqueue(s.handles[x], s.publishers[id].event)), id, Record(s.publishers[id], Enqueued)), x)
  {
    var x := Current(s, id);
    var p := s.publishers[id];
    var h := s.handles[x];
    var t := SetPub(SetHandle(s, x, Enqueue(h, p.event)), id, Record(p, Enqueued));
    PutEvolves(s, id);
    assert PublisherOk(s, id) && HandleOk(s, x);
    NotYetServed(s, id);
    AppendOnce(h.history, p.event);
    forall e | e in t.handles[x].history ensures Explained(t, x, e) {
      if e == p.event {
        assert t.publishers[id].outcomes[|p.outcomes|] == Enqueued;
        assert LiveServed(t.publishers[id], x);
      } else {
        assert e in h.history;
        ExplainedLater(s, t, x, e);
      }
    }
  }

  lemma {:induction false} ReplayOnce(slots: seq<Slot>, now: real)
    requires KindsDistinct(slots)
    requires forall x, y :: x in slots && y in slots && x.event.id == y.event.id ==> x.event == y.event
    ensures OncePerPublication(Replay(slots, now))
  {
    FilterKinds((x: Slot) => now - x.at < REPLAY_TTL, slots);
    var recent := Fresh(slots, now);
    var r := Replay(slots, now);
    forall i, j | 0 <= i < j < |r| ensures r[i].id != r[j].id {
      assert r[i] == recent[i].event && r[j] == recent[j].event;
      assert recent[i] in slots && recent[j] in slots;
    }
  }

  lemma SubscribedHandle(s: State, x: nat, now: real)
    requires Inv(s) && Enabled(s, Subscribe(x, now))
    ensures HandleOk(Step(s, Subscribe(x, now)), x)
  {
    var t := Step(s, Subscribe(x, now));
    ReplayOnce(s.lastNormal, now);
    forall e | e in t.handles[x].history ensures Explained(t, x, e) {
      var slot :| slot in s.lastNormal && slot.event == e;
      assert PublisherOk(s, e.id);
    }
  }

  ghost predicate PutsInto(s: State, a: Action, x: nat) {
    && (a.Put? || a.Reput?)
    && AtHandle(s, a.id) && Current(s, a.id) == x && !Full(s.handles[x].queue)
  }

  /** A step leaves a handle's history alone unless it is the put into that handle. */
  lemma HandleShape(s: State, a: Action, x: nat)
    requires Enabled(s, a) && x in s.handles && !PutsInto(s, a, x)
    ensures x in Step(s, a).handles
    ensures var h := s.handles[x]; var g := Step(s, a).handles[x];
      g.history == h.history && (g.queue == h.queue || (h.queue != [] && g.queue == h.queue[1..]))
  {
  }

  lemma NewHandle(s: State, a: Action, x: nat)
    requires Enabled(s, a) && x in Step(s, a).handles && x !in s.handles
    ensures a.Subscribe? && a.sub == x
  {
  }

  lemma PutShape(s: State, a: Action, x: nat)
    requires Enabled(s, a) && PutsInto(s, a, x)
    ensures Step(s, a) == SetPub(SetHandle(s, x, Enqueue(s.handles[x], s.publishers[a.id].event)), a.id,
                                 Record(s.publishers[a.id], Enqueued))
  {
  }

  lemma HandleKept(s: State, a: Action, x: nat)
    requires Enabled(s, a) && x in s.handles && !PutsInto(s, a, x) && HandleOk(s, x)
    ensures x in Step(s, a).handles
    ensures Step(s, a).handles[x].history == s.handles[x].history && QueueOk(Step(s, a).handles[x])
  {
    hide Step, Enabled, PutsInto;
    HandleShape(s, a, x);
  }

  lemma HandlesStep(s: State, a: Action, x: nat)
    requires Inv(s) && Enabled(s, a) && x in Step(s, a).handles
    ensures HandleOk(Step(s, a), x)
  {
    hide Step, Evolves, HandleOk, PublisherOk, Enabled;
    if x !in s.handles {
      NewHandle(s, a, x);
      SubscribedHandle(s, x, a.now);
    } else if PutsInto(s, a, x) {
      PutShape(s, a, x);
      PutHandle(s, a.id);
    } else {
      assert HandleOk(s, x);
      StepEvolves(s, a);
      HandleKept(s, a, x);
      HandleLater(s, Step(s, a), x);
    }
  }

  lemma RecordOk(s: State, t: State, id: nat, o: Outcome)
    requires Evolves(s, t) && id in s.publishers && PublisherOk(s, id) && AtHandle(s, id)
    requires t.publishers[id] == Record(s.publishers[id], o)
    requires match o
      case Enqueued => s.publishers[id].event in t.handles[Current(s, id)].history
      case FoundDead => !t.handles[Current(s, id)].alive
      case Lost => s.publishers[id].event.priority == Normal
      case TimedOut => s.publishers[id].event.priority == Critical
    ensures PublisherOk(t, id)
  {
    var p := s.publishers[id];
    var q := t.publishers[id];
    forall i | 0 <= i < |q.outcomes| ensures OutcomeOk(t, q, i) {
      if i < |p.outcomes| {
        assert OutcomeOk(s, p, i);
      }
    }
  }

  /** The outcomes recorded so far stay right. */
  lemma OutcomesLater(s: State, t: State, id: nat)
    requires Evolves(s, t) && id in s.publishers && PublisherOk(s, id)
    requires var p, q := s.publishers[id], t.publishers[id];
      q.outcomes == p.outcomes && q.snapshot == p.snapshot && q.event == p.event
    ensures var q := t.publishers[id]; forall i :: 0 <= i < |q.outcomes| ==> OutcomeOk(t, q, i)
  {
    var p, q := s.publishers[id], t.publishers[id];
    forall i | 0 <= i < |q.outcomes| ensures OutcomeOk(t, q, i) {
      assert OutcomeOk(s, p, i);
    }
  }

  /** The cases of a step for the publish call it advances. */
  lemma AdvancedOk(s: State, a: Action)
    requires Enabled(s, a) && (a.ReadAlive? || a.Put? || a.TimeOut? || a.Evict? || a.Reput?)
    requires PublisherOk(s, a.id)
    ensures PublisherOk(Step(s, a), a.id)
  {
    hide Evolves, OutcomeOk;
    var t := Step(s, a);
    var p := s.publishers[a.id];
    var x := Current(s, a.id);
    StepEvolves(s, a);
    if t.publishers[a.id].outcomes == p.outcomes {
      OutcomesLater(s, t, a.id);
    } else {
      RecordOk(s, t, a.id, if a.ReadAlive? then FoundDead else if a.TimeOut? then TimedOut
                           else if Full(s.handles[x].queue) then Lost else Enqueued);
    }
  }

  lemma ForceRemoveOk(s: State, id: nat)
    requires Enabled(s, ForceRemove(id)) && PublisherOk(s, id)
    ensures PublisherOk(Step(s, ForceRemove(id)), id)
  {
    var t := Step(s, ForceRemove(id));
    var p := s.publishers[id];
    StepEvolves(s, ForceRemove(id));
    forall i | 0 <= i < |p.outcomes| ensures OutcomeOk(t, t.publishers[id], i) {
      assert OutcomeOk(s, p, i);
    }
    forall i | 0 <= i < p.pc.next + 1 ensures SlowOf(p)[i] in t.handles && !t.handles[SlowOf(p)[i]].alive {
    }
  }

  lemma PublisherShape(s: State, a: Action, id: nat)
    requires Enabled(s, a) && id in Step(s, a).publishers
    ensures (a.Begin? && id == a.event.id)
      || (a.WriteSlot? && a.id == id)
      || (id in s.publishers && Step(s, a).publishers[id] == s.publishers[id])
      || (a.ForceRemove? && a.id == id)
      || ((a.ReadAlive? || a.Put? || a.TimeOut? || a.Evict? || a.Reput?) && a.id == id)
  {
  }

  lemma PublishersStep(s: State, a: Action, id: nat)
    requires Inv(s) && Enabled(s, a) && id in Step(s, a).publishers
    ensures PublisherOk(Step(s, a), id)
  {
    PublisherShape(s, a, id);
    if id in s.publishers {
      assert PublisherOk(s, id);
      if Step(s, a).publishers[id] == s.publishers[id] {
        StepEvolves(s, a);
        PublisherLater(s, Step(s, a), id);
      } else if a.ForceRemove? {
        ForceRemoveOk(s, id);
      } else if !a.WriteSlot? {
        AdvancedOk(s, a);
      }
    }
  }

  lemma InvStep(s: State, a: Action)
    requires Inv(s) && Enabled(s, a)
    ensures Inv(Step(s, a))
  {
    RegistryStep(s, a);
    if a.WriteSlot? { assert PublisherOk(s, a.id); }
    SlotsStep(s, a);
    forall x | x in Step(s, a).handles ensures HandleOk(Step(s, a), x) { HandlesStep(s, a, x); }
    forall id | id in Step(s, a).publishers ensures PublisherOk(Step(s, a), id) { PublishersStep(s, a, id); }
  }

  // ---------------------------------------------------------------------
  // Whole runs
  // ---------------------------------------------------------------------

  /** An interleaving: any enabled step of any publisher, subscriber or reader at each point. */
  ghost predicate Run(tr: seq<State>, acts: seq<Action>) {
    && |tr| == |acts| + 1
    && tr[0] == Init
    && (forall i {:trigger Steps(tr, acts, i)} :: 0 <= i < |acts| ==> Steps(tr, acts, i))
  }

  ghost predicate Steps(tr: seq<State>, acts: seq<Action>, i: nat)
    requires i < |acts| && |tr| == |acts| + 1
  {
    Enabled(tr[i], acts[i]) && tr[i + 1] == Step(tr[i], acts[i])
  }

  lemma {:induction false} RunInv(tr: seq<State>, acts: seq<Action>, k: nat)
    requires Run(tr, acts) && k < |tr|
    ensures Inv(tr[k])
  {
    if k > 0 {
      RunInv(tr, acts, k - 1);
      assert Steps(tr, acts, k - 1);
      InvStep(tr[k - 1], acts[k - 1]);
    }
  }

  lemma {:induction false} RunEvolves(tr: seq<State>, acts: seq<Action>, i: nat, j: nat)
    requires Run(tr, acts) && i <= j < |tr|
    ensures Evolves(tr[i], tr[j])
    decreases j
  {
    if i < j {
      RunEvolves(tr, acts, i, j - 1);
      assert Steps(tr, acts, j - 1);
      StepEvolves(tr[j - 1], acts[j - 1]);
      EvolvesTrans(tr[i], tr[j - 1], tr[j]);
    }
  }

  /** No subscriber's queue ever receives the same publication twice, live path and replay together. */
  lemma DeliveredAtMostOnce(tr: seq<State>, acts: seq<Action>, k: nat, x: nat)
    requires Run(tr, acts) && k < |tr| && x in tr[k].handles
    ensures OncePerPublication(tr[k].handles[x].history)
  {
    RunInv(tr, acts, k);
    assert HandleOk(tr[k], x);
  }

  /** The queue never exceeds its capacity and is always the tail of what was put into it:
      entries leave only from the front, none is reordered. */
  lemma QueueIsSuffix(tr: seq<State>, acts: seq<Action>, k: nat, x: nat)
    requires Run(tr, acts) && k < |tr| && x in tr[k].handles
    ensures var h := tr[k].handles[x];
      |h.queue| <= 100 && exists gone :: gone + h.queue == h.history
  {
    RunInv(tr, acts, k);
    var h := tr[k].handles[x];
    assert HandleOk(tr[k], x);
    assert h.history[..|h.history| - |h.queue|] + h.queue == h.history;
  }

  /** A handle is alive exactly while it is registered, and death is final. */
  lemma AliveIffRegistered(tr: seq<State>, acts: seq<Action>, i: nat, j: nat, x: nat)
    requires Run(tr, acts) && i <= j < |tr| && x in tr[i].handles
    ensures x in tr[j].handles
    ensures tr[j].handles[x].alive <==> x in tr[j].registered
    ensures !tr[i].handles[x].alive ==> !tr[j].handles[x].alive && x !in tr[j].registered
  {
    RunInv(tr, acts, j);
    RunEvolves(tr, acts, i, j);
  }

  /** The live path alone serves whoever was registered when the snapshot was taken. */
  lemma SnapshotServedLive(tr: seq<State>, acts: seq<Action>, i: nat, k: nat, x: nat, e: Event)
    requires Run(tr, acts) && i < k < |tr| && acts[i] == Begin(e) && x in tr[i].registered
    ensures x in tr[k].handles && e.id in tr[k].publishers
    ensures e in tr[k].handles[x].history <==> LiveServed(tr[k].publishers[e.id], x)
  {
    RunInv(tr, acts, i);
    RunInv(tr, acts, k);
    SnapshotTaken(tr, acts, i, k, e);
    RunEvolves(tr, acts, i, k);
    assert PublisherOk(tr[k], e.id) && HandleOk(tr[k], x);
    var p := tr[k].publishers[e.id];
    if e in tr[k].handles[x].history {
      assert Explained(tr[k], x, e);
    }
    if LiveServed(p, x) {
      var n :| 0 <= n < |p.outcomes| && n < |p.snapshot| && p.snapshot[n] == x && p.outcomes[n] == Enqueued;
      assert OutcomeOk(tr[k], p, n);
    }
  }

  /** No step can hand a publication to an existing handle outside its snapshot. */
  lemma OutsiderUntouched(s: State, a: Action, x: nat, id: nat)
    requires Inv(s) && Enabled(s, a) && x in s.handles && id in s.publishers
    requires x !in s.publishers[id].snapshot
    requires s.publishers[id].event !in s.handles[x].history
    ensures s.publishers[id].event !in Step(s, a).handles[x].history
  {
    if PutsInto(s, a, x) {
      PutShape(s, a, x);
      assert PublisherOk(s, id) && PublisherOk(s, a.id);
    } else {
      HandleShape(s, a, x);
    }
  }

  lemma {:induction false} OutsiderNever(tr: seq<State>, acts: seq<Action>, i: nat, k: nat, x: nat, id: nat)
    requires Run(tr, acts) && i <= k < |tr| && x in tr[i].handles && id in tr[i].publishers
    requires x !in tr[i].publishers[id].snapshot
    requires tr[i].publishers[id].event !in tr[i].handles[x].history
    ensures x in tr[k].handles && tr[i].publishers[id].event !in tr[k].handles[x].history
    decreases k
  {
    if i < k {
      OutsiderNever(tr, acts, i, k - 1, x, id);
      RunEvolves(tr, acts, i, k - 1);
      RunInv(tr, acts, k - 1);
      assert Steps(tr, acts, k - 1);
      OutsiderUntouched(tr[k - 1], acts[k - 1], x, id);
    }
  }

  /** The event is among the first hundred slots that are not expired at `now`. */
  ghost predicate Replayed(slots: seq<Slot>, now: real, e: Event) {
    exists n :: 0 <= n < CAPACITY && n < |Fresh(slots, now)| && Fresh(slots, now)[n].event == e
  }

  lemma ReplayHolds(slots: seq<Slot>, now: real, e: Event)
    ensures e in Replay(slots, now) <==> Replayed(slots, now, e)
  {
    var recent, queue := Fresh(slots, now), Replay(slots, now);
    if Replayed(slots, now, e) {
      var n :| 0 <= n < CAPACITY && n < |recent| && recent[n].event == e;
      assert queue[n] == e;
    }
    if e in queue {
      var n :| 0 <= n < |queue| && queue[n] == e;
      assert recent[n].event == e;
    }
  }

  /** Whoever subscribes after the snapshot gets the event exactly if its own replay holds it: the
      slot is written by then, still this event's, not expired, and among the first hundred. In
      the gap between snapshot and slot write neither path serves it. */
  lemma LateSubscriberServedByReplay(tr: seq<State>, acts: seq<Action>, i: nat, j: nat, k: nat, x: nat, now: real, e: Event)
    requires Run(tr, acts) && i < j < k < |tr|
    requires acts[i] == Begin(e) && acts[j] == Subscribe(x, now)
    ensures x in tr[j + 1].handles && x in tr[k].handles && e.id in tr[j].publishers
    ensures e in tr[k].handles[x].history <==> Replayed(tr[j].lastNormal, now, e)
    ensures tr[j].publishers[e.id].pc == WritingSlot ==> e !in tr[k].handles[x].history
  {
    SnapshotTaken(tr, acts, i, j, e);
    RunInv(tr, acts, j);
    assert PublisherOk(tr[j], e.id);
    assert Steps(tr, acts, j);
    SubscribeShape(tr[j], x, now, e);
    ReplayHolds(tr[j].lastNormal, now, e);
    RunInv(tr, acts, j + 1);
    RunEvolves(tr, acts, j + 1, k);
    if e !in tr[j + 1].handles[x].history {
      OutsiderNever(tr, acts, j + 1, k, x, e.id);
    }
  }

  lemma SnapshotTaken(tr: seq<State>, acts: seq<Action>, i: nat, j: nat, e: Event)
    requires Run(tr, acts) && i < j < |tr| && acts[i] == Begin(e)
    ensures e.id in tr[j].publishers && tr[j].publishers[e.id].event == e
    ensures tr[j].publishers[e.id].snapshot == tr[i].registered
  {
    assert Steps(tr, acts, i);
    assert e.id in tr[i + 1].publishers;
    RunEvolves(tr, acts, i + 1, j);
  }

  /** What subscribing does for a publication whose snapshot is already taken. */
  lemma SubscribeShape(s: State, x: nat, now: real, e: Event)
    requires Enabled(s, Subscribe(x, now)) && SlotsOk(s)
    requires e.id in s.publishers && s.publishers[e.id].event == e && PublisherOk(s, e.id)
    ensures var t := Step(s, Subscribe(x, now));
      && t.publishers == s.publishers && x in t.handles && x !in s.publishers[e.id].snapshot
      && t.handles[x].history == t.handles[x].queue == Replay(s.lastNormal, now)
      && (e in t.handles[x].queue ==>
            s.publishers[e.id].pc != WritingSlot && exists slot :: slot in s.lastNormal && slot.event == e)
  {
  }

  /** The step takes away the slot that an event of this kind got at time t: a later normal event
      of the kind, an eviction of the kind, or a subscriber thirty seconds later or more. */
  ghost predicate SlotEnds(s: State, a: Action, kind: string, t: real) {
    match a
    case WriteSlot(id, _) =>
      id in s.publishers && s.publishers[id].event.priority == Normal && s.publishers[id].event.kind == kind
    case EvictReplay(k) => k == kind
    case Subscribe(_, now) => now - t >= 30.0
    case _ => false
  }

  /** The slot of e, once e's own call has written it, is there after a step exactly if it was there
      and the step does not take it away. */
  lemma SlotStays(s: State, a: Action, e: Event, t: real)
    requires SlotsOk(s) && Enabled(s, a) && (a.WriteSlot? ==> PublisherOk(s, a.id))
    requires e.id in s.publishers && s.publishers[e.id].event == e && s.publishers[e.id].pc != WritingSlot
    ensures Slot(e, t) in Step(s, a).lastNormal <==> Slot(e, t) in s.lastNormal && !SlotEnds(s, a, e.kind, t)
  {
    hide KindsDistinct, OutcomeOk, Distinct, SlotWritten;
    match a {
      case WriteSlot(id, now) =>
        var f := s.publishers[id].event;
        assert id != e.id && f.id == id;
        SetSlotWrites(s.lastNormal, f, now);
        WrittenMembers(s.lastNormal, f, now, SetSlot(s.lastNormal, f, now));
      case _ =>
    }
  }

  /** How long an event is replayed. Over every run, the slot a normal publish wrote at time t is
      still there if and only if no later normal event of its kind, no eviction of its kind, and no
      subscriber at t + 30 seconds or later came between. Events of other kinds leave it alone. */
  lemma {:induction false} SlotKeptIff(tr: seq<State>, acts: seq<Action>, i: nat, k: nat, e: Event, t: real)
    requires Run(tr, acts) && i < k < |tr| && acts[i] == WriteSlot(e.id, t) && e.priority == Normal
    requires e.id in tr[i].publishers && tr[i].publishers[e.id].event == e
    ensures e.id in tr[k].publishers && tr[k].publishers[e.id].event == e && tr[k].publishers[e.id].pc != WritingSlot
    ensures Slot(e, t) in tr[k].lastNormal <==> forall m :: i < m < k ==> !SlotEnds(tr[m], acts[m], e.kind, t)
    decreases k
  {
    hide Step, Enabled, SlotEnds, PublisherOk;
    RunInv(tr, acts, k - 1);
    assert Steps(tr, acts, k - 1);
    if k == i + 1 {
      SlotWrittenNow(tr[i], e, t);
    } else {
      SlotKeptIff(tr, acts, i, k - 1, e, t);
      if acts[k - 1].WriteSlot? { WriterKnown(tr[k - 1], acts[k - 1]); }
      SlotStays(tr[k - 1], acts[k - 1], e, t);
      StepEvolves(tr[k - 1], acts[k - 1]);
    }
  }

  lemma WriterKnown(s: State, a: Action)
    requires Inv(s) && Enabled(s, a) && a.WriteSlot?
    ensures PublisherOk(s, a.id)
  {
  }

  lemma SlotWrittenNow(s: State, e: Event, t: real)
    requires Enabled(s, WriteSlot(e.id, t)) && s.publishers[e.id].event == e && e.priority == Normal
    ensures var after := Step(s, WriteSlot(e.id, t));
      && Slot(e, t) in after.lastNormal && e.id in after.publishers && after.publishers[e.id].event == e
      && after.publishers[e.id].pc != WritingSlot
  {
  }

  /** The gap is real: a subscriber that registers between snapshot and slot write gets nothing. */
  lemma GapSubscriberGetsNeither(e: Event)
    requires e.priority == Normal
    ensures exists tr: seq<State> :: Run(tr, [Begin(e), Subscribe(0, 0.0), WriteSlot(e.id, 0.0)])
              && e.id in tr[3].publishers && tr[3].publishers[e.id].pc == Returned
              && 0 in tr[3].handles && tr[3].handles[0].alive && tr[3].handles[0].history == []
  {
    var acts := [Begin(e), Subscribe(0, 0.0), WriteSlot(e.id, 0.0)];
    var s1 := Step(Init, acts[0]);
    var s2 := Step(s1, acts[1]);
    var s3 := Step(s2, acts[2]);
    var tr := [Init, s1, s2, s3];
    assert s1.lastNormal == [] && Fresh(s1.lastNormal, 0.0) == [];
    assert Steps(tr, acts, 0) && Steps(tr, acts, 1) && Steps(tr, acts, 2);
    assert Run(tr, acts);
  }

  /** When a critical publish returns, each snapshot subscriber either got the event or is dead
      and unregistered; nobody is left behind alive. */
  lemma CriticalReturn(tr: seq<State>, acts: seq<Action>, k: nat, id: nat, x: nat)
    requires Run(tr, acts) && k < |tr| && id in tr[k].publishers
    requires tr[k].publishers[id].pc == Returned && tr[k].publishers[id].event.priority == Critical
    requires x in tr[k].publishers[id].snapshot
    ensures x in tr[k].handles
    ensures tr[k].publishers[id].event in tr[k].handles[x].history
         || (!tr[k].handles[x].alive && x !in tr[k].registered)
  {
    RunInv(tr, acts, k);
    var p := tr[k].publishers[id];
    assert PublisherOk(tr[k], id);
    var i :| 0 <= i < |p.snapshot| && p.snapshot[i] == x;
    assert OutcomeOk(tr[k], p, i);
  }

  // --- a lost event was displaced ------------------------------------------

  /** Between steps m and r of the run another publisher put into the queue of x. */
  ghost predicate Displaced(tr: seq<State>, acts: seq<Action>, m: nat, r: nat, x: nat, id: nat)
    requires r <= |acts| && |tr| == |acts| + 1
  {
    exists n :: m < n < r && PutsInto(tr[n], acts[n], x) && acts[n].id != id
  }

  /** The call `id` evicted at step m and found x full again at step r. */
  ghost predicate RacedAt(tr: seq<State>, acts: seq<Action>, m: nat, r: nat, x: nat, id: nat) {
    && m < r < |acts| && |tr| == |acts| + 1
    && acts[m] == Evict(id) && acts[r] == Reput(id)
    && AtHandle(tr[r], id) && Current(tr[r], id) == x && Full(tr[r].handles[x].queue)
    && (forall n {:trigger tr[n]} :: m < n <= r ==> id in tr[n].publishers && tr[n].publishers[id] == tr[r].publishers[id])
    && AtHandle(tr[m], id) && Current(tr[m], id) == x
  }

  lemma {:induction false} EvictedBefore(tr: seq<State>, acts: seq<Action>, r: nat, id: nat) returns (m: nat)
    requires Run(tr, acts) && r < |tr| && InPc(tr[r], id, Reputting)
    ensures m < r && acts[m] == Evict(id) && AtHandle(tr[m], id)
    ensures forall n {:trigger tr[n]} :: m < n <= r ==> id in tr[n].publishers && tr[n].publishers[id] == tr[r].publishers[id]
    ensures tr[m].publishers[id].outcomes == tr[r].publishers[id].outcomes
    ensures tr[m].publishers[id].snapshot == tr[r].publishers[id].snapshot
  {
    assert r > 0;
    assert Steps(tr, acts, r - 1);
    PublisherShape(tr[r - 1], acts[r - 1], id);
    if id in tr[r - 1].publishers && tr[r].publishers[id] == tr[r - 1].publishers[id] {
      m := EvictedBefore(tr, acts, r - 1, id);
    } else {
      RunInv(tr, acts, r - 1);
      m := r - 1;
      OnlyEvictLeads(tr[m], acts[m], id);
    }
  }

  lemma OnlyEvictLeads(s: State, a: Action, id: nat)
    requires Enabled(s, a) && InPc(Step(s, a), id, Reputting)
    requires !(id in s.publishers && Step(s, a).publishers[id] == s.publishers[id])
    ensures a == Evict(id) && AtHandle(s, id)
    ensures var p, q := s.publishers[id], Step(s, a).publishers[id]; q.outcomes == p.outcomes && q.snapshot == p.snapshot
  {
  }

  lemma {:induction false} GrownByPut(tr: seq<State>, acts: seq<Action>, m: nat, r: nat, x: nat)
    requires Run(tr, acts) && m <= r < |tr| && x in tr[m].handles
    ensures x in tr[r].handles
    ensures |tr[r].handles[x].queue| > |tr[m].handles[x].queue| ==> exists n :: m <= n < r && PutsInto(tr[n], acts[n], x)
    decreases r
  {
    if m < r {
      GrownByPut(tr, acts, m, r - 1, x);
      assert Steps(tr, acts, r - 1);
      RunEvolves(tr, acts, r - 1, r);
      if !PutsInto(tr[r - 1], acts[r - 1], x) { HandleShape(tr[r - 1], acts[r - 1], x); }
    }
  }

  lemma EvictMakesRoom(s: State, id: nat, x: nat)
    requires Inv(s) && Enabled(s, Evict(id)) && Current(s, id) == x
    ensures x in Step(s, Evict(id)).handles && !Full(Step(s, Evict(id)).handles[x].queue)
  {
    assert HandleOk(s, x);
  }

  /** A put by the call itself would have moved it on. */
  lemma PutMovesOn(s: State, a: Action, x: nat)
    requires Enabled(s, a) && PutsInto(s, a, x)
    ensures a.id in Step(s, a).publishers && Step(s, a).publishers[a.id] != s.publishers[a.id]
  {
    PutShape(s, a, x);
    assert |Step(s, a).publishers[a.id].outcomes| == |s.publishers[a.id].outcomes| + 1;
  }

  lemma RaceDisplaces(tr: seq<State>, acts: seq<Action>, m: nat, r: nat, x: nat, id: nat)
    requires Run(tr, acts) && RacedAt(tr, acts, m, r, x, id)
    ensures Displaced(tr, acts, m, r, x, id)
  {
    assert Steps(tr, acts, m);
    RunInv(tr, acts, m);
    EvictMakesRoom(tr[m], id, x);
    GrownByPut(tr, acts, m + 1, r, x);
    var n :| m + 1 <= n < r && PutsInto(tr[n], acts[n], x);
    assert Steps(tr, acts, n);
    assert tr[n + 1].publishers[id] == tr[n].publishers[id];
    PutMovesOn(tr[n], acts[n], x);
  }

  /** Which step recorded a loss. */
  lemma RecordsLoss(s: State, a: Action, id: nat, i: nat)
    requires Enabled(s, a) && id in Step(s, a).publishers && i < |Step(s, a).publishers[id].outcomes|
    requires Step(s, a).publishers[id].outcomes[i] == Lost
    requires !(id in s.publishers && i < |s.publishers[id].outcomes| && s.publishers[id].outcomes[i] == Lost
               && s.publishers[id].snapshot == Step(s, a).publishers[id].snapshot)
    ensures a == Reput(id) && AtHandle(s, id) && Full(s.handles[Current(s, id)].queue)
    ensures Step(s, a).publishers[id].snapshot == s.publishers[id].snapshot
    ensures i == |s.publishers[id].outcomes|
  {
    PublisherShape(s, a, id);
  }

  /** Whenever a publish call lost its event at a subscriber, some other publisher put into that
      queue between the call's eviction and its second put. */
  lemma {:induction false} LostWasDisplaced(tr: seq<State>, acts: seq<Action>, k: nat, id: nat, i: nat) returns (m: nat, r: nat)
    requires Run(tr, acts) && k < |tr| && id in tr[k].publishers
    requires i < |tr[k].publishers[id].outcomes| && i < |tr[k].publishers[id].snapshot|
    requires tr[k].publishers[id].outcomes[i] == Lost
    ensures m < r < k && RacedAt(tr, acts, m, r, tr[k].publishers[id].snapshot[i], id)
    ensures Displaced(tr, acts, m, r, tr[k].publishers[id].snapshot[i], id)
  {
    assert k > 0;
    assert Steps(tr, acts, k - 1);
    var s := tr[k - 1];
    if id in s.publishers && i < |s.publishers[id].outcomes| && s.publishers[id].outcomes[i] == Lost
       && s.publishers[id].snapshot == tr[k].publishers[id].snapshot {
      m, r := LostWasDisplaced(tr, acts, k - 1, id, i);
    } else {
      RecordsLoss(s, acts[k - 1], id, i);
      r := k - 1;
      m := EvictedBefore(tr, acts, r, id);
      RaceDisplaces(tr, acts, m, r, tr[k].publishers[id].snapshot[i], id);
    }
  }

  /** A normal publish fails an alive subscriber only by losing the freed place to another
      publisher, which put into that queue between the eviction and the second put. */
  lemma NormalReturn(tr: seq<State>, acts: seq<Action>, k: nat, id: nat, i: nat)
    requires Run(tr, acts) && k < |tr| && id in tr[k].publishers
    requires tr[k].publishers[id].pc == Returned && tr[k].publishers[id].event.priority == Normal
    requires i < |tr[k].publishers[id].snapshot|
    ensures var p := tr[k].publishers[id]; var x := p.snapshot[i];
      && |p.outcomes| == |p.snapshot| && x in tr[k].handles
      && (p.event in tr[k].handles[x].history || !tr[k].handles[x].alive
          || exists m: nat, r: nat :: r < k && RacedAt(tr, acts, m, r, x, id) && Displaced(tr, acts, m, r, x, id))
  {
    RunInv(tr, acts, k);
    assert PublisherOk(tr[k], id);
    assert OutcomeOk(tr[k], tr[k].publishers[id], i);
    if tr[k].publishers[id].outcomes[i] == Lost {
      var m, r := LostWasDisplaced(tr, acts, k, id, i);
    }
  }

  /** At most one publish call is between its snapshot and its return. */
  ghost predicate Serial(s: State) {
    forall i, j | i in s.publishers && j in s.publishers && s.publishers[i].pc != Returned && s.publishers[j].pc != Returned
      :: i == j
  }

  ghost predicate NothingLost(s: State) {
    forall id :: id in s.publishers ==> KeepsRoom(s, id)
  }

  ghost predicate KeepsRoom(s: State, id: nat)
    requires id in s.publishers
  {
    && Lost !in s.publishers[id].outcomes
    && (s.publishers[id].pc == Reputting && AtHandle(s, id) ==> !Full(s.handles[Current(s, id)].queue))
  }

  /** A waiting publish call keeps its room: only a put could take it, and no other call is in flight. */
  lemma WaitingKeepsRoom(s: State, a: Action, id: nat)
    requires id in s.publishers && PublisherOk(s, id) && Serial(s) && KeepsRoom(s, id) && Enabled(s, a)
    requires Step(s, a).publishers[id] == s.publishers[id]
    ensures KeepsRoom(Step(s, a), id)
  {
    if s.publishers[id].pc == Reputting && !PutsInto(s, a, Current(s, id)) {
      HandleShape(s, a, Current(s, id));
    }
  }

  lemma EvictLeavesRoom(s: State, id: nat)
    requires id in s.publishers && PublisherOk(s, id) && KeepsRoom(s, id) && Enabled(s, Evict(id))
    requires QueueOk(s.handles[Current(s, id)])
    ensures KeepsRoom(Step(s, Evict(id)), id)
  {
  }

  lemma PutKeepsRoom(s: State, id: nat)
    requires id in s.publishers && PublisherOk(s, id) && KeepsRoom(s, id) && Enabled(s, Put(id))
    ensures KeepsRoom(Step(s, Put(id)), id)
  {
  }

  lemma ReputKeepsRoom(s: State, id: nat)
    requires id in s.publishers && PublisherOk(s, id) && KeepsRoom(s, id) && Enabled(s, Reput(id))
    ensures KeepsRoom(Step(s, Reput(id)), id)
  {
  }

  lemma NoPutKeepsRoom(s: State, a: Action, id: nat)
    requires id in s.publishers && PublisherOk(s, id) && KeepsRoom(s, id) && Enabled(s, a)
    requires (a.ReadAlive? || a.TimeOut? || a.ForceRemove?) && a.id == id
    ensures KeepsRoom(Step(s, a), id)
  {
  }

  /** The call that moves loses nothing, and leaves room behind it when it evicts. */
  lemma MovingKeepsRoom(s: State, a: Action, id: nat)
    requires id in s.publishers && PublisherOk(s, id) && KeepsRoom(s, id) && Enabled(s, a)
    requires (a.ReadAlive? || a.Put? || a.TimeOut? || a.Evict? || a.Reput? || a.ForceRemove?) && a.id == id
    requires AtHandle(s, id) ==> QueueOk(s.handles[Current(s, id)])
    ensures KeepsRoom(Step(s, a), id)
  {
    hide Step, KeepsRoom, PublisherOk, QueueOk;
    match a
    case Evict(_) => EvictLeavesRoom(s, id);
    case Put(_) => PutKeepsRoom(s, id);
    case Reput(_) => ReputKeepsRoom(s, id);
    case _ => NoPutKeepsRoom(s, a, id);
  }

  lemma NothingLostStep(s: State, a: Action)
    requires Inv(s) && Serial(s) && NothingLost(s) && Enabled(s, a)
    ensures NothingLost(Step(s, a))
  {
    var t := Step(s, a);
    forall id | id in t.publishers ensures KeepsRoom(t, id) {
      PublisherShape(s, a, id);
      if id in s.publishers {
        assert PublisherOk(s, id) && KeepsRoom(s, id);
        if t.publishers[id] == s.publishers[id] {
          WaitingKeepsRoom(s, a, id);
        } else if !a.WriteSlot? {
          if AtHandle(s, id) { assert HandleOk(s, Current(s, id)); }
          MovingKeepsRoom(s, a, id);
        }
      }
    }
  }

  /** Without a second publisher in flight, drop-oldest always makes room: a normal publish
      loses its event to no overflow. */
  lemma {:induction false} SerialPublishersLoseNothing(tr: seq<State>, acts: seq<Action>, k: nat)
    requires Run(tr, acts) && k < |tr|
    requires forall i :: 0 <= i < |tr| ==> Serial(tr[i])
    ensures NothingLost(tr[k])
  {
    if k > 0 {
      SerialPublishersLoseNothing(tr, acts, k - 1);
      RunInv(tr, acts, k - 1);
      assert Steps(tr, acts, k - 1);
      NothingLostStep(tr[k - 1], acts[k - 1]);
    }
  }
}

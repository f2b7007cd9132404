/** The bus object itself, updated in place; each method is one call with nobody interfering.
    EventBus has the interleaved behaviour of the same operations. */
module ThreadEventBus {
  import opened Prelude
  import opened EventBus

  /** What a normal put does to a queue: a full queue gives up its oldest entry. */
  function DropOldest(q: seq<Event>, e: Event): seq<Event> {
    if Full(q) then q[1..] + [e] else q + [e]
  }

  lemma ReplayExtends(slots: seq<Slot>, x: Slot, now: real)
    ensures now - x.at < REPLAY_TTL ==> Fresh(slots + [x], now) == Fresh(slots, now) + [x]
    ensures now - x.at >= REPLAY_TTL ==> Fresh(slots + [x], now) == Fresh(slots, now)
    ensures Replay(slots + [x], now) == Replay(slots, now)
              + if now - x.at < REPLAY_TTL && |Replay(slots, now)| < CAPACITY then [x.event] else []
  {
    var recent := (x: Slot) => now - x.at < REPLAY_TTL;
    FilterConcat(recent, slots, [x]);
    assert Fresh([x], now) == if now - x.at < REPLAY_TTL then [x] else [];
  }

  class Subscription {
    var alive: bool
    var q: seq<Event>

    constructor ()
      ensures alive && q == []
    {
      alive, q := true, [];
    }
  }

  class Bus {
    var subscribers: seq<Subscription>
    var lastNormal: seq<Slot>
    var lastCritical: map<string, Event>

    ghost predicate Valid()
      reads this, subscribers
    {
      && Distinct(subscribers) && KindsDistinct(lastNormal)
      && forall s :: s in subscribers ==> s.alive && |s.q| <= CAPACITY
    }

    constructor ()
      ensures Valid() && subscribers == [] && lastNormal == [] && lastCritical == map[]
    {
      subscribers, lastNormal, lastCritical := [], [], map[];
    }

    method Subscribe(now: real) returns (sub: Subscription)
      requires Valid()
      modifies this
      ensures Valid() && fresh(sub)
      ensures subscribers == old(subscribers) + [sub]
      ensures sub.alive && sub.q == Replay(old(lastNormal), now)
      ensures lastNormal == Fresh(old(lastNormal), now) && lastCritical == old(lastCritical)
      ensures forall x :: x in lastNormal <==> x in old(lastNormal) && now - x.at < 30.0
      ensures |sub.q| == (if |lastNormal| <= 100 then |lastNormal| else 100)
      ensures forall i :: 0 <= i < |sub.q| ==> sub.q[i] == lastNormal[i].event
    {
      sub := new Subscription();
      subscribers := subscribers + [sub];
      var slots := lastNormal;
      var kept: seq<Slot> := [];
      for i := 0 to |slots|
        invariant kept == Fresh(slots[..i], now)
        invariant sub.q == Replay(slots[..i], now) && sub.alive
        invariant subscribers == old(subscribers) + [sub] && lastCritical == old(lastCritical)
      {
        assert slots[..i + 1] == slots[..i] + [slots[i]];
        ReplayExtends(slots[..i], slots[i], now);
        if now - slots[i].at < REPLAY_TTL {
          kept := kept + [slots[i]];
          if |sub.q| < CAPACITY {
            sub.q := sub.q + [slots[i].event];
          }
        }
      }
      assert slots[..|slots|] == slots;
      FilterKinds((x: Slot) => now - x.at < REPLAY_TTL, slots);
      lastNormal := kept;
    }

    method PublishNormal(event: Event, now: real)
      requires Valid() && event.priority == Normal
      modifies this, subscribers
      ensures Valid() && subscribers == old(subscribers)
      ensures SlotWritten(old(lastNormal), event, now, lastNormal) && lastCritical == old(lastCritical)
      ensures forall s :: s in subscribers ==> s.q == DropOldest(old(s.q), event)
      ensures forall s :: s in subscribers ==> s.q == (if |old(s.q)| < 100 then old(s.q) else old(s.q)[1..]) + [event]
    {
      var snapshot := subscribers;
      SetSlotWrites(lastNormal, event, now);
      SetSlotDistinct(lastNormal, event, now);
      lastNormal := SetSlot(lastNormal, event, now);
      for i := 0 to |snapshot|
        invariant subscribers == snapshot && lastCritical == old(lastCritical)
        invariant lastNormal == SetSlot(old(lastNormal), event, now)
        invariant forall j :: 0 <= j < |snapshot| ==> snapshot[j].alive
        invariant forall j :: 0 <= j < i ==> snapshot[j].q == DropOldest(old(snapshot[j].q), event)
        invariant forall j :: i <= j < |snapshot| ==> snapshot[j].q == old(snapshot[j].q)
      {
        var sub := snapshot[i];
        if sub.alive {
          if Full(sub.q) {
            sub.q := sub.q[1..];
          }
          sub.q := sub.q + [event];
        }
      }
    }

    method PublishCritical(event: Event)
      requires Valid() && event.priority == Critical
      modifies this, subscribers
      ensures Valid() && lastNormal == old(lastNormal)
      ensures lastCritical == old(lastCritical)[event.kind := event]
      ensures forall s :: s in subscribers <==> s in old(subscribers) && !Full(old(s.q))
      ensures forall s :: s in subscribers ==> s.q == old(s.q) + [event]
      ensures forall s :: s in old(subscribers) && Full(old(s.q)) ==> !s.alive && s.q == old(s.q)
    {
      lastCritical := lastCritical[event.kind := event];
      var slow := OfferCritical(event);
      var snapshot := subscribers;
      label offered:
      for i := 0 to |slow|
        invariant lastNormal == old(lastNormal) && lastCritical == old(lastCritical)[event.kind := event]
        invariant Distinct(subscribers)
        invariant forall s :: s in subscribers <==> s in snapshot && s !in slow[..i]
        invariant forall s :: s in snapshot ==> s.q == old@offered(s.q)
        invariant forall s :: s in snapshot ==> (s.alive <==> s !in slow[..i])
      {
        assert slow[i] in slow;
        ForceRemove(slow[i]);
      }
      assert slow[..|slow|] == slow;
    }

    /** The put with a timeout at every subscriber of the snapshot; returns those it timed out on. */
    method OfferCritical(event: Event) returns (slow: seq<Subscription>)
      requires Valid()
      modifies subscribers`q
      ensures forall s :: s in slow <==> s in subscribers && Full(old(s.q))
      ensures forall s :: s in subscribers ==> s.q == if Full(old(s.q)) then old(s.q) else old(s.q) + [event]
    {
      slow := [];
      for i := 0 to |subscribers|
        invariant forall s :: s in slow <==> s in subscribers[..i] && Full(old(s.q))
        invariant forall j :: 0 <= j < i ==>
                    subscribers[j].q == if Full(old(subscribers[j].q)) then old(subscribers[j].q) else old(subscribers[j].q) + [event]
        invariant forall j :: i <= j < |subscribers| ==> subscribers[j].q == old(subscribers[j].q)
      {
        var sub := subscribers[i];
        if sub.alive {
          if Full(sub.q) {
            slow := slow + [sub];
          } else {
            sub.q := sub.q + [event];
          }
        }
      }
      assert subscribers[..|subscribers|] == subscribers;
    }

    /** Also `_remove_subscriber`: dead and off the list, and a no-op the second time. */
    method ForceRemove(sub: Subscription)
      requires Distinct(subscribers)
      modifies this`subscribers, sub`alive
      ensures !sub.alive && subscribers == RemoveFirst(old(subscribers), sub)
      ensures Distinct(subscribers)
      ensures forall s :: s in subscribers <==> s in old(subscribers) && s != sub
    {
      sub.alive := false;
      RemoveFirstDistinct(subscribers, sub);
      subscribers := RemoveFirst(subscribers, sub);
    }

    method EvictNormalReplay(kind: string)
      modifies this`lastNormal
      ensures old(Valid()) ==> Valid()
      ensures lastNormal == DropKind(old(lastNormal), kind)
      ensures forall x :: x in lastNormal <==> x in old(lastNormal) && x.event.kind != kind
    {
      if KindsDistinct(lastNormal) { FilterKinds((x: Slot) => x.event.kind != kind, lastNormal); }
      lastNormal := DropKind(lastNormal, kind);
    }
  }

  /** Uninterrupted, the machine's steps for one subscriber add up to DropOldest. */
  lemma MachineDeliversLikeBus(s: State, id: nat)
    requires Inv(s) && InPc(s, id, ReadingAlive) && AtHandle(s, id)
    requires s.publishers[id].event.priority == Normal && s.handles[Current(s, id)].alive
    ensures var x := Current(s, id);
      var a := Step(s, ReadAlive(id));
      && Enabled(a, Put(id))
      && var b := Step(a, Put(id));
         if !Full(s.handles[x].queue) then b.handles[x].queue == DropOldest(s.handles[x].queue, s.publishers[id].event)
         else
           && Enabled(b, Evict(id))
           && var c := Step(b, Evict(id));
              && Enabled(c, Reput(id))
              && Step(c, Reput(id)).handles[x].queue == DropOldest(s.handles[x].queue, s.publishers[id].event)
  {
    assert PublisherOk(s, id) && HandleOk(s, Current(s, id));
  }
}

/** What overflow costs: which unread events leave a queue, and that a critical one can. */
module BusOverflow {
  import opened Prelude
  import opened EventBus

  // ---------------------------------------------------------------------
  // How an event leaves a queue
  // ---------------------------------------------------------------------

  /** The step takes the oldest entry of x's queue away unread: a publish call evicts there. */
  ghost predicate Evicts(s: State, a: Action, x: nat) {
    a.Evict? && AtHandle(s, a.id) && Current(s, a.id) == x
  }

  /** The step takes e out of x's queue: e is the oldest entry, and a reader consumes it or a
      publish call evicts it. */
  ghost predicate Takes(s: State, a: Action, x: nat, e: Event) {
    && x in s.handles && s.handles[x].queue != [] && s.handles[x].queue[0] == e
    && (a == Consume(x) || Evicts(s, a, x))
  }

  lemma QueueAfter(s: State, a: Action, x: nat)
    requires Enabled(s, a) && x in s.handles && !PutsInto(s, a, x)
    ensures var q, t := s.handles[x].queue, Step(s, a);
      && x in t.handles && t.handles[x].history == s.handles[x].history
      && t.handles[x].queue == if q != [] && (a == Consume(x) || Evicts(s, a, x)) then q[1..] else q
  {
  }

  /** The tail of a queue does not hold its head again. */
  lemma HeadOnce(h: Handle)
    requires QueueOk(h) && OncePerPublication(h.history) && h.queue != []
    ensures h.queue[0] !in h.queue[1..]
  {
    var gone := |h.history| - |h.queue|;
    forall i | 1 <= i < |h.queue| ensures h.queue[i] != h.queue[0] {
      assert h.queue[i] == h.history[gone + i] && h.queue[0] == h.history[gone];
    }
  }

  /** An event that was put is in the queue after a step exactly if it was there and the step does
      not take it: nothing comes back, nothing else gets lost. */
  lemma KeptUnlessTaken(s: State, a: Action, x: nat, e: Event)
    requires Inv(s) && Enabled(s, a) && x in s.handles && e in s.handles[x].history
    ensures x in Step(s, a).handles && e in Step(s, a).handles[x].history
    ensures e in Step(s, a).handles[x].queue <==> e in s.handles[x].queue && !Takes(s, a, x, e)
  {
    hide Step, Enabled, QueueOk, OncePerPublication, AtHandle;
    var q := s.handles[x].queue;
    assert HandleOk(s, x);
    if PutsInto(s, a, x) {
      PutShape(s, a, x);
      NotYetServed(s, a.id);
      PutsOther(s, a, x, e);
    } else {
      QueueAfter(s, a, x);
      if q != [] {
        HeadOnce(s.handles[x]);
        assert q == [q[0]] + q[1..];
      }
    }
  }

  lemma PutsOther(s: State, a: Action, x: nat, e: Event)
    requires Enabled(s, a) && PutsInto(s, a, x) && Inv(s) && e in s.handles[x].history
    requires forall f :: f in s.handles[x].history ==> f.id != a.id
    ensures s.publishers[a.id].event != e
    ensures var g := Step(s, a).handles[x]; g == Enqueue(s.handles[x], s.publishers[a.id].event)
  {
    hide HandleOk, SlotsOk, RegistryOk;
    PutShape(s, a, x);
    assert PublisherOk(s, a.id);
  }

  /** Over every run: an event put into a queue is still in it if and only if no step since took it
      from the front. */
  lemma {:induction false} InQueueIff(tr: seq<State>, acts: seq<Action>, j: nat, k: nat, x: nat, e: Event)
    requires Run(tr, acts) && j <= k < |tr| && x in tr[j].handles && e in tr[j].handles[x].queue
    ensures x in tr[k].handles && e in tr[k].handles[x].history
    ensures e in tr[k].handles[x].queue <==> forall m :: j <= m < k ==> !Takes(tr[m], acts[m], x, e)
    decreases k
  {
    RunInv(tr, acts, if j < k then k - 1 else k);
    if j == k {
      assert HandleOk(tr[k], x);
      InHistory(tr[k].handles[x], e);
    } else {
      InQueueIff(tr, acts, j, k - 1, x, e);
      assert Steps(tr, acts, k - 1);
      KeptUnlessTaken(tr[k - 1], acts[k - 1], x, e);
    }
  }

  lemma InHistory(h: Handle, e: Event)
    requires QueueOk(h) && e in h.queue
    ensures e in h.history
  {
    var i :| 0 <= i < |h.queue| && h.queue[i] == e;
    assert h.history[|h.history| - |h.queue| + i] == e;
  }

  /** An event that left a queue unread was evicted by a normal publish call while it was the
      oldest entry; a critical publish call costs nobody an event. */
  lemma LostToNormalOnly(tr: seq<State>, acts: seq<Action>, j: nat, k: nat, x: nat, e: Event) returns (m: nat)
    requires Run(tr, acts) && j <= k < |tr| && x in tr[j].handles && e in tr[j].handles[x].queue
    requires x in tr[k].handles ==> e !in tr[k].handles[x].queue
    requires forall n :: j <= n < k && acts[n] == Consume(x) ==> !Takes(tr[n], acts[n], x, e)
    ensures j <= m < k && Takes(tr[m], acts[m], x, e) && Evicts(tr[m], acts[m], x)
    ensures tr[m].publishers[acts[m].id].event.priority == Normal
  {
    InQueueIff(tr, acts, j, k, x, e);
    m :| j <= m < k && Takes(tr[m], acts[m], x, e);
    RunInv(tr, acts, m);
    assert Steps(tr, acts, m);
    assert PublisherOk(tr[m], acts[m].id);
  }

  // ---------------------------------------------------------------------
  // A critical event really can be the one
  // ---------------------------------------------------------------------

  ghost predicate Reachable(s: State) {
    exists tr, acts :: Run(tr, acts) && tr[|tr| - 1] == s
  }

  lemma ReachNext(s: State, a: Action)
    requires Reachable(s) && Enabled(s, a)
    ensures Reachable(Step(s, a))
  {
    hide Step, Enabled;
    var tr, acts :| Run(tr, acts) && tr[|tr| - 1] == s;
    var tr', acts' := tr + [Step(s, a)], acts + [a];
    forall i | 0 <= i < |acts'| ensures Steps(tr', acts', i) {
      if i < |acts| {
        assert Steps(tr, acts, i);
        assert tr'[i] == tr[i] && tr'[i + 1] == tr[i + 1] && acts'[i] == acts[i];
      } else {
        assert tr'[i] == tr[i] == s && tr'[i + 1] == Step(s, a);
      }
    }
    assert Run(tr', acts') && tr'[|tr'| - 1] == Step(s, a);
  }

  /** One subscriber, alive, with n entries it has not read, the oldest of them e; no publication
      from n on has begun. */
  ghost predicate Waiting(s: State, e: Event, n: nat) {
    && s.registered == [0] && 0 in s.handles && s.handles[0].alive
    && |s.handles[0].queue| == n && (n > 0 ==> s.handles[0].queue[0] == e)
    && (forall id :: id in s.publishers ==> id < n)
  }

  /** A publication up to its put at the one subscriber. */
  lemma Begun(s: State, e: Event, f: Event, n: nat) returns (t: State)
    requires Reachable(s) && Waiting(s, e, n) && f.id == n
    ensures Reachable(t) && t.handles == s.handles && t.registered == s.registered
    ensures t.publishers == s.publishers[n := Publisher(f, [0], Putting, [])]
  {
    hide Reachable, SetSlot, Replay;
    ReachNext(s, Begin(f));
    var s1 := Step(s, Begin(f));
    ReachNext(s1, WriteSlot(n, 0.0));
    var s2 := Step(s1, WriteSlot(n, 0.0));
    ReachNext(s2, ReadAlive(n));
    t := Step(s2, ReadAlive(n));
  }

  /** One more event for the subscriber that does not read. */
  lemma Filled(s: State, e: Event, f: Event, n: nat) returns (t: State)
    requires Reachable(s) && Waiting(s, e, n) && n < CAPACITY && f.id == n && (n == 0 ==> f == e)
    ensures Reachable(t) && Waiting(t, e, n + 1)
  {
    hide Reachable;
    var u := Begun(s, e, f, n);
    ReachNext(u, Put(n));
    t := Step(u, Put(n));
  }

  lemma {:induction false} FilledUp(e: Event, n: nat) returns (s: State)
    requires e.id == 0 && n <= CAPACITY
    ensures Reachable(s) && Waiting(s, e, n)
  {
    if n == 0 {
      assert Run([Init], []);
      assert [Init][|[Init]| - 1] == Init;
      ReachNext(Init, Subscribe(0, 0.0));
      s := Step(Init, Subscribe(0, 0.0));
    } else {
      var before := FilledUp(e, n - 1);
      s := Filled(before, e, if n == 1 then e else Event(n - 1, "lot.new", Normal), n - 1);
    }
  }

  /** A critical event followed by a hundred normal ones, at a subscriber that reads nothing for a
      while: a reachable state and step in which the critical event is evicted. */
  lemma CriticalEvicted(e: Event) returns (s: State, id: nat)
    requires e.id == 0 && e.priority == Critical
    ensures Reachable(s) && Enabled(s, Evict(id)) && s.publishers[id].event.priority == Normal
    ensures 0 in s.handles && s.handles[0].alive && e in s.handles[0].queue && Takes(s, Evict(id), 0, e)
    ensures e !in Step(s, Evict(id)).handles[0].queue
  {
    var f := Event(CAPACITY, "lot.new", Normal);
    var full := FilledUp(e, CAPACITY);
    var u := Begun(full, e, f, CAPACITY);
    ReachNext(u, Put(CAPACITY));
    s, id := Step(u, Put(CAPACITY)), CAPACITY;
    ReachInv(s);
    assert HandleOk(s, 0);
    KeptUnlessTaken(s, Evict(id), 0, e);
  }

  lemma ReachInv(s: State)
    requires Reachable(s)
    ensures Inv(s)
  {
    var tr, acts :| Run(tr, acts) && tr[|tr| - 1] == s;
    RunInv(tr, acts, |tr| - 1);
  }
}

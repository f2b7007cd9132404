/** Delivery under interleaving and crashes: any number of consumers run `_send_one` against the
    same table, one repository or send call per step, and the process may die between any two. */
module DeliveryRuns {
  import opened Prelude
  import opened Notifications

  /** Where one consumer stands inside `_send_one`. */
  datatype Consumer =
    | Idle
    | CheckingSuppressed(key: Key)
    | Failing(key: Key)
    | CheckingStatus(key: Key, left: nat)
    | Reserving(key: Key, left: nat)
    | Attempting(key: Key, left: nat)
    | Sending(key: Key, attempt: nat, left: nat)
    | MarkingSent(key: Key)

  /** What happened outside the table: a send with its attempt number, or a crash that struck
      between a good send and its `mark_sent`. */
  datatype Item = SendMade(key: Key, attempt: nat, ok: bool) | AckLost(key: Key)

  datatype State = State(rows: Table, consumers: seq<Consumer>, log: seq<Item>)

  datatype Action =
    | VisitKey(who: nat, key: Key, suppressed: bool, retries: nat)
    | CheckSuppressed(who: nat)
    | Fail(who: nat)
    | CheckStatus(who: nat)
    | Reserve(who: nat)
    | Attempt(who: nat)
    | Send(who: nat, ok: bool, retryable: bool, stopped: bool)
    | MarkSent(who: nat)
    | Crash

  /** A fresh database and n consumer threads. */
  ghost predicate Init(s: State) {
    && s.rows == map[] && s.log == []
    && forall w :: 0 <= w < |s.consumers| ==> s.consumers[w] == Idle
  }

  function Move(s: State, who: nat, c: Consumer): State
    requires who < |s.consumers|
  {
    s.(consumers := s.consumers[who := c])
  }

  predicate Enabled(s: State, a: Action) {
    a.Crash? || (
      && a.who < |s.consumers|
      && var c := s.consumers[a.who];
         match a
         case VisitKey(_, _, _, _) => c == Idle
         case CheckSuppressed(_) => c.CheckingSuppressed?
         case Fail(_) => c.Failing?
         case CheckStatus(_) => c.CheckingStatus?
         case Reserve(_) => c.Reserving?
         case Attempt(_) => c.Attempting?
         case Send(_, _, _, _) => c.Sending?
         case MarkSent(_) => c.MarkingSent?
         case Crash => true)
  }

  /** The keys whose acknowledgement a crash loses. */
  function LostAcks(consumers: seq<Consumer>): seq<Item> {
    if consumers == [] then []
    else (if consumers[0].MarkingSent? then [AckLost(consumers[0].key)] else []) + LostAcks(consumers[1..])
  }

  function Step(s: State, a: Action): State
    requires Enabled(s, a)
  {
    match a
    case VisitKey(who, k, suppressed, retries) =>
      Move(s, who, if suppressed then CheckingSuppressed(k) else CheckingStatus(k, retries))
    case CheckSuppressed(who) =>
      var k := s.consumers[who].key;
      Move(s, who, if IsPending(s.rows, k) then Failing(k) else Idle)
    case Fail(who) =>
      Move(s, who, Idle).(rows := Closed(s.rows, s.consumers[who].key, PermanentFail))
    case CheckStatus(who) =>
      var c := s.consumers[who];
      Move(s, who, if c.key !in s.rows then Reserving(c.key, c.left)
                   else if s.rows[c.key].status != Pending then Idle
                   else Attempting(c.key, c.left))
    case Reserve(who) =>
      var c := s.consumers[who];
      Move(s, who, Attempting(c.key, c.left)).(rows := Reserved(s.rows, c.key))
    case Attempt(who) =>
      var c := s.consumers[who];
      if c.left == 0 || !IsPending(s.rows, c.key) then Move(s, who, Idle)
      else
        var n := s.rows[c.key].attempts + 1;
        Move(s, who, if n > MAX_TOTAL_ATTEMPTS then Failing(c.key) else Sending(c.key, n, c.left - 1))
        .(rows := Attempted(s.rows, c.key))
    case Send(who, ok, retryable, stopped) =>
      var c := s.consumers[who];
      Move(s, who, if ok then MarkingSent(c.key)
                   else if !retryable then Failing(c.key)
                   else if stopped then Idle
                   else Attempting(c.key, c.left))
      .(log := s.log + [SendMade(c.key, c.attempt, ok)])
    case MarkSent(who) =>
      Move(s, who, Idle).(rows := Closed(s.rows, s.consumers[who].key, Sent))
    case Crash =>
      State(s.rows, seq(|s.consumers|, _ => Idle), s.log + LostAcks(s.consumers))
  }

  ghost predicate Run(tr: seq<State>, acts: seq<Action>) {
    && |tr| == |acts| + 1
    && Init(tr[0])
    && forall i {:trigger Steps(tr, acts, i)} :: 0 <= i < |acts| ==> Steps(tr, acts, i)
  }

  ghost predicate Steps(tr: seq<State>, acts: seq<Action>, i: nat)
    requires i < |acts| && |tr| == |acts| + 1
  {
    Enabled(tr[i], acts[i]) && tr[i + 1] == Step(tr[i], acts[i])
  }

  // ---------------------------------------------------------------------
  // The cap holds for every interleaving
  // ---------------------------------------------------------------------

  ghost predicate Ticket(s: State, k: Key, attempt: nat) {
    k in s.rows && 1 <= attempt <= s.rows[k].attempts && attempt <= MAX_TOTAL_ATTEMPTS
  }

  /** Was attempt number `attempt` of key k already spent on a send? */
  ghost predicate Spent(log: seq<Item>, k: Key, attempt: nat) {
    exists ok :: SendMade(k, attempt, ok) in log
  }

  ghost predicate TicketsSpentOnce(log: seq<Item>) {
    forall i, j | 0 <= i < j < |log| && log[i].SendMade? && log[j].SendMade? && log[i].key == log[j].key
      :: log[i].attempt != log[j].attempt
  }

  /** Attempt numbers are tickets: each is handed out once, spent at most once, and is never above
      the cap or the stored counter. */
  ghost predicate TicketsOk(s: State) {
    && (forall e :: e in s.log && e.SendMade? ==> Ticket(s, e.key, e.attempt))
    && TicketsSpentOnce(s.log)
    && (forall w :: 0 <= w < |s.consumers| && s.consumers[w].Sending? ==> Holds(s, s.consumers[w]))
    && (forall v, w | 0 <= v < w < |s.consumers| && s.consumers[v].Sending? && s.consumers[w].Sending?
          && s.consumers[v].key == s.consumers[w].key :: s.consumers[v].attempt != s.consumers[w].attempt)
  }

  ghost predicate Holds(s: State, c: Consumer)
    requires c.Sending?
  {
    Ticket(s, c.key, c.attempt) && !Spent(s.log, c.key, c.attempt)
  }

  lemma {:induction false} LostAcksAreAcks(consumers: seq<Consumer>)
    ensures forall e :: e in LostAcks(consumers) ==> e.AckLost?
  {
    if consumers != [] {
      LostAcksAreAcks(consumers[1..]);
    }
  }

  lemma RowsAdvance(s: State, a: Action)
    requires Enabled(s, a)
    ensures Advances(s.rows, Step(s, a).rows)
  {
  }

  lemma SendStep(s: State, a: Action)
    requires TicketsOk(s) && Enabled(s, a) && a.Send?
    ensures TicketsOk(Step(s, a))
  {
    var t := Step(s, a);
    var c := s.consumers[a.who];
    assert Holds(s, c);
    forall e | e in s.log && e.SendMade? && e.key == c.key ensures e.attempt != c.attempt {
      assert e == SendMade(e.key, e.attempt, e.ok);
    }
    forall w | 0 <= w < |t.consumers| && t.consumers[w].Sending? ensures Holds(t, t.consumers[w]) {
      assert w != a.who && Holds(s, s.consumers[w]);
    }
  }

  lemma AttemptStep(s: State, a: Action)
    requires TicketsOk(s) && Enabled(s, a) && a.Attempt?
    ensures TicketsOk(Step(s, a))
  {
    var t := Step(s, a);
    var c := s.consumers[a.who];
    RowsAdvance(s, a);
    forall w | 0 <= w < |t.consumers| && t.consumers[w].Sending? ensures Holds(t, t.consumers[w]) {
      if w != a.who {
        assert Holds(s, s.consumers[w]);
      }
    }
    forall w | 0 <= w < |t.consumers| && w != a.who && t.consumers[w].Sending? && t.consumers[w].key == c.key
      ensures t.consumers[a.who].Sending? ==> t.consumers[w].attempt < t.consumers[a.who].attempt
    {
      assert Holds(s, s.consumers[w]);
    }
  }

  /** Steps that neither spend nor claim a ticket. */
  lemma OtherStep(s: State, a: Action)
    requires TicketsOk(s) && Enabled(s, a) && !a.Attempt? && !a.Send?
    ensures TicketsOk(Step(s, a))
  {
    var t := Step(s, a);
    RowsAdvance(s, a);
    LostAcksAreAcks(s.consumers);
    forall i | |s.log| <= i < |t.log| ensures t.log[i].AckLost? {
      assert t.log[i] in LostAcks(s.consumers);
    }
    forall w | 0 <= w < |t.consumers| && t.consumers[w].Sending?
      ensures t.consumers[w] == s.consumers[w] && Holds(t, t.consumers[w])
    {
      assert Holds(s, s.consumers[w]);
    }
  }

  lemma TicketsStep(s: State, a: Action)
    requires TicketsOk(s) && Enabled(s, a)
    ensures TicketsOk(Step(s, a))
  {
    if a.Send? { SendStep(s, a); } else if a.Attempt? { AttemptStep(s, a); } else { OtherStep(s, a); }
  }

  lemma {:induction false} RunTickets(tr: seq<State>, acts: seq<Action>, k: nat)
    requires Run(tr, acts) && k < |tr|
    ensures TicketsOk(tr[k])
  {
    if k > 0 {
      RunTickets(tr, acts, k - 1);
      assert Steps(tr, acts, k - 1);
      TicketsStep(tr[k - 1], acts[k - 1]);
    }
  }

  /** The attempt numbers spent on key k, in order. */
  function Attempts(log: seq<Item>, k: Key): (r: seq<int>)
    ensures forall n :: n in r ==> exists e :: e in log && e.SendMade? && e.key == k && e.attempt == n
  {
    if log == [] then []
    else (if log[0].SendMade? && log[0].key == k then [log[0].attempt] else []) + Attempts(log[1..], k)
  }

  function Sends(log: seq<Item>, k: Key): nat { |Attempts(log, k)| }

  lemma {:induction false} AttemptsDistinct(log: seq<Item>, k: Key)
    requires TicketsSpentOnce(log)
    ensures Distinct(Attempts(log, k))
  {
    if log != [] {
      AttemptsDistinct(log[1..], k);
      var rest := Attempts(log[1..], k);
      assert [] + rest == rest;
      if log[0].SendMade? && log[0].key == k {
        forall n | n in Attempts(log[1..], k) ensures n != log[0].attempt {
          var e :| e in log[1..] && e.SendMade? && e.key == k && e.attempt == n;
          var j :| 0 <= j < |log[1..]| && log[1..][j] == e;
          assert log[j + 1] == e;
        }
        DistinctCons(log[0].attempt as int, rest);
      }
    }
  }

  /** Over every run, with any number of consumers and crashes anywhere: one (lot, channel,
      recipient) is sent at most ten times, and never more often than its stored attempt_no. */
  lemma SendsCapped(tr: seq<State>, acts: seq<Action>, n: nat, k: Key)
    requires Run(tr, acts) && n < |tr|
    ensures Sends(tr[n].log, k) <= 10
    ensures Sends(tr[n].log, k) > 0 ==> k in tr[n].rows
    ensures k in tr[n].rows ==> Sends(tr[n].log, k) <= tr[n].rows[k].attempts
  {
    RunTickets(tr, acts, n);
    AttemptsDistinct(tr[n].log, k);
    var r := Attempts(tr[n].log, k);
    forall x | x in r ensures 1 <= x < 11 && k in tr[n].rows && x <= tr[n].rows[k].attempts {
      var e :| e in tr[n].log && e.SendMade? && e.key == k && e.attempt == x;
    }
    DistinctBounded(r, 1, 11);
    if r != [] {
      assert r[0] in r;
      DistinctBounded(r, 1, tr[n].rows[k].attempts + 1);
    }
  }

  /** Terminal states are absorbing in every interleaving. */
  lemma {:induction false} TerminalForever(tr: seq<State>, acts: seq<Action>, i: nat, j: nat)
    requires Run(tr, acts) && i <= j < |tr|
    ensures Advances(tr[i].rows, tr[j].rows)
    decreases j
  {
    if i < j {
      TerminalForever(tr, acts, i, j - 1);
      assert Steps(tr, acts, j - 1);
      RowsAdvance(tr[j - 1], acts[j - 1]);
    }
  }

  // ---------------------------------------------------------------------
  // One consumer: duplicates come from crashes only
  // ---------------------------------------------------------------------

  function GoodSends(log: seq<Item>, k: Key): nat {
    if log == [] then 0
    else GoodSends(log[..|log| - 1], k) + if log[|log| - 1].SendMade? && log[|log| - 1].key == k && log[|log| - 1].ok then 1 else 0
  }

  function AcksLost(log: seq<Item>, k: Key): nat {
    if log == [] then 0
    else AcksLost(log[..|log| - 1], k) + if log[|log| - 1] == AckLost(k) then 1 else 0
  }

  /** A good send of k that is neither lost nor stored yet is in the consumer's hands. */
  ghost predicate Accounted(s: State, k: Key) {
    && |s.consumers| == 1
    && (s.consumers[0].Failing? && s.consumers[0].key == k ==> !(k in s.rows && s.rows[k].status == Sent))
    && (s.consumers[0].Sending? || s.consumers[0].MarkingSent? ==> IsPending(s.rows, s.consumers[0].key))
    && GoodSends(s.log, k) == AcksLost(s.log, k)
         + (if s.consumers[0] == MarkingSent(k) then 1 else 0)
         + (if k in s.rows && s.rows[k].status == Sent then 1 else 0)
  }

  lemma CountOneMore(log: seq<Item>, e: Item, k: Key)
    ensures GoodSends(log + [e], k) == GoodSends(log, k) + if e.SendMade? && e.key == k && e.ok then 1 else 0
    ensures AcksLost(log + [e], k) == AcksLost(log, k) + if e == AckLost(k) then 1 else 0
  {
    assert (log + [e])[..|log|] == log;
  }

  lemma CrashAccounted(s: State, k: Key)
    requires Accounted(s, k)
    ensures Accounted(Step(s, Crash), k)
  {
    hide GoodSends, AcksLost;
    var c := s.consumers[0];
    assert s.consumers[1..] == [];
    if c.MarkingSent? {
      assert LostAcks(s.consumers) == [AckLost(c.key)];
      CountOneMore(s.log, AckLost(c.key), k);
    } else {
      assert LostAcks(s.consumers) == [];
      assert s.log + [] == s.log;
    }
  }

  lemma SendAccounted(s: State, a: Action, k: Key)
    requires Accounted(s, k) && Enabled(s, a) && a.Send?
    ensures Accounted(Step(s, a), k)
  {
    hide GoodSends, AcksLost;
    var c := s.consumers[a.who];
    CountOneMore(s.log, SendMade(c.key, c.attempt, a.ok), k);
  }

  lemma AccountedStep(s: State, a: Action, k: Key)
    requires Accounted(s, k) && Enabled(s, a)
    ensures Accounted(Step(s, a), k)
  {
    hide GoodSends, AcksLost, LostAcks;
    match a
    case Crash => CrashAccounted(s, k);
    case Send(_, _, _, _) => SendAccounted(s, a, k);
    case _ =>
  }

  /** With the single consumer the code starts, the good sends of a key are exactly the stored
      success (at most one), the one in hand, and one per crash that hit before `mark_sent`. */
  lemma {:induction false} DuplicatesNeedCrashes(tr: seq<State>, acts: seq<Action>, n: nat, k: Key)
    requires Run(tr, acts) && n < |tr| && |tr[0].consumers| == 1
    ensures Accounted(tr[n], k)
    ensures GoodSends(tr[n].log, k) <= 1 + AcksLost(tr[n].log, k)
    ensures tr[n].consumers == [Idle] && GoodSends(tr[n].log, k) > AcksLost(tr[n].log, k) ==>
              k in tr[n].rows && tr[n].rows[k].status == Sent
  {
    if n > 0 {
      DuplicatesNeedCrashes(tr, acts, n - 1, k);
      assert Steps(tr, acts, n - 1);
      AccountedStep(tr[n - 1], acts[n - 1], k);
    }
  }

  // ---------------------------------------------------------------------
  // The machine and the dispatcher's retry loop are the same code
  // ---------------------------------------------------------------------

  /** The steps of one consumer's retry loop when nobody else moves. */
  function Drive(s: State, who: nat, replies: seq<Reply>): State
    requires who < |s.consumers| && s.consumers[who].Attempting? && s.consumers[who].left == |replies|
    decreases |replies|
  {
    var s1 := Step(s, Attempt(who));
    if s1.consumers[who].Failing? then Step(s1, Fail(who))
    else if !s1.consumers[who].Sending? then s1
    else
      var s2 := Step(s1, Send(who, replies[0].ok, replies[0].retryable, replies[0].stopped));
      if s2.consumers[who].MarkingSent? then Step(s2, MarkSent(who))
      else if s2.consumers[who].Failing? then Step(s2, Fail(who))
      else if s2.consumers[who] == Idle then s2
      else Drive(s2, who, replies[1..])
  }

  /** A suppressed visit, driven alone, gives up a pending row, leaves any other, and sends nothing. */
  lemma SuppressedDriven(s: State, who: nat, k: Key, retries: nat)
    requires who < |s.consumers| && s.consumers[who] == Idle
    ensures var s1 := Step(s, VisitKey(who, k, true, retries)); var s2 := Step(s1, CheckSuppressed(who));
      var t := if IsPending(s.rows, k) then Step(s2, Fail(who)) else s2;
      && t.consumers == s.consumers && t.log == s.log
      && RowOf(t.rows, k) == GivenUp(RowOf(s.rows, k)) && (forall j :: j != k ==> RowOf(t.rows, j) == RowOf(s.rows, j))
  {
  }

  /** Driven alone, the machine leaves exactly the row and makes exactly the sends of Retry,
      the specification of `Dispatcher.RetryLoop`. */
  lemma {:induction false} DriveIsRetry(s: State, who: nat, replies: seq<Reply>)
    requires who < |s.consumers| && s.consumers[who].Attempting? && s.consumers[who].left == |replies|
    requires IsPending(s.rows, s.consumers[who].key)
    ensures var k := s.consumers[who].key;
      var t := Drive(s, who, replies);
      var v := Retry(s.rows[k], replies);
      && t.rows == s.rows[k := v.row]
      && t.consumers == s.consumers[who := Idle]
      && |t.log| == |s.log| + v.sends
    decreases |replies|
  {
    if replies != [] && s.rows[s.consumers[who].key].attempts < MAX_TOTAL_ATTEMPTS
       && !replies[0].ok && replies[0].retryable && !replies[0].stopped {
      var s1 := Step(s, Attempt(who));
      var s2 := Step(s1, Send(who, false, true, false));
      DriveIsRetry(s2, who, replies[1..]);
    }
  }
}

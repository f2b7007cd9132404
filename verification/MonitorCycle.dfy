/** One monitor cycle: whichever call fails, what becomes of the cycle row, the events and the
    progress signal. */
module MonitorCycle {
  import opened Prelude

  // ---------------------------------------------------------------------
  // What the calls come to
  // ---------------------------------------------------------------------

  /** The exceptions a call can raise; Unexpected is any outside the domain's four. */
  datatype Fault = Upstream | SessionExpired | ParseBug | VersionMismatch | Validation | Unexpected

  predicate Domain(f: Fault) { f == Upstream || f == SessionExpired || f == ParseBug || f == VersionMismatch }

  /** An upsert, with the dispatch that a new lot leads to. */
  datatype Upsert = Fails(fault: Fault) | New(dispatch: Option<Fault>) | StatusChanged | Unchanged

  /** The outcome of every call one cycle may make; None is success. `started`, `checking` and
      `fallback` tell whether those best-effort publications succeed, `statusFields` whether the
      settings and repository reads behind the last one do. */
  datatype Script = Script(
    started: bool, checking: bool, statusFields: bool, fallback: bool,
    fetch: Option<Fault>, redirect: bool, parse: Option<Fault>, total: Option<int>,
    backfillBound: bool, count: Option<Fault>, trigger: Option<Fault>, triggered: bool,
    rows: seq<Option<Fault>>, enrich: Option<Fault>, upserts: seq<Upsert>)

  datatype Kind = Network | Session | Parse | Internal

  datatype Result = Result(ok: bool, lotsFetched: nat, newLots: nat, error: Option<Kind>)

  datatype Event =
    | Opened
    | Started
    | Status(state: string)
    | StatusEvicted
    | CycleError(kind: Kind)
    | ExpiredEvent
    | Closed(result: Result)
    | Done(result: Result)
    | Dispatched
    | LotStatus

  datatype Outcome = Returned(result: Result) | Raised(fault: Fault)

  // ---------------------------------------------------------------------
  // The calls in order, and which of them decides the cycle
  // ---------------------------------------------------------------------

  /** Where a call stands in the cycle. */
  datatype Place = Get | ListPage | CountActive | MaybeStart | Convert | Enrich | Store | Notify

  datatype Call = Call(place: Place, fault: Option<Fault>)

  /** The exceptions caught around a call; elsewhere there is no handler but run_cycle's own. */
  function Catches(p: Place): set<Fault> {
    match p
    case Get => {Upstream}
    case ListPage => {Upstream, SessionExpired, ParseBug}
    case Convert => {ParseBug, Validation}
    case Enrich => {VersionMismatch}
    case _ => {}
  }

  /** Fails, and the cycle does not go on: a version mismatch is the one failure it shrugs off. */
  predicate Fatal(c: Call) { c.fault.Some? && c != Call(Enrich, Some(VersionMismatch)) }

  /** The list page: the request, then the redirect check and the parser. */
  function PageCalls(s: Script): seq<Call> {
    [Call(Get, s.fetch), Call(ListPage, if s.redirect then Some(SessionExpired) else s.parse)]
  }

  function DeltaCalls(s: Script): seq<Call> {
    if s.total.Some? && s.backfillBound then [Call(CountActive, s.count), Call(MaybeStart, s.trigger)] else []
  }

  function RowCalls(rows: seq<Option<Fault>>): seq<Call> {
    if rows == [] then [] else [Call(Convert, rows[0])] + RowCalls(rows[1..])
  }

  function CallsOfLot(u: Upsert): seq<Call> {
    match u
    case Fails(f) => [Call(Store, Some(f))]
    case New(d) => [Call(Store, None), Call(Notify, d)]
    case _ => [Call(Store, None)]
  }

  function LotCalls(us: seq<Upsert>): seq<Call> {
    if us == [] then [] else CallsOfLot(us[0]) + LotCalls(us[1..])
  }

  function PollCalls(s: Script): seq<Call> { PageCalls(s) + DeltaCalls(s) + RowCalls(s.rows) }

  function WriteCalls(s: Script): seq<Call> { [Call(Enrich, s.enrich)] + LotCalls(s.upserts) }

  /** Every call a cycle makes as long as none stops it, in order. */
  function CallsOf(s: Script): seq<Call> { PollCalls(s) + WriteCalls(s) }

  function FirstFatal(calls: seq<Call>): Option<Call> {
    if calls == [] then None else if Fatal(calls[0]) then Some(calls[0]) else FirstFatal(calls[1..])
  }

  /** The lots handed to the dispatcher before the first fatal call. */
  function Notified(calls: seq<Call>): nat {
    if calls == [] || Fatal(calls[0]) then 0
    else (if calls[0].place == Notify then 1 else 0) + Notified(calls[1..])
  }

  /** A cycle runs through, is closed by one of its handlers, or is left by an exception that
      none of them covers. */
  datatype Verdict = Fine | Handled(kind: Kind) | Escapes(fault: Fault)

  function KindOf(f: Fault): Kind {
    match f
    case Upstream => Network
    case SessionExpired => Session
    case _ => Parse
  }

  function Judge(c: Option<Call>): Verdict {
    if c.None? || c.value.fault.None? then Fine
    else if c.value.fault.value in Catches(c.value.place) then Handled(KindOf(c.value.fault.value))
    else Escapes(c.value.fault.value)
  }

  function VerdictOf(s: Script): Verdict { Judge(FirstFatal(CallsOf(s))) }

  lemma {:induction false} InOrder(a: seq<Call>, b: seq<Call>)
    ensures FirstFatal(a + b) == if FirstFatal(a).Some? then FirstFatal(a) else FirstFatal(b)
    ensures Notified(a + b) == if FirstFatal(a).Some? then Notified(a) else Notified(a) + Notified(b)
  {
    if a == [] {
      assert a + b == b;
    } else {
      InOrder(a[1..], b);
      assert (a + b)[1..] == a[1..] + b;
    }
  }

  lemma OneCall(c: Call)
    ensures FirstFatal([c]) == if Fatal(c) then Some(c) else None
    ensures Notified([c]) == if !Fatal(c) && c.place == Notify then 1 else 0
  {
    assert [c][1..] == [];
  }

  lemma TwoCalls(c: Call, d: Call)
    ensures FirstFatal([c, d]) == if Fatal(c) then Some(c) else if Fatal(d) then Some(d) else None
  {
    OneCall(d);
    assert [c, d][1..] == [d];
  }

  lemma {:induction false} NotifyNone(calls: seq<Call>)
    requires forall c <- calls :: c.place != Notify
    ensures Notified(calls) == 0
  {
    if calls != [] { NotifyNone(calls[1..]); }
  }

  lemma {:induction false} Conversions(rows: seq<Option<Fault>>)
    ensures forall c <- RowCalls(rows) :: c.place == Convert
  {
    if rows != [] { Conversions(rows[1..]); }
  }

  /** Polling decides first, then enriching and writing; only the latter dispatches. */
  lemma PollThenWrite(s: Script)
    ensures var poll, write := FirstFatal(PollCalls(s)), FirstFatal(WriteCalls(s));
      FirstFatal(CallsOf(s)) == if poll.Some? then poll else write
    ensures Notified(CallsOf(s)) == if FirstFatal(PollCalls(s)).Some? then 0 else Notified(WriteCalls(s))
  {
    InOrder(PollCalls(s), WriteCalls(s));
    Conversions(s.rows);
    NotifyNone(PollCalls(s));
  }

  lemma {:induction false} FirstFatalFails(calls: seq<Call>)
    ensures FirstFatal(calls).Some? ==> Fatal(FirstFatal(calls).value)
  {
    if calls != [] { FirstFatalFails(calls[1..]); }
  }

  lemma PollInOrder(s: Script)
    ensures var page, delta := FirstFatal(PageCalls(s)), FirstFatal(DeltaCalls(s));
      FirstFatal(PollCalls(s)) == if page.Some? then page else if delta.Some? then delta else FirstFatal(RowCalls(s.rows))
  {
    InOrder(PageCalls(s) + DeltaCalls(s), RowCalls(s.rows));
    InOrder(PageCalls(s), DeltaCalls(s));
  }

  /** A fatal call is the verdict: nothing fatal is judged fine. */
  lemma FatalJudged(calls: seq<Call>)
    ensures Judge(FirstFatal(calls)) == Fine <==> FirstFatal(calls).None?
  {
    FirstFatalFails(calls);
  }

  // ---------------------------------------------------------------------
  // Traces
  // ---------------------------------------------------------------------

  predicate Ends(e: Event) { e.Opened? || e.Closed? || e.Done? }

  predicate Alarm(e: Event) { e.CycleError? || e.ExpiredEvent? }

  /** Neither opens nor closes the row, nor reports the cycle done. */
  ghost predicate Inner(tr: seq<Event>) {
    forall i :: 0 <= i < |tr| ==> !Ends(tr[i])
  }

  function Alarms(tr: seq<Event>): nat {
    if tr == [] then 0 else Alarms(tr[..|tr| - 1]) + if Alarm(tr[|tr| - 1]) then 1 else 0
  }

  function Dispatches(tr: seq<Event>): nat {
    if tr == [] then 0 else Dispatches(tr[..|tr| - 1]) + if tr[|tr| - 1] == Dispatched then 1 else 0
  }

  lemma NoneYet()
    ensures Alarms([]) == 0 && Dispatches([]) == 0
  {
  }

  lemma Snoc(tr: seq<Event>, e: Event)
    ensures Alarms(tr + [e]) == Alarms(tr) + if Alarm(e) then 1 else 0
    ensures Dispatches(tr + [e]) == Dispatches(tr) + if e == Dispatched then 1 else 0
  {
    assert (tr + [e])[..|tr|] == tr;
  }

  lemma LastOff(a: seq<Event>, b: seq<Event>)
    requires b != []
    ensures var front, last := b[..|b| - 1], b[|b| - 1]; b == front + [last] && a + b == (a + front) + [last]
  {
  }

  lemma {:induction false} Counted(a: seq<Event>, b: seq<Event>)
    ensures Alarms(a + b) == Alarms(a) + Alarms(b)
    ensures Dispatches(a + b) == Dispatches(a) + Dispatches(b)
  {
    hide Alarms, Dispatches;
    if b == [] {
      NoneYet();
      assert a + b == a;
    } else {
      var front, last := b[..|b| - 1], b[|b| - 1];
      Counted(a, front);
      LastOff(a, b);
      Snoc(a + front, last);
      Snoc(front, last);
    }
  }

  /** The closing of a cycle: the row, then cycle.done, then a best-effort status. */
  function Ending(r: Result, statusFields: bool): seq<Event> {
    [Closed(r), Done(r)] + if statusFields then [Status(if r.ok then "active" else "error")] else []
  }

  /** What an open row is left with: a status, best effort, in place of cycle.done. */
  function LastWord(fallback: bool): seq<Event> { if fallback then [Status("error")] else [] }

  function Failure(kind: Kind): Result { Result(false, 0, 0, Some(kind)) }

  /** The alarm a handler raises before it closes the cycle. */
  function AlarmFor(kind: Kind): Event { if kind == Session then ExpiredEvent else CycleError(kind) }

  function EventsOfLot(u: Upsert): seq<Event> {
    if u.New? then [Dispatched] else if u.StatusChanged? then [LotStatus] else []
  }

  predicate Last(tr: seq<Event>, e: Event) { tr != [] && tr[|tr| - 1] == e }

  /** What the lots written lead to, one event for each that is new or changed its status. */
  function EventsOf(us: seq<Upsert>): seq<Event> {
    if us == [] then [] else EventsOfLot(us[0]) + EventsOf(us[1..])
  }

  lemma {:induction false} EventsSnoc(us: seq<Upsert>, i: nat)
    requires i < |us|
    ensures EventsOf(us[..i + 1]) == EventsOf(us[..i]) + EventsOfLot(us[i])
  {
    if i == 0 {
      assert us[..1][1..] == [];
    } else {
      EventsSnoc(us[1..], i - 1);
      assert us[..i + 1][1..] == us[1..][..i] && us[..i][1..] == us[1..][..i - 1];
    }
  }

  lemma EventCount(u: Upsert)
    ensures Inner(EventsOfLot(u)) && Alarms(EventsOfLot(u)) == 0
    ensures Dispatches(EventsOfLot(u)) == if u.New? then 1 else 0
  {
    hide Alarms, Dispatches;
    NoneYet();
    Snoc([], Dispatched);
    Snoc([], LotStatus);
    assert [] + [Dispatched] == [Dispatched] && [] + [LotStatus] == [LotStatus];
  }

  lemma NoEventYet(us: seq<Upsert>)
    ensures EventsOf(us[..0]) == [] && Dispatches([]) == 0
  {
  }

  lemma OneMoreLot(us: seq<Upsert>, i: nat)
    requires i < |us|
    ensures EventsOf(us[..i + 1]) == EventsOf(us[..i]) + EventsOfLot(us[i])
    ensures Dispatches(EventsOf(us[..i + 1])) == Dispatches(EventsOf(us[..i])) + if us[i].New? then 1 else 0
  {
    EventsSnoc(us, i);
    EventCount(us[i]);
    Counted(EventsOf(us[..i]), EventsOfLot(us[i]));
  }

  lemma LotCount(u: Upsert)
    ensures Notified(CallsOfLot(u)) == if u.New? && FirstFatal(CallsOfLot(u)).None? then 1 else 0
    ensures !Judge(FirstFatal(CallsOfLot(u))).Handled? && (FirstFatal(CallsOfLot(u)).Some? ==> FirstFatal(CallsOfLot(u)).value.fault == FaultOf(u))
    ensures FirstFatal(CallsOfLot(u)).None? <==> FaultOf(u).None?
  {
    OneCall(Call(Store, None));
    OneCall(Call(Store, FaultOf(u)));
    OneCall(Call(Notify, FaultOf(u)));
    InOrder([Call(Store, None)], [Call(Notify, FaultOf(u))]);
    assert [Call(Store, None)] + [Call(Notify, FaultOf(u))] == [Call(Store, None), Call(Notify, FaultOf(u))];
  }

  function FaultOf(u: Upsert): Option<Fault> {
    match u
    case Fails(f) => Some(f)
    case New(d) => d
    case _ => None
  }

  /** The lots before lot n succeed, and n, if there, is the first that fails. */
  ghost predicate FirstBad(us: seq<Upsert>, n: nat) {
    && n <= |us|
    && (forall i :: 0 <= i < n ==> FaultOf(us[i]).None?)
    && (n < |us| ==> FaultOf(us[n]).Some?)
  }

  lemma NoCallYet()
    ensures FirstFatal([]) == None && Notified([]) == 0
  {
  }

  /** What the lots before the failing one emit holds as many dispatches as the calls made before
      the fatal one, no alarm and no closing. */
  lemma {:induction false} EventsCounted(us: seq<Upsert>, n: nat)
    requires FirstBad(us, n)
    ensures Inner(EventsOf(us[..n])) && Alarms(EventsOf(us[..n])) == 0
    ensures Dispatches(EventsOf(us[..n])) == Notified(LotCalls(us))
    ensures FirstFatal(LotCalls(us)) == if n < |us| then FirstFatal(CallsOfLot(us[n])) else None
  {
    hide CallsOfLot, EventsOfLot, Judge, Fatal, Notified, FirstFatal, Alarms, Dispatches;
    NoneYet();
    if us == [] {
      NoCallYet();
    } else {
      var u, rest := us[0], us[1..];
      LotCount(u);
      InOrder(CallsOfLot(u), LotCalls(rest));
      if n > 0 {
        EventsCounted(rest, n - 1);
        assert us[..n][1..] == rest[..n - 1];
        EventCount(u);
        Counted(EventsOfLot(u), EventsOf(rest[..n - 1]));
      }
    }
  }

  // ---------------------------------------------------------------------
  // The service
  // ---------------------------------------------------------------------

  class Service {
    var trace: seq<Event>
    var signal: bool
    var terminalPublished: bool
    var misses: map<int, nat>
    var decisions: map<int, string>
    var skip: set<int>
    var triggerPending: bool

    constructor ()
      ensures trace == [] && !signal && misses == map[] && skip == {} && !triggerPending
    {
      trace, signal, terminalPublished, misses, decisions, skip, triggerPending := [], false, false, map[], map[], {}, false;
    }

    method MarkRegionInBackfill(region: int)
      modifies this`skip
      ensures skip == old(skip) + {region}
    {
      skip := skip + {region};
    }

    method ClearRegionInBackfill(region: int)
      modifies this`skip
      ensures skip == old(skip) - {region}
    {
      skip := skip - {region};
    }

    /** The trigger queue holds one sentinel: a burst of requests is one. */
    method RequestRunNow()
      modifies this`triggerPending
      ensures triggerPending
    {
      if !triggerPending {
        triggerPending := true;
      }
    }

    /** A waiting scheduler takes the sentinel if there is one. */
    method TakeTrigger() returns (woken: bool)
      modifies this`triggerPending
      ensures woken == old(triggerPending) && !triggerPending
    {
      woken := triggerPending;
      triggerPending := false;
    }

    method CloseWith(r: Result, statusFields: bool)
      modifies this`trace, this`terminalPublished
      ensures trace == old(trace) + Ending(r, statusFields)
      ensures trace == old(trace) + ([Closed(r), Done(r)]
        + if statusFields then [Status(if r.ok then "active" else "error")] else [])
    {
      trace := trace + [Closed(r)];
      trace := trace + [Done(r)];
      if statusFields {
        trace := trace + [Status(if r.ok then "active" else "error")];
        terminalPublished := true;
      }
    }

    method CloseWithAlarm(kind: Kind, statusFields: bool) returns (r: Result)
      modifies this`trace, this`terminalPublished
      ensures r == Failure(kind)
      ensures trace == old(trace) + [AlarmFor(kind)] + Ending(r, statusFields)
    {
      trace := trace + [AlarmFor(kind)];
      r := Failure(kind);
      CloseWith(r, statusFields);
    }

    method PublishChecking(ok: bool)
      modifies this`trace
      ensures trace == old(trace) + if ok then [Status("checking"), StatusEvicted] else []
    {
      if ok {
        trace := trace + [Status("checking")];
        trace := trace + [StatusEvicted];
      }
    }

    /** A call under the progress signal: set before it, cleared on the way out whether the call
        returned or raised. */
    method Signalled(outcome: Option<Fault>) returns (raised: Option<Fault>)
      modifies this`signal
      ensures raised == outcome && !signal
    {
      signal := true;
      if outcome.Some? {
        signal := false;
        return outcome;
      }
      raised := None;
      signal := false;
    }

    /** The request under the signal, the redirect check and the parser. */
    method FetchPage(s: Script) returns (v: Verdict)
      modifies this`signal
      ensures v == Judge(FirstFatal(PageCalls(s)))
      ensures !signal
    {
      TwoCalls(PageCalls(s)[0], PageCalls(s)[1]);
      var raised := Signalled(s.fetch);
      if raised.Some? {
        if raised.value == Upstream { return Handled(Network); }
        return Escapes(raised.value);
      }
      if s.redirect { return Handled(Session); }
      if s.parse.Some? {
        match s.parse.value
        case Upstream => return Handled(Network);
        case SessionExpired => return Handled(Session);
        case ParseBug => return Handled(Parse);
        case f => return Escapes(f);
      }
      v := Fine;
    }

    /** The delta trigger: a page without a total counts as a miss, one with a total ends the
        streak and consults the backfill when it is bound. */
    method DeltaTrigger(region: int, s: Script) returns (v: Verdict)
      modifies this`misses, this`decisions
      ensures v == Judge(FirstFatal(DeltaCalls(s)))
      ensures s.total.None? ==> misses == old(misses)[region := 1 + if region in old(misses) then old(misses)[region] else 0]
      ensures s.total.Some? ==> misses == old(misses) - {region}
      ensures decisions == if s.total.None? then old(decisions)[region := "skip_none"]
                           else if v == Fine && s.backfillBound then old(decisions)[region := if s.triggered then "trigger" else "skip"]
                           else old(decisions)
    {
      TwoCalls(Call(CountActive, s.count), Call(MaybeStart, s.trigger));
      if s.total.None? {
        misses := misses[region := (if region in misses then misses[region] else 0) + 1];
        decisions := decisions[region := "skip_none"];
      } else {
        misses := misses - {region};
        if s.backfillBound {
          if s.count.Some? { return Escapes(s.count.value); }
          if s.trigger.Some? { return Escapes(s.trigger.value); }
          decisions := decisions[region := if s.triggered then "trigger" else "skip"];
        }
      }
      v := Fine;
    }

    /** Row by row; a validation error counts as a parse bug. */
    method ConvertRows(s: Script) returns (v: Verdict)
      ensures v == Judge(FirstFatal(RowCalls(s.rows)))
    {
      var i := 0;
      while i < |s.rows|
        invariant 0 <= i <= |s.rows| && FirstFatal(RowCalls(s.rows)) == FirstFatal(RowCalls(s.rows[i..]))
      {
        assert s.rows[i..][1..] == s.rows[i + 1..];
        if s.rows[i].Some? {
          if s.rows[i].value == Validation || s.rows[i].value == ParseBug { return Handled(Parse); }
          return Escapes(s.rows[i].value);
        }
        i := i + 1;
      }
      v := Fine;
    }

    /** One lot: a new one is dispatched, a changed one published. */
    method WriteLot(u: Upsert) returns (raised: Option<Fault>)
      modifies this`trace
      ensures raised == FaultOf(u)
      ensures trace == old(trace) + if raised.Some? then [] else EventsOfLot(u)
      ensures trace == old(trace) + (if u == New(None) then [Dispatched] else if u == StatusChanged then [LotStatus] else [])
    {
      match u
      case Fails(f) => raised := Some(f);
      case New(dispatch) =>
        raised := dispatch;
        if dispatch.None? { trace := trace + [Dispatched]; }
      case StatusChanged =>
        raised := None;
        trace := trace + [LotStatus];
      case Unchanged =>
        raised := None;
    }

    /** One upsert per lot; every new lot is counted and dispatched. `made` is what the lots before
        lot n, the first that failed, led to. */
    method StoreLots(us: seq<Upsert>) returns (v: Verdict, newLots: nat, ghost n: nat, ghost made: seq<Event>)
      modifies this`trace
      ensures FirstBad(us, n) && made == EventsOf(us[..n]) && trace == old(trace) + made
      ensures v == if n < |us| then Escapes(FaultOf(us[n]).value) else Fine
      ensures newLots == Dispatches(made)
    {
      hide EventsOf, EventsOfLot, Dispatches, FaultOf;
      newLots, made, n := 0, [], 0;
      var i := 0;
      NoEventYet(us);
      while i < |us|
        invariant 0 <= n == i <= |us|
        invariant forall j :: 0 <= j < i ==> FaultOf(us[j]).None?
        invariant made == EventsOf(us[..i]) && trace == old(trace) + made && newLots == Dispatches(made)
      {
        var raised := WriteLot(us[i]);
        if raised.Some? {
          v := Escapes(raised.value);
          return;
        }
        OneMoreLot(us, i);
        made := made + EventsOfLot(us[i]);
        if us[i].New? {
          newLots := newLots + 1;
        }
        i, n := i + 1, n + 1;
      }
      v := Fine;
    }

    /** Enrichment under the signal, then the lots. A version mismatch falls back to the lots as
        parsed. `made` is what the lots before the first that failed led to. */
    method WriteLots(s: Script) returns (v: Verdict, newLots: nat, ghost made: seq<Event>)
      modifies this`trace, this`signal
      ensures v == Judge(FirstFatal(WriteCalls(s))) && !signal && !v.Handled?
      ensures if Fatal(Call(Enrich, s.enrich)) then made == []
              else exists n: nat :: FirstBad(s.upserts, n) && made == EventsOf(s.upserts[..n])
      ensures trace == old(trace) + made && Inner(made) && Alarms(made) == 0 && Dispatches(made) == Notified(WriteCalls(s))
      ensures v == Fine ==> newLots == Notified(WriteCalls(s))
    {
      made, newLots := [], 0;
      InOrder([Call(Enrich, s.enrich)], LotCalls(s.upserts));
      OneCall(Call(Enrich, s.enrich));
      var raised := Signalled(s.enrich);
      if raised.Some? && raised.value != VersionMismatch {
        v := Escapes(raised.value);
        return;
      }
      ghost var n;
      v, newLots, n, made := StoreLots(s.upserts);
      EventsCounted(s.upserts, n);
      if n < |s.upserts| { LotCount(s.upserts[n]); }
    }

    /** Everything up to the converted rows. */
    method Poll(region: int, s: Script) returns (v: Verdict, ghost made: seq<Event>)
      modifies this`trace, this`signal, this`misses, this`decisions
      ensures v == Judge(FirstFatal(PollCalls(s))) && !signal
      ensures trace == old(trace) + made && Quiet(made)
    {
      hide FirstFatal, Judge, Quiet;
      PublishChecking(s.checking);
      made := if s.checking then [Status("checking"), StatusEvicted] else [];
      CheckingQuiet();
      v := FetchPage(s);
      FatalJudged(PageCalls(s));
      FatalJudged(DeltaCalls(s));
      PollInOrder(s);
      if v == Fine {
        v := DeltaTrigger(region, s);
        if v == Fine {
          v := ConvertRows(s);
        }
      }
    }

    /** The inner cycle: `made` is what it emitted before `tail`, the closing of the row; an
        exception that no handler covers leaves without one. */
    method RunInner(region: int, s: Script) returns (r: Outcome, ghost made: seq<Event>, ghost tail: seq<Event>)
      modifies this
      ensures !signal && skip == old(skip) && triggerPending == old(triggerPending)
      ensures trace == old(trace) + (made + tail) && Inner(made) && Dispatches(made) == Notified(CallsOf(s))
      ensures Alarms(made) == if VerdictOf(s).Handled? then 1 else 0
      ensures VerdictOf(s).Handled? ==> Last(made, AlarmFor(VerdictOf(s).kind))
      ensures var v := VerdictOf(s);
        match v
        case Escapes(f) => r == Raised(f) && tail == [] && terminalPublished == old(terminalPublished)
        case Handled(kind) => r == Returned(Failure(kind)) && tail == Ending(Failure(kind), s.statusFields)
        case Fine => r == Returned(Result(true, |s.upserts|, Notified(CallsOf(s)), None)) && tail == Ending(r.result, s.statusFields)
    {
      hide FirstFatal, Notified, CallsOf, PollCalls, WriteCalls, Judge, Alarms, Dispatches, Ending, Fatal, EventsOf, FirstBad;
      var v;
      v, made := Poll(region, s);
      tail := [];
      PollThenWrite(s);
      FatalJudged(PollCalls(s));
      if v.Handled? {
        Snoc(made, AlarmFor(v.kind));
        made := made + [AlarmFor(v.kind)];
        var failure := CloseWithAlarm(v.kind, s.statusFields);
        r, tail := Returned(failure), Ending(failure, s.statusFields);
      } else if v.Escapes? {
        r := Raised(v.fault);
      } else {
        var newLots;
        ghost var more;
        v, newLots, more := WriteLots(s);
        Counted(made, more);
        made := made + more;
        if v == Fine {
          var result := Result(true, |s.upserts|, newLots, None);
          CloseWith(result, s.statusFields);
          r, tail := Returned(result), Ending(result, s.statusFields);
        } else {
          r := Raised(v.fault);
        }
      }
    }

    /** What run_cycle does with an exception before raising it again. */
    method Strand(f: Fault, statusFields: bool, fallback: bool) returns (ghost alarm: seq<Event>, ghost tail: seq<Event>)
      requires !terminalPublished
      modifies this`trace, this`terminalPublished
      ensures trace == old(trace) + (alarm + tail)
      ensures if Domain(f) then alarm == [] && tail == LastWord(fallback)
              else alarm == [CycleError(Internal)] && tail == Ending(Failure(Internal), statusFields)
    {
      if Domain(f) {
        alarm, tail := [], [];
        if !terminalPublished && fallback {
          trace := trace + [Status("error")];
          tail := [Status("error")];
        }
      } else {
        var failure := CloseWithAlarm(Internal, statusFields);
        alarm, tail := [CycleError(Internal)], Ending(failure, statusFields);
      }
    }

    /** Opens the row and announces the cycle, best effort. */
    method Open(started: bool) returns (ghost first: seq<Event>)
      modifies this`trace, this`terminalPublished
      ensures trace == old(trace) + ([Opened] + first) && Quiet(first) && !terminalPublished
    {
      trace := trace + [Opened];
      first := [];
      if started {
        trace := trace + [Started];
        first := [Started];
      }
      terminalPublished := false;
      FirstCounts();
    }

    /** A whole cycle: the row is opened, `made` follows, and `tail` ends it as Closing says. */
    method RunCycle(region: int, s: Script) returns (r: Outcome, ghost made: seq<Event>, ghost tail: seq<Event>)
      modifies this
      ensures !signal && skip == old(skip) && triggerPending == old(triggerPending)
      ensures trace == old(trace) + ([Opened] + made + tail)
      ensures Closing(s, r, made, tail)
    {
      hide FirstFatal, Notified, CallsOf, VerdictOf, Alarms, Dispatches, Ending;
      made := Open(s.started);
      ghost var inner;
      r, inner, tail := RunInner(region, s);
      Counted(made, inner);
      made := made + inner;
      if r.Raised? {
        ghost var before, alarm := trace, [];
        assert before == old(trace) + ([Opened] + made);
        alarm, tail := Strand(r.fault, s.statusFields, s.fallback);
        if alarm != [] { Snoc(made, CycleError(Internal)); }
        Regroup(old(trace), made, alarm, tail);
        made := made + alarm;
      } else {
        assert trace == old(trace) + ([Opened] + made + tail);
      }
    }
  }

  lemma Regroup(base: seq<Event>, made: seq<Event>, alarm: seq<Event>, tail: seq<Event>)
    ensures base + ([Opened] + made) + (alarm + tail) == base + ([Opened] + (made + alarm) + tail)
    ensures made + [] == made
  {
  }

  lemma CheckingQuiet()
    ensures Quiet([Status("checking"), StatusEvicted]) && Quiet([])
  {
    Snoc([Status("checking")], StatusEvicted);
    Snoc([], Status("checking"));
    assert [] + [Status("checking")] == [Status("checking")];
    assert [Status("checking")] + [StatusEvicted] == [Status("checking"), StatusEvicted];
  }

  lemma FirstCounts()
    ensures Quiet([Started]) && Quiet([])
  {
    Snoc([], Started);
    assert [] + [Started] == [Started];
  }

  /** Emits nothing that opens, closes, alarms or dispatches. */
  ghost predicate Quiet(tr: seq<Event>) { Inner(tr) && Alarms(tr) == 0 && Dispatches(tr) == 0 }

  /** How a cycle ends. A cycle that ran through is ok and reports as many new lots as were
      dispatched; a handled failure raised one alarm; an unexpected exception is raised again after
      the row was closed, with zero lots reported. An exception of the domain that escapes the
      handlers leaves the row open and publishes an error status in place of cycle.done. */
  ghost predicate Closing(s: Script, r: Outcome, made: seq<Event>, tail: seq<Event>) {
    var v := VerdictOf(s);
    && Inner(made) && Dispatches(made) == Notified(CallsOf(s))
    && Alarms(made) == (if v.Handled? || (v.Escapes? && !Domain(v.fault)) then 1 else 0)
    && (v.Handled? ==> Last(made, AlarmFor(v.kind)))
    && (v.Escapes? && !Domain(v.fault) ==> Last(made, CycleError(Internal)))
    && match v
       case Fine =>
         r == Returned(Result(true, |s.upserts|, Notified(CallsOf(s)), None)) && tail == Ending(r.result, s.statusFields)
       case Handled(kind) =>
         r == Returned(Failure(kind)) && tail == Ending(r.result, s.statusFields)
       case Escapes(f) =>
         r == Raised(f)
         && tail == if Domain(f) then LastWord(s.fallback) else Ending(Failure(Internal), s.statusFields)
  }

  function Count(tr: seq<Event>, p: Event -> bool): nat {
    if tr == [] then 0 else Count(tr[..|tr| - 1], p) + if p(tr[|tr| - 1]) then 1 else 0
  }

  lemma {:induction false} CountJoin(a: seq<Event>, b: seq<Event>, p: Event -> bool)
    ensures Count(a + b, p) == Count(a, p) + Count(b, p)
  {
    if b == [] {
      assert a + b == a;
    } else {
      var front := b[..|b| - 1];
      CountJoin(a, front, p);
      assert (a + b)[..|a + b| - 1] == a + front;
    }
  }

  lemma {:induction false} NoneCounted(tr: seq<Event>, p: Event -> bool)
    requires forall i :: 0 <= i < |tr| ==> !p(tr[i])
    ensures Count(tr, p) == 0
  {
    if tr != [] { NoneCounted(tr[..|tr| - 1], p); }
  }

  lemma CountOne(e: Event, p: Event -> bool)
    ensures Count([e], p) == if p(e) then 1 else 0
  {
    assert [e][..0] == [] && Count([], p) == 0;
  }

  lemma CountThree(made: seq<Event>, tail: seq<Event>, p: Event -> bool)
    requires Inner(made) && forall e :: p(e) ==> Ends(e)
    requires |tail| <= 3 && (|tail| == 3 ==> !p(tail[2]))
    ensures Count([Opened] + made + tail, p)
         == (if p(Opened) then 1 else 0) + (if |tail| > 0 && p(tail[0]) then 1 else 0) + (if |tail| > 1 && p(tail[1]) then 1 else 0)
  {
    NoneCounted(made, p);
    CountOne(Opened, p);
    CountJoin([Opened], made, p);
    CountJoin([Opened] + made, tail, p);
    if |tail| > 0 {
      CountOne(tail[0], p);
      assert tail[..1] == [tail[0]];
    }
    if |tail| > 1 {
      CountOne(tail[1], p);
      CountJoin(tail[..1], [tail[1]], p);
      assert tail[..2] == tail[..1] + [tail[1]];
    }
    if |tail| == 3 {
      CountOne(tail[2], p);
      CountJoin(tail[..2], [tail[2]], p);
      assert tail == tail[..2] + [tail[2]];
    }
    assert tail[..|tail|] == tail;
  }

  // ---------------------------------------------------------------------
  // When the row is closed
  // ---------------------------------------------------------------------

  /** Call k fails and the ones before it let the cycle go on. */
  ghost predicate FailsFirst(calls: seq<Call>, k: nat) {
    k < |calls| && Fatal(calls[k]) && forall j :: 0 <= j < k ==> !Fatal(calls[j])
  }

  /** The first call to fail does so with an exception of the domain that is not caught there. */
  ghost predicate StaysOpen(calls: seq<Call>) {
    exists k: nat :: FailsFirst(calls, k) && Domain(calls[k].fault.value) && calls[k].fault.value !in Catches(calls[k].place)
  }

  lemma {:induction false} FirstFatalIs(calls: seq<Call>, k: nat)
    requires FailsFirst(calls, k)
    ensures FirstFatal(calls) == Some(calls[k])
  {
    if k > 0 { FirstFatalIs(calls[1..], k - 1); }
  }

  lemma {:induction false} FirstFatalAt(calls: seq<Call>) returns (k: nat)
    requires FirstFatal(calls).Some?
    ensures FailsFirst(calls, k)
  {
    if Fatal(calls[0]) {
      k := 0;
    } else {
      var j := FirstFatalAt(calls[1..]);
      k := j + 1;
    }
  }

  lemma StaysOpenIff(calls: seq<Call>)
    ensures var v := Judge(FirstFatal(calls)); StaysOpen(calls) <==> v.Escapes? && Domain(v.fault)
  {
    forall k: nat | FailsFirst(calls, k) ensures FirstFatal(calls) == Some(calls[k]) {
      FirstFatalIs(calls, k);
    }
    if FirstFatal(calls).Some? {
      var k := FirstFatalAt(calls);
      assert FailsFirst(calls, k);
    }
  }

  /** Whichever calls fail: the row is opened once; it is left open, without a cycle.done, if and
      only if the first call to fail raises an exception of the domain that nothing catches there,
      and is closed once otherwise, with one cycle.done after every alarm; and an ok result counts
      the dispatches. */
  lemma ClosedOnceIff(s: Script, r: Outcome, made: seq<Event>, tail: seq<Event>)
    requires Closing(s, r, made, tail)
    ensures var all := [Opened] + made + tail;
      var closes, dones := Count(all, (e: Event) => e.Closed?), Count(all, (e: Event) => e.Done?);
      && Count(all, (e: Event) => e.Opened?) == 1
      && closes == dones == (if StaysOpen(CallsOf(s)) then 0 else 1)
      && (forall i, j :: 0 <= i < |all| && 0 <= j < |all| && Alarm(all[i]) && all[j].Done? ==> i < j)
      && (r.Returned? && r.result.ok ==> r.result.newLots == Dispatches(made))
  {
    StaysOpenIff(CallsOf(s));
    hide StaysOpen, CallsOf, FirstFatal, Notified, Count, Alarms, Dispatches;
    CountThree(made, tail, (e: Event) => e.Opened?);
    CountThree(made, tail, (e: Event) => e.Closed?);
    CountThree(made, tail, (e: Event) => e.Done?);
  }

  /** Whichever call fails first, by where it stands and what it raises: the alarm, the row and what
      run_cycle comes back with. A failed request, a page that needs a login and a page or row that
      does not read are reported as such; the other three domain exceptions leave the row open; all
      else is an internal error. */
  lemma FirstFailureDecides(s: Script, r: Outcome, made: seq<Event>, tail: seq<Event>, k: nat)
    requires Closing(s, r, made, tail) && FailsFirst(CallsOf(s), k)
    ensures var place, f := CallsOf(s)[k].place, CallsOf(s)[k].fault.value;
      var network := f == Upstream && (place == Get || place == ListPage);
      var session := f == SessionExpired && place == ListPage;
      var parse := (f == ParseBug && (place == ListPage || place == Convert)) || (f == Validation && place == Convert);
      var open := !network && !session && !parse && f in {Upstream, SessionExpired, ParseBug, VersionMismatch};
      && (open ==> r == Raised(f) && Alarms(made) == 0 && tail == if s.fallback then [Status("error")] else [])
      && (!open ==>
            var kind := if network then Network else if session then Session else if parse then Parse else Internal;
            && Alarms(made) == 1 && Last(made, if session then ExpiredEvent else CycleError(kind))
            && tail == [Closed(Result(false, 0, 0, Some(kind))), Done(Result(false, 0, 0, Some(kind)))]
                         + (if s.statusFields then [Status("error")] else [])
            && r == if kind == Internal then Raised(f) else Returned(Result(false, 0, 0, Some(kind))))
  {
    hide CallsOf, FirstFatal, Notified, Alarms, Dispatches, Inner;
    FirstFatalIs(CallsOf(s), k);
  }

  lemma {:induction false} RowCallsLength(rows: seq<Option<Fault>>)
    ensures |RowCalls(rows)| == |rows|
  {
    if rows != [] { RowCallsLength(rows[1..]); }
  }

  lemma {:induction false} RowCallAt(rows: seq<Option<Fault>>, i: nat)
    requires i < |rows|
    ensures i < |RowCalls(rows)| && RowCalls(rows)[i] == Call(Convert, rows[i])
  {
    if i > 0 { RowCallAt(rows[1..], i - 1); }
  }

  lemma {:induction false} LotCallsSplit(us: seq<Upsert>, i: nat)
    requires i < |us|
    ensures LotCalls(us) == LotCalls(us[..i]) + CallsOfLot(us[i]) + LotCalls(us[i + 1..])
  {
    hide CallsOfLot;
    if i > 0 {
      LotCallsSplit(us[1..], i - 1);
      assert us[1..][..i - 1] == us[..i][1..] && us[1..][i..] == us[i + 1..];
      Regroups(CallsOfLot(us[0]), LotCalls(us[..i][1..]), CallsOfLot(us[i]), LotCalls(us[i + 1..]));
    } else {
      assert us[..0] == [];
    }
  }

  lemma Regroups<T>(a: seq<T>, b: seq<T>, c: seq<T>, d: seq<T>)
    ensures a + (b + c + d) == a + b + c + d
  {
  }

  lemma PollCallAt(s: Script, row: nat)
    ensures var calls, b := PollCalls(s), if s.total.Some? && s.backfillBound then 4 else 2;
      && |calls| == b + |s.rows| && (row < |s.rows| ==> calls[b + row] == Call(Convert, s.rows[row]))
      && calls[0] == Call(Get, s.fetch) && calls[1] == Call(ListPage, if s.redirect then Some(SessionExpired) else s.parse)
      && (b == 4 ==> calls[2] == Call(CountActive, s.count) && calls[3] == Call(MaybeStart, s.trigger))
  {
    hide RowCalls;
    RowCallsLength(s.rows);
    if row < |s.rows| { RowCallAt(s.rows, row); }
  }

  lemma LotCallAt(us: seq<Upsert>, i: nat)
    requires i < |us|
    ensures var calls, c, u := LotCalls(us), |LotCalls(us[..i])|, us[i];
      && c < |calls| && calls[c] == Call(Store, if u.Fails? then Some(u.fault) else None)
      && (u.New? ==> c + 1 < |calls| && calls[c + 1] == Call(Notify, u.dispatch))
      && (i == |us| - 1 ==> |calls| == c + (if u.New? then 2 else 1))
  {
    LotCallsSplit(us, i);
    if i == |us| - 1 { assert us[i + 1..] == []; }
    assert |CallsOfLot(us[i])| == if us[i].New? then 2 else 1;
  }

  /** Which call a cycle makes when: the request and the page, with a site total and a backfill the
      two calls of the trigger, one conversion a row, the enrichment, then lot by lot the upsert
      and, for a new lot, the dispatch. */
  lemma CallAt(s: Script, row: nat, lot: nat)
    ensures var calls, n := CallsOf(s), |s.rows|;
      var b := if s.total.Some? && s.backfillBound then 4 else 2;
      && |calls| > b + n
      && calls[0] == Call(Get, s.fetch) && calls[1] == Call(ListPage, if s.redirect then Some(SessionExpired) else s.parse)
      && (b == 4 ==> calls[2] == Call(CountActive, s.count) && calls[3] == Call(MaybeStart, s.trigger))
      && (row < n ==> calls[b + row] == Call(Convert, s.rows[row])) && calls[b + n] == Call(Enrich, s.enrich)
      && (s.upserts == [] ==> |calls| == b + n + 1)
      && (lot < |s.upserts| ==>
            var c, u := b + n + 1 + |LotCalls(s.upserts[..lot])|, s.upserts[lot];
            && c < |calls| && calls[c] == Call(Store, if u.Fails? then Some(u.fault) else None)
            && (u.New? ==> c + 1 < |calls| && calls[c + 1] == Call(Notify, u.dispatch))
            && (lot == |s.upserts| - 1 ==> |calls| == c + (if u.New? then 2 else 1)))
  {
    hide PollCalls;
    PollCallAt(s, row);
    if lot < |s.upserts| {
      hide LotCalls;
      LotCallAt(s.upserts, lot);
    }
  }

  /** What the collaborators raise as they stand: the HTTP client a requests exception, the parser
      a missing session or a parse bug, conversion a validation error, enrichment a version mismatch
      only, and the repositories, the backfill and the dispatcher nothing of the domain. */
  function RaisesToday(p: Place): set<Fault> {
    match p
    case ListPage => {SessionExpired, ParseBug, Unexpected}
    case Enrich => {VersionMismatch, Unexpected}
    case _ => {Validation, Unexpected}
  }

  /** So today every cycle closes its row; a new exception at an uncovered call would strand it. */
  lemma ClosesToday(s: Script)
    requires forall c <- CallsOf(s) :: c.fault.Some? ==> c.fault.value in RaisesToday(c.place)
    ensures !StaysOpen(CallsOf(s))
  {
    hide CallsOf;
    forall k: nat | FailsFirst(CallsOf(s), k)
      ensures !Domain(CallsOf(s)[k].fault.value) || CallsOf(s)[k].fault.value in Catches(CallsOf(s)[k].place)
    {
      assert CallsOf(s)[k] in CallsOf(s);
    }
  }

  /** A cycle in which all goes well up to enrichment, on a page without rows or total. */
  function Smooth(enrich: Option<Fault>, upserts: seq<Upsert>): Script {
    Script(true, true, true, true, None, false, None, None, false, None, None, false, [], enrich, upserts)
  }

  lemma SmoothCalls(enrich: Option<Fault>, upserts: seq<Upsert>)
    ensures CallsOf(Smooth(enrich, upserts)) == [Call(Get, None), Call(ListPage, None), Call(Enrich, enrich)] + LotCalls(upserts)
  {
  }

  /** An UpstreamError out of enrichment, say, leaves the row open and reports no cycle.done. */
  lemma RowStranded(r: Outcome, made: seq<Event>, tail: seq<Event>)
    requires Closing(Smooth(Some(Upstream), []), r, made, tail)
    ensures r == Raised(Upstream) && tail == [Status("error")]
    ensures Count([Opened] + made + tail, (e: Event) => e.Closed?) == 0
  {
    var s := Smooth(Some(Upstream), []);
    SmoothCalls(Some(Upstream), []);
    assert FailsFirst(CallsOf(s), 2);
    StaysOpenIff(CallsOf(s));
    FirstFatalIs(CallsOf(s), 2);
    ClosedOnceIff(s, r, made, tail);
  }

  /** What a closed row is worth. A cycle that closes its row reports as many new lots as it handed
      to the dispatcher if and only if no call was fatal, or none had been handed over before it. */
  lemma RowCountsIff(s: Script, r: Outcome, made: seq<Event>, tail: seq<Event>)
    requires Closing(s, r, made, tail) && !StaysOpen(CallsOf(s))
    ensures |tail| > 0 && tail[0].Closed?
    ensures tail[0].result.newLots == Dispatches(made) <==>
      (forall c <- CallsOf(s) :: !Fatal(c)) || Notified(CallsOf(s)) == 0
    ensures tail[0].result.newLots in {0, Dispatches(made)}
    ensures (forall c <- CallsOf(s) :: !Fatal(c)) ==>
      && r == Returned(Result(true, |s.upserts|, Dispatches(made), None)) && Alarms(made) == 0
      && tail == [Closed(r.result), Done(r.result)] + (if s.statusFields then [Status("active")] else [])
  {
    hide CallsOf, FirstFatal, Notified, StaysOpen, Dispatches, Alarms;
    StaysOpenIff(CallsOf(s));
    FatalJudged(CallsOf(s));
    NoFatalIff(CallsOf(s));
  }

  lemma {:induction false} NoFatalIff(calls: seq<Call>)
    ensures FirstFatal(calls).None? <==> forall c <- calls :: !Fatal(c)
  {
    if calls != [] {
      NoFatalIff(calls[1..]);
      assert calls == [calls[0]] + calls[1..];
    }
  }

  /** A second upsert that the database refuses, after the first lot was dispatched: the row is
      closed and the exception raised again, and the result says no lot was new. */
  lemma DispatchedNotReported(r: Outcome, made: seq<Event>, tail: seq<Event>)
    requires Closing(Smooth(None, [New(None), Fails(Unexpected)]), r, made, tail)
    ensures r == Raised(Unexpected) && Dispatches(made) == 1
    ensures |tail| > 0 && tail[0] == Closed(Result(false, 0, 0, Some(Internal)))
  {
    SecondRefused();
    hide CallsOf, FirstFatal, Notified, Dispatches;
  }

  lemma SecondRefused()
    ensures var calls := CallsOf(Smooth(None, [New(None), Fails(Unexpected)]));
      FirstFatal(calls) == Some(Call(Store, Some(Unexpected))) && Notified(calls) == 1
  {
    var us := [New(None), Fails(Unexpected)];
    SmoothCalls(None, us);
    assert us[1..] == [Fails(Unexpected)] && us[..1] == [New(None)] && [New(None)][1..] == [];
    var before := [Call(Get, None), Call(ListPage, None)];
    InOrder(before + [Call(Enrich, None)], LotCalls(us));
    InOrder(before, [Call(Enrich, None)]);
    TwoCalls(before[0], before[1]);
    OneCall(Call(Enrich, None));
    NotifyNone(before);
    hide CallsOf, Dispatches, FirstFatal, Notified;
    assert before + [Call(Enrich, None)] == [Call(Get, None), Call(ListPage, None), Call(Enrich, None)];
    EventsCounted(us, 1);
    LotCount(Fails(Unexpected));
    EventCount(New(None));
    Counted([Dispatched], []);
    assert [Dispatched] + [] == [Dispatched];
  }
}

/** The durable notification table and the dispatcher that works on it. */
module Notifications {
  import opened Prelude

  const MAX_TOTAL_ATTEMPTS: nat := 10

  datatype Key = Key(lot: int, channel: string, recipient: string)
  datatype Status = Pending | Sent | PermanentFail
  datatype Row = Row(status: Status, attempts: nat)

  type Table = map<Key, Row>

  // ---------------------------------------------------------------------
  // The repository: every call is one short transaction
  // ---------------------------------------------------------------------

  function Reserved(db: Table, k: Key): Table {
    if k in db then db else db[k := Row(Pending, 0)]
  }

  predicate IsPending(db: Table, k: Key) { k in db && db[k].status == Pending }

  function Attempted(db: Table, k: Key): Table {
    if IsPending(db, k) then db[k := db[k].(attempts := db[k].attempts + 1)] else db
  }

  /** `UPDATE ... WHERE status='pending'`: a row leaves `pending` once. */
  function Closed(db: Table, k: Key, status: Status): Table {
    if IsPending(db, k) then db[k := db[k].(status := status)] else db
  }

  /** Rows only appear, a terminal row never changes, and attempts only grow. */
  ghost predicate Advances(before: Table, after: Table) {
    forall k :: k in before ==>
      && k in after
      && before[k].attempts <= after[k].attempts
      && (before[k].status != Pending ==> after[k] == before[k])
  }

  class Repository {
    var rows: Table

    constructor ()
      ensures rows == map[]
    {
      rows := map[];
    }

    method Reserve(k: Key) returns (created: bool)
      modifies this
      ensures rows == Reserved(old(rows), k) && created == (k !in old(rows))
    {
      created := k !in rows;
      if created {
        rows := rows[k := Row(Pending, 0)];
      }
    }

    method StatusOf(k: Key) returns (status: Option<Status>)
      ensures status == if k in rows then Some(rows[k].status) else None
    {
      status := if k in rows then Some(rows[k].status) else None;
    }

    method MarkAttempt(k: Key) returns (attempt: Option<nat>)
      modifies this
      ensures rows == Attempted(old(rows), k)
      ensures attempt == if IsPending(old(rows), k) then Some(old(rows)[k].attempts + 1) else None
    {
      if k in rows && rows[k].status == Pending {
        rows := rows[k := rows[k].(attempts := rows[k].attempts + 1)];
        attempt := Some(rows[k].attempts);
      } else {
        attempt := None;
      }
    }

    method MarkSent(k: Key)
      modifies this
      ensures Advances(old(rows), rows) && rows.Keys == old(rows).Keys && !IsPending(rows, k)
      ensures IsPending(old(rows), k) ==> rows[k] == Row(Sent, old(rows)[k].attempts)
      ensures forall j :: j in rows && (j != k || !IsPending(old(rows), k)) ==> rows[j] == old(rows)[j]
      ensures rows == Closed(old(rows), k, Sent)
    {
      if k in rows && rows[k].status == Pending {
        rows := rows[k := rows[k].(status := Sent)];
      }
    }

    method MarkPermanentFail(k: Key)
      modifies this
      ensures Advances(old(rows), rows) && rows.Keys == old(rows).Keys && !IsPending(rows, k)
      ensures IsPending(old(rows), k) ==> rows[k] == Row(PermanentFail, old(rows)[k].attempts)
      ensures forall j :: j in rows && (j != k || !IsPending(old(rows), k)) ==> rows[j] == old(rows)[j]
      ensures rows == Closed(old(rows), k, PermanentFail)
    {
      if k in rows && rows[k].status == Pending {
        rows := rows[k := rows[k].(status := PermanentFail)];
      }
    }
  }

  // ---------------------------------------------------------------------
  // One _send_one visit on one row
  // ---------------------------------------------------------------------

  /** What the channel answered, and whether shutdown arrived during the backoff after it. */
  datatype Reply = Reply(ok: bool, retryable: bool, stopped: bool)

  /** The row after the visit, the sends made, and whether shutdown cut it short. */
  datatype Visited = Visited(row: Row, sends: nat, delivered: bool, cut: bool)

  /** The retry loop on a row: one reply per send. */
  function Retry(row: Row, replies: seq<Reply>): (v: Visited)
    decreases |replies|
    ensures v.row.attempts <= row.attempts + |replies|
    ensures row.status != Pending ==> v == Visited(row, 0, false, false)
    ensures v.delivered ==> v.row.status == Sent
  {
    if replies == [] || row.status != Pending then Visited(row, 0, false, false)
    else
      var n := row.attempts + 1;
      var tried := row.(attempts := n);
      if n > MAX_TOTAL_ATTEMPTS then Visited(tried.(status := PermanentFail), 0, false, false)
      else if replies[0].ok then Visited(tried.(status := Sent), 1, true, false)
      else if !replies[0].retryable then Visited(tried.(status := PermanentFail), 1, false, false)
      else if replies[0].stopped then Visited(tried, 1, false, true)
      else
        var rest := Retry(tried, replies[1..]);
        rest.(sends := rest.sends + 1)
  }

  /** One round of the loop on a pending row; `again` when the loop goes on after its backoff. */
  datatype Tried = Tried(row: Row, sent: bool, delivered: bool, cut: bool, again: bool)

  function TryOnce(row: Row, reply: Reply): Tried {
    var tried := row.(attempts := row.attempts + 1);
    if tried.attempts > MAX_TOTAL_ATTEMPTS then Tried(tried.(status := PermanentFail), false, false, false, false)
    else if reply.ok then Tried(tried.(status := Sent), true, true, false, false)
    else if !reply.retryable then Tried(tried.(status := PermanentFail), true, false, false, false)
    else Tried(tried, true, false, reply.stopped, !reply.stopped)
  }

  lemma RetryOpens(row: Row, replies: seq<Reply>)
    requires replies != [] && row.status == Pending
    ensures var t := TryOnce(row, replies[0]);
      if t.again then
        var rest := Retry(t.row, replies[1..]);
        t.row.status == Pending && Retry(row, replies) == rest.(sends := rest.sends + 1)
      else Retry(row, replies) == Visited(t.row, if t.sent then 1 else 0, t.delivered, t.cut)
  {
  }

  /** A send that failed, may be repeated, and was not followed by shutdown. */
  predicate GoesOn(r: Reply) { !r.ok && r.retryable && !r.stopped }

  /** How the loop ends on a pending row: m sends that went on come first; then the cap is found
      reached, or the replies run out, or the next send decides. */
  ghost predicate LoopEnded(row: Row, replies: seq<Reply>, m: nat, after: Row, sends: nat, delivered: bool, cut: bool) {
    && m <= |replies| && (forall i :: 0 <= i < m ==> GoesOn(replies[i])) && (m > 0 ==> row.attempts + m <= 10)
    && if m == |replies| then
         after == Row(Pending, row.attempts + m) && sends == m && !delivered && !cut
       else if row.attempts + m >= 10 then
         after == Row(PermanentFail, row.attempts + m + 1) && sends == m && !delivered && !cut
       else
         && !GoesOn(replies[m]) && sends == m + 1 && delivered == replies[m].ok
         && cut == (!replies[m].ok && replies[m].retryable)
         && after == Row(if replies[m].ok then Sent else if replies[m].retryable then Pending else PermanentFail, row.attempts + m + 1)
  }

  /** Which is what Retry comes to. */
  lemma {:induction false} RetryEnds(row: Row, replies: seq<Reply>) returns (m: nat)
    requires row.status == Pending
    ensures var v := Retry(row, replies); LoopEnded(row, replies, m, v.row, v.sends, v.delivered, v.cut)
    decreases |replies|
  {
    if replies == [] || row.attempts + 1 > MAX_TOTAL_ATTEMPTS || !GoesOn(replies[0]) {
      m := 0;
    } else {
      var n := RetryEnds(row.(attempts := row.attempts + 1), replies[1..]);
      m := n + 1;
      assert forall i :: 0 < i < m ==> replies[i] == replies[1..][i - 1];
      assert m < |replies| ==> replies[m] == replies[1..][n];
    }
  }

  /** The description leaves one outcome only. */
  lemma LoopEndsOnce(row: Row, replies: seq<Reply>, m: nat, a: Visited, n: nat, b: Visited)
    requires LoopEnded(row, replies, m, a.row, a.sends, a.delivered, a.cut)
    requires LoopEnded(row, replies, n, b.row, b.sends, b.delivered, b.cut)
    ensures m == n && a == b
  {
    EndsNoLater(row, replies, m, a, n, b);
    EndsNoLater(row, replies, n, b, m, a);
  }

  lemma EndsNoLater(row: Row, replies: seq<Reply>, m: nat, a: Visited, n: nat, b: Visited)
    requires LoopEnded(row, replies, m, a.row, a.sends, a.delivered, a.cut)
    requires LoopEnded(row, replies, n, b.row, b.sends, b.delivered, b.cut)
    ensures n <= m
  {
  }

  /** A row is sent after the loop exactly if a send was good. */
  lemma SentIffDelivered(row: Row, replies: seq<Reply>)
    requires row.status == Pending
    ensures Retry(row, replies).row.status == Sent <==> Retry(row, replies).delivered
  {
    var m := RetryEnds(row, replies);
  }

  /** A visit to a row that may not exist yet; None stays None only when suppressed. */
  function VisitRow(row: Option<Row>, suppressed: bool, replies: seq<Reply>): Option<Row> {
    match row
    case None => if suppressed then None else Some(Retry(Row(Pending, 0), replies).row)
    case Some(r) =>
      if suppressed then Some(if r.status == Pending then r.(status := PermanentFail) else r)
      else Some(Retry(r, replies).row)
  }

  function RowOf(db: Table, k: Key): Option<Row> {
    if k in db then Some(db[k]) else None
  }

  function WithRow(db: Table, k: Key, row: Option<Row>): Table {
    match row
    case None => db
    case Some(r) => db[k := r]
  }

  function Visit(db: Table, k: Key, suppressed: bool, replies: seq<Reply>): Table {
    WithRow(db, k, VisitRow(RowOf(db, k), suppressed, replies))
  }

  /** A visit that shutdown does not cut. */
  predicate Uncut(row: Row, replies: seq<Reply>) { !Retry(row, replies).cut }

  /** The send log of a visit stays inside the attempts it claimed, and inside the cap. */
  lemma {:induction false} SendsWithinAttempts(row: Row, replies: seq<Reply>)
    ensures var v := Retry(row, replies);
      && row.attempts <= v.row.attempts
      && v.sends <= v.row.attempts - row.attempts
      && (row.attempts <= MAX_TOTAL_ATTEMPTS ==> row.attempts + v.sends <= MAX_TOTAL_ATTEMPTS)
    decreases |replies|
  {
    if replies != [] && row.status == Pending && row.attempts + 1 <= MAX_TOTAL_ATTEMPTS {
      SendsWithinAttempts(row.(attempts := row.attempts + 1), replies[1..]);
    }
  }

  /** A row left pending by an uncut visit has used up the whole retry loop. */
  lemma {:induction false} PendingMeansExhausted(row: Row, replies: seq<Reply>)
    requires row.status == Pending && Uncut(row, replies)
    ensures var v := Retry(row, replies);
      v.row.status == Pending ==>
        v.row.attempts == row.attempts + |replies| && v.sends == |replies|
        && (forall i :: 0 <= i < |replies| ==> !replies[i].ok && replies[i].retryable && !replies[i].stopped)
        && (|replies| > 0 ==> v.row.attempts <= MAX_TOTAL_ATTEMPTS)
    decreases |replies|
  {
    if replies != [] && row.attempts + 1 <= MAX_TOTAL_ATTEMPTS && !replies[0].ok && replies[0].retryable {
      PendingMeansExhausted(row.(attempts := row.attempts + 1), replies[1..]);
      assert forall i :: 0 < i < |replies| ==> replies[i] == replies[1..][i - 1];
    }
  }

  lemma TimesSucc(a: nat, b: nat)
    ensures a * (b + 1) == a + a * b
  {
  }

  lemma EnoughAttempts(retries: nat, visits: nat)
    requires retries >= 1 && visits >= (MAX_TOTAL_ATTEMPTS + 1 + retries - 1) / retries
    ensures retries * visits > MAX_TOTAL_ATTEMPTS
  {
    var q := (MAX_TOTAL_ATTEMPTS + retries) / retries;
    assert MAX_TOTAL_ATTEMPTS + retries == retries * q + (MAX_TOTAL_ATTEMPTS + retries) % retries;
    assert retries * visits == retries * q + retries * (visits - q);
    assert retries * (visits - q) >= 0;
  }

  function AllRetryable(n: nat): (r: seq<Reply>)
    ensures |r| == n
  {
    if n == 0 then [] else [Reply(false, true, false)] + AllRetryable(n - 1)
  }

  lemma {:induction false} RetryableVisit(start: nat, n: nat)
    requires start + n <= MAX_TOTAL_ATTEMPTS
    ensures Retry(Row(Pending, start), AllRetryable(n)).row == Row(Pending, start + n)
    decreases n
  {
    if n > 0 {
      assert AllRetryable(n)[1..] == AllRetryable(n - 1);
      RetryableVisit(start + 1, n - 1);
    }
  }

  /** sent and permanent_fail are absorbing under every visit. */
  lemma VisitAdvances(db: Table, k: Key, suppressed: bool, replies: seq<Reply>)
    ensures Advances(db, Visit(db, k, suppressed, replies))
    ensures forall j :: j != k ==> (j in db <==> j in Visit(db, k, suppressed, replies))
    ensures suppressed && k !in db ==> k !in Visit(db, k, suppressed, replies)
    ensures suppressed ==> !IsPending(Visit(db, k, suppressed, replies), k)
  {
    if k in db {
      SendsWithinAttempts(db[k], replies);
    }
  }

  // ---------------------------------------------------------------------
  // The dispatcher
  // ---------------------------------------------------------------------

  const MAX_QUEUE: nat := 10_000

  datatype Lot = Lot(id: int, hasRegion: bool)
  datatype Target = Target(channel: string, recipient: string)

  /** What the code asks of its collaborators while it works through rows. */
  datatype World = World(
    registered: string -> bool,
    lotExists: int -> bool,
    suppressed: Key -> bool,
    replies: Key -> seq<Reply>)

  /** Once the stop event is set every backoff wait returns at once. */
  function Heed(stop: bool, replies: seq<Reply>): (r: seq<Reply>)
    ensures |r| == |replies|
    ensures !stop ==> r == replies
    ensures forall i :: 0 <= i < |r| ==>
      r[i].ok == replies[i].ok && r[i].retryable == replies[i].retryable && (r[i].stopped <==> replies[i].stopped || stop)
  {
    seq(|replies|, i requires 0 <= i < |replies| => replies[i].(stopped := replies[i].stopped || stop))
  }

  /** What the recovery sweep does to one listed row. */
  function RecoveredRow(row: Option<Row>, k: Key, w: World): Option<Row> {
    if !w.registered(k.channel) then row
    else if !w.lotExists(k.lot) then
      (match row
       case None => None
       case Some(r) => Some(if r.status == Pending then r.(status := PermanentFail) else r))
    else VisitRow(row, w.suppressed(k), w.replies(k))
  }

  function StartRow(before: Option<Row>): Row { if before.Some? then before.value else Row(Pending, 0) }

  /** One visit to one row with the answers of this world. */
  ghost predicate OneVisit(k: Key, w: World, before: Option<Row>, after: Option<Row>) {
    exists sends: nat, delivered: bool :: VisitDone(before, w.suppressed(k), w.replies(k), false, after, sends, delivered)
  }

  lemma OneVisitIs(before: Option<Row>, k: Key, w: World)
    ensures OneVisit(k, w, before, VisitRow(before, w.suppressed(k), w.replies(k)))
  {
    VisitIs(before, w.suppressed(k), w.replies(k), false);
  }

  /** What recovery does to one row: an unknown channel leaves it, a lot that is gone or suppressed
      gives it up if pending, and otherwise it gets one visit. */
  ghost predicate RetryDone(k: Key, w: World, before: Option<Row>, after: Option<Row>) {
    if !w.registered(k.channel) then after == before
    else if !w.lotExists(k.lot) then after == GivenUp(before)
    else OneVisit(k, w, before, after)
  }

  lemma RecoveredIs(before: Option<Row>, k: Key, w: World)
    ensures RetryDone(k, w, before, RecoveredRow(before, k, w))
  {
    OneVisitIs(before, k, w);
  }

  /** What a visit does to the row, said without its loop. A suppressed one gives up a pending row
      and leaves any other, or none, as it was; a closed row stays; an absent row is made first.
      The row is sent afterwards exactly if it was before or this visit delivered. */
  ghost predicate VisitDone(before: Option<Row>, suppressed: bool, replies: seq<Reply>, stop: bool,
                            after: Option<Row>, sends: nat, delivered: bool) {
    && (after.Some? && after.value.status == Sent <==> (before.Some? && before.value.status == Sent) || delivered)
    && if suppressed then
         && sends == 0 && !delivered
         && after == GivenUp(before)
       else if before.Some? && before.value.status != Pending then
         after == before && sends == 0 && !delivered
       else
         && after.Some?
         && exists m: nat, cut: bool ::
              LoopEnded(StartRow(before), Heed(stop, replies), m, after.value, sends, delivered, cut)
  }

  /** mark_permanent_fail on this row: attempts kept, and nothing happens to any row but a pending one. */
  function GivenUp(row: Option<Row>): (r: Option<Row>)
    ensures row.Some? && row.value.status == Pending ==> r == Some(Row(PermanentFail, row.value.attempts))
    ensures row.None? || row.value.status != Pending ==> r == row
  {
    if row.Some? && row.value.status == Pending then Some(row.value.(status := PermanentFail)) else row
  }

  lemma VisitIs(before: Option<Row>, suppressed: bool, replies: seq<Reply>, stop: bool)
    ensures var v := if suppressed then Visited(Row(Pending, 0), 0, false, false)
                     else Retry(StartRow(before), Heed(stop, replies));
      VisitDone(before, suppressed, replies, stop, VisitRow(before, suppressed, Heed(stop, replies)), v.sends, v.delivered)
  {
    var row := StartRow(before);
    if !suppressed && row.status == Pending {
      var m := RetryEnds(row, Heed(stop, replies));
      SentIffDelivered(row, Heed(stop, replies));
    }
  }

  class Dispatcher {
    const repo: Repository
    const retryAttempts: nat
    var queue: seq<Lot>
    var warnedNullRegion: set<int>
    var stop: bool

    constructor (repo: Repository, retryAttempts: nat)
      ensures this.repo == repo && this.retryAttempts == retryAttempts
      ensures queue == [] && warnedNullRegion == {} && !stop
    {
      this.repo, this.retryAttempts := repo, retryAttempts;
      queue, warnedNullRegion, stop := [], {}, false;
    }

    /** Never blocks: a full queue drops the lot. */
    method Dispatch(lot: Lot) returns (warned: bool)
      modifies this`queue, this`warnedNullRegion
      ensures queue == if |old(queue)| < 10_000 then old(queue) + [lot] else old(queue)
      ensures warned == (!lot.hasRegion && lot.id !in old(warnedNullRegion))
      ensures warnedNullRegion == old(warnedNullRegion) + if lot.hasRegion then {} else {lot.id}
    {
      warned := !lot.hasRegion && lot.id !in warnedNullRegion;
      if warned {
        warnedNullRegion := warnedNullRegion + {lot.id};
      }
      if |queue| < MAX_QUEUE {
        queue := queue + [lot];
      }
    }

    /** One round: claim an attempt, then send and store the outcome, or give up at the cap. */
    method SendRound(k: Key, reply: Reply) returns (sent: bool, delivered: bool, again: bool)
      requires IsPending(repo.rows, k)
      modifies this`stop, repo
      ensures var t := TryOnce(old(repo.rows)[k], reply.(stopped := reply.stopped || old(stop)));
        && repo.rows == old(repo.rows)[k := t.row]
        && sent == t.sent && delivered == t.delivered && again == t.again && stop == (old(stop) || t.cut)
    {
      sent, delivered, again := false, false, false;
      var attempt := repo.MarkAttempt(k);
      if attempt == None {
        return;
      }
      if attempt.value > MAX_TOTAL_ATTEMPTS {
        repo.MarkPermanentFail(k);
        return;
      }
      sent := true;
      if reply.ok {
        repo.MarkSent(k);
        delivered := true;
        return;
      }
      if !reply.retryable {
        repo.MarkPermanentFail(k);
        return;
      }
      if stop || reply.stopped {
        stop := true;
        return;
      }
      again := true;
    }

    /** The retry loop of `_send_one`, on a row known to be pending. */
    method RetryLoop(k: Key, replies: seq<Reply>) returns (sends: nat, delivered: bool)
      requires |replies| == retryAttempts && IsPending(repo.rows, k)
      modifies this`stop, repo
      ensures var v := Retry(old(repo.rows)[k], Heed(old(stop), replies));
        && repo.rows == old(repo.rows)[k := v.row]
        && sends == v.sends && delivered == v.delivered && stop == (old(stop) || v.cut)
    {
      sends, delivered := 0, false;
      ghost var table, heeded := repo.rows, Heed(stop, replies);
      ghost var row := table[k];
      var i := 0;
      while i < retryAttempts
        invariant i <= retryAttempts && sends == i && !delivered && stop == old(stop)
        invariant row.status == Pending && repo.rows == table[k := row]
        invariant Retry(table[k], heeded) == var rest := Retry(row, heeded[i..]); rest.(sends := rest.sends + i)
      {
        assert heeded[i..][0] == heeded[i] && heeded[i..][1..] == heeded[i + 1..];
        RetryOpens(row, heeded[i..]);
        row := TryOnce(row, heeded[i]).row;
        var sent, again;
        sent, delivered, again := SendRound(k, replies[i]);
        sends := sends + if sent then 1 else 0;
        if !again {
          return;
        }
        i := i + 1;
      }
      assert heeded[i..] == [];
    }

    method SendOne(k: Key, suppressed: bool, replies: seq<Reply>) returns (sends: nat, delivered: bool)
      requires |replies| == retryAttempts
      modifies this`stop, repo
      ensures repo.rows == Visit(old(repo.rows), k, suppressed, Heed(old(stop), replies))
      ensures suppressed ==> sends == 0 && !delivered && stop == old(stop)
      ensures !suppressed ==>
        var v := Retry(RowOf(Reserved(old(repo.rows), k), k).value, Heed(old(stop), replies));
        sends == v.sends && delivered == v.delivered && stop == (old(stop) || v.cut)
      ensures VisitDone(old(RowOf(repo.rows, k)), suppressed, replies, old(stop), RowOf(repo.rows, k), sends, delivered)
      ensures forall j :: j != k ==> RowOf(repo.rows, j) == old(RowOf(repo.rows, j))
    {
      VisitIs(RowOf(repo.rows, k), suppressed, replies, stop);
      sends, delivered := 0, false;
      var status := repo.StatusOf(k);
      if suppressed {
        if status == Some(Pending) {
          repo.MarkPermanentFail(k);
        }
        return;
      }
      if status == Some(Sent) || status == Some(PermanentFail) {
        return;
      }
      if status == None {
        var _ := repo.Reserve(k);
      }
      sends, delivered := RetryLoop(k, replies);
    }

    /** DnD gates only this fresh path; the lot is not re-queued. Every channel and recipient
        gets one visit, and no other row is touched. */
    method DispatchAllChannels(lot: Lot, dndActive: bool, targets: seq<Target>, w: World)
      requires Distinct(targets)
      requires forall k :: |w.replies(k)| == retryAttempts
      modifies this`stop, repo
      ensures old(stop) ==> stop
      ensures dndActive ==> repo.rows == old(repo.rows) && stop == old(stop)
      ensures forall k: Key | k.lot != lot.id || Target(k.channel, k.recipient) !in targets ::
                RowOf(repo.rows, k) == RowOf(old(repo.rows), k)
      ensures !dndActive && !stop ==> forall k: Key | k.lot == lot.id && Target(k.channel, k.recipient) in targets ::
                RowOf(repo.rows, k) == VisitRow(RowOf(old(repo.rows), k), w.suppressed(k), w.replies(k))
                && OneVisit(k, w, RowOf(old(repo.rows), k), RowOf(repo.rows, k))
    {
      forall k {
        OneVisitIs(RowOf(repo.rows, k), k, w);
      }
      if dndActive {
        return;
      }
      for i := 0 to |targets|
        invariant old(stop) ==> stop
        invariant forall k: Key | k.lot != lot.id || Target(k.channel, k.recipient) !in targets[..i] ::
                    RowOf(repo.rows, k) == RowOf(old(repo.rows), k)
        invariant !stop ==> forall k: Key | k.lot == lot.id && Target(k.channel, k.recipient) in targets[..i] ::
                    RowOf(repo.rows, k) == VisitRow(RowOf(old(repo.rows), k), w.suppressed(k), w.replies(k))
      {
        var k := Key(lot.id, targets[i].channel, targets[i].recipient);
        assert targets[..i + 1] == targets[..i] + [targets[i]];
        assert Target(k.channel, k.recipient) !in targets[..i];
        var _, _ := SendOne(k, w.suppressed(k), w.replies(k));
      }
      assert targets[..|targets|] == targets;
    }

    method RetryOne(k: Key, w: World)
      requires |w.replies(k)| == retryAttempts && !stop
      modifies this`stop, repo
      ensures repo.rows == WithRow(old(repo.rows), k, RecoveredRow(RowOf(old(repo.rows), k), k, w))
      ensures RetryDone(k, w, old(RowOf(repo.rows, k)), RowOf(repo.rows, k))
      ensures forall j :: j != k ==> RowOf(repo.rows, j) == old(RowOf(repo.rows, j))
    {
      RecoveredIs(RowOf(repo.rows, k), k, w);
      if !w.registered(k.channel) {
        return;
      }
      if !w.lotExists(k.lot) {
        repo.MarkPermanentFail(k);
        return;
      }
      var _, _ := SendOne(k, w.suppressed(k), w.replies(k));
    }

    /** One recovery sweep over the rows that were listed when it began. */
    method Recover(listed: seq<Key>, w: World) returns (visited: nat)
      requires Distinct(listed)
      requires forall k :: |w.replies(k)| == retryAttempts
      modifies this`stop, repo
      ensures visited <= |listed|
      ensures !stop ==> visited == |listed|
      ensures forall k :: RowOf(repo.rows, k) == if k in listed[..visited]
                then RecoveredRow(RowOf(old(repo.rows), k), k, w) else RowOf(old(repo.rows), k)
      ensures forall k :: k in listed[..visited] ==> RetryDone(k, w, old(RowOf(repo.rows, k)), RowOf(repo.rows, k))
    {
      forall k {
        RecoveredIs(RowOf(repo.rows, k), k, w);
      }
      visited := 0;
      while visited < |listed|
        invariant visited <= |listed|
        invariant forall k :: RowOf(repo.rows, k) == if k in listed[..visited]
                    then RecoveredRow(RowOf(old(repo.rows), k), k, w) else RowOf(old(repo.rows), k)
      {
        if stop {
          return;
        }
        var k := listed[visited];
        assert k !in listed[..visited];
        assert listed[..visited + 1] == listed[..visited] + [k];
        RetryOne(k, w);
        visited := visited + 1;
      }
    }
  }

  function RecoveredRows(row: Row, k: Key, worlds: seq<World>): Row
    decreases |worlds|
  {
    if worlds == [] then row
    else RecoveredRows(RecoveredRow(Some(row), k, worlds[0]).value, k, worlds[1..])
  }

  /** The sweep visits the row and no shutdown cuts the visit short. */
  predicate FullVisit(row: Row, k: Key, w: World) {
    w.registered(k.channel) && (w.lotExists(k.lot) && !w.suppressed(k) ==> Uncut(row, w.replies(k)))
  }

  /** How many of the sweeps were full visits, of the row as it then was. */
  function FullVisits(row: Row, k: Key, worlds: seq<World>): nat
    decreases |worlds|
  {
    if worlds == [] then 0
    else
      var later := FullVisits(RecoveredRow(Some(row), k, worlds[0]).value, k, worlds[1..]);
      if FullVisit(row, k, worlds[0]) then later + 1 else later
  }

  /** Any visit that leaves the row pending leaves it within the cap, if it claimed an attempt. */
  lemma {:induction false} PendingWithinCap(row: Row, replies: seq<Reply>)
    requires row.status == Pending
    ensures var v := Retry(row, replies);
      v.row.status == Pending && (replies != [] || row.attempts <= MAX_TOTAL_ATTEMPTS) ==> v.row.attempts <= MAX_TOTAL_ATTEMPTS
    decreases |replies|
  {
    if replies != [] && row.attempts + 1 <= MAX_TOTAL_ATTEMPTS {
      PendingWithinCap(row.(attempts := row.attempts + 1), replies[1..]);
    }
  }

  /** One sweep on a pending row. */
  lemma SweepOnce(row: Row, k: Key, w: World, retries: nat)
    requires row.status == Pending && retries >= 1 && |w.replies(k)| == retries
    ensures var next := RecoveredRow(Some(row), k, w).value;
      next.status == Pending ==>
        && next.attempts >= row.attempts + (if FullVisit(row, k, w) then retries else 0)
        && (row.attempts <= MAX_TOTAL_ATTEMPTS || FullVisit(row, k, w) ==> next.attempts <= MAX_TOTAL_ATTEMPTS)
  {
    SendsWithinAttempts(row, w.replies(k));
    PendingWithinCap(row, w.replies(k));
    if Uncut(row, w.replies(k)) { PendingMeansExhausted(row, w.replies(k)); }
  }

  lemma {:induction false} PendingAfterSweeps(row: Row, k: Key, worlds: seq<World>, retries: nat)
    requires retries >= 1 && forall i :: 0 <= i < |worlds| ==> |worlds[i].replies(k)| == retries
    ensures var end, visits := RecoveredRows(row, k, worlds), FullVisits(row, k, worlds);
      end.status == Pending ==>
        && row.attempts + retries * visits <= end.attempts
        && (row.attempts <= MAX_TOTAL_ATTEMPTS || visits > 0 ==> end.attempts <= MAX_TOTAL_ATTEMPTS)
    ensures row.status != Pending ==> RecoveredRows(row, k, worlds) == row
    decreases |worlds|
  {
    if worlds != [] {
      var next := RecoveredRow(Some(row), k, worlds[0]).value;
      if row.status == Pending { SweepOnce(row, k, worlds[0], retries); }
      PendingAfterSweeps(next, k, worlds[1..], retries);
      TimesSucc(retries, FullVisits(next, k, worlds[1..]));
    }
  }

  /** Whatever the sweeps meet -- shutdowns that cut visits short, restarts, an unregistered
      channel for a while -- a row is terminal once ceil(11 / retry_attempts) of them were full
      visits. */
  lemma SweepsTerminate(row: Row, k: Key, worlds: seq<World>, retries: nat)
    requires retries >= 1 && forall i :: 0 <= i < |worlds| ==> |worlds[i].replies(k)| == retries
    requires FullVisits(row, k, worlds) >= (MAX_TOTAL_ATTEMPTS + 1 + retries - 1) / retries
    ensures RecoveredRows(row, k, worlds).status != Pending
  {
    var visits := FullVisits(row, k, worlds);
    EnoughAttempts(retries, visits);
    assert visits > 0;
    PendingAfterSweeps(row, k, worlds, retries);
  }

  /** Rows of a channel nobody registers stay as they are, however often they are swept. */
  lemma {:induction false} UnregisteredStaysPending(row: Row, k: Key, worlds: seq<World>)
    requires forall i :: 0 <= i < |worlds| ==> !worlds[i].registered(k.channel)
    ensures RecoveredRows(row, k, worlds) == row
    decreases |worlds|
  {
    if worlds != [] {
      UnregisteredStaysPending(row, k, worlds[1..]);
    }
  }

  /** The bound is tight: while the cap is not exceeded a row can stay pending. */
  lemma {:induction false} FewerSweepsMayNotDo(k: Key, worlds: seq<World>, retries: nat, start: nat)
    requires start + retries * |worlds| <= MAX_TOTAL_ATTEMPTS
    requires forall i :: 0 <= i < |worlds| ==>
               && worlds[i].registered(k.channel) && worlds[i].lotExists(k.lot)
               && !worlds[i].suppressed(k) && worlds[i].replies(k) == AllRetryable(retries)
    ensures RecoveredRows(Row(Pending, start), k, worlds) == Row(Pending, start + retries * |worlds|)
    decreases |worlds|
  {
    if worlds != [] {
      TimesSucc(retries, |worlds[1..]|);
      RetryableVisit(start, retries);
      FewerSweepsMayNotDo(k, worlds[1..], retries, start + retries);
    }
  }
}

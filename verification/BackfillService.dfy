/** The backfill service as one thread sees it: start, cancel, the row loop and the worker body. */
module BackfillService {
  import opened Prelude
  import opened Backfill
  import opened PaginatedFetch
  import FullScan

  // ---------------------------------------------------------------------
  // The row loop
  // ---------------------------------------------------------------------

  /** A listed row: when its lot was created, and whether converting and upserting it succeed. */
  datatype Row = Row(id: int, created: int, converts: bool, upserts: bool)

  datatype RowsEnd = Exhausted | DateStop | Cut

  /** The lots written for these rows; a row that fails is skipped, not fatal. */
  function Written(rows: seq<Row>): seq<int> {
    if rows == [] then []
    else
      var before := Written(rows[..|rows| - 1]);
      var row := rows[|rows| - 1];
      if row.converts && row.upserts then before + [row.id] else before
  }

  function IdsOf(rows: seq<Row>): (ids: seq<int>)
    ensures |ids| == |rows|
  {
    seq(|rows|, i requires 0 <= i < |rows| => rows[i].id)
  }

  predicate AllStored(rows: seq<Row>) {
    forall row <- rows :: row.converts && row.upserts
  }

  /** Every row is written, in order, if and only if each converts and upserts; otherwise fewer are. */
  lemma {:induction false} WrittenCount(rows: seq<Row>)
    ensures |Written(rows)| <= |rows|
    ensures |Written(rows)| == |rows| <==> AllStored(rows)
    ensures AllStored(rows) ==> Written(rows) == IdsOf(rows)
  {
    if rows != [] {
      var front, last := rows[..|rows| - 1], rows[|rows| - 1];
      WrittenCount(front);
      assert rows == front + [last];
      assert IdsOf(rows) == IdsOf(front) + [last.id];
    }
  }

  /** The rows inside the window, in order. */
  function InWindow(rows: seq<Row>, cutoff: int): seq<Row> {
    if rows == [] then []
    else
      var before := InWindow(rows[..|rows| - 1], cutoff);
      var row := rows[|rows| - 1];
      if row.created >= cutoff then before + [row] else before
  }

  predicate NewestFirst(rows: seq<Row>) {
    forall i, j :: 0 <= i < j < |rows| ==> rows[i].created >= rows[j].created
  }

  lemma {:induction false} WindowIsPrefix(rows: seq<Row>, cutoff: int, n: nat)
    requires n <= |rows|
    requires forall i :: 0 <= i < n ==> rows[i].created >= cutoff
    requires forall i :: n <= i < |rows| ==> rows[i].created < cutoff
    ensures InWindow(rows, cutoff) == rows[..n]
  {
    if rows != [] {
      var front := rows[..|rows| - 1];
      if n == |rows| {
        WindowIsPrefix(front, cutoff, n - 1);
        assert rows[..n] == front[..n - 1] + [rows[n - 1]];
      } else {
        WindowIsPrefix(front, cutoff, n);
        assert rows[..n] == front[..n];
      }
    }
  }

  /** The loop over the fetched rows; the stop event is looked at before each row and first found
      set after `clear` looks. */
  method ProcessRows(rows: seq<Row>, cutoff: int, clear: nat) returns (written: seq<int>, n: nat, end: RowsEnd)
    ensures n <= |rows| && n <= clear && written == Written(rows[..n])
    ensures forall i :: 0 <= i < n ==> rows[i].created >= cutoff
    ensures end == Exhausted <==> n == |rows|
    ensures end == Cut <==> n < |rows| && n == clear
    ensures end == DateStop <==> n < |rows| && n < clear
    ensures end == DateStop ==> rows[n].created < cutoff
  {
    written, n := [], 0;
    while n < |rows|
      invariant n <= |rows| && n <= clear && written == Written(rows[..n])
      invariant forall i :: 0 <= i < n ==> rows[i].created >= cutoff
    {
      if n == clear {
        end := Cut;
        return;
      }
      if rows[n].created < cutoff {
        end := DateStop;
        return;
      }
      assert rows[..n + 1][..n] == rows[..n];
      if rows[n].converts && rows[n].upserts {
        written := written + [rows[n].id];
      }
      n := n + 1;
    }
    end := Exhausted;
  }

  /** On a listing sorted newest first, the rows before the first old one are the whole window:
      stopping there loses nothing. */
  lemma WindowComplete(listing: seq<Row>, cutoff: int, n: nat)
    requires NewestFirst(listing) && n <= |listing|
    requires forall i :: 0 <= i < n ==> listing[i].created >= cutoff
    ensures InWindow(listing, cutoff) == listing[..n] <==> n == |listing| || listing[n].created < cutoff
  {
    if n == |listing| || listing[n].created < cutoff {
      WindowIsPrefix(listing, cutoff, n);
    } else {
      InsideKept(listing, cutoff, n);
      assert listing[n] !in listing[..n] || |InWindow(listing, cutoff)| > n;
    }
  }

  /** An in-window row behind n in-window ones makes the window longer than n. */
  lemma {:induction false} InsideKept(listing: seq<Row>, cutoff: int, n: nat)
    requires n < |listing| && forall i :: 0 <= i <= n ==> listing[i].created >= cutoff
    ensures |InWindow(listing, cutoff)| > n
  {
    var front := listing[..|listing| - 1];
    if n < |front| {
      InsideKept(front, cutoff, n);
    } else {
      WindowIsPrefix(front, cutoff, n);
    }
  }

  // ---------------------------------------------------------------------
  // One region: the page walk feeding the row loop
  // ---------------------------------------------------------------------

  const MAX_PAGES: nat := 5

  /** The backfill's own walk: five pages, both failures raised. */
  const REGION_WALK: Query := Query(1, Some(MAX_PAGES), true, true)

  datatype RegionEnd = DateStopped | CutShort | Ended(end: End)

  /** The rows taken through the loop, the page the walk stood at, the pages parsed, the ending. */
  datatype Region = Region(rows: seq<int>, page: nat, parsed: nat, end: RegionEnd)

  /** Listed row ids with the data read for them. */
  function Infos(ids: seq<int>, info: int -> Row): (r: seq<Row>)
    ensures |r| == |ids|
  {
    seq(|ids|, i requires 0 <= i < |ids| => info(ids[i]))
  }

  lemma InfosConcat(a: seq<int>, b: seq<int>, info: int -> Row)
    ensures Infos(a + b, info) == Infos(a, info) + Infos(b, info)
  {
  }

  ghost predicate AllInWindow(ids: seq<int>, info: int -> Row, cutoff: int) {
    forall i :: 0 <= i < |ids| ==> info(ids[i]).created >= cutoff
  }

  /** Having taken in full the pages before `page`, each of which held rows inside the window. */
  ghost predicate Before(pages: nat -> Response, info: int -> Row, cutoff: int, page: nat, rows: seq<int>) {
    && 1 <= page <= MAX_PAGES + 1
    && (forall p: nat :: 1 <= p < page ==> Yields(pages(p)))
    && rows == Listed(pages, 1, page) && AllInWindow(rows, info, cutoff)
  }

  /** What a region run is, without its loops: it took the pages before the one it stands at and
      `here` rows of that one, all inside the window, and ended there for the reason it names. */
  ghost predicate RegionOf(pages: nat -> Response, info: int -> Row, cutoff: int, r: Region) {
    var before := Listed(pages, 1, r.page);
    var here := |r.rows| - |before|;
    && Before(pages, info, cutoff, r.page, before)
    && 0 <= here <= |RowsOf(pages(r.page))|
    && r.rows == before + RowsOf(pages(r.page))[..here] && AllInWindow(r.rows, info, cutoff)
    && match r.end
       case Ended(MaxPages) => r.page == MAX_PAGES + 1 && here == 0
       case Ended(end) => r.page <= MAX_PAGES && here == 0 && !Yields(pages(r.page)) && end == EndAt(pages(r.page), REGION_WALK)
       case DateStopped => r.page <= MAX_PAGES && here < |RowsOf(pages(r.page))| && info(RowsOf(pages(r.page))[here]).created < cutoff
       case CutShort => r.page <= MAX_PAGES
  }

  lemma NextPage(pages: nat -> Response, info: int -> Row, cutoff: int, page: nat, rows: seq<int>)
    requires Before(pages, info, cutoff, page, rows) && page <= MAX_PAGES && Yields(pages(page))
    requires AllInWindow(pages(page).rows, info, cutoff)
    ensures Before(pages, info, cutoff, page + 1, rows + pages(page).rows)
  {
    assert Listed(pages, 1, page + 1) == rows + pages(page).rows;
  }

  lemma StopsOnPage(pages: nat -> Response, info: int -> Row, cutoff: int, page: nat, rows: seq<int>, n: nat, end: RegionEnd)
    requires Before(pages, info, cutoff, page, rows) && n <= |RowsOf(pages(page))|
    requires AllInWindow(RowsOf(pages(page))[..n], info, cutoff)
    requires page <= MAX_PAGES
    requires end == CutShort || (end == DateStopped && n < |RowsOf(pages(page))| && info(RowsOf(pages(page))[n]).created < cutoff)
    ensures RegionOf(pages, info, cutoff, Region(rows + RowsOf(pages(page))[..n], page, page, end))
  {
    hide Listed;
  }

  lemma EndsAtPage(pages: nat -> Response, info: int -> Row, cutoff: int, page: nat, rows: seq<int>, r: Region)
    requires Before(pages, info, cutoff, page, rows) && r.rows == rows && r.page == page
    requires
      || (page <= MAX_PAGES && r.end == CutShort)
      || (page <= MAX_PAGES && !Yields(pages(page)) && r.end == Ended(EndAt(pages(page), REGION_WALK)))
      || (page == MAX_PAGES + 1 && r.end == Ended(MaxPages))
    ensures RegionOf(pages, info, cutoff, r)
  {
    hide Listed;
    assert RowsOf(pages(page))[..0] == [];
  }

  lemma TakenInWindow(ids: seq<int>, info: int -> Row, cutoff: int, n: nat)
    requires n <= |ids| && forall i :: 0 <= i < n ==> Infos(ids, info)[i].created >= cutoff
    ensures AllInWindow(ids[..n], info, cutoff)
  {
    forall i | 0 <= i < n ensures info(ids[..n][i]).created >= cutoff {
      assert Infos(ids, info)[i] == info(ids[i]);
    }
  }

  /** The first total any of the pages 1 to k carried. */
  function FirstTotal(totals: nat -> Option<int>, k: nat): Option<int> {
    if k == 0 then None
    else if FirstTotal(totals, k - 1).Some? then FirstTotal(totals, k - 1)
    else totals(k)
  }

  lemma {:induction false} FirstTotalIs(totals: nat -> Option<int>, k: nat)
    ensures FirstTotal(totals, k).None? <==> forall p: nat :: 1 <= p <= k ==> totals(p).None?
    ensures forall p: nat :: 1 <= p <= k && totals(p).Some? && (forall q: nat :: 1 <= q < p ==> totals(q).None?) ==>
      FirstTotal(totals, k) == totals(p)
  {
    if k > 0 { FirstTotalIs(totals, k - 1); }
  }

  lemma {:induction false} WrittenConcat(a: seq<Row>, b: seq<Row>)
    ensures Written(a + b) == Written(a) + Written(b)
  {
    if b == [] {
      assert a + b == a;
    } else {
      WrittenConcat(a, b[..|b| - 1]);
      assert (a + b)[..|a + b| - 1] == a + b[..|b| - 1];
    }
  }

  /** Taking n more rows through the loop. */
  lemma PageTaken(rows: seq<int>, page: seq<int>, n: nat, info: int -> Row, cutoff: int)
    requires n <= |page| && forall i :: 0 <= i < n ==> Infos(page, info)[i].created >= cutoff
    ensures Written(Infos(rows + page[..n], info)) == Written(Infos(rows, info)) + Written(Infos(page, info)[..n])
    ensures AllInWindow(page[..n], info, cutoff)
    ensures n == |page| ==> page[..n] == page
    ensures n < |page| ==> Infos(page, info)[n] == info(page[n])
  {
    InfosConcat(rows, page[..n], info);
    assert Infos(page[..n], info) == Infos(page, info)[..n];
    WrittenConcat(Infos(rows, info), Infos(page[..n], info));
    TakenInWindow(page, info, cutoff, n);
  }

  lemma RegionStarts(pages: nat -> Response, info: int -> Row, cutoff: int)
    ensures Before(pages, info, cutoff, 1, []) && Infos([], info) == [] && Written([]) == []
  {
  }

  /** The generator and the row loop together. The stop event is looked at before and after each
      page and before each row, and first found set after `clear` looks; without that the run is
      never cut short. */
  method ProcessRegion(pages: nat -> Response, totals: nat -> Option<int>, info: int -> Row, cutoff: int, clear: nat)
    returns (r: Region, written: seq<int>, total: Option<int>)
    ensures RegionOf(pages, info, cutoff, r)
    ensures written == Written(Infos(r.rows, info)) && total == FirstTotal(totals, r.parsed)
    ensures r.parsed <= r.page <= r.parsed + 1
    ensures r.end == CutShort ==> clear < |r.rows| + 2 * MAX_PAGES + 2
  {
    hide RegionOf, AllInWindow, Written, Infos, EndAt;
    var page, looks, rows: seq<int> := 1, clear, [];
    written, total := [], None;
    RegionStarts(pages, info, cutoff);
    while true
      invariant page <= MAX_PAGES && Before(pages, info, cutoff, page, rows)
      invariant looks == clear - |rows| - 2 * (page - 1)
      invariant written == Written(Infos(rows, info)) && total == FirstTotal(totals, page - 1)
      decreases MAX_PAGES - page
    {
      if looks == 0 {
        r := Region(rows, page, page - 1, CutShort);
        EndsAtPage(pages, info, cutoff, page, rows, r);
        return;
      }
      looks := looks - 1;
      var response := pages(page);
      if response.Rows? && total.None? {
        total := totals(page);
      }
      if !Yields(response) {
        r := Region(rows, page, if response.Rows? then page else page - 1, Ended(EndAt(response, REGION_WALK)));
        EndsAtPage(pages, info, cutoff, page, rows, r);
        return;
      }
      var batch, n, end := ProcessRows(Infos(response.rows, info), cutoff, looks);
      written, looks := written + batch, looks - n;
      PageTaken(rows, response.rows, n, info, cutoff);
      if end != Exhausted {
        r := Region(rows + response.rows[..n], page, page, if end == Cut then CutShort else DateStopped);
        StopsOnPage(pages, info, cutoff, page, rows, n, r.end);
        return;
      }
      NextPage(pages, info, cutoff, page, rows);
      rows := rows + response.rows;
      if page >= MAX_PAGES {
        r := Region(rows, page + 1, page, Ended(MaxPages));
        EndsAtPage(pages, info, cutoff, page + 1, rows, r);
        return;
      }
      page := page + 1;
      if looks == 0 {
        r := Region(rows, page, page - 1, CutShort);
        EndsAtPage(pages, info, cutoff, page, rows, r);
        return;
      }
      looks := looks - 1;
    }
  }

  lemma {:induction false} ListedGrows(pages: nat -> Response, k: nat, n: nat)
    requires 1 <= k <= n
    ensures Listed(pages, 1, k) <= Listed(pages, 1, n)
  {
    if k < n { ListedGrows(pages, k, n - 1); }
  }

  /** The walk gets at least to the page a region run stands at, and behind it if rows of it were taken. */
  lemma WalkPasses(pages: nat -> Response, info: int -> Row, cutoff: int, clear: nat, r: Region, w: Walk)
    requires RegionOf(pages, info, cutoff, r) && WalkOf(pages, REGION_WALK, clear, w) && w.end != StopSeen
    ensures 1 <= r.page <= w.last && (|r.rows| > |Listed(pages, 1, r.page)| ==> r.page < w.last)
    ensures r.end.Ended? ==> w.last == r.page && w.end == r.end.end
  {
    hide Listed, AllInWindow;
    var atEnd, here := pages(w.last), pages(r.page);
  }

  /** The region run is the fetcher's own walk, taken row by row: an undisturbed walk yields the
      rows taken first, and if the run ended with the walk, those are all and the ending is its. */
  lemma RegionFollowsWalk(pages: nat -> Response, info: int -> Row, cutoff: int, clear: nat, r: Region, w: Walk)
    requires RegionOf(pages, info, cutoff, r) && WalkOf(pages, REGION_WALK, clear, w) && w.end != StopSeen
    ensures r.rows <= w.rows
    ensures r.end.Ended? ==> r.rows == w.rows && r.end.end == w.end
  {
    hide AllInWindow;
    WalkPasses(pages, info, cutoff, clear, r, w);
    ListedGrows(pages, r.page, w.last);
    if r.page < w.last { ListedGrows(pages, r.page + 1, w.last); }
  }

  // ---------------------------------------------------------------------
  // The service
  // ---------------------------------------------------------------------

  class StopEvent {
    var isSet: bool

    constructor ()
      ensures !isSet
    {
      isSet := false;
    }

    method Fire()
      modifies this
      ensures isSet
    {
      isSet := true;
    }
  }

  class Service {
    var running: bool
    var stopEvent: StopEvent
    var showing: bool
    var done: bool
    var totalLast: Option<int>
    var skip: set<int>

    constructor (done: bool, totalLast: Option<int>)
      ensures !running && !showing && this.done == done && this.totalLast == totalLast && skip == {}
      ensures fresh(stopEvent) && !stopEvent.isSet
    {
      running, showing, skip := false, false, {};
      this.done, this.totalLast := done, totalLast;
      stopEvent := new StopEvent();
    }

    /** A claim comes with a fresh stop event, so an earlier cancel does not carry over; a claim
        refused changes nothing. */
    method Start() returns (started: bool)
      modifies this
      ensures started == !old(running)
      ensures running
      ensures started ==> fresh(stopEvent) && !stopEvent.isSet
      ensures !started ==> stopEvent == old(stopEvent)
      ensures showing == old(showing) && done == old(done) && totalLast == old(totalLast) && skip == old(skip)
    {
      if running {
        return false;
      }
      running := true;
      stopEvent := new StopEvent();
      return true;
    }

    /** Lots gone upstream only move the baseline; anything short of the trigger changes nothing. */
    method MaybeStart(siteTotal: Option<int>, dbCount: int, hint: nat) returns (started: bool)
      modifies this
      ensures var d := Decide(siteTotal, old(totalLast), dbCount, hint, old(running));
        && started == (d == Trigger)
        && running == (old(running) || d == Trigger)
        && totalLast == (if d == SkipNegative then siteTotal else old(totalLast))
        && (d == Trigger ==> fresh(stopEvent) && !stopEvent.isSet)
        && (d != Trigger ==> stopEvent == old(stopEvent))
      ensures var reference := if old(totalLast).Some? then old(totalLast).value else dbCount;
        var considered := siteTotal.Some? && !old(running);
        && (started <==> considered && siteTotal.value > reference + hint + 3)
        && (totalLast != old(totalLast) ==> considered && siteTotal.value < reference)
        && (considered && siteTotal.value < reference ==> totalLast == siteTotal)
      ensures showing == old(showing) && done == old(done) && skip == old(skip)
    {
      var last := totalLast;
      var decision := Decide(siteTotal, last, dbCount, hint, running);
      if decision == Trigger {
        running := true;
        stopEvent := new StopEvent();
      }
      if decision == SkipNegative {
        totalLast := siteTotal;
        return false;
      }
      return decision == Trigger;
    }

    method Cancel()
      modifies stopEvent
      ensures stopEvent.isSet
    {
      stopEvent.Fire();
    }

    /** The worker from its first look at the combined event to the released claim. `sawStop` is
        that look; a walk that raises, or meets an expired session, is an error. The final check
        finds a stop that cut the run short -- the machine shows that it does -- or one that came
        `late`. The flag is written exactly by a run that was neither stopped nor failed. */
    method Work(region: int, sawStop: bool, pages: nat -> Response, totals: nat -> Option<int>, info: int -> Row,
                cutoff: int, clear: nat, late: bool)
      returns (r: Region, written: seq<int>, flag: bool)
      requires running
      modifies this, stopEvent
      ensures !running && !showing && stopEvent == old(stopEvent) && stopEvent.isSet
      ensures skip == if sawStop then old(skip) else old(skip) - {region}
      ensures RegionOf(pages, info, cutoff, r) && written == Written(Infos(r.rows, info)) && (sawStop ==> r.rows == [])
      ensures flag <==> !late && !sawStop && r.end != CutShort && !Errored(r)
      ensures done == (old(done) || flag)
      ensures var total := FirstTotal(totals, r.parsed);
        totalLast == if flag && total.Some? then total else old(totalLast)
    {
      showing := true;
      r, written := Region([], 1, 0, CutShort), [];
      var total: Option<int> := None;
      if !sawStop {
        skip := skip + {region};
        r, written, total := ProcessRegion(pages, totals, info, cutoff, clear);
        skip := skip - {region};
      }
      var cancelled := late || sawStop || r.end == CutShort;
      flag := !cancelled && !Errored(r);
      if flag {
        done := true;
        if total.Some? {
          totalLast := total;
        }
      }
      stopEvent.Fire();
      running := false;
      showing := false;
    }
  }

  /** The walk raised, or the session had expired. */
  predicate Errored(r: Region) { r.end.Ended? && (r.end.end.Raised? || r.end.end.Expired?) }

  // ---------------------------------------------------------------------
  // What a written flag means
  // ---------------------------------------------------------------------

  /** The endings of a run that writes the flag: an old row, the empty page, five pages, or a
      parser crash, which alone of all failures is silent. */
  lemma OnlyCrashSwallowed(pages: nat -> Response, info: int -> Row, cutoff: int, r: Region)
    requires RegionOf(pages, info, cutoff, r) && r.end != CutShort
    ensures !Errored(r) <==>
      || r.end == DateStopped || r.end == Ended(MaxPages)
      || (r.end.Ended? && r.page <= MAX_PAGES && (pages(r.page) == Rows([]) || pages(r.page) == ParseCrash))
  {
  }

  /** How many pages of a site an undisturbed run takes in full, old rows aside. */
  function PagesReached(faults: map<nat, Response>, n: nat): nat {
    FirstFault(faults, FullScan.Min(n, MAX_PAGES)) - 1
  }

  ghost predicate OldestLast(site: nat -> seq<int>, n: nat, info: int -> Row) {
    NewestFirst(Infos(Catalogue(site, n), info))
  }

  /** Pages that yielded rows hold the catalogue up to there, and none of them is beyond the reach. */
  lemma TakenReached(site: nat -> seq<int>, faults: map<nat, Response>, n: nat, page: nat)
    requires SiteOf(site, n) && RealFaults(faults) && 1 <= page <= MAX_PAGES + 1
    requires forall p: nat :: 1 <= p < page ==> Yields(Answer(site, faults)(p))
    ensures page - 1 <= PagesReached(faults, n) <= n
    ensures Listed(Answer(site, faults), 1, page) == Catalogue(site, page - 1)
  {
    var pages := Answer(site, faults);
    hide Listed, Catalogue, Distinct;
    forall p: nat | 1 <= p < page ensures p !in faults && p <= n {
      assert Yields(pages(p)) && (p <= n || Yields(pages(n + 1)));
    }
    var f := PagesReached(faults, n) + 1;
    assert f < page ==> f !in faults;
    assert page > 1 ==> page - 1 <= n;
    ListedIsCatalogue(site, faults, page);
  }

  lemma CataloguePrefix(site: nat -> seq<int>, p: nat, here: nat, k: nat, n: nat)
    requires 1 <= p <= k <= n && here <= |site(p)|
    ensures var rows, all := Catalogue(site, p - 1) + site(p)[..here], Catalogue(site, n);
      rows <= all && (here < |site(p)| ==> |rows| < |Catalogue(site, k)| <= |all| && all[|rows|] == site(p)[here])
  {
    CatalogueGrows(site, p, k);
    CatalogueGrows(site, k, n);
    assert Catalogue(site, p) == Catalogue(site, p - 1) + site(p);
  }

  /** A run that ended with the walk, and raised nothing, stands right behind the pages reached. */
  lemma EndedReached(site: nat -> seq<int>, faults: map<nat, Response>, n: nat, info: int -> Row, cutoff: int, r: Region)
    requires SiteOf(site, n) && RealFaults(faults)
    requires RegionOf(Answer(site, faults), info, cutoff, r) && r.end.Ended? && !Errored(r)
    ensures r.rows == Catalogue(site, PagesReached(faults, n))
  {
    var before, k := Listed(Answer(site, faults), 1, r.page), PagesReached(faults, n);
    TakenReached(site, faults, n, r.page);
    hide Listed, Catalogue, AllInWindow;
    var atEnd := Answer(site, faults)(r.page);
    assert r.page <= MAX_PAGES ==> atEnd == ParseCrash || atEnd == Rows([]);
    assert r.page == k + 1;
    assert r.rows == before;
  }

  /** A run that stopped at an old row took the catalogue up to that row. */
  lemma StoppedOnPage(site: nat -> seq<int>, faults: map<nat, Response>, n: nat, info: int -> Row, cutoff: int, r: Region)
    requires SiteOf(site, n) && RealFaults(faults)
    requires RegionOf(Answer(site, faults), info, cutoff, r) && r.end == DateStopped
    ensures var before := Catalogue(site, r.page - 1); var here := |r.rows| - |before|;
      && 1 <= r.page <= PagesReached(faults, n) <= n
      && 0 <= here < |site(r.page)| && r.rows == before + site(r.page)[..here] && info(site(r.page)[here]).created < cutoff
  {
    hide Listed, Catalogue, SiteOf, PagesReached, AllInWindow, EndAt;
    var at := Answer(site, faults)(r.page);
    assert at == Rows(site(r.page)) && at.rows != [];
    TakenReached(site, faults, n, r.page);
    TakenReached(site, faults, n, r.page + 1);
  }

  lemma DateStopReached(site: nat -> seq<int>, faults: map<nat, Response>, n: nat, info: int -> Row, cutoff: int, r: Region)
    requires SiteOf(site, n) && RealFaults(faults)
    requires RegionOf(Answer(site, faults), info, cutoff, r) && r.end == DateStopped
    ensures var k, all := PagesReached(faults, n), Catalogue(site, n);
      k <= n && r.rows <= all && |r.rows| < |Catalogue(site, k)| <= |all| && info(all[|r.rows|]).created < cutoff
  {
    hide RegionOf, Catalogue, SiteOf, RealFaults, PagesReached;
    StoppedOnPage(site, faults, n, info, cutoff, r);
    CataloguePrefix(site, r.page, |r.rows| - |Catalogue(site, r.page - 1)|, PagesReached(faults, n), n);
  }

  /** Where a run that is neither stopped nor failed has got to in the catalogue. */
  lemma RegionReaches(site: nat -> seq<int>, faults: map<nat, Response>, n: nat, info: int -> Row, cutoff: int, r: Region)
    requires SiteOf(site, n) && RealFaults(faults)
    requires RegionOf(Answer(site, faults), info, cutoff, r) && r.end != CutShort && !Errored(r)
    ensures var k, all := PagesReached(faults, n), Catalogue(site, n);
      && k <= n && r.rows <= all && |Catalogue(site, k)| <= |all| && AllInWindow(r.rows, info, cutoff)
      && (r.end != DateStopped ==> r.rows == Catalogue(site, k))
      && (r.end == DateStopped ==> |r.rows| < |Catalogue(site, k)| && info(all[|r.rows|]).created < cutoff)
  {
    hide Catalogue, SiteOf, RealFaults, AllInWindow, Before;
    if r.end == DateStopped {
      DateStopReached(site, faults, n, info, cutoff, r);
    } else {
      EndedReached(site, faults, n, info, cutoff, r);
      CatalogueGrows(site, PagesReached(faults, n), n);
    }
  }

  /** A loop that took `taken` rows of the first `reach` and stopped short of them only at an old
      one has the window exactly if the row behind its reach, should there be one, is old. */
  lemma WindowReached(all: seq<Row>, cutoff: int, taken: nat, reach: nat)
    requires NewestFirst(all) && taken <= reach <= |all|
    requires forall i :: 0 <= i < taken ==> all[i].created >= cutoff
    requires taken < reach ==> all[taken].created < cutoff
    ensures InWindow(all, cutoff) == all[..taken] <==> reach == |all| || all[reach].created < cutoff
  {
    hide InWindow;
    WindowComplete(all, cutoff, taken);
  }

  /** The catalogue ends within the pages reached, or the first lot behind them is old. */
  predicate Reached(site: nat -> seq<int>, faults: map<nat, Response>, n: nat, info: int -> Row, cutoff: int) {
    var k := PagesReached(faults, n);
    k >= n || (site(k + 1) != [] && info(site(k + 1)[0]).created < cutoff)
  }

  lemma PagesFilled(site: nat -> seq<int>, n: nat)
    requires SiteOf(site, n)
    ensures forall p: nat :: 1 <= p <= n ==> site(p) != []
  {
  }

  /** On a catalogue listed newest first, a clean run has taken exactly the rows of the window -- of
      the whole catalogue, not of what it fetched -- if and only if its pages reach that far. */
  lemma WindowTakenIff(site: nat -> seq<int>, faults: map<nat, Response>, n: nat, info: int -> Row, cutoff: int, r: Region)
    requires SiteOf(site, n) && RealFaults(faults) && OldestLast(site, n, info)
    requires RegionOf(Answer(site, faults), info, cutoff, r) && r.end != CutShort && !Errored(r)
    ensures Infos(r.rows, info) == InWindow(Infos(Catalogue(site, n), info), cutoff) <==> Reached(site, faults, n, info, cutoff)
  {
    hide RegionOf, SiteOf, RealFaults, Catalogue, InWindow, Infos, AllInWindow, NewestFirst, PagesReached;
    var k, ids := PagesReached(faults, n), Catalogue(site, n);
    var reach := |Catalogue(site, k)|;
    RegionReaches(site, faults, n, info, cutoff, r);
    PagesFilled(site, n);
    if k < n {
      CataloguePrefix(site, k + 1, 0, k + 1, n);
      assert Catalogue(site, k) + site(k + 1)[..0] == Catalogue(site, k);
    }
    TakenRows(ids, r.rows, info, cutoff, reach);
  }

  lemma TakenRows(ids: seq<int>, rows: seq<int>, info: int -> Row, cutoff: int, reach: nat)
    requires NewestFirst(Infos(ids, info)) && rows <= ids && |rows| <= reach <= |ids|
    requires AllInWindow(rows, info, cutoff) && (|rows| < reach ==> info(ids[|rows|]).created < cutoff)
    ensures Infos(rows, info) == InWindow(Infos(ids, info), cutoff) <==> reach == |ids| || info(ids[reach]).created < cutoff
  {
    hide InWindow, NewestFirst;
    var all := Infos(ids, info);
    assert Infos(rows, info) == all[..|rows|];
    WindowReached(all, cutoff, |rows|, reach);
  }

  lemma {:induction false} WindowGrows(all: seq<Row>, cutoff: int, n: nat)
    requires n <= |all| && forall i :: 0 <= i < n ==> all[i].created >= cutoff
    ensures all[..n] <= InWindow(all, cutoff)
  {
    var front := all[..if all == [] then 0 else |all| - 1];
    if n == |all| {
      WindowIsPrefix(all, cutoff, n);
    } else {
      WindowGrows(front, cutoff, n);
      assert front[..n] == all[..n];
    }
  }

  /** What was taken begins the window. */
  lemma TakenBeginsWindow(ids: seq<int>, rows: seq<int>, info: int -> Row, cutoff: int)
    requires rows <= ids && AllInWindow(rows, info, cutoff)
    ensures Infos(rows, info) <= InWindow(Infos(ids, info), cutoff)
  {
    hide InWindow;
    var all := Infos(ids, info);
    assert Infos(rows, info) == all[..|rows|];
    forall i | 0 <= i < |rows| ensures all[i].created >= cutoff {
      assert all[i] == info(rows[i]);
    }
    WindowGrows(all, cutoff, |rows|);
  }

  /** Nothing short of all of the window's rows, each converted and upserted, is the window written. */
  lemma WrittenIsAll(taken: seq<Row>, window: seq<Row>)
    requires taken <= window
    ensures Written(taken) == IdsOf(window) <==> taken == window && AllStored(window)
  {
    hide Written, AllStored;
    WrittenCount(taken);
    if |taken| == |window| { assert taken == window[..|taken|] == window; }
  }

  /** What the flag is worth. On a catalogue listed newest first, a run that writes the flag has
      written exactly the lots of the window -- of the whole catalogue, not of what it fetched -- if
      and only if the first lot behind the pages it reaches, should there be one, is out of the
      window, and every row of the window converts and upserts. Five pages that end inside the
      window, a parser crash there, or a row that is skipped leave the flag written with lots of
      the window missing. */
  lemma FlagCompleteIff(site: nat -> seq<int>, faults: map<nat, Response>, n: nat, info: int -> Row, cutoff: int, r: Region)
    requires SiteOf(site, n) && RealFaults(faults) && OldestLast(site, n, info)
    requires RegionOf(Answer(site, faults), info, cutoff, r) && r.end != CutShort && !Errored(r)
    ensures var window := InWindow(Infos(Catalogue(site, n), info), cutoff);
      Written(Infos(r.rows, info)) == IdsOf(window) <==> Reached(site, faults, n, info, cutoff) && AllStored(window)
  {
    hide RegionOf, SiteOf, RealFaults, OldestLast, Catalogue, InWindow, Infos, Written, AllStored, AllInWindow, Reached, PagesReached;
    var window := InWindow(Infos(Catalogue(site, n), info), cutoff);
    RegionReaches(site, faults, n, info, cutoff, r);
    TakenBeginsWindow(Catalogue(site, n), r.rows, info, cutoff);
    WindowTakenIff(site, faults, n, info, cutoff, r);
    WrittenIsAll(Infos(r.rows, info), window);
  }

  /** So once an old lot lies within the pages reached, or the catalogue ends there, only skipped
      rows can be missing: the window is written if and only if each of its rows could be. */
  lemma FlagCompleteWithin(site: nat -> seq<int>, faults: map<nat, Response>, n: nat, info: int -> Row, cutoff: int, r: Region)
    requires SiteOf(site, n) && RealFaults(faults) && OldestLast(site, n, info)
    requires RegionOf(Answer(site, faults), info, cutoff, r) && r.end != CutShort && !Errored(r)
    requires r.end == DateStopped || n <= PagesReached(faults, n)
    ensures var window := InWindow(Infos(Catalogue(site, n), info), cutoff);
      && Infos(r.rows, info) == window
      && (Written(Infos(r.rows, info)) == IdsOf(window) <==> AllStored(window))
  {
    hide RegionOf, SiteOf, RealFaults, Catalogue, InWindow, Infos, Written, AllStored, AllInWindow, PagesReached;
    RegionReaches(site, faults, n, info, cutoff, r);
    var ids := Catalogue(site, n);
    TakenRows(ids, r.rows, info, cutoff, if r.end == DateStopped then |r.rows| else |ids|);
    WrittenIsAll(Infos(r.rows, info), InWindow(Infos(ids, info), cutoff));
  }

  /** A catalogue of six one-lot pages, all in the window: the run ends at the cap, the flag may be
      written, and the sixth lot was never fetched. */
  lemma SixthPageLost(site: nat -> seq<int>, info: int -> Row, cutoff: int)
    requires forall p: nat :: site(p) == if 1 <= p <= 6 then [p] else []
    requires forall i :: info(i) == Row(i, cutoff, true, true)
    ensures var r := Region([1, 2, 3, 4, 5], 6, 5, Ended(MaxPages));
      && RegionOf(Answer(site, map[]), info, cutoff, r) && !Errored(r)
      && 6 in Catalogue(site, 6) && 6 !in r.rows && info(6).created >= cutoff
  {
    var pages := Answer(site, map[]);
    assert forall p: nat :: pages(p) == Rows(site(p));
    assert Listed(pages, 1, 1) == [] && Listed(pages, 1, 2) == [] + [1] && Listed(pages, 1, 3) == [1] + [2];
    assert Listed(pages, 1, 4) == [1, 2] + [3] && Listed(pages, 1, 5) == [1, 2, 3] + [4];
    assert Listed(pages, 1, 6) == [1, 2, 3, 4] + [5];
    assert Catalogue(site, 6) == Catalogue(site, 5) + [6];
    hide Listed, Catalogue;
  }

  /** A parser crash on page 1: nothing was fetched, and the flag may be written all the same. */
  lemma CrashLosesAll(site: nat -> seq<int>, info: int -> Row, cutoff: int)
    requires site(1) != []
    ensures var r := Region([], 1, 0, Ended(Swallowed(ParseCrash)));
      RegionOf(Answer(site, map[1 := ParseCrash]), info, cutoff, r) && !Errored(r)
  {
    assert Listed(Answer(site, map[1 := ParseCrash]), 1, 1) == [];
  }

  /** One page with one lot, which the repository refuses: the run took the whole window, is clean,
      and wrote nothing. */
  lemma RefusedLotLost(site: nat -> seq<int>, info: int -> Row, cutoff: int)
    requires site(1) == [7] && site(2) == [] && info(7) == Row(7, cutoff, true, false)
    ensures var r, window := Region([7], 2, 2, Ended(EmptyPage)), InWindow(Infos(Catalogue(site, 1), info), cutoff);
      && RegionOf(Answer(site, map[]), info, cutoff, r) && !Errored(r) && Reached(site, map[], 1, info, cutoff)
      && window == [info(7)] && Written(Infos(r.rows, info)) == []
  {
    hide RegionOf, Listed, Catalogue, Infos, InWindow, Written, Reached;
    OneLotSite(site, info, cutoff);
    OneRowSkipped(info(7), cutoff);
    EndsAtPage(Answer(site, map[]), info, cutoff, 2, [7], Region([7], 2, 2, Ended(EmptyPage)));
  }

  lemma OneLotSite(site: nat -> seq<int>, info: int -> Row, cutoff: int)
    requires site(1) == [7] && site(2) == [] && info(7).created >= cutoff
    ensures Before(Answer(site, map[]), info, cutoff, 2, [7]) && Answer(site, map[])(2) == Rows([])
    ensures Catalogue(site, 1) == [7] && Infos([7], info) == [info(7)] && Reached(site, map[], 1, info, cutoff)
  {
    var pages := Answer(site, map[]);
    assert Listed(pages, 1, 1) == [] && Listed(pages, 1, 2) == [] + [7];
    assert Catalogue(site, 0) == [] && Catalogue(site, 1) == [] + [7];
    assert pages(1) == Rows([7]);
  }

  lemma OneRowSkipped(row: Row, cutoff: int)
    requires row.created >= cutoff && !(row.converts && row.upserts)
    ensures InWindow([row], cutoff) == [row] && Written([row]) == []
  {
    assert [row][..0] == [];
    assert InWindow([], cutoff) == [] && Written([]) == [];
    assert InWindow([row], cutoff) == [] + [row];
  }
}

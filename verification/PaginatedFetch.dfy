/** Walking the listing page by page, and what a scan may conclude from where the walk ended. */
module PaginatedFetch {
  import opened Prelude
  import opened FullScan

  const PAGE_LIMIT: nat := 1000

  /** What one page request comes to: the network call, the status check and the parser. */
  datatype Response =
    | Rows(rows: seq<int>)
    | NetworkFailure
    | Redirect
    | LoginPage
    | ParseBug
    | ParseCrash

  datatype Query = Query(start: int, maxPages: Option<nat>, raiseOnNetwork: bool, raiseOnParse: bool)

  datatype End =
    | EmptyPage
    | StopSeen
    | PageLimit
    | MaxPages
    | Swallowed(failure: Response)
    | Raised(failure: Response)
    | Expired

  /** The rows yielded, the page the walk stood at, why it ended, and how many further checks
      of the stop event would still find it clear. */
  datatype Walk = Walk(rows: seq<int>, last: nat, end: End, clear: nat)

  function FirstPage(q: Query): nat { if q.start >= 1 then q.start else 1 }

  function Max(a: nat, b: nat): nat { if a >= b then a else b }

  /** The rows on pages `from` to `end - 1`, in order. */
  function Listed(pages: nat -> Response, from: nat, end: nat): seq<int>
    decreases end
  {
    if end <= from then []
    else
      var page: nat := end - 1;
      Listed(pages, from, page) + RowsOf(pages(page))
  }

  function RowsOf(r: Response): seq<int> { if r.Rows? then r.rows else [] }

  predicate Yields(r: Response) { r.Rows? && r.rows != [] }

  /** How a page that yields nothing ends the walk. */
  function EndAt(r: Response, q: Query): End
    requires !Yields(r)
  {
    match r
    case Rows(_) => EmptyPage
    case NetworkFailure => if q.raiseOnNetwork then Raised(r) else Swallowed(r)
    case ParseBug => if q.raiseOnParse then Raised(r) else Swallowed(r)
    case ParseCrash => Swallowed(r)
    case Redirect => Expired
    case LoginPage => Expired
  }

  predicate Capped(q: Query, walked: nat) {
    q.maxPages.Some? && walked > 0 && walked >= q.maxPages.value
  }

  /** Standing at page `last` with `rows` in hand: every page before it yielded rows and none
      of them reached the cap. */
  ghost predicate Walked(pages: nat -> Response, q: Query, last: nat, rows: seq<int>) {
    var first := FirstPage(q);
    && first <= last <= Max(first, PAGE_LIMIT + 1)
    && (forall p: nat :: first <= p < last ==> Yields(pages(p)))
    && (last > first ==> !Capped(q, last - first - 1))
    && rows == Listed(pages, first, last)
  }

  /** Why the walk ended there after `looks` passed looks at the stop event. */
  ghost predicate EndedBy(pages: nat -> Response, q: Query, looks: nat, clear: nat, w: Walk) {
    if w.end == StopSeen then w.clear == 0 && (clear == looks || (looks > 0 && clear == looks - 1))
    else if w.end == MaxPages then clear - looks + 1 == w.clear
    else
      && clear - looks - 1 == w.clear
      && if w.end == PageLimit then w.last > PAGE_LIMIT
         else w.last <= PAGE_LIMIT && !Yields(pages(w.last)) && w.end == EndAt(pages(w.last), q)
  }

  /** The walk, without a word on how it is computed: the ending is the one that the page it
      stands at, the cap or the stop event forces. The event is looked at twice a page and is
      first found set after `clear` looks. */
  ghost predicate WalkOf(pages: nat -> Response, q: Query, clear: nat, w: Walk) {
    && Walked(pages, q, w.last, w.rows)
    && (Capped(q, w.last - FirstPage(q)) <==> w.end == MaxPages)
    && EndedBy(pages, q, 2 * (w.last - FirstPage(q)), clear, w)
  }

  /** The description leaves no freedom: it holds of one walk only. */
  lemma WalkUnique(pages: nat -> Response, q: Query, clear: nat, v: Walk, w: Walk)
    requires WalkOf(pages, q, clear, v) && WalkOf(pages, q, clear, w)
    ensures v == w
  {
    if v.last < w.last {
      WalkGoesOn(pages, q, clear, v, w);
    } else if w.last < v.last {
      WalkGoesOn(pages, q, clear, w, v);
    }
  }

  lemma WalkGoesOn(pages: nat -> Response, q: Query, clear: nat, v: Walk, w: Walk)
    requires WalkOf(pages, q, clear, v) && WalkOf(pages, q, clear, w)
    ensures !(v.last < w.last)
  {
    var atEnd := pages(v.last);
  }

  /** What the description comes to, in numbers: the walk starts at page 1 at the earliest, takes at
      least one page under a cap and then exactly as many as the cap says, goes no further than page
      1000, and a page without rows ends it by its failure and the two flags. */
  lemma WalkInNumbers(pages: nat -> Response, q: Query, clear: nat, w: Walk)
    requires WalkOf(pages, q, clear, w)
    ensures var first := if q.start >= 1 then q.start else 1;
      && w.rows == Listed(pages, first, w.last)
      && (w.end == MaxPages ==> q.maxPages.Some? && w.last == first + if q.maxPages.value == 0 then 1 else q.maxPages.value)
      && (q.maxPages.Some? ==> w.last <= first + if q.maxPages.value == 0 then 1 else q.maxPages.value)
    ensures w.end == PageLimit ==> w.last > 1000
    ensures !(w.end in {MaxPages, PageLimit, StopSeen}) ==>
      var p := pages(w.last);
      && w.last <= 1000
      && (w.end == EmptyPage <==> p == Rows([]))
      && (w.end == Expired <==> p == Redirect || p == LoginPage)
      && (w.end == Raised(p) <==> (p == NetworkFailure && q.raiseOnNetwork) || (p == ParseBug && q.raiseOnParse))
      && (w.end == Swallowed(p) <==>
            p == ParseCrash || (p == NetworkFailure && !q.raiseOnNetwork) || (p == ParseBug && !q.raiseOnParse))
  {
    hide Listed;
  }

  method Iterate(pages: nat -> Response, q: Query, clear: nat) returns (w: Walk)
    ensures WalkOf(pages, q, clear, w)
  {
    var page: nat := FirstPage(q);
    ghost var first := page;
    var pagesWalked: nat, rows: seq<int>, looksLeft: nat := 0, [], clear;
    while true
      invariant Walked(pages, q, page, rows) && !Capped(q, pagesWalked)
      invariant pagesWalked == page - first && looksLeft == clear - 2 * pagesWalked
      decreases PAGE_LIMIT + 1 - page
    {
      if looksLeft == 0 {
        return Walk(rows, page, StopSeen, 0);
      }
      looksLeft := looksLeft - 1;
      if page > PAGE_LIMIT {
        return Walk(rows, page, PageLimit, looksLeft);
      }
      var response := pages(page);
      if !Yields(response) {
        return Walk(rows, page, EndAt(response, q), looksLeft);
      }
      rows, pagesWalked := rows + response.rows, pagesWalked + 1;
      assert Walked(pages, q, page + 1, rows);
      if q.maxPages.Some? && pagesWalked >= q.maxPages.value {
        return Walk(rows, page + 1, MaxPages, looksLeft);
      }
      page := page + 1;
      if looksLeft == 0 {
        return Walk(rows, page, StopSeen, 0);
      }
      looksLeft := looksLeft - 1;
    }
  }

  // ---------------------------------------------------------------------
  // The scan over what the walk saw
  // ---------------------------------------------------------------------

  /** The full scan's own walk: from page 1, no cap, both raise flags at their default. */
  const SCAN_WALK: Query := Query(1, None, false, false)

  function Ids(rows: seq<int>): set<int> { set x | x in rows }

  /** One run_once on the active list. An expired session contributes no ids; with no ids at
      all the run ends before the batches. */
  function RunOnce(active: seq<int>, size: nat, w: Walk): Scan
    requires size >= 1
  {
    if w.end == Expired || w.rows == [] then Scan(active, [], [])
    else ScanFrom(active, Ids(w.rows), size, !w.end.Raised?, (w.clear + 1) / 2)
  }

  /** One run on the live table: the walk, then the batches. `expired` tells that
      SseSessionExpired was published. With no region configured nothing is fetched. */
  method ScanOnce(service: FullScanService, regions: seq<int>, pages: nat -> Response, clear: nat)
    returns (w: Walk, expired: bool, batches: nat)
    requires service.batchSize >= 1 && Distinct(service.lots.order)
    modifies service.lots
    ensures regions != [] ==> WalkOf(pages, SCAN_WALK, clear, w) && expired == (w.end == Expired)
    ensures regions == [] ==> w.rows == [] && !expired
    ensures var r := RunOnce(old(service.lots.Active()), service.batchSize, w);
      service.lots.Active() == r.active && service.lots.seenLog == old(service.lots.seenLog) + r.marked
    ensures !expired && w.rows != [] && !w.end.Raised? && w.clear >= 2 * |old(service.lots.Active())| ==>
      var r := FullRun(old(service.lots.Active()), Ids(w.rows), service.batchSize);
      service.lots.Active() == r.active && service.lots.seenLog == old(service.lots.seenLog) + r.marked
    ensures expired || w.rows == [] ==>
      batches == 0 && service.lots.Active() == old(service.lots.Active()) && service.lots.seenLog == old(service.lots.seenLog)
    ensures !expired && w.rows != [] ==>
      w.clear == 2 * batches || w.clear + 1 == 2 * batches
      || (2 * batches < w.clear && |service.lots.Active()| <= batches * service.batchSize)
  {
    hide WalkOf, StillActive, MarkedSeen, Dropped, Distinct;
    w, expired, batches := Walk([], 1, EmptyPage, clear), false, 0;
    if regions != [] {
      w := Iterate(pages, SCAN_WALK, clear);
      expired := w.end == Expired;
    }
    if !expired && w.rows != [] {
      if !w.end.Raised? && w.clear >= 2 * |service.lots.Active()| {
        RunIsFull(service.lots.Active(), service.batchSize, w);
      }
      batches := service.ProcessBatches(Ids(w.rows), !w.end.Raised?, w.clear);
    }
  }

  /** The walk yielded ids, did not fail loudly, and left the stop event clear for two looks per
      active lot. */
  predicate Undisturbed(w: Walk, active: seq<int>) {
    w.rows != [] && w.end != Expired && !w.end.Raised? && w.clear >= 2 * |active|
  }

  /** Such a run is a full scan. */
  lemma RunIsFull(active: seq<int>, size: nat, w: Walk)
    requires size >= 1 && Undisturbed(w, active)
    ensures RunOnce(active, size, w) == FullRun(active, Ids(w.rows), size)
  {
    BudgetBeyond(active, Ids(w.rows), size, true, (w.clear + 1) / 2, |active|);
  }

  function AfterRuns(active: seq<int>, size: nat, ws: seq<Walk>): seq<int>
    requires size >= 1
    decreases |ws|
  {
    if ws == [] then active else AfterRuns(RunOnce(active, size, ws[0]).active, size, ws[1..])
  }

  lemma {:induction false} RunsAreScans(active: seq<int>, size: nat, ws: seq<Walk>, seen: set<int>)
    requires size >= 1 && forall i :: 0 <= i < |ws| ==> Undisturbed(ws[i], active) && Ids(ws[i].rows) == seen
    ensures AfterRuns(active, size, ws) == AfterScans(active, seen, size, |ws|)
    decreases |ws|
  {
    hide RunOnce, FullRun, Ids;
    if ws != [] {
      RunIsFull(active, size, ws[0]);
      var next := FullRun(active, seen, size).active;
      ScanShrinks(active, seen, size);
      forall i | 0 <= i < |ws[1..]| ensures Undisturbed(ws[1..][i], next) && Ids(ws[1..][i].rows) == seen {
        assert Undisturbed(ws[i + 1], active);
      }
      RunsAreScans(next, size, ws[1..], seen);
    }
  }

  lemma ScanShrinks(active: seq<int>, seen: set<int>, size: nat)
    requires size >= 1
    ensures |FullRun(active, seen, size).active| <= |active|
  {
    hide StillActive, MarkedSeen, Dropped, Present, Missing;
    ScanCounts(active, seen, size, true, |active|);
    PresentOrMissing(active, seen);
    PresentOrMissing(FullRun(active, seen, size).active, seen);
  }

  /** Daily runs that see the same ids leave exactly the seen active lots, once two to the number of
      runs exceeds the missing ones. */
  lemma RunsConverge(active: seq<int>, size: nat, ws: seq<Walk>, seen: set<int>)
    requires size >= 1 && forall i :: 0 <= i < |ws| ==> Undisturbed(ws[i], active) && Ids(ws[i].rows) == seen
    requires Pow2(|ws|) > |Missing(active, seen)|
    ensures AfterRuns(active, size, ws) == Present(active, seen)
  {
    RunsAreScans(active, size, ws, seen);
    ScansConverge(active, seen, size, |ws|);
  }

  /** A stop seen while fetching also stops the batches: the partial ids deactivate nothing. */
  lemma StopDeactivatesNothing(pages: nat -> Response, q: Query, clear: nat, active: seq<int>, size: nat, w: Walk)
    requires size >= 1 && WalkOf(pages, q, clear, w) && (w.end == StopSeen || w.end == Expired)
    ensures RunOnce(active, size, w) == Scan(active, [], [])
  {
  }

  /** The site itself: page p holds `site(p)`; a request for a page in `faults` fails that way. */
  function Answer(site: nat -> seq<int>, faults: map<nat, Response>): nat -> Response {
    (p: nat) => if p in faults then faults[p] else Rows(site(p))
  }

  function Catalogue(site: nat -> seq<int>, pages: nat): seq<int> {
    if pages == 0 then [] else Catalogue(site, pages - 1) + site(pages)
  }

  /** The catalogue fills pages 1 to n, and no lot is listed twice. */
  ghost predicate SiteOf(site: nat -> seq<int>, n: nat) {
    (forall p: nat :: 1 <= p <= n ==> site(p) != []) && site(n + 1) == [] && Distinct(Catalogue(site, n))
  }

  predicate RealFaults(faults: map<nat, Response>) {
    forall p <- faults :: !faults[p].Rows?
  }

  /** The first page in 1..n whose request fails, n + 1 if none does. */
  function FirstFault(faults: map<nat, Response>, n: nat): (f: nat)
    ensures 1 <= f <= n + 1
    ensures f <= n ==> f in faults
    ensures forall p :: 1 <= p < f ==> p !in faults
  {
    if n == 0 then 1
    else
      var f := FirstFault(faults, n - 1);
      if f < n || n in faults then f else n + 1
  }

  lemma {:induction false} ListedIsCatalogue(site: nat -> seq<int>, faults: map<nat, Response>, to: nat)
    requires to >= 1 && forall p: nat :: 1 <= p < to ==> p !in faults
    ensures Listed(Answer(site, faults), 1, to) == Catalogue(site, to - 1)
  {
    if to > 1 {
      ListedIsCatalogue(site, faults, to - 1);
      assert Answer(site, faults)(to - 1) == Rows(site(to - 1));
    }
  }

  lemma {:induction false} CatalogueGrows(site: nat -> seq<int>, k: nat, n: nat)
    requires k <= n
    ensures Catalogue(site, k) <= Catalogue(site, n)
  {
    if k < n { CatalogueGrows(site, k, n - 1); }
  }

  /** Where an undisturbed walk stands: at the first failing page, at the page after the
      catalogue, or at the page limit. */
  lemma WalkReaches(site: nat -> seq<int>, faults: map<nat, Response>, n: nat, clear: nat, w: Walk)
    requires SiteOf(site, n) && RealFaults(faults)
    requires WalkOf(Answer(site, faults), SCAN_WALK, clear, w) && w.end != StopSeen
    ensures w.last == FirstFault(faults, Min(n, PAGE_LIMIT))
    ensures w.rows == Catalogue(site, w.last - 1)
    ensures w.last <= n && w.last <= PAGE_LIMIT ==> w.end == EndAt(faults[w.last], SCAN_WALK)
    ensures w.last > PAGE_LIMIT ==> w.end == PageLimit
  {
    hide Listed, Catalogue;
    var pages := Answer(site, faults);
    var f := FirstFault(faults, Min(n, PAGE_LIMIT));
    var atEnd, atFault := pages(w.last), pages(f);
    forall p: nat | 1 <= p < w.last ensures p !in faults {
      assert Yields(pages(p));
    }
    ListedIsCatalogue(site, faults, w.last);
  }

  /** No run, whatever is active, deactivates a lot the site lists. */
  ghost predicate NeverDropsListed(site: nat -> seq<int>, n: nat, w: Walk) {
    forall active: seq<int>, size: nat, x ::
      size >= 1 && x in Catalogue(site, n) ==> x !in RunOnce(active, size, w).dropped
  }

  lemma ListedKept(site: nat -> seq<int>, n: nat, w: Walk)
    requires w.rows == Catalogue(site, n) || w.rows == [] || w.end == Expired
    ensures NeverDropsListed(site, n, w)
  {
    forall active: seq<int>, size: nat, x | size >= 1 && x in Catalogue(site, n)
      ensures x !in RunOnce(active, size, w).dropped
    {
      ScanSound(active, Ids(w.rows), size, !w.end.Raised?, (w.clear + 1) / 2);
    }
  }

  lemma ListedLost(site: nat -> seq<int>, k: nat, n: nat, w: Walk)
    requires k < n && SiteOf(site, n) && w.rows == Catalogue(site, k) && w.rows != []
    requires w.end != Expired && !w.end.Raised? && w.clear > 0
    ensures !NeverDropsListed(site, n, w)
  {
    CatalogueGrows(site, k + 1, n);
    var all, lost := Catalogue(site, n), site(k + 1)[0];
    var at := |Catalogue(site, k)|;
    assert Catalogue(site, k + 1)[at] == lost && all[at] == lost;
    forall i | 0 <= i < at ensures w.rows[i] != lost {
      assert Catalogue(site, k + 1)[i] == w.rows[i] == all[i];
    }
    assert lost !in Ids(w.rows);
    assert Take([lost], 1) == [lost];
    assert Missing([lost], Ids(w.rows)) == [lost];
    var r := RunOnce([lost], 1, w);
    assert lost in all && lost in r.dropped;
  }

  lemma {:induction false} SomeListed(site: nat -> seq<int>, k: nat)
    requires k >= 1 && site(1) != []
    ensures Catalogue(site, k) != []
  {
    if k > 1 { SomeListed(site, k - 1); }
  }

  lemma FirstPageFull(site: nat -> seq<int>, n: nat)
    requires SiteOf(site, n)
    ensures Catalogue(site, 0) == [] && (n == 0 || site(1) != [])
  {
  }

  /** When a scan may be trusted. A walk no stop cut short leaves every listed lot active, on
      every table, exactly when the catalogue fits the page limit and none of its pages failed
      -- or when the first failure came on page 1 or was an expired session, since then the
      run ends without touching the table. Every other failure is swallowed, the walk counts as
      completed, and listed lots are deactivated. */
  lemma ScanTrustworthyIff(site: nat -> seq<int>, faults: map<nat, Response>, n: nat, clear: nat, w: Walk)
    requires SiteOf(site, n) && RealFaults(faults)
    requires WalkOf(Answer(site, faults), SCAN_WALK, clear, w) && w.end != StopSeen && w.clear > 0
    ensures var f := FirstFault(faults, Min(n, PAGE_LIMIT));
      NeverDropsListed(site, n, w)
      <==> f > n || (f <= PAGE_LIMIT && (f == 1 || faults[f] == Redirect || faults[f] == LoginPage))
  {
    hide WalkOf, NeverDropsListed, Catalogue, SiteOf, FirstFault;
    var f := FirstFault(faults, Min(n, PAGE_LIMIT));
    FirstPageFull(site, n);
    WalkReaches(site, faults, n, clear, w);
    if f > n || f == 1 || w.end == Expired {
      ListedKept(site, n, w);
    } else {
      SomeListed(site, f - 1);
      ListedLost(site, f - 1, n, w);
    }
  }

  lemma LotTwelveDropped(budget: nat)
    requires budget >= 1
    ensures ScanFrom([11, 12], {11}, 50, true, budget) == Scan([11], [11], [12])
  {
    assert [11, 12][1..] == [12];
    assert Present([12], {11}) == [] && Missing([12], {11}) == [12];
    assert WorkOff([11, 12], {11}, 50, true) == Work([11], [12], [11], []);
    ScanEnds([], {11}, 50, true, budget - 1);
  }

  lemma WalkStopsAtTwo(pages: nat -> Response, clear: nat)
    requires clear >= 4 && pages(1) == Rows([11]) && pages(2) == NetworkFailure
    ensures WalkOf(pages, SCAN_WALK, clear, Walk([11], 2, Swallowed(NetworkFailure), clear - 3))
  {
    assert Listed(pages, 1, 1) == [];
    assert Listed(pages, 1, 2) == [] + [11];
    assert Walked(pages, SCAN_WALK, 2, [11]);
  }

  /** The swallowed network failure on page 2, in full: lot 12 is listed there and deactivated. */
  lemma SwallowedFailureDropsListedLot(site: nat -> seq<int>, clear: nat)
    requires clear >= 4 && site(1) == [11] && site(2) == [12] && site(3) == []
    ensures var w := Walk([11], 2, Swallowed(NetworkFailure), clear - 3);
      && WalkOf(Answer(site, map[2 := NetworkFailure]), SCAN_WALK, clear, w)
      && 12 in Catalogue(site, 2) && RunOnce([11, 12], 50, w) == Scan([11], [11], [12])
  {
    hide ScanFrom, WalkOf;
    WalkStopsAtTwo(Answer(site, map[2 := NetworkFailure]), clear);
    var before := Catalogue(site, 1);
    assert Catalogue(site, 2) == before + [12];
    assert Ids([11]) == {11};
    LotTwelveDropped((clear - 2) / 2);
  }
}

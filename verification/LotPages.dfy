/** The search and count requests on a table that changes between them. */
module LotPages {
  import opened Prelude
  import opened IsoText
  import opened LotQuery
  import opened KeysetWalk
  import opened Base64

  // ---------------------------------------------------------------------
  // The queries
  // ---------------------------------------------------------------------

  /** SELECT .. WHERE, in the table's own order. */
  function Selected(lots: seq<Lot>, w: Where, subs: map<int, Date>): seq<Lot>
    requires |w.params| == Placeholders(w.conditions)
  {
    if lots == [] then []
    else if Accepts(w.conditions, w.params, lots[0], subs) then [lots[0]] + Selected(lots[1..], w, subs)
    else Selected(lots[1..], w, subs)
  }

  /** The lots the filter matches, in the table's own order. */
  function Matching(lots: seq<Lot>, f: Filters, subs: map<int, Date>): seq<Lot> {
    if lots == [] then []
    else if Matches(f, lots[0], subs) then [lots[0]] + Matching(lots[1..], f, subs)
    else Matching(lots[1..], f, subs)
  }

  /** The whole filtered catalogue, newest first. */
  function Listing(snap: Snapshot, f: Filters): seq<Lot> { Sorted(Matching(snap.lots, f, snap.subs)) }

  method BuildQuery(f: Filters, cursor: Option<Key>) returns (w: Where)
    ensures Bound(w)
    ensures forall lot, subs :: Accepts(w.conditions, w.params, lot, subs) <==> Matches(f, lot, subs) && Below(lot, cursor)
  {
    w := BuildWhere(f);
    if cursor.Some? {
      var args := [Text(cursor.value.text), Text(cursor.value.text), Num(cursor.value.id)];
      forall lot, subs ensures Holds(KeysetBelow, args, lot, subs) <==> Below(lot, cursor) {
      }
      w := Append(w, KeysetBelow, args);
    }
  }

  // ---------------------------------------------------------------------
  // The query's rows are the listing cut at the cursor
  // ---------------------------------------------------------------------

  /** Primary keys: no two rows share an id. */
  ghost predicate Table(lots: seq<Lot>) {
    forall i, j {:trigger lots[i], lots[j]} :: 0 <= i < j < |lots| ==> lots[i].id != lots[j].id
  }

  lemma {:induction false} SelectedMembers(lots: seq<Lot>, w: Where, subs: map<int, Date>, x: Lot)
    requires Bound(w)
    ensures x in Selected(lots, w, subs) <==> x in lots && Accepts(w.conditions, w.params, x, subs)
  {
    if lots != [] {
      SelectedMembers(lots[1..], w, subs, x);
      assert x in lots <==> x == lots[0] || x in lots[1..];
    }
  }

  lemma {:induction false} SelectedDistinct(lots: seq<Lot>, w: Where, subs: map<int, Date>)
    requires Bound(w) && Table(lots)
    ensures DistinctKeys(Selected(lots, w, subs))
  {
    if lots != [] {
      assert Table(lots[1..]);
      SelectedDistinct(lots[1..], w, subs);
      var rest := Selected(lots[1..], w, subs);
      forall i | 0 <= i < |rest| ensures KeyOf(rest[i]) != KeyOf(lots[0]) {
        SelectedMembers(lots[1..], w, subs, rest[i]);
        ElsewhereInTable(lots, rest[i]);
      }
      DistinctCons(lots[0], rest);
    }
  }

  lemma ElsewhereInTable(lots: seq<Lot>, x: Lot)
    requires Table(lots) && lots != [] && x in lots[1..]
    ensures KeyOf(x) != KeyOf(lots[0])
  {
    var k :| 0 <= k < |lots[1..]| && lots[1..][k] == x;
    assert lots[k + 1] == x;
  }

  lemma DistinctCons(lot: Lot, rest: seq<Lot>)
    requires DistinctKeys(rest) && forall i :: 0 <= i < |rest| ==> KeyOf(rest[i]) != KeyOf(lot)
    ensures DistinctKeys([lot] + rest)
  {
  }

  /** Selecting by an equivalent clause selects the matching lots. */
  lemma {:induction false} SelectedMatching(lots: seq<Lot>, w: Where, f: Filters, subs: map<int, Date>)
    requires Bound(w)
    requires forall lot :: Accepts(w.conditions, w.params, lot, subs) <==> Matches(f, lot, subs)
    ensures Selected(lots, w, subs) == Matching(lots, f, subs)
  {
    if lots != [] { SelectedMatching(lots[1..], w, f, subs); }
  }

  /** Listed is matched, and the listing is in strictly descending key order. */
  lemma ListingFacts(snap: Snapshot, f: Filters)
    requires Table(snap.lots)
    ensures Descending(Listing(snap, f))
    ensures forall x :: x in Listing(snap, f) <==> x in snap.lots && Matches(f, x, snap.subs)
  {
    forall x ensures x in Listing(snap, f) <==> x in snap.lots && Matches(f, x, snap.subs) {
      MatchingMembers(snap.lots, f, snap.subs, x);
      SortedMembers(Matching(snap.lots, f, snap.subs), x);
    }
    MatchingDistinct(snap.lots, f, snap.subs);
    SortedDescending(Matching(snap.lots, f, snap.subs));
  }

  lemma {:induction false} MatchingMembers(lots: seq<Lot>, f: Filters, subs: map<int, Date>, x: Lot)
    ensures x in Matching(lots, f, subs) <==> x in lots && Matches(f, x, subs)
  {
    if lots != [] {
      MatchingMembers(lots[1..], f, subs, x);
      assert x in lots <==> x == lots[0] || x in lots[1..];
    }
  }

  lemma {:induction false} MatchingDistinct(lots: seq<Lot>, f: Filters, subs: map<int, Date>)
    requires Table(lots)
    ensures DistinctKeys(Matching(lots, f, subs))
  {
    if lots != [] {
      assert Table(lots[1..]);
      MatchingDistinct(lots[1..], f, subs);
      var rest := Matching(lots[1..], f, subs);
      forall i | 0 <= i < |rest| ensures KeyOf(rest[i]) != KeyOf(lots[0]) {
        MatchingMembers(lots[1..], f, subs, rest[i]);
        ElsewhereInTable(lots, rest[i]);
      }
      DistinctCons(lots[0], rest);
    }
  }

  /** Sorting the rows below the cursor is cutting the sorted listing at the cursor. */
  lemma QueryIsCutListing(snap: Snapshot, w: Where, f: Filters, cursor: Option<Key>)
    requires Bound(w) && Table(snap.lots)
    requires forall lot :: Accepts(w.conditions, w.params, lot, snap.subs) <==> Matches(f, lot, snap.subs) && Below(lot, cursor)
    ensures Sorted(Selected(snap.lots, w, snap.subs)) == From(Listing(snap, f), cursor)
  {
    var rows, cut := Selected(snap.lots, w, snap.subs), From(Listing(snap, f), cursor);
    SelectedDistinct(snap.lots, w, snap.subs);
    SortedDescending(rows);
    ListingFacts(snap, f);
    FromDescending(Listing(snap, f), cursor);
    forall x ensures x in Sorted(rows) <==> x in cut {
      SortedMembers(rows, x);
      SelectedMembers(snap.lots, w, snap.subs, x);
      FromMembers(Listing(snap, f), cursor, x);
    }
    SameMembersSameList(Sorted(rows), cut);
  }

  // ---------------------------------------------------------------------
  // The requests
  // ---------------------------------------------------------------------

  datatype Outcome =
    | BadPageSize
    | FtsNotImplemented
    | BadCursor
    | Found(items: seq<Lot>, nextCursor: Option<string>)

  /** The cursor string for a page: made from its last lot when more rows follow. */
  function NextCursor(p: Page): Option<string> {
    if p.next.Some? && p.items != [] then
      var last := p.items[|p.items| - 1];
      Some(EncodeCursor(last.created, last.id))
    else None
  }

  /** Where a request starts reading: at the top, at the decoded cursor, or nowhere. */
  function StartOf(cursor: Option<string>, utf8: seq<byte> -> Option<string>): Option<Option<Key>> {
    if cursor.None? then Some(None)
    else
      var key := DecodeCursor(cursor.value, utf8);
      if key.None? then None else Some(key)
  }

  /** The rows under ORDER BY date_create DESC, id DESC LIMIT size + 1. */
  method Fetch(snap: Snapshot, f: Filters, size: nat, at: Option<Key>) returns (rows: seq<Lot>)
    requires Table(snap.lots)
    ensures var all := From(Listing(snap, f), at); rows == all[..Min(size + 1, |all|)]
  {
    var w := BuildQuery(f, at);
    QueryIsCutListing(snap, w, f, at);
    var all := Sorted(Selected(snap.lots, w, snap.subs));
    rows := all[..Min(size + 1, |all|)];
  }

  /** size + 1 rows decide the page and whether another follows. */
  lemma PageFromRows(all: seq<Lot>, size: nat, rows: seq<Lot>)
    requires size >= 1 && rows == all[..Min(size + 1, |all|)]
    ensures FirstOf(all, size).items == rows[..Min(size, |rows|)]
    ensures FirstOf(all, size).next.Some? <==> |rows| > size
    ensures NextCursor(FirstOf(all, size)) == CursorAfter(rows, size)
  {
    hide EncodeCursor;
    var items := FirstOf(all, size).items;
    assert items == rows[..Min(size, |rows|)];
    if |all| > size {
      var last := all[size - 1];
      assert |items| == size && items[size - 1] == last && rows[size - 1] == last;
    }
  }

  /** The cursor made from the page's last row when the query returned one row too many. */
  function CursorAfter(rows: seq<Lot>, size: nat): Option<string>
    requires size >= 1
  {
    if |rows| > size then Some(EncodeCursor(rows[size - 1].created, rows[size - 1].id)) else None
  }

  method Search(snap: Snapshot, f: Filters, size: int, cursor: Option<string>, utf8: seq<byte> -> Option<string>)
    returns (r: Outcome)
    requires Table(snap.lots)
    ensures r.BadPageSize? <==> !(1 <= size <= 200)
    ensures r.FtsNotImplemented? <==> 1 <= size <= 200 && f.fts.Some?
    ensures r.BadCursor? <==> 1 <= size <= 200 && f.fts.None? && StartOf(cursor, utf8).None?
    ensures r.Found? ==>
      var p := PageOf(Listing(snap, f), size, StartOf(cursor, utf8).value); r == Found(p.items, NextCursor(p))
    ensures r.Found? ==>
      var left := From(Listing(snap, f), StartOf(cursor, utf8).value);
      && r.items == (if |left| <= size then left else left[..size])
      && (r.nextCursor.None? <==> |left| <= size)
      && (|left| > size ==> r.nextCursor == Some(EncodeCursor(left[size - 1].created, left[size - 1].id)))
  {
    if !(1 <= size <= 200) { return BadPageSize; }
    if f.fts.Some? { return FtsNotImplemented; }
    var at: Option<Key> := None;
    if cursor.Some? {
      at := DecodeCursor(cursor.value, utf8);
      if at.None? { return BadCursor; }
    }
    var rows := Fetch(snap, f, size, at);
    PageFromRows(From(Listing(snap, f), at), size, rows);
    r := Found(rows[..Min(size, |rows|)], CursorAfter(rows, size));
  }

  /** No lot is counted twice. */
  lemma MatchingSize(lots: seq<Lot>, f: Filters, subs: map<int, Date>)
    requires Table(lots)
    ensures |Matching(lots, f, subs)| == |set x | x in lots && Matches(f, x, subs)|
  {
    var rows := Matching(lots, f, subs);
    MatchingDistinct(lots, f, subs);
    forall x ensures x in rows <==> x in lots && Matches(f, x, subs) {
      MatchingMembers(lots, f, subs, x);
    }
    DistinctSize(rows);
    assert (set x | x in rows) == set x | x in lots && Matches(f, x, subs);
  }

  lemma {:induction false} DistinctSize(rows: seq<Lot>)
    requires DistinctKeys(rows)
    ensures |set x | x in rows| == |rows|
  {
    if rows != [] {
      var rest := rows[1..];
      assert DistinctKeys(rest);
      DistinctSize(rest);
      assert (set x | x in rows) == {rows[0]} + set x | x in rest;
      assert rows[0] !in rest by {
        forall i | 0 <= i < |rest| ensures rest[i] != rows[0] { assert rest[i] == rows[i + 1]; }
      }
    }
  }

  /** How many lots the filter matches; asking for a text search is an error. */
  function CountOf(snap: Snapshot, f: Filters): Option<nat> {
    if f.fts.Some? then None else Some(|Matching(snap.lots, f, snap.subs)|)
  }

  /** SELECT COUNT(*): no cursor, no order, no limit. */
  method Count(snap: Snapshot, f: Filters) returns (n: Option<nat>)
    ensures n == CountOf(snap, f)
    ensures n.None? <==> f.fts.Some?
    ensures n.Some? && Table(snap.lots) ==> n.value == |set x | x in snap.lots && Matches(f, x, snap.subs)|
  {
    if Table(snap.lots) { MatchingSize(snap.lots, f, snap.subs); }
    if f.fts.Some? { return None; }
    var w := BuildWhere(f);
    SelectedMatching(snap.lots, w, f, snap.subs);
    n := Some(|Selected(snap.lots, w, snap.subs)|);
  }

  // ---------------------------------------------------------------------
  // Walks over a changing table
  // ---------------------------------------------------------------------

  ghost predicate Tables(snaps: seq<Snapshot>) {
    forall i :: 0 <= i < |snaps| ==> Table(snaps[i].lots)
  }

  function Listings(snaps: seq<Snapshot>, f: Filters): (r: seq<seq<Lot>>)
    ensures |r| == |snaps| && forall i :: 0 <= i < |r| ==> r[i] == Listing(snaps[i], f)
  {
    if snaps == [] then [] else [Listing(snaps[0], f)] + Listings(snaps[1..], f)
  }

  /** The cursor handed out makes the next request start exactly where the page ended, because
      what the parser stored is what isoformat() prints. */
  lemma CursorContinues(list: seq<Lot>, size: nat, cursor: Option<Key>, utf8: seq<byte> -> Option<string>)
    requires size >= 1 && ReadsAscii(utf8) && forall x :: x in list ==> StoredByParser(x)
    ensures var p := PageOf(list, size, cursor);
      && (p.next.Some? <==> NextCursor(p).Some?)
      && (p.next.Some? ==> StartOf(NextCursor(p), utf8) == Some(p.next))
  {
    var p := PageOf(list, size, cursor);
    if p.next.Some? {
      var last := From(list, cursor)[size - 1];
      assert p.items[|p.items| - 1] == last;
      FromMembers(list, cursor, last);
      CursorRoundTrip(last.created, last.id, utf8);
    }
  }

  lemma WalkedListings(snaps: seq<Snapshot>, f: Filters)
    requires Tables(snaps)
    ensures AllDescending(Listings(snaps, f))
  {
    forall i | 0 <= i < |snaps| ensures Descending(Listings(snaps, f)[i]) {
      ListingFacts(snaps[i], f);
    }
  }

  /** Every row was written by the parser. */
  ghost predicate Stored(snaps: seq<Snapshot>) {
    forall i, x {:trigger x in snaps[i].lots} :: 0 <= i < |snaps| && x in snaps[i].lots ==> StoredByParser(x)
  }

  /** A client following next_cursor: each request on the table as it then is, with the cursor
      string of the page before; the first sends none, and an undecodable one ends the walk. */
  function Followed(snaps: seq<Snapshot>, f: Filters, size: nat, cursor: Option<string>, utf8: seq<byte> -> Option<string>): seq<Lot>
    requires size >= 1
    decreases |snaps|
  {
    if snaps == [] || StartOf(cursor, utf8).None? then []
    else
      var p := PageOf(Listing(snaps[0], f), size, StartOf(cursor, utf8).value);
      var next := NextCursor(p);
      if next.None? then p.items else p.items + Followed(snaps[1..], f, size, next, utf8)
  }

  /** The client got a page without a next cursor. */
  predicate Finished(snaps: seq<Snapshot>, f: Filters, size: nat, cursor: Option<string>, utf8: seq<byte> -> Option<string>)
    requires size >= 1
    decreases |snaps|
  {
    snaps != [] && StartOf(cursor, utf8).Some? &&
    var next := NextCursor(PageOf(Listing(snaps[0], f), size, StartOf(cursor, utf8).value));
    next.None? || Finished(snaps[1..], f, size, next, utf8)
  }

  /** Following the strings is following the keys: the codec loses nothing on the way. */
  lemma {:induction false} FollowedIsCollected(snaps: seq<Snapshot>, f: Filters, size: nat, cursor: Option<string>,
                                               utf8: seq<byte> -> Option<string>)
    requires size >= 1 && Tables(snaps) && Stored(snaps) && ReadsAscii(utf8) && StartOf(cursor, utf8).Some?
    ensures var at := StartOf(cursor, utf8).value;
      && Followed(snaps, f, size, cursor, utf8) == Collect(Listings(snaps, f), size, at)
      && (Finished(snaps, f, size, cursor, utf8) <==> Ends(Listings(snaps, f), size, at))
    decreases |snaps|
  {
    hide LexLess, KeyLess, EncodeCursor, DecodeCursor, ReadsAscii, StoredByParser, PageOf, Listing;
    if snaps != [] {
      var at, list := StartOf(cursor, utf8).value, Listing(snaps[0], f);
      ListingFacts(snaps[0], f);
      CursorContinues(list, size, at, utf8);
      var next := NextCursor(PageOf(list, size, at));
      assert Listings(snaps, f)[1..] == Listings(snaps[1..], f);
      if next.Some? { FollowedIsCollected(snaps[1..], f, size, next, utf8); }
    }
  }

  /** A lot keeps its creation date for life. */
  ghost predicate FixedDates(snaps: seq<Snapshot>) {
    forall i, j, x, y {:trigger x in snaps[i].lots, y in snaps[j].lots} ::
      0 <= i < |snaps| && 0 <= j < |snaps| && x in snaps[i].lots && y in snaps[j].lots && x.id == y.id
      ==> x.text == y.text
  }

  /** Pages taken while lots are inserted, changed or deactivated: following next_cursor, no lot
      id comes twice, in whatever state the lot was on either occasion, and keys only descend. */
  lemma NoLotTwice(snaps: seq<Snapshot>, f: Filters, size: nat, utf8: seq<byte> -> Option<string>)
    requires size >= 1 && Tables(snaps) && Stored(snaps) && FixedDates(snaps) && ReadsAscii(utf8)
    ensures var all := Followed(snaps, f, size, None, utf8);
      forall i, j :: 0 <= i < j < |all| ==> all[i].id != all[j].id && KeyLess(KeyOf(all[j]), KeyOf(all[i]))
  {
    hide ReadsAscii, Stored, StoredByParser, Followed;
    FollowedIsCollected(snaps, f, size, None, utf8);
    var all := Collect(Listings(snaps, f), size, None);
    forall i, j | 0 <= i < j < |all| ensures all[i].id != all[j].id && KeyLess(KeyOf(all[j]), KeyOf(all[i])) {
      CollectedApart(snaps, f, size, i, j);
    }
  }

  lemma CollectedApart(snaps: seq<Snapshot>, f: Filters, size: nat, i: nat, j: nat)
    requires size >= 1 && Tables(snaps) && FixedDates(snaps) && i < j < |Collect(Listings(snaps, f), size, None)|
    ensures var all := Collect(Listings(snaps, f), size, None);
      all[i].id != all[j].id && KeyLess(KeyOf(all[j]), KeyOf(all[i]))
  {
    hide Listing;
    var lists := Listings(snaps, f);
    var all := Collect(lists, size, None);
    WalkedListings(snaps, f);
    WalkDescends(lists, size, None);
    var a := CollectedFrom(lists, size, None, all[i]);
    var b := CollectedFrom(lists, size, None, all[j]);
    ListingFacts(snaps[a], f);
    ListingFacts(snaps[b], f);
    KeyIrreflexive(KeyOf(all[i]));
  }

  /** The lot with this key matches in this state of the table. */
  ghost predicate MatchesAt(snap: Snapshot, f: Filters, key: Key) {
    exists x :: x in snap.lots && Matches(f, x, snap.subs) && KeyOf(x) == key
  }

  /** Following next_cursor to its end, a lot that matches at the time of every request is
      returned exactly once. */
  lemma ContinuousMatchOnce(snaps: seq<Snapshot>, f: Filters, size: nat, utf8: seq<byte> -> Option<string>, key: Key)
    returns (k: nat)
    requires size >= 1 && Tables(snaps) && Stored(snaps) && ReadsAscii(utf8) && Finished(snaps, f, size, None, utf8)
    requires forall i :: 0 <= i < |snaps| ==> MatchesAt(snaps[i], f, key)
    ensures var all := Followed(snaps, f, size, None, utf8);
      && k < |all| && KeyOf(all[k]) == key
      && (forall j :: 0 <= j < |all| && j != k ==> KeyOf(all[j]) != key)
  {
    hide ReadsAscii, Stored, StoredByParser, Listing, Followed, Finished;
    var lists := Listings(snaps, f);
    FollowedIsCollected(snaps, f, size, None, utf8);
    WalkedListings(snaps, f);
    forall i | 0 <= i < |lists| ensures HasKey(lists[i], key) {
      assert MatchesAt(snaps[i], f, key);
      ListingFacts(snaps[i], f);
    }
    k := ListedThroughoutOnce(lists, size, key);
  }

  function Unchanging(snap: Snapshot, n: nat): (r: seq<Snapshot>)
    ensures |r| == n && forall i :: 0 <= i < n ==> r[i] == snap
  {
    if n == 0 then [] else [snap] + Unchanging(snap, n - 1)
  }

  lemma {:induction false} UnchangingLists(snap: Snapshot, f: Filters, n: nat)
    ensures Listings(Unchanging(snap, n), f) == Repeated(Listing(snap, f), n)
  {
    hide Listing;
    if n > 0 {
      UnchangingLists(snap, f, n - 1);
      assert Unchanging(snap, n)[1..] == Unchanging(snap, n - 1);
    }
  }

  /** On an unchanging table following next_cursor reaches the end within one request more than
      there are lots, and returns the whole filtered catalogue in order: exactly the matching lots,
      as many as count says. */
  lemma UnchangedWalk(snap: Snapshot, f: Filters, size: nat, utf8: seq<byte> -> Option<string>, requests: nat)
    requires size >= 1 && Table(snap.lots) && (forall x :: x in snap.lots ==> StoredByParser(x)) && ReadsAscii(utf8)
    requires requests > |Listing(snap, f)|
    ensures var all, snaps := Followed(Unchanging(snap, requests), f, size, None, utf8), Unchanging(snap, requests);
      && Finished(snaps, f, size, None, utf8)
      && all == Listing(snap, f) && Descending(all)
      && (forall x :: x in all <==> x in snap.lots && Matches(f, x, snap.subs))
      && CountOf(snap, f) == if f.fts.Some? then None else Some(|all|)
  {
    var listing := Listing(snap, f);
    assert |listing| == |Matching(snap.lots, f, snap.subs)|;
    hide ReadsAscii, StoredByParser, Listing, Followed, Finished, Matches, Matching;
    ListingFacts(snap, f);
    NoCut(listing);
    StaticWalk(listing, size, None, requests);
    UnchangingLists(snap, f, requests);
    FollowedIsCollected(Unchanging(snap, requests), f, size, None, utf8);
  }

  lemma {:induction false} NoCut(list: seq<Lot>)
    ensures From(list, None) == list
  {
    if list != [] { NoCut(list[1..]); }
  }
}

/** Pages cut out of lists in descending key order, and walks over changing lists. */
module KeysetWalk {
  import opened Prelude
  import opened LotQuery

  // ---------------------------------------------------------------------
  // ORDER BY date_create DESC, id DESC
  // ---------------------------------------------------------------------

  ghost predicate Descending(s: seq<Lot>) {
    forall i, j {:trigger s[i], s[j]} :: 0 <= i < j < |s| ==> KeyLess(KeyOf(s[j]), KeyOf(s[i]))
  }

  ghost predicate DistinctKeys(s: seq<Lot>) {
    forall i, j {:trigger s[i], s[j]} :: 0 <= i < j < |s| ==> KeyOf(s[i]) != KeyOf(s[j])
  }

  function Insert(lot: Lot, s: seq<Lot>): (r: seq<Lot>)
    ensures |r| == |s| + 1
  {
    if s == [] || KeyLess(KeyOf(s[0]), KeyOf(lot)) then [lot] + s
    else [s[0]] + Insert(lot, s[1..])
  }

  function Sorted(s: seq<Lot>): (r: seq<Lot>)
    ensures |r| == |s|
  {
    if s == [] then [] else Insert(s[0], Sorted(s[1..]))
  }

  lemma {:induction false} InsertMembers(lot: Lot, s: seq<Lot>, x: Lot)
    ensures x in Insert(lot, s) <==> x == lot || x in s
  {
    if s != [] && !KeyLess(KeyOf(s[0]), KeyOf(lot)) {
      InsertMembers(lot, s[1..], x);
      assert x in s <==> x == s[0] || x in s[1..];
    }
  }

  lemma {:induction false} SortedMembers(s: seq<Lot>, x: Lot)
    ensures x in Sorted(s) <==> x in s
  {
    if s != [] {
      SortedMembers(s[1..], x);
      InsertMembers(s[0], Sorted(s[1..]), x);
    }
  }

  lemma DescendingCons(lot: Lot, s: seq<Lot>)
    requires Descending(s) && forall x :: x in s ==> KeyLess(KeyOf(x), KeyOf(lot))
    ensures Descending([lot] + s)
  {
    forall i, j | 0 <= i < j < |[lot] + s| ensures KeyLess(KeyOf(([lot] + s)[j]), KeyOf(([lot] + s)[i])) {
      assert ([lot] + s)[j] == s[j - 1] && s[j - 1] in s;
    }
  }

  lemma DescendingHead(s: seq<Lot>, x: Lot)
    requires Descending(s) && x in s
    ensures x == s[0] || KeyLess(KeyOf(x), KeyOf(s[0]))
  {
    var i :| 0 <= i < |s| && s[i] == x;
  }

  lemma {:induction false} InsertDescending(lot: Lot, s: seq<Lot>)
    requires Descending(s) && forall x :: x in s ==> KeyOf(x) != KeyOf(lot)
    ensures Descending(Insert(lot, s))
  {
    if s == [] {
    } else if KeyLess(KeyOf(s[0]), KeyOf(lot)) {
      forall x | x in s ensures KeyLess(KeyOf(x), KeyOf(lot)) {
        DescendingHead(s, x);
        if x != s[0] { KeyTransitive(KeyOf(x), KeyOf(s[0]), KeyOf(lot)); }
      }
      DescendingCons(lot, s);
    } else {
      assert Descending(s[1..]) && s[0] in s;
      InsertDescending(lot, s[1..]);
      KeyTotal(KeyOf(s[0]), KeyOf(lot));
      forall x | x in Insert(lot, s[1..]) ensures KeyLess(KeyOf(x), KeyOf(s[0])) {
        InsertMembers(lot, s[1..], x);
        if x in s[1..] {
          var i :| 0 <= i < |s[1..]| && s[1..][i] == x;
          assert s[i + 1] == x;
        }
      }
      DescendingCons(s[0], Insert(lot, s[1..]));
    }
  }

  lemma {:induction false} SortedDescending(s: seq<Lot>)
    requires DistinctKeys(s)
    ensures Descending(Sorted(s))
  {
    if s != [] {
      assert DistinctKeys(s[1..]);
      SortedDescending(s[1..]);
      forall x | x in Sorted(s[1..]) ensures KeyOf(x) != KeyOf(s[0]) {
        SortedMembers(s[1..], x);
        var i :| 0 <= i < |s[1..]| && s[1..][i] == x;
        assert s[i + 1] == x;
      }
      InsertDescending(s[0], Sorted(s[1..]));
    }
  }

  lemma BothEmpty(s: seq<Lot>, t: seq<Lot>)
    requires forall x :: x in s <==> x in t
    ensures |s| == 0 <==> |t| == 0
  {
    assert |s| > 0 ==> s[0] in t;
    assert |t| > 0 ==> t[0] in s;
  }

  /** A descending list is determined by its members. */
  lemma {:induction false} SameMembersSameList(s: seq<Lot>, t: seq<Lot>)
    requires Descending(s) && Descending(t) && forall x :: x in s <==> x in t
    ensures s == t
  {
    BothEmpty(s, t);
    if |s| > 0 {
      assert s[0] in s && t[0] in t;
      DescendingHead(s, t[0]);
      DescendingHead(t, s[0]);
      if s[0] != t[0] {
        KeyTransitive(KeyOf(s[0]), KeyOf(t[0]), KeyOf(s[0]));
        KeyIrreflexive(KeyOf(s[0]));
      }
      forall x ensures x in s[1..] <==> x in t[1..] {
        TailMembers(s, x);
        TailMembers(t, x);
      }
      assert Descending(s[1..]) && Descending(t[1..]);
      SameMembersSameList(s[1..], t[1..]);
      assert s == [s[0]] + s[1..] && t == [t[0]] + t[1..];
    }
  }

  lemma TailMembers(s: seq<Lot>, x: Lot)
    requires Descending(s) && s != []
    ensures x in s[1..] <==> x in s && x != s[0]
  {
    KeyIrreflexive(KeyOf(s[0]));
    if x in s[1..] {
      var i :| 0 <= i < |s[1..]| && s[1..][i] == x;
      assert s[i + 1] == x;
    }
  }

  // ---------------------------------------------------------------------
  // One page of a list
  // ---------------------------------------------------------------------

  /** What of a list lies below the cursor. */
  function From(list: seq<Lot>, cursor: Option<Key>): seq<Lot> {
    if list == [] then []
    else if Below(list[0], cursor) then [list[0]] + From(list[1..], cursor)
    else From(list[1..], cursor)
  }

  datatype Page = Page(items: seq<Lot>, next: Option<Key>)

  function Min(a: nat, b: nat): nat { if a <= b then a else b }

  function FirstOf(all: seq<Lot>, size: nat): Page
    requires size >= 1
  {
    Page(all[..Min(size, |all|)], if |all| > size then Some(KeyOf(all[size - 1])) else None)
  }

  function PageOf(list: seq<Lot>, size: nat, cursor: Option<Key>): Page
    requires size >= 1
  {
    FirstOf(From(list, cursor), size)
  }

  lemma {:induction false} FromMembers(list: seq<Lot>, cursor: Option<Key>, x: Lot)
    ensures x in From(list, cursor) <==> x in list && Below(x, cursor)
  {
    if list != [] {
      FromMembers(list[1..], cursor, x);
      assert x in list <==> x == list[0] || x in list[1..];
    }
  }

  lemma {:induction false} FromDescending(list: seq<Lot>, cursor: Option<Key>)
    requires Descending(list)
    ensures Descending(From(list, cursor))
  {
    if list != [] {
      assert Descending(list[1..]);
      FromDescending(list[1..], cursor);
      forall x | x in From(list[1..], cursor) ensures KeyLess(KeyOf(x), KeyOf(list[0])) {
        FromMembers(list[1..], cursor, x);
        var i :| 0 <= i < |list[1..]| && list[1..][i] == x;
        assert list[i + 1] == x;
      }
      DescendingCons(list[0], From(list[1..], cursor));
    }
  }

  ghost predicate Above(s: seq<Lot>, key: Key) {
    forall i :: 0 <= i < |s| ==> key == KeyOf(s[i]) || KeyLess(key, KeyOf(s[i]))
  }

  ghost predicate AllBelow(s: seq<Lot>, cursor: Option<Key>) {
    forall i :: 0 <= i < |s| ==> Below(s[i], cursor)
  }

  /** Cutting a descending list after `size` lots. */
  lemma Cut(all: seq<Lot>, size: nat, i: nat)
    requires Descending(all) && 1 <= size <= |all| && i < |all|
    ensures i < size ==> !KeyLess(KeyOf(all[i]), KeyOf(all[size - 1]))
    ensures i < size ==> KeyOf(all[size - 1]) == KeyOf(all[i]) || KeyLess(KeyOf(all[size - 1]), KeyOf(all[i]))
    ensures i >= size ==> KeyLess(KeyOf(all[i]), KeyOf(all[size - 1]))
  {
    KeyIrreflexive(KeyOf(all[i]));
    if i < size - 1 && KeyLess(KeyOf(all[i]), KeyOf(all[size - 1])) {
      KeyTransitive(KeyOf(all[i]), KeyOf(all[size - 1]), KeyOf(all[i]));
    }
  }

  lemma PageShape(list: seq<Lot>, size: nat, cursor: Option<Key>)
    requires size >= 1 && Descending(list)
    ensures var p := PageOf(list, size, cursor);
      Descending(p.items) && AllBelow(p.items, cursor) && (p.next.Some? ==> p.items != [] && Above(p.items, p.next.value))
  {
    FromDescending(list, cursor);
    var all, p := From(list, cursor), PageOf(list, size, cursor);
    forall i | 0 <= i < |p.items| ensures Below(p.items[i], cursor) {
      FromMembers(list, cursor, all[i]);
    }
    if p.next.Some? {
      forall i | 0 <= i < |p.items| ensures p.next.value == KeyOf(p.items[i]) || KeyLess(p.next.value, KeyOf(p.items[i])) {
        Cut(all, size, i);
      }
    }
  }

  lemma IndexOf(s: seq<Lot>, x: Lot) returns (k: nat)
    requires x in s
    ensures k < |s| && s[k] == x
  {
    k :| 0 <= k < |s| && s[k] == x;
  }

  /** A listed lot below the cursor is on the page or below the next cursor. */
  lemma PageOrLater(list: seq<Lot>, size: nat, cursor: Option<Key>, x: Lot)
    requires size >= 1 && Descending(list) && x in list && Below(x, cursor)
    ensures var p := PageOf(list, size, cursor); x in p.items || (p.next.Some? && Below(x, p.next))
  {
    FromDescending(list, cursor);
    FromMembers(list, cursor, x);
    var all := From(list, cursor);
    var i := IndexOf(all, x);
    if i < size {
      assert PageOf(list, size, cursor).items[i] == x;
    } else {
      Cut(all, size, i);
    }
  }

  // ---------------------------------------------------------------------
  // A whole walk
  // ---------------------------------------------------------------------

  /** Request after request, each on the list as it then is, following next_cursor. */
  function Collect(lists: seq<seq<Lot>>, size: nat, cursor: Option<Key>): seq<Lot>
    requires size >= 1
    decreases |lists|
  {
    if lists == [] then []
    else
      var p := PageOf(lists[0], size, cursor);
      if p.next.None? then p.items else p.items + Collect(lists[1..], size, p.next)
  }

  /** Some request of the walk came back without a next cursor. */
  predicate Ends(lists: seq<seq<Lot>>, size: nat, cursor: Option<Key>)
    requires size >= 1
    decreases |lists|
  {
    lists != [] &&
    var p := PageOf(lists[0], size, cursor);
    p.next.None? || Ends(lists[1..], size, p.next)
  }

  lemma CollectOpens(lists: seq<seq<Lot>>, size: nat, cursor: Option<Key>) returns (p: Page, rest: seq<Lot>)
    requires size >= 1 && lists != []
    ensures p == PageOf(lists[0], size, cursor)
    ensures rest == if p.next.None? then [] else Collect(lists[1..], size, p.next)
    ensures Collect(lists, size, cursor) == p.items + rest
    ensures Ends(lists, size, cursor) <==> p.next.None? || Ends(lists[1..], size, p.next)
  {
    p := PageOf(lists[0], size, cursor);
    rest := if p.next.None? then [] else Collect(lists[1..], size, p.next);
  }

  ghost predicate AllDescending(lists: seq<seq<Lot>>) {
    forall i :: 0 <= i < |lists| ==> Descending(lists[i])
  }

  lemma JoinDescending(page: seq<Lot>, rest: seq<Lot>, next: Key, cursor: Option<Key>)
    requires Descending(page) && Above(page, next) && AllBelow(page, cursor) && page != []
    requires Descending(rest) && AllBelow(rest, Some(next))
    ensures Descending(page + rest) && AllBelow(page + rest, cursor)
  {
    forall i, j | 0 <= i < |page| && 0 <= j < |rest| ensures KeyLess(KeyOf(rest[j]), KeyOf(page[i])) {
      assert Below(rest[j], Some(next));
      if next != KeyOf(page[i]) { KeyTransitive(KeyOf(rest[j]), next, KeyOf(page[i])); }
    }
    if cursor.Some? {
      forall j | 0 <= j < |rest| ensures Below(rest[j], cursor) {
        assert Below(page[0], cursor);
        KeyTransitive(KeyOf(rest[j]), KeyOf(page[0]), cursor.value);
      }
    }
  }

  /** Whatever happens to the lists between the requests, the pages taken together descend
      strictly in key: nothing comes twice. */
  lemma {:induction false} WalkDescends(lists: seq<seq<Lot>>, size: nat, cursor: Option<Key>)
    requires size >= 1 && AllDescending(lists)
    ensures Descending(Collect(lists, size, cursor)) && AllBelow(Collect(lists, size, cursor), cursor)
    decreases |lists|
  {
    if lists != [] {
      var p, rest := CollectOpens(lists, size, cursor);
      PageShape(lists[0], size, cursor);
      assert p.items + [] == p.items;
      if p.next.Some? {
        WalkDescends(lists[1..], size, p.next);
        JoinDescending(p.items, rest, p.next.value, cursor);
      }
    }
  }

  /** Every lot returned was listed at the time of some request. */
  lemma {:induction false} CollectedFrom(lists: seq<seq<Lot>>, size: nat, cursor: Option<Key>, x: Lot) returns (i: nat)
    requires size >= 1 && x in Collect(lists, size, cursor)
    ensures i < |lists| && x in lists[i]
    decreases |lists|
  {
    var p, rest := CollectOpens(lists, size, cursor);
    if x in p.items {
      i := 0;
      FromMembers(lists[0], cursor, x);
    } else {
      i := CollectedFrom(lists[1..], size, p.next, x);
      i := i + 1;
    }
  }

  ghost predicate HasKey(list: seq<Lot>, key: Key) {
    exists x :: x in list && KeyOf(x) == key
  }

  ghost predicate AlwaysHasKey(lists: seq<seq<Lot>>, key: Key) {
    forall i :: 0 <= i < |lists| ==> HasKey(lists[i], key)
  }

  lemma {:induction false} WalkFinds(lists: seq<seq<Lot>>, size: nat, cursor: Option<Key>, key: Key) returns (k: nat)
    requires size >= 1 && AllDescending(lists) && Ends(lists, size, cursor)
    requires AlwaysHasKey(lists, key) && (cursor.Some? ==> KeyLess(key, cursor.value))
    ensures k < |Collect(lists, size, cursor)| && KeyOf(Collect(lists, size, cursor)[k]) == key
    decreases |lists|
  {
    var p, rest := CollectOpens(lists, size, cursor);
    assert HasKey(lists[0], key);
    var x :| x in lists[0] && KeyOf(x) == key;
    PageOrLater(lists[0], size, cursor, x);
    if x in p.items {
      k := IndexOf(p.items, x);
      assert (p.items + rest)[k] == x;
    } else {
      var j := WalkFinds(lists[1..], size, p.next, key);
      k := j + |p.items|;
      assert (p.items + rest)[k] == rest[j];
    }
  }

  /** While lots come and go between the requests, one that is listed throughout is returned
      exactly once. */
  lemma ListedThroughoutOnce(lists: seq<seq<Lot>>, size: nat, key: Key) returns (k: nat)
    requires size >= 1 && AllDescending(lists) && Ends(lists, size, None) && AlwaysHasKey(lists, key)
    ensures var all := Collect(lists, size, None);
      && k < |all| && KeyOf(all[k]) == key
      && (forall j :: 0 <= j < |all| && j != k ==> KeyOf(all[j]) != key)
  {
    k := WalkFinds(lists, size, None, key);
    WalkDescends(lists, size, None);
    var all := Collect(lists, size, None);
    forall j | 0 <= j < |all| && j != k ensures KeyOf(all[j]) != key {
      KeyIrreflexive(key);
      assert j < k ==> KeyLess(KeyOf(all[k]), KeyOf(all[j]));
      assert k < j ==> KeyLess(KeyOf(all[j]), KeyOf(all[k]));
    }
  }

  // ---------------------------------------------------------------------
  // Without changes
  // ---------------------------------------------------------------------

  lemma InTail(all: seq<Lot>, size: nat, x: Lot)
    requires Descending(all) && 1 <= size <= |all|
    ensures x in all[size..] <==> x in all && KeyLess(KeyOf(x), KeyOf(all[size - 1]))
  {
    if x in all {
      var i :| 0 <= i < |all| && all[i] == x;
      Cut(all, size, i);
      if i >= size { assert all[size..][i - size] == x; }
    }
    if x in all[size..] {
      var i :| 0 <= i < |all[size..]| && all[size..][i] == x;
      Cut(all, size, size + i);
      assert all[size + i] == x;
    }
  }

  /** The next page starts where this one ended. */
  lemma NextFrom(list: seq<Lot>, size: nat, cursor: Option<Key>)
    requires size >= 1 && Descending(list) && PageOf(list, size, cursor).next.Some?
    ensures From(list, PageOf(list, size, cursor).next) == From(list, cursor)[size..]
  {
    var all, next := From(list, cursor), PageOf(list, size, cursor).next;
    var rest := From(list, next);
    FromDescending(list, cursor);
    FromDescending(list, next);
    FromMembers(list, cursor, all[size - 1]);
    forall x ensures x in rest <==> x in all[size..] {
      InTail(all, size, x);
      FromMembers(list, cursor, x);
      FromMembers(list, next, x);
      if x in rest && cursor.Some? { KeyTransitive(KeyOf(x), next.value, cursor.value); }
    }
    SameMembersSameList(rest, all[size..]);
  }

  function Repeated(list: seq<Lot>, n: nat): seq<seq<Lot>> {
    if n == 0 then [] else [list] + Repeated(list, n - 1)
  }

  /** On an unchanging list the pages concatenate to the whole list, and enough requests reach
      its end. */
  lemma {:induction false} StaticWalk(list: seq<Lot>, size: nat, cursor: Option<Key>, requests: nat)
    requires size >= 1 && Descending(list) && requests > |From(list, cursor)|
    ensures Ends(Repeated(list, requests), size, cursor)
    ensures Collect(Repeated(list, requests), size, cursor) == From(list, cursor)
    decreases requests
  {
    var lists := Repeated(list, requests);
    assert lists[0] == list && lists[1..] == Repeated(list, requests - 1);
    var p, rest := CollectOpens(lists, size, cursor);
    if p.next.Some? {
      NextFrom(list, size, cursor);
      StaticWalk(list, size, p.next, requests - 1);
    }
    FirstAndRest(From(list, cursor), size);
  }

  lemma FirstAndRest(all: seq<Lot>, size: nat)
    requires size >= 1
    ensures FirstOf(all, size).items + (if |all| > size then all[size..] else []) == all
  {
  }
}

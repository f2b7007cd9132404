/** The v9 to v10 migration: macro rows of region_subscriptions become rows of their subjects. */
module RegionMigration {
  import opened IsoText
  import opened Regions

  /** A subscription table: subscribed_at, as stored text, by id. */
  type Rows = map<int, string>

  // ---------------------------------------------------------------------
  // What the migration is for
  // ---------------------------------------------------------------------

  predicate NotAfter(a: string, b: string) { a == b || LexLess(a, b) }

  /** A timestamp the id has a claim to: its own, or that of a macro row covering it. */
  ghost predicate Claims(before: Rows, cover: map<int, seq<int>>, id: int, stamp: string) {
    (id in before && before[id] == stamp)
    || exists m :: m in before && m in cover && id in cover[m] && before[m] == stamp
  }

  /** No macro row is left; every other row is there whose id had a row or is covered by a macro
      row, and carries the earliest timestamp it has a claim to. */
  ghost predicate Expanded(before: Rows, cover: map<int, seq<int>>, after: Rows) {
    && (forall id :: id in after <==> id !in cover && (id in before || CoveredBy(cover, before.Keys, id)))
    && (forall id :: id in after ==>
          Claims(before, cover, id, after[id])
          && forall stamp :: Claims(before, cover, id, stamp) ==> NotAfter(after[id], stamp))
  }

  lemma NotAfterAntisymmetric(a: string, b: string)
    requires NotAfter(a, b) && NotAfter(b, a)
    ensures a == b
  {
    if a != b {
      LexTransitive(a, b, a);
      LexIrreflexive(a);
    }
  }

  /** The description has one solution, so the result cannot depend on the order of the rows. */
  lemma ExpandedUnique(before: Rows, cover: map<int, seq<int>>, a: Rows, b: Rows)
    requires Expanded(before, cover, a) && Expanded(before, cover, b)
    ensures a == b
  {
    forall id | id in a ensures a[id] == b[id] {
      NotAfterAntisymmetric(a[id], b[id]);
    }
    assert forall id :: id in a <==> id in b;
  }

  lemma NoMacrosLeft(rows: Rows, cover: map<int, seq<int>>)
    requires forall id :: id in rows ==> id !in cover
    ensures Expanded(rows, cover, rows)
  {
    forall id ensures !CoveredBy(cover, rows.Keys, id) {
    }
    forall id, stamp | Claims(rows, cover, id, stamp) ensures id in rows && rows[id] == stamp {
    }
  }

  /** A second run finds nothing to do. */
  lemma ExpandedTwice(before: Rows, cover: map<int, seq<int>>, after: Rows, again: Rows)
    requires Expanded(before, cover, after) && Expanded(after, cover, again)
    ensures again == after
  {
    NoMacrosLeft(after, cover);
    ExpandedUnique(after, cover, again, after);
  }

  /** Rows that are neither macros nor covered by one stay exactly as they were. */
  lemma OthersUntouched(before: Rows, cover: map<int, seq<int>>, after: Rows, id: int)
    requires Expanded(before, cover, after) && id !in cover && !CoveredBy(cover, before.Keys, id)
    ensures id in after <==> id in before
    ensures id in before ==> after[id] == before[id]
  {
  }

  // ---------------------------------------------------------------------
  // The loops
  // ---------------------------------------------------------------------

  datatype Insertion = Insertion(id: int, stamp: string)

  /** The table after these insert-or-keep-the-earlier steps. */
  ghost predicate Merged(before: Rows, done: seq<Insertion>, rows: Rows) {
    && (forall id :: id in rows <==> id in before || exists k :: 0 <= k < |done| && done[k].id == id)
    && (forall id :: id in before ==> id in rows && NotAfter(rows[id], before[id]))
    && (forall k :: 0 <= k < |done| ==> done[k].id in rows && NotAfter(rows[done[k].id], done[k].stamp))
    && (forall id :: id in rows ==>
          (id in before && rows[id] == before[id]) || Insertion(id, rows[id]) in done)
  }

  lemma NotAfterTransitive(a: string, b: string, c: string)
    requires NotAfter(a, b) && NotAfter(b, c)
    ensures NotAfter(a, c)
  {
    if a != b && b != c { LexTransitive(a, b, c); }
  }

  class Subscriptions {
    var rows: Rows

    constructor (rows: Rows)
      ensures this.rows == rows
    {
      this.rows := rows;
    }

    /** INSERT OR IGNORE, then UPDATE .. SET subscribed_at = MIN(subscribed_at, ?). */
    method InsertKeepingEarlier(id: int, stamp: string, ghost before: Rows, ghost done: seq<Insertion>)
      requires Merged(before, done, rows)
      modifies this
      ensures Merged(before, done + [Insertion(id, stamp)], rows)
      ensures rows.Keys == old(rows).Keys + {id} && forall k :: k in old(rows) && k != id ==> rows[k] == old(rows)[k]
    {
      ghost var was := rows;
      if id !in rows {
        rows := rows[id := stamp];
      }
      if LexLess(stamp, rows[id]) {
        rows := rows[id := stamp];
      }
      StampTotal(was, id, stamp);
      MergeStep(before, done, was, id, stamp, rows);
    }

    method Delete(id: int)
      modifies this
      ensures rows == old(rows) - {id}
    {
      rows := rows - {id};
    }

    /** The migration, with the rows read in any order. */
    method ExpandMacros(order: seq<int>, cover: map<int, seq<int>>)
      requires Separated(cover)
      requires forall id :: id in order <==> id in rows
      modifies this
      ensures Expanded(old(rows), cover, rows)
    {
      hide Merged, InsertedFor, Expanded, Separated;
      ghost var before := rows;
      ghost var done: seq<Insertion> := [];
      NothingRead(before, cover);
      var selected := rows;
      var found: seq<int> := [];
      for i := 0 to |order|
        invariant before == selected == old(rows) && Merged(before, done, rows)
        invariant forall m :: m in found <==> m in order[..i] && m in cover
        invariant InsertedFor(before, cover, order[..i], done)
      {
        assert order[..i + 1] == order[..i] + [order[i]];
        ghost var was := done;
        if order[i] in cover {
          found := found + [order[i]];
          done := InsertSubjects(order[i], selected[order[i]], cover, before, done);
        }
        OneMoreRead(before, cover, order[..i], order[i], was, done);
      }
      assert order[..|order|] == order;
      ghost var merged := rows;
      DeleteAll(found);
      forall id ensures id in rows <==> id in merged && !(id in order && id in cover) {
      }
      AllMerged(before, cover, order, done, merged, rows);
    }

    method InsertSubjects(m: int, stamp: string, cover: map<int, seq<int>>, ghost before: Rows, ghost done: seq<Insertion>)
      returns (ghost more: seq<Insertion>)
      requires m in cover && Merged(before, done, rows)
      modifies this
      ensures Merged(before, more, rows)
      ensures |done| <= |more| && more[..|done|] == done
      ensures forall k :: |done| <= k < |more| ==> more[k].stamp == stamp && more[k].id in cover[m]
      ensures forall s :: s in cover[m] ==> Insertion(s, stamp) in more
    {
      more := done;
      for j := 0 to |cover[m]|
        invariant Merged(before, more, rows)
        invariant |done| <= |more| && more[..|done|] == done
        invariant forall k :: |done| <= k < |more| ==> more[k].stamp == stamp && more[k].id in cover[m]
        invariant forall s :: s in cover[m][..j] ==> Insertion(s, stamp) in more
      {
        InsertKeepingEarlier(cover[m][j], stamp, before, more);
        more := more + [Insertion(cover[m][j], stamp)];
        assert cover[m][..j + 1] == cover[m][..j] + [cover[m][j]];
      }
      assert cover[m][..|cover[m]|] == cover[m];
    }

    method DeleteAll(ids: seq<int>)
      modifies this
      ensures rows == old(rows) - set m | m in ids
    {
      for i := 0 to |ids|
        invariant rows == old(rows) - set m | m in ids[..i]
      {
        Delete(ids[i]);
        assert ids[..i + 1] == ids[..i] + [ids[i]];
      }
      assert ids[..|ids|] == ids;
    }
  }

  /** The insertion is one that a macro row read so far is due. */
  ghost predicate Owed(before: Rows, cover: map<int, seq<int>>, read: seq<int>, x: Insertion) {
    exists m :: m in read && m in before && m in cover && x.id in cover[m] && before[m] == x.stamp
  }

  /** The insertions made for the rows read so far: those they are due, all of them. */
  ghost predicate InsertedFor(before: Rows, cover: map<int, seq<int>>, read: seq<int>, done: seq<Insertion>) {
    && (forall m :: m in read ==> m in before)
    && (forall k :: 0 <= k < |done| ==> Owed(before, cover, read, done[k]))
    && (forall m, s :: m in read && m in cover && s in cover[m] ==> Insertion(s, before[m]) in done)
  }

  lemma NothingRead(before: Rows, cover: map<int, seq<int>>)
    ensures InsertedFor(before, cover, [], []) && Merged(before, [], before)
  {
  }

  lemma OneMoreRead(before: Rows, cover: map<int, seq<int>>, read: seq<int>, id: int, was: seq<Insertion>, done: seq<Insertion>)
    requires InsertedFor(before, cover, read, was) && id in before
    requires |was| <= |done| && done[..|was|] == was && (id !in cover ==> done == was)
    requires id in cover ==> forall k :: |was| <= k < |done| ==> done[k].stamp == before[id] && done[k].id in cover[id]
    requires id in cover ==> forall s :: s in cover[id] ==> Insertion(s, before[id]) in done
    ensures InsertedFor(before, cover, read + [id], done)
  {
    forall k | 0 <= k < |done| ensures Owed(before, cover, read + [id], done[k]) {
      if k < |was| { assert Owed(before, cover, read, was[k]) && done[k] == was[k]; }
    }
    forall m, s | m in read + [id] && m in cover && s in cover[m] ensures Insertion(s, before[m]) in done {
      if m in read {
        assert Insertion(s, before[m]) in was;
        assert forall x :: x in was ==> x in done[..|was|];
      }
    }
  }

  lemma StampTotal(rows: Rows, id: int, stamp: string)
    ensures id in rows ==> NotAfter(rows[id], stamp) || LexLess(stamp, rows[id])
  {
    if id in rows { LexTotal(rows[id], stamp); }
  }

  lemma MergeStep(before: Rows, done: seq<Insertion>, was: Rows, id: int, stamp: string, rows: Rows)
    requires Merged(before, done, was)
    requires rows == if id !in was || LexLess(stamp, was[id]) then was[id := stamp] else was
    requires id in was ==> NotAfter(was[id], stamp) || LexLess(stamp, was[id])
    ensures Merged(before, done + [Insertion(id, stamp)], rows)
  {
    var more := done + [Insertion(id, stamp)];
    forall k | 0 <= k < |more| ensures more[k].id in rows && NotAfter(rows[more[k].id], more[k].stamp) {
      if k < |done| {
        assert done[k].id in was && NotAfter(was[done[k].id], done[k].stamp);
        if done[k].id == id && rows[id] != was[id] { NotAfterTransitive(stamp, was[id], done[k].stamp); }
      }
    }
    forall k | k in before ensures k in rows && NotAfter(rows[k], before[k]) {
      if k == id && rows[id] != was[id] { NotAfterTransitive(stamp, was[id], before[id]); }
    }
    forall k ensures k in rows <==> k in before || exists j :: 0 <= j < |more| && more[j].id == k {
      assert more[|done|].id == id;
      if k in was && k !in before {
        var j :| 0 <= j < |done| && done[j].id == k;
        assert more[j].id == k;
      }
    }
    forall k | k in rows ensures (k in before && rows[k] == before[k]) || Insertion(k, rows[k]) in more {
      assert more[|done|] == Insertion(id, stamp);
      if k in was && rows[k] == was[k] && Insertion(k, was[k]) in done {
        var j :| 0 <= j < |done| && done[j] == Insertion(k, was[k]);
        assert more[j] == Insertion(k, rows[k]);
      }
    }
  }

  /** Everything a macro row is due has been merged, nothing else, and the macros are gone. */
  lemma AllMerged(before: Rows, cover: map<int, seq<int>>, order: seq<int>, done: seq<Insertion>, merged: Rows, after: Rows)
    requires Separated(cover) && Merged(before, done, merged)
    requires forall id :: id in order <==> id in before
    requires InsertedFor(before, cover, order, done)
    requires forall id :: id in after <==> id in merged && !(id in order && id in cover)
    requires forall id :: id in after ==> after[id] == merged[id]
    ensures Expanded(before, cover, after)
  {
    forall id ensures id in after <==> id !in cover && (id in before || CoveredBy(cover, before.Keys, id)) {
      DueIffCovered(before, cover, order, done, id);
    }
    forall id | id in after ensures Claims(before, cover, id, after[id]) {
      if !(id in before && merged[id] == before[id]) {
        var k :| 0 <= k < |done| && done[k] == Insertion(id, merged[id]);
        assert Owed(before, cover, order, done[k]);
      }
    }
    forall id, stamp | id in after && Claims(before, cover, id, stamp) ensures NotAfter(after[id], stamp) {
      if !(id in before && before[id] == stamp) {
        var m :| m in before && m in cover && id in cover[m] && before[m] == stamp;
        assert Insertion(id, before[m]) in done;
        var k :| 0 <= k < |done| && done[k] == Insertion(id, stamp);
      }
    }
  }

  lemma DueIffCovered(before: Rows, cover: map<int, seq<int>>, order: seq<int>, done: seq<Insertion>, id: int)
    requires Separated(cover)
    requires forall id :: id in order <==> id in before
    requires forall k :: 0 <= k < |done| ==> Owed(before, cover, order, done[k])
    requires forall m, s :: m in order && m in cover && s in cover[m] ==> Insertion(s, before[m]) in done
    ensures (exists k :: 0 <= k < |done| && done[k].id == id) <==> CoveredBy(cover, before.Keys, id)
    ensures CoveredBy(cover, before.Keys, id) ==> id !in cover
  {
    if k :| 0 <= k < |done| && done[k].id == id {
      assert Owed(before, cover, order, done[k]);
    }
    if CoveredBy(cover, before.Keys, id) {
      var m :| m in before.Keys && m in cover && id in cover[m];
      assert Insertion(id, before[m]) in done;
      var k :| 0 <= k < |done| && done[k] == Insertion(id, before[m]);
    }
  }
}

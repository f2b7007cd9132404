/** The live configuration and the subscription rows that follow its regions. */
module ConfigSource {
  import opened Prelude
  import opened Regions

  /** Settings as far as this source looks: the regions, and the rest as one value. */
  datatype Settings = Settings(regions: seq<int>, rest: int)

  /** subscribed_at by subject id. */
  type Subs = map<int, int>

  type Cover = map<int, seq<int>>

  // ---------------------------------------------------------------------
  // What a change of regions does to the rows
  // ---------------------------------------------------------------------

  /** The rows after a change of regions from `was` to `now` at `time`: subjects of added macros
      are inserted unless present, subjects of removed macros deleted unless still covered. */
  ghost predicate Follows(cover: Cover, before: Subs, was: set<int>, now: set<int>, time: int, after: Subs) {
    && (forall s :: s in after <==>
          (s in before || CoveredBy(cover, now - was, s)) && !(CoveredBy(cover, was - now, s) && !CoveredBy(cover, now, s)))
    && (forall s :: s in after ==> after[s] == if s in before then before[s] else time)
  }

  /** Every subject the regions cover has a row. */
  ghost predicate Complete(cover: Cover, subs: Subs, regions: set<int>) {
    forall s :: CoveredBy(cover, regions, s) ==> s in subs
  }

  /** Exactly the subjects the regions cover have a row. */
  ghost predicate Exact(cover: Cover, subs: Subs, regions: set<int>) {
    forall s :: CoveredBy(cover, regions, s) <==> s in subs
  }

  lemma CoverSplits(cover: Cover, was: set<int>, now: set<int>, s: int)
    ensures CoveredBy(cover, now, s) ==> CoveredBy(cover, was, s) || CoveredBy(cover, now - was, s)
    ensures CoveredBy(cover, was, s) ==> CoveredBy(cover, now, s) || CoveredBy(cover, was - now, s)
    ensures CoveredBy(cover, now - was, s) ==> CoveredBy(cover, now, s)
    ensures CoveredBy(cover, was - now, s) ==> CoveredBy(cover, was, s)
  {
    if CoveredBy(cover, now, s) {
      var m :| m in now && m in cover && s in cover[m];
      assert m in was || m in now - was;
    }
    if CoveredBy(cover, was, s) {
      var m :| m in was && m in cover && s in cover[m];
      assert m in now || m in was - now;
    }
    if CoveredBy(cover, now - was, s) {
      var m :| m in now - was && m in cover && s in cover[m];
      assert m in now;
    }
    if CoveredBy(cover, was - now, s) {
      var m :| m in was - now && m in cover && s in cover[m];
      assert m in was;
    }
  }

  /** For any map of macros to subjects, overlapping or not: complete rows stay complete, exact
      rows stay exact, and a subject covered before and after keeps its first timestamp. */
  lemma ChangeKeeps(cover: Cover, before: Subs, was: set<int>, now: set<int>, time: int, after: Subs)
    requires Follows(cover, before, was, now, time, after) && Complete(cover, before, was)
    ensures Complete(cover, after, now)
    ensures Exact(cover, before, was) ==> Exact(cover, after, now)
    ensures forall s :: CoveredBy(cover, was, s) && CoveredBy(cover, now, s) ==>
      s in before && s in after && after[s] == before[s]
  {
    forall s ensures CoveredBy(cover, now, s) ==> s in after {
      CoverSplits(cover, was, now, s);
    }
    forall s ensures Exact(cover, before, was) && s in after ==> CoveredBy(cover, now, s) {
      CoverSplits(cover, was, now, s);
    }
  }

  // ---------------------------------------------------------------------
  // The source
  // ---------------------------------------------------------------------

  const SAMPLE: nat := 4096
  const MAX_CONFIG_SIZE: nat := 1048576

  /** The file as a reload finds it. */
  datatype File = StatFails | ReadFails(size: nat) | Bytes(raw: seq<int>)

  datatype ReloadResult = Unreadable | TooLarge | SameContent | ParseFailed | SameSettings | Changed

  function Sample(raw: seq<int>): seq<int> { if |raw| <= SAMPLE then raw else raw[..SAMPLE] }

  class Source {
    const cover: Cover
    const digest: seq<int> -> int
    var current: Settings
    var lastHash: Option<int>
    var subs: Subs
    var reloads: nat
    var errors: nat
    var delivered: seq<Settings>

    /** The settings loaded at start, defaults if the file was absent or did not parse; no
        content hash is remembered, and the rows are seeded. */
    constructor (cover: Cover, digest: seq<int> -> int, loaded: Settings, subs: Subs, time: int)
      ensures this.cover == cover && this.digest == digest && current == loaded && lastHash == None
      ensures Follows(cover, subs, {}, SetOf(loaded.regions), time, this.subs)
      ensures Complete(cover, this.subs, SetOf(loaded.regions)) && delivered == []
    {
      this.cover, this.digest, this.current, this.subs := cover, digest, loaded, subs;
      lastHash, reloads, errors, delivered := None, 0, 0, [];
      new;
      Bootstrap(loaded.regions, time);
      forall s {
        NothingRemoved(cover, SetOf(loaded.regions), s);
      }
    }

    /** Seeds a row for each covered subject that has none. */
    method Bootstrap(regions: seq<int>, time: int)
      modifies this`subs
      ensures forall s :: s in subs <==> s in old(subs) || CoveredBy(cover, SetOf(regions), s)
      ensures forall s :: s in subs ==> subs[s] == if s in old(subs) then old(subs)[s] else time
    {
      for i := 0 to |regions|
        invariant forall s :: s in subs <==> s in old(subs) || CoveredBy(cover, SetOf(regions[..i]), s)
        invariant forall s :: s in subs ==> subs[s] == if s in old(subs) then old(subs)[s] else time
      {
        OneMoreMacro(cover, regions, i);
        SetAbsent(regions[i], time);
      }
      assert regions[..|regions|] == regions;
    }

    /** set_if_absent for every subject of one macro. */
    method SetAbsent(macro: int, time: int)
      modifies this`subs
      ensures forall s :: s in subs <==> s in old(subs) || (macro in cover && s in cover[macro])
      ensures forall s :: s in subs ==> subs[s] == if s in old(subs) then old(subs)[s] else time
    {
      var subjects := SubjectsForMacros(cover, [macro]);
      OnlyMacro(cover, macro);
      for j := 0 to |subjects|
        invariant forall s :: s in subs <==> s in old(subs) || s in subjects[..j]
        invariant forall s :: s in subs ==> subs[s] == if s in old(subs) then old(subs)[s] else time
      {
        if subjects[j] !in subs {
          subs := subs[subjects[j] := time];
        }
        assert subjects[..j + 1] == subjects[..j] + [subjects[j]];
      }
      assert subjects[..|subjects|] == subjects;
    }

    /** delete for every subject of one macro that is not kept. */
    method DeleteUnkept(macro: int, kept: seq<int>)
      modifies this`subs
      ensures forall s :: s in subs <==> s in old(subs) && !(macro in cover && s in cover[macro] && s !in kept)
      ensures forall s :: s in subs ==> subs[s] == old(subs)[s]
    {
      var subjects := SubjectsForMacros(cover, [macro]);
      OnlyMacro(cover, macro);
      for j := 0 to |subjects|
        invariant forall s :: s in subs <==> s in old(subs) && !(s in subjects[..j] && s !in kept)
        invariant forall s :: s in subs ==> subs[s] == old(subs)[s]
      {
        assert subjects[..j + 1] == subjects[..j] + [subjects[j]];
        if subjects[j] !in kept {
          subs := subs - {subjects[j]};
        }
      }
      assert subjects[..|subjects|] == subjects;
    }

    /** Added macros first, then removed ones; the macros come in the orders given, which the
        source sorts. */
    method ApplyRegionDiff(was: Settings, now: Settings, time: int)
      modifies this`subs
      ensures Follows(cover, old(subs), SetOf(was.regions), SetOf(now.regions), time, subs)
    {
      var added := Without(now.regions, was.regions);
      var removed := Without(was.regions, now.regions);
      Bootstrap(added, time);
      ghost var seeded := subs;
      var kept := SubjectsForMacros(cover, now.regions);
      for i := 0 to |removed|
        invariant forall s :: s in subs <==> s in seeded && !(CoveredBy(cover, SetOf(removed[..i]), s) && s !in kept)
        invariant forall s :: s in subs ==> subs[s] == seeded[s]
      {
        OneMoreMacro(cover, removed, i);
        DeleteUnkept(removed[i], kept);
      }
      assert removed[..|removed|] == removed;
      assert SetOf(added) == SetOf(now.regions) - SetOf(was.regions);
      assert SetOf(removed) == SetOf(was.regions) - SetOf(now.regions);
    }

    /** The new file is in place (`ok`) or nothing happened; the hash is recorded with it. */
    method Save(settings: Settings, raw: seq<int>, ok: bool, time: int)
      modifies this
      ensures !ok ==> current == old(current) && lastHash == old(lastHash) && subs == old(subs)
      ensures ok ==> current == settings && lastHash == Some(digest(Sample(raw)))
      ensures ok ==> Follows(cover, old(subs), SetOf(old(current).regions), SetOf(settings.regions), time, subs)
      ensures delivered == old(delivered) && reloads == old(reloads) && errors == old(errors)
    {
      if ok {
        var was := current;
        current, lastHash := settings, Some(digest(Sample(raw)));
        ApplyRegionDiff(was, settings, time);
      }
    }

    /** One debounced reload. Only the first bytes decide whether anything is new; a file that
        does not parse is remembered but changes nothing else; equal settings move no row. */
    method Reload(file: File, parsed: Option<Settings>, time: int) returns (r: ReloadResult)
      modifies this
      ensures r == Unreadable <==> file.StatFails? || (file.ReadFails? && file.size <= MAX_CONFIG_SIZE)
      ensures r == TooLarge <==> (file.ReadFails? && file.size > MAX_CONFIG_SIZE) || (file.Bytes? && |file.raw| > MAX_CONFIG_SIZE)
      ensures r == SameContent <==>
        file.Bytes? && |file.raw| <= MAX_CONFIG_SIZE && old(lastHash) == Some(digest(Sample(file.raw)))
      ensures r == Unreadable || r == TooLarge || r == SameContent || r == ParseFailed ==>
        current == old(current) && subs == old(subs) && delivered == old(delivered)
      ensures r == ParseFailed || r == SameSettings || r == Changed ==>
        file.Bytes? && lastHash == Some(digest(Sample(file.raw))) && (r == ParseFailed <==> parsed.None?)
      ensures r == SameSettings ==>
        parsed == Some(old(current)) && current == old(current) && subs == old(subs) && delivered == old(delivered)
      ensures r == Changed ==>
        parsed == Some(current) && current != old(current) && delivered == old(delivered) + [current]
        && Follows(cover, old(subs), SetOf(old(current).regions), SetOf(current.regions), time, subs)
      ensures r == Unreadable || r == TooLarge || r == SameContent ==> lastHash == old(lastHash)
      ensures errors == old(errors) + (if r == Unreadable || r == TooLarge || r == ParseFailed then 1 else 0)
      ensures reloads == old(reloads) + (if r == SameSettings || r == Changed then 1 else 0)
    {
      if file.StatFails? {
        errors := errors + 1;
        return Unreadable;
      }
      var size := if file.ReadFails? then file.size else |file.raw|;
      if size > MAX_CONFIG_SIZE {
        errors := errors + 1;
        return TooLarge;
      }
      if file.ReadFails? {
        errors := errors + 1;
        return Unreadable;
      }
      var hash := digest(Sample(file.raw));
      if lastHash == Some(hash) {
        return SameContent;
      }
      var was := current;
      lastHash := Some(hash);
      if parsed.None? {
        errors := errors + 1;
        return ParseFailed;
      }
      current, reloads := parsed.value, reloads + 1;
      if parsed.value == was {
        return SameSettings;
      }
      ApplyRegionDiff(was, current, time);
      delivered := delivered + [current];
      r := Changed;
    }
  }

  /** The macros of one list that are not in the other. */
  function Without(a: seq<int>, b: seq<int>): (r: seq<int>)
    ensures forall m :: m in r <==> m in a && m !in b
  {
    if a == [] then []
    else if a[0] in b then Without(a[1..], b)
    else [a[0]] + Without(a[1..], b)
  }

  lemma OnlyMacro(cover: Cover, macro: int)
    ensures forall s :: CoveredBy(cover, SetOf([macro]), s) <==> macro in cover && s in cover[macro]
  {
    forall s ensures CoveredBy(cover, SetOf([macro]), s) <==> macro in cover && s in cover[macro] {
      assert macro in SetOf([macro]);
    }
  }

  lemma NothingRemoved(cover: Cover, regions: set<int>, s: int)
    ensures CoveredBy(cover, regions - {}, s) <==> CoveredBy(cover, regions, s)
    ensures !CoveredBy(cover, {} - regions, s)
  {
    assert regions - {} == regions;
  }

  // ---------------------------------------------------------------------
  // Whole lives of the source
  // ---------------------------------------------------------------------

  /** What one save or reload leaves behind, as their contracts say: either the settings stay and
      no row moves, or they are swapped and the rows follow. */
  datatype Point = Point(current: Settings, subs: Subs)

  ghost predicate Next(cover: Cover, a: Point, b: Point) {
    || (b.subs == a.subs && SetOf(b.current.regions) == SetOf(a.current.regions))
    || exists time :: Follows(cover, a.subs, SetOf(a.current.regions), SetOf(b.current.regions), time, b.subs)
  }

  /** A restart: any regions may be in the file by now, and the rows are the ones left behind,
      seeded for these regions. */
  ghost predicate Boots(cover: Cover, a: Point, b: Point) {
    exists time :: Follows(cover, a.subs, {}, SetOf(b.current.regions), time, b.subs)
  }

  method AnyBoot(cover: Cover, digest: seq<int> -> int, left: Point, loaded: Settings, time: int) returns (source: Source)
    ensures fresh(source) && source.cover == cover && source.current == loaded
    ensures Boots(cover, left, Point(source.current, source.subs))
  {
    source := new Source(cover, digest, loaded, left.subs, time);
  }

  /** Every save and reload, whatever it comes to, is such a step. */
  method AnySave(source: Source, settings: Settings, raw: seq<int>, ok: bool, time: int)
    modifies source
    ensures Next(source.cover, old(Point(source.current, source.subs)), Point(source.current, source.subs))
  {
    source.Save(settings, raw, ok, time);
  }

  method AnyReload(source: Source, file: File, parsed: Option<Settings>, time: int)
    modifies source
    ensures Next(source.cover, old(Point(source.current, source.subs)), Point(source.current, source.subs))
  {
    var r := source.Reload(file, parsed, time);
  }

  /** The reload a save triggers by itself changes nothing. */
  method SaveThenReload(source: Source, settings: Settings, raw: seq<int>, parsed: Option<Settings>, time: int, later: int)
    requires |raw| <= MAX_CONFIG_SIZE
    modifies source
    ensures source.current == settings && source.delivered == old(source.delivered) && source.errors == old(source.errors)
    ensures Follows(source.cover, old(source.subs), SetOf(old(source.current).regions), SetOf(settings.regions), time, source.subs)
  {
    source.Save(settings, raw, true, time);
    var r := source.Reload(Bytes(raw), parsed, later);
  }

  /** A step of the source's whole history: an edit or a restart. */
  ghost predicate Lives(cover: Cover, points: seq<Point>, i: nat)
    requires i < |points| - 1
  {
    Next(cover, points[i], points[i + 1]) || Boots(cover, points[i], points[i + 1])
  }

  /** Any sequence of restarts, saves and reloads that begins after a boot. */
  ghost predicate Life(cover: Cover, points: seq<Point>) {
    points != []
    && Complete(cover, points[0].subs, SetOf(points[0].current.regions))
    && forall i {:trigger Lives(cover, points, i)} :: 0 <= i < |points| - 1 ==> Lives(cover, points, i)
  }

  lemma NextKeeps(cover: Cover, a: Point, b: Point)
    requires Next(cover, a, b) && Complete(cover, a.subs, SetOf(a.current.regions))
    ensures Complete(cover, b.subs, SetOf(b.current.regions))
    ensures Exact(cover, a.subs, SetOf(a.current.regions)) ==> Exact(cover, b.subs, SetOf(b.current.regions))
    ensures forall s :: CoveredBy(cover, SetOf(a.current.regions), s) && CoveredBy(cover, SetOf(b.current.regions), s) ==>
      s in a.subs && s in b.subs && b.subs[s] == a.subs[s]
  {
    var was, now := SetOf(a.current.regions), SetOf(b.current.regions);
    if !(b.subs == a.subs && now == was) {
      var time :| Follows(cover, a.subs, was, now, time, b.subs);
      ChangeKeeps(cover, a.subs, was, now, time, b.subs);
    }
  }

  /** A restart makes the rows complete whatever they were, removes no row and changes no
      timestamp. They are exact afterwards if and only if no row is left of a subject that the
      regions found in the file no longer cover: a macro removed while the process was down
      leaves its rows behind. */
  lemma BootExactIff(cover: Cover, a: Point, b: Point)
    requires Boots(cover, a, b)
    ensures Complete(cover, b.subs, SetOf(b.current.regions))
    ensures forall s :: s in a.subs ==> s in b.subs && b.subs[s] == a.subs[s]
    ensures Exact(cover, b.subs, SetOf(b.current.regions)) <==>
      forall s :: s in a.subs ==> CoveredBy(cover, SetOf(b.current.regions), s)
  {
    var regions := SetOf(b.current.regions);
    var time :| Follows(cover, a.subs, {}, regions, time, b.subs);
    forall s {
      NothingRemoved(cover, regions, s);
    }
  }

  /** Every subject covered in a is covered in b. */
  ghost predicate Widens(cover: Cover, a: Point, b: Point) {
    forall s :: CoveredBy(cover, SetOf(a.current.regions), s) ==> CoveredBy(cover, SetOf(b.current.regions), s)
  }

  lemma LivesKeeps(cover: Cover, points: seq<Point>, i: nat)
    requires i < |points| - 1 && Lives(cover, points, i)
    requires Complete(cover, points[i].subs, SetOf(points[i].current.regions))
    ensures var a, b := points[i], points[i + 1]; var was, now := SetOf(a.current.regions), SetOf(b.current.regions);
      && Complete(cover, b.subs, now)
      && (Exact(cover, a.subs, was) && (Next(cover, a, b) || Widens(cover, a, b)) ==> Exact(cover, b.subs, now))
      && (forall s :: CoveredBy(cover, was, s) && CoveredBy(cover, now, s) ==>
            s in a.subs && s in b.subs && b.subs[s] == a.subs[s])
  {
    if Next(cover, points[i], points[i + 1]) {
      NextKeeps(cover, points[i], points[i + 1]);
    } else {
      BootExactIff(cover, points[i], points[i + 1]);
    }
  }

  ghost predicate CoveredThroughout(cover: Cover, points: seq<Point>, i: nat, j: nat, s: int)
    requires i <= j < |points|
  {
    forall k :: i <= k <= j ==> CoveredBy(cover, SetOf(points[k].current.regions), s)
  }

  /** No restart in between found a macro gone whose subjects had rows. */
  ghost predicate NothingLostOffline(cover: Cover, points: seq<Point>, i: nat, j: nat)
    requires i <= j < |points|
  {
    forall k :: i <= k < j ==> Next(cover, points[k], points[k + 1]) || Widens(cover, points[k], points[k + 1])
  }

  lemma {:induction false} AlwaysComplete(cover: Cover, points: seq<Point>, j: nat)
    requires Life(cover, points) && j < |points|
    ensures Complete(cover, points[j].subs, SetOf(points[j].current.regions))
  {
    if j > 0 {
      AlwaysComplete(cover, points, j - 1);
      assert Lives(cover, points, j - 1);
      LivesKeeps(cover, points, j - 1);
    }
  }

  lemma HasRow(cover: Cover, a: Point, s: int)
    requires Complete(cover, a.subs, SetOf(a.current.regions)) && CoveredBy(cover, SetOf(a.current.regions), s)
    ensures s in a.subs
  {
  }

  /** Over every sequence of restarts, saves and reloads: the rows always cover the regions; a
      subject that stays covered keeps its first timestamp; and rows that are exactly the covered
      subjects stay so, as long as no restart finds a macro gone. */
  lemma {:induction false} RowsFollowRegions(cover: Cover, points: seq<Point>, i: nat, j: nat)
    requires Life(cover, points) && i <= j < |points|
    ensures Complete(cover, points[j].subs, SetOf(points[j].current.regions))
    ensures Exact(cover, points[i].subs, SetOf(points[i].current.regions)) && NothingLostOffline(cover, points, i, j) ==>
      Exact(cover, points[j].subs, SetOf(points[j].current.regions))
    ensures forall s :: CoveredThroughout(cover, points, i, j, s) ==>
      s in points[i].subs && s in points[j].subs && points[j].subs[s] == points[i].subs[s]
    decreases j
  {
    hide Complete, Exact, CoveredBy, Lives, Next, Boots, Widens;
    AlwaysComplete(cover, points, j);
    if i < j {
      RowsFollowRegions(cover, points, i, j - 1);
      assert Lives(cover, points, j - 1);
      LivesKeeps(cover, points, j - 1);
      forall s | CoveredThroughout(cover, points, i, j, s)
        ensures s in points[i].subs && s in points[j].subs && points[j].subs[s] == points[i].subs[s]
      {
        assert CoveredThroughout(cover, points, i, j - 1, s);
        assert CoveredBy(cover, SetOf(points[j].current.regions), s);
        assert CoveredBy(cover, SetOf(points[j - 1].current.regions), s);
      }
    } else {
      forall s | CoveredThroughout(cover, points, i, j, s) ensures s in points[i].subs {
        HasRow(cover, points[i], s);
      }
    }
  }

  /** A concrete restart that leaves a row behind: macro 2 was taken out of the file meanwhile. */
  lemma RemovedOfflineStays(time: int)
    ensures var cover: Cover := map[1 := [10], 2 := [20]];
      var a, b := Point(Settings([1, 2], 0), map[10 := 5, 20 := 5]), Point(Settings([1], 0), map[10 := 5, 20 := 5]);
      && Exact(cover, a.subs, SetOf(a.current.regions)) && Boots(cover, a, b)
      && !Exact(cover, b.subs, SetOf(b.current.regions))
  {
    var cover: Cover := map[1 := [10], 2 := [20]];
    var a, b := Point(Settings([1, 2], 0), map[10 := 5, 20 := 5]), Point(Settings([1], 0), map[10 := 5, 20 := 5]);
    assert SetOf(a.current.regions) == {1, 2} && SetOf(b.current.regions) == {1};
    forall s ensures CoveredBy(cover, {1, 2}, s) <==> s == 10 || s == 20 {
      assert 1 in {1, 2} && 2 in {1, 2};
    }
    forall s ensures CoveredBy(cover, {1}, s) <==> s == 10 {
      assert 1 in {1};
    }
    forall s {
      NothingRemoved(cover, {1}, s);
    }
    assert Follows(cover, a.subs, {}, {1}, time, b.subs);
    assert 20 in b.subs && !CoveredBy(cover, {1}, 20);
  }

  /** The sample is all that is looked at: after a file of at least 4096 bytes, another with the same
      first 4096 bytes but different settings goes unnoticed. */
  method LateEditUnseen(source: Source, first: seq<int>, second: seq<int>, a: Settings, b: Settings, time: int)
    returns (r: ReloadResult)
    requires 4096 <= |first| <= 1048576 && 4096 <= |second| <= 1048576
    requires first[..4096] == second[..4096] && a != b && source.current != b
    modifies source
    ensures r == SameContent && source.current != b
  {
    assert Sample(first) == first[..4096] && Sample(second) == second[..4096];
    var _ := source.Reload(Bytes(first), Some(a), time);
    r := source.Reload(Bytes(second), Some(b), time);
  }

  /** Cut at 4096 bytes, the two files are the same. */
  ghost predicate SameStart(first: seq<int>, second: seq<int>) {
    first == second || (|first| >= 4096 && |second| >= 4096 && first[..4096] == second[..4096])
  }

  ghost predicate Injective(digest: seq<int> -> int) {
    forall a, b :: digest(a) == digest(b) ==> a == b
  }

  /** What a reload of `second` does after the content of `first` was the last one looked at, in raw
      bytes and for a digest without collisions: nothing if the two are the same up to 4096 bytes,
      and otherwise what it parses to becomes current and is delivered, unless it is nothing new. */
  ghost predicate Reloaded(first: seq<int>, second: seq<int>, parsed: Option<Settings>, before: Settings, told: seq<Settings>,
                           r: ReloadResult, after: Settings, delivered: seq<Settings>)
  {
    && (r == SameContent <==> SameStart(first, second))
    && (SameStart(first, second) || parsed.None? ==> after == before && delivered == told)
    && (!SameStart(first, second) && parsed.Some? ==>
          after == parsed.value && delivered == if parsed.value == before then told else told + [parsed.value])
  }

  lemma SameSample(digest: seq<int> -> int, first: seq<int>, second: seq<int>)
    requires Injective(digest)
    ensures digest(Sample(first)) == digest(Sample(second)) <==> SameStart(first, second)
  {
    assert |first| == 4096 ==> first[..4096] == first;
    assert |second| == 4096 ==> second[..4096] == second;
    if digest(Sample(first)) == digest(Sample(second)) {
      assert Sample(first) == Sample(second);
    }
  }

  method ReloadAfterSave(source: Source, settings: Settings, first: seq<int>, second: seq<int>, parsed: Option<Settings>, time: int)
    returns (r: ReloadResult)
    requires Injective(source.digest) && |second| <= 1048576
    modifies source
    ensures Reloaded(first, second, parsed, settings, old(source.delivered), r, source.current, source.delivered)
    ensures r == Changed ==>
      exists saved :: Follows(source.cover, saved, SetOf(settings.regions), SetOf(source.current.regions), time, source.subs)
  {
    source.Save(settings, first, true, time);
    SameSample(source.digest, first, second);
    r := source.Reload(Bytes(second), parsed, time);
  }

  /** The same after a reload, whatever the first one came to; `mid` is what was current between. */
  method ReloadAfterReload(source: Source, first: seq<int>, a: Option<Settings>, second: seq<int>, b: Option<Settings>, time: int)
    returns (r: ReloadResult, ghost mid: Settings, ghost told: seq<Settings>)
    requires Injective(source.digest) && |first| <= 1048576 && |second| <= 1048576
    modifies source
    ensures Reloaded(first, second, b, mid, told, r, source.current, source.delivered)
    ensures mid in {old(source.current)} + (if a.Some? then {a.value} else {})
  {
    var _ := source.Reload(Bytes(first), a, time);
    mid, told := source.current, source.delivered;
    SameSample(source.digest, first, second);
    r := source.Reload(Bytes(second), b, time);
  }
}

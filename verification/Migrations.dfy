/** Schema migrations: finding the chain, applying it in one transaction, and the classification
    around it at start-up. C is what the database holds besides its user_version. */
module Migrations {
  import opened Prelude

  /** One registered step; its effect is None when applying it raises. */
  datatype Migration<!C> = Migration(source: int, target: int, apply: C -> Option<C>)

  /** No two migrations start from the same version. */
  ghost predicate Unambiguous<C>(ms: seq<Migration<C>>) {
    forall i, j :: 0 <= i < j < |ms| ==> ms[i].source != ms[j].source
  }

  /** A contiguous, strictly increasing path of registered migrations from version a to b. */
  ghost predicate Path<C(!new)>(ms: seq<Migration<C>>, chain: seq<Migration<C>>, a: int, b: int) {
    if chain == [] then a == b
    else chain[0] in ms && chain[0].source == a && chain[0].target > a && Path(ms, chain[1..], chain[0].target, b)
  }

  ghost predicate Connected<C(!new)>(ms: seq<Migration<C>>, a: int, b: int) {
    exists chain :: Path(ms, chain, a, b)
  }

  function ApplyAll<C>(chain: seq<Migration<C>>, content: C): Option<C> {
    if chain == [] then Some(content)
    else
      var next := chain[0].apply(content);
      if next.None? then None else ApplyAll(chain[1..], next.value)
  }

  /** Applying is step after step: none changes nothing, one is that one, and the parts of a chain
      follow each other, the first that raises ending it. */
  lemma {:induction false} AppliedInOrder<C>(a: seq<Migration<C>>, m: Migration<C>, b: seq<Migration<C>>, content: C)
    ensures ApplyAll([], content) == Some(content) && ApplyAll([m], content) == m.apply(content)
    ensures var first := ApplyAll(a, content);
      ApplyAll(a + b, content) == if first.None? then None else ApplyAll(b, first.value)
    decreases |a|
  {
    assert [m][1..] == [];
    if a == [] {
      assert a + b == b;
    } else {
      assert (a + b)[1..] == a[1..] + b;
      var next := a[0].apply(content);
      if next.Some? { AppliedInOrder(a[1..], m, b, next.value); }
    }
  }

  /** The constructor's duplicate check. */
  method CheckUnique<C>(ms: seq<Migration<C>>) returns (ok: bool)
    ensures ok <==> Unambiguous(ms)
  {
    var seen: set<int> := {};
    for i := 0 to |ms|
      invariant seen == set k | 0 <= k < i :: ms[k].source
      invariant Unambiguous(ms[..i])
    {
      if ms[i].source in seen {
        return false;
      }
      seen := seen + {ms[i].source};
    }
    assert ms[..|ms|] == ms;
    ok := true;
  }

  // ---------------------------------------------------------------------
  // Paths
  // ---------------------------------------------------------------------

  lemma {:induction false} PathClimbs<C(!new)>(ms: seq<Migration<C>>, chain: seq<Migration<C>>, a: int, b: int)
    requires Path(ms, chain, a, b)
    ensures a <= b && (a == b ==> chain == [])
  {
    if chain != [] { PathClimbs(ms, chain[1..], chain[0].target, b); }
  }

  lemma SourceDecides<C>(ms: seq<Migration<C>>, m: Migration<C>, n: Migration<C>)
    requires Unambiguous(ms) && m in ms && n in ms && m.source == n.source
    ensures m == n
  {
    var i :| 0 <= i < |ms| && ms[i] == m;
    var j :| 0 <= j < |ms| && ms[j] == n;
  }

  /** There is at most one path between two versions. */
  lemma {:induction false} PathUnique<C(!new)>(ms: seq<Migration<C>>, p: seq<Migration<C>>, q: seq<Migration<C>>, a: int, b: int)
    requires Unambiguous(ms) && Path(ms, p, a, b) && Path(ms, q, a, b)
    ensures p == q
  {
    PathClimbs(ms, p, a, b);
    PathClimbs(ms, q, a, b);
    if a != b {
      SourceDecides(ms, p[0], q[0]);
      PathUnique(ms, p[1..], q[1..], p[0].target, b);
      assert p == [p[0]] + p[1..] && q == [q[0]] + q[1..];
    }
  }

  lemma {:induction false} PathExtend<C(!new)>(ms: seq<Migration<C>>, chain: seq<Migration<C>>, a: int, m: Migration<C>)
    requires Path(ms, chain, a, m.source) && m in ms && m.target > m.source
    ensures Path(ms, chain + [m], a, m.target)
  {
    if chain == [] {
      assert [] + [m] == [m] && [m][1..] == [];
    } else {
      assert (chain + [m])[1..] == chain[1..] + [m];
      PathExtend(ms, chain[1..], chain[0].target, m);
    }
  }

  /** The step from a version that is not yet the goal is forced. */
  lemma FirstForced<C(!new)>(ms: seq<Migration<C>>, m: Migration<C>, b: int)
    requires Unambiguous(ms) && m in ms && m.target > m.source && m.source != b
    ensures Connected(ms, m.source, b) <==> Connected(ms, m.target, b)
  {
    if Connected(ms, m.source, b) {
      var chain :| Path(ms, chain, m.source, b);
      SourceDecides(ms, chain[0], m);
      assert Path(ms, chain[1..], m.target, b);
    }
    if Connected(ms, m.target, b) {
      var chain :| Path(ms, chain, m.target, b);
      assert ([m] + chain)[1..] == chain;
      assert Path(ms, [m] + chain, m.source, b);
    }
  }

  lemma NoStepNoPath<C(!new)>(ms: seq<Migration<C>>, v: int, b: int)
    requires v != b && forall m :: m in ms && m.source == v ==> m.target <= v
    ensures !Connected(ms, v, b)
  {
    forall chain ensures !Path(ms, chain, v, b) {
    }
  }

  lemma {:induction false} PathLinks<C(!new)>(ms: seq<Migration<C>>, chain: seq<Migration<C>>, a: int, b: int)
    requires Path(ms, chain, a, b)
    ensures forall i :: 0 <= i < |chain| ==> chain[i] in ms && a <= chain[i].source
    ensures forall i, j :: 0 <= i < j < |chain| ==> chain[i].source < chain[j].source
  {
    if chain != [] {
      PathLinks(ms, chain[1..], chain[0].target, b);
      assert forall i :: 1 <= i < |chain| ==> chain[i] == chain[1..][i - 1];
    }
  }

  /** Pigeonhole: a path is no longer than the list of registered migrations. */
  lemma PathShort<C(!new)>(ms: seq<Migration<C>>, chain: seq<Migration<C>>, a: int, b: int)
    requires Path(ms, chain, a, b)
    ensures |chain| <= |ms|
  {
    PathLinks(ms, chain, a, b);
    var at := Places(ms, chain);
    forall i, j | 0 <= i < j < |at| ensures at[i] != at[j] {
      assert ms[at[i]] == chain[i] && ms[at[j]] == chain[j];
    }
    DistinctBounded(at, 0, |ms|);
  }

  ghost function Places<C>(ms: seq<Migration<C>>, chain: seq<Migration<C>>): (at: seq<int>)
    requires forall i :: 0 <= i < |chain| ==> chain[i] in ms
    ensures |at| == |chain| && forall i :: 0 <= i < |at| ==> 0 <= at[i] < |ms| && ms[at[i]] == chain[i]
  {
    if chain == [] then []
    else
      var front := Places(ms, chain[..|chain| - 1]);
      var m := chain[|chain| - 1];
      var k :| 0 <= k < |ms| && ms[k] == m;
      front + [k]
  }

  // ---------------------------------------------------------------------
  // Building the chain
  // ---------------------------------------------------------------------

  function BySource<C>(ms: seq<Migration<C>>): (r: map<int, Migration<C>>)
    ensures forall v :: v in r ==> r[v] in ms && r[v].source == v
    ensures forall m :: m in ms ==> m.source in r
  {
    if ms == [] then map[]
    else
      var last := ms[|ms| - 1];
      var before := ms[..|ms| - 1];
      assert ms == before + [last];
      BySource(before)[last.source := last]
  }

  /** A chain is returned exactly when a path joins the two versions: the bound of one more round
      than there are migrations never rejects a valid path. */
  method BuildChain<C(!new)>(ms: seq<Migration<C>>, a: int, b: int) returns (r: Option<seq<Migration<C>>>)
    requires Unambiguous(ms)
    ensures r.Some? ==> Path(ms, r.value, a, b)
    ensures r.None? ==> !Connected(ms, a, b)
  {
    var bySource := BySource(ms);
    var chain: seq<Migration<C>> := [];
    var current := a;
    for round := 0 to |ms| + 1
      invariant |chain| == round && Path(ms, chain, a, current)
      invariant Connected(ms, a, b) <==> Connected(ms, current, b)
    {
      if current == b {
        return Some(chain);
      }
      if current !in bySource || bySource[current].target <= current {
        if current in bySource {
          forall m | m in ms && m.source == current ensures m == bySource[current] {
            SourceDecides(ms, m, bySource[current]);
          }
        }
        NoStepNoPath(ms, current, b);
        return None;
      }
      var migration := bySource[current];
      PathExtend(ms, chain, a, migration);
      FirstForced(ms, migration, b);
      chain := chain + [migration];
      current := migration.target;
    }
    PathShort(ms, chain, a, current);
    r := None;
  }

  // ---------------------------------------------------------------------
  // Running it
  // ---------------------------------------------------------------------

  datatype RunResult = Applied | ConcurrentMigration | ChainBroken | ApplyFailed

  class Database<C(!new)> {
    var version: int
    var hasTables: bool
    var content: C

    constructor (version: int, hasTables: bool, content: C)
      ensures this.version == version && this.hasTables == hasTables && this.content == content
    {
      this.version, this.hasTables, this.content := version, hasTables, content;
    }

    /** The migrations of the chain one by one, inside the transaction; a step that raises ends it. */
    method ApplyChain(chain: seq<Migration<C>>) returns (ok: bool)
      modifies this`content
      ensures ok <==> ApplyAll(chain, old(content)).Some?
      ensures ok ==> content == ApplyAll(chain, old(content)).value
    {
      var i := 0;
      while i < |chain|
        invariant 0 <= i <= |chain| && ApplyAll(chain, old(content)) == ApplyAll(chain[i..], content)
      {
        var next := chain[i].apply(content);
        if next.None? {
          return false;
        }
        assert chain[i..][1..] == chain[i + 1..];
        content := next.value;
        i := i + 1;
      }
      ok := true;
    }

    /** The runner: all or nothing. It succeeds exactly when the version is still the expected one
        and either nothing is to do or a path exists all of whose steps apply; it then leaves
        the steps' composition under the new version, and the database untouched otherwise. */
    method RunPending(ms: seq<Migration<C>>, source: int, target: int) returns (r: RunResult)
      requires Unambiguous(ms)
      modifies this
      ensures r == ConcurrentMigration <==> old(version) != source
      ensures r == ChainBroken <==> old(version) == source && source != target && !Connected(ms, source, target)
      ensures r != Applied ==> version == old(version) && content == old(content)
      ensures hasTables == old(hasTables)
      ensures r == Applied && source == target ==> version == old(version) && content == old(content)
      ensures r == Applied ==> version == target
      ensures r == Applied && source != target ==>
        exists chain :: Path(ms, chain, source, target) && ApplyAll(chain, old(content)) == Some(content)
      ensures r == ApplyFailed ==>
        exists chain :: Path(ms, chain, source, target) && ApplyAll(chain, old(content)).None?
    {
      var before := content;
      if version != source {
        return ConcurrentMigration;
      }
      if source == target {
        return Applied;
      }
      var chain := BuildChain(ms, source, target);
      if chain.None? {
        return ChainBroken;
      }
      var ok := ApplyChain(chain.value);
      if !ok {
        content := before;
        return ApplyFailed;
      }
      version := target;
      r := Applied;
    }

    /** Start-up. `schema` is the version the fresh schema stamps and the content it creates. */
    method InitDb(schemaVersion: int, schemaContent: C, latest: int, runner: Option<seq<Migration<C>>>) returns (r: InitResult)
      requires runner.Some? ==> Unambiguous(runner.value)
      modifies this
      ensures r == UpToDate <==> old(version) == latest
      ensures r == NewerThanApp <==> old(version) > latest
      ensures r == Created <==> old(version) < latest && old(version) == 0 && !old(hasTables) && schemaVersion == latest
      ensures r == WrongStamp <==> old(version) < latest && old(version) == 0 && !old(hasTables) && schemaVersion != latest
      ensures r == MigrationRequired <==> old(version) < latest && (old(version) != 0 || old(hasTables)) && runner.None?
      ensures r == Created || r == WrongStamp ==> version == schemaVersion && content == schemaContent && hasTables
      ensures r == Created || r == RunnerDone(Applied) || r == UpToDate ==> version == latest
      ensures (r.RunnerDone? && r.result != Applied) || r.UpToDate? || r.NewerThanApp? || r.MigrationRequired? ==>
        version == old(version) && content == old(content) && hasTables == old(hasTables)
      ensures r.RunnerDone? ==>
        runner.Some? && r.result != ConcurrentMigration
        && (r.result == ChainBroken <==> !Connected(runner.value, old(version), latest))
      ensures r == RunnerDone(Applied) ==>
        exists chain :: Path(runner.value, chain, old(version), latest) && ApplyAll(chain, old(content)) == Some(content)
    {
      var current := version;
      if current == latest { return UpToDate; }
      if current > latest { return NewerThanApp; }
      if current == 0 && !hasTables {
        version, content, hasTables := schemaVersion, schemaContent, true;
        return if version != latest then WrongStamp else Created;
      }
      if runner.None? { return MigrationRequired; }
      var result := RunPending(runner.value, current, latest);
      r := RunnerDone(result);
    }
  }

  datatype InitResult = UpToDate | NewerThanApp | Created | WrongStamp | MigrationRequired | RunnerDone(result: RunResult)

  // ---------------------------------------------------------------------
  // The registered chain
  // ---------------------------------------------------------------------

  const LATEST: int := 11

  /** The default runner's registry: one step from each of the versions 1 to 10. */
  ghost predicate DefaultRegistry<C>(ms: seq<Migration<C>>) {
    |ms| == 10 && forall i :: 0 <= i < 10 ==> ms[i].source == i + 1 && ms[i].target == i + 2
  }

  lemma {:induction false} DefaultSuffix<C(!new)>(ms: seq<Migration<C>>, v: int)
    requires DefaultRegistry(ms) && 1 <= v <= LATEST
    ensures Path(ms, ms[v - 1..], v, LATEST)
    decreases LATEST - v
  {
    if v < LATEST {
      DefaultSuffix(ms, v + 1);
      assert ms[v - 1..][0] == ms[v - 1] && ms[v - 1..][1..] == ms[v..];
    }
  }

  /** The default runner brings exactly the versions 1 to 11 to the latest, by the suffix of the
      registry. A database stamped 0 that already has tables is taken for a legacy one and handed
      to it -- and never has a chain. */
  lemma DefaultConnectedIff<C(!new)>(ms: seq<Migration<C>>, v: int)
    requires DefaultRegistry(ms)
    ensures Unambiguous(ms)
    ensures Connected(ms, v, LATEST) <==> 1 <= v <= LATEST
    ensures !Connected(ms, 0, LATEST)
  {
    if 1 <= v <= LATEST {
      DefaultSuffix(ms, v);
    } else {
      NoStepNoPath(ms, v, LATEST);
    }
    NoStepNoPath(ms, 0, LATEST);
  }

  /** Start-up on a database stamped 0 that has tables, under the default runner. */
  method LegacyZeroBreaks<C(!new)>(db: Database<C>, schemaContent: C, ms: seq<Migration<C>>) returns (r: InitResult)
    requires DefaultRegistry(ms) && db.version == 0 && db.hasTables
    modifies db
    ensures r == RunnerDone(ChainBroken)
    ensures db.version == 0 && db.hasTables && db.content == old(db.content)
  {
    DefaultConnectedIff(ms, 0);
    r := db.InitDb(LATEST, schemaContent, LATEST, Some(ms));
  }
}

/**
 * Forward migrations (bot/migrations.py): a versioned list applied in order,
 * each in its own transaction, some deferred until tables they need exist.
 */
module Migrations {
  import opened Prelude

  // ----- the database

  datatype Table =
    | SchemaVersion | TraderDiary | ActiveSignals | SignalOutcomes | SlForensics
    | LegacySignals | LegacyOutcomes | MarketDataCache

  /** Tables with their columns, indexes with their table, and which tables have had a relabelling run over them. */
  datatype Schema = Schema(tables: map<Table, set<string>>, indexes: map<string, Table>, relabelled: set<Table>)

  datatype Statement =
    | CreateTable(table: Table, columns: set<string>)   // IF NOT EXISTS
    | DropTable(table: Table)                           // IF EXISTS
    | CreateIndex(name: string, table: Table, columns: set<string>)   // IF NOT EXISTS
    | AddColumn(table: Table, column: string)
    | Relabel(table: Table, column: string)             // UPDATE ... SET column ... WHERE column

  /** One statement; none if SQLite reports an error. */
  function Execute(s: Schema, st: Statement): Option<Schema> {
    match st
    case CreateTable(t, columns) => Some(if t in s.tables then s else s.(tables := s.tables[t := columns]))
    case DropTable(t) =>
      Some(s.(tables := s.tables - {t}, indexes := map i | i in s.indexes && s.indexes[i] != t :: s.indexes[i]))
    case CreateIndex(name, t, columns) =>
      if t !in s.tables then None
      else if name in s.indexes then Some(s)
      else if columns <= s.tables[t] then Some(s.(indexes := s.indexes[name := t]))
      else None
    case AddColumn(t, column) =>
      if t !in s.tables || column in s.tables[t] then None
      else Some(s.(tables := s.tables[t := s.tables[t] + {column}]))
    case Relabel(t, column) =>
      if t in s.tables && column in s.tables[t] then Some(s.(relabelled := s.relabelled + {t})) else None
  }

  function ExecuteAll(s: Schema, sts: seq<Statement>): Option<Schema> {
    if sts == [] then Some(s)
    else
      var before := ExecuteAll(s, sts[..|sts| - 1]);
      if before == None then None else Execute(before.value, sts[|sts| - 1])
  }

  /** A row of the version table. */
  datatype Version = Version(number: int)

  /** The committed content: the schema and the rows of the version table. */
  datatype Db = Db(schema: Schema, versions: set<Version>)

  datatype Migration = Migration(version: Version, statements: seq<Statement>, needs: set<Table>)

  predicate PrerequisitesMet(s: Schema, m: Migration) {
    forall t :: t in m.needs ==> t in s.tables
  }

  predicate IsLatest(m: Version, vs: set<Version>) {
    m in vs && forall v :: v in vs ==> v.number <= m.number
  }

  lemma {:induction false} LatestExists(vs: set<Version>)
    requires vs != {}
    ensures exists m :: IsLatest(m, vs)
    decreases vs
  {
    var a :| a in vs;
    var rest := vs - {a};
    assert vs == rest + {a};
    if rest != {} {
      LatestExists(rest);
      var m :| IsLatest(m, rest);
      assert IsLatest(if a.number > m.number then a else m, vs);
    } else {
      assert IsLatest(a, vs);
    }
  }

  /** Highest recorded version, 0 when none is. */
  function FetchSchemaVersion(vs: set<Version>): (n: int)
    ensures vs == {} ==> n == 0
    ensures vs != {} ==> Version(n) in vs && forall v :: v in vs ==> v.number <= n
  {
    if vs == {} then 0
    else
      LatestExists(vs);
      var m :| m in vs && IsLatest(m, vs);
      m.number
  }

  // ----- a run

  /** What goes wrong at a migration: nothing, the transaction (rolled back), or the integrity check after the commit. */
  datatype Fault = NoFault | InTransaction | AfterCommit

  /** The database left behind, whether the run raised, and how many migrations it committed. */
  datatype Result = Result(db: Db, raised: bool, commits: nat)

  function Applied(db: Db, m: Migration): Option<Db> {
    var schema := ExecuteAll(db.schema, m.statements);
    if schema == None then None else Some(Db(schema.value, db.versions + {m.version}))
  }

  function MigrateFrom(db: Db, ms: seq<Migration>, current: int, fault: Version -> Fault): Result
    decreases |ms|
  {
    if ms == [] then Result(db, false, 0)
    else
      var m, rest := ms[0], ms[1..];
      if m.version.number <= current || !PrerequisitesMet(db.schema, m) then MigrateFrom(db, rest, current, fault)
      else
        var next := Applied(db, m);
        if fault(m.version) == InTransaction || next == None then Result(db, true, 0)
        else if fault(m.version) == AfterCommit then Result(next.value, true, 1)
        else
          var r := MigrateFrom(next.value, rest, current, fault);
          r.(commits := r.commits + 1)
  }

  function MigrateDb(db: Db, ms: seq<Migration>, fault: Version -> Fault): Result {
    MigrateFrom(db, ms, FetchSchemaVersion(db.versions), fault)
  }

  const NO_FAULTS: Version -> Fault := (v: Version) => NoFault

  ghost predicate Ascending(ms: seq<Migration>) {
    forall i, j :: 0 <= i < j < |ms| ==> ms[i].version.number < ms[j].version.number
  }

  // ----- crash and resume

  /** Migrations a run with this `current` leaves alone. */
  ghost predicate PassedOver(db: Db, ms: seq<Migration>, current: int) {
    forall m :: m in ms ==> m.version.number <= current || !PrerequisitesMet(db.schema, m)
  }

  lemma {:induction false} PassOver(db: Db, done: seq<Migration>, ms: seq<Migration>, current: int, fault: Version -> Fault)
    requires PassedOver(db, done, current)
    ensures MigrateFrom(db, done + ms, current, fault) == MigrateFrom(db, ms, current, fault)
    decreases |done|
  {
    if done == [] {
      assert done + ms == ms;
    } else {
      assert done[0] in done && forall m :: m in done[1..] ==> m in done;
      assert (done + ms)[1..] == done[1..] + ms;
      PassOver(db, done[1..], ms, current, fault);
    }
  }

  lemma {:induction false} CurrentIsIrrelevantAbove(db: Db, ms: seq<Migration>, c: int, d: int, fault: Version -> Fault)
    requires forall m :: m in ms ==> m.version.number > c && m.version.number > d
    ensures MigrateFrom(db, ms, c, fault) == MigrateFrom(db, ms, d, fault)
    decreases |ms|
  {
    if ms == [] {
    } else {
      assert ms[0] in ms && forall m :: m in ms[1..] ==> m in ms;
      CurrentIsIrrelevantAbove(db, ms[1..], c, d, fault);
      var next := Applied(db, ms[0]);
      if next.Some? {
        CurrentIsIrrelevantAbove(next.value, ms[1..], c, d, fault);
      }
    }
  }

  /** Where a run stands after `done`: its database, and the version a rerun would start above. */
  ghost predicate Midway(db: Db, done: seq<Migration>, ms: seq<Migration>, start: int) {
    var c := FetchSchemaVersion(db.versions);
    && Ascending(done + ms) && start <= c
    && (c == start || forall m :: m in ms ==> m.version.number > c)
    && PassedOver(db, done, c)
  }

  /** From there, starting over is the same as going on. */
  lemma StartingOverIsGoingOn(db: Db, done: seq<Migration>, ms: seq<Migration>, start: int)
    requires Midway(db, done, ms, start)
    ensures MigrateDb(db, done + ms, NO_FAULTS) == MigrateFrom(db, ms, start, NO_FAULTS)
  {
    var c := FetchSchemaVersion(db.versions);
    PassOver(db, done, ms, c, NO_FAULTS);
    if c != start {
      CurrentIsIrrelevantAbove(db, ms, c, start, NO_FAULTS);
    }
  }

  lemma MidwaySkip(db: Db, done: seq<Migration>, ms: seq<Migration>, start: int)
    requires Midway(db, done, ms, start) && ms != []
    requires ms[0].version.number <= start || !PrerequisitesMet(db.schema, ms[0])
    ensures Midway(db, done + [ms[0]], ms[1..], start) && done + [ms[0]] + ms[1..] == done + ms
  {
    assert done + [ms[0]] + ms[1..] == done + ms;
    assert forall m :: m in ms[1..] ==> m in ms;
  }

  lemma MidwayCommit(db: Db, next: Db, done: seq<Migration>, ms: seq<Migration>, start: int)
    requires Midway(db, done, ms, start) && ms != [] && ms[0].version.number > start
    requires next.versions == db.versions + {ms[0].version}
    ensures Midway(next, done + [ms[0]], ms[1..], start) && done + [ms[0]] + ms[1..] == done + ms
  {
    var all := done + ms;
    assert done + [ms[0]] + ms[1..] == all;
    var c, v := FetchSchemaVersion(db.versions), ms[0].version.number;
    assert ms[0] in ms;
    assert v > c;
    assert FetchSchemaVersion(next.versions) == v by {
      assert Version(v) in next.versions;
    }
    forall m | m in done + [ms[0]] ensures m.version.number <= v {
      var i :| 0 <= i < |done| + 1 && (done + [ms[0]])[i] == m;
      assert all[i] == m && all[|done|] == ms[0];
    }
    forall m | m in ms[1..] ensures m.version.number > v {
      var i :| 0 <= i < |ms| - 1 && ms[1..][i] == m;
      assert all[|done| + 1 + i] == m && all[|done|] == ms[0];
    }
  }

  lemma {:induction false} Resume(db: Db, done: seq<Migration>, ms: seq<Migration>, start: int, fault: Version -> Fault)
    requires Midway(db, done, ms, start)
    ensures var cut := MigrateFrom(db, ms, start, fault);
      var whole := MigrateFrom(db, ms, start, NO_FAULTS);
      var again := MigrateDb(cut.db, done + ms, NO_FAULTS);
      again.db == whole.db && again.raised == whole.raised && cut.commits + again.commits == whole.commits
    decreases |ms|
  {
    hide Midway, Applied, MigrateDb, PrerequisitesMet;
    StartingOverIsGoingOn(db, done, ms, start);
    if ms == [] {
    } else {
      var m := ms[0];
      if m.version.number <= start || !PrerequisitesMet(db.schema, m) {
        MidwaySkip(db, done, ms, start);
        Resume(db, done + [m], ms[1..], start, fault);
      } else if Applied(db, m).Some? {
        var next := Applied(db, m).value;
        AppliedRecords(db, m);
        MidwayCommit(db, next, done, ms, start);
        Resume(next, done + [m], ms[1..], start, fault);
        StartingOverIsGoingOn(next, done + [m], ms[1..], start);
      }
    }
  }

  lemma AppliedRecords(db: Db, m: Migration)
    ensures Applied(db, m).Some? ==> Applied(db, m).value.versions == db.versions + {m.version}
  {
  }

  /** A run cut short anywhere, then run again: same database, same end, no migration committed twice. */
  lemma CrashAndResume(db: Db, ms: seq<Migration>, fault: Version -> Fault)
    requires Ascending(ms)
    ensures var cut := MigrateDb(db, ms, fault);
      var whole := MigrateDb(db, ms, NO_FAULTS);
      var again := MigrateDb(cut.db, ms, NO_FAULTS);
      again.db == whole.db && again.raised == whole.raised && cut.commits + again.commits == whole.commits
  {
    assert [] + ms == ms;
    Resume(db, [], ms, FetchSchemaVersion(db.versions), fault);
  }

  /** A further run changes nothing. */
  lemma RunningAgainAppliesNothing(db: Db, ms: seq<Migration>)
    requires Ascending(ms)
    ensures var once := MigrateDb(db, ms, NO_FAULTS);
      MigrateDb(once.db, ms, NO_FAULTS) == Result(once.db, once.raised, 0)
  {
    CrashAndResume(db, ms, NO_FAULTS);
  }

  function AfterFaultyRuns(db: Db, ms: seq<Migration>, faults: seq<Version -> Fault>): Db
    decreases |faults|
  {
    if faults == [] then db else AfterFaultyRuns(MigrateDb(db, ms, faults[0]).db, ms, faults[1..])
  }

  /** Any number of interrupted runs, each failing anywhere, lead to where one clean run leads. */
  lemma {:induction false} AnyCrashesThenResume(db: Db, ms: seq<Migration>, faults: seq<Version -> Fault>)
    requires Ascending(ms)
    ensures MigrateDb(AfterFaultyRuns(db, ms, faults), ms, NO_FAULTS).db == MigrateDb(db, ms, NO_FAULTS).db
    decreases |faults|
  {
    if faults == [] {
    } else {
      CrashAndResume(db, ms, faults[0]);
      AnyCrashesThenResume(MigrateDb(db, ms, faults[0]).db, ms, faults[1..]);
    }
  }

  // ----- where a run stops, and what it counts

  /** The run gets to the k-th migration, applies it, and something goes wrong. */
  ghost predicate FailsAt(db: Db, ms: seq<Migration>, current: int, fault: Version -> Fault, k: int) {
    && 0 <= k < |ms|
    && var there := MigrateFrom(db, ms[..k], current, fault);
    && !there.raised && ms[k].version.number > current && PrerequisitesMet(there.db.schema, ms[k])
    && (fault(ms[k].version) != NoFault || ExecuteAll(there.db.schema, ms[k].statements) == None)
  }

  /**
   * A run raises exactly when it stops at some migration; it leaves what was
   * there, with that migration only if the failure came after its commit.
   */
  lemma {:induction false} RaisesIffItStops(db: Db, ms: seq<Migration>, current: int, fault: Version -> Fault)
    ensures var r := MigrateFrom(db, ms, current, fault);
      && (r.raised <==> exists k :: FailsAt(db, ms, current, fault, k))
      && forall k :: FailsAt(db, ms, current, fault, k) ==>
           var there := MigrateFrom(db, ms[..k], current, fault);
           var next := Applied(there.db, ms[k]);
           if fault(ms[k].version) == AfterCommit && next.Some? then r == Result(next.value, true, there.commits + 1)
           else r == Result(there.db, true, there.commits)
    decreases |ms|
  {
    if ms == [] {
    } else {
      var init, last := ms[..|ms| - 1], ms[|ms| - 1];
      assert ms == init + [last] && ms[..|init|] == init;
      hide ExecuteAll, PrerequisitesMet, Applied, MigrateFrom, FailsAt;
      RunSplits(db, init, [last], current, fault);
      RaisesIffItStops(db, init, current, fault);
      OneMigration(MigrateFrom(db, init, current, fault).db, last, current, fault);
      FailsAtEnd(db, init, last, current, fault);
      forall k {
        FailsInPrefix(db, init, last, current, fault, k);
      }
    }
  }

  lemma FailsInPrefix(db: Db, init: seq<Migration>, last: Migration, current: int, fault: Version -> Fault, k: int)
    ensures FailsAt(db, init, current, fault, k) ==> 0 <= k < |init| && FailsAt(db, init + [last], current, fault, k)
    ensures FailsAt(db, init + [last], current, fault, k) ==>
      k == |init| || (0 <= k < |init| && FailsAt(db, init, current, fault, k)
                      && (init + [last])[..k] == init[..k] && (init + [last])[k] == init[k])
  {
    hide ExecuteAll, PrerequisitesMet, MigrateFrom;
    if 0 <= k < |init| {
      assert (init + [last])[..k] == init[..k];
    }
  }

  lemma FailsAtEnd(db: Db, init: seq<Migration>, last: Migration, current: int, fault: Version -> Fault)
    ensures var there := MigrateFrom(db, init, current, fault);
      FailsAt(db, init + [last], current, fault, |init|) <==>
        && !there.raised && last.version.number > current && PrerequisitesMet(there.db.schema, last)
        && (fault(last.version) != NoFault || ExecuteAll(there.db.schema, last.statements) == None)
  {
    hide ExecuteAll, PrerequisitesMet, MigrateFrom;
    assert (init + [last])[..|init|] == init;
  }

  lemma OneMigration(db: Db, m: Migration, current: int, fault: Version -> Fault)
    ensures MigrateFrom(db, [m], current, fault) ==
      if m.version.number <= current || !PrerequisitesMet(db.schema, m) then Result(db, false, 0)
      else if fault(m.version) == InTransaction || Applied(db, m) == None then Result(db, true, 0)
      else Result(Applied(db, m).value, fault(m.version) == AfterCommit, 1)
    ensures Applied(db, m) == None <==> ExecuteAll(db.schema, m.statements) == None
  {
    hide PrerequisitesMet, ExecuteAll;
    var one := [m];
    assert one[1..] == [];
  }

  /** The count a run reports is the number of versions it recorded. */
  lemma CommitsAreCounted(db: Db, ms: seq<Migration>, fault: Version -> Fault)
    requires Ascending(ms)
    ensures var r := MigrateDb(db, ms, fault);
      db.versions <= r.db.versions && r.commits == |r.db.versions - db.versions|
  {
    CountedFrom(db, ms, FetchSchemaVersion(db.versions), fault);
  }

  lemma {:induction false} CountedFrom(db: Db, ms: seq<Migration>, current: int, fault: Version -> Fault)
    requires Ascending(ms)
    requires forall v, m :: v in db.versions && m in ms ==> v.number <= current || v.number < m.version.number
    ensures var r := MigrateFrom(db, ms, current, fault);
      db.versions <= r.db.versions && r.commits == |r.db.versions - db.versions|
    decreases |ms|
  {
    hide PrerequisitesMet, ExecuteAll;
    if ms == [] {
      assert db.versions - db.versions == {};
    } else {
      var m, rest := ms[0], ms[1..];
      assert m in ms && forall x :: x in rest ==> x in ms && m.version.number < x.version.number;
      var next := Applied(db, m);
      AppliedRecords(db, m);
      hide Applied;
      if m.version.number <= current || !PrerequisitesMet(db.schema, m) {
        CountedFrom(db, rest, current, fault);
      } else if fault(m.version) == InTransaction || next == None {
        assert db.versions - db.versions == {};
      } else if fault(m.version) == AfterCommit {
        OneMore(db.versions, m.version, next.value.versions);
        assert next.value.versions - next.value.versions == {};
      } else {
        CountedFrom(next.value, rest, current, fault);
        OneMore(db.versions, m.version, MigrateFrom(next.value, rest, current, fault).db.versions);
      }
    }
  }

  lemma OneMore(before: set<Version>, v: Version, after: set<Version>)
    requires v !in before && before + {v} <= after
    ensures |after - before| == |after - (before + {v})| + 1
  {
    assert after - before == (after - (before + {v})) + {v};
  }

  // ----- recorded means in effect

  /** The migrations of the list whose versions are in the set, in list order, executed one after the other. */
  function Replay(s: Schema, ms: seq<Migration>, vs: set<Version>): Option<Schema>
    decreases |ms|
  {
    if ms == [] then Some(s)
    else if ms[0].version !in vs then Replay(s, ms[1..], vs)
    else
      var next := ExecuteAll(s, ms[0].statements);
      if next == None then None else Replay(next.value, ms[1..], vs)
  }

  /** At every commit the recorded versions are exactly those whose statements took effect. */
  lemma RecordedMeansInEffect(db: Db, ms: seq<Migration>, fault: Version -> Fault)
    requires Ascending(ms)
    ensures var r := MigrateDb(db, ms, fault).db;
      && db.versions <= r.versions
      && (forall v :: v in r.versions - db.versions ==> Listed(ms, v) && v.number > FetchSchemaVersion(db.versions))
      && Replay(db.schema, ms, r.versions - db.versions) == Some(r.schema)
  {
    Replayed(db, ms, FetchSchemaVersion(db.versions), fault, db.versions);
  }

  ghost predicate Listed(ms: seq<Migration>, v: Version) {
    exists m :: m in ms && m.version == v
  }

  lemma {:induction false} Replayed(db: Db, ms: seq<Migration>, current: int, fault: Version -> Fault, before: set<Version>)
    requires Ascending(ms) && before <= db.versions && (forall v :: v in before ==> v.number <= current)
    requires forall v :: v in db.versions - before ==> v.number > current && forall m :: m in ms ==> v.number < m.version.number
    ensures var r := MigrateFrom(db, ms, current, fault).db;
      && db.versions <= r.versions
      && (forall v :: v in r.versions - db.versions ==> Listed(ms, v) && v.number > current)
      && Replay(db.schema, ms, r.versions - before) == Some(r.schema)
    decreases |ms|
  {
    hide ExecuteAll, PrerequisitesMet;
    if ms == [] {
      assert db.versions - db.versions == {};
    } else {
      var m, rest := ms[0], ms[1..];
      assert m in ms && forall x :: x in rest ==> x in ms && m.version.number < x.version.number;
      var r := MigrateFrom(db, ms, current, fault).db;
      var next := Applied(db, m);
      if m.version.number <= current || !PrerequisitesMet(db.schema, m) {
        Replayed(db, rest, current, fault, before);
        NotListedBefore(m, rest);
        assert m.version !in r.versions - before;
        ListedFurther(ms);
      } else if fault(m.version) == InTransaction || next == None {
        assert db.versions - db.versions == {};
        NothingToReplay(db.schema, ms, db.versions - before);
      } else {
        assert Listed(ms, m.version);
        ListedFurther(ms);
        if fault(m.version) == AfterCommit {
          NothingToReplay(next.value.schema, rest, next.value.versions - before);
        } else {
          Replayed(next.value, rest, current, fault, before);
        }
        assert m.version in r.versions - before;
      }
    }
  }

  lemma NotListedBefore(m: Migration, rest: seq<Migration>)
    requires forall x :: x in rest ==> m.version.number < x.version.number
    ensures !Listed(rest, m.version)
  {
  }

  lemma ListedFurther(ms: seq<Migration>)
    requires ms != []
    ensures forall v :: Listed(ms[1..], v) ==> Listed(ms, v)
  {
    assert forall x :: x in ms[1..] ==> x in ms;
  }

  lemma {:induction false} NothingToReplay(s: Schema, ms: seq<Migration>, vs: set<Version>)
    requires forall m :: m in ms ==> m.version !in vs
    ensures Replay(s, ms, vs) == Some(s)
    decreases |ms|
  {
    if ms == [] {
    } else {
      assert ms[0] in ms && forall m :: m in ms[1..] ==> m in ms;
      NothingToReplay(s, ms[1..], vs);
    }
  }

  // ----- deferral

  /** Between runs, anything may happen to the tables, and any run may fail anywhere. */
  datatype Happening = TablesChange(schema: Schema) | MigrationRun(fault: Version -> Fault)

  function After(db: Db, ms: seq<Migration>, h: Happening): Db {
    match h
    case TablesChange(schema) => db.(schema := schema)
    case MigrationRun(fault) => MigrateDb(db, ms, fault).db
  }

  function AfterAll(db: Db, ms: seq<Migration>, hs: seq<Happening>): Db
    decreases |hs|
  {
    if hs == [] then db else AfterAll(After(db, ms, hs[0]), ms, hs[1..])
  }

  /** A migration passed over while a later one was recorded is never applied, even once its tables exist. */
  lemma {:induction false} DeferredForGood(db: Db, ms: seq<Migration>, v: Version, later: Version, hs: seq<Happening>)
    requires Ascending(ms) && v !in db.versions && later in db.versions && v.number < later.number
    ensures v !in AfterAll(db, ms, hs).versions
    decreases |hs|
  {
    if hs == [] {
    } else {
      if hs[0].MigrationRun? {
        RecordedMeansInEffect(db, ms, hs[0].fault);
      }
      hide MigrateDb;
      DeferredForGood(After(db, ms, hs[0]), ms, v, later, hs[1..]);
    }
  }

  /**
   * When does a rerun apply a migration it finds unrecorded? Exactly when it
   * gets there, nothing later is recorded, the tables are there by then, and
   * the statements execute; what happens afterwards does not matter.
   */
  lemma RetriedIff(db: Db, before: seq<Migration>, m: Migration, rest: seq<Migration>)
    requires Ascending(before + [m] + rest) && m.version !in db.versions
    ensures var c := FetchSchemaVersion(db.versions);
      var there := MigrateFrom(db, before, c, NO_FAULTS);
      m.version in MigrateDb(db, before + [m] + rest, NO_FAULTS).db.versions <==>
        && !there.raised
        && m.version.number > c
        && PrerequisitesMet(there.db.schema, m)
        && ExecuteAll(there.db.schema, m.statements).Some?
  {
    hide ExecuteAll, PrerequisitesMet;
    var c := FetchSchemaVersion(db.versions);
    var all, tail := before + [m] + rest, [m] + rest;
    assert all == before + tail && tail[0] == m && tail[1..] == rest;
    RunSplits(db, before, tail, c, NO_FAULTS);
    var there := MigrateFrom(db, before, c, NO_FAULTS);
    OnlyListedAreRecorded(db, before, c);
    OnlyListedAreRecorded(there.db, rest, c);
    OwnVersion(before, m, rest);
    if !there.raised && m.version.number > c && PrerequisitesMet(there.db.schema, m) && Applied(there.db, m).Some? {
      var next := Applied(there.db, m).value;
      AppliedRecords(there.db, m);
      VersionsGrow(next, rest, c);
    }
  }

  lemma {:induction false} OnlyListedAreRecorded(db: Db, ms: seq<Migration>, current: int)
    ensures forall v :: v in MigrateFrom(db, ms, current, NO_FAULTS).db.versions ==> v in db.versions || Listed(ms, v)
    decreases |ms|
  {
    hide ExecuteAll, PrerequisitesMet;
    if ms == [] {
    } else {
      ListedFurther(ms);
      assert ms[0] in ms && Listed(ms, ms[0].version);
      OnlyListedAreRecorded(db, ms[1..], current);
      var next := Applied(db, ms[0]);
      if next.Some? {
        OnlyListedAreRecorded(next.value, ms[1..], current);
      }
    }
  }

  lemma OwnVersion(before: seq<Migration>, m: Migration, rest: seq<Migration>)
    requires Ascending(before + [m] + rest)
    ensures !Listed(before, m.version) && !Listed(rest, m.version)
  {
    var all := before + [m] + rest;
    assert all[|before|] == m;
    forall x | x in before ensures x.version != m.version {
      var i :| 0 <= i < |before| && before[i] == x;
      assert all[i] == x;
    }
    forall x | x in rest ensures x.version != m.version {
      var i :| 0 <= i < |rest| && rest[i] == x;
      assert all[|before| + 1 + i] == x;
    }
  }

  /** A run over two lists is a run over the first and, unless that raises, over the second. */
  lemma {:induction false} RunSplits(
    db: Db, first: seq<Migration>, second: seq<Migration>, current: int, fault: Version -> Fault)
    ensures var r := MigrateFrom(db, first, current, fault);
      var tail := MigrateFrom(r.db, second, current, fault);
      MigrateFrom(db, first + second, current, fault) == if r.raised then r else tail.(commits := r.commits + tail.commits)
    decreases |first|
  {
    hide Applied, PrerequisitesMet;
    if first == [] {
      assert first + second == second;
    } else {
      assert (first + second)[1..] == first[1..] + second;
      RunSplits(db, first[1..], second, current, fault);
      var next := Applied(db, first[0]);
      if next.Some? {
        RunSplits(next.value, first[1..], second, current, fault);
      }
    }
  }

  lemma {:induction false} VersionsGrow(db: Db, ms: seq<Migration>, current: int)
    ensures db.versions <= MigrateFrom(db, ms, current, NO_FAULTS).db.versions
    decreases |ms|
  {
    if ms == [] {
    } else {
      VersionsGrow(db, ms[1..], current);
      var next := Applied(db, ms[0]);
      if next.Some? {
        VersionsGrow(next.value, ms[1..], current);
      }
    }
  }
}

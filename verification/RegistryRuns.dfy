/** What runs of the shipped registry do: exactly when they raise, what they record, what they pass over for good. */
module RegistryRuns {
  import opened Prelude
  import opened Migrations
  import opened MigrationRegistry

  // ----- scripts

  lemma {:induction false} ExecuteAppend(s: Schema, first: seq<Statement>, second: seq<Statement>)
    ensures var m := ExecuteAll(s, first);
      ExecuteAll(s, first + second) == if m == None then None else ExecuteAll(m.value, second)
    decreases |second|
  {
    if second == [] {
      assert first + second == first;
    } else {
      var init := second[..|second| - 1];
      assert (first + second)[..|first + second| - 1] == first + init;
      ExecuteAppend(s, first, init);
    }
  }

  /** A statement that finds the table and columns it names, and leaves all tables as they are. */
  predicate Fits(s: Schema, st: Statement) {
    match st
    case CreateIndex(_, t, columns) => t in s.tables && columns <= s.tables[t]
    case Relabel(t, column) => t in s.tables && column in s.tables[t]
    case _ => false
  }

  lemma {:induction false} TablesStay(s: Schema, sts: seq<Statement>)
    requires forall st :: st in sts ==> Fits(s, st)
    ensures ExecuteAll(s, sts).Some? && ExecuteAll(s, sts).value.tables == s.tables
    decreases |sts|
  {
    if sts == [] {
    } else {
      var init := sts[..|sts| - 1];
      assert sts[|sts| - 1] in sts && forall st :: st in init ==> st in sts;
      TablesStay(s, init);
    }
  }

  /** One statement that succeeds, then only fitting ones. */
  lemma ThenFits(s: Schema, sts: seq<Statement>)
    requires sts != [] && Execute(s, sts[0]).Some?
    requires forall st :: st in sts[1..] ==> Fits(Execute(s, sts[0]).value, st)
    ensures ExecuteAll(s, sts).Some? && ExecuteAll(s, sts).value.tables == Execute(s, sts[0]).value.tables
  {
    OneStatement(s, sts[0]);
    assert sts == [sts[0]] + sts[1..];
    ExecuteAppend(s, [sts[0]], sts[1..]);
    TablesStay(Execute(s, sts[0]).value, sts[1..]);
  }

  lemma OneStatement(s: Schema, st: Statement)
    ensures ExecuteAll(s, [st]) == Execute(s, st)
  {
    assert [st][..0] == [];
    assert ExecuteAll(s, []) == Some(s);
  }

  // ----- databases the registry and the repository make

  const SIGNALS_COLUMNS := {"close_reason", "status", "symbol"}
  /** As the repository creates the table; it adds `entry_tf` in a step of its own. */
  const OUTCOMES_COLUMNS := {"result", "created_at", "setup_id"}

  predicate HasTimeframe(s: Schema) {
    SignalOutcomes in s.tables && "entry_tf" in s.tables[SignalOutcomes]
  }

  /**
   * The repository's tables, if there, have the columns they are created with;
   * the registry's own tables are there from the version that makes them on.
   */
  predicate Stands(s: Schema, current: int) {
    && (ActiveSignals in s.tables ==> SIGNALS_COLUMNS <= s.tables[ActiveSignals])
    && (SignalOutcomes in s.tables ==> OUTCOMES_COLUMNS <= s.tables[SignalOutcomes])
    && (TraderDiary in s.tables <==> current >= 3)
    && (current >= 3 ==> DIARY_COLUMNS <= s.tables[TraderDiary] && ("symbol" in s.tables[TraderDiary] <==> current >= 6))
    && (SlForensics in s.tables <==> current >= 7)
    && (current >= 8 ==> FORENSICS_COLUMNS <= s.tables[SlForensics])
    && (MarketDataCache in s.tables <==> current >= 10)
  }

  /** The one index on a column added later stands only on a table that has it. */
  predicate IndexFits(s: Schema) {
    TIMEFRAME_INDEX in s.indexes ==> HasTimeframe(s)
  }

  /** The repository's tables are as they were. */
  predicate SameRepository(s: Schema, r: Schema) {
    && (ActiveSignals in s.tables <==> ActiveSignals in r.tables)
    && (SignalOutcomes in s.tables <==> SignalOutcomes in r.tables)
    && (SignalOutcomes in s.tables ==> s.tables[SignalOutcomes] == r.tables[SignalOutcomes])
  }

  lemma RepositoryStays(s: Schema, m: Schema, r: Schema)
    ensures SameRepository(s, s)
    ensures SameRepository(s, m) && SameRepository(m, r) ==> SameRepository(s, r)
  {
  }

  predicate KeepsIndex(st: Statement) {
    match st
    case CreateIndex(name, t, columns) => name == TIMEFRAME_INDEX ==> t == SignalOutcomes && "entry_tf" in columns
    case CreateTable(t, _) => t != SignalOutcomes
    case DropTable(t) => t != SignalOutcomes
    case _ => true
  }

  lemma {:induction false} IndexKeepsFitting(s: Schema, sts: seq<Statement>)
    requires IndexFits(s) && forall st :: st in sts ==> KeepsIndex(st)
    ensures ExecuteAll(s, sts).Some? ==> IndexFits(ExecuteAll(s, sts).value)
    decreases |sts|
  {
    if sts == [] {
    } else {
      var init := sts[..|sts| - 1];
      assert sts[|sts| - 1] in sts && forall st :: st in init ==> st in sts;
      IndexKeepsFitting(s, init);
    }
  }

  lemma ScriptsKeepIndex(k: nat)
    requires k < |MIGRATIONS|
    ensures forall st :: st in MIGRATIONS[k].statements ==> KeepsIndex(st)
  {
    if k < 5 {
      assert k in {0, 1, 2, 3, 4};
    } else {
      LaterScriptsKeepIndex(k);
    }
  }

  lemma LaterScriptsKeepIndex(k: nat)
    requires 5 <= k < |MIGRATIONS|
    ensures forall st :: st in MIGRATIONS[k].statements ==> KeepsIndex(st)
  {
    assert k in {5, 6, 7, 8, 9, 10};
  }

  // ----- each script of the registry

  /** A script that succeeds and brings the database from one version to another. */
  predicate Brings(s: Schema, sts: seq<Statement>, version: int) {
    var r := ExecuteAll(s, sts);
    r.Some? && Stands(r.value, version) && SameRepository(s, r.value)
  }

  lemma Script1(s: Schema, c: int)
    requires Stands(s, c) && c < 1
    ensures Brings(s, MIGRATIONS[0].statements, 1)
  {
    OneStatement(s, MIGRATIONS[0].statements[0]);
  }

  lemma Script3(s: Schema, c: int)
    requires Stands(s, c) && 1 <= c < 3
    ensures Brings(s, DIARY_SCRIPT, 3)
  {
    hide ExecuteAll;
    ThenFits(s, DIARY_SCRIPT);
  }

  lemma Script4(s: Schema, c: int)
    requires Stands(s, c) && 3 <= c < 4 && PrerequisitesMet(s, MIGRATIONS[2])
    ensures Brings(s, MIGRATIONS[2].statements, 4)
  {
    hide ExecuteAll;
    TablesStay(s, MIGRATIONS[2].statements);
  }

  lemma Script5(s: Schema, c: int)
    requires Stands(s, c) && 3 <= c < 5 && PrerequisitesMet(s, MIGRATIONS[3])
    ensures Brings(s, MIGRATIONS[3].statements, 5)
  {
    hide ExecuteAll;
    TablesStay(s, MIGRATIONS[3].statements);
  }

  lemma Script6(s: Schema, c: int)
    requires Stands(s, c) && 3 <= c < 6
    ensures Brings(s, MIGRATIONS[4].statements, 6)
  {
    hide ExecuteAll;
    ThenFits(s, MIGRATIONS[4].statements);
  }

  lemma Script7(s: Schema, c: int)
    requires Stands(s, c) && 6 <= c < 7
    ensures Brings(s, MIGRATIONS[5].statements, 7)
  {
    hide ExecuteAll;
    ThenFits(s, MIGRATIONS[5].statements);
  }

  lemma Script8(s: Schema, c: int)
    requires Stands(s, c) && 7 <= c < 8
    ensures Brings(s, [DropTable(SlForensics)] + FORENSICS_SCRIPT, 8)
  {
    hide ExecuteAll, FORENSICS_SCRIPT;
    OneStatement(s, DropTable(SlForensics));
    ExecuteAppend(s, [DropTable(SlForensics)], FORENSICS_SCRIPT);
    ForensicsAgain(Execute(s, DropTable(SlForensics)).value);
  }

  lemma ForensicsAgain(s: Schema)
    requires SlForensics !in s.tables
    ensures var r := ExecuteAll(s, FORENSICS_SCRIPT);
      r.Some? && r.value.tables == s.tables[SlForensics := FORENSICS_COLUMNS]
  {
    hide ExecuteAll;
    ThenFits(s, FORENSICS_SCRIPT);
  }

  lemma Script9(s: Schema, c: int)
    requires Stands(s, c) && 8 <= c < 9
    ensures Brings(s, MIGRATIONS[7].statements, 9)
  {
    hide ExecuteAll;
    var sts := MIGRATIONS[7].statements;
    OneStatement(s, sts[0]);
    OneStatement(Execute(s, sts[0]).value, sts[1]);
    assert sts == [sts[0]] + [sts[1]];
    ExecuteAppend(s, [sts[0]], [sts[1]]);
  }

  lemma Script10(s: Schema, c: int)
    requires Stands(s, c) && 9 <= c < 10
    ensures Brings(s, MIGRATIONS[8].statements, 10)
  {
    hide ExecuteAll;
    ThenFits(s, MIGRATIONS[8].statements);
  }

  lemma Script11(s: Schema, c: int)
    requires Stands(s, c) && 10 <= c < 11
    ensures if SignalOutcomes in s.tables then Brings(s, MIGRATIONS[9].statements, 11)
      else ExecuteAll(s, MIGRATIONS[9].statements) == None
  {
    hide ExecuteAll;
    if SignalOutcomes in s.tables {
      TablesStay(s, MIGRATIONS[9].statements);
    } else {
      FirstFails(s, MIGRATIONS[9].statements, SignalOutcomes);
    }
  }

  lemma Script12(s: Schema, c: int)
    requires Stands(s, c) && IndexFits(s) && 11 <= c < 12 && PrerequisitesMet(s, MIGRATIONS[10])
    ensures if HasTimeframe(s) then Brings(s, MIGRATIONS[10].statements, 12)
      else ExecuteAll(s, MIGRATIONS[10].statements) == None
  {
    hide ExecuteAll;
    if HasTimeframe(s) {
      TablesStay(s, MIGRATIONS[10].statements);
    } else {
      OneStatement(s, MIGRATIONS[10].statements[0]);
      assert MIGRATIONS[10].statements == [MIGRATIONS[10].statements[0]];
    }
  }

  /** Whether the statements of the k-th migration find what they index. */
  predicate Executes(s: Schema, k: nat) {
    (k == 9 ==> SignalOutcomes in s.tables) && (k == 10 ==> HasTimeframe(s))
  }

  /** Standing at version c, with all migrations before the k-th behind it that do not wait for tables. */
  ghost predicate Reached(s: Schema, c: int, k: nat) {
    && k <= |MIGRATIONS| && Stands(s, c) && IndexFits(s)
    && forall j :: 0 <= j < k && MIGRATIONS[j].needs == {} ==> MIGRATIONS[j].version.number <= c
  }

  /** The k-th migration's statements execute, unless they index a table or a column that is not there. */
  lemma ScriptBrings(s: Schema, c: int, k: nat)
    requires k < |MIGRATIONS| && Reached(s, c, k)
    requires c < MIGRATIONS[k].version.number && PrerequisitesMet(s, MIGRATIONS[k])
    ensures if Executes(s, k) then Brings(s, MIGRATIONS[k].statements, MIGRATIONS[k].version.number)
      else ExecuteAll(s, MIGRATIONS[k].statements) == None
  {
    hide Stands, Brings, ExecuteAll, PrerequisitesMet, IndexFits, HasTimeframe;
    BehindIt(s, c, k);
    if k == 0 { Script1(s, c); }
    else if k == 1 { Script3(s, c); }
    else if k == 2 { Script4(s, c); }
    else if k == 3 { Script5(s, c); }
    else if k == 4 { Script6(s, c); }
    else if k == 5 { Script7(s, c); }
    else if k == 6 { Script8(s, c); }
    else if k == 7 { Script9(s, c); }
    else if k == 8 { Script10(s, c); }
    else if k == 9 { Script11(s, c); }
    else { Script12(s, c); }
  }

  lemma BehindIt(s: Schema, c: int, k: nat)
    requires k < |MIGRATIONS| && Reached(s, c, k)
    ensures k > 0 ==> c >= 1
    ensures k > 1 ==> c >= 3
    ensures k > 4 ==> c >= 6
    ensures k > 5 ==> c >= 7
    ensures k > 6 ==> c >= 8
    ensures k > 7 ==> c >= 9
    ensures k > 8 ==> c >= 10
    ensures k > 9 ==> c >= 11
  {
    hide Stands;
    assert k > 0 ==> MIGRATIONS[0].version.number <= c;
    assert k > 1 ==> MIGRATIONS[1].version.number <= c;
    assert k > 4 ==> MIGRATIONS[4].version.number <= c;
    assert k > 5 ==> MIGRATIONS[5].version.number <= c;
    assert k > 6 ==> MIGRATIONS[6].version.number <= c;
    assert k > 7 ==> MIGRATIONS[7].version.number <= c;
    assert k > 8 ==> MIGRATIONS[8].version.number <= c;
    assert k > 9 ==> MIGRATIONS[9].version.number <= c;
  }

  // ----- runs

  /** A run that started at `current` on a database now standing at its latest version, about to look at the k-th migration. */
  ghost predicate Underway(db: Db, k: nat, current: int) {
    var c := FetchSchemaVersion(db.versions);
    && current <= c && Reached(db.schema, c, k)
    && (c == current || (k < |MIGRATIONS| ==> c < MIGRATIONS[k].version.number))
  }

  ghost predicate Standing(db: Db) {
    Stands(db.schema, FetchSchemaVersion(db.versions)) && IndexFits(db.schema)
  }

  /** Version 11 is recorded only with the outcomes table there, version 12 only with the column. */
  predicate Indexed(db: Db) {
    && (FetchSchemaVersion(db.versions) >= 11 ==> SignalOutcomes in db.schema.tables)
    && (FetchSchemaVersion(db.versions) >= 12 ==> HasTimeframe(db.schema))
  }

  lemma PassesOver(db: Db, k: nat, current: int)
    requires k < |MIGRATIONS| && Underway(db, k, current)
    requires MIGRATIONS[k].version.number <= current || !PrerequisitesMet(db.schema, MIGRATIONS[k])
    ensures Underway(db, k + 1, current)
  {
    hide Stands;
    RegistryAscends();
    assert MIGRATIONS[k].needs == {} ==> PrerequisitesMet(db.schema, MIGRATIONS[k]);
  }

  lemma Commits(db: Db, k: nat, current: int)
    requires k < |MIGRATIONS| && Underway(db, k, current)
    requires MIGRATIONS[k].version.number > current && PrerequisitesMet(db.schema, MIGRATIONS[k])
    ensures var next := Applied(db, MIGRATIONS[k]);
      && (next == None <==> !Executes(db.schema, k))
      && (next.Some? ==> Underway(next.value, k + 1, current) && SameRepository(db.schema, next.value.schema))
  {
    hide Stands, ExecuteAll, PrerequisitesMet, SameRepository, IndexFits, Executes, KeepsIndex;
    var m, c := MIGRATIONS[k], FetchSchemaVersion(db.versions);
    RegistryAscends();
    ScriptBrings(db.schema, c, k);
    ScriptsKeepIndex(k);
    IndexKeepsFitting(db.schema, m.statements);
    LatestIs(db.versions, m.version);
  }

  lemma LatestIs(vs: set<Version>, v: Version)
    requires v.number > FetchSchemaVersion(vs)
    ensures FetchSchemaVersion(vs + {v}) == v.number
  {
    assert v in vs + {v};
  }

  /** The migrations a run from `current` records: later ones whose tables are there, up to the one that fails. */
  ghost predicate Due(s: Schema, k: nat, current: int, v: Version) {
    exists j :: k <= j < |MIGRATIONS| && MIGRATIONS[j].version == v && current < v.number
      && PrerequisitesMet(s, MIGRATIONS[j]) && Executes(s, j)
  }

  ghost predicate Faultless(fault: Version -> Fault) {
    forall v :: fault(v) == NoFault
  }

  /** What is recorded from version 11 on was indexed. */
  lemma CommitsIndexed(db: Db, k: nat, current: int)
    requires k < |MIGRATIONS| && Underway(db, k, current)
    requires MIGRATIONS[k].version.number > current && PrerequisitesMet(db.schema, MIGRATIONS[k])
    requires Applied(db, MIGRATIONS[k]).Some?
    ensures Indexed(Applied(db, MIGRATIONS[k]).value)
  {
    hide Stands, ExecuteAll, Reached;
    LatestIs(db.versions, MIGRATIONS[k].version);
    Commits(db, k, current);
    assert k == 10 ==> SignalOutcomes in MIGRATIONS[k].needs;
  }

  lemma Eleventh()
    ensures |MIGRATIONS| == 11 && MIGRATIONS[9].version == Version(11) && MIGRATIONS[10].version == Version(12)
    ensures forall s :: PrerequisitesMet(s, MIGRATIONS[9])
    ensures forall s :: PrerequisitesMet(s, MIGRATIONS[10]) <==> ActiveSignals in s.tables && SignalOutcomes in s.tables
  {
  }

  lemma UnderwayStands(db: Db, k: nat, current: int)
    requires Underway(db, k, current)
    ensures Standing(db)
  {
    hide Stands;
  }

  /** However it fails, a run leaves the database standing at its latest version. */
  lemma {:induction false} RunStands(db: Db, k: nat, current: int, fault: Version -> Fault)
    requires k <= |MIGRATIONS| && Underway(db, k, current)
    ensures var r := MigrateFrom(db, MIGRATIONS[k..], current, fault).db;
      Standing(r) && SameRepository(db.schema, r.schema) && (Indexed(db) ==> Indexed(r))
    decreases |MIGRATIONS| - k
  {
    Eleventh();
    UnderwayStands(db, k, current);
    hide MIGRATIONS, Stands, ExecuteAll, PrerequisitesMet, Applied, Underway, Indexed, Standing,
      SameRepository;
    RepositoryStays(db.schema, db.schema, db.schema);
    if k == |MIGRATIONS| {
    } else {
      var m := MIGRATIONS[k];
      assert MIGRATIONS[k..][0] == m && MIGRATIONS[k..][1..] == MIGRATIONS[k + 1..];
      if m.version.number <= current || !PrerequisitesMet(db.schema, m) {
        PassesOver(db, k, current);
        RunStands(db, k + 1, current, fault);
      } else {
        Commits(db, k, current);
        if Applied(db, m).Some? {
          CommitsIndexed(db, k, current);
          var next := Applied(db, m).value;
          UnderwayStands(next, k + 1, current);
          RunStands(next, k + 1, current, fault);
          RepositoryStays(db.schema, next.schema, MigrateFrom(next, MIGRATIONS[k + 1..], current, fault).db.schema);
        }
      }
    }
  }

  /** Version 11 is to come without its table, or version 12 with its tables but without its column. */
  predicate RaisesFrom(s: Schema, k: nat, current: int) {
    || (k <= 9 && current < 11 && SignalOutcomes !in s.tables)
    || (k <= 10 && current < 12 && ActiveSignals in s.tables && SignalOutcomes in s.tables && !HasTimeframe(s))
  }

  lemma {:induction false} RunRaises(db: Db, k: nat, current: int, fault: Version -> Fault)
    requires k <= |MIGRATIONS| && Underway(db, k, current) && Faultless(fault)
    ensures MigrateFrom(db, MIGRATIONS[k..], current, fault).raised <==> RaisesFrom(db.schema, k, current)
    decreases |MIGRATIONS| - k
  {
    Eleventh();
    hide MIGRATIONS, Stands, ExecuteAll, PrerequisitesMet, Applied, Underway, Indexed;
    if k == |MIGRATIONS| {
    } else {
      var m := MIGRATIONS[k];
      assert MIGRATIONS[k..][0] == m && MIGRATIONS[k..][1..] == MIGRATIONS[k + 1..];
      if m.version.number <= current || !PrerequisitesMet(db.schema, m) {
        PassesOver(db, k, current);
        RunRaises(db, k + 1, current, fault);
      } else {
        Commits(db, k, current);
        if Applied(db, m).Some? {
          RunRaises(Applied(db, m).value, k + 1, current, fault);
        }
      }
    }
  }

  lemma SamePrerequisites(s: Schema, r: Schema, j: nat)
    requires j < |MIGRATIONS| && SameRepository(s, r)
    ensures PrerequisitesMet(s, MIGRATIONS[j]) <==> PrerequisitesMet(r, MIGRATIONS[j])
  {
    assert j in {0, 1, 2, 3, 4, 5, 6, 7, 8, 9, 10};
    assert MIGRATIONS[j].needs <= {ActiveSignals, SignalOutcomes};
  }

  lemma SameDue(s: Schema, r: Schema, k: nat, current: int)
    requires SameRepository(s, r)
    ensures forall v :: Due(s, k, current, v) <==> Due(r, k, current, v)
  {
    forall j | 0 <= j < |MIGRATIONS|
      ensures PrerequisitesMet(s, MIGRATIONS[j]) <==> PrerequisitesMet(r, MIGRATIONS[j])
    {
      SamePrerequisites(s, r, j);
    }
    hide MIGRATIONS, PrerequisitesMet;
  }

  lemma DueNext(s: Schema, k: nat, current: int)
    requires k < |MIGRATIONS|
    ensures var now := current < MIGRATIONS[k].version.number && PrerequisitesMet(s, MIGRATIONS[k]) && Executes(s, k);
      forall v :: Due(s, k, current, v) <==> Due(s, k + 1, current, v) || (now && MIGRATIONS[k].version == v)
  {
    hide MIGRATIONS, PrerequisitesMet;
  }

  /** A run without faults records exactly what is due. */
  lemma {:induction false} RunRecords(db: Db, k: nat, current: int, fault: Version -> Fault)
    requires k <= |MIGRATIONS| && Underway(db, k, current) && Faultless(fault)
    ensures forall v :: v in MigrateFrom(db, MIGRATIONS[k..], current, fault).db.versions <==>
      v in db.versions || Due(db.schema, k, current, v)
    decreases |MIGRATIONS| - k
  {
    Eleventh();
    hide MIGRATIONS, Stands, ExecuteAll, PrerequisitesMet, Applied, Underway, Indexed, Due;
    if k == |MIGRATIONS| {
      NothingDue(db.schema, k, current);
    } else {
      var m := MIGRATIONS[k];
      assert MIGRATIONS[k..][0] == m && MIGRATIONS[k..][1..] == MIGRATIONS[k + 1..];
      DueNext(db.schema, k, current);
      if m.version.number <= current || !PrerequisitesMet(db.schema, m) {
        PassesOver(db, k, current);
        RunRecords(db, k + 1, current, fault);
      } else {
        Commits(db, k, current);
        if Applied(db, m).Some? {
          AppliedRecords(db, m);
          RunRecords(Applied(db, m).value, k + 1, current, fault);
          SameDue(db.schema, Applied(db, m).value.schema, k + 1, current);
        } else {
          NothingDue(db.schema, k, current);
        }
      }
    }
  }

  lemma NothingDue(s: Schema, k: nat, current: int)
    requires k >= |MIGRATIONS| || (k >= 9 && !Executes(s, k))
    ensures forall v :: !Due(s, k, current, v)
  {
    Eleventh();
    hide MIGRATIONS, PrerequisitesMet;
  }

  // ----- whole runs

  lemma Starts(db: Db)
    requires Standing(db)
    ensures Underway(db, 0, FetchSchemaVersion(db.versions)) && MIGRATIONS[0..] == MIGRATIONS
  {
    hide Stands;
  }

  /**
   * A run that meets no fault raises exactly when version 11 is still to come
   * and there is no outcomes table, or version 12 is, and there are both
   * tables, but the outcomes have no timeframe column.
   */
  lemma RegistryRaisesIff(db: Db)
    requires Standing(db)
    ensures var c, tables := FetchSchemaVersion(db.versions), db.schema.tables;
      MigrateDb(db, MIGRATIONS, NO_FAULTS).raised <==>
        || (c < 11 && SignalOutcomes !in tables)
        || (c < 12 && ActiveSignals in tables && SignalOutcomes in tables && "entry_tf" !in tables[SignalOutcomes])
  {
    hide Stands;
    Starts(db);
    RunRaises(db, 0, FetchSchemaVersion(db.versions), NO_FAULTS);
  }

  /** An empty database file, but for the version table. */
  const FRESH := Db(Schema(map[SchemaVersion := {"version", "applied_at", "description"}], map[], {}), {})

  lemma FreshStands()
    ensures Standing(FRESH) && Indexed(FRESH) && InOrder(FRESH.schema)
  {
  }

  function Created(s: Schema, t: Table, columns: set<string>): Schema {
    if t in s.tables then s else s.(tables := s.tables[t := columns])
  }

  /**
   * What the repository does to its tables before it migrates, as far as it
   * gets: one table, the other, and the column it adds in a step of its own.
   */
  function Initialised(s: Schema, steps: nat): Schema {
    var one := if steps >= 1 then Created(s, ActiveSignals, SIGNALS_COLUMNS) else s;
    var two := if steps >= 2 then Created(one, SignalOutcomes, OUTCOMES_COLUMNS) else one;
    if steps >= 3 then two.(tables := two.tables[SignalOutcomes := two.tables[SignalOutcomes] + {"entry_tf"}]) else two
  }

  /** An initialisation cut short after some steps, complete from the third; a run, which may fail anywhere. */
  datatype Event = Initialise(steps: nat) | RunMigrations(fault: Version -> Fault)

  function AsHappening(db: Db, e: Event): Happening {
    match e
    case Initialise(steps) => TablesChange(Initialised(db.schema, steps))
    case RunMigrations(fault) => MigrationRun(fault)
  }

  function History(db: Db, es: seq<Event>): Db
    decreases |es|
  {
    if es == [] then db else History(After(db, MIGRATIONS, AsHappening(db, es[0])), es[1..])
  }

  ghost predicate EverInitialised(es: seq<Event>) {
    exists e :: e in es && e.Initialise? && e.steps >= 3
  }

  /** The outcomes table comes after the signals table. */
  predicate InOrder(s: Schema) {
    SignalOutcomes in s.tables ==> ActiveSignals in s.tables
  }

  lemma InitialisedStands(s: Schema, current: int, steps: nat)
    requires Stands(s, current) && IndexFits(s) && InOrder(s)
    ensures var r := Initialised(s, steps);
      && Stands(r, current) && IndexFits(r) && InOrder(r)
      && (SignalOutcomes in s.tables ==> SignalOutcomes in r.tables)
      && (HasTimeframe(r) <==> HasTimeframe(s) || steps >= 3)
  {
  }

  /** Whatever is cut short, the database stays one on which `RegistryRaisesIff` speaks. */
  lemma {:induction false} HistoryStands(db: Db, es: seq<Event>)
    requires Standing(db) && Indexed(db) && InOrder(db.schema)
    ensures var d := History(db, es);
      && Standing(d) && Indexed(d) && InOrder(d.schema)
      && (HasTimeframe(d.schema) <==> HasTimeframe(db.schema) || EverInitialised(es))
    decreases |es|
  {
    hide MIGRATIONS, Stands, Initialised, IndexFits;
    if es == [] {
    } else {
      assert es[0] in es && forall e :: e in es <==> e == es[0] || e in es[1..];
      if es[0].Initialise? {
        InitialisedStands(db.schema, FetchSchemaVersion(db.versions), es[0].steps);
      } else {
        Starts(db);
        RunStands(db, 0, FetchSchemaVersion(db.versions), es[0].fault);
      }
      HistoryStands(After(db, MIGRATIONS, AsHappening(db, es[0])), es[1..]);
    }
  }

  /**
   * After any such history of a database that began as an empty file, a run
   * that meets no fault raises exactly when no initialisation ever completed.
   */
  lemma RunRaisesUnlessInitialised(es: seq<Event>)
    ensures MigrateDb(History(FRESH, es), MIGRATIONS, NO_FAULTS).raised <==> !EverInitialised(es)
  {
    hide MigrateDb, MIGRATIONS, Stands, IndexFits;
    FreshStands();
    HistoryStands(FRESH, es);
    RegistryRaisesIff(History(FRESH, es));
  }

  /** An initialisation killed before its last step, then a run: version 11 is recorded, version 12 raises. */
  lemma CutShort()
    ensures var d := History(FRESH, [Initialise(2)]);
      var r := MigrateDb(d, MIGRATIONS, NO_FAULTS);
      && ActiveSignals in d.schema.tables && SignalOutcomes in d.schema.tables
      && r.raised && Version(11) in r.db.versions && Version(12) !in r.db.versions
  {
    hide Stands, MigrateFrom, IndexFits;
    var es := [Initialise(2)];
    assert es[1..] == [];
    var d := History(FRESH, es);
    assert d == FRESH.(schema := Initialised(FRESH.schema, 2));
    FreshStands();
    HistoryStands(FRESH, es);
    RegistryRaisesIff(d);
    Starts(d);
    RunRecords(d, 0, 0, NO_FAULTS);
    DueAtEleven(d.schema);
  }

  lemma DueAtEleven(s: Schema)
    requires SignalOutcomes in s.tables && !HasTimeframe(s)
    ensures Due(s, 0, 0, Version(11)) && !Due(s, 0, 0, Version(12))
  {
    assert MIGRATIONS[9].version == Version(11) && PrerequisitesMet(s, MIGRATIONS[9]) && Executes(s, 9);
    RegistryAscends();
    assert MIGRATIONS[10].version == Version(12);
    hide PrerequisitesMet;
  }

  // ----- migrations passed over for good

  /**
   * Versions 4 and 5 are never applied after a run, whatever happens to the
   * tables and however later runs fail, exactly when that run did not find
   * their tables.
   */
  lemma PassedOverForGoodIff(db: Db, i: nat)
    requires i in {2, 3} && Standing(db) && FetchSchemaVersion(db.versions) < MIGRATIONS[i].version.number
    ensures var once := MigrateDb(db, MIGRATIONS, NO_FAULTS).db;
      (forall hs :: MIGRATIONS[i].version !in AfterAll(once, MIGRATIONS, hs).versions)
        <==> !PrerequisitesMet(db.schema, MIGRATIONS[i])
  {
    hide Stands, MigrateFrom, AfterAll;
    var c, v := FetchSchemaVersion(db.versions), MIGRATIONS[i].version;
    var once := MigrateDb(db, MIGRATIONS, NO_FAULTS).db;
    Starts(db);
    RunRecords(db, 0, c, NO_FAULTS);
    DueOnly(db.schema, i, c);
    if PrerequisitesMet(db.schema, MIGRATIONS[i]) {
      assert v in once.versions;
      AfterNothing(once);
    } else {
      assert Version(10) in once.versions;
      RegistryAscends();
      forall hs ensures v !in AfterAll(once, MIGRATIONS, hs).versions {
        DeferredForGood(once, MIGRATIONS, v, Version(10), hs);
      }
    }
  }

  lemma AfterNothing(db: Db)
    ensures AfterAll(db, MIGRATIONS, []) == db
  {
  }

  lemma DueOnly(s: Schema, i: nat, current: int)
    requires i in {2, 3} && current < MIGRATIONS[i].version.number
    ensures Due(s, 0, current, MIGRATIONS[i].version) <==> PrerequisitesMet(s, MIGRATIONS[i])
    ensures Due(s, 0, current, Version(10))
  {
    assert MIGRATIONS[8].version == Version(10) && PrerequisitesMet(s, MIGRATIONS[8]);
    RegistryAscends();
    hide PrerequisitesMet;
  }

  /** Migrating an empty file records seven versions, raises at the eleventh, and loses the fourth and fifth for good. */
  lemma FreshRun(hs: seq<Happening>)
    ensures var r := MigrateDb(FRESH, MIGRATIONS, NO_FAULTS);
      && r.raised
      && r.db.versions == {Version(1), Version(3), Version(6), Version(7), Version(8), Version(9), Version(10)}
      && Version(4) !in AfterAll(r.db, MIGRATIONS, hs).versions && Version(5) !in AfterAll(r.db, MIGRATIONS, hs).versions
  {
    hide Stands, MigrateFrom, AfterAll;
    FreshStands();
    RegistryRaisesIff(FRESH);
    Starts(FRESH);
    RunRecords(FRESH, 0, 0, NO_FAULTS);
    DueWhenFresh();
    PassedOverForGoodIff(FRESH, 2);
    PassedOverForGoodIff(FRESH, 3);
  }

  lemma DueWhenFresh()
    ensures forall v :: Due(FRESH.schema, 0, 0, v) <==>
      v in {Version(1), Version(3), Version(6), Version(7), Version(8), Version(9), Version(10)}
    ensures !PrerequisitesMet(FRESH.schema, MIGRATIONS[2]) && !PrerequisitesMet(FRESH.schema, MIGRATIONS[3])
  {
    var s := FRESH.schema;
    assert ActiveSignals in MIGRATIONS[2].needs && ActiveSignals in MIGRATIONS[3].needs;
    assert forall j :: j in {0, 1, 4, 5, 6, 7, 8} ==> PrerequisitesMet(s, MIGRATIONS[j]);
    assert MIGRATIONS[0].version == Version(1) && MIGRATIONS[1].version == Version(3) && MIGRATIONS[4].version == Version(6);
    assert MIGRATIONS[5].version == Version(7) && MIGRATIONS[6].version == Version(8);
    assert MIGRATIONS[7].version == Version(9) && MIGRATIONS[8].version == Version(10);
    forall v | Due(s, 0, 0, v)
      ensures v in {Version(1), Version(3), Version(6), Version(7), Version(8), Version(9), Version(10)}
    {
      var j :| 0 <= j < |MIGRATIONS| && MIGRATIONS[j].version == v && PrerequisitesMet(s, MIGRATIONS[j]) && j < 9;
      assert j in {0, 1, 4, 5, 6, 7, 8};
    }
  }
}

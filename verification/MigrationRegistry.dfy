/** `migrate_db` on a connection with transactions, the registry as shipped, and a gap in its prerequisites. */
module MigrationRegistry {
  import opened Prelude
  import opened Migrations

  /** Some statement fails on the schema the ones before it left. */
  ghost predicate StopsAt(s: Schema, sts: seq<Statement>, r: Schema) {
    exists k :: 0 <= k < |sts| && ExecuteAll(s, sts[..k]) == Some(r) && Execute(r, sts[k]) == None
  }

  class Connection {
    /** What other connections see, and what this one has written since BEGIN. */
    var committed: Db
    var working: Db

    constructor (db: Db)
      ensures committed == working == db
    {
      committed, working := db, db;
    }

    method ExecuteStatement(st: Statement) returns (ok: bool)
      modifies this`working
      ensures ok <==> Execute(old(working.schema), st).Some?
      ensures working == if ok then old(working).(schema := Execute(old(working.schema), st).value) else old(working)
    {
      var r := Execute(working.schema, st);
      ok := r.Some?;
      if ok {
        working := working.(schema := r.value);
      }
    }

    method Commit()
      modifies this`committed
      ensures committed == working
    {
      committed := working;
    }

    method Rollback()
      modifies this`working
      ensures working == committed
    {
      working := committed;
    }

    method ExecuteScript(sts: seq<Statement>) returns (ok: bool)
      modifies this`working
      ensures ok <==> ExecuteAll(old(working.schema), sts).Some?
      ensures ok ==> working == old(working).(schema := ExecuteAll(old(working.schema), sts).value)
      ensures !ok ==> working.versions == old(working.versions) && StopsAt(old(working.schema), sts, working.schema)
    {
      for i := 0 to |sts|
        invariant ExecuteAll(old(working.schema), sts[..i]) == Some(working.schema)
        invariant working.versions == old(working.versions)
      {
        assert sts[..i + 1][..i] == sts[..i];
        assert ExecuteAll(old(working.schema), sts[..i]) == Some(working.schema);
        ok := ExecuteStatement(sts[i]);
        if !ok {
          PrefixFails(old(working.schema), sts, i + 1);
          return false;
        }
      }
      assert sts[..|sts|] == sts;
      ok := true;
    }

    /** One pass over the list; an exception ends it with everything uncommitted rolled back. */
    method Migrate(ms: seq<Migration>, fault: Version -> Fault) returns (raised: bool, applied: nat)
      requires working == committed
      modifies this
      ensures Result(committed, raised, applied) == MigrateDb(old(committed), ms, fault) && working == committed
    {
      hide ExecuteAll, PrerequisitesMet;
      var current := FetchSchemaVersion(committed.versions);
      ghost var whole := MigrateFrom(committed, ms, current, fault);
      applied := 0;
      for i := 0 to |ms|
        invariant working == committed
        invariant var r := MigrateFrom(committed, ms[i..], current, fault);
          whole == r.(commits := r.commits + applied)
      {
        var m := ms[i];
        assert ms[i..][0] == m && ms[i..][1..] == ms[i + 1..];
        if m.version.number <= current {
          continue;
        }
        if !PrerequisitesMet(committed.schema, m) {
          continue;
        }
        var ok := ExecuteScript(m.statements);
        if !ok || fault(m.version) == InTransaction {
          Rollback();
          return true, applied;
        }
        working := working.(versions := working.versions + {m.version});
        Commit();
        applied := applied + 1;
        if fault(m.version) == AfterCommit {
          return true, applied;
        }
      }
      raised := false;
    }
  }

  lemma {:induction false} PrefixFails(s: Schema, sts: seq<Statement>, k: nat)
    requires k <= |sts| && ExecuteAll(s, sts[..k]) == None
    ensures ExecuteAll(s, sts) == None
    decreases |sts|
  {
    if k == |sts| {
      assert sts[..k] == sts;
    } else {
      assert sts[..|sts| - 1][..k] == sts[..k];
      PrefixFails(s, sts[..|sts| - 1], k);
    }
  }

  // ----- the registry as shipped; of the columns, those that some statement names

  const TIMEFRAME_INDEX := "idx_signal_outcomes_entry_tf"
  const DIARY_COLUMNS := {"decision", "entry_time", "linked_signal_id", "closed_at"}
  const FORENSICS_COLUMNS := {"setup_id", "sl_type", "symbol", "tracking_id", "sl_hit_at"}

  const DIARY_SCRIPT: seq<Statement> := [
    CreateTable(TraderDiary, DIARY_COLUMNS),
    CreateIndex("idx_diary_decision", TraderDiary, {"decision"}),
    CreateIndex("idx_diary_entry_time", TraderDiary, {"entry_time"}),
    CreateIndex("idx_diary_signal", TraderDiary, {"linked_signal_id"}),
    CreateIndex("idx_diary_closed", TraderDiary, {"closed_at"})]

  const FORENSICS_SCRIPT: seq<Statement> := [
    CreateTable(SlForensics, FORENSICS_COLUMNS),
    CreateIndex("idx_sl_forensics_setup", SlForensics, {"setup_id"}),
    CreateIndex("idx_sl_forensics_type", SlForensics, {"sl_type"}),
    CreateIndex("idx_sl_forensics_symbol", SlForensics, {"symbol"}),
    CreateIndex("idx_sl_forensics_tracking", SlForensics, {"tracking_id"})]

  const MIGRATIONS: seq<Migration> := [
    Migration(Version(1), [CreateTable(SchemaVersion, {"version", "applied_at", "description"})], {}),
    Migration(Version(3), DIARY_SCRIPT, {}),
    Migration(Version(4), [Relabel(ActiveSignals, "close_reason"), Relabel(SignalOutcomes, "result")],
      {ActiveSignals, SignalOutcomes}),
    Migration(Version(5), [CreateIndex("idx_active_signals_status_symbol", ActiveSignals, {"status", "symbol"})],
      {ActiveSignals}),
    Migration(Version(6), [
      AddColumn(TraderDiary, "symbol"), CreateIndex("idx_diary_symbol", TraderDiary, {"symbol"})], {}),
    Migration(Version(7), [
      CreateTable(SlForensics, {"setup_id", "forensic_type", "analyzed_at"}),
      CreateIndex("idx_sl_forensics_setup", SlForensics, {"setup_id"}),
      CreateIndex("idx_sl_forensics_type", SlForensics, {"forensic_type"}),
      CreateIndex("idx_sl_forensics_analyzed", SlForensics, {"analyzed_at"})], {}),
    Migration(Version(8), [DropTable(SlForensics)] + FORENSICS_SCRIPT, {}),
    Migration(Version(9), [DropTable(LegacyOutcomes), DropTable(LegacySignals)], {}),
    Migration(Version(10), [
      CreateTable(MarketDataCache, {"fetched_at"}),
      CreateIndex("idx_market_data_cache_fetched", MarketDataCache, {"fetched_at"})], {}),
    Migration(Version(11), [
      CreateIndex("idx_signal_outcomes_created_result", SignalOutcomes, {"created_at", "result"}),
      CreateIndex("idx_sl_forensics_sl_hit_at", SlForensics, {"sl_hit_at"})], {}),
    Migration(Version(12), [CreateIndex(TIMEFRAME_INDEX, SignalOutcomes, {"entry_tf", "setup_id"})],
      {ActiveSignals, SignalOutcomes})
  ]

  lemma RegistryAscends()
    ensures Ascending(MIGRATIONS)
  {
  }

  ghost predicate NeverCreates(sts: seq<Statement>, t: Table) {
    forall st :: st in sts ==> st.CreateTable? ==> st.table != t
  }

  lemma {:induction false} StaysMissing(s: Schema, sts: seq<Statement>, t: Table)
    requires t !in s.tables && NeverCreates(sts, t)
    ensures ExecuteAll(s, sts).Some? ==> t !in ExecuteAll(s, sts).value.tables
    decreases |sts|
  {
    if sts == [] {
    } else {
      var init := sts[..|sts| - 1];
      assert forall st :: st in init ==> st in sts;
      assert sts[|sts| - 1] in sts;
      StaysMissing(s, init, t);
    }
  }

  /** A migration that starts on a table nobody creates, without naming it as a prerequisite, ends every run. */
  lemma {:induction false} UnguardedTableRaises(
    db: Db, ms: seq<Migration>, k: nat, current: int, t: Table, fault: Version -> Fault)
    requires k < |ms| && ms[k].version.number > current && ms[k].needs == {}
    requires ms[k].statements != [] && ms[k].statements[0].CreateIndex? && ms[k].statements[0].table == t
    requires t !in db.schema.tables && forall m :: m in ms ==> NeverCreates(m.statements, t)
    ensures MigrateFrom(db, ms, current, fault).raised
    decreases |ms|
  {
    hide NeverCreates, ExecuteAll;
    var m, rest := ms[0], ms[1..];
    assert m in ms && forall x :: x in rest ==> x in ms;
    if k == 0 {
      FirstFails(db.schema, m.statements, t);
    } else {
      assert rest[k - 1] == ms[k];
      UnguardedTableRaises(db, rest, k - 1, current, t, fault);
      StaysMissing(db.schema, m.statements, t);
      var next := Applied(db, m);
      if next.Some? {
        UnguardedTableRaises(next.value, rest, k - 1, current, t, fault);
      }
    }
  }

  lemma FirstFails(s: Schema, sts: seq<Statement>, t: Table)
    requires sts != [] && sts[0].CreateIndex? && sts[0].table == t && t !in s.tables
    ensures ExecuteAll(s, sts) == None
  {
    var one := sts[..1];
    assert one[..0] == [] && one[0] == sts[0];
    assert ExecuteAll(s, one) == None;
    PrefixFails(s, sts, 1);
  }

  lemma OutcomesAreNeverCreated(i: nat)
    requires i < |MIGRATIONS|
    ensures NeverCreates(MIGRATIONS[i].statements, SignalOutcomes)
  {
    if i < 5 {
      assert i in {0, 1, 2, 3, 4};
    } else {
      LaterNeverCreate(i);
    }
  }

  lemma LaterNeverCreate(i: nat)
    requires 5 <= i < |MIGRATIONS|
    ensures NeverCreates(MIGRATIONS[i].statements, SignalOutcomes)
  {
    assert i in {5, 6, 7, 8, 9, 10};
  }

  /**
   * Version 11 indexes signal_outcomes but lists no prerequisite: below version
   * 11, on a database without that table, no run of the registry can succeed.
   */
  lemma RegistryRaisesWithoutOutcomes(db: Db, fault: Version -> Fault)
    requires SignalOutcomes !in db.schema.tables && FetchSchemaVersion(db.versions) < 11
    ensures MigrateDb(db, MIGRATIONS, fault).raised
  {
    forall m | m in MIGRATIONS ensures NeverCreates(m.statements, SignalOutcomes) {
      var i :| 0 <= i < |MIGRATIONS| && MIGRATIONS[i] == m;
      hide MIGRATIONS;
      OutcomesAreNeverCreated(i);
    }
    assert MIGRATIONS[9].version == Version(11) && MIGRATIONS[9].needs == {};
    hide MIGRATIONS;
    UnguardedTableRaises(db, MIGRATIONS, 9, FetchSchemaVersion(db.versions), SignalOutcomes, fault);
  }
}

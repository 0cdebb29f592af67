/**
 The startup sequence of InitEntDB over series of starts, each of which completes or stops after any
 committed step.
 */
module Boots {
  import opened Outcomes
  import opened Relational
  import opened RowNumber
  import opened Statements
  import opened Migrations
  import opened RenameLaws
  import opened CleanupLaws
  import opened SchemaCreate

  /** One start: whether the rename transaction committed, and how many of the three later steps
      (cleanup, schema creation, cycle migration) committed before the process stopped. */
  datatype Boot = Boot(renamed: bool, reached: nat)

  function RunBoot(target: Schema, d: Db, b: Boot): Outcome {
    var d1 :- if b.renamed then Renames(d) else Ok(d);
    var d2 :- if b.reached >= 1 then Cleanup(d1) else Ok(d1);
    var d3 :- if b.reached >= 2 then CreateSchema(target, d2) else Ok(d2);
    if b.reached >= 3 then CycleMigrations(d3) else Ok(d3)
  }

  function RunBoots(target: Schema, d: Db, bs: seq<Boot>): Outcome
    decreases |bs|
  {
    if bs == [] then Ok(d) else
      var d' :- RunBoot(target, d, bs[0]);
      RunBoots(target, d', bs[1..])
  }

  function Uninterrupted(target: Schema, d: Db): Outcome {
    RunBoot(target, d, Boot(true, 3))
  }

  /** The startup code: a failed rename is only logged, any other failure ends the process. */
  method InitEntDB(conn: Connection, target: Schema, rename: Faults, cleanup: Faults, create: bool, cycle: Faults)
    returns (b: Boot, fatal: bool)
    modifies conn
    ensures RunBoot(target, old(conn.db), b) == Ok(conn.db)
    ensures fatal <==> b.reached < 3
    ensures Reliable(rename) ==> (b.renamed <==> Renames(old(conn.db)).Ok?)
    ensures Reliable(cleanup) && create && Reliable(cycle) ==>
              (fatal <==> RunBoot(target, old(conn.db), Boot(b.renamed, 3)).Err?)
  {
    var r := ApplyDomainRenames(conn, rename);
    b := Boot(r.Ok?, 0);
    r := ApplyWorkflowCyclePreSchemaCleanup(conn, cleanup);
    if r.Err? { return b, true; }
    b := b.(reached := 1);
    var s := CreateSchema(target, conn.db);
    if !create || s.Err? { return b, true; }
    conn.db := s.value;
    b := b.(reached := 2);
    r := ApplyWorkflowCycleMigrations(conn, cycle);
    if r.Err? { return b, true; }
    b := b.(reached := 3);
    return b, false;
  }

  // ---------------------------------------------------------------- restart convergence

  ghost predicate PhaseInv(target: Schema, d: Db, k: nat) {
    && RenameSettled(d)
    && (k >= 1 ==> CleanSettled(d))
    && (k >= 2 ==> SchemaSettled(target, d))
    && (k >= 3 ==> MigrationSettled(d))
  }

  /** Same tables, keys and indexes; a table may have gained the cycle column. */
  ghost predicate SameStructure(d: Db, d': Db) {
    && d'.tables.Keys == d.tables.Keys && d'.foreignKeys == d.foreignKeys && d'.indexes == d.indexes
    && forall t :: t in d.tables ==> d'.tables[t].columns - {WorkflowCycle} == d.tables[t].columns - {WorkflowCycle}
  }

  lemma {:induction false} RequestsKeepStructure(d: Db)
    requires CleanTable(d, ConsultationRequests, [DedupRequests]).Ok?
    ensures SameStructure(d, CleanTable(d, ConsultationRequests, [DedupRequests]).value)
  {
    if ConsultationRequests in d.tables {
      CleanTableUnfolds(d, ConsultationRequests, [DedupRequests]);
      var n := Normal(d, ConsultationRequests);
      ApplyOne(DedupRequests, n);
      DedupRequestsEffect(n);
      assert SameStructure(d, n);
    }
  }

  lemma {:induction false} OffersKeepStructure(d: Db)
    requires CleanTable(d, FinalOffers, [DedupOffers]).Ok?
    ensures SameStructure(d, CleanTable(d, FinalOffers, [DedupOffers]).value)
  {
    if FinalOffers in d.tables {
      CleanTableUnfolds(d, FinalOffers, [DedupOffers]);
      var n := Normal(d, FinalOffers);
      ApplyOne(DedupOffers, n);
      DedupOffersEffect(n);
      assert SameStructure(d, n);
    }
  }

  lemma {:induction false} CleanupKeepsStructure(d: Db)
    requires Cleanup(d).Ok?
    ensures SameStructure(d, Cleanup(d).value)
  {
    var d1 := CleanTable(d, ValidationCases, []).value;
    if ValidationCases in d.tables { CleanTableUnfolds(d, ValidationCases, []); }
    assert SameStructure(d, d1);
    RequestsKeepStructure(d1);
    OffersKeepStructure(CleanTable(d1, ConsultationRequests, [DedupRequests]).value);
  }

  lemma {:induction false} CleanupKeepsRenames(d: Db)
    requires RenameSettled(d) && Cleanup(d).Ok?
    ensures RenameSettled(Cleanup(d).value)
  {
    CleanupKeepsStructure(d);
    var d' := Cleanup(d).value;
    forall t, c | t in d.tables && c != WorkflowCycle ensures HasColumn(d', t, c) <==> HasColumn(d, t, c) {
      assert c in d'.tables[t].columns - {WorkflowCycle} <==> c in d'.tables[t].columns;
      assert c in d.tables[t].columns - {WorkflowCycle} <==> c in d.tables[t].columns;
    }
  }

  lemma {:induction false} SettledIsComplete(target: Schema, d: Db)
    requires Wanted(target) && SchemaSettled(target, d)
    ensures Complete(d)
  {}

  lemma {:induction false} MigrationKeepsSchema(target: Schema, d: Db)
    requires Wanted(target) && CleanSettled(d) && SchemaSettled(target, d)
    ensures CycleMigrations(d).Ok? && SchemaSettled(target, CycleMigrations(d).value)
  {
    SettledIsComplete(target, d);
    MigrationEffect(d);
    var d' := CycleMigrations(d).value;
    forall fk | fk in target.foreignKeys ensures HasKeyOn(d', fk.table, fk.name) {
      assert fk !in MissingKeys(target, d);
    }
  }

  lemma {:induction false} CleanupAdvances(target: Schema, d: Db)
    requires PhaseInv(target, d, 0) && Cleanup(d).Ok?
    ensures PhaseInv(target, Cleanup(d).value, 1)
  {
    CleanupSettles(d);
    CleanupKeepsRenames(d);
  }

  lemma {:induction false} SchemaAdvances(target: Schema, d: Db)
    requires Wanted(target) && PhaseInv(target, d, 1) && CreateSchema(target, d).Ok?
    ensures PhaseInv(target, CreateSchema(target, d).value, 2)
  {
    SchemaSettles(target, d);
    SchemaKeepsRenames(target, d);
    SchemaKeepsClean(target, d);
  }

  lemma {:induction false} MigrationAdvances(target: Schema, d: Db)
    requires Wanted(target) && PhaseInv(target, d, 2)
    ensures CycleMigrations(d).Ok? && PhaseInv(target, CycleMigrations(d).value, 3)
  {
    SettledIsComplete(target, d);
    MigrationEffect(d);
    MigrationSettles(d);
    MigrationKeepsSchema(target, d);
  }

  lemma {:induction false} PhaseHolds(target: Schema, d0: Db, k: nat)
    requires Wanted(target) && k <= 3 && RunBoot(target, d0, Boot(true, k)).Ok?
    ensures PhaseInv(target, RunBoot(target, d0, Boot(true, k)).value, k)
  {
    var d1 := Renames(d0).value;
    RenamesSettle(d0);
    if k >= 1 {
      CleanupAdvances(target, d1);
      if k >= 2 {
        var d2 := Cleanup(d1).value;
        SchemaAdvances(target, d2);
        if k >= 3 { MigrationAdvances(target, CreateSchema(target, d2).value); }
      }
    }
  }

  function Max(a: nat, b: nat): nat {
    if a < b then b else a
  }

  /** A start from the state that an earlier start left after k steps continues from there. */
  lemma {:induction false} BootResumes(target: Schema, d0: Db, k: nat, b: Boot)
    requires Wanted(target) && k <= 3 && b.reached <= 3
    requires RunBoot(target, d0, Boot(true, k)).Ok?
    requires RunBoot(target, RunBoot(target, d0, Boot(true, k)).value, b).Ok?
    ensures RunBoot(target, d0, Boot(true, Max(k, b.reached)))
         == RunBoot(target, RunBoot(target, d0, Boot(true, k)).value, b)
  {
    var x := RunBoot(target, d0, Boot(true, k)).value;
    PhaseHolds(target, d0, k);
    SettledRunIsIdentity(x);
    if k >= 1 { SettledCleanupIsIdentity(x); }
    if k >= 2 { SettledSchemaIsIdentity(target, x); }
    if k >= 3 {
      SettledIsComplete(target, x);
      MigrationSettles(x);
    }
  }

  function MaxReached(bs: seq<Boot>): nat {
    if bs == [] then 0 else Max(bs[0].reached, MaxReached(bs[1..]))
  }

  ghost predicate Legal(bs: seq<Boot>) {
    forall k :: 0 <= k < |bs| ==> bs[k].reached <= 3
  }

  lemma {:induction false} BootsResume(target: Schema, d0: Db, k: nat, bs: seq<Boot>)
    requires Wanted(target) && k <= 3 && Legal(bs)
    requires RunBoot(target, d0, Boot(true, k)).Ok?
    requires RunBoots(target, RunBoot(target, d0, Boot(true, k)).value, bs).Ok?
    ensures RunBoot(target, d0, Boot(true, Max(k, MaxReached(bs))))
         == RunBoots(target, RunBoot(target, d0, Boot(true, k)).value, bs)
    decreases |bs|
  {
    if bs != [] {
      BootResumes(target, d0, k, bs[0]);
      assert Legal(bs[1..]) by { forall j | 0 <= j < |bs| - 1 ensures bs[1..][j].reached <= 3 { assert bs[1..][j] == bs[j + 1]; } }
      BootsResume(target, d0, Max(k, bs[0].reached), bs[1..]);
    }
  }

  /** Restart convergence.  For every initial database and every series of starts, each stopped after any committed
      step: if the first one committed the renames, the state is that of a single start taken as far as the
      furthest of them.  So the first start that completes leaves exactly the state of one uninterrupted
      start, and no later start changes it. */
  lemma {:induction false} RestartsConverge(target: Schema, d0: Db, bs: seq<Boot>)
    requires Wanted(target) && Legal(bs) && bs != [] && bs[0].renamed
    requires RunBoots(target, d0, bs).Ok?
    ensures RunBoots(target, d0, bs) == RunBoot(target, d0, Boot(true, MaxReached(bs)))
    ensures (exists k :: 0 <= k < |bs| && bs[k].reached == 3) ==> RunBoots(target, d0, bs) == Uninterrupted(target, d0)
  {
    assert bs[0] == Boot(true, bs[0].reached);
    assert Legal(bs[1..]) by { forall j | 0 <= j < |bs| - 1 ensures bs[1..][j].reached <= 3 { assert bs[1..][j] == bs[j + 1]; } }
    BootsResume(target, d0, bs[0].reached, bs[1..]);
    MaxReachedBounds(bs);
  }

  lemma {:induction false} MaxReachedBounds(bs: seq<Boot>)
    requires Legal(bs)
    ensures MaxReached(bs) <= 3 && forall k :: 0 <= k < |bs| ==> bs[k].reached <= MaxReached(bs)
  {
    if bs != [] {
      forall j | 0 <= j < |bs| - 1 ensures bs[1..][j].reached <= 3 { assert bs[1..][j] == bs[j + 1]; }
      MaxReachedBounds(bs[1..]);
      forall k | 0 <= k < |bs| ensures bs[k].reached <= MaxReached(bs) {
        if k > 0 { assert bs[k] == bs[1..][k - 1]; }
      }
    }
  }

  /** The cleanup prepares the schema creation: once it has committed, both unique cycle indexes can be built. */
  lemma {:induction false} CycleIndexesCanBeBuilt(target: Schema, d: Db, t: TableName)
    requires Wanted(target) && Cleanup(d).Ok? && t in {ConsultationRequests, FinalOffers}
    ensures
      var tables := CompletedTables(target, Cleanup(d).value);
      t in tables && UniqueOn(tables[t].rows, [ValidationCaseId, ValidatorUserId, WorkflowCycle])
  {
    var d1 := Cleanup(d).value;
    CleanupSettles(d);
    var rows := CompletedTables(target, d1)[t].rows;
    if t in d1.tables {
      forall i, j | i in rows && j in rows && SameSlot(rows[i], rows[j]) ensures i == j {
        CompletedKeepsSlots(d1.tables[t], target.tables[t], i, j);
      }
    }
    DedupedIsUnique(rows);
  }

  /** After a cleanup and a schema creation have committed, the cycle migration can only fail by interruption. */
  lemma {:induction false} MigrationAlwaysCommits(target: Schema, d: Db)
    requires Wanted(target) && Cleanup(d).Ok? && CreateSchema(target, Cleanup(d).value).Ok?
    ensures
      var d' := CreateSchema(target, Cleanup(d).value).value;
      CycleMigrations(d') == Ok(d'.(indexes := MigratedIndexes(d'.indexes)))
  {
    var d1 := Cleanup(d).value;
    CleanupSettles(d);
    SchemaSettles(target, d1);
    SchemaKeepsClean(target, d1);
    SettledIsComplete(target, CreateSchema(target, d1).value);
    MigrationEffect(CreateSchema(target, d1).value);
  }

  // ---------------------------------------------------------------- the rename that never committed

  /** No table and no column is lost. */
  ghost predicate Grows(d: Db, d': Db) {
    d.tables.Keys <= d'.tables.Keys && forall t :: t in d.tables ==> d.tables[t].columns <= d'.tables[t].columns
  }

  /** The tables and columns of the target are there. */
  ghost predicate HoldsTables(target: Schema, d: Db) {
    forall t :: t in target.tables ==> t in d.tables && target.tables[t].Keys <= d.tables[t].columns
  }

  lemma {:induction false} StatementsGrow(ss: seq<Stmt>, d: Db)
    requires ApplyAll(ss, d).Ok?
    requires forall k :: 0 <= k < |ss| ==> ss[k].AddColumnIfMissing? || ss[k].RaiseToOne? || ss[k].CreateIndexIfMissing?
    ensures Grows(d, ApplyAll(ss, d).value)
  {
    if ss != [] {
      var d' := Apply(ss[0], d).value;
      assert Grows(d, d');
      forall k | 0 <= k < |ss| - 1 ensures ss[1..][k] == ss[k + 1] {}
      StatementsGrow(ss[1..], d');
    }
  }

  lemma {:induction false} MigrationGrows(d: Db)
    requires CycleMigrations(d).Ok?
    ensures Grows(d, CycleMigrations(d).value)
  {
    StatementsGrow(CYCLE_STATEMENTS, d);
    var d1 := ApplyAll(CYCLE_STATEMENTS, d).value;
    var d2 := ApplyIf(RequestCaseValidator in d1.indexes, DropIndexIfExists(RequestCaseValidator), d1).value;
    StatementsGrow(INDEX_STATEMENTS, d2);
  }

  lemma {:induction false} CleanTableGrows(d: Db, t: TableName, more: seq<Stmt>)
    requires CleanTable(d, t, more).Ok?
    requires more == [] || (t == ConsultationRequests && more == [DedupRequests]) || (t == FinalOffers && more == [DedupOffers])
    ensures Grows(d, CleanTable(d, t, more).value)
  {
    if t in d.tables {
      CleanTableUnfolds(d, t, more);
      var n := Normal(d, t);
      assert Grows(d, n);
      if more != [] {
        ApplyOne(more[0], n);
        if t == ConsultationRequests { DedupRequestsEffect(n); } else { DedupOffersEffect(n); }
      }
    }
  }

  lemma {:induction false} CleanupGrows(d: Db)
    requires Cleanup(d).Ok?
    ensures Grows(d, Cleanup(d).value)
  {
    CleanTableGrows(d, ValidationCases, []);
    var d1 := CleanTable(d, ValidationCases, []).value;
    CleanTableGrows(d1, ConsultationRequests, [DedupRequests]);
    CleanTableGrows(CleanTable(d1, ConsultationRequests, [DedupRequests]).value, FinalOffers, [DedupOffers]);
  }

  lemma {:induction false} SchemaGrows(target: Schema, d: Db)
    requires CreateSchema(target, d).Ok?
    ensures Grows(d, CreateSchema(target, d).value) && HoldsTables(target, CreateSchema(target, d).value)
  {}

  /** A start without renames loses no table and no column, and once it has created the schema it has all of the target's. */
  lemma {:induction false} UnrenamedBootGrows(target: Schema, d: Db, k: nat)
    requires RunBoot(target, d, Boot(false, k)).Ok?
    ensures Grows(d, RunBoot(target, d, Boot(false, k)).value)
    ensures k >= 2 ==> HoldsTables(target, RunBoot(target, d, Boot(false, k)).value)
  {
    if k >= 1 {
      CleanupGrows(d);
      var d2 := Cleanup(d).value;
      if k >= 2 {
        SchemaGrows(target, d2);
        if k >= 3 { MigrationGrows(CreateSchema(target, d2).value); }
      }
    }
  }

  /** What a rename would replace, and its replacement, side by side. */
  ghost predicate BothCases(d: Db) { Threads in d.tables && ValidationCases in d.tables }
  ghost predicate BothTags(d: Db) { TagThreads in d.tables && TagValidationCases in d.tables }
  ghost predicate BothColumns(d: Db) { HasColumn(d, TagValidationCases, ThreadId) && HasColumn(d, TagValidationCases, ValidationCaseId) }

  lemma {:induction false} RenamesKeepBoth(d: Db)
    requires Renames(d).Ok?
    ensures BothCases(d) ==> BothCases(Renames(d).value)
    ensures BothTags(d) ==> BothTags(Renames(d).value)
    ensures BothColumns(d) ==> BothColumns(Renames(d).value)
  {
    RenamesPreserveData(d);
  }

  lemma {:induction false} BootKeepsBoth(target: Schema, d: Db, b: Boot)
    requires RunBoot(target, d, b).Ok?
    ensures
      var d' := RunBoot(target, d, b).value;
      (BothCases(d) ==> BothCases(d')) && (BothTags(d) ==> BothTags(d')) && (BothColumns(d) ==> BothColumns(d'))
  {
    if b.renamed { RenamesKeepBoth(d); }
    var d1 := if b.renamed then Renames(d).value else d;
    assert RunBoot(target, d, b) == RunBoot(target, d1, Boot(false, b.reached));
    UnrenamedBootGrows(target, d1, b.reached);
  }

  /** Once an old table or column stands beside its replacement, no series of starts ever removes or moves it. */
  lemma {:induction false} BothStay(target: Schema, d: Db, bs: seq<Boot>)
    requires RunBoots(target, d, bs).Ok?
    ensures
      var d' := RunBoots(target, d, bs).value;
      (BothCases(d) ==> BothCases(d')) && (BothTags(d) ==> BothTags(d')) && (BothColumns(d) ==> BothColumns(d'))
    decreases |bs|
  {
    if bs != [] {
      BootKeepsBoth(target, d, bs[0]);
      BothStay(target, RunBoot(target, d, bs[0]).value, bs[1..]);
    }
  }

  /** While there is no validation_cases, under its old name or not at all, a final_offers table stops the start before
      the schema is created: the cleanup joins the two.  So the renames get another chance. */
  lemma {:induction false} OffersForceARetry(d0: Db)
    requires ValidationCases !in d0.tables && FinalOffers in d0.tables
    ensures Cleanup(d0).Err?
  {
    var r2 := CleanTable(d0, ConsultationRequests, [DedupRequests]);
    if r2.Ok? {
      var d2 := r2.value;
      if ConsultationRequests in d0.tables {
        CleanTableUnfolds(d0, ConsultationRequests, [DedupRequests]);
        ApplyOne(DedupRequests, Normal(d0, ConsultationRequests));
        DedupRequestsEffect(Normal(d0, ConsultationRequests));
      }
      CleanTableUnfolds(d2, FinalOffers, [DedupOffers]);
      ApplyOne(DedupOffers, Normal(d2, FinalOffers));
    }
  }
}

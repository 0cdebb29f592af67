/**
 Starts that cannot succeed, or that leave data behind: what a collision in the cleanup does to every later start,
 and one concrete database for each way in which the startup does not do what one would expect.
 */
module StartFailures {
  import opened Outcomes
  import opened Relational
  import opened RowNumber
  import opened Statements
  import opened Migrations
  import opened RenameLaws
  import opened CleanupLaws
  import opened CleanupEffects
  import opened SchemaCreate
  import opened Boots
  import opened RenameRetry
  import opened LateRenames
  import opened Safety

  // ---------------------------------------------------------------- a collision stops every start

  /** Rows of requests or of offers meet at cycle one under a unique index. */
  ghost predicate Stuck(d: Db, t: TableName) {
    && t in {ConsultationRequests, FinalOffers} && HasColumn(d, t, WorkflowCycle) && Collides(d, t)
    && (t == FinalOffers ==> DeletesStayLocal(d))
  }

  lemma {:induction false} CollidingTableFails(d: Db, t: TableName, more: seq<Stmt>)
    requires HasColumn(d, t, WorkflowCycle) && Collides(d, t)
    ensures CleanTable(d, t, more).Err?
  {
    CleanTableUnfolds(d, t, more);
    assert d.tables[t := d.tables[t]] == d.tables;
    CollisionFails(d, t);
  }

  lemma {:induction false} SameOnSameCollision(d: Db, d': Db, t: TableName)
    requires SameOn(d, d', t) && Collides(d, t)
    ensures Collides(d', t)
  {
    var n :| n in d.indexes && d.indexes[n].table == t && d.indexes[n].unique && MeetAtOne(d.tables[t].rows, d.indexes[n].columns);
    assert n in d'.indexes && d'.indexes[n] == d.indexes[n];
  }

  lemma {:induction false} CollisionStopsCleanup(d: Db, t: TableName)
    requires Stuck(d, t)
    ensures Cleanup(d).Err?
  {
    if CleanTable(d, ValidationCases, []).Ok? {
      if ValidationCases in d.tables { CasesStep(d); }
      var d1 := CleanTable(d, ValidationCases, []).value;
      CollisionIsPerTable(d, d1, t);
      if t == ConsultationRequests {
        CollidingTableFails(d1, t, [DedupRequests]);
      } else if CleanTable(d1, ConsultationRequests, [DedupRequests]).Ok? {
        LocalDeletesLead(d1);
        if ConsultationRequests in d1.tables { RequestsStep(d1, REQUESTS_AND_OFFERS); }
        var d2 := CleanTable(d1, ConsultationRequests, [DedupRequests]).value;
        CollisionIsPerTable(d1, d2, t);
        CollidingTableFails(d2, t, [DedupOffers]);
      }
    }
  }

  lemma {:induction false} RenamesKeepStuck(d: Db, t: TableName)
    requires Stuck(d, t) && Renames(d).Ok?
    ensures Stuck(Renames(d).value, t)
  {
    RenamesKeepTable(d, t);
    SameOnSameCollision(d, Renames(d).value, t);
    if t == FinalOffers {
      RenamesKeepLocal(d, ConsultationRequests);
      RenamesKeepLocal(d, FinalOffers);
    }
  }

  /** With or without its renames, no start gets past the cleanup. */
  lemma {:induction false} CollisionStopsStart(target: Schema, d: Db, t: TableName, b: Boot)
    requires Stuck(d, t)
    ensures b.reached >= 1 ==> RunBoot(target, d, b).Err?
    ensures RunBoot(target, d, b).Ok? ==> Stuck(RunBoot(target, d, b).value, t)
  {
    CollisionStopsCleanup(d, t);
    if b.renamed && Renames(d).Ok? {
      RenamesKeepStuck(d, t);
      CollisionStopsCleanup(Renames(d).value, t);
    }
  }

  /** And no series of starts ever does: a crash loop. */
  lemma {:induction false} CollisionStopsEveryStart(target: Schema, d: Db, t: TableName, bs: seq<Boot>)
    requires Stuck(d, t) && exists k :: 0 <= k < |bs| && bs[k].reached >= 1
    ensures RunBoots(target, d, bs).Err?
    decreases |bs|
  {
    CollisionStopsStart(target, d, t, bs[0]);
    if RunBoot(target, d, bs[0]).Ok? {
      var k :| 0 <= k < |bs| && bs[k].reached >= 1;
      assert bs[1..][k - 1] == bs[k];
      CollisionStopsEveryStart(target, RunBoot(target, d, bs[0]).value, t, bs[1..]);
    }
  }

  const SLOT_KEY: seq<Column> := [ValidationCaseId, ValidatorUserId, WorkflowCycle]

  function Slot(cycle: int): Row {
    map[ValidationCaseId := Num(1), ValidatorUserId := Num(1), CreatedAt := Num(0), WorkflowCycle := Num(cycle)]
  }

  function TwoSlots(t: TableName): Db {
    Db(map[ValidationCases := Table({WorkflowCycle, AcceptedFinalOfferId}, map[]), t := Table(RANK_COLUMNS, map[1 := Slot(0), 2 := Slot(1)])],
       {}, map[RequestCaseValidatorCycle := Index(t, SLOT_KEY, true)])
  }

  lemma {:induction false} SlotsMeet()
    ensures
      var rows := map[1 := Slot(0), 2 := Slot(1)];
      UniqueOn(rows, SLOT_KEY) && MeetAtOne(rows, SLOT_KEY)
  {
    var rows := map[1 := Slot(0), 2 := Slot(1)];
    assert SLOT_KEY[2] == WorkflowCycle;
    assert KeyOf(rows[1], SLOT_KEY)[2] != KeyOf(rows[2], SLOT_KEY)[2];
    assert MeetsAtOne(rows, SLOT_KEY, 1, 2);
  }

  lemma {:induction false} TwoSlotsFit(t: TableName)
    requires t in {ConsultationRequests, FinalOffers}
    ensures
      var d := TwoSlots(t);
      && Unblocked(d.foreignKeys, REQUESTS_AND_OFFERS) && ColumnsPresent(d) && Stuck(d, t)
      && IndexesFit(d, ValidationCases) && IndexesFit(d, ConsultationRequests) && IndexesFit(d, FinalOffers)
  {
    SlotsMeet();
    var d, n := TwoSlots(t), RequestCaseValidatorCycle;
    assert d.tables[t].rows == map[1 := Slot(0), 2 := Slot(1)];
    assert n in d.indexes && d.indexes[n].table == t && MeetAtOne(d.tables[t].rows, d.indexes[n].columns);
  }

  /** An input: cycles 0 and 1 of one validator for one case.  Columns, keys and indexes are all in order, the two rows
      are not even duplicates, and yet no start can succeed; the same without the index is cleaned at once. */
  lemma {:induction false} CollisionExample(target: Schema, t: TableName, bs: seq<Boot>)
    requires t in {ConsultationRequests, FinalOffers} && exists k :: 0 <= k < |bs| && bs[k].reached >= 1
    ensures
      var d := TwoSlots(t);
      && Unblocked(d.foreignKeys, REQUESTS_AND_OFFERS) && ColumnsPresent(d) && Stuck(d, t)
      && IndexesFit(d, ValidationCases) && IndexesFit(d, ConsultationRequests) && IndexesFit(d, FinalOffers)
      && RunBoots(target, d, bs).Err?
      && Cleanup(d.(indexes := map[])).Ok?
  {
    TwoSlotsFit(t);
    CollisionStopsEveryStart(target, TwoSlots(t), t, bs);
    CleanupFailsIff(TwoSlots(t).(indexes := map[]), REQUESTS_AND_OFFERS);
  }

  // ---------------------------------------------------------------- data left behind

  /** No table of the target exists yet, and no index. */
  ghost predicate Unprepared(target: Schema, d: Db) {
    d.tables.Keys !! target.tables.Keys && d.indexes == map[]
  }

  lemma {:induction false} FreshSchemaCommits(target: Schema, d: Db)
    requires SelfContained(target) && Unprepared(target, d)
    ensures CreateSchema(target, d).Ok?
  {
    var d1 := d.(tables := CompletedTables(target, d));
    forall t | t in target.tables ensures t in d1.tables && d1.tables[t].rows == map[] {}
    forall fk | fk in MissingKeys(target, d) ensures KeyHolds(d1, fk) {}
  }

  /** On such a database a start without renames completes. */
  lemma {:induction false} FirstStartCompletes(target: Schema, d: Db)
    requires Wanted(target) && SelfContained(target) && Unprepared(target, d)
    ensures RunBoot(target, d, Boot(false, 3)).Ok? && Settled(target, RunBoot(target, d, Boot(false, 3)).value)
  {
    SettledCleanupIsIdentity(d);
    FreshSchemaCommits(target, d);
    MigrationAlwaysCommits(target, d);
    CompletedStartSettles(target, d, Boot(false, 3));
  }

  /** The cases table of that start holds none of the old rows. */
  lemma {:induction false} FirstStartLeavesRows(target: Schema, d: Db)
    requires Wanted(target) && SelfContained(target) && Unprepared(target, d) && Threads in d.tables
    ensures RunBoot(target, d, Boot(false, 3)).Ok?
    ensures
      var d' := RunBoot(target, d, Boot(false, 3)).value;
      && BothCases(d') && d'.tables[Threads] == d.tables[Threads] && d'.tables[ValidationCases].rows == map[]
      && (ThreadCredentials in d'.tables <==> ThreadCredentials in d.tables)
  {
    FirstStartCompletes(target, d);
    SettledCleanupIsIdentity(d);
    MigrationAlwaysCommits(target, d);
  }

  const ONE_THREAD := Db(map[Threads := Table({}, map[7 := map[]])], {}, map[])

  const ONE_CASE := Db(map[ValidationCases := Table({}, map[7 := map[]])], {}, map[])

  lemma {:induction false} OneThreadMoves()
    ensures Renames(ONE_THREAD) == Ok(ONE_CASE)
  {
    var d := TableRenamed(ONE_THREAD, Threads, ValidationCases);
    assert d.tables == ONE_CASE.tables && d.foreignKeys == {} && d.indexes == map[];
    assert d == ONE_CASE;
  }

  lemma {:induction false} OneCaseIsCleaned()
    ensures Cleanup(ONE_CASE) == Ok(Normal(ONE_CASE, ValidationCases))
  {
    CleanupFailsIff(ONE_CASE, REQUESTS_AND_OFFERS);
    CleanTableUnfolds(ONE_CASE, ValidationCases, []);
  }

  lemma {:induction false} NormalCase()
    ensures
      var t := Normal(ONE_CASE, ValidationCases).tables;
      t.Keys == {ValidationCases} && t[ValidationCases].columns == {WorkflowCycle} && t[ValidationCases].rows.Keys == {7}
      && t[ValidationCases].rows[7].Keys == {WorkflowCycle}
  {}

  lemma {:induction false} OneCaseCompleted(target: Schema, t: TableName)
    requires Wanted(target) && t in target.tables
    ensures
      var tables := CompletedTables(target, Normal(ONE_CASE, ValidationCases));
      && t in tables && tables[t].rows.Keys == (if t == ValidationCases then {7} else {})
      && (t == ValidationCases ==> forall c :: c in target.tables[t] && c != WorkflowCycle ==> At(tables[t].rows[7], c) == target.tables[t][c])
  {
    NormalCase();
  }

  lemma {:induction false} OneCaseGetsSchema(target: Schema)
    requires Wanted(target) && SelfContained(target)
    ensures CreateSchema(target, Normal(ONE_CASE, ValidationCases)).Ok?
  {
    var p := Normal(ONE_CASE, ValidationCases);
    var p1 := p.(tables := CompletedTables(target, p));
    forall fk | fk in MissingKeys(target, p) ensures KeyHolds(p1, fk) {
      OneCaseCompleted(target, fk.table);
      OneCaseCompleted(target, fk.target);
    }
    forall n | n in target.indexes ensures target.indexes[n].table in p1.tables && UniqueOn(p1.tables[target.indexes[n].table].rows, target.indexes[n].columns) {
      OneCaseCompleted(target, target.indexes[n].table);
    }
  }

  lemma {:induction false} OneCaseCompletes(target: Schema)
    requires Wanted(target) && SelfContained(target)
    ensures RunBoot(target, ONE_CASE, Boot(false, 3)).Ok?
    ensures
      var d := RunBoot(target, ONE_CASE, Boot(false, 3)).value;
      ValidationCases in d.tables && 7 in d.tables[ValidationCases].rows
  {
    OneCaseIsCleaned();
    OneCaseGetsSchema(target);
    MigrationAlwaysCommits(target, ONE_CASE);
  }

  /** An input: one thread.  A first start that loses its connection during the renames goes on and completes; from
      then on every start succeeds and the thread is never a case.  A single start makes it one. */
  lemma {:induction false} StrandedExample(target: Schema)
    requires Full(target) && SelfContained(target)
    ensures
      var early, bs := [Boot(false, 3)], [Boot(true, 3)];
      && RunBoots(target, ONE_THREAD, early + bs).Ok?
      && var d := RunBoots(target, ONE_THREAD, early + bs).value;
      && BothCases(d) && 7 in d.tables[Threads].rows && 7 !in d.tables[ValidationCases].rows
      && Uninterrupted(target, ONE_THREAD).Ok?
      && var d' := Uninterrupted(target, ONE_THREAD).value;
      && ValidationCases in d'.tables && 7 in d'.tables[ValidationCases].rows
  {
    var early, bs := [Boot(false, 3)], [Boot(true, 3)];
    FirstStartCompletes(target, ONE_THREAD);
    FirstStartLeavesRows(target, ONE_THREAD);
    var d := RunBoot(target, ONE_THREAD, Boot(false, 3)).value;
    LaterStartEffect(target, d, Boot(true, 3));
    OneThreadMoves();
    OneCaseCompletes(target);
    assert (early + bs)[1..] == bs && bs[1..] == [];
    assert RunBoots(target, d, bs) == RunBoot(target, d, Boot(true, 3));
  }

  // ---------------------------------------------------------------- a rename that fails by itself

  /** One thread with one credential, and perhaps a key of the old name. */
  function OneCredential(thread: int, keys: set<ForeignKey>): Db {
    Db(map[Threads := Table({}, map[7 := map[]]), ThreadCredentials := Table({ThreadId}, map[1 := map[ThreadId := Num(thread)]])], keys, map[])
  }

  function OldKeyOn(t: TableName): ForeignKey {
    ForeignKey(ThreadsReceivedCredentials, t, ThreadId, Threads, NoAction)
  }

  /** An input: with its own old key, or with none, the credential moves with its thread. */
  lemma {:induction false} OwnKeyMoves()
    ensures Renames(OneCredential(7, {OldKeyOn(ThreadCredentials)})).Ok? && Renames(OneCredential(7, {})).Ok?
  {
    RenamesCommitIff(OneCredential(7, {OldKeyOn(ThreadCredentials)}));
    RenamesCommitIff(OneCredential(7, {}));
    assert OldKeyOn(ThreadCredentials) in OneCredential(7, {OldKeyOn(ThreadCredentials)}).foreignKeys;
  }

  /** An input: a key of that name on another table.  The renames fail with every round trip working, and the start
      goes on, completes, and leaves the thread behind. */
  lemma {:induction false} ForeignKeyNameExample(target: Schema, t: TableName)
    requires Wanted(target) && SelfContained(target) && t != ThreadCredentials
    ensures
      var d := OneCredential(7, {OldKeyOn(t)});
      Renames(d).Err? && RunBoot(target, d, Boot(false, 3)).Ok? && BothCases(RunBoot(target, d, Boot(false, 3)).value)
  {
    var d := OneCredential(7, {OldKeyOn(t)});
    RenamesCommitIff(d);
    assert OldKeyOn(t) in d.foreignKeys && OldKeyOn(t).name == ThreadsReceivedCredentials;
    FirstStartLeavesRows(target, d);
  }

  /** An input: a credential of a thread that is gone, with no key that forbids it.  The same happens. */
  lemma {:induction false} DanglingCredentialExample(target: Schema)
    requires Wanted(target) && SelfContained(target)
    ensures
      var d := OneCredential(8, {});
      Renames(d).Err? && RunBoot(target, d, Boot(false, 3)).Ok? && BothCases(RunBoot(target, d, Boot(false, 3)).value)
  {
    var d := OneCredential(8, {});
    RenamesCommitIff(d);
    assert 1 in d.tables[ThreadCredentials].rows;
    FirstStartLeavesRows(target, d);
  }
}

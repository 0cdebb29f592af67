/**
 `EntClient.Schema.Create` seen from outside: it adds the tables, columns, foreign keys and
 indexes of the target schema that are missing, keeps every row, and drops nothing.
 Also the effect of the cycle migration on what it leaves.
 */
module SchemaCreate {
  import opened Outcomes
  import opened Relational
  import opened RowNumber
  import opened Statements
  import opened Migrations
  import opened RenameLaws
  import opened CleanupLaws

  /** Columns carry the value that existing rows get when the column is added. */
  datatype Schema = Schema(tables: map<TableName, map<Column, Cell>>, foreignKeys: set<ForeignKey>, indexes: map<IndexName, Index>)

  function Completed(t: Table, spec: map<Column, Cell>): Table {
    Table(t.columns + spec.Keys, map i | i in t.rows :: (spec - t.columns) + t.rows[i])
  }

  function CompletedTables(target: Schema, d: Db): map<TableName, Table> {
    map t | t in d.tables.Keys + target.tables.Keys ::
      if t !in target.tables then d.tables[t]
      else Completed(if t in d.tables then d.tables[t] else Table({}, map[]), target.tables[t])
  }

  function MissingKeys(target: Schema, d: Db): set<ForeignKey> {
    set fk | fk in target.foreignKeys && !HasKeyOn(d, fk.table, fk.name)
  }

  function MissingIndexes(target: Schema, d: Db): map<IndexName, Index> {
    target.indexes - d.indexes.Keys
  }

  function CreateSchema(target: Schema, d: Db): Outcome {
    var d1 := d.(tables := CompletedTables(target, d));
    var keys, indexes := MissingKeys(target, d), MissingIndexes(target, d);
    if exists fk :: fk in keys && !KeyHolds(d1, fk) then Err(ForeignKeyViolation)
    else if exists n :: n in indexes && indexes[n].table !in d1.tables then Err(UndefinedTable)
    else if exists n :: n in indexes && indexes[n].unique && !UniqueOn(d1.tables[indexes[n].table].rows, indexes[n].columns)
    then Err(UniqueViolation)
    else Ok(Db(d1.tables, d.foreignKeys + keys, d.indexes + indexes))
  }

  /** What the generated schema promises the migrations: the three workflow tables with the columns the
      statements name, nothing under a legacy name, and the two cycle indexes as the migration declares them. */
  ghost predicate Wanted(target: Schema) {
    && {ValidationCases, ConsultationRequests, FinalOffers} <= target.tables.Keys
    && {WorkflowCycle, AcceptedFinalOfferId} <= target.tables[ValidationCases].Keys
    && RANK_COLUMNS + {Status} <= target.tables[ConsultationRequests].Keys
    && RANK_COLUMNS <= target.tables[FinalOffers].Keys
    && {Threads, TagThreads, ThreadCredentials} !! target.tables.Keys
    && (TagValidationCases in target.tables ==> ThreadId !in target.tables[TagValidationCases])
    && (forall fk :: fk in target.foreignKeys ==> fk.table != ThreadCredentials)
    && RequestCaseValidator !in target.indexes
    && (RequestCaseValidatorCycle in target.indexes ==> target.indexes[RequestCaseValidatorCycle] == REQUEST_INDEX)
    && (OfferCaseValidatorCycle in target.indexes ==> target.indexes[OfferCaseValidatorCycle] == OFFER_INDEX)
  }

  /** And further: the tag join table under its new name with its new column, no key that bears the name of a credential
      key, and no key onto requests or offers. */
  ghost predicate Full(target: Schema) {
    && Wanted(target)
    && TagValidationCases in target.tables && ValidationCaseId in target.tables[TagValidationCases]
    && (forall fk :: fk in target.foreignKeys ==>
          && fk.name != ThreadsReceivedCredentials && fk.name != CasesReceivedCredentials
          && fk.target != ConsultationRequests && fk.target != FinalOffers)
  }

  /** Keys and indexes only involve tables of the target itself; a key column is not the cycle and starts out as NULL. */
  ghost predicate SelfContained(target: Schema) {
    && (forall fk :: fk in target.foreignKeys ==>
          && fk.table in target.tables && fk.target in target.tables
          && fk.column != WorkflowCycle && fk.column in target.tables[fk.table] && target.tables[fk.table][fk.column] == Null)
    && (forall n :: n in target.indexes ==> target.indexes[n].table in target.tables)
  }

  /** Every part of the target is present. */
  ghost predicate SchemaSettled(target: Schema, d: Db) {
    && (forall t :: t in target.tables ==> t in d.tables && target.tables[t].Keys <= d.tables[t].columns)
    && MissingKeys(target, d) == {}
    && target.indexes.Keys <= d.indexes.Keys
  }

  lemma {:induction false} SchemaSettles(target: Schema, d: Db)
    requires CreateSchema(target, d).Ok?
    ensures SchemaSettled(target, CreateSchema(target, d).value)
  {
    var d' := CreateSchema(target, d).value;
    forall fk | fk in target.foreignKeys ensures HasKeyOn(d', fk.table, fk.name) {
      if HasKeyOn(d, fk.table, fk.name) {
        var k :| k in d.foreignKeys && k.table == fk.table && k.name == fk.name;
        assert k in d'.foreignKeys;
      } else {
        assert fk in MissingKeys(target, d) && fk in d'.foreignKeys;
      }
    }
  }

  lemma {:induction false} SettledSchemaIsIdentity(target: Schema, d: Db)
    requires SchemaSettled(target, d)
    ensures CreateSchema(target, d) == Ok(d)
  {
    forall t | t in target.tables ensures Completed(d.tables[t], target.tables[t]) == d.tables[t] {
      assert target.tables[t] - d.tables[t].columns == map[];
      forall i | i in d.tables[t].rows
        ensures (target.tables[t] - d.tables[t].columns) + d.tables[t].rows[i] == d.tables[t].rows[i] {}
      assert d.tables[t].columns + target.tables[t].Keys == d.tables[t].columns;
    }
    assert CompletedTables(target, d) == d.tables;
    assert MissingIndexes(target, d) == map[];
    assert d.foreignKeys + {} == d.foreignKeys && d.indexes + map[] == d.indexes;
  }

  /** Rows survive: same ids, and every cell of a column that already existed is as before. */
  lemma {:induction false} SchemaKeepsRows(target: Schema, d: Db, t: TableName, i: int, c: Column)
    requires CreateSchema(target, d).Ok? && t in d.tables
    ensures
      var d' := CreateSchema(target, d).value;
      && t in d'.tables && d'.tables[t].rows.Keys == d.tables[t].rows.Keys
      && d.tables[t].columns <= d'.tables[t].columns
      && (i in d.tables[t].rows && c in d.tables[t].columns ==> At(d'.tables[t].rows[i], c) == At(d.tables[t].rows[i], c))
  {}

  lemma {:induction false} SchemaKeepsRenames(target: Schema, d: Db)
    requires Wanted(target) && RenameSettled(d) && CreateSchema(target, d).Ok?
    ensures RenameSettled(CreateSchema(target, d).value)
  {
    var d' := CreateSchema(target, d).value;
    if HasColumn(d, ThreadCredentials, ThreadId) {
      var fk :| fk in d.foreignKeys && fk.name == CasesReceivedCredentials;
      assert fk in d'.foreignKeys;
    }
  }

  lemma {:induction false} CompletedKeepsSlots(t: Table, spec: map<Column, Cell>, i: int, j: int)
    requires RANK_COLUMNS <= t.columns && i in t.rows && j in t.rows
    ensures
      var rows := Completed(t, spec).rows;
      SameSlot(rows[i], rows[j]) <==> SameSlot(t.rows[i], t.rows[j])
  {
    var rows := Completed(t, spec).rows;
    forall k, c | k in t.rows && c in RANK_COLUMNS ensures At(rows[k], c) == At(t.rows[k], c) {}
  }

  lemma {:induction false} SchemaKeepsClean(target: Schema, d: Db)
    requires Wanted(target) && CleanSettled(d) && CreateSchema(target, d).Ok?
    ensures CleanSettled(CreateSchema(target, d).value)
  {
    var d' := CreateSchema(target, d).value;
    forall t | t in {ConsultationRequests, FinalOffers} ensures TableDeduped(d', t) {
      if t in d.tables {
        var rows := d'.tables[t].rows;
        forall i, j | i in rows && j in rows && SameSlot(rows[i], rows[j]) ensures i == j {
          CompletedKeepsSlots(d.tables[t], target.tables[t], i, j);
        }
      }
    }
    forall t | t in {ValidationCases, ConsultationRequests, FinalOffers} ensures TableRaised(d', t) {
      if t in d.tables {
        forall i | i in d.tables[t].rows ensures At(d'.tables[t].rows[i], WorkflowCycle) == At(d.tables[t].rows[i], WorkflowCycle) {
          SchemaKeepsRows(target, d, t, i, WorkflowCycle);
        }
      }
    }
  }

  // ---------------------------------------------------------------- the cycle migration on a clean, complete database

  function Ensured(indexes: map<IndexName, Index>, n: IndexName, index: Index): map<IndexName, Index> {
    if n in indexes then indexes else indexes[n := index]
  }

  function MigratedIndexes(indexes: map<IndexName, Index>): map<IndexName, Index> {
    var i1 := Ensured(indexes - {RequestCaseValidator}, RequestCaseValidatorCycle, REQUEST_INDEX);
    var i2 := Ensured(i1, RequestCaseCycle, Index(ConsultationRequests, [ValidationCaseId, WorkflowCycle], false));
    var i3 := Ensured(i2, RequestValidatorStatusCycle, Index(ConsultationRequests, [ValidatorUserId, Status, WorkflowCycle], false));
    Ensured(i3, OfferCaseValidatorCycle, OFFER_INDEX)
  }

  ghost predicate Complete(d: Db) {
    && ValidationCases in d.tables && ConsultationRequests in d.tables && FinalOffers in d.tables
    && Status in d.tables[ConsultationRequests].columns
  }

  lemma {:induction false} RaisedStatementsAreNoOps(d: Db, t: TableName)
    requires t in d.tables && TableRaised(d, t)
    ensures Apply(AddColumnIfMissing(t, WorkflowCycle), d) == Ok(d) && Apply(RaiseToOne(t, WorkflowCycle), d) == Ok(d)
  {
    assert d.tables[t := d.tables[t]] == d.tables;
    var rows := d.tables[t].rows;
    forall i | i in rows ensures Raised(rows, WorkflowCycle)[i] == rows[i] {}
    assert Raised(rows, WorkflowCycle) == rows;
  }

  lemma {:induction false} CycleStatementsAreNoOps(d: Db)
    requires CleanSettled(d) && Complete(d)
    ensures ApplyAll(CYCLE_STATEMENTS, d) == Ok(d)
  {
    RaisedStatementsAreNoOps(d, ValidationCases);
    RaisedStatementsAreNoOps(d, ConsultationRequests);
    RaisedStatementsAreNoOps(d, FinalOffers);
    NoOps(CYCLE_STATEMENTS, d);
  }

  lemma {:induction false} NoOps(ss: seq<Stmt>, d: Db)
    requires forall k :: 0 <= k < |ss| ==> Apply(ss[k], d) == Ok(d)
    ensures ApplyAll(ss, d) == Ok(d)
  {
    if ss != [] {
      forall k | 0 <= k < |ss| - 1 ensures Apply(ss[1..][k], d) == Ok(d) { assert ss[1..][k] == ss[k + 1]; }
      NoOps(ss[1..], d);
    }
  }

  lemma {:induction false} IndexStep(d: Db, n: IndexName, index: Index, rest: seq<Stmt>)
    requires index.table in d.tables && (forall c :: c in index.columns ==> c in d.tables[index.table].columns)
    requires index.unique ==> UniqueOn(d.tables[index.table].rows, index.columns)
    ensures ApplyAll([CreateIndexIfMissing(n, index)] + rest, d) == ApplyAll(rest, d.(indexes := Ensured(d.indexes, n, index)))
  {
    ApplyAllUnfolds(CreateIndexIfMissing(n, index), rest, d);
  }

  lemma {:induction false} DedupedIsUnique(rows: map<int, Row>)
    requires OneRowPerSlot(rows)
    ensures UniqueOn(rows, CYCLE_KEY)
  {
    forall i, j | i in rows && j in rows && i != j ensures KeyOf(rows[i], CYCLE_KEY) != KeyOf(rows[j], CYCLE_KEY) {
      SlotIsKey(rows[i], rows[j]);
    }
  }

  /** Once the cleanup has run, the normalising updates change nothing, the unique indexes can be built,
      and the migration's whole effect is on the index catalogue. */
  lemma {:induction false} MigrationEffect(d: Db)
    requires CleanSettled(d) && Complete(d)
    ensures CycleMigrations(d) == Ok(d.(indexes := MigratedIndexes(d.indexes)))
  {
    CycleStatementsAreNoOps(d);
    var d2 := d.(indexes := d.indexes - {RequestCaseValidator});
    assert RequestCaseValidator !in d.indexes ==> d2 == d;
    DedupedIsUnique(d.tables[ConsultationRequests].rows);
    DedupedIsUnique(d.tables[FinalOffers].rows);
    var s := INDEX_STATEMENTS;
    assert s == [s[0]] + ([s[1]] + ([s[2]] + ([s[3]] + [])));
    var i1 := Ensured(d2.indexes, RequestCaseValidatorCycle, REQUEST_INDEX);
    var i2 := Ensured(i1, RequestCaseCycle, s[1].on);
    var i3 := Ensured(i2, RequestValidatorStatusCycle, s[2].on);
    IndexStep(d2, RequestCaseValidatorCycle, REQUEST_INDEX, [s[1]] + ([s[2]] + ([s[3]] + [])));
    IndexStep(d2.(indexes := i1), RequestCaseCycle, s[1].on, [s[2]] + ([s[3]] + []));
    IndexStep(d2.(indexes := i2), RequestValidatorStatusCycle, s[2].on, [s[3]] + []);
    IndexStep(d2.(indexes := i3), OfferCaseValidatorCycle, OFFER_INDEX, []);
  }

  ghost predicate MigrationSettled(d: Db) {
    && RequestCaseValidator !in d.indexes
    && {RequestCaseValidatorCycle, RequestCaseCycle, RequestValidatorStatusCycle, OfferCaseValidatorCycle} <= d.indexes.Keys
  }

  /** The index catalogue reaches its final form in one run. */
  lemma {:induction false} MigrationSettles(d: Db)
    requires CleanSettled(d) && Complete(d)
    ensures CycleMigrations(d).Ok? && MigrationSettled(CycleMigrations(d).value)
    ensures MigrationSettled(d) ==> CycleMigrations(d) == Ok(d)
  {
    MigrationEffect(d);
    assert RequestCaseValidator !in d.indexes ==> d.indexes - {RequestCaseValidator} == d.indexes;
  }

  // ---------------------------------------------------------------- the cycle migration on any database

  lemma {:induction false} CreatedIndex(n: IndexName, index: Index, rest: seq<Stmt>, d: Db)
    requires ApplyAll([CreateIndexIfMissing(n, index)] + rest, d).Ok?
    ensures
      var d' := d.(indexes := Ensured(d.indexes, n, index));
      ApplyAll(rest, d').Ok? && ApplyAll([CreateIndexIfMissing(n, index)] + rest, d) == ApplyAll(rest, d')
  {
    ApplyAllUnfolds(CreateIndexIfMissing(n, index), rest, d);
  }

  lemma {:induction false} CreatedIndexes(d: Db)
    requires RequestCaseValidator !in d.indexes && ApplyAll(INDEX_STATEMENTS, d).Ok?
    ensures ApplyAll(INDEX_STATEMENTS, d).value == d.(indexes := MigratedIndexes(d.indexes))
  {
    var s := INDEX_STATEMENTS;
    assert s == [s[0]] + ([s[1]] + ([s[2]] + ([s[3]] + [])));
    assert d.indexes - {RequestCaseValidator} == d.indexes;
    var i1 := Ensured(d.indexes, RequestCaseValidatorCycle, REQUEST_INDEX);
    var i2 := Ensured(i1, RequestCaseCycle, s[1].on);
    var i3 := Ensured(i2, RequestValidatorStatusCycle, s[2].on);
    CreatedIndex(RequestCaseValidatorCycle, REQUEST_INDEX, [s[1]] + ([s[2]] + ([s[3]] + [])), d);
    CreatedIndex(RequestCaseCycle, s[1].on, [s[2]] + ([s[3]] + []), d.(indexes := i1));
    CreatedIndex(RequestValidatorStatusCycle, s[2].on, [s[3]] + [], d.(indexes := i2));
    CreatedIndex(OfferCaseValidatorCycle, OFFER_INDEX, [], d.(indexes := i3));
  }

  lemma {:induction false} Widened(t: TableName, rest: seq<Stmt>, d: Db)
    requires ApplyAll([AddColumnIfMissing(t, WorkflowCycle)] + rest, d).Ok?
    ensures t in d.tables
    ensures
      var d' := d.(tables := d.tables[t := WithColumn(d.tables[t], WorkflowCycle, Num(1))]);
      ApplyAll(rest, d').Ok? && ApplyAll([AddColumnIfMissing(t, WorkflowCycle)] + rest, d) == ApplyAll(rest, d')
  {
    ApplyAllUnfolds(AddColumnIfMissing(t, WorkflowCycle), rest, d);
  }

  lemma {:induction false} RaisedRows(t: TableName, rest: seq<Stmt>, d: Db)
    requires ApplyAll([RaiseToOne(t, WorkflowCycle)] + rest, d).Ok?
    ensures t in d.tables
    ensures
      var d' := d.(tables := d.tables[t := d.tables[t].(rows := Raised(d.tables[t].rows, WorkflowCycle))]);
      ApplyAll(rest, d').Ok? && ApplyAll([RaiseToOne(t, WorkflowCycle)] + rest, d) == ApplyAll(rest, d')
  {
    ApplyAllUnfolds(RaiseToOne(t, WorkflowCycle), rest, d);
  }

  function NormalTable(t: Table): Table {
    Table(t.columns + {WorkflowCycle}, NormalRows(t))
  }

  const RAISING: seq<Stmt> :=
    [RaiseToOne(ValidationCases, WorkflowCycle), RaiseToOne(ConsultationRequests, WorkflowCycle), RaiseToOne(FinalOffers, WorkflowCycle)]

  function WidenedTable(t: Table): Table { WithColumn(t, WorkflowCycle, Num(1)) }
  function RaisedTable(t: Table): Table { t.(rows := Raised(t.rows, WorkflowCycle)) }

  /** d with new contents for the three workflow tables. */
  function WithThree(d: Db, cases: Table, requests: Table, offers: Table): Db {
    d.(tables := d.tables[ValidationCases := cases][ConsultationRequests := requests][FinalOffers := offers])
  }

  ghost predicate HasThree(d: Db) {
    ValidationCases in d.tables && ConsultationRequests in d.tables && FinalOffers in d.tables
  }

  lemma {:induction false} AllWidened(d: Db)
    requires ApplyAll(CYCLE_STATEMENTS, d).Ok?
    ensures HasThree(d)
    ensures
      var w := WithThree(d, WidenedTable(d.tables[ValidationCases]), WidenedTable(d.tables[ConsultationRequests]), WidenedTable(d.tables[FinalOffers]));
      ApplyAll(CYCLE_STATEMENTS, d) == ApplyAll(RAISING, w)
  {
    var s := CYCLE_STATEMENTS;
    assert s == [s[0]] + ([s[1]] + ([s[2]] + RAISING));
    Widened(ValidationCases, [s[1]] + ([s[2]] + RAISING), d);
    var d1 := d.(tables := d.tables[ValidationCases := WidenedTable(d.tables[ValidationCases])]);
    Widened(ConsultationRequests, [s[2]] + RAISING, d1);
    var d2 := d1.(tables := d1.tables[ConsultationRequests := WidenedTable(d1.tables[ConsultationRequests])]);
    Widened(FinalOffers, RAISING, d2);
  }

  lemma {:induction false} AllRaised(d: Db)
    requires ApplyAll(RAISING, d).Ok?
    ensures HasThree(d)
    ensures ApplyAll(RAISING, d).value
         == WithThree(d, RaisedTable(d.tables[ValidationCases]), RaisedTable(d.tables[ConsultationRequests]), RaisedTable(d.tables[FinalOffers]))
  {
    var s := RAISING;
    assert s == [s[0]] + ([s[1]] + ([s[2]] + []));
    RaisedRows(ValidationCases, [s[1]] + ([s[2]] + []), d);
    var d1 := d.(tables := d.tables[ValidationCases := RaisedTable(d.tables[ValidationCases])]);
    RaisedRows(ConsultationRequests, [s[2]] + [], d1);
    var d2 := d1.(tables := d1.tables[ConsultationRequests := RaisedTable(d1.tables[ConsultationRequests])]);
    RaisedRows(FinalOffers, [], d2);
  }

  lemma {:induction false} CycleStatementsNormalise(d: Db)
    requires ApplyAll(CYCLE_STATEMENTS, d).Ok?
    ensures HasThree(d)
    ensures ApplyAll(CYCLE_STATEMENTS, d).value
         == WithThree(d, NormalTable(d.tables[ValidationCases]), NormalTable(d.tables[ConsultationRequests]), NormalTable(d.tables[FinalOffers]))
  {
    AllWidened(d);
    var w := WithThree(d, WidenedTable(d.tables[ValidationCases]), WidenedTable(d.tables[ConsultationRequests]), WidenedTable(d.tables[FinalOffers]));
    AllRaised(w);
    WidenedThenRaised(d.tables[ValidationCases]);
    WidenedThenRaised(d.tables[ConsultationRequests]);
    WidenedThenRaised(d.tables[FinalOffers]);
    OverwritesThree(d, w, NormalTable(d.tables[ValidationCases]), NormalTable(d.tables[ConsultationRequests]), NormalTable(d.tables[FinalOffers]));
  }

  lemma {:induction false} OverwritesThree(d: Db, w: Db, cases: Table, requests: Table, offers: Table)
    requires HasThree(d) && HasThree(w) && w == WithThree(d, w.tables[ValidationCases], w.tables[ConsultationRequests], w.tables[FinalOffers])
    ensures WithThree(w, cases, requests, offers) == WithThree(d, cases, requests, offers)
  {
    assert WithThree(w, cases, requests, offers).tables == WithThree(d, cases, requests, offers).tables;
  }

  lemma {:induction false} WidenedThenRaised(t: Table)
    ensures RaisedTable(WidenedTable(t)) == NormalTable(t)
  {
    assert WorkflowCycle in t.columns ==> t.columns + {WorkflowCycle} == t.columns;
  }

  /** The legacy index is gone, every other index is as before, and the four new ones are there, over exactly these
      columns where their names were free. */
  ghost predicate Catalogue(before: map<IndexName, Index>, after: map<IndexName, Index>) {
    && after.Keys == before.Keys - {RequestCaseValidator}
                     + {RequestCaseValidatorCycle, RequestCaseCycle, RequestValidatorStatusCycle, OfferCaseValidatorCycle}
    && (forall n :: n in before && n != RequestCaseValidator ==> after[n] == before[n])
    && (RequestCaseValidatorCycle !in before ==>
          after[RequestCaseValidatorCycle] == Index(ConsultationRequests, [ValidationCaseId, ValidatorUserId, WorkflowCycle], true))
    && (OfferCaseValidatorCycle !in before ==>
          after[OfferCaseValidatorCycle] == Index(FinalOffers, [ValidationCaseId, ValidatorUserId, WorkflowCycle], true))
    && (RequestCaseCycle !in before ==>
          after[RequestCaseCycle] == Index(ConsultationRequests, [ValidationCaseId, WorkflowCycle], false))
    && (RequestValidatorStatusCycle !in before ==>
          after[RequestValidatorStatusCycle] == Index(ConsultationRequests, [ValidatorUserId, Status, WorkflowCycle], false))
  }

  lemma {:induction false} MigratedCatalogue(indexes: map<IndexName, Index>)
    ensures Catalogue(indexes, MigratedIndexes(indexes))
  {}

  lemma {:induction false} MigrationIs(d: Db)
    requires CycleMigrations(d).Ok?
    ensures ApplyAll(CYCLE_STATEMENTS, d).Ok?
    ensures CycleMigrations(d).value == ApplyAll(CYCLE_STATEMENTS, d).value.(indexes := MigratedIndexes(d.indexes))
  {
    CycleStatementsNormalise(d);
    var d1 := ApplyAll(CYCLE_STATEMENTS, d).value;
    var d2 := d1.(indexes := d1.indexes - {RequestCaseValidator});
    assert RequestCaseValidator !in d1.indexes ==> d2 == d1;
    CreatedIndexes(d2);
    assert d2.indexes - {RequestCaseValidator} == d2.indexes;
  }

  /** The whole effect of a committed cycle migration, on any database: the three workflow tables are normalised, no
      other table and no key changes, and the index catalogue is the one described above. */
  lemma {:induction false} MigrationMeans(d: Db)
    requires CycleMigrations(d).Ok?
    ensures
      var d' := CycleMigrations(d).value;
      && {ValidationCases, ConsultationRequests, FinalOffers} <= d.tables.Keys && d'.tables.Keys == d.tables.Keys
      && (forall t :: t in d.tables ==>
            d'.tables[t] == if t in {ValidationCases, ConsultationRequests, FinalOffers} then NormalTable(d.tables[t]) else d.tables[t])
      && d'.foreignKeys == d.foreignKeys && Catalogue(d.indexes, d'.indexes)
  {
    MigrationIs(d);
    CycleStatementsNormalise(d);
    MigratedCatalogue(d.indexes);
  }
}

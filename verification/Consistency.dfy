/**
 Integrity over whole histories: every statement, every start and every accepted write keeps rows in the shape of
 their table, foreign keys satisfied and unique indexes unique.
 */
module Consistency {
  import opened Outcomes
  import opened Relational
  import opened RowNumber
  import opened Statements
  import opened Migrations
  import opened CleanupLaws
  import opened SchemaCreate
  import opened Boots
  import opened Safety

  ghost predicate RowsFit(d: Db) {
    forall t, i :: t in d.tables && i in d.tables[t].rows ==> d.tables[t].rows[i].Keys == d.tables[t].columns
  }

  /** The key holds, over a column that exists; no key of this schema is on workflow_cycle. */
  ghost predicate KeyFits(d: Db, fk: ForeignKey) {
    KeyHolds(d, fk) && fk.column in d.tables[fk.table].columns && fk.column != WorkflowCycle
  }

  ghost predicate IndexFits(d: Db, idx: Index) {
    && idx.table in d.tables
    && (forall c :: c in idx.columns ==> c in d.tables[idx.table].columns)
    && (idx.unique ==> UniqueOn(d.tables[idx.table].rows, idx.columns))
  }

  ghost predicate Consistent(d: Db) {
    && RowsFit(d)
    && (forall fk :: fk in d.foreignKeys ==> KeyFits(d, fk))
    && (forall n :: n in d.indexes ==> IndexFits(d, d.indexes[n]))
  }

  // ---------------------------------------------------------------- renames

  lemma {:induction false} TableRenameKeeps(d: Db, from: TableName, to: TableName)
    requires Consistent(d) && from in d.tables && to !in d.tables
    ensures Consistent(TableRenamed(d, from, to))
  {
    var d' := TableRenamed(d, from, to);
    forall t | t in d.tables ensures RenamedRef(t, from, to) in d'.tables && d'.tables[RenamedRef(t, from, to)] == d.tables[t] {}
    forall fk' | fk' in d'.foreignKeys ensures KeyFits(d', fk') {
      var fk :| fk in d.foreignKeys && fk' == TableInKey(fk, from, to);
      assert KeyFits(d, fk);
    }
    forall n | n in d'.indexes ensures IndexFits(d', d'.indexes[n]) {
      assert IndexFits(d, d.indexes[n]);
    }
  }

  lemma {:induction false} RenamedRowKeepsKey(row: Row, columns: seq<Column>, from: Column, to: Column)
    requires from in row && to !in row && forall c :: c in columns ==> c in row
    ensures KeyOf(RowRenamed(row, from, to), ColumnsRenamed(columns, from, to)) == KeyOf(row, columns)
  {
    var cs := ColumnsRenamed(columns, from, to);
    forall k | 0 <= k < |columns| ensures At(RowRenamed(row, from, to), cs[k]) == At(row, columns[k]) {
      assert columns[k] in columns;
    }
  }

  lemma {:induction false} RenamedRowsStayUnique(t: Table, columns: seq<Column>, from: Column, to: Column)
    requires from in t.columns && to !in t.columns && (forall i :: i in t.rows ==> t.rows[i].Keys == t.columns)
    requires (forall c :: c in columns ==> c in t.columns) && UniqueOn(t.rows, columns)
    ensures UniqueOn(TableWithColumnRenamed(t, from, to).rows, ColumnsRenamed(columns, from, to))
  {
    var rows' := TableWithColumnRenamed(t, from, to).rows;
    forall i | i in t.rows ensures KeyOf(rows'[i], ColumnsRenamed(columns, from, to)) == KeyOf(t.rows[i], columns) {
      RenamedRowKeepsKey(t.rows[i], columns, from, to);
    }
  }

  lemma {:induction false} RenamedKeyFits(d: Db, t: TableName, from: Column, to: Column, fk: ForeignKey)
    requires RowsFit(d) && KeyFits(d, fk) && HasColumn(d, t, from) && to !in d.tables[t].columns && to != WorkflowCycle
    ensures KeyFits(ColumnRenamed(d, t, from, to), ColumnInKey(fk, t, from, to))
  {
    var d', fk' := ColumnRenamed(d, t, from, to), ColumnInKey(fk, t, from, to);
    if fk.table == t {
      forall i | i in d.tables[t].rows ensures At(d'.tables[t].rows[i], fk'.column) == At(d.tables[t].rows[i], fk.column) {
        assert d.tables[t].rows[i].Keys == d.tables[t].columns;
      }
    }
  }

  lemma {:induction false} RenamedIndexFits(d: Db, t: TableName, from: Column, to: Column, n: IndexName)
    requires RowsFit(d) && n in d.indexes && IndexFits(d, d.indexes[n]) && HasColumn(d, t, from) && to !in d.tables[t].columns
    ensures IndexFits(ColumnRenamed(d, t, from, to), ColumnRenamed(d, t, from, to).indexes[n])
  {
    var idx := d.indexes[n];
    var d' := ColumnRenamed(d, t, from, to);
    if idx.table == t {
      if idx.unique { RenamedRowsStayUnique(d.tables[t], idx.columns, from, to); }
      forall c | c in d'.indexes[n].columns ensures c in d'.tables[t].columns {
        var k :| 0 <= k < |idx.columns| && ColumnsRenamed(idx.columns, from, to)[k] == c;
        assert idx.columns[k] in idx.columns;
      }
    }
  }

  lemma {:induction false} ColumnRenameKeeps(d: Db, t: TableName, from: Column, to: Column)
    requires Consistent(d) && HasColumn(d, t, from) && to !in d.tables[t].columns && to != WorkflowCycle
    ensures Consistent(ColumnRenamed(d, t, from, to))
  {
    var d' := ColumnRenamed(d, t, from, to);
    forall fk' | fk' in d'.foreignKeys ensures KeyFits(d', fk') {
      var fk :| fk in d.foreignKeys && fk' == ColumnInKey(fk, t, from, to);
      RenamedKeyFits(d, t, from, to, fk);
    }
    forall n | n in d'.indexes ensures IndexFits(d', d'.indexes[n]) { RenamedIndexFits(d, t, from, to, n); }
    forall i | i in d'.tables[t].rows ensures d'.tables[t].rows[i].Keys == d'.tables[t].columns {
      assert d.tables[t].rows[i].Keys == d.tables[t].columns;
    }
  }

  lemma {:induction false} NormaliseKeeps(d: Db)
    requires Consistent(d) && NormaliseCredentialKey(d).Ok?
    ensures Consistent(NormaliseCredentialKey(d).value)
  {
    if HasColumn(d, ThreadCredentials, ThreadId) {
      var d1 := ApplyIf(HasKey(d, ThreadsReceivedCredentials), DropConstraint(ThreadCredentials, ThreadsReceivedCredentials), d).value;
      SameRowsKeep(d, d1);
      if !HasKey(d1, CasesReceivedCredentials) {
        var d2 := NormaliseCredentialKey(d).value;
        assert d2 == d1.(foreignKeys := d1.foreignKeys + {CREDENTIAL_KEY});
        assert KeyHolds(d1, CREDENTIAL_KEY) && KeyHolds(d2, CREDENTIAL_KEY);
        forall fk | fk in d1.foreignKeys ensures KeyFits(d2, fk) { assert KeyFits(d1, fk); }
        forall n | n in d2.indexes ensures IndexFits(d2, d2.indexes[n]) { assert IndexFits(d1, d1.indexes[n]); }
      }
    }
  }

  /** Dropping keys or indexes breaks nothing. */
  lemma {:induction false} SameRowsKeep(d: Db, d': Db)
    requires Consistent(d) && d'.tables == d.tables && d'.foreignKeys <= d.foreignKeys
    requires d'.indexes.Keys <= d.indexes.Keys && forall n :: n in d'.indexes ==> d'.indexes[n] == d.indexes[n]
    ensures Consistent(d')
  {
    forall fk | fk in d'.foreignKeys ensures KeyFits(d', fk) { assert KeyFits(d, fk); }
    forall n | n in d'.indexes ensures IndexFits(d', d'.indexes[n]) { assert IndexFits(d, d.indexes[n]); }
  }

  lemma {:induction false} RenamesKeep(d: Db)
    requires Consistent(d) && Renames(d).Ok?
    ensures Consistent(Renames(d).value)
  {
    var g1 := Threads in d.tables && ValidationCases !in d.tables;
    var d1 := ApplyIf(g1, RenameTable(Threads, ValidationCases), d).value;
    if g1 { TableRenameKeeps(d, Threads, ValidationCases); }
    var g2 := TagThreads in d1.tables && TagValidationCases !in d1.tables;
    var d2 := ApplyIf(g2, RenameTable(TagThreads, TagValidationCases), d1).value;
    if g2 { TableRenameKeeps(d1, TagThreads, TagValidationCases); }
    var g3 := HasColumn(d2, TagValidationCases, ThreadId) && !HasColumn(d2, TagValidationCases, ValidationCaseId);
    var d3 := ApplyIf(g3, RenameColumn(TagValidationCases, ThreadId, ValidationCaseId), d2).value;
    if g3 { ColumnRenameKeeps(d2, TagValidationCases, ThreadId, ValidationCaseId); }
    NormaliseKeeps(d3);
  }

  // ---------------------------------------------------------------- rows that change in place

  /** Table t is rewritten row by row: same ids, at least the same columns, and every cell outside workflow_cycle
      that existed is unchanged. */
  ghost predicate Rewritten(d: Db, d': Db, t: TableName) {
    && t in d.tables && d'.foreignKeys == d.foreignKeys && d'.indexes == d.indexes && d'.tables.Keys == d.tables.Keys
    && (forall n :: n in d.tables && n != t ==> d'.tables[n] == d.tables[n])
    && d'.tables[t].rows.Keys == d.tables[t].rows.Keys && d.tables[t].columns <= d'.tables[t].columns
    && (forall i :: i in d.tables[t].rows ==> d'.tables[t].rows[i].Keys == d'.tables[t].columns)
    && (forall i, c :: i in d.tables[t].rows && c in d.tables[t].columns && c != WorkflowCycle ==>
          At(d'.tables[t].rows[i], c) == At(d.tables[t].rows[i], c))
  }

  lemma {:induction false} RewrittenKeysFit(d: Db, d': Db, t: TableName, fk: ForeignKey)
    requires Rewritten(d, d', t) && KeyFits(d, fk)
    ensures KeyFits(d', fk)
  {}

  lemma {:induction false} RewriteKeeps(d: Db, d': Db, t: TableName)
    requires Consistent(d) && Rewritten(d, d', t)
    requires forall n :: n in d.indexes && d.indexes[n].table == t && d.indexes[n].unique ==> UniqueOn(d'.tables[t].rows, d.indexes[n].columns)
    ensures Consistent(d')
  {
    forall fk | fk in d'.foreignKeys ensures KeyFits(d', fk) { RewrittenKeysFit(d, d', t, fk); }
    forall n | n in d'.indexes ensures IndexFits(d', d'.indexes[n]) { assert IndexFits(d, d.indexes[n]); }
  }

  lemma {:induction false} WidenKeeps(d: Db, t: TableName)
    requires Consistent(d) && t in d.tables
    ensures Consistent(Apply(AddColumnIfMissing(t, WorkflowCycle), d).value)
  {
    var d' := Apply(AddColumnIfMissing(t, WorkflowCycle), d).value;
    if WorkflowCycle in d.tables[t].columns {
      assert d'.tables == d.tables;
    } else {
      var rows, rows' := d.tables[t].rows, d'.tables[t].rows;
      forall n | n in d.indexes && d.indexes[n].table == t && d.indexes[n].unique ensures UniqueOn(rows', d.indexes[n].columns) {
        assert IndexFits(d, d.indexes[n]);
        forall i | i in rows ensures KeyOf(rows'[i], d.indexes[n].columns) == KeyOf(rows[i], d.indexes[n].columns) {}
      }
      RewriteKeeps(d, d', t);
    }
  }

  lemma {:induction false} RaiseKeeps(d: Db, t: TableName)
    requires Consistent(d) && Apply(RaiseToOne(t, WorkflowCycle), d).Ok?
    ensures Consistent(Apply(RaiseToOne(t, WorkflowCycle), d).value)
  {
    var d' := Apply(RaiseToOne(t, WorkflowCycle), d).value;
    if d' != d {
      assert IndexesHold(d', t);
      forall i | i in d.tables[t].rows ensures d'.tables[t].rows[i].Keys == d'.tables[t].columns {
        assert d.tables[t].rows[i].Keys == d.tables[t].columns;
      }
      RewriteKeeps(d, d', t);
    }
  }

  // ---------------------------------------------------------------- deletes, schema creation, writes

  lemma {:induction false} ShrinkKeepsIndexes(d: Db, d': Db, idx: Index)
    requires Shrinks(d, d') && IndexFits(d, idx)
    ensures IndexFits(d', idx)
  {}

  /** Deleting never leaves a dangling reference: a cascade takes the referencing row, NO ACTION refuses. */
  lemma {:induction false} DeleteKeeps(d: Db, t: TableName, ids: set<int>)
    requires Consistent(d) && DeleteRows(d, t, ids).Ok?
    ensures Consistent(DeleteRows(d, t, ids).value)
  {
    var doomed := CascadeFrom(d, RefsTo(t, ids));
    var d' := DeleteRows(d, t, ids).value;
    DeleteShrinks(d, t, ids);
    forall fk | fk in d'.foreignKeys ensures KeyFits(d', fk) {
      assert KeyFits(d, fk) && !Blocks(d, fk, doomed);
      forall i | i in d'.tables[fk.table].rows && At(d'.tables[fk.table].rows[i], fk.column).Num?
        ensures At(d'.tables[fk.table].rows[i], fk.column).n in d'.tables[fk.target].rows
      {
        var p := (fk.table, i);
        assert p in AllRefs(d) && p !in doomed;
        assert fk.onDelete == Cascade && PointsInto(d, fk, p, doomed) ==> p in Dependents(d, doomed);
        assert !PointsInto(d, fk, p, doomed);
      }
    }
    forall n | n in d'.indexes ensures IndexFits(d', d'.indexes[n]) { ShrinkKeepsIndexes(d, d', d.indexes[n]); }
  }

  lemma {:induction false} CleanTableKeeps(d: Db, t: TableName, more: seq<Stmt>)
    requires Consistent(d) && CleanTable(d, t, more).Ok?
    requires more == [] || (t == ConsultationRequests && more == [DedupRequests]) || (t == FinalOffers && more == [DedupOffers])
    ensures Consistent(CleanTable(d, t, more).value)
  {
    if t in d.tables {
      CleanTableUnfolds(d, t, more);
      RaisingGivesNormal(d, t);
      WidenKeeps(d, t);
      RaiseKeeps(Apply(AddColumnIfMissing(t, WorkflowCycle), d).value, t);
      var n := Normal(d, t);
      if more != [] {
        ApplyOne(more[0], n);
        DedupKeeps(n, more[0]);
      }
    }
  }

  lemma {:induction false} DedupKeeps(d: Db, s: Stmt)
    requires Consistent(d) && (s == DedupRequests || s == DedupOffers) && Apply(s, d).Ok?
    ensures Consistent(Apply(s, d).value)
  {
    if s == DedupRequests {
      DeleteKeeps(d, ConsultationRequests, Surplus(RequestEntries(d.tables[ConsultationRequests].rows)));
    } else {
      DeleteKeeps(d, FinalOffers, Surplus(OfferEntries(d.tables[FinalOffers].rows, d.tables[ValidationCases].rows)));
    }
  }

  lemma {:induction false} CleanupKeeps(d: Db)
    requires Consistent(d) && Cleanup(d).Ok?
    ensures Consistent(Cleanup(d).value)
  {
    CleanTableKeeps(d, ValidationCases, []);
    var d1 := CleanTable(d, ValidationCases, []).value;
    CleanTableKeeps(d1, ConsultationRequests, [DedupRequests]);
    CleanTableKeeps(CleanTable(d1, ConsultationRequests, [DedupRequests]).value, FinalOffers, [DedupOffers]);
  }

  /** The target names only columns of its own tables. */
  ghost predicate Coherent(target: Schema) {
    && (forall fk :: fk in target.foreignKeys ==> fk.table in target.tables && fk.column in target.tables[fk.table] && fk.column != WorkflowCycle)
    && (forall n :: n in target.indexes ==> target.indexes[n].table in target.tables)
    && (forall n, c :: n in target.indexes && c in target.indexes[n].columns ==> c in target.tables[target.indexes[n].table])
  }

  lemma {:induction false} CompletedKeyFits(target: Schema, d: Db, fk: ForeignKey)
    requires RowsFit(d) && KeyFits(d, fk)
    ensures KeyFits(d.(tables := CompletedTables(target, d)), fk)
  {
    var d' := d.(tables := CompletedTables(target, d));
    assert d'.tables[fk.target].rows.Keys == d.tables[fk.target].rows.Keys;
    forall i | i in d.tables[fk.table].rows ensures At(d'.tables[fk.table].rows[i], fk.column) == At(d.tables[fk.table].rows[i], fk.column) {
      assert d.tables[fk.table].rows[i].Keys == d.tables[fk.table].columns;
    }
  }

  lemma {:induction false} CompletedIndexFits(target: Schema, d: Db, idx: Index)
    requires RowsFit(d) && IndexFits(d, idx)
    ensures IndexFits(d.(tables := CompletedTables(target, d)), idx)
  {
    var d' := d.(tables := CompletedTables(target, d));
    var rows, rows' := d.tables[idx.table].rows, d'.tables[idx.table].rows;
    forall i | i in rows ensures KeyOf(rows'[i], idx.columns) == KeyOf(rows[i], idx.columns) {
      assert rows[i].Keys == d.tables[idx.table].columns;
    }
  }

  lemma {:induction false} SchemaKeeps(target: Schema, d: Db)
    requires Consistent(d) && Coherent(target) && CreateSchema(target, d).Ok?
    ensures Consistent(CreateSchema(target, d).value)
  {
    var d' := CreateSchema(target, d).value;
    var d1 := d.(tables := CompletedTables(target, d));
    forall t, i | t in d'.tables && i in d'.tables[t].rows ensures d'.tables[t].rows[i].Keys == d'.tables[t].columns {
      assert t in d.tables && d.tables[t].rows[i].Keys == d.tables[t].columns;
    }
    forall fk | fk in d'.foreignKeys ensures KeyFits(d', fk) {
      if fk in d.foreignKeys { CompletedKeyFits(target, d, fk); } else { assert fk in MissingKeys(target, d) && KeyHolds(d1, fk); }
      assert KeyFits(d1, fk);
    }
    forall n | n in d'.indexes ensures IndexFits(d', d'.indexes[n]) {
      if n in d.indexes { CompletedIndexFits(target, d, d.indexes[n]); } else { assert n in MissingIndexes(target, d); }
      assert IndexFits(d1, d'.indexes[n]);
    }
  }

  lemma {:induction false} StatementKeeps(s: Stmt, d: Db)
    requires Consistent(d) && Apply(s, d).Ok?
    requires s.DropIndexIfExists? || s.CreateIndexIfMissing? || (s.AddColumnIfMissing? && s.column == WorkflowCycle) || (s.RaiseToOne? && s.column == WorkflowCycle)
    ensures Consistent(Apply(s, d).value)
  {
    match s
    case DropIndexIfExists(_) => SameRowsKeep(d, Apply(s, d).value);
    case CreateIndexIfMissing(n, idx) =>
      var d' := Apply(s, d).value;
      if n !in d.indexes {
        forall fk | fk in d'.foreignKeys ensures KeyFits(d', fk) { assert KeyFits(d, fk); }
        forall m | m in d'.indexes ensures IndexFits(d', d'.indexes[m]) { assert m != n ==> IndexFits(d, d.indexes[m]); }
      }
    case AddColumnIfMissing(t, _) => WidenKeeps(d, t);
    case RaiseToOne(t, _) => RaiseKeeps(d, t);
  }

  lemma {:induction false} StatementsKeep(ss: seq<Stmt>, d: Db)
    requires Consistent(d) && ApplyAll(ss, d).Ok?
    requires forall k :: 0 <= k < |ss| ==>
      ss[k].CreateIndexIfMissing? || (ss[k].AddColumnIfMissing? && ss[k].column == WorkflowCycle) || (ss[k].RaiseToOne? && ss[k].column == WorkflowCycle)
    ensures Consistent(ApplyAll(ss, d).value)
  {
    if ss != [] {
      StatementKeeps(ss[0], d);
      forall k | 0 <= k < |ss| - 1 ensures ss[1..][k] == ss[k + 1] {}
      StatementsKeep(ss[1..], Apply(ss[0], d).value);
    }
  }

  lemma {:induction false} MigrationKeeps(d: Db)
    requires Consistent(d) && CycleMigrations(d).Ok?
    ensures Consistent(CycleMigrations(d).value)
  {
    StatementsKeep(CYCLE_STATEMENTS, d);
    var d1 := ApplyAll(CYCLE_STATEMENTS, d).value;
    if RequestCaseValidator in d1.indexes { StatementKeeps(DropIndexIfExists(RequestCaseValidator), d1); }
    var d2 := ApplyIf(RequestCaseValidator in d1.indexes, DropIndexIfExists(RequestCaseValidator), d1).value;
    StatementsKeep(INDEX_STATEMENTS, d2);
  }

  lemma {:induction false} PutKeeps(target: Schema, d: Db, t: TableName, id: int, row: Row)
    requires Consistent(d) && Step(target, d, Put(t, id, row)).Ok?
    ensures Consistent(WithRow(d, t, id, row))
  {
    var d' := WithRow(d, t, id, row);
    forall fk | fk in d'.foreignKeys ensures KeyFits(d', fk) {
      assert KeyFits(d, fk);
      assert fk.table == t ==> RowKeyHolds(d', fk, row);
    }
    forall n | n in d'.indexes ensures IndexFits(d', d'.indexes[n]) {
      assert IndexFits(d, d.indexes[n]) && IndexesHold(d', t);
    }
  }

  lemma {:induction false} BootKeeps(target: Schema, d: Db, b: Boot)
    requires Consistent(d) && Coherent(target) && RunBoot(target, d, b).Ok?
    ensures Consistent(RunBoot(target, d, b).value)
  {
    if b.renamed { RenamesKeep(d); }
    var d1 := if b.renamed then Renames(d).value else d;
    if b.reached >= 1 {
      CleanupKeeps(d1);
      var d2 := Cleanup(d1).value;
      if b.reached >= 2 {
        SchemaKeeps(target, d2);
        if b.reached >= 3 { MigrationKeeps(CreateSchema(target, d2).value); }
      }
    }
  }

  lemma {:induction false} StepKeeps(target: Schema, d: Db, op: Op)
    requires Consistent(d) && Coherent(target)
    ensures Consistent(After(target, d, op))
  {
    if Step(target, d, op).Ok? {
      match op
      case Put(t, id, row) => PutKeeps(target, d, t, id, row);
      case Delete(t, ids) => DeleteKeeps(d, t, ids);
      case Start(b) => BootKeeps(target, d, b);
    }
  }

  /** Integrity is never lost: from any consistent database, legacy or not, whatever starts and writes follow. */
  lemma {:induction false} AlwaysConsistent(target: Schema, d: Db, ops: seq<Op>, k: nat)
    requires Consistent(d) && Coherent(target) && k <= |ops|
    ensures Consistent(StateAt(target, d, ops, k))
  {
    if k > 0 {
      AlwaysConsistent(target, d, ops, k - 1);
      StepKeeps(target, StateAt(target, d, ops, k - 1), ops[k - 1]);
    }
  }
}

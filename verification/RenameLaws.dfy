/** What one committed run of the domain renames does to data, and why a second run does nothing. */
module RenameLaws {
  import opened Outcomes
  import opened Relational
  import opened Statements
  import opened Migrations

  /** No guard of the rename transaction fires any more. */
  ghost predicate RenameSettled(d: Db) {
    && (Threads in d.tables ==> ValidationCases in d.tables)
    && (TagThreads in d.tables ==> TagValidationCases in d.tables)
    && (HasColumn(d, TagValidationCases, ThreadId) ==> HasColumn(d, TagValidationCases, ValidationCaseId))
    && (HasColumn(d, ThreadCredentials, ThreadId) ==>
          !HasKeyOn(d, ThreadCredentials, ThreadsReceivedCredentials) && HasKey(d, CasesReceivedCredentials))
  }

  /** The startup sequence only warns when the renames fail, so a failed run is a no-op. */
  function RenameStep(d: Db): Db {
    var r := Renames(d);
    if r.Ok? then r.value else d
  }

  lemma {:induction false} TableRenameKeepsKeyName(d: Db, from: TableName, to: TableName, d': Db, name: KeyName)
    requires d'.foreignKeys == TableInKeys(d.foreignKeys, from, to)
    ensures HasKey(d', name) <==> HasKey(d, name)
  {
    if HasKey(d, name) {
      var fk :| fk in d.foreignKeys && fk.name == name;
      var image := TableInKey(fk, from, to);
      assert image in d'.foreignKeys && image.name == name;
    }
  }

  lemma {:induction false} ColumnRenameKeepsKeyName(d: Db, t: TableName, from: Column, to: Column, d': Db, name: KeyName)
    requires d'.foreignKeys == ColumnInKeys(d.foreignKeys, t, from, to)
    ensures HasKey(d', name) <==> HasKey(d, name)
  {
    if HasKey(d, name) {
      var fk :| fk in d.foreignKeys && fk.name == name;
      var image := ColumnInKey(fk, t, from, to);
      assert image in d'.foreignKeys && image.name == name;
    }
  }

  /** Table-level effect of the three renames: the legacy case table and the tag join table move as
      they are, the join column gets its new name in the same run, and nothing else changes. */
  lemma {:induction false} RenameTablesEffect(d: Db, name: KeyName)
    ensures RenameTables(d).Ok?
    ensures
      var d' := RenameTables(d).value;
      var moveCases := Threads in d.tables && ValidationCases !in d.tables;
      var moveTags := TagThreads in d.tables && TagValidationCases !in d.tables;
      && d'.tables.Keys == d.tables.Keys
                           - (if moveCases then {Threads} else {}) + (if moveCases then {ValidationCases} else {})
                           - (if moveTags then {TagThreads} else {}) + (if moveTags then {TagValidationCases} else {})
      && (moveCases ==> d'.tables[ValidationCases] == d.tables[Threads])
      && (TagValidationCases in d'.tables ==>
            d'.tables[TagValidationCases] == JoinTableAfter(d.tables[if moveTags then TagThreads else TagValidationCases]))
      && (forall t :: t in d'.tables && t in d.tables && t != TagValidationCases ==> d'.tables[t] == d.tables[t])
      && (HasKey(d', name) <==> HasKey(d, name))
  {
    var d1 := ApplyIf(Threads in d.tables && ValidationCases !in d.tables, RenameTable(Threads, ValidationCases), d).value;
    if d1 != d { TableRenameKeepsKeyName(d, Threads, ValidationCases, d1, name); }
    var d2 := ApplyIf(TagThreads in d1.tables && TagValidationCases !in d1.tables, RenameTable(TagThreads, TagValidationCases), d1).value;
    if d2 != d1 { TableRenameKeepsKeyName(d1, TagThreads, TagValidationCases, d2, name); }
    var d3 := RenameTables(d).value;
    if d3 != d2 { ColumnRenameKeepsKeyName(d2, TagValidationCases, ThreadId, ValidationCaseId, d3, name); }
  }

  function JoinTableAfter(t: Table): Table {
    if ThreadId in t.columns && ValidationCaseId !in t.columns then TableWithColumnRenamed(t, ThreadId, ValidationCaseId) else t
  }

  lemma {:induction false} NormaliseEffect(d: Db)
    requires NormaliseCredentialKey(d).Ok?
    ensures
      var d' := NormaliseCredentialKey(d).value;
      && d'.tables == d.tables && d'.indexes == d.indexes
      && (HasColumn(d, ThreadCredentials, ThreadId) ==>
            !HasKeyOn(d', ThreadCredentials, ThreadsReceivedCredentials) && HasKey(d', CasesReceivedCredentials))
      && (HasColumn(d, ThreadCredentials, ThreadId) && !HasKey(d, CasesReceivedCredentials) ==> CREDENTIAL_KEY in d'.foreignKeys)
      && (!HasColumn(d, ThreadCredentials, ThreadId) ==> d' == d)
  {
    if HasColumn(d, ThreadCredentials, ThreadId) {
      var d1 := ApplyIf(HasKey(d, ThreadsReceivedCredentials), DropConstraint(ThreadCredentials, ThreadsReceivedCredentials), d).value;
      if HasKey(d1, CasesReceivedCredentials) {
        var fk :| fk in d1.foreignKeys && fk.name == CasesReceivedCredentials;
        assert fk in d.foreignKeys;
      } else {
        var d' := NormaliseCredentialKey(d).value;
        assert d'.foreignKeys == d1.foreignKeys + {CREDENTIAL_KEY};
        assert CREDENTIAL_KEY in d'.foreignKeys && CREDENTIAL_KEY.name == CasesReceivedCredentials;
      }
    }
  }

  /** A committed run moves the legacy data unchanged, row by row, and touches no other table;
      where both the old and the new table exist nothing moves. */
  lemma {:induction false} RenamesPreserveData(d: Db)
    requires Renames(d).Ok?
    ensures
      var d' := Renames(d).value;
      && (Threads in d.tables && ValidationCases !in d.tables ==>
            Threads !in d'.tables && ValidationCases in d'.tables && d'.tables[ValidationCases] == d.tables[Threads])
      && (TagThreads in d.tables && TagValidationCases !in d.tables ==>
            TagThreads !in d'.tables && TagValidationCases in d'.tables
            && d'.tables[TagValidationCases] == JoinTableAfter(d.tables[TagThreads]))
      && (forall t :: t in d.tables && t in d'.tables && t != TagValidationCases ==> d'.tables[t] == d.tables[t])
      && (TagValidationCases in d.tables ==>
            TagValidationCases in d'.tables && d'.tables[TagValidationCases] == JoinTableAfter(d.tables[TagValidationCases]))
      && (Threads in d.tables && ValidationCases in d.tables ==> Threads in d'.tables && ValidationCases in d'.tables)
      && (TagThreads in d.tables && TagValidationCases in d.tables ==> TagThreads in d'.tables)
      && d'.tables.Keys - {ValidationCases, TagValidationCases} <= d.tables.Keys
      && d.tables.Keys - {Threads, TagThreads} <= d'.tables.Keys
  {
    RenameTablesEffect(d, CasesReceivedCredentials);
    NormaliseEffect(RenameTables(d).value);
  }

  /** In the moved join table every row keeps its id and all its values; only thread_id is now validation_case_id. */
  lemma {:induction false} JoinRowsKeepTheirValues(t: Table, i: int, c: Column)
    requires i in t.rows && t.rows[i].Keys == t.columns
    requires ThreadId in t.columns && ValidationCaseId !in t.columns
    ensures
      var t' := JoinTableAfter(t);
      && t'.rows.Keys == t.rows.Keys && t'.rows[i].Keys == t'.columns
      && ThreadId !in t'.columns
      && At(t'.rows[i], ValidationCaseId) == At(t.rows[i], ThreadId)
      && (c != ThreadId && c != ValidationCaseId ==> At(t'.rows[i], c) == At(t.rows[i], c))
  {
    assert JoinTableAfter(t).rows[i] == RowRenamed(t.rows[i], ThreadId, ValidationCaseId);
  }

  /** After a committed run the credential key has its new name and no longer its old one. */
  lemma {:induction false} RenamesSettle(d: Db)
    requires Renames(d).Ok?
    ensures RenameSettled(Renames(d).value)
    ensures HasColumn(d, ThreadCredentials, ThreadId) && !HasKey(d, CasesReceivedCredentials) ==>
              ForeignKey(CasesReceivedCredentials, ThreadCredentials, ThreadId, ValidationCases, Cascade) in Renames(d).value.foreignKeys
  {
    RenameTablesEffect(d, CasesReceivedCredentials);
    NormaliseEffect(RenameTables(d).value);
  }

  /** A run on a settled database never changes it; it fails, harmlessly, exactly when a constraint
      with the old name sits on another table, since the lookup is by name alone. */
  lemma {:induction false} SettledRunIsIdentity(d: Db)
    requires RenameSettled(d)
    ensures RenameStep(d) == d
    ensures Renames(d).Err? <==> HasColumn(d, ThreadCredentials, ThreadId) && HasKey(d, ThreadsReceivedCredentials)
  {
    assert RenameTables(d) == Ok(d);
  }

  lemma {:induction false} RenamesAreIdempotent(d: Db)
    requires Renames(d).Ok?
    ensures RenameStep(Renames(d).value) == Renames(d).value
  {
    RenamesSettle(d);
    SettledRunIsIdentity(Renames(d).value);
  }

  // ---------------------------------------------------------------- when the transaction commits

  lemma {:induction false} TableRenameKeepsKeyOn(d: Db, from: TableName, to: TableName, d': Db, t: TableName, name: KeyName)
    requires d'.foreignKeys == TableInKeys(d.foreignKeys, from, to) && t != from && t != to
    ensures HasKeyOn(d', t, name) <==> HasKeyOn(d, t, name)
  {
    if HasKeyOn(d, t, name) {
      var fk :| fk in d.foreignKeys && fk.table == t && fk.name == name;
      var image := TableInKey(fk, from, to);
      assert image in d'.foreignKeys && image.table == t && image.name == name;
    }
  }

  lemma {:induction false} ColumnRenameKeepsKeyOn(d: Db, table: TableName, from: Column, to: Column, d': Db, t: TableName, name: KeyName)
    requires d'.foreignKeys == ColumnInKeys(d.foreignKeys, table, from, to)
    ensures HasKeyOn(d', t, name) <==> HasKeyOn(d, t, name)
  {
    if HasKeyOn(d, t, name) {
      var fk :| fk in d.foreignKeys && fk.table == t && fk.name == name;
      var image := ColumnInKey(fk, table, from, to);
      assert image in d'.foreignKeys && image.table == t && image.name == name;
    }
  }

  lemma {:induction false} RenameTablesKeepKeyOn(d: Db, t: TableName, name: KeyName)
    requires RenameTables(d).Ok? && t !in {Threads, ValidationCases, TagThreads, TagValidationCases}
    ensures HasKeyOn(RenameTables(d).value, t, name) <==> HasKeyOn(d, t, name)
  {
    var d1 := ApplyIf(Threads in d.tables && ValidationCases !in d.tables, RenameTable(Threads, ValidationCases), d).value;
    if d1 != d { TableRenameKeepsKeyOn(d, Threads, ValidationCases, d1, t, name); }
    var d2 := ApplyIf(TagThreads in d1.tables && TagValidationCases !in d1.tables, RenameTable(TagThreads, TagValidationCases), d1).value;
    if d2 != d1 { TableRenameKeepsKeyOn(d1, TagThreads, TagValidationCases, d2, t, name); }
    var d3 := RenameTables(d).value;
    if d3 != d2 { ColumnRenameKeepsKeyOn(d2, TagValidationCases, ThreadId, ValidationCaseId, d3, t, name); }
  }

  /** The table of cases, under its new name or else its old one. */
  function CaseTable(d: Db): Option<Table> {
    if ValidationCases in d.tables then Some(d.tables[ValidationCases])
    else if Threads in d.tables then Some(d.tables[Threads]) else None
  }

  /** Every credential that names a case names one that exists. */
  ghost predicate CredentialsPointToCases(d: Db)
    requires ThreadCredentials in d.tables
  {
    && CaseTable(d).Some?
    && forall i :: i in d.tables[ThreadCredentials].rows ==>
      var c := At(d.tables[ThreadCredentials].rows[i], ThreadId);
      c.Num? ==> c.n in CaseTable(d).value.rows
  }

  /** What decides whether the renames can commit, all of it visible before the run. */
  ghost predicate RenamesCanCommit(d: Db) {
    HasColumn(d, ThreadCredentials, ThreadId) ==>
      && (HasKey(d, ThreadsReceivedCredentials) ==> HasKeyOn(d, ThreadCredentials, ThreadsReceivedCredentials))
      && (HasKey(d, CasesReceivedCredentials) || CredentialsPointToCases(d))
  }

  lemma {:induction false} NormaliseCommitsIff(d: Db)
    requires HasColumn(d, ThreadCredentials, ThreadId)
    ensures NormaliseCredentialKey(d).Ok? <==>
              && (HasKey(d, ThreadsReceivedCredentials) ==> HasKeyOn(d, ThreadCredentials, ThreadsReceivedCredentials))
              && (HasKey(d, CasesReceivedCredentials) || KeyHolds(d, CREDENTIAL_KEY))
  {
    var r := ApplyIf(HasKey(d, ThreadsReceivedCredentials), DropConstraint(ThreadCredentials, ThreadsReceivedCredentials), d);
    if r.Ok? {
      var d1 := r.value;
      if HasKey(d, CasesReceivedCredentials) {
        var fk :| fk in d.foreignKeys && fk.name == CasesReceivedCredentials;
        assert fk in d1.foreignKeys;
      }
      assert KeyHolds(d1, CREDENTIAL_KEY) <==> KeyHolds(d, CREDENTIAL_KEY);
    }
  }

  /** On every database the renames commit, unless a round trip fails, if and only if no constraint of the old name
      sits on another table alone and, where the new key has to be added, no credential dangles. */
  lemma {:induction false} RenamesCommitIff(d: Db)
    ensures Renames(d).Ok? <==> RenamesCanCommit(d)
  {
    RenameTablesEffect(d, CasesReceivedCredentials);
    RenameTablesEffect(d, ThreadsReceivedCredentials);
    RenameTablesKeepKeyOn(d, ThreadCredentials, ThreadsReceivedCredentials);
    var d3 := RenameTables(d).value;
    assert ThreadCredentials in d.tables ==> d3.tables[ThreadCredentials] == d.tables[ThreadCredentials];
    if HasColumn(d, ThreadCredentials, ThreadId) {
      NormaliseCommitsIff(d3);
      assert KeyHolds(d3, CREDENTIAL_KEY) <==> CredentialsPointToCases(d) by {
        assert ValidationCases in d3.tables <==> CaseTable(d).Some?;
        assert CaseTable(d).Some? ==> d3.tables[ValidationCases] == CaseTable(d).value;
      }
    }
  }

  // ---------------------------------------------------------------- the foreign keys

  /** The foreign keys after the credential key has been normalised. */
  function NormalKeys(fks: set<ForeignKey>): set<ForeignKey> {
    (set fk | fk in fks && !(fk.table == ThreadCredentials && fk.name == ThreadsReceivedCredentials))
    + (if exists fk :: fk in fks && fk.name == CasesReceivedCredentials then {} else {CREDENTIAL_KEY})
  }

  function RenamedKeys(d: Db): set<ForeignKey> {
    if HasColumn(d, ThreadCredentials, ThreadId) then NormalKeys(d.foreignKeys) else d.foreignKeys
  }

  lemma {:induction false} NormaliseIs(d: Db)
    requires NormaliseCredentialKey(d).Ok?
    ensures NormaliseCredentialKey(d).value == d.(foreignKeys := RenamedKeys(d))
  {
    if HasColumn(d, ThreadCredentials, ThreadId) {
      var d1 := ApplyIf(HasKey(d, ThreadsReceivedCredentials), DropConstraint(ThreadCredentials, ThreadsReceivedCredentials), d).value;
      assert d1.foreignKeys == set fk | fk in d.foreignKeys && !(fk.table == ThreadCredentials && fk.name == ThreadsReceivedCredentials);
      if HasKey(d, CasesReceivedCredentials) {
        var fk :| fk in d.foreignKeys && fk.name == CasesReceivedCredentials;
        assert fk in d1.foreignKeys;
      }
      assert HasKey(d1, CasesReceivedCredentials) <==> HasKey(d, CasesReceivedCredentials);
    }
  }

  predicate MovesCases(d: Db) { Threads in d.tables && ValidationCases !in d.tables }
  predicate MovesTags(d: Db) { TagThreads in d.tables && TagValidationCases !in d.tables }

  /** The join column is renamed, in the table that is or becomes tag_validation_cases. */
  predicate MovesColumn(d: Db) {
    var t := if MovesTags(d) then TagThreads else TagValidationCases;
    HasColumn(d, t, ThreadId) && !HasColumn(d, t, ValidationCaseId)
  }

  function MovedTable(d: Db, t: TableName): TableName {
    if MovesCases(d) && t == Threads then ValidationCases
    else if MovesTags(d) && t == TagThreads then TagValidationCases
    else t
  }

  /** A foreign key follows the tables and the column it is on. */
  function MovedKey(d: Db, fk: ForeignKey): ForeignKey {
    var t := MovedTable(d, fk.table);
    ForeignKey(fk.name, t, if MovesColumn(d) && t == TagValidationCases && fk.column == ThreadId then ValidationCaseId else fk.column,
               MovedTable(d, fk.target), fk.onDelete)
  }

  lemma {:induction false} RenameTablesMoveKeys(d: Db)
    ensures RenameTables(d).Ok? && RenameTables(d).value.foreignKeys == set fk | fk in d.foreignKeys :: MovedKey(d, fk)
  {
    RenameTablesEffect(d, CasesReceivedCredentials);
    var d1 := ApplyIf(MovesCases(d), RenameTable(Threads, ValidationCases), d).value;
    var d2 := ApplyIf(MovesTags(d1), RenameTable(TagThreads, TagValidationCases), d1).value;
    assert MovesTags(d1) <==> MovesTags(d);
    var g3 := HasColumn(d2, TagValidationCases, ThreadId) && !HasColumn(d2, TagValidationCases, ValidationCaseId);
    assert g3 <==> MovesColumn(d);
    var k1 := set fk | fk in d.foreignKeys :: if MovesCases(d) then TableInKey(fk, Threads, ValidationCases) else fk;
    var k2 := set fk | fk in k1 :: if MovesTags(d) then TableInKey(fk, TagThreads, TagValidationCases) else fk;
    var k3 := set fk | fk in k2 :: if g3 then ColumnInKey(fk, TagValidationCases, ThreadId, ValidationCaseId) else fk;
    assert d1.foreignKeys == k1 && d2.foreignKeys == k2 && RenameTables(d).value.foreignKeys == k3;
    MovesCompose(d, k1, k2, k3);
  }

  lemma {:induction false} MovesCompose(d: Db, k1: set<ForeignKey>, k2: set<ForeignKey>, k3: set<ForeignKey>)
    requires k1 == set fk | fk in d.foreignKeys :: if MovesCases(d) then TableInKey(fk, Threads, ValidationCases) else fk
    requires k2 == set fk | fk in k1 :: if MovesTags(d) then TableInKey(fk, TagThreads, TagValidationCases) else fk
    requires k3 == set fk | fk in k2 :: if MovesColumn(d) then ColumnInKey(fk, TagValidationCases, ThreadId, ValidationCaseId) else fk
    ensures k3 == set fk | fk in d.foreignKeys :: MovedKey(d, fk)
  {
    forall fk | fk in d.foreignKeys ensures MovedKey(d, fk) in k3 {
      var f1 := if MovesCases(d) then TableInKey(fk, Threads, ValidationCases) else fk;
      var f2 := if MovesTags(d) then TableInKey(f1, TagThreads, TagValidationCases) else f1;
      var f3 := if MovesColumn(d) then ColumnInKey(f2, TagValidationCases, ThreadId, ValidationCaseId) else f2;
      assert f1 in k1 && f2 in k2 && f3 in k3;
      assert f3 == MovedKey(d, fk);
    }
  }

  /** All foreign keys after a committed run: every key follows its tables and its column, the old-named key of
      thread_credentials goes, and the new one, ON DELETE CASCADE, comes where its name was free. */
  lemma {:induction false} RenamesKeepKeys(d: Db)
    requires Renames(d).Ok?
    ensures
      var keys := Renames(d).value.foreignKeys;
      if HasColumn(d, ThreadCredentials, ThreadId) then
        keys == (set fk | fk in d.foreignKeys && !(fk.table == ThreadCredentials && fk.name == ThreadsReceivedCredentials) :: MovedKey(d, fk))
                + (if HasKey(d, CasesReceivedCredentials) then {}
                   else {ForeignKey(CasesReceivedCredentials, ThreadCredentials, ThreadId, ValidationCases, Cascade)})
      else
        keys == set fk | fk in d.foreignKeys :: MovedKey(d, fk)
  {
    var d3 := RenameTables(d).value;
    RenameTablesMoveKeys(d);
    RenameTablesEffect(d, CasesReceivedCredentials);
    NormaliseIs(d3);
    assert HasColumn(d3, ThreadCredentials, ThreadId) <==> HasColumn(d, ThreadCredentials, ThreadId) by {
      assert ThreadCredentials in d.tables ==> d3.tables[ThreadCredentials] == d.tables[ThreadCredentials];
    }
    if HasColumn(d, ThreadCredentials, ThreadId) { NormalKeysOfMoved(d, d3.foreignKeys); }
  }

  lemma {:induction false} NormalKeysOfMoved(d: Db, moved: set<ForeignKey>)
    requires moved == set fk | fk in d.foreignKeys :: MovedKey(d, fk)
    requires (exists fk :: fk in moved && fk.name == CasesReceivedCredentials) <==> HasKey(d, CasesReceivedCredentials)
    ensures NormalKeys(moved) ==
            (set fk | fk in d.foreignKeys && !(fk.table == ThreadCredentials && fk.name == ThreadsReceivedCredentials) :: MovedKey(d, fk))
            + (if HasKey(d, CasesReceivedCredentials) then {} else {CREDENTIAL_KEY})
  {
    forall fk ensures MovedKey(d, fk).name == fk.name && (MovedKey(d, fk).table == ThreadCredentials <==> fk.table == ThreadCredentials) {}
    var kept := set fk | fk in moved && !(fk.table == ThreadCredentials && fk.name == ThreadsReceivedCredentials);
    assert kept == set fk | fk in d.foreignKeys && !(fk.table == ThreadCredentials && fk.name == ThreadsReceivedCredentials) :: MovedKey(d, fk);
  }

  // ---------------------------------------------------------------- indexes of tables that do not move

  ghost predicate SameIndexesOn(d: Db, d': Db, t: TableName) {
    && d'.indexes.Keys == d.indexes.Keys
    && forall n :: n in d.indexes && (d.indexes[n].table == t || d'.indexes[n].table == t) ==> d'.indexes[n] == d.indexes[n]
  }

  lemma {:induction false} TableRenameKeepsIndexes(d: Db, guard: bool, from: TableName, to: TableName, t: TableName)
    requires t != from && t != to && ApplyIf(guard, RenameTable(from, to), d).Ok?
    ensures SameIndexesOn(d, ApplyIf(guard, RenameTable(from, to), d).value, t)
  {}

  lemma {:induction false} ColumnRenameKeepsIndexes(d: Db, guard: bool, table: TableName, from: Column, to: Column, t: TableName)
    requires t != table && ApplyIf(guard, RenameColumn(table, from, to), d).Ok?
    ensures SameIndexesOn(d, ApplyIf(guard, RenameColumn(table, from, to), d).value, t)
  {}

  lemma {:induction false} RenamesKeepIndexes(d: Db, t: TableName)
    requires Renames(d).Ok? && t !in {Threads, ValidationCases, TagThreads, TagValidationCases}
    ensures SameIndexesOn(d, Renames(d).value, t)
  {
    var g1 := Threads in d.tables && ValidationCases !in d.tables;
    var d1 := ApplyIf(g1, RenameTable(Threads, ValidationCases), d).value;
    TableRenameKeepsIndexes(d, g1, Threads, ValidationCases, t);
    var g2 := TagThreads in d1.tables && TagValidationCases !in d1.tables;
    var d2 := ApplyIf(g2, RenameTable(TagThreads, TagValidationCases), d1).value;
    TableRenameKeepsIndexes(d1, g2, TagThreads, TagValidationCases, t);
    var g3 := HasColumn(d2, TagValidationCases, ThreadId) && !HasColumn(d2, TagValidationCases, ValidationCaseId);
    var d3 := ApplyIf(g3, RenameColumn(TagValidationCases, ThreadId, ValidationCaseId), d2).value;
    ColumnRenameKeepsIndexes(d2, g3, TagValidationCases, ThreadId, ValidationCaseId, t);
    NormaliseEffect(d3);
  }

  // ---------------------------------------------------------------- deleting a case afterwards

  /** Whatever a cascade removes was asked for or points, by a cascading key, at something removed. */
  lemma {:induction false} CascadeHasCause(d: Db, s: set<Ref>, p: Ref)
    requires p in CascadeFrom(d, s) && p !in s
    ensures exists fk :: fk in d.foreignKeys && fk.onDelete == Cascade && PointsInto(d, fk, p, CascadeFrom(d, s))
    decreases AllRefs(d) - s
  {
    var next := s + Dependents(d, s);
    if !(Dependents(d, s) <= s) {
      assert AllRefs(d) - next < AllRefs(d) - s;
      if p in next {
        var fk :| fk in d.foreignKeys && fk.onDelete == Cascade && PointsInto(d, fk, p, s);
        assert PointsInto(d, fk, p, CascadeFrom(d, s));
      } else {
        CascadeHasCause(d, next, p);
      }
    }
  }

  ghost predicate OnThreadId(fk: ForeignKey) {
    fk.table == ThreadCredentials && fk.column == ThreadId && fk.target == ValidationCases
  }

  /** With the key this run adds, thread_credentials.thread_id blocks no deletion of cases, and when every
      other key of that table is NO ACTION the credentials removed are exactly those of removed cases. */
  lemma {:induction false} DeletingCasesCascades(d: Db, ids: set<int>)
    requires CREDENTIAL_KEY in d.foreignKeys && ThreadCredentials in d.tables
    ensures
      var doomed := CascadeFrom(d, RefsTo(ValidationCases, ids));
      && (forall fk :: fk in d.foreignKeys && OnThreadId(fk) ==> !Blocks(d, fk, doomed))
      && ((forall fk :: fk in d.foreignKeys && fk.table == ThreadCredentials && fk != CREDENTIAL_KEY ==> fk.onDelete == NoAction) ==>
            forall i :: i in d.tables[ThreadCredentials].rows ==>
              ((ThreadCredentials, i) in doomed <==>
               var c := At(d.tables[ThreadCredentials].rows[i], ThreadId); c.Num? && (ValidationCases, c.n) in doomed))
  {
    var s := RefsTo(ValidationCases, ids);
    var doomed := CascadeFrom(d, s);
    forall p | p in AllRefs(d) && PointsInto(d, CREDENTIAL_KEY, p, doomed) ensures p in doomed {
      assert p in Dependents(d, doomed);
    }
    forall fk | fk in d.foreignKeys && OnThreadId(fk) ensures !Blocks(d, fk, doomed) {
      forall p | p in AllRefs(d) && PointsInto(d, fk, p, doomed) ensures p in doomed {
        assert PointsInto(d, CREDENTIAL_KEY, p, doomed);
      }
    }
    if forall fk :: fk in d.foreignKeys && fk.table == ThreadCredentials && fk != CREDENTIAL_KEY ==> fk.onDelete == NoAction {
      forall i | i in d.tables[ThreadCredentials].rows
        ensures (ThreadCredentials, i) in doomed <==> PointsInto(d, CREDENTIAL_KEY, (ThreadCredentials, i), doomed)
      {
        var p := (ThreadCredentials, i);
        assert p in AllRefs(d) && p !in s;
        if p in doomed {
          CascadeHasCause(d, s, p);
        }
      }
    }
  }
}

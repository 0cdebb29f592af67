/**
 The statements of the startup migrations.  `Apply` gives each one's meaning on a database
 value, with the errors PostgreSQL reports.
 */
module Statements {
  import opened Outcomes
  import opened Relational
  import opened RowNumber

  datatype Stmt =
    | RenameTable(from: TableName, to: TableName)
    | RenameColumn(table: TableName, was: Column, becomes: Column)
    | DropConstraint(table: TableName, key: KeyName)
    | AddConstraint(fk: ForeignKey)
    | AddColumnIfMissing(table: TableName, column: Column)      // INTEGER NOT NULL DEFAULT 1
    | RaiseToOne(table: TableName, column: Column)              // SET column = 1 WHERE column < 1
    | DropIndexIfExists(index: IndexName)
    | CreateIndexIfMissing(index: IndexName, on: Index)
    | DedupRequests                                             // DELETE ... rn > 1 on consultation_requests
    | DedupOffers                                               // DELETE ... rn > 1 on final_offers

  /** What the two ranked deletes read besides the row id. */
  const RANK_COLUMNS: set<Column> := {ValidationCaseId, ValidatorUserId, WorkflowCycle, CreatedAt}

  function Apply(s: Stmt, d: Db): Outcome {
    match s
    case RenameTable(from, to) =>
      if from !in d.tables then Err(UndefinedTable)
      else if to in d.tables then Err(DuplicateName)
      else Ok(TableRenamed(d, from, to))
    case RenameColumn(t, from, to) =>
      if t !in d.tables then Err(UndefinedTable)
      else if from !in d.tables[t].columns then Err(UndefinedColumn)
      else if to in d.tables[t].columns then Err(DuplicateName)
      else Ok(ColumnRenamed(d, t, from, to))
    case DropConstraint(t, name) =>
      if !HasKeyOn(d, t, name) then Err(UndefinedConstraint)
      else Ok(d.(foreignKeys := set fk | fk in d.foreignKeys && !(fk.table == t && fk.name == name)))
    case AddConstraint(fk) =>
      if fk.table !in d.tables || fk.target !in d.tables then Err(UndefinedTable)
      else if fk.column !in d.tables[fk.table].columns then Err(UndefinedColumn)
      else if HasKeyOn(d, fk.table, fk.name) then Err(DuplicateName)
      else if !KeyHolds(d, fk) then Err(ForeignKeyViolation)
      else Ok(d.(foreignKeys := d.foreignKeys + {fk}))
    case AddColumnIfMissing(t, c) =>
      if t !in d.tables then Err(UndefinedTable)
      else Ok(d.(tables := d.tables[t := WithColumn(d.tables[t], c, Num(1))]))
    case RaiseToOne(t, c) =>
      if t !in d.tables then Err(UndefinedTable)
      else if c !in d.tables[t].columns then Err(UndefinedColumn)
      else
        var d' := d.(tables := d.tables[t := d.tables[t].(rows := Raised(d.tables[t].rows, c))]);
        // uniqueness is only checked for rows that the UPDATE writes
        if d' != d && !IndexesHold(d', t) then Err(UniqueViolation) else Ok(d')
    case DropIndexIfExists(n) =>
      Ok(d.(indexes := d.indexes - {n}))
    case CreateIndexIfMissing(n, idx) =>
      if n in d.indexes then Ok(d)
      else if idx.table !in d.tables then Err(UndefinedTable)
      else if exists c :: c in idx.columns && c !in d.tables[idx.table].columns then Err(UndefinedColumn)
      else if idx.unique && !UniqueOn(d.tables[idx.table].rows, idx.columns) then Err(UniqueViolation)
      else Ok(d.(indexes := d.indexes[n := idx]))
    case DedupRequests =>
      if ConsultationRequests !in d.tables then Err(UndefinedTable)
      else if !(RANK_COLUMNS <= d.tables[ConsultationRequests].columns) then Err(UndefinedColumn)
      else DeleteRows(d, ConsultationRequests, Surplus(RequestEntries(d.tables[ConsultationRequests].rows)))
    case DedupOffers =>
      if FinalOffers !in d.tables || ValidationCases !in d.tables then Err(UndefinedTable)
      else if !(RANK_COLUMNS <= d.tables[FinalOffers].columns) || AcceptedFinalOfferId !in d.tables[ValidationCases].columns
      then Err(UndefinedColumn)
      else DeleteRows(d, FinalOffers, Surplus(OfferEntries(d.tables[FinalOffers].rows, d.tables[ValidationCases].rows)))
  }

  /** Runs statements in order and stops at the first error. */
  function ApplyAll(ss: seq<Stmt>, d: Db): Outcome {
    if ss == [] then Ok(d) else
      var d' :- Apply(ss[0], d);
      ApplyAll(ss[1..], d')
  }

  function ApplyIf(guard: bool, s: Stmt, d: Db): Outcome {
    if guard then Apply(s, d) else Ok(d)
  }
}

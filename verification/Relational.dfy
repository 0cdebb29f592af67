/**
 The part of a PostgreSQL schema that the startup migrations read or write, as a value:
 tables with their columns and rows, foreign keys, and indexes, together with the effect
 of renaming, widening, updating and deleting on it.
 */
module Relational {
  import opened Outcomes

  datatype TableName =
    | Threads | ValidationCases | TagThreads | TagValidationCases
    | ThreadCredentials | ConsultationRequests | FinalOffers
    | OtherTable(name: string)

  datatype Column =
    | ThreadId | ValidationCaseId | ValidatorUserId | WorkflowCycle
    | CreatedAt | Status | AcceptedFinalOfferId
    | OtherColumn(name: string)

  /** `thread_credentials_threads_received_credentials`,
      `thread_credentials_validation_cases_received_credentials`, and all other names. */
  datatype KeyName = ThreadsReceivedCredentials | CasesReceivedCredentials | OtherKey(name: string)

  datatype IndexName =
    | RequestCaseValidator         // the legacy index
    | RequestCaseValidatorCycle
    | RequestCaseCycle
    | RequestValidatorStatusCycle
    | OfferCaseValidatorCycle
    | OtherIndex(name: string)

  /** A cell is NULL or a value; only equality and order of values matter here. */
  datatype Cell = Null | Num(n: int)

  type Row = map<Column, Cell>

  /** Rows are stored under their primary key. */
  datatype Table = Table(columns: set<Column>, rows: map<int, Row>)

  datatype DeleteAction = NoAction | Cascade

  /** `table.column` references the primary key of `target`. */
  datatype ForeignKey = ForeignKey(name: KeyName, table: TableName, column: Column,
                                   target: TableName, onDelete: DeleteAction)

  datatype Index = Index(table: TableName, columns: seq<Column>, unique: bool)

  datatype Db = Db(tables: map<TableName, Table>, foreignKeys: set<ForeignKey>, indexes: map<IndexName, Index>)

  datatype SqlError =
    | Interrupted | UndefinedTable | UndefinedColumn | UndefinedConstraint
    | DuplicateName | UniqueViolation | ForeignKeyViolation | CheckFailed

  type Outcome = Result<Db, SqlError>

  // ---------------------------------------------------------------- cells and keys

  function At(row: Row, c: Column): Cell {
    if c in row then row[c] else Null
  }

  function KeyOf(row: Row, columns: seq<Column>): (key: seq<Cell>)
    ensures |key| == |columns| && forall k :: 0 <= k < |key| ==> key[k] == At(row, columns[k])
  {
    seq(|columns|, k requires 0 <= k < |columns| => At(row, columns[k]))
  }

  predicate BelowOne(c: Cell) {
    c.Num? && c.n < 1
  }

  /** A unique index ignores keys that hold a NULL. */
  predicate UniqueOn(rows: map<int, Row>, columns: seq<Column>) {
    forall i, j :: i in rows && j in rows && i != j && KeyOf(rows[i], columns) == KeyOf(rows[j], columns) ==>
      Null in KeyOf(rows[i], columns)
  }

  predicate IndexesHold(d: Db, t: TableName) {
    t in d.tables ==>
      forall n :: n in d.indexes && d.indexes[n].table == t && d.indexes[n].unique ==>
        UniqueOn(d.tables[t].rows, d.indexes[n].columns)
  }

  predicate KeyHolds(d: Db, fk: ForeignKey) {
    && fk.table in d.tables && fk.target in d.tables
    && forall i :: i in d.tables[fk.table].rows ==>
      var c := At(d.tables[fk.table].rows[i], fk.column);
      c.Num? ==> c.n in d.tables[fk.target].rows
  }

  predicate HasKey(d: Db, name: KeyName) {
    exists fk :: fk in d.foreignKeys && fk.name == name
  }

  predicate HasKeyOn(d: Db, t: TableName, name: KeyName) {
    exists fk :: fk in d.foreignKeys && fk.table == t && fk.name == name
  }

  predicate HasColumn(d: Db, t: TableName, c: Column) {
    t in d.tables && c in d.tables[t].columns
  }

  // ---------------------------------------------------------------- DELETE with referential actions

  type Ref = (TableName, int)

  function AllRefs(d: Db): set<Ref> {
    set t, i | t in d.tables && i in d.tables[t].rows :: (t, i)
  }

  predicate PointsInto(d: Db, fk: ForeignKey, p: Ref, s: set<Ref>) {
    && fk.table == p.0 && p.0 in d.tables && p.1 in d.tables[p.0].rows
    && var c := At(d.tables[p.0].rows[p.1], fk.column);
    c.Num? && (fk.target, c.n) in s
  }

  function Dependents(d: Db, s: set<Ref>): set<Ref> {
    set p | p in AllRefs(d) && exists fk :: fk in d.foreignKeys && fk.onDelete == Cascade && PointsInto(d, fk, p, s)
  }

  /** Everything that ON DELETE CASCADE removes together with `s`. */
  function CascadeFrom(d: Db, s: set<Ref>): (r: set<Ref>)
    ensures s <= r && Dependents(d, r) <= r
    decreases AllRefs(d) - s
  {
    if Dependents(d, s) <= s then s else
      assert AllRefs(d) - (s + Dependents(d, s)) < AllRefs(d) - s;
      CascadeFrom(d, s + Dependents(d, s))
  }

  function Without(d: Db, doomed: set<Ref>): Db {
    d.(tables := map t | t in d.tables ::
         d.tables[t].(rows := map i | i in d.tables[t].rows && (t, i) !in doomed :: d.tables[t].rows[i]))
  }

  /** NO ACTION is checked once the statement, cascades included, has run. */
  predicate Blocks(d: Db, fk: ForeignKey, doomed: set<Ref>) {
    && fk.onDelete == NoAction
    && exists p :: p in AllRefs(d) && p !in doomed && PointsInto(d, fk, p, doomed)
  }

  function RefsTo(t: TableName, ids: set<int>): set<Ref> {
    set i | i in ids :: (t, i)
  }

  function DeleteRows(d: Db, t: TableName, ids: set<int>): Outcome {
    if t !in d.tables then Err(UndefinedTable) else
      var doomed := CascadeFrom(d, RefsTo(t, ids));
      if exists fk :: fk in d.foreignKeys && Blocks(d, fk, doomed) then Err(ForeignKeyViolation) else Ok(Without(d, doomed))
  }

  // ---------------------------------------------------------------- DDL and UPDATE

  function RenamedRef(t: TableName, from: TableName, to: TableName): TableName {
    if t == from then to else t
  }

  function TableInKey(fk: ForeignKey, from: TableName, to: TableName): ForeignKey {
    fk.(table := RenamedRef(fk.table, from, to), target := RenamedRef(fk.target, from, to))
  }

  function ColumnInKey(fk: ForeignKey, t: TableName, from: Column, to: Column): ForeignKey {
    fk.(column := if fk.table == t && fk.column == from then to else fk.column)
  }

  function TableInKeys(fks: set<ForeignKey>, from: TableName, to: TableName): set<ForeignKey> {
    set fk | fk in fks :: TableInKey(fk, from, to)
  }

  function ColumnInKeys(fks: set<ForeignKey>, t: TableName, from: Column, to: Column): set<ForeignKey> {
    set fk | fk in fks :: ColumnInKey(fk, t, from, to)
  }

  /** Foreign keys and indexes are bound to the table itself, so they follow its name. */
  function TableRenamed(d: Db, from: TableName, to: TableName): Db
    requires from in d.tables
  {
    Db((d.tables - {from})[to := d.tables[from]],
       TableInKeys(d.foreignKeys, from, to),
       map n | n in d.indexes :: d.indexes[n].(table := RenamedRef(d.indexes[n].table, from, to)))
  }

  function RowRenamed(row: Row, from: Column, to: Column): Row {
    if from in row then (row - {from})[to := row[from]] else row
  }

  function ColumnsRenamed(columns: seq<Column>, from: Column, to: Column): (r: seq<Column>)
  {
    seq(|columns|, k requires 0 <= k < |columns| => if columns[k] == from then to else columns[k])
  }

  function TableWithColumnRenamed(t: Table, from: Column, to: Column): Table {
    Table(t.columns - {from} + {to}, map i | i in t.rows :: RowRenamed(t.rows[i], from, to))
  }

  function ColumnRenamed(d: Db, t: TableName, from: Column, to: Column): Db
    requires t in d.tables
  {
    Db(d.tables[t := TableWithColumnRenamed(d.tables[t], from, to)],
       ColumnInKeys(d.foreignKeys, t, from, to),
       map n | n in d.indexes ::
         if d.indexes[n].table == t then d.indexes[n].(columns := ColumnsRenamed(d.indexes[n].columns, from, to)) else d.indexes[n])
  }

  function WithColumn(t: Table, c: Column, default: Cell): Table {
    if c in t.columns then t else Table(t.columns + {c}, map i | i in t.rows :: t.rows[i][c := default])
  }

  /** The rows after `UPDATE t SET c = 1 WHERE c < 1`. */
  function Raised(rows: map<int, Row>, c: Column): map<int, Row> {
    map i | i in rows :: if BelowOne(At(rows[i], c)) then rows[i][c := Num(1)] else rows[i]
  }
}

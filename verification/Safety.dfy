/**
 Whole histories after a completed start: inserts, updates and deletes by the application, interleaved
 with further starts, each stopped anywhere.
 */
module Safety {
  import opened Outcomes
  import opened Relational
  import opened RowNumber
  import opened Statements
  import opened Migrations
  import opened RenameLaws
  import opened CleanupLaws
  import opened SchemaCreate
  import opened Boots

  datatype Op =
    | Put(table: TableName, id: int, row: Row)    // INSERT, or UPDATE of an existing row
    | Delete(table: TableName, ids: set<int>)
    | Start(boot: Boot)

  /** What the entity builders check before they write: keys are present and the cycle is positive. */
  predicate Checked(t: TableName, row: Row) {
    && (t == ConsultationRequests || t == FinalOffers ==>
          At(row, ValidationCaseId).Num? && At(row, ValidatorUserId).Num? && At(row, WorkflowCycle).Num?)
    && (t == ConsultationRequests || t == FinalOffers || t == ValidationCases ==> !BelowOne(At(row, WorkflowCycle)))
  }

  function WithRow(d: Db, t: TableName, id: int, row: Row): Db
    requires t in d.tables
  {
    d.(tables := d.tables[t := d.tables[t].(rows := d.tables[t].rows[id := row])])
  }

  predicate RowKeyHolds(d: Db, fk: ForeignKey, row: Row) {
    At(row, fk.column).Num? ==> fk.target in d.tables && At(row, fk.column).n in d.tables[fk.target].rows
  }

  function Step(target: Schema, d: Db, op: Op): Outcome {
    match op
    case Put(t, id, row) =>
      if t !in d.tables then Err(UndefinedTable)
      else if row.Keys != d.tables[t].columns then Err(UndefinedColumn)
      else if !Checked(t, row) then Err(CheckFailed)
      else
        var d' := WithRow(d, t, id, row);
        if !IndexesHold(d', t) then Err(UniqueViolation)
        else if exists fk :: fk in d.foreignKeys && fk.table == t && !RowKeyHolds(d', fk, row) then Err(ForeignKeyViolation)
        else Ok(d')
    case Delete(t, ids) => DeleteRows(d, t, ids)
    case Start(b) => RunBoot(target, d, b)
  }

  /** A refused operation changes nothing. */
  function After(target: Schema, d: Db, op: Op): Db {
    var r := Step(target, d, op);
    if r.Ok? then r.value else d
  }

  function StateAt(target: Schema, d: Db, ops: seq<Op>, k: nat): Db
    requires k <= |ops|
  {
    if k == 0 then d else After(target, StateAt(target, d, ops, k - 1), ops[k - 1])
  }

  /** The state of a database that a start has completed on, whether or not its renames committed. */
  ghost predicate Settled(target: Schema, d: Db) {
    && CleanSettled(d) && SchemaSettled(target, d) && MigrationSettled(d)
    && d.indexes[RequestCaseValidatorCycle] == Index(ConsultationRequests, [ValidationCaseId, ValidatorUserId, WorkflowCycle], true)
    && d.indexes[OfferCaseValidatorCycle] == Index(FinalOffers, [ValidationCaseId, ValidatorUserId, WorkflowCycle], true)
  }

  // ---------------------------------------------------------------- reaching a settled state

  ghost predicate NameFree(d: Db, n: IndexName, index: Index) {
    n in d.indexes ==> d.indexes[n] == index
  }

  /** IF NOT EXISTS looks at the name alone, so a name ends at its index exactly when it was free. */
  lemma {:induction false} IndexesEndRight(indexes: map<IndexName, Index>, wanted: map<IndexName, Index>)
    requires RequestCaseValidatorCycle in wanted ==> wanted[RequestCaseValidatorCycle] == REQUEST_INDEX
    requires OfferCaseValidatorCycle in wanted ==> wanted[OfferCaseValidatorCycle] == OFFER_INDEX
    ensures
      var m := MigratedIndexes(indexes + (wanted - indexes.Keys));
      && RequestCaseValidatorCycle in m && OfferCaseValidatorCycle in m
      && (m[RequestCaseValidatorCycle] == REQUEST_INDEX <==>
            (RequestCaseValidatorCycle in indexes ==> indexes[RequestCaseValidatorCycle] == REQUEST_INDEX))
      && (m[OfferCaseValidatorCycle] == OFFER_INDEX <==>
            (OfferCaseValidatorCycle in indexes ==> indexes[OfferCaseValidatorCycle] == OFFER_INDEX))
  {}

  lemma {:induction false} CompletedStartCleans(target: Schema, d: Db)
    requires Wanted(target) && RunBoot(target, d, Boot(false, 3)).Ok?
    ensures
      var d' := RunBoot(target, d, Boot(false, 3)).value;
      CleanSettled(d') && SchemaSettled(target, d') && MigrationSettled(d')
  {
    var d2 := Cleanup(d).value;
    CleanupSettles(d);
    SchemaSettles(target, d2);
    SchemaKeepsClean(target, d2);
    var d3 := CreateSchema(target, d2).value;
    SettledIsComplete(target, d3);
    MigrationEffect(d3);
    MigrationSettles(d3);
    MigrationKeepsSchema(target, d3);
  }

  lemma {:induction false} CompletedStartIndexes(target: Schema, d: Db)
    requires Wanted(target) && RunBoot(target, d, Boot(false, 3)).Ok?
    ensures RunBoot(target, d, Boot(false, 3)).value.indexes == MigratedIndexes(d.indexes + (target.indexes - d.indexes.Keys))
  {
    CleanupKeepsStructure(d);
    MigrationAlwaysCommits(target, d);
  }

  /** Every completed start, also one that went on without its renames, ends settled if and only if the two index
      names were free or already named these indexes; if its renames committed, no guard of theirs fires again. */
  lemma {:induction false} CompletedStartSettles(target: Schema, d0: Db, b: Boot)
    requires Wanted(target) && b.reached == 3 && RunBoot(target, d0, b).Ok?
    ensures Settled(target, RunBoot(target, d0, b).value) <==>
              NameFree(d0, RequestCaseValidatorCycle, REQUEST_INDEX) && NameFree(d0, OfferCaseValidatorCycle, OFFER_INDEX)
    ensures b.renamed ==> RenameSettled(RunBoot(target, d0, b).value)
  {
    var d1 := if b.renamed then Renames(d0).value else d0;
    assert RunBoot(target, d0, b) == RunBoot(target, d1, Boot(false, 3));
    CompletedStartCleans(target, d1);
    CompletedStartIndexes(target, d1);
    IndexesEndRight(d1.indexes, target.indexes);
    if b.renamed {
      RenamesKeepIndexes(d0, ConsultationRequests);
      RenamesKeepIndexes(d0, FinalOffers);
      assert b == Boot(true, 3);
      PhaseHolds(target, d0, 3);
    }
  }

  // ---------------------------------------------------------------- staying settled

  /** A unique index on the slot, written out. */
  const SLOT_COLUMNS: seq<Column> := [ValidationCaseId, ValidatorUserId, WorkflowCycle]

  /** Case, validator and cycle are all given. */
  ghost predicate FullSlot(row: Row) {
    At(row, ValidationCaseId).Num? && At(row, ValidatorUserId).Num? && At(row, WorkflowCycle).Num?
  }

  lemma {:induction false} SlotColumns(a: Row, b: Row)
    ensures KeyOf(a, SLOT_COLUMNS) == KeyOf(b, SLOT_COLUMNS) <==> SameSlot(a, b)
    ensures Null !in KeyOf(a, SLOT_COLUMNS) <==> FullSlot(a)
  {
    var x, y := KeyOf(a, SLOT_COLUMNS), KeyOf(b, SLOT_COLUMNS);
    assert |x| == 3 && |y| == 3 && x[0] in x && x[1] in x && x[2] in x;
    assert x == y <==> x[0] == y[0] && x[1] == y[1] && x[2] == y[2];
  }

  lemma {:induction false} PutKeepsOneRowPerSlot(rows: map<int, Row>, id: int, row: Row)
    requires OneRowPerSlot(rows) && UniqueOn(rows[id := row], SLOT_COLUMNS) && FullSlot(row)
    ensures OneRowPerSlot(rows[id := row])
  {
    var rows' := rows[id := row];
    forall i, j | i in rows' && j in rows' && SameSlot(rows'[i], rows'[j]) ensures i == j {
      SlotColumns(rows'[i], rows'[j]);
      assert i == id || j == id || (i in rows && j in rows);
    }
  }

  lemma {:induction false} PutKeepsClean(target: Schema, d: Db, t: TableName, id: int, row: Row)
    requires Settled(target, d) && Step(target, d, Put(t, id, row)).Ok?
    ensures CleanSettled(WithRow(d, t, id, row))
  {
    var d' := WithRow(d, t, id, row);
    if t == ConsultationRequests || t == FinalOffers {
      var n := if t == ConsultationRequests then RequestCaseValidatorCycle else OfferCaseValidatorCycle;
      assert d'.indexes[n].table == t && d'.indexes[n].unique && d'.indexes[n].columns == SLOT_COLUMNS;
      assert UniqueOn(d'.tables[t].rows, SLOT_COLUMNS);
      PutKeepsOneRowPerSlot(d.tables[t].rows, id, row);
    }
  }

  lemma {:induction false} KeysStayPresent(target: Schema, d: Db, d': Db)
    requires MissingKeys(target, d) == {} && d'.foreignKeys == d.foreignKeys
    ensures MissingKeys(target, d') == {}
  {
    forall fk | fk in target.foreignKeys ensures HasKeyOn(d', fk.table, fk.name) {
      assert fk !in MissingKeys(target, d);
    }
  }

  lemma {:induction false} PutKeepsSettled(target: Schema, d: Db, t: TableName, id: int, row: Row)
    requires Settled(target, d) && Step(target, d, Put(t, id, row)).Ok?
    ensures Settled(target, WithRow(d, t, id, row))
  {
    PutKeepsClean(target, d, t, id, row);
    KeysStayPresent(target, d, WithRow(d, t, id, row));
  }

  lemma {:induction false} DeleteKeepsSettled(target: Schema, d: Db, t: TableName, ids: set<int>)
    requires Settled(target, d) && DeleteRows(d, t, ids).Ok?
    ensures Settled(target, DeleteRows(d, t, ids).value)
  {
    var d' := DeleteRows(d, t, ids).value;
    DeleteShrinks(d, t, ids);
    ShrinkKeepsClean(d, d', ValidationCases);
    ShrinkKeepsClean(d, d', ConsultationRequests);
    ShrinkKeepsClean(d, d', FinalOffers);
    KeysStayPresent(target, d, d');
  }

  lemma {:induction false} RenamesKeepSettled(target: Schema, d: Db)
    requires Full(target) && Settled(target, d) && Renames(d).Ok?
    ensures Settled(target, Renames(d).value)
    ensures Renames(d).value.tables == d.tables && Renames(d).value.indexes == d.indexes
  {
    assert RenameTables(d) == Ok(d);
    NormaliseEffect(d);
    var d' := Renames(d).value;
    forall fk | fk in target.foreignKeys ensures HasKeyOn(d', fk.table, fk.name) {
      assert fk !in MissingKeys(target, d);
      var k :| k in d.foreignKeys && k.table == fk.table && k.name == fk.name;
      assert k in d'.foreignKeys;
    }
  }

  lemma {:induction false} StepsAreIdentity(target: Schema, d: Db)
    requires Wanted(target) && Settled(target, d)
    ensures Cleanup(d) == Ok(d) && CreateSchema(target, d) == Ok(d) && CycleMigrations(d) == Ok(d)
  {
    SettledCleanupIsIdentity(d);
    SettledSchemaIsIdentity(target, d);
    SettledIsComplete(target, d);
    MigrationSettles(d);
  }

  /** The whole effect of a start on a settled database is that of its renames, which can only replace the
      credential key; where they were skipped or have committed before, it has none.  It always gets through. */
  lemma {:induction false} LaterStartEffect(target: Schema, d: Db, b: Boot)
    requires Full(target) && Settled(target, d)
    ensures RunBoot(target, d, b) == if b.renamed then Renames(d) else Ok(d)
    ensures RunBoot(target, d, b).Ok? <==> (b.renamed ==> RenamesCanCommit(d))
    ensures RunBoot(target, d, b).Ok? ==>
              var d' := RunBoot(target, d, b).value;
              && d'.tables == d.tables && d'.indexes == d.indexes && Settled(target, d')
              && (b.renamed ==> RenameSettled(d')) && (RenameSettled(d) ==> d' == d)
  {
    RenamesCommitIff(d);
    StepsAreIdentity(target, d);
    if b.renamed && Renames(d).Ok? {
      RenamesKeepSettled(target, d);
      RenamesSettle(d);
      StepsAreIdentity(target, Renames(d).value);
      if RenameSettled(d) { SettledRunIsIdentity(d); }
    }
  }

  lemma {:induction false} StepKeepsSettled(target: Schema, d: Db, op: Op)
    requires Full(target) && Settled(target, d)
    ensures Settled(target, After(target, d, op))
    ensures RenameSettled(d) ==> RenameSettled(After(target, d, op))
  {
    if Step(target, d, op).Ok? {
      match op
      case Put(t, id, row) => PutKeepsSettled(target, d, t, id, row);
      case Delete(t, ids) =>
        DeleteKeepsSettled(target, d, t, ids);
        DeleteShrinks(d, t, ids);
      case Start(b) => LaterStartEffect(target, d, b);
    }
  }

  /** Safety over whole runs.  From the state any completed start left, however the application's writes and further
      starts interleave: each (case, validator, cycle) has at most one row at every moment; no start ever deletes
      or alters a row, a column or an index again; and every start gets through, with its renames where those
      can commit and in any case without them. */
  lemma {:induction false} NoLaterStartTouchesData(target: Schema, d: Db, ops: seq<Op>, k: nat)
    requires Full(target) && Settled(target, d) && k <= |ops|
    ensures
      var s := StateAt(target, d, ops, k);
      && Settled(target, s) && (RenameSettled(d) ==> RenameSettled(s))
      && OneRowPerSlot(s.tables[ConsultationRequests].rows) && OneRowPerSlot(s.tables[FinalOffers].rows)
      && (k < |ops| && ops[k].Start? ==>
            var s', b := StateAt(target, d, ops, k + 1), ops[k].boot;
            && s'.tables == s.tables && s'.indexes == s.indexes && (RenameSettled(s) ==> s' == s)
            && (RunBoot(target, s, b) == Ok(s') <==> (b.renamed ==> RenamesCanCommit(s)))
            && RunBoot(target, s, b.(renamed := false)) == Ok(s))
  {
    if k > 0 {
      NoLaterStartTouchesData(target, d, ops, k - 1);
      StepKeepsSettled(target, StateAt(target, d, ops, k - 1), ops[k - 1]);
    }
    var s := StateAt(target, d, ops, k);
    SettledIsComplete(target, s);
    if k < |ops| && ops[k].Start? {
      LaterStartEffect(target, s, ops[k].boot);
      LaterStartEffect(target, s, ops[k].boot.(renamed := false));
    }
  }

  // ---------------------------------------------------------------- what is accepted after a completed start

  /** The row fits its table, passes the builders' checks, and nothing but the cycle index can refuse it. */
  ghost predicate OnlySlotMatters(d: Db, t: TableName, id: int, row: Row) {
    && t in d.tables && row.Keys == d.tables[t].columns && Checked(t, row)
    && (forall fk :: fk in d.foreignKeys && fk.table == t ==> RowKeyHolds(WithRow(d, t, id, row), fk, row))
    && (forall n :: n in d.indexes && d.indexes[n].table == t && d.indexes[n].unique && n != RequestCaseValidatorCycle && n != OfferCaseValidatorCycle ==>
          UniqueOn(d.tables[t].rows[id := row], d.indexes[n].columns))
  }

  lemma {:induction false} SlotFreeIsUnique(rows: map<int, Row>, id: int, row: Row)
    requires OneRowPerSlot(rows) && FullSlot(row)
    ensures UniqueOn(rows[id := row], SLOT_COLUMNS) <==> forall i :: i in rows && i != id ==> !SameSlot(rows[i], row)
  {
    var rows' := rows[id := row];
    forall i, j | i in rows' && j in rows' { SlotColumns(rows'[i], rows'[j]); }
    if i :| i in rows && i != id && SameSlot(rows[i], row) { assert rows'[i] == rows[i] && rows'[id] == row; }
  }

  /** After a completed start a request or an offer is accepted if and only if no other row has its case, its
      validator and its cycle. */
  lemma {:induction false} AcceptedIffSlotFree(target: Schema, d: Db, t: TableName, id: int, row: Row)
    requires Settled(target, d) && t in {ConsultationRequests, FinalOffers} && OnlySlotMatters(d, t, id, row)
    ensures Step(target, d, Put(t, id, row)).Ok? <==>
              forall i :: i in d.tables[t].rows && i != id ==>
                !(&& At(d.tables[t].rows[i], ValidationCaseId) == At(row, ValidationCaseId)
                  && At(d.tables[t].rows[i], ValidatorUserId) == At(row, ValidatorUserId)
                  && At(d.tables[t].rows[i], WorkflowCycle) == At(row, WorkflowCycle))
  {
    var d', rows := WithRow(d, t, id, row), d.tables[t].rows;
    SlotFreeIsUnique(rows, id, row);
    assert d'.tables[t].rows == rows[id := row] && d'.indexes == d.indexes;
    assert IndexesHold(d', t) <==> UniqueOn(rows[id := row], SLOT_COLUMNS) by {
      var n := if t == ConsultationRequests then RequestCaseValidatorCycle else OfferCaseValidatorCycle;
      assert n in d'.indexes && d'.indexes[n].table == t && d'.indexes[n].unique && d'.indexes[n].columns == SLOT_COLUMNS;
    }
  }

  /** So another validator may always hold one for the same case in the same cycle. */
  lemma {:induction false} OtherValidatorAccepted(target: Schema, d: Db, t: TableName, id: int, row: Row)
    requires Settled(target, d) && t in {ConsultationRequests, FinalOffers} && OnlySlotMatters(d, t, id, row)
    requires forall i ::
               && i in d.tables[t].rows && i != id
               && At(d.tables[t].rows[i], ValidationCaseId) == At(row, ValidationCaseId)
               && At(d.tables[t].rows[i], WorkflowCycle) == At(row, WorkflowCycle) ==>
                 At(d.tables[t].rows[i], ValidatorUserId) != At(row, ValidatorUserId)
    ensures Step(target, d, Put(t, id, row)) == Ok(WithRow(d, t, id, row))
  {
    AcceptedIffSlotFree(target, d, t, id, row);
  }

  // ---------------------------------------------------------------- a request in every cycle

  lemma {:induction false} AboveAll(ids: set<int>) returns (b: int)
    ensures forall j :: j in ids ==> j < b
    decreases ids
  {
    if ids == {} {
      b := 0;
    } else {
      var x := Member(ids);
      b := AboveAll(ids - {x});
      b := if x < b then b else x + 1;
      forall j | j in ids ensures j < b { if j != x { assert j in ids - {x}; } }
    }
  }

  /** The application wrote one row, and the database accepted it. */
  ghost predicate Accepted(target: Schema, d: Db, d': Db) {
    exists op: Op :: op.Put? && Step(target, d, op) == Ok(d')
  }

  ghost predicate AcceptedRun(target: Schema, states: seq<Db>) {
    forall k :: 0 <= k < |states| - 1 ==> Accepted(target, states[k], states[k + 1])
  }

  ghost predicate HasCycle(d: Db, row: Row, c: int) {
    && ConsultationRequests in d.tables
    && exists i :: i in d.tables[ConsultationRequests].rows && SameSlot(d.tables[ConsultationRequests].rows[i], row[WorkflowCycle := Num(c)])
  }

  /** A request row that satisfies the foreign keys, in a table whose only unique index is the cycle index. */
  ghost predicate Template(d: Db, row: Row) {
    && ConsultationRequests in d.tables
    && row.Keys == d.tables[ConsultationRequests].columns && Checked(ConsultationRequests, row)
    && (forall fk :: fk in d.foreignKeys && fk.table == ConsultationRequests ==>
          fk.column != WorkflowCycle && fk.target != ConsultationRequests && RowKeyHolds(d, fk, row))
    && (forall n :: n in d.indexes && d.indexes[n].table == ConsultationRequests && d.indexes[n].unique ==> n == RequestCaseValidatorCycle)
    && RequestCaseValidatorCycle in d.indexes && d.indexes[RequestCaseValidatorCycle] == REQUEST_INDEX
    && OneRowPerSlot(d.tables[ConsultationRequests].rows)
  }

  lemma {:induction false} NewCycleAccepted(target: Schema, d: Db, row: Row, c: int) returns (d': Db)
    requires Template(d, row) && c >= 1 && !HasCycle(d, row, c)
    ensures Accepted(target, d, d') && Template(d', row) && HasCycle(d', row, c)
    ensures forall c' :: HasCycle(d, row, c') ==> HasCycle(d', row, c')
  {
    var rows := d.tables[ConsultationRequests].rows;
    var id := AboveAll(rows.Keys);
    var next := row[WorkflowCycle := Num(c)];
    var rows' := rows[id := next];
    d' := WithRow(d, ConsultationRequests, id, next);
    assert d'.tables[ConsultationRequests].rows == rows';
    assert next.Keys == row.Keys by { assert WorkflowCycle in row; }
    assert OneRowPerSlot(rows');
    DedupedIsUnique(rows');
    assert IndexesHold(d', ConsultationRequests);
    forall fk | fk in d.foreignKeys && fk.table == ConsultationRequests ensures RowKeyHolds(d', fk, next) && RowKeyHolds(d', fk, row) {
      assert At(next, fk.column) == At(row, fk.column);
    }
    assert Step(target, d, Put(ConsultationRequests, id, next)) == Ok(d');
    assert id in rows' && SameSlot(rows'[id], row[WorkflowCycle := Num(c)]);
    forall c' | HasCycle(d, row, c') ensures HasCycle(d', row, c') {
      var i :| i in rows && SameSlot(rows[i], row[WorkflowCycle := Num(c')]);
      assert rows'[i] == rows[i];
    }
  }

  /** The new index lets one validator hold a request for one case in each of any number of cycles. */
  lemma {:induction false} EveryCycleCanBeHeld(target: Schema, d: Db, row: Row, n: nat) returns (states: seq<Db>, last: Db)
    requires Template(d, row)
    ensures |states| > 0 && states[0] == d && states[|states| - 1] == last && AcceptedRun(target, states)
    ensures Template(last, row)
    ensures forall c :: 1 <= c <= n ==> HasCycle(last, row, c)
    decreases n
  {
    states, last := [d], d;
    if n > 0 {
      states, last := EveryCycleCanBeHeld(target, d, row, n - 1);
      if !HasCycle(last, row, n) {
        last := NewCycleAccepted(target, last, row, n);
        states := states + [last];
      }
    }
  }

  /** The legacy index did not: a second request of a validator for the same case is refused in every cycle. */
  lemma {:induction false} LegacyIndexBlocksNextCycle(target: Schema, d: Db, i: int, id: int, row: Row)
    requires RequestCaseValidator in d.indexes
    requires d.indexes[RequestCaseValidator] == Index(ConsultationRequests, [ValidationCaseId, ValidatorUserId], true)
    requires ConsultationRequests in d.tables && i in d.tables[ConsultationRequests].rows && i != id
    requires At(row, ValidationCaseId) == At(d.tables[ConsultationRequests].rows[i], ValidationCaseId)
    requires At(row, ValidatorUserId) == At(d.tables[ConsultationRequests].rows[i], ValidatorUserId)
    ensures Step(target, d, Put(ConsultationRequests, id, row)).Err?
  {
    if Checked(ConsultationRequests, row) {
      var d' := WithRow(d, ConsultationRequests, id, row);
      var rows' := d'.tables[ConsultationRequests].rows;
      var cols := d'.indexes[RequestCaseValidator].columns;
      assert KeyOf(rows'[i], cols) == KeyOf(rows'[id], cols);
      assert Null !in KeyOf(rows'[i], cols);
      assert !UniqueOn(rows', cols);
    }
  }
}

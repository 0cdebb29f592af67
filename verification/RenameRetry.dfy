/**
 A cleanup that committed before the renames did: the two transactions commute far enough that nothing is lost.
 */
module RenameRetry {
  import opened Outcomes
  import opened Relational
  import opened RowNumber
  import opened Statements
  import opened Migrations
  import opened RenameLaws
  import opened CleanupLaws
  import opened CleanupEffects
  import opened SchemaCreate
  import opened Boots

  function With(d: Db, w: map<TableName, Table>): Db {
    d.(tables := d.tables + w)
  }

  function WithAll(r: Outcome, w: map<TableName, Table>): Outcome {
    if r.Err? then r else Ok(With(r.value, w))
  }

  /** New contents for some of the workflow tables, with the same cases. */
  ghost predicate Replaces(w: map<TableName, Table>, d: Db) {
    && w.Keys <= WORKFLOW_TABLES && w.Keys <= d.tables.Keys
    && (ValidationCases in w ==> w[ValidationCases].rows.Keys == d.tables[ValidationCases].rows.Keys)
  }

  // ---------------------------------------------------------------- the renames do not look at workflow rows

  lemma {:induction false} TableRenameCommutes(d: Db, guard: bool, from: TableName, to: TableName, w: map<TableName, Table>)
    requires Replaces(w, d) && (guard ==> from !in w && to !in w)
    ensures ApplyIf(guard, RenameTable(from, to), With(d, w)) == WithAll(ApplyIf(guard, RenameTable(from, to), d), w)
  {
    if guard && from in d.tables {
      var e := With(d, w);
      assert e.tables[from] == d.tables[from];
      assert (e.tables - {from})[to := d.tables[from]] == (d.tables - {from})[to := d.tables[from]] + w;
    }
  }

  lemma {:induction false} ColumnRenameCommutes(d: Db, guard: bool, t: TableName, from: Column, to: Column, w: map<TableName, Table>)
    requires Replaces(w, d) && t !in WORKFLOW_TABLES
    ensures ApplyIf(guard, RenameColumn(t, from, to), With(d, w)) == WithAll(ApplyIf(guard, RenameColumn(t, from, to), d), w)
  {
    if guard && t in d.tables {
      var e, x := With(d, w), TableWithColumnRenamed(d.tables[t], from, to);
      assert e.tables[t] == d.tables[t];
      assert e.tables[t := x] == d.tables[t := x] + w;
    }
  }

  lemma {:induction false} SameCatalogue(d: Db, w: map<TableName, Table>, name: KeyName)
    requires Replaces(w, d)
    ensures HasKey(With(d, w), name) <==> HasKey(d, name)
    ensures HasKeyOn(With(d, w), ThreadCredentials, name) <==> HasKeyOn(d, ThreadCredentials, name)
    ensures HasColumn(With(d, w), ThreadCredentials, ThreadId) <==> HasColumn(d, ThreadCredentials, ThreadId)
    ensures KeyHolds(With(d, w), CREDENTIAL_KEY) <==> KeyHolds(d, CREDENTIAL_KEY)
  {
    assert With(d, w).foreignKeys == d.foreignKeys;
    assert ThreadCredentials in d.tables ==> With(d, w).tables[ThreadCredentials] == d.tables[ThreadCredentials];
    assert ValidationCases in d.tables ==> With(d, w).tables[ValidationCases].rows.Keys == d.tables[ValidationCases].rows.Keys;
  }

  lemma {:induction false} NormaliseCommutes(d: Db, w: map<TableName, Table>)
    requires Replaces(w, d)
    ensures NormaliseCredentialKey(With(d, w)) == WithAll(NormaliseCredentialKey(d), w)
  {
    SameCatalogue(d, w, ThreadsReceivedCredentials);
    if HasColumn(d, ThreadCredentials, ThreadId) {
      var r := ApplyIf(HasKey(d, ThreadsReceivedCredentials), DropConstraint(ThreadCredentials, ThreadsReceivedCredentials), d);
      if r.Ok? { SameCatalogue(r.value, w, CasesReceivedCredentials); }
    }
  }

  lemma {:induction false} RenameTablesCommute(d: Db, w: map<TableName, Table>)
    requires Replaces(w, d)
    ensures RenameTables(With(d, w)) == WithAll(RenameTables(d), w)
  {
    var g1 := Threads in d.tables && ValidationCases !in d.tables;
    TableRenameCommutes(d, g1, Threads, ValidationCases, w);
    var d1 := ApplyIf(g1, RenameTable(Threads, ValidationCases), d).value;
    assert Replaces(w, d1);
    var g2 := TagThreads in d1.tables && TagValidationCases !in d1.tables;
    TableRenameCommutes(d1, g2, TagThreads, TagValidationCases, w);
    var d2 := ApplyIf(g2, RenameTable(TagThreads, TagValidationCases), d1).value;
    assert Replaces(w, d2);
    var g3 := HasColumn(d2, TagValidationCases, ThreadId) && !HasColumn(d2, TagValidationCases, ValidationCaseId);
    ColumnRenameCommutes(d2, g3, TagValidationCases, ThreadId, ValidationCaseId, w);
  }

  lemma {:induction false} RenamesCommute(d: Db, w: map<TableName, Table>)
    requires Replaces(w, d)
    ensures Renames(With(d, w)) == WithAll(Renames(d), w)
  {
    RenameTablesCommute(d, w);
    RenameTablesEffect(d, CasesReceivedCredentials);
    NormaliseCommutes(RenameTables(d).value, w);
  }

  // ---------------------------------------------------------------- the renames keep what the cleanup reads

  lemma {:induction false} TableRenameKeepsLocal(fks: set<ForeignKey>, from: TableName, to: TableName, t: TableName)
    requires t != from && t != to && forall fk :: fk in fks ==> fk.target != t
    ensures forall fk :: fk in TableInKeys(fks, from, to) ==> fk.target != t
  {}

  lemma {:induction false} RenamesKeepLocal(d: Db, t: TableName)
    requires Unreferenced(d, t) && t !in {Threads, ValidationCases, TagThreads, TagValidationCases} && Renames(d).Ok?
    ensures Unreferenced(Renames(d).value, t)
  {
    TableRenameKeepsLocal(d.foreignKeys, Threads, ValidationCases, t);
    var d1 := ApplyIf(Threads in d.tables && ValidationCases !in d.tables, RenameTable(Threads, ValidationCases), d).value;
    assert Unreferenced(d1, t);
    TableRenameKeepsLocal(d1.foreignKeys, TagThreads, TagValidationCases, t);
    var d2 := ApplyIf(TagThreads in d1.tables && TagValidationCases !in d1.tables, RenameTable(TagThreads, TagValidationCases), d1).value;
    assert Unreferenced(d2, t);
    var d3 := RenameTables(d).value;
    assert Unreferenced(d3, t);
    NormaliseKeepsLocal(d3, t);
  }

  lemma {:induction false} NormaliseKeepsLocal(d: Db, t: TableName)
    requires Unreferenced(d, t) && t != ValidationCases && NormaliseCredentialKey(d).Ok?
    ensures Unreferenced(NormaliseCredentialKey(d).value, t)
  {}

  /** Table t and its indexes are the same in both. */
  ghost predicate SameOn(d: Db, y: Db, t: TableName) {
    && (t in y.tables <==> t in d.tables) && (t in d.tables ==> y.tables[t] == d.tables[t])
    && SameIndexesOn(d, y, t)
  }

  ghost predicate SameWorkflow(d: Db, y: Db) {
    SameOn(d, y, ValidationCases) && SameOn(d, y, ConsultationRequests) && SameOn(d, y, FinalOffers)
  }

  lemma {:induction false} RenamesKeepTable(d: Db, t: TableName)
    requires Renames(d).Ok? && (t in {ConsultationRequests, FinalOffers} || (t == ValidationCases && ValidationCases in d.tables))
    ensures SameOn(d, Renames(d).value, t)
  {
    RenamesPreserveData(d);
    if t == ValidationCases {
      var g2 := TagThreads in d.tables && TagValidationCases !in d.tables;
      var d2 := ApplyIf(g2, RenameTable(TagThreads, TagValidationCases), d).value;
      TableRenameKeepsIndexes(d, g2, TagThreads, TagValidationCases, t);
      var g3 := HasColumn(d2, TagValidationCases, ThreadId) && !HasColumn(d2, TagValidationCases, ValidationCaseId);
      var d3 := ApplyIf(g3, RenameColumn(TagValidationCases, ThreadId, ValidationCaseId), d2).value;
      ColumnRenameKeepsIndexes(d2, g3, TagValidationCases, ThreadId, ValidationCaseId, t);
      NormaliseEffect(d3);
    } else {
      RenamesKeepIndexes(d, t);
    }
  }

  // ---------------------------------------------------------------- the cleanup looks at nothing else

  lemma {:induction false} RaiseTransfers(d: Db, y: Db, t: TableName)
    requires SameOn(d, y, t) && Apply(RaiseToOne(t, WorkflowCycle), d).Ok?
    ensures Apply(RaiseToOne(t, WorkflowCycle), y).Ok?
  {
    var x := d.tables[t].(rows := Raised(d.tables[t].rows, WorkflowCycle));
    var d', y' := d.(tables := d.tables[t := x]), y.(tables := y.tables[t := x]);
    if x == d.tables[t] {
      assert y.tables[t := x] == y.tables;
    } else {
      assert d' != d by { assert d'.tables[t] == x; }
      forall n | n in y.indexes && y.indexes[n].table == t && y.indexes[n].unique ensures UniqueOn(x.rows, y.indexes[n].columns) {
        assert n in d.indexes && d.indexes[n] == y.indexes[n] && d'.tables[t].rows == x.rows;
      }
      assert IndexesHold(y', t) by { assert y'.tables[t].rows == x.rows; }
    }
  }

  lemma {:induction false} WidenAndRaiseTransfer(d: Db, y: Db, t: TableName)
    requires SameOn(d, y, t) && t in d.tables
    requires Apply(RaiseToOne(t, WorkflowCycle), Apply(AddColumnIfMissing(t, WorkflowCycle), d).value).Ok?
    ensures Apply(RaiseToOne(t, WorkflowCycle), Apply(AddColumnIfMissing(t, WorkflowCycle), y).value).Ok?
    ensures Normal(y, t).tables[t] == Normal(d, t).tables[t]
  {
    var add := AddColumnIfMissing(t, WorkflowCycle);
    RaiseTransfers(Apply(add, d).value, Apply(add, y).value, t);
  }

  lemma {:induction false} CasesTransfer(d: Db, y: Db)
    requires SameWorkflow(d, y) && CleanTable(d, ValidationCases, []).Ok?
    ensures CleanTable(y, ValidationCases, []).Ok?
    ensures
      var d', y' := CleanTable(d, ValidationCases, []).value, CleanTable(y, ValidationCases, []).value;
      SameWorkflow(d', y') && d'.foreignKeys == d.foreignKeys && y'.foreignKeys == y.foreignKeys && TableRaised(d', ValidationCases)
  {
    if ValidationCases in d.tables {
      CleanTableUnfolds(d, ValidationCases, []);
      CleanTableUnfolds(y, ValidationCases, []);
      WidenAndRaiseTransfer(d, y, ValidationCases);
      NormalIsRaised(d, ValidationCases);
    }
  }

  const REQUESTS_AND_OFFERS: set<TableName> := {ConsultationRequests, FinalOffers}

  lemma {:induction false} RequestsTransfer(d: Db, y: Db)
    requires SameOn(d, y, ConsultationRequests) && DeletesStayLocal(d) && DeletesStayLocal(y)
    requires CleanTable(d, ConsultationRequests, [DedupRequests]).Ok?
    ensures CleanTable(y, ConsultationRequests, [DedupRequests]).Ok?
    ensures
      var d', y' := CleanTable(d, ConsultationRequests, [DedupRequests]).value, CleanTable(y, ConsultationRequests, [DedupRequests]).value;
      && d'.foreignKeys == d.foreignKeys && y'.foreignKeys == y.foreignKeys && d'.indexes == d.indexes && y'.indexes == y.indexes
      && d'.tables.Keys == d.tables.Keys && y'.tables.Keys == y.tables.Keys
      && (ConsultationRequests in d.tables ==> y'.tables[ConsultationRequests] == d'.tables[ConsultationRequests])
      && (forall t :: t in d.tables && t != ConsultationRequests ==> d'.tables[t] == d.tables[t])
      && (forall t :: t in y.tables && t != ConsultationRequests ==> y'.tables[t] == y.tables[t])
  {
    if ConsultationRequests in d.tables {
      LocalDeletesLead(d);
      LocalDeletesLead(y);
      CleanTableUnfolds(d, ConsultationRequests, [DedupRequests]);
      CleanTableUnfolds(y, ConsultationRequests, [DedupRequests]);
      WidenAndRaiseTransfer(d, y, ConsultationRequests);
      var n, m := Normal(d, ConsultationRequests), Normal(y, ConsultationRequests);
      ApplyOne(DedupRequests, n);
      ApplyOne(DedupRequests, m);
      UnblockedDelete(m, ConsultationRequests, Surplus(RequestEntries(m.tables[ConsultationRequests].rows)), REQUESTS_AND_OFFERS);
      RequestsStep(d, REQUESTS_AND_OFFERS);
      RequestsStep(y, REQUESTS_AND_OFFERS);
    }
  }

  lemma {:induction false} OffersTransfer(d: Db, y: Db)
    requires SameWorkflow(d, y) && DeletesStayLocal(y) && CleanTable(d, FinalOffers, [DedupOffers]).Ok?
    ensures CleanTable(y, FinalOffers, [DedupOffers]).Ok?
  {
    if FinalOffers in d.tables {
      LocalDeletesLead(y);
      CleanTableUnfolds(d, FinalOffers, [DedupOffers]);
      CleanTableUnfolds(y, FinalOffers, [DedupOffers]);
      WidenAndRaiseTransfer(d, y, FinalOffers);
      var n, m := Normal(d, FinalOffers), Normal(y, FinalOffers);
      ApplyOne(DedupOffers, n);
      ApplyOne(DedupOffers, m);
      assert m.tables[ValidationCases] == n.tables[ValidationCases];
      UnblockedDelete(m, FinalOffers, Surplus(OfferEntries(m.tables[FinalOffers].rows, m.tables[ValidationCases].rows)), REQUESTS_AND_OFFERS);
    }
  }

  lemma {:induction false} CleanupCommitsAlike(d: Db, y: Db)
    requires SameWorkflow(d, y) && DeletesStayLocal(d) && DeletesStayLocal(y) && Cleanup(d).Ok?
    ensures Cleanup(y).Ok?
  {
    CasesTransfer(d, y);
    var d1, y1 := CleanTable(d, ValidationCases, []).value, CleanTable(y, ValidationCases, []).value;
    RequestsTransfer(d1, y1);
    OffersTransfer(CleanTable(d1, ConsultationRequests, [DedupRequests]).value, CleanTable(y1, ConsultationRequests, [DedupRequests]).value);
  }

  /** The workflow tables as a committed cleanup leaves them. */
  function Cleaned(d: Db): map<TableName, Table>
    requires Cleanup(d).Ok?
  {
    map t | t in WORKFLOW_TABLES && t in d.tables && t in Cleanup(d).value.tables :: Cleanup(d).value.tables[t]
  }

  /** The cleanup depends on the workflow tables and their indexes, and changes nothing else. */
  lemma {:induction false} CleanupTransfers(d: Db, y: Db)
    requires SameWorkflow(d, y) && DeletesStayLocal(d) && DeletesStayLocal(y) && Cleanup(d).Ok?
    ensures Cleanup(y) == Ok(With(y, Cleaned(d)))
  {
    CleanupCommitsAlike(d, y);
    LocalDeletesLead(d);
    LocalDeletesLead(y);
    CleanupEffect(d);
    CleanupEffect(y);
    var d', y' := Cleanup(d).value, Cleanup(y).value;
    forall t | t in y.tables ensures y'.tables[t] == With(y, Cleaned(d)).tables[t] {
      if t in WORKFLOW_TABLES { assert y'.tables[t] == d'.tables[t]; }
    }
    assert y'.tables == With(y, Cleaned(d)).tables;
  }

  lemma {:induction false} SameTablesSameClean(d: Db, y: Db)
    requires CleanSettled(d) && (forall t :: t in WORKFLOW_TABLES ==> (t in y.tables <==> t in d.tables))
    requires forall t :: t in WORKFLOW_TABLES && t in d.tables ==> y.tables[t] == d.tables[t]
    ensures CleanSettled(y)
  {}

  // ---------------------------------------------------------------- a cleanup before the renames is not lost

  lemma {:induction false} CleanupReplaces(d: Db)
    requires DeletesStayLocal(d) && Cleanup(d).Ok?
    ensures Replaces(Cleaned(d), d) && Cleanup(d).value == With(d, Cleaned(d)) && DeletesStayLocal(Cleanup(d).value)
    ensures FinalOffers in d.tables ==> ValidationCases in d.tables
  {
    LocalDeletesLead(d);
    CleanupEffect(d);
    assert Cleanup(d).value.tables == With(d, Cleaned(d)).tables;
  }

  /** Where the case table already has its new name, the renames touch nothing the cleanup reads. */
  lemma {:induction false} AbsorbedWithCases(d0: Db)
    requires DeletesStayLocal(d0) && ValidationCases in d0.tables && Cleanup(d0).Ok? && Renames(d0).Ok?
    ensures Cleanup(With(Renames(d0).value, Cleaned(d0))) == Cleanup(Renames(d0).value)
  {
    var r, w := Renames(d0).value, Cleaned(d0);
    RenamesKeepTable(d0, ValidationCases);
    RenamesKeepTable(d0, ConsultationRequests);
    RenamesKeepTable(d0, FinalOffers);
    RenamesKeepLocal(d0, ConsultationRequests);
    RenamesKeepLocal(d0, FinalOffers);
    CleanupTransfers(d0, r);
    CleanupKeepsStructure(d0);
    CleanupSettles(d0);
    SameTablesSameClean(Cleanup(d0).value, With(r, w));
    SettledCleanupIsIdentity(With(r, w));
  }

  lemma {:induction false} CleanedRequestsStay(d: Db)
    requires ConsultationRequests in d.tables && TableRaised(d, ConsultationRequests) && TableDeduped(d, ConsultationRequests)
    ensures CleanTable(d, ConsultationRequests, [DedupRequests]) == Ok(d)
  {
    RaisedTableStays(d, ConsultationRequests, [DedupRequests]);
    ApplyOne(DedupRequests, d);
    NothingToDelete(d, ConsultationRequests, RequestEntries(d.tables[ConsultationRequests].rows));
  }

  lemma {:induction false} CasesStepCommutes(d: Db, w: map<TableName, Table>)
    requires w.Keys == {ConsultationRequests} && ConsultationRequests in d.tables
    ensures CleanTable(With(d, w), ValidationCases, []) == WithAll(CleanTable(d, ValidationCases, []), w)
    ensures CleanTable(d, ValidationCases, []).Ok? ==>
              var y := CleanTable(d, ValidationCases, []).value;
              && SameOn(d, y, ConsultationRequests) && y.foreignKeys == d.foreignKeys && y.tables.Keys == d.tables.Keys
  {
    if ValidationCases in d.tables {
      CleanTableUnfolds(d, ValidationCases, []);
      CleanTableUnfolds(With(d, w), ValidationCases, []);
      var add := AddColumnIfMissing(ValidationCases, WorkflowCycle);
      var d1 := Apply(add, d).value;
      assert Apply(add, With(d, w)).value == With(d1, w) by {
        assert Apply(add, With(d, w)).value.tables == With(d1, w).tables;
      }
      CaseRaiseCommutes(d1, w);
      assert Normal(With(d, w), ValidationCases).tables == With(Normal(d, ValidationCases), w).tables;
    }
  }

  lemma {:induction false} CaseRaiseCommutes(d: Db, w: map<TableName, Table>)
    requires w.Keys == {ConsultationRequests} && ConsultationRequests in d.tables && ValidationCases in d.tables
    ensures
      var r, r' := Apply(RaiseToOne(ValidationCases, WorkflowCycle), d), Apply(RaiseToOne(ValidationCases, WorkflowCycle), With(d, w));
      (r'.Ok? <==> r.Ok?) && (r.Err? ==> r' == r)
  {
    var t := d.tables[ValidationCases].(rows := Raised(d.tables[ValidationCases].rows, WorkflowCycle));
    var d' := d.(tables := d.tables[ValidationCases := t]);
    var e := With(d, w);
    var e' := e.(tables := e.tables[ValidationCases := t]);
    if t == d.tables[ValidationCases] {
      assert d'.tables == d.tables && e'.tables == e.tables;
    } else {
      assert d'.tables[ValidationCases] != d.tables[ValidationCases] && e'.tables[ValidationCases] != e.tables[ValidationCases];
      assert IndexesHold(e', ValidationCases) <==> IndexesHold(d', ValidationCases) by {
        assert e'.tables[ValidationCases] == d'.tables[ValidationCases] && e'.indexes == d'.indexes;
      }
    }
  }

  /** Where it has not, only requests can have been cleaned; the rename brings the cases, whose own step comes first. */
  lemma {:induction false} AbsorbedWithoutCases(d0: Db)
    requires DeletesStayLocal(d0) && ValidationCases !in d0.tables && ConsultationRequests in d0.tables && FinalOffers !in d0.tables
    requires Cleanup(d0).Ok? && Renames(d0).Ok?
    ensures Cleanup(With(Renames(d0).value, Cleaned(d0))) == Cleanup(Renames(d0).value)
  {
    var r, w := Renames(d0).value, Cleaned(d0);
    RequestsKeepStructure(d0);
    assert CleanTable(d0, ConsultationRequests, [DedupRequests]) == Cleanup(d0);
    CleanRequests(d0);
    RenamesKeepTable(d0, ConsultationRequests);
    RenamesKeepTable(d0, FinalOffers);
    RenamesKeepLocal(d0, ConsultationRequests);
    RenamesKeepLocal(d0, FinalOffers);
    CleanupKeepsStructure(d0);
    CasesStepCommutes(r, w);
    if CleanTable(r, ValidationCases, []).Ok? {
      RequestsAbsorb(d0, CleanTable(r, ValidationCases, []).value, w);
    }
  }

  lemma {:induction false} RequestsAbsorb(d0: Db, y: Db, w: map<TableName, Table>)
    requires DeletesStayLocal(d0) && DeletesStayLocal(y) && ConsultationRequests in d0.tables && SameOn(d0, y, ConsultationRequests)
    requires CleanTable(d0, ConsultationRequests, [DedupRequests]).Ok?
    requires var d := CleanTable(d0, ConsultationRequests, [DedupRequests]).value;
      ConsultationRequests in d.tables && w == map[ConsultationRequests := d.tables[ConsultationRequests]]
    ensures CleanTable(y, ConsultationRequests, [DedupRequests]) == Ok(With(y, w))
    ensures CleanTable(With(y, w), ConsultationRequests, [DedupRequests]) == Ok(With(y, w))
  {
    RequestsTransfer(d0, y);
    var y' := CleanTable(y, ConsultationRequests, [DedupRequests]).value;
    assert y'.tables == With(y, w).tables;
    CleanRequests(y);
    CleanedRequestsStay(y');
  }

  /** A cleanup that committed before the renames changes nothing about where the startup ends. */
  lemma {:induction false} EarlyCleanupIsHarmless(target: Schema, d0: Db)
    requires DeletesStayLocal(d0) && Cleanup(d0).Ok?
    ensures Uninterrupted(target, Cleanup(d0).value) == Uninterrupted(target, d0)
  {
    var w := Cleaned(d0);
    CleanupReplaces(d0);
    RenamesCommute(d0, w);
    if Renames(d0).Ok? {
      if ValidationCases in d0.tables {
        AbsorbedWithCases(d0);
      } else if ConsultationRequests in d0.tables {
        AbsorbedWithoutCases(d0);
      } else {
        assert w == map[];
        assert With(Renames(d0).value, w).tables == Renames(d0).value.tables;
      }
    }
  }
}

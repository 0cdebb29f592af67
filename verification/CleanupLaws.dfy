/** What the pre-schema cleanup leaves behind, for every legacy content. */
module CleanupLaws {
  import opened Outcomes
  import opened Relational
  import opened RowNumber
  import opened Statements
  import opened Migrations

  // ---------------------------------------------------------------- deleting rows

  /** d' is d with some rows gone. */
  ghost predicate Shrinks(d: Db, d': Db) {
    && d'.tables.Keys == d.tables.Keys && d'.foreignKeys == d.foreignKeys && d'.indexes == d.indexes
    && forall t :: t in d.tables ==>
      && d'.tables[t].columns == d.tables[t].columns
      && d'.tables[t].rows.Keys <= d.tables[t].rows.Keys
      && forall i :: i in d'.tables[t].rows ==> d'.tables[t].rows[i] == d.tables[t].rows[i]
  }

  lemma {:induction false} DeleteShrinks(d: Db, t: TableName, ids: set<int>)
    requires DeleteRows(d, t, ids).Ok?
    ensures Shrinks(d, DeleteRows(d, t, ids).value)
    ensures DeleteRows(d, t, ids).value.tables[t].rows.Keys !! ids
  {
    forall i | i in ids ensures (t, i) in CascadeFrom(d, RefsTo(t, ids)) {
      assert (t, i) in RefsTo(t, ids);
    }
  }

  ghost predicate Unreferenced(d: Db, t: TableName) {
    forall fk :: fk in d.foreignKeys ==> fk.target != t
  }

  /** A delete that no foreign key can notice removes the named rows and nothing else. */
  lemma {:induction false} DeleteUnreferenced(d: Db, t: TableName, ids: set<int>)
    requires t in d.tables && (ids == {} || Unreferenced(d, t))
    ensures DeleteRows(d, t, ids)
         == Ok(d.(tables := d.tables[t := d.tables[t].(rows := d.tables[t].rows - ids)]))
  {
    var s := RefsTo(t, ids);
    forall fk, p | fk in d.foreignKeys ensures !PointsInto(d, fk, p, s) {}
    assert Dependents(d, s) == {};
    assert CascadeFrom(d, s) == s;
    var d' := Without(d, s);
    forall n | n in d.tables && n != t ensures d'.tables[n] == d.tables[n] {
      assert d'.tables[n].rows == d.tables[n].rows;
    }
    assert forall i :: (t, i) in s <==> i in ids;
    assert d'.tables[t].rows == d.tables[t].rows - ids;
    assert d'.tables == d.tables[t := d.tables[t].(rows := d.tables[t].rows - ids)];
  }

  // ---------------------------------------------------------------- one table

  ghost predicate TableRaised(d: Db, t: TableName) {
    t in d.tables ==>
      && WorkflowCycle in d.tables[t].columns
      && forall i :: i in d.tables[t].rows ==>
        var c := At(d.tables[t].rows[i], WorkflowCycle);
        c.Num? ==> c.n >= 1
  }

  /** At most one row per (case, validator, cycle). */
  ghost predicate OneRowPerSlot(rows: map<int, Row>) {
    forall i, j :: i in rows && j in rows && SameSlot(rows[i], rows[j]) ==> i == j
  }

  ghost predicate TableDeduped(d: Db, t: TableName) {
    t in d.tables ==> RANK_COLUMNS <= d.tables[t].columns && OneRowPerSlot(d.tables[t].rows)
  }

  /** The rows of a table once the cycle column exists and is at least 1 where it has a value. */
  function NormalRows(t: Table): map<int, Row> {
    Raised(WithColumn(t, WorkflowCycle, Num(1)).rows, WorkflowCycle)
  }

  function Normal(d: Db, t: TableName): Db
    requires t in d.tables
  {
    d.(tables := d.tables[t := Table(d.tables[t].columns + {WorkflowCycle}, NormalRows(d.tables[t]))])
  }

  lemma {:induction false} ApplyAllUnfolds(s: Stmt, rest: seq<Stmt>, d: Db)
    ensures ApplyAll([s] + rest, d) == var r := Apply(s, d); if r.Err? then r else ApplyAll(rest, r.value)
  {
    assert ([s] + rest)[1..] == rest;
  }

  lemma {:induction false} RaisingGivesNormal(d: Db, t: TableName)
    requires t in d.tables
    ensures Apply(AddColumnIfMissing(t, WorkflowCycle), d).Ok?
    ensures
      var r := Apply(RaiseToOne(t, WorkflowCycle), Apply(AddColumnIfMissing(t, WorkflowCycle), d).value);
      r.Ok? ==> r.value == Normal(d, t)
  {
    var d1 := Apply(AddColumnIfMissing(t, WorkflowCycle), d).value;
    assert d1.tables[t] == WithColumn(d.tables[t], WorkflowCycle, Num(1));
    assert d1.tables[t].columns == d.tables[t].columns + {WorkflowCycle};
    var r := Apply(RaiseToOne(t, WorkflowCycle), d1);
    if r.Ok? {
      assert r.value.tables == Normal(d, t).tables;
    }
  }

  lemma {:induction false} CleanTableUnfolds(d: Db, t: TableName, more: seq<Stmt>)
    requires t in d.tables
    ensures
      var r := Apply(RaiseToOne(t, WorkflowCycle), Apply(AddColumnIfMissing(t, WorkflowCycle), d).value);
      CleanTable(d, t, more) == if r.Err? then r else ApplyAll(more, Normal(d, t))
  {
    RaisingGivesNormal(d, t);
    var raise := [RaiseToOne(t, WorkflowCycle)] + more;
    assert WidenAndRaise(t) + more == [AddColumnIfMissing(t, WorkflowCycle)] + raise;
    ApplyAllUnfolds(AddColumnIfMissing(t, WorkflowCycle), raise, d);
    ApplyAllUnfolds(RaiseToOne(t, WorkflowCycle), more, Apply(AddColumnIfMissing(t, WorkflowCycle), d).value);
  }

  lemma {:induction false} NormalIsRaised(d: Db, t: TableName)
    requires t in d.tables
    ensures TableRaised(Normal(d, t), t)
    ensures TableRaised(d, t) ==> Normal(d, t) == d
  {
    if TableRaised(d, t) {
      var rows := d.tables[t].rows;
      assert WithColumn(d.tables[t], WorkflowCycle, Num(1)).rows == rows;
      forall i | i in rows ensures Raised(rows, WorkflowCycle)[i] == rows[i] {}
      assert NormalRows(d.tables[t]) == rows;
      assert d.tables[t].columns + {WorkflowCycle} == d.tables[t].columns;
      assert d.tables[t := d.tables[t]] == d.tables;
    }
  }

  lemma {:induction false} SparedAreDistinct(e: Entries, rows: map<int, Row>, i: int, j: int)
    requires i in e && j in e && i in rows && j in rows && e[i].key == KeyOf(rows[i], CYCLE_KEY) && e[j].key == KeyOf(rows[j], CYCLE_KEY)
    requires i !in Surplus(e) && j !in Surplus(e) && SameSlot(rows[i], rows[j])
    ensures i == j
  {
    SlotIsKey(rows[i], rows[j]);
    RankedDeleteSparesTheBest(e, i);
    RankedDeleteSparesTheBest(e, j);
  }

  /** A ranked delete leaves one row per key, also when cascades take further rows. */
  lemma {:induction false} RankedDeleteDedups(d: Db, t: TableName, e: Entries)
    requires t in d.tables && e.Keys == d.tables[t].rows.Keys
    requires forall i :: i in e ==> e[i].key == KeyOf(d.tables[t].rows[i], CYCLE_KEY)
    requires DeleteRows(d, t, Surplus(e)).Ok?
    ensures OneRowPerSlot(DeleteRows(d, t, Surplus(e)).value.tables[t].rows)
  {
    DeleteShrinks(d, t, Surplus(e));
    var before, rows := d.tables[t].rows, DeleteRows(d, t, Surplus(e)).value.tables[t].rows;
    forall i, j | i in rows && j in rows && SameSlot(rows[i], rows[j]) ensures i == j {
      assert i in e && j in e && i !in Surplus(e) && j !in Surplus(e);
      SparedAreDistinct(e, before, i, j);
    }
  }

  lemma {:induction false} NothingToDelete(d: Db, t: TableName, e: Entries)
    requires t in d.tables && OneRowPerSlot(d.tables[t].rows) && e.Keys == d.tables[t].rows.Keys
    requires forall i :: i in e ==> e[i].key == KeyOf(d.tables[t].rows[i], CYCLE_KEY)
    ensures DeleteRows(d, t, Surplus(e)) == Ok(d)
  {
    var rows := d.tables[t].rows;
    forall i, j | i in e && j in e && e[i].key == e[j].key ensures i == j { SlotIsKey(rows[i], rows[j]); }
    NoSurplusIffDistinct(e);
    DeleteUnreferenced(d, t, {});
    assert d.tables[t].rows - {} == d.tables[t].rows;
    assert d.tables[t := d.tables[t]] == d.tables;
  }

  // ---------------------------------------------------------------- the whole cleanup

  /** Nothing is left for the cleanup to do, and it has all it reads. */
  ghost predicate CleanSettled(d: Db) {
    && TableRaised(d, ValidationCases) && TableRaised(d, ConsultationRequests) && TableRaised(d, FinalOffers)
    && TableDeduped(d, ConsultationRequests) && TableDeduped(d, FinalOffers)
    && (FinalOffers in d.tables ==> HasColumn(d, ValidationCases, AcceptedFinalOfferId))
  }

  lemma {:induction false} ApplyOne(s: Stmt, d: Db)
    ensures ApplyAll([s], d) == Apply(s, d)
  {
    assert [s][1..] == [];
  }

  lemma {:induction false} ShrinkKeepsClean(d: Db, d': Db, t: TableName)
    requires Shrinks(d, d')
    ensures TableRaised(d, t) ==> TableRaised(d', t)
    ensures TableDeduped(d, t) ==> TableDeduped(d', t)
  {}

  lemma {:induction false} DedupRequestsEffect(d: Db)
    requires Apply(DedupRequests, d).Ok?
    ensures Shrinks(d, Apply(DedupRequests, d).value) && TableDeduped(Apply(DedupRequests, d).value, ConsultationRequests)
  {
    var e := RequestEntries(d.tables[ConsultationRequests].rows);
    DeleteShrinks(d, ConsultationRequests, Surplus(e));
    RankedDeleteDedups(d, ConsultationRequests, e);
  }

  lemma {:induction false} DedupOffersEffect(d: Db)
    requires Apply(DedupOffers, d).Ok?
    ensures Shrinks(d, Apply(DedupOffers, d).value) && TableDeduped(Apply(DedupOffers, d).value, FinalOffers)
    ensures HasColumn(d, ValidationCases, AcceptedFinalOfferId)
  {
    var e := OfferEntries(d.tables[FinalOffers].rows, d.tables[ValidationCases].rows);
    DeleteShrinks(d, FinalOffers, Surplus(e));
    RankedDeleteDedups(d, FinalOffers, e);
  }

  lemma {:induction false} CleanRequests(d: Db)
    requires CleanTable(d, ConsultationRequests, [DedupRequests]).Ok?
    ensures
      var d' := CleanTable(d, ConsultationRequests, [DedupRequests]).value;
      && TableRaised(d', ConsultationRequests) && TableDeduped(d', ConsultationRequests)
      && (TableRaised(d, ValidationCases) ==> TableRaised(d', ValidationCases))
  {
    if ConsultationRequests in d.tables {
      CleanTableUnfolds(d, ConsultationRequests, [DedupRequests]);
      var d1 := Normal(d, ConsultationRequests);
      NormalIsRaised(d, ConsultationRequests);
      ApplyOne(DedupRequests, d1);
      DedupRequestsEffect(d1);
      ShrinkKeepsClean(d1, Apply(DedupRequests, d1).value, ConsultationRequests);
      ShrinkKeepsClean(d1, Apply(DedupRequests, d1).value, ValidationCases);
    }
  }

  lemma {:induction false} CleanOffers(d: Db)
    requires CleanTable(d, FinalOffers, [DedupOffers]).Ok?
    ensures
      var d' := CleanTable(d, FinalOffers, [DedupOffers]).value;
      && TableRaised(d', FinalOffers) && TableDeduped(d', FinalOffers)
      && (FinalOffers in d'.tables ==> HasColumn(d', ValidationCases, AcceptedFinalOfferId))
      && (TableRaised(d, ValidationCases) ==> TableRaised(d', ValidationCases))
      && (TableRaised(d, ConsultationRequests) ==> TableRaised(d', ConsultationRequests))
      && (TableDeduped(d, ConsultationRequests) ==> TableDeduped(d', ConsultationRequests))
  {
    if FinalOffers in d.tables {
      CleanTableUnfolds(d, FinalOffers, [DedupOffers]);
      var d1 := Normal(d, FinalOffers);
      NormalIsRaised(d, FinalOffers);
      ApplyOne(DedupOffers, d1);
      DedupOffersEffect(d1);
      ShrinkKeepsClean(d1, Apply(DedupOffers, d1).value, FinalOffers);
      ShrinkKeepsClean(d1, Apply(DedupOffers, d1).value, ValidationCases);
      ShrinkKeepsClean(d1, Apply(DedupOffers, d1).value, ConsultationRequests);
    }
  }

  /** A committed cleanup leaves every cycle at 1 or more and one row per key, for all legacy contents. */
  lemma {:induction false} CleanupSettles(d: Db)
    requires Cleanup(d).Ok?
    ensures CleanSettled(Cleanup(d).value)
  {
    var d1 := CleanTable(d, ValidationCases, []).value;
    if ValidationCases in d.tables {
      CleanTableUnfolds(d, ValidationCases, []);
      NormalIsRaised(d, ValidationCases);
    }
    CleanRequests(d1);
    CleanOffers(CleanTable(d1, ConsultationRequests, [DedupRequests]).value);
  }

  lemma {:induction false} RaisedTableStays(d: Db, t: TableName, more: seq<Stmt>)
    requires TableRaised(d, t)
    ensures CleanTable(d, t, more) == if t in d.tables then ApplyAll(more, d) else Ok(d)
  {
    if t in d.tables {
      CleanTableUnfolds(d, t, more);
      var d1 := Apply(AddColumnIfMissing(t, WorkflowCycle), d).value;
      assert d.tables[t := d.tables[t]] == d.tables;
      assert d1 == d;
      NormalIsRaised(d, t);
      assert Raised(d.tables[t].rows, WorkflowCycle) == d.tables[t].rows;
      assert Apply(RaiseToOne(t, WorkflowCycle), d) == Ok(d);
    }
  }

  /** On a settled database the cleanup succeeds and changes nothing. */
  lemma {:induction false} SettledCleanupIsIdentity(d: Db)
    requires CleanSettled(d)
    ensures Cleanup(d) == Ok(d)
  {
    RaisedTableStays(d, ValidationCases, []);
    RaisedTableStays(d, ConsultationRequests, [DedupRequests]);
    RaisedTableStays(d, FinalOffers, [DedupOffers]);
    ApplyOne(DedupRequests, d);
    ApplyOne(DedupOffers, d);
    if ConsultationRequests in d.tables {
      NothingToDelete(d, ConsultationRequests, RequestEntries(d.tables[ConsultationRequests].rows));
    }
    if FinalOffers in d.tables {
      NothingToDelete(d, FinalOffers, OfferEntries(d.tables[FinalOffers].rows, d.tables[ValidationCases].rows));
    }
  }
}

/**
 When the rename transaction did not commit at the first start.  The exact condition for recovery, on every database:
 it commits before the schema is created for the first time, or it had no table or column to rename.
 */
module LateRenames {
  import opened Outcomes
  import opened Relational
  import opened RowNumber
  import opened Statements
  import opened Migrations
  import opened RenameLaws
  import opened CleanupLaws
  import opened CleanupEffects
  import opened SchemaCreate
  import opened Boots
  import opened RenameRetry

  ghost predicate AllUnrenamed(bs: seq<Boot>) {
    forall k :: 0 <= k < |bs| ==> !bs[k].renamed
  }

  ghost predicate NeverCreatedSchema(bs: seq<Boot>) {
    forall k :: 0 <= k < |bs| ==> bs[k].reached <= 1
  }

  /** A table or a column still waits for its new name. */
  ghost predicate Pending(d: Db) {
    MovesCases(d) || MovesTags(d) || MovesColumn(d)
  }

  // ---------------------------------------------------------------- stranded behind a created schema

  lemma {:induction false} SchemaCreationStrands(target: Schema, d: Db, early: seq<Boot>)
    requires Full(target) && AllUnrenamed(early) && !NeverCreatedSchema(early) && RunBoots(target, d, early).Ok?
    ensures
      var d' := RunBoots(target, d, early).value;
      && (Threads in d.tables ==> BothCases(d')) && (TagThreads in d.tables ==> BothTags(d'))
      && (HasColumn(d, TagValidationCases, ThreadId) ==> BothColumns(d'))
    decreases |early|
  {
    var d' := RunBoot(target, d, early[0]).value;
    assert early[0] == Boot(false, early[0].reached);
    UnrenamedBootGrows(target, d, early[0].reached);
    if early[0].reached >= 2 {
      BothStay(target, d', early[1..]);
    } else {
      var k :| 0 <= k < |early| && early[k].reached > 1;
      assert early[1..][k - 1] == early[k];
      SchemaCreationStrands(target, d', early[1..]);
    }
  }

  lemma {:induction false} StepsKeepNames(target: Schema, d: Db)
    requires Wanted(target) && RunBoot(target, d, Boot(false, 3)).Ok?
    ensures
      var d' := RunBoot(target, d, Boot(false, 3)).value;
      && d'.tables.Keys == d.tables.Keys + target.tables.Keys
      && (HasColumn(d', TagValidationCases, ThreadId) ==> HasColumn(d, TagValidationCases, ThreadId))
  {
    CleanupKeepsStructure(d);
    MigrationAlwaysCommits(target, d);
    var p := Cleanup(d).value;
    if HasColumn(p, TagValidationCases, ThreadId) {
      assert ThreadId in p.tables[TagValidationCases].columns - {WorkflowCycle};
      assert ThreadId in d.tables[TagValidationCases].columns - {WorkflowCycle};
    }
  }

  /** A single start moves whatever is pending, so nothing stands beside its replacement. */
  lemma {:induction false} UninterruptedMoves(target: Schema, d0: Db)
    requires Wanted(target) && Uninterrupted(target, d0).Ok?
    ensures
      var d' := Uninterrupted(target, d0).value;
      && (MovesCases(d0) ==> !BothCases(d')) && (MovesTags(d0) ==> !BothTags(d'))
      && (MovesColumn(d0) ==> !BothColumns(d'))
  {
    RenamesPreserveData(d0);
    StepsKeepNames(target, Renames(d0).value);
  }

  // ---------------------------------------------------------------- with nothing pending, the renames commute with every step

  lemma {:induction false} RenamesAre(d: Db)
    requires !Pending(d) && RenamesCanCommit(d)
    ensures Renames(d) == Ok(d.(foreignKeys := RenamedKeys(d)))
  {
    RenamesCommitIff(d);
    assert RenameTables(d) == Ok(d);
    NormaliseIs(d);
  }

  /** The renames have nothing to move, can commit, and the cleanup's deletes stay local. */
  ghost predicate Ready(d: Db) {
    !Pending(d) && RenamesCanCommit(d) && DeletesStayLocal(d)
  }

  lemma {:induction false} CleanupOnRenamed(d: Db)
    requires Ready(d) && Cleanup(d).Ok?
    ensures Renames(d).Ok? && Cleanup(Renames(d).value) == Ok(With(Renames(d).value, Cleaned(d)))
  {
    RenamesAre(d);
    RenamesKeepLocal(d, ConsultationRequests);
    RenamesKeepLocal(d, FinalOffers);
    CleanupTransfers(d, Renames(d).value);
  }

  lemma {:induction false} CleanupThenRename(d: Db)
    requires Ready(d) && Cleanup(d).Ok?
    ensures Renames(d).Ok? && Ready(Cleanup(d).value) && Renames(Cleanup(d).value) == Cleanup(Renames(d).value)
  {
    CleanupOnRenamed(d);
    CleanupReplaces(d);
    RenamesCommute(d, Cleaned(d));
    RenamesCommitIff(Cleanup(d).value);
    CleanupKeepsNothingPending(d);
  }

  lemma {:induction false} CleanupKeepsNothingPending(d: Db)
    requires !Pending(d) && Cleanup(d).Ok?
    ensures !Pending(Cleanup(d).value)
  {
    CleanupKeepsStructure(d);
    var d' := Cleanup(d).value;
    forall t, c | t in d.tables && c != WorkflowCycle ensures HasColumn(d', t, c) <==> HasColumn(d, t, c) {
      assert c in d'.tables[t].columns - {WorkflowCycle} <==> c in d'.tables[t].columns;
      assert c in d.tables[t].columns - {WorkflowCycle} <==> c in d.tables[t].columns;
    }
  }

  lemma {:induction false} MoreKeysSameNames(d: Db, d': Db, more: set<ForeignKey>, name: KeyName)
    requires d'.foreignKeys == d.foreignKeys + more
    requires forall fk :: fk in more ==> fk.name != name
    ensures HasKey(d', name) <==> HasKey(d, name)
    ensures HasKeyOn(d', ThreadCredentials, name) <==> HasKeyOn(d, ThreadCredentials, name)
  {
    if HasKey(d, name) {
      var fk :| fk in d.foreignKeys && fk.name == name;
      assert fk in d'.foreignKeys;
    }
    if HasKeyOn(d, ThreadCredentials, name) {
      var fk :| fk in d.foreignKeys && fk.table == ThreadCredentials && fk.name == name;
      assert fk in d'.foreignKeys;
    }
  }

  lemma {:induction false} SchemaKeepsReady(target: Schema, d: Db)
    requires Full(target) && Ready(d) && CreateSchema(target, d).Ok?
    ensures Ready(CreateSchema(target, d).value)
  {
    var s, more := CreateSchema(target, d).value, MissingKeys(target, d);
    MoreKeysSameNames(d, s, more, ThreadsReceivedCredentials);
    MoreKeysSameNames(d, s, more, CasesReceivedCredentials);
    assert !Pending(s);
    assert ThreadCredentials in d.tables ==> s.tables[ThreadCredentials] == d.tables[ThreadCredentials];
    assert ThreadCredentials in s.tables ==> ThreadCredentials in d.tables;
    assert ValidationCases in d.tables ==> s.tables[ValidationCases].rows.Keys == d.tables[ValidationCases].rows.Keys;
  }

  lemma {:induction false} NormalKeysOfMore(fks: set<ForeignKey>, more: set<ForeignKey>)
    requires forall fk :: fk in more ==> fk.name != ThreadsReceivedCredentials && fk.name != CasesReceivedCredentials
    ensures NormalKeys(fks + more) == NormalKeys(fks) + more
  {
    assert (exists fk :: fk in fks && fk.name == CasesReceivedCredentials) <==> exists fk :: fk in fks + more && fk.name == CasesReceivedCredentials by {
      if fk :| fk in fks && fk.name == CasesReceivedCredentials { assert fk in fks + more; }
    }
  }

  lemma {:induction false} SameMissingKeys(target: Schema, d: Db)
    requires Wanted(target)
    ensures MissingKeys(target, d.(foreignKeys := RenamedKeys(d))) == MissingKeys(target, d)
  {
    var r := d.(foreignKeys := RenamedKeys(d));
    forall fk | fk in target.foreignKeys ensures HasKeyOn(r, fk.table, fk.name) <==> HasKeyOn(d, fk.table, fk.name) {
      if HasKeyOn(d, fk.table, fk.name) {
        var k :| k in d.foreignKeys && k.table == fk.table && k.name == fk.name;
        assert k in r.foreignKeys;
      }
    }
  }

  lemma {:induction false} SchemaIgnoresOtherKeys(target: Schema, d: Db, keys: set<ForeignKey>)
    requires CreateSchema(target, d).Ok? && MissingKeys(target, d.(foreignKeys := keys)) == MissingKeys(target, d)
    ensures CreateSchema(target, d.(foreignKeys := keys)) == Ok(CreateSchema(target, d).value.(foreignKeys := keys + MissingKeys(target, d)))
  {
    var r := d.(foreignKeys := keys);
    assert CompletedTables(target, r) == CompletedTables(target, d);
    var d1, r1 := d.(tables := CompletedTables(target, d)), r.(tables := CompletedTables(target, r));
    forall fk | fk in MissingKeys(target, d) ensures KeyHolds(r1, fk) { assert KeyHolds(d1, fk); }
  }

  lemma {:induction false} SchemaRenamedKeys(target: Schema, d: Db)
    requires Full(target) && CreateSchema(target, d).Ok?
    ensures RenamedKeys(CreateSchema(target, d).value) == RenamedKeys(d) + MissingKeys(target, d)
  {
    var s := CreateSchema(target, d).value;
    NormalKeysOfMore(d.foreignKeys, MissingKeys(target, d));
    assert HasColumn(s, ThreadCredentials, ThreadId) <==> HasColumn(d, ThreadCredentials, ThreadId);
  }

  lemma {:induction false} SchemaThenRename(target: Schema, d: Db)
    requires Full(target) && Ready(d) && CreateSchema(target, d).Ok?
    ensures Renames(d).Ok? && Renames(CreateSchema(target, d).value) == CreateSchema(target, Renames(d).value)
  {
    RenamesAre(d);
    SchemaKeepsReady(target, d);
    RenamesAre(CreateSchema(target, d).value);
    SchemaRenamedKeys(target, d);
    SameMissingKeys(target, d);
    SchemaIgnoresOtherKeys(target, d, RenamedKeys(d));
  }

  lemma {:induction false} MigrationThenRename(d: Db)
    requires Ready(d) && CleanSettled(d) && Complete(d)
    ensures CycleMigrations(d).Ok? && Ready(CycleMigrations(d).value)
    ensures Renames(CycleMigrations(d).value) == CycleMigrations(Renames(d).value)
  {
    var r := Renames(d).value;
    RenamesAre(d);
    MigrationEffect(d);
    MigrationEffect(r);
    var m := CycleMigrations(d).value;
    assert Ready(m) by {
      assert HasKey(m, ThreadsReceivedCredentials) <==> HasKey(d, ThreadsReceivedCredentials);
      assert HasKey(m, CasesReceivedCredentials) <==> HasKey(d, CasesReceivedCredentials);
      assert HasKeyOn(m, ThreadCredentials, ThreadsReceivedCredentials) <==> HasKeyOn(d, ThreadCredentials, ThreadsReceivedCredentials);
    }
    RenamesAre(m);
  }

  /** A start without renames, followed by the renames, is a start with them. */
  lemma {:induction false} BootThenRename(target: Schema, d: Db, k: nat)
    requires Full(target) && Ready(d) && RunBoot(target, d, Boot(false, k)).Ok?
    ensures Ready(RunBoot(target, d, Boot(false, k)).value)
    ensures Renames(RunBoot(target, d, Boot(false, k)).value) == RunBoot(target, d, Boot(true, k))
  {
    RenamesAre(d);
    if k >= 1 {
      CleanupThenRename(d);
      var p := Cleanup(d).value;
      RenamesAre(p);
      if k >= 2 {
        SchemaThenRename(target, p);
        SchemaKeepsReady(target, p);
        if k >= 3 {
          var s := CreateSchema(target, p).value;
          CleanupSettles(d);
          SchemaKeepsClean(target, p);
          SchemaSettles(target, p);
          SettledIsComplete(target, s);
          RenamesAre(s);
          MigrationThenRename(s);
        }
      }
    }
  }

  lemma {:induction false} UnrenamedBootIsHarmless(target: Schema, d: Db, k: nat)
    requires Full(target) && Ready(d) && RunBoot(target, d, Boot(false, k)).Ok?
    requires Uninterrupted(target, RunBoot(target, d, Boot(false, k)).value).Ok?
    ensures Uninterrupted(target, RunBoot(target, d, Boot(false, k)).value) == Uninterrupted(target, d)
  {
    BootThenRename(target, d, k);
    if k <= 3 {
      BootResumes(target, d, k, Boot(false, 3));
    } else {
      assert RunBoot(target, d, Boot(true, k)) == RunBoot(target, d, Boot(true, 3));
      BootResumes(target, d, 3, Boot(false, 3));
    }
  }

  lemma {:induction false} UnrenamedBootsAreHarmless(target: Schema, d: Db, early: seq<Boot>)
    requires Full(target) && Ready(d) && AllUnrenamed(early) && RunBoots(target, d, early).Ok?
    requires Uninterrupted(target, RunBoots(target, d, early).value).Ok?
    ensures Uninterrupted(target, RunBoots(target, d, early).value) == Uninterrupted(target, d)
    decreases |early|
  {
    if early != [] {
      var k := early[0].reached;
      assert early[0] == Boot(false, k);
      BootThenRename(target, d, k);
      UnrenamedBootsAreHarmless(target, RunBoot(target, d, early[0]).value, early[1..]);
      UnrenamedBootIsHarmless(target, d, k);
    }
  }

  // ---------------------------------------------------------------- exactly when a late rename recovers

  lemma {:induction false} BootsCompose(target: Schema, d: Db, early: seq<Boot>, bs: seq<Boot>)
    ensures RunBoots(target, d, early + bs)
         == var r := RunBoots(target, d, early); if r.Err? then r else RunBoots(target, r.value, bs)
    decreases |early|
  {
    if early == [] {
      assert early + bs == bs;
    } else {
      assert (early + bs)[0] == early[0] && (early + bs)[1..] == early[1..] + bs;
      var r := RunBoot(target, d, early[0]);
      if r.Ok? { BootsCompose(target, r.value, early[1..], bs); }
    }
  }

  /** Starts that neither renamed nor created the schema leave the database as it was, or cleaned once. */
  lemma {:induction false} EarlyBootsOnlyClean(target: Schema, d0: Db, d: Db, early: seq<Boot>)
    requires AllUnrenamed(early) && NeverCreatedSchema(early)
    requires d == d0 || Cleanup(d0) == Ok(d)
    requires RunBoots(target, d, early).Ok?
    ensures RunBoots(target, d, early).value == d0 || Cleanup(d0) == RunBoots(target, d, early)
    decreases |early|
  {
    if early != [] {
      if Cleanup(d0) == Ok(d) {
        CleanupSettles(d0);
        SettledCleanupIsIdentity(d);
      }
      EarlyBootsOnlyClean(target, d0, RunBoot(target, d, early[0]).value, early[1..]);
    }
  }

  lemma {:induction false} RecoveryAfterCreation(target: Schema, d0: Db, early: seq<Boot>, bs: seq<Boot>)
    requires Full(target) && DeletesStayLocal(d0) && AllUnrenamed(early) && !NeverCreatedSchema(early)
    requires Legal(bs) && bs != [] && bs[0].renamed && exists k :: 0 <= k < |bs| && bs[k].reached == 3
    requires RunBoots(target, d0, early).Ok? && RunBoots(target, RunBoots(target, d0, early).value, bs).Ok?
    ensures RunBoots(target, RunBoots(target, d0, early).value, bs) == Uninterrupted(target, d0) <==> !Pending(d0) && RenamesCanCommit(d0)
  {
    var d := RunBoots(target, d0, early).value;
    if Pending(d0) {
      SchemaCreationStrands(target, d0, early);
      BothStay(target, d, bs);
      if Uninterrupted(target, d0).Ok? { UninterruptedMoves(target, d0); }
    } else if RenamesCanCommit(d0) {
      RestartsConverge(target, d, bs);
      UnrenamedBootsAreHarmless(target, d0, early);
    } else {
      RenamesCommitIff(d0);
    }
  }

  /** Recovery, exactly.  On any database let some starts go on without their renames, then one rename, and some start
      from there on complete.  The result is that of a single uninterrupted start if and only if none of the earlier
      starts had created the schema, or there was no table or column to rename and the renames could have
      committed at once. */
  lemma {:induction false} LateRenameRecoversIff(target: Schema, d0: Db, early: seq<Boot>, bs: seq<Boot>)
    requires Full(target) && DeletesStayLocal(d0) && AllUnrenamed(early)
    requires Legal(bs) && bs != [] && bs[0].renamed && exists k :: 0 <= k < |bs| && bs[k].reached == 3
    requires RunBoots(target, d0, early + bs).Ok?
    ensures RunBoots(target, d0, early + bs) == Uninterrupted(target, d0) <==>
              NeverCreatedSchema(early) || (!Pending(d0) && RenamesCanCommit(d0))
  {
    BootsCompose(target, d0, early, bs);
    var d := RunBoots(target, d0, early).value;
    if NeverCreatedSchema(early) {
      EarlyBootsOnlyClean(target, d0, d0, early);
      RestartsConverge(target, d, bs);
      if d != d0 { EarlyCleanupIsHarmless(target, d0); }
    } else {
      RecoveryAfterCreation(target, d0, early, bs);
    }
  }
}

/**
 The three startup transactions of backend/database/ent.go.  Each is given twice: as a function
 from the database before to the database after, and as the method that issues the statements
 one by one over a connection on which any round trip may fail.
 */
module Migrations {
  import opened Outcomes
  import opened Relational
  import opened RowNumber
  import opened Statements

  // ---------------------------------------------------------------- applyDomainRenames

  const CREDENTIAL_KEY := ForeignKey(CasesReceivedCredentials, ThreadCredentials, ThreadId, ValidationCases, Cascade)

  function NormaliseCredentialKey(d: Db): Outcome {
    if !HasColumn(d, ThreadCredentials, ThreadId) then Ok(d) else
      var d1 :- ApplyIf(HasKey(d, ThreadsReceivedCredentials), DropConstraint(ThreadCredentials, ThreadsReceivedCredentials), d);
      ApplyIf(!HasKey(d1, CasesReceivedCredentials), AddConstraint(CREDENTIAL_KEY), d1)
  }

  function RenameTables(d: Db): Outcome {
    var d1 :- ApplyIf(Threads in d.tables && ValidationCases !in d.tables, RenameTable(Threads, ValidationCases), d);
    var d2 :- ApplyIf(TagThreads in d1.tables && TagValidationCases !in d1.tables, RenameTable(TagThreads, TagValidationCases), d1);
    ApplyIf(HasColumn(d2, TagValidationCases, ThreadId) && !HasColumn(d2, TagValidationCases, ValidationCaseId),
            RenameColumn(TagValidationCases, ThreadId, ValidationCaseId), d2)
  }

  function Renames(d: Db): Outcome {
    var d1 :- RenameTables(d);
    NormaliseCredentialKey(d1)
  }

  // ---------------------------------------------------------------- applyWorkflowCyclePreSchemaCleanup

  function WidenAndRaise(t: TableName): seq<Stmt> {
    [AddColumnIfMissing(t, WorkflowCycle), RaiseToOne(t, WorkflowCycle)]
  }

  function CleanTable(d: Db, t: TableName, more: seq<Stmt>): Outcome {
    if t in d.tables then ApplyAll(WidenAndRaise(t) + more, d) else Ok(d)
  }

  function Cleanup(d: Db): Outcome {
    var d1 :- CleanTable(d, ValidationCases, []);
    var d2 :- CleanTable(d1, ConsultationRequests, [DedupRequests]);
    CleanTable(d2, FinalOffers, [DedupOffers])
  }

  // ---------------------------------------------------------------- applyWorkflowCycleMigrations

  const CYCLE_STATEMENTS: seq<Stmt> := [
    AddColumnIfMissing(ValidationCases, WorkflowCycle),
    AddColumnIfMissing(ConsultationRequests, WorkflowCycle),
    AddColumnIfMissing(FinalOffers, WorkflowCycle),
    RaiseToOne(ValidationCases, WorkflowCycle),
    RaiseToOne(ConsultationRequests, WorkflowCycle),
    RaiseToOne(FinalOffers, WorkflowCycle)]

  const REQUEST_INDEX := Index(ConsultationRequests, [ValidationCaseId, ValidatorUserId, WorkflowCycle], true)
  const OFFER_INDEX := Index(FinalOffers, [ValidationCaseId, ValidatorUserId, WorkflowCycle], true)

  const INDEX_STATEMENTS: seq<Stmt> := [
    CreateIndexIfMissing(RequestCaseValidatorCycle, REQUEST_INDEX),
    CreateIndexIfMissing(RequestCaseCycle, Index(ConsultationRequests, [ValidationCaseId, WorkflowCycle], false)),
    CreateIndexIfMissing(RequestValidatorStatusCycle, Index(ConsultationRequests, [ValidatorUserId, Status, WorkflowCycle], false)),
    CreateIndexIfMissing(OfferCaseValidatorCycle, OFFER_INDEX)]

  function CycleMigrations(d: Db): Outcome {
    var d1 :- ApplyAll(CYCLE_STATEMENTS, d);
    var d2 :- ApplyIf(RequestCaseValidator in d1.indexes, DropIndexIfExists(RequestCaseValidator), d1);
    ApplyAll(INDEX_STATEMENTS, d2)
  }

  // ---------------------------------------------------------------- transactions

  type TxStatus = Result<(), SqlError>

  /** The round trips that fail, by number. */
  type Faults = nat -> bool

  ghost predicate Reliable(faults: Faults) {
    forall k :: !faults(k)
  }

  class Connection {
    var db: Db

    constructor (d: Db)
      ensures db == d
    {
      db := d;
    }
  }

  /** An open transaction works on its own copy; only Commit publishes it. */
  class Transaction {
    const conn: Connection
    const faults: Faults
    var work: Db
    var trips: nat

    constructor (conn: Connection, faults: Faults)
      ensures this.conn == conn && this.faults == faults && work == conn.db && trips == 0
    {
      this.conn, this.faults, work, trips := conn, faults, conn.db, 0;
    }

    /** One round trip that reads or writes nothing: BEGIN, or a lookup that fails. */
    method Trip() returns (r: TxStatus)
      modifies this`trips
      ensures r.Err? ==> faults(old(trips))
    {
      r := if faults(trips) then Err(Interrupted) else Ok(());
      trips := trips + 1;
    }

    method TableExists(t: TableName) returns (r: Result<bool, SqlError>)
      modifies this`trips
      ensures r.Ok? ==> r.value == (t in work.tables)
      ensures r.Err? ==> faults(old(trips))
    {
      var _ :- Trip();
      r := Ok(t in work.tables);
    }

    method ColumnExists(t: TableName, c: Column) returns (r: Result<bool, SqlError>)
      modifies this`trips
      ensures r.Ok? ==> r.value == HasColumn(work, t, c)
      ensures r.Err? ==> faults(old(trips))
    {
      var _ :- Trip();
      r := Ok(HasColumn(work, t, c));
    }

    /** Looks at the name only, on whatever table the constraint sits. */
    method ConstraintExists(name: KeyName) returns (r: Result<bool, SqlError>)
      modifies this`trips
      ensures r.Ok? ==> r.value == HasKey(work, name)
      ensures r.Err? ==> faults(old(trips))
    {
      var _ :- Trip();
      r := Ok(HasKey(work, name));
    }

    method IndexExists(name: IndexName) returns (r: Result<bool, SqlError>)
      modifies this`trips
      ensures r.Ok? ==> r.value == (name in work.indexes)
      ensures r.Err? ==> faults(old(trips))
    {
      var _ :- Trip();
      r := Ok(name in work.indexes);
    }

    method Exec(s: Stmt) returns (r: TxStatus)
      modifies this`work, this`trips
      ensures r.Ok? ==> Apply(s, old(work)) == Ok(work)
      ensures r.Err? ==> faults(old(trips)) || Apply(s, old(work)).Err?
    {
      var _ :- Trip();
      var d :- Apply(s, work);
      work := d;
      r := Ok(());
    }

    method ExecAll(ss: seq<Stmt>) returns (r: TxStatus)
      modifies this`work, this`trips
      ensures r.Ok? ==> ApplyAll(ss, old(work)) == Ok(work)
      ensures r.Err? && Reliable(faults) ==> ApplyAll(ss, old(work)).Err?
    {
      var i := 0;
      while i < |ss|
        invariant i <= |ss|
        invariant ApplyAll(ss, old(work)) == ApplyAll(ss[i..], work)
      {
        var step := Exec(ss[i]);
        if step.Err? {
          return step;
        }
        assert ss[i..][1..] == ss[i + 1..];
        i := i + 1;
      }
      r := Ok(());
    }

    method Commit() returns (r: TxStatus)
      modifies this`trips, conn
      ensures r.Ok? ==> conn.db == work
      ensures r.Err? ==> conn.db == old(conn.db) && faults(old(trips))
    {
      var _ :- Trip();
      conn.db := work;
      r := Ok(());
    }
  }

  /** All or nothing: the whole intended effect is published, or the database is as before;
      and when every round trip works, an error is that of a statement. */
  ghost predicate Atomic(before: Db, after: Db, r: TxStatus, intended: Outcome, faults: Faults) {
    && (r.Ok? ==> intended == Ok(after))
    && (r.Err? ==> after == before)
    && (r.Err? && Reliable(faults) ==> intended.Err?)
  }

  method RenameLegacyTables(tx: Transaction) returns (r: TxStatus)
    modifies tx`work, tx`trips
    ensures r.Ok? ==> RenameTables(old(tx.work)) == Ok(tx.work)
    ensures r.Err? && Reliable(tx.faults) ==> RenameTables(old(tx.work)).Err?
  {
    var threads :- tx.TableExists(Threads);
    var cases :- tx.TableExists(ValidationCases);
    if threads && !cases {
      var _ :- tx.Exec(RenameTable(Threads, ValidationCases));
    }
    var tagThreads :- tx.TableExists(TagThreads);
    var tagCases :- tx.TableExists(TagValidationCases);
    if tagThreads && !tagCases {
      var _ :- tx.Exec(RenameTable(TagThreads, TagValidationCases));
    }
    var join :- tx.TableExists(TagValidationCases);
    if join {
      var threadId :- tx.ColumnExists(TagValidationCases, ThreadId);
      var caseId :- tx.ColumnExists(TagValidationCases, ValidationCaseId);
      if threadId && !caseId {
        var _ :- tx.Exec(RenameColumn(TagValidationCases, ThreadId, ValidationCaseId));
      }
    }
    r := Ok(());
  }

  method NormaliseLegacyKey(tx: Transaction) returns (r: TxStatus)
    modifies tx`work, tx`trips
    ensures r.Ok? ==> NormaliseCredentialKey(old(tx.work)) == Ok(tx.work)
    ensures r.Err? && Reliable(tx.faults) ==> NormaliseCredentialKey(old(tx.work)).Err?
  {
    var credentials :- tx.TableExists(ThreadCredentials);
    if credentials {
      var threadId :- tx.ColumnExists(ThreadCredentials, ThreadId);
      if threadId {
        var oldKey :- tx.ConstraintExists(ThreadsReceivedCredentials);
        if oldKey {
          var _ :- tx.Exec(DropConstraint(ThreadCredentials, ThreadsReceivedCredentials));
        }
        var newKey :- tx.ConstraintExists(CasesReceivedCredentials);
        if !newKey {
          var _ :- tx.Exec(AddConstraint(CREDENTIAL_KEY));
        }
      }
    }
    r := Ok(());
  }

  method ApplyDomainRenames(conn: Connection, faults: Faults) returns (r: TxStatus)
    modifies conn
    ensures Atomic(old(conn.db), conn.db, r, Renames(old(conn.db)), faults)
  {
    var tx := new Transaction(conn, faults);
    var _ :- tx.Trip();
    var _ :- RenameLegacyTables(tx);
    var _ :- NormaliseLegacyKey(tx);
    r := tx.Commit();
  }

  method ApplyWorkflowCyclePreSchemaCleanup(conn: Connection, faults: Faults) returns (r: TxStatus)
    modifies conn
    ensures Atomic(old(conn.db), conn.db, r, Cleanup(old(conn.db)), faults)
  {
    var tx := new Transaction(conn, faults);
    var _ :- tx.Trip();
    var cases :- tx.TableExists(ValidationCases);
    if cases {
      var _ :- tx.ExecAll(WidenAndRaise(ValidationCases) + []);
    }
    var requests :- tx.TableExists(ConsultationRequests);
    if requests {
      var _ :- tx.ExecAll(WidenAndRaise(ConsultationRequests) + [DedupRequests]);
    }
    var offers :- tx.TableExists(FinalOffers);
    if offers {
      var _ :- tx.ExecAll(WidenAndRaise(FinalOffers) + [DedupOffers]);
    }
    r := tx.Commit();
  }

  method ApplyWorkflowCycleMigrations(conn: Connection, faults: Faults) returns (r: TxStatus)
    modifies conn
    ensures Atomic(old(conn.db), conn.db, r, CycleMigrations(old(conn.db)), faults)
  {
    var tx := new Transaction(conn, faults);
    var _ :- tx.Trip();
    var _ :- tx.ExecAll(CYCLE_STATEMENTS);
    var legacy :- tx.IndexExists(RequestCaseValidator);
    if legacy {
      var _ :- tx.Exec(DropIndexIfExists(RequestCaseValidator));
    }
    var _ :- tx.ExecAll(INDEX_STATEMENTS);
    r := tx.Commit();
  }
}

/**
 The ConsultationRequest entity: reading a row into a node (scanValues, assignValues) and writing a
 node from a mutation (defaults, check, createSpec).
 */
module Entity {
  import opened Outcomes

  datatype Field =
    | ID | CreatedAt | UpdatedAt | DeletedAt | ValidationCaseID | ValidatorUserID | Status | WorkflowCycle
    | ApprovedAt | RejectedAt | ExpiresAt | OwnerResponseDueAt | ReminderCount | AutoClosedReason
    | Unknown(name: string)

  const COLUMNS: seq<Field> := [
    ID, CreatedAt, UpdatedAt, DeletedAt, ValidationCaseID, ValidatorUserID, Status, WorkflowCycle,
    ApprovedAt, RejectedAt, ExpiresAt, OwnerResponseDueAt, ReminderCount, AutoClosedReason]

  /** A database cell. */
  datatype Datum = Nil | Int(n: int) | Text(s: string) | Time(t: int)

  type Row = map<Field, Datum>

  const ZERO_TIME: int := 0

  /** The fields of a node; a nillable one is an Option. */
  datatype Record = Record(
    id: int, createdAt: int, updatedAt: int, deletedAt: Option<int>,
    validationCaseID: int, validatorUserID: int, status: string, workflowCycle: int,
    approvedAt: Option<int>, rejectedAt: Option<int>, expiresAt: Option<int>, ownerResponseDueAt: Option<int>,
    reminderCount: int, autoClosedReason: Option<string>, selected: map<string, Scan>)

  const ZERO := Record(0, ZERO_TIME, ZERO_TIME, None, 0, 0, "", 0, None, None, None, None, 0, None, map[])

  // ---------------------------------------------------------------- reading

  datatype Slot = IntSlot | TextSlot | TimeSlot | AnySlot

  /** A filled scan target: sql.NullInt64, sql.NullString, sql.NullTime, or sql.UnknownType. */
  datatype Scan = NullInt(i: Option<int>) | NullString(s: Option<string>) | NullTime(t: Option<int>) | UnknownType(d: Datum)

  function SlotOf(f: Field): Slot {
    match f
    case ID | ValidationCaseID | ValidatorUserID | WorkflowCycle | ReminderCount => IntSlot
    case Status | AutoClosedReason => TextSlot
    case CreatedAt | UpdatedAt | DeletedAt | ApprovedAt | RejectedAt | ExpiresAt | OwnerResponseDueAt => TimeSlot
    case Unknown(_) => AnySlot
  }

  method ScanValues(columns: seq<Field>) returns (values: seq<Slot>)
    ensures |values| == |columns| && forall k :: 0 <= k < |columns| ==> values[k] == SlotOf(columns[k])
  {
    values := [];
    for i := 0 to |columns|
      invariant |values| == i && forall k :: 0 <= k < i ==> values[k] == SlotOf(columns[k])
    {
      match columns[i] {
        case ID | ValidationCaseID | ValidatorUserID | WorkflowCycle | ReminderCount => values := values + [IntSlot];
        case Status | AutoClosedReason => values := values + [TextSlot];
        case CreatedAt | UpdatedAt | DeletedAt | ApprovedAt | RejectedAt | ExpiresAt | OwnerResponseDueAt => values := values + [TimeSlot];
        case Unknown(_) => values := values + [AnySlot];
      }
    }
  }

  predicate Fits(v: Scan, slot: Slot) {
    match slot
    case IntSlot => v.NullInt?
    case TextSlot => v.NullString?
    case TimeSlot => v.NullTime?
    case AnySlot => v.UnknownType?
  }

  function OrInt(v: Option<int>, default: int): int { if v.Some? then v.value else default }
  function OrSome<T>(v: Option<T>, default: Option<T>): Option<T> { if v.Some? then v else default }

  /** One column of assignValues; None when the value has the wrong type.  A NULL id becomes 0,
      every other NULL leaves the field alone. */
  function Assigned(r: Record, f: Field, v: Scan): Option<Record> {
    if f.Unknown? then Some(r.(selected := r.selected[f.name := v]))
    else if !Fits(v, SlotOf(f)) then None
    else Some(match f
      case ID => r.(id := OrInt(v.i, 0))
      case CreatedAt => r.(createdAt := OrInt(v.t, r.createdAt))
      case UpdatedAt => r.(updatedAt := OrInt(v.t, r.updatedAt))
      case DeletedAt => r.(deletedAt := OrSome(v.t, r.deletedAt))
      case ValidationCaseID => r.(validationCaseID := OrInt(v.i, r.validationCaseID))
      case ValidatorUserID => r.(validatorUserID := OrInt(v.i, r.validatorUserID))
      case Status => r.(status := if v.s.Some? then v.s.value else r.status)
      case WorkflowCycle => r.(workflowCycle := OrInt(v.i, r.workflowCycle))
      case ApprovedAt => r.(approvedAt := OrSome(v.t, r.approvedAt))
      case RejectedAt => r.(rejectedAt := OrSome(v.t, r.rejectedAt))
      case ExpiresAt => r.(expiresAt := OrSome(v.t, r.expiresAt))
      case OwnerResponseDueAt => r.(ownerResponseDueAt := OrSome(v.t, r.ownerResponseDueAt))
      case ReminderCount => r.(reminderCount := OrInt(v.i, r.reminderCount))
      case AutoClosedReason => r.(autoClosedReason := OrSome(v.s, r.autoClosedReason)))
  }

  function AssignAll(r: Record, columns: seq<Field>, values: seq<Scan>): Option<Record>
    requires |columns| <= |values|
    decreases |columns|
  {
    if columns == [] then Some(r) else
      var step := Assigned(r, columns[0], values[0]);
      if step.None? then None else AssignAll(step.value, columns[1..], values[1..])
  }

  /** A node at the other end of an edge. */
  datatype Neighbor = Neighbor(id: int, data: string)

  class ConsultationRequest {
    var rec: Record
    var validationCase: Option<Neighbor>
    var validatorUser: Option<Neighbor>

    constructor ()
      ensures rec == ZERO && validationCase == None && validatorUser == None
    {
      rec, validationCase, validatorUser := ZERO, None, None;
    }

    /** Fails on too few values or on the first column whose value has the wrong type. */
    method AssignValues(columns: seq<Field>, values: seq<Scan>) returns (ok: bool)
      modifies this`rec
      ensures |values| < |columns| ==> !ok && rec == old(rec)
      ensures |columns| <= |values| ==> (ok <==> AssignAll(old(rec), columns, values).Some?)
      ensures ok ==> AssignAll(old(rec), columns, values) == Some(rec)
    {
      if |values| < |columns| { return false; }
      var i := 0;
      while i < |columns|
        invariant i <= |columns|
        invariant AssignAll(old(rec), columns, values) == AssignAll(rec, columns[i..], values[i..])
      {
        var step := Assigned(rec, columns[i], values[i]);
        if step.None? { return false; }
        rec := step.value;
        assert columns[i..][1..] == columns[i + 1..] && values[i..][1..] == values[i + 1..];
        i := i + 1;
      }
      return true;
    }
  }

  /** For every column list, known or not, assigning values shaped by ScanValues never fails. */
  lemma {:induction false} ShapedValuesAlwaysAssign(r: Record, columns: seq<Field>, values: seq<Scan>)
    requires |columns| == |values| && forall k :: 0 <= k < |columns| ==> Fits(values[k], SlotOf(columns[k]))
    ensures AssignAll(r, columns, values).Some?
    decreases |columns|
  {
    if columns != [] {
      forall k | 0 <= k < |columns| - 1 ensures Fits(values[1..][k], SlotOf(columns[1..][k])) {
        assert values[1..][k] == values[k + 1] && columns[1..][k] == columns[k + 1];
      }
      ShapedValuesAlwaysAssign(Assigned(r, columns[0], values[0]).value, columns[1..], values[1..]);
    }
  }

  /** What the driver puts into a slot for a cell of the column's own type. */
  function Filled(f: Field, d: Datum): Scan {
    match SlotOf(f)
    case IntSlot => NullInt(if d.Int? then Some(d.n) else None)
    case TextSlot => NullString(if d.Text? then Some(d.s) else None)
    case TimeSlot => NullTime(if d.Time? then Some(d.t) else None)
    case AnySlot => UnknownType(d)
  }

  function CellOf(row: Row, f: Field): Datum {
    if f in row then row[f] else Nil
  }

  function ScanRow(row: Row, columns: seq<Field>): seq<Scan> {
    seq(|columns|, k requires 0 <= k < |columns| => Filled(columns[k], CellOf(row, columns[k])))
  }

  /** The node read from a row with the given columns. */
  function ReadNode(row: Row, columns: seq<Field>): Record {
    var r := AssignAll(ZERO, columns, ScanRow(row, columns));
    if r.Some? then r.value else ZERO
  }

  /** A field of a node, as a cell: the zero value of a plain field stands for itself. */
  function Column(r: Record, f: Field): Datum {
    match f
    case ID => Int(r.id)
    case CreatedAt => Time(r.createdAt)
    case UpdatedAt => Time(r.updatedAt)
    case DeletedAt => if r.deletedAt.Some? then Time(r.deletedAt.value) else Nil
    case ValidationCaseID => Int(r.validationCaseID)
    case ValidatorUserID => Int(r.validatorUserID)
    case Status => Text(r.status)
    case WorkflowCycle => Int(r.workflowCycle)
    case ApprovedAt => if r.approvedAt.Some? then Time(r.approvedAt.value) else Nil
    case RejectedAt => if r.rejectedAt.Some? then Time(r.rejectedAt.value) else Nil
    case ExpiresAt => if r.expiresAt.Some? then Time(r.expiresAt.value) else Nil
    case OwnerResponseDueAt => if r.ownerResponseDueAt.Some? then Time(r.ownerResponseDueAt.value) else Nil
    case ReminderCount => Int(r.reminderCount)
    case AutoClosedReason => if r.autoClosedReason.Some? then Text(r.autoClosedReason.value) else Nil
    case Unknown(_) => Nil
  }

  predicate RightType(f: Field, d: Datum) {
    match SlotOf(f)
    case IntSlot => d.Int?
    case TextSlot => d.Text?
    case TimeSlot => d.Time?
    case AnySlot => false
  }

  /** What reading a cell gives: the cell, or the zero value when it is NULL. */
  function Shown(f: Field, d: Datum): Datum {
    if RightType(f, d) then d else Column(ZERO, f)
  }

  lemma {:induction false} AssignOne(r: Record, f: Field, d: Datum, g: Field)
    requires !g.Unknown?
    ensures
      var r' := Assigned(r, f, Filled(f, d));
      && r'.Some?
      && Column(r'.value, g) == (if g != f then Column(r, g) else if RightType(f, d) then d else if f == ID then Int(0) else Column(r, g))
  {}

  lemma {:induction false} AssignReadsRow(r: Record, row: Row, columns: seq<Field>, g: Field)
    requires !g.Unknown?
    requires Column(r, g) == Column(ZERO, g) || Column(r, g) == Shown(g, CellOf(row, g))
    ensures
      var r' := AssignAll(r, columns, ScanRow(row, columns));
      && r'.Some?
      && Column(r'.value, g) == if g in columns then Shown(g, CellOf(row, g)) else Column(r, g)
    decreases |columns|
  {
    if columns != [] {
      var f := columns[0];
      AssignOne(r, f, CellOf(row, f), g);
      var r1 := Assigned(r, f, Filled(f, CellOf(row, f))).value;
      assert ScanRow(row, columns)[1..] == ScanRow(row, columns[1..]);
      AssignReadsRow(r1, row, columns[1..], g);
      assert g in columns <==> g == f || g in columns[1..];
    }
  }

  /** Reading: every selected column of a node shows its cell, every other column its zero value,
      whatever the order or repetition of the column list. */
  lemma {:induction false} NodeShowsRow(row: Row, columns: seq<Field>, g: Field)
    requires !g.Unknown?
    ensures Column(ReadNode(row, columns), g) == if g in columns then Shown(g, CellOf(row, g)) else Column(ZERO, g)
  {
    AssignReadsRow(ZERO, row, columns, g);
  }

  // ---------------------------------------------------------------- writing

  /** The fields a create builder has set. */
  datatype Mutation = Mutation(
    createdAt: Option<int>, updatedAt: Option<int>, deletedAt: Option<int>,
    validationCase: Option<int>, validatorUser: Option<int>, status: Option<string>, workflowCycle: Option<int>,
    approvedAt: Option<int>, rejectedAt: Option<int>, expiresAt: Option<int>, ownerResponseDueAt: Option<int>,
    reminderCount: Option<int>, autoClosedReason: Option<string>)

  const DEFAULT_STATUS := "pending"
  const DEFAULT_CYCLE: int := 1
  const DEFAULT_REMINDERS: int := 0

  /** The columns and edge columns that an INSERT carries. */
  type Spec = map<Field, Datum>

  /** What the mutation holds for a column. */
  function Held(m: Mutation, f: Field): Datum {
    match f
    case CreatedAt => if m.createdAt.Some? then Time(m.createdAt.value) else Nil
    case UpdatedAt => if m.updatedAt.Some? then Time(m.updatedAt.value) else Nil
    case DeletedAt => if m.deletedAt.Some? then Time(m.deletedAt.value) else Nil
    case ValidationCaseID => if m.validationCase.Some? then Int(m.validationCase.value) else Nil
    case ValidatorUserID => if m.validatorUser.Some? then Int(m.validatorUser.value) else Nil
    case Status => if m.status.Some? then Text(m.status.value) else Nil
    case WorkflowCycle => if m.workflowCycle.Some? then Int(m.workflowCycle.value) else Nil
    case ApprovedAt => if m.approvedAt.Some? then Time(m.approvedAt.value) else Nil
    case RejectedAt => if m.rejectedAt.Some? then Time(m.rejectedAt.value) else Nil
    case ExpiresAt => if m.expiresAt.Some? then Time(m.expiresAt.value) else Nil
    case OwnerResponseDueAt => if m.ownerResponseDueAt.Some? then Time(m.ownerResponseDueAt.value) else Nil
    case ReminderCount => if m.reminderCount.Some? then Int(m.reminderCount.value) else Nil
    case AutoClosedReason => if m.autoClosedReason.Some? then Text(m.autoClosedReason.value) else Nil
    case ID | Unknown(_) => Nil
  }

  function WithDefaults(m: Mutation, created: int, updated: int): Mutation {
    m.(createdAt := OrSome(m.createdAt, Some(created)),
       updatedAt := OrSome(m.updatedAt, Some(updated)),
       status := OrSome(m.status, Some(DEFAULT_STATUS)),
       workflowCycle := OrSome(m.workflowCycle, Some(DEFAULT_CYCLE)),
       reminderCount := OrSome(m.reminderCount, Some(DEFAULT_REMINDERS)))
  }

  /** The five unset fields are filled, with the clock's times, the status "pending", cycle 1 and no reminders; what
      the caller set stays, and so does everything else. */
  lemma {:induction false} DefaultsMean(m: Mutation, created: int, updated: int)
    ensures
      var m' := WithDefaults(m, created, updated);
      && (m.createdAt.Some? ==> m'.createdAt == m.createdAt) && (m.createdAt.None? ==> m'.createdAt == Some(created))
      && (m.updatedAt.Some? ==> m'.updatedAt == m.updatedAt) && (m.updatedAt.None? ==> m'.updatedAt == Some(updated))
      && (m.status.Some? ==> m'.status == m.status) && (m.status.None? ==> m'.status == Some("pending"))
      && (m.workflowCycle.Some? ==> m'.workflowCycle == m.workflowCycle) && (m.workflowCycle.None? ==> m'.workflowCycle == Some(1))
      && (m.reminderCount.Some? ==> m'.reminderCount == m.reminderCount) && (m.reminderCount.None? ==> m'.reminderCount == Some(0))
      && m'.deletedAt == m.deletedAt && m'.validationCase == m.validationCase && m'.validatorUser == m.validatorUser
      && m'.approvedAt == m.approvedAt && m'.rejectedAt == m.rejectedAt && m'.expiresAt == m.expiresAt
      && m'.ownerResponseDueAt == m.ownerResponseDueAt && m'.autoClosedReason == m.autoClosedReason
  {}

  /** What is wrong with one field: missing, or refused by its validator. */
  ghost predicate Bad(m: Mutation, f: Field) {
    match f
    case CreatedAt => m.createdAt.None?
    case UpdatedAt => m.updatedAt.None?
    case ValidationCaseID => m.validationCase.Some? ==> m.validationCase.value <= 0
    case ValidatorUserID => m.validatorUser.Some? ==> m.validatorUser.value <= 0
    case Status => m.status.Some? ==> |m.status.value| > 32
    case WorkflowCycle => m.workflowCycle.Some? ==> m.workflowCycle.value <= 0
    case ReminderCount => m.reminderCount.Some? ==> m.reminderCount.value < 0
    case AutoClosedReason => m.autoClosedReason.Some? && |m.autoClosedReason.value| > 128
    case _ => false
  }

  /** The order in which check looks at them. */
  const CHECK_ORDER: seq<Field> :=
    [CreatedAt, UpdatedAt, ValidationCaseID, ValidatorUserID, Status, WorkflowCycle, ReminderCount, AutoClosedReason]

  /** The error names the first bad field in that order, and there is none if and only if no field is bad. */
  lemma {:induction false} CheckNamesTheFirst(m: Mutation)
    ensures CheckError(m).None? <==> forall k :: 0 <= k < |CHECK_ORDER| ==> !Bad(m, CHECK_ORDER[k])
    ensures CheckError(m).Some? ==>
              exists k :: 0 <= k < |CHECK_ORDER| && CheckError(m) == Some(CHECK_ORDER[k]) && Bad(m, CHECK_ORDER[k])
                          && forall j :: 0 <= j < k ==> !Bad(m, CHECK_ORDER[j])
  {
    var bad := k requires 0 <= k < |CHECK_ORDER| => Bad(m, CHECK_ORDER[k]);
    var k := if bad(0) then 0 else if bad(1) then 1 else if bad(2) then 2 else if bad(3) then 3
      else if bad(4) then 4 else if bad(5) then 5 else if bad(6) then 6 else 7;
    assert CheckError(m).Some? ==> CheckError(m) == Some(CHECK_ORDER[k]);
    assert forall j :: 0 <= j < k ==> !bad(j);
    assert CheckError(m).None? ==> !bad(7);
  }

  /** The first failing field of check, in the order of the code. */
  function CheckError(m: Mutation): Option<Field> {
    if m.createdAt.None? then Some(CreatedAt)
    else if m.updatedAt.None? then Some(UpdatedAt)
    else if m.validationCase.None? || m.validationCase.value <= 0 then Some(ValidationCaseID)
    else if m.validatorUser.None? || m.validatorUser.value <= 0 then Some(ValidatorUserID)
    else if m.status.None? || |m.status.value| > 32 then Some(Status)
    else if m.workflowCycle.None? || m.workflowCycle.value <= 0 then Some(WorkflowCycle)
    else if m.reminderCount.None? || m.reminderCount.value < 0 then Some(ReminderCount)
    else if m.autoClosedReason.Some? && |m.autoClosedReason.value| > 128 then Some(AutoClosedReason)
    else None
  }

  /** After defaults only what the caller supplied, or left out, can fail the check. */
  lemma {:induction false} DefaultsLeaveCallersErrors(m: Mutation, created: int, updated: int)
    ensures
      CheckError(WithDefaults(m, created, updated)) == None <==>
        && m.validationCase.Some? && m.validationCase.value > 0
        && m.validatorUser.Some? && m.validatorUser.value > 0
        && (m.status.Some? ==> |m.status.value| <= 32)
        && (m.workflowCycle.Some? ==> m.workflowCycle.value > 0)
        && (m.reminderCount.Some? ==> m.reminderCount.value >= 0)
        && (m.autoClosedReason.Some? ==> |m.autoClosedReason.value| <= 128)
  {
    assert |DEFAULT_STATUS| <= 32;
  }

  function NodeOf(m: Mutation): Record {
    Record(0, OrInt(m.createdAt, ZERO_TIME), OrInt(m.updatedAt, ZERO_TIME), m.deletedAt,
           OrInt(m.validationCase, 0), OrInt(m.validatorUser, 0), if m.status.Some? then m.status.value else "",
           OrInt(m.workflowCycle, 0), m.approvedAt, m.rejectedAt, m.expiresAt, m.ownerResponseDueAt,
           OrInt(m.reminderCount, 0), m.autoClosedReason, map[])
  }

  /** SetField, done only for a field the mutation holds. */
  function Put(s: Spec, f: Field, d: Datum): Spec {
    if d.Nil? then s else s[f := d]
  }

  function PutLifecycle(s: Spec, m: Mutation): Spec {
    Put(Put(Put(Put(Put(s, CreatedAt, Held(m, CreatedAt)), UpdatedAt, Held(m, UpdatedAt)), DeletedAt, Held(m, DeletedAt)),
            Status, Held(m, Status)), WorkflowCycle, Held(m, WorkflowCycle))
  }

  function PutDecision(s: Spec, m: Mutation): Spec {
    Put(Put(Put(Put(s, ApprovedAt, Held(m, ApprovedAt)), RejectedAt, Held(m, RejectedAt)), ExpiresAt, Held(m, ExpiresAt)),
        OwnerResponseDueAt, Held(m, OwnerResponseDueAt))
  }

  function PutEdges(s: Spec, m: Mutation): Spec {
    Put(Put(Put(Put(s, ReminderCount, Held(m, ReminderCount)), AutoClosedReason, Held(m, AutoClosedReason)),
            ValidationCaseID, Held(m, ValidationCaseID)), ValidatorUserID, Held(m, ValidatorUserID))
  }

  function SpecOf(m: Mutation): Spec {
    PutEdges(PutDecision(PutLifecycle(map[], m), m), m)
  }

  ghost predicate NoNil(s: Spec) {
    forall f :: f in s ==> s[f] != Nil
  }

  lemma {:induction false} PutCell(s: Spec, f: Field, d: Datum, g: Field)
    requires NoNil(s) && (f == g ==> f !in s)
    ensures NoNil(Put(s, f, d)) && CellOf(Put(s, f, d), g) == if f == g then d else CellOf(s, g)
  {}

  /** The INSERT carries exactly what the mutation holds. */
  lemma {:induction false} SpecHolds(m: Mutation, f: Field)
    requires !f.Unknown?
    ensures CellOf(SpecOf(m), f) == Held(m, f) && (f in SpecOf(m) <==> Held(m, f) != Nil)
  {
    LifecycleHolds(map[], m, f);
    DecisionHolds(PutLifecycle(map[], m), m, f);
    EdgesHold(PutDecision(PutLifecycle(map[], m), m), m, f);
  }

  lemma {:induction false} LifecycleHolds(s: Spec, m: Mutation, f: Field)
    requires NoNil(s) && (f in {CreatedAt, UpdatedAt, DeletedAt, Status, WorkflowCycle} ==> f !in s)
    ensures NoNil(PutLifecycle(s, m))
    ensures CellOf(PutLifecycle(s, m), f) == if f in {CreatedAt, UpdatedAt, DeletedAt, Status, WorkflowCycle} then Held(m, f) else CellOf(s, f)
  {
    PutCell(s, CreatedAt, Held(m, CreatedAt), f);
    var s1 := Put(s, CreatedAt, Held(m, CreatedAt));
    PutCell(s1, UpdatedAt, Held(m, UpdatedAt), f);
    var s2 := Put(s1, UpdatedAt, Held(m, UpdatedAt));
    PutCell(s2, DeletedAt, Held(m, DeletedAt), f);
    var s3 := Put(s2, DeletedAt, Held(m, DeletedAt));
    PutCell(s3, Status, Held(m, Status), f);
    var s4 := Put(s3, Status, Held(m, Status));
    PutCell(s4, WorkflowCycle, Held(m, WorkflowCycle), f);
  }

  lemma {:induction false} DecisionHolds(s: Spec, m: Mutation, f: Field)
    requires NoNil(s) && (f in {ApprovedAt, RejectedAt, ExpiresAt, OwnerResponseDueAt} ==> f !in s)
    ensures NoNil(PutDecision(s, m))
    ensures CellOf(PutDecision(s, m), f) == if f in {ApprovedAt, RejectedAt, ExpiresAt, OwnerResponseDueAt} then Held(m, f) else CellOf(s, f)
  {
    PutCell(s, ApprovedAt, Held(m, ApprovedAt), f);
    var s1 := Put(s, ApprovedAt, Held(m, ApprovedAt));
    PutCell(s1, RejectedAt, Held(m, RejectedAt), f);
    var s2 := Put(s1, RejectedAt, Held(m, RejectedAt));
    PutCell(s2, ExpiresAt, Held(m, ExpiresAt), f);
    var s3 := Put(s2, ExpiresAt, Held(m, ExpiresAt));
    PutCell(s3, OwnerResponseDueAt, Held(m, OwnerResponseDueAt), f);
  }

  lemma {:induction false} EdgesHold(s: Spec, m: Mutation, f: Field)
    requires NoNil(s) && (f in {ReminderCount, AutoClosedReason, ValidationCaseID, ValidatorUserID} ==> f !in s)
    ensures NoNil(PutEdges(s, m))
    ensures CellOf(PutEdges(s, m), f) == if f in {ReminderCount, AutoClosedReason, ValidationCaseID, ValidatorUserID} then Held(m, f) else CellOf(s, f)
  {
    PutCell(s, ReminderCount, Held(m, ReminderCount), f);
    var s1 := Put(s, ReminderCount, Held(m, ReminderCount));
    PutCell(s1, AutoClosedReason, Held(m, AutoClosedReason), f);
    var s2 := Put(s1, AutoClosedReason, Held(m, AutoClosedReason));
    PutCell(s2, ValidationCaseID, Held(m, ValidationCaseID), f);
    var s3 := Put(s2, ValidationCaseID, Held(m, ValidationCaseID));
    PutCell(s3, ValidatorUserID, Held(m, ValidatorUserID), f);
  }

  // Whether a spec carries a column, and with which value.
  ghost predicate CarriesInt(s: Spec, f: Field, v: Option<int>) { (f in s <==> v.Some?) && (v.Some? ==> s[f] == Int(v.value)) }
  ghost predicate CarriesText(s: Spec, f: Field, v: Option<string>) { (f in s <==> v.Some?) && (v.Some? ==> s[f] == Text(v.value)) }
  ghost predicate CarriesTime(s: Spec, f: Field, v: Option<int>) { (f in s <==> v.Some?) && (v.Some? ==> s[f] == Time(v.value)) }

  /** Column by column: the INSERT carries what the mutation has set, and nothing else. */
  ghost predicate SpecCarries(s: Spec, m: Mutation) {
    && CarriesTime(s, CreatedAt, m.createdAt) && CarriesTime(s, UpdatedAt, m.updatedAt) && CarriesTime(s, DeletedAt, m.deletedAt)
    && CarriesInt(s, ValidationCaseID, m.validationCase) && CarriesInt(s, ValidatorUserID, m.validatorUser)
    && CarriesText(s, Status, m.status) && CarriesInt(s, WorkflowCycle, m.workflowCycle)
    && CarriesTime(s, ApprovedAt, m.approvedAt) && CarriesTime(s, RejectedAt, m.rejectedAt) && CarriesTime(s, ExpiresAt, m.expiresAt)
    && CarriesTime(s, OwnerResponseDueAt, m.ownerResponseDueAt)
    && CarriesInt(s, ReminderCount, m.reminderCount) && CarriesText(s, AutoClosedReason, m.autoClosedReason)
    && ID !in s && forall name :: Unknown(name) !in s
  }

  /** Field by field: the node has what the mutation has set, and else the zero value. */
  ghost predicate NodeCarries(n: Record, m: Mutation) {
    && n.createdAt == (if m.createdAt.Some? then m.createdAt.value else 0)
    && n.updatedAt == (if m.updatedAt.Some? then m.updatedAt.value else 0)
    && n.deletedAt == m.deletedAt
    && n.validationCaseID == (if m.validationCase.Some? then m.validationCase.value else 0)
    && n.validatorUserID == (if m.validatorUser.Some? then m.validatorUser.value else 0)
    && n.status == (if m.status.Some? then m.status.value else "")
    && n.workflowCycle == (if m.workflowCycle.Some? then m.workflowCycle.value else 0)
    && n.approvedAt == m.approvedAt && n.rejectedAt == m.rejectedAt && n.expiresAt == m.expiresAt
    && n.ownerResponseDueAt == m.ownerResponseDueAt
    && n.reminderCount == (if m.reminderCount.Some? then m.reminderCount.value else 0)
    && n.autoClosedReason == m.autoClosedReason && n.selected == map[]
  }

  lemma {:induction false} TimesCarried(m: Mutation)
    ensures
      var s := SpecOf(m);
      && CarriesTime(s, CreatedAt, m.createdAt) && CarriesTime(s, UpdatedAt, m.updatedAt) && CarriesTime(s, DeletedAt, m.deletedAt)
      && CarriesTime(s, ApprovedAt, m.approvedAt) && CarriesTime(s, RejectedAt, m.rejectedAt) && CarriesTime(s, ExpiresAt, m.expiresAt)
      && CarriesTime(s, OwnerResponseDueAt, m.ownerResponseDueAt)
  {
    SpecHolds(m, CreatedAt);
    SpecHolds(m, UpdatedAt);
    SpecHolds(m, DeletedAt);
    SpecHolds(m, ApprovedAt);
    SpecHolds(m, RejectedAt);
    SpecHolds(m, ExpiresAt);
    SpecHolds(m, OwnerResponseDueAt);
  }

  lemma {:induction false} OthersCarried(m: Mutation)
    ensures
      var s := SpecOf(m);
      && CarriesInt(s, ValidationCaseID, m.validationCase) && CarriesInt(s, ValidatorUserID, m.validatorUser)
      && CarriesText(s, Status, m.status) && CarriesInt(s, WorkflowCycle, m.workflowCycle)
      && CarriesInt(s, ReminderCount, m.reminderCount) && CarriesText(s, AutoClosedReason, m.autoClosedReason)
      && ID !in s
  {
    SpecHolds(m, ValidationCaseID);
    SpecHolds(m, ValidatorUserID);
    SpecHolds(m, Status);
    SpecHolds(m, WorkflowCycle);
    SpecHolds(m, ReminderCount);
    SpecHolds(m, AutoClosedReason);
    SpecHolds(m, ID);
  }

  lemma {:induction false} OnlyKnownColumns(m: Mutation, name: string)
    ensures Unknown(name) !in SpecOf(m)
  {
    var s := PutLifecycle(map[], m);
    assert Unknown(name) !in s;
    assert Unknown(name) !in PutDecision(s, m);
  }

  /** The INSERT, in terms of the mutation's fields alone. */
  lemma {:induction false} SpecCarriesMutation(m: Mutation)
    ensures SpecCarries(SpecOf(m), m)
  {
    TimesCarried(m);
    OthersCarried(m);
    var s := SpecOf(m);
    forall name ensures Unknown(name) !in s { OnlyKnownColumns(m, name); }
  }

  /** And the node. */
  lemma {:induction false} NodeCarriesMutation(m: Mutation)
    ensures NodeCarries(NodeOf(m), m) && NodeOf(m).id == 0
  {}

  class ConsultationRequestCreate {
    var mutation: Mutation

    constructor (m: Mutation)
      ensures mutation == m
    {
      mutation := m;
    }

    method Defaults(created: int, updated: int)
      modifies this
      ensures mutation == WithDefaults(old(mutation), created, updated)
    {
      if mutation.createdAt.None? { mutation := mutation.(createdAt := Some(created)); }
      if mutation.updatedAt.None? { mutation := mutation.(updatedAt := Some(updated)); }
      if mutation.status.None? { mutation := mutation.(status := Some(DEFAULT_STATUS)); }
      if mutation.workflowCycle.None? { mutation := mutation.(workflowCycle := Some(DEFAULT_CYCLE)); }
      if mutation.reminderCount.None? { mutation := mutation.(reminderCount := Some(DEFAULT_REMINDERS)); }
    }

    method SetLifecycle(node: Record, spec: Spec) returns (n: Record, s: Spec)
      requires node.createdAt == ZERO.createdAt && node.updatedAt == ZERO.updatedAt && node.deletedAt == ZERO.deletedAt && node.status == ZERO.status && node.workflowCycle == ZERO.workflowCycle
      ensures s == PutLifecycle(spec, mutation)
      ensures n == node.(createdAt := NodeOf(mutation).createdAt, updatedAt := NodeOf(mutation).updatedAt, deletedAt := NodeOf(mutation).deletedAt, status := NodeOf(mutation).status, workflowCycle := NodeOf(mutation).workflowCycle)
    {
      n, s := node, spec;
      if mutation.createdAt.Some? {
        s := s[CreatedAt := Time(mutation.createdAt.value)];
        n := n.(createdAt := mutation.createdAt.value);
      }
      if mutation.updatedAt.Some? {
        s := s[UpdatedAt := Time(mutation.updatedAt.value)];
        n := n.(updatedAt := mutation.updatedAt.value);
      }
      if mutation.deletedAt.Some? {
        s := s[DeletedAt := Time(mutation.deletedAt.value)];
        n := n.(deletedAt := mutation.deletedAt);
      }
      if mutation.status.Some? {
        s := s[Status := Text(mutation.status.value)];
        n := n.(status := mutation.status.value);
      }
      if mutation.workflowCycle.Some? {
        s := s[WorkflowCycle := Int(mutation.workflowCycle.value)];
        n := n.(workflowCycle := mutation.workflowCycle.value);
      }
    }

    method SetDecision(node: Record, spec: Spec) returns (n: Record, s: Spec)
      requires node.approvedAt == ZERO.approvedAt && node.rejectedAt == ZERO.rejectedAt && node.expiresAt == ZERO.expiresAt && node.ownerResponseDueAt == ZERO.ownerResponseDueAt
      ensures s == PutDecision(spec, mutation)
      ensures n == node.(approvedAt := NodeOf(mutation).approvedAt, rejectedAt := NodeOf(mutation).rejectedAt, expiresAt := NodeOf(mutation).expiresAt, ownerResponseDueAt := NodeOf(mutation).ownerResponseDueAt)
    {
      n, s := node, spec;
      if mutation.approvedAt.Some? {
        s := s[ApprovedAt := Time(mutation.approvedAt.value)];
        n := n.(approvedAt := mutation.approvedAt);
      }
      if mutation.rejectedAt.Some? {
        s := s[RejectedAt := Time(mutation.rejectedAt.value)];
        n := n.(rejectedAt := mutation.rejectedAt);
      }
      if mutation.expiresAt.Some? {
        s := s[ExpiresAt := Time(mutation.expiresAt.value)];
        n := n.(expiresAt := mutation.expiresAt);
      }
      if mutation.ownerResponseDueAt.Some? {
        s := s[OwnerResponseDueAt := Time(mutation.ownerResponseDueAt.value)];
        n := n.(ownerResponseDueAt := mutation.ownerResponseDueAt);
      }
    }

    method SetEdges(node: Record, spec: Spec) returns (n: Record, s: Spec)
      requires node.reminderCount == ZERO.reminderCount && node.autoClosedReason == ZERO.autoClosedReason && node.validationCaseID == ZERO.validationCaseID && node.validatorUserID == ZERO.validatorUserID
      ensures s == PutEdges(spec, mutation)
      ensures n == node.(reminderCount := NodeOf(mutation).reminderCount, autoClosedReason := NodeOf(mutation).autoClosedReason, validationCaseID := NodeOf(mutation).validationCaseID, validatorUserID := NodeOf(mutation).validatorUserID)
    {
      n, s := node, spec;
      if mutation.reminderCount.Some? {
        s := s[ReminderCount := Int(mutation.reminderCount.value)];
        n := n.(reminderCount := mutation.reminderCount.value);
      }
      if mutation.autoClosedReason.Some? {
        s := s[AutoClosedReason := Text(mutation.autoClosedReason.value)];
        n := n.(autoClosedReason := mutation.autoClosedReason);
      }
      if mutation.validationCase.Some? {
        s := s[ValidationCaseID := Int(mutation.validationCase.value)];
        n := n.(validationCaseID := mutation.validationCase.value);
      }
      if mutation.validatorUser.Some? {
        s := s[ValidatorUserID := Int(mutation.validatorUser.value)];
        n := n.(validatorUserID := mutation.validatorUser.value);
      }
    }

    method CreateSpec() returns (node: Record, spec: Spec)
      ensures node == NodeOf(mutation) && spec == SpecOf(mutation)
      ensures SpecCarries(spec, mutation) && NodeCarries(node, mutation) && node.id == 0
    {
      node, spec := SetLifecycle(ZERO, map[]);
      node, spec := SetDecision(node, spec);
      node, spec := SetEdges(node, spec);
      SpecCarriesMutation(mutation);
      NodeCarriesMutation(mutation);
    }
  }

  /** The stored row: the columns of the INSERT, the new id, and the column defaults of the table. */
  function StoredRow(spec: Spec, id: int): Row {
    map[Status := Text(DEFAULT_STATUS), WorkflowCycle := Int(DEFAULT_CYCLE), ReminderCount := Int(DEFAULT_REMINDERS)] + spec + map[ID := Int(id)]
  }

  lemma {:induction false} EveryFieldIsAColumn(f: Field)
    requires !f.Unknown?
    ensures f in COLUMNS
  {
    var k := match f
      case ID => 0 case CreatedAt => 1 case UpdatedAt => 2 case DeletedAt => 3 case ValidationCaseID => 4 case ValidatorUserID => 5
      case Status => 6 case WorkflowCycle => 7 case ApprovedAt => 8 case RejectedAt => 9 case ExpiresAt => 10
      case OwnerResponseDueAt => 11 case ReminderCount => 12 case AutoClosedReason => 13;
    assert COLUMNS[k] == f;
  }

  lemma {:induction false} SameTimes(r: Record, r': Record)
    requires forall f: Field :: !f.Unknown? ==> Column(r, f) == Column(r', f)
    ensures r.createdAt == r'.createdAt && r.updatedAt == r'.updatedAt && r.deletedAt == r'.deletedAt && r.approvedAt == r'.approvedAt && r.rejectedAt == r'.rejectedAt && r.expiresAt == r'.expiresAt && r.ownerResponseDueAt == r'.ownerResponseDueAt
  {
    assert Column(r, CreatedAt) == Column(r', CreatedAt);
    assert Column(r, UpdatedAt) == Column(r', UpdatedAt);
    assert Column(r, DeletedAt) == Column(r', DeletedAt);
    assert Column(r, ApprovedAt) == Column(r', ApprovedAt);
    assert Column(r, RejectedAt) == Column(r', RejectedAt);
    assert Column(r, ExpiresAt) == Column(r', ExpiresAt);
    assert Column(r, OwnerResponseDueAt) == Column(r', OwnerResponseDueAt);
  }

  lemma {:induction false} SameOthers(r: Record, r': Record)
    requires forall f: Field :: !f.Unknown? ==> Column(r, f) == Column(r', f)
    ensures r.id == r'.id && r.validationCaseID == r'.validationCaseID && r.validatorUserID == r'.validatorUserID && r.status == r'.status && r.workflowCycle == r'.workflowCycle && r.reminderCount == r'.reminderCount && r.autoClosedReason == r'.autoClosedReason
  {
    assert Column(r, ID) == Column(r', ID);
    assert Column(r, ValidationCaseID) == Column(r', ValidationCaseID);
    assert Column(r, ValidatorUserID) == Column(r', ValidatorUserID);
    assert Column(r, Status) == Column(r', Status);
    assert Column(r, WorkflowCycle) == Column(r', WorkflowCycle);
    assert Column(r, ReminderCount) == Column(r', ReminderCount);
    assert Column(r, AutoClosedReason) == Column(r', AutoClosedReason);
  }

  /** Create/read round trip: after defaults, the node returned by a create shows, field by field and optional
      fields included, what is read back from the row its spec wrote, for every selection of columns. */
  lemma {:induction false} CreateThenRead(m: Mutation, created: int, updated: int, id: int, columns: seq<Field>, f: Field)
    requires f in columns && !f.Unknown?
    ensures
      var m' := WithDefaults(m, created, updated);
      Column(ReadNode(StoredRow(SpecOf(m'), id), columns), f) == Column(NodeOf(m').(id := id), f)
  {
    var m' := WithDefaults(m, created, updated);
    NodeShowsRow(StoredRow(SpecOf(m'), id), columns, f);
    StoredCell(m', id, f);
    NodeShowsMutation(m', f);
  }

  function TableDefault(f: Field): Datum {
    match f
    case Status => Text(DEFAULT_STATUS)
    case WorkflowCycle => Int(DEFAULT_CYCLE)
    case ReminderCount => Int(DEFAULT_REMINDERS)
    case _ => Nil
  }

  lemma {:induction false} StoredRowCell(spec: Spec, id: int, f: Field)
    ensures CellOf(StoredRow(spec, id), f) == if f == ID then Int(id) else if f in spec then spec[f] else TableDefault(f)
  {}

  lemma {:induction false} StoredCell(m: Mutation, id: int, f: Field)
    requires !f.Unknown? && (TableDefault(f) != Nil ==> Held(m, f) != Nil)
    ensures CellOf(StoredRow(SpecOf(m), id), f) == if f == ID then Int(id) else Held(m, f)
  {
    SpecHolds(m, f);
    StoredRowCell(SpecOf(m), id, f);
  }

  lemma {:induction false} NodeShowsMutation(m: Mutation, f: Field)
    requires !f.Unknown?
    ensures Column(NodeOf(m), f) == Shown(f, Held(m, f))
  {}

  /** So a node that was just created and the same node queried afterwards are equal. */
  lemma {:induction false} CreateThenReadAll(m: Mutation, created: int, updated: int, id: int)
    ensures
      var m' := WithDefaults(m, created, updated);
      ReadNode(StoredRow(SpecOf(m'), id), COLUMNS) == NodeOf(m').(id := id)
  {
    var m' := WithDefaults(m, created, updated);
    var row := StoredRow(SpecOf(m'), id);
    var read := ReadNode(row, COLUMNS);
    forall f: Field | !f.Unknown? ensures Column(read, f) == Column(NodeOf(m').(id := id), f) {
      EveryFieldIsAColumn(f);
      CreateThenRead(m, created, updated, id, COLUMNS, f);
    }
    SameTimes(read, NodeOf(m').(id := id));
    SameOthers(read, NodeOf(m').(id := id));
    AssignReadsRow(ZERO, row, COLUMNS, ID);
    NothingSelected(ZERO, row, COLUMNS);
  }

  lemma {:induction false} NothingSelected(r: Record, row: Row, columns: seq<Field>)
    requires forall k :: 0 <= k < |columns| ==> !columns[k].Unknown?
    requires AssignAll(r, columns, ScanRow(row, columns)).Some?
    ensures AssignAll(r, columns, ScanRow(row, columns)).value.selected == r.selected
    decreases |columns|
  {
    if columns != [] {
      assert ScanRow(row, columns)[1..] == ScanRow(row, columns[1..]);
      NothingSelected(Assigned(r, columns[0], ScanRow(row, columns)[0]).value, row, columns[1..]);
    }
  }

  /** Without the builder's defaults the returned node would not be the stored one: the table supplies a status. */
  lemma {:induction false} DefaultsMatter(m: Mutation, id: int)
    ensures Column(ReadNode(StoredRow(SpecOf(m), id), COLUMNS), Status) == Column(NodeOf(m), Status)
            <==> m.status.Some?
  {
    var row := StoredRow(SpecOf(m), id);
    EveryFieldIsAColumn(Status);
    NodeShowsRow(row, COLUMNS, Status);
    StoredRowCell(SpecOf(m), id, Status);
    assert CellOf(SpecOf(m), Status) == Held(m, Status) && (Status in SpecOf(m) <==> Held(m, Status) != Nil) by { SpecHolds(m, Status); }
    NodeShowsMutation(m, Status);
  }
}

/**
 The generated schema of the four tables the migrations work on, with every foreign key, every index and every column
 that one of these or a migration names, and of the tables those reference by name alone.  It meets every
 promise that the theorems ask of a target schema.
 */
module GeneratedSchema {
  import opened Relational
  import opened RowNumber
  import opened Statements
  import opened Migrations
  import opened SchemaCreate
  import opened Consistency

  const USERS := OtherTable("users")
  const CATEGORIES := OtherTable("categories")
  const TAGS := OtherTable("tags")

  const UserId := OtherColumn("user_id")
  const CategoryId := OtherColumn("category_id")
  const TagId := OtherColumn("tag_id")
  const ResponseDue := OtherColumn("owner_response_due_at")
  const SubmissionKey := OtherColumn("submission_key")
  const Sensitivity := OtherColumn("sensitivity_level")
  const Clarification := OtherColumn("clarification_state")

  /** Stands for a default that is a text. */
  const TEXT := Num(0)

  /** One generated table: those columns, its foreign keys, and its indexes under names that the
      migrations do not use. */
  datatype Part = Part(columns: map<Column, Cell>, keys: set<ForeignKey>, indexes: map<IndexName, Index>)

  const REQUEST_COLUMNS: map<Column, Cell> := map[
    CreatedAt := Null, Status := TEXT, WorkflowCycle := Num(1), ValidatorUserId := Null, ValidationCaseId := Null, ResponseDue := Null]

  const REQUEST_KEYS: set<ForeignKey> := {
    ForeignKey(OtherKey("consultation_requests_users_consultation_requests"), ConsultationRequests, ValidatorUserId, USERS, NoAction),
    ForeignKey(OtherKey("consultation_requests_validation_cases_consultation_requests"), ConsultationRequests, ValidationCaseId, ValidationCases, NoAction)}

  const REQUEST_INDEXES: map<IndexName, Index> := map[
    OtherIndex("consultationrequest_validation_case_id") := Index(ConsultationRequests, [ValidationCaseId], false),
    OtherIndex("consultationrequest_validator_user_id") := Index(ConsultationRequests, [ValidatorUserId], false),
    OtherIndex("consultationrequest_status") := Index(ConsultationRequests, [Status], false),
    OtherIndex("consultationrequest_owner_response_due_at") := Index(ConsultationRequests, [ResponseDue], false),
    OtherIndex("consultationrequest_validator_user_id_status") := Index(ConsultationRequests, [ValidatorUserId, Status], false)]

  const OFFER_COLUMNS: map<Column, Cell> := map[
    CreatedAt := Null, Status := TEXT, WorkflowCycle := Num(1), ValidatorUserId := Null, ValidationCaseId := Null, SubmissionKey := Null]

  const OFFER_KEYS: set<ForeignKey> := {
    ForeignKey(OtherKey("final_offers_users_final_offers"), FinalOffers, ValidatorUserId, USERS, NoAction),
    ForeignKey(OtherKey("final_offers_validation_cases_final_offers"), FinalOffers, ValidationCaseId, ValidationCases, NoAction)}

  const OFFER_INDEXES: map<IndexName, Index> := map[
    OtherIndex("final_offers_submission_key_key") := Index(FinalOffers, [SubmissionKey], true),
    OtherIndex("finaloffer_validation_case_id") := Index(FinalOffers, [ValidationCaseId], false),
    OtherIndex("finaloffer_validator_user_id") := Index(FinalOffers, [ValidatorUserId], false),
    OtherIndex("finaloffer_validation_case_id_validator_user_id") := Index(FinalOffers, [ValidationCaseId, ValidatorUserId], false),
    OtherIndex("finaloffer_status") := Index(FinalOffers, [Status], false)]

  const CASE_COLUMNS: map<Column, Cell> := map[
    CreatedAt := Null, Status := TEXT, WorkflowCycle := Num(1), AcceptedFinalOfferId := Null,
    Sensitivity := TEXT, Clarification := TEXT, CategoryId := Null, UserId := Null]

  const CASE_KEYS: set<ForeignKey> := {
    ForeignKey(OtherKey("validation_cases_categories_validation_cases"), ValidationCases, CategoryId, CATEGORIES, NoAction),
    ForeignKey(OtherKey("validation_cases_users_validation_cases"), ValidationCases, UserId, USERS, NoAction)}

  const CASE_INDEXES: map<IndexName, Index> := map[
    OtherIndex("validationcase_category_id") := Index(ValidationCases, [CategoryId], false),
    OtherIndex("validationcase_user_id") := Index(ValidationCases, [UserId], false),
    OtherIndex("validationcase_status") := Index(ValidationCases, [Status], false),
    OtherIndex("validationcase_sensitivity_level") := Index(ValidationCases, [Sensitivity], false),
    OtherIndex("validationcase_clarification_state") := Index(ValidationCases, [Clarification], false),
    OtherIndex("validationcase_workflow_cycle") := Index(ValidationCases, [WorkflowCycle], false),
    OtherIndex("validationcase_created_at") := Index(ValidationCases, [CreatedAt], false),
    OtherIndex("validationcase_user_id_status") := Index(ValidationCases, [UserId, Status], false)]

  const CASE_TAGS := Part(
    map[TagId := Null, ValidationCaseId := Null],
    {
      ForeignKey(OtherKey("tag_validation_cases_tag_id"), TagValidationCases, TagId, TAGS, Cascade),
      ForeignKey(OtherKey("tag_validation_cases_validation_case_id"), TagValidationCases, ValidationCaseId, ValidationCases, Cascade)},
    map[])

  const CYCLE_INDEXES: map<IndexName, Index> := map[
    RequestCaseValidatorCycle := REQUEST_INDEX,
    RequestCaseCycle := Index(ConsultationRequests, [ValidationCaseId, WorkflowCycle], false),
    RequestValidatorStatusCycle := Index(ConsultationRequests, [ValidatorUserId, Status, WorkflowCycle], false),
    OfferCaseValidatorCycle := OFFER_INDEX]

  function Assembled(cases: Part, requests: Part, offers: Part, tags: Part): Schema {
    Schema(map[USERS := map[], CATEGORIES := map[], TAGS := map[],
               ValidationCases := cases.columns, ConsultationRequests := requests.columns,
               FinalOffers := offers.columns, TagValidationCases := tags.columns],
           cases.keys + requests.keys + offers.keys + tags.keys,
           cases.indexes + requests.indexes + offers.indexes + tags.indexes + CYCLE_INDEXES)
  }

  const CASES := Part(CASE_COLUMNS, CASE_KEYS, CASE_INDEXES)
  const REQUESTS := Part(REQUEST_COLUMNS, REQUEST_KEYS, REQUEST_INDEXES)
  const OFFERS := Part(OFFER_COLUMNS, OFFER_KEYS, OFFER_INDEXES)

  const ENT_SCHEMA := Assembled(CASES, REQUESTS, OFFERS, CASE_TAGS)

  // ---------------------------------------------------------------- it is what the theorems ask for

  const REFERENCED: set<TableName> := {ValidationCases, USERS, CATEGORIES, TAGS}

  /** Keys and indexes of ordinary names over columns of the table t itself; key columns start out as NULL. */
  ghost predicate Plain(p: Part, t: TableName) {
    PlainKeys(p.keys, t, p.columns) && PlainIndexes(p.indexes, t, p.columns)
  }

  ghost predicate PlainKeys(keys: set<ForeignKey>, t: TableName, columns: map<Column, Cell>) {
    forall fk :: fk in keys ==>
      && fk.name.OtherKey? && fk.table == t && fk.target in REFERENCED
      && fk.column != WorkflowCycle && fk.column in columns && columns[fk.column] == Null
  }

  ghost predicate PlainIndexes(indexes: map<IndexName, Index>, t: TableName, columns: map<Column, Cell>) {
    forall n :: n in indexes ==> n.OtherIndex? && indexes[n].table == t && forall c :: c in indexes[n].columns ==> c in columns
  }

  lemma {:induction false} RequestsArePlain()
    ensures Plain(REQUESTS, ConsultationRequests) && RANK_COLUMNS + {Status} <= REQUESTS.columns.Keys
  {}

  lemma {:induction false} OffersArePlain()
    ensures Plain(OFFERS, FinalOffers) && RANK_COLUMNS <= OFFERS.columns.Keys
  {}

  lemma {:induction false} CasesArePlain()
    ensures Plain(CASES, ValidationCases) && {WorkflowCycle, AcceptedFinalOfferId} <= CASES.columns.Keys
  {}

  lemma {:induction false} TagsArePlain()
    ensures Plain(CASE_TAGS, TagValidationCases) && ValidationCaseId in CASE_TAGS.columns && ThreadId !in CASE_TAGS.columns
  {}

  lemma {:induction false} AssembledTables(s: Schema, cases: Part, requests: Part, offers: Part, tags: Part)
    requires s == Assembled(cases, requests, offers, tags)
    ensures s.tables.Keys == REFERENCED + {ConsultationRequests, FinalOffers, TagValidationCases}
    ensures s.tables[ValidationCases] == cases.columns && s.tables[ConsultationRequests] == requests.columns
    ensures s.tables[FinalOffers] == offers.columns && s.tables[TagValidationCases] == tags.columns
  {}

  /** Every key and every index lies within the schema, under an ordinary name or as a cycle index. */
  lemma {:induction false} AssembledKeys(s: Schema, cases: Part, requests: Part, offers: Part, tags: Part, fk: ForeignKey)
    requires s == Assembled(cases, requests, offers, tags) && fk in s.foreignKeys
    requires Plain(cases, ValidationCases) && Plain(requests, ConsultationRequests) && Plain(offers, FinalOffers) && Plain(tags, TagValidationCases)
    ensures fk.name.OtherKey? && fk.target in REFERENCED && fk.table in s.tables && fk.column in s.tables[fk.table] && fk.column != WorkflowCycle
    ensures s.tables[fk.table][fk.column] == Null
    ensures fk.table in {ValidationCases, ConsultationRequests, FinalOffers, TagValidationCases}
  {
    AssembledTables(s, cases, requests, offers, tags);
  }

  lemma {:induction false} AssembledIndexes(s: Schema, cases: Part, requests: Part, offers: Part, tags: Part, n: IndexName)
    requires s == Assembled(cases, requests, offers, tags) && n in s.indexes && n !in CYCLE_INDEXES
    requires Plain(cases, ValidationCases) && Plain(requests, ConsultationRequests) && Plain(offers, FinalOffers) && Plain(tags, TagValidationCases)
    ensures n.OtherIndex? && s.indexes[n].table in s.tables && forall c :: c in s.indexes[n].columns ==> c in s.tables[s.indexes[n].table]
  {
    AssembledTables(s, cases, requests, offers, tags);
  }

  lemma {:induction false} CycleIndexesAsDeclared(s: Schema, cases: Part, requests: Part, offers: Part, tags: Part)
    requires s == Assembled(cases, requests, offers, tags)
    requires Plain(cases, ValidationCases) && Plain(requests, ConsultationRequests) && Plain(offers, FinalOffers) && Plain(tags, TagValidationCases)
    ensures RequestCaseValidator !in s.indexes
    ensures RequestCaseValidatorCycle in s.indexes && s.indexes[RequestCaseValidatorCycle] == REQUEST_INDEX
    ensures OfferCaseValidatorCycle in s.indexes && s.indexes[OfferCaseValidatorCycle] == OFFER_INDEX
  {}

  lemma {:induction false} NoLegacyTables(s: Schema, cases: Part, requests: Part, offers: Part, tags: Part)
    requires s == Assembled(cases, requests, offers, tags)
    ensures {Threads, TagThreads, ThreadCredentials} !! s.tables.Keys
    ensures {ValidationCases, ConsultationRequests, FinalOffers, TagValidationCases} <= s.tables.Keys
  {
    AssembledTables(s, cases, requests, offers, tags);
  }

  lemma {:induction false} AssembledIsFull(s: Schema, cases: Part, requests: Part, offers: Part, tags: Part)
    requires s == Assembled(cases, requests, offers, tags)
    requires Plain(cases, ValidationCases) && Plain(requests, ConsultationRequests) && Plain(offers, FinalOffers) && Plain(tags, TagValidationCases)
    requires {WorkflowCycle, AcceptedFinalOfferId} <= cases.columns.Keys && RANK_COLUMNS + {Status} <= requests.columns.Keys
    requires RANK_COLUMNS <= offers.columns.Keys && ValidationCaseId in tags.columns && ThreadId !in tags.columns
    ensures Full(s)
  {
    AssembledTables(s, cases, requests, offers, tags);
    forall fk | fk in s.foreignKeys ensures fk.name.OtherKey? && fk.target in REFERENCED && fk.table != ThreadCredentials {
      AssembledKeys(s, cases, requests, offers, tags, fk);
    }
    NoLegacyTables(s, cases, requests, offers, tags);
    CycleIndexesAsDeclared(s, cases, requests, offers, tags);
  }

  lemma {:induction false} CycleIndexesFit(s: Schema, n: IndexName)
    requires n in CYCLE_INDEXES && n in s.indexes && s.indexes[n] == CYCLE_INDEXES[n]
    requires ConsultationRequests in s.tables && FinalOffers in s.tables
    requires RANK_COLUMNS + {Status} <= s.tables[ConsultationRequests].Keys && RANK_COLUMNS <= s.tables[FinalOffers].Keys
    ensures s.indexes[n].table in s.tables && forall c :: c in s.indexes[n].columns ==> c in s.tables[s.indexes[n].table]
  {}

  lemma {:induction false} AssembledIsCoherent(s: Schema, cases: Part, requests: Part, offers: Part, tags: Part)
    requires s == Assembled(cases, requests, offers, tags)
    requires Plain(cases, ValidationCases) && Plain(requests, ConsultationRequests) && Plain(offers, FinalOffers) && Plain(tags, TagValidationCases)
    requires RANK_COLUMNS + {Status} <= requests.columns.Keys && RANK_COLUMNS <= offers.columns.Keys
    ensures Coherent(s) && SelfContained(s)
  {
    AssembledTables(s, cases, requests, offers, tags);
    forall fk | fk in s.foreignKeys ensures fk.target in s.tables && fk.table in s.tables && fk.column in s.tables[fk.table] && s.tables[fk.table][fk.column] == Null && fk.column != WorkflowCycle {
      AssembledKeys(s, cases, requests, offers, tags, fk);
    }
    forall n | n in s.indexes ensures s.indexes[n].table in s.tables && forall c :: c in s.indexes[n].columns ==> c in s.tables[s.indexes[n].table] {
      if n in CYCLE_INDEXES {
        CycleIndexesFit(s, n);
      } else {
        AssembledIndexes(s, cases, requests, offers, tags, n);
      }
    }
  }

  /** The generated schema meets every promise the theorems ask of it. */
  lemma {:induction false} GeneratedSchemaIsFull()
    ensures Full(ENT_SCHEMA) && Coherent(ENT_SCHEMA) && SelfContained(ENT_SCHEMA)
  {
    CasesArePlain();
    RequestsArePlain();
    OffersArePlain();
    TagsArePlain();
    AssembledIsFull(ENT_SCHEMA, CASES, REQUESTS, OFFERS, CASE_TAGS);
    AssembledIsCoherent(ENT_SCHEMA, CASES, REQUESTS, OFFERS, CASE_TAGS);
  }
}

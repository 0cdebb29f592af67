/**
 The cleanup row by row: which rows survive, and exactly when it can commit.  No cascade that starts at a deleted
 request or offer may lead back to the three workflow tables; in the application's schema nothing references
 requests or offers at all, and then the deletes touch nothing but the surplus rows.
 */
module CleanupEffects {
  import opened Outcomes
  import opened Relational
  import opened RowNumber
  import opened Statements
  import opened Migrations
  import opened RenameLaws
  import opened CleanupLaws

  // ---------------------------------------------------------------- where the deletes reach

  const WORKFLOW_TABLES: set<TableName> := {ValidationCases, ConsultationRequests, FinalOffers}

  /** Cascades from requests and offers stay within the tables s, and none of them removes workflow rows. */
  ghost predicate Shielded(fks: set<ForeignKey>, s: set<TableName>) {
    && ConsultationRequests in s && FinalOffers in s
    && forall fk :: fk in fks && fk.onDelete == Cascade && fk.target in s ==> fk.table in s && fk.table !in WORKFLOW_TABLES
  }

  ghost predicate CascadesLead(fks: set<ForeignKey>) {
    exists s :: Shielded(fks, s)
  }

  ghost predicate DeletesStayLocal(d: Db) {
    Unreferenced(d, ConsultationRequests) && Unreferenced(d, FinalOffers)
  }

  function KeptRequests(d: Db): map<int, Row>
    requires ConsultationRequests in d.tables
  {
    var rows := NormalRows(d.tables[ConsultationRequests]);
    rows - Surplus(RequestEntries(rows))
  }

  function KeptOffers(d: Db): map<int, Row>
    requires FinalOffers in d.tables && ValidationCases in d.tables
  {
    var rows := NormalRows(d.tables[FinalOffers]);
    rows - Surplus(OfferEntries(rows, NormalRows(d.tables[ValidationCases])))
  }

  lemma {:induction false} LocalDeletesLead(d: Db)
    requires DeletesStayLocal(d)
    ensures Shielded(d.foreignKeys, {ConsultationRequests, FinalOffers})
  {}

  /** Whatever else references requests and offers: it is enough that the workflow tables' own keys do not cascade. */
  lemma {:induction false} NoActionLeads(d: Db)
    requires forall fk :: fk in d.foreignKeys && fk.table in WORKFLOW_TABLES ==> fk.onDelete == NoAction
    ensures CascadesLead(d.foreignKeys)
  {
    var s := {ConsultationRequests, FinalOffers} + set fk | fk in d.foreignKeys :: fk.table;
    assert Shielded(d.foreignKeys, s);
  }

  lemma {:induction false} CascadeStaysWithin(d: Db, from: set<Ref>, s: set<TableName>)
    requires Shielded(d.foreignKeys, s) && forall p :: p in from ==> p.0 in s
    ensures forall p :: p in CascadeFrom(d, from) ==> p.0 in s
    decreases AllRefs(d) - from
  {
    if !(Dependents(d, from) <= from) {
      assert AllRefs(d) - (from + Dependents(d, from)) < AllRefs(d) - from;
      CascadeStaysWithin(d, from + Dependents(d, from), s);
    }
  }

  lemma {:induction false} ShieldedCascade(d: Db, t: TableName, ids: set<int>, s: set<TableName>, p: Ref)
    requires Shielded(d.foreignKeys, s) && t in s && p in CascadeFrom(d, RefsTo(t, ids)) && p.0 in WORKFLOW_TABLES
    ensures p in RefsTo(t, ids)
  {
    CascadeStaysWithin(d, RefsTo(t, ids), s);
    if p !in RefsTo(t, ids) { CascadeHasCause(d, RefsTo(t, ids), p); }
  }

  /** In the workflow tables a shielded delete removes the named rows and nothing else. */
  lemma {:induction false} ShieldedDelete(d: Db, t: TableName, ids: set<int>, s: set<TableName>)
    requires Shielded(d.foreignKeys, s) && t in s && t in WORKFLOW_TABLES && DeleteRows(d, t, ids).Ok?
    ensures
      var d' := DeleteRows(d, t, ids).value;
      && Shrinks(d, d') && d'.tables[t].rows == d.tables[t].rows - ids
      && forall u :: u in WORKFLOW_TABLES && u in d.tables && u != t ==> d'.tables[u] == d.tables[u]
  {
    DeleteShrinks(d, t, ids);
    var doomed := CascadeFrom(d, RefsTo(t, ids));
    forall u, i | u in WORKFLOW_TABLES && (u, i) in doomed ensures u == t && i in ids { ShieldedCascade(d, t, ids, s, (u, i)); }
    var d' := Without(d, doomed);
    forall u | u in WORKFLOW_TABLES && u in d.tables && u != t ensures d'.tables[u] == d.tables[u] {
      assert d'.tables[u].rows == d.tables[u].rows;
    }
    forall i | i in ids ensures (t, i) in doomed { assert (t, i) in RefsTo(t, ids); }
    assert d'.tables[t].rows == d.tables[t].rows - ids;
  }

  // ---------------------------------------------------------------- the effect

  /** t is as before, except that cascades may have removed rows. */
  ghost predicate OnlyLoses(t: Table, t': Table) {
    t'.columns == t.columns && t'.rows.Keys <= t.rows.Keys && forall i :: i in t'.rows ==> t'.rows[i] == t.rows[i]
  }

  /** Table t has the cycle column and the given rows; the other workflow tables are the same, any other table can only
      lose rows, and loses none where nothing references requests or offers. */
  ghost predicate StepOn(d: Db, d': Db, t: TableName, rows: map<int, Row>) {
    && t in d.tables && d'.tables.Keys == d.tables.Keys && d'.foreignKeys == d.foreignKeys && d'.indexes == d.indexes
    && d'.tables[t] == Table(d.tables[t].columns + {WorkflowCycle}, rows)
    && (forall u :: u in d.tables && u != t ==> OnlyLoses(d.tables[u], d'.tables[u]))
    && (forall u :: u in d.tables && u != t && (u in WORKFLOW_TABLES || DeletesStayLocal(d)) ==> d'.tables[u] == d.tables[u])
  }

  lemma {:induction false} DeleteAfterNormal(d: Db, t: TableName, ids: set<int>, s: set<TableName>)
    requires Shielded(d.foreignKeys, s) && t in d.tables && t in {ConsultationRequests, FinalOffers}
    requires DeleteRows(Normal(d, t), t, ids).Ok?
    ensures StepOn(d, DeleteRows(Normal(d, t), t, ids).value, t, NormalRows(d.tables[t]) - ids)
  {
    var n := Normal(d, t);
    ShieldedDelete(n, t, ids, s);
    if DeletesStayLocal(d) { DeleteUnreferenced(n, t, ids); }
  }

  lemma {:induction false} RequestsStep(d: Db, s: set<TableName>)
    requires Shielded(d.foreignKeys, s) && ConsultationRequests in d.tables
    requires CleanTable(d, ConsultationRequests, [DedupRequests]).Ok?
    ensures StepOn(d, CleanTable(d, ConsultationRequests, [DedupRequests]).value, ConsultationRequests, KeptRequests(d))
  {
    CleanTableUnfolds(d, ConsultationRequests, [DedupRequests]);
    var n := Normal(d, ConsultationRequests);
    ApplyOne(DedupRequests, n);
    DeleteAfterNormal(d, ConsultationRequests, Surplus(RequestEntries(n.tables[ConsultationRequests].rows)), s);
  }

  lemma {:induction false} OffersStep(d: Db, s: set<TableName>)
    requires Shielded(d.foreignKeys, s) && FinalOffers in d.tables && TableRaised(d, ValidationCases)
    requires CleanTable(d, FinalOffers, [DedupOffers]).Ok?
    ensures ValidationCases in d.tables
    ensures StepOn(d, CleanTable(d, FinalOffers, [DedupOffers]).value, FinalOffers, KeptOffers(d))
  {
    CleanTableUnfolds(d, FinalOffers, [DedupOffers]);
    var n := Normal(d, FinalOffers);
    ApplyOne(DedupOffers, n);
    NormalIsRaised(d, ValidationCases);
    assert NormalRows(d.tables[ValidationCases]) == d.tables[ValidationCases].rows by {
      assert Normal(d, ValidationCases).tables[ValidationCases] == d.tables[ValidationCases];
    }
    DeleteAfterNormal(d, FinalOffers, Surplus(OfferEntries(n.tables[FinalOffers].rows, n.tables[ValidationCases].rows)), s);
  }

  lemma {:induction false} CasesStep(d: Db)
    requires ValidationCases in d.tables && CleanTable(d, ValidationCases, []).Ok?
    ensures
      var d' := CleanTable(d, ValidationCases, []).value;
      && StepOn(d, d', ValidationCases, NormalRows(d.tables[ValidationCases])) && TableRaised(d', ValidationCases)
      && NormalRows(d'.tables[ValidationCases]) == NormalRows(d.tables[ValidationCases])
  {
    CleanTableUnfolds(d, ValidationCases, []);
    NormalIsRaised(d, ValidationCases);
    NormalTwice(d.tables[ValidationCases]);
  }

  /** A step on a table that exists, or none. */
  ghost predicate MaybeStep(d: Db, d': Db, t: TableName, rows: map<int, Row>) {
    if t in d.tables then StepOn(d, d', t, rows) else d' == d
  }

  ghost predicate Effect(d: Db, d': Db, cases: map<int, Row>, requests: map<int, Row>, offers: map<int, Row>) {
    && d'.tables.Keys == d.tables.Keys && d'.foreignKeys == d.foreignKeys && d'.indexes == d.indexes
    && (forall t :: t in d.tables && t !in WORKFLOW_TABLES ==> OnlyLoses(d.tables[t], d'.tables[t]))
    && (DeletesStayLocal(d) ==> forall t :: t in d.tables && t !in WORKFLOW_TABLES ==> d'.tables[t] == d.tables[t])
    && (ValidationCases in d.tables ==> d'.tables[ValidationCases] == Table(d.tables[ValidationCases].columns + {WorkflowCycle}, cases))
    && (ConsultationRequests in d.tables ==> d'.tables[ConsultationRequests] == Table(d.tables[ConsultationRequests].columns + {WorkflowCycle}, requests))
    && (FinalOffers in d.tables ==> d'.tables[FinalOffers] == Table(d.tables[FinalOffers].columns + {WorkflowCycle}, offers))
  }

  lemma {:induction false} OneStepOn(d: Db, d': Db, t: TableName, rows: map<int, Row>, u: TableName)
    requires MaybeStep(d, d', t, rows) && u in d.tables && u != t
    ensures u in d'.tables && OnlyLoses(d.tables[u], d'.tables[u]) && d'.foreignKeys == d.foreignKeys
    ensures DeletesStayLocal(d) ==> DeletesStayLocal(d') && d'.tables[u] == d.tables[u]
  {}

  lemma {:induction false} OtherTables(d: Db, d1: Db, d2: Db, d3: Db, cases: map<int, Row>, requests: map<int, Row>, offers: map<int, Row>, t: TableName)
    requires MaybeStep(d, d1, ValidationCases, cases) && MaybeStep(d1, d2, ConsultationRequests, requests) && MaybeStep(d2, d3, FinalOffers, offers)
    requires t in d.tables && t !in WORKFLOW_TABLES
    ensures t in d3.tables && OnlyLoses(d.tables[t], d3.tables[t]) && (DeletesStayLocal(d) ==> d3.tables[t] == d.tables[t])
  {
    OneStepOn(d, d1, ValidationCases, cases, t);
    OneStepOn(d1, d2, ConsultationRequests, requests, t);
    OneStepOn(d2, d3, FinalOffers, offers, t);
  }

  lemma {:induction false} StepsCompose(d: Db, d1: Db, d2: Db, d3: Db, cases: map<int, Row>, requests: map<int, Row>, offers: map<int, Row>)
    requires MaybeStep(d, d1, ValidationCases, cases) && MaybeStep(d1, d2, ConsultationRequests, requests) && MaybeStep(d2, d3, FinalOffers, offers)
    ensures Effect(d, d3, cases, requests, offers)
  {
    forall t | t in d.tables && t !in WORKFLOW_TABLES
      ensures t in d3.tables && OnlyLoses(d.tables[t], d3.tables[t]) && (DeletesStayLocal(d) ==> d3.tables[t] == d.tables[t])
    {
      OtherTables(d, d1, d2, d3, cases, requests, offers, t);
    }
  }

  /** The whole effect of a committed cleanup: names, keys and indexes stay; the three workflow tables hold exactly the
      normalised rows without the surplus; any other table can only lose rows, and where nothing references
      requests or offers it loses none. */
  lemma {:induction false} CleanupEffect(d: Db)
    requires CascadesLead(d.foreignKeys) && Cleanup(d).Ok?
    ensures FinalOffers in d.tables ==> ValidationCases in d.tables
    ensures Effect(d, Cleanup(d).value,
                   if ValidationCases in d.tables then NormalRows(d.tables[ValidationCases]) else map[],
                   if ConsultationRequests in d.tables then KeptRequests(d) else map[],
                   if FinalOffers in d.tables then KeptOffers(d) else map[])
  {
    var s :| Shielded(d.foreignKeys, s);
    var d1 := CleanTable(d, ValidationCases, []).value;
    if ValidationCases in d.tables { CasesStep(d); }
    var d2 := CleanTable(d1, ConsultationRequests, [DedupRequests]).value;
    if ConsultationRequests in d.tables { RequestsStep(d1, s); }
    var d3 := CleanTable(d2, FinalOffers, [DedupOffers]).value;
    if FinalOffers in d.tables { OffersStep(d2, s); }
    StepsCompose(d, d1, d2, d3,
                 if ValidationCases in d.tables then NormalRows(d.tables[ValidationCases]) else map[],
                 if ConsultationRequests in d.tables then KeptRequests(d) else map[],
                 if FinalOffers in d.tables then KeptOffers(d) else map[]);
  }

  lemma {:induction false} NormalTwice(t: Table)
    ensures NormalRows(Table(t.columns + {WorkflowCycle}, NormalRows(t))) == NormalRows(t)
  {
    var t' := Table(t.columns + {WorkflowCycle}, NormalRows(t));
    assert WithColumn(t', WorkflowCycle, Num(1)).rows == NormalRows(t);
    forall i | i in t.rows ensures !BelowOne(At(NormalRows(t)[i], WorkflowCycle)) {}
  }

  /** The normalised rows: a missing cycle becomes 1, one below 1 is raised to 1, and no other value changes. */
  lemma {:induction false} NormalRowsMean(t: Table, i: int, c: Column)
    requires i in t.rows && t.rows[i].Keys == t.columns
    ensures
      var rows := NormalRows(t);
      && rows.Keys == t.rows.Keys
      && (c != WorkflowCycle ==> At(rows[i], c) == At(t.rows[i], c))
      && (WorkflowCycle !in t.columns ==> At(rows[i], WorkflowCycle) == Num(1))
      && (WorkflowCycle in t.columns ==>
            var cycle := At(t.rows[i], WorkflowCycle);
            At(rows[i], WorkflowCycle) == if cycle.Num? && cycle.n < 1 then Num(1) else cycle)
  {
    var rows := WithColumn(t, WorkflowCycle, Num(1)).rows;
    assert NormalRows(t)[i] == if BelowOne(At(rows[i], WorkflowCycle)) then rows[i][WorkflowCycle := Num(1)] else rows[i];
  }

  /** One row of i's slot is left, and no other. */
  ghost predicate OnlySurvivor(rows: map<int, Row>, rows': map<int, Row>, i: int, best: int)
    requires i in rows
  {
    && best in rows && best in rows' && SameSlot(rows[best], rows[i])
    && forall j :: j in rows && j != best && SameSlot(rows[j], rows[i]) ==> j !in rows'
  }

  /** And it is the newest. */
  ghost predicate Newest(rows: map<int, Row>, best: int)
    requires best in rows
  {
    forall j :: j in rows && j != best && SameSlot(rows[j], rows[best]) ==>
      ListedFirst(At(rows[best], CreatedAt), best, At(rows[j], CreatedAt), j)
  }

  lemma {:induction false} RankedSurvivor(e: Entries, rows: map<int, Row>, i: int) returns (best: int)
    requires e.Keys == rows.Keys && (forall k :: k in e ==> e[k].key == KeyOf(rows[k], CYCLE_KEY)) && i in rows
    ensures OnlySurvivor(rows, rows - Surplus(e), i, best)
  {
    best := EveryKeyKeepsOne(e, i);
    SlotIsKey(rows[best], rows[i]);
    forall j | j in rows && j != best && SameSlot(rows[j], rows[i]) ensures j in Surplus(e) {
      SlotIsKey(rows[j], rows[i]);
      RankedDeleteSparesTheBest(e, j);
    }
  }

  type SlotKey = (Cell, Cell, Cell)

  function SlotOf(row: Row): SlotKey {
    (At(row, ValidationCaseId), At(row, ValidatorUserId), At(row, WorkflowCycle))
  }

  function SlotsOf(rows: map<int, Row>): set<SlotKey> {
    set i | i in rows :: SlotOf(rows[i])
  }

  lemma {:induction false} SlotsCount(rows: map<int, Row>, ids: set<int>)
    requires ids <= rows.Keys && OneRowPerSlot(rows)
    ensures |set i | i in ids :: SlotOf(rows[i])| == |ids|
  {
    if ids != {} {
      var x := Member(ids);
      SlotsCount(rows, ids - {x});
      var smaller := set i | i in ids - {x} :: SlotOf(rows[i]);
      forall i | i in ids - {x} ensures SlotOf(rows[i]) != SlotOf(rows[x]) { assert !SameSlot(rows[i], rows[x]); }
      assert (set i | i in ids :: SlotOf(rows[i])) == smaller + {SlotOf(rows[x])};
      assert SlotOf(rows[x]) !in smaller;
    }
  }

  lemma {:induction false} SurvivorsCoverSlots(e: Entries, rows: map<int, Row>)
    requires e.Keys == rows.Keys && forall k :: k in e ==> e[k].key == KeyOf(rows[k], CYCLE_KEY)
    ensures SlotsOf(rows - Surplus(e)) == SlotsOf(rows)
  {
    var rows' := rows - Surplus(e);
    forall i | i in rows ensures SlotOf(rows[i]) in SlotsOf(rows') {
      var best := RankedSurvivor(e, rows, i);
      assert SlotOf(rows[i]) == SlotOf(rows'[best]);
    }
    forall i | i in rows' ensures SlotOf(rows'[i]) in SlotsOf(rows) { assert rows'[i] == rows[i]; }
  }

  lemma {:induction false} SurvivorsCount(e: Entries, rows: map<int, Row>)
    requires e.Keys == rows.Keys && forall k :: k in e ==> e[k].key == KeyOf(rows[k], CYCLE_KEY)
    ensures |rows - Surplus(e)| == |SlotsOf(rows)|
  {
    var kept := rows - Surplus(e);
    SurvivorsCoverSlots(e, rows);
    forall i, j | i in kept && j in kept && SameSlot(kept[i], kept[j]) ensures i == j { SparedAreDistinct(e, rows, i, j); }
    SlotsCount(kept, kept.Keys);
    assert SlotsOf(kept) == set i | i in kept.Keys :: SlotOf(kept[i]);
  }

  lemma {:induction false} NewestRequest(rows: map<int, Row>, i: int) returns (best: int)
    requires i in rows
    ensures OnlySurvivor(rows, rows - Surplus(RequestEntries(rows)), i, best) && Newest(rows, best)
  {
    best := RankedSurvivor(RequestEntries(rows), rows, i);
    forall j | j in rows && j != best && SameSlot(rows[j], rows[best])
      ensures ListedFirst(At(rows[best], CreatedAt), best, At(rows[j], CreatedAt), j)
    {
      RequestsKeepTheNewest(rows, best, j);
    }
  }

  /** Exactly one request survives per (case, validator, cycle), the newest by (created_at, id).  No slot is lost,
      surviving rows are unchanged apart from the raised cycle, and they are counted exactly. */
  lemma {:induction false} RequestsKeepTheBest(d: Db, i: int) returns (best: int)
    requires CascadesLead(d.foreignKeys) && Cleanup(d).Ok?
    requires ConsultationRequests in d.tables && i in d.tables[ConsultationRequests].rows
    ensures
      var rows := NormalRows(d.tables[ConsultationRequests]);
      && ConsultationRequests in Cleanup(d).value.tables
      && var rows' := Cleanup(d).value.tables[ConsultationRequests].rows;
      && OnlySurvivor(rows, rows', i, best) && Newest(rows, best)
      && (forall j :: j in rows' ==> j in rows && rows'[j] == rows[j])
      && |rows'| == |SlotsOf(rows)|
  {
    CleanupEffect(d);
    var rows := NormalRows(d.tables[ConsultationRequests]);
    best := NewestRequest(rows, i);
    SurvivorsCount(RequestEntries(rows), rows);
  }

  /** Case c has accepted this offer as its own. */
  ghost predicate AcceptedBy(offers: map<int, Row>, cases: map<int, Row>, offer: int, c: int) {
    && offer in offers && c in cases && At(offers[offer], ValidationCaseId) == Num(c)
    && At(cases[c], AcceptedFinalOfferId) == Num(offer)
  }

  /** Exactly one offer survives per (case, validator, cycle): the one its own case accepted, if there is one, and else
      the newest by (created_at, id). */
  lemma {:induction false} OffersKeepTheBest(d: Db, i: int) returns (best: int)
    requires CascadesLead(d.foreignKeys) && Cleanup(d).Ok?
    requires FinalOffers in d.tables && i in d.tables[FinalOffers].rows
    ensures ValidationCases in d.tables && FinalOffers in Cleanup(d).value.tables
    ensures
      var rows, cases := NormalRows(d.tables[FinalOffers]), NormalRows(d.tables[ValidationCases]);
      var rows' := Cleanup(d).value.tables[FinalOffers].rows;
      && OnlySurvivor(rows, rows', i, best)
      && (forall k, c :: k in rows && SameSlot(rows[k], rows[i]) && AcceptedBy(rows, cases, k, c) ==> best == k)
      && ((forall k, c :: k in rows && SameSlot(rows[k], rows[i]) ==> !AcceptedBy(rows, cases, k, c)) ==> Newest(rows, best))
      && (forall j :: j in rows' ==> j in rows && rows'[j] == rows[j])
  {
    CleanupEffect(d);
    var rows, cases := NormalRows(d.tables[FinalOffers]), NormalRows(d.tables[ValidationCases]);
    best := RankedSurvivor(OfferEntries(rows, cases), rows, i);
    forall k, c | k in rows && SameSlot(rows[k], rows[i]) && AcceptedBy(rows, cases, k, c) ensures best == k {
      AcceptedOfferSurvives(rows, cases, k, c);
    }
    if forall k, c :: k in rows && SameSlot(rows[k], rows[i]) ==> !AcceptedBy(rows, cases, k, c) {
      NewestOffer(rows, cases, best);
    }
  }

  lemma {:induction false} NewestOffer(rows: map<int, Row>, cases: map<int, Row>, best: int)
    requires best in rows && best !in Surplus(OfferEntries(rows, cases))
    requires forall k, c :: k in rows && SameSlot(rows[k], rows[best]) ==> !AcceptedBy(rows, cases, k, c)
    ensures Newest(rows, best)
  {
    forall k, c | k in rows && SameSlot(rows[k], rows[best]) && c in cases && At(rows[k], ValidationCaseId) == Num(c)
      ensures At(cases[c], AcceptedFinalOfferId) != Num(k)
    {
      assert !AcceptedBy(rows, cases, k, c);
    }
    forall j | j in rows && j != best && SameSlot(rows[j], rows[best])
      ensures ListedFirst(At(rows[best], CreatedAt), best, At(rows[j], CreatedAt), j)
    {
      OtherGroupsKeepTheNewest(rows, cases, best, j);
    }
  }

  /** A request or an offer whose case, validator and cycle no other row has is never deleted. */
  lemma {:induction false} LoneRowsStay(d: Db, t: TableName, i: int)
    requires CascadesLead(d.foreignKeys) && Cleanup(d).Ok? && t in {ConsultationRequests, FinalOffers}
    requires t in d.tables && i in d.tables[t].rows
    requires
      var rows := NormalRows(d.tables[t]);
      forall j :: j in rows && j != i ==>
        || At(rows[j], ValidationCaseId) != At(rows[i], ValidationCaseId)
        || At(rows[j], ValidatorUserId) != At(rows[i], ValidatorUserId)
        || At(rows[j], WorkflowCycle) != At(rows[i], WorkflowCycle)
    ensures t in Cleanup(d).value.tables && i in Cleanup(d).value.tables[t].rows
  {
    var best: int;
    if t == ConsultationRequests { best := RequestsKeepTheBest(d, i); } else { best := OffersKeepTheBest(d, i); }
  }

  /** If a case names one of its own offers as accepted, the cleanup never deletes that offer. */
  lemma {:induction false} AcceptedOffersSurviveCleanup(d: Db, c: int, offer: int)
    requires CascadesLead(d.foreignKeys) && Cleanup(d).Ok?
    requires ValidationCases in d.tables && c in d.tables[ValidationCases].rows
    requires FinalOffers in d.tables && offer in d.tables[FinalOffers].rows
    requires At(d.tables[ValidationCases].rows[c], AcceptedFinalOfferId) == Num(offer)
    requires At(d.tables[FinalOffers].rows[offer], ValidationCaseId) == Num(c)
    ensures FinalOffers in Cleanup(d).value.tables && offer in Cleanup(d).value.tables[FinalOffers].rows
  {
    CleanupEffect(d);
    AcceptedOfferSurvives(NormalRows(d.tables[FinalOffers]), NormalRows(d.tables[ValidationCases]), offer, c);
  }

  // ---------------------------------------------------------------- exactly when it commits

  /** The columns the statements name, apart from the cycle, which is added. */
  ghost predicate ColumnsPresent(d: Db) {
    && (ConsultationRequests in d.tables ==> {ValidationCaseId, ValidatorUserId, CreatedAt} <= d.tables[ConsultationRequests].columns)
    && (FinalOffers in d.tables ==>
          && {ValidationCaseId, ValidatorUserId, CreatedAt} <= d.tables[FinalOffers].columns
          && HasColumn(d, ValidationCases, AcceptedFinalOfferId))
  }

  /** Some row is below cycle 1 and another at cycle 1 or below, and they agree in the rest of the key.  Raising cycles
      comes before deduplication, so under a unique index on that key the UPDATE meets itself. */
  ghost predicate MeetAtOne(rows: map<int, Row>, columns: seq<Column>) {
    WorkflowCycle in columns && exists i, j :: i in rows && j in rows && MeetsAtOne(rows, columns, i, j)
  }

  ghost predicate MeetsAtOne(rows: map<int, Row>, columns: seq<Column>, i: int, j: int)
    requires i in rows && j in rows
  {
    && i != j && At(rows[i], WorkflowCycle).Num? && At(rows[i], WorkflowCycle).n < 1
    && At(rows[j], WorkflowCycle).Num? && At(rows[j], WorkflowCycle).n <= 1
    && forall c :: c in columns && c != WorkflowCycle ==> At(rows[i], c).Num? && At(rows[i], c) == At(rows[j], c)
  }

  ghost predicate Collides(d: Db, t: TableName) {
    && t in d.tables
    && exists n :: n in d.indexes && d.indexes[n].table == t && d.indexes[n].unique && MeetAtOne(d.tables[t].rows, d.indexes[n].columns)
  }

  /** Unique indexes are over existing columns, and unique. */
  ghost predicate IndexesFit(d: Db, t: TableName) {
    && IndexesHold(d, t)
    && (t in d.tables ==> forall n, c :: n in d.indexes && d.indexes[n].table == t && d.indexes[n].unique && c in d.indexes[n].columns ==> c in d.tables[t].columns)
  }

  lemma {:induction false} MeetingBreaksUniqueness(rows: map<int, Row>, columns: seq<Column>)
    requires MeetAtOne(rows, columns)
    ensures !UniqueOn(Raised(rows, WorkflowCycle), columns) && Raised(rows, WorkflowCycle) != rows
  {
    var rows' := Raised(rows, WorkflowCycle);
    var i, j :| i in rows && j in rows && MeetsAtOne(rows, columns, i, j);
    assert At(rows'[i], WorkflowCycle) == Num(1) && At(rows'[j], WorkflowCycle) == Num(1);
    forall k | 0 <= k < |columns| ensures At(rows'[i], columns[k]) == At(rows'[j], columns[k]) && At(rows'[i], columns[k]).Num? {
      assert columns[k] in columns;
    }
    assert KeyOf(rows'[i], columns) == KeyOf(rows'[j], columns);
    assert Null !in KeyOf(rows'[i], columns);
  }

  lemma {:induction false} UnraisedKey(rows: map<int, Row>, columns: seq<Column>, i: int)
    requires i in rows && (WorkflowCycle !in columns || !BelowOne(At(rows[i], WorkflowCycle)))
    ensures KeyOf(Raised(rows, WorkflowCycle)[i], columns) == KeyOf(rows[i], columns)
  {
    var row := Raised(rows, WorkflowCycle)[i];
    forall k | 0 <= k < |columns| ensures At(row, columns[k]) == At(rows[i], columns[k]) { assert columns[k] in columns; }
  }

  lemma {:induction false} EqualKeysAgree(row: Row, row': Row, columns: seq<Column>, c: Column)
    requires KeyOf(row, columns) == KeyOf(row', columns) && Null !in KeyOf(row, columns) && c in columns
    ensures At(row, c) == At(row', c) && At(row, c).Num?
  {
    var k :| 0 <= k < |columns| && columns[k] == c;
    assert KeyOf(row, columns)[k] == At(row, c) && KeyOf(row', columns)[k] == At(row', c);
  }

  /** Equal keys after raising, in rows that were told apart before, are a meeting at one. */
  lemma {:induction false} EqualRaisedKeysMeet(rows: map<int, Row>, columns: seq<Column>, i: int, j: int)
    requires i in rows && j in rows && i != j && WorkflowCycle in columns && BelowOne(At(rows[i], WorkflowCycle))
    requires KeyOf(Raised(rows, WorkflowCycle)[i], columns) == KeyOf(Raised(rows, WorkflowCycle)[j], columns)
    requires Null !in KeyOf(Raised(rows, WorkflowCycle)[i], columns)
    ensures MeetsAtOne(rows, columns, i, j)
  {
    var rows' := Raised(rows, WorkflowCycle);
    EqualKeysAgree(rows'[i], rows'[j], columns, WorkflowCycle);
    forall c | c in columns && c != WorkflowCycle ensures At(rows[i], c).Num? && At(rows[i], c) == At(rows[j], c) {
      EqualKeysAgree(rows'[i], rows'[j], columns, c);
    }
  }

  lemma {:induction false} RaisedKeysDiffer(rows: map<int, Row>, columns: seq<Column>, i: int, j: int)
    requires UniqueOn(rows, columns) && !MeetAtOne(rows, columns) && i in rows && j in rows && i != j
    requires Null !in KeyOf(Raised(rows, WorkflowCycle)[i], columns)
    ensures KeyOf(Raised(rows, WorkflowCycle)[i], columns) != KeyOf(Raised(rows, WorkflowCycle)[j], columns)
  {
    var rows' := Raised(rows, WorkflowCycle);
    if KeyOf(rows'[i], columns) == KeyOf(rows'[j], columns) {
      if WorkflowCycle in columns && BelowOne(At(rows[i], WorkflowCycle)) {
        EqualRaisedKeysMeet(rows, columns, i, j);
      } else if WorkflowCycle in columns && BelowOne(At(rows[j], WorkflowCycle)) {
        EqualRaisedKeysMeet(rows, columns, j, i);
      } else {
        UnraisedKey(rows, columns, i);
        UnraisedKey(rows, columns, j);
      }
    }
  }

  lemma {:induction false} RaisedKeysCollide(rows: map<int, Row>, columns: seq<Column>)
    requires UniqueOn(rows, columns)
    ensures UniqueOn(Raised(rows, WorkflowCycle), columns) <==> !MeetAtOne(rows, columns)
  {
    var rows' := Raised(rows, WorkflowCycle);
    if MeetAtOne(rows, columns) {
      MeetingBreaksUniqueness(rows, columns);
    } else {
      forall i, j | i in rows' && j in rows' && i != j && KeyOf(rows'[i], columns) == KeyOf(rows'[j], columns)
        ensures Null in KeyOf(rows'[i], columns)
      {
        if Null !in KeyOf(rows'[i], columns) { RaisedKeysDiffer(rows, columns, i, j); }
      }
    }
  }

  lemma {:induction false} CollisionFails(d: Db, t: TableName)
    requires HasColumn(d, t, WorkflowCycle) && Collides(d, t)
    ensures Apply(RaiseToOne(t, WorkflowCycle), d).Err?
  {
    var rows := d.tables[t].rows;
    var n :| n in d.indexes && d.indexes[n].table == t && d.indexes[n].unique && MeetAtOne(rows, d.indexes[n].columns);
    MeetingBreaksUniqueness(rows, d.indexes[n].columns);
    var d' := d.(tables := d.tables[t := d.tables[t].(rows := Raised(rows, WorkflowCycle))]);
    assert d'.tables[t].rows != d.tables[t].rows;
    assert !IndexesHold(d', t) by { assert d'.indexes[n] == d.indexes[n]; }
  }

  lemma {:induction false} NoCollisionCommits(d: Db, t: TableName)
    requires HasColumn(d, t, WorkflowCycle) && IndexesHold(d, t) && !Collides(d, t)
    ensures Apply(RaiseToOne(t, WorkflowCycle), d).Ok?
  {
    var rows := d.tables[t].rows;
    var d' := d.(tables := d.tables[t := d.tables[t].(rows := Raised(rows, WorkflowCycle))]);
    forall n | n in d'.indexes && d'.indexes[n].table == t && d'.indexes[n].unique ensures UniqueOn(d'.tables[t].rows, d'.indexes[n].columns) {
      assert d'.indexes[n] == d.indexes[n];
      RaisedKeysCollide(rows, d.indexes[n].columns);
    }
  }

  lemma {:induction false} RaiseFailsIff(d: Db, t: TableName)
    requires t in d.tables && IndexesFit(d, t)
    ensures Apply(RaiseToOne(t, WorkflowCycle), Apply(AddColumnIfMissing(t, WorkflowCycle), d).value).Err? <==> Collides(d, t)
  {
    var d1 := Apply(AddColumnIfMissing(t, WorkflowCycle), d).value;
    if WorkflowCycle in d.tables[t].columns {
      assert d1.tables == d.tables;
      if Collides(d, t) { CollisionFails(d, t); } else { NoCollisionCommits(d, t); }
    } else {
      var rows := d1.tables[t].rows;
      forall i | i in rows ensures Raised(rows, WorkflowCycle)[i] == rows[i] {}
      assert Raised(rows, WorkflowCycle) == rows;
      assert d1.tables[t := d1.tables[t].(rows := rows)] == d1.tables;
    }
  }

  /** No NO ACTION key can refuse the deletes either. */
  ghost predicate Unblocked(fks: set<ForeignKey>, s: set<TableName>) {
    Shielded(fks, s) && forall fk :: fk in fks && fk.target in s ==> fk.onDelete == Cascade
  }

  lemma {:induction false} UnblockedDelete(d: Db, t: TableName, ids: set<int>, s: set<TableName>)
    requires t in d.tables && t in s && Unblocked(d.foreignKeys, s)
    ensures DeleteRows(d, t, ids).Ok?
  {
    CascadeStaysWithin(d, RefsTo(t, ids), s);
  }

  lemma {:induction false} RequestsFailIff(d: Db, s: set<TableName>)
    requires Unblocked(d.foreignKeys, s) && IndexesFit(d, ConsultationRequests) && ConsultationRequests in d.tables
    ensures CleanTable(d, ConsultationRequests, [DedupRequests]).Err? <==>
              Collides(d, ConsultationRequests) || !({ValidationCaseId, ValidatorUserId, CreatedAt} <= d.tables[ConsultationRequests].columns)
  {
    RaiseFailsIff(d, ConsultationRequests);
    CleanTableUnfolds(d, ConsultationRequests, [DedupRequests]);
    var n := Normal(d, ConsultationRequests);
    ApplyOne(DedupRequests, n);
    assert RANK_COLUMNS <= n.tables[ConsultationRequests].columns <==> {ValidationCaseId, ValidatorUserId, CreatedAt} <= d.tables[ConsultationRequests].columns;
    UnblockedDelete(n, ConsultationRequests, Surplus(RequestEntries(n.tables[ConsultationRequests].rows)), s);
  }

  lemma {:induction false} OffersFailIff(d: Db, s: set<TableName>)
    requires Unblocked(d.foreignKeys, s) && IndexesFit(d, FinalOffers) && FinalOffers in d.tables
    ensures CleanTable(d, FinalOffers, [DedupOffers]).Err? <==>
              || Collides(d, FinalOffers) || !({ValidationCaseId, ValidatorUserId, CreatedAt} <= d.tables[FinalOffers].columns)
              || !HasColumn(d, ValidationCases, AcceptedFinalOfferId)
  {
    RaiseFailsIff(d, FinalOffers);
    CleanTableUnfolds(d, FinalOffers, [DedupOffers]);
    var n := Normal(d, FinalOffers);
    ApplyOne(DedupOffers, n);
    assert RANK_COLUMNS <= n.tables[FinalOffers].columns <==> {ValidationCaseId, ValidatorUserId, CreatedAt} <= d.tables[FinalOffers].columns;
    if ValidationCases in d.tables {
      UnblockedDelete(n, FinalOffers, Surplus(OfferEntries(n.tables[FinalOffers].rows, n.tables[ValidationCases].rows)), s);
    }
  }

  lemma {:induction false} CollisionIsPerTable(d: Db, d': Db, t: TableName)
    requires d'.indexes == d.indexes && (t in d'.tables <==> t in d.tables)
    requires t in d.tables ==> d'.tables[t] == d.tables[t]
    ensures Collides(d', t) <==> Collides(d, t)
    ensures IndexesFit(d', t) <==> IndexesFit(d, t)
  {}

  lemma {:induction false} CasesFailIff(d: Db)
    requires IndexesFit(d, ValidationCases)
    ensures CleanTable(d, ValidationCases, []).Err? <==> Collides(d, ValidationCases)
    ensures CleanTable(d, ValidationCases, []).Ok? ==>
              var d1 := CleanTable(d, ValidationCases, []).value;
              && d1.indexes == d.indexes && d1.foreignKeys == d.foreignKeys && d1.tables.Keys == d.tables.Keys
              && (forall t :: t in d.tables && t != ValidationCases ==> d1.tables[t] == d.tables[t])
              && (HasColumn(d1, ValidationCases, AcceptedFinalOfferId) <==> HasColumn(d, ValidationCases, AcceptedFinalOfferId))
  {
    if ValidationCases in d.tables {
      RaiseFailsIff(d, ValidationCases);
      CleanTableUnfolds(d, ValidationCases, []);
    }
  }

  /** Exactly when the cleanup fails, on every database whose unique indexes hold and where no NO ACTION key can refuse the
      deletes: a column is missing, or under a unique index that covers the cycle two rows meet at one.  Duplicates
      alone never stop it. */
  lemma {:induction false} CleanupFailsIff(d: Db, s: set<TableName>)
    requires Unblocked(d.foreignKeys, s)
    requires IndexesFit(d, ValidationCases) && IndexesFit(d, ConsultationRequests) && IndexesFit(d, FinalOffers)
    ensures Cleanup(d).Err? <==>
              !ColumnsPresent(d) || Collides(d, ValidationCases) || Collides(d, ConsultationRequests) || Collides(d, FinalOffers)
  {
    CasesFailIff(d);
    if CleanTable(d, ValidationCases, []).Ok? {
      var d1 := CleanTable(d, ValidationCases, []).value;
      CollisionIsPerTable(d, d1, ConsultationRequests);
      CollisionIsPerTable(d, d1, FinalOffers);
      RequestsThenOffersFailIff(d1, s);
    }
  }

  lemma {:induction false} RequestsThenOffersFailIff(d: Db, s: set<TableName>)
    requires Unblocked(d.foreignKeys, s) && IndexesFit(d, ConsultationRequests) && IndexesFit(d, FinalOffers)
    ensures
      var r := CleanTable(d, ConsultationRequests, [DedupRequests]);
      (if r.Err? then true else CleanTable(r.value, FinalOffers, [DedupOffers]).Err?) <==>
      !ColumnsPresent(d) || Collides(d, ConsultationRequests) || Collides(d, FinalOffers)
  {
    if ConsultationRequests in d.tables { RequestsFailIff(d, s); }
    var r := CleanTable(d, ConsultationRequests, [DedupRequests]);
    if r.Ok? {
      if ConsultationRequests in d.tables { RequestsStep(d, s); }
      CollisionIsPerTable(d, r.value, FinalOffers);
      if FinalOffers in d.tables { OffersFailIff(r.value, s); }
    }
  }
}

# Startup migrations, entity builders and origin lists

A Dafny model of three parts of the backend, with proofs that hold for every input, every run or every
reachable state:

1. **The startup sequence of the database** (`backend/database/ent.go`): the rename transaction, the pre-schema
   cleanup, schema creation and the workflow-cycle migration, over whole histories of interrupted and completed
   starts and of writes in between.
2. **The generated entity machinery** for ConsultationRequest, and Badge for one-to-many edges
   (`backend/ent`): bulk create with hooks, eager loading, scan/assign and create, projection, and cloning of
   query builders.
3. **Origin and CSV lists** (`backend/main.go`).

`dafny verify dfyconfig.toml` checks everything.

## How the model is laid out

| file | content |
|---|---|
| `Outcomes.dfy` | Option and Result |
| `Relational.dfy`, `Statements.dfy` | a PostgreSQL schema as a value (tables, columns, rows by primary key, foreign keys, indexes); every migration statement with its errors, ON DELETE CASCADE and NO ACTION included |
| `RowNumber.dfy` | the two `ROW_NUMBER` deletes, as counts and as "keep the best row per key" |
| `Migrations.dfy` | the three transactions, as functions and as methods that issue one statement at a time over a connection on which any round trip may fail |
| `RenameLaws.dfy`, `CleanupLaws.dfy`, `CleanupEffects.dfy`, `SchemaCreate.dfy` | what each step does, exactly when it fails, and why it does nothing the second time |
| `Boots.dfy`, `RenameRetry.dfy`, `LateRenames.dfy` | series of starts; steps that commute; late renames |
| `Safety.dfy`, `Consistency.dfy`, `StartFailures.dfy` | starts interleaved with writes; integrity over all of these; starts that cannot succeed or leave data behind |
| `GeneratedSchema.dfy` | the generated schema of the tables involved |
| `Entity.dfy`, `EagerLoad.dfy`, `Badges.dfy`, `Projection.dfy` | reading, writing and edge loading |
| `BulkCreate.dfy` | bulk save as a nested chain against a flat reference |
| `QueryBuilder.dfy` | query builders as object trees with Go slices, and Clone |
| `Origins.dfy` | CSV parsing, CORS lists, www variants, relying-party origins |

Table, column, constraint and index names are enumerations with an `Other` case that carries any other name. A cell
is NULL or a number: only equality and order of values matter to these statements. NULL behaves as in PostgreSQL:
equal to itself in PARTITION BY, first under DESC, and never equal in a unique index.

Interfaces to foreign code are parameters: which round trips fail, the target schema of `Schema.Create`, the clock,
the batch insert, and the neighbour queries. `Schema.Create` is modelled by what it is used for: it adds the tables,
columns, foreign keys and indexes that are missing, all or nothing, keeps every row and drops nothing. The
theorems hold for every target schema that meets `Wanted` or `Full`, and the generated one does
(`GeneratedSchemaIsFull`).

## Where the code does not do what one would expect

- The renames are logged as skipped when they fail, and the start goes on. This is recoverable exactly as long as no
  start creates the schema before the renames commit, or when they had nothing to move
  (`LateRenameRecoversIff`); otherwise `threads`, `tag_threads` or the old join column stays behind for good
  (`BothStay`, `StrandedExample`).
- That needs no interruption: the renames fail by themselves when a constraint of the old name sits on another table,
  since `constraintExists` looks at the name alone, or when a credential dangles (`RenamesCommitIff`,
  `ForeignKeyNameExample`, `DanglingCredentialExample`). On a database that was renamed before, such a
  failure has no effect (`SettledRunIsIdentity`).
- The cleanup raises cycles below 1 *before* it deletes duplicates. Where a unique index covers the cycle, a request or
  offer below cycle 1 next to one at cycle 1 or below for the same case and validator makes every start fail, and
  apart from missing columns nothing else does (`CleanupFailsIff`, `CollisionStopsEveryStart`,
  `CollisionExample`).
- In bulk create the check looks at the builder's own mutation and the insert carries the one that the hooks passed on.
  These are the same unless a hook passes another object (`InsertedIsChecked`, `SwapEscapesTheCheck`).
- `expandWWWOrigins` treats a host and its www form alike exactly when the host has two labels
  (`WWWIsInterchangeableIff`).

## Model

| member | source | states |
|---|---|---|
| Migrations.ApplyDomainRenames | backend/database/ent.go:91-189 | all or nothing: on success the whole effect of the renames, on a failed round trip or statement the database is exactly as before |
| Migrations.ApplyWorkflowCyclePreSchemaCleanup | backend/database/ent.go:242-341 | all or nothing for the cleanup, so a dedup of requests is undone when a later step on offers fails |
| Migrations.ApplyWorkflowCycleMigrations | backend/database/ent.go:191-238 | all or nothing for the cycle migration |
| Migrations.Transaction.ExecAll | backend/database/ent.go:207-211 | the statement loop runs the statements in order and stops at the first error |
| Migrations.Transaction.ConstraintExists | backend/database/ent.go:54-68 | the lookup answers by constraint name alone, on whatever table it sits |
| RenameLaws.RenamesPreserveData | backend/database/ent.go:98-145 | one committed run moves the legacy case and tag tables unchanged to their new names, renames the join column in that run, changes no other table, and moves nothing when both tables exist |
| RenameLaws.JoinRowsKeepTheirValues | backend/database/ent.go:131-145 | in the moved join table every row keeps its id and values, with thread_id now read as validation_case_id |
| RenameLaws.RenamesSettle | backend/database/ent.go:150-186 | after a committed run no guard fires again: the old-named key is gone from thread_credentials, the new name exists, and if it did not exist before, the cascading key was added |
| RenameLaws.SettledRunIsIdentity | backend/database/ent.go:91-189 | a run on a settled database never changes it, and fails exactly when the old constraint name sits elsewhere |
| RenameLaws.RenamesCommitIff | backend/database/ent.go:98-186 | on every database the renames commit, unless a round trip fails, if and only if no constraint of the old name sits on another table alone and, where the new key must be added, every credential names an existing case |
| RenameLaws.RenamesAreIdempotent | backend/database/ent.go:87-90 | a second run after a committed one is the identity |
| RenameLaws.RenamesKeepKeys | backend/database/ent.go:106-183 | all foreign keys after a committed run: each follows the tables and the column it is on, the old-named key of thread_credentials goes, the new one comes with ON DELETE CASCADE where its name was free, and no other key changes |
| RenameLaws.DeletingCasesCascades | backend/database/ent.go:147-186 | with the added key, thread_id of thread_credentials blocks no deletion of cases, and the credentials removed are exactly those of removed cases |
| RenameLaws.CascadeHasCause | backend/database/ent.go:177-181 | whatever a cascade removes was asked for or points at something removed |
| RowNumber.NumberIsSortedPosition | backend/database/ent.go:275-283 | however a partition is listed in ORDER BY order, the row at position k has number k + 1 |
| RowNumber.RankedDeleteSparesTheBest | backend/database/ent.go:274-288 | a row survives the ranked delete if and only if it is the best of its key |
| RowNumber.EveryKeyKeepsOne | backend/database/ent.go:274-288 | every key keeps one best row, and only one |
| RowNumber.SurplusCount | backend/database/ent.go:292-294 | the deleted count is rows minus distinct keys |
| RowNumber.LeftJoinKeepsRowCount | backend/database/ent.go:324-325 | the left join pairs every offer with exactly one partner and never multiplies rows |
| RowNumber.AcceptedOfferSurvives | backend/database/ent.go:309-331 | an offer its own case accepted is never deleted, whatever newer duplicates exist |
| RowNumber.OtherGroupsKeepTheNewest | backend/database/ent.go:309-331 | in a group without an accepted offer the survivor has the latest created_at, a missing one counting as latest, and between equal ones the greatest id; all others of the group go |
| RowNumber.RequestsKeepTheNewest | backend/database/ent.go:274-288 | the same for every group of requests |
| CleanupLaws.RankedDeleteDedups | backend/database/ent.go:284-288 | after a ranked delete each key has one row, also when cascades take more |
| CleanupLaws.CleanupSettles | backend/database/ent.go:249-340 | for all legacy contents a committed cleanup leaves cycles at 1 or more, and any two requests and any two offers differ in case, validator or cycle |
| CleanupLaws.SettledCleanupIsIdentity | backend/database/ent.go:249-340 | on such a database the cleanup succeeds and changes nothing |
| CleanupEffects.NormalRowsMean | backend/database/ent.go:267-272 | a missing cycle becomes 1, one below 1 is raised to 1, no other value changes |
| CleanupEffects.CleanupEffect | backend/database/ent.go:249-340 | the whole effect of a committed cleanup, table by table, for every content and every set of keys under which no cascade leads back to cases, requests or offers |
| CleanupEffects.NoActionLeads | backend/database/ent.go:284-288 | it is enough for that that the keys of the three tables themselves do not cascade, whatever references them |
| CleanupEffects.RequestsKeepTheBest | backend/database/ent.go:266-295 | exactly one request survives per (case, validator, cycle), the newest by (created_at, id); no triple is lost and the survivors are counted |
| CleanupEffects.OffersKeepTheBest | backend/database/ent.go:301-338 | exactly one offer survives per (case, validator, cycle): the one its own case accepted, and else the newest by (created_at, id) |
| CleanupEffects.LoneRowsStay | backend/database/ent.go:266-338 | a request or offer whose case, validator and cycle no other row has is never deleted |
| CleanupEffects.AcceptedOffersSurviveCleanup | backend/database/ent.go:301-338 | through the whole cleanup a case's own accepted offer survives |
| CleanupEffects.CleanupFailsIff | backend/database/ent.go:249-340 | the cleanup fails if and only if a column is missing or, under a unique index that covers the cycle, a row below cycle 1 meets one at cycle 1 or below; for all three tables and every unique index, so duplicates alone cause no crash loop |
| StartFailures.CollisionStopsStart | backend/database/ent.go:412-426 | after such a meeting in requests or offers no start, with or without its renames, gets past the cleanup, and the meeting stays |
| StartFailures.CollisionStopsEveryStart | backend/database/ent.go:412-426 | and no series of starts ever does |
| StartFailures.CollisionExample | backend/database/ent.go:270-272 | an input for it: cycles 0 and 1 of one validator and case, in requests or in offers, with all columns, keys and indexes in order; without the index the cleanup commits |
| SchemaCreate.SchemaKeepsRows | backend/database/ent.go:436-440 | schema creation keeps every row id and every existing cell |
| SchemaCreate.SchemaKeepsClean | backend/database/ent.go:436-440 | schema creation keeps what the cleanup established |
| SchemaCreate.MigrationEffect | backend/database/ent.go:198-235 | after cleanup and schema creation the normalising updates change nothing, both unique indexes can be built, and only the index catalogue changes |
| SchemaCreate.MigrationMeans | backend/database/ent.go:198-235 | on any database: a committed migration normalises the cycles of the three tables, changes no other table and no key, drops the legacy index, keeps every other one, and has the four new ones over exactly the columns named where their names were free |
| SchemaCreate.MigrationSettles | backend/database/ent.go:213-235 | one run drops the legacy index, has all four new ones, and a second run is the identity |
| Boots.InitEntDB | backend/database/ent.go:412-446 | the step order: a failed rename is survived, any other failure is fatal, and the resulting state is that of the committed steps |
| Boots.CycleIndexesCanBeBuilt | backend/database/ent.go:421-440 | after the cleanup, schema creation meets no duplicate under either unique cycle index |
| Boots.MigrationAlwaysCommits | backend/database/ent.go:442-446 | after cleanup and schema creation the cycle migration can only fail by interruption |
| Boots.BootResumes | backend/database/ent.go:412-446 | a start from the state an earlier one left continues from there |
| Boots.RestartsConverge | backend/database/ent.go:412-446 | for every database and every series of starts stopped anywhere, if the first committed the renames, the first one that completes leaves exactly the state of one uninterrupted start and later ones change nothing |
| Boots.OffersForceARetry | backend/database/ent.go:301-334 | while there is no validation_cases a final_offers table stops the start before the schema is created |
| Boots.BothStay | backend/database/ent.go:98-145 | once an old table or the old join column stands beside its replacement, no series of starts ever removes or moves it |
| RenameRetry.EarlyCleanupIsHarmless | backend/database/ent.go:417-425 | a cleanup that committed before the renames does not change where the startup ends, whether or not the case table has its new name |
| LateRenames.BootThenRename | backend/database/ent.go:412-446 | with no table or column to rename, a start without renames followed by the renames equals a start with them, at every stopping point |
| LateRenames.LateRenameRecoversIff | backend/database/ent.go:412-446 | on every database a late rename reaches the uninterrupted result if and only if no earlier start created the schema, or nothing was to be renamed and the renames could have committed at once |
| StartFailures.StrandedExample | backend/database/ent.go:417-440 | an input for the other case: one thread stays in threads for good, while a single start makes it a case |
| StartFailures.ForeignKeyNameExample | backend/database/ent.go:54-68 | an input: a constraint of the old name on another table makes the first rename fail with every round trip working, and the start leaves threads behind |
| StartFailures.DanglingCredentialExample | backend/database/ent.go:174-183 | an input: a credential of a missing thread does the same |
| Safety.CompletedStartSettles | backend/database/ent.go:412-446 | every completed start, also one whose renames were skipped, ends in the settled state if and only if the two index names were free or named these indexes |
| Safety.LaterStartEffect | backend/database/ent.go:412-446 | the whole effect of any start on a settled database is that of its renames, which can only replace the credential key; it commits if and only if those can or are skipped |
| Safety.NoLaterStartTouchesData | backend/database/ent.go:412-446 | for every interleaving of accepted writes, refused writes and starts from there: each (case, validator, cycle) has at most one row at every moment, no start changes a row, a column or an index, every start gets through, and after committed renames it changes nothing at all |
| Safety.AcceptedIffSlotFree | backend/database/ent.go:225-234 | after a completed start a request or an offer is accepted if and only if no other row has its case, validator and cycle |
| Safety.OtherValidatorAccepted | backend/database/ent.go:225-234 | so another validator may hold one for the same case in the same cycle |
| Safety.EveryCycleCanBeHeld | backend/database/ent.go:213-226 | one validator may hold a request for one case in each of any number of cycles |
| Safety.LegacyIndexBlocksNextCycle | backend/database/ent.go:213-223 | under the legacy index a second request for the same case and validator is refused in every cycle |
| GeneratedSchema.GeneratedSchemaIsFull | backend/ent/migrate/schema.go:178-1212 | the generated tables, keys and indexes meet everything the theorems ask of the target |
| Consistency.RenamesKeep | backend/database/ent.go:106-183 | foreign keys and indexes follow renamed tables and columns, so a consistent database stays consistent through the renames |
| Consistency.DeleteKeeps | backend/database/ent.go:284-288 | a delete never leaves a dangling reference: cascades take the referencing rows, NO ACTION refuses |
| Consistency.BootKeeps | backend/database/ent.go:412-446 | a start stopped anywhere keeps rows in the shape of their table, foreign keys satisfied and unique indexes unique |
| Consistency.AlwaysConsistent | backend/database/ent.go:412-446 | from any consistent database, whatever starts and writes follow, integrity is never lost |
| Entity.ScanValues | backend/ent/consultationrequest.go:88-103 | one slot per column, of the column's type |
| Entity.ConsultationRequest.AssignValues | backend/ent/consultationrequest.go:107-208 | succeeds exactly when there are enough values and every typed one fits; then all columns are assigned in order |
| Entity.ShapedValuesAlwaysAssign | backend/ent/consultationrequest.go:88-208 | for every column list, assigning values shaped by the scan never fails |
| Entity.NodeShowsRow | backend/ent/consultationrequest.go:107-208 | every selected column of a node shows its cell and every other its zero value, in any order and with repetition |
| Entity.ConsultationRequestCreate.Defaults | backend/ent/consultationrequest_create.go:235-256 | fills exactly the five unset fields |
| Entity.DefaultsMean | backend/ent/consultationrequest_create.go:235-256 | what the caller set stays; an unset time is the clock's, an unset status "pending", an unset cycle 1 and an unset reminder count 0; the other eight fields stay |
| Entity.CheckNamesTheFirst | backend/ent/consultationrequest_create.go:260-318 | the error names the first field, in the order of the checks, that is missing or refused, and there is none if and only if no field is |
| Entity.DefaultsLeaveCallersErrors | backend/ent/consultationrequest_create.go:235-318 | after defaults the check fails exactly on what the caller supplied wrongly or left out |
| Entity.ConsultationRequestCreate.CreateSpec | backend/ent/consultationrequest_create.go:338-422 | column by column the insert carries what the mutation's fields hold, and field by field the node shows it, with absent columns and zero values where nothing is set |
| Entity.SpecCarriesMutation | backend/ent/consultationrequest_create.go:338-422 | the insert in terms of the mutation's fields alone, edges included: case to validation_case_id, validator to validator_user_id |
| Entity.NodeCarriesMutation | backend/ent/consultationrequest_create.go:338-422 | the node likewise |
| Entity.SpecHolds | backend/ent/consultationrequest_create.go:338-422 | the insert carries exactly the columns the mutation holds, with their values |
| Entity.CreateThenRead | backend/ent/consultationrequest_create.go:338-422 | the created node shows, in every selected column, what is read back from the row its spec wrote |
| Entity.CreateThenReadAll | backend/ent/consultationrequest_create.go:235-422 | a node just created equals the node queried afterwards |
| Entity.DefaultsMatter | backend/ent/consultationrequest_create.go:244-247 | without the builder's default the returned status is the stored one if and only if it was set |
| EagerLoad.GroupByKey | backend/ent/consultationrequest_query.go:448-456 | the ids are the distinct keys in first-seen order and each group holds the nodes with its key, in order |
| EagerLoad.GroupsPartition | backend/ent/consultationrequest_query.go:448-456 | every node, by its position, lies in exactly one group, exactly once and in order, and the sizes add up |
| EagerLoad.LoadManyToOne | backend/ent/consultationrequest_query.go:447-504 | every node's edge ends as the neighbour with its key or untouched; an error arises exactly when the query fails or a neighbour has an unrequested id |
| EagerLoad.LoadValidationCase | backend/ent/consultationrequest_query.go:447-475 | asks for exactly the validation_case_ids of the nodes and sets their validation cases by that key, leaving the validator edge and all fields alone |
| EagerLoad.LoadValidatorUser | backend/ent/consultationrequest_query.go:476-504 | the same by validator_user_id for the validator edge |
| EagerLoad.FirstSeenInOrder | backend/ent/consultationrequest_query.go:450-456 | keys are requested in the order in which they first appear |
| EagerLoad.EdgeAfterMeans | backend/ent/consultationrequest_query.go:465-473 | the edge is the last neighbour with the key, or what it was when there is none |
| EagerLoad.BatchEqualsPerNodeLookup | backend/ent/consultationrequest_query.go:457-474 | one batched query gives each node what its own query would have given |
| Badges.LoadOneToMany | backend/ent/badge_query.go:450-512 | lists are reset, each child goes to the owner of its key in query order; a NULL or unknown key is an error and stops there |
| Badges.DistinctNodesOwnThemselves | backend/ent/badge_query.go:450-479 | for distinct ids each list is the order-preserving filter of the children by key |
| Badges.LastNodeTakesAll | backend/ent/badge_query.go:453-455 | with repeated ids the last holder of an id, wherever it stands, takes all and the others end empty |
| Badges.ChildrenAreConserved | backend/ent/badge_query.go:470-477 | the list lengths add up to the number of children |
| Projection.QueryColumns | backend/ent/consultationrequest_query.go:523-537 | the columns are the id, the selected fields and the keys of wanted edges, or all columns when nothing is selected |
| Projection.ProjectionKeepsEdges | backend/ent/consultationrequest_query.go:405-445 | for every selection the same keys are requested in the same order, and ids agree |
| Projection.SqlAll | backend/ent/consultationrequest_query.go:405-445 | a whole query with any field selection gives the ids and edges of the full rows |
| BulkCreate.FirstFailureIsReported | backend/ent/consultationrequest_create.go:439-486 | the error returned is that of the least builder whose hook rejects or whose check fails |
| BulkCreate.Bulk.RunHook | backend/ent/consultationrequest_create.go:443-478 | the nested chain from any hook on has the effect of the flat reference |
| BulkCreate.Bulk.Core | backend/ent/consultationrequest_create.go:443-475 | one mutator: check, adopt, build, then the next builder or the insert |
| BulkCreate.Bulk.Save | backend/ent/consultationrequest_create.go:432-488 | Save refines "prepare every builder in order, then insert once" |
| BulkCreate.TimesInOrder | backend/ent/consultationrequest_create.go:439-442 | builders that left their times open get times of their own, in list order and created before updated; set times stay |
| BulkCreate.SaveMeans | backend/ent/consultationrequest_create.go:432-488 | at most one insert, with the columns of all builders in order, exactly when all pass; on success, and only then, each mutation is marked done with the id reported for its own row, and its node shows that mutation with that id |
| BulkCreate.FailureNamesItsCause | backend/ent/consultationrequest_create.go:443-478 | the error names the builder, and the hook that rejected what it was given or else the field at fault |
| BulkCreate.TraceIsNested | backend/ent/consultationrequest_create.go:476-478 | hooks enter and leave like brackets, the first one entered outermost |
| BulkCreate.HooksEnterInOrder | backend/ent/consultationrequest_create.go:439-480 | hooks are entered builder by builder and hook by hook from hook 0 of builder 0 |
| BulkCreate.EveryHookEnters | backend/ent/consultationrequest_create.go:476-478 | when all builders pass every hook has been entered |
| BulkCreate.InsertedIsChecked | backend/ent/consultationrequest_create.go:443-453 | run by run: a builder is accepted if and only if no hook rejects and its own mutation passes; what it then inserts has passed the check if and only if no hook of the run swapped the object or the one handed on passes too |
| BulkCreate.SwapEscapesTheCheck | backend/ent/consultationrequest_create.go:448-453 | with such a hook an invalid mutation reaches the insert |
| QueryBuilder.Query.Where | backend/ent/consultationrequest_query.go:35-38 | appends predicates, in place or into a new backing array, and changes nothing else |
| QueryBuilder.StepMeans | backend/ent/consultationrequest_query.go:35-329 | call by call: which part of the builder changes, and that all others stay |
| QueryBuilder.Query.Clone | backend/ent/consultationrequest_query.go:291-307 | an equal builder that shares no object with the original, at any depth |
| QueryBuilder.CloneThenInterleave | backend/ent/consultationrequest_query.go:35-63 | after Clone any interleaving of calls leaves original and copy each as if its calls had run alone |
| Origins.TrimMeans | backend/main.go:228-237 | trimming takes off exactly the white space around a string |
| Origins.GetEnvCSV | backend/main.go:227-249 | the entries are the non-empty cores of the comma-separated parts, once each |
| Origins.DistinctFacts | backend/main.go:234-246 | exactly the non-empty entries survive, once each, in the order of first appearance |
| Origins.ParseIsCanonical | backend/main.go:227-249 | entries are trimmed, non-empty, comma-free and duplicate-free |
| Origins.ParseOfJoin | backend/main.go:227-249 | parsing inverts joining on canonical lists |
| Origins.ParseIsFixpoint | backend/main.go:227-249 | join-then-parse changes nothing |
| Origins.BuildCORSConfig | backend/main.go:54-97 | a non-empty CORS_ALLOWED_ORIGINS decides alone, by the cores of its parts; else the one origin is the core of FRONTEND_BASE_URL or the default; the predicate accepts exactly the empty origin and the listed ones |
| Origins.ParseOfRender | backend/main.go:99-119 | parsing inverts printing of an origin |
| Origins.RenderOfParse | backend/main.go:99-119 | printing inverts parsing: every origin that parses prints back to itself |
| Origins.ExpandMeans | backend/main.go:99-132 | a host that starts with www. also gives the rest, any other host with exactly one dot also gives its www. form, and every other origin only itself |
| Origins.WWWIsInterchangeableIff | backend/main.go:99-132 | a non-www host and its www form expand to the same set if and only if the host has two labels |
| Origins.DeriveRPOrigins | backend/main.go:134-174 | the two loops compute the first-seen distinct candidates of all sources, or the local default |
| Origins.WhichVariableDecides | backend/main.go:134-149 | WEBAUTHN_RP_ORIGINS unless blank, then WEBAUTHN_RP_ORIGIN, then FRONTEND_BASE_URL, then the local default; the origins are exactly the expansions of what that variable lists |
| Origins.RPOriginsFacts | backend/main.go:134-174 | never empty, no duplicates, and the first non-blank configured origin comes first |
| Origins.RPOriginsIgnoreWWW | backend/main.go:134-174 | as a set the origins do not depend on which two-label hosts are given bare or with www |

## Left out

- CleanupEffects.CleanupEffect: asks that no cascade from deleted requests or offers leads back to cases, requests or offers, where it would remove rows that are not surplus; in the generated schema nothing references them. The settling and convergence theorems do not need it.
- CleanupEffects.RequestsKeepTheBest: asks the same.
- CleanupEffects.AcceptedOffersSurviveCleanup: asks the same.
- CleanupEffects.CleanupFailsIff: asks further that no NO ACTION key refers to a table those cascades reach, since such a key can refuse the deletes, and that unique indexes hold and are over existing columns, as in any PostgreSQL database.
- StartFailures.CollisionStopsStart: for offers asks that nothing references requests or offers, since a cascade from requests could remove the colliding offer.
- LateRenames.LateRenameRecoversIff: asks that nothing references requests or offers.
- RenameLaws.DeletingCasesCascades: says nothing about a same-named key that existed before, since only its name is looked up; exact removal asks that the other keys of that table are NO ACTION.
- Consistency.AlwaysConsistent: foreign keys on workflow_cycle are excluded, since the raising update does not re-check them in the model; no such key exists.
- ON DELETE SET NULL: not modelled; no such key references a table these migrations delete from.
- Column types, identifier truncation at 63 bytes, locks and timeouts: a timeout is a round trip that fails.
- Concurrent writers during one start: one start runs at a time; the order in which referential triggers fire is the SQL standard's.
- BulkCreate.Bulk.Save: each builder is a value in the list, so the same builder listed twice is two builders; hooks return what the next mutator returned.
- QueryBuilder.Query.Clone: interceptors, selected fields and the traversal path are not part of the builder.
- Origins.DeriveRPOrigins: origins with user information, IPv6 literals, percent-encoding, a fragment, a query without a path, or an upper-case scheme are outside the modelled grammar and expand to themselves, where the code can add a www variant.
- GeneratedSchema.GeneratedSchemaIsFull: columns that no key, no index and no migration names are left out of the four tables, and of users, categories and tags only the names are there.
- GroupBy, Aggregate, SQL rendering and interceptors: they depend on the query library.
- The other entities, which are copies of the same templates; update and delete builders.
- HTTP routing, handlers, services, rate limiting, logging and the frontend.

# gofastr: erasure, restore, lifecycle and friends, in Dafny

This project models the parts of the gofastr framework that carry an algorithm or a protocol, and
proves what they are for. `dafny verify dfyconfig.toml` verifies all of it.

**Erasing a user** (`Relational`, `TableOrder`, `EraseModel`, `ErasePlanner`, `EraseStage`,
`EraseDelete`, `EraseRun`, `EraseDetach`). Tables are maps from a row id to a row; a row maps columns to
cells that are NULL or a value. The planner walks the foreign-key graph, orders tables depth first and
decides which references have to be cut. Staging is a fixpoint over cascade edges with two refusal
checks. Every cut and every DELETE is one statement that has to pass all foreign keys at its end. The
main theorem is `ErasureSucceeds`, with the exact condition under which the staged rows and no others
go; `EraseEntities` puts the imperative code under it, and `EraseAgain` runs it twice.

**Restoring an archive** (`RowOrder`, `ImportModel`, `ImportRefs`, `ImportRun`, `ImportLoss`). Rows of one
table go parents first, self references that cannot be met yet are deferred, and references to tables not
written yet are held to the end. The main theorem is the contract of `ImportData`: when the import goes
through, what each table then holds, and when that is exactly the archived rows; integrity after every
statement; a refusal changes nothing.

**Reading a table page by page** (`Paging`): keyset paging over composite keys against one ordered scan,
with SQL's three-valued row comparison and both NULL orders.

**Boot, deferred start, Shutdown and the HTTP host** (`AppState`, `Lifecycle`): each critical section is
one step, with ghost counters for teardowns, host runs, host stops and ready closes. `App` holds the
critical sections as methods on the run-state fields; `Lifecycle` runs them in every interleaving.

**Queued bulk runs** (`Bulk`): the lease and fencing protocol over the jobs and items tables, with runs
of any number of runners.

**Batteries and modules** (`Battery`, `Modules`): Kahn's sort with a queue sorted at every push, the
enable/disable invariant, and the refresh protocol of many replicas over one store.

**Printers and encodings** (`Provenance`, `ScopeKey`): the provenance marker and its reader; the
idempotency scope key.

**The planes of an erasure that keep rows** (`Anonymize`, `AuditPlane`, `SharedKeys`): the single-UPDATE
anonymizer, the audit table, and which stored objects nothing left names. `Trimming` holds
`strings.TrimSpace`.

`Ordering` holds Go's string order with `slices.Sort` and `slices.Compact`.

## Where the code does less than its documentation

Each of these is a lemma with a concrete input or an exact condition.

- A SET NULL relation through a nullable column of the child's own key: a staged row whose table is
  deleted after its parent's can lose the key its DELETE matches on, and outlives an erasure that reports
  success (`EraseDetach.ProfileOutlivesErasure`); `EraseDelete.Erasure.ErasureSucceeds` has the exact
  condition and `EraseDetach.ErasedExactly` a simpler one.
- A self reference and a reference to a later table that share a column: the restored row comes back
  without the column where both were set aside (`ImportRun.ImportData`, `ImportLoss.Names.ComesBackWrong`).
- `parentRowsFirst` reads the key of a deferred reference off a row whose earlier deferrals it has already
  emptied (`RowOrder.DeferredAsArchived`); the import then refuses (`ImportRun.NotWholeIsRefused`).
- Keyset paging where NULLs sort last and the declared key is nullable: a row with a NULL in its key is
  dropped without a refusal exactly when it sorts after the last whole key of some page and does not
  compare greater to it (`Paging.ReadEach`); with one key column that is as soon as one page of rows has
  keys (`Paging.OneColumnHidesAfterAPage`), with more it depends on the rows (`Paging.NullKeyRefused`).
- `holdLease` compares tokens only, so the empty token, which `Claim` refuses, settles and finishes a job
  nobody has claimed (`Bulk.EmptyTokenFinishes`).
- `dependents` reads a missing cache entry as disabled, `Enabled` reads it as enabled
  (`Modules.DisableKeepsDependencies`).
- The remote toggle handler reads the store and sets the cache without the toggle lock, so a local toggle
  in between is undone in the cache (`Modules.LocalToggleUndone`); `Modules.ReplicasConverge` has the exact
  condition.
- `Stamp` then `ReadMarker` loses the marker under a header that has no final newline or fills the first
  eight lines (`Provenance.StampRoundTrips`).
- A tombstone that is a value an eraser looks for makes a further erasure count the same rows again
  (`Anonymize.SecondUpdateAffects`, `AuditPlane.SecondAuditErasure`).
- Storage keys of erased rows are trimmed before the reference check, values of surviving rows are not
  (`SharedKeys.KeysToDelete`, `SharedKeys.NamedOnlyPadded`).

## Model

| member | source | states |
|---|---|---|
| TableOrder.OrderTables | framework/erase_data.go:514-556 | A permutation of the tables in which every dependency is out first, except between two tables that wait on each other through a cycle; the same for the restore and the erasure direction. |
| TableOrder.Predecessors | framework/erase_data.go:515-537 | The recorded predecessors of a table are exactly the other listed tables some edge puts before it: self-references and edges leaving the list do not count. |
| TableOrder.Traversal.Visit | framework/erase_data.go:540-551 | A depth-first visit keeps: distinct output, the open tables a chain of waits, and every finished table preceded by what it needs unless a cycle joins them; it ends with the table visited. |
| TableOrder.Relation.Closing | framework/erase_data.go:546-550 | Finishing a table whose dependencies were all met keeps that invariant: one still open proves a cycle through it. |
| TableOrder.StackCloses | framework/erase_data.go:541-544 | Meeting a table that is still open is a wait cycle back to it. |
| ErasePlanner.PlanErase | framework/erase_data.go:630-835 | The tables planned are exactly those reachable over followed edges from the seeds, each once; the plan fits the graph (edges, blockers, seeds, keyless tables first, cuts), and an order edge between two tables is out of order only on a cycle of tables. It is refused if and only if an owner-scoped table of the plan has no key or an order edge of it that comes out of order goes through a key column of its child. |
| ErasePlanner.Reach | framework/erase_data.go:693-723 | The walk ends with the least set of tables that holds the roots and is closed under followed edges, and with exactly the edges inside it. |
| ErasePlanner.Roots | framework/erase_data.go:636-692 | The seed tables are the owner-scoped ones and the keyed, non-pivot tables a delete eraser names, each once. |
| ErasePlanner.Blockers | framework/erase_data.go:728-755 | Every RESTRICT or NO ACTION edge into the plan from a managed table is a blocker, and orders the delete when its child is planned too. |
| ErasePlanner.KeylessFirst | framework/erase_data.go:789-797 | Tables without a key move to the front; keyed tables keep their relative order. |
| ErasePlanner.Cuts | framework/erase_data.go:811-833 | The cuts are exactly the order edges with a keyed child that come out of order; it refuses exactly when one of these goes through a column of the child key. |
| EraseStage.StagingArea.Stage | framework/erase_data.go:915-1017 | The fixpoint ends; what is staged is the least set of rows holding the user's rows and the delete erasers' matches and closed under cascade edges. It refuses exactly on a NULL key among the rows concerned or a blocking reference, and on success owned, seeded and cascaded counts add up to the rows each table will lose. |
| EraseStage.StagingArea.FollowAll | framework/erase_data.go:978-998 | One pass over the edges only adds rows every closed set holds; when it reports nothing added, nothing changed and no edge leads further. |
| EraseStage.PassGrows | framework/erase_data.go:977-1002 | A pass that adds rows strictly shrinks what is left unstaged, so the loop ends. |
| EraseStage.QuietIsClosed | framework/erase_data.go:977-1002 | A pass that adds nothing leaves the least closed set. |
| EraseStage.CountsAgree | framework/erase_data.go:1006-1015 | Owned plus seeded plus cascaded is the number of rows the delete of each planned table will match, keyless tables included. |
| EraseStage.StagedKeysFull | framework/erase_data.go:1060-1093 | After the NULL-key check every staged row has a whole key. |
| EraseStage.StagedIsErased | framework/erase_data.go:881-896 | For a keyed table the rows its DELETE matches by key are exactly the rows staged, as many as were counted. |
| EraseDelete.Erasure.ErasureSucceeds | framework/erase_data.go:1099-1134 | Over any relation graph and database, once staging and its checks pass. An erasure that goes through leaves every reference satisfied and changes a row it leaves only where a SET NULL edge into an erased row empties it; it removes exactly the staged rows if and only if no staged row has lost its key, to a SET NULL edge, when its own table is deleted (decided row by row once staging is done), and then nothing left names an erased row. One that is refused has a NOT NULL column a cut or a SET NULL edge goes through, a SET NULL edge into the key of a row another row names, or such a lost key. |
| EraseDelete.Erasure.DeleteSucceeds | framework/erase_data.go:1122-1134 | While no staged key is lost, each DELETE in plan order removes exactly its table's staged rows and is accepted by every foreign key at the end of its statement, unless SET NULL would empty a NOT NULL column or strand a reference. |
| EraseDelete.Erasure.NobodyNames | framework/erase_data.go:725-834 | While no staged key is lost: when a table's turn comes, the only rows naming one it deletes are deleted by the same statement over an edge that allows it: every other child was deleted earlier or cut. |
| EraseDelete.Erasure.LateChildIsCut | framework/erase_data.go:811-833 | A child table deleted after its parent, or a RESTRICT self-reference, is among the cuts. |
| EraseDelete.Erasure.NamersAreErased | framework/erase_data.go:1019-1044 | Past the blocker check, whoever names a staged row over an edge that is not SET NULL is erased too. |
| EraseDelete.Erasure.CutStep | framework/erase_data.go:1095-1120 | A cut UPDATE is refused exactly when it would empty a NOT NULL column of a row it matches; otherwise references stay satisfied and every earlier cut stays cut. |
| EraseDelete.Erasure.IntactAfterDelete | framework/erase_data.go:1122-1134 | The statement-end foreign-key check holds after each delete, SET NULL actions included, where no staged key is lost and no reference stranded. |
| EraseDelete.Erasure.DetachesStaged | framework/erase_data.go:1122-1134 | What SET NULL empties on a row when a table is deleted depends on that row and the staged keys alone, so what is left of each row can be told before the first statement. |
| EraseDelete.Erasure.RunsOn | framework/erase_data.go:1122-1134 | Whatever its DELETE matched, a statement that goes through leaves every row still there exactly as that forecast says. |
| EraseDelete.Erasure.KeylessRowSurvives | framework/erase_data.go:881-896 | A row whose key has become NULL outlives every later DELETE of the plan. |
| EraseDelete.Erasure.CutSparesSurvivors | framework/erase_data.go:1099-1120 | Cutting touches erased rows only. |
| EraseDelete.Erasure.DeleteSparesSurvivors | framework/erase_data.go:1122-1134 | A delete changes a surviving row only in the columns of a SET NULL edge into a deleted row. |
| EraseRun.Transaction.EraseEntities | framework/erase_data.go:630-1134 | Plan, stage, cut and delete together, over any graph and sound database: a refusal leaves the database as it was; a success leaves references intact and survivors kept, and removed exactly the staged rows if and only if no staged row lost its key before its turn; then each table lost as many rows as were reported and nothing left names an erased one. |
| EraseRun.Transaction.DeleteStaged | framework/erase_data.go:1122-1134 | Cutting first and then deleting table by table is the run the theorem is about, and fails where it does. |
| EraseRun.Transaction.CutReferences | framework/erase_data.go:1099-1120 | Applies the plan's cuts in order and fails at the first that is refused. |
| EraseRun.SecondErasureStagesNothing | framework/erase_data.go:915-1017 | On the database such an erasure left, a second stage of its plan can only come to the empty set, no NULL key and no blocker refuses it, and no row of any table is matched. |
| EraseRun.EraseAgain | framework/erase_data.go:915-1134 | So the second erasure's stage goes through with every count zero, and its cuts and deletes leave the database as it is. |
| EraseDetach.ErasedExactly | framework/erase_data.go:1122-1134 | An erasure that goes through removes exactly the staged rows if no staged row names a staged row of a table deleted earlier over a SET NULL edge through a nullable column of its key; and only if, where those edges share no column outside the key with another edge of the child. |
| EraseDetach.LostKeyNamesEarlier | framework/erase_data.go:1122-1134 | A lost key always has such a reference behind it. |
| EraseDetach.UnsharedIsLost | framework/erase_data.go:1122-1134 | And such a reference loses the key, unless a column it shares with another reference is emptied first. |
| EraseDetach.SharedColumnSparesKey | framework/erase_data.go:1122-1134 | That happens: a concrete database where a staged row names an earlier one through its key, the shared column is emptied first, and the erasure removes exactly the staged rows. |
| EraseDetach.ProfileOutlivesErasure | framework/erase_data.go:1122-1134 | A concrete database (profiles keyed by a nullable user column that is SET NULL on delete) where the erasure reports success and the user's profile, staged and counted, is still there. |
| RowOrder.ParentRowsFirst | framework/export_data.go:744-800 | Ends on any reference graph over the rows and returns a permutation of them: each row less exactly the columns of its deferred references; a reference left in place names an earlier row, the row itself or none of the archive, a deferred one names a later row; and each deferred entry holds the key and values its row had when it was deferred, those deferred before it already emptied. |
| RowOrder.DeferredAsArchived | framework/export_data.go:776-790 | A deferred entry's values are always the archived row's; its key is the archived row's own if and only if no earlier deferral of the row meets a key column. |
| RowOrder.RowTraversal.Visit | framework/export_data.go:762-795 | The row-level depth-first visit keeps that invariant, deferring exactly references to rows still open. |
| RowOrder.RowTraversal.Follow | framework/export_data.go:767-792 | Every reference of the row in hand ends in place or deferred, and the row comes back less exactly the columns deferred of it. |
| RowOrder.BuildIndex | framework/export_data.go:752-757 | The key index finds exactly the rows with a whole key. |
| RowOrder.PermutationKeepsRows | framework/export_data.go:744-800 | A reordering by a permutation of positions has the same rows, each as often. |
| ImportRun.CollectSources | framework/export_data.go:600-636 | Every table is a source once, parents first where the relations allow; a source's self references and later references are exactly its edges to itself and to tables not yet written, and a later reference lies on a cycle of tables. |
| ImportRun.HoldLaterRefs | framework/export_data.go:807-854 | Succeeds exactly when the table has a key, no later reference goes through it and every row holding one has a whole key; it empties exactly the later reference columns of rows that set them and records each value once. |
| ImportRun.ImportData | framework/export_data.go:433-486 | Restoring a sound archive into empty tables goes through if and only if, for each source, its later references can be held, every prepared row has its key and NOT NULL columns, and no row's deferred self references hold every column of a later reference; otherwise the store is unchanged. If it goes through every foreign key holds, each table has its rows less the columns a row lost both to a deferred self reference and to a held later one, and a table has exactly its archived rows if and only if no row of it has such a column. |
| ImportRun.Restore.ImportTable | framework/export_data.go:441-466 | One table: its inserts and self-reference updates go through, every foreign key satisfied after each statement, exactly when its source is accepted in that sense. |
| ImportRun.Restore.WriteSources | framework/export_data.go:441-476 | All tables in source order up to the first not accepted, owing at the end exactly the held references. |
| ImportRun.Restore.ApplyHeld | framework/export_data.go:477-481 | The references held to the end all apply, after which nothing is owed. |
| ImportRun.Restore.ApplyDeferredRefs | framework/export_data.go:858-881 | The updates run in order and fail where one does not change exactly one row. |
| ImportRun.Restore.Prepare | framework/export_data.go:450-460 | Row order and held references together; it refuses exactly when the later references cannot be held. |
| ImportRun.NotWholeIsRefused | framework/export_data.go:858-881 | A self reference deferred through a key column leaves a row no update reaches, so the import refuses rather than write a wrong key. |
| ImportRun.EarlyIsRefused | framework/export_data.go:858-881 | A self reference that completes a reference to a table still empty is refused. |
| ImportRun.RefusalHasCause | framework/export_data.go:433-486 | Only a schema whose self or later references go through a key or NOT NULL column, have no key to be set by, or share a column can be refused. |
| ImportRun.RestoredExactlyWhenApart | framework/export_data.go:744-881 | The rows an accepted table comes to are its archived rows, each as often, if and only if no row has a column among both its deferred self references and its held later references. |
| ImportLoss.Names.ComesBackWrong | framework/export_data.go:744-881 | Two tables in a cycle, statement by statement: every INSERT and UPDATE of the restore goes through, and a row comes back without the value in the column its self reference and its later reference share. |
| ImportLoss.Names.CycleIsAccepted | framework/export_data.go:433-486 | That archive's source is accepted as prepared, and its rows are not apart. |
| ImportRefs.InsertSucceeds | framework/export_data.go:1146-1171 | Each INSERT is accepted: its key is new, its NOT NULL columns are set and its remaining references name rows already written. |
| ImportRefs.UpdateSucceeds | framework/export_data.go:858-881 | Each deferred UPDATE hits exactly its one row and is accepted by every foreign key. |
| ImportRefs.TableRestored | framework/export_data.go:858-881 | Applying a deferred reference takes one debt off the table and puts nothing else out of place. |
| ImportRefs.NothingOwed | framework/export_data.go:477-486 | A table that is owed nothing holds exactly the rows it was to come to. |
| ImportRefs.LoadedIsIntact | framework/export_data.go:433-486 | Every state between two statements satisfies all foreign keys. |
| Paging.ReadEach | framework/export_data.go:965-1037 | Ends on every table, page size and NULL order. It goes through if and only if each row with a NULL in its key is hidden by the end of some page: it sorts after the last whole key of that page and does not compare greater to it. It then emits exactly the rows with a whole key, in order, so such rows are dropped in silence. |
| Paging.PageIsNext | framework/export_data.go:1002-1019 | Each page without a NULL key is the next stretch of the whole-keyed rows in order, and a short one is the last. |
| Paging.RefusedRightly | framework/export_data.go:1023-1028 | A row with a NULL key that comes back in a page is hidden by no page's end, earlier or later. |
| Paging.EndedRightly | framework/export_data.go:1002-1036 | When the last page has been read without one, every such row was hidden. |
| Paging.AskedIsLater | framework/export_data.go:993-997 | Among rows with whole keys the row-value comparison with the last key is true exactly of the rows after it in scan order. |
| Paging.AfterIsGreater | framework/export_data.go:993-997 | After a key without NULL, NULLs sorting first, a strictly later key is greater in SQL's three-valued row comparison. |
| Paging.GreaterIsAfter | framework/export_data.go:993-997 | A greater key is strictly later in either NULL order. |
| Paging.PageShrinks | framework/export_data.go:1002-1036 | Asking after the last row of a page asks for strictly fewer rows, so the paging ends. |
| Paging.ScanUnique | framework/export_data.go:717-726 | The ordered scan keeps whole keys unique. |
| Paging.NullsFirstHidesNothing | framework/export_data.go:1002-1036 | With NULLs sorting first no row is hidden: the read refuses exactly when a key holds a NULL and otherwise emits the whole scan. |
| Paging.OneColumnHidesAfterAPage | framework/export_data.go:1002-1036 | With one key column and NULLs sorting last the read goes through exactly when no key is NULL or at least one page of rows has keys. |
| Paging.NullKeyDropped | framework/export_data.go:1023-1028 | A read of three rows, NULLs last, in pages of two: it succeeds with the two rows that have a key. |
| Paging.NullKeyRefused | framework/export_data.go:1023-1028 | With two key columns: a row with a NULL in the second, greater in the first than the page's end, makes the read refuse. |
| AppState.App.Admit | framework/host.go:364-379 | One critical section: at most one run is admitted, none after a stop, and the lifecycle context exists afterwards. |
| AppState.App.FinishBoot | framework/host.go:330-341 | The stop check, the end of boot and the ready close are one section: either a stop landed first and nothing changes, or boot is over. |
| AppState.App.EndBoot | framework/host.go:398-403 | Ends boot and takes a handed-off teardown if no other phase still runs. |
| AppState.App.TakeHandoffLocked | framework/host.go:412-419 | The handoff is taken only when neither boot nor the deferred start runs, and then once. |
| AppState.App.MarkServicesReadyLocked | framework/host.go:91-100 | Ready is closed afterwards and nothing else changes, whether or not it was before; FinishBoot and EndDeferred call it only with no stop requested. |
| AppState.App.StartDeferred | framework/host.go:620-645 | The deferred start begins only with no stop requested. |
| AppState.App.EndDeferred | framework/host.go:647-674 | Its end, the ready close and the taking of a handed-off teardown are one section. |
| AppState.App.StopBegin | framework/app.go:3503-3559 | The first stop, and only it, records the request and either hands the teardown to the running phase or keeps it. |
| AppState.App.Detach | framework/app.go:3562-3576 | The teardown takes the cancel function and the host under the lock and detaches the server. |
| AppState.App.Adopt | framework/host_http.go:130-138 | A server is adopted only with no stop requested. |
| AppState.App.EnsureLifecycleContext | framework/app.go:3687-3693 | Creates the context once. |
| Lifecycle.TeardownOnce | framework/app.go:3503-3615 | In every interleaving of one run, a deferred start and any number of Shutdown calls: the teardown begins at most once, one actor performs it, never while booting or the deferred start holds; a pending handoff always has a running phase that will take it; and an engine that returned leaves a teardown begun or a deferred start that owes it. |
| Lifecycle.HostOnce | framework/host_http.go:281-311 | In every interleaving ready closes at most once, the host runs at most once and only after a clean boot, Stop is called at most once and exactly once when a host was admitted and the teardown finished, and that call sees whatever server was adopted. |
| Lifecycle.NothingStartsAfterStop | framework/host.go:364-379 | After a stop request no step closes ready, admits a run, adopts a server or begins a phase, and a teardown begun or done stays so. |
| Lifecycle.StopCanFinish | framework/host.go:459-474 | From every reachable state with a stop requested some run of the actors finishes the teardown: no handoff is lost. |
| Lifecycle.RunInv | framework/host.go:189-474 | The full invariant (phases, counters, handoff, one actor) holds in every reachable state. |
| Lifecycle.StepInv | framework/host.go:189-474 | Every critical section keeps that invariant from any state that has it. |
| Lifecycle.AdvancingAlone | framework/app.go:3562-3615 | While an actor tears down no phase runs, no handoff is pending and no other actor tears down. |
| Lifecycle.BeginningIsFirst | framework/host.go:412-420 | A step that begins a teardown finds none begun before it. |
| Bulk.SqlBulkStore.Create | framework/entityui_bulk.go:153-166 | Writes the job and all its ids, or nothing: then it answers the queued job that holds the key, and answers none only when there is none. |
| Bulk.SqlBulkStore.Insert | framework/entityui_bulk.go:169-204 | The transaction commits exactly when the job id and every item key are new, the ids are distinct and no queued job holds the key; otherwise both tables are as they were. |
| Bulk.SqlBulkStore.InsertRows | framework/entityui_bulk.go:186-204 | The batches of 500 together insert every id at its confirm position, and any refused row undoes the job row too. |
| Bulk.SqlBulkStore.QueuedByKey | framework/entityui_bulk.go:141-149 | Finds a queued job with the key if there is one. |
| Bulk.SqlBulkStore.Enqueued | framework/entityui_bulk.go:207-216 | Marks exactly the job named; an unknown id is an error. |
| Bulk.SqlBulkStore.Claim | framework/entityui_bulk.go:234-248 | Grants or renews the lease exactly for a queued job that is unclaimed, the runner's own or past its lease; otherwise nothing changes. |
| Bulk.SqlBulkStore.Pending | framework/entityui_bulk.go:251-271 | A page of unsettled ids in confirm order with none outside it earlier than one inside; short of the limit only when nothing else is unsettled. |
| Bulk.SqlBulkStore.Settle | framework/entityui_bulk.go:296-323 | Refuses an outcome that is not done, skipped or failed, then a lost lease; otherwise each unsettled id gets its outcome and no settled one changes. |
| Bulk.SqlBulkStore.Tally | framework/entityui_bulk.go:326-344 | Each outcome that occurs is counted once per settled id, and no other is listed. |
| Bulk.SqlBulkStore.Finish | framework/entityui_bulk.go:348-390 | Under the lease the job gets its final status and tally and loses its ids; without it nothing changes and a missing job is told from a lost lease. |
| Bulk.SqlBulkStore.Prune | framework/entityui_bulk.go:415-440 | Removes exactly the finished jobs older than the bound, with any items of theirs, and returns their number. |
| Bulk.ReachableStore | framework/entityui_bulk.go:86-96 | In every reachable store at most one queued job holds a run key, and item rows exist only for queued jobs. |
| Bulk.RunInv | framework/entityui_bulk.go:153-440 | In every reachable store a queued job's items are exactly the ids confirmed, in order; its token is the last claimer's; and finished jobs hold no lease. |
| Bulk.OnlyTheClaimerWrites | framework/entityui_bulk.go:278-323 | With a runner token, a Settle or Finish by anyone but the last successful claimer changes nothing, whatever runners did before. |
| Bulk.WritersHoldTheClaim | framework/entityui_bulk.go:278-290 | On a queued job a Settle or Finish is let through if and only if its token is the last claimer's, or is empty and nobody has claimed the job: the exact case where fencing does not apply. |
| Bulk.EmptyTokenFinishes | framework/entityui_bulk.go:278-290 | A concrete two-step run in which a job nobody claimed is finished with the empty token. |
| Bulk.TakeoverNeedsExpiry | framework/entityui_bulk.go:234-248 | A held job passes to a different runner if and only if now is at or past the end of the current lease. |
| Bulk.OutcomeNeverOverwritten | framework/entityui_bulk.go:293-323 | Over any run, an outcome once set stays as it is until the job is finished and its items go. |
| Bulk.FinishedNeverChanges | framework/entityui_bulk.go:348-391 | Over any run, a finished job keeps its status, tally and finish time for as long as it is kept. |
| Bulk.FinishTallies | framework/entityui_bulk.go:373-386 | At Finish done, skipped and failed add up to the settled ids, and to all confirmed ids exactly when none was pending. |
| Battery.Resolve | framework/battery.go:164-229 | Reports an unknown dependency exactly when one is not registered and a cycle exactly when there is one (with a set every member of which depends on another member); otherwise the result is a permutation of the batteries with dependencies first, and no such order is lexicographically below it. |
| Battery.LeastOrderUnique | framework/battery.go:164-229 | That order is one list, whatever order the maps were walked in. |
| Battery.BuildAdjacency | framework/battery.go:176-186 | Each battery is listed under a dependency once per entry naming it, duplicates included. |
| Battery.ReleaseAll | framework/battery.go:203-211 | Walking the dependents of the popped battery leaves every counter at its pending entries and exactly the ready batteries in the queue, sorted. |
| Battery.PopIsLeast | framework/battery.go:198-201 | Taking the head of the sorted queue keeps the output below every valid order. |
| Battery.StuckAtEnd | framework/battery.go:214-223 | With an empty queue and batteries left over, those left are a nonempty set leaning on itself, so there is a cycle. |
| Battery.ValidIsAcyclic | framework/battery.go:164-229 | A dependencies-first order exists only for an acyclic graph. |
| Battery.BatteryManager.ResolveOrder | framework/battery.go:164-229 | A failed resolution leaves the previous order in place. |
| Battery.BatteryManager.InitAll | framework/battery.go:242-272 | Each battery is initialized at most once and only after all its dependencies; it stops at the first failure, and exactly the batteries whose Init succeeded are added to the initialized ones. |
| Battery.BatteryManager.StopAll | framework/battery.go:332-342 | Every stoppable battery is stopped once, dependents before what they depend on, past any failures, which are all reported. |
| Battery.BatteryManager.Register | framework/battery.go:110-126 | A second registration of a name is refused; a new one keeps dependencies initialized first. |
| Modules.ModuleManager.LoadFromStore | framework/module.go:366-384 | On success every registered module is cached as the store says, absent meaning enabled; unknown rows never reach the cache, and a failed load changes nothing. |
| Modules.ModuleManager.Dependents | framework/module.go:459-475 | Lists exactly the enabled cached modules that name this one, and is empty exactly when disabling is allowed. |
| Modules.ModuleManager.Enable | framework/module.go:481-504 | Succeeds exactly when all dependencies are registered and enabled and the store accepts; otherwise neither store nor cache changes. |
| Modules.ModuleManager.Disable | framework/module.go:532-548 | Succeeds exactly when no enabled cached module depends on it and the store accepts; otherwise neither changes. |
| Modules.ModuleManager.SetEnabled | framework/module.go:509-527 | The cache changes only once the store has. |
| Modules.RunKeepsDependencies | framework/module.go:481-548 | After a load, any sequence of Enable and Disable, failed and refused ones included, keeps every enabled module's dependencies enabled and the cache equal to the store. |
| Modules.DisableKeepsDependencies | framework/module.go:459-548 | One disabling keeps that invariant if and only if every registered dependent has a cache entry. |
| Modules.LateModuleLosesDependency | framework/module.go:459-475 | A module registered after the load, concretely: its dependency can be disabled under it. |
| Modules.StepInv | framework/module.go:559-615 | With many replicas, every step keeps, for each replica and module: a refresh is addressed to it, or its last message was lost or unreadable, or the read its handler has made is current, or its cache agrees with the store exactly if it did not last set the entry from a read that came before its own switch to another value. |
| Modules.RunInv | framework/module.go:559-615 | That holds over every run, whatever the order, duplicates, forged payloads, lost messages and failed reads. |
| Modules.QuietAgrees | framework/module.go:559-615 | Once all messages are handled, an entry whose last message was not lost agrees with the store if and only if it was not last set from such an overtaken read. |
| Modules.ReplicasConverge | framework/module.go:559-615 | If no message or read is lost, all caches agree with the store once every message is handled if and only if no replica last set an entry from a read that came before its own switch to another value. |
| Modules.GentleRunNeverRaces | framework/module.go:578-604 | None does in a run where no replica switches a module its own handler is refreshing. |
| Modules.LocalToggleUndone | framework/module.go:578-604 | The handler does not hold the toggle lock: a concrete lossless run of two replicas from their boot in which a local Disable between the handler's read and its write is undone in one cache, while the store and the other cache have the module off and no message is left. |
| Provenance.StampRoundTrips | codegen/provenance.go:137-208 | For every path, content and valid marker stamping succeeds: on a type with comments, reading the stamped file gives the same marker with its sum and exactly the content if and only if the skipped header is empty or ends in a newline and is shorter than eight lines, and otherwise the file reads as unmarked; on a type without, the content comes back as it was. |
| Provenance.StampedIsUnedited | codegen/provenance.go:213-228 | Exactly there StripMarker undoes Stamp, and Edited reports unedited; elsewhere Edited reports no marker. |
| Provenance.HeaderIsNoMarker | codegen/provenance.go:66-98 | No header line that is skipped, nor one run on without its newline, has the marker's prefix, in any comment style. |
| Provenance.MarkerIsNoDirective | codegen/provenance.go:84-98 | A line with the marker's prefix is never a Dockerfile directive. |
| Provenance.ParsePrinted | codegen/provenance.go:230-288 | The printed fields of a valid marker parse back to it, version and source present or not. |
| Provenance.ParseMarkerFields | codegen/provenance.go:261-288 | A field without an equals sign or a repeated key refuses the marker; unknown keys are skipped. |
| Provenance.SplitLeading | codegen/provenance.go:156-172 | The offset is the end of the longest run of header lines from the top. |
| Provenance.ReadMarker | codegen/provenance.go:176-208 | The marker is read from the first of the eight top lines with the prefix; one that does not parse there means no marker. |
| Provenance.ReadStampFrom | codegen/provenance.go:137-208 | The round trip from any line of the header down. |
| Provenance.ReadRunOn | codegen/provenance.go:156-172 | A header that does not end its last line swallows the marker. |
| Provenance.ShebangWithoutNewline | codegen/provenance.go:66-68 | A shebang as the whole file, without its newline, is such a header; with it, it is not. |
| ScopeKey.SameKeyIffSameScopes | framework/app.go:1211-1230 | Two requests get the same key if and only if both are unscoped, or both are scoped and hold the same set of scopes, for any order, duplicates and characters in the names. |
| ScopeKey.HeldScopeKey | framework/app.go:1211-1230 | The loop builds that key. |
| ScopeKey.EncodeInjective | framework/app.go:1224-1228 | The length-prefixed list decodes in one way only, digits and colons in the names included. |
| ScopeKey.AtoiItoa | framework/app.go:1225-1225 | The decimal length reads back. |
| Ordering.CanonicalList | framework/app.go:1220-1221 | Sorting and compacting gives each name once, in order. |
| Ordering.SortedListingUnique | framework/app.go:1220-1221 | A set has one strictly sorted listing. |
| Anonymize.AnonymizeTable | framework/erase_data.go:1878-1934 | The single UPDATE sets each cell to the tombstone of the first registered eraser that matched the row as it was and scrubs that column, and leaves every other cell; the counts are the rows each eraser matched before any write. |
| Anonymize.CaseIsFirstHit | framework/erase_data.go:1904-1925 | The CASE built column by column picks that first eraser. |
| Anonymize.NoNewMatch | framework/erase_data.go:1865-1877 | With no tombstone a value an eraser looks for, a row that matches afterwards matched before, and not for an eraser that was applied. |
| Anonymize.AnonymizedMatchesNothing | framework/erase_data.go:1865-1877 | Then a second run of the table's anonymizers matches zero rows and changes none. |
| Anonymize.SecondUpdateAffects | framework/erase_data.go:1878-1934 | For one table, a second update matches some row if and only if an eraser of the table finds a tombstone in a row of the first: everything it looks for there is kept or written as a tombstone, and at least one is written. |
| Anonymize.MatchesAfter | framework/erase_data.go:1904-1925 | The same row by row and eraser by eraser. |
| Anonymize.BatteryPlane.Erase | framework/erase_data.go:1780-1863 | An anonymizer without scrub columns refuses the plane before any write; otherwise deletes run first and each table's anonymizers once on what is left, and every eraser reports the rows it took or matched. |
| Anonymize.SecondErasureAffectsNothing | framework/erase_data.go:1770-1863 | A second erasure of the same user reports zero for every eraser and changes no row, when no tombstone of a table is a value an eraser of that table looks for. |
| Anonymize.GroupTables | framework/erase_data.go:1782-1793 | Each table is listed once, with its anonymizers in registration order. |
| AuditPlane.AuditTable.Erase | framework/erase_data.go:1383-1406 | The user's rows lose name and diff, rows recording an erased record lose their diff, NULL diffs stay; the number returned counts each such row once, across all chunks. |
| AuditPlane.CountedIsChanged | framework/erase_data.go:1378-1382 | For a tombstone that is not the user, the rows counted are exactly the rows changed. |
| AuditPlane.SecondAuditErasure | framework/erase_data.go:1383-1406 | A second erasure with the same records changes nothing, and counts nothing if and only if the tombstone is not the user or no row was the user's. |
| AuditPlane.ChunkErased | framework/erase_data.go:1359-1376 | The rows a chunk counts are new ones, so no chunk counts a row twice. |
| SharedKeys.UnsharedObjectKeys | framework/erase_shared_keys.go:128-171 | The keys returned are exactly the candidates that are not external links and that no row left names, in a file column verbatim or in a variants column in any JSON spelling. |
| SharedKeys.MarkNamedInVariants | framework/erase_shared_keys.go:218-251 | The chunked LIKE narrowing marks exactly the keys that parsing every row would. |
| SharedKeys.MarkNamedInColumn | framework/erase_shared_keys.go:176-205 | Marks exactly the keys some row holds verbatim. |
| SharedKeys.ListedKeyIsLike | framework/erase_shared_keys.go:210-217 | A text that lists a key, literally or with escapes, matches the pattern of its run or the pattern for a \u escape, in either engine's LIKE. |
| SharedKeys.SafeRunIsLiteral | framework/erase_shared_keys.go:274-276 | Without a \u escape every run of safe characters of a key stands unbroken in every JSON spelling of it. |
| SharedKeys.LikeKeepsContaining | framework/erase_shared_keys.go:277-295 | A text that contains the run matches its escaped pattern. |
| SharedKeys.LikeRun | framework/erase_shared_keys.go:277-295 | The pattern is the escaped form of a run of the key's safe characters no other run exceeds, and is empty exactly when the key has none. |
| SharedKeys.PatternsKeepListing | framework/erase_shared_keys.go:221-247 | A row the chunk's patterns drop lists no key of the chunk. |
| SharedKeys.ObjectKeys.Add | framework/erase_data.go:1253-1263 | A key is trimmed and appended unless it is empty or already there. |
| SharedKeys.KeysToDelete | framework/erase_data.go:1246-1330 | From the values of the erased rows: the keys deleted are exactly their trimmed values that are not empty, not external and held verbatim by no row left; one of them is still named, as the eraser reads names, if and only if a row left has it with spaces around it. |
| SharedKeys.NamedOnlyPadded | framework/erase_shared_keys.go:176-205 | A key as it is handed over is named by a row left and not counted if and only if some row left has a padded spelling of it and none has it verbatim. |
| SharedKeys.PaddedNameIsNotCounted | framework/erase_shared_keys.go:176-205 | As when a row left has the key after a space: it names the key for the eraser and is not counted. |
| Trimming.TrimmedSpelling | framework/erase_data.go:1253-1255 | Trimming yields exactly the string without spaces at its ends that the value spells with spaces around it. |

## Left out

- EraseDelete.Erasure.ErasureSucceeds: a refusal is traced to its four causes without the converse for the whole run (`CutStep` has both directions for one cut).
- EraseDetach.ErasedExactly: its simple condition is exact only where a SET NULL edge through a key shares no column outside the key with another edge of the child, since `SharedColumnSparesKey` shows it is not otherwise; `ErasureSucceeds` is exact everywhere.
- EraseRun.EraseAgain: is stated for the plan of the first erasure, and where that removed its staged rows.
- ImportRun.ImportData: the archive is a sound database's and the tables are empty; a relation that lists a column twice is not told apart.
- Lifecycle.StopCanFinish: says a finishing run exists, not that a fair scheduler finds it.
- Modules.ReplicasConverge: takes store write, cache flip and publish of one toggle as one step, and a boot's load and cache set as one; the handler's read and write are two.
- Bulk.SqlBulkStore.Create: the read of the queued job after a refused insert is in the same step, and a commit that fails has no effect.
- SharedKeys.UnsharedObjectKeys: the JSON parser is any function whose keys are spelled in the text it reads, and the URL test any predicate.
- Bytes that are not UTF-8 in storage keys: strings are sequences of characters.
- A database CASCADE action is not relied on: `DeleteRows` refuses a delete that would leave a CASCADE child behind, as the generated schema has no such action.
- Tables the database lacks, and the probes for them (`tableExists`, `requireColumns`, `resolveTable`, `graphIdentities`): every table of a graph is present with its columns.
- `keyString` and `entity.JoinKey`: the archive's key index uses the tuple of key values itself.
- Delete counts per eraser (`seededBy`) and the erasers' own pass over rows the plan already took: the battery plane is modelled on tables outside the plan.
- `eraseRemoveMember`: membership lists in JSON columns.
- Column and table names are compared as already folded to one case.
- SQL text, quoting, dialects, drivers, temp-table names and collations: a statement is a step on abstract tables.
- JSON, checksums, base64, time normalization and serial sequences of an archive; the manifest.
- `Sum` of a marker is any function; `unicode.ToLower` is exact only where it yields an ASCII letter.
- The audit records an erasure collects (`auditRecords`, `keyID` digests) are an input of the audit plane.
- Contexts, deadlines, timers, signals, sockets, connection draining, A2A and process-module drains: a context may end at any step.
- Errors are told apart only where the code branches on them; `stopShaped` and `joinErrors` are not modelled.
- Process modules: their state belongs to a supervisor outside `ModuleManager`.
- Route, tool and entity attribution of modules; `List`, `Names`, `All` and `StartAll`, which only read.
- `Job` and `Unenqueued` of the bulk store, and `RunBulkJob`, which calls it.
- Dry runs, stored-object deletion and stores outside the database.

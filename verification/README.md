# Repair scripts and migrations, modelled and proved

The repository keeps a warehouse-and-order database in order with one-off scripts and a migration
runner. Several of them are small protocols: they call a provider, open transactions, retry, page
through tables they are changing, or rebuild a table while others write to it. This project models
those programs in Dafny and proves what they keep, for every input, every schedule and every point of
failure.

How the model is laid out:

- `EnrichmentPool`, `EnrichmentOutcome`, `EnrichmentFetch` - the worker pool that looks shipments up at
  ShipStation, with its shared claim counter, array of outcomes and rate-limit circuit: a state machine
  over the workers' await points, what becomes of each candidate given all that a run hears, the circuit
  object, and the retry loop of one lookup.
- `ShipmentIdentity`, `ShipmentMatch`, `ShipmentLinkage` - printing and parsing persisted ids, merging
  lookup results, the match and linkage decisions, and the guarded updates.
- `MigrationExecutor`, `MigrationRunner`, `MigrationHistory`, `MigrationOnce` - the transactional retry
  loop of one migration, one run over a directory, histories of any number of runners under the advisory
  lock, and what can be executed twice in them.
- `ItemCoverage`, `DuplicateRetirement`, `DuplicateTrace`, `DuplicateRun` - choosing a canonical WMS order, deciding on
  the others, what a run leaves when others write between its transactions, and the saga of remote
  cancellations and database transactions that retires them.
- `ObservationSwap`, `ObservationRebuild` - the KEEP predicate in three-valued logic, and the rebuild
  of an append-only table beside its writers.
- `CounterRepair`, `CounterRun` - the guarded repair of materialised counters with its audit trail.
- `OmsLinkBackfill`, `OmsLinkRun` - the keyset-paged, batched backfill over the table it changes.
- `Lexicographic`, `StableSort`, `ReplenSource` - replenishment source selection by two composed sorts.
- `OmsDedup`, `OmsDedupRun` - merging duplicate OMS orders, one transaction for each group.
- `Faults`, `Prelude`, `Text` - calls that fail (and may have taken effect all the same), lists, strings.

A database is a value: sequences or maps of rows. A transaction stages a new value and installs it at
COMMIT. Every statement can fail; a failed COMMIT (or remote call) may still have taken effect. Other
writers appear as parameters: a schedule, a list of edits, or the table as they left it. Assumed of the
database: transactions are atomic, row locks and the exclusive table lock hold until the transaction
ends, UNIQUE and foreign keys are enforced. Assumed of migration files: no transaction control of their
own. Assumed of the order-item maintenance command: it cancels unstarted items and nothing else.

## What turned out not to hold as promised

Where a promise of the code or its comments is false, the code is modelled as it is, and the exact
condition under which the promise holds is proved.

- **Migrations.** A directory in which two files share a numeric prefix is refused before anything is
  read, and no history changes the database (`CollisionStops`); the rest is about directories that pass. A
  single run is a prefix of what was pending, without any condition (`OneRunIsAPrefix`), and
  `QuietExactly` says when a run executes nothing. Suppose that no file's row records the content of a
  different file and no file stands beside its renamed self. Then a second run is quiet
  (`SecondRunIsQuiet`), and every history of any number of runners executes a prefix of what was pending at
  the outset if and only if no file with an unrecorded hash has a pending twin later in the directory
  (`HistoryIsAPrefix`). Without either of the two a second run can execute a file (`StaleHashReruns`,
  `OldNameReruns`). From whatever table, no file is ever executed twice if and only if each file that
  stands beside its renamed self with other content has an earlier twin, and no tracked file is ever
  executed if and only if there is no such file (`AtMostOnceExactly`, `TrackedNeverRunsExactly`;
  `OldAndNewNameRunTwice` is the smallest directory in which one runs twice, and it passes the prefix check).
- **Duplicate retirement.** The script reads the quantities once, before its transactions. A run keeps
  picked and fulfilled quantity over uncancelled orders, beside what others write, if and only if each
  committed job finds its order cancelled or without any at its BEGIN (`RunConservesExactly`); it does
  when nobody else writes to the orders it retires (`PlannedRunConserves`), and loses a pick made after
  the plan (`LosingRun`). Of the fixpoint, other writers leave this: a retired row that nobody touched
  is not retired again, and a group that nobody touched converges (`RetiredStaysRetired`,
  `UntouchedGroupConverges`). A job finds nothing live at ShipStation beyond what it cancelled if and
  only if nobody has attached a new ShipStation order since the rows were fetched, and no evidence of
  shipping if and only if nobody has added any (`JobFindsNothingLiveExactly`); otherwise the shipment is
  cancelled in the database and the order stays live (`LiveOrderIsOrphaned`). `LIMIT` is applied before
  finished groups are left out, so a run with a limit looks at the same groups every time
  (`RerunsConverge`), which are all of them if and only if there are no more than the limit
  (`LimitCoversExactly`). Rows whose key joins to no OMS order share group 0 and are planned as
  duplicates of one another (`PlannedTogetherExactly`); the event's foreign key then stops the
  retirement, but its ShipStation orders may be cancelled by then (`Warehouse.RetireDuplicate`).
- **Item coverage.** The text by which two orders are compared item by item tells them apart if no item
  key holds an equals sign: then it is equal if and only if the quantities under every key are
  (`CoverageExactly`). A key that holds the text of another item defeats it, and an order that covers
  something else is retired (`UncoveredIsRetired`).
- **Online rebuild.** The swapped table is the KEEP rows of the old one if and only if no KEEP row with
  an id in the surveyed range becomes visible after the copy (`ExactWithoutStragglers`); whatever
  writers do next, that is guaranteed if and only if no writer in flight at the survey holds such a row
  (`AlwaysExactIff`). `NOT (NOISE)` also drops rows of which NOISE is merely unknown, exactly those in
  `LostToNull`. A legacy table left by an earlier run makes every later swap fail.
- **Merging lookup results.** Reordering them never changes the match decision; repeating them does
  in exactly one case (`DecisionIsStable`): a single matching record without an id, seen twice, reads
  as ambiguous instead of invalid (`RepeatedRecordIsAmbiguous`).
- **Provider linkage.** The candidate query trims blanks only, and not the external id at all, where the
  decision trims all white space. Of the rows with a gap that the decision would fill in, the query
  misses exactly those whose external id has white space at an end, and those that have an order id and
  in every gap white space other than blanks (`QueryMissesExactly`; `LeadingBlankHidesRow` and `TabHidesRow`
  show one of each). The unique indexes on provider-order identity cover active shipments only, so they
  never refuse a linkage, and the branch that reports such a conflict is never taken
  (`LinkageIsNeverRefused`).
- **Duplicate OMS orders.** The order kept is the oldest. However the database settles equal times, an
  order can be kept if and only if none of its pair is older, and is sure to be if and only if all others
  are newer (`KeptExactly`); so the lowest id is kept only then (`LowestIsKeptExactly` for ties settled by
  place in the table, `OldestNotLowest` for an order that is not kept). Counters move before COMMIT and are
  not taken back on ROLLBACK; exactly when each is right is in `DeletedIsExact`, `LinesAreExact` and
  `EventsAreExact`. An execute run that reports safe has made every pair unique if and only if its limit
  covered all groups (`SafeExactly`); a dry run reports safe whatever it found (`DryRunExactly`).
- **OMS link backfill.** The count of updated rows is right if and only if the commit of no batch with
  links in it succeeded without an answer (`UpdatedIsExact`, `LostReplyUndercounts`).

One suspicion came to nothing. The outer join of the source audit can return one stock row several times,
and rows that agree on all keys then come out in input order (`ListIsFixedExactly`, `TiedRowsSwap`); but such
rows look alike in all that is reported, and the source selected never depends on the order
(`RowOrderIrrelevant`).

## Model

| member | source | states |
|---|---|---|
| EnrichmentPool.RateLimitCircuit.Record | scripts/enrich-shipstation-physical-shipment-ids.ts:739-753 | the circuit opens at the response that reaches a positive limit, keeps its first reason, and counts every response |
| EnrichmentPool.StepKeepsInv | scripts/enrich-shipstation-physical-shipment-ids.ts:1267-1318 | between any two awaits: every claimed index is settled for its own candidate or held by exactly one worker, and the counters match the outcomes |
| EnrichmentPool.After | scripts/enrich-shipstation-physical-shipment-ids.ts:1264-1331 | every state any run passes through satisfies that invariant |
| EnrichmentPool.OutcomesArePrefix | scripts/enrich-shipstation-physical-shipment-ids.ts:1264-1331 | in every interleaving the returned outcomes are those of a prefix of the candidates, each once and in order; of all candidates when the circuit stays closed |
| EnrichmentOutcome.OutcomeExactly | scripts/enrich-shipstation-physical-shipment-ids.ts:1125-1194 | over whole runs: a returned candidate was decided on if and only if each of its lookups got a list and its database update went through, else it is an error; with the circuit closed it is an error if and only if a permanent error came, a URL failed once more than there are retries, or the update failed |
| EnrichmentOutcome.RetriesAreBounded | scripts/enrich-shipstation-physical-shipment-ids.ts:803-838 | no URL fails more than maxRetries + 1 times, and nothing is asked about a candidate after a permanent error for it |
| EnrichmentPool.RateLimitBound | scripts/enrich-shipstation-physical-shipment-ids.ts:803-838 | with W workers and limit M > 0 every run counts at most M + W - 1 rate-limit responses |
| EnrichmentPool.RateLimitBoundIsReached | scripts/enrich-shipstation-physical-shipment-ids.ts:1264-1320 | that bound is tight: for every pool size and limit some run reaches it, after an opening in which, as in the program, all workers send a request before any reply is seen |
| EnrichmentPool.DisabledLimitNeverStops | scripts/enrich-shipstation-physical-shipment-ids.ts:743-752 | with limit 0 the circuit never opens, whatever the provider answers |
| EnrichmentPool.OpenCircuitIsFinal | scripts/enrich-shipstation-physical-shipment-ids.ts:809-812 | once open the circuit stays open, no request is sent and no candidate claimed any more |
| EnrichmentPool.RunsAreBounded | scripts/enrich-shipstation-physical-shipment-ids.ts:1264-1331 | every run is finite, within a bound known at the start |
| EnrichmentPool.StartStepsLeft | scripts/enrich-shipstation-physical-shipment-ids.ts:1264-1331 | that bound: one step for each worker and 3 + 6 (maxRetries + 1) for each candidate |
| EnrichmentPool.EveryRunCompletes | scripts/enrich-shipstation-physical-shipment-ids.ts:1264-1331 | from every reachable state the pool can finish: there is no deadlock |
| EnrichmentFetch.FetchWithRetries | scripts/enrich-shipstation-physical-shipment-ids.ts:803-838 | at most maxRetries + 1 requests, the circuit closed just before each of them, only retryable replies retried, and the circuit ends at exactly what this lookup and the others recorded |
| EnrichmentFetch.RecordedTimesFacts | scripts/enrich-shipstation-physical-shipment-ids.ts:739-753 | after any number of responses: the exact count, and the reason is the limit, set once |
| ShipmentIdentity.ParsesExactly | scripts/enrich-shipstation-physical-shipment-ids.ts:321-339 | the parser accepts exactly the three grammars, trimmed, with an id from 1 to 2^53 - 1, and returns that id |
| ShipmentIdentity.PrintThenParse | scripts/enrich-shipstation-physical-shipment-ids.ts:304-307 | parsing a printed safe id gives it back, also with white space around it |
| ShipmentMatch.MergeShipments | scripts/enrich-shipstation-physical-shipment-ids.ts:369-385 | the loop over a map with insertion order computes the merged list |
| ShipmentMatch.KeyedFacts | scripts/enrich-shipstation-physical-shipment-ids.ts:369-385 | one record for each positive id, the last one seen |
| ShipmentMatch.KeyedIds | scripts/enrich-shipstation-physical-shipment-ids.ts:369-385 | the set of positive ids is kept |
| ShipmentMatch.MergeIsIdempotent | scripts/enrich-shipstation-physical-shipment-ids.ts:369-385 | merging twice is merging once; records without an id are all kept in order |
| ShipmentMatch.MatchExactly | scripts/enrich-shipstation-physical-shipment-ids.ts:387-435 | when each verdict is given: a match if and only if one record alone bears the tracking number, up to case and white space, and has a positive id; an ambiguous one lists the ids of all that bear it, each once |
| ShipmentMatch.MatchNamesItsShipment | scripts/enrich-shipstation-physical-shipment-ids.ts:387-435 | the matched record has the tracking number, and what is persisted for it parses back to its id |
| ShipmentMatch.DecisionIsStable | scripts/enrich-shipstation-physical-shipment-ids.ts:387-435 | when equal ids carry equal records, reordering or repeating lookup results changes the decision if and only if no record with an id matches and a single matching one without is repeated |
| ShipmentMatch.RepeatedRecordIsAmbiguous | scripts/enrich-shipstation-physical-shipment-ids.ts:387-435 | that case: one matching record without an id is an invalid candidate, the same record twice an ambiguous one |
| ShipmentMatch.OrderDoesNotMatter | scripts/enrich-shipstation-physical-shipment-ids.ts:387-435 | reordering alone never changes the decision |
| ShipmentLinkage.ProposedExactly | scripts/enrich-shipstation-physical-shipment-ids.ts:476-500 | which shipments name a provider order that can be persisted, and which field becomes what |
| ShipmentLinkage.LinkedExactly | scripts/enrich-shipstation-physical-shipment-ids.ts:437-540 | a row is linked if and only if its id names the matched shipment, the order can be persisted, and nothing the row already says differs |
| ShipmentLinkage.NotLinkedExactly | scripts/enrich-shipstation-physical-shipment-ids.ts:437-540 | and why another is not: no id to go by, another shipment or order, or an order that cannot be persisted |
| ShipmentLinkage.LinkageNeverReplaces | scripts/enrich-shipstation-physical-shipment-ids.ts:437-540 | a linkage never replaces a non-blank identity by a different one, up to trimming and the case of the engine; the shipment linked is the one the row persists |
| ShipmentLinkage.LinkageIsFinal | scripts/enrich-shipstation-physical-shipment-ids.ts:558-568 | a linked row leaves the candidate set, and deciding on it again gives the same linkage |
| ShipmentLinkage.QueryMissesExactly | scripts/enrich-shipstation-physical-shipment-ids.ts:542-568 | of the shipped rows with a gap that the decision would link, the query misses exactly those with white space around the external id, or with an order id and in every gap white space other than blanks |
| ShipmentLinkage.TabHidesRow | scripts/enrich-shipstation-physical-shipment-ids.ts:562-567 | one such row: a tab in an otherwise complete row |
| ShipmentLinkage.LeadingBlankHidesRow | scripts/enrich-shipstation-physical-shipment-ids.ts:558-561 | another: a blank before the external id, and no order identity at all |
| ShipmentLinkage.LinkageIsNeverRefused | migrations/125_shipstation_split_engine_identity_indexes.sql:22-72 | the unique indexes on provider-order identity still hold after any linkage of a shipped row |
| ShipmentLinkage.Shipments.ApplyLinkage | scripts/enrich-shipstation-physical-shipment-ids.ts:942-1053 | the update commits, with its audit row, only if the row still holds every value decided on; otherwise nothing changes; the unique indexes hold and never refuse it |
| ShipmentLinkage.UnchangedExactly | scripts/enrich-shipstation-physical-shipment-ids.ts:955-971 | which columns others may change meanwhile without stopping the update |
| ShipmentLinkage.AppliedLinkage | scripts/enrich-shipstation-physical-shipment-ids.ts:942-971 | so what is written preserves identities, ends candidacy and is decided the same again, on the row as it is at the update |
| ShipmentLinkage.Shipments.ApplyExternalId | scripts/enrich-shipstation-physical-shipment-ids.ts:876-940 | an external id is written only over a blank one and only if no other shipment owns it, even if one takes it after the check; nothing else of the row changes, but a review for the missing id is closed |
| MigrationExecutor.Session.Query | migrations/migration-executor.ts:16-18 | one statement as client and server see it, with faults and lost replies |
| MigrationExecutor.NamesStayUnique | migrations/run-migrations.ts:77-84 | the server raises an error of its own only in an aborted transaction, or to keep tracked file names unique |
| MigrationExecutor.TransactionsAreAtomic | migrations/migration-executor.ts:101-151 | what the retry loop relies on: inside a transaction only a COMMIT changes what is committed, and to all that was written; an aborted one commits nothing |
| MigrationExecutor.RetryDelaysGrow | migrations/migration-executor.ts:159-166 | waits start at the base delay and double from one to the next until they reach the cap |
| MigrationExecutor.ExecuteMigrationWithRetry | migrations/migration-executor.ts:101-151 | success means SQL and tracking row together exactly once; any other result leaves the database alone unless a COMMIT's reply was lost, and then the file is applied exactly once; for whatever the server answers, an attempt is repeated exactly after an error with a retryable SQLSTATE while attempts are left |
| MigrationRunner.MigrationFilesOrdered | migrations/run-migrations.ts:54-57 | the files are the directory's SQL files in alphabetical order, by the first character in which two names differ |
| MigrationRunner.ListingRenames | migrations/run-migrations.ts:34-39 | in every listing no two files were renamed from one name, and no file's old name is the new name of another |
| MigrationRunner.HasPrefixCollision | migrations/run-migrations.ts:59-71 | the loop finds a collision exactly when two files share a numeric prefix |
| MigrationRunner.RenamedDoNotCollide | migrations/run-migrations.ts:34-39 | a renamed file and its old name have different prefixes, so the check lets them stand together |
| MigrationRunner.OneRunIsAPrefix | migrations/run-migrations.ts:90-145 | cut off anywhere, one run executes a prefix of what was pending, all of it when it gets through; no condition |
| MigrationRunner.RunMigrations | migrations/run-migrations.ts:45-157 | whatever fails, a run leaves the effect of some number of files and nothing else; a completed one that of all, with the right count; nothing but a failing statement or retry options out of order stops it |
| MigrationHistory.CollisionStops | migrations/run-migrations.ts:59-71 | no history over a directory with a prefix collision changes the database |
| MigrationHistory.RunIsAHistory | migrations/run-migrations.ts:45-157 | every result of a run - the effect of some number of files, of none when prefixes collide - is a history of one runner |
| MigrationHistory.CutOffIsAHistory | migrations/run-migrations.ts:90-145 | so is a run cut off at a write that was committed without its learning of it: it leaves what one file more would have |
| MigrationOnce.AtMostOnceExactly | migrations/run-migrations.ts:59-145 | no history of any number of runners, interrupted anywhere, from any table executes a migration twice, if and only if the prefix check refuses the directory or each file beside its renamed self with other content has an earlier twin |
| MigrationOnce.TrackedNeverRunsExactly | migrations/run-migrations.ts:59-145 | none executes a migration tracked at the outset, if and only if the prefix check refuses the directory or no file stands beside its renamed self with other content |
| MigrationOnce.RunsTwice | migrations/run-migrations.ts:90-145 | otherwise, for every such directory that passes the prefix check, a table from which three complete runs execute a file twice |
| MigrationOnce.OldAndNewNameRunTwice | migrations/run-migrations.ts:34-39 | the smallest such directory and table; with names from the table of renames it passes the prefix check |
| MigrationHistory.HistoryIsAPrefix | migrations/run-migrations.ts:59-145 | when no row of a file records the content of a different one and no file stands beside its renamed self: over every history what was executed is a prefix of what was pending at the outset and what is pending is the rest, if and only if the prefix check refuses the directory or no file with an unrecorded hash has a pending twin further on |
| MigrationHistory.RestartContinues | migrations/run-migrations.ts:85-111 | under that condition a run after an interrupted one takes up exactly where that one stopped, and the condition is kept |
| MigrationHistory.SecondRunIsQuiet | migrations/run-migrations.ts:103-111 | when no row of a file records the content of a different one and no file stands beside its renamed self, after a completed run another executes nothing |
| MigrationHistory.QuietExactly | migrations/run-migrations.ts:59-111 | from any table a run executes nothing if and only if the prefix check refuses the directory or each file is tracked by name or hash, renamed, or has the content of a file renamed before it |
| MigrationHistory.StaleHashReruns | migrations/run-migrations.ts:105-108 | a row that records the content of another file makes a second run execute that one |
| MigrationHistory.UnhashedTwinDropsOut | migrations/run-migrations.ts:104-111 | an unrecorded hash and a twin make a pending file drop out after an interruption |
| MigrationHistory.OldNameReruns | migrations/run-migrations.ts:34-39 | an old name still in the directory, which the prefix check lets through, makes a tracked migration run again |
| DuplicateRetirement.ChooseCanonical | scripts/cleanup-duplicate-wms-orders.ts:204-221 | the canonical row is a member that none beats on score and then id |
| DuplicateRetirement.PrecedesExactly | scripts/cleanup-duplicate-wms-orders.ts:204-221 | what one order is worth against another, and that the lower id decides between equals |
| DuplicateRetirement.EvidenceExactly | scripts/cleanup-duplicate-wms-orders.ts:196-202 | evidence of shipping is a shipped shipment or a tracking number on the order or a shipment |
| DuplicateRetirement.RetiresExactly | scripts/cleanup-duplicate-wms-orders.ts:240-303 | an order is retired if and only if the announced safety rules hold of it, and its decision lists every live ShipStation order |
| DuplicateRetirement.OtherActionsExactly | scripts/cleanup-duplicate-wms-orders.ts:240-303 | which rows are kept, left alone or wait for the flag for remote cancellation, and that a decision lists the live ShipStation orders, each once |
| DuplicateRetirement.CoverageExactly | scripts/cleanup-duplicate-wms-orders.ts:249-256 | when no item key holds an equals sign, the coverage rule is met if and only if both orders have the same quantities under every key, and a retired order meets it |
| DuplicateRetirement.UncoveredIsRetired | scripts/cleanup-duplicate-wms-orders.ts:372-380 | a key that holds the text of another item: an order of one item is retired in favour of one of two others |
| ItemCoverage.SignatureExactly | scripts/cleanup-duplicate-wms-orders.ts:372-380 | the aggregated text of such items is equal if and only if the quantities under every key are, and then the items are the same bag |
| DuplicateRetirement.RetiredFacts | scripts/cleanup-duplicate-wms-orders.ts:204-213 | retiring keeps evidence, quantities and coverage and never raises the score |
| DuplicateRetirement.RetiredExactly | scripts/cleanup-duplicate-wms-orders.ts:533-557 | retiring cancels the order, its active shipments and its unstarted items, and nothing else |
| DuplicateRetirement.BuildPlans | scripts/cleanup-duplicate-wms-orders.ts:427-445 | the loop over a map yields one plan for each OMS order id, each with its whole group |
| DuplicateRetirement.CanonicalIsKept | scripts/cleanup-duplicate-wms-orders.ts:240-243 | the canonical row is never among the retired |
| DuplicateRetirement.ReplanningAfterRetirement | scripts/cleanup-duplicate-wms-orders.ts:215-303 | after any part of a group's retirements the same row is canonical, retired rows are already retired, every other decision is as before |
| DuplicateRetirement.RetireSetShrinks | scripts/cleanup-duplicate-wms-orders.ts:427-445 | an interrupted run leaves exactly the rest of its work |
| DuplicateRetirement.RetirementReachesFixpoint | scripts/cleanup-duplicate-wms-orders.ts:570-607 | interrupted and resumed or not, the same table results, and nothing is left to retire on it |
| DuplicateRetirement.ConservedExactly | scripts/cleanup-duplicate-wms-orders.ts:533-545 | one retirement step conserves picked and fulfilled quantity over uncancelled orders if and only if no newly cancelled order has any |
| DuplicateRetirement.RunConserves | scripts/cleanup-duplicate-wms-orders.ts:258-274 | so a run that nobody writes beside conserves both, wherever it is cut off |
| DuplicateTrace.RunConservesExactly | scripts/cleanup-duplicate-wms-orders.ts:511-568 | whatever others write between the transactions, a run keeps both quantities, with what the others add, if and only if each committed job finds its order cancelled or without quantity at its BEGIN; it never adds any |
| DuplicateTrace.LosingRun | scripts/cleanup-duplicate-wms-orders.ts:258-274 | a plan and a pick made after it: the run commits and the pick is lost |
| DuplicateTrace.NothingLiveExactly | scripts/cleanup-duplicate-wms-orders.ts:223-233 | a retirement finds nothing live and no evidence of shipping beyond the plan if and only if the row others stored last names no new ShipStation order and has no evidence |
| DuplicateTrace.LiveOrderIsOrphaned | scripts/cleanup-duplicate-wms-orders.ts:502-530 | a ShipStation order attached after the plan: the run cancels nothing there and leaves no active shipment that points at it |
| DuplicateTrace.RetiredStaysRetired | scripts/cleanup-duplicate-wms-orders.ts:245-247 | a retired order that nobody wrote to since is not retired again, whatever has become of its group |
| DuplicateRun.Warehouse.CancelAll | scripts/cleanup-duplicate-wms-orders.ts:490-509 | success means every listed ShipStation order is cancelled; one that reads as shipped is never touched |
| DuplicateRun.Warehouse.RetireDuplicate | scripts/cleanup-duplicate-wms-orders.ts:502-568 | cut off at any call, either the database is as the other writers left it or the order is retired on top of that with its event, and only after its ShipStation orders are cancelled |
| DuplicateRun.Warehouse.ExecutePlans | scripts/cleanup-duplicate-wms-orders.ts:570-607 | what is done is a prefix of the planned retirements, the table is what others left with exactly those retired in their turns, and a run stops short only for want of calls or at a blocked job |
| DuplicateRun.SummaryBalances | scripts/cleanup-duplicate-wms-orders.ts:570-607 | the summary counts every planned row once, under its decision |
| DuplicateRun.CleanUp | scripts/cleanup-duplicate-wms-orders.ts:609-639 | fetch, plan and execute together retire part of the computable retirement set, each order once and by a planned job, all of it on success; a failed run has met a failing call or a planned job that is blocked |
| DuplicateRun.UntouchedGroupConverges | scripts/cleanup-duplicate-wms-orders.ts:570-607 | a group that nobody else writes to keeps its canonical row and exactly the retirements not yet done |
| DuplicateRun.PlannedRunConserves | scripts/cleanup-duplicate-wms-orders.ts:258-274 | a run loses no quantity when nobody else writes to the orders it retires |
| DuplicateRun.JobFindsNothingLiveExactly | scripts/cleanup-duplicate-wms-orders.ts:502-568 | whatever others do between the transactions, each job of a run finds nothing live beyond what it cancelled if and only if nobody attached a new ShipStation order since the fetch, and no evidence of shipping if and only if nobody added any |
| DuplicateRun.LimitCoversExactly | scripts/cleanup-duplicate-wms-orders.ts:325-341 | a run looks at duplicated keys only, and at all of them if and only if there are no more than the limit |
| DuplicateRun.LimitTakesOldest | scripts/cleanup-duplicate-wms-orders.ts:332-335 | a duplicated key is left out only if every key taken has an older first order, or no younger one and no higher least id |
| DuplicateRun.RerunsConverge | scripts/cleanup-duplicate-wms-orders.ts:325-341 | a later run completes an interrupted one, a further one changes nothing, and the limit selects the same groups for ever |
| DuplicateRun.PlannedTogetherExactly | scripts/cleanup-duplicate-wms-orders.ts:410-433 | two rows are planned as duplicates exactly when they share a key or neither key belongs to an OMS order |
| ObservationSwap.KeepExactly | scripts/cleanup-control-tower-observations.ts:54-70 | with both columns filled in, a changed row is thrown away exactly when it reports nothing besides the fingerprint |
| ObservationSwap.LostToNull | scripts/cleanup-control-tower-observations.ts:60-70 | with NULLs, exactly which rows are dropped although they are not noise |
| ObservationSwap.WritersGrow | scripts/cleanup-control-tower-observations.ts:186-194 | writers only append, and new rows were in flight or have new ids |
| ObservationSwap.AbortedIsNeverSeen | scripts/cleanup-control-tower-observations.ts:186-194 | and a row whose writer gives up never appears |
| ObservationSwap.NothingElseIsLost | scripts/cleanup-control-tower-observations.ts:186-223 | the new table and the stragglers together are the KEEP rows of the old one |
| ObservationSwap.ExactWithoutStragglers | scripts/cleanup-control-tower-observations.ts:186-223 | the new table is the KEEP rows of the old one, each once, if and only if no KEEP row of the surveyed range became visible after the copy |
| ObservationSwap.AlwaysExactIff | scripts/cleanup-control-tower-observations.ts:106-121 | for every schedule at once: if and only if no writer in flight at the survey holds a KEEP row with a surveyed id |
| ObservationSwap.SwapKeepsSound | scripts/cleanup-control-tower-observations.ts:224-233 | after the swap ids are unique and the next one exceeds every id of the old table |
| ObservationRebuild.Database.Swap | scripts/cleanup-control-tower-observations.ts:212-244 | the transaction commits the whole swap or leaves every table as it was |
| ObservationRebuild.Database.Rebuild | scripts/cleanup-control-tower-observations.ts:141-269 | nothing changes without --execute, or unless some rows and not all are kept, at most a quarter or by force; otherwise the run gets past its guards; before the commit only writers change the live table; success means swapped and the old table disposed of as asked; verification never fails |
| ObservationRebuild.RebuiltContents | scripts/cleanup-control-tower-observations.ts:186-223 | what the live table holds after a run under a given schedule |
| ObservationRebuild.RebuiltIsClean | scripts/cleanup-control-tower-observations.ts:162-168 | a second run right after finds nothing to discard |
| ObservationRebuild.RebuiltContinues | scripts/cleanup-control-tower-observations.ts:224-233 | later inserts keep ids unique and above all the old ones |
| CounterRepair.SelectedFacts | scripts/cleanup-oms-wms-authority-readiness.ts:430-482 | every selected line drifts as asked, none is selected twice, and without a limit none is left out |
| CounterRepair.ItemsAddUp | scripts/cleanup-oms-wms-authority-readiness.ts:444-451 | the quantity of a line is the sum over its uncancelled items, in whatever order |
| CounterRepair.EligibleExactly | scripts/cleanup-oms-wms-authority-readiness.ts:422-480 | which lines each direction and safety selects |
| CounterRepair.RefusedExactly | scripts/cleanup-oms-wms-authority-readiness.ts:157-177 | which combinations of flags are refused |
| CounterRepair.LimitTakesWorst | scripts/cleanup-oms-wms-authority-readiness.ts:475-478 | a limit takes as many lines as it allows, those that drift most first, the newer of two that drift alike |
| CounterRepair.LeftOutDriftsLess | scripts/cleanup-oms-wms-authority-readiness.ts:475-478 | no eligible line that is left out drifts more than one that is taken |
| CounterRepair.MatchesExactly | scripts/cleanup-oms-wms-authority-readiness.ts:812-839 | the bulk update hits every selected line if and only if the items still add up to what was read |
| CounterRepair.GuardedUpdateExactly | scripts/cleanup-oms-wms-authority-readiness.ts:812-839 | when the guarded update changes a line, and to what |
| CounterRepair.NeverReopens | scripts/cleanup-oms-wms-authority-readiness.ts:157-177 | no flags an execute run accepts let the remaining authority of any line grow, whatever others write in between |
| CounterRepair.RemainingIsLeast | scripts/cleanup-oms-wms-authority-readiness.ts:173-176 | the remaining authority is the least that, with what is recorded, covers the fulfillable quantity |
| CounterRepair.UnsafeDecreaseReopens | scripts/cleanup-oms-wms-authority-readiness.ts:166-177 | the combination that is rejected would let it grow |
| CounterRepair.AuditReplays | scripts/cleanup-oms-wms-authority-readiness.ts:785-799 | the after-rows laid over the table give the repaired one, and the before-rows laid over that give it back |
| CounterRepair.AuditIsExact | scripts/cleanup-oms-wms-authority-readiness.ts:615-670 | exactly one audit row for each line whose counter changed, none for any other |
| CounterRepair.SecondRunSelectsNothing | scripts/cleanup-oms-wms-authority-readiness.ts:430-482 | after an undisturbed run without a limit nothing is left to select |
| CounterRun.ChunkForAuditInsert | scripts/cleanup-oms-wms-authority-readiness.ts:672-685 | the batches join to the input; all are full but the last, none is empty; a size that is not positive is refused |
| CounterRun.Database.InsertAuditRows | scripts/cleanup-oms-wms-authority-readiness.ts:615-670 | across all batches one audit row for each candidate, in order |
| CounterRun.UpdateHits | scripts/cleanup-oms-wms-authority-readiness.ts:812-841 | a full row count means every selected line was repaired to the sum of its items; a short one means some sum changed |
| CounterRun.SumsFitExactly | scripts/cleanup-oms-wms-authority-readiness.ts:444-451 | when the sums fit the 32-bit integers they are cast to |
| CounterRun.ComputableExactly | scripts/cleanup-oms-wms-authority-readiness.ts:442-480 | and when, with the drifts, the candidate query succeeds at all |
| CounterRun.Database.RefreshMaterializedCounters | scripts/cleanup-oms-wms-authority-readiness.ts:762-912 | all or nothing: a commit repairs every selected line to the sum of its items and audits it; any mismatch or failure leaves both tables as others left them |
| OmsLinkBackfill.MatchExactly | scripts/backfill-wms-oms-link.ts:371-418 | when each verdict is given: a row is matched if and only if it has the form its path asks for, its lookup works, and exactly one OMS row has its Shopify id, or its order number in its channel |
| OmsLinkBackfill.CandidateExactly | scripts/backfill-wms-oms-link.ts:212-224 | which rows each path visits, none of them both |
| OmsLinkBackfill.BackfilledRow | scripts/backfill-wms-oms-link.ts:371-418 | a complete pass relinks a row exactly when it is a candidate with a unique OMS match |
| OmsLinkBackfill.BackfillIsIdempotent | scripts/backfill-wms-oms-link.ts:212-224 | a second pass changes nothing |
| OmsLinkBackfill.PathsCommute | scripts/backfill-wms-oms-link.ts:188-332 | the two paths do not disturb each other, in either order |
| OmsLinkRun.PageIsNext | scripts/backfill-wms-oms-link.ts:212-236 | each page is the next stretch of the original candidates, untouched, although the table changes under the query |
| OmsLinkRun.PlanHitsOnce | scripts/backfill-wms-oms-link.ts:424-441 | each guarded update hits exactly one row |
| OmsLinkRun.GuardHolds | scripts/backfill-wms-oms-link.ts:427-441 | a row that has changed since its lookup is not touched, and of one that has not only the link is |
| OmsLinkRun.Wms.ProcessBatch | scripts/backfill-wms-oms-link.ts:371-473 | a batch writes the links of all its matches or none, and counts every row |
| OmsLinkRun.Wms.RunPath | scripts/backfill-wms-oms-link.ts:201-254 | the run visits each initial candidate once, in id order, up to the limit, and leaves exactly what the batches of those wrote |
| OmsLinkRun.RelinkedExactly | scripts/backfill-wms-oms-link.ts:424-449 | a visited candidate is relinked if and only if it has a unique match and its batch was committed |
| OmsLinkRun.StatsBalance | scripts/backfill-wms-oms-link.ts:227-236 | scanned plus failed transactions equals matched + orphans + ambiguous + skipped + errors |
| OmsLinkRun.UpdatedIsExact | scripts/backfill-wms-oms-link.ts:432-449 | the updated count is never above the number of relinked rows, and equals it if and only if no batch with links was committed without an answer |
| OmsLinkRun.LostReplyUndercounts | scripts/backfill-wms-oms-link.ts:432-449 | a run in which that happens |
| OmsLinkRun.CompleteRunIsBackfill | scripts/backfill-wms-oms-link.ts:201-254 | when no transaction fails, the batched run equals the pure map; the batch size does not show |
| OmsLinkRun.LimitedRunProgress | scripts/backfill-wms-oms-link.ts:202-210 | a limited run changes the table if and only if one of the first candidates has a unique match; otherwise repeating it gets nowhere |
| ReplenSource.OverfillIsLeast | scripts/audit-replen-source-resolution.ts:354 | overfill is the least amount that makes up whole source units |
| ReplenSource.CaseBreakExactly | scripts/audit-replen-source-resolution.ts:155-159 | a source unit breaks into two or more whole pick units |
| ReplenSource.EligibleIsLexicographic | scripts/audit-replen-source-resolution.ts:348-362 | the per-variant sort inside the stable candidate sort leaves the order of one lexicographic key |
| Lexicographic.LexLeExactly | scripts/audit-replen-source-resolution.ts:356-362 | that is, the first key in which two candidates differ decides |
| ReplenSource.SelectedIsLeast | scripts/audit-replen-source-resolution.ts:348-376 | the selected source is a least valid candidate |
| ReplenSource.BestSlotIsSelected | scripts/audit-replen-source-resolution.ts:348-376 | the selected source is in the best kind of slot on offer - active primary, active, none, inactive - and among those brings least beyond the need |
| ReplenSource.RowOrderIrrelevant | scripts/audit-replen-source-resolution.ts:348-411 | in whatever order rows arrive, with or without repeated ones, the candidates have the same variant, location, rank, overfill and quantity one by one, so the same source is selected and the same reported |
| ReplenSource.ListIsFixedExactly | scripts/audit-replen-source-resolution.ts:348-362 | the very rows stand in the same places for every order of the input if and only if no two different candidates agree on all seven keys; then the list is the plain lexicographic sort |
| ReplenSource.DistinctPairsDoNotTie | scripts/audit-replen-source-resolution.ts:348-362 | none do when each variant and location comes once |
| ReplenSource.TiedRowsSwap | scripts/audit-replen-source-resolution.ts:490-514 | two product locations for one stock row change places, without changing the source |
| ReplenSource.ChosenRuleIsLeast | scripts/audit-replen-source-resolution.ts:177-189 | the rule applied is one for the very variant, of least priority, 5 if it has none, and then least id |
| ReplenSource.ChosenTierIsLeast | scripts/audit-replen-source-resolution.ts:191-202 | of the defaults for the slot's level the warehouse's own beats a global one; then the least id |
| ReplenSource.AuditSlot | scripts/audit-replen-source-resolution.ts:225-412 | an error is reported exactly when the slot cannot be replenished from any row; the source is the best of those that can; each of the eleven issues is reported exactly when there is reason to |
| ReplenSource.AuditCandidates | scripts/audit-replen-source-resolution.ts:348-411 | the source taken is the first of the sorted candidates, and its absence is the only error |
| OmsDedup.SamePairExactly | scripts/dedup-oms-orders-duplicate-external-order-number.ts:67-79 | duplicates are orders with the same channel and the same external number |
| OmsDedup.SelectedFacts | scripts/dedup-oms-orders-duplicate-external-order-number.ts:67-79 | groups are complete, distinct, and have their oldest row first |
| OmsDedup.SelectedInOrder | scripts/dedup-oms-orders-duplicate-external-order-number.ts:67-79 | groups are merged largest first, then by channel, those without one last, then by number |
| OmsDedup.LimitTakesLargest | scripts/dedup-oms-orders-duplicate-external-order-number.ts:67-79 | a limit leaves a duplicated pair out only if all it takes come before it in that order |
| OmsDedup.DuplicatesSelected | scripts/dedup-oms-orders-duplicate-external-order-number.ts:67-79 | with a limit that covers all groups every duplicated pair is worked on |
| OmsDedup.MergedChildren | scripts/dedup-oms-orders-duplicate-external-order-number.ts:112-130 | every line and event keeps its content and its channel and number, and points at an order that stays |
| OmsDedup.ContentsPreserved | scripts/dedup-oms-orders-duplicate-external-order-number.ts:112-130 | the bag of lines or events under each channel and number is unchanged |
| OmsDedup.KeptExactly | scripts/dedup-oms-orders-duplicate-external-order-number.ts:67-79 | whatever settles equal times, an order can be kept if and only if none of its pair was created before it, and always is if and only if all others were created after it |
| OmsDedup.LowestIsKeptExactly | scripts/dedup-oms-orders-duplicate-external-order-number.ts:8-9 | with ties settled by place in the table, the order kept is the one with the lowest id if and only if that is older than all others of its group |
| OmsDedup.OldestNotLowest | scripts/dedup-oms-orders-duplicate-external-order-number.ts:67-79 | two orders of which the one with the higher id is kept |
| OmsDedupRun.Oms.MergeGroup | scripts/dedup-oms-orders-duplicate-external-order-number.ts:108-148 | a group is merged as a whole or not at all; the counters move with the statements; a ROLLBACK that fails is not caught |
| OmsDedupRun.Oms.Dedup | scripts/dedup-oms-orders-duplicate-external-order-number.ts:95-167 | the tables after a run are the merges committed among the groups it got to, all of them unless a ROLLBACK fails; an execute run that reports safe leaves pairs unique if and only if the limit covers all groups |
| OmsDedupRun.NothingIsLost | scripts/dedup-oms-orders-duplicate-external-order-number.ts:95-150 | whatever fails, and wherever the run ends, foreign keys hold and contents under every pair are preserved |
| OmsDedupRun.FailedGroupUntouched | scripts/dedup-oms-orders-duplicate-external-order-number.ts:140-145 | a group whose transaction did not commit, or that was not reached, is left as it was |
| OmsDedupRun.PairsBecomeUnique | scripts/dedup-oms-orders-duplicate-external-order-number.ts:67-79 | when nothing fails and the limit covers all groups, each pair with a number is unique |
| OmsDedupRun.SafeExactly | scripts/dedup-oms-orders-duplicate-external-order-number.ts:154-167 | a run without errors leaves each pair unique if and only if the limit covers all groups |
| OmsDedupRun.DryRunExactly | scripts/dedup-oms-orders-duplicate-external-order-number.ts:99-105 | a dry run changes nothing, so pairs are unique after it if and only if there were no groups |
| OmsDedupRun.DeletedIsExact | scripts/dedup-oms-orders-duplicate-external-order-number.ts:127-132 | the deletion counter is exact if and only if no group fails at its COMMIT |
| OmsDedupRun.LinesAreExact | scripts/dedup-oms-orders-duplicate-external-order-number.ts:112-117 | the line counter is exact if and only if no group with lines to move fails after moving them |
| OmsDedupRun.EventsAreExact | scripts/dedup-oms-orders-duplicate-external-order-number.ts:119-124 | the event counter is exact if and only if no group with events to move fails after moving them |

## Left out

- HTTP, authentication, timers, wall clock, logging, `.env` loading and printing; a lookup returns a list, a rate-limit reply, a retryable or a permanent error.
- Command-line parsing, except the mode, direction and safety guards of the counter repair.
- The other three operations of the readiness cleanup (orphan references, non-positive shipment items, reopened lines): the same transaction with easier predicates.
- The size and index-name statements around the table swap; a failure there comes after everything modelled.
- JavaScript numbers beyond 2^53: counts and ids are integers, sorting times are milliseconds that parsed.
- EnrichmentPool.OutcomesArePrefix: the pauses between lookups are not separate steps; a worker that pauses does nothing else.
- ShipmentIdentity.PrintThenParse: ids of 10^21 and above, which JavaScript prints in exponent form, are not modelled.
- ShipmentMatch.DecisionIsStable: upper-casing of tracking numbers covers ASCII letters only.
- ShipmentLinkage.LinkageNeverReplaces: the 100-character limit counts characters, where JavaScript counts UTF-16 units.
- MigrationHistory.HistoryIsAPrefix: no exact condition for tables in which a file's row records the content of another file, or for directories with a file beside its renamed self; there it can take several restarts, cut off at particular files, for a hash to be lost.
- MigrationExecutor.ExecuteMigrationWithRetry: reading the retry options from the environment, and the text of notices and errors.
- DuplicateTrace.RunConservesExactly: others write between the transactions of a run, not between the statements of one.
- DuplicateRun.Warehouse.CancelAll: nobody else uses ShipStation during a run; an order shipped between the read and the cancelling write, or reopened after it, is not modelled.
- DuplicateRun.CleanUp: rows are fetched in table order rather than by OMS and WMS id, which does not affect the orders retired, and the filters by one order, which narrow a run, are not modelled.
- ObservationSwap.KeepExactly: `changed_fields` is a JSON object; arrays and scalars in that column are not modelled.
- CounterRepair.SelectedFacts: the count of rows skipped as unsafe, which only informs the operator.
- OmsLinkRun.Wms.RunPath: no other writers between a page and its update; the no-op branch for a row that changed is never taken.
- ReplenSource.AuditSlot: texts and details of the issues, and the maps by product and by variant, which are read as filters over the row lists.
- OmsDedup.SelectedFacts: rows created at the same instant come in table order, which SQL leaves open; only `LowestIsKeptExactly` depends on it, and `KeptExactly` does without. The text collation of the group order is by code unit; it decides only which groups a limit leaves out.

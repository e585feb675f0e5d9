# Advisor Backend: a verified model

A Dafny model of the logic of the Advisor Backend that decides what is stored, announced,
delivered and shown, with proofs of what that logic promises. The tables are finite maps over
natural keys; what the service computes with loops or changes in place is written with loops and
mutable classes, and each such method is proved against a specification function whose meaning is
then proved separately.

The project has five parts.

1. **Upload reconciliation** (`Tables`, `Reconcile`, `Hooks`, `UploadService`, `UploadRuns`,
   `UploadMeaning`, `Slices`, `Interleaving`, `Undisturbed`, `InventoryDelete`, `DeletionRace`). One
   upload turns into inserts, updates and deletes on the report table under a host row lock.
   `Reconcile` states this twice, as the statements in the order the handler issues them and as one
   row-by-row description, and proves the two equal. `UploadService` is the handler over mutable
   tables. `Interleaving` runs any number of handlers statement by statement at read-committed
   isolation, with uncommitted writes kept apart from the tables, and proves that the committed
   tables are those of a serial execution; `Undisturbed` proves that a handler left alone gets
   through. `UploadRuns` has the laws over whole runs. `InventoryDelete` has the staged deletions
   with their retries and the cascade from uploads to reports, and `DeletionRace` runs them beside
   the upload handlers.
2. **Kafka dispatch and bounded execution** (`KafkaDispatch`, `KafkaDelivery`, `KafkaMeaning`,
   `KafkaService`, `Executor`). What a batch delivers to each handler, what the committed offsets
   stand for over runs with failures and restarts, the dispatcher object itself, and the semaphore
   protocol of the executor.
3. **Query construction** (`Strings`, `Digits`, `Params`, `QueryLang`, `HostFilters`,
   `FilterMeaning`, `ReportsQuery`, `HostMeaning`, `Permissions`). Conditions are data with an
   evaluator in which an empty condition adds no clause. The filters commute with relation prefixes,
   the two forms of the report sub-query agree, the system list agrees with the report counts, and
   role lists translate to the visible hosts.
4. **Content import** (`ContentRules`, `ContentImport`, `ContentMeaning`, `ContentReimport`,
   `ContentModels`). Synchronising rules, tags, automatic acknowledgements, resolutions, playbooks
   and named models in place, with the exact conditions under which importing the same content again
   counts, and changes, nothing.
5. **Aggregation and paging** (`Pathways`, `PathwayMeaning`, `Paging`). Host sets per pathway, their
   packing into one expression per field, and the token paging loops. (`Collections` has two facts
   about finite collections that several parts use.)

The functions that say what the code computes follow the code. What they come to is said once more in
`UploadMeaning`, `KafkaMeaning`, `FilterMeaning`, `HostMeaning`, `ContentMeaning` and `PathwayMeaning`,
of the requests, rows, messages and entries alone.

`dafny verify dfyconfig.toml` checks the whole project.

## Where the code does not do what is said of it

The model follows the code. The named members give the exact condition for each of these, and an input
or a statement about every input of the kind.

- A non-RHEL marker in an upload replaces the reported ids by the whole settings list. A row whose
  rule is in that list but was not reported stays stored and is announced as resolved all the same
  (`Hooks.ResolvedEventsAreLosses`, with the input `Hooks.LingeringRowIsAnnouncedResolved`).
- The events of an upload are sent before its transaction commits. One that is then rolled back has
  announced what did not happen, and the next upload announces it again
  (`UploadRuns.EventsAlternate`: the events about a row alternate exactly when no such event is
  followed by another; with the inputs of
  `UploadRuns.RolledBackEventIsRepeated`, one of them `UploadRuns.FirstReportCreatesRow`).
- The report counts and the system list treat a requested branch differently when the advisor's
  host row has another org than the report: the one reaches the host by id, the other by id and org
  (`ReportsQuery.DisagreementExactly`, with the input `ReportsQuery.CountedButNotListed`).
- With exactly one impacted pathway, packing the first field empties the aggregates, so every later
  field shows its default (`Pathways.PathwayAggregates.Annotate`,
  `Pathways.SinglePathwayLosesFields`).
- When pathways without impact are listed too (api/advisor/api/views/pathways.py:186), they can show
  the value that all impacted ones share (`Pathways.LeakExactly`, with the input
  `Pathways.ThirdPathwayShowsOne`); with one impacted pathway they show its impacted count
  (`Pathways.SingleLeaksFirst`).
- Importing the same content again is not always idle: a rule created from an empty summary and a
  generic text by its only entry is updated by the next import, entries of one rule that disagree
  overwrite each other, and an empty rule id is added and deleted every time
  (`ContentReimport.ReimportCountsExactly`, `ContentReimport.ReimportIdleExactly`, with the input
  `ContentReimport.EmptySummaryIsUpdatedLater`; `ContentReimport.LastEntryWins` says what disagreeing
  entries end in).
- In `filter[system_profile][...]`, under `eq`, `ne` and the four number comparisons, a boolean word,
  a text with a digit that is not decimal and a number of more than 4300 digits raise an exception of
  the builder's own instead of a validation error, and so does a parameter with no field name
  (`HostFilters.CrashExactly`, with the inputs `HostFilters.TrueUnderEqFails` and
  `HostFilters.SuperscriptUnderEqFails`).
- The role scan raises on a role whose permission is not text, or with a malformed group filter,
  unless an open role stands before it, so the order of roles can matter
  (`Permissions.OutcomeExactly`, `Permissions.OrderMattersExactly`, with the input
  `Permissions.MalformedRoleMakesOrderMatter`).
- A partition without a committed offset restarts where the reset policy puts it. The shared settings
  say the end of the log (api/advisor/project_settings/settings.py:521-526) and the batch command
  keeps that, so a first batch that fails on a fresh partition is not delivered again
  (`KafkaDelivery.NothingPassedOver`, `KafkaDelivery.SafeExactly`, with the input
  `KafkaDelivery.LatestLosesMessage`).

## Assumptions

- A row lock is exclusive until its transaction ends; a rolled-back transaction leaves no trace; a
  statement sees committed rows and its own transaction's writes.
- A consumer's committed offsets move only through the dispatcher's store and commit calls. The
  shared settings turn automatic commits on (api/advisor/project_settings/settings.py:521-526); the
  batch command turns them off (api/advisor/api/management/commands/advisor_inventory_service.py:462-466).
  Neither sets where a consumer starts on a partition with a committed offset: it starts there.
- Shares of systems are exact fractions, not floating-point numbers.
- Characters are digits after Unicode 15.0, and a number has at most 4300 digits, as in Python 3.12
  (Pipfile:7).

## Model

| member | source | states |
|---|---|---|
| Reconcile.StatementsMeetDescription | service/service.py:374-479 | The statements on the report table, in the order they are issued, raise exactly when an entry has no rule id, an accepted entry has no details, or a rule without a row is reported twice; otherwise they leave the table of the row-by-row description |
| Reconcile.PlanShape | service/service.py:417-454 | The loop over an upload breaks exactly on an accepted entry without details, and otherwise matches exactly the known rules that are reported and in the effective list |
| Reconcile.InsertMeets | service/service.py:459 | The bulk insert violates the (org, rule, host) key exactly when a rule without a row is reported twice, and otherwise adds one row for each new matched rule with the last reported details |
| Reconcile.UpdateMeets | service/service.py:461-471 | The update loop rewrites exactly the rows whose account equals the upload's, with the last reported details and the kept or filled date |
| UploadService.AdvisorDb.constructor | api/advisor/api/models.py:538-562 | Empty report, upload and host tables |
| UploadService.AdvisorDb.CreateDbReports | service/service.py:221-534 | Fails exactly on an outside fault, an upload key conflict or a rejected list, and is lost after its events were sent exactly on a later fault; either way reports and uploads are unchanged; a success leaves the described tables and announces the described new and resolved rules |
| UploadService.AdvisorDb.Transaction | service/service.py:330-530 | The transaction block: when it raises before and when after its events, the tables it ends with, and the events it has sent |
| UploadService.AdvisorDb.PlanReports | service/service.py:417-454 | The accumulating loop computes the plan |
| UploadService.AdvisorDb.BulkCreate | service/service.py:459 | Row-by-row insertion that stops at the first repeated key |
| UploadService.AdvisorDb.UpdateExisting | service/service.py:461-471 | One update statement per known report, matching also on the account |
| UploadService.TriggerReportHooks | service/reports.py:155-168 | The new list keeps report order; the resolved list holds each resolved rule once |
| Hooks.NewEventsAreGains | service/reports.py:158-162 | After a successful upload the new events are exactly the active, unacknowledged rules whose row it created, once each |
| Hooks.ResolvedAtRule | service/reports.py:164-168 | A rule is announced as resolved exactly when it is active, unacknowledged, and lost its row or keeps it unreported |
| Hooks.ResolvedEventsAreLosses | service/reports.py:164-168 | The resolved events are exactly the active, unacknowledged deleted rows if and only if no such row lingers unreported in the effective list |
| Hooks.LingeringRowIsAnnouncedResolved | service/service.py:378-381 | An upload with a non-RHEL marker that announces a rule as resolved while its row stays |
| Hooks.PostKeyAtRule | service/service.py:473-479 | A rule has a row afterwards exactly when it was matched, or had one and is in the effective list |
| UploadRuns.ExactPostState | service/service.py:377-479 | The rules with a row for the host and org are the known rules reported and effective plus the old ones that are effective; without a non-RHEL marker exactly the effective known rules; no other host's or org's row changes |
| UploadRuns.ExactRow | service/service.py:432-471 | What a successful upload leaves in each row it keeps or creates: untouched if unmatched or under another account, else its own account, upload, the details of the last entry for the rule, and the old date if there was one |
| UploadRuns.ImpactedDateIsBirth | service/service.py:423-428 | Over every run of uploads, failed uploads and removals, a row's impacted date is the time of the upload that created it in its present unbroken presence |
| UploadRuns.NullDateFilledByNextMatch | service/service.py:423-428 | A row stored without a date keeps none until an upload under its own account matches it |
| UploadRuns.HookPerChange | service/reports.py:155-168 | A marker-free upload sends one event about a row exactly when a row of an active, unacknowledged rule appears or disappears, and none otherwise |
| UploadRuns.EventsAlternate | service/reports.py:155-168 | Over every run of marker-free uploads with fixed rules and acknowledgements, with failures before and after the events are sent, each event about a row differs from the one before exactly when that one's upload committed; they strictly alternate if and only if all but the last do |
| UploadRuns.RolledBackEventIsRepeated | service/service.py:484-534 | An upload that creates a row but is rolled back after its events, and its repetition, announce the same rule as new twice |
| UploadRuns.FirstReportCreatesRow | service/service.py:417-459 | An upload whose one report names a known active rule creates its row |
| UploadMeaning.KeptExactly | service/service.py:374-479 | After a successful upload a row of its host and org is there exactly when its rule is a base id, and one of the RHEL6 ids if that filter is on and any base id is; and is either reported and known, or stored before. The base ids are the whole non-RHEL list when that filter is on and one of its ids is reported, and the reported ids otherwise |
| UploadMeaning.RejectedExactly | service/service.py:375-459 | The reported list is rejected exactly when an entry has no rule id, an entry kept by both filters whose rule is known has no details, or two such entries are for one rule that has no row |
| UploadMeaning.RowExactly | service/service.py:417-471 | A row stored before is rewritten exactly when its rule is kept by the filters, known and reported and its account is the upload's, with the details of the last entry; it keeps its account and its date, if it has one; a new row has the date of the upload |
| UploadMeaning.UnreportedRow | service/service.py:472-479 | A row whose rule is not reported stays as it was or goes; one of another host or org stays |
| UploadMeaning.UploadExactly | service/service.py:355-366 | The upload row has the request's own values; a stored one keeps its current flag and a new one is current; no other upload changes |
| UploadMeaning.ConflictExactly | api/advisor/api/models.py:1409-1415 | The upload row conflicts exactly when there is none yet and another org has a current one for the host and source |
| UploadMeaning.NewExactly | service/reports.py:155-162 | A rule is announced as new, and then once, exactly when it is known, active and not acknowledged, and its row was not there and now is |
| UploadMeaning.ResolvedExactly | service/reports.py:164-168 | A rule is announced as resolved exactly when it is known, active and not acknowledged, its row was there, and it is not both reported and kept by the filters |
| UploadMeaning.EventExactly | service/service.py:330-479 | In a run, an upload that is rejected or rolled back changes no row, any other leaves the rows said above, and a removal takes away the rows it names |
| UploadMeaning.Rhel6KeepsOne | service/service.py:383-388 | With the RHEL6 filter on "el6", an upload that reports "el6" and "x" leaves a row for the first alone |
| Slices.DifferentHostsCommute | service/service.py:330-479 | Uploads of different hosts commute |
| Slices.SerialOrdersAgree | service/service.py:330-479 | Two serial orders that list each host's uploads in the same order leave the same tables |
| Interleaving.CommitApplies | service/service.py:330-479 | When a handler commits, its accumulated writes do to the tables of that moment exactly what the whole upload does in one step |
| Interleaving.StepKeepsInv | service/service.py:330-534 | Every statement, commit and exception of every handler keeps the invariant that ties each open transaction's writes to the committed rows of its host |
| Interleaving.Serializable | service/service.py:330-534 | For every interleaving of any number of uploads with any failures, the committed tables are those of the committed uploads run serially, in commit order and equally in the order of taking the host lock; the others leave no trace |
| Interleaving.OneHandlerPerHost | service/service.py:330-333 | Two handlers are never inside their transactions for the same host |
| Undisturbed.LeftAloneEnds | service/service.py:324-534 | From any moment of any run, a waiting handler whose host is not locked ends by its own statements alone: rolled back without a trace exactly when its upload conflicts or its reports are rejected, and otherwise committed with the tables of the upload in one step |
| Undisturbed.ExceptionEnds | service/service.py:330-534 | An exception at any moment of a handler that has not ended leaves nothing it wrote, gives up its own lock and no other, and touches no other handler |
| InventoryDelete.InventoryTables.constructor | api/advisor/api/models.py:538-562 | Tables with given contents |
| InventoryDelete.InventoryTables.Execute | service/service.py:686-758 | The three deletion statements, with the cascade from uploads to reports |
| InventoryDelete.InventoryTables.RunStage | service/service.py:681-701 | A stage succeeds exactly when some attempt within the retry limit does after database errors only; it never makes more attempts; an attempt that took effect before its error does no harm |
| InventoryDelete.InventoryTables.HandleInventoryEvent | service/service.py:628-758 | Which events are rejected, ignored or carried out; success leaves exactly the deleted state; a failed stage leaves the stages before it done and nothing after it, so redelivery still ends in the deleted state |
| InventoryDelete.DeletedAbsorbs | service/service.py:681-754 | Having done any stage beforehand does not change where the whole deletion ends |
| InventoryDelete.DeletedExactly | service/service.py:686-735 | All reports, current uploads and host acks of exactly that host and org are gone; every other upload and host ack is untouched |
| InventoryDelete.OthersSurviveExactly | api/advisor/api/models.py:558 | The reports of other hosts survive if and only if none of them is linked to a current upload of the deleted host and org |
| InventoryDelete.UploadKeepsLinks | service/service.py:356-366 | An upload keeps every report linked to a stored upload of its own host and org |
| InventoryDelete.DeletionsStayLocal | service/service.py:674-758 | From tables in which every report is linked to an upload of its own host and org, whatever uploads and half-done deletions have happened, a deletion touches no other host's or org's reports |
| InventoryDelete.RunDeletes | service/service.py:674-758 | In a run the three statements one after the other are the whole deletion, and an upload is its own change of the two tables |
| InventoryDelete.ForeignLinkIsLost | api/advisor/api/models.py:558 | Without that invariant the cascade does reach another host's report |
| DeletionRace.LinksStayOwn | service/service.py:330-758 | However the statements of uploads and deletions interleave, with deletions waiting only for upload rows an open transaction has written, the committed tables keep every report linked to an upload of its own host and org, so a deletion statement at any moment touches no other host's or org's reports |
| DeletionRace.NextKeepsLinks | service/service.py:330-758 | Every upload statement, commit, exception and deletion statement keeps the invariant behind it |
| DeletionRace.DeleteExactly | service/service.py:686-758 | A deletion statement on uploads waits exactly while an open transaction holds a current upload row of the host and org; otherwise each statement takes away exactly its own rows, and the reports linked to deleted uploads, and every transaction goes on as it was |
| DeletionRace.HandlersAlone | service/service.py:330-534 | Without deletions the handlers run as they do among themselves |
| DeletionRace.DeletionAlone | service/service.py:674-758 | While no open transaction holds an upload row, the three statements delete what one deletion does |
| KafkaDispatch.BatchDelivers | api/advisor/kafka_utils.py:415-453 | A batch hands each topic's handler exactly that topic's prepared bodies in arrival order |
| KafkaDispatch.AnySplitDelivers | api/advisor/kafka_utils.py:415-453 | However a stream is cut into batches, each handler sees exactly its topic's prepared bodies in order, none lost or repeated |
| KafkaDispatch.SingleDelivers | api/advisor/kafka_utils.py:382-413 | Single-message mode delivers the prepared bodies to handlers that take single messages and nothing to batch handlers |
| KafkaDispatch.BatchesMatchSingles | api/advisor/kafka_utils.py:382-453 | For handlers that take single messages, every split into batches delivers what single-message mode delivers |
| KafkaDispatch.BatchHandlerCalledOnce | api/advisor/kafka_utils.py:432-440 | A batch handler is called at most once for each batch, with all of its topic's bodies |
| KafkaDispatch.TopicOrderExact | api/advisor/kafka_utils.py:422-430 | A topic is grouped exactly when it has a prepared body, and is then registered |
| KafkaMeaning.PrepareExactly | api/advisor/kafka_utils.py:338-380 | A message is ready exactly when it is a record of a registered topic, carries its body as JSON under readable headers, and for every filter of the handler the last text header with the filter's key has its value; it breaks the dispatcher exactly when its topic is registered and a header cannot be decoded; otherwise it is skipped |
| KafkaMeaning.HeaderDictExactly | api/advisor/kafka_utils.py:361-367 | The header dictionary gives a key the text of the last header of that key that has one |
| KafkaMeaning.BreaksExactly | api/advisor/kafka_utils.py:415-430 | A batch breaks the dispatcher exactly when some message of a registered topic has a header that cannot be decoded |
| KafkaMeaning.DeliveredExactly | api/advisor/kafka_utils.py:382-453 | However a stream is cut into batches, a handler gets exactly the bodies that reach it, read from the front of the stream; in single-message mode a handler that wants batches gets none |
| KafkaMeaning.DeliveredMembers | api/advisor/kafka_utils.py:382-453 | A body is delivered, from a batch or in single-message mode, exactly when some record brings it to its topic's handler |
| KafkaMeaning.CallsFit | api/advisor/kafka_utils.py:392-438 | A topic whose handler wants batches is called with lists, any other with single bodies |
| KafkaMeaning.OrderOfArrival | api/advisor/kafka_utils.py:422-434 | The handlers of a batch are called in the order in which their topics first arrive |
| KafkaMeaning.FilteredOut | api/advisor/kafka_utils.py:363-375 | A message for another service is not delivered to a handler that filters on its service |
| KafkaDelivery.AtLeastOnce | api/advisor/kafka_utils.py:415-483 | On every run with failed batches, stores and commits and with restarts none of which resets past the message, a message below the committed offset was skipped by preparation or handed to its handler in a batch in which every handler returned |
| KafkaDelivery.NothingPassedOver | api/advisor/kafka_utils.py:461-483 | A running consumer is never past a message it has not accounted for, if and only if no restart finds the partition without a committed offset and resets it past the message |
| KafkaDelivery.SafeExactly | api/advisor/project_settings/settings.py:521-526 | A message is safe from resets on every run if and only if its partition has a committed offset at the start or the policy never resets past it |
| KafkaDelivery.LatestLosesMessage | api/advisor/project_settings/settings.py:521-526 | A run on a fresh partition under the policy latest whose committed offset ends past a message no handler was given successfully |
| KafkaDelivery.FailedBatchAdvancesNothing | api/advisor/kafka_utils.py:470-483 | A batch advances offsets only if it succeeds; a failed one stops the consumer; committed offsets never move back |
| KafkaDelivery.FetchCovers | api/advisor/kafka_utils.py:461-467 | Every message between the positions before and after a fetch is in the fetched batch |
| KafkaMeaning.ReachingIsDelivered | api/advisor/kafka_utils.py:415-483 | On such a run a message below the committed offset was delivered in a good batch if it reaches its handler, and is none that breaks the dispatcher |
| KafkaMeaning.AdvanceExactly | api/advisor/kafka_utils.py:455-459 | Storing moves each partition just past its last record and leaves the others |
| KafkaMeaning.TurnExactly | api/advisor/kafka_utils.py:461-483 | One turn with messages: what moves and whether the loop goes on when a message breaks the dispatcher or a handler throws, when storing raises, and when the commit does or does not reach the broker |
| KafkaMeaning.RestartExactly | api/advisor/kafka_utils.py:312-322 | A restart forgets what was stored and not committed: it goes on from the committed offset of each partition that has one, and from the reset position of the others |
| KafkaService.KafkaDispatcher.constructor | api/advisor/kafka_utils.py:312-322 | A dispatcher with no handlers, running from given offsets |
| KafkaService.KafkaDispatcher.RegisterHandler | api/advisor/kafka_utils.py:324-336 | The first handler of a topic stays |
| KafkaService.KafkaDispatcher.Group | api/advisor/kafka_utils.py:422-430 | The grouping loop gives each topic its prepared bodies, in order of first arrival; an undecodable header escapes |
| KafkaService.KafkaDispatcher.CallHandlers | api/advisor/kafka_utils.py:432-453 | Every call of the batch is made even after one throws, and success means that none threw |
| KafkaService.KafkaDispatcher.HandleBatchMessages | api/advisor/kafka_utils.py:415-453 | The calls, the success and the quit flag of one batch; nothing is called when preparation escapes |
| KafkaService.KafkaDispatcher.StoreOffsets | api/advisor/kafka_utils.py:455-459 | Stores the offset past each record, skipping errors, up to the message at which storing raises |
| KafkaService.KafkaDispatcher.ReceiveOne | api/advisor/kafka_utils.py:462-483 | One turn of the loop does to offsets, calls and the quit flag what the delivery protocol says |
| KafkaService.KafkaDispatcher.ReceiveBatch | api/advisor/kafka_utils.py:461-483 | The receive loop follows the delivery protocol turn by turn, with its calls, and ends at a failed or escaping batch |
| KafkaService.KafkaDispatcher.ReceiveSingle | api/advisor/kafka_utils.py:485-487 | The single-message loop makes the single-mode calls and goes on after a throwing handler; it ends exactly at a handler that quits or a message that escapes |
| KafkaService.CallsAreOfHandled | api/advisor/kafka_utils.py:461-483 | The calls a receive loop makes are those of the handled batches and no others |
| KafkaService.GoodAreHandled | api/advisor/kafka_utils.py:470-483 | From any such start, the batches whose offsets are stored are the handled ones, except a last one in which a handler threw |
| KafkaService.PlayIsRun | api/advisor/kafka_utils.py:461-483 | A receive loop is a run of the delivery protocol, so its guarantees hold of the dispatcher |
| Executor.PermitsConserved | service/bounded_executor.py:28-42 | Under every interleaving of submits, refusals, completions and callbacks: free plus held permits equal bound plus workers, unfinished accepted tasks never exceed that, the semaphore is never over-released, and each submission releases exactly once, when it is over |
| Executor.RaceReleasesOnce | service/bounded_executor.py:33-42 | A task that finishes before its callback is attached ends in the same state as one that finishes after, with one release |
| Executor.OverflowExactly | service/bounded_executor.py:28-42 | Giving back a permit while all are free is an over-release of the semaphore, and nothing else is |
| Executor.RunsExactly | service/bounded_executor.py:33-42 | Accepting starts a task and finishing ends it, and no other step does either |
| Executor.BoundedExecutor.constructor | service/bounded_executor.py:28-30 | All bound plus workers permits are free |
| Executor.BoundedExecutor.Act | service/bounded_executor.py:33-42 | Each enabled action does what the protocol says and keeps its invariant |
| Executor.BoundedExecutor.Submit | service/bounded_executor.py:33-42 | Submit waits without a permit, gives the permit back and raises on refusal, and otherwise returns with the permit held, or already given back if the task has finished |
| Executor.BoundedExecutor.Complete | service/bounded_executor.py:41-42 | A finishing task gives its permit back |
| Strings.SplitJoin | api/advisor/api/filters.py:76-79 | Splitting undoes joining for parts without the separator |
| Strings.JoinSplit | api/advisor/api/filters.py:76-79 | Joining undoes splitting for any text, and no part holds the separator |
| Params.RegroupingKeepsValue | api/advisor/api/filters.py:46-91 | However the same separator-free values are divided between repeated and joined occurrences, a many-valued parameter is the validated list of those values in order, or is rejected alike |
| Params.SameTextSameValue | api/advisor/api/filters.py:184-194 | Two requests whose occurrences join to the same text give the parameter the same value |
| Params.OccurrencesJoin | api/advisor/api/filters.py:190-194 | Repeating a parameter is the same as joining its occurrences with the separator |
| Params.ValidateAllExact | api/advisor/api/filters.py:86-91 | A list is accepted exactly when each value is, and then holds their converted values in order |
| Params.OneValueExactly | api/advisor/api/filters.py:93-162 | A boolean is true exactly for true, 1 and yes in letters of either case; another value is accepted exactly when it is read and is among the allowed ones, if any are named |
| Params.SeparatorExactly | api/advisor/api/filters.py:58-73 | The separators of the six styles, each known in one location only |
| Params.ValueExactly | api/advisor/api/filters.py:165-194 | A missing parameter is rejected exactly when required, absent without a default, and otherwise read as if its default had been given; a parameter for one value takes one occurrence, and is a coding error with a style, as is one for many values without a known style |
| Params.FilterMeansAnyValue | api/advisor/api/filters.py:219-242 | A supplied and accepted many-valued parameter filters to the rows that match at least one of its values |
| Params.FilterMeansValue | api/advisor/api/filters.py:219-242 | A filter on one value passes the rows that match it, and on an absent parameter all rows |
| QueryLang.AndMeansBoth | api/advisor/api/models.py:406-421 | A conjunction passes exactly the rows both operands pass, also when an operand is empty |
| QueryLang.OrMeansEither | api/advisor/api/models.py:197-218 | A disjunction of conditions that add clauses passes the rows either passes |
| QueryLang.ThroughInventory | api/advisor/api/models.py:549-554 | A condition reached through the inventory relation tests the inventory row with the report's org and host |
| QueryLang.WithoutRow | api/advisor/api/models.py:549-554 | Without an inventory row only a test for null holds of a report's inventory fields |
| HostFilters.AddValues | api/advisor/api/filters.py:404-437 | The loop over a parameter's values conjoins their conditions and stops at the first rejected or failing one |
| HostFilters.FilterMultiParam | api/advisor/api/filters.py:263-439 | The loop over bracketed parameters builds the condition, the rejection or the failure that the next two rows describe |
| HostFilters.MultiParamMeans | api/advisor/api/filters.py:263-439 | Accepted bracketed filters pass exactly the rows that meet every parameter: the list lookup, or each value under its operator, negated under ne |
| FilterMeaning.WordsExactly | api/advisor/api/filters.py:246-260 | The words of a bracketed filter name the field as they stand, but for the workload fields and the parts of the operating system, which have moved |
| FilterMeaning.ConvertExactly | api/advisor/api/filters.py:404-431 | What a value stands for: a number under a number comparison, a number for digits and else the text under eq and ne, a flag under nil and not_nil, and otherwise a boolean word or the text |
| FilterMeaning.FiltersExactly | api/advisor/api/filters.py:353-437 | Accepted filters pass exactly the rows of which, for every parameter, the listed values under in, or else every value by its operator, holds: equal or not equal, workloads inside their object, null or not, and the translated comparisons |
| FilterMeaning.ListExactly | api/advisor/api/filters.py:342-347 | The list under in holds the comma-separated values of all its texts, in order |
| HostFilters.CrashExactly | api/advisor/api/filters.py:353-437 | The builder fails exactly when some parameter names no field, or meets a boolean word or digits that are no number under a comparison before any rejected value, and no parameter before it is rejected; it rejects in exactly the mirror case |
| HostFilters.TrueUnderEqFails | api/advisor/api/filters.py:410-421 | An input on which the builder fails |
| HostFilters.SuperscriptUnderEqFails | api/advisor/api/filters.py:419-421 | Another, without any boolean word |
| Digits.ForeignDigits | api/advisor/api/filters.py:412-421 | A superscript is a digit but no number; an Arabic-Indic three is the number three |
| Digits.ReadsWhatIsWritten | api/advisor/api/filters.py:411-422 | Reading a number written in decimal gives it back |
| HostFilters.FilterHostGroups | api/advisor/api/models.py:197-218 | The two accumulating loops over group names and granted groups |
| HostFilters.FilterOnWorkload | api/advisor/api/filters.py:821-841 | The accumulating loop builds the workload condition that the next row describes |
| HostFilters.WorkloadMeans | api/advisor/api/filters.py:821-841 | The workload filter passes the rows with at least one of the workloads, and all rows when none is asked for |
| HostFilters.UpdateMethodMeans | api/advisor/api/filters.py:844-859 | The update method filter passes the rows updated by one of the methods asked for, and all rows when none, both or neither known one is |
| HostFilters.MultiParamThrough | api/advisor/api/filters.py:399-401 | The bracketed filters with a relation prefix are the same conditions on the related row, rejected or failing in the same cases |
| HostFilters.WorkloadThrough | api/advisor/api/filters.py:821-841 | The workload filter commutes with the relation prefix |
| HostFilters.GroupsThrough | api/advisor/api/models.py:197-218 | The host group filter commutes with the relation prefix |
| ReportsQuery.TagsMean | api/advisor/api/filters.py:723-759 | In an org the tag filter passes exactly the hosts whose inventory row there has every tag asked for |
| ReportsQuery.FormsAgreeExactly | api/advisor/api/models.py:354-430 | The join form and the sub-query form agree on a report if and only if its rule exists, rules are not excluded, the rule is acknowledged, or the report fails something else |
| ReportsQuery.FormsAgree | api/advisor/api/models.py:345-349 | Over intact rule keys the two forms select the same reports under all settings of the flags |
| ReportsQuery.SystemListMatchesReports | api/advisor/api/models.py:365-423 | For one clock value, a report whose host shares its org passes the host part of the report sub-query if and only if its inventory row is in the system list, for every combination of parameters; malformed filters fail both alike |
| ReportsQuery.HostPartIffListed | api/advisor/api/models.py:594-633 | The system list's row is the report's host part plus the org of the host row when a branch is asked for |
| ReportsQuery.DisagreementExactly | api/advisor/api/filters.py:619-631 | List and counts disagree about a report exactly when a branch is asked for, the host row has that branch but another org, and the report passes everything else |
| ReportsQuery.CountedButNotListed | api/advisor/api/filters.py:619-631 | A database, request and report that is counted while its system is not listed |
| HostMeaning.ListedExactly | api/advisor/api/models.py:594-633 | The system list shows a row exactly when it is of the org, is of the system type, owned by the certificate's owner if there is one, updated, working, grouped, named and tagged as asked, passes the bracketed filters, is fresh, and its host is known and has the branch asked for under the same org |
| HostMeaning.SelectsExactly | api/advisor/api/models.py:354-430 | The report sub-query selects a report exactly when it is of the org and not acknowledged on its host; when rules are excluded, its rule is not acknowledged, not inactive, and exists if joined; and when hosts are excluded, its host is selected by the columns of its inventory row and the branch |
| HostMeaning.HostPartExactly | api/advisor/api/models.py:365-423 | The host part in the columns of the report's inventory row of the org, with the branch of the advisor's host row |
| HostMeaning.OtherOwnerIsHidden | api/advisor/api/models.py:294-312 | Under a certificate of one owner no system of another owner is listed |
| Permissions.ContainmentIsPartialOrder | api/advisor/api/permissions.py:161-177 | Containment of permissions is reflexive, antisymmetric and transitive |
| Permissions.ParseExactly | api/advisor/api/permissions.py:140-160 | A text is a permission exactly when it is three parts without colons between two colons |
| Permissions.ContainsExactly | api/advisor/api/permissions.py:161-177 | One permission contains another exactly when it gives every access the other gives, where a star is anything and writing takes in reading |
| Permissions.MatchesExactly | api/advisor/api/permissions.py:295-305 | A role matches exactly when its permission is written for inventory or a star, hosts or a star, and read, write or a star |
| Permissions.DefinitionExactly | api/advisor/api/permissions.py:319-340 | A definition raises exactly when it has a value without a key, or under "group.id" no value, an empty text or a bracketed text that does not decode; otherwise it adds exactly the groups its list, or decoded bracketed text, holds under that key |
| Permissions.ScanDefinitions | api/advisor/api/permissions.py:319-340 | The inner loop collects the groups of one role's definitions or raises |
| Permissions.FindHostGroups | api/advisor/api/permissions.py:295-345 | The loop over roles: a failure, everything, or the collected groups |
| Permissions.OutcomeExactly | api/advisor/api/permissions.py:295-345 | For every list of roles: the scan fails exactly when a bad role has no open role before it, opens everything exactly when an open role has no bad one before it, and collects groups exactly when there is neither |
| Permissions.GroupsExactly | api/advisor/api/permissions.py:319-340 | The groups collected are exactly those granted by matching roles |
| Permissions.FindGroupsExact | api/advisor/api/permissions.py:263-345 | For well-formed roles the result is everything exactly when some matching role has an empty definition list, wherever it stands; otherwise exactly the groups of the matching roles |
| Permissions.HasRbacPermission | api/advisor/api/permissions.py:369-457 | The role scan allows exactly when an allowing role has no permission that is not text before it, raises exactly when such a permission has no allowing role before it, and denies exactly when there is neither |
| Permissions.VisibleExactly | api/advisor/api/models.py:179-218 | A host is seen exactly when its workspace is granted, or access is open, or no group was granted; and when group names are asked for, its workspace has one of them |
| Permissions.OneGroupIsSeen | api/advisor/api/permissions.py:319-345 | Matching roles that list one group show the hosts of that group and no others |
| Permissions.OrderIrrelevant | api/advisor/api/permissions.py:263-345 | What is seen does not depend on the order or repetition of roles and definitions |
| Permissions.NamesOnlyNarrow | api/advisor/api/models.py:197-218 | Requested group names only narrow what is seen |
| Permissions.OrderMattersExactly | api/advisor/api/permissions.py:295-345 | Some reordering of a list of roles changes what the scan comes to if and only if the list holds both an open and a bad role |
| Permissions.MalformedRoleMakesOrderMatter | api/advisor/api/permissions.py:299-303 | An input to that: behind an open role a bad one is harmless, in front of it fatal, whatever follows |
| Permissions.BroaderRoleMatches | api/advisor/api/permissions.py:164-177 | A role whose permission contains that of a matching role matches too |
| ContentModels.ModelTable.constructor | api/advisor/api/scripts/import_content.py:83-86 | A table with an empty cache |
| ContentModels.ModelTable.UpdateModelWithContent | api/advisor/api/scripts/import_content.py:57-136 | The table becomes the configuration, or is overridden by it; same, updated and deleted add up to the old rows; added and deleted account for the new number; the cache is overridden by the table |
| ContentModels.ModelTable.VisitStored | api/advisor/api/scripts/import_content.py:88-118 | The loop over the stored rows: table, cache, leftover configuration and counters |
| ContentModels.ModelTable.AddNew | api/advisor/api/scripts/import_content.py:120-134 | The loop over the leftover configuration |
| ContentModels.SyncedExactly | api/advisor/api/scripts/import_content.py:57-136 | Afterwards exactly the configured names are there, and in an update the stored ones too, each with its configured value or else the one it had |
| ContentModels.SecondSyncIsIdle | api/advisor/api/scripts/import_content.py:57-136 | Synchronising again changes, adds and deletes nothing |
| ContentModels.CacheExact | api/advisor/api/scripts/import_content.py:83-109 | The cache equals the table exactly when it held no name the table lacks; so an empty one ends equal |
| ContentRules.UpdateFieldsTwice | api/advisor/api/scripts/import_content.py:452-499 | Updating a rule's fields twice from one entry is updating once |
| ContentRules.CreatedFieldsStable | api/advisor/api/scripts/import_content.py:544-583 | A created rule is left alone by the next import if and only if its entry does not combine an empty summary with a generic text |
| ContentRules.PlaybooksSettle | api/advisor/api/scripts/import_content.py:651-705 | For distinct kinds, complete playbooks end at the content's version, no other kind remains, and a second pass changes nothing |
| ContentRules.AcksSettle | api/advisor/api/scripts/import_content.py:601-625 | Once the tags are the content's, matching them again changes no acknowledgement |
| ContentRules.AcksSurvive | api/advisor/api/scripts/import_content.py:338-356 | Acknowledgements not made automatically survive, as do those of other rules |
| ContentRules.AutoackTagEffect | api/advisor/api/scripts/import_content.py:612-625 | Gaining the autoack tag acknowledges the rule for every org; losing it removes every automatic acknowledgement |
| ContentMeaning.RulesetExactly | api/advisor/api/scripts/import_content.py:438-445 | An entry belongs to the first ruleset whose prefix starts its module, and is accepted exactly when there is one |
| ContentMeaning.RaisesExactly | api/advisor/api/scripts/import_content.py:435-575 | An accepted entry raises exactly when its category or impact is unknown, its resolution's risk or system type is, or its rule id is stored under another ruleset |
| ContentMeaning.RaisedExactly | api/advisor/api/scripts/import_content.py:452-575 | What is written then: nothing, unless only the resolution refers to something missing; then the rule's own row, and nothing else |
| ContentMeaning.EntryExactly | api/advisor/api/scripts/import_content.py:422-625 | One entry that does not raise leaves its rule, tags, pathway, resolutions, playbooks and acknowledgements as it says, field by field, and every other rule alone; without a ruleset it does nothing |
| ContentMeaning.PlaysExactly | api/advisor/api/scripts/import_content.py:651-705 | Of each kind the content names there is a playbook if one was stored or the content's is complete; a complete one of another version replaces the stored one; no other is left |
| ContentMeaning.AcknowledgesExactly | api/advisor/api/scripts/import_content.py:338-356 | Every org acknowledges the rule when its content gains or repeats the autoack tag; the automatic acknowledgements go when it loses the tag; all others stay |
| ContentImport.ContentStore.constructor | api/advisor/api/scripts/import_content.py:263-294 | A store with given rules and acknowledgements |
| ContentImport.ContentStore.UpdateRulesetWithContent | api/advisor/api/scripts/import_content.py:263-648 | The import computes its specification; when an entry raises, the ones before it and what it had already written stay |
| ContentImport.ContentStore.ImportEntry | api/advisor/api/scripts/import_content.py:422-625 | One entry: when it raises, what it leaves then, and otherwise its rule, resolution, playbooks, tags and acknowledgements and how it is counted |
| ContentImport.ContentStore.MatchTags | api/advisor/api/scripts/import_content.py:601-625 | The loop that ticks off tags, and the removal of those only the rule had |
| ContentImport.ContentStore.DeleteRules | api/advisor/api/scripts/import_content.py:627-641 | Rules outside the content go, with their acknowledgements, and are counted |
| ContentImport.UpdatePlaybookModels | api/advisor/api/scripts/import_content.py:651-705 | The loop over playbook content and the removal of the kinds no longer in it |
| ContentMeaning.ImportedExactly | api/advisor/api/scripts/import_content.py:422-648 | After a successful import each rule is as its last entry says: active exactly when the entry is and is not tagged cve under the switch, the total risk half of likelihood and impact rounded down, its own texts, tags, pathway, resolution and playbooks |
| ContentMeaning.LastSaidStays | api/advisor/api/scripts/import_content.py:462-464 | A description and a reboot flag are those of the last entry of the rule that has one |
| ContentMeaning.RulesExactly | api/advisor/api/scripts/import_content.py:422-641 | The rules after an import are those the content names that were stored or have an entry with a ruleset |
| ContentMeaning.CountedByEffect | api/advisor/api/scripts/import_content.py:498-585 | An entry is counted as added when its rule is new, as updated when it changes the rule's fields, and as the same when it does not |
| ContentMeaning.CountedExactly | api/advisor/api/scripts/import_content.py:422-648 | The import counts each new rule once as added and each rule the content does not name as deleted, and these account for the new number of rules |
| ContentMeaning.SwitchDeactivates | api/advisor/api/scripts/import_content.py:329-336 | An active entry tagged cve makes a rule that is active exactly without the switch |
| ContentReimport.ReimportCountsExactly | api/advisor/api/scripts/import_content.py:422-648 | The second import of the same content always goes through, and counts no rule as added, updated or deleted if and only if the entries of each rule agree in their fields, no accepted rule id is empty, and no rule was created from the empty summary of its only entry |
| ContentReimport.ReimportIdleExactly | api/advisor/api/scripts/import_content.py:422-648 | No entry of the second import changes any rule, tag, resolution, playbook or acknowledgement if and only if the entries of each rule also agree in pathway and tags, and in the resolution where they are for one system type |
| ContentReimport.ReimportIsIdle | api/advisor/api/scripts/import_content.py:422-648 | Then the second import ends with the same tables and counts every accepted entry as the same |
| ContentReimport.OneEntryPerSystemType | api/advisor/api/scripts/import_content.py:416-421 | Entries of one rule that differ only in system type, resolution text and playbooks agree, so such content is covered |
| ContentReimport.AllFieldsSettle | api/advisor/api/scripts/import_content.py:452-585 | After the entries are imported, importing any one again would leave its rule's fields alone, but for a rule created from the empty summary of its only entry |
| ContentReimport.AllRestSettle | api/advisor/api/scripts/import_content.py:501-625 | Likewise for pathway, tags, resolutions, playbooks and acknowledgements |
| ContentReimport.SettledExactly | api/advisor/api/scripts/import_content.py:422-625 | An entry is settled exactly when importing it changes nothing and counts it as the same |
| ContentReimport.LastEntryWins | api/advisor/api/scripts/import_content.py:422-625 | Whatever the entries of a rule disagree in, its tags, pathway, fields and resolution are those the last one settles |
| ContentReimport.SecondImportEndsAlike | api/advisor/api/scripts/import_content.py:422-648 | Even for disagreeing entries a second import ends with the tags and pathway of the first and with the last entry's resolution settled |
| ContentReimport.ImportOutcome | api/advisor/api/scripts/import_content.py:422-648 | After any successful import every accepted rule with an id is stored, no rule outside the content remains, and hand-made acknowledgements survive on every remaining rule |
| ContentReimport.HandMadeAcksSurvive | api/advisor/api/scripts/import_content.py:338-356 | No entry removes or changes an acknowledgement that was not made automatically |
| ContentReimport.EmptySummaryIsUpdatedLater | api/advisor/api/scripts/import_content.py:475-482 | An entry with an empty summary and a generic text is counted as updated by the second import |
| Pathways.Collect | api/advisor/api/models.py:861-884 | The collecting loop gives each pathway its host sets, or raises on a total risk outside 1 to 4 |
| Pathways.ImpactedIsUnionOfRisks | api/advisor/api/models.py:869-884 | A pathway's impacted count is the number of distinct hosts in its four risk sets together, and its incidents are among them |
| Pathways.MoreReportsNeverLower | api/advisor/api/models.py:906-934 | For fixed rules and account size, more reports never lower a count or the recommendation level |
| Pathways.LevelDeterminesFactors | api/advisor/api/models.py:128-176 | The level lies between 54 and 100, and two levels are equal exactly when share bucket, incident flag and maximum risk are |
| PathwayMeaning.LevelExactly | api/advisor/api/models.py:128-176 | The level is the entry of the documented matrix for the share of systems, the maximum risk and the incidents |
| PathwayMeaning.AggregateExactly | api/advisor/api/models.py:861-934 | Each aggregate of an impacted pathway: distinct hosts in all, with incidents and of each risk, whether there is an incident, the reboot flag, and the matrix level |
| Pathways.PathwayAggregates.constructor | api/advisor/api/models.py:861-862 | Aggregates with given data |
| Pathways.PathwayAggregates.PathwayAggCase | api/advisor/api/models.py:939-954 | The packed field shows each pathway its own value and any other the shared value or the default; with one pathway the aggregates are emptied |
| Pathways.PathwayAggregates.Annotate | api/advisor/api/models.py:956-974 | For every pathway and field, what is shown: the packed value of all aggregates, or of none after the first field when there was only one pathway |
| Pathways.PackField | api/advisor/api/models.py:943-954 | The constant or case expression gives each pathway its own value, and any other the shared value or the default |
| Pathways.ReduceAll | api/advisor/api/models.py:898-934 | The loop that replaces each pathway's host sets by its counts, flags and level |
| Pathways.ForAccount | api/advisor/api/models.py:839-974 | From reports to what is shown for impacted and other pathways: with two or more impacted ones each field of each is the aggregate over its own distinct hosts; with one only the first field is; the others show the shared value or the default |
| PathwayMeaning.ImpactedShowsOwn | api/advisor/api/models.py:939-974 | With two or more impacted pathways each shows its own aggregate in every field |
| PathwayMeaning.OthersShow | api/advisor/api/models.py:939-974 | A pathway without reports shows nothing in a field in which two impacted ones differ, and in a field in which two or more agree what they show |
| Pathways.LeakExactly | api/advisor/api/models.py:936-954 | A pathway without impact shows the default of a field if and only if the packing has emptied the aggregates, the impacted ones differ in it, or the value they share is the default |
| Pathways.SharedCountLeaks | api/advisor/api/models.py:943-945 | Pathways with one impacted count between them show it, never the default, for every other pathway |
| Pathways.SingleLeaksFirst | api/advisor/api/models.py:940-942 | A single impacted pathway shows its impacted count, and nothing else, for every other pathway |
| Pathways.ThirdPathwayShowsOne | api/advisor/api/models.py:936-954 | Two pathways with one host each: a third without hosts shows one |
| Pathways.SinglePathwayLosesFields | api/advisor/api/models.py:940-942 | For one pathway in an account with systems, the level and at least one risk count shown are never its own |
| Paging.GetResources | api/advisor/api/kessel.py:117-163 | For every server whose pages fit a listing the loop ends and yields the listing in order, under any limit, or its first page when only that is asked for |
| Paging.HostGroupsFor | api/advisor/api/kessel.py:488-515 | The host groups of a subject are the unpaged listing |
| Paging.SubjectsWithPermission | api/advisor/api/kessel.py:517-543 | The subjects are the unpaged listing with the realm taken off each id |
| Paging.StripExactly | api/advisor/api/kessel.py:537-540 | The realm is taken off an id that starts with it, once; any other id is kept |
| Paging.ChunksServe | api/advisor/api/kessel.py:166-199 | Every listing cut under any positive limit is such a server, so the limit never matters |
| Paging.ListingUnique | api/advisor/api/kessel.py:117-163 | What a server lists is determined by its answers |

## Left out

Upload handling:

- Rules are named by their unique rule id and uploads by host, org and source, not by surrogate
  row ids; two upload rows with one such key, on which the real lookup raises, cannot be stated.
- The upload-source table, host details, satellite fields and the automatic acknowledgements for a
  host's first upload (service/service.py:262-322).
- The counts sent to the inventory views; what goes wrong there counts as an outside fault.
- Which acknowledgements the events look at: the set of acknowledged rules is an input.
- UploadService.TriggerReportHooks: the resolved list is a multiset, because the order of rows
  within it carries no meaning; building and sending the messages, and uploads for which no
  inventory row is found, are not part of this model.
- UploadService.AdvisorDb.CreateDbReports: without the automatic acknowledgements and the
  upload-source row it may also write; an exception while sending events is swallowed by the source
  and does not appear.
- Interleaving.Serializable: covers uploads. For runs with deletions beside them serial orders are
  not stated, only DeletionRace.LinksStayOwn; content imports that run at the same time are not
  interleaved.
- Parsing of rule hits and engine results before the reports reach the handler.

Kafka and execution:

- The service's own polling loop and the wrapper that logs a task's exception
  (service/service.py:764-898).
- Rebalancing, and what a broker does beyond handing out each partition in log order.
- Decoding of header bytes and JSON bodies: a message comes with its decoded parts, and a header
  that cannot be decoded is marked as such.
- Executor.BoundedExecutor.Submit: each method of the class is taken at one go; interleavings
  within it are in Executor.PermitsConserved.

Queries:

- NULL logic, JSON operators and the SQL text: a lookup is a two-valued fact about a row.
- Lookups the database layer itself rejects, such as unknown fields or the staleness annotation
  reached through a relation.
- ReportsQuery.SystemListMatchesReports: without a category filter; the category condition of the
  sub-query is a parameter of the other lemmas.
- Params.FilterMeansAnyValue: without the value map option; conversion from text to numbers, dates
  and identifiers is a parameter of the declared type, and letters are lowered within ASCII only.
- Sorting, display names and the other filters of single views.
- The Kessel path of permission checks and of host groups, and requests to the access service.

Content import:

- Reading and parsing content, notifications on deactivation (`notif_action`) and the mails they
  cause. Dates come parsed. Content in which description, reboot or summary is present but null is
  not part of this model, nor are entries without a rule id or module name that match a ruleset.
- ContentReimport.ReimportIdleExactly: for entries that do not name a playbook kind twice, on which
  the real import stores two playbooks of one kind.
- Playbooks of one resolution form a map by kind, so two stored playbooks of one kind, on which
  the real lookup raises, cannot be stated.
- An org whose hosts carry two account numbers, for which adding automatic acknowledgements
  violates their key: orgs form a set. The account and justification of an acknowledgement are
  left out.
- A resolution's text is compared directly, not through its hash.
- ContentModels.ModelTable.UpdateModelWithContent: the order in which stored rows are visited is a
  parameter.

Aggregation and paging:

- Pathways are annotated for one moment; publication dates and the query that finds the reports
  are not part of this model.
- Pathways.MoreReportsNeverLower: over exact fractions, so rounding of a share at the two bucket
  limits is not modelled.
- Streaming calls that end with an error.

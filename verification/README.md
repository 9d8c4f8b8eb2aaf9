# AI Lead Qualifier: a verified model

This project models the parts of the backend and of its browser client that carry state,
branching and arithmetic, and proves their main guarantees for all inputs, all runs and
all interleavings.

- `Catalogue`, `CatalogueAdmin`, `CatalogueStore`: the table `catalogue_items` with its
  CHECK and UNIQUE constraints, ingestion upserts, tenant wipes, audited PATCHes and the
  re-embedding queue.
- `EmbeddingSync`: PATCH handlers and re-embedding workers as a concurrent protocol.
- `ServiceItems`, `IngestionNodes`, `IngestionGraph`: item validation, the loops inside
  the ingestion nodes, and the ingestion state machine with its human gate.
- `Matching`, `Scoring`, `Quotes`, `QualificationGraph`: nearest-match search, the
  confidence score, the quote, and the qualification state machine with its two loops.
- `Sse`, `SseExact`, `LogStream`: the printed event stream, its incremental parser, and
  the cursor over the run's log.
- `Polling`, `RowEditor`: the status poller and the inline row editor.
- `EndToEnd`: the pricing rule from the uploaded file to the delivered quote.
- `Support`, `Rounding`, `Pricing`: shared vocabulary, Python's `round` on exact reals,
  and the pricing constraint.

Every state machine is a step function from a state and an action, where the action
carries what the environment answers: the model, the catalogue, the delivery adapter, the
operator, the network, the scheduler. A run is a sequence of actions. Objects that the
program updates in place (`Store`, `Task`, `RowComponent`, `Poller`) are classes whose
methods are proved to perform exactly those steps; loops are methods proved against a
function of their inputs.

`C(price_type, price)` is the pricing rule the system is built on: FREE costs 0, FIXED has a
price >= 0, VARIABLE has none. Prices, confidences and distances are exact reals. An embedding
is represented by the service, description and price it was computed from; a row as ingested
counts as embedded from itself.

## What turned out not to hold

- The CHECK constraint does not say C: `price_type = 'FREE' AND price = 0.0` is unknown, not
  false, when the price is NULL, so (FREE, NULL) passes (`Pricing.Admitted`). `upsert_items`
  stores it (`CatalogueStore.FreeWithoutPriceIsStored`), and C holds throughout exactly when
  no upsert leaves such an element (`CatalogueStore.ReachableCatalogueValidIff`). Neither the
  ingestion (`IngestionNodes.FinalizedTable`) nor a PATCH of a row that satisfies C
  (`CatalogueStore.PatchMeetsCheckIff`) ever does; results that need C ask for it, and
  `QualificationGraph.QuoteFailsIff` says what such a row does to a quote. Since the ingestion
  is the only caller of the upsert, no quote fails end to end (`EndToEnd.NoQuoteFails`).
- Vectors are eventually fresh only with one worker, no ingestion beside it, no job that uses
  up its tries and no enqueue lost after the commit (`EmbeddingSync.FreshAtRestIff`); the
  comment on ARQ_MAX_JOBS invites more workers.
- The comment at backend/api/catalogue_routes.py:326 says that a price does not influence the
  embedding; the worker embeds it (backend/worker/tasks.py:289), and a PATCH of the price
  alone leaves the vector with the old one (`EmbeddingSync.RepricingBreaksFreshness`).
- An empty sanitized text makes the extractor loop consume no retry
  (`QualificationGraph.BoundedIff`).
- An abandoned delivery leaves a status the poller never treats as final
  (`QualificationGraph.EndIsFinalIff`, `QualificationGraph.AbandonedRunIsPolledOn`).
- The item's validators are not a closure: a unit of blanks is stripped to an empty one, which
  the next construction drops (`ServiceItems.ConstructIsIdempotentIff`,
  `ServiceItems.BlankUnitIsLost`).
- A row that is no dictionary, or a date cell of a workbook, makes the normalizer raise outside
  its `try` (backend/ingestion/graph.py:303 and 356), and the run crashes
  (`IngestionGraph.CrashableIff`).
- An interrupted ingestion whose checkpoint cannot be read is closed with done
  (`LogStream.RunDeliveredIff`; backend/api/routes.py:407-408).
- A log line with a newline or leading white space reaches the browser altered
  (`SseExact.DeliveredIff`).
- The audit trail misses a change compared with a row read too early, and the text "None"
  written over a missing description (`CatalogueAdmin.AuditExactIff`,
  `CatalogueStore.AuditReplayIff`).
- The row editor cannot clear a description: such an edit is refused or ignored
  (`RowEditor.SaveRefusedIff`, `RowEditor.SentPayloadStores`).
- The docstring at backend/agents/evaluator.py:38 and the diagram in the repository's README
  speak of a threshold of 0.75; the setting is a parameter with default 0.55, and the model
  keeps it a parameter.

## Model

| member | source | states |
|---|---|---|
| `EndToEnd.NoQuoteFails` | backend/agents/calculator.py:25-63 | From a valid catalogue on, for every sequence of ingestion runs, PATCHes, wipes and re-embeddings and every qualification run whose searches fall anywhere between them: the quote never fails; every match has the name, type and price that the tenant's row had in the catalogue that was searched; and the delivered total is within 0.005 of the sum of those prices, VARIABLE rows aside. |
| `EndToEnd.IngestedCatalogueAlwaysValid` | backend/ingestion/graph.py:718-771 | C and unique keys hold in every state of a catalogue that only ingestion runs write to by upsert, whatever the files, the model's answers, the decisions, the PATCHes and the wipes. |
| `EmbeddingSync.FreshAtRestIff` | backend/worker/tasks.py:221-330 | Over all interleavings of PATCH commits, enqueues, job takes, row fetches, vector writes, retries and wipes: once nothing runs or waits, every stored vector is that of its row's current service and description, if and only if there is one worker, no concurrent ingestion, no job that uses up its tries and no enqueue that fails after the commit; counting the price that the worker embeds too, only if besides no PATCH changes the price alone. |
| `EmbeddingSync.FreshnessIsReachable` | backend/worker/tasks.py:221-330 | In such a regime every run can go on, by enqueues, takes, fetches and writes alone, to a state in which every vector is current. |
| `EmbeddingSync.RestIsReachable` | backend/worker/tasks.py:221-330 | With any number of workers, from every state those steps alone lead to rest. |
| `EmbeddingSync.StaleRowHasRefreshComing` | backend/worker/tasks.py:266-321 | In every reachable state of such a regime a stale row has a queued job, a committed patch about to enqueue, a worker that has not fetched, or a worker that holds a current text. |
| `EmbeddingSync.RunSafe` | backend/worker/tasks.py:266-321 | The invariant behind it: also a worker holding an outdated text is always followed by another awaited job for the same row. |
| `EmbeddingSync.SecondWorkerBreaksFreshness` | backend/worker/worker_settings.py:84-92 | With two or more workers (ARQ_MAX_JOBS > 1) a concrete run, permitted in every regime, ends at rest with a vector older than the row. |
| `EmbeddingSync.IngestionBreaksFreshness` | backend/database/vector_store.py:126-153 | With any number of workers, an upsert between a worker's fetch and its write ends at rest with a vector of the overwritten text. |
| `EmbeddingSync.ExhaustedJobBreaksFreshness` | backend/worker/tasks.py:304-339 | A job that uses up its tries after the row was read ends at rest with the old vector. |
| `EmbeddingSync.LostEnqueueBreaksFreshness` | backend/api/catalogue_routes.py:317-333 | An enqueue that raises after the commit leaves the row changed and its vector old, with nothing queued. |
| `EmbeddingSync.RepricingBreaksFreshness` | backend/worker/tasks.py:287-293 | The embedded text holds the price, and a PATCH of the price alone queues no job: it ends at rest with a vector of the old price. |
| `EmbeddingSync.PatchIsCommitThenEnqueue` | backend/api/catalogue_routes.py:275-334 | The sequential handler is the protocol's commit step, followed by its enqueue step exactly when service or description is among the updates. |
| `EmbeddingSync.RequestsAreActions` | backend/database/vector_store.py:112-170 | The protocol's wipe and ingestion steps are the store's requests. |
| `EmbeddingSync.Task.TakeJob` | backend/worker/tasks.py:221-225 | Taking a job from the live queue is the protocol's take step: the first job leaves the queue and is the worker's. |
| `EmbeddingSync.Task.FetchRow` | backend/worker/tasks.py:266-293 | The worker's first database access is the protocol's fetch step: it holds the current name, description and price of its own tenant's row, or ends the job when there is none. |
| `EmbeddingSync.Task.SaveVector` | backend/worker/tasks.py:311-321 | The worker's last database access is the protocol's write step: only the vector of the job's row changes, if the row is the tenant's; every other column, row and the audit log stay. |
| `QualificationGraph.QualificationTerminates` | backend/core/graph.py:249-308 | For all answers of model, catalogue and adapter, when the sanitizer hands over a non-empty text: at most 2 + 3 max(1, max_retry_count) + delivery_max_attempts node steps, max(1, max_retry_count) extractions and delivery_max_attempts deliveries, and a run that can go no further stands at the interrupt, at END or at a crash. |
| `QualificationGraph.BoundedIff` | backend/agents/extractor.py:204-209 | From the extractor on, the runs are bounded if and only if the sanitized text is non-empty, or max_retry_count <= 0, or the threshold is <= 0: the early return on an empty text consumes no retry. |
| `QualificationGraph.EvaluationLeadsTo` | backend/core/graph.py:74-100 | In every run an evaluation leads to the calculator if and only if the score reaches the threshold, back to the extractor if and only if it does not and a retry is left, and to the interrupt otherwise. |
| `QualificationGraph.ExtractionLeadsTo` | backend/agents/extractor.py:196-260 | An empty text skips the model and costs nothing, an unreachable model crashes the run, and any answer costs a retry and goes on to the mapper and the evaluator. |
| `QualificationGraph.RetryHasCause` | backend/core/graph.py:86-100 | In every run each extraction after the first comes right after an evaluation that scored below the threshold with a retry left: no passing match is thrown away. |
| `QualificationGraph.QuotedIsLastPass` | backend/core/graph.py:249-308 | What stands at the calculator, the delivery or END is the mapping of the names the model answered last by the searches that followed, and its score reached the threshold. |
| `QualificationGraph.DeliveryLeadsTo` | backend/core/graph.py:103-138 | A delivery leads to END if and only if it was accepted or was the last attempt; the quote stays what it was. |
| `QualificationGraph.RunReadsMasked` | backend/agents/sanitizer.py:48-56 | The text of a run is the raw text after one pass for each pattern, each keeping everything between its matches and putting the token in place of each match. |
| `QualificationGraph.MaskKeepsText` | backend/agents/sanitizer.py:48-56 | Replacing disjoint non-empty matches by a non-empty token, pass after pass, never empties a non-empty text. |
| `QualificationGraph.UnreviewedQuoteBound` | backend/core/graph.py:74-100 | Over any catalogue, whatever its prices: what reaches the calculator, the delivery or END without human review has mapped >= (threshold - 0.00005) * extracted of the same pass, mean distance <= 1 - threshold + 0.00005, some match within that bound, and every match within the mapper's threshold (threshold > 0.00005). |
| `QualificationGraph.QuoteNeverFails` | backend/agents/calculator.py:55-63 | Over catalogues that satisfy C, in every reachable state the calculator's error branch has not been and cannot be taken; what is delivered is the total and the on-request list of the mapped rows, partial exactly when one is VARIABLE. |
| `QualificationGraph.QuoteFailsIff` | backend/agents/calculator.py:55-63 | Over whole runs and tables of which only the database's own constraints hold: the calculator reported an error if and only if a mapped row is FREE without a price; the delivered quote then shows a total of 0 and nothing on request, and the run still ends as completed if and only if a delivery was accepted. |
| `QualificationGraph.FailedQuoteIsCompleted` | backend/agents/calculator.py:55-63 | A concrete run that maps a FREE row without a price, delivers a total of 0 and ends as completed. |
| `QualificationGraph.StatusAgreesWithRoute` | backend/agents/evaluator.py:105-135 | Whatever the catalogue answers, in every reachable state before a review: pending_review exactly at the interrupt, completed exactly when the last adapter call succeeded, and no earlier call did. |
| `QualificationGraph.EndIsFinalIff` | backend/agents/delivery.py:138-142 | A run at END has a status the poller treats as final if and only if some delivery was accepted or the total could not be computed; over tables as the database enforces them the latter means a mapped FREE row without a price, and over tables that satisfy C it never happens. Otherwise all attempts are used up and the status is still processing. |
| `QualificationGraph.AbandonedRunIsPolledOn` | backend/agents/delivery.py:138-142 | A concrete run over a catalogue that satisfies C that stands at END with status processing. |
| `Scoring.PassingScore` | backend/agents/evaluator.py:74-103 | A rounded score that reaches the threshold bounds coverage from below and the mean distance from above, and some match is itself within that bound, for every mapping the mapper can produce. |
| `Scoring.ScoreOfCloseMapping` | backend/agents/evaluator.py:91-102 | For such a mapping the score is (mapped / extracted) * (1 - mean distance) rounded to four decimals, and 0 when the mean distance is 1 or more; the cap and the clamps never act otherwise. |
| `Scoring.ScoreInUnitInterval` | backend/agents/evaluator.py:37-39 | The score is in [0, 1] for every input. |
| `Matching.SelectIsGlobalNearest` | backend/agents/mapper.py:141-208 | The top-k limit, the store filter and the mapper filter together choose a row of minimum distance in the tenant's whole catalogue, within the threshold; nothing is chosen if and only if every row is beyond it. |
| `Matching.SelectIsFirst` | backend/agents/mapper.py:157-194 | The choice is the first row of the whole ranked catalogue, ties included, if it is within the threshold, and nothing otherwise. |
| `Matching.MappingIsExact` | backend/agents/mapper.py:77-223 | Without a failed query there is one match for each query whose first ranked row is near enough, in query order: that row is its document, and the entry has the row's name, price and price type, its distance and the query. |
| `Matching.MappingFailsIff` | backend/agents/mapper.py:77-140 | The mapping is marked failed, and empty, if and only if some query failed. |
| `Matching.MappingIsClose` | backend/agents/mapper.py:141-208 | Over any catalogue, whatever its prices: at most one entry per query, one document per entry with the same distance, each within the threshold. |
| `Matching.MappingKeepsPairs` | backend/agents/mapper.py:193-208 | Over tables as the database enforces them every entry has a price pair that it lets pass, and over tables that satisfy C one that satisfies C. |
| `Matching.MapperNode` | backend/agents/mapper.py:46-223 | The loop with its early returns computes the mapping that MappingIsExact and MappingFailsIff describe. |
| `Matching.SimilaritySearch` | backend/database/vector_store.py:78-109 | The search loop returns the first k ranked rows, without those beyond an enabled distance limit, in order. |
| `Quotes.QuotePartition` | backend/agents/calculator.py:25-69 | As multisets the mapped entries are the summed ones plus the ones on request; no entry is both. |
| `Quotes.PartialIff` | backend/agents/delivery.py:86-89 | The quote is marked partial exactly when some entry is VARIABLE. |
| `Quotes.OnRequestExact` | backend/agents/calculator.py:65-69 | The services on request are, in order, those of the VARIABLE entries. |
| `Quotes.SumOfSummed` | backend/agents/calculator.py:25-34 | The exact sum is that of the summed entries alone. |
| `Quotes.TotalIgnoresOrder` | backend/agents/calculator.py:25-34 | Permuting the entries changes neither the total nor the partial mark. |
| `Quotes.DisplayedTotal` | backend/agents/delivery.py:27-64 | The total is within 0.005 of the exact sum, and the displayed lines add up to the displayed total within 0.005 * (n + 1) for n FIXED lines. |
| `Quotes.SumPrices` | backend/agents/calculator.py:25-34 | The accumulation loop returns the sum of the priced entries rounded to two decimals, or the error exactly when an entry that is not VARIABLE has no price. |
| `Quotes.FormatQuoteBody` | backend/agents/delivery.py:43-64 | The body is the heading, one line for each entry in order (on request, free, or its price in cents), and the total, marked partial exactly when an entry is VARIABLE. |
| `IngestionGraph.UnreviewedIff` | backend/ingestion/graph.py:460-530 | After the validator a run stands before the finalizer without a decision if and only if no item is flagged, each free item is described, each stripped name has three characters, each unit is known or empty, and the exact mean confidence is >= 0.74995; then it has an item, every confidence is >= 0.5, C holds and the validators refused no entry. |
| `IngestionGraph.FinishedRunTable` | backend/ingestion/graph.py:718-771 | A run that the operator rejected or that failed leaves the table as it was. Any other leaves, for each of the tenant's names, a row with the name, price and price type of the last so-named item among the first with their id, whose description starts with the name and contains description, category and every filled source column; everything else is untouched, writing again changes nothing, and C stays true if it was. |
| `IngestionGraph.FinalizerFailsIff` | backend/ingestion/graph.py:718-771 | In every reachable state before the finalizer, whatever the table holds, it fails if and only if a service is missing and there is something to write: the CHECK never refuses it. |
| `IngestionGraph.ItemsAreAllOutputs` | backend/ingestion/graph.py:395-453 | From the validator on, normalized_items is the in-order concatenation of one output per chunk, the i-th call being about the i-th chunk; the validator adds nothing. A crash leaves the outputs of the chunks before it and the table as it was. |
| `IngestionGraph.ItemsConserved` | backend/ingestion/graph.py:346-453 | Over whole runs: the chunks are the file's rows, the i-th recorded answer is that of the i-th call, and the items are, in order, one for every object of those answers, with the entry's members and its row, or the row's placeholder. |
| `IngestionGraph.NormalizerLeadsTo` | backend/ingestion/graph.py:411-453 | A pass crashes exactly on a chunk that cannot be dumped or an object that meets no dictionary; otherwise the next chunk follows, or the validator after the last one. |
| `IngestionGraph.RunRecords` | backend/ingestion/graph.py:537-619 | approved is the operator's decision, unset without one, and the log is the lines of the nodes, in order. |
| `IngestionGraph.IngestionTerminates` | backend/ingestion/graph.py:858-889 | Every run ends within max(1, chunks) + 4 node steps, zero chunks included, and only END and a crash of the normalizer are stuck. |
| `IngestionGraph.CrashableIff` | backend/ingestion/graph.py:298-359 | Some answers of the model crash the run over a file if and only if it has a row that is no dictionary, or one with a cell that json.dumps refuses. |
| `IngestionGraph.RunKeepsInv` | backend/ingestion/graph.py:537-619 | The loop and review invariants over whole runs: the table changes only in the finalizer, approval is unset before a decision, and the log only grows. |
| `IngestionGraph.FinalizerNode` | backend/ingestion/graph.py:718-771 | Over the live store: deduplicate, compose and upsert in one transaction, or report an error and change nothing. |
| `IngestionGraph.NormalizerNode` | backend/ingestion/graph.py:395-453 | What one pass appends for each kind of answer, when it reports an error, and exactly when it raises; an index out of range appends nothing. |
| `IngestionNodes.ChunksAreRows` | backend/ingestion/graph.py:190-191 | The chunks concatenate back to the rows. |
| `IngestionNodes.ChunksAreFull` | backend/ingestion/graph.py:190-191 | All chunks but the last have the chunk size, and the last is neither empty nor larger. |
| `IngestionNodes.SkipsReviewIff` | backend/ingestion/graph.py:787-801 | The router skips the review if and only if no item is flagged or breaks one of the three rules and the exact mean is >= 0.74995: rounding to four decimals lowers the bar by half a unit. |
| `IngestionNodes.ValidateItems` | backend/ingestion/graph.py:460-530 | The validator's loop returns the errors, the flagged copies and the rounded mean confidence of the items. |
| `IngestionNodes.FlaggedExact` | backend/ingestion/graph.py:474-507 | flagged_items are, in order, the items that are flagged or break a rule, each a copy flagged with exactly the rules it breaks. |
| `IngestionNodes.ErrorsExact` | backend/ingestion/graph.py:474-507 | The errors name, in order, every item that breaks a rule with exactly the rules it breaks. |
| `IngestionNodes.FirstByIdExact` | backend/ingestion/graph.py:729-733 | The survivors of the deduplication are, in order, exactly the items that are the first to carry their id. |
| `IngestionNodes.Deduplicate` | backend/ingestion/graph.py:729-733 | The setdefault loop computes those survivors. |
| `IngestionNodes.FinalizedTable` | backend/ingestion/graph.py:688-715 | Upserting the survivors of sound items leaves for each name a row that holds the last so-named survivor, column by column, is idempotent, and keeps C. |
| `IngestionNodes.EmbeddingTextCovers` | backend/ingestion/graph.py:655-670 | The embedded text contains every filled source column verbatim. |
| `IngestionNodes.EmbeddingTextIs` | backend/ingestion/graph.py:655-670 | It is the name, then the description, the category in brackets and the text of the source row, each after a dash if it says something. |
| `IngestionNodes.ComposeWrites` | backend/ingestion/graph.py:658-712 | The two passes build one row per item, in order, with the item's name, price and price type and its embedding text. |
| `ServiceItems.ConstructIsSound` | backend/ingestion/models.py:137-210 | For every raw entry the validators refuse it or produce an item that satisfies C(price_type, price), has a name, and is flagged exactly when it was given as flagged or its confidence is below 0.5. |
| `ServiceItems.ConstructIff` | backend/ingestion/models.py:56-210 | Which raw entries the field and model validators together refuse, in terms of the raw members alone, and every member of an accepted item. |
| `ServiceItems.ConstructIsIdempotentIff` | backend/ingestion/models.py:113-210 | Building the dump of an accepted item again gives the same item, whatever its type, price, currency, confidence or flags, if and only if the unit it was given is not a non-empty string of blanks. |
| `ServiceItems.ConstructTwice` | backend/ingestion/models.py:155-157 | What the second construction makes of it in every case: it is accepted, and differs at most in an empty unit that is dropped. |
| `ServiceItems.BlankUnitIsLost` | backend/ingestion/models.py:155-157 | The concrete unit of one blank: accepted as an empty one, then dropped. |
| `ServiceItems.FilledCellInText` | backend/ingestion/graph.py:147-160 | Every non-blank column of a source row is in its text verbatim as key: value. |
| `ServiceItems.PricedAsIff` | backend/ingestion/models.py:137-198 | Which raw price pairs are refused: an unreadable member, a negative price, or an explicit FIXED with a null price; the others keep a given type, never infer FREE, and keep a FIXED price to four decimals. |
| `ServiceItems.EntriesConserved` | backend/ingestion/graph.py:346-392 | Each object entry yields exactly one sound item at its place, and other entries yield none. If no member is one that pydantic refuses, the item has every member as given, coerced or defaulted; otherwise it is the flagged placeholder of the row at the same place. |
| `ServiceItems.PlaceholderConstructs` | backend/ingestion/graph.py:365-391 | The placeholder can always be built: the row's first name-like column, else its first filled one, else a number, cut to 200 characters; the row's text as description; price (FIXED, 0), confidence 0, flagged. |
| `ServiceItems.ParseEntries` | backend/ingestion/graph.py:346-392 | The loop over a decoded list returns those items. |
| `Catalogue.UpsertRefinesMap` | backend/database/vector_store.py:112-155 | For every list, sound or not: the table after an upsert, read as a map from (tenant, service), is the old map with, for each name in the list, the price, type, description and vector of its last element; keys stay unique. |
| `Catalogue.UpsertIdempotent` | backend/database/vector_store.py:112-155 | Upserting the same list again changes nothing, identifiers included. |
| `Catalogue.UpsertValidIff` | backend/database/vector_store.py:112-155 | An upsert into a table that satisfies C leaves one if and only if the last element for each name satisfies it. |
| `Catalogue.WipeRemovesTenant` | backend/database/vector_store.py:158-170 | A wipe removes exactly the tenant's rows and keeps the keys unique. |
| `CatalogueStore.ReachableCatalogueValidIff` | backend/migrations/versions/004_hybrid_pricing.py:62-74 | From a table that satisfies them, C(price_type, price) and the uniqueness of (tenant, service) hold in every state of a run of upserts, accepted or refused PATCHes and wipes, if and only if no accepted upsert has FREE without a price as its last element for a name. |
| `CatalogueStore.ReachableCatalogueEnforced` | backend/migrations/versions/004_hybrid_pricing.py:62-74 | For all requests without exception, unique keys and the constraint as SQL reads it hold in every reachable table. |
| `Pricing.Admitted` | backend/migrations/versions/004_hybrid_pricing.py:66-74 | Evaluated in SQL's three-valued logic, the constraint lets exactly the pairs of C pass, and FREE with NULL. |
| `CatalogueStore.FreeWithoutPriceIsStored` | backend/database/vector_store.py:126-153 | The concrete upsert of FREE without a price that is stored and breaks C. |
| `CatalogueStore.PatchMeetsCheckIff` | backend/api/catalogue_routes.py:100-117 | When a PATCH of a row that satisfies C keeps C, in terms of the payload and the row's price type alone; there the constraint as SQL reads it decides the same way, so no PATCH opens the gap. |
| `CatalogueStore.PatchOutcome` | backend/api/catalogue_routes.py:197-350 | The whole outcome of a PATCH in terms of its payload: exactly when it is a 422, a 404 or a conflict, and otherwise the row with every column, the audit rows change by change, and one job exactly when service or description is given; a refused one changes nothing. |
| `CatalogueStore.AssignedColumns` | backend/api/catalogue_routes.py:222-286 | Which value every column has after the UPDATE: absent members keep theirs, VARIABLE clears the price, a description cannot be cleared. |
| `CatalogueStore.AuditReplayIff` | backend/api/catalogue_routes.py:300-323 | For every run of atomic PATCHes, to this item and others, accepted or refused: the log only grows, and replaying an item's new rows over its starting row, checking each old value, gives its current row if and only if no accepted PATCH of the item wrote the text None over its missing description. |
| `CatalogueStore.AtomicAuditExactIff` | backend/api/catalogue_routes.py:300-314 | The audit rows of one atomic PATCH can be replayed exactly if and only if it does not write the text None over a missing description. |
| `CatalogueAdmin.AuditExactIff` | backend/api/catalogue_routes.py:235-323 | With the row read before the transaction: replayable exactly if and only if each update is either recorded with the true old value or changes nothing. |
| `CatalogueAdmin.StaleReadIsLost` | backend/api/catalogue_routes.py:235-314 | A concrete stale read whose change leaves no audit row. |
| `CatalogueStore.Store.PatchItem` | backend/api/catalogue_routes.py:197-350 | The handler over the live store has exactly the outcome that PatchOutcome states, and keeps both the database's constraints and C. |
| `CatalogueStore.Store.UpsertItems` | backend/database/vector_store.py:112-155 | One transaction over any list: all elements, or none when the constraint, as SQL evaluates it, is false of one. |
| `CatalogueStore.Store.WipeTenant` | backend/database/vector_store.py:158-170 | The wipe's effect on the table, both invariants kept, and the number of rows it reports. |
| `CatalogueStore.CollectAuditRows` | backend/api/catalogue_routes.py:300-314 | The loop records one row for each update whose printed old and new values differ. |
| `RowEditor.EverySaveMeetsCheck` | frontend/src/components/row.js:124-165 | After any session of edits, discards, saves and replies, over a row in any state: the price part of a payload that is sent is accepted; it stores the edited pair if and only if the pair was sent or the row still has the original one, and C holds if and only if the pair was sent or the row satisfied it. |
| `RowEditor.SentPayloadStores` | frontend/src/components/row.js:139-168 | The edited pair is stored, a changed name is stored trimmed, and the stored description is the edited one if and only if the edit does not clear an existing description. |
| `RowEditor.SaveRefusedIff` | frontend/src/components/row.js:139-194 | Over an unchanged row the backend refuses a save if and only if the name is blank, only a description is cleared, or the name is taken. |
| `RowEditor.AcceptedSaveConfirms` | frontend/src/components/row.js:167-179 | When the backend accepts a save over an unchanged row, original is the stored row again, nothing is dirty, and the row holds the edited pair, the trimmed edited name and the edited description, and satisfies C. |
| `RowEditor.RowComponent.OnPriceTypeChange` | frontend/src/components/row.js:94-109 | The type and the input after a type change: null for VARIABLE, 0 for FREE, an empty field when FIXED finds null; nothing else changes. |
| `RowEditor.RowComponent.DiscardEdits` | frontend/src/components/row.js:112-114 | The edit equals the confirmed row again and nothing is dirty. |
| `RowEditor.RowComponent.StartSave` | frontend/src/components/row.js:124-165 | A payload is sent exactly when something changed, nothing is in flight and a FIXED price is a number >= 0; it holds the trimmed name, the description and the price pair, each exactly when it changed. |
| `RowEditor.RowComponent.FinishSave` | frontend/src/components/row.js:167-204 | After a 200 edit equals the new original, after a 422 the last confirmed row, after another error it is kept. |
| `Polling.PollerSafety` | frontend/src/api.js:196-228 | In every interleaving of starts, stops, timer fires and replies: at most one request is outstanding, and between a terminal or failed reply and any later request or ending lies an effective start. |
| `Polling.QuietAfterEnding` | frontend/src/api.js:216-227 | After a terminal or failed reply no timer is set and nothing is outstanding. |
| `Polling.FireSendsOne` | frontend/src/api.js:211-215 | While the timer runs, a fire with nothing in flight sends exactly one request, one with a request in flight none, and a pending reply leaves the timer running. |
| `Polling.Poller.StartPolling` | frontend/src/api.js:196-201 | An idempotent start: one immediate request unless one is in flight, and the timer. |
| `Polling.Poller.StopPolling` | frontend/src/api.js:204-208 | Stop clears the timer only; a request in flight stays outstanding. |
| `Polling.Poller.BeginTick` | frontend/src/api.js:211-215 | A tick sends a request exactly when none is in flight. |
| `Polling.Poller.EndTick` | frontend/src/api.js:215-227 | A reply, even after a stop, runs its callbacks, stops the timer when terminal or failed, and frees the guard. |
| `SseExact.DeliveredIff` | frontend/src/api.js:233-270 | A list of named events printed by the server is delivered unchanged if and only if every datum is one line without leading white space (WHATWG HTML sections 9.2.5 and 9.2.6 would split a longer one over several data lines). |
| `Sse.RoundTrip` | frontend/src/api.js:233-270 | For every list of clean events the parser delivers exactly that list. |
| `Sse.UnterminatedTail` | frontend/src/api.js:253-258 | A last frame with data whose blank line never came is delivered too. |
| `Sse.UnnamedIsMessage` | frontend/src/api.js:262-270 | A frame without an event line is a message, and is dropped when its data is empty. |
| `Sse.ConsumeSse` | frontend/src/api.js:233-260 | The delivered events depend only on the concatenated text, for every way of cutting it into reads. |
| `Sse.DrainAppend` | frontend/src/api.js:241-252 | Delivering complete frames early loses nothing when the next read arrives. |
| `Sse.DrainBuffer` | frontend/src/api.js:245-251 | The inner loop delivers every complete frame and leaves the unterminated rest. |
| `Sse.ParseFrameLines` | frontend/src/api.js:262-270 | The last event line names the frame; the data lines are joined by newlines. |
| `Sse.FormatSse` | backend/api/routes.py:327-333 | The printed text: an event line unless the name is missing or empty, a data line and an empty one. |
| `LogStream.RunDeliveredIff` | backend/api/routes.py:355-433 | For every ingestion run and every cut of the text: one log event for each line of the run's log, in order, then one closing event, which is error exactly when the run crashed, interrupt exactly when it waits for approval with a readable checkpoint, and done otherwise; the browser sees just that if and only if every line and the payload are one line without leading white space. |
| `LogStream.EmittedIsLastLog` | backend/api/routes.py:355-367 | Over snapshots that only grow, the cursor has emitted exactly the last log. |
| `LogStream.IngestEvents` | backend/api/routes.py:355-433 | The generator yields the cursor's lines as log events and then one closing event: error after an exception, interrupt when the graph was interrupted or the checkpoint shows it, done otherwise. |
| `LogStream.RunLogsGrow` | backend/ingestion/models.py:342-345 | The append reducer: each snapshot's log is a prefix of the next one's, from the start of the run to its end. |
| `Rounding.RoundHalfEven` | backend/agents/evaluator.py:102 | The nearest integer, a tie going to the even one. |

## Left out

- LangGraph's checkpoint merging, resuming of an interrupted qualification run and its recursion limit; reducers are append or last write wins.
- ARQ's retry count: a job may be retried any number of times, and may be given up at any of them.
- The approval and rejection of a qualification run by an operator: the runs end at the interrupt.
- HNSW approximation and vector arithmetic: the ORDER BY is exact and distances are non-negative reals.
- The PII patterns themselves: a pass replaces arbitrary disjoint non-empty matches.
- JSON, CSV, XLSX, PDF and UTF-8 decoding, prompts, HTTP clients, the payloads of closing events and the wording of log lines and error texts: they are inputs.
- Floating-point rounding error, NaN and infinities; `round` and `:.2f` are half-even on exact reals, and amounts are shown as a number of cents.
- Case folding: currency and unit are given in the case that `upper` or `lower` gives them, before `strip`; and `str()` of a price stays a number.
- The metadata column, also as part of the re-embedded text, and the timestamps of items, rows and audit entries.
- The pydantic models are values: their validators return the coerced item or payload where the source assigns `self.price` and `self.flagged`.
- Row identifiers come from a counter, where the database draws random UUIDs; a malformed identifier is not modelled.
- Running the migrations; only the constraint they create is used. The demonstration rows of backend/seed_db.py are not part of the requests.
- JWT, tenant checks, rate limiting, upload, S3, health checks, profiles, logging, the list endpoint and the rest of the frontend.
- CatalogueStore.Store.PatchItem: the read of the existing row and the transaction are one step; `CatalogueAdmin.AuditExactIff` and `EmbeddingSync` cover the interleaved case.
- Polling.PollerSafety: callbacks may stop the poller but neither throw nor start it again.

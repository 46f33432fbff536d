# Hangfire.MySqlStorage in Dafny

This project models the core of Hangfire.MySqlStorage, the MySQL storage backend for the Hangfire
background-job scheduler, and proves properties of that model. Almost every operation of the backend hands
one SQL statement to MySQL. Here the database is a record of in-memory tables (`Tables.Tables`: jobs,
states, job parameters, the job queue, counters, aggregated counters, lists, sets, hashes and servers),
each a sequence of row records. Each statement is a function over those tables. The object that runs it is
a Dafny class whose fields the methods update.

Modules follow the source files:

- `Wrappers`: `Option`, `Result`, `Outcome`, the error kinds (the .NET exceptions the code throws) and a
  cancellation token whose cancellation starts at a given check.
- `Text`: invariant-culture decimal formatting, `String.Join`, ASCII case folding and ordinal comparison.
- `Tables`: row types, the `Database` object holding the tables, counter sums, hash upsert and lookup, and
  `DELETE ... WHERE`.
- `StorageOptions`: `MySqlStorageOptions`, its defaults and the guarded `QueuePollInterval` setter.
- `QueueProviders`: `PersistentJobQueueProviderCollection`, the list of providers plus a case-insensitive
  map from queue name to provider.
- `Storage`: `MySqlStorage`, covering connection-string classification and the registry of open
  connections.
- `FetchedJobs`: the claim transaction and `MySqlFetchedJob`. A claim is a delete inside an open
  transaction, and rollback restores the queue as it was.
- `JobQueue`: `MySqlJobQueue`, covering the eligibility predicate, select-then-delete, the poll/cancel loop
  and `Enqueue`.
- `Aggregator`: `CountersAggregator`, the grouped upsert of `Counter` rows into `AggregatedCounter` and the
  repeat-while-full-batch loop.
- `Expiration`: `ExpirationManager`. It visits five tables in a fixed order and deletes expired rows in
  batches of 1000, so a failed batch is logged and the loop goes on.
- `WriteOnly`: `MySqlWriteOnlyTransaction`. It holds a FIFO queue of commands, a set of lock names, and an
  interpreter that replays the queue at commit.
- `Connection`: `MySqlStorageConnection`, covering fetch routing, job creation with its parameter-tuple SQL,
  job parameters, hashes, the lowest-score set lookup and timed-out server removal.
- `Monitoring`: `MySqlMonitoringApi`, covering statistics, capped counts, rank-window paging, the daily and
  hourly timelines with zero-fill, and the queue summaries.

Some modelling conventions:

- Instants and durations are whole seconds (`int`).
- Row ids are `int`.
- `null` arguments are `Option.None`.
- A thrown exception is an `Err`/`Fail` value naming the exception and its parameter.
- A `Set.Score` (a double in MySQL) is an `int`.
- The clock, configuration lookup and store faults are parameters of the operation that uses them. A
  clock is a function from the number of the poll (`Dequeue`) or of the batch (`ExpirationManager`) to
  the instant that step reads.

## Model

| member | source | states |
|---|---|---|
| Wrappers.CheckNotNull | Hangfire.MySql/JobQueue/MySqlFetchedJob.cs:17-21 | argument checks pass exactly when every argument is present; otherwise the first missing argument is named in an ArgumentNull error |
| Text.Decimal | Hangfire.MySql/JobQueue/MySqlJobQueue.cs:105 | the invariant-culture decimal text of a number is a non-empty digit string with a leading zero only for 0 |
| Text.DecimalRoundTrip | Hangfire.MySql/JobQueue/MySqlJobQueue.cs:105 | parsing the decimal text of n gives back n |
| Text.DecimalInjective | Hangfire.MySql/JobQueue/MySqlJobQueue.cs:105 | different numbers have different decimal texts |
| Text.IntString | Hangfire.MySql/Monitoring/MySqlMonitoringApi.cs:389-390 | the text of a signed id (`Id.ToString()`) is never empty |
| Text.IntStringRoundTrip | Hangfire.MySql/Monitoring/MySqlMonitoringApi.cs:389-390 | the text of a signed id is well formed and parses back to the id |
| Text.IntStringInjective | Hangfire.MySql/Monitoring/MySqlMonitoringApi.cs:389-390 | different ids give different keys |
| Text.Fold | Hangfire.MySql/JobQueue/PersistentJobQueueProviderCollection.cs:14-15 | a folded name holds no upper-case ASCII letter, and each position keeps its character or holds the lower-case partner of the upper-case letter that was there |
| Text.EqualsIgnoreCaseMeans | Hangfire.MySql/JobQueue/PersistentJobQueueProviderCollection.cs:14-15 | two names are equal ignoring case iff they have the same length and each position holds the same character or the two cases of one ASCII letter |
| Text.FoldIdempotent | Hangfire.MySql/JobQueue/PersistentJobQueueProviderCollection.cs:14-15 | folding twice is folding once, so the folded name is a canonical dictionary key |
| Tables.Database.constructor | Hangfire.MySql/MySqlStorage.cs:132-138 | the database object holds the given tables |
| Tables.CounterSumAppend | Hangfire.MySql/Monitoring/MySqlMonitoringApi.cs:129-131 | the per-key sum of `Counter` values splits over concatenated row sequences |
| Tables.UpsertHashLookup | Hangfire.MySql/MySqlStorageConnection.cs:372-379 | after `insert ... on duplicate key update` the upserted (key, field) reads the new value and every other (key, field) reads as before |
| Tables.UpsertHash | Hangfire.MySql/MySqlStorageConnection.cs:372-379 | (definition) `insert into Hash ... on duplicate key update`: overwrite the value of an existing (key, field) row or append a new row; UpsertHashLookup, UpsertHashUnique and UpsertHashMember state what it does |
| Tables.HashLookupIn | Hangfire.MySql/MySqlStorageConnection.cs:393 | a (key, field) lookup finds a value exactly when some row has that key and field |
| Tables.HashLookup | Hangfire.MySql/MySqlStorageConnection.cs:393 | (definition) the value stored for a (key, field), if any; HashLookupIn and HashFieldsLookup tie it to the rows |
| Tables.UpsertHashUnique | Hangfire.MySql/MySqlStorageConnection.cs:372-379 | the upsert keeps (key, field) unique and adds a row only when the pair was absent |
| Tables.UpsertHashMember | Hangfire.MySql/MySqlStorageConnection.cs:372-379 | every row after the upsert is either an old row or the upserted one |
| Tables.HashFieldsLookup | Hangfire.MySql/MySqlStorageConnection.cs:393-400 | the field map of a hash agrees with the per-field lookup: same fields, same values |
| Tables.DeleteWhere | Hangfire.MySql/MySqlWriteOnlyTransaction.cs:153 | `DELETE ... WHERE` keeps exactly the rows the condition spares and removes as many rows as match it |
| Tables.DeleteWhereKeepsOrder | Hangfire.MySql/MySqlWriteOnlyTransaction.cs:174 | the rows a delete keeps stay in their storage order |
| Tables.DeleteHashRowsUnique | Hangfire.MySql/MySqlWriteOnlyTransaction.cs:227 | deleting hash rows keeps (key, field) unique |
| Tables.DeleteHashLookup | Hangfire.MySql/MySqlWriteOnlyTransaction.cs:227 | after `delete from Hash where Key = @key` no field of that key is found and other hashes read as before |
| StorageOptions.CheckQueuePollInterval | Hangfire.MySql/MySqlStorageOptions.cs:33-40 | a poll interval is accepted exactly when it is positive; zero and negative values are an ArgumentException on "value" |
| StorageOptions.MySqlStorageOptions.constructor | Hangfire.MySql/MySqlStorageOptions.cs:10-20 | defaults: ReadCommitted isolation, 15 s poll, 1 h expiration check, 5 min aggregation, prepare schema, list limit 50000, 1 min transaction timeout, 30 min invisibility; a positive poll interval |
| StorageOptions.MySqlStorageOptions.SetQueuePollInterval | Hangfire.MySql/MySqlStorageOptions.cs:24-43 | a positive value is stored, a rejected one leaves the previous interval, and a positive interval stays an object invariant |
| QueueProviders.RegisterKeys | Hangfire.MySql/JobQueue/PersistentJobQueueProviderCollection.cs:37-40 | after registering queue names the map holds the old keys plus the folded new names |
| QueueProviders.RegisterResolves | Hangfire.MySql/JobQueue/PersistentJobQueueProviderCollection.cs:37-48 | every registered queue name, in any letter case, resolves to the registering provider |
| QueueProviders.RegisterKeepsOthers | Hangfire.MySql/JobQueue/PersistentJobQueueProviderCollection.cs:37-48 | queues not named in the call resolve as before, including to the default when unregistered |
| QueueProviders.Resolve | Hangfire.MySql/JobQueue/PersistentJobQueueProviderCollection.cs:43-48 | (definition) the provider registered for the case-folded queue name, else the default; RegisterResolves and RegisterKeepsOthers state what it returns after `Add` |
| QueueProviders.ProviderCollection.constructor | Hangfire.MySql/JobQueue/PersistentJobQueueProviderCollection.cs:19-26 | a new collection enumerates exactly [default] and maps no queue |
| QueueProviders.ProviderCollection.New | Hangfire.MySql/JobQueue/PersistentJobQueueProviderCollection.cs:19-26 | a missing default provider is an ArgumentNull on "defaultProvider"; otherwise the collection is [default] |
| QueueProviders.ProviderCollection.Add | Hangfire.MySql/JobQueue/PersistentJobQueueProviderCollection.cs:28-41 | a missing provider or queue list throws before any change; otherwise the provider is appended after the earlier ones, each name is mapped in turn, and a case-insensitive duplicate throws with the provider and the earlier names already applied |
| QueueProviders.ProviderCollection.GetProvider | Hangfire.MySql/JobQueue/PersistentJobQueueProviderCollection.cs:43-48 | (definition) `GetProvider(queue)` is Resolve over the collection's dictionary and default |
| QueueProviders.ProviderCollection.Enumerate | Hangfire.MySql/JobQueue/PersistentJobQueueProviderCollection.cs:50-53 | (definition) enumerating the collection lists its providers in the order they were added, the default first, as the constructor and Add state |
| Storage.ResolveConnectionString | Hangfire.MySql/MySqlStorage.cs:26-45 | null name or null options throw ArgumentNull with the matching name; a string containing ';' is used verbatim; another name is looked up in configuration, and an unknown name is an ArgumentException |
| Storage.MySqlStorage.constructor | Hangfire.MySql/MySqlStorage.cs:46-56 | a new storage keeps its connection string and options, starts with the MySQL queue provider as default, and has no open connection |
| Storage.MySqlStorage.Create | Hangfire.MySql/MySqlStorage.cs:26-56 | construction fails exactly as connection-string resolution says and otherwise yields a storage with that connection string, the MySQL queue as the only provider, no queue mapped yet and no open connection |
| Storage.MySqlStorage.CreateAndOpenConnection | Hangfire.MySql/MySqlStorage.cs:132-138 | opening adds one new connection to the registry |
| Storage.MySqlStorage.ReleaseConnection | Hangfire.MySql/MySqlStorage.cs:140-144 | releasing removes that connection from the registry |
| Storage.MySqlStorage.UseConnection | Hangfire.MySql/MySqlStorage.cs:117-130 | the callback's tables become the database and its value the result; the registry is as it was afterwards, even when the callback fails |
| Storage.MySqlStorage.Dispose | Hangfire.MySql/MySqlStorage.cs:145-149 | disposing empties the registry |
| FetchedJobs.Transaction.constructor | Hangfire.MySql/JobQueue/MySqlJobQueue.cs:37 | a new transaction is pending and remembers the job queue as it was |
| FetchedJobs.Transaction.Commit | Hangfire.MySql/JobQueue/MySqlFetchedJob.cs:40 | commit of a pending transaction makes the delete permanent; committing twice is an InvalidOperation |
| FetchedJobs.Transaction.Rollback | Hangfire.MySql/JobQueue/MySqlFetchedJob.cs:46 | rollback of a pending transaction restores the remembered job queue and nothing else |
| FetchedJobs.Transaction.Dispose | Hangfire.MySql/JobQueue/MySqlFetchedJob.cs:33 | disposing a pending transaction rolls it back; a finished one is left alone |
| FetchedJobs.FetchedJob.constructor | Hangfire.MySql/JobQueue/MySqlFetchedJob.cs:15-29 | the handle carries its storage, connection, transaction, job id and queue |
| FetchedJobs.FetchedJob.New | Hangfire.MySql/JobQueue/MySqlFetchedJob.cs:15-29 | each missing argument, checked in source order, is an ArgumentNull naming it; otherwise the handle carries the given values |
| FetchedJobs.FetchedJob.RemoveFromQueue | Hangfire.MySql/JobQueue/MySqlFetchedJob.cs:37-41 | removing from the queue commits the claim |
| FetchedJobs.FetchedJob.Requeue | Hangfire.MySql/JobQueue/MySqlFetchedJob.cs:43-47 | requeueing rolls back, so the claimed row reappears unchanged |
| FetchedJobs.FetchedJob.Dispose | Hangfire.MySql/JobQueue/MySqlFetchedJob.cs:31-35 | disposing releases the connection and rolls back an uncommitted claim |
| JobQueue.FirstEligible | Hangfire.MySql/JobQueue/MySqlJobQueue.cs:52-59 | the selected row is in a requested queue with FetchedAt null or older than the cutoff, and no earlier row is; none means no row is eligible |
| JobQueue.Eligible | Hangfire.MySql/JobQueue/MySqlJobQueue.cs:52-57 | (definition) the `where` clause: the row's queue is requested and its FetchedAt is null or older than the cutoff; FirstEligible's contract is stated with it |
| JobQueue.DeleteByIdRemovesOne | Hangfire.MySql/JobQueue/MySqlJobQueue.cs:76-81 | deleting the claimed id removes exactly that row and leaves every other row unchanged and in place |
| JobQueue.DeleteByIdAbsent | Hangfire.MySql/JobQueue/MySqlJobQueue.cs:78-80 | deleting an id no row has changes nothing |
| JobQueue.DeleteById | Hangfire.MySql/JobQueue/MySqlJobQueue.cs:76-81 | (definition) `delete from JobQueue where Id = @Id`; DeleteByIdRemovesOne and DeleteByIdAbsent state what it removes |
| JobQueue.PlaceholderInjective | Hangfire.MySql/JobQueue/MySqlJobQueue.cs:48 | distinct positions get distinct `@queueN` names |
| JobQueue.IndexOf | Hangfire.MySql/JobQueue/MySqlJobQueue.cs:47 | `Array.IndexOf` is the first position holding the name |
| JobQueue.DuplicateIsNotFirst | Hangfire.MySql/JobQueue/MySqlJobQueue.cs:45-48 | a repeated queue name never gets its own position from `Array.IndexOf` |
| JobQueue.SlotAsWritten | Hangfire.MySql/JobQueue/MySqlJobQueue.cs:44-50 | after the loop as written, slot j stays null exactly when an earlier position holds the same name, and otherwise holds `@queue<j>` |
| JobQueue.EmptySlotIffRepeat | Hangfire.MySql/JobQueue/MySqlJobQueue.cs:44-50 | some slot stays null exactly when a queue name repeats |
| JobQueue.BoundTwiceIffRepeat | Hangfire.MySql/JobQueue/MySqlJobQueue.cs:47-49 | some position's placeholder is bound by two passes exactly when a queue name repeats |
| JobQueue.DuplicateQueueLeavesEmptySlot | Hangfire.MySql/JobQueue/MySqlJobQueue.cs:44-59 | for ["default", "default"] both passes bind `@queue0`, slot 1 stays null, and the joined list is `@queue0,` with an empty last item |
| JobQueue.PlaceholdersAsWritten | Hangfire.MySql/JobQueue/MySqlJobQueue.cs:44-50 | the placeholder loop as written: slot j is SlotAsWritten's, pass j binds the placeholder of `Array.IndexOf`'s position, and a null slot and a twice-bound placeholder each occur exactly when a name repeats |
| JobQueue.Placeholders | Hangfire.MySql/JobQueue/MySqlJobQueue.cs:44-50 | corrected placeholders: one distinct `@queueN` per position |
| JobQueue.PlaceholdersSelectQueues | Hangfire.MySql/JobQueue/MySqlJobQueue.cs:44-57 | with the corrected list, `Queue in (@queue0, ..., @queueN)` holds for a name iff the name is one of the requested queues |
| JobQueue.Polls | Hangfire.MySql/JobQueue/MySqlJobQueue.cs:32-99 | a poll loop ends in a claim of the first eligible row at an uncancelled, fault-free poll, a cancellation at a check where it was requested, or a store fault at a faulting poll |
| JobQueue.PollsEndAtFirstChance | Hangfire.MySql/JobQueue/MySqlJobQueue.cs:32-99 | every poll before the one the loop ends at was uncancelled, fault-free and found no eligible row, so a claim is at the first poll that finds one; at the bound every followed poll was empty |
| JobQueue.PollsClaimWhenEligible | Hangfire.MySql/JobQueue/MySqlJobQueue.cs:32-81 | without cancellation or faults, an eligible row is claimed at the first poll |
| JobQueue.PollsNeverClaimEmpty | Hangfire.MySql/JobQueue/MySqlJobQueue.cs:90-99 | when no row is in a requested queue, the loop never returns a claim |
| JobQueue.Enqueue | Hangfire.MySql/JobQueue/MySqlJobQueue.cs:109-112 | enqueueing appends exactly one row with the job id, the queue and FetchedAt null; nothing else changes |
| JobQueue.EnqueueKeepsIdsUnique | Hangfire.MySql/JobQueue/MySqlJobQueue.cs:109-112 | queue row ids stay unique and below the next id |
| JobQueue.EnqueuedIsClaimable | Hangfire.MySql/JobQueue/MySqlJobQueue.cs:52-59 | after an enqueue into a requested queue some row is eligible |
| JobQueue.MySqlJobQueue.constructor | Hangfire.MySql/JobQueue/MySqlJobQueue.cs:16-20 | the queue keeps its storage and options |
| JobQueue.MySqlJobQueue.Poll | Hangfire.MySql/JobQueue/MySqlJobQueue.cs:36-98 | one poll, whose `in (...)` test is membership in the requested queues, either deletes the first eligible row inside an open transaction and keeps its connection open, or rolls back and releases, leaving tables and registry unchanged |
| JobQueue.MySqlJobQueue.Dequeue | Hangfire.MySql/JobQueue/MySqlJobQueue.cs:22-107 | null queues are an ArgumentNull and an empty array an ArgumentException before any store access; otherwise the outcome is the poll loop's, and a claim deletes exactly the claimed row in a pending transaction and hands out its job id as decimal text and its queue |
| Aggregator.Greatest | Hangfire.MySql/CountersAggregator.cs:72 | MySQL `GREATEST` is null when either side is null and otherwise the larger of the two |
| Aggregator.GroupExpire | Hangfire.MySql/CountersAggregator.cs:64 | `MAX(ExpireAt)` of a key's group is null exactly when all its ExpireAt are null, and otherwise is the largest of them |
| Aggregator.BatchKeys | Hangfire.MySql/CountersAggregator.cs:69 | `GROUP BY Key` yields each key of the batch exactly once |
| Aggregator.CounterSumMissing | Hangfire.MySql/CountersAggregator.cs:64 | a key absent from the batch sums to 0 |
| Aggregator.UpsertSum | Hangfire.MySql/CountersAggregator.cs:63-72 | the upsert adds the group sum to its key's aggregated value and changes no other key |
| Aggregator.UpsertLookup | Hangfire.MySql/CountersAggregator.cs:70-72 | after the upsert the key's row holds old value + sum and `GREATEST` of the ExpireAt values, or is the new row; other keys read as before |
| Aggregator.UpsertKeyFrom | Hangfire.MySql/CountersAggregator.cs:63-72 | every key after the upsert was already there or is the upserted key |
| Aggregator.UpsertUnique | Hangfire.MySql/CountersAggregator.cs:63-72 | the upsert keeps `AggregatedCounter` keys unique |
| Aggregator.Upsert | Hangfire.MySql/CountersAggregator.cs:63-72 | (definition) the upsert of one group: add to the existing key's value with `GREATEST` of the expiries, or append a row; UpsertSum, UpsertLookup, UpsertKeyFrom and UpsertUnique state its meaning |
| Aggregator.MergeAllSum | Hangfire.MySql/CountersAggregator.cs:63-72 | upserting every group adds each key's batch sum to its aggregated sum |
| Aggregator.MergeAllLookup | Hangfire.MySql/CountersAggregator.cs:63-72 | after all upserts each grouped key holds old value + batch sum and the combined expiry |
| Aggregator.MergeAllUnique | Hangfire.MySql/CountersAggregator.cs:63-72 | upserting every group keeps keys unique |
| Aggregator.MergeAll | Hangfire.MySql/CountersAggregator.cs:63-72 | (definition) the upserts of every group of the batch, one after another; MergeAllSum, MergeAllLookup and MergeAllUnique state its meaning |
| Aggregator.AggregatePass | Hangfire.MySql/CountersAggregator.cs:57-78 | one pass removes a batch of up to 1000 `Counter` rows and touches only the two counter tables |
| Aggregator.PassConserves | Hangfire.MySql/CountersAggregator.cs:63-75 | for every key, Counter sum plus AggregatedCounter value is the same before and after a pass |
| Aggregator.PassAggregates | Hangfire.MySql/CountersAggregator.cs:63-75 | after a pass each batched key is in `AggregatedCounter` and keys stay unique |
| Aggregator.Run | Hangfire.MySql/CountersAggregator.cs:33-47 | the loop touches only the counter tables; it finishes with `Counter` empty, or ends with an OperationCanceled after a full batch |
| Aggregator.RunConserves | Hangfire.MySql/CountersAggregator.cs:33-47 | the loop conserves every key's total however it ends |
| Aggregator.CancelledRunStillAggregates | Hangfire.MySql/CountersAggregator.cs:33-46 | cancellation is only checked after a batch, so a cancelled run still aggregates one batch first |
| Aggregator.CountersAggregator.constructor | Hangfire.MySql/CountersAggregator.cs:19-25 | the aggregator keeps its storage and options |
| Aggregator.CountersAggregator.New | Hangfire.MySql/CountersAggregator.cs:19-25 | a missing storage is an ArgumentNull on "storage" |
| Aggregator.CountersAggregator.Execute | Hangfire.MySql/CountersAggregator.cs:27-50 | the new tables and the outcome are those of the loop, every key's total is conserved, and the registry is unchanged |
| Expiration.DropExpiredCounts | Hangfire.MySql/ExpirationManager.cs:61 | a limited delete removes min(limit, expired) rows |
| Expiration.DropExpiredKeepsLive | Hangfire.MySql/ExpirationManager.cs:61 | a delete with the clock at `at` keeps, in order, every row live at any `now` not before `at` |
| Expiration.DropExpiredOnlyDeletes | Hangfire.MySql/ExpirationManager.cs:61 | the delete adds no row |
| Expiration.DropExpired | Hangfire.MySql/ExpirationManager.cs:61 | (definition) `delete ... where ExpireAt < @now limit @count`: the first `limit` expired rows in storage order go; DropExpiredCounts, DropExpiredKeepsLive and DropExpiredOnlyDeletes state its meaning |
| Expiration.DeleteBatchFacts | Hangfire.MySql/ExpirationManager.cs:57-62 | a batch on one table removes min(1000, expired) rows, deletes none exactly when none is expired, keeps the other tables, and lowers the row and expired counts by what it removed |
| Expiration.DeleteBatchKeepsLive | Hangfire.MySql/ExpirationManager.cs:57-62 | a batch run with the clock at `at` keeps every row live at any later `now` |
| Expiration.DeleteBatch | Hangfire.MySql/ExpirationManager.cs:57-62 | (definition) one batch on one of the five tables with its row count; DeleteBatchFacts and DeleteBatchKeepsLive state its meaning |
| Expiration.SameOutsideOthers | Hangfire.MySql/ExpirationManager.cs:45-79 | work on one table leaves every other table's rows, and so its expired count, as they were |
| Expiration.SameOutsideChain | Hangfire.MySql/ExpirationManager.cs:51-78 | changes confined to one table compose across batches |
| Expiration.SameTableChain | Hangfire.MySql/ExpirationManager.cs:45-79 | a table left alone by two steps is left alone by both |
| Expiration.BatchStep | Hangfire.MySql/ExpirationManager.cs:53-70 | one batch with the clock read for it: after a logged store error the tables stay and removedCount keeps the previous count; otherwise at most 1000 expired rows go, none exactly when none is expired; a non-zero count brings the loop closer to its end |
| Expiration.TableLoop | Hangfire.MySql/ExpirationManager.cs:51-78 | the per-table loop runs at least one batch, and only a first batch that fails leaves the table skipped and unchanged |
| Expiration.TableLoopFacts | Hangfire.MySql/ExpirationManager.cs:51-78 | the per-table loop changes no other table, and unless cancelled or skipped it ends at a batch whose clock found no expired row |
| Expiration.TableLoopCancellation | Hangfire.MySql/ExpirationManager.cs:51-78 | the token is read only after a batch that left a non-zero removedCount: the loop ends cancelled iff its last count is non-zero, then at the first check that finds the token set, and every earlier check found it clear |
| Expiration.TableLoopKeepsLive | Hangfire.MySql/ExpirationManager.cs:51-78 | the per-table loop keeps every row live at any `now` that no batch's clock exceeds, such as the last batch's clock when time does not go back |
| Expiration.SameLiveChain | Hangfire.MySql/ExpirationManager.cs:45-79 | keeping live rows composes across tables |
| Expiration.Sweep | Hangfire.MySql/ExpirationManager.cs:45-79 | the `foreach` over the tables: each table's loop starts at the next batch, and a cancelled loop ends the run; the run never goes back in batch numbers, and SweepFacts, SweepCancellation, SweepStopsIn, SweepChangesOnlyProcessed and SweepKeepsLive state its meaning |
| Expiration.SweepFacts | Hangfire.MySql/ExpirationManager.cs:45-79 | visiting the tables in order leaves the tables outside the order as they were (for the five processed tables it is SweepChangesOnlyProcessed that says what stays), and each table that was visited and not skipped reached a batch of the run whose clock found no expired row, with no later change |
| Expiration.SweepCancellation | Hangfire.MySql/ExpirationManager.cs:45-79 | a run ends cancelled iff its last batch left a non-zero count, and then stopped at a check that found the token set |
| Expiration.StoppedInShift | Hangfire.MySql/ExpirationManager.cs:45-79 | past an uncancelled first table, stopping in the rest's k-th table is stopping in the order's (k+1)-th |
| Expiration.SweepStopsIn | Hangfire.MySql/ExpirationManager.cs:45-79 | a cancelled run was stopped inside the loop of one table `order[k]`: every table before it ran uncancelled, that table's loop was cancelled, the run ended in that loop's state, and every table after `order[k]` holds the rows it held |
| Expiration.SweepChangesOnlyProcessed | Hangfire.MySql/ExpirationManager.cs:45-79 | a run changes only the five tables the reaper deletes from; State, JobParameter, JobQueue, Counter, Server and the id counters are as they were |
| Expiration.SweepKeepsLive | Hangfire.MySql/ExpirationManager.cs:45-79 | a run keeps every row live at any `now` that no batch's clock exceeds |
| Expiration.ProcessedTablesDistinct | Hangfire.MySql/ExpirationManager.cs:18-25 | the five processed tables are distinct |
| Expiration.ExpirationManager.constructor | Hangfire.MySql/ExpirationManager.cs:35-41 | the manager keeps its storage and check interval |
| Expiration.ExpirationManager.New | Hangfire.MySql/ExpirationManager.cs:30-41 | a missing storage is an ArgumentNull on "storage" |
| Expiration.ExpirationManager.RunBatch | Hangfire.MySql/ExpirationManager.cs:53-68 | a batch deletes as DeleteBatch says; after a logged store error the tables are unchanged and removedCount keeps its previous value |
| Expiration.ExpirationManager.ProcessTable | Hangfire.MySql/ExpirationManager.cs:49-78 | the imperative do/while, reading the clock for each batch, ends in the state and outcome of the per-table loop |
| Expiration.ExpirationManager.Execute | Hangfire.MySql/ExpirationManager.cs:43-82 | visiting the five tables, with the clock read for each batch, ends in the sweep's state and outcome, with an OperationCanceled iff cancellation stopped it, changes only the five processed tables, and on cancellation names the table whose loop stopped it, with every table after it untouched |
| WriteOnly.HashCommands | Hangfire.MySql/MySqlWriteOnlyTransaction.cs:207-218 | one queued upsert per pair, in order |
| WriteOnly.ExecuteAllAppend | Hangfire.MySql/MySqlWriteOnlyTransaction.cs:248-252 | replaying a + b is replaying a, then b |
| WriteOnly.Execute | Hangfire.MySql/MySqlWriteOnlyTransaction.cs:28-231 | (definition) the effect of each queued command on the tables; the lemmas CounterInsertValue, ExpirationTouchesOnlyTheJob, SetStateVersusAddState, UpsertSetResult, ExecuteKeepsUnique and RemoveHashEmpties state it command by command |
| WriteOnly.ExecuteAll | Hangfire.MySql/MySqlWriteOnlyTransaction.cs:233-254 | (definition) Commit's replay of the queued commands, first queued first; ExecuteAllAppend and ExecuteAllKeepsUnique state its meaning |
| WriteOnly.CounterInsertValue | Hangfire.MySql/MySqlWriteOnlyTransaction.cs:87-127 | inserting a counter row changes that key's total by the row's value and no other key's total |
| WriteOnly.IncrementThenDecrement | Hangfire.MySql/MySqlWriteOnlyTransaction.cs:87-127 | an increment followed by a decrement leaves every total as it was |
| WriteOnly.ExpirationTouchesOnlyTheJob | Hangfire.MySql/MySqlWriteOnlyTransaction.cs:28-44 | setting or clearing ExpireAt changes only the job table, only that job's ExpireAt |
| WriteOnly.SetStateVersusAddState | Hangfire.MySql/MySqlWriteOnlyTransaction.cs:46-76 | both add one state row; only SetJobState makes it the job's current state and name |
| WriteOnly.UpsertSetResult | Hangfire.MySql/MySqlWriteOnlyTransaction.cs:134-147 | adding to a set keeps (key, value) unique, sets the member's score, and adds a row only for a new member |
| WriteOnly.UpsertSet | Hangfire.MySql/MySqlWriteOnlyTransaction.cs:134-147 | (definition) `insert into Set ... on duplicate key update Score`: an existing member only gets the new score, a new one is appended; UpsertSetResult states its meaning |
| WriteOnly.ExecuteKeepsUnique | Hangfire.MySql/MySqlWriteOnlyTransaction.cs:129-231 | every command keeps set members and hash fields unique |
| WriteOnly.ExecuteAllKeepsUnique | Hangfire.MySql/MySqlWriteOnlyTransaction.cs:248-252 | replaying any queue keeps set members and hash fields unique |
| WriteOnly.HashRangeLastPairWins | Hangfire.MySql/MySqlWriteOnlyTransaction.cs:200-219 | after the queued hash upserts the last pair for a field wins, and fields not named read as before |
| WriteOnly.RemoveHashEmpties | Hangfire.MySql/MySqlWriteOnlyTransaction.cs:221-231 | removing a hash leaves no field of it and other hashes as they were |
| WriteOnly.WriteOnlyTransaction.constructor | Hangfire.MySql/MySqlWriteOnlyTransaction.cs:16-22 | a new transaction has an empty command queue and no lock names |
| WriteOnly.WriteOnlyTransaction.QueueCommand | Hangfire.MySql/MySqlWriteOnlyTransaction.cs:256-259 | the command goes to the back of the queue |
| WriteOnly.WriteOnlyTransaction.AcquireLock | Hangfire.MySql/MySqlWriteOnlyTransaction.cs:276-279 | the lock name joins the set |
| WriteOnly.WriteOnlyTransaction.ExpireJob | Hangfire.MySql/MySqlWriteOnlyTransaction.cs:28-36 | queues an update of the job's ExpireAt to now + expireIn |
| WriteOnly.WriteOnlyTransaction.PersistJob | Hangfire.MySql/MySqlWriteOnlyTransaction.cs:38-44 | queues clearing the job's ExpireAt |
| WriteOnly.WriteOnlyTransaction.SetJobState | Hangfire.MySql/MySqlWriteOnlyTransaction.cs:46-61 | queues a state insert that also becomes the job's current state |
| WriteOnly.WriteOnlyTransaction.AddJobState | Hangfire.MySql/MySqlWriteOnlyTransaction.cs:63-76 | queues a state insert only |
| WriteOnly.WriteOnlyTransaction.AddToQueue | Hangfire.MySql/MySqlWriteOnlyTransaction.cs:78-85 | queues the queue provider's enqueue command |
| WriteOnly.WriteOnlyTransaction.IncrementCounter | Hangfire.MySql/MySqlWriteOnlyTransaction.cs:87-95 | queues a +1 counter row without expiry |
| WriteOnly.WriteOnlyTransaction.IncrementCounterExpiring | Hangfire.MySql/MySqlWriteOnlyTransaction.cs:97-106 | queues a +1 counter row expiring at now + expireIn |
| WriteOnly.WriteOnlyTransaction.DecrementCounter | Hangfire.MySql/MySqlWriteOnlyTransaction.cs:108-115 | queues a -1 counter row without expiry |
| WriteOnly.WriteOnlyTransaction.DecrementCounterExpiring | Hangfire.MySql/MySqlWriteOnlyTransaction.cs:117-127 | queues a -1 counter row expiring at now + expireIn |
| WriteOnly.WriteOnlyTransaction.AddToSet | Hangfire.MySql/MySqlWriteOnlyTransaction.cs:129-132 | queues a set upsert with score 0 and records the set lock |
| WriteOnly.WriteOnlyTransaction.AddToSetWithScore | Hangfire.MySql/MySqlWriteOnlyTransaction.cs:134-147 | queues a set upsert with the score and records the set lock |
| WriteOnly.WriteOnlyTransaction.RemoveFromSet | Hangfire.MySql/MySqlWriteOnlyTransaction.cs:149-157 | queues deleting the member and records the set lock |
| WriteOnly.WriteOnlyTransaction.InsertToList | Hangfire.MySql/MySqlWriteOnlyTransaction.cs:159-168 | queues a list insert and records the list lock |
| WriteOnly.WriteOnlyTransaction.RemoveFromList | Hangfire.MySql/MySqlWriteOnlyTransaction.cs:170-179 | queues deleting matching list items and records the list lock |
| WriteOnly.WriteOnlyTransaction.SetRangeInHash | Hangfire.MySql/MySqlWriteOnlyTransaction.cs:200-219 | a null key or pair list throws before any change; otherwise it queues one upsert per pair in order and records the hash lock |
| WriteOnly.WriteOnlyTransaction.RemoveHash | Hangfire.MySql/MySqlWriteOnlyTransaction.cs:221-231 | a null key throws before any change; otherwise it queues the delete and records the hash lock |
| WriteOnly.WriteOnlyTransaction.Commit | Hangfire.MySql/MySqlWriteOnlyTransaction.cs:233-254 | replays the whole queue in order inside one transaction; a failing command leaves the store as it was |
| Connection.DistinctProviders | Hangfire.MySql/MySqlStorageConnection.cs:85-88 | `Distinct()` keeps each provider once, and only providers that occur |
| Connection.SingleDistinctProvider | Hangfire.MySql/MySqlStorageConnection.cs:85-90 | there is one distinct provider exactly when every queue resolves to the same provider |
| Connection.RouteFetch | Hangfire.MySql/MySqlStorageConnection.cs:81-99 | null or empty queues are an ArgumentNull; more than one distinct provider is an InvalidOperation; otherwise it routes to the single provider |
| Connection.ParameterTuples | Hangfire.MySql/MySqlStorageConnection.cs:60-73 | one tuple per parameter |
| Connection.BindingNamesDistinct | Hangfire.MySql/MySqlStorageConnection.cs:69-71 | the bound names `@jobIdN`, `@nameN`, `@valueN` never collide |
| Connection.BindingsAt | Hangfire.MySql/MySqlStorageConnection.cs:61-73 | the bindings are three per parameter, binding the job id, the name and the value of parameter N |
| Connection.TuplesStep | Hangfire.MySql/MySqlStorageConnection.cs:63-68 | a comma separates a tuple from the previous ones and the first has none |
| Connection.ParameterInsertCommand | Hangfire.MySql/MySqlStorageConnection.cs:55-76 | the built SQL is the insert prefix followed by n comma-separated `(@jobIdi, @namei, @valuei)` tuples, with the matching bindings |
| Connection.ParameterRows | Hangfire.MySql/MySqlStorageConnection.cs:55-76 | one parameter row per given parameter |
| Connection.ParameterValueMissing | Hangfire.MySql/MySqlStorageConnection.cs:120-145 | reading a parameter gives null exactly when no row has that (job, name) |
| Connection.ParameterValue | Hangfire.MySql/MySqlStorageConnection.cs:120-145 | (definition) the value of the last row the reader reads for (job, name), if any; ParameterValueMissing, OverwriteParameterValue and SetThenGetParameter state its meaning |
| Connection.OverwriteParameterValue | Hangfire.MySql/MySqlStorageConnection.cs:109-112 | overwriting an existing (job, name) makes it read the new value and leaves other parameters alone |
| Connection.UpsertParameter | Hangfire.MySql/MySqlStorageConnection.cs:101-117 | (definition) `insert into JobParameter ... on duplicate key update Value`; SetThenGetParameter states its meaning |
| Connection.SetThenGetParameter | Hangfire.MySql/MySqlStorageConnection.cs:101-145 | after setting a parameter, reading it gives the value; other parameters read as before |
| Connection.CreatedJobParameters | Hangfire.MySql/MySqlStorageConnection.cs:35-79 | every parameter stored with a new job reads back for that job's id |
| Connection.CreateJob | Hangfire.MySql/MySqlStorageConnection.cs:35-79 | (definition) the Job insert with ExpireAt = createdAt + expireIn and the new id, then its parameter rows; CreatedJobParameters and CreateExpiredJob state its meaning |
| Connection.HashLookupSnoc | Hangfire.MySql/MySqlStorageConnection.cs:397-400 | the reader's last matching row wins |
| Connection.FieldMapMatchesLookup | Hangfire.MySql/MySqlStorageConnection.cs:388-403 | with unique fields the reader never hits a duplicate key and its map agrees with the lookup |
| Connection.FieldMapErrSticks | Hangfire.MySql/MySqlStorageConnection.cs:397-400 | once `Dictionary.Add` throws on a duplicate field the whole read fails |
| Connection.FieldMap | Hangfire.MySql/MySqlStorageConnection.cs:388-403 | (definition) the dictionary the reader builds field by field, failing on a repeated field; FieldMapMatchesLookup and FieldMapErrSticks state its meaning |
| Connection.HashRangeKeepsUnique | Hangfire.MySql/MySqlStorageConnection.cs:369-380 | the upsert loop keeps hash fields unique |
| Connection.SetRangeThenGetAll | Hangfire.MySql/MySqlStorageConnection.cs:362-405 | after SetRangeInHash the reader never throws; a field is in the result iff some pair names it or the hash already had it, with its last pair's value, else its old value; the result is empty, read as null, iff no pair was given and the hash had no field |
| Connection.LowestScoreIndex | Hangfire.MySql/MySqlStorageConnection.cs:340-346 | the chosen row has the key and a score in [from, to], and no such row has a lower score or an equal score earlier; none means no row matches |
| Connection.MySqlStorageConnection.constructor | Hangfire.MySql/MySqlStorageConnection.cs:16-19 | the connection keeps its storage |
| Connection.MySqlStorageConnection.FetchNextJob | Hangfire.MySql/MySqlStorageConnection.cs:81-99 | a routing error is rejected and a provider other than the MySQL one is reported, both leaving the store untouched; otherwise the outcome is the MySQL queue's dequeue: cancellation, fault, bound and claim exactly as the poll loop over the job queue with the storage's invisibility timeout ends, and a claim deletes exactly the claimed row, registers one connection and hands out a job of a requested queue with its transaction pending |
| Connection.MySqlStorageConnection.CreateExpiredJob | Hangfire.MySql/MySqlStorageConnection.cs:35-79 | null job or parameters throw before any change; otherwise one job row with ExpireAt = createdAt + expireIn and one parameter row per parameter are added, and its id is returned |
| Connection.MySqlStorageConnection.SetJobParameter | Hangfire.MySql/MySqlStorageConnection.cs:101-118 | a null id or name throws before any change; otherwise the parameter is upserted |
| Connection.MySqlStorageConnection.GetJobParameter | Hangfire.MySql/MySqlStorageConnection.cs:120-145 | a null id or name throws; otherwise it gives the stored value or null |
| Connection.MySqlStorageConnection.RemoveTimedOutServers | Hangfire.MySql/MySqlStorageConnection.cs:298-312 | a negative timeout is an ArgumentException before any change; otherwise exactly the servers with LastHeartbeat < now - timeOut are deleted and their number returned |
| Connection.MySqlStorageConnection.SetRangeInHash | Hangfire.MySql/MySqlStorageConnection.cs:362-382 | a null key or pair list throws before any change; otherwise each pair is upserted in order |
| Connection.MySqlStorageConnection.GetAllEntriesFromHash | Hangfire.MySql/MySqlStorageConnection.cs:384-405 | a null key throws; otherwise it gives the field map, null when the hash has no field, and fails on a duplicate field |
| Connection.MySqlStorageConnection.GetFirstByLowestScoreFromSet | Hangfire.MySql/MySqlStorageConnection.cs:336-360 | it gives the value of the lowest-scored member in [from, to], or null if there is none, and changes nothing |
| Monitoring.InsertBy | Hangfire.MySql/Monitoring/MySqlMonitoringApi.cs:34 | insertion adds exactly the element |
| Monitoring.SortBy | Hangfire.MySql/Monitoring/MySqlMonitoringApi.cs:34 | `OrderBy` is a permutation |
| Monitoring.InsertBySorted | Hangfire.MySql/Monitoring/MySqlMonitoringApi.cs:34 | inserting into a sorted sequence keeps it sorted |
| Monitoring.SortBySorted | Hangfire.MySql/Monitoring/MySqlMonitoringApi.cs:34 | `OrderBy` with a total preorder yields a sorted sequence |
| Monitoring.OrZero | Hangfire.MySql/Monitoring/MySqlMonitoringApi.cs:263 | `?? 0` gives 0 for null and the value otherwise |
| Monitoring.MonitorsOf | Hangfire.MySql/Monitoring/MySqlMonitoringApi.cs:31-32 | one monitoring API per provider |
| Monitoring.QueuePairs | Hangfire.MySql/Monitoring/MySqlMonitoringApi.cs:33 | `SelectMany` pairs each queue with its provider, as many pairs as queues in total |
| Monitoring.QueuePairsComplete | Hangfire.MySql/Monitoring/MySqlMonitoringApi.cs:33 | every queue of every provider appears |
| Monitoring.QueueNameOrder | Hangfire.MySql/Monitoring/MySqlMonitoringApi.cs:34 | ordering by queue name is a total preorder |
| Monitoring.SortedQueuesFacts | Hangfire.MySql/Monitoring/MySqlMonitoringApi.cs:31-35 | the queue tuples are sorted by name and are a permutation of all provider queues |
| Monitoring.DeserializeJobs | Hangfire.MySql/Monitoring/MySqlMonitoringApi.cs:374-394 | one entry per job, in order, keyed by the job id's text and carrying its state name |
| Monitoring.EntryKeyIsJobId | Hangfire.MySql/Monitoring/MySqlMonitoringApi.cs:389-390 | an entry's key parses back to its job id |
| Monitoring.JobsWithIds | Hangfire.MySql/Monitoring/MySqlMonitoringApi.cs:455-469 | no ids give no jobs; otherwise a job is selected exactly when its id is listed |
| Monitoring.CountComplement | Hangfire.MySql/Monitoring/MySqlMonitoringApi.cs:331 | the rows that match and those that do not add up to all rows |
| Monitoring.StateJobsCount | Hangfire.MySql/Monitoring/MySqlMonitoringApi.cs:331 | the jobs selected for a state are as many as the state count |
| Monitoring.JobCountByState | Hangfire.MySql/Monitoring/MySqlMonitoringApi.cs:327-339 | with no limit the plain count of jobs in the state; with a limit l >= 0, min(count, l); a negative limit is a store error |
| Monitoring.IdDescendingOrder | Hangfire.MySql/Monitoring/MySqlMonitoringApi.cs:362 | `order by Id desc` is a total preorder |
| Monitoring.PageBounds | Hangfire.MySql/Monitoring/MySqlMonitoringApi.cs:363-368 | the window holds exactly the ranks from+1..from+count and at most count items |
| Monitoring.JobsPageWindow | Hangfire.MySql/Monitoring/MySqlMonitoringApi.cs:355-369 | the page is the contiguous run of ranked jobs with rank from+1..from+count, at most count of them |
| Monitoring.JobsPageMembers | Hangfire.MySql/Monitoring/MySqlMonitoringApi.cs:361 | every job on the page is in the requested state and is a stored job |
| Monitoring.JobsPageOrder | Hangfire.MySql/Monitoring/MySqlMonitoringApi.cs:362 | page ids are in descending order |
| Monitoring.RankedJobsComplete | Hangfire.MySql/Monitoring/MySqlMonitoringApi.cs:356-362 | every job in the state is ranked |
| Monitoring.AddIgnoringNull | Hangfire.MySql/Monitoring/MySqlMonitoringApi.cs:130 | SQL `SUM` skips nulls: null only when both are null, and adds as numbers otherwise |
| Monitoring.SumIgnoringNullAppend | Hangfire.MySql/Monitoring/MySqlMonitoringApi.cs:130-133 | the outer SUM over `union all` splits over the two parts |
| Monitoring.AggregatedValuesSum | Hangfire.MySql/Monitoring/MySqlMonitoringApi.cs:133 | summing the AggregatedCounter column gives the aggregated value for the key |
| Monitoring.CounterColumnSum | Hangfire.MySql/Monitoring/MySqlMonitoringApi.cs:131 | the inner `sum(Value)` read as 0 when null is the Counter sum for the key |
| Monitoring.CounterColumn | Hangfire.MySql/Monitoring/MySqlMonitoringApi.cs:131 | (definition) the inner `sum(Value)`, NULL when the key has no Counter row; CounterColumnSum states its meaning |
| Monitoring.CounterStatistic | Hangfire.MySql/Monitoring/MySqlMonitoringApi.cs:129-134 | the succeeded/deleted query equals the Counter sum plus the AggregatedCounter value for the key |
| Monitoring.StatisticSurvivesAggregation | Hangfire.MySql/Monitoring/MySqlMonitoringApi.cs:129-134 | a counter aggregation pass does not change any statistic the dashboard reads |
| Monitoring.GetStatistics | Hangfire.MySql/Monitoring/MySqlMonitoringApi.cs:126-156 | succeeded and deleted are the two-table totals; each state count is the number of jobs in that state; recurring is the number of `recurring-jobs` set rows; servers and queues are counted |
| Monitoring.TimelineKeyInjective | Hangfire.MySql/Monitoring/MySqlMonitoringApi.cs:423 | different days give different `stats:kind:day` keys |
| Monitoring.ReadValuesLookup | Hangfire.MySql/Monitoring/MySqlMonitoringApi.cs:431-434 | the value map holds exactly the requested keys that have a row, with their values |
| Monitoring.ReadValuesUnique | Hangfire.MySql/Monitoring/MySqlMonitoringApi.cs:431-434 | with unique keys `ToDictionary` never throws |
| Monitoring.ReadValuesErr | Hangfire.MySql/Monitoring/MySqlMonitoringApi.cs:434 | a duplicate key is an ArgumentException |
| Monitoring.ReadValues | Hangfire.MySql/Monitoring/MySqlMonitoringApi.cs:431-434 | (definition) the select of the requested keys into a dictionary that throws on a repeated key; ReadValuesLookup, ReadValuesUnique and ReadValuesErr state its meaning |
| Monitoring.UnitsBack | Hangfire.MySql/Monitoring/MySqlMonitoringApi.cs:415-421 | the loop lists n consecutive units counting back from the end |
| Monitoring.FillZeros | Hangfire.MySql/Monitoring/MySqlMonitoringApi.cs:436-439 | every requested key is present afterwards, with its value if it had one and 0 otherwise |
| Monitoring.Collect | Hangfire.MySql/Monitoring/MySqlMonitoringApi.cs:441-446 | the result maps exactly the listed units to their keys' values |
| Monitoring.Timeline | Hangfire.MySql/Monitoring/MySqlMonitoringApi.cs:411-449 | the timeline has exactly the n units ending at end, each mapped to its AggregatedCounter value or 0; it fails only with an ArgumentException on duplicate keys |
| Monitoring.MySqlMonitoringApi.constructor | Hangfire.MySql/Monitoring/MySqlMonitoringApi.cs:22-28 | keeps its storage and options |
| Monitoring.MySqlMonitoringApi.New | Hangfire.MySql/Monitoring/MySqlMonitoringApi.cs:22-28 | a missing storage is an ArgumentNull on "storage" |
| Monitoring.MySqlMonitoringApi.GetQueueApi | Hangfire.MySql/Monitoring/MySqlMonitoringApi.cs:340-346 | the monitoring API of the provider the queue resolves to |
| Monitoring.MySqlMonitoringApi.EnqueuedCount | Hangfire.MySql/Monitoring/MySqlMonitoringApi.cs:258-264 | the provider's enqueued count, 0 when it reports null |
| Monitoring.MySqlMonitoringApi.FetchedCount | Hangfire.MySql/Monitoring/MySqlMonitoringApi.cs:266-272 | the provider's fetched count, 0 when it reports null |
| Monitoring.MySqlMonitoringApi.EnqueuedJobsOf | Hangfire.MySql/Monitoring/MySqlMonitoringApi.cs:451-481 | an empty id list gives an empty list; otherwise the entries of the jobs with those ids |
| Monitoring.MySqlMonitoringApi.EnqueuedJobs | Hangfire.MySql/Monitoring/MySqlMonitoringApi.cs:158-164 | the entries of the ids the queue's monitoring API lists for the page |
| Monitoring.MySqlMonitoringApi.Summaries | Hangfire.MySql/Monitoring/MySqlMonitoringApi.cs:39-53 | the loop builds one summary per pair, in the given order, each with its monitor's counts and first five jobs |
| Monitoring.MySqlMonitoringApi.Queues | Hangfire.MySql/Monitoring/MySqlMonitoringApi.cs:29-56 | one summary per queue across all providers, sorted by name, with Length = EnqueuedCount ?? 0, the fetched count and the first five jobs |
| Monitoring.MySqlMonitoringApi.Statistics | Hangfire.MySql/Monitoring/MySqlMonitoringApi.cs:126-156 | the statistics of the current tables |
| Monitoring.MySqlMonitoringApi.NumberOfJobsByStateName | Hangfire.MySql/Monitoring/MySqlMonitoringApi.cs:327-339 | the state count capped by the dashboard list limit when one is set |
| Monitoring.MySqlMonitoringApi.GetJobs | Hangfire.MySql/Monitoring/MySqlMonitoringApi.cs:348-394 | the entries of the page of jobs ranked from+1..from+count by descending id |
| Monitoring.MySqlMonitoringApi.DailyTimeline | Hangfire.MySql/Monitoring/MySqlMonitoringApi.cs:411-449 | exactly the 7 days ending today, a day without a row mapping to 0 |
| Monitoring.MySqlMonitoringApi.HourlyTimeline | Hangfire.MySql/Monitoring/MySqlMonitoringApi.cs:518-533 | exactly the 24 hours ending at the given hour, an hour without a row mapping to 0 |

## Left out

- Concurrency and isolation levels: ReadCommitted, `FOR UPDATE`, `TransactionScope` and races between
  workers. The model has one sequential caller. A transaction is a snapshot restored on rollback; the claim
  transaction restores only the `JobQueue` table, the only one a claim changes.
- The distributed lock (`MySqlDistributedLock` is a stub that only logs). The names in
  `_lockedResources` are recorded but, as in the source (commented out at
  Hangfire.MySql/MySqlWriteOnlyTransaction.cs:239-246), never applied at commit.
- Text.Fold: only the ASCII letters A to Z are folded. `StringComparer.OrdinalIgnoreCase` also pairs
  non-ASCII letters (for example "É" and "é"), which are distinct queue keys in the provider map here.
- Expiration.TableLoop: the fault schedule is a finite sequence, so batches past its end do not fail. A
  store error that persists after a non-empty batch, which the source retries once a second until the
  token is cancelled, can be made to last any finite number of batches but not forever.
- Expiration.ExpirationManager.Execute: inherits the finite fault schedule of Expiration.TableLoop.
- Sleeps (`WaitHandle.WaitOne`) are no-op steps. Cancellation is a token whose request starts at a given
  check point.
- JobQueue.MySqlJobQueue.Dequeue: the source polls without a bound. The model stops after `maxPolls`
  polls and reports that the loop is still polling.
- JobQueue.MySqlJobQueue.Dequeue: a `queues` array with a repeated name behaves as the corrected
  placeholders (see Findings) make it behave: the repeat is harmless and a row can be claimed. As written,
  the source binds `@queue0` twice and leaves a null item in `in (...)`, so every uncancelled poll fails
  with a store error before it can claim. JobQueue.PlaceholdersAsWritten and JobQueue.SlotAsWritten model
  that loop on its own.
- JobQueue.MySqlJobQueue.Poll: builds its select with JobQueue.Placeholders, the corrected list, for the
  reason given in the previous line.
- `LIMIT` without `ORDER BY` takes the first rows in storage order. For the aggregator, the batch that is
  grouped is assumed to be the batch that is deleted.
- Affected-row counts: the aggregator's `removedCount` is taken as the size of the deleted batch, and the
  expiration manager's as the number of rows deleted. In MySQL `connection.Execute` of the multi-statement
  text may also count the upserted rows.
- `TrimList` (Hangfire.MySql/MySqlWriteOnlyTransaction.cs:181-198): its rank uses a MySQL user variable over
  the whole `List` table, unordered and offset by one, so it has no well-defined meaning to model.
- The job-queue monitoring API (MySqlJobQueueMonitoringApi.cs throws NotImplementedException everywhere).
  The per-provider queue monitors are an input of the monitoring operations (`QueueMonitor`: the queue
  names, the counts and the enqueued-id pages).
- JSON and job (de)serialization, `InvocationData`, and the DTO payload fields (`Job`, state data,
  `EnqueuedAt`). A job entry keeps the key and the state name.
- `Servers()`, `JobDetails`, the list and count wrappers that only pass a state name to `GetJobs` or to
  `GetNumberOfJobsByStateName`, the public `FetchedJobs` page and the private `FetchedJobs` reader
  (Hangfire.MySql/Monitoring/MySqlMonitoringApi.cs:58-124,166-250,483-516). They add only payload decoding
  to what is modelled.
- Monitoring reads: `UseTransaction` with ReadUncommitted opens and releases one connection; the monitoring
  methods read the tables directly and leave the registry as it is.
- Monitoring.Timeline: dates and hours are integers and the key is `stats:<kind>:<decimal unit>` instead of
  the `yyyy-MM-dd` / `yyyy-MM-dd-HH` text. MySQL's case-insensitive matching of `Key in @keys` is not
  modelled.
- Monitoring.SortBy: culture-sensitive `OrderBy` string comparison is modelled as ordinal comparison.
- Monitoring.GetJobs: the `@rownum` ranking is assumed to be evaluated after `order by j.Id desc`.
- `TablesPrefix` does not exist in the modelled `MySqlStorageOptions`; table names carry no prefix.
- Store errors: the model injects them where the source's behaviour on them matters. These are a claim poll
  (rethrown), an expiration batch (logged) and a command at commit (rolled back). Elsewhere a statement
  does not fail. `UseConnection` leaves a failing callback's tables unchanged.
- WriteOnly.WriteOnlyTransaction.AddToQueue assumes the MySQL provider's `Enqueue`. Fetching through a
  provider other than the MySQL one is reported as such and not modelled further.
- Time arithmetic has no overflow and no `TimeSpan.Duration` detail: `expireIn` and timeouts are plain
  integers, and a negative timeout is what `Duration() != timeOut` rejects.
- `Set.Score` is a double in the source and an integer here; ties in `order by Score` go to the earliest
  row.
- Schema installation (MySqlObjectsInstaller.cs), configuration files and the test harness.

## Findings

| source | as written | input that shows it | evidently intended | confidence | as-written member | corrected member |
|---|---|---|---|---|---|---|
| Hangfire.MySql/JobQueue/MySqlJobQueue.cs:44-50 | each placeholder slot is chosen by `Array.IndexOf(queues, queue)`, so a repeated queue name binds the first position's `@queueN` a second time and its own slot stays null; `string.Join` then writes an empty item into `in (...)`, and the command cannot run, so no row is ever claimed | queues = ["default", "default"] | one `@queueN` placeholder per position | not executed; medium | JobQueue.PlaceholdersAsWritten (with JobQueue.SlotAsWritten, JobQueue.EmptySlotIffRepeat, JobQueue.BoundTwiceIffRepeat and JobQueue.DuplicateQueueLeavesEmptySlot) | JobQueue.Placeholders |

# frontmcp: a verified model of its stateful core

frontmcp is a TypeScript framework for MCP servers. This project models the parts of it that carry state or encode
data, in Dafny, and proves what they promise:

- **Lazy schemas** (`libs/lazy-zod`): a `z` whose expensive factories return wrappers, and `forceMaterialize`, which
  unwraps a schema graph in place. `DeepMaterialize` is the depth-first walk over a heap of nodes that may be cyclic;
  `LazySchema` is the memo, the self-patching hot path and the chain capture; `LazyGraph` puts the two together.
- **SQLite stores** (`libs/storage-sqlite`): the resumable event log (`EventStore`, `EventLog`, `EventRestarts`), the
  expiring key-value store (`KvStore`, `TtlMap`), its adapter with counters and glob listing (`StorageAdapter`,
  `GlobLike`), and the task store with its cursor, its pages and its orphan repair (`Cursor`, `TaskStore`,
  `TaskPaging`, `TaskRepair`). A table is a sequence or map of rows; SQL statements are functions on it; each clock
  read is a parameter of its own.
- **Spec poller** (`libs/adapters`): `SpecPoller` is the object, `PollerRuns` every interleaving of polls, replies and
  timers, `PollerUpdates` the poller against a server with validators.
- **Cache plugin** (`plugins/plugin-cache`): the cache key (`CacheKey`), the two hooks over whole runs
  (`CachePlugin`), and tool-name patterns (`ToolPattern`).
- **Import merger** (`scripts/merge-imports.ts`): `ImportLine` reads and writes one line, `ImportGrammar` says which
  lines it reads and as what, `MergeImports` holds the loops, `ImportMeaning` proves that a file means the same after
  them, and `ImportBackticks` holds an input on which it does not.
- **Remember secret** (`plugins/plugin-remember`): `SecretCache`, the single-flight cache of a generated secret.
- **OpenAPI adapter** (`libs/adapters`): `OpenApiInput`, the two passes that take inputs out of a tool's schema.

Objects whose methods change their fields are classes here. Each method is proved equal to a step function on the
object's state, and the theorems about runs are lemmas about that function. `JsText` holds the few JavaScript text
operations the stores rely on, `Wrappers` the option type.

Verify with `dafny verify dfyconfig.toml`. The proofs hide definitions they do not need, which keeps each of them
small.

## Where a promise needs a condition

Several properties the code is for hold only under a condition that it does not enforce. Each is proved as an
equivalence with that condition, or has a concrete run that breaks it.

- `forceMaterialize` takes one level of wrapping off, so a wrapper around a wrapper survives it: no wrapper is left to
  be found exactly when neither the argument nor a visited slot that it leads to held one
  (`DeepMaterialize.ForceMaterialize`).
- A restarted event store can give an id a second time. Over a run none is given twice exactly when every store call
  that a process makes for the first time on a stream finds the stream's last appended row still in the table
  (`EventRestarts.NeverReissuedIff`, `EventLog.RestartCanReissue`).
- `expire` on a lapsed row that has not been purged revives it, and nothing else tells the store from a map whose
  entries vanish at their deadline (`TtlMap.RefinesIff`, `TtlMap.ExpireCanRevive`).
- `incrBy` makes a key permanent exactly when the deadline passes before the call reads the remaining time. The count
  itself is only cut short by a key that has lapsed before the call reads its value (`StorageAdapter.RunCounts`).
- A key pattern means its glob exactly when it is neither empty nor contains a backslash (`GlobLike.GlobAgreesIff`).
- Patching an orphan does not recheck its status, so a stale snapshot overwrites `completed` with `failed`, and two
  readers can both publish the end of one task, even inside one process, while the first is between two rows of its
  page. Neither happens exactly when no reader patches a task that has meanwhile ended, otherwise than by a repair or
  with its end already published (`TaskRepair.OrphansFailOnceIff`, `TaskRepair.StaleListOverwritesCompleted`,
  `TaskRepair.TwoReadersPublishTwice`).
- The poller saves a response's validators before it reads the body, so a body that is cut off can hide an update
  behind the next 304 (`PollerUpdates.CutOffLosesIff`).
- The poller keeps a saved validator when a later response carries none to replace it, so a server that tags some
  contents and only dates others loses updates with no body ever cut off. Without cut-offs no update is lost exactly
  when the server chooses its validators the same way for all contents (`PollerUpdates.UniformIff`,
  `PollerUpdates.MixedLosesUpdate`).
- Cache keys forget the types of leaves, whether an object is an array, and what an object without enumerable
  properties holds, such as a date; beyond inputs whose keys and leaf texts are non-empty and free of `:` and `;` they
  forget more. Caching is invisible exactly when calls that share a key ask for the same thing; on clean inputs,
  exactly when no tool is called with two inputs that differ only in what keys forget (`CachePlugin.TransparentIff`,
  `CachePlugin.CachingIsTransparentIff`, `CacheKey.KeysCollideOutside`, `CachePlugin.KindsShareAnswers`).
- A stored result comes back parsed, so a tool that returns a text which is itself JSON is answered with another value
  on a hit (`CachePlugin.SurvivesIff`, `CachePlugin.RepeatedCallIff`).
- A backtick in a handled import line can change what a file imports when its lines are merged
  (`ImportBackticks.BacktickChangesMeaning`).
- When every required input is removed, the old `required` list stays behind (`OpenApiInput.PassesComposeIff`).
- `clearCachedSecret` between two callers leaves them with different secrets exactly when persistence is off, or the
  file is gone or has changed (`SecretCache.SecretChangesIff`, `SecretCache.ClearCanSplitSecrets`).

## Model

| member | source | states |
|---|---|---|
| DeepMaterialize.ForceMaterialize | libs/lazy-zod/src/utils.ts:28-71 | Terminates on every finite graph, cyclic or not, and answers with the argument unwrapped once, which means what the argument meant. No wrapper is left in the answer, or in a visited slot that it leads to, if and only if the argument is no wrapper around a wrapper and no visited slot that it leads to held one. Then the visited slots of exactly the nodes that visited slots lead to are unwrapped, and no other slot changes. In every graph slots only lose wrappers, every visited slot below the answer loses one at least, and each factory runs at most once. |
| DeepMaterialize.CallEnds | libs/lazy-zod/src/utils.ts:33-71 | Both directions of that equivalence, from what the outermost visit promises: a call that enters no wrapper unwraps everything there is, and one that enters a wrapper leaves one to be found. |
| DeepMaterialize.BelowIsPeeled | libs/lazy-zod/src/utils.ts:33-71 | In every graph, wrappers around wrappers included: each visited slot of each node that visited slots lead to from the answer, through whatever wrappers are left on the way, has lost at least one level of wrapping. |
| DeepMaterialize.UnfoldTellsApart | libs/lazy-zod/src/utils.ts:33-71 | What can be seen of two values to some depth is the same if and only if they are one text, or schemas with the same slots whose contents look the same one level less deep. |
| DeepMaterialize.MeaningKept | libs/lazy-zod/src/utils.ts:33-71 | Taking wrappers off, in any number and anywhere in a graph, changes nothing that can be seen of a schema to any depth. |
| DeepMaterialize.DeepMaterialize | libs/lazy-zod/src/utils.ts:33-43 | One visit: answers with its argument unwrapped; changes no slot and enters nothing when the answer was entered before; and if it enters a wrapper, answers with one or leaves one to be found below its answer, in a slot that no enclosing walk will write again. |
| DeepMaterialize.WalkSlots | libs/lazy-zod/src/utils.ts:45-70 | The walk over a node's slots, whatever the recursive visits rewrite meanwhile, cycles back to the node included: without a wrapper entered every visited slot is unwrapped and nodes entered before keep theirs; otherwise one is left to be found from the node. |
| DeepMaterialize.DefinitionOf | libs/lazy-zod/src/utils.ts:45 | `_def` of a value is the definition of the real schema at the bottom of its chain of wrappers, if there is one. |
| DeepMaterialize.LazyCell.Materialize | libs/lazy-zod/src/lazy-schema.ts:37-40 | Runs the factory the first time only, and always answers with its product. |
| LazySchema.LazyZodSchema.Materialize | libs/lazy-zod/src/lazy-schema.ts:37-40 | Forcing gives the factory's product, runs no factory twice, and touches no wrapper that is not below this one. |
| LazySchema.LazyZodSchema.CallHot | libs/lazy-zod/src/lazy-schema.ts:69-91 | A warm hot-path call equals the cold one for all arguments: both are the real method on the product. |
| LazySchema.CallFactory | libs/lazy-zod/src/lazy-z.ts:21-27 | A heavy factory answers with a wrapper that means the call and has not run; any other factory runs at once. |
| LazySchema.CallMethod | libs/lazy-zod/src/lazy-schema.ts:93-110 | A chain method on a wrapper makes a wrapper and forces nothing; any other method forces. Both mean the method applied to what the receiver means. |
| LazySchema.ForceSchema | libs/lazy-zod/src/lazy-schema.ts:37-102 | Forcing every wrapper inside a schema, in any state of their memos, gives its meaning. |
| LazySchema.Build | libs/lazy-zod/src/lazy-schema.ts:93-102 | Any schema-building expression means under the lazy `z` what the eager one builds; while only chain methods are called no factory runs. |
| LazySchema.ForceHandle | libs/lazy-zod/src/lazy-schema.ts:37-102 | In every consistent state of the wrappers, so whatever has been forced or called before, forcing a result gives its one meaning. |
| LazySchema.LazyEqualsEager | libs/lazy-zod/src/lazy-schema.ts:37-102 | For every expression, lazy construction followed by forcing gives the eagerly constructed schema, with each factory run at most once. |
| LazyGraph.DrawnIsShallow | libs/lazy-zod/src/utils.ts:28-71 | In a graph of schemas built by factories and chain methods no wrapper stands for another, so `forceMaterialize` leaves none. |
| LazyGraph.RootShowsMeaning | libs/lazy-zod/src/utils.ts:33-71 | Such a graph, once unwrapped, read as it stands is the schema with every wrapper forced. |
| LazyGraph.ShowsOneTree | libs/lazy-zod/src/utils.ts:33-71 | A graph read at a value is one schema at most, so being read as the eager schema leaves nothing open. |
| LazyGraph.ForceBuilt | libs/lazy-zod/src/utils.ts:28-71 | `forceMaterialize` on what the lazy `z` built for an expression, in any state of its wrappers, leaves no wrapper to be found and, in place, the schema that the eager `z` builds for that expression. |
| EventStore.SqliteEventStore.GetNextCounter | libs/storage-sqlite/src/sqlite-event.store.ts:130-147 | The next counter is one above the remembered or rehydrated one, and is remembered. |
| EventStore.SqliteEventStore.StoreEventAt | libs/storage-sqlite/src/sqlite-event.store.ts:149-167 | The new table, counters and answer of one store call, the failing INSERT included. |
| EventStore.SqliteEventStore.EvictExpired | libs/storage-sqlite/src/sqlite-event.store.ts:197-201 | The cleanup tick deletes exactly the rows past their lifetime. |
| EventStore.SqliteEventStore.ReplayEventsAfter | libs/storage-sqlite/src/sqlite-event.store.ts:169-195 | The row-at-a-time sending loop sends what the query selects, in order. |
| EventLog.EventIdInjective | libs/storage-sqlite/src/sqlite-event.store.ts:154 | `streamId:counter` is injective even when stream ids contain colons. |
| EventLog.LastIdIsHighest | libs/storage-sqlite/src/sqlite-event.store.ts:133-143 | Rehydration finds the highest counter that a stream has in the table. |
| EventLog.NextIdIsFresh | libs/storage-sqlite/src/sqlite-event.store.ts:153-157 | In every reachable store the next id is not in the table. |
| EventLog.IdsNeverClash | libs/storage-sqlite/src/sqlite-event.store.ts:130-201 | Over every run of stores, cleanups and restarts under any clock: no INSERT meets an existing id, and each stream's live rows have strictly increasing counters below the next one. |
| EventLog.IssuedOnce | libs/storage-sqlite/src/sqlite-event.store.ts:130-147 | Within one process lifetime no id is issued twice, evictions and clock notwithstanding. |
| EventLog.RestartContinuesIff | libs/storage-sqlite/src/sqlite-event.store.ts:130-147 | In one state: after a restart a stream is numbered above what the process issued if and only if its last issued event is still in the table. |
| EventRestarts.NextFollowsIff | libs/storage-sqlite/src/sqlite-event.store.ts:130-157 | Over a history of distinct ids: a store call gives the number after the last one of its stream if and only if the process knows the stream, the stream is new, or its last appended row is still in the swept table. |
| EventRestarts.NeverReissuedIff | libs/storage-sqlite/src/sqlite-event.store.ts:130-157 | Over any run of stores, evictions and restarts under any clock, no id is given twice if and only if every store call meets that guard. |
| EventLog.RestartCanReissue | libs/storage-sqlite/src/sqlite-event.store.ts:130-157 | A run with a restart in which two different messages get one id. |
| EventLog.OldestIsMinimal | libs/storage-sqlite/src/sqlite-event.store.ts:109-111 | Capacity eviction takes the smallest creation time, ties in rowid order. |
| EventLog.DeleteOldestKeepsYoungest | libs/storage-sqlite/src/sqlite-event.store.ts:109-111 | Capacity eviction deletes exactly as many rows as it is asked to and keeps the rest in order, each younger than every deleted one, whatever order the clock gave the creation times in. |
| EventLog.StoreIsBoundedAppend | libs/storage-sqlite/src/sqlite-event.store.ts:149-167 | While the clock does not run backwards, a store call drops the lapsed front of the log, appends its event, and keeps the newest `maxEvents`. |
| EventLog.RunIsBoundedLog | libs/storage-sqlite/src/sqlite-event.store.ts:101-201 | Under a non-decreasing clock the live rows after any run are a suffix of everything appended, in time order, and no longer than `maxEvents`. |
| EventLog.ReplayMatchesHistory | libs/storage-sqlite/src/sqlite-event.store.ts:169-195 | After any such run, replay from a live event sends exactly its stream's later unexpired events out of everything ever appended, in append order, once each. |
| EventLog.ReplayFromEvicted | libs/storage-sqlite/src/sqlite-event.store.ts:174-179 | Within one lifetime of a new store, replay from an event that has been evicted sends nothing, on the default stream. |
| EventRestarts.ReplayFromEvictedAfterRestarts | libs/storage-sqlite/src/sqlite-event.store.ts:174-179 | And over any run with restarts in which every store call meets the guard of `NeverReissuedIff`. |
| EventLog.ResumeFromSent | libs/storage-sqlite/src/sqlite-event.store.ts:184-192 | Resuming from any sent id gives exactly the rest of that replay: no gap and no repeat. |
| KvStore.SqliteKvStore.Get | libs/storage-sqlite/src/sqlite-kv.store.ts:116-133 | The live value; a lapsed row is deleted on the way. |
| KvStore.SqliteKvStore.Set | libs/storage-sqlite/src/sqlite-kv.store.ts:156-163 | Replaces the row, its deadline included. |
| KvStore.SqliteKvStore.Del | libs/storage-sqlite/src/sqlite-kv.store.ts:175-177 | Removes the row and nothing else. |
| KvStore.SqliteKvStore.Has | libs/storage-sqlite/src/sqlite-kv.store.ts:182-185 | Whether a live row exists, without deleting. |
| KvStore.SqliteKvStore.Keys | libs/storage-sqlite/src/sqlite-kv.store.ts:194-206 | The keys of the live rows. |
| KvStore.SqliteKvStore.Expire | libs/storage-sqlite/src/sqlite-kv.store.ts:215-219 | Sets a deadline on whatever row is there and says whether there was one. |
| KvStore.SqliteKvStore.Ttl | libs/storage-sqlite/src/sqlite-kv.store.ts:226-239 | Remaining time, -1 without a deadline, -2 without a live row. |
| KvStore.SqliteKvStore.PurgeExpired | libs/storage-sqlite/src/sqlite-kv.store.ts:245-248 | Deletes exactly the lapsed rows and counts them. |
| TtlMap.CallAgreesIff | libs/storage-sqlite/src/sqlite-kv.store.ts:116-248 | Started on the same live entries, a call answers like the abstract expiring map, and leaves the entries it would, if and only if it is not an `expire` of a lapsed row still in the file. |
| TtlMap.RefinesIff | libs/storage-sqlite/src/sqlite-kv.store.ts:116-248 | Over every run with a non-decreasing clock, purges interleaved at will, all answers equal the abstract map's if and only if no call revives a lapsed row. |
| TtlMap.PurgeIsUnobservable | libs/storage-sqlite/src/sqlite-kv.store.ts:245-248 | A purge at any moment changes no later answer of a run without a revival. |
| TtlMap.ExpireCanRevive | libs/storage-sqlite/src/sqlite-kv.store.ts:215-219 | A run in which `expire` brings back a lapsed key. |
| StorageAdapter.SqliteStorageAdapter.IncrementBy | libs/storage-sqlite/src/sqlite-storage.adapter.ts:159-175 | The read-modify-write with its three clock reads, the not-connected and not-an-integer errors included. |
| StorageAdapter.SqliteStorageAdapter.DoSet | libs/storage-sqlite/src/sqlite-storage.adapter.ts:84-96 | The conditional write on presence, with a lifetime in seconds. |
| StorageAdapter.SqliteStorageAdapter.KeysMatching | libs/storage-sqlite/src/sqlite-storage.adapter.ts:132-145 | The live keys that the translated pattern selects. |
| StorageAdapter.IncrLive | libs/storage-sqlite/src/sqlite-storage.adapter.ts:159-175 | On a live integer key: the amount is added, and the deadline is kept, moved by the time between the `ttl` and `set` reads, unless it passes before the `ttl` read. |
| StorageAdapter.IncrLapsed | libs/storage-sqlite/src/sqlite-storage.adapter.ts:159-175 | A lapsed key starts over from zero, without a deadline. |
| StorageAdapter.IncrFailsIff | libs/storage-sqlite/src/sqlite-storage.adapter.ts:159-175 | A call fails if and only if the key is alive with a value that is no number, and then changes nothing; otherwise the new value reads back as the answer, and an absent key starts from zero. |
| JsText.ParseIntReads | libs/storage-sqlite/src/sqlite-storage.adapter.ts:164 | The integer that is read from any text: white space skipped, one sign, digits up to the first other character, and no number without a digit there. |
| StorageAdapter.RunCounts | libs/storage-sqlite/src/sqlite-storage.adapter.ts:151-175 | Over every run on an integer key: the value is the start plus the sum of the amounts if every `get` finds the key alive, even where its deadline passes before the `ttl` read, and the sum from the first call that does not otherwise; the deadline survives, pushed out by the calls' own delays, if and only if every `ttl` read precedes it; no other key changes. |
| StorageAdapter.CountsInTime | libs/storage-sqlite/src/sqlite-storage.adapter.ts:151-175 | In runs that are in time throughout, sum and deadline together: the deadline moves by exactly the sum of the calls' own delays, never earlier. |
| StorageAdapter.PermanentCounts | libs/storage-sqlite/src/sqlite-storage.adapter.ts:151-175 | A key without a deadline counts the sum of all amounts and stays without one. |
| StorageAdapter.DeadlineSurvivesIff | libs/storage-sqlite/src/sqlite-storage.adapter.ts:159-175 | The key still has a deadline after a run if and only if every call read the remaining time before it. |
| GlobLike.GlobMeaning | libs/storage-sqlite/src/sqlite-storage.adapter.ts:132-145 | What a glob matches: the texts that can be cut into one piece for each of its characters, any run for `*`, one character for `?`, and itself, in either case of an ASCII letter, for any other. |
| GlobLike.RewriteIsGlob | libs/storage-sqlite/src/sqlite-storage.adapter.ts:132-145 | Without backslashes, reading the escaped LIKE text gives the glob's own pattern. |
| GlobLike.BackslashWitness | libs/storage-sqlite/src/sqlite-storage.adapter.ts:132-145 | For every pattern with a backslash there is a text on which the rewrite and the glob differ. |
| GlobLike.GlobAgreesIff | libs/storage-sqlite/src/sqlite-storage.adapter.ts:132-145 | Up to ASCII case, a pattern selects exactly the keys its glob matches if and only if it is non-empty and free of backslashes. |
| Cursor.DecodeB64Url | libs/storage-sqlite/src/sqlite-task.store.ts:458-464 | The padding loop ends and the decoder computes its specification. |
| Cursor.ToB64UrlIsSafe | libs/storage-sqlite/src/sqlite-task.store.ts:450-456 | The encoding uses only the alphabet of section 5 of RFC 4648, unpadded, with no spare character. |
| Cursor.EncodesByDigits | libs/storage-sqlite/src/sqlite-task.store.ts:450-456 | Three bytes are four digits in base 64, a shorter group at the end is filled with zero bits, and a digit is written by its place in the alphabet of section 5 of RFC 4648. |
| Cursor.Base64UrlRoundTrip | libs/storage-sqlite/src/sqlite-task.store.ts:450-464 | Decoding undoes encoding on every byte sequence. |
| Cursor.CursorRoundTrip | libs/storage-sqlite/src/sqlite-task.store.ts:433-448 | A cursor decodes to the offset it was made from, for every natural number. |
| Cursor.CursorIsJson | libs/storage-sqlite/src/sqlite-task.store.ts:433-436 | The bytes under a cursor are the JSON text of an object with the offset as its one field. |
| Cursor.CursorDecodesIff | libs/storage-sqlite/src/sqlite-task.store.ts:437-448 | Any text at all decodes; it leads past offset 0 exactly when it parses to an object with that whole offset. |
| TaskStore.SqliteTaskStore.Create | libs/storage-sqlite/src/sqlite-task.store.ts:238-253 | Inserts a live record, ignores a lapsed one, and fails on an existing id. |
| TaskStore.SqliteTaskStore.UpdateTask | libs/storage-sqlite/src/sqlite-task.store.ts:286-317 | The table and the answer of an update, with its three clock reads and with patch fields that are absent, set, or there and undefined. |
| TaskStore.SqliteTaskStore.DeleteTask | libs/storage-sqlite/src/sqlite-task.store.ts:319-321 | The row with the id and the session goes, and no other. |
| TaskStore.SqliteTaskStore.Get | libs/storage-sqlite/src/sqlite-task.store.ts:255-284 | A missing or foreign row gives nothing, a lapsed one is deleted, an orphan is failed and published on the way; the read and the update each have their own clock reads. While its deadline holds, no unfinished task of a dead CLI process is handed out. |
| TaskStore.SqliteTaskStore.RepairRow | libs/storage-sqlite/src/sqlite-task.store.ts:333-349 | One row of a listing: what is handed out, written and published. |
| TaskStore.SqliteTaskStore.ListPage | libs/storage-sqlite/src/sqlite-task.store.ts:323-358 | One page with its repairs and its next cursor; the select, the update of each row and the count each have their own clock reads. How long it is and what it holds say `TaskPaging.PageLength` and `TaskPaging.PageSettles`. |
| TaskPaging.SortedAscends | libs/storage-sqlite/src/sqlite-task.store.ts:223-225 | The listing order is by creation time, then id, and only permutes the rows. |
| TaskPaging.SelectIsLive | libs/storage-sqlite/src/sqlite-task.store.ts:223-229 | A listing selects exactly the live rows of the session. |
| TaskPaging.PageOfListing | libs/storage-sqlite/src/sqlite-task.store.ts:323-358 | While no deadline passes between its clock reads, a page continues the listing at its cursor's offset and its next cursor, absent only at the end, points just past it; the repairs it makes keep every key. |
| TaskPaging.PageLength | libs/storage-sqlite/src/sqlite-task.store.ts:323-358 | A page holds as many tasks as were asked for, 50 if no number was, 1 if it was below 1 and 500 if it was above, or what the listing has left from the offset; it has a next cursor if and only if the listing goes on after that. |
| TaskPaging.PageSettles | libs/storage-sqlite/src/sqlite-task.store.ts:332-358 | The tasks on a page are the listing's rows from the offset on, in order, as they were read, save that an unfinished task of a dead CLI process is handed out failed and published; nothing else is published. |
| TaskPaging.WalkFollowsListing | libs/storage-sqlite/src/sqlite-task.store.ts:323-358 | Following cursors from any offset ends, for any sequence of page sizes and any processes dying meanwhile, and hands out the rest of the listing. |
| TaskPaging.WalkListsEachTaskOnce | libs/storage-sqlite/src/sqlite-task.store.ts:213-229 | With fixed membership and no deadline passing on the way, the walk from the start hands out each live task of the session exactly once, in order, and nothing else. |
| TaskRepair.UpdateEffect | libs/storage-sqlite/src/sqlite-task.store.ts:286-317 | An update never changes identity or creation time, patched fields win, fields that are there and undefined are cleared, the rest stay, no other row changes, and a row that would be lapsed is deleted. |
| TaskRepair.RepairEffect | libs/storage-sqlite/src/sqlite-task.store.ts:262-282 | Handling a row fails and publishes its current state when it was read as an orphan and is still live; otherwise it changes nothing live and publishes nothing. |
| TaskRepair.OrphanFailsIff | libs/storage-sqlite/src/sqlite-task.store.ts:262-282 | Handling a row whose task can still be patched publishes its end, and leaves it failed, if and only if the row read is not terminal and has a CLI executor with a pid that is dead; otherwise the row is handed out as read and the table stays. |
| TaskRepair.RepairRespectsLifecycleIff | libs/storage-sqlite/src/sqlite-task.store.ts:286-317 | Handling a row leaves every task that has ended with its status, message and result, if and only if it does not patch one that ended otherwise than by a repair. |
| TaskRepair.FreshRepairIsLegal | libs/storage-sqlite/src/sqlite-task.store.ts:266-281 | Handling a row that is unchanged since it was read changes at most that row, only if it is an unfinished task of a dead process, and only to `failed` with the repair message. |
| TaskRepair.HandleIsSoundIff | libs/storage-sqlite/src/sqlite-task.store.ts:262-282 | A reader's step leaves tasks that have ended as they ended, and readers' terminal events single, if and only if it does not patch a live task that has ended otherwise than by a repair or with its event already published; a patch that does not leaves its task failed with exactly one event. |
| TaskRepair.OrphansFailOnceIff | libs/storage-sqlite/src/sqlite-task.store.ts:255-358 | Over every interleaving of readers with writers that leave ended tasks alone: readers publish no task's end twice, a task whose end they published has ended or is gone, and no reader changes the status, message or result of an ended task, if and only if no reader's step overwrites in that sense. |
| TaskRepair.StaleListOverwritesCompleted | libs/storage-sqlite/src/sqlite-task.store.ts:332-349 | A run in which a listing turns `completed` into `failed`: the task completes while the reader is between two rows of its page. |
| TaskRepair.TwoReadersPublishTwice | libs/storage-sqlite/src/sqlite-task.store.ts:332-349 | A run inside one process in which two readers publish the end of one task. |
| SpecPoller.OpenApiSpecPoller.FetchOnce | libs/adapters/src/openapi/openapi-spec-poller.ts:155-202 | One fetch: what it saves, what it reports, and whether it throws. |
| SpecPoller.OpenApiSpecPoller.FetchWithRetry | libs/adapters/src/openapi/openapi-spec-poller.ts:119-153 | The retry loop computes the cycle: state, callbacks, fetches and delays; what a cycle is say `SpecPoller.CycleOutcome` and `SpecPoller.CycleBacksOff`. |
| SpecPoller.OpenApiSpecPoller.Recover | libs/adapters/src/openapi/openapi-spec-poller.ts:125-135 | Bookkeeping after a fetch that worked. |
| SpecPoller.OpenApiSpecPoller.RecordFailure | libs/adapters/src/openapi/openapi-spec-poller.ts:137-147 | Bookkeeping after the last attempt fails. |
| SpecPoller.OpenApiSpecPoller.Poll | libs/adapters/src/openapi/openapi-spec-poller.ts:108-117 | A poll during another does nothing; otherwise it is one cycle and the flag is cleared. |
| SpecPoller.CycleIsBounded | libs/adapters/src/openapi/openapi-spec-poller.ts:119-153 | A cycle makes at most maxRetries + 1 fetches, with one backoff delay between consecutive ones. |
| SpecPoller.CycleOutcome | libs/adapters/src/openapi/openapi-spec-poller.ts:119-153 | A cycle ends with the first reply that brings content or is a 304, healthy and with no failures, recovered if it was unhealthy; or after maxRetries + 1 attempts, with one failure more, unhealthy if and only if it was or the threshold is reached. |
| SpecPoller.CycleBacksOff | libs/adapters/src/openapi/openapi-spec-poller.ts:149-150 | The first delay of a cycle is the initial one, up to the cap; each further one is the one before times the multiplier, up to the cap. |
| SpecPoller.DelaysGrowToCap | libs/adapters/src/openapi/openapi-spec-poller.ts:149-150 | Backoff delays never shrink and never pass the cap when the multiplier is at least 1. |
| PollerRuns.EveryInterleaving | libs/adapters/src/openapi/openapi-spec-poller.ts:108-153 | In every interleaving of polls, replies and timers: cycles never overlap, none exceeds its attempts, health is `unhealthy` exactly under `wasUnhealthy`, and `onUnhealthy` and `onRecovered` strictly alternate, starting with `onUnhealthy`. |
| PollerRuns.DelaysGrowInEveryInterleaving | libs/adapters/src/openapi/openapi-spec-poller.ts:119-153 | In every interleaving the backoff delays of each cycle number at most maxRetries, never shrink and never pass the cap; the first is the initial delay and each further one the multiplied one before, up to the cap; for multipliers of at least 1. |
| PollerRuns.StepsMakeCycle | libs/adapters/src/openapi/openapi-spec-poller.ts:119-153 | Step by step, an undisturbed cycle does exactly what the retry loop does in one go. |
| PollerRuns.PollIsCycle | libs/adapters/src/openapi/openapi-spec-poller.ts:108-153 | Step by step, a poll of an idle poller does exactly what the object's poll does, nothing with a negative number of retries, and a poll while a cycle runs does nothing. |
| PollerUpdates.MatchesClaimed | libs/adapters/src/openapi/openapi-spec-poller.ts:158-166 | A conditional request is answered 304 exactly when the server holds the content it claims: the source of the saved tag or, while no tag was ever saved, a content with the saved date. |
| PollerUpdates.StepDeliversIff | libs/adapters/src/openapi/openapi-spec-poller.ts:155-202 | Against any server with distinct validators: when a fetch succeeds, what it delivers and which validators it replaces; the server's content is the one last delivered unless the request claimed it undelivered; hashes given to `onChanged` never repeat consecutively. |
| PollerUpdates.NothingLostIff | libs/adapters/src/openapi/openapi-spec-poller.ts:155-202 | Over every run against any server with distinct validators, each success leaves the server's content delivered if and only if no fetch gets through while the request claims an undelivered content that the server holds. |
| PollerUpdates.UniformIff | libs/adapters/src/openapi/openapi-spec-poller.ts:155-202 | Without cut-off bodies no run loses an update if and only if the server tags all contents, or tags none and dates all or none; for a server that always sends a validator, if and only if it tags every content or none. |
| PollerUpdates.MixedLosesUpdate | libs/adapters/src/openapi/openapi-spec-poller.ts:187-190 | Any two contents of which only one carries the deciding validator: going from one to the other and back, every body arriving whole, leaves the way back undelivered. |
| PollerUpdates.ContentHashNeverLoses | libs/adapters/src/openapi/openapi-spec-poller.ts:159-166 | In content-hash mode no update is lost, whatever validators the server sends and whichever bodies are cut off. |
| PollerUpdates.CutOffLosesIff | libs/adapters/src/openapi/openapi-spec-poller.ts:186-201 | After a cut-off body of an undelivered content the next fetch succeeds, and does not deliver it if and only if the content is tagged, or dated while no tag was ever saved. |
| CacheKey.OrderIndependent | plugins/plugin-cache/src/cache.plugin.ts:286-299 | Inputs that differ only in key order, in the types of leaves or in the kinds of objects, at any depth, have one key. |
| CacheKey.KeyOrderDoesNotShow | plugins/plugin-cache/src/cache.plugin.ts:286-299 | In particular inputs that differ only in key order. |
| CacheKey.DecodeObject | plugins/plugin-cache/src/cache.plugin.ts:286-299 | On clean inputs, with leaves of any type and objects of any kind, the serialisation is uniquely decodable: an object's text decides its keys and leaf texts, and where it ends. |
| CacheKey.KeyDecidesForm | plugins/plugin-cache/src/cache.plugin.ts:286-299 | On clean inputs keys are equal if and only if the inputs are, up to key order, the types of leaves and the kinds of objects. |
| CacheKey.MeaningIff | plugins/plugin-cache/src/cache.plugin.ts:286-299 | What that leaves out, for all values: two of one form mean the same if and only if they have the same type at every leaf and the same kind, with the same hidden content, at every object. |
| CacheKey.ArrayMeaningIff | plugins/plugin-cache/src/cache.plugin.ts:287-293 | Arrays mean the same if and only if their items do, one by one. |
| CacheKey.OtherLeavesAreClean | plugins/plugin-cache/src/cache.plugin.ts:286-299 | Numbers, booleans, null and undefined are always clean. |
| CacheKey.KindsCollide | plugins/plugin-cache/src/cache.plugin.ts:290-293 | Any array has the text of the object with its indices for keys, and any two objects without keys have one text, whatever they hold; two objects with the same entries mean the same only if they are the same. |
| CacheKey.StringFormIsMeaning | plugins/plugin-cache/src/cache.plugin.ts:286-299 | Where inputs are made of strings and plain objects alone, equal keys mean equality up to key order. |
| CacheKey.OneFieldTexts | plugins/plugin-cache/src/cache.plugin.ts:286-299 | The text of an object with one property, for a value of every type. |
| CacheKey.KeysCollideOutside | plugins/plugin-cache/src/cache.plugin.ts:286-299 | Collisions with a separator in a leaf, an empty leaf, a number against its text, an array against an index-keyed object, an empty array against an empty object, and any two objects without keys. |
| CachePlugin.CachePlugin.WillReadCache | plugins/plugin-cache/src/cache.plugin.ts:178-249 | The read hook: a hit parsed back and marked, a stored null counting as a miss, the renewal under a sliding window, a rejected entry deleted, and a bypass. |
| CachePlugin.SurvivesIff | plugins/plugin-cache/src/providers/cache-memory.provider.ts:30-76 | A result comes back from a store as it was, or as a miss, if and only if it is not a text that is the JSON form of something other than null. |
| CachePlugin.RepeatedCallIff | plugins/plugin-cache/src/providers/cache-memory.provider.ts:30-76 | A call that is simply repeated is answered alike if and only if its result survives in that sense. |
| CachePlugin.SecondCallHitsIff | plugins/plugin-cache/src/cache.plugin.ts:178-275 | The second of two calls is answered from the store, a record with `cache: hit` added to its metadata, if and only if the call is not bypassed, is cacheable and has an input; otherwise the tool is asked and the store is never touched. |
| CachePlugin.RejectedEntryGoes | plugins/plugin-cache/src/cache.plugin.ts:209-215 | An entry that the output schema rejects is deleted, no other is, and the read is a miss. |
| CachePlugin.CachePlugin.WillWriteCache | plugins/plugin-cache/src/cache.plugin.ts:252-275 | The write hook stores under the call's key and nowhere else. |
| CachePlugin.CallKeyIff | plugins/plugin-cache/src/cache.plugin.ts:199 | Two calls with clean inputs share a key if and only if they name the same tool, whatever its characters, with inputs equal up to key order, the types of leaves and the kinds of objects. |
| CachePlugin.TransparentIff | plugins/plugin-cache/src/cache.plugin.ts:177-275 | For given requests: in every run made of them, entries evicted at will, every call to every deterministic tool whose results survive is answered with the tool's own result, at most marked as a hit, if and only if requests that share a key ask the same tool for the same thing. |
| CachePlugin.CachingIsTransparentIff | plugins/plugin-cache/src/cache.plugin.ts:177-275 | On clean inputs that is so if and only if no tool is called with two inputs of one form that differ in the type of a leaf, in an array against an index-keyed object, or in what an object without keys holds. |
| CachePlugin.StringCallsAreTransparent | plugins/plugin-cache/src/cache.plugin.ts:177-275 | And so for clean inputs made of strings and plain objects alone. |
| CachePlugin.SharedKeyLeaks | plugins/plugin-cache/src/cache.plugin.ts:199-249 | Any two requests under one key that ask for different things: a deterministic tool and a run in which the second caller gets the first one's answer. |
| CachePlugin.UncleanInputsShareAnswers | plugins/plugin-cache/src/cache.plugin.ts:286-299 | A run in which an input with a separator in a leaf gives the next caller another call's answer. |
| CachePlugin.KindsShareAnswers | plugins/plugin-cache/src/cache.plugin.ts:290-293 | The same with any array after the object with its indices for keys, or one date after another. |
| ToolPattern.MatchesToolPattern | plugins/plugin-cache/src/cache.plugin.ts:29-42 | True exactly when some pattern matches as a wildcard. |
| ToolPattern.TranslationIsWildcard | plugins/plugin-cache/src/cache.plugin.ts:33-38 | After escaping, only `*` has a meaning in the regular expression. |
| ToolPattern.PatternIsWildcard | plugins/plugin-cache/src/cache.plugin.ts:29-42 | Both branches, exact and regular expression, match exactly what the wildcard describes. |
| ImportLine.RenderRoundTrip | scripts/merge-imports.ts:22-37 | A merged line parses back to the import it was written from, at its indentation, and holds no backtick. |
| ImportGrammar.HandledIff | scripts/merge-imports.ts:22-78 | A line is read as an import if and only if it is written as one: `import`, `type` or not, specifiers between commas, each with or without `type`, empty ones ignored, `from`, a module in either quote, a semicolon or not, and white space of any kind between. It then imports from that module those names, in order, as types exactly where the specifier or the line says `type`. |
| ImportGrammar.WrittenIsParsed | scripts/merge-imports.ts:22-37 | Whatever is written so is parsed to what it says. |
| MergeImports.ScanLine | scripts/merge-imports.ts:50-58 | The character loop with its escapes computes whether a template is open after a line. |
| MergeImports.OpenAfterCounts | scripts/merge-imports.ts:50-58 | A line opens or closes a template literal if and only if it holds an odd number of backticks with an even number of backslashes just before them. |
| MergeImports.ComputeTemplateLineMask | scripts/merge-imports.ts:44-61 | The mask says of each line whether it starts inside a template literal. |
| MergeImports.GroupByModule | scripts/merge-imports.ts:81-89 | The map holds each imported module with all its imports in order. |
| MergeImports.AnyGroupRepeats | scripts/merge-imports.ts:91-99 | A merge is needed exactly when some module is imported twice. |
| MergeImports.MergeGroup | scripts/merge-imports.ts:115-127 | The nested loops merge all specifiers of a module in order, a value import displacing a type import. |
| MergeImports.ProcessFile | scripts/merge-imports.ts:63-136 | The whole run: an unchanged file when nothing repeats, else one line per module at its first import. |
| ImportMeaning.MergedMeaning | scripts/merge-imports.ts:115-129 | A module's merged specifiers have the same names, as values exactly those that were, and are fit to be written. |
| ImportMeaning.ItemsOfMerged | scripts/merge-imports.ts:44-136 | Reading the merged file back gives the merged lines, each kept line masked exactly as it was. |
| ImportMeaning.MergePreservesMeaning | scripts/merge-imports.ts:63-136 | The output imports the same names from each module, as values exactly those that were, keeps every other line and mask in order, imports each module on one line at most, and a second run changes nothing; when something is merged, provided the import lines hold no backtick and no inner line break. |
| ImportBackticks.BacktickChangesMeaning | scripts/merge-imports.ts:44-136 | A file with a backtick in two merged import lines: merging drops one, and a line that was inside a template literal becomes an import. |
| ImportMeaning.MergedLineIsSorted | scripts/merge-imports.ts:129-131 | A merged line names its imports in collation order. |
| SecretCache.SecretPersistence.GetOrCreate | plugins/plugin-remember/src/remember.secret-persistence.ts:266-278 | A call answers from the cache, joins the generation in flight, or begins one. |
| SecretCache.SecretPersistence.Settle | plugins/plugin-remember/src/remember.secret-persistence.ts:299-303 | A finished generation caches its secret, or not if it threw, and is forgotten either way. |
| SecretCache.SecretPersistence.ClearCachedSecret | plugins/plugin-remember/src/remember.secret-persistence.ts:312-314 | Clears the cached secret and leaves a generation in flight alone. |
| SecretCache.StartHolds | plugins/plugin-remember/src/remember.secret-persistence.ts:241-245 | The module variables begin in a state from which the theorems about runs hold. |
| SecretCache.EveryInterleaving | plugins/plugin-remember/src/remember.secret-persistence.ts:242-314 | In every interleaving of callers, clears, file operations and failures, one generation at most is in flight, and callers between the same two clears that succeed hold one secret. |
| SecretCache.PersistedSecretIsStable | plugins/plugin-remember/src/remember.secret-persistence.ts:266-307 | While persistence works, no clear changes the secret: every caller of the run that succeeds holds the one on file. |
| SecretCache.SecretChangesIff | plugins/plugin-remember/src/remember.secret-persistence.ts:278-307 | A generation gives all its waiting callers one secret, which differs from an earlier one if and only if persistence is off or the file does not hold that one. |
| SecretCache.FailureReleases | plugins/plugin-remember/src/remember.secret-persistence.ts:299-307 | A generation that fails fails its waiting callers, changes no other caller and no file, and the next call begins a new one. |
| SecretCache.ClearCanSplitSecrets | plugins/plugin-remember/src/remember.secret-persistence.ts:266-314 | A run without persistence in which callers on either side of a clear hold different secrets. |
| OpenApiInput.FilterSecuritySchemes | libs/adapters/src/openapi/openapi.adapter.ts:509-566 | With an allow list, a property goes if and only if some mapper fills it from a named scheme that is not allowed, and exactly those schemes are recorded as coming from the context; without a list or such a scheme the tool stays as it is. |
| OpenApiInput.ApplyInputTransforms | libs/adapters/src/openapi/openapi.adapter.ts:452-502 | Takes out exactly the transformed inputs and records the transforms, or fails on a reserved key if and only if there is one. |
| OpenApiInput.PassEffect | libs/adapters/src/openapi/openapi.adapter.ts:483-490 | A pass removes its keys from the properties, and from the required names too, leaving the others as often as they were there, unless it would remove every one: then the old list stays. A schema without required names gets none. |
| OpenApiInput.PassesComposeIff | libs/adapters/src/openapi/openapi.adapter.ts:452-566 | The two passes remove exactly the union of their keys, and required names stay within the properties if and only if there were none or one survives both. |
| OpenApiInput.CheckNames | libs/adapters/src/openapi/openapi.adapter.ts:162-182 | Tools pass if and only if their names are distinct; otherwise a colliding name is reported with all its sources. |

## Left out

- DeepMaterialize.ForceMaterialize: a factory's product is fixed when the wrapper is made, so products exist before they are asked for, and chains of wrappers end; shape getters that build a fresh object on each call, definitions shared by two nodes, and unvisited fields such as pipe's in and out (kept as slots that no walk visits) are not followed, and the nine visiting blocks are one ordered list in which a slot occurs once.
- LazySchema.LazyEqualsEager: schemas are the calls that built them, so zod operations that look inside their arguments are not modelled; nor are hand-written `lazyZ` factories, the `has` and `getPrototypeOf` traps, and reading plain properties.
- EventStore.SqliteEventStore.StoreEventAt: counters are unbounded integers, so doubles beyond 2^53 are not modelled; messages stay opaque text, and a second process writing the same file is not modelled.
- KvStore.SqliteKvStore.Get: encryption and the JSON variants of get and set are not modelled.
- StorageAdapter.SqliteStorageAdapter.DoSet: the adapter's rounding of lifetimes to seconds and its plain delete, exists and expire wrappers are not modelled; stored integers are unbounded.
- GlobLike.GlobAgreesIff: glob matching is compared up to LIKE's ASCII case folding; patterns are sequences of characters, without surrogate pairs.
- Cursor.CursorRoundTrip: JSON and UTF-8 decoding are a parameter that is asked to read back the cursors' own texts; offsets are exact integers.
- TaskStore.SqliteTaskStore.UpdateTask: a record and its columns are kept once, so encryption and unreadable records are not modelled, nor are subscription to terminal events and the cancel channel; a status is never patched to undefined.
- TaskStore.SqliteTaskStore.ListPage: runs in one step; its interleavings with other readers and writers are those of TaskRepair.
- TaskRepair.OrphansFailOnceIff: counts the events that readers publish; those of the task runner, which publishes again what has already ended, and of the cancel flow are not counted.
- TaskPaging.WalkListsEachTaskOnce: under fixed membership, and no deadline passing during the walk; a task that is added or lapses between pages shifts the offsets.
- SpecPoller.OpenApiSpecPoller.Poll: callbacks do not throw; timers, starting and stopping, and the network call with its address checks are left out, and delays are real numbers.
- PollerUpdates.NothingLostIff: entity tags and If-Modified-Since are compared for equality, and a server that gives two contents one validator is not modelled.
- CacheKey.KeyDecidesForm: numbers are integers; functions, symbols, the text forms of other numbers, sparse arrays and cyclic objects are not modelled, and an object has enumerable properties or hidden content, not both.
- CachePlugin.CachePlugin.WillReadCache: the cache flag, the tool patterns and the bypass header enter as booleans, lifetimes as entries leaving the store at any moment; results are JSON values, and provider selection and errors of a provider are left out.
- ImportMeaning.MergePreservesMeaning: where something is merged, for files whose handled import lines hold no backtick and no inner line break; lines are given as already split, collation is a parameter, and file reading and writing are left out.
- SecretCache.EveryInterleaving: file validation, permissions and paths are left out, and the random secret is a parameter; options are those of one caller configuration.
- OpenApiInput.FilterSecuritySchemes: descriptions and the metadata that the two passes do not write, the tool, schema and output transforms, and the wiring of fetch, polling and chain rebuilding are left out.
- Encryption, the database engine and its journal, configuration, barrels, demonstration servers and benchmarks are not modelled.

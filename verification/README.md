# A verified model of the polling pipeline

The pipeline polls a monitoring server for the latest value of many items, keeps one
current value per item in memory, and publishes the values to a remote-write endpoint.
Four cooperating parts carry almost every hard invariant, and this project models them
and proves what they promise. `dafny verify dfyconfig.toml` verifies the whole project.

- **Value cache, expiry wheel and metadata.** A hash-sharded map (`Shards`,
  `ValueCaches`) keeps a scan log per shard with tombstones, in-place compaction and
  stable cursors. `FlatCaches` is the one flat map it refines; `PagedScans` says what a
  paged scan returns under any mutation; `Installs` says what applying a response does.
  A sparse minute wheel (`ExpiryWheels`, specified by `WheelContents`) takes out expired
  entries by item and version within a budget. `MetadataStores` republishes definitions
  atomically. `CacheProtocols` is the transition system in which history writers,
  metadata publications with their reconciliation, and cleanup rounds interleave; a
  writer's version check and its insert are two steps with the shard lock held between
  them. `Lifecycles` states what holds over whole runs of it, and
  `DueValues` which values a cycle or a scrape returns then. `BatchEffects` says what one
  response does to every item.
- **Streaming publisher.** Size-exact batching on the Protocol Buffers wire format
  (`WireFormats`, `BatchBuilders`), a bounded queue of single-consumer lanes
  (`LaneQueues`), reservations and the activity counter (`Publishers`), page batching
  (`PageBatchers`, `PageLedgers`) and whole cycles of a slot (`PublishSlots`). `Deliveries`
  follows a value to its sample and back to its acknowledgement.
  `PublisherProtocols` is the transition system of slots, workers and releases;
  `SendOrders` and `Reservations` hold its two main theorems.
- **Scheduler.** An indexed heap with back-pointers into entries that are changed in
  place (`GroupHeaps`, on the generic `Heaps`), cadence arithmetic (`Groups`), and the
  dispatcher with its bounded task channel, workers and reports (`Schedulers`).
- **Collector.** Grouping and batching of items (`GroupBuilders`), recursive splitting
  of truncated queries (`SplitQueries`) and per-batch watermarks (`Collectors`).

## How the model is built

Objects that the program updates in place are classes whose fields are updated in place;
loops are loops; pure computations are functions. A class states its invariant in
`Valid()` and every method states its whole new state, usually as a pure function of the
old one (`Processed`, `Begun`, `Enqueued`, `Round`, `Advanced`); the laws of those
functions are separate lemmas. Times and durations are integer nanoseconds since the Unix
epoch and `ZERO_TIME` is Go's zero instant; integer division and truncation follow Go.
Hash functions, labels, sample values and encoded messages are arbitrary; nothing assumes
that a hash is injective. What the program asks of its surroundings (the reader's
answers, the metadata check at a given moment, the class of a delivery attempt, whether a
context has ended) is a parameter that may answer anything, differently each time.

In a transition system each critical section is one step. `Execution` is a run from the
initial state; the main theorems speak about every state of every run.

## What the code does differently from what one might expect

- An oversized sample is normally counted and dropped. One that arrives at a builder that
  already holds the maximum number of samples always ends the page with an error
  instead (internal/promwrap/publisher.go:618-628); `PageBatchers.PageBatcher.Add` states
  both directions.
- A send may be repeated: a page can be read before the acknowledgement and its sample
  reserved after the release. What holds is that a sample is held at most once at a time
  (`Reservations.NeverTwice`), that at most one acknowledgement of it counts
  (`Lifecycles.SourceVersionAckedOnce`, `Lifecycles.CycleAcksIncrease`), and that sends
  of a series never go back (`SendOrders.SendOrder`).
- An acknowledgement with a timestamp before Go's zero time counts every time it arrives
  (internal/cache/value_cache.go:737-742); `Lifecycles.AckCountsTwice` gives the exact
  condition.
- The miss counter is not reset by a fetch that brings nothing new
  (internal/cache/value_cache.go:359-363); `Lifecycles.MissesCounted` counts the marks
  since the version was installed.
- The branch for an active bucket with nothing left to examine
  (internal/cache/expiry_wheel.go:160-165) is never reached, so it plays no part in the
  termination of a round: `ExpiryWheels.ExpiryWheel.Drain`, `ExpiryWheels.BatchSize`.
- A cycle may be requested for an instant before Go's zero time. Three such requests can
  make a slot's clock go back (`Publishers.CyclesGoBack`); the queue then turns the cycle
  away, so `SendOrders.SendOrder` holds for all requests.
- Without a metadata snapshot a query counts as complete and moves the watermark although
  nothing reaches the cache (`SplitQueries.NothingWithoutMetadata`).
- Group ids keep whole seconds of the delay only (internal/scheduler/group.go:108-110), so
  two delays of one host and type with the same whole seconds share an id and the scheduler
  keeps one of them; `GroupBuilders.IDsClash` says exactly when.
- The cursor error, the encoder's size error and its empty-batch error can never occur
  (`PublishSlots.PublishSlot`, `BatchBuilders.BatchBuilder.Encode`).

## Model

| member | source | states |
|---|---|---|
| `ValueStates.MissDeadlineBeforeExpiry` | internal/cache/value_state.go:65-87 | the miss deadline of a value is never after its hard expiry |
| `ValueStates.DeadlinesExact` | internal/cache/value_state.go:65-87 | the miss deadline is the source instant plus the delay plus a grace: a fifth of the delay in whole nanoseconds, but at least 30 s; a delay up to a minute expires after two delays, but at least 90 s, a longer one exactly one delay after its miss deadline |
| `ValueStates.NewerMeansLater` | internal/cache/value_state.go:89-92 | comparing (clock, ns) with a cached state is comparing instants |
| `Histories.ReduceLatest` | internal/zabbix/history.go:74-84 | the result holds, for exactly the items of the response, a record no other record of that item exceeds in (clock, ns) |
| `Histories.KeptIsLatest` | internal/zabbix/history.go:74-84 | the point kept for an item is one of the response, and no other point of it has a later second, or the same second and more nanoseconds |
| `Histories.ReductionUnique` | internal/zabbix/history.go:74-84 | the reduction is fully determined by the records, whatever their order |
| `Shards.ValueShard.constructor` | internal/cache/shard.go:23-28 | an empty shard satisfies the shard invariant |
| `Shards.ValueShard.Insert` | internal/cache/shard.go:36-45 | a replacement keeps the scan sequence and leaves the log alone; a new item is logged last under a sequence never used before; the shard invariant (strictly increasing log, one live record per item, log length = live items + tombstones) and the log bound survive |
| `Shards.ValueShard.Store` | internal/cache/value_cache.go:360-361 | overwriting a cached state in place keeps the invariant and does not touch the log |
| `Shards.ValueShard.Delete` | internal/cache/shard.go:47-54 | removes exactly that item and leaves one more tombstone, if it was there |
| `Shards.ValueShard.CompactOrder` | internal/cache/shard.go:58-70 | below the thresholds nothing happens; otherwise the log becomes exactly its live records with their sequences; afterwards the log has at most live + 1023 or fewer than 2 * live records |
| `Shards.Compacted` | internal/cache/shard.go:62-68 | filtering the log inside its own buffer yields the live records in order |
| `Shards.OneLiveRecordPerItem` | internal/cache/shard.go:36-54 | a well-formed log has exactly one live record per cached item |
| `Shards.ValueShard.FirstSequenceAfter` | internal/cache/shard.go:72-76 | the position splits the log into sequences up to the given one and sequences behind it |
| `Shards.UpperBound` | internal/cache/shard.go:73-75 | binary search over strictly increasing sequences finds that position |
| `FlatCaches.RegroupingRefines` | internal/cache/value_cache.go:796-815 | for every hash function, shard count and list with any duplicates, processing shard by shard gives the same states and the same counters as processing the list in order on one flat map |
| `FlatCaches.StepsCommute` | internal/cache/value_cache.go:796-815 | operations on different items commute, in effect and in counters |
| `FlatCaches.Delay` | internal/cache/value_cache.go:796-815 | an operation may be delayed past any run of operations on other items |
| `FlatCaches.RegroupOne` | internal/cache/value_cache.go:796-815 | one more operation lands in its own shard group and the later groups do not notice |
| `FlatCaches.TallyTotal` | internal/cache/value_cache.go:467-557 | every operation of a list is counted exactly once as applied, stale or not found, and no more states turn invalid than were marked |
| `FlatCaches.RemovalStep` | internal/cache/value_cache.go:520-557 | one removal takes its item away exactly when the version it names, if any, is the cached one |
| `FlatCaches.RemovalsExact` | internal/cache/value_cache.go:498-557 | a list of removals takes away exactly the states it names by item or by item and version, and changes no other state |
| `FlatCaches.RemovalsCounted` | internal/cache/value_cache.go:498-557 | what a list of removals takes away is counted once each; without versions nothing is stale |
| `FlatCaches.MarksExact` | internal/cache/value_cache.go:467-496 | marking different items gives each cached one exactly one miss and leaves every other state alone |
| `FlatCaches.MarksCounted` | internal/cache/value_cache.go:467-496 | the counters are the number of marked items that are cached and of those that turn invalid |
| `ValueCaches.GroupByShard` | internal/cache/value_cache.go:796-815 | splits a list by shard in list order and lists the shards that received something in ascending order |
| `ValueCaches.SortInts` | internal/cache/value_cache.go:338-338 | lists the distinct touched shards in ascending order |
| `ValueCaches.WithoutRepetitions` | internal/cache/value_cache.go:800-806 | keeps the first occurrence of every id |
| `ValueCaches.FirstOccurrencesExactly` | internal/cache/value_cache.go:800-806 | the list then names every id exactly once |
| `ValueCaches.ValueCache.constructor` | internal/cache/value_cache.go:188-221 | an empty cache satisfies the cache invariant |
| `ValueCaches.ValueCache.Load` | internal/cache/value_cache.go:559-565 | answers what one flat map of all shards holds |
| `ValueCaches.ValueCache.Len` | internal/cache/value_cache.go:755-757 | the entry counter equals the size of the flat map |
| `ValueCaches.ValueCache.MarkMiss` | internal/cache/value_cache.go:467-496 | states and all three counters are those of marking the distinct ids in order on one flat map: every named item that is cached gets exactly one miss, however often it is named, nothing else changes, and the counters are the numbers of cached, invalidated and unknown ids |
| `ValueCaches.ValueCache.Delete` | internal/cache/value_cache.go:498-518 | states and counters are those of removing the distinct ids in order on one flat map: exactly the named items are gone, and every distinct id counts once, as deleted or not found |
| `ValueCaches.ValueCache.DeleteVersioned` | internal/cache/value_cache.go:520-557 | states and counters, duplicates included, are those of removing item by item in order on one flat map: an item goes exactly if the version it is cached under is named, and every entry of the list counts once |
| `ValueCaches.ValueCache.AckPublished` | internal/cache/value_cache.go:704-753 | states and counters, duplicates included, are those of acknowledging in order on one flat map |
| `ValueCaches.ValueCache.Process` | internal/cache/value_cache.go:467-557 | grouping by shard and taking one shard lock after the other refines the flat map; every shard log stays bounded |
| `ValueCaches.ValueCache.ProcessShard` | internal/cache/value_cache.go:470-491 | the operations of one shard advance the flat result by exactly that group; removals end with a compaction |
| `ValueCaches.ValueCache.MissOne` | internal/cache/value_cache.go:474-488 | one mark under the shard lock has the effect and the counters of the flat operation |
| `ValueCaches.ValueCache.AckOne` | internal/cache/value_cache.go:722-748 | one acknowledgement under the shard lock has the effect and the counters of the flat operation |
| `ValueCaches.ValueCache.RemoveOne` | internal/cache/value_cache.go:538-549 | one removal, with the version compared under the same lock, has the effect and the counters of the flat operation |
| `ValueCaches.ValueCache.ApplyBatch` | internal/cache/value_cache.go:248-449 | for every item: a readable point of an enabled numeric item whose definition is current under the shard lock is what the cache then holds, under a new version, if the item was absent, had another definition or an earlier instant; otherwise only the fetch is recorded; every other item is as before. Exactly the new generations are registered for expiry, once each. Every returned point is counted once by its fate; items without a current definition are stale; if there are none, exactly the queried items that did not come back are missed. Unusable responses change nothing and say so. The log of decisions replays to the new cache |
| `ValueCaches.ValueCache.InstallAll` | internal/cache/value_cache.go:338-401 | every candidate of the batch is decided exactly once, shard by shard in ascending order |
| `ValueCaches.ValueCache.InstallBucket` | internal/cache/value_cache.go:346-397 | the points of one shard are decided in bucket order under one lock |
| `ValueCaches.ValueCache.InstallOne` | internal/cache/value_cache.go:349-395 | one pending point is refused exactly if its definition is not current under the lock, left unchanged exactly if the cached state has its definition and its instant or a later one, and otherwise installed under a fresh version and registered with that version and expiry |
| `ValueCaches.ValueCache.InstallState` | internal/cache/value_cache.go:366-395 | a new state gets the next global version; a replacement keeps its scan position |
| `ValueCaches.Summarize` | internal/cache/value_cache.go:403-448 | counters per outcome, and miss candidates in query order unless a stale definition was met |
| `BatchEffects.BatchApplied` | internal/cache/value_cache.go:297-395 | for every item: an accepted point that is not outrun is what the cache then holds, unpublished and unmissed, under a version above all earlier ones and in the scan position the item had; one that is outrun only records the fetch; nothing else changes, whatever the order of the batch |
| `BatchEffects.BatchRegistered` | internal/cache/value_cache.go:377-401 | the registrations name exactly the generations the batch brought in, with their expiry, once each |
| `BatchEffects.BatchSifted` | internal/cache/value_cache.go:349-415 | which points count as created, updated, unchanged and refused, in terms of the response, the snapshot, the cache before and the answers under the locks |
| `BatchEffects.EveryPointCounted` | internal/cache/value_cache.go:297-415 | every returned point meets exactly one of the six fates |
| `Installs.Classify` | internal/cache/value_cache.go:297-336 | every returned point is skipped, rejected or put into the bucket of its shard, according to metadata and to whether the value is usable |
| `Installs.Sorted` | internal/cache/value_cache.go:297-336 | the three classes of returned points are disjoint and exhaustive, and a candidate carries its own item, point and definition version |
| `Installs.FindStale` | internal/cache/value_cache.go:287-296 | the queried items whose definition is missing or no longer current |
| `Installs.FindMisses` | internal/cache/value_cache.go:422-445 | the queried items that neither came back nor are excused, once each, in query order |
| `Installs.ReplayItem` | internal/cache/value_cache.go:349-395 | every item of a batch is decided by what the cache held before the batch, whatever the order of the batch |
| `Installs.VersionsIncrease` | internal/cache/value_cache.go:377-377 | versions handed out by a batch are fresh and strictly increase |
| `Installs.InstalledNewer` | internal/cache/value_cache.go:358-395 | an installed point is what the cache then holds, with a registration for exactly its version and expiry; under an unchanged definition it comes from a strictly later source point |
| `ValueCaches.ValueCache.ReadPage` | internal/cache/value_cache.go:577-621 | the shared page loop returns the specified page: shard by shard behind the cursor until the limit is met |
| `ValueCaches.ValueCache.ReadShard` | internal/cache/value_cache.go:588-613 | one shard visit returns the first eligible states behind the cursor and says whether the limit was met |
| `ValueCaches.ValueCache.ReadPublishPage` | internal/cache/value_cache.go:567-622 | fails exactly on an unknown slot, a limit below one or a cursor beyond the shards; otherwise the specified page of the slot and cycle, whose values `DueValues.PageReturnsDue` characterizes over whole runs |
| `ValueCaches.ValueCache.ReadScrapePage` | internal/cache/value_cache.go:640-695 | fails exactly on a zero timestamp, a limit below one or a cursor beyond the shards; otherwise the specified page for the scrape, whose values `DueValues.ScrapeReturnsFresh` characterizes |
| `ValueCaches.ValueCache.SeesEverything` | internal/cache/value_cache.go:577-613 | what the shard visits see is together exactly the flat map, every shard its own part |
| `PagedScans.PageSound` | internal/cache/value_cache.go:567-622 | the hits of a page lie strictly behind its cursor, in strictly increasing (shard, sequence), at most `limit` of them, and the cursor of a page that is not the last strictly advances |
| `PagedScans.PageComplete` | internal/cache/value_cache.go:567-622 | everything live and eligible between the cursor and the next cursor is on the page |
| `PagedScans.PageExactly` | internal/cache/value_cache.go:567-622 | a live state is on a page exactly if it is eligible and lies between the cursor and the next cursor |
| `PagedScans.PageListsItemOnce` | internal/cache/value_cache.go:567-622 | one page lists an item at most once, though the cache may change between its shard visits |
| `PagedScans.MatchesResume` | internal/cache/shard.go:72-76 | reading on from a hit yields exactly the hits behind it |
| `PagedScans.PageTakesPrefix` | internal/cache/value_cache.go:567-622 | without mutation a page is a prefix of what is left and its cursor leads to exactly the rest |
| `PagedScans.ScanNeverRepeats` | internal/cache/value_cache.go:567-622 | with arbitrary changes between and within pages, following the cursor never returns one incarnation twice |
| `PagedScans.ScanReturns` | internal/cache/value_cache.go:567-622 | up to the cursor reached, a scan has returned every incarnation that stayed visible |
| `PagedScans.ScanReturnsExactlyOnce` | internal/cache/value_cache.go:567-622 | a complete scan from the zero cursor returns every incarnation that was live and eligible throughout, exactly once |
| `PagedScans.QuietScan` | internal/cache/value_cache.go:567-622 | without mutation a complete scan collects everything |
| `PagedScans.PagingEqualsOnePage` | internal/cache/value_cache.go:567-622 | without mutation, paging with any limits equals one page with a limit too large to matter |
| `ExpiryWheels.ExpiryWheel.constructor` | internal/cache/expiry_wheel.go:89-100 | an empty wheel is valid; a budget of zero means the default |
| `ExpiryWheels.ExpiryWheel.RegisterExpiry` | internal/cache/expiry_wheel.go:112-129 | every entry is appended to its minute in order; nothing else changes; heap keys stay the non-empty minutes and the counter stays the number of entries |
| `ExpiryWheels.ExpiryWheel.RegisterOne` | internal/cache/expiry_wheel.go:119-127 | one entry is appended to its minute |
| `ExpiryWheels.ExpiryWheel.FirstDueBucket` | internal/cache/expiry_wheel.go:257-272 | the least minute if it is not after the current one, else none |
| `ExpiryWheels.ExpiryWheel.TakeBatch` | internal/cache/expiry_wheel.go:179-201 | one critical section moves the first entries of the least minute out or behind the unexamined ones; due entries leave the wheel before the store is asked |
| `ExpiryWheels.Sift` | internal/cache/expiry_wheel.go:179-190 | splits a batch in order into deletion candidates and deferred entries |
| `ExpiryWheels.BatchSize` | internal/cache/expiry_wheel.go:160-177 | a batch is positive and within the budget and the delete size, so the branch for an active bucket with nothing left is unreachable |
| `ExpiryWheels.ExpiryWheel.ExpireBatch` | internal/cache/expiry_wheel.go:148-220 | one batch keeps the round where the specification says: what has been examined, what was handed over, what still stands in line |
| `ExpiryWheels.ExpiryWheel.Drain` | internal/cache/expiry_wheel.go:148-220 | the loop of a round terminates and ends at the round the specification describes |
| `ExpiryWheels.ExpiryWheel.ExpireDue` | internal/cache/expiry_wheel.go:134-228 | terminates; examines min(budget, due entries) entries; hands exactly the expired ones among them to the store; the cache then is the old one without exactly those versions; Deleted + Stale + NotFound is the number handed over; limited exactly when the budget is used up with due entries left |
| `ExpiryWheels.HandOver` | internal/cache/expiry_wheel.go:204-209 | the counters of the store add up over the batches of a round |
| `ExpiryWheels.ExpiryWheel.UpdateLastProcessed` | internal/cache/expiry_wheel.go:289-298 | remembers the last minute up to the current one with nothing pending at or before it, unless a later one is remembered already |
| `ExpiryWheels.ExpiryWheel.CleanupLag` | internal/cache/expiry_wheel.go:300-309 | the lag is the distance to the oldest waiting minute, never negative |
| `ExpiryWheels.Rotated` | internal/cache/expiry_wheel.go:148-220 | examining more entries moves the whole line on: deferred entries go behind unexamined ones |
| `WheelContents.RoundConserves` | internal/cache/expiry_wheel.go:134-228 | nothing is lost: what a round leaves and what it hands over are together what was there, within the budget, and only expired entries are handed over |
| `WheelContents.RoundComplete` | internal/cache/expiry_wheel.go:148-223 | a round that is not limited leaves only entries that expire later |
| `WheelContents.Progressed` | internal/cache/expiry_wheel.go:148-220 | after r rounds at most E - r * budget of the entries due at the first round are unexamined |
| `WheelContents.CatchUp` | internal/cache/expiry_wheel.go:148-220 | with nondecreasing instants and no new registrations, ceil(E / budget) rounds remove every entry expired at the first round |
| `WheelContents.BucketKeyIsMinute` | internal/cache/expiry_wheel.go:311-313 | a bucket covers exactly one minute, counted from the epoch and rounded toward it |
| `Heaps.SiftUp` | internal/cache/expiry_wheel.go:315-331 | restores heap order from a leaf upwards, keeping the elements |
| `Heaps.SiftDown` | internal/cache/expiry_wheel.go:315-331 | restores heap order from the root downwards, keeping the elements |
| `Heaps.Push` | internal/cache/expiry_wheel.go:321-323 | adds one key and keeps heap order |
| `Heaps.Pop` | internal/cache/expiry_wheel.go:325-331 | removes the root and keeps heap order and the other elements |
| `Heaps.RootIsLeast` | internal/cache/expiry_wheel.go:315-331 | the root of a heap is its least element |
| `ExpiryAgreements.DeletedExactly` | internal/cache/value_cache.go:520-557 | an expiry deletion takes away exactly the states whose version it names |
| `ExpiryAgreements.OpKeepsGeneration` | internal/cache/value_cache.go:467-753 | misses, acknowledgements and removals never change the version or the expiry of a state that stays |
| `ExpiryAgreements.OnlyExpiredDeleted` | internal/cache/expiry_wheel.go:179-209 | a deletion never removes a state that expires after the instant the candidates were chosen for, although they are chosen and deleted under different locks |
| `ExpiryAgreements.AgreementAfterBatch` | internal/cache/value_cache.go:377-401 | applying a batch keeps every live state covered by a registration with its version and expiry |
| `ExpiryAgreements.AgreementAfterDeleting` | internal/cache/expiry_wheel.go:179-215 | deleting what was taken keeps every remaining state covered by the remaining entries |
| `ExpiryAgreements.AgreementAfterRound` | internal/cache/expiry_wheel.go:134-228 | a cleanup round keeps the agreement and every state that expires later; an unlimited round leaves exactly those |
| `Strings.SortDistinct` | internal/collector/group_collector.go:399-413 | sorting and compacting in place yields the one strictly ascending listing of the elements |
| `Strings.ListingUnique` | internal/metadata/cache.go:167-187 | a set has exactly one strictly ascending listing |
| `MetadataStores.Store.constructor` | internal/metadata/cache.go:20-35 | the store starts with the empty snapshot |
| `MetadataStores.Store.ApplySnapshot` | internal/metadata/cache.go:45-62 | publishes the candidate on top of the current snapshot with one swap: its ids, nil where it is nil, and its definitions, in all three tables; an entry keeps its version exactly if the id had an equal definition, otherwise it gets the new snapshot version; reports exactly what changed; nil changes nothing |
| `MetadataStores.CloneSnapshot` | internal/metadata/cache.go:80-119 | hosts, items and groups are those of the candidate; unchanged definitions keep their version, all others get the new one |
| `MetadataStores.CloneTable` | internal/metadata/cache.go:80-119 | the published table has the ids and definitions of the candidate and the version of each as before exactly if its definition is; it does not depend on the order in which the map is walked |
| `MetadataStores.PublicationTakesOver` | internal/metadata/cache.go:80-119 | whatever the history, a publication takes over ids and definitions of the candidate in all three tables, and moves a version exactly when the definition moved |
| `MetadataStores.DiffTables` | internal/metadata/cache.go:167-187 | added, removed and changed list exactly the ids concerned, sorted, once each |
| `MetadataStores.RemovedAndChanged` | internal/metadata/cache.go:168-177 | the first walk finds exactly the removed ids and those whose definitions differ |
| `MetadataStores.KeysMissing` | internal/metadata/cache.go:178-182 | the second walk finds exactly the added ids |
| `MetadataStores.TablesOfHistory` | internal/metadata/cache.go:80-119 | the tables of hosts, items and groups all grow by publishing one source on top of the last table |
| `MetadataStores.EntryOrigin` | internal/metadata/cache.go:80-119 | over any sequence of publications an entry is exactly the entry of the publication its version names |
| `MetadataStores.VersionsNeverGoBack` | internal/metadata/cache.go:80-119 | over any sequence of publications the versions of an id never go back, also after removal and re-adding |
| `MetadataStores.VersionsDetermineDefinitions` | internal/metadata/cache.go:45-62 | in any two published snapshots, for hosts, items and groups alike, (id, version) determines the definition, also after removal and re-adding |
| `MetadataStores.ChangesMoved` | internal/metadata/cache.go:159-187 | for hosts, items and groups: the changed ids are exactly the shared ids whose version moved; added, removed, changed and unchanged partition the ids |
| `Pipelines.ApplyMetadata` | internal/pipeline/scheduled.go:412-436 | reconciliation removes exactly the states of removed items and of changed items that are not disabled, and nothing else |
| `Pipelines.ReconcilesObsolete` | internal/pipeline/scheduled.go:412-431 | what is reconciled are exactly the items that are gone, or have another definition and are not disabled |
| `Pipelines.ChangedEnabled` | internal/pipeline/scheduled.go:417-427 | selects exactly the changed items that are not disabled now |
| `CacheProtocols.AccountedAfterPublish` | internal/cache/value_cache.go:451-465 | publishing moves every definition that no longer holds into the set to reconcile, unless the item is disabled |
| `CacheProtocols.SettledAfterReconcile` | internal/cache/value_cache.go:451-465 | no point checked before a publication can still be on its way into a shard once reconciliation has passed that shard |
| `CacheProtocols.StaleIsPendingOrDisabled` | internal/cache/value_cache.go:345-465 | in every reachable interleaving, a cached entry whose definition version is not current is still to be reconciled or its item is disabled |
| `CacheProtocols.Reconciled` | internal/pipeline/scheduled.go:412-431 | once reconciliation has finished, no removed item and no outdated definition of an enabled item is cached, and every value of an enabled item expires as its current delay says |
| `CacheProtocols.LiveIsCovered` | internal/cache/value_cache.go:377-401 | in every reachable state every live value is covered by a registration of its own version and expiry: in the wheel, not yet delivered to it, or taken out and not yet deleted |
| `CacheProtocols.ExpiryDeletesOnlyExpired` | internal/cache/expiry_wheel.go:179-215 | in no interleaving does an expiry deletion remove a state that expires after the instant of its round |
| `Lifecycles.VersionsUnique` | internal/cache/value_cache.go:377-377 | value versions are handed out once and increase over the whole run, across items and writers |
| `Lifecycles.Born` | internal/cache/value_cache.go:366-395 | every value cached at any point of a run was installed at one step of it, under a version not used before, and has been cached since |
| `Lifecycles.NeverReturns` | internal/cache/value_cache.go:366-395 | a version that has left the cache never comes back |
| `Lifecycles.SeenVersionsGrow` | internal/cache/value_cache.go:377-377 | whoever sees an item again during a run sees the same version or a later one |
| `Lifecycles.InstallAt` | internal/cache/value_cache.go:349-395 | an installation concerns another item, gives this one a version it never had, or only records a fetch |
| `Lifecycles.MissesCounted` | internal/cache/value_cache.go:474-488 | in every reachable state the miss counter of a cached value is the number of marks since its version was installed (capped at 32 bits), and the value is invalid exactly if one of those marks came after the miss deadline when enough had been made |
| `Lifecycles.ExpiryFixed` | internal/cache/value_cache.go:366-382 | in every reachable state expiry, miss deadline and publish policy are those of the source instant and delay, whatever happened since |
| `Lifecycles.SourceVersionAckedOnce` | internal/cache/value_cache.go:722-748 | over a whole run, two acknowledgements that count for an item published with source timestamps are for different versions |
| `Lifecycles.CycleAcksIncrease` | internal/cache/value_cache.go:722-748 | over a whole run, the acknowledgements that count for one cycle-timestamp version have strictly increasing timestamps once the earlier is after the zero time; none has the zero time itself |
| `Lifecycles.AckCountsTwice` | internal/cache/value_cache.go:722-748 | an acknowledgement counts twice exactly when its cycle timestamp is before the zero time and nothing has been published |
| `Lifecycles.AcksNotIncreasing` | internal/cache/value_cache.go:722-748 | two acknowledgements in a row count without increasing exactly when nothing had been published, the first is before the zero time and the second no greater |
| `Lifecycles.AcksGoBack` | internal/cache/value_cache.go:722-748 | a state and two timestamps for which that happens |
| `Lifecycles.ReplacedOnlyByNewer` | internal/cache/value_cache.go:358-395 | while an item stays cached under one definition its value is only replaced from a strictly later source point, under a later version |
| `DueValues.PublishingState` | internal/cache/value_cache.go:722-748 | in every reachable state the publishing fields of a cached value say exactly which acknowledgements of its version have arrived since it was installed |
| `DueValues.SentWhenDue` | internal/cache/value_cache.go:624-634 | in every reachable state a value may be sent in a cycle exactly if it is of the slot, valid, expires after the cycle, and: if its delay is at most a minute, no acknowledgement of its version has arrived; otherwise the cycle is not before its source instant and behind every timestamp acknowledged for its version after the zero time |
| `DueValues.PageReturnsDue` | internal/cache/value_cache.go:567-622 | a page whose shard visits saw states of a run returns exactly the values of its stretch that were due in that sense when their shard was visited |
| `DueValues.PageOnlyDue` | internal/cache/value_cache.go:567-622 | every hit of such a page was cached in its shard and due |
| `DueValues.ScanReturnsDueOnce` | internal/cache/value_cache.go:567-622 | a whole scan, with any changes between its visits, returns an incarnation that stays due exactly once |
| `DueValues.CycleReadsDue` | internal/promwrap/publisher.go:383-413 | while nothing changes a cycle reads exactly what is due |
| `DueValues.CountsWhenNew` | internal/cache/value_cache.go:722-748 | an acknowledgement of the cached version counts exactly if it is the first for a delay of at most a minute, whatever its timestamp; otherwise exactly if its timestamp is not zero and lies behind those acknowledged before |
| `DueValues.ShownWhenFresh` | internal/cache/value_cache.go:697-702 | a scrape may show a value exactly if it is valid, unexpired and, for delays over a minute, not from the future; publishing plays no part, and whatever a cycle may send a scrape at that instant shows |
| `DueValues.ScrapeReturnsFresh` | internal/cache/value_cache.go:640-695 | a page of a scrape returns exactly those values of its stretch |
| `DueValues.CarriesPoint` | internal/cache/value_cache.go:597-612 | a sample read at any point of a run carries the point that was installed: its value, its definition version and, for delays of at most a minute, its own instant; otherwise the instant of the cycle |
| `DueValues.StampedWithinLife` | internal/cache/value_cache.go:597-612 | no sample is stamped before the instant of its point, nor at or after its expiry |
| `Deliveries.OfferedExactly` | internal/promwrap/publisher.go:455-481 | a value offers a sample exactly if the snapshot still has its definition version and gives it labels; the sample has those labels, its value and timestamp, the lane of its item, its policy, and will acknowledge exactly its version at its timestamp |
| `Deliveries.SameKeySameSample` | internal/promwrap/publisher.go:468-468 | two samples reserve one key exactly if they are of one version of one item in one millisecond |
| `Deliveries.AckOfDueCounts` | internal/promwrap/publisher.go:711-716 | the acknowledgement of a delivered sample that is still due counts |
| `Deliveries.NotDueOnceDelivered` | internal/promwrap/publisher.go:696-731 | over every run, a version whose sample was delivered and acknowledged is never due again, or, for delays over a minute, not in any cycle up to the one it was sent in |
| `WireFormats.Varint` | internal/promwrap/batch_encoder.go:156-163 | the base-128 encoding of a number, never empty |
| `WireFormats.VarintRoundTrip` | internal/promwrap/batch_encoder.go:156-163 | a varint followed by anything reads back as the number and what follows |
| `WireFormats.VarintSize` | internal/promwrap/batch_encoder.go:156-163 | shifting counts exactly the bytes of the varint |
| `WireFormats.VarintBytes` | internal/promwrap/batch_encoder.go:156-163 | the bytes of a varint are seven-bit digits, least significant first, all but the last with the top bit set, and no shorter list of digits stands for the number |
| `WireFormats.RepeatedMessageSize` | internal/promwrap/batch_encoder.go:152-154 | tag, length and body: exactly the wire length of one record of the repeated field |
| `WireFormats.WireRoundTrip` | internal/promwrap/batch_encoder.go:122-147 | a receiver reads back exactly the messages sent, in order |
| `BatchBuilders.BatchBuilder.constructor` | internal/promwrap/batch_encoder.go:70-85 | an empty builder is valid |
| `BatchBuilders.BatchBuilder.Add` | internal/promwrap/batch_encoder.go:94-120 | takes a sample exactly when the request stays within both limits; reports it oversized exactly when it would not fit a request of its own |
| `BatchBuilders.BatchBuilder.Encode` | internal/promwrap/batch_encoder.go:122-147 | the size error never fires and the byte counter equals the wire length; the batch carries exactly the samples, keys and acknowledgements added; nothing to encode exactly when nothing was added |
| `BatchBuilders.CarriesExactly` | internal/promwrap/batch_encoder.go:87-147 | a batch decodes to the messages of its samples, holds their keys one by one, and names the acknowledgement of every sample that has one, and no other |
| `LaneQueues.KeptExact` | internal/promwrap/push_worker.go:264-285 | the filter takes out exactly the older cycle batches of the slot and keeps everything else |
| `LaneQueues.KeptAndDropped` | internal/promwrap/push_worker.go:264-285 | kept and removed batches are together the lane, with multiplicities |
| `LaneQueues.KeptInOrder` | internal/promwrap/push_worker.go:264-285 | any order between the batches of a lane survives the filter |
| `LaneQueues.BegunBegins` | internal/promwrap/push_worker.go:251-288 | a cycle may begin unless the queue is closed or a later one has; the latest again changes nothing; a newer one takes out exactly the waiting cycle batches of older cycles of its slot, from every lane, and loses nothing |
| `LaneQueues.LaneQueue.Filter` | internal/promwrap/push_worker.go:268-285 | filtering inside the buffer of the lane computes the kept and the removed batches |
| `LaneQueues.LaneQueue.constructor` | internal/promwrap/push_worker.go:238-249 | an empty open queue: size is the sum of the lanes and within capacity, no consumer waits |
| `LaneQueues.LaneQueue.BeginLongCycle` | internal/promwrap/push_worker.go:251-288 | refused when closed or older than the latest cycle of the slot; otherwise exactly the older cycle batches of the slot leave every lane and the cycle becomes the latest |
| `LaneQueues.LaneQueue.TryEnqueue` | internal/promwrap/push_worker.go:290-309 | refuses as obsolete exactly when closed or behind the latest cycle of the slot, else as full exactly when as many batches wait as the capacity, else appends at the end of the lane; a waiting consumer of the lane then has a token |
| `LaneQueues.LaneQueue.PopOne` | internal/promwrap/push_worker.go:311-342 | takes the oldest batch of the lane, or finds the queue closed, or starts to wait; no wake-up is lost |
| `LaneQueues.LaneQueue.Wake` | internal/promwrap/push_worker.go:336-340 | a waiting consumer uses up its token and looks again |
| `LaneQueues.LaneQueue.Close` | internal/promwrap/push_worker.go:344-362 | empties and closes the queue once, hands back everything that waited, and gives every waiting consumer a token |
| `Publishers.BoundedBackoff` | internal/promwrap/push_worker.go:201-216 | the backoff is min(maximum, base * 2^exponent), zero without a base |
| `Publishers.Send` | internal/promwrap/push_worker.go:117-135 | at most retries + 1 attempts; every attempt but the last was retryable and not interrupted; the class is that of the last; it is a success exactly when some attempt in the limit succeeds with only retryable, uninterrupted failures before it |
| `Publishers.CyclesAdvance` | internal/promwrap/publisher.go:431-444 | the same instant gives the same cycle; the cycle advances exactly when the instant differs and the slot had a cycle or the instant is after the zero time; whole milliseconds stay whole |
| `Publishers.CycleIsNext` | internal/promwrap/publisher.go:431-444 | a request in the millisecond of the last one gets its cycle; a new one gets, in a slot without a cycle, its own millisecond, and otherwise the least whole millisecond strictly after the last cycle and not before the request |
| `Publishers.CyclesGoBack` | internal/promwrap/publisher.go:431-444 | three requests before the zero time of which the last goes back behind the first |
| `Publishers.Publisher.constructor` | internal/promwrap/publisher.go:220-257 | at the start nothing is reserved and nothing outstanding |
| `Publishers.Publisher.Reserve` | internal/promwrap/publisher.go:733-741 | a key is reserved unless it already is; the reservation set stays exactly the keys held |
| `Publishers.Publisher.ReleaseKeys` | internal/promwrap/publisher.go:747-753 | exactly the given keys are given back |
| `Publishers.Publisher.AddActivity` | internal/promwrap/publisher.go:812-819 | one more outstanding batch; the idle channel is open |
| `Publishers.Publisher.DoneActivity` | internal/promwrap/publisher.go:821-832 | one outstanding batch less, never below zero; the idle channel is closed exactly at zero |
| `Publishers.Publisher.SubmitBatch` | internal/promwrap/publisher.go:666-694 | queued exactly when admitted; a refused batch gives its keys back and is not counted |
| `Publishers.Publisher.ReleaseBatch` | internal/promwrap/publisher.go:743-745 | gives back the keys of one batch and counts it as done |
| `Publishers.Publisher.ReleaseAll` | internal/promwrap/publisher.go:354-360 | gives back exactly the keys of a list of removed batches and counts each as done |
| `Publishers.Publisher.BeginCycle` | internal/promwrap/publisher.go:350-363 | the cycle begins in the queue and exactly the keys of the superseded batches are given back |
| `Publishers.Publisher.Stop` | internal/promwrap/publisher.go:292-332 | closes the queue and gives back everything that waited in it |
| `Publishers.Publisher.Deliver` | internal/promwrap/publisher.go:696-731 | the worker takes the oldest batch of its lane; values are acknowledged exactly when the delivery succeeds; keys are given back either way |
| `Publishers.HeldAfterCoalesce` | internal/promwrap/push_worker.go:264-285 | coalescing moves keys from the queue to the removed batches and loses none |
| `PageBatchers.PageBatcher.constructor` | internal/promwrap/publisher.go:570-577 | a fresh batcher holds nothing |
| `PageBatchers.PageBatcher.Builder` | internal/promwrap/publisher.go:584-589 | the builder of one lane and policy, started if there is none; no other builder is touched |
| `PageBatchers.PageBatcher.Add` | internal/promwrap/publisher.go:579-630 | the books move by exactly this sample: pending exactly if its key was reserved, oversized exactly if it was free and does not fit a request, otherwise taken for its lane and policy with its key reserved; on failure every key of the page is given back; apart from a refused batch it fails exactly for an oversized sample that meets a builder full of samples |
| `PageBatchers.PageBatcher.AddFree` | internal/promwrap/publisher.go:584-629 | the same for a sample whose key has just been reserved |
| `PageBatchers.PageBatcher.AddToNext` | internal/promwrap/publisher.go:603-629 | a full builder is sent off and the sample starts a new one; the only other failure is an oversized sample arriving at a builder that is already full of samples |
| `PageBatchers.PageBatcher.SubmitBuilder` | internal/promwrap/publisher.go:603-616 | encoding cannot fail; a refused batch has given its keys back; reservations stay exact |
| `PageBatchers.PageBatcher.Finish` | internal/promwrap/publisher.go:632-655 | sends off everything held or, if refused, gives everything back |
| `PageBatchers.PageBatcher.Cleanup` | internal/promwrap/publisher.go:657-664 | gives back the keys of every open builder |
| `PageBatchers.PageBatcher.Abandon` | internal/promwrap/publisher.go:603-628 | gives back the current key and those of every open builder |
| `PageBatchers.ProcessPage` | internal/promwrap/publisher.go:455-484 | the counters, the samples taken and the keys reserved are those of entering the values one by one: skipped, pending, oversized or taken as metadata, reservations and size decide; every lane and policy is sent exactly what was taken for it, in page order, in batches of 1..maxSamples samples and at most maxBytes; reservations stay exact on every path, and a failing page has counted exactly the values before the failure; neither the size error nor the empty batch error occurs |
| `PageLedgers.CountsExact` | internal/promwrap/publisher.go:455-484 | each counter is the number of values with its fate: skipped without publishable metadata; pending if the key was reserved before or by an earlier value that fits; oversized if free but larger than a request; taken otherwise; together they count every value once |
| `PageLedgers.TakenExact` | internal/promwrap/publisher.go:579-604 | the samples taken are exactly those of the remaining values, each for its builder, in order |
| `PageLedgers.ReservedExact` | internal/promwrap/publisher.go:579-598 | a key is reserved in the end exactly if it was before or some value with it fits a request |
| `PageLedgers.EnteredInStretches` | internal/promwrap/publisher.go:383-413 | entering values page by page, each page from the keys the last one left reserved, is entering them all |
| `PageLedgers.TakeBalances` | internal/promwrap/publisher.go:579-604 | taking a sample keeps what was taken equal to what was sent followed by what is open, per lane and policy |
| `PageLedgers.EmitBalances` | internal/promwrap/publisher.go:603-616 | sending a builder off keeps that balance |
| `PublishSlots.SlotClock.NormalizeCycle` | internal/promwrap/publisher.go:431-444 | a repeated request gets the cycle it had; a new one gets its own millisecond if the slot has no cycle, and otherwise the least whole millisecond strictly after the last cycle and not before the request; request and cycle are remembered; other slots are untouched |
| `PublishSlots.FinishHosts` | internal/promwrap/publisher.go:497-507 | the page in hand is sent off, every lane and policy exactly what was taken for it, or given back |
| `PublishSlots.ProcessHosts` | internal/promwrap/publisher.go:492-549 | every host of the slot meets the fate its metadata, the reservations and its size decide, across pages; the counters say so, what is taken is sent in order, and reservations stay exact on every path |
| `PublishSlots.HostsOfferExactly` | internal/promwrap/publisher.go:492-549 | every host of the slot makes one offer, in order: nothing, or its own series in its own lane as a sample of the cycle; no other host makes any |
| `PublishSlots.ProcessValues` | internal/promwrap/publisher.go:383-413 | the page loop terminates and the cursor always advances; without interference every due value is read and meets the fate its metadata, the reservations and its size decide, across pages; what is taken is sent in order |
| `PublishSlots.SendPage` | internal/promwrap/publisher.go:394-405 | a page that goes through gives every value its fate and sends what was taken |
| `PublishSlots.PublishSlot` | internal/promwrap/publisher.go:334-414 | the cycle is the repeated one or the next as for `NormalizeCycle`, and is remembered; reservations are exact and only proper batches of the slot are added, on every path; a cycle that went through has offered every host and every due value, counted each by its fate against the reservations at the start of the cycle, and sent every lane and policy exactly what was taken for it, in order; it reports an error exactly if some sample was oversized; the cursor error never occurs |
| `PublishSlots.WentOutTogether` | internal/promwrap/publisher.go:370-399 | stretches that went through one after the other went through as one |
| `PublisherProtocols.ShapedNext` | internal/promwrap/publisher.go:334-753 | lanes, workers, slots and builders keep their number in every step |
| `SendOrders.Reachable` | internal/promwrap/publisher.go:334-753 | in every reachable state each lane holds, oldest first, samples of nondecreasing version and cycle per series, none newer than the page a slot works on |
| `SendOrders.JoinFlow` | internal/promwrap/publisher.go:666-694 | a batch of the current page may join the end of its lane without breaking that order |
| `SendOrders.NewItemIsLate` | internal/promwrap/publisher.go:388-397 | a value just read is no older than anything sent or waiting for its series, whenever within the page it was read |
| `SendOrders.SendOrder` | internal/promwrap/push_worker.go:251-342 | over every run, sends of one series have nondecreasing value version and nondecreasing cycle, through retries, coalescing, refusals and every interleaving of slots and workers |
| `SendOrders.RefusedOnlyWhenStopped` | internal/promwrap/publisher.go:666-694 | a batch is refused as obsolete only after the queue was closed, so reporting "stopped" is true |
| `SendOrders.BeginsUnlessStopped` | internal/promwrap/push_worker.go:251-263 | when cycles are requested for instants after the zero time, a cycle is turned away exactly when the queue is closed |
| `Reservations.ReservationsExact` | internal/promwrap/publisher.go:579-753 | in every reachable state the reservation set is the disjoint union of the keys in builders, in hand, being submitted, queued, in flight and being released; the counter is the number of outstanding batches and the idle channel is closed exactly at zero |
| `Reservations.NeverTwice` | internal/promwrap/publisher.go:733-753 | no sample is ever held twice at the same time |
| `Reservations.GivenBack` | internal/promwrap/publisher.go:747-753 | giving keys back removes exactly them from the reservations |
| `Groups.PeriodIsPositive` | internal/scheduler/group.go:138-143 | the period is the longer of a minute and the delay |
| `Groups.NextRunOnCadence` | internal/scheduler/scheduler.go:467-483 | the next run lies within one period from now, on the cadence that the hash of the id fixes |
| `Groups.BootstrapWithinPeriod` | internal/scheduler/scheduler.go:485-490 | the first run lies within the configured spread, if there is one no longer than the period, and otherwise within one period from now, where the hash of the id says |
| `Groups.AdvancesToNext` | internal/scheduler/scheduler.go:492-499 | the least planned + k * period, k >= 1, that is after now |
| `Groups.CadenceAdvances` | internal/scheduler/scheduler.go:492-499 | adding whole periods stays on the cadence |
| `Groups.RetryDelay` | internal/scheduler/scheduler.go:514-529 | the wait after n failures is min(maximum, base * 2^(n-1)), zero without failures |
| `Groups.RetryDoubles` | internal/scheduler/scheduler.go:514-529 | the first failure waits the base and every further one twice as long as the one before, never longer than the maximum |
| `GroupHeaps.SoonerTotal` | internal/scheduler/scheduler.go:549-554 | a total order by next run, and by id among equal runs |
| `GroupHeaps.GroupEntry.constructor` | internal/scheduler/scheduler.go:266-268 | a new entry is on its first run, not retrying, without failures |
| `GroupHeaps.GroupHeap.constructor` | internal/scheduler/scheduler.go:107-161 | an empty queue is valid |
| `GroupHeaps.GroupHeap.Swap` | internal/scheduler/scheduler.go:555-559 | swaps two entries and keeps every back-pointer equal to the position |
| `GroupHeaps.GroupHeap.Up` | internal/scheduler/scheduler.go:546-573 | sifting up restores heap order and keeps the members and their back-pointers |
| `GroupHeaps.GroupHeap.Down` | internal/scheduler/scheduler.go:546-573 | sifting down restores heap order below, or says that nothing had to move |
| `GroupHeaps.GroupHeap.Push` | internal/scheduler/scheduler.go:560-564 | the entry joins the queue; heap order and back-pointers hold |
| `GroupHeaps.GroupHeap.RemoveLast` | internal/scheduler/scheduler.go:565-573 | the last entry leaves and its back-pointer becomes -1 |
| `GroupHeaps.GroupHeap.Pop` | internal/scheduler/scheduler.go:565-573 | the soonest entry leaves; heap order and back-pointers hold |
| `GroupHeaps.GroupHeap.Fix` | internal/scheduler/scheduler.go:434-434 | restores heap order after the next run of one entry has changed |
| `GroupHeaps.GroupHeap.Reschedule` | internal/scheduler/scheduler.go:430-435 | changing the next run of an entry through its back-pointer and fixing keeps the queue valid |
| `GroupHeaps.GroupHeap.Init` | internal/scheduler/scheduler.go:284-287 | orders an arbitrary list of entries |
| `GroupHeaps.GroupHeap.Replace` | internal/scheduler/scheduler.go:284-287 | takes over a new list of entries and orders it |
| `GroupHeaps.GroupHeap.Soonest` | internal/scheduler/scheduler.go:361-365 | the first entry is the soonest |
| `Schedulers.Scheduler.constructor` | internal/scheduler/scheduler.go:107-161 | nothing scheduled, nothing in flight |
| `Schedulers.Scheduler.Advance` | internal/scheduler/scheduler.go:372-383 | a due entry moves to the first instant after now that lies whole periods after the one it is due at or, while it retries, at or after the cadence it was laid over; the instant it was due at is remembered, nothing else changes |
| `Schedulers.Scheduler.MoveOn` | internal/scheduler/scheduler.go:365-384 | pop, advance and push move exactly the soonest entry |
| `Schedulers.Scheduler.DispatchOne` | internal/scheduler/scheduler.go:357-411 | the due entry moves on; a task is queued exactly when none of the group is in flight and the channel has room; a full channel lays a retry over the cadence; other entries are untouched |
| `Schedulers.Scheduler.Enlist` | internal/scheduler/scheduler.go:386-408 | queues the task, or lays the retry, with the in-flight count following |
| `Schedulers.Scheduler.LayRetry` | internal/scheduler/scheduler.go:401-404 | the retry is laid over the cadence, which is remembered |
| `Schedulers.Scheduler.DispatchNext` | internal/scheduler/scheduler.go:357-411 | each turn strictly lowers the number of due entries |
| `Schedulers.Scheduler.DispatchDue` | internal/scheduler/scheduler.go:357-411 | terminates; unless the context ends every next run is after now; every entry is untouched or has moved on along its cadence, perhaps with a retry laid over it |
| `Schedulers.Scheduler.TakeTask` | internal/scheduler/worker_pool.go:21-41 | a worker takes the oldest task; the in-flight accounting stays exact |
| `Schedulers.Scheduler.Report` | internal/scheduler/worker_pool.go:21-41 | a worker reports its run; the in-flight accounting stays exact |
| `Schedulers.Scheduler.HandleDone` | internal/scheduler/scheduler.go:413-445 | exactly the reported run leaves the account; the group was not retrying; a failure counts, and lays a retry over the cadence exactly if now plus the wait for that many failures comes before the next run, at exactly that instant |
| `Schedulers.Scheduler.Settle` | internal/scheduler/scheduler.go:423-437 | failures are reset or counted; the retry is laid exactly if its instant comes before the next run, and at that instant |
| `Schedulers.Scheduler.Collect` | internal/scheduler/scheduler.go:252-258 | the last usable definition of an id wins |
| `Schedulers.Scheduler.Redefine` | internal/scheduler/scheduler.go:270-278 | a group that stays takes its new definition every time; with the same period and a next run it keeps place, cadence, retry and anchor; with another it starts a new cadence within one period from now and does not retry; failures stay |
| `Schedulers.Scheduler.PlaceGroup` | internal/scheduler/scheduler.go:263-283 | reuses the entry of a known group or makes one in the bootstrap window |
| `Schedulers.Scheduler.Install` | internal/scheduler/scheduler.go:284-287 | the new entries and the new queue take effect together, all on their cadence |
| `Schedulers.Scheduler.ReplaceGroups` | internal/scheduler/scheduler.go:250-298 | exactly the ids with a usable definition in the list are scheduled, each with its last one; known groups keep their place unless the period changed and are then anchored within one period from now without a retry; new ones start inside the bootstrap window; runs under way stay accounted for and retrying still implies nothing in flight |
| `Schedulers.Scheduler.Schedule` | internal/scheduler/scheduler.go:259-288 | the critical section of a replacement: entries of known groups are reused, the new entries and queue take effect together |
| `Schedulers.DesiredIsLast` | internal/scheduler/scheduler.go:252-258 | an id is scheduled exactly if the list has a usable definition of it, with the last such one |
| `Schedulers.ReplacedRightly` | internal/scheduler/scheduler.go:250-283 | what a replacement makes of every scheduled group, known or new |
| `Schedulers.Scheduler.Perform` | internal/scheduler/scheduler.go:334-355 | any single step keeps single flight, cadence and every anchor and definition |
| `Schedulers.Scheduler.Drive` | internal/scheduler/scheduler.go:334-355 | any mix of dispatches, runs, errors, full channels, missed periods and replacements keeps single flight and every group on its cadence; without replacements every anchor stays |
| `Schedulers.FlightAfterQueue` | internal/scheduler/scheduler.go:386-393 | queueing a task of a group without one keeps the count exact and at most one |
| `Schedulers.FlightAfterTake` | internal/scheduler/worker_pool.go:21-41 | taking a task moves it from the channel to a worker without changing the count |
| `Schedulers.FlightAfterReport` | internal/scheduler/worker_pool.go:21-41 | reporting moves a task from a worker to the reports without changing the count |
| `Schedulers.FlightAfterDone` | internal/scheduler/scheduler.go:416-420 | handling a report finds the count at one and drops it |
| `Schedulers.AdvancedOnTrack` | internal/scheduler/scheduler.go:372-384 | moving on stays on the cadence and passes now |
| `Schedulers.AdvancedMovesOn` | internal/scheduler/scheduler.go:372-384 | moving on reaches the first regular instant after now that is still open to the entry, and changes nothing but the times |
| `Schedulers.RetryCostsNothing` | internal/scheduler/scheduler.go:372-404 | a retry never costs a regular run: after it the group goes on at the run it was laid over or, if that has passed, where it would have gone on without it |
| `Schedulers.FailuresInARow` | internal/scheduler/scheduler.go:413-437 | over any run of reports, dispatches and new definitions a group counts exactly the runs that failed since the last success; a failed run brings the next one forward to the end of the wait for that many failures unless it is due earlier anyway, a successful one leaves it where it is |
| `Schedulers.RetriedOnTrack` | internal/scheduler/scheduler.go:401-404 | laying a retry over an entry that has none keeps its cadence |
| `Schedulers.RedefinedOnTrack` | internal/scheduler/scheduler.go:270-278 | a new definition keeps the cadence or starts a new one, and never makes an entry retrying |
| `Schedulers.OneLess` | internal/scheduler/scheduler.go:416-420 | the count goes down by one, and an entry at zero is dropped |
| `GroupBuilders.Cut` | internal/scheduler/group.go:90-100 | batches in order, none empty, only the last one short |
| `GroupBuilders.FileItems` | internal/scheduler/group.go:60-72 | every collectable item is filed under exactly its key, and only keys that occur exist |
| `GroupBuilders.MakeGroup` | internal/scheduler/group.go:75-100 | a group lists exactly the items of its key, strictly ascending, in batches of at most the batch size, with the version the snapshot knows |
| `GroupBuilders.Build` | internal/scheduler/group.go:50-105 | one group for every key that occurs, sorted by id; nothing for a nil snapshot |
| `GroupBuilders.EveryItemCollectedOnce` | internal/scheduler/group.go:50-105 | an item is in a batch of a group exactly when it is enabled, has a host and a positive delay, is of one of the two numeric types, and has the host, type and delay of the group |
| `GroupBuilders.EveryItemHasItsGroup` | internal/scheduler/group.go:50-105 | every item to be collected is in exactly one group and no other item is in any; the batches of a group list no item twice |
| `GroupBuilders.IDsClash` | internal/scheduler/group.go:108-110 | two groups of one host and type share an id exactly when their delays agree in whole seconds; whole-second delays never clash |
| `GroupBuilders.OneIDForTwo` | internal/scheduler/group.go:108-110 | two such groups |
| `Collectors.BootstrapReachesEveryLivePoint` | internal/collector/group_collector.go:384-397 | the first window contains every point that has not expired |
| `Collectors.BootstrapExactly` | internal/collector/group_collector.go:384-397 | for delays over a minute the first window is exactly as long as a point lives; otherwise two delays, but at least five minutes |
| `Collectors.WindowExactly` | internal/collector/group_collector.go:187-190 | the window ends at the requested instant; the first one is the bootstrap window, every later one begins before the watermark by the overlap |
| `Collectors.OverlapWithin` | internal/collector/group_collector.go:373-382 | the overlap lies between its bounds and is a fifth of the delay unless it meets one |
| `Collectors.NoGap` | internal/collector/group_collector.go:175-224 | successive windows that reach back to the watermark leave out no instant |
| `Collectors.CollectedWithoutGap` | internal/collector/group_collector.go:175-224 | every instant from the first window to the watermark lies in the window of a round in which each item was asked for over that window, answered without truncation, and every usable point of the answer decided and not refused |
| `SplitQueries.QueryLimit` | internal/collector/group_collector.go:335-360 | min(limit, expected points per item * items), between one and the configured limit |
| `SplitQueries.ExpectedExactly` | internal/collector/group_collector.go:339-352 | the points expected of one item are the whole delays that cover the window, and two |
| `SplitQueries.FilterExpiredLatest` | internal/collector/group_collector.go:297-316 | keeps exactly the latest points that are still relevant |
| `SplitQueries.OnlyExpiredLeftOut` | internal/collector/group_collector.go:297-316 | a point is left out exactly if it has a proper time and would already have been expired at the end of its own window; the others are passed on unchanged |
| `Collectors.GroupCollector.Query` | internal/collector/group_collector.go:237-295 | terminates for every answer of the reader; a list is split exactly when its answer may be truncated, it has two items and the depth allows it; the parts make up the items in order; what came of each part is decided by cancellation, by its own answer to its own request over the whole window, and by the report of applying exactly that answer, filtered, to the cache as the parts before it left it; the cache afterwards is the old one with the logs of the parts replayed in order |
| `SplitQueries.PlanEnds` | internal/collector/group_collector.go:259-275 | no part of a plan would be split any further, and none is deeper than the limit |
| `SplitQueries.WholeWithRoom` | internal/collector/group_collector.go:253-275 | a list whose answer says it was not cut off and has fewer points than allowed stays whole; a part that was asked for without such an answer has a single item or is as deep as allowed |
| `SplitQueries.CollectedAppend` | internal/collector/group_collector.go:272-274 | collecting two halves one after the other is collecting the whole |
| `SplitQueries.EveryItemCollected` | internal/collector/group_collector.go:259-294 | a complete query has asked for each of its items over the whole window, got an answer with fewer points than allowed that says it was not cut off, and put every readable point of a wanted item that had not expired by the end of the window before the cache, under the current definition, without a refusal |
| `SplitQueries.PartHolds` | internal/collector/group_collector.go:277-294 | after a part was applied the cache holds each item of such a point under its current definition, with that point or a later one |
| `SplitQueries.NothingWithoutMetadata` | internal/collector/group_collector.go:285-294 | without a snapshot a query may be complete and still leaves the cache alone |
| `Collectors.GroupCollector.ApplyAnswer` | internal/collector/group_collector.go:277-294 | an untruncated answer is applied exactly when it succeeded; it counts as applied exactly when no stale definition was met, and the cache changes by exactly its log |
| `SplitQueries.MergeSumsUp` | internal/collector/group_collector.go:318-333 | merging two halves sums up exactly their parts |
| `SplitQueries.QueriesOfSplits` | internal/collector/group_collector.go:237-333 | without cancellation n splits mean 2n + 1 requests |
| `Collectors.GroupCollector.CollectBatch` | internal/collector/group_collector.go:175-224 | rejected exactly when the end lies before the watermark; otherwise the items are asked for over exactly the window that reaches back to the watermark, as the plan of the reader's answers says; the watermark moves exactly when every part was untruncated and applied under current metadata; otherwise neither watermark nor misses change; misses are marked then, once per item; other batches are untouched |
| `Collectors.GroupCollector.MarkMisses` | internal/collector/group_collector.go:211-218 | the misses of a complete query are marked in order, each item once, at the instant the last answer arrived or, if that is unknown, at the end of the window |
| `Collectors.GroupCollector.State` | internal/collector/group_collector.go:362-371 | the watermark of a batch, remembered from now on; zero for a new one |
| `Collectors.GroupCollector.RetainGroups` | internal/collector/group_collector.go:159-173 | forgets exactly the batches that no group has any more |

## Left out

- Integer widths: counters, versions, sequences and times are unbounded, except the
  32-bit saturation of the miss counter; Go's nanosecond range and its overflow on
  extreme instants are not modelled, nor is the wrap-around of the scheduler's failure
  counter after 2^32 failures.
- Lifecycles.CycleAcksIncrease: says nothing about two acknowledgements of which the
  earlier is before Go's zero time; `Lifecycles.AcksNotIncreasing` says exactly when those
  fail to increase.
- SendOrders.BeginsUnlessStopped: for requests after Go's zero time;
  `Publishers.CyclesGoBack` has the others.
- PublishSlots.PublishSlot: the counts are stated for a cache that nobody changes during
  the cycle; what holds under change is `PagedScans.ScanReturnsExactlyOnce` and, for
  order, `SendOrders.SendOrder`. When a cycle fails, the model reports the failure alone,
  where the source joins the first oversized-sample error to it; the counters of a failing
  cycle are stated page by page.
- PublishSlots.ProcessHosts: what metadata says about each host is given per host
  (another slot, not exportable, or one series with its lane); building the series is not
  part of this model. The counters of pages read are left out.
- PublisherProtocols: the reservation of one sample, a refusal and the two halves of a
  release are steps of their own; the context of the publisher ending during a turn is the
  step `Fail`. That the generations of a series never go back is assumed of the cache;
  `Lifecycles.SeenVersionsGrow` proves it for items and
  `MetadataStores.VersionsNeverGoBack` for hosts.
- LaneQueues.LaneQueue.PopOne: the locked part of a pop; a consumer whose context ends
  while it waits simply stops, which the model does not show as a step.
- Publishers.Send: the attempts, the wait between them and the class of each outcome;
  the request itself, its headers, its body and the class of a status code are not part
  of this model.
- Collectors.GroupCollector.CollectBatch: one batch at a time; the loop over a group's
  batches and the zero end that means "now" are left out. The end of a query is assumed
  not to be Go's zero time and the delay of a group to be positive, as its callers ensure.
- Collectors.GroupCollector.Query: the texts of errors are left out; the group and the
  value type of a request stay the same throughout and are part of the reader's answers.
- ExpiryWheels.ExpiryWheel.ExpireDue: without registrations in the middle of a round;
  registrations that interleave with rounds are steps in `CacheProtocols`. The nil store,
  which makes the call report only, and a negative budget, which the constructor refuses,
  are left out.
- ValueCaches.ValueCache.ApplyBatch: installs a response as one call; the interleaving of
  several calls, shard by shard, is in `CacheProtocols`. The texts of rejection errors
  and a cache without an expiry registrar are left out.
- ValueCaches.ValueCache.MarkMiss: page statistics, counters of metrics and delete reasons
  are left out here and in the other operations.
- MetadataStores.Store.ApplySnapshot: hosts, items and groups; the derived lists of items
  per host and groups per item, and the refresh time of an entry, are left out.
- Pipelines.ApplyMetadata: the deletions; telling the scheduler and the age metric are
  left out.
- Schedulers.Scheduler.Drive: the dispatcher's wait, its wake-up channel, start and stop,
  and the runtime state it reports are left out; the instant of each step is given.
- GroupBuilders.Build: `Cut` gives each batch an id computed from its members; the hash
  is arbitrary, so that two batches have different ids is not claimed.
- BatchBuilders.BatchBuilder.Encode: the compressed size of a batch; messages are byte
  strings whose content is arbitrary.
- HTTP client and server, JSON-RPC, authentication, configuration, filters, metric names,
  label building, float parsing, metrics and logging, and the pull exporter: input and
  output without a property that spans functions.
- Start and stop of the pipeline, the refresher's pacing and real timers: the model takes
  instants and orders of steps as given. One refresh at a time and reconciliation before
  the next publication are part of `CacheProtocols`.

/** The hash-sharded value cache (internal/cache/value_cache.go). Each method is
    proved against the flat map it stands for, `flat`. */
module ValueCaches {
  import opened BatchEffects
  import opened FlatCaches
  import opened Histories
  import opened Installs
  import opened MetadataStores
  import opened Options
  import opened PagedScans
  import opened Shards
  import opened Times
  import opened ValueStates

  datatype VersionedItem = VersionedItem(itemID: string, version: nat)

  datatype PublishAck = PublishAck(itemID: string, version: nat, publishedTimestamp: int)

  datatype MissResult = MissResult(marked: nat, invalidated: nat, notFound: nat)

  datatype DeleteResult = DeleteResult(deleted: nat, stale: nat, notFound: nat)

  datatype AckResult = AckResult(applied: nat, stale: nat, notFound: nat)

  datatype PublishValue = PublishValue(
    itemID: string, value: real, timestamp: int, sourceTimestamp: int, sourceNS: int,
    metadataVersion: nat, valueVersion: nat, publishSlot: nat, publishPolicy: PublishPolicy)

  datatype PublishPage = PublishPage(values: seq<PublishValue>, next: Cursor, done: bool)

  datatype PageError = SlotOutOfRange | ZeroTimestamp | LimitNotPositive | CursorOutOfRange

  datatype PageResult = PageOk(page: PublishPage) | PageFailed(error: PageError)

  /** The outcome of applying one response. `errors` are the items whose point was
      rejected. */
  datatype ApplyResult = ApplyResult(
    status: BatchStatus, created: nat, updated: nat, kept: nat, rejected: nat, skipped: nat, stale: nat,
    missItemIDs: seq<string>, errors: set<string>, metadataVersion: nat)

  /** Only complete responses applied with a snapshot touch the cache. */
  predicate Usable(result: BatchResult, snapshot: Option<Snapshot>) {
    (result.status == BatchStatus.Success || result.status == BatchStatus.Empty) && snapshot.Some?
  }

  function FetchTime(result: BatchResult): int {
    if result.finishedAt == ZERO_TIME then result.startedAt else result.finishedAt
  }

  ghost predicate IsLatest(latest: map<string, HistoryItem>, result: BatchResult) {
    match result.latest
    case Some(reduced) => latest == reduced
    case None => Reduces(latest, result.records)
  }

  /** The items the response mentions at all. */
  ghost function Returned(result: BatchResult, latest: map<string, HistoryItem>): set<string> {
    latest.Keys + (set i | 0 <= i < |result.records| :: result.records[i].itemID)
  }

  function RefusedResult(result: BatchResult, snapshot: Option<Snapshot>): ApplyResult {
    var version := if snapshot.Some? then snapshot.value.version else 0;
    if result.status != BatchStatus.Success && result.status != BatchStatus.Empty then
      ApplyResult(result.status, 0, 0, 0, 0, 0, 0, [], {}, version)
    else
      var points := if result.latest.Some? then |result.latest.value| else 0;
      ApplyResult(result.status, 0, 0, 0, 0, if points == 0 then |result.records| else points, 0, [], {}, version)
  }

  /** What an applied response reports, given the log of its installations. */
  ghost predicate Reports(apply: ApplyResult, result: BatchResult, snapshot: Snapshot, latest: map<string, HistoryItem>,
                          log: seq<Installation>, queried: nat -> bool)
  {
    && apply.status == result.status && apply.metadataVersion == snapshot.version
    && apply.created == Count(log, Created)
    && apply.updated == Count(log, Updated)
    && apply.kept == Count(log, Unchanged)
    && apply.errors == Unreadable(snapshot, latest) && apply.rejected == |apply.errors|
    && apply.skipped == |Uncollectable(snapshot, latest)| + Count(log, Refused)
    && apply.stale == |StaleQueried(snapshot, result.itemIDs, queried) + RefusedOf(log)|
    && apply.missItemIDs ==
         if apply.stale != 0 then []
         else InQueryOrder(result.itemIDs, (set id | id in result.itemIDs) - Returned(result, latest))
  }

  /** The queried items that had no definition or none that was current when asked. */
  ghost predicate Outdated(ids: set<string>, itemIDs: seq<string>, snapshot: Snapshot, queried: nat -> bool) {
    forall id :: id in ids <==>
      exists i :: 0 <= i < |itemIDs| && itemIDs[i] == id &&
        (id !in snapshot.items || snapshot.items[id] == None || !queried(i))
  }

  /** The counters of an applied response, in terms of the response, the snapshot and the cache
      it met. Items whose definition was not current, when queried or when locked, are stale. */
  ghost predicate Counts(apply: ApplyResult, itemIDs: seq<string>, before: Flat, snapshot: Snapshot,
                         latest: map<string, HistoryItem>, queried: nat -> bool, current: string -> bool,
                         created: set<string>, updated: set<string>, kept: set<string>, refused: set<string>,
                         outdated: set<string>)
  {
    && Sifted(created, updated, kept, refused, before, snapshot, latest, current)
    && Outdated(outdated, itemIDs, snapshot, queried)
    && apply.created == |created| && apply.updated == |updated| && apply.kept == |kept|
    && apply.stale == |outdated + refused|
  }

  /** The item was asked for and did not come back at all. */
  predicate Absent(result: BatchResult, latest: map<string, HistoryItem>, id: string) {
    && id in result.itemIDs && id !in latest
    && forall i :: 0 <= i < |result.records| ==> result.records[i].itemID != id
  }

  /** What an applied response reports: every returned point is counted once, and if no
      definition was stale the items that did not come back at all are missed. */
  ghost predicate Tells(apply: ApplyResult, result: BatchResult, before: Flat, snapshot: Snapshot,
                        latest: map<string, HistoryItem>, queried: nat -> bool, current: string -> bool)
  {
    && apply.status == result.status && apply.metadataVersion == snapshot.version
    && (exists created, updated, kept, refused, outdated ::
          Counts(apply, result.itemIDs, before, snapshot, latest, queried, current,
                 created, updated, kept, refused, outdated))
    && apply.created + apply.updated + apply.kept + apply.skipped + apply.rejected == |latest|
    && (forall id :: id in apply.errors <==> id in latest && Wanted(snapshot, id) && !Legible(latest[id]))
    && apply.rejected == |apply.errors|
    && (forall id :: id in apply.missItemIDs <==> apply.stale == 0 && Absent(result, latest, id))
  }

  lemma ReportTells(apply: ApplyResult, result: BatchResult, before: Flat, nextVersion: nat, snapshot: Snapshot,
                    latest: map<string, HistoryItem>, log: seq<Installation>, queried: nat -> bool,
                    current: string -> bool, slotOf: string -> nat)
    requires Reports(apply, result, snapshot, latest, log, queried)
    requires JustifiedLog(before, nextVersion, log, current, slotOf)
    requires Accounts(log, snapshot, latest, FetchTime(result))
    requires forall id :: id in before ==> Derived(before[id])
    ensures Tells(apply, result, before, snapshot, latest, queried, current)
  {
    hide JustifiedLog, Enumerates, Sifted, WithVerdict, Count, StaleQueried, DistinctItems, Candidates, Derived,
      InQueryOrder, Legible, Wanted, Uncollectable, Unreadable, Outdated, Returned, Absent;
    LoggedOnce(log, Candidates(snapshot, latest, FetchTime(result)));
    BatchSifted(before, nextVersion, log, current, slotOf, snapshot, latest, FetchTime(result));
    EveryPointCounted(WithVerdict(log, Created), WithVerdict(log, Updated), WithVerdict(log, Unchanged),
                      WithVerdict(log, Refused), before, snapshot, latest, current);
    CountIsSize(log, Created);
    CountIsSize(log, Updated);
    CountIsSize(log, Unchanged);
    CountIsSize(log, Refused);
    StaleAreOutdated(result.itemIDs, snapshot, queried);
    assert Counts(apply, result.itemIDs, before, snapshot, latest, queried, current, WithVerdict(log, Created),
                  WithVerdict(log, Updated), WithVerdict(log, Unchanged), WithVerdict(log, Refused),
                  StaleQueried(snapshot, result.itemIDs, queried));
    hide Counts;
    InQueryOrderMembers(result.itemIDs, (set id | id in result.itemIDs) - Returned(result, latest));
    forall id: string
      ensures id in apply.errors <==> id in latest && Wanted(snapshot, id) && !Legible(latest[id])
      ensures id in apply.missItemIDs <==> apply.stale == 0 && Absent(result, latest, id)
    {
      Classed(snapshot, latest, id);
      AbsentNotReturned(result, latest, id);
    }
  }

  lemma StaleAreOutdated(itemIDs: seq<string>, snapshot: Snapshot, queried: nat -> bool)
    ensures Outdated(StaleQueried(snapshot, itemIDs, queried), itemIDs, snapshot, queried)
  {
  }

  lemma AbsentNotReturned(result: BatchResult, latest: map<string, HistoryItem>, id: string)
    ensures Absent(result, latest, id) <==> id in result.itemIDs && id !in Returned(result, latest)
  {
  }

  /** The log accounts for every candidate point of the response exactly once. */
  ghost predicate Accounts(log: seq<Installation>, snapshot: Snapshot, latest: map<string, HistoryItem>,
                           fetchedAt: int)
  {
    var all := Candidates(snapshot, latest, fetchedAt);
    Enumerates(PendingsOf(log), all, all.Keys)
  }

  function ForPublishing(slot: nat, cycleTimestamp: int): Eligibility {
    (state: ValueState) => state.publishSlot == slot && PublishEligible(state, cycleTimestamp)
  }

  function ForScraping(scrapeTimestamp: int): Eligibility {
    (state: ValueState) => ScrapeEligible(state, scrapeTimestamp)
  }

  /** The detached copy of a state that leaves the cache. */
  function Detached(state: ValueState, cycleTimestamp: int): PublishValue {
    PublishValue(state.itemID, state.value, SampleTimestamp(state, cycleTimestamp), state.sourceTimestamp,
                 state.sourceNS, state.metadataVersion, state.valueVersion, state.publishSlot, state.publishPolicy)
  }

  function DetachedAll(hits: seq<Hit>, cycleTimestamp: int): (values: seq<PublishValue>)
    ensures |values| == |hits|
  {
    seq(|hits|, i requires 0 <= i < |hits| => Detached(hits[i].state, cycleTimestamp))
  }

  /** A list without its later repetitions. */
  function FirstOccurrences(ids: seq<string>): seq<string> {
    if ids == [] then
      []
    else
      var last := ids[|ids| - 1];
      FirstOccurrences(ids[..|ids| - 1]) + (if last in ids[..|ids| - 1] then [] else [last])
  }

  function MissOps(ids: seq<string>, fetchedAt: int): (ops: seq<Op>)
    ensures |ops| == |ids|
  {
    seq(|ids|, i requires 0 <= i < |ids| => Miss(ids[i], fetchedAt))
  }

  function RemoveOps(ids: seq<string>): (ops: seq<Op>)
    ensures |ops| == |ids|
  {
    seq(|ids|, i requires 0 <= i < |ids| => Remove(ids[i]))
  }

  function RemoveVersionedOps(items: seq<VersionedItem>): (ops: seq<Op>)
    ensures |ops| == |items|
  {
    seq(|items|, i requires 0 <= i < |items| => RemoveVersioned(items[i].itemID, items[i].version))
  }

  function AckOps(acks: seq<PublishAck>): (ops: seq<Op>)
    ensures |ops| == |acks|
  {
    seq(|acks|, i requires 0 <= i < |acks| => Ack(acks[i].itemID, acks[i].version, acks[i].publishedTimestamp))
  }

  /** Every id of the list, once. */
  lemma {:induction false} FirstOccurrencesExactly(ids: seq<string>)
    ensures forall id :: id in FirstOccurrences(ids) <==> id in ids
    ensures forall i, j :: 0 <= i < j < |FirstOccurrences(ids)| ==> FirstOccurrences(ids)[i] != FirstOccurrences(ids)[j]
    ensures |FirstOccurrences(ids)| == |set id | id in ids|
  {
    if ids != [] {
      var n := |ids| - 1;
      FirstOccurrencesExactly(ids[..n]);
      assert ids == ids[..n] + [ids[n]];
      var shorter := FirstOccurrences(ids[..n]);
      assert forall i :: 0 <= i < |shorter| ==> shorter[i] in shorter;
      assert (set id | id in ids) == (set id | id in ids[..n]) + {ids[n]};
      if ids[n] in ids[..n] {
        assert (set id | id in ids) == (set id | id in ids[..n]);
      }
    } else {
      assert (set id | id in ids) == {};
    }
  }

  /** Later ids do not change the place of earlier ones. */
  lemma {:induction false} FirstOccurrencesPrefix(ids: seq<string>, n: nat)
    requires n <= |ids|
    ensures FirstOccurrences(ids[..n]) <= FirstOccurrences(ids)
    decreases |ids|
  {
    if n == |ids| {
      assert ids[..n] == ids;
    } else {
      FirstOccurrencesPrefix(ids[..|ids| - 1], n);
      assert ids[..|ids| - 1][..n] == ids[..n];
    }
  }

  /** What deleting items leaves of a cache. */
  ghost predicate Deleted(before: Flat, after: Flat, itemIDs: seq<string>, result: DeleteResult) {
    && (forall id :: Lookup(after, id) == if id in itemIDs then None else Lookup(before, id))
    && result.deleted == |before| - |after| && result.stale == 0
    && result.deleted + result.notFound == |set id | id in itemIDs|
  }

  lemma RemovalsNamed(ids: seq<string>, id: string)
    ensures Remove(id) in RemoveOps(ids) <==> id in ids
    ensures forall version :: RemoveVersioned(id, version) !in RemoveOps(ids)
  {
    if id in ids {
      var i :| 0 <= i < |ids| && ids[i] == id;
      assert RemoveOps(ids)[i] == Remove(id);
    }
  }

  lemma DeletedItem(flat: Flat, itemIDs: seq<string>, threshold: nat, id: string)
    ensures Lookup(Processed(flat, RemoveOps(FirstOccurrences(itemIDs)), threshold).flat, id)
      == if id in itemIDs then None else Lookup(flat, id)
  {
    var unique := FirstOccurrences(itemIDs);
    FirstOccurrencesExactly(itemIDs);
    hide Processed, FirstOccurrences;
    RemovalsExact(flat, RemoveOps(unique), threshold, id);
    RemovalsNamed(unique, id);
  }

  lemma DeletedAll(flat: Flat, itemIDs: seq<string>, threshold: nat)
    ensures var outcome := Processed(flat, RemoveOps(FirstOccurrences(itemIDs)), threshold);
            Deleted(flat, outcome.flat, itemIDs, DeleteResult(outcome.tally.applied, 0, outcome.tally.notFound))
  {
    hide Processed, FirstOccurrences, Lookup;
    var unique := FirstOccurrences(itemIDs);
    var ops := RemoveOps(unique);
    FirstOccurrencesExactly(itemIDs);
    RemovalsCounted(flat, ops, threshold);
    TallyTotal(flat, ops, threshold);
    forall id: string
      ensures Lookup(Processed(flat, ops, threshold).flat, id) == if id in itemIDs then None else Lookup(flat, id)
    {
      DeletedItem(flat, itemIDs, threshold, id);
    }
  }

  /** What deleting generations leaves of a cache: an item goes exactly if the version it is
      cached under is named. */
  ghost predicate DeletedVersions(before: Flat, after: Flat, items: seq<VersionedItem>, result: DeleteResult) {
    && (forall id :: Lookup(after, id) ==
          if id in before && VersionedItem(id, before[id].valueVersion) in items then None else Lookup(before, id))
    && result.deleted == |before| - |after| && result.deleted + result.stale + result.notFound == |items|
  }

  lemma VersionsNamed(items: seq<VersionedItem>, id: string, version: nat)
    ensures var ops := RemoveVersionedOps(items);
            Remove(id) !in ops && (RemoveVersioned(id, version) in ops <==> VersionedItem(id, version) in items)
  {
    if VersionedItem(id, version) in items {
      var i :| 0 <= i < |items| && items[i] == VersionedItem(id, version);
      assert RemoveVersionedOps(items)[i] == RemoveVersioned(id, version);
    }
  }

  lemma DeletedAllVersions(flat: Flat, items: seq<VersionedItem>, threshold: nat)
    ensures var outcome := Processed(flat, RemoveVersionedOps(items), threshold);
            DeletedVersions(flat, outcome.flat, items,
                            DeleteResult(outcome.tally.applied, outcome.tally.stale, outcome.tally.notFound))
  {
    var ops := RemoveVersionedOps(items);
    assert |ops| == |items| && OnlyRemovals(ops);
    hide Processed, RemoveVersionedOps, OnlyRemovals;
    RemovalsCounted(flat, ops, threshold);
    TallyTotal(flat, ops, threshold);
    forall id: string
      ensures Lookup(Processed(flat, ops, threshold).flat, id) ==
        if id in flat && VersionedItem(id, flat[id].valueVersion) in items then None else Lookup(flat, id)
    {
      RemovalsExact(flat, ops, threshold, id);
      if id in flat {
        VersionsNamed(items, id, flat[id].valueVersion);
      }
    }
  }

  /** What marking items as missed makes of a cache: one miss for each that is cached, however
      often it is named. */
  ghost predicate MarkedOnce(before: Flat, after: Flat, itemIDs: seq<string>, fetchedAt: int, threshold: nat,
                             result: MissResult)
  {
    && (forall id :: Lookup(after, id) ==
          if id in before && id in itemIDs then Some(Missed(before[id], fetchedAt, threshold)) else Lookup(before, id))
    && result.marked == |Marked(before, itemIDs)|
    && result.invalidated == |Spoilt(before, itemIDs, fetchedAt, threshold)|
    && result.marked + result.notFound == |set id | id in itemIDs|
  }

  lemma SameMarks(flat: Flat, a: seq<string>, b: seq<string>, fetchedAt: int, threshold: nat)
    requires forall id :: id in a <==> id in b
    ensures Marked(flat, a) == Marked(flat, b)
    ensures Spoilt(flat, a, fetchedAt, threshold) == Spoilt(flat, b, fetchedAt, threshold)
  {
    hide Missed;
  }

  lemma MarksOfFirst(ids: seq<string>, fetchedAt: int)
    ensures MarksOf(MissOps(FirstOccurrences(ids), fetchedAt), FirstOccurrences(ids), fetchedAt)
  {
    FirstOccurrencesExactly(ids);
    hide FirstOccurrences;
  }

  lemma MarkedAll(flat: Flat, itemIDs: seq<string>, fetchedAt: int, threshold: nat)
    ensures var outcome := Processed(flat, MissOps(FirstOccurrences(itemIDs), fetchedAt), threshold);
            MarkedOnce(flat, outcome.flat, itemIDs, fetchedAt, threshold,
                       MissResult(outcome.tally.applied, outcome.tally.invalidated, outcome.tally.notFound))
  {
    var unique := FirstOccurrences(itemIDs);
    var ops := MissOps(unique, fetchedAt);
    MarksOfFirst(itemIDs, fetchedAt);
    FirstOccurrencesExactly(itemIDs);
    MarksCounted(flat, ops, unique, fetchedAt, threshold);
    TallyTotal(flat, ops, threshold);
    SameMarks(flat, unique, itemIDs, fetchedAt, threshold);
    forall id: string
      ensures Lookup(Processed(flat, ops, threshold).flat, id) ==
        if id in flat && id in itemIDs then Some(Missed(flat[id], fetchedAt, threshold)) else Lookup(flat, id)
    {
      MarksExact(flat, ops, unique, fetchedAt, threshold, id);
    }
    assert |ops| == |unique|;
    hide Processed, Missed, FirstOccurrences, MarksOf, MissOps, Marked, Spoilt, Lookup;
  }

  method WithoutRepetitions(ids: seq<string>) returns (unique: seq<string>)
    ensures unique == FirstOccurrences(ids)
  {
    unique := [];
    var seen: set<string> := {};
    for i := 0 to |ids|
      invariant unique == FirstOccurrences(ids[..i])
      invariant forall id :: id in seen <==> id in ids[..i]
    {
      assert ids[..i + 1][..i] == ids[..i];
      if ids[i] !in seen {
        seen := seen + {ids[i]};
        unique := unique + [ids[i]];
      }
    }
    assert ids[..|ids|] == ids;
  }

  predicate Ascending(list: seq<nat>) {
    forall i, j :: 0 <= i < j < |list| ==> list[i] < list[j]
  }

  method InsertInt(sorted: seq<nat>, n: nat) returns (longer: seq<nat>)
    requires Ascending(sorted) && n !in sorted
    ensures Ascending(longer)
    ensures forall m :: m in longer <==> m in sorted || m == n
  {
    var at := |sorted|;
    while at > 0 && n < sorted[at - 1]
      invariant 0 <= at <= |sorted|
      invariant forall j :: at <= j < |sorted| ==> n < sorted[j]
    {
      at := at - 1;
    }
    assert at > 0 ==> sorted[at - 1] in sorted;
    longer := sorted[..at] + [n] + sorted[at..];
    SplicedMembers(sorted, at, n);
  }

  lemma SplicedMembers(list: seq<nat>, at: nat, n: nat)
    requires at <= |list|
    ensures forall m :: m in list[..at] + [n] + list[at..] <==> m in list || m == n
  {
    var spliced := list[..at] + [n] + list[at..];
    forall m | m in list
      ensures m in spliced
    {
      var i :| 0 <= i < |list| && list[i] == m;
      assert spliced[if i < at then i else i + 1] == m;
    }
    assert spliced[at] == n;
  }

  /** `sort.Ints` over the touched shard numbers, which are distinct. */
  method SortInts(list: seq<nat>) returns (sorted: seq<nat>)
    requires forall i, j :: 0 <= i < j < |list| ==> list[i] != list[j]
    ensures Ascending(sorted)
    ensures forall n :: n in sorted <==> n in list
  {
    sorted := [];
    for i := 0 to |list|
      invariant Ascending(sorted)
      invariant forall n :: n in sorted <==> n in list[..i]
    {
      assert list[..i + 1] == list[..i] + [list[i]];
      sorted := InsertInt(sorted, list[i]);
    }
    assert list[..|list|] == list;
  }

  ghost predicate Grouped(buckets: seq<seq<Op>>, touched: seq<nat>, place: string -> nat, shardCount: nat,
                          ops: seq<Op>)
  {
    && |buckets| == shardCount
    && (forall k :: 0 <= k < shardCount ==> buckets[k] == Bucket(place, ops, k))
    && Ascending(touched)
    && (forall k :: k in touched <==> 0 <= k < shardCount && buckets[k] != [])
  }

  /** Splits a list by shard, keeping the order inside every shard, and lists the
      shards that received something in ascending order. */
  method GroupByShard(place: string -> nat, shardCount: nat, ops: seq<Op>)
    returns (buckets: seq<seq<Op>>, touched: seq<nat>)
    requires forall id :: place(id) < shardCount
    ensures Grouped(buckets, touched, place, shardCount, ops)
  {
    buckets := seq(shardCount, _ => []);
    touched := [];
    for i := 0 to |ops|
      invariant |buckets| == shardCount
      invariant forall k :: 0 <= k < shardCount ==> buckets[k] == Bucket(place, ops[..i], k)
      invariant forall i, j :: 0 <= i < j < |touched| ==> touched[i] != touched[j]
      invariant forall k :: k in touched <==> 0 <= k < shardCount && buckets[k] != []
    {
      var op := ops[i];
      var shard := place(op.itemID);
      assert ops[..i + 1] == ops[..i] + [op];
      forall k | 0 <= k < shardCount
        ensures Bucket(place, ops[..i + 1], k) == buckets[k] + (if k == shard then [op] else [])
      {
        BucketAppend(place, ops[..i], op, k);
      }
      if buckets[shard] == [] {
        assert shard !in touched;
        touched := touched + [shard];
      }
      buckets := buckets[shard := buckets[shard] + [op]];
    }
    assert ops[..|ops|] == ops;
    touched := SortInts(touched);
  }

  /** Untouched shards contribute nothing. */
  lemma {:induction false} SkipUntouched(place: string -> nat, ops: seq<Op>, start: nat, end: nat)
    requires start <= end
    requires forall k :: start <= k < end ==> Bucket(place, ops, k) == []
    ensures Regrouped(place, ops, end) == Regrouped(place, ops, start)
    decreases end
  {
    if start != end {
      SkipUntouched(place, ops, start, end - 1);
    }
  }

  /** How far the shards have been dealt with once the first `i` touched ones are. */
  function Frontier(touched: seq<nat>, i: nat): nat
    requires i <= |touched|
  {
    if i == 0 then 0 else touched[i - 1] + 1
  }

  lemma NothingProcessed(place: string -> nat, ops: seq<Op>, touched: seq<nat>, flat: Flat, threshold: nat)
    ensures Processed(flat, Regrouped(place, ops, Frontier(touched, 0)), threshold) == Outcome(flat, ZERO_TALLY)
  {
  }

  lemma NotTouched(touched: seq<nat>, i: nat, k: nat)
    requires Ascending(touched) && i <= |touched|
    requires Frontier(touched, i) <= k && (i < |touched| ==> k < touched[i])
    ensures k !in touched
  {
    forall j | 0 <= j < |touched|
      ensures touched[j] != k
    {
    }
  }

  /** Between two entries of the touched list there is nothing to process. */
  lemma SkipToNext(buckets: seq<seq<Op>>, touched: seq<nat>, place: string -> nat, shardCount: nat, ops: seq<Op>,
                   i: nat)
    requires Grouped(buckets, touched, place, shardCount, ops) && i <= |touched|
    ensures Frontier(touched, i) <= (if i < |touched| then touched[i] else shardCount)
    ensures Regrouped(place, ops, if i < |touched| then touched[i] else shardCount)
      == Regrouped(place, ops, Frontier(touched, i))
  {
    var next := if i < |touched| then touched[i] else shardCount;
    assert i < |touched| ==> touched[i] in touched;
    assert i > 0 ==> touched[i - 1] in touched;
    forall k | Frontier(touched, i) <= k < next
      ensures Bucket(place, ops, k) == []
    {
      NotTouched(touched, i, k);
    }
    SkipUntouched(place, ops, Frontier(touched, i), next);
  }

  /** A bucket of one shard; without a compaction it may only update states. */
  predicate Local(bucket: seq<Op>, place: string -> nat, k: nat, compact: bool) {
    forall i :: 0 <= i < |bucket| ==>
      place(bucket[i].itemID) == k && (compact || bucket[i].Miss? || bucket[i].Ack?)
  }

  lemma NextShard(buckets: seq<seq<Op>>, touched: seq<nat>, place: string -> nat, shardCount: nat, ops: seq<Op>,
                  i: nat, compact: bool)
    requires Grouped(buckets, touched, place, shardCount, ops) && i < |touched|
    requires forall i :: 0 <= i < |ops| ==> compact || ops[i].Miss? || ops[i].Ack?
    ensures var k := touched[i];
            && k < shardCount == |buckets|
            && Regrouped(place, ops, k) == Regrouped(place, ops, Frontier(touched, i))
            && Regrouped(place, ops, Frontier(touched, i + 1)) == Regrouped(place, ops, k) + buckets[k]
            && Local(buckets[k], place, k, compact)
  {
    var k := touched[i];
    assert k in touched;
    SkipToNext(buckets, touched, place, shardCount, ops, i);
    BucketPlaced(place, ops, k);
    hide Bucket;
    forall j | 0 <= j < |buckets[k]|
      ensures place(buckets[k][j].itemID) == k && (compact || buckets[k][j].Miss? || buckets[k][j].Ack?)
    {
      assert buckets[k][j] in ops;
    }
  }

  lemma AllProcessed(buckets: seq<seq<Op>>, touched: seq<nat>, place: string -> nat, shardCount: nat, ops: seq<Op>,
                     flat: Flat, threshold: nat)
    requires Grouped(buckets, touched, place, shardCount, ops) && (forall id :: place(id) < shardCount)
    ensures Processed(flat, Regrouped(place, ops, Frontier(touched, |touched|)), threshold)
      == Processed(flat, ops, threshold)
  {
    hide Processed;
    SkipToNext(buckets, touched, place, shardCount, ops, |touched|);
    ProcessedRegrouped(place, shardCount, flat, ops, threshold);
  }

  // ---------- The flat map the shards stand for ----------

  /** A cached state sits under its own id, carries a version already handed out,
      and its derived fields are what its source point and delay determine. */
  ghost predicate Sound(id: string, state: ValueState, slotOf: string -> nat, nextValueVersion: nat) {
    && state.itemID == id
    && 0 < state.valueVersion <= nextValueVersion
    && state.publishSlot == slotOf(id)
    && Derived(state)
  }

  /** Every item is cached in its own shard and nowhere else. */
  ghost predicate Flattens(contents: seq<Flat>, place: string -> nat, flat: Flat) {
    && (forall id :: place(id) < |contents|)
    && (forall k, id :: 0 <= k < |contents| && id in contents[k] ==>
          place(id) == k && id in flat && flat[id] == contents[k][id])
    && (forall id :: id in flat ==> id in contents[place(id)])
  }

  ghost predicate Coherent(contents: seq<Flat>, place: string -> nat, flat: Flat, entries: int,
                           slotOf: string -> nat, nextValueVersion: nat)
  {
    && Flattens(contents, place, flat)
    && (forall id :: id in flat ==> Sound(id, flat[id], slotOf, nextValueVersion))
    && entries == |flat|
  }

  lemma CoherentLookup(contents: seq<Flat>, place: string -> nat, flat: Flat, entries: int,
                       slotOf: string -> nat, nextValueVersion: nat, id: string)
    requires Coherent(contents, place, flat, entries, slotOf, nextValueVersion)
    ensures place(id) < |contents|
    ensures Lookup(flat, id) == Lookup(contents[place(id)], id)
    ensures id in flat ==> Sound(id, flat[id], slotOf, nextValueVersion)
  {
  }

  lemma ShowsOne(contents: seq<Flat>, place: string -> nat, flat: Flat, k: nat, view: View)
    requires Flattens(contents, place, flat) && k < |contents| && view.values == contents[k]
    ensures ShowsShard(view, flat, place, k)
  {
  }

  lemma CoherentAfterStore(contents: seq<Flat>, place: string -> nat, flat: Flat, entries: int,
                           slotOf: string -> nat, nextValueVersion: nat, state: ValueState)
    requires Coherent(contents, place, flat, entries, slotOf, nextValueVersion)
    requires Sound(state.itemID, state, slotOf, nextValueVersion)
    ensures var k := place(state.itemID);
            && k < |contents|
            && Coherent(contents[k := contents[k][state.itemID := state]], place, flat[state.itemID := state],
                        entries + (if state.itemID in flat then 0 else 1), slotOf, nextValueVersion)
  {
    FlattensAfterStore(contents, place, flat, state);
    hide Flattens, Sound;
    SizeAfterPut(flat, state);
  }

  lemma SizeAfterPut(flat: Flat, state: ValueState)
    ensures |flat[state.itemID := state]| == |flat| + (if state.itemID in flat then 0 else 1)
  {
    assert flat[state.itemID := state].Keys == flat.Keys + {state.itemID};
    assert |flat[state.itemID := state]| == |flat.Keys + {state.itemID}|;
    if state.itemID in flat {
      assert flat.Keys + {state.itemID} == flat.Keys;
    }
  }

  lemma FlattensAfterStore(contents: seq<Flat>, place: string -> nat, flat: Flat, state: ValueState)
    requires Flattens(contents, place, flat)
    ensures var k := place(state.itemID);
            && k < |contents|
            && Flattens(contents[k := contents[k][state.itemID := state]], place, flat[state.itemID := state])
  {
  }

  lemma FlattensAfterForget(contents: seq<Flat>, place: string -> nat, flat: Flat, id: string)
    requires Flattens(contents, place, flat)
    ensures var k := place(id);
            && k < |contents|
            && Flattens(contents[k := contents[k] - {id}], place, flat - {id})
  {
  }

  lemma CoherentAfterForget(contents: seq<Flat>, place: string -> nat, flat: Flat, entries: int,
                            slotOf: string -> nat, nextValueVersion: nat, id: string)
    requires Coherent(contents, place, flat, entries, slotOf, nextValueVersion) && id in flat
    ensures var k := place(id);
            && k < |contents|
            && Coherent(contents[k := contents[k] - {id}], place, flat - {id}, entries - 1, slotOf, nextValueVersion)
  {
    FlattensAfterForget(contents, place, flat, id);
    hide Flattens, Derived;
    assert (flat - {id}).Keys == flat.Keys - {id};
    assert |flat - {id}| == |flat.Keys - {id}|;
  }

  lemma CoherentAfterBump(contents: seq<Flat>, place: string -> nat, flat: Flat, entries: int,
                          slotOf: string -> nat, nextValueVersion: nat)
    requires Coherent(contents, place, flat, entries, slotOf, nextValueVersion)
    ensures Coherent(contents, place, flat, entries, slotOf, nextValueVersion + 1)
  {
  }

  /** The effect of an operation keeps a sound state sound and in its scan position. */
  lemma EffectSound(id: string, state: ValueState, op: Op, threshold: nat, slotOf: string -> nat, nextValueVersion: nat)
    requires Sound(id, state, slotOf, nextValueVersion)
    ensures var cell := Effect(Some(state), op, threshold).0;
            cell.Some? ==> Sound(id, cell.value, slotOf, nextValueVersion)
                           && cell.value.scanSequence == state.scanSequence
  {
  }

  lemma FetchSound(id: string, state: ValueState, fetchedAt: int, slotOf: string -> nat, nextValueVersion: nat)
    requires Sound(id, state, slotOf, nextValueVersion)
    ensures Sound(id, state.(lastFetchAt := fetchedAt), slotOf, nextValueVersion)
  {
  }

  lemma SoundMeansDerived(id: string, state: ValueState, slotOf: string -> nat, nextValueVersion: nat)
    requires Sound(id, state, slotOf, nextValueVersion)
    ensures Derived(state)
  {
  }

  lemma InstalledSound(p: Pending, version: nat, slotOf: string -> nat, scanSequence: nat)
    requires WellFormedPending(p) && version > 0
    ensures Sound(p.itemID, InstalledState(p, version, slotOf(p.itemID), scanSequence), slotOf, version)
  {
    InstalledDerived(p, version, slotOf(p.itemID), scanSequence);
  }

  /** A fresh state, not yet in any scan log. */
  method NewState(p: Pending, version: nat, slot: nat) returns (state: ValueState)
    ensures state == InstalledState(p, version, slot, 0)
  {
    var source := p.clock * SECOND + p.ns;
    state := ValueState(
      p.itemID, p.value, source, p.ns, p.fetchedAt, p.fetchedAt, p.delay, ValueExpireAt(source, p.delay),
      0, p.metadataVersion, version, 0, ZERO_TIME, slot, PolicyForDelay(p.delay), true, 0);
  }

  lemma PlacedState(p: Pending, version: nat, slot: nat, scanSequence: nat)
    ensures InstalledState(p, version, slot, 0).(scanSequence := scanSequence) ==
      InstalledState(p, version, slot, scanSequence)
    ensures InstalledState(p, version, slot, scanSequence).itemID == p.itemID
  {
  }

  lemma CoherentAfterInstall(contents: seq<Flat>, place: string -> nat, flat: Flat, entries: int,
                             slotOf: string -> nat, nextValueVersion: nat, p: Pending, scanSequence: nat)
    requires Coherent(contents, place, flat, entries, slotOf, nextValueVersion) && WellFormedPending(p)
    ensures var k, state := place(p.itemID), InstalledState(p, nextValueVersion + 1, slotOf(p.itemID), scanSequence);
            && k < |contents|
            && Coherent(contents[k := contents[k][p.itemID := state]], place, flat[p.itemID := state],
                        entries + (if p.itemID in flat then 0 else 1), slotOf, nextValueVersion + 1)
  {
    hide Coherent, Sound;
    CoherentAfterBump(contents, place, flat, entries, slotOf, nextValueVersion);
    InstalledSound(p, nextValueVersion + 1, slotOf, scanSequence);
    CoherentAfterStore(contents, place, flat, entries, slotOf, nextValueVersion + 1,
                       InstalledState(p, nextValueVersion + 1, slotOf(p.itemID), scanSequence));
  }

  // ---------- Going through the shards of a response ----------

  lemma CandidatesWellFormed(snapshot: Snapshot, latest: map<string, HistoryItem>, fetchedAt: int)
    ensures var all := Candidates(snapshot, latest, fetchedAt);
            forall id :: id in all ==> WellFormedPending(all[id])
  {
  }

  /** The end of ApplyBatch: counters, and the miss candidates of a batch that met no
      stale definition. */
  method Summarize(result: BatchResult, snapshot: Snapshot, latest: map<string, HistoryItem>, queried: nat -> bool,
                   stale: set<string>, ignored: nat, rejected: set<string>, progress: Progress,
                   ghost log: seq<Installation>)
    returns (apply: ApplyResult)
    requires stale == StaleQueried(snapshot, result.itemIDs, queried)
    requires ignored == |Uncollectable(snapshot, latest)| && rejected == Unreadable(snapshot, latest)
    requires progress == ProgressOf(log)
    ensures Reports(apply, result, snapshot, latest, log, queried)
  {
    hide StaleQueried, Uncollectable, RefusedOf, Count, EntriesOf, InQueryOrder, Collectable, HasPoint;
    var staleItems := stale + progress.refused;
    var misses := [];
    if |staleItems| == 0 {
      var returned := latest.Keys + (set i | 0 <= i < |result.records| :: result.records[i].itemID);
      misses := FindMisses(result.itemIDs, returned, staleItems + rejected);
      assert (set id | id in result.itemIDs) - returned - (staleItems + rejected)
          == (set id | id in result.itemIDs) - Returned(result, latest);
    }
    apply := ApplyResult(result.status, progress.created, progress.updated, progress.kept, |rejected|,
                         ignored + progress.skipped, |staleItems|, misses, rejected, snapshot.version);
  }

  ghost function Below(all: map<string, Pending>, place: string -> nat, k: nat): set<string> {
    set id | id in all && place(id) < k
  }

  lemma NoneBelow(all: map<string, Pending>, place: string -> nat)
    ensures Enumerates(PendingsOf([]), all, Below(all, place, 0))
  {
  }

  /** The buckets hold exactly the points to install, each in its own shard. */
  ghost predicate Prepared(buckets: seq<seq<Pending>>, all: map<string, Pending>, place: string -> nat) {
    && (forall id :: place(id) < |buckets|)
    && (forall k :: 0 <= k < |buckets| ==> Enumerates(buckets[k], all, InShard(all, place, k)))
    && (forall id :: id in all ==> WellFormedPending(all[id]))
  }

  lemma BelowNext(earlier: seq<Pending>, buckets: seq<seq<Pending>>, all: map<string, Pending>, place: string -> nat,
                  k: nat, list: seq<Pending>)
    requires Prepared(buckets, all, place) && k < |buckets|
    requires Enumerates(earlier, all, Below(all, place, k))
    requires list == earlier + buckets[k]
    ensures Enumerates(list, all, Below(all, place, k + 1))
  {
    hide Enumerates;
    EnumeratesConcat(earlier, buckets[k], all, Below(all, place, k), InShard(all, place, k));
    assert Below(all, place, k) + InShard(all, place, k) == Below(all, place, k + 1);
  }

  lemma BelowSame(earlier: seq<Pending>, buckets: seq<seq<Pending>>, all: map<string, Pending>, place: string -> nat,
                  k: nat)
    requires Prepared(buckets, all, place) && k < |buckets| && |buckets[k]| == 0
    requires Enumerates(earlier, all, Below(all, place, k))
    ensures Enumerates(earlier, all, Below(all, place, k + 1))
  {
    assert earlier + buckets[k] == earlier;
    BelowNext(earlier, buckets, all, place, k, earlier);
  }

  lemma AllBelow(buckets: seq<seq<Pending>>, all: map<string, Pending>, place: string -> nat)
    requires Prepared(buckets, all, place)
    ensures Below(all, place, |buckets|) == all.Keys
  {
  }

  lemma BucketReady(buckets: seq<seq<Pending>>, all: map<string, Pending>, place: string -> nat, k: nat)
    requires Prepared(buckets, all, place) && k < |buckets|
    ensures forall i :: 0 <= i < |buckets[k]| ==> place(buckets[k][i].itemID) == k && WellFormedPending(buckets[k][i])
  {
    hide WellFormedPending;
    forall i | 0 <= i < |buckets[k]|
      ensures place(buckets[k][i].itemID) == k && WellFormedPending(buckets[k][i])
    {
      assert buckets[k][i] in buckets[k];
    }
  }

  /** The report on a response that cannot be applied: failed ones count nothing, and those
      without metadata count every point as skipped. */
  predicate NothingDone(apply: ApplyResult, result: BatchResult, snapshot: Option<Snapshot>) {
    && apply.status == result.status
    && apply.created == apply.updated == apply.kept == apply.rejected == apply.stale == 0
    && apply.missItemIDs == [] && apply.errors == {}
    && apply.metadataVersion == (if snapshot.Some? then snapshot.value.version else 0)
    && apply.skipped ==
         if result.status !in {BatchStatus.Success, BatchStatus.Empty} then 0
         else if result.latest.Some? && |result.latest.value| > 0 then |result.latest.value|
         else |result.records|
  }

  lemma NothingApplied(flat: Flat, nextVersion: nat)
    requires forall id :: id in flat ==> flat[id].valueVersion <= nextVersion
    ensures RegistersNew([], flat, nextVersion)
  {
  }

  class ValueCache {
    const place: string -> nat
    const slotOf: string -> nat
    const shards: seq<ValueShard>
    const publishSlots: nat
    const missThreshold: nat
    var nextValueVersion: nat
    var entries: int
    ghost var contents: seq<Flat>
    ghost var flat: Flat

    ghost predicate Distinct() {
      && |shards| > 0
      && (forall i, j :: 0 <= i < |shards| && 0 <= j < |shards| && i != j ==> shards[i] != shards[j])
    }

    ghost predicate Holds(k: nat)
      requires k < |shards|
      reads this`contents, shards[k]
    {
      |contents| == |shards| && shards[k].Valid() && contents[k] == shards[k].values
    }

    ghost predicate Consistent()
      reads this, shards
    {
      && Distinct()
      && |contents| == |shards|
      && (forall k :: 0 <= k < |shards| ==> Holds(k))
      && Coherent(contents, place, flat, entries, slotOf, nextValueVersion)
    }

    ghost predicate Bounded(k: nat)
      requires k < |shards|
      reads shards[k]
    {
      LogBounded(shards[k].order, |shards[k].values|)
    }

    ghost predicate Valid()
      reads this, shards
    {
      Consistent() && (forall k :: 0 <= k < |shards| ==> Bounded(k))
    }

    constructor (place: string -> nat, slotOf: string -> nat, empty: seq<ValueShard>,
                 publishSlots: nat, missThreshold: nat)
      requires |empty| > 0 && (forall id :: place(id) < |empty|)
      requires forall i, j :: 0 <= i < |empty| && 0 <= j < |empty| && i != j ==> empty[i] != empty[j]
      requires forall k :: 0 <= k < |empty| ==> empty[k].Valid() && empty[k].values == map[] && empty[k].order == []
      ensures Valid() && flat == map[] && nextValueVersion == 0
      ensures shards == empty && this.place == place && this.slotOf == slotOf
      ensures this.publishSlots == publishSlots && this.missThreshold == missThreshold
    {
      this.place, this.slotOf := place, slotOf;
      this.shards := empty;
      this.publishSlots, this.missThreshold := publishSlots, missThreshold;
      nextValueVersion, entries := 0, 0;
      contents := seq(|empty|, _ => map[]);
      flat := map[];
    }

    // ---------- The operations of the store ----------

    method Load(itemID: string) returns (state: Option<ValueState>)
      requires Valid()
      ensures state == Lookup(flat, itemID)
    {
      hide Coherent, Sane;
      CoherentLookup(contents, place, flat, entries, slotOf, nextValueVersion, itemID);
      var k := place(itemID);
      assert Holds(k);
      if itemID in shards[k].values {
        return Some(shards[k].values[itemID]);
      }
      return None;
    }

    method Len() returns (size: int)
      requires Valid()
      ensures size == |flat|
    {
      size := entries;
    }

    method MarkMiss(itemIDs: seq<string>, fetchedAt: int) returns (result: MissResult)
      requires Valid()
      modifies this`flat, this`entries, this`contents, shards
      ensures Valid()
      ensures var expected := Processed(old(flat), MissOps(FirstOccurrences(itemIDs), fetchedAt), missThreshold);
              && flat == expected.flat
              && result == MissResult(expected.tally.applied, expected.tally.invalidated, expected.tally.notFound)
      ensures MarkedOnce(old(flat), flat, itemIDs, fetchedAt, missThreshold, result)
    {
      hide Valid, Processed, MarkedOnce;
      MarkedAll(flat, itemIDs, fetchedAt, missThreshold);
      var unique := WithoutRepetitions(itemIDs);
      var tally := Process(MissOps(unique, fetchedAt), false);
      result := MissResult(tally.applied, tally.invalidated, tally.notFound);
    }

    method Delete(itemIDs: seq<string>) returns (result: DeleteResult)
      requires Valid()
      modifies this`flat, this`entries, this`contents, shards
      ensures Valid()
      ensures var expected := Processed(old(flat), RemoveOps(FirstOccurrences(itemIDs)), missThreshold);
              && flat == expected.flat
              && result == DeleteResult(expected.tally.applied, 0, expected.tally.notFound)
      ensures Deleted(old(flat), flat, itemIDs, result)
    {
      hide Valid, Processed, Deleted;
      DeletedAll(flat, itemIDs, missThreshold);
      var unique := WithoutRepetitions(itemIDs);
      var tally := Process(RemoveOps(unique), true);
      result := DeleteResult(tally.applied, 0, tally.notFound);
    }

    method DeleteVersioned(items: seq<VersionedItem>) returns (result: DeleteResult)
      requires Valid()
      modifies this`flat, this`entries, this`contents, shards
      ensures Valid()
      ensures var expected := Processed(old(flat), RemoveVersionedOps(items), missThreshold);
              && flat == expected.flat
              && result == DeleteResult(expected.tally.applied, expected.tally.stale, expected.tally.notFound)
      ensures DeletedVersions(old(flat), flat, items, result)
    {
      hide Valid, Processed, DeletedVersions;
      DeletedAllVersions(flat, items, missThreshold);
      var tally := Process(RemoveVersionedOps(items), true);
      result := DeleteResult(tally.applied, tally.stale, tally.notFound);
    }

    method AckPublished(acks: seq<PublishAck>) returns (result: AckResult)
      requires Valid()
      modifies this`flat, this`entries, this`contents, shards
      ensures Valid()
      ensures var expected := Processed(old(flat), AckOps(acks), missThreshold);
              && flat == expected.flat
              && result == AckResult(expected.tally.applied, expected.tally.stale, expected.tally.notFound)
    {
      hide Valid, Processed;
      var tally := Process(AckOps(acks), false);
      result := AckResult(tally.applied, tally.stale, tally.notFound);
    }

    /** What a reader sees of every shard, in shard order. */
    ghost predicate Sees(views: seq<View>)
      reads this, shards
    {
      |views| == |shards| && forall k :: 0 <= k < |shards| ==> views[k] == View(shards[k].values, shards[k].order)
    }

    /** The shards together show exactly the flat map. */
    lemma SeesEverything(views: seq<View>)
      requires Valid() && Sees(views)
      ensures Readable(views)
      ensures forall k :: 0 <= k < |views| ==> ShowsShard(views[k], flat, place, k)
    {
      hide Sound;
      forall k | 0 <= k < |views|
        ensures WellFormed(views[k]) && ShowsShard(views[k], flat, place, k)
      {
        assert Holds(k);
        ShowsOne(contents, place, flat, k, views[k]);
      }
    }

    /** The loop both page readers share: locks one shard after the other, starts
        behind the cursor, and stops when the limit is met or the shards run out. */
    method ReadPage(cursor: Cursor, limit: nat, eligible: Eligibility, ghost views: seq<View>) returns (page: Page)
      requires Valid() && Sees(views)
      requires cursor.shard <= |shards| && limit > 0
      ensures page == ReadFrom(views, eligible, cursor.shard, cursor.sequence, limit)
    {
      hide Coherent, Sane, ReadFrom, ShardMatches;
      var hits, next, sequence := [], cursor, cursor.sequence;
      var k := cursor.shard;
      ContinueNothing(ReadFrom(views, eligible, k, sequence, limit));
      while k < |shards|
        invariant cursor.shard <= k <= |shards| && |hits| < limit
        invariant next == Cursor(k, sequence)
        invariant ReadFrom(views, eligible, cursor.shard, cursor.sequence, limit)
               == Continue(hits, ReadFrom(views, eligible, k, sequence, limit - |hits|))
      {
        assert Holds(k);
        ReadStep(views, eligible, k, sequence, limit - |hits|);
        var found, limited := ReadShard(k, sequence, limit - |hits|, eligible, views[k]);
        if limited {
          next := Position(found[|found| - 1]);
          return Page(hits + found, next, false);
        }
        k, sequence := k + 1, 0;
        next := Cursor(k, 0);
        ContinueTwice(hits, found, ReadFrom(views, eligible, k, 0, limit - |hits| - |found|));
        hits := hits + found;
      }
      ReadEnd(views, eligible, sequence, limit - |hits|);
      page := Page(hits, next, true);
    }

    /** One shard visit: at most `room` eligible states behind the cursor. */
    method ReadShard(k: nat, sequence: nat, room: nat, eligible: Eligibility, ghost view: View)
      returns (found: seq<Hit>, limited: bool)
      requires k < |shards| && shards[k].Valid() && room > 0
      requires view == View(shards[k].values, shards[k].order)
      ensures limited <==> |ShardMatches(view, k, eligible, sequence)| >= room
      ensures found == if limited then ShardMatches(view, k, eligible, sequence)[..room]
                       else ShardMatches(view, k, eligible, sequence)
    {
      hide Sane, Matches;
      var shard := shards[k];
      var i := shard.FirstSequenceAfter(sequence);
      NothingBehind(view, k, eligible, sequence, i);
      found, limited := [], false;
      while i < |shard.order|
        invariant i <= |shard.order|
        invariant found == Matches(view, k, eligible, sequence, i) && |found| < room
        invariant forall j :: i <= j < |shard.order| ==> shard.order[j].sequence > sequence
      {
        var key := shard.order[i];
        MatchStep(view, k, eligible, sequence, i);
        i := i + 1;
        if key.itemID in shard.values && shard.values[key.itemID].scanSequence == key.sequence &&
           eligible(shard.values[key.itemID]) {
          found := found + [Hit(k, shard.values[key.itemID])];
          if |found| == room {
            MatchesPrefix(view, k, eligible, sequence, i, |view.order|);
            return found, true;
          }
        }
      }
    }

    method ReadPublishPage(slot: nat, cursor: Cursor, cycleTimestamp: int, limit: int, ghost views: seq<View>)
      returns (result: PageResult)
      requires Valid() && Sees(views)
      ensures result.PageFailed? <==> slot >= publishSlots || limit <= 0 || cursor.shard > |shards|
      ensures result.PageOk? ==>
        var page := ReadFrom(views, ForPublishing(slot, cycleTimestamp), cursor.shard, cursor.sequence, limit);
        result.page == PublishPage(DetachedAll(page.hits, cycleTimestamp), page.next, page.done)
    {
      if slot >= publishSlots {
        return PageFailed(SlotOutOfRange);
      }
      if limit <= 0 {
        return PageFailed(LimitNotPositive);
      }
      if cursor.shard > |shards| {
        return PageFailed(CursorOutOfRange);
      }
      var page := ReadPage(cursor, limit, ForPublishing(slot, cycleTimestamp), views);
      result := PageOk(PublishPage(DetachedAll(page.hits, cycleTimestamp), page.next, page.done));
    }

    method ReadScrapePage(cursor: Cursor, scrapeTimestamp: int, limit: int, ghost views: seq<View>)
      returns (result: PageResult)
      requires Valid() && Sees(views)
      ensures result.PageFailed? <==> scrapeTimestamp == ZERO_TIME || limit <= 0 || cursor.shard > |shards|
      ensures result.PageOk? ==>
        var page := ReadFrom(views, ForScraping(scrapeTimestamp), cursor.shard, cursor.sequence, limit);
        result.page == PublishPage(DetachedAll(page.hits, scrapeTimestamp), page.next, page.done)
    {
      if scrapeTimestamp == ZERO_TIME {
        return PageFailed(ZeroTimestamp);
      }
      if limit <= 0 {
        return PageFailed(LimitNotPositive);
      }
      if cursor.shard > |shards| {
        return PageFailed(CursorOutOfRange);
      }
      var page := ReadPage(cursor, limit, ForScraping(scrapeTimestamp), views);
      result := PageOk(PublishPage(DetachedAll(page.hits, scrapeTimestamp), page.next, page.done));
    }

    /** Applies one response. `queried` and `locked` are the answers of the metadata
        source to the checks made per queried position and, later, per item under its
        shard's lock; they may differ because the source may publish in between.
        `registered` is what goes to the expiry wheel once every lock is released. */
    method ApplyBatch(result: BatchResult, snapshot: Option<Snapshot>, queried: nat -> bool, locked: string -> bool)
      returns (apply: ApplyResult, registered: seq<ExpiryEntry>,
               ghost log: seq<Installation>, ghost latest: map<string, HistoryItem>)
      requires Valid()
      modifies this, shards
      ensures Valid()
      ensures JustifiedLog(old(flat), old(nextValueVersion), log, locked, slotOf)
      ensures flat == Replay(old(flat), log)
      ensures nextValueVersion == old(nextValueVersion) + InstallCount(log)
      ensures registered == EntriesOf(log)
      ensures !Usable(result, snapshot) ==> log == [] && apply == RefusedResult(result, snapshot)
      ensures Usable(result, snapshot) ==>
        && IsLatest(latest, result)
        && Accounts(log, snapshot.value, latest, FetchTime(result))
        && Reports(apply, result, snapshot.value, latest, log, queried)
      ensures
        if result.status in {BatchStatus.Success, BatchStatus.Empty} && snapshot.Some? then
          var fetchedAt := if result.finishedAt == ZERO_TIME then result.startedAt else result.finishedAt;
          && (forall id :: AppliedTo(old(flat), flat, snapshot.value, latest, fetchedAt, locked, slotOf,
                                     old(nextValueVersion), id))
          && Tells(apply, result, old(flat), snapshot.value, latest, queried, locked)
        else
          flat == old(flat) && nextValueVersion == old(nextValueVersion) && NothingDone(apply, result, snapshot)
      ensures RegistersNew(registered, flat, old(nextValueVersion))
    {
      hide Valid, JustifiedLog, Replay, InstallCount, EntriesOf, Reports, Reduces, Enumerates, Candidates,
        WellFormedPending, InShard, StaleQueried, Uncollectable, Unreadable, RefusedOf, Count, InQueryOrder,
        AppliedTo, Tells, RegistersNew, Derived;
      log, latest := [], map[];
      ghost var before, version := flat, nextValueVersion;
      CachedSound();
      if !Usable(result, snapshot) {
        ReachedStart(flat, nextValueVersion, locked, slotOf);
        NothingApplied(flat, nextValueVersion);
        return RefusedResult(result, snapshot), [], [], map[];
      }
      var points: map<string, HistoryItem>;
      if result.latest.Some? {
        points := result.latest.value;
      } else {
        points := ReduceLatest(result.records);
      }
      latest := points;
      var stale := FindStale(snapshot.value, result.itemIDs, queried);
      PlacesInRange();
      var buckets, ignored, rejected := Classify(snapshot.value, points, FetchTime(result), place, |shards|);
      CandidatesWellFormed(snapshot.value, points, FetchTime(result));
      var progress;
      progress, log := InstallAll(buckets, locked, Candidates(snapshot.value, points, FetchTime(result)));
      registered := progress.registered;
      apply := Summarize(result, snapshot.value, points, queried, stale, ignored, rejected, progress, log);
      LoggedOnce(log, Candidates(snapshot.value, points, FetchTime(result)));
      BatchRegistered(before, version, log, locked, slotOf);
      ReportTells(apply, result, before, version, snapshot.value, points, log, queried, locked, slotOf);
      forall id: string
        ensures AppliedTo(before, flat, snapshot.value, points, FetchTime(result), locked, slotOf, version, id)
      {
        BatchApplied(before, version, log, locked, slotOf, snapshot.value, points, FetchTime(result), id);
      }
    }

    lemma CachedSound()
      requires Valid()
      ensures forall id :: id in flat ==> Derived(flat[id]) && flat[id].valueVersion <= nextValueVersion
    {
      hide Derived;
    }

    /** Goes through the shards that received points, in ascending order. */
    method InstallAll(buckets: seq<seq<Pending>>, locked: string -> bool, ghost all: map<string, Pending>)
      returns (progress: Progress, ghost log: seq<Installation>)
      requires Valid() && |buckets| == |shards| && Prepared(buckets, all, place)
      modifies this, shards
      ensures Valid()
      ensures Reached(old(flat), old(nextValueVersion), log, flat, nextValueVersion, progress, locked, slotOf)
      ensures Enumerates(PendingsOf(log), all, all.Keys)
    {
      hide Valid, Reached, Enumerates, Prepared, WellFormedPending, PendingsOf, Below;
      progress, log := NO_PROGRESS, [];
      ReachedStart(flat, nextValueVersion, locked, slotOf);
      NoneBelow(all, place);
      var k := 0;
      while k < |shards|
        invariant k <= |shards|
        invariant Valid()
        invariant Reached(old(flat), old(nextValueVersion), log, flat, nextValueVersion, progress, locked, slotOf)
        invariant Enumerates(PendingsOf(log), all, Below(all, place, k))
      {
        ghost var before := PendingsOf(log);
        var bucket := buckets[k];
        if |bucket| != 0 {
          BucketReady(buckets, all, place, k);
          progress, log := InstallBucket(k, bucket, locked, old(flat), old(nextValueVersion), progress, log);
          BelowNext(before, buckets, all, place, k, PendingsOf(log));
        } else {
          BelowSame(before, buckets, all, place, k);
        }
        k := k + 1;
      }
      AllBelow(buckets, all, place);
    }

    /** The points of one shard, under its lock. */
    method InstallBucket(k: nat, bucket: seq<Pending>, locked: string -> bool, ghost start: Flat,
                         ghost startVersion: nat, before: Progress, ghost earlier: seq<Installation>)
      returns (progress: Progress, ghost log: seq<Installation>)
      requires Valid() && k < |shards|
      requires forall i :: 0 <= i < |bucket| ==> place(bucket[i].itemID) == k && WellFormedPending(bucket[i])
      requires Reached(start, startVersion, earlier, flat, nextValueVersion, before, locked, slotOf)
      modifies this, shards[k]
      ensures Valid()
      ensures Reached(start, startVersion, log, flat, nextValueVersion, progress, locked, slotOf)
      ensures PendingsOf(log) == PendingsOf(earlier) + bucket
    {
      hide Valid, Reached, WellFormedPending, PendingsOf, Justified, Install, Advance, EntryOf;
      progress, log := before, earlier;
      assert PendingsOf(earlier) + bucket[..0] == PendingsOf(earlier);
      var i := 0;
      while i < |bucket|
        invariant i <= |bucket|
        invariant Valid()
        invariant Reached(start, startVersion, log, flat, nextValueVersion, progress, locked, slotOf)
        invariant PendingsOf(log) == PendingsOf(earlier) + bucket[..i]
      {
        ghost var flatBefore, versionBefore := flat, nextValueVersion;
        var verdict, entry, e := InstallOne(k, bucket[i], locked);
        ReachedNext(start, startVersion, log, flatBefore, versionBefore, progress, locked, slotOf, e);
        assert PendingsOf(earlier) + bucket[..i + 1] == PendingsOf(earlier) + bucket[..i] + [bucket[i]];
        progress := Advance(progress, bucket[i].itemID, verdict, entry);
        log := log + [e];
        i := i + 1;
      }
      assert bucket[..|bucket|] == bucket;
    }

    // ---------- Critical sections ----------

    /** Decides one pending point inside its shard's critical section. The metadata
        check is asked again here, while the lock is held. */
    method InstallOne(k: nat, p: Pending, locked: string -> bool)
      returns (verdict: Verdict, registered: Option<ExpiryEntry>, ghost e: Installation)
      requires Valid() && k < |shards| && place(p.itemID) == k && WellFormedPending(p)
      modifies this, shards[k]
      ensures Valid()
      ensures e.pending == p && e.verdict == verdict
      ensures Justified(old(flat), old(nextValueVersion), e, locked, slotOf)
      ensures flat == Install(old(flat), e)
      ensures nextValueVersion == old(nextValueVersion) + (if Installing(verdict) then 1 else 0)
      ensures registered == if Installing(verdict) then Some(EntryOf(e)) else None
      ensures verdict == Refused <==> !locked(p.itemID)
      ensures verdict == Created <==> locked(p.itemID) && p.itemID !in old(flat)
      ensures verdict == Unchanged <==>
        && locked(p.itemID) && p.itemID in old(flat)
        && old(flat)[p.itemID].metadataVersion == p.metadataVersion
        && p.clock * SECOND + p.ns <= old(flat)[p.itemID].sourceTimestamp
    {
      hide Coherent, Sane, Sound, InstalledState, Derived, SourceIsNewer;
      assert Holds(k) && Bounded(k);
      CoherentLookup(contents, place, flat, entries, slotOf, nextValueVersion, p.itemID);
      if p.itemID in flat {
        SoundMeansDerived(p.itemID, flat[p.itemID], slotOf, nextValueVersion);
        NewerMeansLater(p.clock, p.ns, flat[p.itemID]);
      }
      if !locked(p.itemID) {
        return Refused, None, Installation(p, Refused, 0, 0, 0);
      }
      if p.itemID in shards[k].values {
        var current := shards[k].values[p.itemID];
        if current.metadataVersion == p.metadataVersion && !SourceIsNewer(p.clock, p.ns, current) {
          FetchSound(p.itemID, current, p.fetchedAt, slotOf, nextValueVersion);
          StoreState(k, p.itemID, current.(lastFetchAt := p.fetchedAt));
          assert forall j :: 0 <= j < |shards| && j != k ==> old(Bounded(j)) && Bounded(j);
          return Unchanged, None, Installation(p, Unchanged, 0, 0, 0);
        }
        verdict := Updated;
      } else {
        verdict := Created;
      }
      ghost var scanSequence := InstallState(k, p);
      e := Installation(p, verdict, nextValueVersion, slotOf(p.itemID), scanSequence);
      registered := Some(ExpiryEntry(p.itemID, nextValueVersion, ValueExpireAt(p.clock * SECOND + p.ns, p.delay)));
    }

    /** Gives a new state the next version and inserts it into its shard. */
    method InstallState(k: nat, p: Pending) returns (ghost scanSequence: nat)
      requires Valid() && k < |shards| && place(p.itemID) == k && WellFormedPending(p)
      modifies this, shards[k]
      ensures Valid()
      ensures nextValueVersion == old(nextValueVersion) + 1
      ensures flat == old(flat)[p.itemID := InstalledState(p, nextValueVersion, slotOf(p.itemID), scanSequence)]
      ensures p.itemID in old(flat) ==> scanSequence == old(flat)[p.itemID].scanSequence
    {
      hide Coherent, Sane, Sound, Derived, InstalledState, Holds, Bounded;
      CoherentLookup(contents, place, flat, entries, slotOf, nextValueVersion, p.itemID);
      assert Holds(k);
      ghost var unused := nextValueVersion;
      nextValueVersion := nextValueVersion + 1;
      var state := NewState(p, nextValueVersion, slotOf(p.itemID));
      PlacedState(p, nextValueVersion, slotOf(p.itemID), 0);
      var existed := PutInto(k, state);
      scanSequence := contents[k][p.itemID].scanSequence;
      PlacedState(p, nextValueVersion, slotOf(p.itemID), scanSequence);
      CoherentAfterInstall(old(contents), place, flat, entries, slotOf, unused, p, scanSequence);
      flat := flat[p.itemID := InstalledState(p, nextValueVersion, slotOf(p.itemID), scanSequence)];
      if !existed {
        entries := entries + 1;
      }
    }

    /** Puts a state into its shard. */
    method PutInto(k: nat, state: ValueState) returns (existed: bool)
      requires Distinct() && k < |shards| == |contents|
      requires forall j :: 0 <= j < |shards| ==> Holds(j) && Bounded(j)
      modifies this`contents, shards[k]
      ensures |contents| == |shards| && forall j :: 0 <= j < |shards| ==> Holds(j) && Bounded(j)
      ensures existed <==> state.itemID in old(contents)[k]
      ensures state.itemID in contents[k]
      ensures var scanSequence := contents[k][state.itemID].scanSequence;
              && contents == old(contents)[k := old(contents)[k][state.itemID := state.(scanSequence := scanSequence)]]
              && (existed ==> scanSequence == old(contents)[k][state.itemID].scanSequence)
    {
      hide Sane, LogBounded;
      assert Holds(k) && Bounded(k);
      existed := state.itemID in shards[k].values;
      shards[k].Insert(state);
      contents := contents[k := shards[k].values];
      forall j | 0 <= j < |shards|
        ensures Holds(j) && Bounded(j)
      {
        if j != k {
          assert old(Holds(j)) && old(Bounded(j));
        }
      }
    }

    /** One miss inside its shard's critical section. */
    method MissOne(k: nat, itemID: string, fetchedAt: int) returns (tally: Tally)
      requires Consistent() && k < |shards| && place(itemID) == k
      modifies this`flat, this`contents, shards[k]
      ensures Consistent()
      ensures Outcome(flat, tally) == Step(Outcome(old(flat), ZERO_TALLY), Miss(itemID, fetchedAt), missThreshold)
      ensures shards[k].order == old(shards[k].order) && |shards[k].values| == |old(shards[k].values)|
    {
      hide Coherent, Sane, Sound, Step;
      assert Holds(k);
      CoherentLookup(contents, place, flat, entries, slotOf, nextValueVersion, itemID);
      if itemID !in shards[k].values {
        StepAbsent(flat, Miss(itemID, fetchedAt), missThreshold);
        return NOT_FOUND;
      }
      var state := shards[k].values[itemID];
      EffectSound(itemID, state, Miss(itemID, fetchedAt), missThreshold, slotOf, nextValueVersion);
      tally := APPLIED;
      if state.consecutiveMisses < MAX_UINT32 {
        state := state.(consecutiveMisses := state.consecutiveMisses + 1);
      }
      state := state.(lastFetchAt := fetchedAt);
      if state.valid && state.consecutiveMisses >= missThreshold &&
         fetchedAt > MissInvalidAfter(state.sourceTimestamp, state.delay) {
        state := state.(valid := false);
        tally := INVALIDATED;
      }
      StepPresent(flat, Miss(itemID, fetchedAt), missThreshold, Some(state), tally);
      StoreState(k, itemID, state);
    }

    /** One acknowledgement inside its shard's critical section. */
    method AckOne(k: nat, ack: PublishAck) returns (tally: Tally)
      requires Consistent() && k < |shards| && place(ack.itemID) == k
      modifies this`flat, this`contents, shards[k]
      ensures Consistent()
      ensures Outcome(flat, tally) ==
        Step(Outcome(old(flat), ZERO_TALLY), Ack(ack.itemID, ack.version, ack.publishedTimestamp), missThreshold)
      ensures shards[k].order == old(shards[k].order) && |shards[k].values| == |old(shards[k].values)|
    {
      hide Coherent, Sane, Sound, Step;
      assert Holds(k);
      CoherentLookup(contents, place, flat, entries, slotOf, nextValueVersion, ack.itemID);
      if ack.itemID !in shards[k].values {
        StepAbsent(flat, Ack(ack.itemID, ack.version, ack.publishedTimestamp), missThreshold);
        return NOT_FOUND;
      }
      var state := shards[k].values[ack.itemID];
      ghost var op := Ack(ack.itemID, ack.version, ack.publishedTimestamp);
      if state.valueVersion != ack.version {
        StepPresent(flat, op, missThreshold, Some(state), STALE);
        return STALE;
      }
      EffectSound(ack.itemID, state, op, missThreshold, slotOf, nextValueVersion);
      var changed := false;
      if state.publishPolicy == SourceTimestamp {
        if state.lastPublishedVersion < ack.version {
          state := state.(lastPublishedVersion := ack.version);
          changed := true;
        }
      } else if ack.publishedTimestamp != ZERO_TIME &&
                (state.lastPublishedTimestamp == ZERO_TIME || ack.publishedTimestamp > state.lastPublishedTimestamp) {
        changed := true;
      }
      if ack.publishedTimestamp > state.lastPublishedTimestamp {
        state := state.(lastPublishedTimestamp := ack.publishedTimestamp);
      }
      if !changed {
        StepPresent(flat, op, missThreshold, Some(flat[ack.itemID]), STALE);
        return STALE;
      }
      StepPresent(flat, op, missThreshold, Some(state), APPLIED);
      StoreState(k, ack.itemID, state);
      return APPLIED;
    }

    /** One removal inside its shard's critical section, with the version comparison
        under the same lock when a version is given. */
    method RemoveOne(k: nat, op: Op) returns (tally: Tally)
      requires op.Remove? || op.RemoveVersioned?
      requires Consistent() && k < |shards| && place(op.itemID) == k
      modifies this`flat, this`entries, this`contents, shards[k]
      ensures Consistent()
      ensures Outcome(flat, tally) == Step(Outcome(old(flat), ZERO_TALLY), op, missThreshold)
    {
      hide Coherent, Sane, Sound, Step;
      assert Holds(k);
      CoherentLookup(contents, place, flat, entries, slotOf, nextValueVersion, op.itemID);
      if op.itemID !in shards[k].values {
        StepAbsent(flat, op, missThreshold);
        return NOT_FOUND;
      }
      var state := shards[k].values[op.itemID];
      if op.RemoveVersioned? && state.valueVersion != op.version {
        StepPresent(flat, op, missThreshold, Some(state), STALE);
        return STALE;
      }
      StepPresent(flat, op, missThreshold, None, APPLIED);
      Forget(k, op.itemID);
      return APPLIED;
    }

    /** The common shape of the grouped operations: split the list by shard, then take
        the touched shards in ascending order, one lock at a time. */
    method Process(ops: seq<Op>, compact: bool) returns (tally: Tally)
      requires Valid()
      requires forall i :: 0 <= i < |ops| ==> compact || ops[i].Miss? || ops[i].Ack?
      modifies this`flat, this`entries, this`contents, shards
      ensures Valid()
      ensures Outcome(flat, tally) == Processed(old(flat), ops, missThreshold)
    {
      PlacesInRange();
      hide Valid, Processed, Regrouped, Grouped, Frontier, Local;
      var buckets, touched := GroupByShard(place, |shards|, ops);
      tally := ZERO_TALLY;
      NothingProcessed(place, ops, touched, flat, missThreshold);
      var i := 0;
      while i < |touched|
        invariant i <= |touched|
        invariant Valid()
        invariant Outcome(flat, tally)
               == Processed(old(flat), Regrouped(place, ops, Frontier(touched, i)), missThreshold)
      {
        NextShard(buckets, touched, place, |shards|, ops, i, compact);
        var k := touched[i];
        tally := ProcessShard(k, buckets[k], compact, Regrouped(place, ops, k), old(flat), tally);
        i := i + 1;
      }
      AllProcessed(buckets, touched, place, |shards|, ops, old(flat), missThreshold);
    }

    lemma PlacesInRange()
      requires Valid()
      ensures forall id :: place(id) < |shards|
    {
    }

    /** The operations of one touched shard, under its lock. Removals leave tombstones
        behind, so they end with a compaction; updates of states do not. */
    method ProcessShard(k: nat, bucket: seq<Op>, compact: bool, ghost head: seq<Op>, ghost start: Flat, before: Tally)
      returns (tally: Tally)
      requires Valid() && k < |shards|
      requires Local(bucket, place, k, compact)
      requires Outcome(flat, before) == Processed(start, head, missThreshold)
      modifies this`flat, this`entries, this`contents, shards[k]
      ensures Valid()
      ensures Outcome(flat, tally) == Processed(start, head + bucket, missThreshold)
    {
      hide Coherent, Sane, Step, Processed;
      tally := before;
      assert head + bucket[..0] == head;
      assert Bounded(k);
      var i := 0;
      while i < |bucket|
        invariant i <= |bucket|
        invariant Consistent()
        invariant Outcome(flat, tally) == Processed(start, head + bucket[..i], missThreshold)
        invariant compact || Bounded(k)
      {
        var op := bucket[i];
        assert head + bucket[..i + 1] == (head + bucket[..i]) + [op];
        ProcessedSnoc(start, head + bucket[..i], op, missThreshold);
        var one;
        match op {
          case Miss(itemID, fetchedAt) => one := MissOne(k, itemID, fetchedAt);
          case Ack(itemID, version, publishedTimestamp) =>
            one := AckOne(k, PublishAck(itemID, version, publishedTimestamp));
          case Remove(_) => one := RemoveOne(k, op);
          case RemoveVersioned(_, _) => one := RemoveOne(k, op);
        }
        tally := Add(tally, one);
        i := i + 1;
      }
      assert bucket[..|bucket|] == bucket;
      if compact {
        Compact(k);
      }
      assert forall j :: 0 <= j < |shards| && j != k ==> old(Bounded(j)) && Bounded(j);
    }

    /** Writes a changed state back under its shard's lock. */
    method StoreState(k: nat, itemID: string, state: ValueState)
      requires Consistent() && k < |shards| && place(itemID) == k
      requires itemID in shards[k].values
      requires shards[k].values[itemID].scanSequence == state.scanSequence
      requires Sound(itemID, state, slotOf, nextValueVersion)
      modifies this`flat, this`contents, shards[k]
      ensures Consistent()
      ensures flat == old(flat)[itemID := state]
      ensures shards[k].order == old(shards[k].order)
      ensures |shards[k].values| == |old(shards[k].values)|
    {
      hide Coherent, Sane, Derived;
      assert Holds(k);
      CoherentLookup(contents, place, flat, entries, slotOf, nextValueVersion, itemID);
      CoherentAfterStore(contents, place, flat, entries, slotOf, nextValueVersion, state);
      shards[k].Store(state);
      contents := contents[k := shards[k].values];
      flat := flat[itemID := state];
      assert forall j :: 0 <= j < |shards| && j != k ==> old(Holds(j)) && Holds(j);
    }

    /** Removes a cached item under its shard's lock. */
    method Forget(k: nat, itemID: string)
      requires Consistent() && k < |shards| && place(itemID) == k
      requires itemID in shards[k].values
      modifies this`flat, this`entries, this`contents, shards[k]
      ensures Consistent()
      ensures flat == old(flat) - {itemID}
      ensures shards[k].order == old(shards[k].order)
    {
      hide Coherent, Sane;
      assert Holds(k);
      CoherentLookup(contents, place, flat, entries, slotOf, nextValueVersion, itemID);
      CoherentAfterForget(contents, place, flat, entries, slotOf, nextValueVersion, itemID);
      var existed := shards[k].Delete(itemID);
      contents := contents[k := shards[k].values];
      flat := flat - {itemID};
      entries := entries - 1;
      assert Holds(k);
      forall j | 0 <= j < |shards| && j != k
        ensures Holds(j)
      {
        assert old(Holds(j)) && shards[j] != shards[k];
      }
    }

    method Compact(k: nat)
      requires Consistent() && k < |shards|
      modifies shards[k]
      ensures Consistent() && Bounded(k)
      ensures shards[k].values == old(shards[k].values)
    {
      hide Coherent, Sane;
      assert Holds(k);
      shards[k].CompactOrder();
      assert Holds(k);
      assert forall j :: 0 <= j < |shards| && j != k ==> old(Holds(j)) && Holds(j);
    }
  }
}

/** The expiry wheel (internal/cache/expiry_wheel.go): registrations, and cleanup
    rounds that hand expired entries to the value cache under a work budget. */
module ExpiryWheels {
  import opened FlatCaches
  import opened Installs
  import Heaps
  import opened Options
  import opened Times
  import opened ValueCaches
  import opened WheelContents

  const DELETE_BATCH_SIZE: nat := 4096
  const DEFAULT_MAX_ENTRIES_PER_RUN: nat := 100_000

  datatype ExpiryResult = ExpiryResult(
    processed: nat, completedBuckets: int, deleted: nat, stale: nat, notFound: nat, limited: bool,
    pendingEntries: int, pendingBuckets: nat, cleanupLag: int, lastProcessedBucket: int)

  function ItemsOf(entries: seq<ExpiryEntry>): (items: seq<VersionedItem>)
    ensures |items| == |entries|
  {
    seq(|entries|, i requires 0 <= i < |entries| => VersionedItem(entries[i].itemID, entries[i].valueVersion))
  }

  /** What handing over a list of entries makes of the cache. */
  ghost function AfterDeleting(flat: Flat, entries: seq<ExpiryEntry>, threshold: nat): Outcome {
    Processed(flat, RemoveVersionedOps(ItemsOf(entries)), threshold)
  }

  lemma DeletingAppend(flat: Flat, a: seq<ExpiryEntry>, b: seq<ExpiryEntry>, threshold: nat)
    ensures var first := AfterDeleting(flat, a, threshold);
            var second := AfterDeleting(first.flat, b, threshold);
            AfterDeleting(flat, a + b, threshold) == Outcome(second.flat, Add(first.tally, second.tally))
  {
    hide Processed;
    assert RemoveVersionedOps(ItemsOf(a + b)) == RemoveVersionedOps(ItemsOf(a)) + RemoveVersionedOps(ItemsOf(b));
    ProcessedAppend(flat, RemoveVersionedOps(ItemsOf(a)), RemoveVersionedOps(ItemsOf(b)), threshold);
  }

  lemma DeletingNothing(flat: Flat, threshold: nat)
    ensures AfterDeleting(flat, [], threshold) == Outcome(flat, ZERO_TALLY)
  {
  }

  lemma ItemsNone()
    ensures ItemsOf([]) == []
  {
  }

  lemma ItemsSnoc(entries: seq<ExpiryEntry>, e: ExpiryEntry)
    ensures ItemsOf(entries + [e]) == ItemsOf(entries) + [VersionedItem(e.itemID, e.valueVersion)]
  {
  }

  /** Splits a batch in order: what has expired becomes a deletion candidate, the rest
      is deferred. */
  method Sift(entries: seq<ExpiryEntry>, now: int) returns (candidates: seq<VersionedItem>, deferred: seq<ExpiryEntry>)
    ensures candidates == ItemsOf(DueOf(entries, now))
    ensures deferred == Deferred(entries, now)
  {
    hide ItemsOf;
    candidates, deferred := [], [];
    ItemsNone();
    var i := 0;
    while i < |entries|
      invariant i <= |entries|
      invariant candidates == ItemsOf(DueOf(entries[..i], now))
      invariant deferred == Deferred(entries[..i], now)
    {
      assert entries[..i + 1] == entries[..i] + [entries[i]];
      DueSnoc(entries[..i], entries[i], now);
      ItemsSnoc(DueOf(entries[..i], now), entries[i]);
      if entries[i].expireAt > now {
        deferred := deferred + [entries[i]];
      } else {
        candidates := candidates + [VersionedItem(entries[i].itemID, entries[i].valueVersion)];
      }
      i := i + 1;
    }
    assert entries[..|entries|] == entries;
  }

  predicate NotLater(a: int, b: int) {
    a <= b
  }

  lemma NotLaterTotal()
    ensures Heaps.TotalOrder(NotLater)
  {
  }

  /** The heap holds exactly the minutes in use. */
  ghost predicate Indexed(keys: seq<int>, b: Buckets) {
    Heaps.Heap(keys, NotLater) && multiset(keys) == multiset(b.Keys)
  }

  lemma IndexedRoot(keys: seq<int>, b: Buckets)
    requires Indexed(keys, b)
    ensures keys == [] <==> b == map[]
    ensures keys != [] ==> keys[0] in b && forall key :: key in b ==> keys[0] <= key
    ensures |keys| == |b|
  {
    assert |multiset(keys)| == |multiset(b.Keys)|;
    assert forall key :: key in b <==> key in multiset(keys);
    NotLaterTotal();
    forall key | key in b
      ensures keys != [] && keys[0] <= key
    {
      assert key in multiset(keys);
      var i :| 0 <= i < |keys| && keys[i] == key;
      Heaps.RootIsLeast(keys, NotLater, i);
    }
    if keys != [] {
      assert keys[0] in multiset(keys);
    }
  }

  lemma IndexedPush(keys: seq<int>, b: Buckets, h: seq<int>, key: int, entries: seq<ExpiryEntry>)
    requires Indexed(keys, b) && key !in b
    requires Heaps.Heap(h, NotLater) && multiset(h) == multiset(keys) + multiset{key}
    ensures Indexed(h, b[key := entries])
  {
    assert b[key := entries].Keys == b.Keys + {key};
  }

  lemma WithoutOne(s: set<int>, key: int)
    requires key in s
    ensures multiset(s) == multiset(s - {key}) + multiset{key}
  {
    assert s == (s - {key}) + {key};
  }

  lemma IndexedPop(keys: seq<int>, b: Buckets, h: seq<int>, key: int)
    requires Indexed(keys, b) && keys != [] && key == keys[0]
    requires Heaps.Heap(h, NotLater) && multiset(keys) == multiset(h) + multiset{key}
    ensures Indexed(h, b - {key})
  {
    IndexedRoot(keys, b);
    WithoutOne(b.Keys, key);
    assert (b - {key}).Keys == b.Keys - {key};
    hide Heaps.Heap;
    Cancel(multiset(h), multiset(b.Keys - {key}), key);
  }

  lemma Cancel(a: multiset<int>, b: multiset<int>, key: int)
    requires a + multiset{key} == b + multiset{key}
    ensures a == b
  {
    forall k: int
      ensures a[k] == b[k]
    {
      assert (a + multiset{key})[k] == a[k] + multiset{key}[k];
      assert (b + multiset{key})[k] == b[k] + multiset{key}[k];
    }
  }

  // ---------- What registering and examining do to the line ----------

  lemma Registered(b: Buckets, lo: int, hi: int, lo': int, hi': int, entry: ExpiryEntry)
    requires Filed(b, lo, hi) && lo <= hi
    requires var key := BucketKey(entry.expireAt); lo' <= lo && lo' <= key < hi' && hi <= hi'
    ensures var key := BucketKey(entry.expireAt);
            var b' := b[key := Minute(b, key) + [entry]];
            && Filed(b', lo', hi')
            && multiset(Line(b', lo', hi')) == multiset(Line(b, lo, hi)) + multiset{entry}
            && |Line(b', lo', hi')| == |Line(b, lo, hi)| + 1
  {
    var key := BucketKey(entry.expireAt);
    var minute := Minute(b, key) + [entry];
    var b' := b[key := minute];
    LineWidened(b, lo, hi, lo', hi');
    LineAround(b, lo', key, hi');
    LineReplaced(b, b', lo', key, hi');
    RegisteredFiled(b, lo, hi, lo', hi', entry);
    hide BucketKey, Line, Filed;
    assert Minute(b', key) == minute;
    Inserted(Line(b, lo', key), Minute(b, key), entry, Line(b, key + 1, hi'));
  }

  lemma RegisteredFiled(b: Buckets, lo: int, hi: int, lo': int, hi': int, entry: ExpiryEntry)
    requires Filed(b, lo, hi)
    requires var key := BucketKey(entry.expireAt); lo' <= lo && lo' <= key < hi' && hi <= hi'
    ensures Filed(b[BucketKey(entry.expireAt) := Minute(b, BucketKey(entry.expireAt)) + [entry]], lo', hi')
  {
    hide BucketKey;
  }

  lemma Inserted(before: seq<ExpiryEntry>, minute: seq<ExpiryEntry>, entry: ExpiryEntry, after: seq<ExpiryEntry>)
    ensures multiset(before + (minute + [entry]) + after) == multiset(before + minute + after) + multiset{entry}
    ensures |before + (minute + [entry]) + after| == |before + minute + after| + 1
  {
  }

  /** What one critical section makes of the buckets: of the first `n` entries of the
      least minute, those that must wait go behind the others and the rest leave. */
  ghost predicate Takes(b: Buckets, b': Buckets, key: int, n: nat, now: int) {
    && key in b && (forall other :: other in b ==> key <= other)
    && n <= |b[key]|
    && b' == var rest := b[key][n..] + Deferred(b[key][..n], now);
             if rest == [] then b - {key} else b[key := rest]
  }

  /** The same, as seen from any stretch of the line that starts at or before it. */
  lemma TakesLine(b: Buckets, b': Buckets, lo: int, key: int, hi: int, n: nat, now: int)
    requires Takes(b, b', key, n, now) && lo <= key < hi
    ensures Line(b, lo, hi) == b[key] + Line(b, key + 1, hi)
    ensures Line(b', lo, hi) == b[key][n..] + Deferred(b[key][..n], now) + Line(b, key + 1, hi)
    ensures forall other :: other != key ==> Minute(b', other) == Minute(b, other)
  {
    hide Deferred;
    LineFirst(b, lo, key, hi);
    LineReplaced(b, b', lo, key, hi);
    LineEmpty(b, lo, key);
    assert [] + Minute(b', key) == Minute(b', key);
  }

  lemma TakesFiled(b: Buckets, b': Buckets, key: int, n: nat, now: int, lo: int, hi: int)
    requires Takes(b, b', key, n, now) && Filed(b, lo, hi)
    ensures Filed(b', lo, hi)
    ensures |Line(b', lo, hi)| == |Line(b, lo, hi)| - |DueOf(b[key][..n], now)|
  {
    TakesLine(b, b', lo, key, hi, n, now);
    DuePartition(b[key][..n], now);
    hide Line, DueOf;
    TakesFiledOnly(b, b', key, n, now, lo, hi);
  }

  lemma TakesFiledOnly(b: Buckets, b': Buckets, key: int, n: nat, now: int, lo: int, hi: int)
    requires Takes(b, b', key, n, now) && Filed(b, lo, hi)
    ensures Filed(b', lo, hi)
  {
    DueExpired(b[key][..n], now);
    var rest := b[key][n..] + Deferred(b[key][..n], now);
    assert forall e :: e in b[key] ==> BucketKey(e.expireAt) == key;
    hide Deferred, BucketKey;
    assert forall e :: e in rest ==> e in b[key];
    assert forall i :: 0 <= i < |rest| ==> rest[i] in rest;
  }

  // ---------- Where a round stands ----------

  /** After examining the first `n` of the entries `line` that stood in line. */
  ghost predicate At(b0: Buckets, b: Buckets, lo: int, hi: int, now: int, line: seq<ExpiryEntry>, n: nat) {
    && Filed(b, lo, hi) && n <= |line|
    && Line(b, lo, BucketKey(now) + 1) == line[n..] + Deferred(line[..n], now)
    && (forall key :: key > BucketKey(now) ==> Minute(b, key) == Minute(b0, key))
  }

  /** The bucket a round is working on and how many of its first entries it has still to
      examine. Only the current minute can hold deferred entries. */
  datatype Active = Active(key: int, remaining: nat)

  ghost predicate Working(b: Buckets, now: int, line: seq<ExpiryEntry>, n: nat, active: Option<Active>)
    requires n <= |line|
  {
    var waiting := Deferred(line[..n], now);
    match active
    case None => waiting == []
    case Some(Active(key, remaining)) =>
      && key in b && key <= BucketKey(now) && (forall other :: other in b ==> key <= other)
      && 0 < remaining && n + remaining <= |line| && |b[key]| == remaining + |waiting|
      && (key < BucketKey(now) ==> waiting == [])
  }

  lemma BeginBucket(b0: Buckets, b: Buckets, lo: int, hi: int, now: int, line: seq<ExpiryEntry>, n: nat,
                    active: Option<Active>, key: int)
    requires At(b0, b, lo, hi, now, line, n) && Working(b, now, line, n, active)
    requires active.None? || active.value.key != key
    requires key in b && key <= BucketKey(now) && (forall other :: other in b ==> key <= other)
    ensures Working(b, now, line, n, Some(Active(key, |b[key]|)))
  {
    hide BucketKey, Deferred;
    assert active.None?;
    LineFirst(b, lo, key, BucketKey(now) + 1);
  }

  lemma MinuteDue(entries: seq<ExpiryEntry>, now: int)
    requires forall i :: 0 <= i < |entries| ==> BucketKey(entries[i].expireAt) < BucketKey(now)
    ensures Deferred(entries, now) == []
  {
    forall i | 0 <= i < |entries|
      ensures entries[i].expireAt <= now
    {
      BucketKeyMonotone(entries[i].expireAt, now);
    }
    AllDue(entries, now);
  }

  /** Sequences only: examining `m` more entries of the first bucket moves the whole line
      on, provided that bucket is the last one or defers nothing. */
  lemma Rotated(line: seq<ExpiryEntry>, n: nat, m: nat, bucket: seq<ExpiryEntry>, others: seq<ExpiryEntry>, now: int)
    requires n + m <= |line| && m <= |bucket|
    requires bucket + others == line[n..] + Deferred(line[..n], now)
    requires others == [] || Deferred(bucket[..m], now) == []
    ensures bucket[..m] == line[n..n + m]
    ensures Deferred(line[..n + m], now) == Deferred(line[..n], now) + Deferred(bucket[..m], now)
    ensures DueOf(line[..n + m], now) == DueOf(line[..n], now) + DueOf(bucket[..m], now)
    ensures bucket[m..] + Deferred(bucket[..m], now) + others == line[n + m..] + Deferred(line[..n + m], now)
  {
    hide DueOf, Deferred;
    assert bucket[..m] == (bucket + others)[..m] == line[n..n + m];
    assert line[..n + m] == line[..n] + line[n..n + m];
    DueAppend(line[..n], bucket[..m], now);
    var waiting, more := Deferred(line[..n], now), Deferred(bucket[..m], now);
    assert bucket[m..] + others == (bucket + others)[m..] == line[n + m..] + waiting;
    if others == [] {
      assert bucket[m..] == line[n + m..] + waiting;
      assert bucket[m..] + more + others == line[n + m..] + (waiting + more);
    } else {
      assert bucket[m..] + more + others == bucket[m..] + others;
      assert waiting + more == waiting;
    }
  }

  lemma TakeAt(b0: Buckets, b: Buckets, b': Buckets, lo: int, hi: int, now: int, line: seq<ExpiryEntry>, n: nat,
               active: Active, m: nat)
    requires At(b0, b, lo, hi, now, line, n) && Working(b, now, line, n, Some(active))
    requires m <= active.remaining && Takes(b, b', active.key, m, now)
    ensures n + m <= |line| && b[active.key][..m] == line[n..n + m]
    ensures Deferred(line[..n + m], now) == Deferred(line[..n], now) + Deferred(b[active.key][..m], now)
    ensures DueOf(line[..n + m], now) == DueOf(line[..n], now) + DueOf(b[active.key][..m], now)
    ensures At(b0, b', lo, hi, now, line, n + m)
    ensures active.key < BucketKey(now) ==> Deferred(b[active.key][..m], now) == []
  {
    var key, cut := active.key, BucketKey(now) + 1;
    TakesFiledOnly(b, b', key, m, now, lo, hi);
    TakesLine(b, b', lo, key, cut, m, now);
    if key < BucketKey(now) {
      TakenDue(b, key, m, now, lo, hi);
    }
    hide DueOf, Deferred, BucketKey, Filed, Takes;
    assert key + 1 == cut ==> Line(b, key + 1, cut) == [];
    hide Line;
    Rotated(line, n, m, b[key], Line(b, key + 1, cut), now);
  }

  lemma TakenDue(b: Buckets, key: int, m: nat, now: int, lo: int, hi: int)
    requires Filed(b, lo, hi) && key in b && m <= |b[key]| && key < BucketKey(now)
    ensures Deferred(b[key][..m], now) == []
  {
    MinuteDue(b[key][..m], now);
  }

  /** One batch keeps the round where the specification says; a bucket that remains with
      nothing left to examine is the current minute, and then everything was examined. */
  lemma TakeStep(b0: Buckets, b: Buckets, b': Buckets, lo: int, hi: int, now: int, line: seq<ExpiryEntry>, n: nat,
                 active: Active, m: nat)
    requires At(b0, b, lo, hi, now, line, n) && Working(b, now, line, n, Some(active))
    requires 0 < m <= active.remaining && Takes(b, b', active.key, m, now)
    ensures n + m <= |line|
    ensures At(b0, b', lo, hi, now, line, n + m)
    ensures DueOf(line[..n + m], now) == DueOf(line[..n], now) + DueOf(b[active.key][..m], now)
    ensures active.key !in b' ==> Working(b', now, line, n + m, None)
    ensures active.key in b' && m < active.remaining ==>
      Working(b', now, line, n + m, Some(Active(active.key, active.remaining - m)))
    ensures active.key in b' && m == active.remaining ==> n + m == |line|
  {
    TakeAt(b0, b, b', lo, hi, now, line, n, active, m);
    var key := active.key;
    hide DueOf, Deferred, BucketKey, Filed;
    if key in b' && m == active.remaining {
      assert key == BucketKey(now);
      LineFirst(b', lo, key, BucketKey(now) + 1);
      assert Line(b', key + 1, BucketKey(now) + 1) == [];
    }
  }

  class ExpiryWheel {
    var buckets: Buckets
    var keys: seq<int>
    var pendingEntries: int
    const maxEntriesPerRun: nat
    var lastProcessedBucket: int
    var hasProcessedBucket: bool
    ghost var floor: int
    ghost var ceiling: int

    ghost predicate Valid()
      reads this
    {
      && floor <= ceiling && Filed(buckets, floor, ceiling) && Indexed(keys, buckets)
      && pendingEntries == |Line(buckets, floor, ceiling)|
      && maxEntriesPerRun > 0
    }

    /** Everything in the wheel, minute by minute. */
    ghost function Contents(): seq<ExpiryEntry>
      reads this
    {
      Line(buckets, floor, ceiling)
    }

    /** The entries filed under the minute of `now` or an earlier one. */
    ghost function Due(now: int): seq<ExpiryEntry>
      reads this
    {
      Line(buckets, floor, BucketKey(now) + 1)
    }

    constructor (maxEntriesPerRun: nat)
      ensures Valid() && Contents() == []
      ensures this.maxEntriesPerRun == if maxEntriesPerRun == 0 then DEFAULT_MAX_ENTRIES_PER_RUN else maxEntriesPerRun
    {
      this.maxEntriesPerRun := if maxEntriesPerRun == 0 then DEFAULT_MAX_ENTRIES_PER_RUN else maxEntriesPerRun;
      buckets, keys, pendingEntries := map[], [], 0;
      lastProcessedBucket, hasProcessedBucket := 0, false;
      floor, ceiling := 0, 0;
    }

    /** Appends every entry to its minute. */
    method RegisterExpiry(entries: seq<ExpiryEntry>)
      requires Valid()
      modifies this`buckets, this`keys, this`pendingEntries, this`floor, this`ceiling
      ensures Valid()
      ensures multiset(Contents()) == old(multiset(Contents())) + multiset(entries)
      ensures Appended(old(buckets), buckets, entries)
    {
      hide Valid, Contents, Appended, BucketKey;
      var i := 0;
      assert entries[..0] == [];
      AppendedNothing(buckets);
      while i < |entries|
        invariant i <= |entries|
        invariant Valid()
        invariant multiset(Contents()) == old(multiset(Contents())) + multiset(entries[..i])
        invariant Appended(old(buckets), buckets, entries[..i])
      {
        assert entries[..i + 1] == entries[..i] + [entries[i]];
        ghost var before := buckets;
        RegisterOne(entries[i]);
        AppendedOne(old(buckets), before, entries[..i], entries[i]);
        i := i + 1;
      }
      assert entries[..|entries|] == entries;
    }

    method RegisterOne(entry: ExpiryEntry)
      requires Valid()
      modifies this`buckets, this`keys, this`pendingEntries, this`floor, this`ceiling
      ensures Valid()
      ensures multiset(Contents()) == old(multiset(Contents())) + multiset{entry}
      ensures buckets == var key := BucketKey(entry.expireAt);
                         old(buckets)[key := Minute(old(buckets), key) + [entry]]
    {
      hide Filed, Indexed, BucketKey, Line;
      var key := BucketKey(entry.expireAt);
      ghost var lo, hi := Min(floor, key), Max(ceiling, key + 1);
      Registered(buckets, floor, ceiling, lo, hi, entry);
      if key !in buckets {
        IsHeap(keys, buckets);
        var pushed := Heaps.Push(keys, NotLater, key);
        IndexedPush(keys, buckets, pushed, key, []);
        keys := pushed;
        buckets := buckets[key := []];
      }
      IndexedSame(keys, buckets, key, buckets[key] + [entry]);
      buckets := buckets[key := buckets[key] + [entry]];
      assert buckets == old(buckets)[key := Minute(old(buckets), key) + [entry]];
      pendingEntries := pendingEntries + 1;
      floor, ceiling := lo, hi;
    }

    /** One critical section of a round: examines the first entries of the least minute.
        Candidates leave the wheel here, before the store is asked to delete them. */
    method TakeBatch(key: int, batchSize: nat, now: int) returns (candidates: seq<VersionedItem>, removed: bool)
      requires Valid() && keys != [] && key == keys[0]
      requires key in buckets ==> batchSize <= |buckets[key]|
      modifies this`buckets, this`keys, this`pendingEntries
      ensures Valid()
      ensures Takes(old(buckets), buckets, key, batchSize, now)
      ensures candidates == ItemsOf(DueOf(old(buckets)[key][..batchSize], now))
      ensures removed <==> key !in buckets
      ensures removed ==> |buckets| == |old(buckets)| - 1
      ensures !removed ==> |buckets| == |old(buckets)|
    {
      hide Line, Filed, DueOf, Deferred, BucketKey, ItemsOf;
      IndexedRoot(keys, buckets);
      var deferred;
      candidates, deferred := Sift(buckets[key][..batchSize], now);
      var entries := buckets[key][batchSize..] + deferred;
      removed := entries == [];
      ghost var next := if entries == [] then buckets - {key} else buckets[key := entries];
      TakesFiled(buckets, next, key, batchSize, now, floor, ceiling);
      pendingEntries := pendingEntries - |candidates|;
      if removed {
        var popped := Heaps.Pop(keys, NotLater) by { IsHeap(keys, buckets); }
        IndexedPop(keys, buckets, popped, key);
        keys := popped;
        buckets := buckets - {key};
      } else {
        IndexedSame(keys, buckets, key, entries);
        buckets := buckets[key := entries];
      }
      IndexedRoot(keys, buckets);
    }

    /** The least minute, if it is not after `currentKey`. The source also drops empty
        buckets it meets here; none exists in a valid wheel. */
    method FirstDueBucket(currentKey: int) returns (key: Option<int>)
      requires Valid()
      ensures key.Some? ==> keys != [] && key.value == keys[0] && key.value in buckets && key.value <= currentKey
      ensures key.Some? ==> forall other :: other in buckets ==> key.value <= other
      ensures key.None? ==> forall other :: other in buckets ==> other > currentKey
    {
      IndexedRoot(keys, buckets);
      if keys == [] || keys[0] > currentKey {
        return None;
      }
      return Some(keys[0]);
    }

    /** One cleanup round. It examines the entries of the minutes up to `now` in order,
        within the budget, and hands the expired ones to the store, batch by batch. */
    method ExpireDue(now: int, store: ValueCache) returns (result: ExpiryResult)
      requires Valid() && store.Valid()
      modifies this`buckets, this`keys, this`pendingEntries, this`lastProcessedBucket, this`hasProcessedBucket
      modifies store`flat, store`entries, store`contents, store.shards
      ensures Valid() && store.Valid()
      ensures Round(old(buckets), buckets, floor, ceiling, now, maxEntriesPerRun)
      ensures HandedOver(result, old(store.flat), Handed(old(buckets), floor, now, maxEntriesPerRun), store.flat,
                         store.missThreshold)
      ensures result.processed == Examined(maxEntriesPerRun, |old(Due(now))|)
      ensures result.limited <==> result.processed == maxEntriesPerRun && Due(now) != []
      ensures result.completedBuckets == |old(buckets)| - |buckets|
      ensures result.pendingEntries == |Contents()| && result.pendingBuckets == |buckets|
      ensures hasProcessedBucket && result.lastProcessedBucket == lastProcessedBucket
      ensures Remembered(buckets, BucketKey(now), old(hasProcessedBucket), old(lastProcessedBucket),
                         lastProcessedBucket)
      ensures LagOf(buckets, now, result.cleanupLag)
    {
      hide Filed, Indexed, Line, BucketKey, HandedTo, Round, Handed, ExpiryWheel.Valid, ValueCache.Valid, LagOf;
      var processed, completed, deleted, stale, notFound := Drain(now, store);
      IsFiled();
      var due := FirstDueBucket(BucketKey(now));
      DueIffBucket(buckets, floor, ceiling, BucketKey(now));
      UpdateLastProcessed(BucketKey(now));
      var lag := CleanupLag(now);
      result := ExpiryResult(processed, completed, deleted, stale, notFound,
                             processed == maxEntriesPerRun && due.Some?, pendingEntries, |buckets|, lag,
                             lastProcessedBucket);
    }

    /** The loop of a round: one batch of one minute at a time, until the budget is used
        up, nothing is due, or the current minute has been examined once. */
    method Drain(now: int, store: ValueCache)
      returns (processed: nat, completed: int, deleted: nat, stale: nat, notFound: nat)
      requires Valid() && store.Valid()
      modifies this`buckets, this`keys, this`pendingEntries
      modifies store`flat, store`entries, store`contents, store.shards
      ensures Valid() && store.Valid()
      ensures Round(old(buckets), buckets, floor, ceiling, now, maxEntriesPerRun)
      ensures HandedTo(old(store.flat), Handed(old(buckets), floor, now, maxEntriesPerRun), store.flat,
                       deleted, stale, notFound, store.missThreshold)
      ensures processed == Examined(maxEntriesPerRun, |old(Due(now))|)
      ensures completed == |old(buckets)| - |buckets|
    {
      hide Filed, Indexed, Line, DueOf, Deferred, BucketKey, ItemsOf, Takes, At, Working, HandedTo, Round, Handed,
        ExpiryWheel.Valid, ValueCache.Valid;
      ghost var line, b0, flat0 := Due(now), buckets, store.flat;
      processed, completed, deleted, stale, notFound := 0, 0, 0, 0, 0;
      var active: Option<Active> := None;
      IsFiled();
      RoundStart(buckets, floor, ceiling, now, line, store.flat, store.missThreshold);
      while processed < maxEntriesPerRun
        invariant Valid() && store.Valid()
        invariant processed <= maxEntriesPerRun && processed <= |line|
        invariant completed == |b0| - |buckets|
        invariant At(b0, buckets, floor, ceiling, now, line, processed)
        invariant Working(buckets, now, line, processed, active)
        invariant HandedTo(flat0, DueOf(line[..processed], now), store.flat, deleted, stale, notFound,
                           store.missThreshold)
        decreases maxEntriesPerRun - processed
      {
        var first := FirstDueBucket(BucketKey(now));
        if first.None? {
          NothingDue(b0, buckets, floor, ceiling, now, line, processed);
          break;
        }
        var key := first.value;
        if active.None? || active.value.key != key {
          BeginBucket(b0, buckets, floor, ceiling, now, line, processed, active, key);
          active := Some(Active(key, |buckets[key]|));
        }
        var batchSize, removed;
        batchSize, removed, deleted, stale, notFound :=
          ExpireBatch(now, store, active.value, processed, deleted, stale, notFound, line, b0, flat0);
        processed := processed + batchSize;
        if removed {
          completed := completed + 1;
          active := None;
          continue;
        }
        if active.value.remaining == batchSize {
          break;
        }
        active := Some(Active(key, active.value.remaining - batchSize));
      }
      RoundEnd(b0, buckets, floor, ceiling, now, line, processed, maxEntriesPerRun);
    }

    /** One batch: a critical section of the wheel, then the deletion without its lock. */
    method ExpireBatch(now: int, store: ValueCache, active: Active, processed: nat, deleted: nat, stale: nat,
                       notFound: nat, ghost line: seq<ExpiryEntry>, ghost b0: Buckets, ghost flat0: Flat)
      returns (batchSize: nat, removed: bool, deleted': nat, stale': nat, notFound': nat)
      requires Valid() && store.Valid()
      requires processed < maxEntriesPerRun && processed <= |line|
      requires keys != [] && active.key == keys[0]
      requires At(b0, buckets, floor, ceiling, now, line, processed)
      requires Working(buckets, now, line, processed, Some(active))
      requires HandedTo(flat0, DueOf(line[..processed], now), store.flat, deleted, stale, notFound, store.missThreshold)
      modifies this`buckets, this`keys, this`pendingEntries
      modifies store`flat, store`entries, store`contents, store.shards
      ensures Valid() && store.Valid()
      ensures 0 < batchSize <= active.remaining && processed + batchSize <= maxEntriesPerRun
      ensures processed + batchSize <= |line|
      ensures |buckets| == |old(buckets)| - (if removed then 1 else 0)
      ensures At(b0, buckets, floor, ceiling, now, line, processed + batchSize)
      ensures removed ==> Working(buckets, now, line, processed + batchSize, None)
      ensures !removed && batchSize < active.remaining ==>
        Working(buckets, now, line, processed + batchSize, Some(Active(active.key, active.remaining - batchSize)))
      ensures !removed && batchSize == active.remaining ==> processed + batchSize == |line|
      ensures HandedTo(flat0, DueOf(line[..processed + batchSize], now), store.flat, deleted', stale', notFound',
                       store.missThreshold)
    {
      hide Filed, Indexed, Line, DueOf, Deferred, BucketKey, ItemsOf, Takes, At, Working, HandedTo,
        ExpiryWheel.Valid, ValueCache.Valid;
      ActiveBounds(buckets, now, line, processed, active);
      batchSize := BatchSize(active, |buckets[active.key]|, maxEntriesPerRun - processed);
      ghost var before, more := buckets, DueOf(buckets[active.key][..batchSize], now);
      var candidates;
      candidates, removed := TakeBatch(active.key, batchSize, now);
      TakeStep(b0, before, buckets, floor, ceiling, now, line, processed, active, batchSize);
      deleted', stale', notFound' :=
        HandOver(candidates, store, deleted, stale, notFound, flat0, DueOf(line[..processed], now), more);
    }

    lemma IsFiled()
      requires Valid()
      ensures Filed(buckets, floor, ceiling) && maxEntriesPerRun > 0
      ensures pendingEntries == |Contents()|
    {
    }

    /** Remembers the last minute, up to the current one, through which nothing is pending,
        unless a later one is remembered already. */
    method UpdateLastProcessed(currentKey: int)
      requires Valid()
      modifies this`lastProcessedBucket, this`hasProcessedBucket
      ensures Valid() && hasProcessedBucket
      ensures Remembered(buckets, currentKey, old(hasProcessedBucket), old(lastProcessedBucket), lastProcessedBucket)
    {
      IndexedRoot(keys, buckets);
      var processedThrough := currentKey;
      if keys != [] && keys[0] <= currentKey {
        processedThrough := keys[0] - 1;
      }
      if !hasProcessedBucket || processedThrough > lastProcessedBucket {
        lastProcessedBucket, hasProcessedBucket := processedThrough, true;
      }
      assert ProcessedThrough(buckets, currentKey, processedThrough);
    }

    method CleanupLag(now: int) returns (lag: int)
      requires Valid()
      ensures LagOf(buckets, now, lag)
    {
      IndexedRoot(keys, buckets);
      if keys == [] {
        return 0;
      }
      var oldestCompleteBucketEnd := (keys[0] + 1) * BUCKET_SECONDS * SECOND;
      if now <= oldestCompleteBucketEnd {
        return 0;
      }
      return now - oldestCompleteBucketEnd;
    }
  }

  /** The last minute up to the current one with nothing pending at or before it. */
  ghost predicate ProcessedThrough(b: Buckets, currentKey: int, through: int) {
    && through <= currentKey
    && (forall key :: key in b ==> key > through)
    && (through < currentKey ==> through + 1 in b)
  }

  /** That minute is remembered unless a later one was already. */
  ghost predicate Remembered(b: Buckets, currentKey: int, had: bool, before: int, after: int) {
    exists through ::
      && ProcessedThrough(b, currentKey, through)
      && after == if had then Max(before, through) else through
  }

  /** How long the oldest pending minute has been overdue: every pending minute bounds it
      and one of them reaches it, unless none is overdue. */
  ghost predicate LagOf(b: Buckets, now: int, lag: int) {
    && lag >= 0
    && (forall key :: key in b ==> now - (key + 1) * BUCKET_SECONDS * SECOND <= lag)
    && (lag > 0 ==> exists key :: key in b && lag == now - (key + 1) * BUCKET_SECONDS * SECOND)
  }

  /** The counters of a round are those of deleting the handed entries in order. */
  ghost predicate HandedTo(flat0: Flat, entries: seq<ExpiryEntry>, flat: Flat, deleted: nat, stale: nat, notFound: nat,
                           threshold: nat)
  {
    var expected := AfterDeleting(flat0, entries, threshold);
    && flat == expected.flat && deleted == expected.tally.applied
    && stale == expected.tally.stale && notFound == expected.tally.notFound
  }

  ghost predicate HandedOver(result: ExpiryResult, flat0: Flat, entries: seq<ExpiryEntry>, flat: Flat, threshold: nat) {
    HandedTo(flat0, entries, flat, result.deleted, result.stale, result.notFound, threshold)
  }

  lemma RoundStart(b: Buckets, lo: int, hi: int, now: int, line: seq<ExpiryEntry>, flat: Flat, threshold: nat)
    requires Filed(b, lo, hi) && line == Line(b, lo, BucketKey(now) + 1)
    ensures At(b, b, lo, hi, now, line, 0) && Working(b, now, line, 0, None)
    ensures HandedTo(flat, DueOf(line[..0], now), flat, 0, 0, 0, threshold)
  {
    assert line[..0] == [];
    assert line[0..] + [] == line;
  }

  /** Gives a batch of candidates to the store, with no wheel lock held. */
  method HandOver(candidates: seq<VersionedItem>, store: ValueCache, deleted: nat, stale: nat, notFound: nat,
                  ghost flat0: Flat, ghost done: seq<ExpiryEntry>, ghost more: seq<ExpiryEntry>)
    returns (deleted': nat, stale': nat, notFound': nat)
    requires store.Valid() && candidates == ItemsOf(more)
    requires HandedTo(flat0, done, store.flat, deleted, stale, notFound, store.missThreshold)
    modifies store`flat, store`entries, store`contents, store.shards
    ensures store.Valid()
    ensures HandedTo(flat0, done + more, store.flat, deleted', stale', notFound', store.missThreshold)
  {
    hide ValueCache.Valid, Processed, ItemsOf;
    DeletingAppend(flat0, done, more, store.missThreshold);
    deleted', stale', notFound' := deleted, stale, notFound;
    if |candidates| != 0 {
      var counts := store.DeleteVersioned(candidates);
      deleted', stale', notFound' := deleted + counts.deleted, stale + counts.stale, notFound + counts.notFound;
    } else {
      DeletingNothing(store.flat, store.missThreshold);
      assert more == [];
    }
  }

  lemma RoundEnd(b0: Buckets, b: Buckets, lo: int, hi: int, now: int, line: seq<ExpiryEntry>, n: nat, budget: nat)
    requires Filed(b0, lo, hi) && line == Line(b0, lo, BucketKey(now) + 1)
    requires At(b0, b, lo, hi, now, line, n) && n <= budget && (n < budget ==> n == |line|)
    ensures Round(b0, b, lo, hi, now, budget)
    ensures n == Examined(budget, |line|)
    ensures Handed(b0, lo, now, budget) == DueOf(line[..n], now)
  {
  }

  lemma DueIffBucket(b: Buckets, lo: int, hi: int, currentKey: int)
    requires Filed(b, lo, hi)
    ensures Line(b, lo, currentKey + 1) != [] <==> exists key :: key in b && key <= currentKey
  {
    if key :| key in b && key <= currentKey {
      LineAround(b, lo, key, currentKey + 1);
    } else {
      LineEmpty(b, lo, currentKey + 1);
    }
  }

  lemma NothingDue(b0: Buckets, b: Buckets, lo: int, hi: int, now: int, line: seq<ExpiryEntry>, n: nat)
    requires At(b0, b, lo, hi, now, line, n)
    requires forall key :: key in b ==> key > BucketKey(now)
    ensures n == |line| && Line(b, lo, BucketKey(now) + 1) == []
  {
    LineEmpty(b, lo, BucketKey(now) + 1);
  }

  lemma ActiveBounds(b: Buckets, now: int, line: seq<ExpiryEntry>, n: nat, active: Active)
    requires n <= |line| && Working(b, now, line, n, Some(active))
    ensures active.key in b && 0 < active.remaining <= |b[active.key]|
  {
  }

  /** How many entries the next batch examines. The source removes a bucket that has
      nothing left to examine and goes round again; that cannot happen, since an active
      bucket always has something left. */
  method BatchSize(active: Active, length: nat, budget: nat) returns (batchSize: nat)
    requires 0 < active.remaining <= length && budget > 0
    ensures 0 < batchSize <= active.remaining && batchSize <= budget && batchSize <= DELETE_BATCH_SIZE
    ensures batchSize == active.remaining || batchSize == budget || batchSize == DELETE_BATCH_SIZE
  {
    batchSize := active.remaining;
    if batchSize > budget {
      batchSize := budget;
    }
    if batchSize > DELETE_BATCH_SIZE {
      batchSize := DELETE_BATCH_SIZE;
    }
    if batchSize > length {
      batchSize := length;
    }
  }

  /** Every minute received the entries that belong to it, at its end and in order. */
  ghost predicate Appended(b: Buckets, b': Buckets, entries: seq<ExpiryEntry>) {
    forall key :: Minute(b', key) == Minute(b, key) + FiledUnder(entries, key)
  }

  lemma AppendedNothing(b: Buckets)
    ensures Appended(b, b, [])
  {
    forall key: int
      ensures Minute(b, key) == Minute(b, key) + FiledUnder([], key)
    {
    }
  }

  lemma AppendedOne(b: Buckets, b': Buckets, entries: seq<ExpiryEntry>, entry: ExpiryEntry)
    requires Appended(b, b', entries)
    ensures var key := BucketKey(entry.expireAt);
            Appended(b, b'[key := Minute(b', key) + [entry]], entries + [entry])
  {
    hide BucketKey, FiledUnder;
    var b'' := b'[BucketKey(entry.expireAt) := Minute(b', BucketKey(entry.expireAt)) + [entry]];
    forall key
      ensures Minute(b'', key) == Minute(b, key) + FiledUnder(entries + [entry], key)
    {
      FiledSnoc(entries, entry, key);
      assert Minute(b', key) == Minute(b, key) + FiledUnder(entries, key);
    }
  }

  lemma IsHeap(keys: seq<int>, b: Buckets)
    requires Indexed(keys, b)
    ensures Heaps.Heap(keys, NotLater) && Heaps.TotalOrder(NotLater)
  {
  }

  lemma IndexedSame(keys: seq<int>, b: Buckets, key: int, entries: seq<ExpiryEntry>)
    requires Indexed(keys, b) && key in b
    ensures Indexed(keys, b[key := entries])
  {
    assert b[key := entries].Keys == b.Keys;
  }

  /** The entries of a list that belong to one minute, in order. */
  function FiledUnder(entries: seq<ExpiryEntry>, key: int): seq<ExpiryEntry> {
    if entries == [] then
      []
    else
      var last := entries[|entries| - 1];
      FiledUnder(entries[..|entries| - 1], key) + (if BucketKey(last.expireAt) == key then [last] else [])
  }

  lemma FiledSnoc(entries: seq<ExpiryEntry>, last: ExpiryEntry, key: int)
    ensures FiledUnder(entries + [last], key) ==
      FiledUnder(entries, key) + (if BucketKey(last.expireAt) == key then [last] else [])
  {
    assert (entries + [last])[..|entries|] == entries;
  }
}

/** What ApplyBatch does to the cache, as values: which points of a response may be
    installed, what becomes of each, and the replay of a whole batch
    (internal/cache/value_cache.go, ApplyBatch). */
module Installs {
  import opened FlatCaches
  import opened Histories
  import opened MetadataStores
  import opened Options
  import opened Times
  import opened ValueStates

  /** A point that passed every check made outside the shard lock. */
  datatype Pending = Pending(
    itemID: string, value: real, clock: int, ns: int, delay: int, metadataVersion: nat, fetchedAt: int)

  datatype Verdict = Refused | Unchanged | Updated | Created

  /** Names one immutable generation of a state, for the expiry wheel. */
  datatype ExpiryEntry = ExpiryEntry(itemID: string, valueVersion: nat, expireAt: int)

  /** What happened to one pending point, and the version, publish slot and scan
      position it received if it was installed. */
  datatype Installation = Installation(
    pending: Pending, verdict: Verdict, version: nat, slot: nat, scanSequence: nat)

  function ItemOf(snapshot: Snapshot, id: string): Option<Versioned<ItemDefinition>> {
    if id in snapshot.items then snapshot.items[id] else None
  }

  predicate Collectable(snapshot: Snapshot, id: string) {
    var item := ItemOf(snapshot, id);
    && item.Some?
    && item.value.definition.enabled
    && item.value.definition.delay > 0
    && (item.value.definition.valueType == "0" || item.value.definition.valueType == "3")
  }

  predicate HasPoint(record: HistoryItem) {
    record.value.Some? && 0 <= record.ns < SECOND
  }

  function PendingOf(snapshot: Snapshot, id: string, record: HistoryItem, fetchedAt: int): Pending
    requires Collectable(snapshot, id) && HasPoint(record)
  {
    var item := ItemOf(snapshot, id).value;
    Pending(id, record.value.value, record.clock, record.ns, item.definition.delay, item.version, fetchedAt)
  }

  /** The points of a response that reach the shards, by item. */
  function Candidates(snapshot: Snapshot, latest: map<string, HistoryItem>, fetchedAt: int): map<string, Pending> {
    map id | id in latest && Collectable(snapshot, id) && HasPoint(latest[id]) ::
      PendingOf(snapshot, id, latest[id], fetchedAt)
  }

  predicate WellFormedPending(p: Pending) {
    p.delay > 0 && 0 <= p.ns < SECOND
  }

  /** The state a pending point becomes. */
  function InstalledState(p: Pending, version: nat, slot: nat, scanSequence: nat): ValueState {
    var source := p.clock * SECOND + p.ns;
    ValueState(p.itemID, p.value, source, p.ns, p.fetchedAt, p.fetchedAt, p.delay, ValueExpireAt(source, p.delay),
               0, p.metadataVersion, version, 0, ZERO_TIME, slot, PolicyForDelay(p.delay), true, scanSequence)
  }

  /** The decision under the shard lock. `current` is the answer to the metadata check
      made while the lock is held. */
  function VerdictFor(cell: Option<ValueState>, p: Pending, current: bool): Verdict {
    if !current then
      Refused
    else if cell.None? then
      Created
    else if cell.value.metadataVersion == p.metadataVersion && !SourceIsNewer(p.clock, p.ns, cell.value) then
      Unchanged
    else
      Updated
  }

  predicate Installing(verdict: Verdict) {
    verdict == Created || verdict == Updated
  }

  function Install(flat: Flat, e: Installation): Flat {
    var id := e.pending.itemID;
    match e.verdict
    case Refused => flat
    case Unchanged => if id in flat then flat[id := flat[id].(lastFetchAt := e.pending.fetchedAt)] else flat
    case _ => flat[id := InstalledState(e.pending, e.version, e.slot, e.scanSequence)]
  }

  /** Replaying a batch point by point. */
  function Replay(flat: Flat, log: seq<Installation>): Flat {
    if log == [] then flat else Install(Replay(flat, log[..|log| - 1]), log[|log| - 1])
  }

  function Count(log: seq<Installation>, verdict: Verdict): nat {
    if log == [] then
      0
    else
      Count(log[..|log| - 1], verdict) + (if log[|log| - 1].verdict == verdict then 1 else 0)
  }

  function InstallCount(log: seq<Installation>): nat {
    Count(log, Created) + Count(log, Updated)
  }

  function EntryOf(e: Installation): ExpiryEntry {
    ExpiryEntry(e.pending.itemID, e.version, ValueExpireAt(e.pending.clock * SECOND + e.pending.ns, e.pending.delay))
  }

  /** The wheel registrations a batch causes, in installation order. */
  function EntriesOf(log: seq<Installation>): seq<ExpiryEntry> {
    if log == [] then
      []
    else
      var last := log[|log| - 1];
      EntriesOf(log[..|log| - 1]) + (if Installing(last.verdict) then [EntryOf(last)] else [])
  }

  /** A step is justified by the state it finds: the verdict is the one the code reaches,
      a new state takes the next version, and a replacement keeps the scan position. */
  predicate Justified(flat: Flat, nextVersion: nat, e: Installation, current: string -> bool, slotOf: string -> nat) {
    var id := e.pending.itemID;
    && WellFormedPending(e.pending)
    && e.verdict == VerdictFor(Lookup(flat, id), e.pending, current(id))
    && (Installing(e.verdict) ==> e.version == nextVersion + 1 && e.slot == slotOf(id))
    && (e.verdict == Updated ==> e.scanSequence == flat[id].scanSequence)
  }

  ghost predicate JustifiedLog(flat: Flat, nextVersion: nat, log: seq<Installation>,
                               current: string -> bool, slotOf: string -> nat)
  {
    forall i :: 0 <= i < |log| ==>
      Justified(Replay(flat, log[..i]), nextVersion + InstallCount(log[..i]), log[i], current, slotOf)
  }

  predicate DistinctItems(log: seq<Installation>) {
    forall i, j :: 0 <= i < j < |log| ==> log[i].pending.itemID != log[j].pending.itemID
  }

  lemma LogSnoc(flat: Flat, nextVersion: nat, log: seq<Installation>, e: Installation,
                current: string -> bool, slotOf: string -> nat)
    requires JustifiedLog(flat, nextVersion, log, current, slotOf)
    requires Justified(Replay(flat, log), nextVersion + InstallCount(log), e, current, slotOf)
    ensures JustifiedLog(flat, nextVersion, log + [e], current, slotOf)
    ensures Replay(flat, log + [e]) == Install(Replay(flat, log), e)
    ensures InstallCount(log + [e]) == InstallCount(log) + (if Installing(e.verdict) then 1 else 0)
    ensures forall v :: Count(log + [e], v) == Count(log, v) + (if e.verdict == v then 1 else 0)
    ensures EntriesOf(log + [e]) == EntriesOf(log) + (if Installing(e.verdict) then [EntryOf(e)] else [])
  {
    var longer := log + [e];
    assert longer[..|log|] == log;
    forall i | 0 <= i < |longer|
      ensures Justified(Replay(flat, longer[..i]), nextVersion + InstallCount(longer[..i]), longer[i], current, slotOf)
    {
      assert longer[..i] == log[..i] || i == |log|;
    }
  }

  // ---------- What a batch does to each item ----------

  lemma EmptyLog(flat: Flat)
    ensures Replay(flat, []) == flat && InstallCount([]) == 0 && EntriesOf([]) == []
  {
  }

  /** Replaying two logs one after the other. */
  lemma {:induction false} ReplayAppend(flat: Flat, a: seq<Installation>, b: seq<Installation>)
    ensures Replay(flat, a + b) == Replay(Replay(flat, a), b)
    ensures InstallCount(a + b) == InstallCount(a) + InstallCount(b)
    decreases |b|
  {
    hide Install;
    if b == [] {
      assert a + b == a;
    } else {
      var n := |b| - 1;
      assert (a + b)[..|a + b| - 1] == a + b[..n];
      ReplayAppend(flat, a, b[..n]);
    }
  }

  lemma {:induction false} ReplayOthers(flat: Flat, log: seq<Installation>, id: string)
    requires forall i :: 0 <= i < |log| ==> log[i].pending.itemID != id
    ensures Lookup(Replay(flat, log), id) == Lookup(flat, id)
  {
    if log != [] {
      ReplayOthers(flat, log[..|log| - 1], id);
    }
  }

  lemma InstallOther(flat: Flat, e: Installation, id: string)
    requires e.pending.itemID != id
    ensures Lookup(Install(flat, e), id) == Lookup(flat, id)
  {
  }

  lemma InstallSame(a: Flat, b: Flat, e: Installation)
    requires Lookup(a, e.pending.itemID) == Lookup(b, e.pending.itemID)
    ensures Lookup(Install(a, e), e.pending.itemID) == Lookup(Install(b, e), e.pending.itemID)
  {
  }

  lemma LogPrefix(flat: Flat, nextVersion: nat, log: seq<Installation>,
                  current: string -> bool, slotOf: string -> nat, n: nat)
    requires JustifiedLog(flat, nextVersion, log, current, slotOf) && n <= |log|
    ensures JustifiedLog(flat, nextVersion, log[..n], current, slotOf)
  {
    hide Justified, Replay, InstallCount;
    var shorter := log[..n];
    forall j | 0 <= j < n
      ensures Justified(Replay(flat, shorter[..j]), nextVersion + InstallCount(shorter[..j]), shorter[j], current,
                        slotOf)
    {
      assert shorter[..j] == log[..j];
    }
  }

  /** Each item of a batch is decided by what the cache held before the batch, and ends
      up as that decision says, whatever the order of the batch. */
  lemma {:induction false} ReplayItem(flat: Flat, nextVersion: nat, log: seq<Installation>,
                                      current: string -> bool, slotOf: string -> nat, i: nat)
    requires JustifiedLog(flat, nextVersion, log, current, slotOf) && DistinctItems(log) && i < |log|
    ensures log[i].verdict == VerdictFor(Lookup(flat, log[i].pending.itemID), log[i].pending,
                                         current(log[i].pending.itemID))
    ensures Lookup(Replay(flat, log), log[i].pending.itemID) == Lookup(Install(flat, log[i]), log[i].pending.itemID)
  {
    hide Install, VerdictFor, JustifiedLog, Lookup;
    var id := log[i].pending.itemID;
    var n := |log| - 1;
    if i < n {
      LogPrefix(flat, nextVersion, log, current, slotOf, n);
      ReplayItem(flat, nextVersion, log[..n], current, slotOf, i);
      InstallOther(Replay(flat, log[..n]), log[n], id);
    } else {
      JustifiedVerdict(flat, nextVersion, log, current, slotOf, i);
      ReplayOthers(flat, log[..n], id);
      InstallSame(Replay(flat, log[..n]), flat, log[n]);
    }
  }

  /** A justified log is a justified shorter log and one justified step. */
  lemma LogLast(flat: Flat, nextVersion: nat, log: seq<Installation>, current: string -> bool, slotOf: string -> nat)
    requires JustifiedLog(flat, nextVersion, log, current, slotOf) && log != []
    ensures var n := |log| - 1;
            var before, count := Replay(flat, log[..n]), InstallCount(log[..n]);
            && JustifiedLog(flat, nextVersion, log[..n], current, slotOf)
            && Justified(before, nextVersion + count, log[n], current, slotOf)
            && Replay(flat, log) == Install(before, log[n])
            && InstallCount(log) == count + (if Installing(log[n].verdict) then 1 else 0)
            && EntriesOf(log) == EntriesOf(log[..n]) + (if Installing(log[n].verdict) then [EntryOf(log[n])] else [])
  {
    var n := |log| - 1;
    LogPrefix(flat, nextVersion, log, current, slotOf, n);
    LastJustified(flat, nextVersion, log, current, slotOf);
    hide JustifiedLog, Justified, Install, EntryOf;
  }

  lemma LastJustified(flat: Flat, nextVersion: nat, log: seq<Installation>, current: string -> bool,
                      slotOf: string -> nat)
    requires JustifiedLog(flat, nextVersion, log, current, slotOf) && log != []
    ensures var n := |log| - 1;
            Justified(Replay(flat, log[..n]), nextVersion + InstallCount(log[..n]), log[n], current, slotOf)
  {
    hide Justified, Replay, InstallCount;
  }

  lemma JustifiedVerdict(flat: Flat, nextVersion: nat, log: seq<Installation>,
                         current: string -> bool, slotOf: string -> nat, i: nat)
    requires JustifiedLog(flat, nextVersion, log, current, slotOf) && i < |log|
    ensures var id := log[i].pending.itemID;
            log[i].verdict == VerdictFor(Lookup(Replay(flat, log[..i]), id), log[i].pending, current(id))
  {
    hide Replay, VerdictFor, InstallCount, Lookup;
    assert Justified(Replay(flat, log[..i]), nextVersion + InstallCount(log[..i]), log[i], current, slotOf);
  }

  lemma {:induction false} CountMonotone(log: seq<Installation>, i: nat)
    requires i <= |log|
    ensures InstallCount(log[..i]) <= InstallCount(log)
    decreases |log|
  {
    if i < |log| {
      CountMonotone(log[..|log| - 1], i);
      assert log[..|log| - 1][..i] == log[..i];
    } else {
      assert log[..i] == log;
    }
  }

  lemma InstalledVersion(flat: Flat, nextVersion: nat, log: seq<Installation>,
                         current: string -> bool, slotOf: string -> nat, i: nat)
    requires JustifiedLog(flat, nextVersion, log, current, slotOf)
    requires i < |log| && Installing(log[i].verdict)
    ensures log[i].version == nextVersion + InstallCount(log[..i + 1])
    ensures InstallCount(log[..i]) < InstallCount(log[..i + 1]) <= InstallCount(log)
  {
    assert Justified(Replay(flat, log[..i]), nextVersion + InstallCount(log[..i]), log[i], current, slotOf);
    hide Replay, Justified;
    assert log[..i + 1][..i] == log[..i];
    CountMonotone(log, i + 1);
  }

  /** Versions handed out by a batch are fresh and increase in installation order, so no
      two generations of any item ever share one. */
  lemma VersionsIncrease(flat: Flat, nextVersion: nat, log: seq<Installation>,
                         current: string -> bool, slotOf: string -> nat, i: nat, j: nat)
    requires JustifiedLog(flat, nextVersion, log, current, slotOf)
    requires i < j < |log| && Installing(log[i].verdict) && Installing(log[j].verdict)
    ensures nextVersion < log[i].version < log[j].version <= nextVersion + InstallCount(log)
  {
    hide JustifiedLog, InstallCount, Count;
    InstalledVersion(flat, nextVersion, log, current, slotOf, i);
    InstalledVersion(flat, nextVersion, log, current, slotOf, j);
    CountMonotone(log[..j], i + 1);
    assert log[..j][..i + 1] == log[..i + 1];
  }

  /** An installed point is what the cache then holds: the newest source point under its
      metadata version, valid, unpublished, and registered for its own expiry. */
  lemma InstalledNewer(flat: Flat, nextVersion: nat, log: seq<Installation>,
                       current: string -> bool, slotOf: string -> nat, i: nat)
    requires JustifiedLog(flat, nextVersion, log, current, slotOf) && DistinctItems(log) && i < |log|
    requires Installing(log[i].verdict)
    requires var id := log[i].pending.itemID; id in flat ==> Derived(flat[id])
    ensures var id := log[i].pending.itemID;
            && id in Replay(flat, log)
            && Replay(flat, log)[id] == InstalledState(log[i].pending, log[i].version, log[i].slot, log[i].scanSequence)
            && Derived(Replay(flat, log)[id])
            && EntryOf(log[i]) == ExpiryEntry(id, Replay(flat, log)[id].valueVersion, Replay(flat, log)[id].expireAt)
            && (id in flat && flat[id].metadataVersion == Replay(flat, log)[id].metadataVersion ==>
                  Replay(flat, log)[id].sourceTimestamp > flat[id].sourceTimestamp)
  {
    var p := log[i].pending;
    ReplayItem(flat, nextVersion, log, current, slotOf, i);
    assert WellFormedPending(p) by {
      assert Justified(Replay(flat, log[..i]), nextVersion + InstallCount(log[..i]), log[i], current, slotOf);
    }
    hide Replay, JustifiedLog;
    InstalledDerived(p, log[i].version, log[i].slot, log[i].scanSequence);
    if p.itemID in flat {
      NewerMeansLater(p.clock, p.ns, flat[p.itemID]);
    }
  }

  lemma InstalledDerived(p: Pending, version: nat, slot: nat, scanSequence: nat)
    requires WellFormedPending(p)
    ensures Derived(InstalledState(p, version, slot, scanSequence))
  {
    SecondsOfPoint(p.clock, p.ns);
  }

  lemma SecondsOfPoint(clock: int, ns: int)
    requires 0 <= ns < SECOND
    ensures UnixSeconds(clock * SECOND + ns) == clock
  {
  }

  // ---------- The bookkeeping of a batch ----------

  /** Counters and lists a batch accumulates while it goes through the shards. */
  datatype Progress = Progress(
    created: nat, updated: nat, kept: nat, skipped: nat, refused: set<string>, registered: seq<ExpiryEntry>)

  const NO_PROGRESS: Progress := Progress(0, 0, 0, 0, {}, [])

  function Advance(progress: Progress, id: string, verdict: Verdict, entry: Option<ExpiryEntry>): Progress {
    var registered := if entry.Some? then progress.registered + [entry.value] else progress.registered;
    match verdict
    case Refused => progress.(skipped := progress.skipped + 1, refused := progress.refused + {id})
    case Unchanged => progress.(kept := progress.kept + 1)
    case Updated => progress.(updated := progress.updated + 1, registered := registered)
    case Created => progress.(created := progress.created + 1, registered := registered)
  }

  /** The items whose point met a verdict. */
  function WithVerdict(log: seq<Installation>, verdict: Verdict): set<string> {
    set i | 0 <= i < |log| && log[i].verdict == verdict :: log[i].pending.itemID
  }

  function RefusedOf(log: seq<Installation>): set<string> {
    WithVerdict(log, Refused)
  }

  /** What the log says the bookkeeping must be. */
  function ProgressOf(log: seq<Installation>): Progress {
    Progress(Count(log, Created), Count(log, Updated), Count(log, Unchanged), Count(log, Refused),
             RefusedOf(log), EntriesOf(log))
  }

  function PendingsOf(log: seq<Installation>): (pendings: seq<Pending>)
    ensures |pendings| == |log|
  {
    seq(|log|, i requires 0 <= i < |log| => log[i].pending)
  }

  /** The cache stands where replaying the log leads. */
  ghost predicate Reached(start: Flat, startVersion: nat, log: seq<Installation>, flat: Flat, version: nat,
                          progress: Progress, current: string -> bool, slotOf: string -> nat)
  {
    && JustifiedLog(start, startVersion, log, current, slotOf)
    && flat == Replay(start, log)
    && version == startVersion + InstallCount(log)
    && progress == ProgressOf(log)
  }

  lemma ReachedStart(start: Flat, startVersion: nat, current: string -> bool, slotOf: string -> nat)
    ensures Reached(start, startVersion, [], start, startVersion, NO_PROGRESS, current, slotOf)
  {
  }

  lemma ReachedNext(start: Flat, startVersion: nat, log: seq<Installation>, flat: Flat, version: nat,
                    progress: Progress, current: string -> bool, slotOf: string -> nat, e: Installation)
    requires Reached(start, startVersion, log, flat, version, progress, current, slotOf)
    requires Justified(flat, version, e, current, slotOf)
    ensures Reached(start, startVersion, log + [e], Install(flat, e),
                    version + (if Installing(e.verdict) then 1 else 0),
                    Advance(progress, e.pending.itemID, e.verdict,
                            if Installing(e.verdict) then Some(EntryOf(e)) else None), current, slotOf)
    ensures PendingsOf(log + [e]) == PendingsOf(log) + [e.pending]
  {
    LogSnoc(start, startVersion, log, e, current, slotOf);
    hide JustifiedLog, Replay, ProgressOf, Justified, Install, InstallCount, Advance;
    ProgressSnoc(log, e);
  }

  lemma CountSnoc(log: seq<Installation>, e: Installation, verdict: Verdict)
    ensures Count(log + [e], verdict) == Count(log, verdict) + (if e.verdict == verdict then 1 else 0)
    ensures EntriesOf(log + [e]) == EntriesOf(log) + (if Installing(e.verdict) then [EntryOf(e)] else [])
  {
    assert (log + [e])[..|log|] == log;
  }

  lemma ProgressSnoc(log: seq<Installation>, e: Installation)
    ensures ProgressOf(log + [e]) == Advance(ProgressOf(log), e.pending.itemID, e.verdict,
                                             if Installing(e.verdict) then Some(EntryOf(e)) else None)
  {
    CountSnoc(log, e, Created);
    CountSnoc(log, e, Updated);
    CountSnoc(log, e, Unchanged);
    CountSnoc(log, e, Refused);
    RefusedSnoc(log, e);
    hide Count, EntriesOf, RefusedOf, EntryOf;
  }

  lemma RefusedSnoc(log: seq<Installation>, e: Installation)
    ensures RefusedOf(log + [e]) == RefusedOf(log) + (if e.verdict == Refused then {e.pending.itemID} else {})
  {
    var longer := log + [e];
    forall id | id in RefusedOf(log)
      ensures id in RefusedOf(longer)
    {
      var i :| 0 <= i < |log| && log[i].verdict == Refused && log[i].pending.itemID == id;
      assert longer[i] == log[i];
    }
    assert longer[|log|] == e;
  }

  /** A list holds exactly the points of `ids`, once each. */
  ghost predicate Enumerates(list: seq<Pending>, all: map<string, Pending>, ids: set<string>) {
    && (forall p :: p in list ==> p.itemID in ids && p.itemID in all && all[p.itemID] == p)
    && (forall id :: id in ids ==> id in all && all[id] in list)
    && (forall i, j :: 0 <= i < j < |list| ==> list[i].itemID != list[j].itemID)
  }

  lemma EnumeratesConcat(a: seq<Pending>, b: seq<Pending>, all: map<string, Pending>, idsA: set<string>,
                         idsB: set<string>)
    requires Enumerates(a, all, idsA) && Enumerates(b, all, idsB) && idsA !! idsB
    ensures Enumerates(a + b, all, idsA + idsB)
  {
    var list := a + b;
    forall i, j | 0 <= i < j < |list|
      ensures list[i].itemID != list[j].itemID
    {
      if i < |a| <= j {
        assert a[i] in a && b[j - |a|] in b;
      }
    }
    forall id | id in idsA + idsB
      ensures id in all && all[id] in list
    {
    }
  }

  lemma EnumeratesOne(p: Pending, all: map<string, Pending>)
    requires p.itemID in all && all[p.itemID] == p
    ensures Enumerates([p], all, {p.itemID})
  {
  }

  // ---------- Before the shards ----------

  ghost function InShard(all: map<string, Pending>, place: string -> nat, k: nat): set<string> {
    set id | id in all && place(id) == k
  }

  ghost function Uncollectable(snapshot: Snapshot, latest: map<string, HistoryItem>): set<string> {
    set id | id in latest && !Collectable(snapshot, id)
  }

  ghost function Unreadable(snapshot: Snapshot, latest: map<string, HistoryItem>): set<string> {
    set id | id in latest && Collectable(snapshot, id) && !HasPoint(latest[id])
  }

  /** Every bucket enumerates the candidates of its shard that have been dealt with. */
  ghost predicate AllEnumerated(buckets: seq<seq<Pending>>, all: map<string, Pending>, place: string -> nat,
                                done: set<string>)
  {
    forall k :: 0 <= k < |buckets| ==> Enumerates(buckets[k], all, InShard(all, place, k) * done)
  }

  lemma PlaceOne(buckets: seq<seq<Pending>>, all: map<string, Pending>, place: string -> nat,
                 done: set<string>, id: string)
    requires AllEnumerated(buckets, all, place, done) && id !in done && place(id) < |buckets|
    requires id in all ==> all[id].itemID == id
    ensures AllEnumerated(if id in all then buckets[place(id) := buckets[place(id)] + [all[id]]] else buckets,
                          all, place, done + {id})
  {
    hide Enumerates, InShard;
    var next := if id in all then buckets[place(id) := buckets[place(id)] + [all[id]]] else buckets;
    forall k | 0 <= k < |next|
      ensures Enumerates(next[k], all, InShard(all, place, k) * (done + {id}))
    {
      BucketStep(buckets[k], all, place, k, done, id);
    }
  }

  lemma BucketStep(bucket: seq<Pending>, all: map<string, Pending>, place: string -> nat, k: nat,
                   done: set<string>, id: string)
    requires Enumerates(bucket, all, InShard(all, place, k) * done) && id !in done
    requires id in all ==> all[id].itemID == id
    ensures Enumerates(if id in all && place(id) == k then bucket + [all[id]] else bucket, all,
                       InShard(all, place, k) * (done + {id}))
  {
    if id in all && place(id) == k {
      EnumeratesOne(all[id], all);
      EnumeratesConcat(bucket, [all[id]], all, InShard(all, place, k) * done, {id});
      assert InShard(all, place, k) * (done + {id}) == InShard(all, place, k) * done + {id};
    } else {
      assert InShard(all, place, k) * (done + {id}) == InShard(all, place, k) * done;
    }
  }

  lemma CountStep(members: set<string>, done: set<string>, id: string)
    requires id !in done
    ensures members * (done + {id}) == members * done + (if id in members then {id} else {})
    ensures |members * (done + {id})| == |members * done| + (if id in members then 1 else 0)
  {
    assert members * (done + {id}) == members * done + (if id in members then {id} else {});
  }

  /** The points of `done` have been sorted: into a bucket, skipped or rejected. */
  ghost predicate Dealt(snapshot: Snapshot, latest: map<string, HistoryItem>, fetchedAt: int, place: string -> nat,
                        buckets: seq<seq<Pending>>, skipped: nat, rejected: set<string>, done: set<string>)
  {
    && AllEnumerated(buckets, Candidates(snapshot, latest, fetchedAt), place, done)
    && skipped == |Uncollectable(snapshot, latest) * done|
    && rejected == Unreadable(snapshot, latest) * done
  }

  lemma DealOne(snapshot: Snapshot, latest: map<string, HistoryItem>, fetchedAt: int, place: string -> nat,
                buckets: seq<seq<Pending>>, skipped: nat, rejected: set<string>, done: set<string>, id: string)
    requires Dealt(snapshot, latest, fetchedAt, place, buckets, skipped, rejected, done)
    requires id in latest && id !in done && place(id) < |buckets|
    ensures !Collectable(snapshot, id) ==>
      Dealt(snapshot, latest, fetchedAt, place, buckets, skipped + 1, rejected, done + {id})
    ensures Collectable(snapshot, id) && !HasPoint(latest[id]) ==>
      Dealt(snapshot, latest, fetchedAt, place, buckets, skipped, rejected + {id}, done + {id})
    ensures Collectable(snapshot, id) && HasPoint(latest[id]) ==>
      Dealt(snapshot, latest, fetchedAt, place,
            buckets[place(id) := buckets[place(id)] + [PendingOf(snapshot, id, latest[id], fetchedAt)]],
            skipped, rejected, done + {id})
  {
    hide AllEnumerated, Collectable, HasPoint, Candidates, Uncollectable, Unreadable, PendingOf;
    Sorted(snapshot, latest, fetchedAt, id);
    PlaceOne(buckets, Candidates(snapshot, latest, fetchedAt), place, done, id);
    CountStep(Uncollectable(snapshot, latest), done, id);
    CountStep(Unreadable(snapshot, latest), done, id);
  }

  /** Sorts the points of a response into shard buckets. Points of items that are not
      collected are skipped; points without a usable value or time are rejected. */
  method Classify(snapshot: Snapshot, latest: map<string, HistoryItem>, fetchedAt: int,
                  place: string -> nat, shardCount: nat)
    returns (buckets: seq<seq<Pending>>, skipped: nat, rejected: set<string>)
    requires forall id :: place(id) < shardCount
    ensures |buckets| == shardCount
    ensures var all := Candidates(snapshot, latest, fetchedAt);
            forall k :: 0 <= k < shardCount ==> Enumerates(buckets[k], all, InShard(all, place, k))
    ensures skipped == |Uncollectable(snapshot, latest)|
    ensures rejected == Unreadable(snapshot, latest)
  {
    hide Dealt, Collectable, HasPoint, Candidates, Uncollectable, Unreadable, PendingOf, Enumerates, InShard;
    buckets, skipped, rejected := seq(shardCount, _ => []), 0, {};
    var remaining := latest.Keys;
    NothingDealt(snapshot, latest, fetchedAt, place, buckets);
    while remaining != {}
      invariant remaining <= latest.Keys && |buckets| == shardCount
      invariant Dealt(snapshot, latest, fetchedAt, place, buckets, skipped, rejected, latest.Keys - remaining)
      decreases remaining
    {
      var id :| id in remaining;
      DealOne(snapshot, latest, fetchedAt, place, buckets, skipped, rejected, latest.Keys - remaining, id);
      assert latest.Keys - remaining + {id} == latest.Keys - (remaining - {id});
      remaining := remaining - {id};
      if !Collectable(snapshot, id) {
        skipped := skipped + 1;
      } else if !HasPoint(latest[id]) {
        rejected := rejected + {id};
      } else {
        var shard := place(id);
        buckets := buckets[shard := buckets[shard] + [PendingOf(snapshot, id, latest[id], fetchedAt)]];
      }
    }
    AllDealt(snapshot, latest, fetchedAt, place, buckets, skipped, rejected, latest.Keys - remaining);
  }

  lemma NothingDealt(snapshot: Snapshot, latest: map<string, HistoryItem>, fetchedAt: int, place: string -> nat,
                     buckets: seq<seq<Pending>>)
    requires forall k :: 0 <= k < |buckets| ==> buckets[k] == []
    ensures Dealt(snapshot, latest, fetchedAt, place, buckets, 0, {}, latest.Keys - latest.Keys)
  {
    NothingEnumerated(buckets, Candidates(snapshot, latest, fetchedAt), place);
    assert latest.Keys - latest.Keys == {};
  }

  lemma AllDealt(snapshot: Snapshot, latest: map<string, HistoryItem>, fetchedAt: int, place: string -> nat,
                 buckets: seq<seq<Pending>>, skipped: nat, rejected: set<string>, done: set<string>)
    requires Dealt(snapshot, latest, fetchedAt, place, buckets, skipped, rejected, done)
    requires done == latest.Keys
    ensures var all := Candidates(snapshot, latest, fetchedAt);
            forall k :: 0 <= k < |buckets| ==> Enumerates(buckets[k], all, InShard(all, place, k))
    ensures skipped == |Uncollectable(snapshot, latest)|
    ensures rejected == Unreadable(snapshot, latest)
  {
    SortedAll(snapshot, latest, done, skipped, rejected);
    EverythingEnumerated(snapshot, latest, fetchedAt, buckets, place, done);
  }

  lemma EverythingEnumerated(snapshot: Snapshot, latest: map<string, HistoryItem>, fetchedAt: int,
                             buckets: seq<seq<Pending>>, place: string -> nat, done: set<string>)
    requires AllEnumerated(buckets, Candidates(snapshot, latest, fetchedAt), place, done) && done == latest.Keys
    ensures var all := Candidates(snapshot, latest, fetchedAt);
            forall k :: 0 <= k < |buckets| ==> Enumerates(buckets[k], all, InShard(all, place, k))
  {
    hide Enumerates;
    var all := Candidates(snapshot, latest, fetchedAt);
    forall k | 0 <= k < |buckets|
      ensures Enumerates(buckets[k], all, InShard(all, place, k))
    {
      CandidatesInLatest(snapshot, latest, fetchedAt, place, k);
    }
  }

  /** Every returned point is ignored, rejected or a candidate, and only one of them. */
  lemma Sorted(snapshot: Snapshot, latest: map<string, HistoryItem>, fetchedAt: int, id: string)
    requires id in latest
    ensures id in Uncollectable(snapshot, latest) <==> !Collectable(snapshot, id)
    ensures id in Unreadable(snapshot, latest) <==> Collectable(snapshot, id) && !HasPoint(latest[id])
    ensures id in Candidates(snapshot, latest, fetchedAt) <==> Collectable(snapshot, id) && HasPoint(latest[id])
    ensures id in Candidates(snapshot, latest, fetchedAt) ==>
      Candidates(snapshot, latest, fetchedAt)[id] == PendingOf(snapshot, id, latest[id], fetchedAt)
      && Candidates(snapshot, latest, fetchedAt)[id].itemID == id
  {
  }

  lemma SortedAll(snapshot: Snapshot, latest: map<string, HistoryItem>, done: set<string>,
                  skipped: nat, rejected: set<string>)
    requires done == latest.Keys
    requires skipped == |Uncollectable(snapshot, latest) * done| && rejected == Unreadable(snapshot, latest) * done
    ensures skipped == |Uncollectable(snapshot, latest)| && rejected == Unreadable(snapshot, latest)
  {
    assert Uncollectable(snapshot, latest) * latest.Keys == Uncollectable(snapshot, latest);
  }

  lemma CandidatesInLatest(snapshot: Snapshot, latest: map<string, HistoryItem>, fetchedAt: int,
                           place: string -> nat, k: nat)
    ensures var members := InShard(Candidates(snapshot, latest, fetchedAt), place, k);
            members * latest.Keys == members
  {
  }

  lemma NothingEnumerated(buckets: seq<seq<Pending>>, all: map<string, Pending>, place: string -> nat)
    requires forall k :: 0 <= k < |buckets| ==> buckets[k] == []
    ensures AllEnumerated(buckets, all, place, {})
  {
  }

  /** The queried items whose definition is unknown, or no longer current when the
      batch is applied. `queried` answers the metadata check made for each position. */
  ghost function StaleQueried(snapshot: Snapshot, ids: seq<string>, queried: nat -> bool): set<string> {
    set i | 0 <= i < |ids| && (ItemOf(snapshot, ids[i]).None? || !queried(i)) :: ids[i]
  }

  method FindStale(snapshot: Snapshot, ids: seq<string>, queried: nat -> bool) returns (stale: set<string>)
    ensures stale == StaleQueried(snapshot, ids, queried)
  {
    stale := {};
    for i := 0 to |ids|
      invariant forall id :: id in stale <==>
        exists j :: 0 <= j < i && ids[j] == id && (ItemOf(snapshot, ids[j]).None? || !queried(j))
    {
      if ItemOf(snapshot, ids[i]).None? || !queried(i) {
        stale := stale + {ids[i]};
      }
    }
  }

  // ---------- Miss candidates ----------

  /** The items of a query that are in `absent`, once each, in query order. */
  function InQueryOrder(ids: seq<string>, absent: set<string>): seq<string> {
    if ids == [] then
      []
    else
      var last := ids[|ids| - 1];
      InQueryOrder(ids[..|ids| - 1], absent) +
      (if last in absent && last !in ids[..|ids| - 1] then [last] else [])
  }

  lemma {:induction false} InQueryOrderMembers(ids: seq<string>, absent: set<string>)
    ensures forall id :: id in InQueryOrder(ids, absent) <==> id in ids && id in absent
    ensures forall i, j :: 0 <= i < j < |InQueryOrder(ids, absent)| ==>
      InQueryOrder(ids, absent)[i] != InQueryOrder(ids, absent)[j]
  {
    if ids != [] {
      var n := |ids| - 1;
      InQueryOrderMembers(ids[..n], absent);
      assert ids == ids[..n] + [ids[n]];
      var shorter := InQueryOrder(ids[..n], absent);
      assert forall i :: 0 <= i < |shorter| ==> shorter[i] in shorter;
    }
  }

  /** Later ids do not change the place of earlier ones. */
  lemma {:induction false} InQueryOrderPrefix(ids: seq<string>, absent: set<string>, n: nat)
    requires n <= |ids|
    ensures InQueryOrder(ids[..n], absent) <= InQueryOrder(ids, absent)
    decreases |ids|
  {
    if n == |ids| {
      assert ids[..n] == ids;
    } else {
      InQueryOrderPrefix(ids[..|ids| - 1], absent, n);
      assert ids[..|ids| - 1][..n] == ids[..n];
    }
  }

  /** The queried items that neither came back nor are excused, in query order. */
  method FindMisses(ids: seq<string>, returned: set<string>, excused: set<string>) returns (misses: seq<string>)
    ensures misses == InQueryOrder(ids, (set id | id in ids) - returned - excused)
  {
    var missSet: set<string> := {};
    for i := 0 to |ids|
      invariant forall id :: id in missSet <==> id in ids[..i] && id !in returned && id !in excused
    {
      assert ids[..i + 1] == ids[..i] + [ids[i]];
      if ids[i] !in excused && ids[i] !in returned {
        missSet := missSet + {ids[i]};
      }
    }
    assert ids[..|ids|] == ids;
    ghost var absent := missSet;
    assert absent == (set id | id in ids) - returned - excused;
    misses := [];
    for i := 0 to |ids|
      invariant misses == InQueryOrder(ids[..i], absent)
      invariant forall id :: id in missSet <==> id in absent && id !in ids[..i]
    {
      assert ids[..i + 1][..i] == ids[..i];
      assert ids[..i + 1] == ids[..i] + [ids[i]];
      if ids[i] in missSet {
        misses := misses + [ids[i]];
        missSet := missSet - {ids[i]};
      }
    }
    assert missSet == {};
  }
}

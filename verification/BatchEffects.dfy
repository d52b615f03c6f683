/** What applying a response does to each item of the cache, said in terms of the response,
    the snapshot and the state the item had (internal/cache/value_cache.go, ApplyBatch). */
module BatchEffects {
  import opened FlatCaches
  import opened Histories
  import opened Installs
  import opened MetadataStores
  import opened Options
  import opened Times
  import opened ValueStates

  /** The instant the source gave a point. */
  function Instant(record: HistoryItem): int {
    record.clock * SECOND + record.ns
  }

  /** The snapshot defines the item as enabled, numeric and collected at an interval. */
  predicate Wanted(snapshot: Snapshot, id: string) {
    && id in snapshot.items && snapshot.items[id].Some?
    && snapshot.items[id].value.definition.enabled
    && snapshot.items[id].value.definition.delay > 0
    && snapshot.items[id].value.definition.valueType in {"0", "3"}
  }

  /** The point has a finite value and a proper time. */
  predicate Legible(record: HistoryItem) {
    record.value.Some? && 0 <= record.ns < SECOND
  }

  /** The response has a readable point of a wanted item, whose definition is still current
      when the shard is locked. */
  predicate Accepted(snapshot: Snapshot, latest: map<string, HistoryItem>, current: string -> bool, id: string) {
    id in latest && Legible(latest[id]) && Wanted(snapshot, id) && current(id)
  }

  /** The cache already has this point of the item or a later one, under this definition. */
  predicate Outrun(before: Flat, snapshot: Snapshot, latest: map<string, HistoryItem>, id: string)
    requires id in latest && id in snapshot.items && snapshot.items[id].Some?
  {
    && id in before && before[id].metadataVersion == snapshot.items[id].value.version
    && Instant(latest[id]) <= before[id].sourceTimestamp
  }

  /** A state made from a point and a definition, never published and never missed. */
  predicate MadeFrom(state: ValueState, id: string, record: HistoryItem, item: Versioned<ItemDefinition>,
                     fetchedAt: int)
    requires record.value.Some?
  {
    && state.itemID == id && state.value == record.value.value
    && state.sourceTimestamp == Instant(record) && state.sourceNS == record.ns
    && state.metadataVersion == item.version && state.delay == item.definition.delay
    && state.lastFetchAt == fetchedAt && state.lastSuccessAt == fetchedAt
    && state.valid && state.consecutiveMisses == 0
    && state.lastPublishedVersion == 0 && state.lastPublishedTimestamp == ZERO_TIME
  }

  /** An accepted point that is not outrun is what the cache then holds, under a version of
      its own; one that is outrun only records the fetch; nothing else changes. */
  ghost predicate AppliedTo(before: Flat, after: Flat, snapshot: Snapshot, latest: map<string, HistoryItem>,
                            fetchedAt: int, current: string -> bool, slotOf: string -> nat, version: nat, id: string)
  {
    if !Accepted(snapshot, latest, current, id) then
      Lookup(after, id) == Lookup(before, id)
    else if Outrun(before, snapshot, latest, id) then
      id in after && after[id] == before[id].(lastFetchAt := fetchedAt)
    else
      && id in after && MadeFrom(after[id], id, latest[id], snapshot.items[id].value, fetchedAt)
      && after[id].valueVersion > version && after[id].publishSlot == slotOf(id)
      && (id in before ==> after[id].scanSequence == before[id].scanSequence)
  }

  /** The registrations name each generation the batch brought in, with its expiry, once. */
  ghost predicate RegistersNew(entries: seq<ExpiryEntry>, after: Flat, version: nat) {
    && (forall e :: e in entries ==>
          && e.itemID in after && after[e.itemID].valueVersion == e.valueVersion > version
          && after[e.itemID].expireAt == e.expireAt)
    && (forall id :: id in after && after[id].valueVersion > version ==>
          ExpiryEntry(id, after[id].valueVersion, after[id].expireAt) in entries)
    && (forall i, j :: 0 <= i < j < |entries| ==> entries[i].itemID != entries[j].itemID)
  }

  // ---------- One item ----------

  lemma StepVersion(flat: Flat, nextVersion: nat, log: seq<Installation>, current: string -> bool,
                    slotOf: string -> nat, i: nat)
    requires JustifiedLog(flat, nextVersion, log, current, slotOf) && DistinctItems(log) && i < |log|
    ensures var e, id := log[i], log[i].pending.itemID;
            && WellFormedPending(e.pending)
            && (Installing(e.verdict) ==> e.version > nextVersion && e.slot == slotOf(id))
            && (e.verdict == Updated && id in flat ==> e.scanSequence == flat[id].scanSequence)
  {
    var id := log[i].pending.itemID;
    assert Justified(Replay(flat, log[..i]), nextVersion + InstallCount(log[..i]), log[i], current, slotOf);
    ReplayOthers(flat, log[..i], id);
    hide Replay, VerdictFor, InstallCount;
  }

  /** A point in the log had the effect its own time and definition demand. */
  lemma PointApplied(flat: Flat, nextVersion: nat, log: seq<Installation>, current: string -> bool,
                     slotOf: string -> nat, i: nat, snapshot: Snapshot, latest: map<string, HistoryItem>,
                     fetchedAt: int)
    requires JustifiedLog(flat, nextVersion, log, current, slotOf) && DistinctItems(log) && i < |log|
    requires var id := log[i].pending.itemID;
             && id in Candidates(snapshot, latest, fetchedAt)
             && log[i].pending == Candidates(snapshot, latest, fetchedAt)[id]
             && (id in flat ==> Derived(flat[id]))
    ensures AppliedTo(flat, Replay(flat, log), snapshot, latest, fetchedAt, current, slotOf, nextVersion,
                      log[i].pending.itemID)
  {
    hide Replay, JustifiedLog, Derived;
    var p := log[i].pending;
    StepVersion(flat, nextVersion, log, current, slotOf, i);
    ReplayItem(flat, nextVersion, log, current, slotOf, i);
    if p.itemID in flat {
      NewerMeansLater(p.clock, p.ns, flat[p.itemID]);
    }
  }

  lemma AcceptedIsCandidate(snapshot: Snapshot, latest: map<string, HistoryItem>, fetchedAt: int,
                            current: string -> bool, id: string)
    ensures Accepted(snapshot, latest, current, id) <==> id in Candidates(snapshot, latest, fetchedAt) && current(id)
    ensures id in Candidates(snapshot, latest, fetchedAt) ==> Candidates(snapshot, latest, fetchedAt)[id].itemID == id
  {
  }

  lemma PositionOf(log: seq<Installation>, all: map<string, Pending>, id: string) returns (i: nat)
    requires Enumerates(PendingsOf(log), all, all.Keys) && id in all && all[id].itemID == id
    ensures i < |log| && log[i].pending == all[id]
  {
    assert all[id] in PendingsOf(log);
    i :| 0 <= i < |log| && PendingsOf(log)[i] == all[id];
  }

  lemma LoggedOnce(log: seq<Installation>, all: map<string, Pending>)
    requires Enumerates(PendingsOf(log), all, all.Keys)
    ensures DistinctItems(log)
    ensures forall i :: 0 <= i < |log| ==> log[i].pending.itemID in all && all[log[i].pending.itemID] == log[i].pending
  {
    forall i | 0 <= i < |log|
      ensures log[i].pending.itemID in all && all[log[i].pending.itemID] == log[i].pending
    {
      assert PendingsOf(log)[i] in PendingsOf(log);
    }
    forall i, j | 0 <= i < j < |log|
      ensures log[i].pending.itemID != log[j].pending.itemID
    {
      assert PendingsOf(log)[i].itemID != PendingsOf(log)[j].itemID;
    }
  }

  /** Every item of the cache and of the response ends up as the response, the snapshot and
      the answers given under the shard locks demand, whatever the order of the batch. */
  lemma BatchApplied(flat: Flat, nextVersion: nat, log: seq<Installation>, current: string -> bool,
                     slotOf: string -> nat, snapshot: Snapshot, latest: map<string, HistoryItem>, fetchedAt: int,
                     id: string)
    requires JustifiedLog(flat, nextVersion, log, current, slotOf)
    requires var all := Candidates(snapshot, latest, fetchedAt); Enumerates(PendingsOf(log), all, all.Keys)
    requires id in flat ==> Derived(flat[id])
    ensures AppliedTo(flat, Replay(flat, log), snapshot, latest, fetchedAt, current, slotOf, nextVersion, id)
  {
    hide Replay, JustifiedLog, Derived, Enumerates, DistinctItems, Candidates, AppliedTo;
    var all := Candidates(snapshot, latest, fetchedAt);
    LoggedOnce(log, all);
    AcceptedIsCandidate(snapshot, latest, fetchedAt, current, id);
    if id in all {
      var i := PositionOf(log, all, id);
      PointApplied(flat, nextVersion, log, current, slotOf, i, snapshot, latest, fetchedAt);
    } else {
      ReplayOthers(flat, log, id);
      NotAccepted(flat, Replay(flat, log), snapshot, latest, fetchedAt, current, slotOf, nextVersion, id);
    }
  }

  lemma NotAccepted(before: Flat, after: Flat, snapshot: Snapshot, latest: map<string, HistoryItem>,
                    fetchedAt: int, current: string -> bool, slotOf: string -> nat, version: nat, id: string)
    requires !Accepted(snapshot, latest, current, id) && Lookup(after, id) == Lookup(before, id)
    ensures AppliedTo(before, after, snapshot, latest, fetchedAt, current, slotOf, version, id)
  {
  }

  // ---------- Registrations ----------

  ghost predicate Causes(log: seq<Installation>, i: nat, e: ExpiryEntry) {
    i < |log| && Installing(log[i].verdict) && EntryOf(log[i]) == e
  }

  lemma {:induction false} EntryCaused(log: seq<Installation>, e: ExpiryEntry)
    ensures e in EntriesOf(log) <==> exists i :: Causes(log, i, e)
  {
    hide EntryOf;
    if log != [] {
      var n := |log| - 1;
      EntryCaused(log[..n], e);
      forall i: nat
        ensures i < n ==> (Causes(log[..n], i, e) <==> Causes(log, i, e))
      {
      }
      assert Causes(log, n, e) <==> Installing(log[n].verdict) && EntryOf(log[n]) == e;
    }
  }

  lemma {:induction false} EntriesDistinct(log: seq<Installation>)
    requires DistinctItems(log)
    ensures forall i, j :: 0 <= i < j < |EntriesOf(log)| ==> EntriesOf(log)[i].itemID != EntriesOf(log)[j].itemID
  {
    if log != [] {
      var n := |log| - 1;
      EntriesDistinct(log[..n]);
      var shorter := EntriesOf(log[..n]);
      forall i | 0 <= i < |shorter|
        ensures shorter[i].itemID != log[n].pending.itemID
      {
        EntryCaused(log[..n], shorter[i]);
        assert shorter[i] in shorter;
      }
    }
  }

  lemma EntriesNamed(log: seq<Installation>)
    requires DistinctItems(log)
    ensures forall i :: 0 <= i < |log| && Installing(log[i].verdict) ==> EntryOf(log[i]) in EntriesOf(log)
    ensures forall e :: e in EntriesOf(log) ==>
      exists i :: 0 <= i < |log| && Installing(log[i].verdict) && EntryOf(log[i]) == e
    ensures forall i, j :: 0 <= i < j < |EntriesOf(log)| ==> EntriesOf(log)[i].itemID != EntriesOf(log)[j].itemID
  {
    EntriesDistinct(log);
    hide EntryOf, EntriesOf, DistinctItems;
    forall e
      ensures e in EntriesOf(log) <==> exists i :: Causes(log, i, e)
    {
      EntryCaused(log, e);
    }
    forall i | 0 <= i < |log| && Installing(log[i].verdict)
      ensures EntryOf(log[i]) in EntriesOf(log)
    {
      assert Causes(log, i, EntryOf(log[i]));
    }
  }

  /** What one logged point means for the registrations. */
  lemma PointRegistered(flat: Flat, nextVersion: nat, log: seq<Installation>, current: string -> bool,
                        slotOf: string -> nat, i: nat)
    requires JustifiedLog(flat, nextVersion, log, current, slotOf) && DistinctItems(log) && i < |log|
    requires var id := log[i].pending.itemID; id in flat ==> flat[id].valueVersion <= nextVersion
    ensures var id, after := log[i].pending.itemID, Replay(flat, log);
            && EntryOf(log[i]).itemID == id
            && (Installing(log[i].verdict) ==>
                  && id in after && after[id].valueVersion > nextVersion
                  && EntryOf(log[i]) == ExpiryEntry(id, after[id].valueVersion, after[id].expireAt))
            && (!Installing(log[i].verdict) && id in after ==> after[id].valueVersion <= nextVersion)
  {
    StepVersion(flat, nextVersion, log, current, slotOf, i);
    ReplayItem(flat, nextVersion, log, current, slotOf, i);
    hide Replay, JustifiedLog, VerdictFor, DistinctItems;
  }

  lemma BatchRegistered(flat: Flat, nextVersion: nat, log: seq<Installation>, current: string -> bool,
                        slotOf: string -> nat)
    requires JustifiedLog(flat, nextVersion, log, current, slotOf) && DistinctItems(log)
    requires forall id :: id in flat ==> flat[id].valueVersion <= nextVersion
    ensures RegistersNew(EntriesOf(log), Replay(flat, log), nextVersion)
  {
    hide JustifiedLog, Replay, EntriesOf, EntryOf, DistinctItems;
    var after := Replay(flat, log);
    EntriesNamed(log);
    forall e | e in EntriesOf(log)
      ensures e.itemID in after && after[e.itemID].valueVersion == e.valueVersion > nextVersion
      ensures after[e.itemID].expireAt == e.expireAt
    {
      var i :| 0 <= i < |log| && Installing(log[i].verdict) && EntryOf(log[i]) == e;
      PointRegistered(flat, nextVersion, log, current, slotOf, i);
    }
    forall id | id in after && after[id].valueVersion > nextVersion
      ensures ExpiryEntry(id, after[id].valueVersion, after[id].expireAt) in EntriesOf(log)
    {
      if i :| 0 <= i < |log| && log[i].pending.itemID == id {
        PointRegistered(flat, nextVersion, log, current, slotOf, i);
      } else {
        ReplayOthers(flat, log, id);
        assert false;
      }
    }
  }

  // ---------- Counters ----------

  lemma WithVerdictSnoc(log: seq<Installation>, verdict: Verdict)
    requires DistinctItems(log) && log != []
    ensures var last := log[|log| - 1];
            && last.pending.itemID !in WithVerdict(log[..|log| - 1], verdict)
            && WithVerdict(log, verdict) ==
                 WithVerdict(log[..|log| - 1], verdict) +
                 (if last.verdict == verdict then {last.pending.itemID} else {})
  {
    var n := |log| - 1;
    var shorter := WithVerdict(log[..n], verdict);
    forall id | id in shorter
      ensures id in WithVerdict(log, verdict)
    {
      var i :| 0 <= i < n && log[..n][i].verdict == verdict && log[..n][i].pending.itemID == id;
      assert log[i].verdict == verdict && log[i].pending.itemID == id;
    }
    forall id | id in WithVerdict(log, verdict)
      ensures id in shorter || (id == log[n].pending.itemID && log[n].verdict == verdict)
    {
      var i :| 0 <= i < |log| && log[i].verdict == verdict && log[i].pending.itemID == id;
      if i < n {
        assert log[..n][i] == log[i];
      }
    }
  }

  lemma {:induction false} CountIsSize(log: seq<Installation>, verdict: Verdict)
    requires DistinctItems(log)
    ensures Count(log, verdict) == |WithVerdict(log, verdict)|
  {
    hide WithVerdict;
    if log == [] {
      NoVerdicts(verdict);
    } else {
      CountIsSize(log[..|log| - 1], verdict);
      WithVerdictSnoc(log, verdict);
    }
  }

  lemma NoVerdicts(verdict: Verdict)
    ensures WithVerdict([], verdict) == {}
  {
  }

  /** Which points of the response met which fate. */
  ghost predicate Sifted(created: set<string>, updated: set<string>, kept: set<string>, refused: set<string>,
                         before: Flat, snapshot: Snapshot, latest: map<string, HistoryItem>, current: string -> bool)
  {
    && (forall id :: id in created <==> Accepted(snapshot, latest, current, id) && id !in before)
    && (forall id :: id in updated <==>
          Accepted(snapshot, latest, current, id) && id in before && !Outrun(before, snapshot, latest, id))
    && (forall id :: id in kept <==>
          Accepted(snapshot, latest, current, id) && Outrun(before, snapshot, latest, id))
    && (forall id :: id in refused <==>
          id in latest && Legible(latest[id]) && Wanted(snapshot, id) && !current(id))
  }

  lemma VerdictOf(flat: Flat, snapshot: Snapshot, latest: map<string, HistoryItem>, fetchedAt: int,
                  current: string -> bool, id: string)
    requires id in Candidates(snapshot, latest, fetchedAt) && (id in flat ==> Derived(flat[id]))
    ensures id in latest && Legible(latest[id]) && Wanted(snapshot, id)
    ensures var verdict := VerdictFor(Lookup(flat, id), Candidates(snapshot, latest, fetchedAt)[id], current(id));
            verdict == if !current(id) then Refused
                       else if id !in flat then Created
                       else if Outrun(flat, snapshot, latest, id) then Unchanged
                       else Updated
  {
    hide Derived, SourceIsNewer;
    if id in flat {
      NewerMeansLater(latest[id].clock, latest[id].ns, flat[id]);
    }
  }

  lemma BatchSifted(flat: Flat, nextVersion: nat, log: seq<Installation>, current: string -> bool,
                    slotOf: string -> nat, snapshot: Snapshot, latest: map<string, HistoryItem>, fetchedAt: int)
    requires JustifiedLog(flat, nextVersion, log, current, slotOf)
    requires var all := Candidates(snapshot, latest, fetchedAt); Enumerates(PendingsOf(log), all, all.Keys)
    requires forall id :: id in flat ==> Derived(flat[id])
    ensures Sifted(WithVerdict(log, Created), WithVerdict(log, Updated), WithVerdict(log, Unchanged),
                   WithVerdict(log, Refused), flat, snapshot, latest, current)
  {
    hide JustifiedLog, Enumerates, DistinctItems, Candidates, Outrun, Replay, Derived, VerdictFor, Wanted,
      Legible;
    var all := Candidates(snapshot, latest, fetchedAt);
    LoggedOnce(log, all);
    forall id: string, verdict: Verdict
      ensures id in WithVerdict(log, verdict) <==>
        id in all && verdict == VerdictFor(Lookup(flat, id), all[id], current(id))
    {
      if i :| 0 <= i < |log| && log[i].pending.itemID == id {
        ReplayItem(flat, nextVersion, log, current, slotOf, i);
        assert forall j :: 0 <= j < |log| && log[j].pending.itemID == id ==> j == i by {
          Distinct(log);
        }
      } else if id in all {
        AcceptedIsCandidate(snapshot, latest, fetchedAt, current, id);
        var i := PositionOf(log, all, id);
        assert false;
      }
    }
    forall id: string
      ensures id in all ==> id in latest && Legible(latest[id]) && Wanted(snapshot, id)
      ensures id in latest && Legible(latest[id]) && Wanted(snapshot, id) ==> id in all
    {
      CandidateExactly(snapshot, latest, fetchedAt, id);
    }
    forall id | id in all
      ensures id in latest && Wanted(snapshot, id)
      ensures id in snapshot.items && snapshot.items[id].Some?
      ensures VerdictFor(Lookup(flat, id), all[id], current(id)) ==
        if !current(id) then Refused
        else if id !in flat then Created
        else if Outrun(flat, snapshot, latest, id) then Unchanged
        else Updated
    {
      VerdictOf(flat, snapshot, latest, fetchedAt, current, id);
      WantedDefined(snapshot, id);
    }
    OutrunIsCached(flat, snapshot, latest);
  }

  lemma OutrunIsCached(flat: Flat, snapshot: Snapshot, latest: map<string, HistoryItem>)
    ensures forall id :: id in latest && Wanted(snapshot, id) && Outrun(flat, snapshot, latest, id) ==> id in flat
  {
  }

  lemma WantedDefined(snapshot: Snapshot, id: string)
    requires Wanted(snapshot, id)
    ensures id in snapshot.items && snapshot.items[id].Some?
  {
  }

  lemma Distinct(log: seq<Installation>)
    requires DistinctItems(log)
    ensures forall i, j :: 0 <= i < |log| && 0 <= j < |log| && log[i].pending.itemID == log[j].pending.itemID ==> i == j
  {
  }

  lemma CandidateExactly(snapshot: Snapshot, latest: map<string, HistoryItem>, fetchedAt: int, id: string)
    ensures id in Candidates(snapshot, latest, fetchedAt) <==>
      id in latest && Legible(latest[id]) && Wanted(snapshot, id)
  {
  }

  /** One returned point meets exactly one fate. */
  lemma OneFate(created: set<string>, updated: set<string>, kept: set<string>, refused: set<string>, before: Flat,
                snapshot: Snapshot, latest: map<string, HistoryItem>, current: string -> bool, id: string)
    requires Sifted(created, updated, kept, refused, before, snapshot, latest, current)
    ensures var usable := id in latest && Legible(latest[id]) && Wanted(snapshot, id);
            && (id in created + updated + kept + refused <==> usable)
            && (id in created ==> id !in updated)
            && (id in created + updated ==> id !in kept)
            && (id in created + updated + kept ==> id !in refused)
  {
    hide Legible, Wanted;
  }

  lemma FourClasses(a: set<string>, b: set<string>, c: set<string>, d: set<string>)
    requires a !! b && (a + b) !! c && (a + b + c) !! d
    ensures |a + b + c + d| == |a| + |b| + |c| + |d|
  {
  }

  lemma ThreeClasses(a: set<string>, b: set<string>, c: set<string>)
    requires a !! b && (a + b) !! c
    ensures |a + b + c| == |a| + |b| + |c|
  {
  }

  /** Every returned point of the response met exactly one fate. */
  lemma EveryPointCounted(created: set<string>, updated: set<string>, kept: set<string>, refused: set<string>,
                          before: Flat, snapshot: Snapshot, latest: map<string, HistoryItem>, current: string -> bool)
    requires Sifted(created, updated, kept, refused, before, snapshot, latest, current)
    ensures |created| + |updated| + |kept| + |refused| + |Uncollectable(snapshot, latest)| +
            |Unreadable(snapshot, latest)| == |latest|
  {
    hide Sifted, Legible, Wanted, Uncollectable, Unreadable;
    var skipped, rejected := Uncollectable(snapshot, latest), Unreadable(snapshot, latest);
    var decided := created + updated + kept + refused;
    forall id: string
      ensures id in decided <==> id in latest && Legible(latest[id]) && Wanted(snapshot, id)
      ensures id in created ==> id !in updated
      ensures id in created + updated ==> id !in kept
      ensures id in created + updated + kept ==> id !in refused
      ensures id in skipped <==> id in latest && !Wanted(snapshot, id)
      ensures id in rejected <==> id in latest && Wanted(snapshot, id) && !Legible(latest[id])
    {
      OneFate(created, updated, kept, refused, before, snapshot, latest, current, id);
      Classed(snapshot, latest, id);
    }
    FourClasses(created, updated, kept, refused);
    ThreeClasses(decided, skipped, rejected);
    assert decided + skipped + rejected == latest.Keys;
  }

  lemma Classed(snapshot: Snapshot, latest: map<string, HistoryItem>, id: string)
    ensures id in Uncollectable(snapshot, latest) <==> id in latest && !Wanted(snapshot, id)
    ensures id in Unreadable(snapshot, latest) <==> id in latest && Wanted(snapshot, id) && !Legible(latest[id])
  {
  }
}

/** Cache and wheel together: every live state is covered by an entry that names its
    generation and its expiry, and an entry that still names a live generation tells its
    expiry truly. This is what makes deleting by version, outside the wheel's lock, safe. */
module ExpiryAgreements {
  import opened ExpiryWheels
  import opened FlatCaches
  import opened Installs
  import opened Options
  import opened Times
  import opened ValueCaches
  import opened ValueStates
  import opened WheelContents

  function EntryFor(id: string, state: ValueState): ExpiryEntry {
    ExpiryEntry(id, state.valueVersion, state.expireAt)
  }

  /** `entries` are all registrations in existence: in the wheel, not yet delivered to it,
      or taken out of it and not yet deleted. */
  ghost predicate Agreement(flat: Flat, nextVersion: nat, entries: multiset<ExpiryEntry>) {
    && (forall id :: id in flat ==> flat[id].valueVersion <= nextVersion && EntryFor(id, flat[id]) in entries)
    && (forall e :: e in entries ==> e.valueVersion <= nextVersion)
    && (forall e :: e in entries && e.itemID in flat && flat[e.itemID].valueVersion == e.valueVersion ==>
          flat[e.itemID].expireAt == e.expireAt)
  }

  /** Misses, acknowledgements and removals never change which generation a live state is
      or when it expires. */
  lemma OpKeepsGeneration(flat: Flat, op: Op, threshold: nat, id: string)
    ensures var next := Step(Outcome(flat, ZERO_TALLY), op, threshold).flat;
            id in next ==> id in flat && EntryFor(id, next[id]) == EntryFor(id, flat[id])
  {
    var current := Lookup(flat, op.itemID);
    var cell := Effect(current, op, threshold).0;
    assert cell.Some? ==> current.Some? && cell.value.valueVersion == current.value.valueVersion
                          && cell.value.expireAt == current.value.expireAt;
    LookupPut(flat, op.itemID, cell, id);
    hide Effect, Put;
  }

  /** Every state of `next` is a state of `flat` in the same generation. */
  ghost predicate SameGenerations(flat: Flat, next: Flat) {
    forall id :: id in next ==> id in flat && EntryFor(id, next[id]) == EntryFor(id, flat[id])
  }

  lemma {:induction false} OpsKeepGenerations(flat: Flat, ops: seq<Op>, threshold: nat)
    ensures SameGenerations(flat, Processed(flat, ops, threshold).flat)
    decreases |ops|
  {
    if ops != [] {
      var n := |ops| - 1;
      OpsKeepGenerations(flat, ops[..n], threshold);
      assert ops == ops[..n] + [ops[n]];
      ProcessedSnoc(flat, ops[..n], ops[n], threshold);
      hide Processed, Step, EntryFor;
      var before, after := Processed(flat, ops[..n], threshold).flat, Processed(flat, ops, threshold).flat;
      forall id | id in after
        ensures id in flat && EntryFor(id, after[id]) == EntryFor(id, flat[id])
      {
        OpKeepsGeneration(before, ops[n], threshold, id);
      }
    }
  }

  lemma AgreementAfterOps(flat: Flat, nextVersion: nat, entries: multiset<ExpiryEntry>, ops: seq<Op>, threshold: nat)
    requires Agreement(flat, nextVersion, entries)
    ensures Agreement(Processed(flat, ops, threshold).flat, nextVersion, entries)
  {
    OpsKeepGenerations(flat, ops, threshold);
    hide Processed;
  }

  lemma AgreementAfterOp(flat: Flat, nextVersion: nat, entries: multiset<ExpiryEntry>, op: Op, threshold: nat)
    requires Agreement(flat, nextVersion, entries)
    ensures Agreement(Step(Outcome(flat, ZERO_TALLY), op, threshold).flat, nextVersion, entries)
  {
    hide Step;
    var next := Step(Outcome(flat, ZERO_TALLY), op, threshold).flat;
    forall id | id in next
      ensures id in flat && EntryFor(id, next[id]) == EntryFor(id, flat[id])
    {
      OpKeepsGeneration(flat, op, threshold, id);
    }
  }

  // ---------- Deleting what was taken out of the wheel ----------

  lemma DeletionOf(entries: seq<ExpiryEntry>, id: string, version: nat)
    ensures RemoveVersioned(id, version) in RemoveVersionedOps(ItemsOf(entries)) <==>
      exists e :: e in entries && e.itemID == id && e.valueVersion == version
  {
    var ops := RemoveVersionedOps(ItemsOf(entries));
    assert forall i :: 0 <= i < |ops| ==> ops[i] == RemoveVersioned(entries[i].itemID, entries[i].valueVersion);
    if e :| e in entries && e.itemID == id && e.valueVersion == version {
      var i :| 0 <= i < |entries| && entries[i] == e;
      assert ops[i] == RemoveVersioned(id, version);
    }
    if RemoveVersioned(id, version) in ops {
      var i :| 0 <= i < |ops| && ops[i] == RemoveVersioned(id, version);
      assert entries[i] in entries;
    }
  }

  /** A deletion takes away exactly the states whose generation it names. */
  lemma DeletedExactly(flat: Flat, taken: seq<ExpiryEntry>, threshold: nat, id: string)
    ensures Lookup(AfterDeleting(flat, taken, threshold).flat, id) ==
      if id in flat && !(exists e :: e in taken && e.itemID == id && e.valueVersion == flat[id].valueVersion)
      then Some(flat[id])
      else None
  {
    var ops := RemoveVersionedOps(ItemsOf(taken));
    RemovalsExact(flat, ops, threshold, id);
    hide Processed;
    assert Remove(id) !in ops;
    if id in flat {
      DeletionOf(taken, id, flat[id].valueVersion);
    }
  }

  lemma AgreementAfterDeleting(flat: Flat, nextVersion: nat, entries: multiset<ExpiryEntry>, taken: seq<ExpiryEntry>,
                               threshold: nat)
    requires Agreement(flat, nextVersion, entries) && multiset(taken) <= entries
    ensures Agreement(AfterDeleting(flat, taken, threshold).flat, nextVersion, entries - multiset(taken))
  {
    hide AfterDeleting;
    var next := AfterDeleting(flat, taken, threshold).flat;
    var rest := entries - multiset(taken);
    forall id | id in next
      ensures id in flat && next[id] == flat[id] && EntryFor(id, flat[id]) in rest
    {
      DeletedExactly(flat, taken, threshold, id);
      assert EntryFor(id, flat[id]) !in taken;
      assert EntryFor(id, flat[id]) !in multiset(taken);
    }
    assert forall e :: e in rest ==> e in entries;
  }

  /** Although candidates are chosen under one lock and deleted under another, a deletion
      never removes a state that expires after the instant the candidates were chosen
      for: a newer generation has another version, and a version has one expiry. */
  lemma OnlyExpiredDeleted(flat: Flat, nextVersion: nat, entries: multiset<ExpiryEntry>, taken: seq<ExpiryEntry>,
                           threshold: nat, now: int, id: string)
    requires Agreement(flat, nextVersion, entries) && multiset(taken) <= entries
    requires forall e :: e in taken ==> e.expireAt <= now
    requires id in flat && flat[id].expireAt > now
    ensures var next := AfterDeleting(flat, taken, threshold).flat; id in next && next[id] == flat[id]
  {
    hide AfterDeleting;
    DeletedExactly(flat, taken, threshold, id);
    forall e | e in taken && e.itemID == id
      ensures e.valueVersion != flat[id].valueVersion
    {
      assert e in multiset(taken);
      assert e in entries;
    }
  }

  // ---------- Installing and registering ----------

  lemma AgreementAfterInstall(flat: Flat, nextVersion: nat, entries: multiset<ExpiryEntry>, e: Installation,
                              current: string -> bool, slotOf: string -> nat)
    requires Agreement(flat, nextVersion, entries) && Justified(flat, nextVersion, e, current, slotOf)
    ensures Agreement(Install(flat, e), nextVersion + (if Installing(e.verdict) then 1 else 0),
                      entries + (if Installing(e.verdict) then multiset{EntryOf(e)} else multiset{}))
  {
    hide WellFormedPending, VerdictFor;
  }

  lemma {:induction false} AgreementAfterBatch(flat: Flat, nextVersion: nat, entries: multiset<ExpiryEntry>,
                                               log: seq<Installation>, current: string -> bool, slotOf: string -> nat)
    requires Agreement(flat, nextVersion, entries) && JustifiedLog(flat, nextVersion, log, current, slotOf)
    ensures Agreement(Replay(flat, log), nextVersion + InstallCount(log), entries + multiset(EntriesOf(log)))
    decreases |log|
  {
    hide Agreement, JustifiedLog, Justified, Replay, InstallCount, EntriesOf, Install, EntryOf;
    if log == [] {
      EmptyLog(flat);
      assert entries + multiset([]) == entries;
    } else {
      var n := |log| - 1;
      LogLast(flat, nextVersion, log, current, slotOf);
      AgreementAfterBatch(flat, nextVersion, entries, log[..n], current, slotOf);
      AgreementAfterOne(Replay(flat, log[..n]), nextVersion + InstallCount(log[..n]), entries, EntriesOf(log[..n]),
                        log[n], current, slotOf);
    }
  }

  lemma AgreementAfterOne(flat: Flat, nextVersion: nat, entries: multiset<ExpiryEntry>, registered: seq<ExpiryEntry>,
                          e: Installation, current: string -> bool, slotOf: string -> nat)
    requires Agreement(flat, nextVersion, entries + multiset(registered))
    requires Justified(flat, nextVersion, e, current, slotOf)
    ensures Agreement(Install(flat, e), nextVersion + (if Installing(e.verdict) then 1 else 0),
                      entries + multiset(registered + (if Installing(e.verdict) then [EntryOf(e)] else [])))
  {
    AgreementAfterInstall(flat, nextVersion, entries + multiset(registered), e, current, slotOf);
    hide Agreement, Justified, Install, EntryOf;
    if Installing(e.verdict) {
      assert entries + multiset(registered + [EntryOf(e)]) == entries + multiset(registered) + multiset{EntryOf(e)};
    } else {
      assert registered + [] == registered;
      assert entries + multiset(registered) + multiset{} == entries + multiset(registered);
    }
  }

  // ---------- A whole round ----------

  /** A cleanup round keeps the agreement. A round that is not limited leaves in the cache
      exactly the states that expire later. */
  lemma AgreementAfterRound(b: Buckets, b': Buckets, lo: int, hi: int, now: int, budget: nat, flat: Flat,
                            nextVersion: nat, threshold: nat)
    requires lo <= hi && Round(b, b', lo, hi, now, budget)
    requires Agreement(flat, nextVersion, multiset(Line(b, lo, hi)))
    ensures var next := AfterDeleting(flat, Handed(b, lo, now, budget), threshold).flat;
            && Agreement(next, nextVersion, multiset(Line(b', lo, hi)))
            && (forall id :: id in flat && flat[id].expireAt > now ==> id in next && next[id] == flat[id])
            && (|Line(b, lo, BucketKey(now) + 1)| < budget || Line(b', lo, BucketKey(now) + 1) == [] ==>
                  next == map id | id in flat && flat[id].expireAt > now :: flat[id])
  {
    var handed := Handed(b, lo, now, budget);
    RoundConserves(b, b', lo, hi, now, budget);
    hide AfterDeleting, Handed, Agreement, Round, Line;
    var entries, rest := multiset(Line(b, lo, hi)), multiset(Line(b', lo, hi));
    assert entries - multiset(handed) == rest;
    AgreementAfterDeleting(flat, nextVersion, entries, handed, threshold);
    var next := AfterDeleting(flat, handed, threshold).flat;
    forall id | id in flat && flat[id].expireAt > now
      ensures id in next && next[id] == flat[id]
    {
      OnlyExpiredDeleted(flat, nextVersion, entries, handed, threshold, now, id);
    }
    if |Line(b, lo, BucketKey(now) + 1)| < budget || Line(b', lo, BucketKey(now) + 1) == [] {
      RoundComplete(b, b', lo, hi, now, budget);
      CleanCache(flat, next, nextVersion, handed, rest, now, threshold, Line(b', lo, hi));
    }
  }

  lemma CleanCache(flat: Flat, next: Flat, nextVersion: nat, handed: seq<ExpiryEntry>, rest: multiset<ExpiryEntry>,
                   now: int, threshold: nat, line: seq<ExpiryEntry>)
    requires next == AfterDeleting(flat, handed, threshold).flat
    requires Agreement(next, nextVersion, rest) && rest == multiset(line)
    requires forall e :: e in line ==> e.expireAt > now
    requires forall id :: id in flat && flat[id].expireAt > now ==> id in next && next[id] == flat[id]
    ensures next == map id | id in flat && flat[id].expireAt > now :: flat[id]
  {
    hide AfterDeleting;
    forall id | id in next
      ensures id in flat && flat[id].expireAt > now
    {
      DeletedExactly(flat, handed, threshold, id);
      assert EntryFor(id, next[id]) in line;
    }
  }
}

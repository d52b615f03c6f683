/** What the sharded cache means: every mutation other than an insert is a function
    of one item's state, and a list of them is a left fold over one flat map.
    Splitting the list by shard must not change the outcome. */
module FlatCaches {
  import opened Options
  import opened Times
  import opened ValueStates

  type Flat = map<string, ValueState>

  datatype Op =
    | Miss(itemID: string, fetchedAt: int)
    | Remove(itemID: string)
    | RemoveVersioned(itemID: string, version: nat)
    | Ack(itemID: string, version: nat, publishedTimestamp: int)

  /** How many operations took effect, how many of those also invalidated their
      state, and how many were turned away and why. */
  datatype Tally = Tally(applied: nat, invalidated: nat, stale: nat, notFound: nat)

  const ZERO_TALLY: Tally := Tally(0, 0, 0, 0)
  const APPLIED: Tally := Tally(1, 0, 0, 0)
  const INVALIDATED: Tally := Tally(1, 1, 0, 0)
  const STALE: Tally := Tally(0, 0, 1, 0)
  const NOT_FOUND: Tally := Tally(0, 0, 0, 1)

  function Add(a: Tally, b: Tally): Tally {
    Tally(a.applied + b.applied, a.invalidated + b.invalidated, a.stale + b.stale, a.notFound + b.notFound)
  }

  /** One miss: the count saturates, and the state turns invalid once enough misses
      have been seen and its miss deadline lies in the past. */
  function Missed(state: ValueState, fetchedAt: int, threshold: nat): ValueState {
    var misses := if state.consecutiveMisses < MAX_UINT32 then state.consecutiveMisses + 1
                  else state.consecutiveMisses;
    state.(
      consecutiveMisses := misses,
      lastFetchAt := fetchedAt,
      valid := state.valid &&
               !(misses >= threshold && fetchedAt > MissInvalidAfter(state.sourceTimestamp, state.delay)))
  }

  /** Whether an acknowledgement of the current version changes publishing state. */
  predicate AckApplies(state: ValueState, publishedTimestamp: int) {
    match state.publishPolicy
    case SourceTimestamp => state.lastPublishedVersion < state.valueVersion
    case CycleTimestamp =>
      && publishedTimestamp != ZERO_TIME
      && (state.lastPublishedTimestamp == ZERO_TIME || publishedTimestamp > state.lastPublishedTimestamp)
  }

  function Acked(state: ValueState, publishedTimestamp: int): ValueState {
    state.(
      lastPublishedVersion := if state.publishPolicy == SourceTimestamp then state.valueVersion
                              else state.lastPublishedVersion,
      lastPublishedTimestamp := Max(state.lastPublishedTimestamp, publishedTimestamp))
  }

  /** The effect of one operation on the state of its own item. */
  function Effect(current: Option<ValueState>, op: Op, threshold: nat): (Option<ValueState>, Tally) {
    if current.None? then
      (None, NOT_FOUND)
    else
      var state := current.value;
      match op
      case Miss(_, fetchedAt) =>
        var missed := Missed(state, fetchedAt, threshold);
        (Some(missed), if state.valid && !missed.valid then INVALIDATED else APPLIED)
      case Remove(_) =>
        (None, APPLIED)
      case RemoveVersioned(_, version) =>
        if state.valueVersion != version then (current, STALE) else (None, APPLIED)
      case Ack(_, version, publishedTimestamp) =>
        if state.valueVersion != version || !AckApplies(state, publishedTimestamp) then
          (current, STALE)
        else
          (Some(Acked(state, publishedTimestamp)), APPLIED)
  }

  function Put(flat: Flat, itemID: string, cell: Option<ValueState>): Flat {
    match cell
    case Some(state) => flat[itemID := state]
    case None => flat - {itemID}
  }

  datatype Outcome = Outcome(flat: Flat, tally: Tally)

  function Step(outcome: Outcome, op: Op, threshold: nat): Outcome {
    var (cell, tally) := Effect(Lookup(outcome.flat, op.itemID), op, threshold);
    Outcome(Put(outcome.flat, op.itemID, cell), Add(outcome.tally, tally))
  }

  lemma PutUnchanged(flat: Flat, itemID: string)
    ensures Put(flat, itemID, Lookup(flat, itemID)) == flat
  {
    if itemID in flat {
      assert flat[itemID := flat[itemID]] == flat;
    } else {
      assert flat - {itemID} == flat;
    }
  }

  lemma AddZero(tally: Tally)
    ensures Add(ZERO_TALLY, tally) == tally
  {
  }

  lemma StepAbsent(flat: Flat, op: Op, threshold: nat)
    requires op.itemID !in flat
    ensures Step(Outcome(flat, ZERO_TALLY), op, threshold) == Outcome(flat, NOT_FOUND)
  {
    hide Put, Add;
    PutUnchanged(flat, op.itemID);
    AddZero(NOT_FOUND);
  }

  lemma StepPresent(flat: Flat, op: Op, threshold: nat, cell: Option<ValueState>, tally: Tally)
    requires op.itemID in flat && Effect(Some(flat[op.itemID]), op, threshold) == (cell, tally)
    ensures Step(Outcome(flat, ZERO_TALLY), op, threshold) == Outcome(Put(flat, op.itemID, cell), tally)
    ensures cell == Some(flat[op.itemID]) ==> Put(flat, op.itemID, cell) == flat
  {
    hide Put, Add, Effect;
    PutUnchanged(flat, op.itemID);
    AddZero(tally);
  }

  /** Counters only accumulate: an operation's effect does not depend on them. */
  lemma StepShift(outcome: Outcome, op: Op, threshold: nat)
    ensures var one := Step(Outcome(outcome.flat, ZERO_TALLY), op, threshold);
            Step(outcome, op, threshold) == Outcome(one.flat, Add(outcome.tally, one.tally))
  {
    hide Put, Effect;
  }

  /** Processing a list of operations in order on one flat map. */
  function Run(start: Outcome, ops: seq<Op>, threshold: nat): Outcome {
    if ops == [] then
      start
    else
      Step(Run(start, ops[..|ops| - 1], threshold), ops[|ops| - 1], threshold)
  }

  /** What a list of operations makes of a cache, counters included. */
  function Processed(flat: Flat, ops: seq<Op>, threshold: nat): Outcome {
    Run(Outcome(flat, ZERO_TALLY), ops, threshold)
  }

  lemma ProcessedSnoc(flat: Flat, ops: seq<Op>, op: Op, threshold: nat)
    ensures var before := Processed(flat, ops, threshold);
            var one := Step(Outcome(before.flat, ZERO_TALLY), op, threshold);
            Processed(flat, ops + [op], threshold) == Outcome(one.flat, Add(before.tally, one.tally))
  {
    RunSnoc(Outcome(flat, ZERO_TALLY), ops, op, threshold);
    StepShift(Processed(flat, ops, threshold), op, threshold);
    hide Step;
  }

  lemma {:induction false} ProcessedAppend(flat: Flat, a: seq<Op>, b: seq<Op>, threshold: nat)
    ensures var first := Processed(flat, a, threshold);
            var second := Processed(first.flat, b, threshold);
            Processed(flat, a + b, threshold) == Outcome(second.flat, Add(first.tally, second.tally))
    decreases |b|
  {
    if b == [] {
      assert a + b == a;
    } else {
      var n := |b| - 1;
      ProcessedAppend(flat, a, b[..n], threshold);
      assert a + b == (a + b[..n]) + [b[n]];
      assert b == b[..n] + [b[n]];
      ProcessedSnoc(flat, a + b[..n], b[n], threshold);
      ProcessedSnoc(Processed(flat, a, threshold).flat, b[..n], b[n], threshold);
      hide Processed, Step;
    }
  }

  function Counted(tally: Tally): nat {
    tally.applied + tally.stale + tally.notFound
  }

  lemma EffectCounted(current: Option<ValueState>, op: Op, threshold: nat)
    ensures var tally := Effect(current, op, threshold).1;
            Counted(tally) == 1 && tally.invalidated <= tally.applied
  {
    hide Missed, AckApplies, Acked;
  }

  lemma StepCounted(flat: Flat, op: Op, threshold: nat)
    ensures var tally := Step(Outcome(flat, ZERO_TALLY), op, threshold).tally;
            Counted(tally) == 1 && tally.invalidated <= tally.applied
  {
    hide Put, Effect, Lookup;
    var current := Lookup(flat, op.itemID);
    EffectCounted(current, op, threshold);
    AddZero(Effect(current, op, threshold).1);
  }

  lemma AddCounted(a: Tally, b: Tally)
    ensures Counted(Add(a, b)) == Counted(a) + Counted(b)
    ensures a.invalidated <= a.applied && b.invalidated <= b.applied ==> Add(a, b).invalidated <= Add(a, b).applied
  {
  }

  lemma ProcessedNone(flat: Flat, threshold: nat)
    ensures Processed(flat, [], threshold) == Outcome(flat, ZERO_TALLY)
  {
  }

  /** Every operation is counted exactly once. */
  lemma {:induction false} TallyTotal(flat: Flat, ops: seq<Op>, threshold: nat)
    ensures var tally := Processed(flat, ops, threshold).tally;
            Counted(tally) == |ops| && tally.invalidated <= tally.applied
    decreases |ops|
  {
    hide Processed, Step, Add;
    if ops == [] {
      ProcessedNone(flat, threshold);
    } else {
      var n := |ops| - 1;
      TallyTotal(flat, ops[..n], threshold);
      assert ops == ops[..n] + [ops[n]];
      ProcessedSnoc(flat, ops[..n], ops[n], threshold);
      var before := Processed(flat, ops[..n], threshold);
      StepCounted(before.flat, ops[n], threshold);
      AddCounted(before.tally, Step(Outcome(before.flat, ZERO_TALLY), ops[n], threshold).tally);
    }
  }

  /** One removal takes its item away exactly when its version, if it names one, is
      the cached one. */
  lemma RemovalStep(flat: Flat, op: Op, threshold: nat, id: string)
    requires op.Remove? || op.RemoveVersioned?
    ensures Lookup(Step(Outcome(flat, ZERO_TALLY), op, threshold).flat, id) ==
      if id in flat && op != Remove(id) && op != RemoveVersioned(id, flat[id].valueVersion) then Some(flat[id])
      else None
  {
  }

  predicate OnlyRemovals(ops: seq<Op>) {
    forall i :: 0 <= i < |ops| ==> ops[i].Remove? || ops[i].RemoveVersioned?
  }

  /** A list of removals takes away exactly the states it names, by item or by item and
      version, and leaves every other state as it was. */
  lemma {:induction false} RemovalsExact(flat: Flat, ops: seq<Op>, threshold: nat, id: string)
    requires OnlyRemovals(ops)
    ensures Lookup(Processed(flat, ops, threshold).flat, id) ==
      if id in flat && Remove(id) !in ops && RemoveVersioned(id, flat[id].valueVersion) !in ops then Some(flat[id])
      else None
    decreases |ops|
  {
    if ops != [] {
      var n := |ops| - 1;
      RemovalsExact(flat, ops[..n], threshold, id);
      assert ops == ops[..n] + [ops[n]];
      ProcessedSnoc(flat, ops[..n], ops[n], threshold);
      RemovalStep(Processed(flat, ops[..n], threshold).flat, ops[n], threshold, id);
      hide Processed, Step;
    }
  }

  /** Whatever a list of removals takes away is counted, once each; only a removal that names
      a version can be stale. */
  lemma {:induction false} RemovalsCounted(flat: Flat, ops: seq<Op>, threshold: nat)
    requires OnlyRemovals(ops)
    ensures var after := Processed(flat, ops, threshold);
            && |after.flat| + after.tally.applied == |flat|
            && ((forall i :: 0 <= i < |ops| ==> ops[i].Remove?) ==> after.tally.stale == 0)
    decreases |ops|
  {
    hide Processed, Step;
    if ops == [] {
      ProcessedNone(flat, threshold);
    } else {
      var n := |ops| - 1;
      RemovalsCounted(flat, ops[..n], threshold);
      assert ops == ops[..n] + [ops[n]];
      ProcessedSnoc(flat, ops[..n], ops[n], threshold);
      RemovalCounted(Processed(flat, ops[..n], threshold).flat, ops[n], threshold);
    }
  }

  lemma RemovalCounted(flat: Flat, op: Op, threshold: nat)
    requires op.Remove? || op.RemoveVersioned?
    ensures var after := Step(Outcome(flat, ZERO_TALLY), op, threshold);
            |after.flat| + after.tally.applied == |flat| && (op.Remove? ==> after.tally.stale == 0)
  {
    hide Step, Add;
    if op.itemID !in flat {
      StepAbsent(flat, op, threshold);
    } else if op.RemoveVersioned? && flat[op.itemID].valueVersion != op.version {
      StepPresent(flat, op, threshold, Some(flat[op.itemID]), STALE);
    } else {
      StepPresent(flat, op, threshold, None, APPLIED);
      assert (flat - {op.itemID}).Keys == flat.Keys - {op.itemID};
      assert |flat - {op.itemID}| == |flat.Keys - {op.itemID}|;
    }
  }

  /** Marks for different items fetched at one instant. */
  ghost predicate MarksOf(ops: seq<Op>, ids: seq<string>, fetchedAt: int) {
    && |ops| == |ids| && (forall i :: 0 <= i < |ids| ==> ops[i] == Miss(ids[i], fetchedAt))
    && (forall i, j :: 0 <= i < j < |ids| ==> ids[i] != ids[j])
  }

  /** Marking different items gives each that is cached one miss, and leaves the others alone. */
  lemma {:induction false} MarksExact(flat: Flat, ops: seq<Op>, ids: seq<string>, fetchedAt: int, threshold: nat,
                                      id: string)
    requires MarksOf(ops, ids, fetchedAt)
    ensures Lookup(Processed(flat, ops, threshold).flat, id) ==
      if id in flat && id in ids then Some(Missed(flat[id], fetchedAt, threshold)) else Lookup(flat, id)
    decreases |ops|
  {
    if ops != [] {
      var n := |ops| - 1;
      MarksExact(flat, ops[..n], ids[..n], fetchedAt, threshold, id);
      assert ops == ops[..n] + [ops[n]] && ids == ids[..n] + [ids[n]];
      ProcessedSnoc(flat, ops[..n], ops[n], threshold);
      var before := Processed(flat, ops[..n], threshold).flat;
      LookupPut(before, ids[n], Effect(Lookup(before, ids[n]), ops[n], threshold).0, id);
      hide Processed, Missed, Put;
    }
  }

  /** The counters of such a list: the marked items, and those of them that turned invalid. */
  lemma {:induction false} MarksCounted(flat: Flat, ops: seq<Op>, ids: seq<string>, fetchedAt: int, threshold: nat)
    requires MarksOf(ops, ids, fetchedAt)
    ensures var tally := Processed(flat, ops, threshold).tally;
            && tally.applied == |Marked(flat, ids)| && tally.stale == 0
            && tally.invalidated == |Spoilt(flat, ids, fetchedAt, threshold)|
    decreases |ops|
  {
    hide Processed, Missed, Step, Marked, Spoilt;
    if ops == [] {
      ProcessedNone(flat, threshold);
      NothingMarked(flat, fetchedAt, threshold);
    } else {
      var n := |ops| - 1;
      MarksCounted(flat, ops[..n], ids[..n], fetchedAt, threshold);
      MarksExact(flat, ops[..n], ids[..n], fetchedAt, threshold, ids[n]);
      assert ops == ops[..n] + [ops[n]];
      ProcessedSnoc(flat, ops[..n], ops[n], threshold);
      MarkedSnoc(flat, ids, fetchedAt, threshold);
      MarkCounted(flat, Processed(flat, ops[..n], threshold).flat, ids[n], fetchedAt, threshold);
    }
  }

  lemma NothingMarked(flat: Flat, fetchedAt: int, threshold: nat)
    ensures Marked(flat, []) == {} && Spoilt(flat, [], fetchedAt, threshold) == {}
  {
  }

  lemma MarkCounted(flat: Flat, before: Flat, id: string, fetchedAt: int, threshold: nat)
    requires Lookup(before, id) == Lookup(flat, id)
    ensures var tally := Step(Outcome(before, ZERO_TALLY), Miss(id, fetchedAt), threshold).tally;
            && tally.applied == (if id in flat then 1 else 0) && tally.stale == 0
            && tally.invalidated ==
                 (if id in flat && flat[id].valid && !Missed(flat[id], fetchedAt, threshold).valid then 1 else 0)
  {
    hide Missed, Put, Step, Add;
    if id in flat {
      var missed := Missed(flat[id], fetchedAt, threshold);
      StepPresent(before, Miss(id, fetchedAt), threshold, Some(missed),
                  if flat[id].valid && !missed.valid then INVALIDATED else APPLIED);
    } else {
      StepAbsent(before, Miss(id, fetchedAt), threshold);
    }
  }

  function Marked(flat: Flat, ids: seq<string>): set<string> {
    set id | id in ids && id in flat
  }

  /** The marked items whose value turns invalid. */
  function Spoilt(flat: Flat, ids: seq<string>, fetchedAt: int, threshold: nat): set<string> {
    set id | id in ids && id in flat && flat[id].valid && !Missed(flat[id], fetchedAt, threshold).valid
  }

  lemma MarkedSnoc(flat: Flat, ids: seq<string>, fetchedAt: int, threshold: nat)
    requires ids != [] && ids[|ids| - 1] !in ids[..|ids| - 1]
    ensures var n := |ids| - 1;
            && |Marked(flat, ids)| == |Marked(flat, ids[..n])| + (if ids[n] in flat then 1 else 0)
            && |Spoilt(flat, ids, fetchedAt, threshold)| == |Spoilt(flat, ids[..n], fetchedAt, threshold)| +
                 (if ids[n] in flat && flat[ids[n]].valid && !Missed(flat[ids[n]], fetchedAt, threshold).valid then 1
                  else 0)
  {
    hide Missed;
    var n := |ids| - 1;
    assert ids == ids[..n] + [ids[n]];
    assert Marked(flat, ids) == Marked(flat, ids[..n]) + (if ids[n] in flat then {ids[n]} else {});
    var spoilt := ids[n] in flat && flat[ids[n]].valid && !Missed(flat[ids[n]], fetchedAt, threshold).valid;
    assert Spoilt(flat, ids, fetchedAt, threshold) ==
      Spoilt(flat, ids[..n], fetchedAt, threshold) + (if spoilt then {ids[n]} else {});
  }

  // ---------- Regrouping by shard ----------

  // The shard of an item is any function of its id; how many shards there are only
  // matters for covering all of them.

  /** The operations of one shard, in their original order. */
  function Bucket(place: string -> nat, ops: seq<Op>, shard: nat): seq<Op>
  {
    if ops == [] then
      []
    else
      var last := ops[|ops| - 1];
      Bucket(place, ops[..|ops| - 1], shard) +
      (if place(last.itemID) == shard then [last] else [])
  }

  /** The buckets of the first `upTo` shards, one after the other. */
  function Regrouped(place: string -> nat, ops: seq<Op>, upTo: nat): seq<Op>
  {
    if upTo == 0 then
      []
    else
      Regrouped(place, ops, upTo - 1) + Bucket(place, ops, upTo - 1)
  }

  ghost predicate Avoids(ops: seq<Op>, itemID: string) {
    forall op :: op in ops ==> op.itemID != itemID
  }

  lemma {:induction false} BucketAvoids(place: string -> nat, ops: seq<Op>, shard: nat, itemID: string)
    requires place(itemID) != shard
    ensures Avoids(Bucket(place, ops, shard), itemID)
  {
    if ops != [] {
      BucketAvoids(place, ops[..|ops| - 1], shard, itemID);
    }
  }

  lemma LookupPut(flat: Flat, itemID: string, cell: Option<ValueState>, other: string)
    ensures Lookup(Put(flat, itemID, cell), other) == if other == itemID then cell else Lookup(flat, other)
  {
  }

  lemma PutsCommute(flat: Flat, a: string, cellA: Option<ValueState>, b: string, cellB: Option<ValueState>)
    requires a != b
    ensures Put(Put(flat, a, cellA), b, cellB) == Put(Put(flat, b, cellB), a, cellA)
  {
  }

  lemma {:induction false} BucketPlaced(place: string -> nat, ops: seq<Op>, shard: nat)
    ensures forall i :: 0 <= i < |Bucket(place, ops, shard)| ==>
      place(Bucket(place, ops, shard)[i].itemID) == shard
    ensures forall op :: op in Bucket(place, ops, shard) ==> op in ops
  {
    if ops != [] {
      BucketPlaced(place, ops[..|ops| - 1], shard);
    }
  }

  /** Operations on different items commute. */
  lemma StepsCommute(outcome: Outcome, a: Op, b: Op, threshold: nat)
    requires a.itemID != b.itemID
    ensures Step(Step(outcome, a, threshold), b, threshold) == Step(Step(outcome, b, threshold), a, threshold)
  {
    var (cellA, tallyA) := Effect(Lookup(outcome.flat, a.itemID), a, threshold);
    var (cellB, tallyB) := Effect(Lookup(outcome.flat, b.itemID), b, threshold);
    LookupPut(outcome.flat, a.itemID, cellA, b.itemID);
    LookupPut(outcome.flat, b.itemID, cellB, a.itemID);
    PutsCommute(outcome.flat, a.itemID, cellA, b.itemID, cellB);
  }

  lemma {:induction false} RunAppend(start: Outcome, a: seq<Op>, b: seq<Op>, threshold: nat)
    ensures Run(start, a + b, threshold) == Run(Run(start, a, threshold), b, threshold)
  {
    if b == [] {
      assert a + b == a;
    } else {
      var n := |b| - 1;
      RunAppend(start, a, b[..n], threshold);
      assert (a + b)[..|a + b| - 1] == a + b[..n];
    }
  }

  /** An operation may be delayed past a run of operations on other items. */
  lemma {:induction false} Delay(start: Outcome, op: Op, others: seq<Op>, threshold: nat)
    requires Avoids(others, op.itemID)
    ensures Run(Step(start, op, threshold), others, threshold) == Step(Run(start, others, threshold), op, threshold)
  {
    if others != [] {
      var n := |others| - 1;
      assert others[n] in others;
      Delay(start, op, others[..n], threshold);
      StepsCommute(Run(start, others[..n], threshold), op, others[n], threshold);
    }
  }

  lemma BucketAppend(place: string -> nat, ops: seq<Op>, op: Op, shard: nat)
    ensures Bucket(place, ops + [op], shard) ==
      Bucket(place, ops, shard) + (if place(op.itemID) == shard then [op] else [])
  {
    assert (ops + [op])[..|ops|] == ops;
  }

  lemma {:induction false} RegroupEarlier(place: string -> nat, ops: seq<Op>, op: Op, upTo: nat)
    requires place(op.itemID) >= upTo
    ensures Regrouped(place, ops + [op], upTo) == Regrouped(place, ops, upTo)
  {
    if upTo > 0 {
      RegroupEarlier(place, ops, op, upTo - 1);
      BucketAppend(place, ops, op, upTo - 1);
    }
  }

  /** Adding one operation to the list adds it to its bucket, and the later buckets
      do not notice. */
  lemma {:induction false} RegroupOne(place: string -> nat, start: Outcome, ops: seq<Op>, op: Op,
                                      upTo: nat, threshold: nat)
    requires place(op.itemID) < upTo
    ensures Run(start, Regrouped(place, ops + [op], upTo), threshold) ==
      Step(Run(start, Regrouped(place, ops, upTo), threshold), op, threshold)
    decreases upTo
  {
    if place(op.itemID) == upTo - 1 {
      RegroupHere(place, start, ops, op, upTo, threshold);
    } else {
      RegroupOne(place, start, ops, op, upTo - 1, threshold);
      RegroupBehind(place, start, ops, op, upTo, threshold);
    }
  }

  lemma RegroupHere(place: string -> nat, start: Outcome, ops: seq<Op>, op: Op, upTo: nat, threshold: nat)
    requires place(op.itemID) == upTo - 1
    ensures Run(start, Regrouped(place, ops + [op], upTo), threshold) ==
      Step(Run(start, Regrouped(place, ops, upTo), threshold), op, threshold)
  {
    hide Run, Step;
    RegroupEarlier(place, ops, op, upTo - 1);
    BucketAppend(place, ops, op, upTo - 1);
    var head, tail := Regrouped(place, ops, upTo - 1), Bucket(place, ops, upTo - 1);
    Associate(head, tail, [op]);
    RunSnoc(start, head + tail, op, threshold);
  }

  lemma Associate(a: seq<Op>, b: seq<Op>, c: seq<Op>)
    ensures a + (b + c) == (a + b) + c
  {
  }

  lemma RegroupBehind(place: string -> nat, start: Outcome, ops: seq<Op>, op: Op, upTo: nat, threshold: nat)
    requires upTo > 0 && place(op.itemID) != upTo - 1
    requires Run(start, Regrouped(place, ops + [op], upTo - 1), threshold) ==
      Step(Run(start, Regrouped(place, ops, upTo - 1), threshold), op, threshold)
    ensures Run(start, Regrouped(place, ops + [op], upTo), threshold) ==
      Step(Run(start, Regrouped(place, ops, upTo), threshold), op, threshold)
  {
    hide Run, Step;
    var tail := Bucket(place, ops, upTo - 1);
    assert Regrouped(place, ops + [op], upTo) == Regrouped(place, ops + [op], upTo - 1) + tail by {
      BucketAppend(place, ops, op, upTo - 1);
    }
    assert Regrouped(place, ops, upTo) == Regrouped(place, ops, upTo - 1) + tail;
    BucketAvoids(place, ops, upTo - 1, op.itemID);
    DelayBehind(start, Regrouped(place, ops, upTo - 1), Regrouped(place, ops + [op], upTo - 1), op, tail, threshold);
  }

  lemma DelayBehind(start: Outcome, head: seq<Op>, head': seq<Op>, op: Op, tail: seq<Op>, threshold: nat)
    requires Run(start, head', threshold) == Step(Run(start, head, threshold), op, threshold)
    requires Avoids(tail, op.itemID)
    ensures Run(start, head' + tail, threshold) == Step(Run(start, head + tail, threshold), op, threshold)
  {
    RunAppend(start, head, tail, threshold);
    RunAppend(start, head', tail, threshold);
    Delay(Run(start, head, threshold), op, tail, threshold);
  }

  lemma RunSnoc(start: Outcome, ops: seq<Op>, op: Op, threshold: nat)
    ensures Run(start, ops + [op], threshold) == Step(Run(start, ops, threshold), op, threshold)
  {
    assert (ops + [op])[..|ops|] == ops;
  }

  /** Sharding refines the flat map: for every hash function, shard count and list,
      duplicates included, processing shard by shard gives the same final states and
      the same counters as processing the list in order. */
  lemma {:induction false} RegroupingRefines(place: string -> nat, shardCount: nat, start: Outcome, ops: seq<Op>,
                                             threshold: nat)
    requires forall id :: place(id) < shardCount
    ensures Run(start, Regrouped(place, ops, shardCount), threshold) == Run(start, ops, threshold)
    decreases |ops|
  {
    if ops == [] {
      NothingToRegroup(place, shardCount);
    } else {
      var n := |ops| - 1;
      RegroupingRefines(place, shardCount, start, ops[..n], threshold);
      RegroupOne(place, start, ops[..n], ops[n], shardCount, threshold);
      assert ops[..n] + [ops[n]] == ops;
    }
  }

  lemma ProcessedRegrouped(place: string -> nat, shardCount: nat, flat: Flat, ops: seq<Op>, threshold: nat)
    requires forall id :: place(id) < shardCount
    ensures Processed(flat, Regrouped(place, ops, shardCount), threshold) == Processed(flat, ops, threshold)
  {
    RegroupingRefines(place, shardCount, Outcome(flat, ZERO_TALLY), ops, threshold);
  }

  lemma NothingToRegroup(place: string -> nat, upTo: nat)
    ensures Regrouped(place, [], upTo) == []
  {
  }
}

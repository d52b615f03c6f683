/** The life of one cached value over whole runs of the protocol: its versions, its
    expiry, when it may turn invalid and how often it can be acknowledged
    (internal/cache/value_cache.go, internal/cache/value_state.go). */
module Lifecycles {
  import opened CacheProtocols
  import opened ExpiryAgreements
  import opened ExpiryWheels
  import opened FlatCaches
  import opened Installs
  import opened MetadataStores
  import opened Options
  import opened Times
  import opened ValueCaches
  import opened ValueStates

  /** Equal but for the time of the last fetch. */
  predicate Alike(a: ValueState, b: ValueState) {
    a.(lastFetchAt := 0) == b.(lastFetchAt := 0)
  }

  /** The item is cached, in this generation, at every point of a stretch of the run. */
  ghost predicate Lives(states: seq<State>, i: nat, j: nat, id: string, version: nat) {
    && i <= j < |states|
    && forall k :: i <= k <= j ==> id in states[k].flat && states[k].flat[id].valueVersion == version
  }

  /** Step `k` installs a value of the item. */
  predicate InstallsAt(actions: seq<Action>, k: nat, id: string) {
    k < |actions| && actions[k].Insert? && actions[k].e.pending.itemID == id && Installing(actions[k].e.verdict)
  }

  predicate IsMiss(a: Action, id: string) {
    a.Update? && a.op.Miss? && a.op.itemID == id
  }

  /** How often the item was marked as missed in a stretch of the run. */
  function Marks(actions: seq<Action>, i: nat, j: nat, id: string): nat
    requires i <= j <= |actions|
    decreases j
  {
    if i == j then 0 else Marks(actions, i, j - 1, id) + (if IsMiss(actions[j - 1], id) then 1 else 0)
  }

  /** Step `k` is an acknowledgement that changes publishing state. */
  ghost predicate AckedAt(states: seq<State>, actions: seq<Action>, k: nat, id: string) {
    && k < |actions| && k < |states| && id in states[k].flat
    && actions[k].Update? && actions[k].op.Ack? && actions[k].op.itemID == id
    && actions[k].op.version == states[k].flat[id].valueVersion
    && AckApplies(states[k].flat[id], actions[k].op.publishedTimestamp)
  }

  // ---------- One step in the life of a value ----------

  lemma OpAt(flat: Flat, op: Op, threshold: nat, id: string)
    ensures Lookup(Step(Outcome(flat, ZERO_TALLY), op, threshold).flat, id) ==
      if op.itemID == id then Effect(Lookup(flat, id), op, threshold).0 else Lookup(flat, id)
  {
    hide Effect, Put;
    LookupPut(flat, op.itemID, Effect(Lookup(flat, op.itemID), op, threshold).0, id);
  }

  /** An installation either concerns another item, or gives this one a version it never
      had, or only records a fetch. */
  lemma InstallAt(flat: Flat, e: Installation, id: string)
    requires id in flat
    ensures id in Install(flat, e)
    ensures var after := Install(flat, e)[id];
            || Alike(after, flat[id])
            || (e.pending.itemID == id && Installing(e.verdict) && after.valueVersion == e.version)
  {
  }

  lemma InsertOnLive(c: Config, s: State, e: Installation, id: string)
    requires AllSound(c, s.flat, s.nextVersion) && Justified(s.flat, s.nextVersion, e, _ => true, c.slotOf)
    requires id in s.flat && Install(s.flat, e)[id].valueVersion == s.flat[id].valueVersion
    ensures Alike(Install(s.flat, e)[id], s.flat[id])
  {
    InstallAt(s.flat, e, id);
    assert Sound(id, s.flat[id], c.slotOf, s.nextVersion);
    hide Install, VerdictFor, Alike, Sound, Derived;
    assert s.flat[id].valueVersion <= s.nextVersion by { SoundVersion(id, s.flat[id], c.slotOf, s.nextVersion); }
  }

  lemma SoundVersion(id: string, state: ValueState, slotOf: string -> nat, nextVersion: nat)
    requires Sound(id, state, slotOf, nextVersion)
    ensures 0 < state.valueVersion <= nextVersion
  {
  }

  /** What a step makes of a value that is there before and after, in one generation. */
  lemma LiveStep(c: Config, s: State, a: Action, s': State, id: string)
    requires s.published != [] && AllSound(c, s.flat, s.nextVersion) && Next(c, s, a, s')
    requires id in s.flat && id in s'.flat && s'.flat[id].valueVersion == s.flat[id].valueVersion
    ensures a.Update? && a.op.itemID == id ==>
      Effect(Some(s.flat[id]), a.op, c.threshold).0 == Some(s'.flat[id])
    ensures !(a.Update? && a.op.itemID == id) ==> Alike(s'.flat[id], s.flat[id])
  {
    hide Processed, Effect, Step, Install, Justified, AllSound, Publishes, ToReconcile;
    match a {
      case Insert(_, e) => InsertOnLive(c, s, e, id);
      case Reconcile(_, ids) => RemovedAll(s.flat, ids, c.threshold, id);
      case Expire(_, items) => ExpiredAt(s.flat, items, c.threshold, id);
      case Update(op) => OpAt(s.flat, op, c.threshold, id);
      case _ =>
    }
  }

  lemma ExpiredAt(flat: Flat, items: seq<ExpiryEntry>, threshold: nat, id: string)
    ensures var next := AfterDeleting(flat, items, threshold).flat; id in next ==> id in flat && next[id] == flat[id]
  {
    hide AfterDeleting;
    DeletedExactly(flat, items, threshold, id);
  }

  lemma StepAlive(c: Config, states: seq<State>, actions: seq<Action>, k: nat, id: string, version: nat, i: nat, j: nat)
    requires Execution(c, states, actions) && Lives(states, i, j, id, version) && i <= k < j
    ensures k < |actions| && id in states[k].flat && id in states[k + 1].flat
    ensures states[k].flat[id].valueVersion == version && states[k + 1].flat[id].valueVersion == version
    ensures actions[k].Update? && actions[k].op.itemID == id ==>
      Effect(Some(states[k].flat[id]), actions[k].op, c.threshold).0 == Some(states[k + 1].flat[id])
    ensures !(actions[k].Update? && actions[k].op.itemID == id) ==> Alike(states[k + 1].flat[id], states[k].flat[id])
  {
    Reachable(c, states, actions, k);
    hide Effect, Alike, Next, AllSound, Settled, Originated, Expiring, History;
    assert Next(c, states[k], actions[k], states[k + 1]);
    LiveStep(c, states[k], actions[k], states[k + 1], id);
  }

  // ---------- Where a value comes from ----------

  /** A value that is there after a step was there before, in its generation, or the step
      has just installed it under a version never used before. */
  lemma Appears(c: Config, s: State, a: Action, s': State, id: string)
    requires s.published != [] && Next(c, s, a, s') && id in s'.flat
    ensures (id in s.flat && s.flat[id].valueVersion == s'.flat[id].valueVersion)
      || (a.Insert? && a.e.pending.itemID == id && Installing(a.e.verdict)
          && s'.flat[id].valueVersion == a.e.version && a.e.version > s.nextVersion)
  {
    hide Processed, Effect, Step, Install, Justified, Publishes, ToReconcile;
    match a {
      case Insert(_, e) => AppearsByInsert(c, s, e, id);
      case Reconcile(_, ids) => RemovedAll(s.flat, ids, c.threshold, id);
      case Expire(_, items) => ExpiredAt(s.flat, items, c.threshold, id);
      case Update(op) =>
        OpAt(s.flat, op, c.threshold, id);
        EffectKeepsVersion(Lookup(s.flat, id), op, c.threshold);
      case _ =>
    }
  }

  lemma AppearsByInsert(c: Config, s: State, e: Installation, id: string)
    requires Justified(s.flat, s.nextVersion, e, _ => true, c.slotOf) && id in Install(s.flat, e)
    ensures (id in s.flat && s.flat[id].valueVersion == Install(s.flat, e)[id].valueVersion)
      || (e.pending.itemID == id && Installing(e.verdict)
          && Install(s.flat, e)[id].valueVersion == e.version && e.version > s.nextVersion)
  {
  }

  lemma EffectKeepsVersion(cell: Option<ValueState>, op: Op, threshold: nat)
    ensures var next := Effect(cell, op, threshold).0;
            next.Some? ==> cell.Some? && next.value.valueVersion == cell.value.valueVersion
  {
  }

  lemma StepOfRun(c: Config, states: seq<State>, actions: seq<Action>, k: nat, id: string)
    requires Execution(c, states, actions) && k < |actions| && id in states[k + 1].flat
    ensures |states| == |actions| + 1
    ensures (id in states[k].flat && states[k].flat[id].valueVersion == states[k + 1].flat[id].valueVersion)
      || (InstallsAt(actions, k, id) && states[k + 1].flat[id].valueVersion == actions[k].e.version
          && actions[k].e.version > states[k].nextVersion)
  {
    Reachable(c, states, actions, k);
    hide Next, AllSound, Settled, Originated, Expiring, History;
    assert Next(c, states[k], actions[k], states[k + 1]);
    Appears(c, states[k], actions[k], states[k + 1], id);
  }

  /** Every cached value was installed once, at some step of the run, and has been cached
      ever since. */
  lemma {:induction false} Born(c: Config, states: seq<State>, actions: seq<Action>, j: nat, id: string)
    returns (i: nat)
    requires Execution(c, states, actions) && j < |states| && id in states[j].flat
    ensures 0 < i <= j && InstallsAt(actions, i - 1, id)
    ensures actions[i - 1].e.version == states[j].flat[id].valueVersion > states[i - 1].nextVersion
    ensures Lives(states, i, j, id, states[j].flat[id].valueVersion)
  {
    hide Next, InstallsAt;
    StartsEmpty(c, states, actions);
    StepOfRun(c, states, actions, j - 1, id);
    if id in states[j - 1].flat && states[j - 1].flat[id].valueVersion == states[j].flat[id].valueVersion {
      i := Born(c, states, actions, j - 1, id);
    } else {
      i := j;
    }
  }

  lemma StartsEmpty(c: Config, states: seq<State>, actions: seq<Action>)
    requires Execution(c, states, actions)
    ensures |states| == |actions| + 1 && states[0].flat == map[]
  {
  }

  lemma VersionsBounded(c: Config, states: seq<State>, actions: seq<Action>, i: nat, id: string)
    requires Execution(c, states, actions) && i < |states| && id in states[i].flat
    ensures 0 < states[i].flat[id].valueVersion <= states[i].nextVersion
  {
    Reachable(c, states, actions, i);
    hide Settled, Originated, Expiring, History, Sound, Execution;
    assert Sound(id, states[i].flat[id], c.slotOf, states[i].nextVersion);
    SoundVersion(id, states[i].flat[id], c.slotOf, states[i].nextVersion);
  }

  /** A version that has left the cache never comes back: between any two points of a run at
      which it is cached it was cached throughout. */
  lemma NeverReturns(c: Config, states: seq<State>, actions: seq<Action>, i: nat, j: nat, id: string)
    requires Execution(c, states, actions) && i <= j < |states| && id in states[i].flat && id in states[j].flat
    requires states[i].flat[id].valueVersion == states[j].flat[id].valueVersion
    ensures Lives(states, i, j, id, states[i].flat[id].valueVersion)
  {
    hide Execution, InstallsAt;
    var b := Born(c, states, actions, j, id);
    if i < b {
      VersionsGrow(c, states, actions, i, b - 1);
      VersionsBounded(c, states, actions, i, id);
      assert false;
    }
  }

  /** The versions in which an item is seen over a run never go back, whatever deletions and
      reinsertions lie between: a reader that sees the item again sees the same version or a
      later one. */
  lemma SeenVersionsGrow(c: Config, states: seq<State>, actions: seq<Action>, i: nat, j: nat, id: string)
    requires Execution(c, states, actions) && i <= j < |states| && id in states[i].flat && id in states[j].flat
    ensures states[i].flat[id].valueVersion <= states[j].flat[id].valueVersion
  {
    hide Execution, InstallsAt;
    var b := Born(c, states, actions, j, id);
    if i < b {
      VersionsGrow(c, states, actions, i, b - 1);
      VersionsBounded(c, states, actions, i, id);
    } else {
      LivesAt(states, b, j, id, states[j].flat[id].valueVersion, i);
    }
  }

  // ---------- Misses ----------

  function Capped(n: nat): nat {
    if n <= MAX_UINT32 then n else MAX_UINT32
  }

  lemma MissEffect(state: ValueState, op: Op, threshold: nat, next: ValueState)
    requires Effect(Some(state), op, threshold).0 == Some(next) && state.consecutiveMisses <= MAX_UINT32
    ensures next.consecutiveMisses == if op.Miss? then Capped(state.consecutiveMisses + 1) else state.consecutiveMisses
    ensures next.sourceTimestamp == state.sourceTimestamp && next.delay == state.delay
    ensures next.valid <==> (state.valid
      && !(op.Miss? && next.consecutiveMisses >= threshold
           && op.fetchedAt > MissInvalidAfter(state.sourceTimestamp, state.delay)))
    ensures next.lastFetchAt == if op.Miss? then op.fetchedAt else state.lastFetchAt
  {
  }

  /** A step that marks the item with a fetch made after the value's miss deadline. */
  ghost predicate LateMark(a: Action, id: string, state: ValueState) {
    IsMiss(a, id) && a.op.fetchedAt > MissInvalidAfter(state.sourceTimestamp, state.delay)
  }

  /** Step `k` is a late mark, and the one that makes the marks since step `i` enough, or
      one after that. */
  ghost predicate Invalidates(c: Config, actions: seq<Action>, i: nat, k: nat, id: string, state: ValueState)
    requires i <= k < |actions|
  {
    LateMark(actions[k], id, state) && Capped(Marks(actions, i, k + 1, id)) >= c.threshold
  }

  ghost predicate Invalidated(c: Config, actions: seq<Action>, i: nat, j: nat, id: string, state: ValueState)
    requires j <= |actions|
  {
    exists k :: i <= k < j && Invalidates(c, actions, i, k, id, state)
  }

  /** What a value has come to since it was installed as `first`. */
  ghost predicate Aged(c: Config, first: ValueState, state: ValueState, actions: seq<Action>, i: nat, j: nat,
                       id: string)
    requires i <= j <= |actions|
  {
    && state.consecutiveMisses == Capped(Marks(actions, i, j, id))
    && state.sourceTimestamp == first.sourceTimestamp && state.delay == first.delay
    && (!state.valid <==> Invalidated(c, actions, i, j, id, first))
  }

  lemma AgedNext(c: Config, first: ValueState, before: ValueState, after: ValueState, actions: seq<Action>,
                 i: nat, j: nat, id: string)
    requires i < j <= |actions| && Aged(c, first, before, actions, i, j - 1, id)
    requires actions[j - 1].Update? && actions[j - 1].op.itemID == id ==>
      Effect(Some(before), actions[j - 1].op, c.threshold).0 == Some(after)
    requires !(actions[j - 1].Update? && actions[j - 1].op.itemID == id) ==> Alike(after, before)
    ensures Aged(c, first, after, actions, i, j, id)
  {
    MarkStep(c, before, actions[j - 1], after, id);
    MarksNext(actions, i, j, id);
    SameDeadline(first, before, actions[j - 1], id);
    InvalidatedNext(c, actions, i, j, id, first);
    hide Effect, Alike, LateMark, Marks, IsMiss, Invalidated;
    assert Invalidates(c, actions, i, j - 1, id, first) <==>
      LateMark(actions[j - 1], id, before) && after.consecutiveMisses >= c.threshold by {
      LateIsMark(actions[j - 1], id, before);
    }
  }

  lemma LateIsMark(a: Action, id: string, state: ValueState)
    ensures LateMark(a, id, state) ==> IsMiss(a, id)
  {
  }

  lemma MarksNext(actions: seq<Action>, i: nat, j: nat, id: string)
    requires i < j <= |actions|
    ensures Marks(actions, i, j, id) == Marks(actions, i, j - 1, id) + (if IsMiss(actions[j - 1], id) then 1 else 0)
  {
  }

  lemma SameDeadline(a: ValueState, b: ValueState, action: Action, id: string)
    requires a.sourceTimestamp == b.sourceTimestamp && a.delay == b.delay
    ensures LateMark(action, id, a) <==> LateMark(action, id, b)
  {
  }

  lemma InvalidatedNext(c: Config, actions: seq<Action>, i: nat, j: nat, id: string, state: ValueState)
    requires i < j <= |actions|
    ensures Invalidated(c, actions, i, j, id, state) <==>
      Invalidated(c, actions, i, j - 1, id, state) || Invalidates(c, actions, i, j - 1, id, state)
  {
    hide Invalidates;
    if Invalidated(c, actions, i, j - 1, id, state) {
      var k :| i <= k < j - 1 && Invalidates(c, actions, i, k, id, state);
      assert i <= k < j && Invalidates(c, actions, i, k, id, state);
    }
  }

  /** In every reachable state the miss counter of a cached value is the number of marks since
      the value was installed, whatever fetches and acknowledgements happened in between; and
      the value is invalid exactly if one of those marks came after its miss deadline when
      enough marks had been made. */
  lemma MissesCounted(c: Config, states: seq<State>, actions: seq<Action>, j: nat, id: string) returns (i: nat)
    requires Execution(c, states, actions) && j < |states| && id in states[j].flat
    ensures 0 < i <= j && InstallsAt(actions, i - 1, id) && j <= |actions|
    ensures actions[i - 1].e.version == states[j].flat[id].valueVersion
    ensures Lives(states, i, j, id, states[j].flat[id].valueVersion) && id in states[i].flat
    ensures Aged(c, states[i].flat[id], states[j].flat[id], actions, i, j, id)
  {
    hide Execution, Aged, Lives, InstallsAt;
    i := Born(c, states, actions, j, id);
    LivesAt(states, i, j, id, states[j].flat[id].valueVersion, i);
    StartsEmpty(c, states, actions);
    MissesSince(c, states, actions, i, j, id, states[j].flat[id].valueVersion);
  }

  lemma {:induction false} MissesSince(c: Config, states: seq<State>, actions: seq<Action>, i: nat, j: nat,
                                       id: string, version: nat)
    requires Execution(c, states, actions) && 0 < i && Lives(states, i, j, id, version)
    requires InstallsAt(actions, i - 1, id) && actions[i - 1].e.version == version
    ensures Aged(c, states[i].flat[id], states[j].flat[id], actions, i, j, id)
    decreases j
  {
    hide Execution, Effect, Aged, Lives, InstallsAt, Alike;
    LivesAt(states, i, j, id, version, i);
    if i == j {
      JustInstalled(c, states, actions, i, id);
      AgedFresh(c, states[i].flat[id], actions, i, id);
    } else {
      StepAlive(c, states, actions, j - 1, id, version, i, j);
      LivesShorter(states, i, j, id, version);
      MissesSince(c, states, actions, i, j - 1, id, version);
      AgedNext(c, states[i].flat[id], states[j - 1].flat[id], states[j].flat[id], actions, i, j, id);
    }
  }

  lemma AgedFresh(c: Config, first: ValueState, actions: seq<Action>, i: nat, id: string)
    requires i <= |actions| && first.consecutiveMisses == 0 && first.valid
    ensures Aged(c, first, first, actions, i, i, id)
  {
  }

  lemma LivesAt(states: seq<State>, i: nat, j: nat, id: string, version: nat, k: nat)
    requires Lives(states, i, j, id, version)
    ensures i <= j < |states|
    ensures i <= k <= j ==> id in states[k].flat && states[k].flat[id].valueVersion == version
  {
  }

  lemma LivesShorter(states: seq<State>, i: nat, j: nat, id: string, version: nat)
    requires Lives(states, i, j, id, version) && i < j
    ensures Lives(states, i, j - 1, id, version) && id in states[i].flat && id in states[j].flat
  {
  }

  lemma MarkStep(c: Config, before: ValueState, a: Action, after: ValueState, id: string)
    requires before.consecutiveMisses <= MAX_UINT32
    requires a.Update? && a.op.itemID == id ==> Effect(Some(before), a.op, c.threshold).0 == Some(after)
    requires !(a.Update? && a.op.itemID == id) ==> Alike(after, before)
    ensures after.sourceTimestamp == before.sourceTimestamp && after.delay == before.delay
    ensures after.consecutiveMisses ==
      if IsMiss(a, id) then Capped(before.consecutiveMisses + 1) else before.consecutiveMisses
    ensures !after.valid <==> !before.valid || (LateMark(a, id, before) && after.consecutiveMisses >= c.threshold)
  {
    if a.Update? && a.op.itemID == id {
      MissEffect(before, a.op, c.threshold, after);
    }
  }

  lemma InstallsFresh(flat: Flat, e: Installation)
    requires Installing(e.verdict)
    ensures var id := e.pending.itemID;
            && id in Install(flat, e)
            && Install(flat, e)[id].consecutiveMisses == 0 && Install(flat, e)[id].valid
            && Install(flat, e)[id].valueVersion == e.version
            && Install(flat, e)[id].lastPublishedVersion == 0
            && Install(flat, e)[id].lastPublishedTimestamp == ZERO_TIME
  {
  }

  lemma JustInstalled(c: Config, states: seq<State>, actions: seq<Action>, i: nat, id: string)
    requires Execution(c, states, actions) && 0 < i < |states| && InstallsAt(actions, i - 1, id)
    ensures id in states[i].flat && i <= |actions|
    ensures states[i].flat[id].consecutiveMisses == 0 && states[i].flat[id].valid
    ensures states[i].flat[id].valueVersion == actions[i - 1].e.version
  {
    var k := i - 1;
    assert Next(c, states[k], actions[k], states[k + 1]);
    InstallsFresh(states[k].flat, actions[k].e);
    hide Install, Justified;
  }

  // ---------- Versions ----------

  lemma VersionStep(c: Config, s: State, a: Action, s': State)
    requires s.published != [] && Next(c, s, a, s')
    ensures s.nextVersion <= s'.nextVersion
  {
    hide Install, Justified, Processed, Step, AfterDeleting, Publishes, ToReconcile, EntryOf;
  }

  lemma {:induction false} VersionsGrow(c: Config, states: seq<State>, actions: seq<Action>, i: nat, j: nat)
    requires Execution(c, states, actions) && i <= j < |states|
    ensures states[i].nextVersion <= states[j].nextVersion
    decreases j
  {
    hide Next;
    if i < j {
      VersionsGrow(c, states, actions, i, j - 1);
      assert Next(c, states[j - 1], actions[j - 1], states[j - 1 + 1]);
      VersionStep(c, states[j - 1], actions[j - 1], states[j]);
    }
  }

  /** Value versions are handed out once, in increasing order over the whole run, across
      all items and all writers. */
  lemma VersionsUnique(c: Config, states: seq<State>, actions: seq<Action>, i: nat, j: nat)
    requires Execution(c, states, actions) && i < j < |actions|
    requires actions[i].Insert? && Installing(actions[i].e.verdict)
    requires actions[j].Insert? && Installing(actions[j].e.verdict)
    ensures actions[i].e.version < actions[j].e.version
  {
    VersionsGrow(c, states, actions, i + 1, j);
    assert Next(c, states[i], actions[i], states[i + 1]);
    assert Next(c, states[j], actions[j], states[j + 1]);
    hide Install, WellFormedPending, VerdictFor;
  }

  /** Whatever fetches, misses and acknowledgements occur, a cached value expires exactly
      when its source point and delay say, and never before its miss deadline. */
  lemma ExpiryFixed(c: Config, states: seq<State>, actions: seq<Action>, i: nat, id: string)
    requires Execution(c, states, actions) && i < |states| && id in states[i].flat
    ensures var state := states[i].flat[id];
            && state.expireAt == ValueExpireAt(state.sourceTimestamp, state.delay)
            && MissInvalidAfter(state.sourceTimestamp, state.delay) <= state.expireAt
            && state.publishPolicy == PolicyForDelay(state.delay)
  {
    Reachable(c, states, actions, i);
    assert Sound(id, states[i].flat[id], c.slotOf, states[i].nextVersion);
    hide Execution, Inv, Settled, Originated, Expiring, History;
    MissDeadlineBeforeExpiry(states[i].flat[id].sourceTimestamp, states[i].flat[id].delay);
  }

  // ---------- Acknowledgements ----------

  lemma AckStep(state: ValueState, op: Op, threshold: nat, next: ValueState)
    requires Effect(Some(state), op, threshold).0 == Some(next)
    ensures next.publishPolicy == state.publishPolicy && next.valueVersion == state.valueVersion
    ensures next.lastPublishedVersion >= state.lastPublishedVersion || next.lastPublishedVersion == state.valueVersion
    ensures next.lastPublishedTimestamp >= state.lastPublishedTimestamp
    ensures op.Ack? && op.version == state.valueVersion && AckApplies(state, op.publishedTimestamp) ==>
      && (state.publishPolicy == SourceTimestamp ==> next.lastPublishedVersion == state.valueVersion)
      && next.lastPublishedTimestamp >= op.publishedTimestamp
  {
  }

  /** A version's publishing state once it has been acknowledged at `timestamp`. */
  ghost predicate Acknowledged(state: ValueState, policy: PublishPolicy, timestamp: int) {
    && state.publishPolicy == policy
    && (policy == SourceTimestamp ==> state.lastPublishedVersion >= state.valueVersion)
    && state.lastPublishedTimestamp >= timestamp
  }

  lemma {:induction false} StaysAcknowledged(c: Config, states: seq<State>, actions: seq<Action>, i: nat, j: nat,
                                             id: string, version: nat, k: nat)
    requires Execution(c, states, actions) && Lives(states, i, j, id, version)
    requires i <= k < j && AckedAt(states, actions, k, id)
    ensures Acknowledged(states[j].flat[id], states[k].flat[id].publishPolicy, actions[k].op.publishedTimestamp)
    decreases j
  {
    hide Execution, Effect, Lives, Acknowledged, AckedAt, Alike;
    StepAlive(c, states, actions, j - 1, id, version, i, j);
    LivesShorter(states, i, j, id, version);
    LivesAt(states, i, j, id, version, k);
    LivesAt(states, i, j, id, version, j);
    AckedIsUpdate(states, actions, k, id);
    if k == j - 1 {
      AcknowledgedFirst(c, states, actions, k, id, states[j].flat[id]);
    } else {
      StaysAcknowledged(c, states, actions, i, j - 1, id, version, k);
      AcknowledgedNext(c, states[j - 1].flat[id], actions[j - 1], states[j].flat[id], id,
                       states[k].flat[id].publishPolicy, actions[k].op.publishedTimestamp);
    }
  }

  lemma AckedIsUpdate(states: seq<State>, actions: seq<Action>, k: nat, id: string)
    requires AckedAt(states, actions, k, id)
    ensures k < |actions| && k < |states| && id in states[k].flat
    ensures actions[k].Update? && actions[k].op.Ack? && actions[k].op.itemID == id
  {
  }

  lemma AcknowledgedFirst(c: Config, states: seq<State>, actions: seq<Action>, k: nat, id: string, after: ValueState)
    requires AckedAt(states, actions, k, id)
    requires Effect(Some(states[k].flat[id]), actions[k].op, c.threshold).0 == Some(after)
    ensures Acknowledged(after, states[k].flat[id].publishPolicy, actions[k].op.publishedTimestamp)
  {
    AckStep(states[k].flat[id], actions[k].op, c.threshold, after);
    hide Effect, AckApplies;
  }

  lemma AcknowledgedNext(c: Config, before: ValueState, a: Action, after: ValueState, id: string,
                         policy: PublishPolicy, timestamp: int)
    requires Acknowledged(before, policy, timestamp)
    requires a.Update? && a.op.itemID == id ==> Effect(Some(before), a.op, c.threshold).0 == Some(after)
    requires !(a.Update? && a.op.itemID == id) ==> Alike(after, before)
    ensures Acknowledged(after, policy, timestamp)
  {
    if a.Update? && a.op.itemID == id {
      AckStep(before, a.op, c.threshold, after);
      hide Effect, AckApplies;
    }
  }

  /** A version published with its source timestamp has at most one acknowledgement that
      counts. */
  lemma SourceVersionAckedOnce(c: Config, states: seq<State>, actions: seq<Action>, k: nat, j: nat, id: string)
    requires Execution(c, states, actions) && k < j
    requires AckedAt(states, actions, k, id) && AckedAt(states, actions, j, id)
    requires states[k].flat[id].publishPolicy == SourceTimestamp
    ensures states[k].flat[id].valueVersion != states[j].flat[id].valueVersion
  {
    if states[k].flat[id].valueVersion == states[j].flat[id].valueVersion {
      NeverReturns(c, states, actions, k, j, id);
      StaysAcknowledged(c, states, actions, k, j, id, states[k].flat[id].valueVersion, k);
    }
  }

  /** The acknowledgements that count for a version published with cycle timestamps have
      strictly increasing timestamps, unless the earlier of two lies before Go's zero time
      and the later is no greater. */
  lemma CycleAcksIncrease(c: Config, states: seq<State>, actions: seq<Action>, k: nat, j: nat, id: string)
    requires Execution(c, states, actions) && k < j
    requires AckedAt(states, actions, k, id) && AckedAt(states, actions, j, id)
    requires states[k].flat[id].publishPolicy == CycleTimestamp
    requires states[k].flat[id].valueVersion == states[j].flat[id].valueVersion
    ensures actions[k].op.publishedTimestamp != ZERO_TIME
    ensures actions[k].op.publishedTimestamp > ZERO_TIME ==>
      actions[k].op.publishedTimestamp < actions[j].op.publishedTimestamp
  {
    NeverReturns(c, states, actions, k, j, id);
    StaysAcknowledged(c, states, actions, k, j, id, states[k].flat[id].valueVersion, k);
  }

  /** Two acknowledgements in a row count without increasing exactly when nothing had been
      published, the first lies before Go's zero time and the second is no greater: the later
      of the two instants kept is then still the zero one. */
  lemma AcksNotIncreasing(state: ValueState, first: int, second: int)
    requires AckApplies(state, first) && second <= first
    ensures AckApplies(Acked(state, first), second) <==>
      state.publishPolicy == CycleTimestamp && state.lastPublishedTimestamp == ZERO_TIME && first < ZERO_TIME
  {
  }

  /** One such state and pair of timestamps; the first counts twice, too. */
  lemma AcksGoBack() returns (state: ValueState, first: int, second: int)
    ensures AckApplies(state, first) && AckApplies(Acked(state, first), second) && second < first
    ensures AckApplies(Acked(state, first), first)
  {
    state := ValueState("item", 0.0, 0, 0, 0, 0, 120 * SECOND, 0, 0, 1, 1, 0, ZERO_TIME, 0, CycleTimestamp, true, 1);
    first, second := ZERO_TIME - SECOND, ZERO_TIME - 2 * SECOND;
  }

  /** The same acknowledgement counts twice exactly when its cycle timestamp lies before
      Go's zero time and nothing has been published yet: the later of the two instants is
      then still the zero one. */
  lemma AckCountsTwice(state: ValueState, timestamp: int)
    requires AckApplies(state, timestamp)
    ensures AckApplies(Acked(state, timestamp), timestamp) <==>
      state.publishPolicy == CycleTimestamp && state.lastPublishedTimestamp == ZERO_TIME && timestamp < ZERO_TIME
  {
  }

  // ---------- Replacement ----------

  /** The item stays cached under one definition version. */
  ghost predicate Stays(states: seq<State>, i: nat, j: nat, id: string, definition: nat) {
    && i <= j < |states|
    && forall k :: i <= k <= j ==> id in states[k].flat && states[k].flat[id].metadataVersion == definition
  }

  /** Either the same generation with the same source point, or a later one from a later
      source point. */
  predicate Newer(before: ValueState, after: ValueState) {
    || (after.valueVersion == before.valueVersion && after.sourceTimestamp == before.sourceTimestamp)
    || (after.valueVersion > before.valueVersion && after.sourceTimestamp > before.sourceTimestamp)
  }

  lemma EffectNotNewer(state: ValueState, op: Op, threshold: nat, next: ValueState)
    requires Effect(Some(state), op, threshold).0 == Some(next)
    ensures next.valueVersion == state.valueVersion && next.sourceTimestamp == state.sourceTimestamp
  {
  }

  lemma InsertNewer(c: Config, s: State, e: Installation, id: string)
    requires AllSound(c, s.flat, s.nextVersion) && Justified(s.flat, s.nextVersion, e, _ => true, c.slotOf)
    requires id in s.flat && Install(s.flat, e)[id].metadataVersion == s.flat[id].metadataVersion
    ensures Newer(s.flat[id], Install(s.flat, e)[id])
  {
    assert Sound(id, s.flat[id], c.slotOf, s.nextVersion);
    hide SourceIsNewer, Derived;
    if e.pending.itemID == id {
      NewerMeansLater(e.pending.clock, e.pending.ns, s.flat[id]);
    }
  }

  lemma NewerStep(c: Config, s: State, a: Action, s': State, id: string)
    requires s.published != [] && AllSound(c, s.flat, s.nextVersion) && Next(c, s, a, s')
    requires id in s.flat && id in s'.flat && s'.flat[id].metadataVersion == s.flat[id].metadataVersion
    ensures Newer(s.flat[id], s'.flat[id])
  {
    hide Processed, Effect, Step, Install, Justified, AllSound, Publishes, ToReconcile, AfterDeleting;
    match a {
      case Insert(_, e) => InsertNewer(c, s, e, id);
      case Reconcile(_, ids) => RemovedAll(s.flat, ids, c.threshold, id);
      case Expire(_, items) => ExpiredAt(s.flat, items, c.threshold, id);
      case Update(op) =>
        OpAt(s.flat, op, c.threshold, id);
        if op.itemID == id {
          EffectNotNewer(s.flat[id], op, c.threshold, s'.flat[id]);
        }
      case _ =>
    }
  }

  /** While an item stays cached under one definition, its value is only ever replaced by
      one from a strictly later source point, and only under a later version. */
  lemma {:induction false} ReplacedOnlyByNewer(c: Config, states: seq<State>, actions: seq<Action>, i: nat, j: nat,
                                               id: string, definition: nat)
    requires Execution(c, states, actions) && Stays(states, i, j, id, definition)
    ensures Newer(states[i].flat[id], states[j].flat[id])
    decreases j
  {
    hide Execution, Next, AllSound, Stays;
    StaysAt(states, i, j, id, definition);
    if i < j {
      StaysStep(c, states, actions, i, j, id, definition);
      ReplacedOnlyByNewer(c, states, actions, i, j - 1, id, definition);
      NewerStep(c, states[j - 1], actions[j - 1], states[j], id);
    }
  }

  lemma StaysAt(states: seq<State>, i: nat, j: nat, id: string, definition: nat)
    requires Stays(states, i, j, id, definition)
    ensures i <= j < |states| && id in states[i].flat && id in states[j].flat
    ensures states[j].flat[id].metadataVersion == definition
    ensures i < j ==> Stays(states, i, j - 1, id, definition)
  {
  }

  lemma StaysStep(c: Config, states: seq<State>, actions: seq<Action>, i: nat, j: nat, id: string, definition: nat)
    requires Execution(c, states, actions) && Stays(states, i, j, id, definition) && i < j
    ensures Stays(states, i, j - 1, id, definition) && id in states[i].flat && |states| == |actions| + 1
    ensures id in states[j].flat && states[j].flat[id].metadataVersion == definition
    ensures id in states[j - 1].flat && states[j - 1].flat[id].metadataVersion == definition
    ensures states[j - 1].published != []
    ensures AllSound(c, states[j - 1].flat, states[j - 1].nextVersion)
    ensures Next(c, states[j - 1], actions[j - 1], states[j])
  {
    hide AllSound, Settled, Originated, Expiring, History, Next, Stays;
    StaysAt(states, i, j, id, definition);
    StaysAt(states, i, j - 1, id, definition);
    Reachable(c, states, actions, j - 1);
    assert Next(c, states[j - 1], actions[j - 1], states[j - 1 + 1]);
  }
}

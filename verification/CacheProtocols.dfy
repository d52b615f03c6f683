/** Metadata publication, history writes, reconciliation and expiry running against one
    cache at the same time, as a transition system. Each critical section is one step,
    except that a writer's metadata check and its insert are two steps with the shard's
    lock held in between (internal/cache/value_cache.go, internal/cache/expiry_wheel.go,
    internal/metadata/cache.go, internal/pipeline/scheduled.go). */
module CacheProtocols {
  import opened ExpiryAgreements
  import opened ExpiryWheels
  import opened FlatCaches
  import opened Installs
  import opened MetadataStores
  import opened Options
  import opened Times
  import opened ValueCaches
  import opened ValueStates

  datatype Config = Config(place: string -> nat, slotOf: string -> nat, threshold: nat)

  /** A writer applying one response: points not examined yet, the shard it has locked,
      and the point that passed the metadata check under that lock. */
  datatype Writer = Writer(todo: set<Pending>, lock: Option<nat>, checked: Option<Pending>)

  datatype State = State(
    published: seq<Snapshot>,
    flat: Flat,
    nextVersion: nat,
    writers: map<nat, Writer>,
    pending: set<string>,
    wheel: multiset<ExpiryEntry>,
    undelivered: multiset<ExpiryEntry>,
    round: Option<int>,
    taken: multiset<ExpiryEntry>)

  datatype Action =
    | Begin(who: nat, at: nat, todo: set<Pending>)
    | Lock(who: nat, shard: nat)
    | Check(who: nat, p: Pending)
    | Insert(who: nat, e: Installation)
    | Unlock(who: nat)
    | Deliver(entries: multiset<ExpiryEntry>)
    | Publish(candidate: Snapshot, next: Snapshot)
    | Reconcile(shard: nat, ids: seq<string>)
    | StartRound(now: int)
    | Take(entries: multiset<ExpiryEntry>)
    | Expire(shard: nat, items: seq<ExpiryEntry>)
    | EndRound
    | Update(op: Op)

  function Current(s: State): Snapshot
    requires s.published != []
  {
    s.published[|s.published| - 1]
  }

  /** What a writer asks the metadata source about an item (`metadataVersionCurrent`). */
  predicate VersionCurrent(snapshot: Snapshot, id: string, version: nat) {
    var item := ItemOf(snapshot, id); item.Some? && item.value.version == version
  }

  predicate Disabled(snapshot: Snapshot, id: string) {
    var item := ItemOf(snapshot, id); item.Some? && !item.value.definition.enabled
  }

  /** The items whose cached state the pipeline deletes after a publication: removed ones
      and changed ones, but not those that are now disabled (`applyMetadata`). */
  ghost function ToReconcile(prior: Snapshot, next: Snapshot): set<string> {
    (prior.items.Keys - next.items.Keys) +
    set id | id in prior.items && id in next.items && !SameDefinition(prior.items[id], next.items[id])
             && !Disabled(next, id)
  }

  predicate Unlocked(s: State, shard: nat) {
    forall who :: who in s.writers ==> s.writers[who].lock != Some(shard)
  }

  /** A point a writer may start with: it comes from a definition of the snapshot the
      writer was given. */
  predicate FromSnapshot(snapshot: Snapshot, p: Pending) {
    && Collectable(snapshot, p.itemID)
    && p.metadataVersion == ItemOf(snapshot, p.itemID).value.version
    && p.delay == ItemOf(snapshot, p.itemID).value.definition.delay
    && WellFormedPending(p)
  }

  ghost predicate Initial(s: State) {
    s == State([EMPTY_SNAPSHOT], map[], 0, map[], {}, multiset{}, multiset{}, None, multiset{})
  }

  ghost predicate WriterStep(c: Config, s: State, a: Action, s': State)
    requires s.published != []
  {
    match a
    case Begin(who, at, todo) =>
      && who !in s.writers && at < |s.published|
      && (forall p :: p in todo ==> FromSnapshot(s.published[at], p))
      && s' == s.(writers := s.writers[who := Writer(todo, None, None)])
    case Lock(who, shard) =>
      && who in s.writers && s.writers[who].lock.None? && Unlocked(s, shard)
      && s' == s.(writers := s.writers[who := s.writers[who].(lock := Some(shard))])
    case Check(who, p) =>
      && who in s.writers && p in s.writers[who].todo
      && s.writers[who].lock == Some(c.place(p.itemID)) && s.writers[who].checked.None?
      && s' == s.(writers := s.writers[who := s.writers[who].(
                    todo := s.writers[who].todo - {p},
                    checked := if VersionCurrent(Current(s), p.itemID, p.metadataVersion) then Some(p) else None)])
    case Insert(who, e) =>
      && who in s.writers && s.writers[who].checked == Some(e.pending)
      && Justified(s.flat, s.nextVersion, e, _ => true, c.slotOf)
      && s' == s.(writers := s.writers[who := s.writers[who].(checked := None)],
                  flat := Install(s.flat, e),
                  nextVersion := s.nextVersion + (if Installing(e.verdict) then 1 else 0),
                  undelivered := s.undelivered + (if Installing(e.verdict) then multiset{EntryOf(e)} else multiset{}))
    case Unlock(who) =>
      && who in s.writers && s.writers[who].lock.Some? && s.writers[who].checked.None?
      && s' == s.(writers := s.writers[who := s.writers[who].(lock := None)])
    case _ => false
  }

  ghost predicate MetadataStep(c: Config, s: State, a: Action, s': State)
    requires s.published != []
  {
    match a
    case Publish(candidate, next) =>
      && s.pending == {} && Publishes(candidate, Current(s), next)
      && s' == s.(published := s.published + [next], pending := ToReconcile(Current(s), next))
    case Reconcile(shard, ids) =>
      && Unlocked(s, shard) && (forall id :: id in ids ==> id in s.pending && c.place(id) == shard)
      && s' == s.(flat := Processed(s.flat, RemoveOps(ids), c.threshold).flat,
                  pending := s.pending - (set id | id in ids))
    case _ => false
  }

  ghost predicate ExpiryStep(c: Config, s: State, a: Action, s': State) {
    match a
    case Deliver(entries) =>
      && entries <= s.undelivered
      && s' == s.(undelivered := s.undelivered - entries, wheel := s.wheel + entries)
    case StartRound(now) =>
      s.round.None? && s' == s.(round := Some(now))
    case Take(entries) =>
      && s.round.Some? && entries <= s.wheel && (forall e :: e in entries ==> e.expireAt <= s.round.value)
      && s' == s.(wheel := s.wheel - entries, taken := s.taken + entries)
    case Expire(shard, items) =>
      && Unlocked(s, shard) && multiset(items) <= s.taken
      && (forall e :: e in items ==> c.place(e.itemID) == shard)
      && s' == s.(flat := AfterDeleting(s.flat, items, c.threshold).flat, taken := s.taken - multiset(items))
    case EndRound =>
      s.round.Some? && s.taken == multiset{} && s' == s.(round := None)
    case _ => false
  }

  /** A miss, an acknowledgement or an explicit deletion. One call handles several items
      of a shard under its lock, which is several of these steps in a row. */
  ghost predicate UpdateStep(c: Config, s: State, a: Action, s': State) {
    && a.Update? && Unlocked(s, c.place(a.op.itemID))
    && s' == s.(flat := Step(Outcome(s.flat, ZERO_TALLY), a.op, c.threshold).flat)
  }

  ghost predicate Next(c: Config, s: State, a: Action, s': State)
    requires s.published != []
  {
    WriterStep(c, s, a, s') || MetadataStep(c, s, a, s') || ExpiryStep(c, s, a, s') || UpdateStep(c, s, a, s')
  }

  // ---------- What every step keeps ----------

  /** A value of this definition version may legitimately be in the cache: the version is
      current, or its removal is still outstanding, or the item is disabled. */
  ghost predicate Accounted(s: State, id: string, version: nat)
    requires s.published != []
  {
    VersionCurrent(Current(s), id, version) || id in s.pending || Disabled(Current(s), id)
  }

  ghost predicate Settled(c: Config, s: State)
    requires s.published != []
  {
    && (forall id :: id in s.flat ==> Accounted(s, id, s.flat[id].metadataVersion))
    && (forall who :: who in s.writers && s.writers[who].checked.Some? ==>
          var p := s.writers[who].checked.value;
          s.writers[who].lock == Some(c.place(p.itemID)) && Accounted(s, p.itemID, p.metadataVersion))
  }

  /** Some published snapshot defined the item, under this version, with this delay, as
      one to collect. */
  ghost predicate Defined(published: seq<Snapshot>, id: string, version: nat, delay: int) {
    exists i :: 0 <= i < |published| && Defines(published[i], id, version, delay)
  }

  predicate Defines(snapshot: Snapshot, id: string, version: nat, delay: int) {
    && Collectable(snapshot, id)
    && ItemOf(snapshot, id).value.version == version && ItemOf(snapshot, id).value.definition.delay == delay
  }

  ghost predicate Originated(s: State) {
    && (forall id :: id in s.flat ==> Defined(s.published, id, s.flat[id].metadataVersion, s.flat[id].delay))
    && (forall who, p :: who in s.writers && (p in s.writers[who].todo || s.writers[who].checked == Some(p)) ==>
          Defined(s.published, p.itemID, p.metadataVersion, p.delay) && WellFormedPending(p))
  }

  ghost predicate AllSound(c: Config, flat: Flat, nextVersion: nat) {
    forall id :: id in flat ==> Sound(id, flat[id], c.slotOf, nextVersion)
  }

  /** Every registration in existence. */
  function Registrations(s: State): multiset<ExpiryEntry> {
    s.wheel + s.undelivered + s.taken
  }

  ghost predicate Expiring(s: State) {
    && Agreement(s.flat, s.nextVersion, Registrations(s))
    && (s.round.None? ==> s.taken == multiset{})
    && (s.round.Some? ==> forall e :: e in s.taken ==> e.expireAt <= s.round.value)
  }

  ghost predicate Inv(c: Config, s: State) {
    && History(s.published)
    && Settled(c, s) && Originated(s) && AllSound(c, s.flat, s.nextVersion) && Expiring(s)
  }

  lemma InitialInv(c: Config, s: State)
    requires Initial(s)
    ensures Inv(c, s)
  {
  }

  // ---------- Metadata ----------

  lemma SettledAfterInsert(c: Config, s: State, a: Action, s': State)
    requires s.published != [] && Settled(c, s) && a.Insert? && WriterStep(c, s, a, s')
    ensures Settled(c, s')
  {
    hide Justified, InstalledState, EntryOf;
    InstallVersion(s.flat, a.e);
  }

  lemma InstallVersion(flat: Flat, e: Installation)
    ensures forall id :: id in Install(flat, e) ==>
      (id in flat && Install(flat, e)[id].metadataVersion == flat[id].metadataVersion)
      || (id == e.pending.itemID && Install(flat, e)[id].metadataVersion == e.pending.metadataVersion)
  {
  }

  lemma SettledAfterWriter(c: Config, s: State, a: Action, s': State)
    requires s.published != [] && Settled(c, s) && WriterStep(c, s, a, s')
    ensures Settled(c, s')
  {
    if a.Insert? {
      SettledAfterInsert(c, s, a, s');
    } else {
      hide Justified, Install, FromSnapshot, VersionCurrent, Disabled;
      assert Current(s') == Current(s) && s'.flat == s.flat && s'.pending == s.pending;
    }
  }

  /** Publishing moves every definition that no longer holds into the set to reconcile,
      unless the item is now disabled. */
  lemma AccountedAfterPublish(c: Config, s: State, a: Action, s': State, id: string, version: nat)
    requires History(s.published) && a.Publish? && MetadataStep(c, s, a, s')
    requires Accounted(s, id, version)
    ensures Accounted(s', id, version)
  {
  }

  lemma SettledAfterPublish(c: Config, s: State, a: Action, s': State)
    requires History(s.published) && Settled(c, s) && a.Publish? && MetadataStep(c, s, a, s')
    ensures Settled(c, s')
  {
    forall id | id in s'.flat
      ensures Accounted(s', id, s'.flat[id].metadataVersion)
    {
      AccountedAfterPublish(c, s, a, s', id, s.flat[id].metadataVersion);
    }
    forall who | who in s'.writers && s'.writers[who].checked.Some?
      ensures Accounted(s', s'.writers[who].checked.value.itemID, s'.writers[who].checked.value.metadataVersion)
    {
      AccountedAfterPublish(c, s, a, s', s.writers[who].checked.value.itemID,
                            s.writers[who].checked.value.metadataVersion);
    }
  }

  lemma RemovedAll(flat: Flat, ids: seq<string>, threshold: nat, id: string)
    ensures var next := Processed(flat, RemoveOps(ids), threshold).flat;
            id in next <==> id in flat && id !in ids
    ensures var next := Processed(flat, RemoveOps(ids), threshold).flat;
            id in next ==> next[id] == flat[id]
  {
    var ops := RemoveOps(ids);
    RemovalsExact(flat, ops, threshold, id);
    hide Processed;
    assert forall i :: 0 <= i < |ops| ==> ops[i] == Remove(ids[i]);
    if id in ids {
      var i :| 0 <= i < |ids| && ids[i] == id;
      assert ops[i] == Remove(id);
    }
  }

  /** The deletion of a reconciled item waits for the shard's lock, so no point that was
      checked before the publication can still be on its way into that shard. */
  lemma SettledAfterReconcile(c: Config, s: State, a: Action, s': State)
    requires s.published != [] && Settled(c, s) && a.Reconcile? && MetadataStep(c, s, a, s')
    ensures Settled(c, s')
  {
    hide Processed, VersionCurrent, Disabled;
    forall id | id in s'.flat
      ensures Accounted(s', id, s'.flat[id].metadataVersion)
    {
      RemovedAll(s.flat, a.ids, c.threshold, id);
    }
    forall who | who in s'.writers && s'.writers[who].checked.Some?
      ensures Accounted(s', s'.writers[who].checked.value.itemID, s'.writers[who].checked.value.metadataVersion)
    {
      var p := s.writers[who].checked.value;
      assert s.writers[who].lock == Some(c.place(p.itemID));
      assert p.itemID !in a.ids;
    }
  }

  /** Only inserts bring states in; every other step keeps a subset of the states, each
      with the definition version, delay and generation it had. */
  ghost predicate Restricts(flat: Flat, next: Flat) {
    forall id :: id in next ==>
      && id in flat && next[id].metadataVersion == flat[id].metadataVersion && next[id].delay == flat[id].delay
  }

  lemma EffectKeepsDefinition(state: ValueState, op: Op, threshold: nat)
    ensures var cell := Effect(Some(state), op, threshold).0;
            cell.Some? ==> cell.value.metadataVersion == state.metadataVersion && cell.value.delay == state.delay
  {
  }

  lemma OpRestricts(flat: Flat, op: Op, threshold: nat)
    ensures Restricts(flat, Step(Outcome(flat, ZERO_TALLY), op, threshold).flat)
  {
    hide Effect, Put;
    var current := Lookup(flat, op.itemID);
    var cell := Effect(current, op, threshold).0;
    if current.Some? {
      EffectKeepsDefinition(current.value, op, threshold);
    } else {
      AbsentStaysAbsent(op, threshold);
    }
    var next := Put(flat, op.itemID, cell);
    assert next == Step(Outcome(flat, ZERO_TALLY), op, threshold).flat;
    hide Step;
    forall id | id in next
      ensures id in flat && next[id].metadataVersion == flat[id].metadataVersion && next[id].delay == flat[id].delay
    {
      LookupPut(flat, op.itemID, cell, id);
    }
  }

  lemma AbsentStaysAbsent(op: Op, threshold: nat)
    ensures Effect(None, op, threshold).0 == None
  {
  }

  lemma {:induction false} OpsRestrict(flat: Flat, ops: seq<Op>, threshold: nat)
    ensures Restricts(flat, Processed(flat, ops, threshold).flat)
    decreases |ops|
  {
    if ops != [] {
      var n := |ops| - 1;
      OpsRestrict(flat, ops[..n], threshold);
      assert ops == ops[..n] + [ops[n]];
      ProcessedSnoc(flat, ops[..n], ops[n], threshold);
      OpRestricts(Processed(flat, ops[..n], threshold).flat, ops[n], threshold);
      hide Processed, Step;
    }
  }

  lemma SettledAfterRestriction(c: Config, s: State, s': State)
    requires s.published != [] && Settled(c, s) && Restricts(s.flat, s'.flat)
    requires s'.published == s.published && s'.pending == s.pending && s'.writers == s.writers
    ensures Settled(c, s')
  {
    hide VersionCurrent, Disabled;
  }

  /** The steps that only remove or update states. */
  lemma Restricting(c: Config, s: State, a: Action, s': State)
    requires s.published != [] && (MetadataStep(c, s, a, s') || ExpiryStep(c, s, a, s') || UpdateStep(c, s, a, s'))
    ensures Restricts(s.flat, s'.flat)
    ensures s'.writers == s.writers
  {
    hide Restricts, Publishes, ToReconcile, Processed, Step;
    match a {
      case Reconcile(_, ids) => OpsRestrict(s.flat, RemoveOps(ids), c.threshold);
      case Expire(_, items) => OpsRestrict(s.flat, RemoveVersionedOps(ItemsOf(items)), c.threshold);
      case Update(op) => OpRestricts(s.flat, op, c.threshold);
      case _ => OpsRestrict(s.flat, [], c.threshold); NothingDone(s.flat, c.threshold);
    }
  }

  lemma NothingDone(flat: Flat, threshold: nat)
    ensures Processed(flat, [], threshold) == Outcome(flat, ZERO_TALLY)
  {
  }

  lemma SettledNext(c: Config, s: State, a: Action, s': State)
    requires History(s.published) && Settled(c, s) && Next(c, s, a, s')
    ensures s'.published != [] && Settled(c, s')
  {
    hide Settled, Restricts;
    if WriterStep(c, s, a, s') {
      SettledAfterWriter(c, s, a, s');
    } else if a.Publish? {
      SettledAfterPublish(c, s, a, s');
    } else if a.Reconcile? {
      SettledAfterReconcile(c, s, a, s');
    } else {
      Restricting(c, s, a, s');
      SettledAfterRestriction(c, s, s');
    }
  }

  lemma HistoryNext(c: Config, s: State, a: Action, s': State)
    requires History(s.published) && Next(c, s, a, s')
    ensures History(s'.published)
    ensures s.published <= s'.published
  {
    if a.Publish? {
      HistorySnoc(s.published, a.candidate, a.next);
    }
  }

  lemma HistorySnoc(published: seq<Snapshot>, candidate: Snapshot, next: Snapshot)
    requires History(published) && Publishes(candidate, published[|published| - 1], next)
    ensures History(published + [next])
  {
    var longer := published + [next];
    hide Publishes;
    assert Succeeds(published[|published| - 1], next);
    forall i | 0 < i < |longer|
      ensures Succeeds(longer[i - 1], longer[i])
    {
      if i < |published| {
        assert Succeeds(published[i - 1], published[i]);
      }
    }
  }

  lemma DefinedLater(published: seq<Snapshot>, later: seq<Snapshot>, id: string, version: nat, delay: int)
    requires published <= later && Defined(published, id, version, delay)
    ensures Defined(later, id, version, delay)
  {
    var i :| 0 <= i < |published| && Defines(published[i], id, version, delay);
    assert later[i] == published[i];
  }

  lemma OriginatedLater(s: State, s': State)
    requires Originated(s) && s.published <= s'.published
    requires Restricts(s.flat, s'.flat)
    requires s'.writers == s.writers
    ensures Originated(s')
  {
    hide Defined;
    forall id | id in s'.flat
      ensures Defined(s'.published, id, s'.flat[id].metadataVersion, s'.flat[id].delay)
    {
      DefinedLater(s.published, s'.published, id, s.flat[id].metadataVersion, s.flat[id].delay);
    }
    forall who, p | who in s'.writers && (p in s'.writers[who].todo || s'.writers[who].checked == Some(p))
      ensures Defined(s'.published, p.itemID, p.metadataVersion, p.delay)
    {
      DefinedLater(s.published, s'.published, p.itemID, p.metadataVersion, p.delay);
    }
  }

  lemma OriginatedAfterWriter(c: Config, s: State, a: Action, s': State)
    requires s.published != [] && Originated(s) && WriterStep(c, s, a, s')
    ensures Originated(s')
  {
    hide Defined, Justified, Install, WellFormedPending;
    match a {
      case Insert(_, e) => InstallOrigin(s.flat, e);
      case Begin(_, at, todo) =>
        forall p | p in todo
          ensures Defined(s.published, p.itemID, p.metadataVersion, p.delay) && WellFormedPending(p)
        {
          OriginOf(s.published, at, p);
        }
      case _ =>
    }
  }

  lemma OriginOf(published: seq<Snapshot>, at: nat, p: Pending)
    requires at < |published| && FromSnapshot(published[at], p)
    ensures Defined(published, p.itemID, p.metadataVersion, p.delay) && WellFormedPending(p)
  {
    assert Defines(published[at], p.itemID, p.metadataVersion, p.delay);
  }

  lemma InstallOrigin(flat: Flat, e: Installation)
    ensures forall id :: id in Install(flat, e) ==>
      var state := Install(flat, e)[id];
      (id in flat && state.metadataVersion == flat[id].metadataVersion && state.delay == flat[id].delay)
      || (id == e.pending.itemID && state.metadataVersion == e.pending.metadataVersion
          && state.delay == e.pending.delay)
  {
  }

  lemma OriginatedNext(c: Config, s: State, a: Action, s': State)
    requires History(s.published) && Originated(s) && Next(c, s, a, s')
    ensures Originated(s')
  {
    hide Originated, Restricts;
    HistoryNext(c, s, a, s');
    if WriterStep(c, s, a, s') {
      OriginatedAfterWriter(c, s, a, s');
    } else {
      Restricting(c, s, a, s');
      OriginatedLater(s, s');
    }
  }

  // ---------- Sound states ----------

  lemma {:induction false} SoundAfterOps(c: Config, flat: Flat, nextVersion: nat, ops: seq<Op>)
    requires AllSound(c, flat, nextVersion)
    ensures AllSound(c, Processed(flat, ops, c.threshold).flat, nextVersion)
    decreases |ops|
  {
    if ops != [] {
      var n := |ops| - 1;
      SoundAfterOps(c, flat, nextVersion, ops[..n]);
      assert ops == ops[..n] + [ops[n]];
      ProcessedSnoc(flat, ops[..n], ops[n], c.threshold);
      hide Processed, Step, AllSound;
      SoundAfterOp(c, Processed(flat, ops[..n], c.threshold).flat, nextVersion, ops[n]);
    }
  }

  lemma SoundAfterOp(c: Config, flat: Flat, nextVersion: nat, op: Op)
    requires AllSound(c, flat, nextVersion)
    ensures AllSound(c, Step(Outcome(flat, ZERO_TALLY), op, c.threshold).flat, nextVersion)
  {
    hide Sound;
    var cell := Effect(Lookup(flat, op.itemID), op, c.threshold).0;
    if op.itemID in flat {
      EffectSound(op.itemID, flat[op.itemID], op, c.threshold, c.slotOf, nextVersion);
    }
    assert cell.Some? ==> op.itemID in flat && Sound(op.itemID, cell.value, c.slotOf, nextVersion);
    hide Effect, Lookup;
  }

  lemma SoundLater(c: Config, flat: Flat, version: nat, later: nat)
    requires AllSound(c, flat, version) && version <= later
    ensures AllSound(c, flat, later)
  {
    hide Derived;
  }

  lemma SoundAfterInstall(c: Config, flat: Flat, nextVersion: nat, e: Installation)
    requires AllSound(c, flat, nextVersion) && Justified(flat, nextVersion, e, _ => true, c.slotOf)
    ensures AllSound(c, Install(flat, e), nextVersion + (if Installing(e.verdict) then 1 else 0))
  {
    var p := e.pending;
    hide InstalledState, Derived;
    if Installing(e.verdict) {
      InstalledSound(p, e.version, c.slotOf, e.scanSequence);
      SoundLater(c, flat, nextVersion, nextVersion + 1);
    } else if e.verdict == Unchanged {
      FetchSound(p.itemID, flat[p.itemID], p.fetchedAt, c.slotOf, nextVersion);
    }
  }

  lemma SoundNext(c: Config, s: State, a: Action, s': State)
    requires s.published != [] && AllSound(c, s.flat, s.nextVersion) && Next(c, s, a, s')
    ensures AllSound(c, s'.flat, s'.nextVersion)
  {
    hide AllSound, Processed, Step, Justified, Install, Publishes, ToReconcile;
    match a {
      case Insert(_, e) => SoundAfterInstall(c, s.flat, s.nextVersion, e);
      case Reconcile(_, ids) => SoundAfterOps(c, s.flat, s.nextVersion, RemoveOps(ids));
      case Expire(_, items) => SoundAfterOps(c, s.flat, s.nextVersion, RemoveVersionedOps(ItemsOf(items)));
      case Update(op) => SoundAfterOp(c, s.flat, s.nextVersion, op);
      case _ =>
    }
  }

  // ---------- Expiry ----------

  /** Delivering and taking only move registrations around. */
  lemma Moved(a: multiset<ExpiryEntry>, b: multiset<ExpiryEntry>, part: multiset<ExpiryEntry>)
    requires part <= a
    ensures (a - part) + (b + part) == a + b
  {
  }

  lemma TakenAway(a: multiset<ExpiryEntry>, b: multiset<ExpiryEntry>, part: multiset<ExpiryEntry>)
    requires part <= b
    ensures part <= a + b && a + (b - part) == a + b - part
  {
  }

  lemma ExpiringAfterInsert(c: Config, s: State, a: Action, s': State)
    requires s.published != [] && Expiring(s) && a.Insert? && WriterStep(c, s, a, s')
    ensures Expiring(s')
  {
    hide Agreement, Justified, Install, EntryOf;
    AgreementAfterInstall(s.flat, s.nextVersion, Registrations(s), a.e, _ => true, c.slotOf);
    var new_ := if Installing(a.e.verdict) then multiset{EntryOf(a.e)} else multiset{};
    AddedTo(s.wheel, s.undelivered, s.taken, new_);
  }

  lemma AddedTo(a: multiset<ExpiryEntry>, b: multiset<ExpiryEntry>, c: multiset<ExpiryEntry>,
                more: multiset<ExpiryEntry>)
    ensures a + (b + more) + c == a + b + c + more
  {
  }

  lemma ExpiringAfterExpire(c: Config, s: State, a: Action, s': State)
    requires Expiring(s) && a.Expire? && ExpiryStep(c, s, a, s')
    ensures Expiring(s')
  {
    hide AfterDeleting, Agreement;
    TakenAway(s.wheel + s.undelivered, s.taken, multiset(a.items));
    AgreementAfterDeleting(s.flat, s.nextVersion, Registrations(s), a.items, c.threshold);
  }

  lemma ExpiringAfterMove(c: Config, s: State, a: Action, s': State)
    requires Expiring(s) && !a.Expire? && ExpiryStep(c, s, a, s')
    ensures Expiring(s')
  {
    hide Agreement;
    if a.Deliver? {
      Moved(s.undelivered, s.wheel, a.entries);
      assert Registrations(s') == Registrations(s);
    } else if a.Take? {
      Moved(s.wheel, s.taken, a.entries);
      assert Registrations(s') == Registrations(s);
    }
  }

  lemma ExpiringNext(c: Config, s: State, a: Action, s': State)
    requires s.published != [] && Expiring(s) && Next(c, s, a, s')
    ensures Expiring(s')
  {
    hide Agreement, Processed, Step, Justified, Install, Publishes, ToReconcile, AfterDeleting, EntryOf;
    match a {
      case Insert(_, _) => ExpiringAfterInsert(c, s, a, s');
      case Expire(_, _) => ExpiringAfterExpire(c, s, a, s');
      case Reconcile(_, ids) =>
        AgreementAfterOps(s.flat, s.nextVersion, Registrations(s), RemoveOps(ids), c.threshold);
      case Update(op) => AgreementAfterOp(s.flat, s.nextVersion, Registrations(s), op, c.threshold);
      case Deliver(_) => ExpiringAfterMove(c, s, a, s');
      case StartRound(_) => ExpiringAfterMove(c, s, a, s');
      case Take(_) => ExpiringAfterMove(c, s, a, s');
      case EndRound => ExpiringAfterMove(c, s, a, s');
      case _ =>
    }
  }

  // ---------- Every reachable state ----------

  lemma InvNext(c: Config, s: State, a: Action, s': State)
    requires Inv(c, s) && Next(c, s, a, s')
    ensures Inv(c, s')
  {
    hide Next, Settled, Originated, AllSound, Expiring, History;
    assert s.published != [] by { NotEmpty(s.published); }
    HistoryNext(c, s, a, s');
    SettledNext(c, s, a, s');
    OriginatedNext(c, s, a, s');
    SoundNext(c, s, a, s');
    ExpiringNext(c, s, a, s');
  }

  lemma NotEmpty(published: seq<Snapshot>)
    requires History(published)
    ensures published != []
  {
  }

  ghost predicate Execution(c: Config, states: seq<State>, actions: seq<Action>) {
    && |states| == |actions| + 1 && Initial(states[0])
    && forall i :: 0 <= i < |actions| ==> states[i].published != [] && Next(c, states[i], actions[i], states[i + 1])
  }

  lemma {:induction false} Reachable(c: Config, states: seq<State>, actions: seq<Action>, i: nat)
    requires Execution(c, states, actions) && i < |states|
    ensures Inv(c, states[i])
  {
    hide Inv, Next;
    if i == 0 {
      InitialInv(c, states[0]);
    } else {
      Reachable(c, states, actions, i - 1);
      assert Next(c, states[i - 1], actions[i - 1], states[i - 1 + 1]);
      InvNext(c, states[i - 1], actions[i - 1], states[i]);
    }
  }

  /** In every reachable state, a cached value whose definition version is not its item's
      current one is still due to be reconciled, or its item is disabled. */
  lemma StaleIsPendingOrDisabled(c: Config, states: seq<State>, actions: seq<Action>, i: nat, id: string)
    requires Execution(c, states, actions) && i < |states| && id in states[i].flat
    ensures states[i].published != []
    ensures !VersionCurrent(Current(states[i]), id, states[i].flat[id].metadataVersion) ==>
      id in states[i].pending || Disabled(Current(states[i]), id)
  {
    Reachable(c, states, actions, i);
  }

  /** Once reconciliation has finished, no removed item and no outdated definition of an
      enabled item is cached; and a value cached under the current definition was
      installed under exactly that definition: it expires as that delay says. */
  lemma Reconciled(c: Config, states: seq<State>, actions: seq<Action>, i: nat, id: string)
    requires Execution(c, states, actions) && i < |states| && id in states[i].flat && states[i].pending == {}
    ensures states[i].published != []
    ensures var item := ItemOf(Current(states[i]), id);
            && item.Some?
            && (item.value.definition.enabled ==>
                  && states[i].flat[id].metadataVersion == item.value.version
                  && states[i].flat[id].delay == item.value.definition.delay
                  && states[i].flat[id].expireAt
                       == ValueExpireAt(states[i].flat[id].sourceTimestamp, item.value.definition.delay))
  {
    Reachable(c, states, actions, i);
    var s := states[i];
    var item := ItemOf(Current(s), id);
    if item.Some? && item.value.definition.enabled {
      SameDefinitionEverywhere(s.published, id, s.flat[id].metadataVersion, s.flat[id].delay);
      assert Sound(id, s.flat[id], c.slotOf, s.nextVersion);
    }
  }

  lemma SameDefinitionEverywhere(published: seq<Snapshot>, id: string, version: nat, delay: int)
    requires History(published) && Defined(published, id, version, delay)
    requires VersionCurrent(published[|published| - 1], id, version)
    ensures ItemOf(published[|published| - 1], id).value.definition.delay == delay
  {
    var i :| 0 <= i < |published| && Defines(published[i], id, version, delay);
    VersionsDetermineDefinitions(published, i, |published| - 1, id);
  }

  /** In every reachable state every live value is covered by a registration of its own
      generation and expiry that is in the wheel, not yet delivered to it, or taken out
      of it and not yet deleted. */
  lemma LiveIsCovered(c: Config, states: seq<State>, actions: seq<Action>, i: nat, id: string)
    requires Execution(c, states, actions) && i < |states| && id in states[i].flat
    ensures EntryFor(id, states[i].flat[id]) in Registrations(states[i])
  {
    Reachable(c, states, actions, i);
  }

  /** No interleaving makes an expiry deletion remove a value that expires after the
      instant of the round, although candidates are chosen and deleted under different
      locks and the value may have been replaced in between. */
  lemma ExpiryDeletesOnlyExpired(c: Config, states: seq<State>, actions: seq<Action>, i: nat, id: string)
    requires Execution(c, states, actions) && i < |actions| && actions[i].Expire?
    requires id in states[i].flat && actions[i].items != []
    ensures states[i].round.Some?
    ensures states[i].flat[id].expireAt > states[i].round.value ==>
      id in states[i + 1].flat && states[i + 1].flat[id] == states[i].flat[id]
  {
    Reachable(c, states, actions, i);
    var s, items := states[i], actions[i].items;
    assert Next(c, s, actions[i], states[i + 1]);
    assert items[0] in multiset(items);
    hide AfterDeleting, Agreement, History;
    assert s.round.Some?;
    TakenAway(s.wheel + s.undelivered, s.taken, multiset(items));
    if s.flat[id].expireAt > s.round.value {
      forall e | e in items
        ensures e.expireAt <= s.round.value
      {
        assert e in multiset(items);
        assert e in s.taken;
      }
      OnlyExpiredDeleted(s.flat, s.nextVersion, Registrations(s), items, c.threshold, s.round.value, id);
    }
  }
}

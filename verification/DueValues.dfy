/** Which values a page of a publish cycle or of a scrape returns, over whole runs: told by
    what was installed and which acknowledgements have arrived since
    (internal/cache/value_cache.go, ReadPublishPage, ReadScrapePage and AckPublished). */
module DueValues {
  import opened CacheProtocols
  import opened FlatCaches
  import opened Installs
  import opened Lifecycles
  import opened Options
  import opened PagedScans
  import opened Shards
  import opened Times
  import opened ValueCaches
  import opened ValueStates

  // ---------- Acknowledgements that have arrived ----------

  /** The step acknowledges this version of the item, whether or not that counts. */
  predicate Confirms(a: Action, id: string, version: nat) {
    a.Update? && a.op.Ack? && a.op.itemID == id && a.op.version == version
  }

  /** An acknowledgement of the version arrives at step `k`, while the version is cached. */
  ghost predicate ConfirmedAt(states: seq<State>, actions: seq<Action>, k: nat, id: string, version: nat) {
    && k < |actions| && k < |states| && Confirms(actions[k], id, version)
    && id in states[k].flat && states[k].flat[id].valueVersion == version
  }

  /** Some acknowledgement of the version has arrived before step `j`. */
  ghost predicate Confirmed(states: seq<State>, actions: seq<Action>, j: nat, id: string, version: nat) {
    exists k :: 0 <= k < j && ConfirmedAt(states, actions, k, id, version)
  }

  /** Every acknowledgement of the version that arrived before step `j` and carries a
      timestamp after Go's zero time carries one before `cycle`. */
  ghost predicate ConfirmedBefore(states: seq<State>, actions: seq<Action>, j: nat, id: string, version: nat,
                                  cycle: int)
  {
    forall k :: 0 <= k < j && ConfirmedAt(states, actions, k, id, version) ==>
      actions[k].op.publishedTimestamp <= ZERO_TIME || actions[k].op.publishedTimestamp < cycle
  }

  /** An item of this slot is cached after `j` steps with a valid, unexpired value which
      awaits publication in this cycle. A value collected at least every minute awaits it
      until an acknowledgement of its version arrives; any other awaits it in every cycle
      from its source instant on that lies behind those acknowledged. */
  ghost predicate Due(c: Config, states: seq<State>, actions: seq<Action>, j: nat, id: string, slot: nat, cycle: int) {
    && j < |states| && id in states[j].flat && c.slotOf(id) == slot
    && Fresh(states[j].flat[id], cycle)
    && if states[j].flat[id].delay <= MINUTE then
         !Confirmed(states, actions, j, id, states[j].flat[id].valueVersion)
       else
         && states[j].flat[id].sourceTimestamp <= cycle
         && ConfirmedBefore(states, actions, j, id, states[j].flat[id].valueVersion, cycle)
  }

  /** Valid and expiring after the instant. */
  predicate Fresh(state: ValueState, at: int) {
    state.valid && at < state.expireAt
  }

  // ---------- What the cache remembers of them ----------

  /** The publishing state of a version after the steps from `i` to `j`. */
  ghost predicate Remembers(state: ValueState, actions: seq<Action>, i: nat, j: nat, id: string, version: nat)
    requires i <= j <= |actions|
  {
    if state.delay <= MINUTE then
      && (state.lastPublishedVersion == 0 || state.lastPublishedVersion == version)
      && (state.lastPublishedVersion == version <==> exists k :: i <= k < j && Confirms(actions[k], id, version))
    else
      && state.lastPublishedTimestamp >= ZERO_TIME
      && (forall k :: i <= k < j && Confirms(actions[k], id, version) ==>
            actions[k].op.publishedTimestamp <= state.lastPublishedTimestamp)
      && (state.lastPublishedTimestamp == ZERO_TIME ||
          exists k :: i <= k < j && Confirms(actions[k], id, version)
                      && actions[k].op.publishedTimestamp == state.lastPublishedTimestamp)
  }

  /** What one operation makes of a publishing state that is in order. */
  lemma ConfirmEffect(state: ValueState, op: Op, threshold: nat, next: ValueState)
    requires Effect(Some(state), op, threshold).0 == Some(next) && state.publishPolicy == PolicyForDelay(state.delay)
    requires state.delay <= MINUTE ==>
      state.valueVersion > 0 && (state.lastPublishedVersion == 0 || state.lastPublishedVersion == state.valueVersion)
    requires state.delay > MINUTE ==> state.lastPublishedTimestamp >= ZERO_TIME
    ensures next.delay == state.delay
    ensures state.delay <= MINUTE ==>
      next.lastPublishedVersion == if op.Ack? && op.version == state.valueVersion then state.valueVersion
                                   else state.lastPublishedVersion
    ensures state.delay > MINUTE ==>
      next.lastPublishedTimestamp ==
        if op.Ack? && op.version == state.valueVersion then Max(state.lastPublishedTimestamp, op.publishedTimestamp)
        else state.lastPublishedTimestamp
  {
  }

  lemma RemembersNext(before: ValueState, after: ValueState, actions: seq<Action>, i: nat, j: nat, id: string,
                      threshold: nat)
    requires i < j <= |actions| && Remembers(before, actions, i, j - 1, id, before.valueVersion)
    requires before.valueVersion > 0 && before.publishPolicy == PolicyForDelay(before.delay)
    requires actions[j - 1].Update? && actions[j - 1].op.itemID == id ==>
      Effect(Some(before), actions[j - 1].op, threshold).0 == Some(after)
    requires !(actions[j - 1].Update? && actions[j - 1].op.itemID == id) ==> Alike(after, before)
    ensures Remembers(after, actions, i, j, id, before.valueVersion)
  {
    var last := actions[j - 1];
    if last.Update? && last.op.itemID == id {
      ConfirmEffect(before, last.op, threshold, after);
    }
    hide Effect;
    if Confirms(last, id, before.valueVersion) {
      assert i <= j - 1 < j && Confirms(actions[j - 1], id, before.valueVersion);
    }
  }

  lemma {:induction false} RemembersSince(c: Config, states: seq<State>, actions: seq<Action>, i: nat, j: nat,
                                          id: string, version: nat)
    requires Execution(c, states, actions) && 0 < i && Lives(states, i, j, id, version)
    requires InstallsAt(actions, i - 1, id) && actions[i - 1].e.version == version
    ensures j <= |actions| && Remembers(states[j].flat[id], actions, i, j, id, version)
    decreases j
  {
    hide Execution, Effect, Remembers, Lives, InstallsAt, Alike;
    LivesAt(states, i, j, id, version, i);
    StartsEmpty(c, states, actions);
    if i == j {
      JustInstalled(c, states, actions, i, id);
      JustUnpublished(c, states, actions, i, id);
      NothingRemembered(states[i].flat[id], actions, i, id, version);
    } else {
      StepAlive(c, states, actions, j - 1, id, version, i, j);
      LivesShorter(states, i, j, id, version);
      RemembersSince(c, states, actions, i, j - 1, id, version);
      LivesAt(states, i, j - 1, id, version, j - 1);
      VersionsBounded(c, states, actions, j - 1, id);
      ExpiryFixed(c, states, actions, j - 1, id);
      RemembersNext(states[j - 1].flat[id], states[j].flat[id], actions, i, j, id, c.threshold);
    }
  }

  lemma JustUnpublished(c: Config, states: seq<State>, actions: seq<Action>, i: nat, id: string)
    requires Execution(c, states, actions) && 0 < i < |states| && InstallsAt(actions, i - 1, id)
    requires id in states[i].flat
    ensures states[i].flat[id].lastPublishedVersion == 0 && states[i].flat[id].lastPublishedTimestamp == ZERO_TIME
    ensures states[i].flat[id].valueVersion > 0
  {
    var k := i - 1;
    assert Next(c, states[k], actions[k], states[k + 1]);
    InstallsFresh(states[k].flat, actions[k].e);
    VersionsBounded(c, states, actions, i, id);
    hide Install, Justified;
  }

  lemma NothingRemembered(state: ValueState, actions: seq<Action>, i: nat, id: string, version: nat)
    requires i <= |actions| && state.lastPublishedVersion == 0 && state.lastPublishedTimestamp == ZERO_TIME
    requires version > 0
    ensures Remembers(state, actions, i, i, id, version)
  {
  }

  // ---------- What a page returns ----------

  /** Acknowledgements of a cached version have arrived since it was installed. */
  lemma ConfirmedSince(c: Config, states: seq<State>, actions: seq<Action>, i: nat, j: nat, id: string, version: nat,
                       k: nat)
    requires Execution(c, states, actions) && 0 < i <= j < |states| && j <= |actions|
    requires Lives(states, i, j, id, version) && version > states[i - 1].nextVersion && k < j
    ensures ConfirmedAt(states, actions, k, id, version) <==> i <= k && Confirms(actions[k], id, version)
  {
    hide Execution, Lives, Confirms;
    LivesAt(states, i, j, id, version, k);
    if k < i && id in states[k].flat && states[k].flat[id].valueVersion == version {
      VersionsGrow(c, states, actions, k, i - 1);
      VersionsBounded(c, states, actions, k, id);
    }
  }

  /** What the acknowledgements of a version that is cached after `j` steps have left. */
  lemma PublishingState(c: Config, states: seq<State>, actions: seq<Action>, j: nat, id: string)
    requires Execution(c, states, actions) && j < |states| && id in states[j].flat
    ensures var state := states[j].flat[id];
            && state.publishPolicy == PolicyForDelay(state.delay) && state.publishSlot == c.slotOf(id)
            && (state.delay <= MINUTE ==>
                  (state.valueVersion > state.lastPublishedVersion <==>
                     !Confirmed(states, actions, j, id, state.valueVersion)))
            && (state.delay > MINUTE ==>
                  forall cycle :: (state.lastPublishedTimestamp == ZERO_TIME || cycle > state.lastPublishedTimestamp)
                    <==> ConfirmedBefore(states, actions, j, id, state.valueVersion, cycle))
  {
    hide Execution, Lives, InstallsAt, Remembers, ConfirmedAt, Confirms;
    var state := states[j].flat[id];
    var i := Born(c, states, actions, j, id);
    RemembersSince(c, states, actions, i, j, id, state.valueVersion);
    VersionsBounded(c, states, actions, j, id);
    ExpiryFixed(c, states, actions, j, id);
    SlotFixed(c, states, actions, j, id);
    forall k: nat | k < j
      ensures ConfirmedAt(states, actions, k, id, state.valueVersion) <==>
        i <= k && Confirms(actions[k], id, state.valueVersion)
    {
      ConfirmedSince(c, states, actions, i, j, id, state.valueVersion, k);
    }
    if state.delay <= MINUTE {
      RememberedShort(states, actions, i, j, id, state);
    } else {
      forall cycle: int
        ensures (state.lastPublishedTimestamp == ZERO_TIME || cycle > state.lastPublishedTimestamp)
          <==> ConfirmedBefore(states, actions, j, id, state.valueVersion, cycle)
      {
        RememberedLong(states, actions, i, j, id, state, cycle);
      }
    }
  }

  lemma SlotFixed(c: Config, states: seq<State>, actions: seq<Action>, j: nat, id: string)
    requires Execution(c, states, actions) && j < |states| && id in states[j].flat
    ensures states[j].flat[id].publishSlot == c.slotOf(id) && states[j].flat[id].itemID == id
  {
    Reachable(c, states, actions, j);
    hide Settled, Originated, Expiring, Execution, Derived;
    assert Sound(id, states[j].flat[id], c.slotOf, states[j].nextVersion);
  }

  lemma RememberedShort(states: seq<State>, actions: seq<Action>, i: nat, j: nat, id: string, state: ValueState)
    requires i <= j <= |actions| && Remembers(state, actions, i, j, id, state.valueVersion)
    requires state.delay <= MINUTE && state.valueVersion > 0
    requires forall k: nat :: k < j ==>
      (ConfirmedAt(states, actions, k, id, state.valueVersion) <==>
         i <= k && Confirms(actions[k], id, state.valueVersion))
    ensures state.valueVersion > state.lastPublishedVersion <==> !Confirmed(states, actions, j, id, state.valueVersion)
  {
    hide ConfirmedAt, Confirms;
    if k :| i <= k < j && Confirms(actions[k], id, state.valueVersion) {
      assert ConfirmedAt(states, actions, k, id, state.valueVersion);
    }
  }

  lemma RememberedLong(states: seq<State>, actions: seq<Action>, i: nat, j: nat, id: string, state: ValueState,
                       cycle: int)
    requires i <= j <= |actions| && Remembers(state, actions, i, j, id, state.valueVersion)
    requires state.delay > MINUTE
    requires forall k: nat :: k < j ==>
      (ConfirmedAt(states, actions, k, id, state.valueVersion) <==>
         i <= k && Confirms(actions[k], id, state.valueVersion))
    ensures (state.lastPublishedTimestamp == ZERO_TIME || cycle > state.lastPublishedTimestamp)
      <==> ConfirmedBefore(states, actions, j, id, state.valueVersion, cycle)
  {
    if k :| i <= k < j && Confirms(actions[k], id, state.valueVersion)
            && actions[k].op.publishedTimestamp == state.lastPublishedTimestamp {
      assert ConfirmedAt(states, actions, k, id, state.valueVersion);
    }
  }

  /** In every reachable state a cached value may be sent in a cycle of a slot exactly if it
      is due there. */
  lemma SentWhenDue(c: Config, states: seq<State>, actions: seq<Action>, j: nat, id: string, slot: nat, cycle: int)
    requires Execution(c, states, actions) && j < |states| && id in states[j].flat
    ensures ForPublishing(slot, cycle)(states[j].flat[id]) <==> Due(c, states, actions, j, id, slot, cycle)
  {
    PublishingState(c, states, actions, j, id);
    hide Execution, Confirmed, ConfirmedBefore;
  }

  /** An acknowledgement of the cached version counts exactly if it is the first of a value
      collected at least every minute, whatever its timestamp; or if its timestamp, not Go's
      zero time, lies behind those acknowledged before. */
  lemma CountsWhenNew(c: Config, states: seq<State>, actions: seq<Action>, k: nat, id: string)
    requires Execution(c, states, actions) && k < |actions| && id in states[k].flat
    requires Confirms(actions[k], id, states[k].flat[id].valueVersion)
    ensures var state, at := states[k].flat[id], actions[k].op.publishedTimestamp;
            var counts := if state.delay <= MINUTE then !Confirmed(states, actions, k, id, state.valueVersion)
                          else at != ZERO_TIME && ConfirmedBefore(states, actions, k, id, state.valueVersion, at);
            && (AckedAt(states, actions, k, id) <==> counts)
            && Effect(Some(state), actions[k].op, c.threshold).1 == if counts then APPLIED else STALE
  {
    StartsEmpty(c, states, actions);
    PublishingState(c, states, actions, k, id);
    VersionsBounded(c, states, actions, k, id);
    hide Execution, Confirmed, ConfirmedBefore, Acked;
  }

  /** What the visits of a page saw: every shard as it was after some number of steps. */
  ghost predicate Saw(c: Config, states: seq<State>, views: seq<View>, moments: seq<nat>) {
    && |moments| == |views| && Readable(views)
    && forall k :: 0 <= k < |views| ==>
         moments[k] < |states| && ShowsShard(views[k], states[moments[k]].flat, c.place, k)
  }

  lemma SawAt(c: Config, states: seq<State>, views: seq<View>, moments: seq<nat>, k: nat, id: string)
    requires Saw(c, states, views, moments) && k < |views|
    ensures moments[k] < |states|
    ensures id in views[k].values <==> id in states[moments[k]].flat && c.place(id) == k
    ensures id in views[k].values ==> views[k].values[id] == states[moments[k]].flat[id]
  {
  }

  /** A page of a publish cycle returns exactly the values of its stretch that were due when
      their shard was visited. */
  lemma PageReturnsDue(c: Config, states: seq<State>, actions: seq<Action>, views: seq<View>, moments: seq<nat>,
                       slot: nat, cycle: int, shard: nat, after: nat, limit: nat, k: nat, id: string)
    requires Execution(c, states, actions) && Saw(c, states, views, moments)
    requires shard <= |views| && limit > 0 && k < |views|
    requires id in states[moments[k]].flat && c.place(id) == k
    ensures var page := ReadFrom(views, ForPublishing(slot, cycle), shard, after, limit);
            var hit := Hit(k, states[moments[k]].flat[id]);
            hit in page.hits <==>
              && Due(c, states, actions, moments[k], id, slot, cycle)
              && Before(Cursor(shard, after), Position(hit)) && !Before(page.next, Position(hit))
  {
    hide Execution, ReadFrom, Due, PublishEligible, Before;
    SawAt(c, states, views, moments, k, id);
    SentWhenDue(c, states, actions, moments[k], id, slot, cycle);
    SlotFixed(c, states, actions, moments[k], id);
    PageExactly(views, ForPublishing(slot, cycle), shard, after, limit, Hit(k, states[moments[k]].flat[id]));
  }

  /** Whatever a page returns is a state its shard held, and due then. */
  lemma PageOnlyDue(c: Config, states: seq<State>, actions: seq<Action>, views: seq<View>, moments: seq<nat>,
                    slot: nat, cycle: int, shard: nat, after: nat, limit: nat, hit: Hit)
    requires Execution(c, states, actions) && Saw(c, states, views, moments)
    requires shard <= |views| && limit > 0
    requires hit in ReadFrom(views, ForPublishing(slot, cycle), shard, after, limit).hits
    ensures hit.shard < |views| && moments[hit.shard] < |states|
    ensures var id, flat := hit.state.itemID, states[moments[hit.shard]].flat;
            id in flat && flat[id] == hit.state && c.place(id) == hit.shard
            && Due(c, states, actions, moments[hit.shard], id, slot, cycle)
  {
    hide Execution, ReadFrom, Due, PublishEligible;
    PageFromViews(views, ForPublishing(slot, cycle), shard, after, limit);
    SawAt(c, states, views, moments, hit.shard, hit.state.itemID);
    PageEligible(views, ForPublishing(slot, cycle), shard, after, limit, hit);
    SentWhenDue(c, states, actions, moments[hit.shard], hit.state.itemID, slot, cycle);
  }

  /** An incarnation that is due whenever its shard is visited. */
  ghost predicate AlwaysDue(c: Config, states: seq<State>, actions: seq<Action>, moments: seq<seq<nat>>, slot: nat,
                            cycle: int, shard: nat, id: string, sequence: nat)
  {
    forall p :: 0 <= p < |moments| ==>
      shard < |moments[p]| && DueAs(c, states, actions, moments[p][shard], slot, cycle, id, sequence)
  }

  ghost predicate DueAs(c: Config, states: seq<State>, actions: seq<Action>, j: nat, slot: nat, cycle: int,
                        id: string, sequence: nat)
  {
    Due(c, states, actions, j, id, slot, cycle) && states[j].flat[id].scanSequence == sequence
  }

  /** A whole scan of a slot, with any changes between its visits, returns an incarnation that
      stays due exactly once. */
  lemma ScanReturnsDueOnce(c: Config, states: seq<State>, actions: seq<Action>, pages: seq<PageRead>,
                           moments: seq<seq<nat>>, slot: nat, cycle: int, shardCount: nat, id: string, sequence: nat)
    requires Execution(c, states, actions) && Chained(pages, ForPublishing(slot, cycle), shardCount)
    requires pages != [] && pages[0].cursor == START && pages[|pages| - 1].page.done
    requires |moments| == |pages| && forall p :: 0 <= p < |pages| ==> Saw(c, states, pages[p].views, moments[p])
    requires AlwaysDue(c, states, actions, moments, slot, cycle, c.place(id), id, sequence)
    ensures exists i :: 0 <= i < |Collected(pages)| && Is(Collected(pages)[i], c.place(id), id, sequence)
    ensures forall i, j :: 0 <= i < j < |Collected(pages)| ==>
      Position(Collected(pages)[i]) != Position(Collected(pages)[j])
  {
    hide Execution, Due, PublishEligible, Collected, Proper;
    var eligible, shard := ForPublishing(slot, cycle), c.place(id);
    forall p | 0 <= p < |pages|
      ensures shard < |pages[p].views| && Visible(pages[p].views[shard], id, sequence, eligible)
    {
      assert DueAs(c, states, actions, moments[p][shard], slot, cycle, id, sequence);
      assert Saw(c, states, pages[p].views, moments[p]);
      DueCached(c, states, actions, moments[p][shard], id, slot, cycle);
      SawAt(c, states, pages[p].views, moments[p], shard, id);
      SentWhenDue(c, states, actions, moments[p][shard], id, slot, cycle);
    }
    ScanReturnsExactlyOnce(pages, eligible, shardCount, shard, id, sequence);
  }

  lemma DueCached(c: Config, states: seq<State>, actions: seq<Action>, j: nat, id: string, slot: nat, cycle: int)
    requires Due(c, states, actions, j, id, slot, cycle)
    ensures j < |states| && id in states[j].flat
  {
  }

  /** Everything behind the zero cursor, while nothing changes, is everything that is due. */
  lemma CycleReadsDue(c: Config, states: seq<State>, actions: seq<Action>, views: seq<View>, j: nat, slot: nat,
                      cycle: int, id: string)
    requires Execution(c, states, actions) && j < |states| && Saw(c, states, views, seq(|views|, _ => j))
    requires id in states[j].flat && c.place(id) < |views|
    ensures Hit(c.place(id), states[j].flat[id]) in AllFrom(views, ForPublishing(slot, cycle), 0, 0) <==>
      Due(c, states, actions, j, id, slot, cycle)
  {
    hide Execution, ReadFrom, AllFrom, Due, PublishEligible, Saw;
    var eligible, moments, k := ForPublishing(slot, cycle), seq(|views|, _ => j), c.place(id);
    var limit := |AllFrom(views, eligible, 0, 0)| + 1;
    SawReadable(c, states, views, moments, k, id);
    PageTakesPrefix(views, eligible, 0, 0, limit);
    PageSound(views, eligible, 0, 0, limit);
    var page := ReadFrom(views, eligible, 0, 0, limit);
    AllDone(views, eligible, page.next);
    PageReturnsDue(c, states, actions, views, moments, slot, cycle, 0, 0, limit, k, id);
  }

  lemma SawReadable(c: Config, states: seq<State>, views: seq<View>, moments: seq<nat>, k: nat, id: string)
    requires Saw(c, states, views, moments) && k < |views| && moments[k] < |states| && id in states[moments[k]].flat
    requires c.place(id) == k
    ensures Readable(views) && states[moments[k]].flat[id].scanSequence > 0
  {
    SawAt(c, states, views, moments, k, id);
    assert WellFormed(views[k]);
  }

  // ---------- Scrapes ----------

  /** In every reachable state a scrape shows a value exactly if it is valid, unexpired, and,
      unless it is collected at least every minute, not from the future; what has been
      published plays no part. So it shows whatever a cycle at that instant may send. */
  lemma ShownWhenFresh(c: Config, states: seq<State>, actions: seq<Action>, j: nat, id: string, at: int)
    requires Execution(c, states, actions) && j < |states| && id in states[j].flat
    ensures var state := states[j].flat[id];
            ForScraping(at)(state) <==> Fresh(state, at) && (state.delay > MINUTE ==> state.sourceTimestamp <= at)
    ensures forall slot :: Due(c, states, actions, j, id, slot, at) ==> ForScraping(at)(states[j].flat[id])
  {
    ExpiryFixed(c, states, actions, j, id);
    hide Execution, Confirmed, ConfirmedBefore;
  }

  lemma ScrapeReturnsFresh(c: Config, states: seq<State>, actions: seq<Action>, views: seq<View>, moments: seq<nat>,
                           at: int, shard: nat, after: nat, limit: nat, k: nat, id: string)
    requires Execution(c, states, actions) && Saw(c, states, views, moments)
    requires shard <= |views| && limit > 0 && k < |views|
    requires id in states[moments[k]].flat && c.place(id) == k
    ensures var page := ReadFrom(views, ForScraping(at), shard, after, limit);
            var hit := Hit(k, states[moments[k]].flat[id]);
            hit in page.hits <==>
              && Fresh(hit.state, at) && (hit.state.delay > MINUTE ==> hit.state.sourceTimestamp <= at)
              && Before(Cursor(shard, after), Position(hit)) && !Before(page.next, Position(hit))
  {
    hide Execution, ReadFrom, Due, ScrapeEligible, Before, Fresh;
    SawAt(c, states, views, moments, k, id);
    ShownWhenFresh(c, states, actions, moments[k], id, at);
    SlotFixed(c, states, actions, moments[k], id);
    PageExactly(views, ForScraping(at), shard, after, limit, Hit(k, states[moments[k]].flat[id]));
  }

  // ---------- Samples ----------

  /** Made from the same point, for the same generation. */
  predicate SamePoint(a: ValueState, b: ValueState) {
    && a.itemID == b.itemID && a.value == b.value && a.sourceTimestamp == b.sourceTimestamp
    && a.sourceNS == b.sourceNS && a.metadataVersion == b.metadataVersion && a.valueVersion == b.valueVersion
    && a.delay == b.delay
  }

  lemma EffectKeepsPoint(state: ValueState, op: Op, threshold: nat, next: ValueState)
    requires Effect(Some(state), op, threshold).0 == Some(next)
    ensures SamePoint(state, next)
  {
  }

  lemma {:induction false} KeepsPoint(c: Config, states: seq<State>, actions: seq<Action>, i: nat, j: nat,
                                      id: string, version: nat)
    requires Execution(c, states, actions) && Lives(states, i, j, id, version)
    ensures id in states[i].flat && id in states[j].flat && SamePoint(states[i].flat[id], states[j].flat[id])
    decreases j
  {
    hide Execution, Effect, Lives;
    LivesAt(states, i, j, id, version, i);
    if i < j {
      StepAlive(c, states, actions, j - 1, id, version, i, j);
      LivesShorter(states, i, j, id, version);
      KeepsPoint(c, states, actions, i, j - 1, id, version);
      var last := actions[j - 1];
      if last.Update? && last.op.itemID == id {
        EffectKeepsPoint(states[j - 1].flat[id], last.op, c.threshold, states[j].flat[id]);
      }
    }
  }

  lemma InstalledPoint(c: Config, states: seq<State>, actions: seq<Action>, i: nat, id: string)
    requires Execution(c, states, actions) && 0 < i < |states| && InstallsAt(actions, i - 1, id)
    ensures i <= |actions| && id in states[i].flat
    ensures var p, state := actions[i - 1].e.pending, states[i].flat[id];
            && state.itemID == id && state.value == p.value && state.sourceTimestamp == p.clock * SECOND + p.ns
            && state.sourceNS == p.ns && state.metadataVersion == p.metadataVersion && state.delay == p.delay
  {
    var k := i - 1;
    assert Next(c, states[k], actions[k], states[k + 1]);
    hide Justified;
  }

  /** The sample made from a cached value for the instant `at` carries the point that was
      installed, unaltered: its value, its definition and, if it is collected at least every
      minute, its own instant; otherwise it carries `at`. */
  lemma CarriesPoint(c: Config, states: seq<State>, actions: seq<Action>, j: nat, id: string, at: int)
    returns (i: nat)
    requires Execution(c, states, actions) && j < |states| && id in states[j].flat
    ensures 0 < i <= j && InstallsAt(actions, i - 1, id) && actions[i - 1].e.version == states[j].flat[id].valueVersion
    ensures var p, sample := actions[i - 1].e.pending, Detached(states[j].flat[id], at);
            var instant := p.clock * SECOND + p.ns;
            && sample.itemID == id && sample.value == p.value && sample.metadataVersion == p.metadataVersion
            && sample.valueVersion == actions[i - 1].e.version && sample.publishSlot == c.slotOf(id)
            && sample.sourceTimestamp == instant && sample.sourceNS == p.ns
            && sample.timestamp == (if p.delay <= MINUTE then instant else at)
            && (sample.publishPolicy == SourceTimestamp <==> p.delay <= MINUTE)
  {
    hide Execution, Lives, InstallsAt;
    i := Born(c, states, actions, j, id);
    KeepsPoint(c, states, actions, i, j, id, states[j].flat[id].valueVersion);
    InstalledPoint(c, states, actions, i, id);
    ExpiryFixed(c, states, actions, j, id);
    SlotFixed(c, states, actions, j, id);
  }

  /** A sample that is due, or shown by a scrape, is never stamped before the instant of its
      point nor at or after its expiry. */
  lemma StampedWithinLife(c: Config, states: seq<State>, actions: seq<Action>, j: nat, id: string, at: int)
    requires Execution(c, states, actions) && j < |states| && id in states[j].flat
    requires ForScraping(at)(states[j].flat[id])
    ensures var state, sample := states[j].flat[id], Detached(states[j].flat[id], at);
            state.sourceTimestamp <= sample.timestamp < state.expireAt
  {
    ShownWhenFresh(c, states, actions, j, id, at);
    ExpiryFixed(c, states, actions, j, id);
    DelayPositive(c, states, actions, j, id);
    hide Execution;
  }

  lemma DelayPositive(c: Config, states: seq<State>, actions: seq<Action>, j: nat, id: string)
    requires Execution(c, states, actions) && j < |states| && id in states[j].flat
    ensures states[j].flat[id].delay > 0
  {
    Reachable(c, states, actions, j);
    hide Settled, Originated, Expiring, Execution;
    assert Sound(id, states[j].flat[id], c.slotOf, states[j].nextVersion);
  }
}

/** From a cached value to a sample and back to an acknowledgement: what a value offers to the
    batches of a cycle, and what delivering its sample does to the cache
    (internal/promwrap/publisher.go, processPage and runWorker). */
module Deliveries {
  import opened BatchBuilders
  import opened CacheProtocols
  import opened DueValues
  import opened FlatCaches
  import opened Lifecycles
  import opened MetadataStores
  import opened Options
  import opened PageBatchers
  import opened PageLedgers
  import opened Times
  import opened ValueCaches
  import opened ValueStates

  /** The snapshot still defines the item as it was when the value was installed, and gives it
      a series. */
  predicate HasSeries(snapshot: Snapshot, value: PublishValue) {
    && value.itemID in snapshot.items && snapshot.items[value.itemID].Some?
    && snapshot.items[value.itemID].value.version == value.metadataVersion
    && snapshot.items[value.itemID].value.definition.labels != []
  }

  /** A value offers a sample exactly if it has a series. The sample is that series' with the
      value and the timestamp of the value, goes to the lane of its item under its policy, and
      will acknowledge exactly this version of it. */
  lemma OfferedExactly(snapshot: Snapshot, value: PublishValue, encoding: Encoding)
    ensures var offer := OfferOf(snapshot, value, encoding);
            && (offer.Given? <==> HasSeries(snapshot, value))
            && (offer.Given? ==>
                  var labels := snapshot.items[value.itemID].value.definition.labels;
                  && offer.index / 2 == (encoding.laneOf)(value.itemID)
                  && PolicyOf(offer.index) == value.publishPolicy
                  && offer.sample.seriesID == value.itemID
                  && offer.sample.message == (encoding.encode)(labels, value.value, value.timestamp / MILLISECOND)
                  && offer.sample.ack == Some(PublishAck(value.itemID, value.valueVersion, value.timestamp)))
  {
    IndexMeans(value.publishPolicy, (encoding.laneOf)(value.itemID), (encoding.laneOf)(value.itemID) + 1);
  }

  /** Two samples reserve the same key exactly if they are of one version of one item and fall
      into the same millisecond. */
  lemma SameKeySameSample(snapshot: Snapshot, a: PublishValue, b: PublishValue, encoding: Encoding)
    requires HasSeries(snapshot, a) && HasSeries(snapshot, b)
    ensures OfferOf(snapshot, a, encoding).Given? && OfferOf(snapshot, b, encoding).Given?
    ensures OfferOf(snapshot, a, encoding).sample.key == OfferOf(snapshot, b, encoding).sample.key <==>
      && a.itemID == b.itemID && a.valueVersion == b.valueVersion
      && a.timestamp / MILLISECOND == b.timestamp / MILLISECOND
  {
    var prefix := "item\0";
    assert (prefix + a.itemID)[|prefix|..] == a.itemID && (prefix + b.itemID)[|prefix|..] == b.itemID;
  }

  /** The step that acknowledges a delivered sample. */
  predicate Acknowledges(a: Action, snapshot: Snapshot, value: PublishValue, encoding: Encoding) {
    var offer := OfferOf(snapshot, value, encoding);
    offer.Given? && offer.sample.ack.Some? && a == Update(AckOps([offer.sample.ack.value])[0])
  }

  lemma AcknowledgesVersion(a: Action, snapshot: Snapshot, value: PublishValue, encoding: Encoding)
    requires Acknowledges(a, snapshot, value, encoding)
    ensures Confirms(a, value.itemID, value.valueVersion) && a.op.publishedTimestamp == value.timestamp
  {
    OfferedExactly(snapshot, value, encoding);
  }

  /** The acknowledgement of a sample that is still due when it arrives counts. */
  lemma AckOfDueCounts(c: Config, states: seq<State>, actions: seq<Action>, k: nat, id: string, slot: nat, cycle: int,
                       snapshot: Snapshot, encoding: Encoding)
    requires Execution(c, states, actions) && k < |actions| && Due(c, states, actions, k, id, slot, cycle)
    requires Acknowledges(actions[k], snapshot, Detached(states[k].flat[id], cycle), encoding)
    requires cycle != ZERO_TIME
    ensures AckedAt(states, actions, k, id)
  {
    hide Execution, Acknowledges, AckedAt, Confirmed, ConfirmedBefore;
    SlotFixed(c, states, actions, k, id);
    ExpiryFixed(c, states, actions, k, id);
    AcknowledgesVersion(actions[k], snapshot, Detached(states[k].flat[id], cycle), encoding);
    CountsWhenNew(c, states, actions, k, id);
  }

  /** Once the sample of a value has been delivered and acknowledged, this version of it is not
      due again: never, if it is collected at least every minute, and otherwise in no cycle up
      to the one it was sent in. */
  lemma NotDueOnceDelivered(c: Config, states: seq<State>, actions: seq<Action>, m: nat, k: nat, j: nat, id: string,
                            slot: nat, cycle: int, snapshot: Snapshot, encoding: Encoding, later: int)
    requires Execution(c, states, actions) && m <= k < j < |states| && k < |actions|
    requires id in states[m].flat && id in states[j].flat
    requires states[m].flat[id].valueVersion == states[j].flat[id].valueVersion
    requires Acknowledges(actions[k], snapshot, Detached(states[m].flat[id], cycle), encoding)
    requires states[m].flat[id].delay <= MINUTE || (cycle > ZERO_TIME && later <= cycle)
    ensures !Due(c, states, actions, j, id, slot, later)
  {
    hide Execution, Acknowledges, Lives;
    var version := states[m].flat[id].valueVersion;
    SlotFixed(c, states, actions, m, id);
    ExpiryFixed(c, states, actions, m, id);
    AcknowledgesVersion(actions[k], snapshot, Detached(states[m].flat[id], cycle), encoding);
    NeverReturns(c, states, actions, m, j, id);
    LivesAt(states, m, j, id, version, k);
    KeepsPoint(c, states, actions, m, j, id, version);
    assert ConfirmedAt(states, actions, k, id, version);
  }
}

/** Turning one page of cached values into bounded batches on the send queue
    (internal/promwrap/publisher.go, processPage and pageBatcher). */
module PageBatchers {
  import opened BatchBuilders
  import opened Installs
  import opened LaneQueues
  import opened MetadataStores
  import opened Options
  import opened PageLedgers
  import opened Publishers
  import opened Times
  import opened ValueCaches
  import opened ValueStates
  import opened WireFormats

  /** Why a page was given up. The last two never happen; the third happens exactly when
      an oversized sample finds its builder full. */
  datatype PageFailure = NotQueued(outcome: SubmitOutcome) | OversizedAfterFull | EncodingFailed | EmptyBatchRefused

  function PolicyOf(index: nat): PublishPolicy {
    if index % 2 == 0 then SourceTimestamp else CycleTimestamp
  }

  function IndexOf(policy: PublishPolicy, lane: nat): nat {
    2 * lane + (if policy == SourceTimestamp then 0 else 1)
  }

  lemma IndexMeans(policy: PublishPolicy, lane: nat, workers: nat)
    requires lane < workers
    ensures var index := IndexOf(policy, lane);
            index < 2 * workers && PolicyOf(index) == policy && index / 2 == lane
  {
  }

  /** Keys held by open builders. */
  ghost function Held(l: Ledger): multiset<PublishKey> {
    Bag(OpenKeys(l.open))
  }

  /** A queued batch carries its samples, respects both limits, and is marked for its
      lane, policy, slot and cycle. */
  ghost predicate Proper(e: Emission, maxSamples: nat, maxBytes: nat, slot: nat, cycleMS: int) {
    && Carries(e.batch, e.samples) && Within(e.batch, maxSamples, maxBytes)
    && e.batch.lane == e.index / 2 && e.batch.policy == PolicyOf(e.index)
    && e.batch.slot == slot && e.batch.cycleTimestampMS == cycleMS
  }

  ghost predicate AllProper(sent: seq<Emission>, maxSamples: nat, maxBytes: nat, slot: nat, cycleMS: int) {
    forall i :: 0 <= i < |sent| ==> Proper(sent[i], maxSamples, maxBytes, slot, cycleMS)
  }

  /** The lanes after a list of batches has been appended to them, in order. */
  function Appended(lanes: seq<Lane>, sent: seq<Emission>): (after: seq<Lane>)
    ensures |after| == |lanes|
  {
    if sent == [] then
      lanes
    else
      var before, batch := Appended(lanes, sent[..|sent| - 1]), sent[|sent| - 1].batch;
      if batch.lane < |before| then before[batch.lane := before[batch.lane] + [batch]] else before
  }

  class PageBatcher {
    const p: Publisher
    const slot: nat
    const cycleMS: int
    var builders: seq<BatchBuilder?>
    var batchesQueued: nat
    var samplesQueued: nat
    var skipped: nat
    var alreadyPending: nat
    var oversized: nat
    ghost var ledger: Ledger
    ghost const lanes0: seq<Lane>

    ghost function Open(): set<BatchBuilder>
      reads this`builders
    {
      set b: BatchBuilder | b in builders
    }

    ghost predicate Built(i: nat)
      requires i < |builders| && i < |ledger.open|
      reads this`builders, this`ledger, Open()
    {
      var b := builders[i];
      if b == null then
        ledger.open[i] == []
      else
        && b in Open() && b.Valid() && b.samples == ledger.open[i]
        && b.maxSamples == p.maxSamples && b.maxBytes == p.maxBytes
        && b.policy == PolicyOf(i) && b.lane == i / 2 && b.slot == slot && b.cycleMS == cycleMS
    }

    ghost predicate Consistent()
      reads this`builders, this`ledger, Open()
    {
      && |builders| == |ledger.open| == 2 * p.workers
      && (forall i, j :: 0 <= i < |builders| && 0 <= j < |builders| && i != j && builders[i] != null ==>
            builders[i] != builders[j])
      && (forall i :: 0 <= i < |builders| ==> Built(i))
    }

    /** What has been queued so far stands in the lanes, in order, and is counted. */
    ghost predicate Booked()
      reads this`ledger, this`batchesQueued, this`samplesQueued, p.queue`lanes
    {
      && AllProper(ledger.sent, p.maxSamples, p.maxBytes, slot, cycleMS)
      && batchesQueued == |ledger.sent| && samplesQueued == SamplesSent(ledger.sent)
      && p.queue.lanes == Appended(lanes0, ledger.sent)
    }

    ghost predicate Valid()
      reads this, p, p.queue, Open()
    {
      && p.Valid() && Consistent() && Booked() && Balanced(ledger)
    }

    constructor (p: Publisher, slot: nat, cycleMS: int)
      requires p.Valid()
      ensures Valid() && Open() == {} && this.p == p && this.slot == slot && this.cycleMS == cycleMS
      ensures ledger == Ledger(seq(2 * p.workers, _ => []), [], []) && lanes0 == p.queue.lanes
      ensures batchesQueued == samplesQueued == skipped == alreadyPending == oversized == 0
    {
      this.p, this.slot, this.cycleMS := p, slot, cycleMS;
      builders := seq(2 * p.workers, _ => null);
      batchesQueued, samplesQueued, skipped, alreadyPending, oversized := 0, 0, 0, 0, 0;
      ledger := Ledger(seq(2 * p.workers, _ => []), [], []);
      lanes0 := p.queue.lanes;
      new;
      NothingOpen(ledger.open);
    }

    /** What has been taken and counted so far, and the keys reserved now. */
    ghost function Standing(): Books
      reads this`ledger, this`skipped, this`alreadyPending, this`oversized, p`reservations
    {
      Books(ledger.taken, skipped, alreadyPending, oversized, p.reservations)
    }

    lemma Parts()
      requires Valid()
      ensures p.Valid() && Consistent() && Booked() && Balanced(ledger)
    {
    }

    /** The builder of one lane and policy, started if there is none. */
    method Builder(policy: PublishPolicy, lane: nat) returns (index: nat, builder: BatchBuilder)
      requires Valid() && lane < p.workers
      modifies this`builders
      ensures Valid()
      ensures index == IndexOf(policy, lane) && index < |builders| && builders[index] == builder
      ensures builders == old(builders)[index := builder]
      ensures builder == old(builders[IndexOf(policy, lane)]) || (fresh(builder) && builder.samples == [])
      ensures old(builders[IndexOf(policy, lane)]) != null ==> builder == old(builders[IndexOf(policy, lane)])
    {
      hide LaneQueue.Valid, BatchBuilder.Valid, PageBatcher.Booked, Balanced;
      IndexMeans(policy, lane, p.workers);
      index := IndexOf(policy, lane);
      assert Built(index);
      if builders[index] == null {
        var started := new BatchBuilder(p.maxSamples, p.maxBytes, policy, slot, cycleMS, lane);
        builders := builders[index := started];
        forall i | 0 <= i < |builders|
          ensures Built(i)
        {
          assert i != index ==> old(Built(i));
        }
      }
      builder := builders[index];
    }

    /** Offers a sample to a started builder. */
    method TakeInto(index: nat, sample: Sample) returns (outcome: AddOutcome)
      requires Valid() && index < |builders| && builders[index] != null
      modifies builders[index], this`ledger
      ensures Valid() && |old(ledger.open[index])| <= p.maxSamples
      ensures outcome.Added? <==>
        |old(ledger.open[index])| < p.maxSamples && WireSize(old(ledger.open[index]) + [sample]) <= p.maxBytes
      ensures outcome.Oversized? <==> |old(ledger.open[index])| < p.maxSamples && WireSize([sample]) > p.maxBytes
      ensures ledger == if outcome.Added? then Take(old(ledger), index, sample) else old(ledger)
    {
      hide LaneQueue.Valid, BatchBuilder.Valid, Balanced, WireSize, AllProper;
      assert Built(index);
      TakeBalances(ledger, index, sample);
      WithinLimit(builders[index]);
      outcome := builders[index].Add(sample);
      if outcome.Added? {
        ledger := Take(ledger, index, sample);
      }
      forall i | 0 <= i < |builders|
        ensures Built(i)
      {
        assert old(Built(i));
      }
    }

    /** Encodes what one builder has collected and hands it to the queue. The encoding
        cannot fail. A refused batch has given its keys back. */
    method SubmitBuilder(index: nat, ghost others: multiset<PublishKey>, ghost n: nat)
      returns (failure: Option<PageFailure>)
      requires Valid() && index < |builders| && builders[index] != null && ledger.open[index] != []
      requires p.Exact(Held(ledger) + others, n)
      modifies this`builders, this`batchesQueued, this`samplesQueued, this`ledger
      modifies p`reservations, p`pending, p`idle, p.queue`lanes, p.queue`size, p.queue`notify
      ensures p.Valid() && Consistent() && Booked()
      ensures p.Exact(Held(ledger) + others, n)
      ensures builders == old(builders)[index := null]
      ensures ledger.open == old(ledger.open)[index := []] && ledger.taken == old(ledger.taken)
      ensures failure.None? ==> Balanced(ledger) && |ledger.sent| == |old(ledger.sent)| + 1
      ensures failure.None? ==> p.reservations == old(p.reservations)
      ensures failure.Some? ==>
        ledger.sent == old(ledger.sent) && failure.value.NotQueued? && !failure.value.outcome.Queued?
    {
      hide LaneQueue.Valid, BatchBuilder.Valid, Publisher.Valid, Publisher.Exact, Balanced, AllProper, Carries, Within,
        Held, Admit, Appended, SamplesSent, KeysOf, AcksOf, WireSize;
      assert Built(index);
      p.LaneCount();
      failure := None;
      var encoded := builders[index].Encode();
      match encoded {
        case Nothing => return Some(EncodingFailed);
        case TooLarge => return Some(EncodingFailed);
        case Encoded(batch) =>
          ghost var samples := ledger.open[index];
          CarriesKeys(batch, samples);
          HeldAfterDrop(ledger, index, batch.keys, others);
          HeldAfterEmit(ledger, index, batch);
          EmitBalances(ledger, index, batch);
          EmitProper(ledger.sent, Emission(index, samples, batch), p.maxSamples, p.maxBytes, slot, cycleMS);
          AppendedSnoc(lanes0, ledger.sent, Emission(index, samples, batch));
          builders := builders[index := null];
          var outcome := p.SubmitBatch(batch, Held(Drop(ledger, index)) + others, n);
          if outcome.Queued? {
            ledger := Emit(ledger, index, batch);
            batchesQueued := batchesQueued + 1;
            samplesQueued := samplesQueued + batch.samples;
          } else {
            ledger := Drop(ledger, index);
            failure := Some(NotQueued(outcome));
          }
      }
      forall i | 0 <= i < |builders|
        ensures Built(i)
      {
        assert old(Built(i));
      }
    }

    method DropBuilder(index: nat, ghost others: multiset<PublishKey>, ghost n: nat)
      requires p.Valid() && Consistent() && Booked() && p.Exact(Held(ledger) + others, n)
      requires index < |builders| && builders[index] != null
      modifies this`builders, this`ledger, p`reservations
      ensures p.Valid() && Consistent() && Booked() && p.Exact(Held(ledger) + others, n)
      ensures builders == old(builders)[index := null] && ledger == Drop(old(ledger), index)
    {
      hide LaneQueue.Valid, BatchBuilder.Valid, Publisher.Valid, Publisher.Exact, AllProper, Held, Appended;
      assert Built(index);
      var keys := builders[index].keys;
      BuilderKeys(builders[index]);
      HeldAfterDrop(ledger, index, keys, others);
      p.ReleaseKeys(keys, Held(Drop(ledger, index)) + others, n);
      builders := builders[index := null];
      ledger := Drop(ledger, index);
      forall i | 0 <= i < |builders|
        ensures Built(i)
      {
        assert old(Built(i));
      }
    }

    /** Gives back the keys of every open builder and drops the builders. */
    method Cleanup(ghost others: multiset<PublishKey>, ghost n: nat)
      requires p.Valid() && Consistent() && Booked() && p.Exact(Held(ledger) + others, n)
      modifies this`builders, this`ledger, p`reservations
      ensures p.Valid() && Booked() && p.Exact(others, n)
      ensures |builders| == |old(builders)| && forall i :: 0 <= i < |builders| ==> builders[i] == null
      ensures ledger.sent == old(ledger.sent) && ledger.taken == old(ledger.taken)
    {
      hide LaneQueue.Valid, BatchBuilder.Valid, Publisher.Valid, Publisher.Exact, AllProper, Held, Appended;
      var index := 0;
      while index < |builders|
        invariant index <= |builders| == |old(builders)|
        invariant p.Valid() && Consistent() && Booked() && p.Exact(Held(ledger) + others, n)
        invariant forall i :: 0 <= i < index ==> builders[i] == null
        invariant ledger.sent == old(ledger.sent) && ledger.taken == old(ledger.taken)
      {
        if builders[index] != null {
          DropBuilder(index, others, n);
        }
        index := index + 1;
      }
      forall i | 0 <= i < |ledger.open|
        ensures ledger.open[i] == []
      {
        assert Built(i);
      }
      HeldNothing(ledger);
    }

    /** Gives up a page: the key of the current sample and those of every open builder are
        given back. */
    method Abandon(key: PublishKey, ghost others: multiset<PublishKey>, ghost n: nat)
      requires p.Valid() && Consistent() && Booked() && p.Exact(Held(ledger) + (others + multiset{key}), n)
      modifies this`builders, this`ledger, p`reservations
      ensures p.Valid() && Booked() && p.Exact(others, n)
      ensures |builders| == |old(builders)| && forall i :: 0 <= i < |builders| ==> builders[i] == null
      ensures ledger.sent == old(ledger.sent)
    {
      hide LaneQueue.Valid, BatchBuilder.Valid, Publisher.Valid, Publisher.Exact, PageBatcher.Booked, Held;
      Shuffled(Held(ledger), others, key);
      p.ReleaseKeys([key], Held(ledger) + others, n);
      forall i | 0 <= i < |builders|
        ensures Built(i)
      {
        assert old(Built(i));
      }
      Cleanup(others, n);
    }

    /** Adds one sample: a reserved key is left alone, an oversized sample is counted and
        dropped, and a full builder is sent off first. If anything fails, every key this
        page still holds is given back. */
    method Add(policy: PublishPolicy, lane: nat, sample: Sample, ghost others: multiset<PublishKey>, ghost n: nat)
      returns (failure: Option<PageFailure>)
      requires Valid() && lane < p.workers && p.Exact(Held(ledger) + others, n)
      modifies this`builders, this`batchesQueued, this`samplesQueued, this`alreadyPending, this`oversized, this`ledger
      modifies Open(), p`reservations, p`pending, p`idle, p.queue`lanes, p.queue`size, p.queue`notify
      ensures p.Valid() && Booked() && fresh(Open() - old(Open()))
      ensures failure.None? ==> Valid() && p.Exact(Held(ledger) + others, n)
      ensures failure.None? ==>
        Standing() == Entered(old(Standing()), Given(IndexOf(policy, lane), sample), p.maxBytes)
      ensures failure.Some? ==> alreadyPending == old(alreadyPending) && oversized == old(oversized)
      ensures failure.Some? ==> p.Exact(others, n) && forall i :: 0 <= i < |builders| ==> builders[i] == null
      ensures failure.Some? && failure.value.NotQueued? ==> !failure.value.outcome.Queued?
      ensures failure.Some? && !failure.value.NotQueued? ==>
        && failure.value.OversizedAfterFull? && WireSize([sample]) > p.maxBytes
        && |old(ledger.open[IndexOf(policy, lane)])| == p.maxSamples
      ensures failure.None? && sample.key !in old(p.reservations) ==>
        |old(ledger.open[IndexOf(policy, lane)])| < p.maxSamples || WireSize([sample]) <= p.maxBytes
    {
      hide LaneQueue.Valid, BatchBuilder.Valid, Publisher.Valid, Publisher.Exact, PageBatcher.Booked, Balanced, Held,
        WireSize, AllProper;
      hide Entered;
      EnteredGiven(Standing(), IndexOf(policy, lane), sample, p.maxBytes);
      IndexMeans(policy, lane, p.workers);
      var ok := p.Reserve(sample.key, Held(ledger) + others, n);
      if !ok {
        alreadyPending := alreadyPending + 1;
        return None;
      }
      Shuffled(Held(ledger), others, sample.key);
      failure := AddFree(policy, lane, sample, others, n);
    }

    /** Adds a sample whose key has just been reserved for it. */
    method AddFree(policy: PublishPolicy, lane: nat, sample: Sample, ghost others: multiset<PublishKey>, ghost n: nat)
      returns (failure: Option<PageFailure>)
      requires Valid() && lane < p.workers && IndexOf(policy, lane) < |ledger.open|
      requires p.Exact(Held(ledger) + (others + multiset{sample.key}), n)
      modifies this`builders, this`batchesQueued, this`samplesQueued, this`oversized, this`ledger
      modifies Open(), p`reservations, p`pending, p`idle, p.queue`lanes, p.queue`size, p.queue`notify
      ensures p.Valid() && Booked() && fresh(Open() - old(Open()))
      ensures failure.None? ==> Valid() && p.Exact(Held(ledger) + others, n)
      ensures failure.None? && WireSize([sample]) > p.maxBytes ==>
        && ledger.taken == old(ledger.taken) && oversized == old(oversized) + 1
        && p.reservations == old(p.reservations) - {sample.key}
      ensures failure.None? && WireSize([sample]) <= p.maxBytes ==>
        && ledger.taken == old(ledger.taken) + [Placement(IndexOf(policy, lane), sample)]
        && oversized == old(oversized) && p.reservations == old(p.reservations)
      ensures failure.Some? ==> oversized == old(oversized)
      ensures failure.Some? ==> p.Exact(others, n) && forall i :: 0 <= i < |builders| ==> builders[i] == null
      ensures failure.Some? && failure.value.NotQueued? ==> !failure.value.outcome.Queued?
      ensures failure.Some? && !failure.value.NotQueued? ==>
        && failure.value.OversizedAfterFull? && WireSize([sample]) > p.maxBytes
        && |old(ledger.open[IndexOf(policy, lane)])| == p.maxSamples
      ensures failure.None? ==>
        |old(ledger.open[IndexOf(policy, lane)])| < p.maxSamples || WireSize([sample]) <= p.maxBytes
    {
      hide LaneQueue.Valid, BatchBuilder.Valid, Publisher.Valid, Publisher.Exact, PageBatcher.Booked, Balanced, Held,
        WireSize, AllProper;
      Shuffled(Held(ledger), others, sample.key);
      p.LaneCount();
      HeldAfterTake(ledger, IndexOf(policy, lane), sample);
      EmptyTakes(ledger.open[IndexOf(policy, lane)], sample);
      var index, builder := Builder(policy, lane);
      var outcome := TakeInto(index, sample);
      if outcome.Oversized? {
        p.ReleaseKeys([sample.key], Held(ledger) + others, n);
        OneKey(sample.key);
        oversized := oversized + 1;
        return None;
      }
      if outcome.Added? {
        return None;
      }
      failure := AddToNext(index, policy, lane, sample, others, n);
    }

    /** Sends off a builder without room for a sample and puts it into a new one. */
    method AddToNext(index: nat, policy: PublishPolicy, lane: nat, sample: Sample,
                     ghost others: multiset<PublishKey>, ghost n: nat)
      returns (failure: Option<PageFailure>)
      requires Valid() && lane < p.workers && index == IndexOf(policy, lane) && index < |builders|
      requires builders[index] != null && ledger.open[index] != []
      requires p.Exact(Held(ledger) + (others + multiset{sample.key}), n)
      modifies this`builders, this`batchesQueued, this`samplesQueued, this`ledger
      modifies Open(), p`reservations, p`pending, p`idle, p.queue`lanes, p.queue`size, p.queue`notify
      ensures p.Valid() && Booked() && fresh(Open() - old(Open()))
      ensures failure.None? ==> Valid() && p.Exact(Held(ledger) + others, n)
      ensures failure.None? ==> WireSize([sample]) <= p.maxBytes && p.reservations == old(p.reservations)
      ensures failure.None? ==> ledger.taken == old(ledger.taken) + [Placement(index, sample)]
      ensures failure.Some? ==> p.Exact(others, n) && forall i :: 0 <= i < |builders| ==> builders[i] == null
      ensures failure.Some? && failure.value.NotQueued? ==> !failure.value.outcome.Queued?
      ensures failure.Some? && !failure.value.NotQueued? ==>
        failure.value.OversizedAfterFull? && WireSize([sample]) > p.maxBytes
    {
      hide LaneQueue.Valid, BatchBuilder.Valid, Publisher.Valid, Publisher.Exact, PageBatcher.Booked, Balanced, Held,
        WireSize, AllProper;
      failure := SubmitBuilder(index, others + multiset{sample.key}, n);
      Shuffled(Held(ledger), others, sample.key);
      if failure.Some? {
        Abandon(sample.key, others, n);
        return;
      }
      p.LaneCount();
      HeldAfterTake(ledger, index, sample);
      EmptyTakes(ledger.open[index], sample);
      var next, started := Builder(policy, lane);
      var again := TakeInto(index, sample);
      if again.Added? {
        return None;
      }
      Abandon(sample.key, others, n);
      if again.Oversized? {
        return Some(OversizedAfterFull);
      }
      return Some(EmptyBatchRefused);
    }

    method Result() returns (page: PageCounts)
      ensures page == PageCounts(batchesQueued, samplesQueued, skipped, alreadyPending, oversized)
    {
      page := PageCounts(batchesQueued, samplesQueued, skipped, alreadyPending, oversized);
    }

    /** Sends off every builder that holds something, lane by lane and policy by policy. */
    method Finish(ghost others: multiset<PublishKey>, ghost n: nat) returns (failure: Option<PageFailure>)
      requires Valid() && p.Exact(Held(ledger) + others, n)
      modifies this`builders, this`batchesQueued, this`samplesQueued, this`ledger
      modifies p`reservations, p`pending, p`idle, p.queue`lanes, p.queue`size, p.queue`notify
      ensures p.Valid() && Booked() && p.Exact(others, n)
      ensures failure.None? ==> Balanced(ledger) && ledger.taken == old(ledger.taken)
      ensures failure.None? ==> p.reservations == old(p.reservations)
      ensures failure.None? ==>
        |ledger.open| == 2 * p.workers && forall i :: 0 <= i < |ledger.open| ==> ledger.open[i] == []
      ensures failure.Some? ==> failure.value.NotQueued? && !failure.value.outcome.Queued?
    {
      hide LaneQueue.Valid, BatchBuilder.Valid, Publisher.Valid, Publisher.Exact, PageBatcher.Booked, Balanced, Held,
        AllProper;
      var index := 0;
      while index < |builders|
        invariant index <= |builders| == |old(builders)| && Open() <= old(Open())
        invariant Valid() && p.Exact(Held(ledger) + others, n) && ledger.taken == old(ledger.taken)
        invariant p.reservations == old(p.reservations)
        invariant forall i :: 0 <= i < index ==> ledger.open[i] == []
      {
        assert Built(index);
        if builders[index] != null && |builders[index].samples| != 0 {
          failure := SubmitBuilder(index, others, n);
          if failure.Some? {
            Cleanup(others, n);
            return;
          }
        }
        index := index + 1;
      }
      HeldNothing(ledger);
      return None;
    }
  }

  lemma OneKey(key: PublishKey)
    ensures (set k | k in [key]) == {key}
  {
  }

  lemma Shuffled(held: multiset<PublishKey>, others: multiset<PublishKey>, key: PublishKey)
    ensures held + others + multiset{key} == held + (others + multiset{key})
    ensures held + others + multiset{key} == held + multiset{key} + others
    ensures held + others + multiset{key} == held + others + multiset([key])
  {
  }

  /** A builder with one sample holds a request of its own. */
  lemma EmptyTakes(open: seq<Sample>, sample: Sample)
    ensures open == [] ==> open + [sample] == [sample]
  {
  }

  function Drop(l: Ledger, index: nat): Ledger
    requires index < |l.open|
  {
    l.(open := l.open[index := []])
  }

  lemma WithinLimit(builder: BatchBuilder)
    requires builder.Valid()
    ensures |builder.samples| <= builder.maxSamples
  {
  }

  lemma BuilderKeys(builder: BatchBuilder)
    requires builder.Valid()
    ensures builder.keys == KeysOf(builder.samples)
  {
  }

  lemma HeldAfterDrop(l: Ledger, index: nat, keys: seq<PublishKey>, others: multiset<PublishKey>)
    requires index < |l.open| && keys == KeysOf(l.open[index])
    ensures Held(l) + others == Held(Drop(l, index)) + others + multiset(keys)
  {
    OpenKeysAfter(l.open, index, []);
    hide Bag, OpenKeys;
    assert KeysOf([]) == [];
    ReplacedByNone(Bag(OpenKeys(l.open)), multiset(keys), others);
  }

  lemma HeldNothing(l: Ledger)
    requires forall i :: 0 <= i < |l.open| ==> l.open[i] == []
    ensures Held(l) == multiset{}
    ensures SamplesOpen(l.open) == 0
    ensures forall others: multiset<PublishKey> :: Held(l) + others == others
  {
    NothingOpen(l.open);
  }

  lemma CarriesKeys(batch: EncodedBatch, samples: seq<Sample>)
    requires Carries(batch, samples)
    ensures batch.keys == KeysOf(samples) && batch.samples == |samples|
  {
  }

  lemma HeldAfterTake(l: Ledger, index: nat, sample: Sample)
    requires index < |l.open|
    ensures Held(Take(l, index, sample)) == Held(l) + multiset{sample.key}
  {
    OpenKeysAfter(l.open, index, l.open[index] + [sample]);
    SamplesSnoc(l.open[index], sample);
    hide Bag, OpenKeys, KeysOf;
    ReplacedByMore(Bag(OpenKeys(l.open)), KeysOf(l.open[index]), sample.key);
  }

  lemma ReplacedByMore(bag: multiset<PublishKey>, keys: seq<PublishKey>, key: PublishKey)
    requires multiset(keys) <= bag
    ensures bag - multiset(keys) + multiset(keys + [key]) == bag + multiset{key}
  {
  }

  lemma HeldAfterEmit(l: Ledger, index: nat, batch: EncodedBatch)
    requires index < |l.open|
    ensures Held(Emit(l, index, batch)) == Held(Drop(l, index))
  {
  }

  lemma ReplacedByNone(bag: multiset<PublishKey>, part: multiset<PublishKey>, others: multiset<PublishKey>)
    requires part <= bag
    ensures bag + others == bag - part + multiset([]) + others + part
  {
  }

  lemma EmitProper(sent: seq<Emission>, e: Emission, maxSamples: nat, maxBytes: nat, slot: nat, cycleMS: int)
    requires AllProper(sent, maxSamples, maxBytes, slot, cycleMS) && Proper(e, maxSamples, maxBytes, slot, cycleMS)
    ensures AllProper(sent + [e], maxSamples, maxBytes, slot, cycleMS)
    ensures SamplesSent(sent + [e]) == SamplesSent(sent) + |e.samples|
  {
    assert (sent + [e])[..|sent|] == sent;
  }

  lemma AppendedSnoc(lanes: seq<Lane>, sent: seq<Emission>, e: Emission)
    requires e.batch.lane < |lanes|
    ensures var before := Appended(lanes, sent);
            Appended(lanes, sent + [e]) == before[e.batch.lane := before[e.batch.lane] + [e.batch]]
  {
    assert (sent + [e])[..|sent|] == sent;
  }

  // ---------- One page ----------

  datatype PageCounts = PageCounts(
    batchesQueued: nat, samplesQueued: nat, skipped: nat, alreadyPending: nat, oversized: nat)

  /** How a value becomes a sample: the wire form of a series and the lane of an item are
      any functions of it. */
  datatype Encoding = Encoding(encode: (seq<Label>, real, int) -> Bytes, laneOf: string -> nat)

  ghost predicate LanesExist(encoding: Encoding, workers: nat) {
    forall id :: (encoding.laneOf)(id) < workers
  }

  predicate Publishable(snapshot: Snapshot, value: PublishValue) {
    var item := ItemOf(snapshot, value.itemID);
    item.Some? && item.value.version == value.metadataVersion && |item.value.definition.labels| != 0
  }

  function SampleOf(snapshot: Snapshot, value: PublishValue, encoding: Encoding): Sample
    requires Publishable(snapshot, value)
  {
    Sample(value.itemID,
           (encoding.encode)(ItemOf(snapshot, value.itemID).value.definition.labels, value.value,
                             UnixMillis(value.timestamp)),
           Some(PublishAck(value.itemID, value.valueVersion, value.timestamp)),
           PublishKey("item\0" + value.itemID, value.valueVersion, UnixMillis(value.timestamp)))
  }

  /** What a value offers to the batcher. */
  function OfferOf(snapshot: Snapshot, value: PublishValue, encoding: Encoding): Offer {
    if Publishable(snapshot, value) then
      Given(IndexOf(value.publishPolicy, (encoding.laneOf)(value.itemID)), SampleOf(snapshot, value, encoding))
    else
      Missing
  }

  function OffersOf(snapshot: Snapshot, values: seq<PublishValue>, encoding: Encoding): (offers: seq<Offer>)
    ensures |offers| == |values|
  {
    seq(|values|, i requires 0 <= i < |values| => OfferOf(snapshot, values[i], encoding))
  }

  /** What a batcher's counters say, given the samples it has taken. */
  predicate Counted(page: PageCounts, books: Books) {
    page.skipped == books.skipped && page.alreadyPending == books.pending && page.oversized == books.oversized
  }

  /** Every value of a page meets exactly the fate its metadata, the reservations and its
      size decide: the counters, the samples taken and the keys reserved are those of
      entering the values one by one. Every lane and policy receives its samples in page
      order, and afterwards the only keys held are those of queued batches. A page that
      fails has given back everything that it had not queued; `done` values were through. */
  method ProcessPage(p: Publisher, snapshot: Snapshot, slot: nat, cycleMS: int, values: seq<PublishValue>,
                     encoding: Encoding, ghost others: multiset<PublishKey>, ghost n: nat)
    returns (page: PageCounts, failure: Option<PageFailure>, ghost sent: seq<Emission>, ghost done: nat)
    requires p.Valid() && p.Exact(others, n) && LanesExist(encoding, p.workers)
    modifies p`reservations, p`pending, p`idle, p.queue`lanes, p.queue`size, p.queue`notify
    ensures p.Valid() && p.Exact(others, n)
    ensures p.queue.lanes == Appended(old(p.queue.lanes), sent)
    ensures AllProper(sent, p.maxSamples, p.maxBytes, slot, cycleMS)
    ensures page.batchesQueued == |sent| && page.samplesQueued == SamplesSent(sent)
    ensures done <= |values| && (failure.None? ==> done == |values|)
    ensures var offers := OffersOf(snapshot, values[..done], encoding);
            var books := EnteredAll(NewBooks(old(p.reservations)), offers, p.maxBytes);
            && Counted(page, books)
            && (failure.None? ==>
                  && page.samplesQueued == |books.taken| && p.reservations == books.reserved
                  && AllSent(sent, books.taken, 2 * p.workers))
    ensures failure.Some? ==>
      (failure.value.NotQueued? && !failure.value.outcome.Queued?) || failure.value.OversizedAfterFull?
  {
    hide LaneQueue.Valid, BatchBuilder.Valid, Publisher.Valid, Publisher.Exact, Balanced, Held, AllProper, OfferOf,
      OffersOf, EnteredAll, Entered, PageBatcher.Consistent, PageBatcher.Built, WireSize, AllSent;
    var batcher := new PageBatcher(p, slot, cycleMS);
    HeldNothing(batcher.ledger);
    ghost var start := NewBooks(p.reservations);
    done := 0;
    FirstOffers(snapshot, values, encoding);
    EnteredNone(start, p.maxBytes);
    var i := 0;
    while i < |values|
      invariant done == i <= |values|
      invariant fresh(batcher) && fresh(batcher.Open()) && batcher.p == p
      invariant batcher.slot == slot && batcher.cycleMS == cycleMS && batcher.lanes0 == old(p.queue.lanes)
      invariant batcher.Valid() && p.Exact(Held(batcher.ledger) + others, n)
      invariant batcher.Standing() == EnteredAll(start, OffersOf(snapshot, values[..i], encoding), p.maxBytes)
    {
      var value := values[i];
      NextOffer(snapshot, values, encoding, i);
      EnteredSnoc(start, OffersOf(snapshot, values[..i], encoding), OfferOf(snapshot, value, encoding), p.maxBytes);
      if !Publishable(snapshot, value) {
        OfferMissing(snapshot, value, encoding);
        EnteredMissing(batcher.Standing(), p.maxBytes);
        batcher.skipped := batcher.skipped + 1;
      } else {
        OfferGiven(snapshot, value, encoding);
        failure := batcher.Add(value.publishPolicy, (encoding.laneOf)(value.itemID),
                               SampleOf(snapshot, value, encoding), others, n);
        if failure.Some? {
          page := batcher.Result();
          return page, failure, batcher.ledger.sent, done;
        }
      }
      i, done := i + 1, i + 1;
    }
    assert values[..i] == values;
    failure := batcher.Finish(others, n);
    page := batcher.Result();
    sent := batcher.ledger.sent;
    if failure.None? {
      SentEverything(batcher.ledger);
    }
  }

  lemma FirstOffers(snapshot: Snapshot, values: seq<PublishValue>, encoding: Encoding)
    ensures OffersOf(snapshot, values[..0], encoding) == []
  {
  }

  lemma NextOffer(snapshot: Snapshot, values: seq<PublishValue>, encoding: Encoding, i: nat)
    requires i < |values|
    ensures OffersOf(snapshot, values[..i + 1], encoding) ==
      OffersOf(snapshot, values[..i], encoding) + [OfferOf(snapshot, values[i], encoding)]
  {
    hide OfferOf;
  }

  lemma OfferMissing(snapshot: Snapshot, value: PublishValue, encoding: Encoding)
    requires !Publishable(snapshot, value)
    ensures OfferOf(snapshot, value, encoding) == Missing
  {
  }

  lemma OfferGiven(snapshot: Snapshot, value: PublishValue, encoding: Encoding)
    requires Publishable(snapshot, value)
    ensures OfferOf(snapshot, value, encoding) ==
      Given(IndexOf(value.publishPolicy, (encoding.laneOf)(value.itemID)), SampleOf(snapshot, value, encoding))
  {
    hide Publishable;
  }

  lemma EnteredMissing(books: Books, maxBytes: nat)
    ensures Entered(books, Missing, maxBytes) == books.(skipped := books.skipped + 1)
  {
  }

  lemma SentEverything(l: Ledger)
    requires Balanced(l) && forall i :: 0 <= i < |l.open| ==> l.open[i] == []
    ensures SamplesSent(l.sent) == |l.taken| && AllSent(l.sent, l.taken, |l.open|)
  {
    HeldNothing(l);
    forall index | 0 <= index < |l.open|
      ensures SentFor(l.sent, index) == TakenFor(l.taken, index)
    {
      assert SentFor(l.sent, index) + l.open[index] == SentFor(l.sent, index);
    }
  }
}

/** Building one bounded write request (internal/promwrap/batch_encoder.go). */
module BatchBuilders {
  import opened LaneQueues
  import opened Options
  import opened ValueCaches
  import opened ValueStates
  import opened WireFormats

  /** One sample of one series: its encoded time series, the acknowledgement it stands
      for, and the key that reserves it. */
  datatype Sample = Sample(seriesID: string, message: Bytes, ack: Option<PublishAck>, key: PublishKey)

  datatype AddOutcome = Added | NoRoom | Oversized

  datatype EncodeOutcome = Nothing | Encoded(batch: EncodedBatch) | TooLarge

  function MessagesOf(samples: seq<Sample>): (messages: seq<Bytes>)
    ensures |messages| == |samples|
  {
    seq(|samples|, i requires 0 <= i < |samples| => samples[i].message)
  }

  function KeysOf(samples: seq<Sample>): (keys: seq<PublishKey>)
    ensures |keys| == |samples|
  {
    seq(|samples|, i requires 0 <= i < |samples| => samples[i].key)
  }

  /** The acknowledgements of the samples that carry one, in order. */
  function AcksOf(samples: seq<Sample>): seq<PublishAck> {
    if samples == [] then
      []
    else
      var last := samples[|samples| - 1];
      AcksOf(samples[..|samples| - 1]) + (if last.ack.Some? then [last.ack.value] else [])
  }

  /** The length of a request holding these samples. */
  function WireSize(samples: seq<Sample>): nat {
    |Wire(MessagesOf(samples))|
  }

  lemma SamplesSnoc(samples: seq<Sample>, sample: Sample)
    ensures MessagesOf(samples + [sample]) == MessagesOf(samples) + [sample.message]
    ensures KeysOf(samples + [sample]) == KeysOf(samples) + [sample.key]
    ensures AcksOf(samples + [sample]) == AcksOf(samples) + (if sample.ack.Some? then [sample.ack.value] else [])
    ensures WireSize(samples + [sample]) == WireSize(samples) + |Record(sample.message)|
  {
    assert (samples + [sample])[..|samples|] == samples;
    assert MessagesOf(samples + [sample]) == MessagesOf(samples) + [sample.message];
    WireSnoc(MessagesOf(samples), sample.message);
  }

  /** What a batch made of these samples must look like. */
  ghost predicate Carries(batch: EncodedBatch, samples: seq<Sample>) {
    && Parse(batch.raw) == Some(MessagesOf(samples))
    && batch.keys == KeysOf(samples) && batch.acks == AcksOf(samples) && batch.samples == |samples|
  }

  lemma {:induction false} AcksExactly(samples: seq<Sample>)
    ensures forall ack :: ack in AcksOf(samples) <==> exists i :: 0 <= i < |samples| && samples[i].ack == Some(ack)
    ensures (forall i :: 0 <= i < |samples| ==> samples[i].ack.Some?) ==>
      && |AcksOf(samples)| == |samples|
      && forall i :: 0 <= i < |samples| ==> AcksOf(samples)[i] == samples[i].ack.value
  {
    if samples != [] {
      var n := |samples| - 1;
      AcksExactly(samples[..n]);
      assert samples == samples[..n] + [samples[n]];
      forall ack | ack in AcksOf(samples[..n])
        ensures exists i :: 0 <= i < |samples| && samples[i].ack == Some(ack)
      {
        var i :| 0 <= i < n && samples[..n][i].ack == Some(ack);
        assert samples[i].ack == Some(ack);
      }
      if samples[n].ack.Some? {
        assert samples[n].ack == Some(samples[n].ack.value);
      }
      forall i | 0 <= i < |samples| && samples[i].ack.Some?
        ensures samples[i].ack.value in AcksOf(samples)
      {
        if i < n {
          assert samples[..n][i].ack == Some(samples[i].ack.value);
        }
      }
    }
  }

  /** A batch made of these samples decodes to their messages, holds their keys, one by one,
      and names the acknowledgement of every sample that has one, and no other. */
  lemma CarriesExactly(batch: EncodedBatch, samples: seq<Sample>)
    requires Carries(batch, samples)
    ensures Parse(batch.raw).Some? && |Parse(batch.raw).value| == |batch.keys| == |samples| == batch.samples
    ensures forall i :: 0 <= i < |samples| ==>
      Parse(batch.raw).value[i] == samples[i].message && batch.keys[i] == samples[i].key
    ensures forall ack :: ack in batch.acks <==> exists i :: 0 <= i < |samples| && samples[i].ack == Some(ack)
  {
    AcksExactly(samples);
  }

  /** A batch within both limits. */
  predicate Within(batch: EncodedBatch, maxSamples: nat, maxBytes: nat) {
    1 <= batch.samples <= maxSamples && |batch.raw| <= maxBytes
  }

  class BatchBuilder {
    const maxSamples: nat
    const maxBytes: nat
    const policy: PublishPolicy
    const slot: nat
    const cycleMS: int
    const lane: nat
    var samples: seq<Sample>
    var acks: seq<PublishAck>
    var keys: seq<PublishKey>
    var encodedBytes: nat

    /** The running byte count is exactly the length of the request so far, and both
        limits hold. */
    ghost predicate Valid()
      reads this
    {
      && maxSamples > 0 && |samples| <= maxSamples
      && keys == KeysOf(samples) && acks == AcksOf(samples)
      && encodedBytes == WireSize(samples) && encodedBytes <= maxBytes
    }

    constructor (maxSamples: nat, maxBytes: nat, policy: PublishPolicy, slot: nat, cycleMS: int, lane: nat)
      requires maxSamples > 0
      ensures Valid() && samples == []
      ensures this.maxSamples == maxSamples && this.maxBytes == maxBytes && this.policy == policy
      ensures this.slot == slot && this.cycleMS == cycleMS && this.lane == lane
    {
      this.maxSamples, this.maxBytes, this.policy := maxSamples, maxBytes, policy;
      this.slot, this.cycleMS, this.lane := slot, cycleMS, lane;
      samples, acks, keys, encodedBytes := [], [], [], 0;
    }

    /** Takes a sample exactly when the request stays within both limits; a sample that
        would not fit into a request of its own is rejected for good. */
    method Add(sample: Sample) returns (outcome: AddOutcome)
      requires Valid()
      modifies this`samples, this`acks, this`keys, this`encodedBytes
      ensures Valid()
      ensures outcome.Added? <==> |old(samples)| < maxSamples && WireSize(old(samples) + [sample]) <= maxBytes
      ensures outcome.Oversized? <==> |old(samples)| < maxSamples && WireSize([sample]) > maxBytes
      ensures samples == if outcome.Added? then old(samples) + [sample] else old(samples)
    {
      SamplesSnoc(samples, sample);
      SamplesSnoc([], sample);
      assert [] + [sample] == [sample];
      hide WireSize, AcksOf, KeysOf, Record;
      EmptySize();
      if |samples| >= maxSamples {
        return NoRoom;
      }
      var entryBytes := RepeatedMessageSize(|sample.message|);
      assert entryBytes == |Record(sample.message)|;
      if entryBytes > maxBytes {
        return Oversized;
      }
      if encodedBytes + entryBytes > maxBytes {
        return NoRoom;
      }
      samples := samples + [sample];
      if sample.ack.Some? {
        acks := acks + [sample.ack.value];
      }
      keys := keys + [sample.key];
      encodedBytes := encodedBytes + entryBytes;
      return Added;
    }

    /** Encodes what was added. The size check of the source never fails: the length was
        counted exactly while adding. */
    method Encode() returns (outcome: EncodeOutcome)
      requires Valid()
      ensures outcome.Nothing? <==> samples == []
      ensures !outcome.TooLarge?
      ensures outcome.Encoded? ==>
        && Carries(outcome.batch, samples) && Within(outcome.batch, maxSamples, maxBytes)
        && |outcome.batch.raw| == encodedBytes
        && outcome.batch.policy == policy && outcome.batch.slot == slot
        && outcome.batch.cycleTimestampMS == cycleMS && outcome.batch.lane == lane
    {
      hide Parse;
      if |samples| == 0 {
        return Nothing;
      }
      var raw := Wire(MessagesOf(samples));
      WireRoundTrip(MessagesOf(samples));
      if |raw| > maxBytes {
        return TooLarge;
      }
      return Encoded(EncodedBatch(raw, acks, keys, policy, slot, cycleMS, lane, |samples|));
    }
  }

  lemma EmptySize()
    ensures WireSize([]) == 0
  {
  }
}

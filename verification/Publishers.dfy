/** The streaming publisher's shared state: reservations, the activity counter and the
    send queue, and everything that takes from or adds to them
    (internal/promwrap/publisher.go). */
module Publishers {
  import opened FlatCaches
  import opened LaneQueues
  import opened Options
  import opened Times
  import opened ValueCaches
  import opened ValueStates

  /** The keys a list of batches holds, with repetitions. */
  function KeysHeld(batches: Lane): multiset<PublishKey> {
    if batches == [] then
      multiset{}
    else
      KeysHeld(batches[..|batches| - 1]) + multiset(batches[|batches| - 1].keys)
  }

  function LanesHold(lanes: seq<Lane>): multiset<PublishKey> {
    if lanes == [] then multiset{} else LanesHold(lanes[..|lanes| - 1]) + KeysHeld(lanes[|lanes| - 1])
  }

  lemma KeysHeldSnoc(batches: Lane, batch: EncodedBatch)
    ensures KeysHeld(batches + [batch]) == KeysHeld(batches) + multiset(batch.keys)
  {
    assert (batches + [batch])[..|batches|] == batches;
  }

  lemma Reassociated(a: multiset<PublishKey>, b: multiset<PublishKey>, c: multiset<PublishKey>)
    ensures a + (b + c) == (a + b) + c
  {
  }

  /** Replacing the part `b` of a sum. */
  lemma Replaced(a: multiset<PublishKey>, b: multiset<PublishKey>, c: multiset<PublishKey>, d: multiset<PublishKey>)
    requires b <= a
    ensures b <= a + c
    ensures (a - b + d) + c == (a + c) - b + d
  {
  }

  lemma ReplacedLast(a: multiset<PublishKey>, b: multiset<PublishKey>, d: multiset<PublishKey>)
    ensures b <= a + b
    ensures a + d == (a + b) - b + d
  {
  }

  lemma Split(a: multiset<PublishKey>, b: multiset<PublishKey>, c: multiset<PublishKey>)
    ensures (a + c) + b == (a + b) + c
    ensures a + (b + c) == (a + b) + c
  {
  }

  lemma {:induction false} KeysHeldAppend(a: Lane, b: Lane)
    ensures KeysHeld(a + b) == KeysHeld(a) + KeysHeld(b)
    decreases |b|
  {
    hide KeysHeld;
    if b == [] {
      HoldsNothing();
      assert a + b == a;
      assert KeysHeld(a) + multiset{} == KeysHeld(a);
    } else {
      var n := |b| - 1;
      KeysHeldAppend(a, b[..n]);
      assert a + b == (a + b[..n]) + [b[n]];
      assert b == b[..n] + [b[n]];
      KeysHeldSnoc(a + b[..n], b[n]);
      KeysHeldSnoc(b[..n], b[n]);
      Reassociated(KeysHeld(a), KeysHeld(b[..n]), multiset(b[n].keys));
    }
  }

  lemma LanesHoldSnoc(lanes: seq<Lane>, lane: Lane)
    ensures LanesHold(lanes + [lane]) == LanesHold(lanes) + KeysHeld(lane)
  {
    assert (lanes + [lane])[..|lanes|] == lanes;
  }

  lemma {:induction false} LanesHoldAfter(lanes: seq<Lane>, k: nat, lane: Lane)
    requires k < |lanes|
    ensures KeysHeld(lanes[k]) <= LanesHold(lanes)
    ensures LanesHold(lanes[k := lane]) == LanesHold(lanes) - KeysHeld(lanes[k]) + KeysHeld(lane)
  {
    hide KeysHeld, LanesHold;
    var n := |lanes| - 1;
    LanesHoldSnoc(lanes[..n], lanes[n]);
    assert lanes == lanes[..n] + [lanes[n]];
    if k < n {
      LanesHoldAfter(lanes[..n], k, lane);
      assert lanes[k := lane] == lanes[..n][k := lane] + [lanes[n]];
      LanesHoldSnoc(lanes[..n][k := lane], lanes[n]);
      Replaced(LanesHold(lanes[..n]), KeysHeld(lanes[k]), KeysHeld(lanes[n]), KeysHeld(lane));
    } else {
      assert lanes[k := lane] == lanes[..n] + [lane];
      LanesHoldSnoc(lanes[..n], lane);
      ReplacedLast(LanesHold(lanes[..n]), KeysHeld(lanes[n]), KeysHeld(lane));
    }
  }

  lemma HeldAfterEnqueue(lanes: seq<Lane>, batch: EncodedBatch)
    requires batch.lane < |lanes|
    ensures LanesHold(lanes[batch.lane := lanes[batch.lane] + [batch]]) == LanesHold(lanes) + multiset(batch.keys)
    ensures Total(lanes[batch.lane := lanes[batch.lane] + [batch]]) == Total(lanes) + 1
  {
    LanesHoldAfter(lanes, batch.lane, lanes[batch.lane] + [batch]);
    KeysHeldSnoc(lanes[batch.lane], batch);
    TotalAfter(lanes, batch.lane, lanes[batch.lane] + [batch]);
  }

  lemma HeldAfterPop(lanes: seq<Lane>, k: nat)
    requires k < |lanes| && lanes[k] != []
    ensures LanesHold(lanes) == LanesHold(lanes[k := lanes[k][1..]]) + multiset(lanes[k][0].keys)
    ensures Total(lanes) == Total(lanes[k := lanes[k][1..]]) + 1
  {
    hide KeysHeld, LanesHold, Total;
    var first, rest := lanes[k][0], lanes[k][1..];
    HoldsNothing();
    LanesHoldAfter(lanes, k, rest);
    TotalAfter(lanes, k, rest);
    assert lanes[k] == [first] + rest;
    KeysHeldAppend([first], rest);
    KeysHeldSnoc([], first);
    assert [] + [first] == [first];
  }

  lemma {:induction false} HeldAfterFilter(lane: Lane, slot: nat, cycleMS: int)
    ensures KeysHeld(Kept(lane, slot, cycleMS)) + KeysHeld(Dropped(lane, slot, cycleMS)) == KeysHeld(lane)
  {
    hide Kept, Dropped, KeysHeld, Superseded;
    if lane == [] {
      FilterEmpty(slot, cycleMS);
      HoldsNothing();
    } else {
      var n := |lane| - 1;
      var kept, dropped := Kept(lane[..n], slot, cycleMS), Dropped(lane[..n], slot, cycleMS);
      HeldAfterFilter(lane[..n], slot, cycleMS);
      assert lane == lane[..n] + [lane[n]];
      FilterSnoc(lane[..n], lane[n], slot, cycleMS);
      KeysHeldSnoc(lane[..n], lane[n]);
      KeysHeldSnoc(kept, lane[n]);
      KeysHeldSnoc(dropped, lane[n]);
      Split(KeysHeld(kept), KeysHeld(dropped), multiset(lane[n].keys));
      assert kept + [] == kept && dropped + [] == dropped;
    }
  }

  lemma FilterEmpty(slot: nat, cycleMS: int)
    ensures Kept([], slot, cycleMS) == [] && Dropped([], slot, cycleMS) == []
  {
  }

  /** Coalescing moves keys from the queue to the removed batches and loses none. */
  lemma {:induction false} HeldAfterCoalesce(lanes: seq<Lane>, slot: nat, cycleMS: int)
    ensures LanesHold(KeptAll(lanes, slot, cycleMS)) + KeysHeld(DroppedAll(lanes, slot, cycleMS)) == LanesHold(lanes)
  {
    if lanes != [] {
      var n := |lanes| - 1;
      HeldAfterCoalesce(lanes[..n], slot, cycleMS);
      assert KeptAll(lanes, slot, cycleMS)[..n] == KeptAll(lanes[..n], slot, cycleMS);
      HeldAfterFilter(lanes[n], slot, cycleMS);
      KeysHeldAppend(DroppedAll(lanes[..n], slot, cycleMS), Dropped(lanes[n], slot, cycleMS));
      hide KeysHeld, Kept, Dropped;
    }
  }

  lemma {:induction false} HeldAfterClose(lanes: seq<Lane>)
    ensures KeysHeld(Concatenated(lanes)) == LanesHold(lanes)
    ensures |Concatenated(lanes)| == Total(lanes)
  {
    if lanes != [] {
      var n := |lanes| - 1;
      HeldAfterClose(lanes[..n]);
      KeysHeldAppend(Concatenated(lanes[..n]), lanes[n]);
    }
  }

  lemma {:induction false} HoldNothing(lanes: seq<Lane>)
    requires forall k :: 0 <= k < |lanes| ==> lanes[k] == []
    ensures LanesHold(lanes) == multiset{} && Total(lanes) == 0
  {
    if lanes != [] {
      HoldNothing(lanes[..|lanes| - 1]);
    }
  }

  ghost function KeysIn(batches: Lane): set<PublishKey> {
    set b, key | b in batches && key in b.keys :: key
  }

  lemma NoKeysIn()
    ensures KeysIn([]) == {}
  {
  }

  lemma KeysInNext(batches: Lane, i: nat)
    requires i < |batches|
    ensures KeysIn(batches[..i + 1]) == KeysIn(batches[..i]) + (set key | key in batches[i].keys)
  {
    assert batches[..i + 1] == batches[..i] + [batches[i]];
  }

  // ---------- Delivery ----------

  datatype DeliveryClass = Success | Retryable | Permanent

  /** The backoff doubles from the base and stops at the maximum; the doubling never
      overshoots it. */
  method BoundedBackoff(base: int, maximum: int, exponent: nat) returns (delay: int)
    requires maximum > 0
    ensures delay == if base <= 0 then 0 else Min(maximum, base * Power2(exponent))
  {
    if base <= 0 {
      return 0;
    }
    delay := base;
    var i := 0;
    while i < exponent
      invariant i <= exponent && delay == base * Power2(i)
    {
      if delay >= maximum || delay > maximum / 2 {
        Saturates(base, i, exponent, maximum);
        return maximum;
      }
      Doubling(base, i);
      delay := delay * 2;
      i := i + 1;
    }
    if maximum > 0 && delay > maximum {
      return maximum;
    }
  }

  lemma {:induction false} Saturates(base: int, i: nat, exponent: nat, maximum: int)
    requires base > 0 && i <= exponent
    requires base * Power2(i) >= maximum || (i < exponent && base * Power2(i) > maximum / 2)
    ensures base * Power2(exponent) >= maximum
    decreases exponent - i
  {
    if i < exponent {
      Doubling(base, i);
      Saturates(base, i + 1, exponent, maximum);
    }
  }

  /** Some attempt within the limit succeeds, and every attempt before it failed in a way
      that is tried again, with no interrupted wait in between. */
  ghost predicate Succeeds(maxRetries: nat, outcome: nat -> DeliveryClass, cancelled: nat -> bool) {
    exists n: nat :: 1 <= n <= maxRetries + 1 && outcome(n) == Success && TriedBefore(n, outcome, cancelled)
  }

  ghost predicate TriedBefore(n: nat, outcome: nat -> DeliveryClass, cancelled: nat -> bool) {
    forall m: nat :: 1 <= m < n ==> outcome(m) == Retryable && !cancelled(m)
  }

  /** The attempts of one delivery. `outcome(n)` is the class of attempt `n` and
      `cancelled(n)` says whether the wait after it was interrupted. Nothing is sent
      again after a success or a permanent failure, and never more than the retries
      allow. */
  method Send(maxRetries: nat, outcome: nat -> DeliveryClass, cancelled: nat -> bool)
    returns (attempts: nat, class_: DeliveryClass)
    ensures 1 <= attempts <= maxRetries + 1
    ensures class_ == outcome(attempts)
    ensures forall n :: 1 <= n < attempts ==> outcome(n) == Retryable && !cancelled(n)
    ensures class_ == Retryable ==> attempts == maxRetries + 1 || cancelled(attempts)
    ensures class_ == Success <==> Succeeds(maxRetries, outcome, cancelled)
  {
    attempts := 1;
    while true
      invariant 1 <= attempts <= maxRetries + 1
      invariant forall n :: 1 <= n < attempts ==> outcome(n) == Retryable && !cancelled(n)
      decreases maxRetries + 1 - attempts
    {
      class_ := outcome(attempts);
      OnlyHere(maxRetries, outcome, cancelled, attempts);
      if class_ == Success {
        return;
      }
      if class_ != Retryable || attempts > maxRetries {
        return;
      }
      if cancelled(attempts) {
        return;
      }
      attempts := attempts + 1;
    }
  }

  /** If no further attempt follows, a delivery can only succeed at this one. */
  lemma OnlyHere(maxRetries: nat, outcome: nat -> DeliveryClass, cancelled: nat -> bool, attempts: nat)
    requires 1 <= attempts <= maxRetries + 1 && TriedBefore(attempts, outcome, cancelled)
    ensures outcome(attempts) == Success ==> Succeeds(maxRetries, outcome, cancelled)
    ensures Succeeds(maxRetries, outcome, cancelled) ==>
      outcome(attempts) == Success || (outcome(attempts) == Retryable && attempts <= maxRetries && !cancelled(attempts))
  {
    if n: nat :| 1 <= n <= maxRetries + 1 && outcome(n) == Success && TriedBefore(n, outcome, cancelled) {
      if attempts < n {
        assert outcome(attempts) == Retryable && !cancelled(attempts);
      }
    }
  }

  // ---------- Cycles ----------

  function ToMillisecond(at: int): int {
    at / MILLISECOND * MILLISECOND
  }

  /** The cycle a slot uses for a requested instant. */
  function NormalizedCycle(lastRequested: int, lastCycle: int, requested: int): int {
    var truncated := ToMillisecond(requested);
    if lastRequested == truncated then
      lastCycle
    else if lastCycle != ZERO_TIME && truncated <= lastCycle then
      lastCycle + MILLISECOND
    else
      truncated
  }

  predicate WholeMillisecond(at: int) {
    at % MILLISECOND == 0
  }

  /** The millisecond lies in the future of a slot's last cycle and not before the one the
      requested instant lies in. */
  predicate Possible(lastCycle: int, requested: int, cycle: int) {
    WholeMillisecond(cycle) && cycle > lastCycle && requested < cycle + MILLISECOND
  }

  /** The cycle a new request gets: for a slot without one the millisecond the requested
      instant lies in, and otherwise the first possible one. */
  ghost predicate NextCycle(lastCycle: int, requested: int, cycle: int) {
    if lastCycle == ZERO_TIME then
      WholeMillisecond(cycle) && cycle <= requested < cycle + MILLISECOND
    else
      Possible(lastCycle, requested, cycle) && forall other :: Possible(lastCycle, requested, other) ==> cycle <= other
  }

  /** The requested instant lies in the millisecond of the last request. */
  predicate Repeated(lastRequested: int, requested: int) {
    lastRequested <= requested < lastRequested + MILLISECOND
  }

  lemma Truncates(at: int)
    ensures WholeMillisecond(ToMillisecond(at)) && ToMillisecond(at) <= at < ToMillisecond(at) + MILLISECOND
  {
  }

  lemma WholeApart(a: int, b: int)
    requires WholeMillisecond(a) && WholeMillisecond(b)
    ensures a < b ==> a + MILLISECOND <= b
  {
  }

  lemma NextWhole(a: int)
    requires WholeMillisecond(a)
    ensures WholeMillisecond(a + MILLISECOND)
  {
  }

  /** A request in the millisecond of the last one gets the cycle of that one; any other gets
      the earliest cycle that advances the slot and is not before the request. */
  lemma CycleIsNext(lastRequested: int, lastCycle: int, requested: int)
    requires WholeMillisecond(lastRequested) && WholeMillisecond(lastCycle)
    ensures var cycle := NormalizedCycle(lastRequested, lastCycle, requested);
            && WholeMillisecond(cycle)
            && if Repeated(lastRequested, requested) then cycle == lastCycle
               else NextCycle(lastCycle, requested, cycle)
  {
    var truncated := ToMillisecond(requested);
    Truncates(requested);
    WholeApart(lastRequested, truncated);
    WholeApart(truncated, lastRequested);
    WholeApart(lastCycle, truncated);
    NextWhole(lastCycle);
    forall other | Possible(lastCycle, requested, other)
      ensures lastCycle + MILLISECOND <= other && truncated <= other
    {
      WholeApart(lastCycle, other);
      WholeApart(other, truncated);
    }
    hide ToMillisecond, WholeMillisecond;
  }

  /** Asking again for the same instant answers the same cycle; asking for another one
      answers a strictly later cycle exactly if the slot had one or the instant is after Go's
      zero time. */
  lemma CyclesAdvance(lastRequested: int, lastCycle: int, requested: int)
    ensures var cycle := NormalizedCycle(lastRequested, lastCycle, requested);
            && (ToMillisecond(requested) == lastRequested ==> cycle == lastCycle)
            && (cycle > lastCycle <==>
                  ToMillisecond(requested) != lastRequested &&
                  (lastCycle != ZERO_TIME || ToMillisecond(requested) > ZERO_TIME))
            && (lastCycle % MILLISECOND == 0 ==> cycle % MILLISECOND == 0)
  {
  }

  /** Three requests before Go's zero time: the second advances to the zero instant itself,
      which stands for no cycle, so the third goes back behind the first. */
  lemma CyclesGoBack() returns (first: int, second: int, third: int)
    ensures first != ZERO_TIME && second != ZERO_TIME && third != ZERO_TIME
    ensures var one := NormalizedCycle(ZERO_TIME, ZERO_TIME, first);
            var two := NormalizedCycle(ToMillisecond(first), one, second);
            NormalizedCycle(ToMillisecond(second), two, third) < one
  {
    first, second, third := ZERO_TIME - MILLISECOND, ZERO_TIME - 2 * MILLISECOND, ZERO_TIME - 3 * MILLISECOND;
  }

  datatype SubmitOutcome = Queued | Stopped | QueueFull

  class Publisher {
    const queue: LaneQueue
    const workers: nat
    const maxSamples: nat
    const maxBytes: nat
    var reservations: set<PublishKey>
    var pending: int
    /** Whether the idle channel is closed. */
    var idle: bool

    ghost predicate Valid()
      reads this, queue
    {
      && queue.Valid() && |queue.lanes| == workers && maxSamples > 0
      && (idle <==> pending == 0)
    }

    /** The reservation set is the disjoint union of the keys in queued batches and the
        keys `held` elsewhere (open builders, batches being sent, submitted or released),
        and the activity counter counts the queued batches and the `others`. */
    ghost predicate Exact(held: multiset<PublishKey>, others: nat)
      reads this, queue
    {
      && multiset(reservations) == LanesHold(queue.lanes) + held
      && pending == Total(queue.lanes) + others
    }

    constructor (queue: LaneQueue, workers: nat, maxSamples: nat, maxBytes: nat)
      requires queue.Valid() && |queue.lanes| == workers && maxSamples > 0
      requires forall k :: 0 <= k < workers ==> queue.lanes[k] == []
      ensures Valid() && Exact(multiset{}, 0)
      ensures this.queue == queue && this.workers == workers
      ensures this.maxSamples == maxSamples && this.maxBytes == maxBytes
    {
      this.queue, this.workers := queue, workers;
      this.maxSamples, this.maxBytes := maxSamples, maxBytes;
      reservations, pending, idle := {}, 0, true;
      HoldNothing(queue.lanes);
    }

    lemma LaneCount()
      requires Valid()
      ensures |queue.lanes| == workers && maxSamples > 0
    {
    }

    /** Reserves a key unless someone holds it already. */
    method Reserve(key: PublishKey, ghost held: multiset<PublishKey>, ghost others: nat) returns (ok: bool)
      requires Valid() && Exact(held, others)
      modifies this`reservations
      ensures Valid()
      ensures ok <==> key !in old(reservations)
      ensures reservations == old(reservations) + {key}
      ensures Exact(if ok then held + multiset{key} else held, others)
    {
      hide LaneQueue.Valid, LanesHold, Total;
      if key in reservations {
        assert reservations == reservations + {key};
        return false;
      }
      ReservedOne(reservations, key);
      reservations := reservations + {key};
      return true;
    }

    method ReleaseKeys(keys: seq<PublishKey>, ghost held: multiset<PublishKey>, ghost others: nat)
      requires Valid() && Exact(held + multiset(keys), others)
      modifies this`reservations
      ensures Valid() && Exact(held, others)
      ensures reservations == old(reservations) - (set key | key in keys)
    {
      hide LaneQueue.Valid, LanesHold, Total;
      ghost var rest := LanesHold(queue.lanes) + held;
      assert multiset(reservations) == rest + multiset(keys);
      assert keys[..0] == [];
      var i := 0;
      while i < |keys|
        invariant i <= |keys|
        invariant multiset(reservations) == rest + multiset(keys[i..])
        invariant reservations == old(reservations) - (set key | key in keys[..i])
      {
        ReleasedOne(reservations, rest, keys, i);
        assert keys[..i + 1] == keys[..i] + [keys[i]];
        reservations := reservations - {keys[i]};
        i := i + 1;
      }
      assert keys[i..] == [] && keys[..i] == keys;
    }

    method AddActivity(ghost held: multiset<PublishKey>, ghost others: nat)
      requires Valid() && Exact(held, others)
      modifies this`pending, this`idle
      ensures Valid() && Exact(held, others + 1) && !idle
    {
      hide LaneQueue.Valid, LanesHold, Total;
      if pending == 0 {
        idle := false;
      }
      pending := pending + 1;
    }

    /** Counts an outstanding batch as done; the counter cannot go negative. */
    method DoneActivity(ghost held: multiset<PublishKey>, ghost others: nat)
      requires Valid() && Exact(held, others + 1)
      modifies this`pending, this`idle
      ensures Valid() && Exact(held, others)
      ensures pending >= 0
    {
      hide LaneQueue.Valid, LanesHold, Total;
      pending := pending - 1;
      if pending == 0 {
        idle := true;
      }
    }

    /** Hands a batch to the queue. Refused batches give their keys back. */
    method SubmitBatch(batch: EncodedBatch, ghost held: multiset<PublishKey>, ghost others: nat)
      returns (outcome: SubmitOutcome)
      requires Valid() && Exact(held + multiset(batch.keys), others) && batch.lane < workers
      modifies this`reservations, this`pending, this`idle, queue`lanes, queue`size, queue`notify
      ensures Valid() && Exact(held, others)
      ensures outcome.Queued? <==> Admit(old(queue.State()), batch) == Accepted
      ensures outcome.QueueFull? <==> Admit(old(queue.State()), batch) == Full
      ensures queue.State() == if outcome.Queued? then Enqueued(old(queue.State()), batch) else old(queue.State())
      ensures reservations == if outcome.Queued? then old(reservations)
                              else old(reservations) - (set key | key in batch.keys)
    {
      hide LaneQueue.Valid, LanesHold, Total;
      AddActivity(held + multiset(batch.keys), others);
      HeldAfterEnqueue(queue.lanes, batch);
      var admission := queue.TryEnqueue(batch);
      match admission {
        case Accepted => return Queued;
        case Obsolete =>
          ReleaseBatch(batch, held, others);
          return Stopped;
        case Full =>
          ReleaseBatch(batch, held, others);
          return QueueFull;
      }
    }

    /** Releases a list of batches that left the queue without being sent. */
    method ReleaseAll(batches: Lane, ghost held: multiset<PublishKey>, ghost others: nat)
      requires Valid() && Exact(held + KeysHeld(batches), others + |batches|)
      modifies this`reservations, this`pending, this`idle
      ensures Valid() && Exact(held, others)
      ensures reservations == old(reservations) - KeysIn(batches)
    {
      hide LaneQueue.Valid, LanesHold, Total, KeysHeld, Publisher.Exact, Publisher.Valid, KeysIn;
      assert batches[0..] == batches;
      NoKeysIn();
      var i := 0;
      while i < |batches|
        invariant i <= |batches|
        invariant reservations == old(reservations) - KeysIn(batches[..i])
        invariant Valid() && Exact(held + KeysHeld(batches[i..]), others + (|batches| - i))
      {
        FirstHeld(batches, i);
        KeysInNext(batches, i);
        ghost var rest := KeysHeld(batches[i + 1..]);
        assert held + KeysHeld(batches[i..]) == held + rest + multiset(batches[i].keys);
        ReleaseBatch(batches[i], held + rest, others + (|batches| - i - 1));
        i := i + 1;
      }
      assert batches[i..] == [] && batches[..i] == batches;
      HoldsNothing();
      assert held + multiset{} == held;
    }

    /** Gives back the keys of one batch and counts it as done. */
    method ReleaseBatch(batch: EncodedBatch, ghost held: multiset<PublishKey>, ghost others: nat)
      requires Valid() && Exact(held + multiset(batch.keys), others + 1)
      modifies this`reservations, this`pending, this`idle
      ensures Valid() && Exact(held, others)
      ensures reservations == old(reservations) - (set key | key in batch.keys)
    {
      hide LaneQueue.Valid, LanesHold, Total, Publisher.Exact, Publisher.Valid;
      ReleaseKeys(batch.keys, held, others + 1);
      DoneActivity(held, others);
    }

    /** The start of a cycle: superseded batches leave the queue and give back their keys. */
    method BeginCycle(slot: nat, cycleMS: int, ghost held: multiset<PublishKey>, ghost others: nat)
      returns (current: bool, coalescedBatches: nat)
      requires Valid() && Exact(held, others)
      modifies this`reservations, this`pending, this`idle, queue`lanes, queue`size, queue`latestCycles
      ensures Valid() && Exact(held, others)
      ensures current <==> MayBegin(old(queue.State()), slot, cycleMS)
      ensures queue.State() == Begun(old(queue.State()), slot, cycleMS)
      ensures coalescedBatches == |Coalesced(old(queue.State()), slot, cycleMS)|
      ensures reservations == old(reservations) - KeysIn(Coalesced(old(queue.State()), slot, cycleMS))
    {
      hide LaneQueue.Valid, LanesHold, Total, KeysHeld, KeysIn;
      HeldAfterCoalesce(queue.lanes, slot, cycleMS);
      TotalKept(queue.lanes, slot, cycleMS);
      HoldsNothing();
      var removed;
      current, removed := queue.BeginLongCycle(slot, cycleMS);
      coalescedBatches := |removed|;
      ReleaseAll(removed, held, others);
    }

    /** Stopping closes the queue and gives back what waited in it. */
    method Stop(ghost held: multiset<PublishKey>, ghost others: nat)
      requires Valid() && Exact(held, others)
      modifies this`reservations, this`pending, this`idle, queue`lanes, queue`size, queue`notify, queue`closed
      ensures Valid() && Exact(held, others)
      ensures queue.closed && (!old(queue.closed) ==> queue.State() == Closed(old(queue.State())))
    {
      hide LaneQueue.Valid, LanesHold, Total, KeysHeld;
      HeldAfterClose(queue.lanes);
      HoldNothing(NoBatches(|queue.lanes|));
      HoldsNothing();
      var remaining := queue.Close();
      ReleaseAll(remaining, held, others);
    }

    /** One turn of a lane's worker: takes the oldest batch, delivers it, acknowledges its
        values only after a successful delivery, and gives its keys back either way. */
    method Deliver(lane: nat, store: ValueCache, maxRetries: nat, outcome: nat -> DeliveryClass,
                   cancelled: nat -> bool, ghost held: multiset<PublishKey>, ghost others: nat)
      returns (section: PopSection, delivered: bool)
      requires Valid() && Exact(held, others) && store.Valid()
      requires lane < workers && !queue.waiting[lane]
      modifies this`reservations, this`pending, this`idle
      modifies queue`lanes, queue`size, queue`notify, queue`waiting
      modifies store`flat, store`entries, store`contents, store.shards
      ensures Valid() && Exact(held, others) && store.Valid()
      ensures section.Got? <==> old(queue.lanes[lane]) != []
      ensures section.Got? ==>
        section.batch == old(queue.lanes[lane])[0] && queue.State() == Popped(old(queue.State()), lane)
      ensures !section.Got? ==> queue.State() == old(queue.State()) && !delivered
      ensures delivered <==> section.Got? && Succeeds(maxRetries, outcome, cancelled)
      ensures store.flat ==
        if delivered then Processed(old(store.flat), AckOps(section.batch.acks), store.missThreshold).flat
                            else old(store.flat)
    {
      hide LaneQueue.Valid, LanesHold, Total, ValueCache.Valid, Processed, AckOps, Succeeds;
      if |queue.lanes[lane]| != 0 {
        HeldAfterPop(queue.lanes, lane);
      }
      section := queue.PopOne(lane);
      delivered := false;
      if !section.Got? {
        return;
      }
      var batch := section.batch;
      var attempts, class_ := Send(maxRetries, outcome, cancelled);
      if class_ == Success {
        delivered := true;
        NoAcks(store.flat, store.missThreshold);
        if |batch.acks| != 0 {
          var ack := store.AckPublished(batch.acks);
        } else {
          assert batch.acks == [];
        }
      }
      ReleaseBatch(batch, held, others);
    }
  }

  lemma ReservedOne(reservations: set<PublishKey>, key: PublishKey)
    requires key !in reservations
    ensures multiset(reservations + {key}) == multiset(reservations) + multiset{key}
  {
  }

  lemma ReleasedOne(reservations: set<PublishKey>, rest: multiset<PublishKey>, keys: seq<PublishKey>, i: nat)
    requires i < |keys| && multiset(reservations) == rest + multiset(keys[i..])
    ensures multiset(reservations - {keys[i]}) == rest + multiset(keys[i + 1..])
  {
    var key := keys[i];
    assert keys[i..] == [key] + keys[i + 1..];
    assert multiset(keys[i..]) == multiset{key} + multiset(keys[i + 1..]);
    assert key in multiset(reservations);
    assert reservations == (reservations - {key}) + {key};
    ReservedOne(reservations - {key}, key);
    CancelKey(multiset(reservations - {key}), rest + multiset(keys[i + 1..]), key);
  }

  lemma CancelKey(a: multiset<PublishKey>, b: multiset<PublishKey>, key: PublishKey)
    requires a + multiset{key} == b + multiset{key}
    ensures a == b
  {
    forall k: PublishKey
      ensures a[k] == b[k]
    {
      assert (a + multiset{key})[k] == a[k] + multiset{key}[k];
      assert (b + multiset{key})[k] == b[k] + multiset{key}[k];
    }
  }

  lemma FirstHeld(batches: Lane, i: nat)
    requires i < |batches|
    ensures KeysHeld(batches[i..]) == multiset(batches[i].keys) + KeysHeld(batches[i + 1..])
  {
    assert batches[i..] == [batches[i]] + batches[i + 1..];
    KeysHeldAppend([batches[i]], batches[i + 1..]);
    KeysHeldSnoc([], batches[i]);
    assert [] + [batches[i]] == [batches[i]];
  }

  lemma HoldsNothing()
    ensures KeysHeld([]) == multiset{}
  {
  }

  lemma NoAcks(flat: Flat, threshold: nat)
    ensures Processed(flat, AckOps([]), threshold).flat == flat
  {
  }
}

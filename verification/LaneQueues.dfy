/** The bounded send queue: one global limit, one lane per worker, superseded cycles
    removed, and a one-token wake-up channel per lane (internal/promwrap/push_worker.go,
    laneQueue). */
module LaneQueues {
  import opened Options
  import opened ValueCaches
  import opened ValueStates
  import opened WireFormats

  datatype PublishKey = PublishKey(seriesID: string, generation: nat, timestampMS: int)

  datatype EncodedBatch = EncodedBatch(
    raw: Bytes, acks: seq<PublishAck>, keys: seq<PublishKey>, policy: PublishPolicy,
    slot: nat, cycleTimestampMS: int, lane: nat, samples: nat)

  type Lane = seq<EncodedBatch>

  /** What the queue holds, without its wake-up channels. */
  datatype Queue = Queue(lanes: seq<Lane>, capacity: nat, closed: bool, latestCycles: map<nat, int>)

  datatype Admission = Accepted | Full | Obsolete

  function Total(lanes: seq<Lane>): nat {
    if lanes == [] then 0 else Total(lanes[..|lanes| - 1]) + |lanes[|lanes| - 1]|
  }

  /** Go's map answers a missing slot with zero. */
  function Latest(latestCycles: map<nat, int>, slot: nat): int {
    if slot in latestCycles then latestCycles[slot] else 0
  }

  predicate Superseded(batch: EncodedBatch, slot: nat, cycleMS: int) {
    batch.policy == CycleTimestamp && batch.slot == slot && batch.cycleTimestampMS < cycleMS
  }

  function Kept(lane: Lane, slot: nat, cycleMS: int): Lane {
    if lane == [] then
      []
    else
      var last := lane[|lane| - 1];
      Kept(lane[..|lane| - 1], slot, cycleMS) + (if Superseded(last, slot, cycleMS) then [] else [last])
  }

  function Dropped(lane: Lane, slot: nat, cycleMS: int): Lane {
    if lane == [] then
      []
    else
      var last := lane[|lane| - 1];
      Dropped(lane[..|lane| - 1], slot, cycleMS) + (if Superseded(last, slot, cycleMS) then [last] else [])
  }

  function KeptAll(lanes: seq<Lane>, slot: nat, cycleMS: int): (kept: seq<Lane>)
    ensures |kept| == |lanes|
  {
    seq(|lanes|, i requires 0 <= i < |lanes| => Kept(lanes[i], slot, cycleMS))
  }

  function DroppedAll(lanes: seq<Lane>, slot: nat, cycleMS: int): Lane {
    if lanes == [] then
      []
    else
      DroppedAll(lanes[..|lanes| - 1], slot, cycleMS) + Dropped(lanes[|lanes| - 1], slot, cycleMS)
  }

  function Concatenated(lanes: seq<Lane>): Lane {
    if lanes == [] then [] else Concatenated(lanes[..|lanes| - 1]) + lanes[|lanes| - 1]
  }

  /** Whether a cycle may go on: not after closing, and not behind a later cycle. */
  predicate MayBegin(q: Queue, slot: nat, cycleMS: int) {
    !q.closed && (slot in q.latestCycles ==> q.latestCycles[slot] <= cycleMS)
  }

  /** Whether a cycle is the first to reach its timestamp in its slot. */
  predicate Advances(q: Queue, slot: nat, cycleMS: int) {
    MayBegin(q, slot, cycleMS) && !(slot in q.latestCycles && q.latestCycles[slot] == cycleMS)
  }

  function Begun(q: Queue, slot: nat, cycleMS: int): Queue {
    if Advances(q, slot, cycleMS) then
      q.(lanes := KeptAll(q.lanes, slot, cycleMS), latestCycles := q.latestCycles[slot := cycleMS])
    else
      q
  }

  function Coalesced(q: Queue, slot: nat, cycleMS: int): Lane {
    if Advances(q, slot, cycleMS) then DroppedAll(q.lanes, slot, cycleMS) else []
  }

  function Admit(q: Queue, batch: EncodedBatch): Admission {
    if q.closed then
      Obsolete
    else if batch.policy == CycleTimestamp && batch.cycleTimestampMS < Latest(q.latestCycles, batch.slot) then
      Obsolete
    else if Total(q.lanes) >= q.capacity then
      Full
    else
      Accepted
  }

  function Enqueued(q: Queue, batch: EncodedBatch): Queue
    requires batch.lane < |q.lanes|
  {
    q.(lanes := q.lanes[batch.lane := q.lanes[batch.lane] + [batch]])
  }

  function Popped(q: Queue, lane: nat): Queue
    requires lane < |q.lanes| && q.lanes[lane] != []
  {
    q.(lanes := q.lanes[lane := q.lanes[lane][1..]])
  }

  function NoBatches(workers: nat): (lanes: seq<Lane>)
    ensures |lanes| == workers && forall k :: 0 <= k < workers ==> lanes[k] == []
  {
    seq(workers, _ => [])
  }

  function Closed(q: Queue): Queue {
    q.(lanes := NoBatches(|q.lanes|), closed := true)
  }

  // ---------- What the filters do ----------

  lemma FilterSnoc(lane: Lane, last: EncodedBatch, slot: nat, cycleMS: int)
    ensures Kept(lane + [last], slot, cycleMS) ==
      Kept(lane, slot, cycleMS) + (if Superseded(last, slot, cycleMS) then [] else [last])
    ensures Dropped(lane + [last], slot, cycleMS) ==
      Dropped(lane, slot, cycleMS) + (if Superseded(last, slot, cycleMS) then [last] else [])
  {
    assert (lane + [last])[..|lane|] == lane;
  }

  /** The filter takes out exactly the superseded batches and keeps everything else. */
  lemma {:induction false} KeptExact(lane: Lane, slot: nat, cycleMS: int)
    ensures forall b :: b in Kept(lane, slot, cycleMS) <==> b in lane && !Superseded(b, slot, cycleMS)
    ensures forall b :: b in Dropped(lane, slot, cycleMS) <==> b in lane && Superseded(b, slot, cycleMS)
  {
    if lane != [] {
      var n := |lane| - 1;
      KeptExact(lane[..n], slot, cycleMS);
      assert lane == lane[..n] + [lane[n]];
      FilterSnoc(lane[..n], lane[n], slot, cycleMS);
      hide Kept, Dropped, Superseded;
    }
  }

  lemma {:induction false} KeptAndDropped(lane: Lane, slot: nat, cycleMS: int)
    ensures multiset(Kept(lane, slot, cycleMS)) + multiset(Dropped(lane, slot, cycleMS)) == multiset(lane)
    ensures |Kept(lane, slot, cycleMS)| + |Dropped(lane, slot, cycleMS)| == |lane|
  {
    if lane != [] {
      var n := |lane| - 1;
      KeptAndDropped(lane[..n], slot, cycleMS);
      assert lane == lane[..n] + [lane[n]];
      FilterSnoc(lane[..n], lane[n], slot, cycleMS);
      hide Kept, Dropped, Superseded;
    }
  }

  /** A relation between all batches in front of others survives the filter. */
  ghost predicate InOrder(lane: Lane, before: (EncodedBatch, EncodedBatch) -> bool) {
    forall i, j :: 0 <= i < j < |lane| ==> before(lane[i], lane[j])
  }

  lemma {:induction false} KeptInOrder(lane: Lane, slot: nat, cycleMS: int,
                                       before: (EncodedBatch, EncodedBatch) -> bool)
    requires InOrder(lane, before)
    ensures InOrder(Kept(lane, slot, cycleMS), before)
  {
    if lane != [] {
      var n := |lane| - 1;
      KeptInOrder(lane[..n], slot, cycleMS, before);
      KeptExact(lane[..n], slot, cycleMS);
      var kept := Kept(lane[..n], slot, cycleMS);
      forall i | 0 <= i < |kept|
        ensures before(kept[i], lane[n])
      {
        assert kept[i] in lane[..n];
      }
    }
  }

  lemma {:induction false} DroppedAllExact(lanes: seq<Lane>, slot: nat, cycleMS: int)
    ensures forall b :: b in DroppedAll(lanes, slot, cycleMS) ==> Superseded(b, slot, cycleMS)
    ensures multiset(Concatenated(lanes)) ==
      multiset(Concatenated(KeptAll(lanes, slot, cycleMS))) + multiset(DroppedAll(lanes, slot, cycleMS))
  {
    if lanes != [] {
      var n := |lanes| - 1;
      DroppedAllExact(lanes[..n], slot, cycleMS);
      KeptExact(lanes[n], slot, cycleMS);
      KeptAndDropped(lanes[n], slot, cycleMS);
      assert KeptAll(lanes, slot, cycleMS)[..n] == KeptAll(lanes[..n], slot, cycleMS);
      hide Kept, Dropped, Superseded, KeptAll;
    }
  }

  /** What beginning a cycle does. An older one than the latest of its slot may not begin, and
      beginning the latest again changes nothing. A newer one takes out exactly the waiting
      batches of older cycles of that slot: no batch of another slot, of this cycle or with
      source timestamps; nothing else changes and nothing is lost. */
  ghost predicate Begins(q: Queue, q': Queue, removed: Lane, current: bool, slot: nat, cycleMS: int) {
    && (current <==> !q.closed && !(slot in q.latestCycles && cycleMS < q.latestCycles[slot]))
    && if !current || (slot in q.latestCycles && q.latestCycles[slot] == cycleMS) then
         q' == q && removed == []
       else
         && q' == q.(lanes := q'.lanes, latestCycles := q.latestCycles[slot := cycleMS])
         && |q'.lanes| == |q.lanes|
         && (forall k :: 0 <= k < |q.lanes| ==> Purged(q.lanes[k], q'.lanes[k], slot, cycleMS))
         && (forall b :: b in removed ==> OfOlderCycle(b, slot, cycleMS))
         && multiset(Concatenated(q.lanes)) == multiset(Concatenated(q'.lanes)) + multiset(removed)
  }

  ghost predicate Purged(lane: Lane, rest: Lane, slot: nat, cycleMS: int) {
    forall b :: b in rest <==> b in lane && !OfOlderCycle(b, slot, cycleMS)
  }

  predicate OfOlderCycle(batch: EncodedBatch, slot: nat, cycleMS: int) {
    batch.policy.CycleTimestamp? && batch.slot == slot && cycleMS > batch.cycleTimestampMS
  }

  lemma BegunBegins(q: Queue, slot: nat, cycleMS: int)
    ensures Begins(q, Begun(q, slot, cycleMS), Coalesced(q, slot, cycleMS), MayBegin(q, slot, cycleMS), slot, cycleMS)
  {
    DroppedAllExact(q.lanes, slot, cycleMS);
    hide Kept, Dropped, DroppedAll, Concatenated, Purged;
    forall k | 0 <= k < |q.lanes|
      ensures Purged(q.lanes[k], KeptAll(q.lanes, slot, cycleMS)[k], slot, cycleMS)
    {
      KeptPurged(q.lanes[k], slot, cycleMS);
    }
    forall b | b in Coalesced(q, slot, cycleMS)
      ensures OfOlderCycle(b, slot, cycleMS)
    {
      assert b in DroppedAll(q.lanes, slot, cycleMS);
    }
  }

  lemma KeptPurged(lane: Lane, slot: nat, cycleMS: int)
    ensures Purged(lane, Kept(lane, slot, cycleMS), slot, cycleMS)
  {
    KeptExact(lane, slot, cycleMS);
    hide Kept;
  }

  lemma {:induction false} TotalAfter(lanes: seq<Lane>, k: nat, lane: Lane)
    requires k < |lanes|
    ensures Total(lanes[k := lane]) == Total(lanes) - |lanes[k]| + |lane|
  {
    var n := |lanes| - 1;
    if k < n {
      TotalAfter(lanes[..n], k, lane);
      assert lanes[k := lane][..n] == lanes[..n][k := lane];
    } else {
      assert lanes[k := lane][..n] == lanes[..n];
    }
  }

  lemma {:induction false} TotalKept(lanes: seq<Lane>, slot: nat, cycleMS: int)
    ensures Total(KeptAll(lanes, slot, cycleMS)) + |DroppedAll(lanes, slot, cycleMS)| == Total(lanes)
  {
    if lanes != [] {
      var n := |lanes| - 1;
      TotalKept(lanes[..n], slot, cycleMS);
      KeptAndDropped(lanes[n], slot, cycleMS);
      assert KeptAll(lanes, slot, cycleMS)[..n] == KeptAll(lanes[..n], slot, cycleMS);
    }
  }

  lemma {:induction false} TotalEmpty(lanes: seq<Lane>)
    requires forall k :: 0 <= k < |lanes| ==> lanes[k] == []
    ensures Total(lanes) == 0
  {
    if lanes != [] {
      TotalEmpty(lanes[..|lanes| - 1]);
    }
  }

  lemma KeptOfEmpty(lanes: seq<Lane>, slot: nat, cycleMS: int)
    ensures forall k :: 0 <= k < |lanes| && lanes[k] == [] ==> KeptAll(lanes, slot, cycleMS)[k] == []
  {
  }

  // ---------- The queue ----------

  /** Every batch waits in its own lane, and no cycle batch is older than its slot's
      latest cycle. */
  ghost predicate Placed(lanes: seq<Lane>, latestCycles: map<nat, int>) {
    forall k, b :: 0 <= k < |lanes| && b in lanes[k] ==>
      && b.lane == k
      && (b.policy == CycleTimestamp ==> b.cycleTimestampMS >= Latest(latestCycles, b.slot))
  }

  lemma PlacedAfterBegin(q: Queue, slot: nat, cycleMS: int)
    requires Placed(q.lanes, q.latestCycles)
    ensures Placed(Begun(q, slot, cycleMS).lanes, Begun(q, slot, cycleMS).latestCycles)
  {
    if Advances(q, slot, cycleMS) {
      var lanes := KeptAll(q.lanes, slot, cycleMS);
      forall k: nat, b: EncodedBatch | 0 <= k < |lanes| && b in lanes[k]
        ensures b.lane == k
        ensures b.policy == CycleTimestamp ==> b.cycleTimestampMS >= Latest(q.latestCycles[slot := cycleMS], b.slot)
      {
        KeptExact(q.lanes[k], slot, cycleMS);
      }
    }
  }

  lemma PlacedAfterEnqueue(q: Queue, batch: EncodedBatch)
    requires Placed(q.lanes, q.latestCycles) && batch.lane < |q.lanes| && Admit(q, batch) == Accepted
    ensures Placed(Enqueued(q, batch).lanes, q.latestCycles)
  {
  }

  lemma PlacedAfterPop(q: Queue, lane: nat)
    requires Placed(q.lanes, q.latestCycles) && lane < |q.lanes| && q.lanes[lane] != []
    ensures Placed(Popped(q, lane).lanes, q.latestCycles)
  {
    assert forall b :: b in q.lanes[lane][1..] ==> b in q.lanes[lane];
  }

  datatype PopSection = Got(batch: EncodedBatch) | Ended | MustWait

  class LaneQueue {
    var lanes: seq<Lane>
    /** One buffered token per lane. */
    var notify: seq<bool>
    const capacity: nat
    var size: int
    var closed: bool
    var latestCycles: map<nat, int>
    /** Whether the lane's consumer has seen it empty and open and waits for a token. */
    ghost var waiting: seq<bool>

    ghost predicate Valid()
      reads this
    {
      && |notify| == |waiting| == |lanes|
      && size == Total(lanes) && size <= capacity
      && Placed(lanes, latestCycles)
      && (closed ==> forall k :: 0 <= k < |lanes| ==> lanes[k] == [])
      && NoLostWakeUp()
    }

    /** A waiting consumer whose lane has something for it, or is closed, has a token. */
    ghost predicate NoLostWakeUp()
      reads this
      requires |notify| == |waiting| == |lanes|
    {
      forall k :: 0 <= k < |lanes| && waiting[k] && (lanes[k] != [] || closed) ==> notify[k]
    }

    ghost function State(): Queue
      reads this
    {
      Queue(lanes, capacity, closed, latestCycles)
    }

    constructor (workers: nat, capacity: nat)
      ensures Valid()
      ensures State() == Queue(NoBatches(workers), capacity, false, map[])
      ensures waiting == seq(workers, _ => false)
    {
      lanes, notify := NoBatches(workers), seq(workers, _ => false);
      this.capacity := capacity;
      size, closed, latestCycles := 0, false, map[];
      waiting := seq(workers, _ => false);
      TotalEmpty(NoBatches(workers));
    }

    /** Filters one lane in place: kept batches move to the front of the same list. */
    static method Filter(lane: Lane, slot: nat, cycleMS: int) returns (kept: Lane, removed: Lane)
      ensures kept == Kept(lane, slot, cycleMS)
      ensures removed == Dropped(lane, slot, cycleMS)
    {
      var buffer := lane;
      removed := [];
      var write, read := 0, 0;
      while read < |buffer|
        invariant 0 <= write <= read <= |buffer| == |lane|
        invariant buffer[..write] == Kept(lane[..read], slot, cycleMS)
        invariant removed == Dropped(lane[..read], slot, cycleMS)
        invariant forall i :: read <= i < |lane| ==> buffer[i] == lane[i]
      {
        var batch := buffer[read];
        assert lane[..read + 1][..read] == lane[..read];
        if Superseded(batch, slot, cycleMS) {
          removed := removed + [batch];
        } else {
          assert buffer[write := batch][..write + 1] == buffer[..write] + [batch];
          buffer := buffer[write := batch];
          write := write + 1;
        }
        read := read + 1;
      }
      assert lane[..read] == lane;
      kept := buffer[..write];
    }

    /** Starts a cycle of a slot: batches of its earlier cycles leave the queue. */
    method BeginLongCycle(slot: nat, cycleMS: int) returns (current: bool, removed: Lane)
      requires Valid()
      modifies this`lanes, this`size, this`latestCycles
      ensures Valid()
      ensures current <==> MayBegin(old(State()), slot, cycleMS)
      ensures State() == Begun(old(State()), slot, cycleMS)
      ensures removed == Coalesced(old(State()), slot, cycleMS)
      ensures Begins(old(State()), State(), removed, current, slot, cycleMS)
    {
      BegunBegins(State(), slot, cycleMS);
      hide Placed, KeptAll, DroppedAll, Begins;
      if closed {
        return false, [];
      }
      if slot in latestCycles && cycleMS < latestCycles[slot] {
        return false, [];
      }
      if slot in latestCycles && cycleMS == latestCycles[slot] {
        return true, [];
      }
      removed := Coalesce(slot, cycleMS);
      return true, removed;
    }

    method Coalesce(slot: nat, cycleMS: int) returns (removed: Lane)
      requires Valid() && Advances(State(), slot, cycleMS)
      modifies this`lanes, this`size, this`latestCycles
      ensures Valid()
      ensures lanes == KeptAll(old(lanes), slot, cycleMS) && latestCycles == old(latestCycles)[slot := cycleMS]
      ensures removed == DroppedAll(old(lanes), slot, cycleMS)
    {
      PlacedAfterBegin(State(), slot, cycleMS);
      TotalKept(lanes, slot, cycleMS);
      KeptOfEmpty(lanes, slot, cycleMS);
      hide Placed, KeptAll, DroppedAll;
      latestCycles := latestCycles[slot := cycleMS];
      lanes, removed := FilterLanes(lanes, slot, cycleMS);
      size := size - |removed|;
    }

    /** Filters every lane, in lane order. */
    static method FilterLanes(lanes: seq<Lane>, slot: nat, cycleMS: int) returns (kept: seq<Lane>, removed: Lane)
      ensures kept == KeptAll(lanes, slot, cycleMS)
      ensures removed == DroppedAll(lanes, slot, cycleMS)
    {
      hide Kept, Dropped;
      kept, removed := lanes, [];
      var k := 0;
      while k < |lanes|
        invariant k <= |lanes| == |kept|
        invariant forall i :: 0 <= i < k ==> kept[i] == Kept(lanes[i], slot, cycleMS)
        invariant forall i :: k <= i < |lanes| ==> kept[i] == lanes[i]
        invariant removed == DroppedAll(lanes[..k], slot, cycleMS)
      {
        var lane, gone := Filter(kept[k], slot, cycleMS);
        assert lanes[..k + 1][..k] == lanes[..k];
        removed := removed + gone;
        kept := kept[k := lane];
        k := k + 1;
      }
      assert lanes[..k] == lanes;
    }

    /** Admits a batch at the end of its lane, or says why not. */
    method TryEnqueue(batch: EncodedBatch) returns (admission: Admission)
      requires Valid() && batch.lane < |lanes|
      modifies this`lanes, this`size, this`notify
      ensures Valid()
      ensures admission == Admit(old(State()), batch)
      ensures State() == if admission == Accepted then Enqueued(old(State()), batch) else old(State())
      ensures admission == Obsolete <==>
        || old(closed)
        || (batch.policy.CycleTimestamp? &&
            batch.cycleTimestampMS < (if batch.slot in old(latestCycles) then old(latestCycles)[batch.slot] else 0))
      ensures admission == Full <==> admission != Obsolete && old(size) == capacity
      ensures admission == Accepted ==>
        && size == old(size) + 1 && latestCycles == old(latestCycles) && !closed
        && lanes == old(lanes)[batch.lane := old(lanes)[batch.lane] + [batch]]
    {
      if closed {
        return Obsolete;
      }
      if batch.policy == CycleTimestamp && batch.cycleTimestampMS < Latest(latestCycles, batch.slot) {
        return Obsolete;
      }
      if size >= capacity {
        return Full;
      }
      PlacedAfterEnqueue(State(), batch);
      TotalAfter(lanes, batch.lane, lanes[batch.lane] + [batch]);
      lanes := lanes[batch.lane := lanes[batch.lane] + [batch]];
      size := size + 1;
      notify := notify[batch.lane := true];
      return Accepted;
    }

    /** The locked part of a pop by the lane's only consumer: takes the oldest batch, or
        finds the queue closed, or has to wait for a token. */
    method PopOne(lane: nat) returns (section: PopSection)
      requires Valid() && lane < |lanes| && !waiting[lane]
      modifies this`lanes, this`size, this`notify, this`waiting
      ensures Valid()
      ensures section.Got? <==> old(lanes[lane]) != []
      ensures section.Got? ==> section.batch == old(lanes[lane])[0] && State() == Popped(old(State()), lane)
      ensures !section.Got? ==> State() == old(State()) && (section.Ended? <==> closed)
      ensures waiting == old(waiting)[lane := section.MustWait?]
    {
      if |lanes[lane]| != 0 {
        var batch := lanes[lane][0];
        PlacedAfterPop(State(), lane);
        TotalAfter(lanes, lane, lanes[lane][1..]);
        lanes := lanes[lane := lanes[lane][1..]];
        size := size - 1;
        if |lanes[lane]| != 0 {
          notify := notify[lane := true];
        }
        return Got(batch);
      }
      if closed {
        return Ended;
      }
      waiting := waiting[lane := true];
      return MustWait;
    }

    /** A waiting consumer receives its lane's token and will look again. */
    method Wake(lane: nat)
      requires Valid() && lane < |lanes| && waiting[lane] && notify[lane]
      modifies this`notify, this`waiting
      ensures Valid()
      ensures notify == old(notify)[lane := false] && waiting == old(waiting)[lane := false]
    {
      notify := notify[lane := false];
      waiting := waiting[lane := false];
    }

    /** Closes the queue and hands back everything that waited, lane by lane. */
    method Close() returns (remaining: Lane)
      requires Valid()
      modifies this`lanes, this`size, this`notify, this`closed
      ensures Valid()
      ensures State() == if old(closed) then old(State()) else Closed(old(State()))
      ensures remaining == if old(closed) then [] else Concatenated(old(lanes))
    {
      if closed {
        return [];
      }
      closed := true;
      remaining := [];
      ghost var before := lanes;
      var k := 0;
      while k < |lanes|
        invariant k <= |lanes| == |before| == |notify| && closed
        invariant remaining == Concatenated(before[..k])
        invariant forall i :: 0 <= i < k ==> lanes[i] == [] && notify[i]
        invariant forall i :: k <= i < |lanes| ==> lanes[i] == before[i]
      {
        assert before[..k + 1][..k] == before[..k];
        remaining := remaining + lanes[k];
        lanes := lanes[k := []];
        notify := notify[k := true];
        k := k + 1;
      }
      assert before[..k] == before;
      TotalEmpty(lanes);
      size := 0;
      assert lanes == NoBatches(|before|);
    }
  }
}

/** One lock's worth of the value cache: a map of states and an append-only scan
    log with tombstones (internal/cache/shard.go). */
module Shards {
  import opened ValueStates

  datatype ScanKey = ScanKey(sequence: nat, itemID: string)

  /** What a reader sees while it holds the shard's lock. */
  datatype View = View(values: map<string, ValueState>, order: seq<ScanKey>)

  predicate Increasing(order: seq<ScanKey>) {
    forall i, j :: 0 <= i < j < |order| ==> order[i].sequence < order[j].sequence
  }

  /** A log record is live while the item still holds the sequence it was logged with. */
  predicate Live(values: map<string, ValueState>, key: ScanKey) {
    key.itemID in values && values[key.itemID].scanSequence == key.sequence
  }

  /** The live records of a log, in log order. */
  function LiveKeys(values: map<string, ValueState>, order: seq<ScanKey>): seq<ScanKey> {
    if order == [] then
      []
    else
      var last := order[|order| - 1];
      LiveKeys(values, order[..|order| - 1]) + (if Live(values, last) then [last] else [])
  }

  /** Every state sits under its own id and owns a record of the log. */
  predicate Logged(values: map<string, ValueState>, order: seq<ScanKey>) {
    forall id :: id in values ==>
      values[id].itemID == id && ScanKey(values[id].scanSequence, id) in order
  }

  predicate WellFormed(view: View) {
    && Increasing(view.order)
    && (forall key :: key in view.order ==> 0 < key.sequence)
    && Logged(view.values, view.order)
  }

  /** The bound the compaction policy keeps on a shard's log. */
  predicate LogBounded(order: seq<ScanKey>, live: nat) {
    |order| <= live + 1023 || |order| < 2 * live
  }

  lemma LiveKeysMembers(values: map<string, ValueState>, order: seq<ScanKey>)
    ensures forall key :: key in LiveKeys(values, order) <==> key in order && Live(values, key)
  {
    if order != [] {
      var n := |order| - 1;
      assert order == order[..n] + [order[n]];
      LiveKeysMembers(values, order[..n]);
    }
  }

  lemma LiveKeysIncreasing(values: map<string, ValueState>, order: seq<ScanKey>)
    requires Increasing(order)
    ensures Increasing(LiveKeys(values, order))
  {
    if order != [] {
      var n := |order| - 1;
      LiveKeysIncreasing(values, order[..n]);
      LiveKeysMembers(values, order[..n]);
      var kept := LiveKeys(values, order[..n]);
      forall i | 0 <= i < |kept|
        ensures kept[i].sequence < order[n].sequence
      {
        assert kept[i] in order[..n];
      }
    }
  }

  /** A log without repeated ids has as many records as ids. */
  lemma {:induction false} DistinctCount(order: seq<ScanKey>, ids: set<string>)
    requires forall i, j :: 0 <= i < j < |order| ==> order[i].itemID != order[j].itemID
    requires forall id :: id in ids <==> exists i :: 0 <= i < |order| && order[i].itemID == id
    ensures |order| == |ids|
  {
    if order == [] {
      assert ids == {};
    } else {
      var n := |order| - 1;
      var rest := ids - {order[n].itemID};
      forall id
        ensures id in rest <==> exists i :: 0 <= i < n && order[..n][i].itemID == id
      {
        if id in rest {
          var i :| 0 <= i < |order| && order[i].itemID == id;
          assert order[..n][i].itemID == id;
        }
      }
      DistinctCount(order[..n], rest);
    }
  }

  /** Exactly one live record per cached item: the log holds no duplicates and
      misses nothing. */
  lemma {:induction false} OneLiveRecordPerItem(values: map<string, ValueState>, order: seq<ScanKey>)
    requires Increasing(order) && Logged(values, order)
    ensures |LiveKeys(values, order)| == |values|
    ensures forall i, j :: 0 <= i < j < |LiveKeys(values, order)| ==>
      LiveKeys(values, order)[i].itemID != LiveKeys(values, order)[j].itemID
  {
    var live := LiveKeys(values, order);
    LiveKeysMembers(values, order);
    LiveKeysIncreasing(values, order);
    forall i | 0 <= i < |live|
      ensures Live(values, live[i])
    {
      assert live[i] in live;
    }
    forall id
      ensures id in values.Keys <==> exists i :: 0 <= i < |live| && live[i].itemID == id
    {
      if id in values {
        assert ScanKey(values[id].scanSequence, id) in live;
      }
    }
    DistinctCount(live, values.Keys);
    assert |values| == |values.Keys|;
  }

  /** Filters a log inside its own buffer. The write position never passes the read
      position, so the records still to be read are intact. */
  method Compacted(values: map<string, ValueState>, order: seq<ScanKey>) returns (live: seq<ScanKey>)
    ensures live == LiveKeys(values, order)
  {
    var buffer := order;
    var write, read := 0, 0;
    while read < |buffer|
      invariant 0 <= write <= read <= |buffer| == |order|
      invariant buffer[..write] == LiveKeys(values, order[..read])
      invariant forall i :: read <= i < |order| ==> buffer[i] == order[i]
    {
      var key := buffer[read];
      assert order[..read + 1][..read] == order[..read];
      if key.itemID in values && values[key.itemID].scanSequence == key.sequence {
        assert buffer[write := key][..write + 1] == buffer[..write] + [key];
        buffer := buffer[write := key];
        write := write + 1;
      }
      read := read + 1;
    }
    assert order[..read] == order;
    live := buffer[..write];
  }

  // ---------- The invariant of one shard ----------

  ghost predicate Sane(values: map<string, ValueState>, order: seq<ScanKey>, nextSequence: nat, tombstones: nat) {
    && WellFormed(View(values, order))
    && (forall key :: key in order ==> key.sequence <= nextSequence)
    && |order| == |values| + tombstones
  }

  lemma SaneAfterReplace(values: map<string, ValueState>, order: seq<ScanKey>, nextSequence: nat, tombstones: nat,
                         state: ValueState)
    requires Sane(values, order, nextSequence, tombstones)
    requires state.itemID in values && values[state.itemID].scanSequence == state.scanSequence
    ensures Sane(values[state.itemID := state], order, nextSequence, tombstones)
    ensures |values[state.itemID := state]| == |values|
  {
    assert values[state.itemID := state].Keys == values.Keys;
    assert |values[state.itemID := state]| == |values.Keys| == |values|;
  }

  lemma SaneAfterInsert(values: map<string, ValueState>, order: seq<ScanKey>, nextSequence: nat, tombstones: nat,
                        state: ValueState)
    requires Sane(values, order, nextSequence, tombstones)
    requires state.itemID !in values && state.scanSequence == nextSequence + 1
    ensures Sane(values[state.itemID := state], order + [ScanKey(nextSequence + 1, state.itemID)],
                 nextSequence + 1, tombstones)
    ensures |values[state.itemID := state]| == |values| + 1
  {
    var key := ScanKey(nextSequence + 1, state.itemID);
    OrderAppend(order, key, nextSequence);
    LoggedAppend(values, order, state);
    hide Logged, Increasing;
    assert values[state.itemID := state].Keys == values.Keys + {state.itemID};
    assert |values[state.itemID := state]| == |values.Keys| + 1;
  }

  lemma LoggedAppend(values: map<string, ValueState>, order: seq<ScanKey>, state: ValueState)
    requires Logged(values, order)
    ensures Logged(values[state.itemID := state], order + [ScanKey(state.scanSequence, state.itemID)])
  {
    var key := ScanKey(state.scanSequence, state.itemID);
    assert (order + [key])[|order|] == key;
    forall k | k in order
      ensures k in order + [key]
    {
    }
  }

  lemma OrderAppend(order: seq<ScanKey>, key: ScanKey, nextSequence: nat)
    requires Increasing(order) && key.sequence == nextSequence + 1
    requires forall k :: k in order ==> 0 < k.sequence <= nextSequence
    ensures Increasing(order + [key])
    ensures forall k :: k in order + [key] ==> 0 < k.sequence <= nextSequence + 1
  {
    assert forall i :: 0 <= i < |order| ==> order[i] in order;
  }

  lemma SaneAfterDelete(values: map<string, ValueState>, order: seq<ScanKey>, nextSequence: nat, tombstones: nat,
                        itemID: string)
    requires Sane(values, order, nextSequence, tombstones) && itemID in values
    ensures Sane(values - {itemID}, order, nextSequence, tombstones + 1)
    ensures |values - {itemID}| == |values| - 1
  {
    assert (values - {itemID}).Keys == values.Keys - {itemID};
    assert |values - {itemID}| == |values.Keys - {itemID}| == |values| - 1;
  }

  lemma SaneAfterCompact(values: map<string, ValueState>, order: seq<ScanKey>, nextSequence: nat, tombstones: nat)
    requires Sane(values, order, nextSequence, tombstones)
    ensures Sane(values, LiveKeys(values, order), nextSequence, 0)
  {
    LiveKeysMembers(values, order);
    LiveKeysIncreasing(values, order);
    OneLiveRecordPerItem(values, order);
  }

  lemma CompactBounded(values: map<string, ValueState>, order: seq<ScanKey>, nextSequence: nat, tombstones: nat)
    requires Sane(values, order, nextSequence, tombstones)
    ensures LogBounded(LiveKeys(values, order), |values|)
  {
    OneLiveRecordPerItem(values, order);
  }

  lemma StillBounded(values: map<string, ValueState>, order: seq<ScanKey>, nextSequence: nat, tombstones: nat)
    requires Sane(values, order, nextSequence, tombstones)
    requires tombstones < 1024 || tombstones * 2 < |order|
    ensures LogBounded(order, |values|)
  {
  }

  class ValueShard {
    var values: map<string, ValueState>
    var order: seq<ScanKey>
    var nextSequence: nat
    var tombstones: nat

    ghost predicate Valid()
      reads this
    {
      Sane(values, order, nextSequence, tombstones)
    }

    constructor ()
      ensures Valid()
      ensures values == map[] && order == [] && nextSequence == 0 && tombstones == 0
    {
      values, order, nextSequence, tombstones := map[], [], 0, 0;
    }

    /** Installs a state. A replacement keeps the scan position of the state it
        replaces; a new item is logged at the end under a sequence never used before. */
    method Insert(state: ValueState)
      requires Valid()
      modifies this
      ensures Valid()
      ensures tombstones == old(tombstones)
      ensures state.itemID in old(values) ==>
        && values == old(values)[state.itemID :=
             state.(scanSequence := old(values)[state.itemID].scanSequence)]
        && order == old(order) && nextSequence == old(nextSequence)
      ensures state.itemID !in old(values) ==>
        && nextSequence == old(nextSequence) + 1
        && values == old(values)[state.itemID := state.(scanSequence := nextSequence)]
        && order == old(order) + [ScanKey(nextSequence, state.itemID)]
      ensures LogBounded(old(order), |old(values)|) ==> LogBounded(order, |values|)
    {
      hide Sane;
      var placed := state;
      if state.itemID in values {
        placed := state.(scanSequence := values[state.itemID].scanSequence);
        SaneAfterReplace(values, order, nextSequence, tombstones, placed);
      } else {
        placed := state.(scanSequence := nextSequence + 1);
        SaneAfterInsert(values, order, nextSequence, tombstones, placed);
        nextSequence := nextSequence + 1;
        order := order + [ScanKey(nextSequence, state.itemID)];
      }
      values := values[state.itemID := placed];
    }

    /** Overwrites the state of a cached item in place; the log is not involved. */
    method Store(state: ValueState)
      requires Valid()
      requires state.itemID in values && values[state.itemID].scanSequence == state.scanSequence
      modifies this`values
      ensures Valid()
      ensures values == old(values)[state.itemID := state]
      ensures |values| == |old(values)|
    {
      hide Sane;
      SaneAfterReplace(values, order, nextSequence, tombstones, state);
      values := values[state.itemID := state];
    }

    method Delete(itemID: string) returns (existed: bool)
      requires Valid()
      modifies this`values, this`tombstones
      ensures Valid()
      ensures existed <==> itemID in old(values)
      ensures values == old(values) - {itemID}
      ensures |values| == |old(values)| - (if existed then 1 else 0)
      ensures tombstones == old(tombstones) + (if existed then 1 else 0)
    {
      hide Sane;
      if itemID !in values {
        assert values - {itemID} == values;
        return false;
      }
      SaneAfterDelete(values, order, nextSequence, tombstones, itemID);
      values := values - {itemID};
      tombstones := tombstones + 1;
      return true;
    }

    /** Compacts the log once tombstones dominate it. Sequences survive, which keeps
        outstanding cursors meaningful. */
    method CompactOrder()
      requires Valid()
      modifies this`order, this`tombstones
      ensures Valid()
      ensures order == if old(tombstones) < 1024 || old(tombstones) * 2 < |old(order)|
                       then old(order) else LiveKeys(values, old(order))
      ensures LogBounded(order, |values|)
    {
      hide Sane;
      if tombstones < 1024 || tombstones * 2 < |order| {
        StillBounded(values, order, nextSequence, tombstones);
        return;
      }
      SaneAfterCompact(values, order, nextSequence, tombstones);
      CompactBounded(values, order, nextSequence, tombstones);
      order := Compacted(values, order);
      tombstones := 0;
    }

    /** Binary search for the first record behind a cursor. */
    method FirstSequenceAfter(sequence: nat) returns (start: nat)
      requires Valid()
      ensures start <= |order|
      ensures forall i :: 0 <= i < start ==> order[i].sequence <= sequence
      ensures forall i :: start <= i < |order| ==> order[i].sequence > sequence
    {
      start := UpperBound(order, sequence);
    }
  }

  /** `sort.Search` over the increasing sequences of a log. */
  method UpperBound(order: seq<ScanKey>, sequence: nat) returns (start: nat)
    requires Increasing(order)
    ensures start <= |order|
    ensures forall i :: 0 <= i < start ==> order[i].sequence <= sequence
    ensures forall i :: start <= i < |order| ==> order[i].sequence > sequence
  {
    var low, high := 0, |order|;
    while low < high
      invariant 0 <= low <= high <= |order|
      invariant forall i :: 0 <= i < low ==> order[i].sequence <= sequence
      invariant forall i :: high <= i < |order| ==> order[i].sequence > sequence
    {
      var middle := (low + high) / 2;
      if order[middle].sequence > sequence {
        high := middle;
      } else {
        low := middle + 1;
      }
    }
    start := low;
  }
}

/** Who holds the reserved keys, over all runs of the publisher protocol
    (internal/promwrap/publisher.go, reserve, releaseKeys and publishActivity). */
module Reservations {
  import opened LaneQueues
  import opened Options
  import opened PageBatchers
  import opened PageLedgers
  import opened PublisherProtocols
  import opened Publishers
  import opened Times
  import opened ValueStates

  type KeyBag = multiset<PublishKey>

  function Sum(bags: seq<KeyBag>): KeyBag {
    if bags == [] then multiset{} else Sum(bags[..|bags| - 1]) + bags[|bags| - 1]
  }

  lemma SumSnoc(bags: seq<KeyBag>, bag: KeyBag)
    ensures Sum(bags + [bag]) == Sum(bags) + bag
  {
    assert (bags + [bag])[..|bags|] == bags;
  }

  lemma {:induction false} SumAppend(a: seq<KeyBag>, b: seq<KeyBag>)
    ensures Sum(a + b) == Sum(a) + Sum(b)
    decreases |b|
  {
    hide Sum;
    if b == [] {
      assert a + b == a;
      EmptySum();
      AddNothing(Sum(a));
    } else {
      var n := |b| - 1;
      SumAppend(a, b[..n]);
      assert a + b == (a + b[..n]) + [b[n]];
      assert b == b[..n] + [b[n]];
      SumSnoc(a + b[..n], b[n]);
      SumSnoc(b[..n], b[n]);
      Reassociated(Sum(a), Sum(b[..n]), b[n]);
    }
  }

  lemma EmptySum()
    ensures Sum([]) == multiset{}
  {
  }

  lemma AddNothing(a: KeyBag)
    ensures a + multiset{} == a && multiset{} + a == a
  {
  }

  /** What is left of a sum when one part is taken out. */
  lemma SumSplit(bags: seq<KeyBag>, i: nat)
    requires i < |bags|
    ensures Sum(bags) == Sum(bags[..i] + bags[i + 1..]) + bags[i]
  {
    hide Sum;
    assert bags == (bags[..i] + [bags[i]]) + bags[i + 1..];
    SumAppend(bags[..i] + [bags[i]], bags[i + 1..]);
    SumSnoc(bags[..i], bags[i]);
    SumAppend(bags[..i], bags[i + 1..]);
    SwapLast(Sum(bags[..i]), bags[i], Sum(bags[i + 1..]));
  }

  lemma SwapLast(a: KeyBag, b: KeyBag, c: KeyBag)
    ensures (a + b) + c == (a + c) + b
  {
  }

  lemma SumAfter(bags: seq<KeyBag>, i: nat, bag: KeyBag)
    requires i < |bags|
    ensures Sum(bags[i := bag]) == Sum(bags[..i] + bags[i + 1..]) + bag
  {
    hide Sum;
    var next := bags[i := bag];
    SumSplit(next, i);
    assert next[..i] == bags[..i] && next[i + 1..] == bags[i + 1..];
  }

  // ---------- What everybody holds ----------

  function HandBag(hand: Option<Item>): KeyBag {
    if hand.Some? then multiset{hand.value.key} else multiset{}
  }

  function BatchBag(batch: Option<EncodedBatch>): KeyBag {
    if batch.Some? then multiset(batch.value.keys) else multiset{}
  }

  function TurnBag(turn: Turn): KeyBag {
    match turn
    case Idle => multiset{}
    case Active(_, _, _, hand, builders, submitting, _) => Bag(builders) + HandBag(hand) + BatchBag(submitting)
  }

  function FlightBag(popped: Lane, busy: bool): KeyBag {
    if busy && popped != [] then multiset(popped[|popped| - 1].keys) else multiset{}
  }

  function RetireeBag(r: Retiree): KeyBag {
    if r.released then multiset{} else multiset(r.batch.keys)
  }

  function TurnBags(turns: seq<Turn>): (bags: seq<KeyBag>)
    ensures |bags| == |turns|
  {
    seq(|turns|, i requires 0 <= i < |turns| => TurnBag(turns[i]))
  }

  function FlightBags(popped: seq<Lane>, busy: seq<bool>): (bags: seq<KeyBag>)
    requires |popped| == |busy|
    ensures |bags| == |popped|
  {
    seq(|popped|, i requires 0 <= i < |popped| => FlightBag(popped[i], busy[i]))
  }

  function RetireeBags(retiring: seq<Retiree>): (bags: seq<KeyBag>)
    ensures |bags| == |retiring|
  {
    seq(|retiring|, i requires 0 <= i < |retiring| => RetireeBag(retiring[i]))
  }

  function Held(s: State): KeyBag
    requires |s.popped| == |s.busy|
  {
    LanesHold(s.queue.lanes) + Sum(TurnBags(s.turns)) + Sum(FlightBags(s.popped, s.busy)) + Sum(RetireeBags(s.retiring))
  }

  function Submitting(turns: seq<Turn>): nat {
    if turns == [] then
      0
    else
      var last := turns[|turns| - 1];
      Submitting(turns[..|turns| - 1]) + (if last.Active? && last.submitting.Some? then 1 else 0)
  }

  function Busy(busy: seq<bool>): nat {
    if busy == [] then 0 else Busy(busy[..|busy| - 1]) + (if busy[|busy| - 1] then 1 else 0)
  }

  /** Batches that were submitted and are not done. */
  function Outstanding(s: State): nat {
    Total(s.queue.lanes) + Submitting(s.turns) + Busy(s.busy) + |s.retiring|
  }

  /** The reservation set is the disjoint union of everything held; the activity counter
      counts the outstanding batches, and the idle channel is closed when there is none. */
  ghost predicate Exact(c: Config, s: State) {
    && Shaped(c, s)
    && (forall k :: 0 <= k < c.workers && s.busy[k] ==> s.popped[k] != [])
    && multiset(s.reservations) == Held(s)
    && s.pending == Outstanding(s)
    && (s.idle <==> s.pending == 0)
  }

  // ---------- Changing one part ----------

  lemma {:induction false} SubmittingAfter(turns: seq<Turn>, i: nat, turn: Turn)
    requires i < |turns|
    ensures Submitting(turns[i := turn]) + (if turns[i].Active? && turns[i].submitting.Some? then 1 else 0)
      == Submitting(turns) + (if turn.Active? && turn.submitting.Some? then 1 else 0)
  {
    var n := |turns| - 1;
    if i < n {
      SubmittingAfter(turns[..n], i, turn);
      assert turns[i := turn][..n] == turns[..n][i := turn];
    } else {
      assert turns[i := turn][..n] == turns[..n];
    }
  }

  lemma {:induction false} BusyAfter(busy: seq<bool>, i: nat, b: bool)
    requires i < |busy|
    ensures Busy(busy[i := b]) + (if busy[i] then 1 else 0) == Busy(busy) + (if b then 1 else 0)
  {
    var n := |busy| - 1;
    if i < n {
      BusyAfter(busy[..n], i, b);
      assert busy[i := b][..n] == busy[..n][i := b];
    } else {
      assert busy[i := b][..n] == busy[..n];
    }
  }

  /** The bags of all turns but one. */
  function OtherTurns(turns: seq<Turn>, slot: nat): KeyBag
    requires slot < |turns|
  {
    Sum(TurnBags(turns)[..slot] + TurnBags(turns)[slot + 1..])
  }

  lemma TurnsHold(turns: seq<Turn>, slot: nat, turn: Turn)
    requires slot < |turns|
    ensures Sum(TurnBags(turns)) == OtherTurns(turns, slot) + TurnBag(turns[slot])
    ensures Sum(TurnBags(turns[slot := turn])) == OtherTurns(turns, slot) + TurnBag(turn)
  {
    hide Sum, TurnBag;
    SumSplit(TurnBags(turns), slot);
    SumAfter(TurnBags(turns), slot, TurnBag(turn));
    assert TurnBags(turns[slot := turn]) == TurnBags(turns)[slot := TurnBag(turn)];
  }

  function OtherFlights(popped: seq<Lane>, busy: seq<bool>, k: nat): KeyBag
    requires |popped| == |busy| && k < |popped|
  {
    Sum(FlightBags(popped, busy)[..k] + FlightBags(popped, busy)[k + 1..])
  }

  lemma FlightsHold(popped: seq<Lane>, busy: seq<bool>, k: nat, lane: Lane, b: bool)
    requires |popped| == |busy| && k < |popped|
    ensures Sum(FlightBags(popped, busy)) == OtherFlights(popped, busy, k) + FlightBag(popped[k], busy[k])
    ensures Sum(FlightBags(popped[k := lane], busy[k := b])) == OtherFlights(popped, busy, k) + FlightBag(lane, b)
  {
    hide Sum, FlightBag;
    SumSplit(FlightBags(popped, busy), k);
    SumAfter(FlightBags(popped, busy), k, FlightBag(lane, b));
    assert FlightBags(popped[k := lane], busy[k := b]) == FlightBags(popped, busy)[k := FlightBag(lane, b)];
  }

  lemma RetireMore(retiring: seq<Retiree>, batch: EncodedBatch)
    ensures Sum(RetireeBags(retiring + [Retiree(batch, false)])) == Sum(RetireeBags(retiring)) + multiset(batch.keys)
  {
    hide Sum;
    SumSnoc(RetireeBags(retiring), multiset(batch.keys));
    assert RetireeBags(retiring + [Retiree(batch, false)]) == RetireeBags(retiring) + [multiset(batch.keys)];
  }

  lemma {:induction false} RetireAll(retiring: seq<Retiree>, batches: Lane)
    ensures Sum(RetireeBags(retiring + Retired(batches))) == Sum(RetireeBags(retiring)) + KeysHeld(batches)
    decreases |batches|
  {
    hide Sum, RetireeBag, KeysHeld;
    if batches == [] {
      assert retiring + Retired(batches) == retiring;
      HoldsNothing();
      AddNothing(Sum(RetireeBags(retiring)));
    } else {
      var n := |batches| - 1;
      RetireAll(retiring, batches[..n]);
      assert batches == batches[..n] + [batches[n]];
      KeysHeldSnoc(batches[..n], batches[n]);
      RetireMore(retiring + Retired(batches[..n]), batches[n]);
      assert retiring + Retired(batches) == (retiring + Retired(batches[..n])) + [Retiree(batches[n], false)];
      Reassociated(Sum(RetireeBags(retiring)), KeysHeld(batches[..n]), multiset(batches[n].keys));
    }
  }

  lemma RetireesHold(retiring: seq<Retiree>, i: nat, r: Retiree)
    requires i < |retiring|
    ensures Sum(RetireeBags(retiring)) == Sum(RetireeBags(retiring[..i] + retiring[i + 1..])) + RetireeBag(retiring[i])
    ensures Sum(RetireeBags(retiring[i := r])) == Sum(RetireeBags(retiring[..i] + retiring[i + 1..])) + RetireeBag(r)
  {
    hide Sum, RetireeBag;
    var bags, rest := RetireeBags(retiring), RetireeBags(retiring[..i] + retiring[i + 1..]);
    SumSplit(bags, i);
    SumAfter(bags, i, RetireeBag(r));
    assert rest == bags[..i] + bags[i + 1..];
    assert RetireeBags(retiring[i := r]) == bags[i := RetireeBag(r)];
  }

  /** Giving keys back removes exactly them. */
  lemma {:induction false} GivenBack(reservations: set<PublishKey>, rest: KeyBag, keys: seq<PublishKey>)
    requires multiset(reservations) == rest + multiset(keys)
    ensures multiset(reservations - (set key | key in keys)) == rest
    decreases |keys|
  {
    if keys == [] {
      assert reservations - (set key | key in keys) == reservations;
    } else {
      ReleasedOne(reservations, rest, keys, 0);
      assert keys[0..] == keys;
      GivenBack(reservations - {keys[0]}, rest, keys[1..]);
      assert keys == [keys[0]] + keys[1..];
      assert reservations - (set key | key in keys) == reservations - {keys[0]} - (set key | key in keys[1..]);
    }
  }

  // ---------- One turn ----------

  /** Everything held outside one slot's turn. */
  function Elsewhere(s: State, slot: nat): KeyBag
    requires |s.popped| == |s.busy| && slot < |s.turns|
  {
    LanesHold(s.queue.lanes) + OtherTurns(s.turns, slot) + Sum(FlightBags(s.popped, s.busy)) +
    Sum(RetireeBags(s.retiring))
  }

  lemma Gathered(lanes: KeyBag, turns: KeyBag, turn: KeyBag, flights: KeyBag, retirees: KeyBag)
    ensures lanes + (turns + turn) + flights + retirees == lanes + turns + flights + retirees + turn
  {
  }

  lemma HeldWithTurn(s: State, slot: nat, turn: Turn)
    requires |s.popped| == |s.busy| && slot < |s.turns|
    ensures Held(s) == Elsewhere(s, slot) + TurnBag(s.turns[slot])
    ensures Held(WithTurn(s, slot, turn)) == Elsewhere(s, slot) + TurnBag(turn)
  {
    TurnsHold(s.turns, slot, turn);
    hide Sum, LanesHold, TurnBag, OtherTurns;
    Gathered(LanesHold(s.queue.lanes), OtherTurns(s.turns, slot), TurnBag(s.turns[slot]),
             Sum(FlightBags(s.popped, s.busy)), Sum(RetireeBags(s.retiring)));
    Gathered(LanesHold(s.queue.lanes), OtherTurns(s.turns, slot), TurnBag(turn),
             Sum(FlightBags(s.popped, s.busy)), Sum(RetireeBags(s.retiring)));
  }

  lemma {:induction false} EmptyBuilders(builders: seq<seq<PublishKey>>)
    requires forall i :: 0 <= i < |builders| ==> builders[i] == []
    ensures Bag(builders) == multiset{}
  {
    if builders != [] {
      EmptyBuilders(builders[..|builders| - 1]);
    }
  }

  lemma PlacedBag(builders: seq<seq<PublishKey>>, index: nat, key: PublishKey, rest: KeyBag)
    requires index < |builders|
    ensures Bag(builders[index := builders[index] + [key]]) + multiset{} + rest == Bag(builders) + multiset{key} + rest
  {
    BagAfter(builders, index, builders[index] + [key]);
    hide Bag;
    ReplacedByMore(Bag(builders), builders[index], key);
    AddNothing(Bag(builders) + multiset{key});
  }

  lemma EmptiedBag(builders: seq<seq<PublishKey>>, index: nat)
    requires index < |builders|
    ensures Bag(builders) == Bag(builders[index := []]) + multiset(builders[index])
  {
    BagAfter(builders, index, []);
    hide Bag;
    Removed(Bag(builders), multiset(builders[index]));
  }

  lemma Removed(bag: KeyBag, part: KeyBag)
    requires part <= bag
    ensures bag == bag - part + multiset([]) + part
  {
  }

  lemma Moved(bag: KeyBag, keys: KeyBag, hand: KeyBag)
    ensures (bag + keys) + hand + multiset{} == bag + hand + keys
  {
  }

  /** Replacing one turn, where the counter already says what is outstanding then: the
      state stays exact if the reservations follow what the turn holds. */
  lemma ExactWithTurn(c: Config, s: State, s': State, slot: nat, turn: Turn)
    requires Exact(c, s) && Shaped(c, s') && slot < c.slots
    requires s' == WithTurn(s, slot, turn).(reservations := s'.reservations, pending := s'.pending, idle := s'.idle)
    requires multiset(s'.reservations) == Elsewhere(s, slot) + TurnBag(turn)
    requires s'.pending == s.pending + (if turn.Active? && turn.submitting.Some? then 1 else 0)
                           - (if s.turns[slot].Active? && s.turns[slot].submitting.Some? then 1 else 0)
    requires s'.idle <==> s'.pending == 0
    ensures Exact(c, s')
  {
    hide Held, TurnBag, Elsewhere, Submitting, Total, Busy;
    HeldWithTurn(s, slot, turn);
    SubmittingAfter(s.turns, slot, turn);
    HeldAlike(s', WithTurn(s, slot, turn));
  }

  lemma HeldAlike(s: State, t: State)
    requires |s.popped| == |s.busy|
    requires s.queue == t.queue && s.turns == t.turns && s.popped == t.popped && s.busy == t.busy
    requires s.retiring == t.retiring
    ensures Held(s) == Held(t)
  {
  }

  lemma TurnHolds(c: Config, s: State, slot: nat)
    requires Exact(c, s) && slot < c.slots
    ensures multiset(s.reservations) == Elsewhere(s, slot) + TurnBag(s.turns[slot])
  {
    HeldWithTurn(s, slot, s.turns[slot]);
  }

  /** Skipping, failing, reading a page, placing a sample, and ending: what the turn holds
      stays the same. */
  lemma ExactAfterQuiet(c: Config, s: State, a: Action, s': State)
    requires Exact(c, s) && Shaped(c, s') && TurnStep(c, s, a, s')
    requires a.Skip? || a.Fail? || a.NewPage? || a.ReadItem? || a.End? || a.Place?
    ensures Exact(c, s')
  {
    var slot := a.slot;
    TurnHolds(c, s, slot);
    QuietTurn(c, s, a, s');
    hide TurnStep, Elsewhere, TurnBag;
    ExactWithTurn(c, s, s', slot, s'.turns[slot]);
  }

  lemma QuietTurn(c: Config, s: State, a: Action, s': State)
    requires Shaped(c, s) && TurnStep(c, s, a, s')
    requires a.Skip? || a.Fail? || a.NewPage? || a.ReadItem? || a.End? || a.Place?
    ensures a.slot < c.slots && s' == WithTurn(s, a.slot, s'.turns[a.slot])
    ensures TurnBag(s'.turns[a.slot]) == TurnBag(s.turns[a.slot])
    ensures (s.turns[a.slot].Active? && s.turns[a.slot].submitting.Some?)
      <==> (s'.turns[a.slot].Active? && s'.turns[a.slot].submitting.Some?)
  {
    var turn := s.turns[a.slot];
    hide TurnBag, ItemOf, Admit, Enqueued, Begun, Coalesced, NormalizedCycle, ToMillisecond, MayBegin, Retired;
    if a.Place? {
      PlacedTurn(turn, turn.hand.value);
    } else if a.End? {
      EndedTurn(turn);
    } else {
      SameHoldings(turn, s'.turns[a.slot]);
    }
  }

  lemma SameHoldings(turn: Turn, next: Turn)
    requires turn.Active? && next.Active?
    requires next.hand == turn.hand && next.builders == turn.builders && next.submitting == turn.submitting
    ensures TurnBag(next) == TurnBag(turn)
  {
    hide Bag;
  }

  lemma PlacedTurn(turn: Turn, item: Item)
    requires turn.Active? && turn.hand == Some(item) && item.index < |turn.builders|
    ensures TurnBag(turn.(hand := None,
                          builders := turn.builders[item.index := turn.builders[item.index] + [item.key]]))
      == TurnBag(turn)
  {
    PlacedBag(turn.builders, item.index, item.key, BatchBag(turn.submitting));
    hide Bag;
  }

  lemma EndedTurn(turn: Turn)
    requires turn.Active? && turn.hand.None? && turn.submitting.None?
    requires forall i :: 0 <= i < |turn.builders| ==> turn.builders[i] == []
    ensures TurnBag(turn) == TurnBag(Idle)
  {
    EmptyBuilders(turn.builders);
    hide Bag;
  }

  lemma ExactAfterReserve(c: Config, s: State, a: Action, s': State)
    requires Shaped(c, s) && Exact(c, s) && Shaped(c, s') && TurnStep(c, s, a, s') && a.Reserve?
    ensures Exact(c, s')
  {
    hide Exact, Admit, Enqueued, Begun, Coalesced, ItemOf;
    var turn, item := s.turns[a.slot], s.turns[a.slot].todo[0];
    if item.key in s.reservations {
      ExactAfterDropped(c, s, s', a.slot);
    } else {
      ExactAfterReserved(c, s, s', a.slot, item);
    }
  }

  lemma ExactAfterDropped(c: Config, s: State, s': State, slot: nat)
    requires Exact(c, s) && Shaped(c, s') && slot < c.slots && s.turns[slot].Active? && s.turns[slot].todo != []
    requires s' == WithTurn(s, slot, s.turns[slot].(todo := s.turns[slot].todo[1..]))
    ensures Exact(c, s')
  {
    TurnHolds(c, s, slot);
    OutstandingNotNegative(c, s);
    SameHoldings(s.turns[slot], s'.turns[slot]);
    hide TurnBag, Elsewhere, Exact;
    ExactWithTurn(c, s, s', slot, s'.turns[slot]);
  }

  lemma ExactAfterReserved(c: Config, s: State, s': State, slot: nat, item: Item)
    requires Exact(c, s) && Shaped(c, s') && slot < c.slots
    requires s.turns[slot].Active? && s.turns[slot].hand.None? && s.turns[slot].todo != []
    requires item.key !in s.reservations
    requires s' == WithTurn(s, slot, s.turns[slot].(todo := s.turns[slot].todo[1..], hand := Some(item)))
                     .(reservations := s.reservations + {item.key})
    ensures Exact(c, s')
  {
    var turn, next := s.turns[slot], s'.turns[slot];
    TurnHolds(c, s, slot);
    OutstandingNotNegative(c, s);
    HandIn(Bag(turn.builders), BatchBag(turn.submitting), item.key);
    assert TurnBag(next) == TurnBag(turn) + multiset{item.key};
    hide TurnBag, Elsewhere, Exact;
    ReservedOne(s.reservations, item.key);
    Reassociated(Elsewhere(s, slot), TurnBag(turn), multiset{item.key});
    ExactWithTurn(c, s, s', slot, next);
  }

  lemma HandIn(bag: KeyBag, submitting: KeyBag, key: PublishKey)
    ensures bag + multiset{key} + submitting == bag + multiset{} + submitting + multiset{key}
  {
  }

  lemma OneGivenBack(reservations: set<PublishKey>, rest: KeyBag, key: PublishKey)
    requires multiset(reservations) == rest + multiset{key}
    ensures multiset(reservations - {key}) == rest
  {
    GivenBack(reservations, rest, [key]);
    assert (set k | k in [key]) == {key};
  }

  lemma ExactAfterGivenBackHand(c: Config, s: State, s': State, slot: nat, item: Item)
    requires Exact(c, s) && Shaped(c, s') && slot < c.slots
    requires s.turns[slot].Active? && s.turns[slot].hand == Some(item)
    requires s' == WithTurn(s, slot, s.turns[slot].(hand := None)).(reservations := s.reservations - {item.key})
    ensures Exact(c, s')
  {
    var turn := s.turns[slot];
    var next := turn.(hand := None);
    TurnHolds(c, s, slot);
    OutstandingNotNegative(c, s);
    HandIn(Bag(turn.builders), BatchBag(turn.submitting), item.key);
    assert TurnBag(turn) == TurnBag(next) + multiset{item.key};
    hide TurnBag, Elsewhere, Exact;
    Reassociated(Elsewhere(s, slot), TurnBag(next), multiset{item.key});
    OneGivenBack(s.reservations, Elsewhere(s, slot) + TurnBag(next), item.key);
    ExactWithTurn(c, s, s', slot, next);
  }

  lemma ExactAfterGivenBackBuilder(c: Config, s: State, s': State, slot: nat, index: nat)
    requires Exact(c, s) && Shaped(c, s') && slot < c.slots
    requires s.turns[slot].Active? && index < |s.turns[slot].builders|
    requires s' == WithTurn(s, slot, s.turns[slot].(builders := s.turns[slot].builders[index := []]))
                     .(reservations := s.reservations - (set key | key in s.turns[slot].builders[index]))
    ensures Exact(c, s')
  {
    var turn := s.turns[slot];
    var next, keys := turn.(builders := turn.builders[index := []]), turn.builders[index];
    TurnHolds(c, s, slot);
    OutstandingNotNegative(c, s);
    EmptiedBag(turn.builders, index);
    BuilderOut(Bag(next.builders), multiset(keys), HandBag(turn.hand), BatchBag(turn.submitting));
    assert TurnBag(turn) == TurnBag(next) + multiset(keys);
    hide TurnBag, Elsewhere, Exact;
    Reassociated(Elsewhere(s, slot), TurnBag(next), multiset(keys));
    GivenBack(s.reservations, Elsewhere(s, slot) + TurnBag(next), keys);
    ExactWithTurn(c, s, s', slot, next);
  }

  lemma BuilderOut(bag: KeyBag, keys: KeyBag, hand: KeyBag, submitting: KeyBag)
    ensures (bag + keys) + hand + submitting == (bag + hand + submitting) + keys
  {
  }

  lemma ExactAfterSubmit(c: Config, s: State, s': State, slot: nat, index: nat, batch: EncodedBatch)
    requires Shaped(c, s) && Exact(c, s) && Shaped(c, s') && slot < c.slots
    requires s.turns[slot].Active? && s.turns[slot].submitting.None? && index < 2 * c.workers
    requires batch.keys == s.turns[slot].builders[index]
    requires s' == WithTurn(s, slot,
                            s.turns[slot].(builders := s.turns[slot].builders[index := []], submitting := Some(batch)))
                     .(pending := s.pending + 1, idle := if s.pending == 0 then false else s.idle)
    ensures Exact(c, s')
  {
    var turn := s.turns[slot];
    var next := turn.(builders := turn.builders[index := []], submitting := Some(batch));
    TurnHolds(c, s, slot);
    OutstandingNotNegative(c, s);
    EmptiedBag(turn.builders, index);
    Moved(Bag(next.builders), multiset(batch.keys), HandBag(turn.hand));
    assert TurnBag(next) == TurnBag(turn);
    hide TurnBag, Elsewhere, Exact;
    ExactWithTurn(c, s, s', slot, next);
  }

  lemma OutstandingNotNegative(c: Config, s: State)
    requires Exact(c, s)
    ensures s.pending >= 0 && (s.idle <==> s.pending == 0)
  {
  }

  // ---------- Batches changing hands ----------

  /** The parts of the whole, named: lanes, turns, flights and retirees. */
  predicate Parts(s: State, lanes: KeyBag, turns: KeyBag, flights: KeyBag, retirees: KeyBag)
    requires |s.popped| == |s.busy|
  {
    && lanes == LanesHold(s.queue.lanes) && turns == Sum(TurnBags(s.turns))
    && flights == Sum(FlightBags(s.popped, s.busy)) && retirees == Sum(RetireeBags(s.retiring))
  }

  /** A state is exact again if its parts hold together what they held before. */
  lemma ExactAgain(c: Config, s: State, s': State, lanes: KeyBag, turns: KeyBag, flights: KeyBag, retirees: KeyBag,
                   lanes': KeyBag, turns': KeyBag, flights': KeyBag, retirees': KeyBag)
    requires Exact(c, s) && Shaped(c, s') && s'.reservations == s.reservations
    requires Parts(s, lanes, turns, flights, retirees) && Parts(s', lanes', turns', flights', retirees')
    requires lanes + turns + flights + retirees == lanes' + turns' + flights' + retirees'
    requires Outstanding(s') == Outstanding(s) && s'.pending == s.pending && s'.idle == s.idle
    requires forall k :: 0 <= k < c.workers && s'.busy[k] ==> s'.popped[k] != []
    ensures Exact(c, s')
  {
    hide Outstanding, Sum, LanesHold;
  }

  lemma ExactAfterAccepted(c: Config, s: State, s': State, slot: nat, batch: EncodedBatch)
    requires Exact(c, s) && Shaped(c, s') && slot < c.slots
    requires s.turns[slot].Active? && s.turns[slot].submitting == Some(batch) && batch.lane < c.workers
    requires s' == WithTurn(s, slot, s.turns[slot].(submitting := None)).(queue := Enqueued(s.queue, batch))
    ensures Exact(c, s')
  {
    var turn := s.turns[slot];
    var next := turn.(submitting := None);
    TurnsHold(s.turns, slot, next);
    SubmittingAfter(s.turns, slot, next);
    OfferedTurn(turn, next);
    HeldAfterEnqueue(s.queue.lanes, batch);
    hide Sum, LanesHold, TurnBag, OtherTurns, Total, Submitting, Exact;
    var lanes, flights := LanesHold(s.queue.lanes), Sum(FlightBags(s.popped, s.busy));
    var retirees := Sum(RetireeBags(s.retiring));
    var others, keys := OtherTurns(s.turns, slot), multiset(batch.keys);
    ToLanes(lanes, others, TurnBag(next), keys, flights, retirees);
    BusyHavePopped(c, s);
    ExactAgain(c, s, s', lanes, others + (TurnBag(next) + keys), flights, retirees,
               lanes + keys, others + TurnBag(next), flights, retirees);
  }

  lemma BusyHavePopped(c: Config, s: State)
    requires Exact(c, s)
    ensures Shaped(c, s) && forall k :: 0 <= k < c.workers && s.busy[k] ==> s.popped[k] != []
  {
  }

  lemma ExactAfterRefused(c: Config, s: State, s': State, slot: nat, batch: EncodedBatch)
    requires Exact(c, s) && Shaped(c, s') && slot < c.slots
    requires s.turns[slot].Active? && s.turns[slot].submitting == Some(batch)
    requires s' == WithTurn(s, slot, s.turns[slot].(submitting := None, failed := true))
                     .(retiring := s.retiring + [Retiree(batch, false)])
    ensures Exact(c, s')
  {
    var turn := s.turns[slot];
    var next := turn.(submitting := None, failed := true);
    TurnsHold(s.turns, slot, next);
    SubmittingAfter(s.turns, slot, next);
    OfferedTurn(turn, next);
    RetireMore(s.retiring, batch);
    hide Sum, LanesHold, TurnBag, OtherTurns, Total, Submitting, Exact;
    var lanes, flights := LanesHold(s.queue.lanes), Sum(FlightBags(s.popped, s.busy));
    var retirees := Sum(RetireeBags(s.retiring));
    var others, keys := OtherTurns(s.turns, slot), multiset(batch.keys);
    ToRetirees(lanes, others, TurnBag(next), keys, flights, retirees);
    BusyHavePopped(c, s);
    ExactAgain(c, s, s', lanes, others + (TurnBag(next) + keys), flights, retirees,
               lanes, others + TurnBag(next), flights, retirees + keys);
  }

  lemma OfferedTurn(turn: Turn, next: Turn)
    requires turn.Active? && turn.submitting.Some? && next.Active?
    requires next.hand == turn.hand && next.builders == turn.builders && next.submitting.None?
    ensures TurnBag(turn) == TurnBag(next) + multiset(turn.submitting.value.keys)
  {
    hide Bag;
    AddNothing(Bag(turn.builders) + HandBag(turn.hand));
  }

  lemma ToLanes(lanes: KeyBag, others: KeyBag, turn: KeyBag, keys: KeyBag, flights: KeyBag, retirees: KeyBag)
    ensures lanes + (others + (turn + keys)) + flights + retirees ==
      (lanes + keys) + (others + turn) + flights + retirees
  {
  }

  lemma ToRetirees(lanes: KeyBag, others: KeyBag, turn: KeyBag, keys: KeyBag, flights: KeyBag, retirees: KeyBag)
    ensures lanes + (others + (turn + keys)) + flights + retirees ==
      lanes + (others + turn) + flights + (retirees + keys)
  {
  }

  lemma ExactAfterBegin(c: Config, s: State, a: Action, s': State)
    requires Shaped(c, s) && Exact(c, s) && Shaped(c, s') && TurnStep(c, s, a, s') && a.Begin?
    ensures Exact(c, s')
  {
    hide NormalizedCycle, UnixMillis, ToMillisecond, Exact, Begun, Coalesced, MayBegin, Retired;
    ExactAfterCycle(c, s, s', a.slot, UnixMillis(s'.clocks[a.slot].lastCycle));
  }

  lemma ExactAfterCycle(c: Config, s: State, s': State, slot: nat, cycleMS: int)
    requires Exact(c, s) && Shaped(c, s) && Shaped(c, s') && slot < c.slots && s.turns[slot].Idle?
    requires s' == s.(clocks := s'.clocks, queue := Begun(s.queue, slot, cycleMS),
                      retiring := s.retiring + Retired(Coalesced(s.queue, slot, cycleMS)),
                      turns := s.turns[slot := s'.turns[slot]])
    requires var turn := s'.turns[slot];
             turn.Idle? || (turn.hand.None? && turn.submitting.None? && turn.builders == seq(2 * c.workers, _ => []))
    ensures Exact(c, s')
  {
    hide Sum, LanesHold, KeysHeld, TurnBag, OtherTurns, Total, Submitting, Begun, Coalesced, Exact, Busy, RetireeBags,
      TurnBags, FlightBags;
    var removed := Coalesced(s.queue, slot, cycleMS);
    CoalescedHold(s.queue, slot, cycleMS);
    RetireAll(s.retiring, removed);
    TurnsHold(s.turns, slot, s'.turns[slot]);
    SubmittingAfter(s.turns, slot, s'.turns[slot]);
    EmptyTurn(c, s'.turns[slot]);
    EmptyTurn(c, s.turns[slot]);
    BusyHavePopped(c, s);
    var turns, flights := Sum(TurnBags(s.turns)), Sum(FlightBags(s.popped, s.busy));
    var lanes, retirees := LanesHold(s'.queue.lanes), Sum(RetireeBags(s.retiring));
    LanesToRetirees(lanes, KeysHeld(removed), turns, flights, retirees);
    ExactAgain(c, s, s', lanes + KeysHeld(removed), turns, flights, retirees,
               lanes, turns, flights, retirees + KeysHeld(removed));
  }

  lemma CoalescedHold(q: Queue, slot: nat, cycleMS: int)
    ensures LanesHold(q.lanes) == LanesHold(Begun(q, slot, cycleMS).lanes) + KeysHeld(Coalesced(q, slot, cycleMS))
    ensures Total(q.lanes) == Total(Begun(q, slot, cycleMS).lanes) + |Coalesced(q, slot, cycleMS)|
  {
    HeldAfterCoalesce(q.lanes, slot, cycleMS);
    TotalKept(q.lanes, slot, cycleMS);
    HoldsNothing();
    hide LanesHold, KeysHeld, Total, KeptAll, DroppedAll;
  }

  lemma EmptyTurn(c: Config, turn: Turn)
    requires turn.Idle? || (turn.hand.None? && turn.submitting.None? && turn.builders == seq(2 * c.workers, _ => []))
    ensures TurnBag(turn) == multiset{}
  {
    if turn.Active? {
      EmptyBuilders(turn.builders);
    }
  }

  lemma LanesToRetirees(lanes: KeyBag, removed: KeyBag, turns: KeyBag, flights: KeyBag, retirees: KeyBag)
    ensures (lanes + removed) + turns + flights + retirees == lanes + turns + flights + (retirees + removed)
  {
  }

  lemma ExactAfterPop(c: Config, s: State, s': State, k: nat)
    requires Exact(c, s) && Shaped(c, s') && k < c.workers && !s.busy[k] && s.queue.lanes[k] != []
    requires s' == s.(queue := Popped(s.queue, k), busy := s.busy[k := true],
                      popped := s.popped[k := s.popped[k] + [s.queue.lanes[k][0]]])
    ensures Exact(c, s')
  {
    var batch := s.queue.lanes[k][0];
    BusyHavePopped(c, s);
    HeldAfterPop(s.queue.lanes, k);
    FlightsHold(s.popped, s.busy, k, s.popped[k] + [batch], true);
    BusyAfter(s.busy, k, true);
    NoFlight(s.popped[k]);
    Flights(s.popped[k] + [batch]);
    hide Sum, LanesHold, OtherFlights, FlightBag, Total, Busy, Submitting, Exact, TurnBags, FlightBags, RetireeBags;
    var lanes, turns, retirees := LanesHold(s'.queue.lanes), Sum(TurnBags(s.turns)), Sum(RetireeBags(s.retiring));
    var others, keys := OtherFlights(s.popped, s.busy, k), multiset(batch.keys);
    LanesToFlights(lanes, keys, turns, others, retirees);
    ExactAgain(c, s, s', lanes + keys, turns, others + multiset{}, retirees, lanes, turns, others + keys, retirees);
  }

  lemma NoFlight(popped: Lane)
    ensures FlightBag(popped, false) == multiset{}
  {
  }

  lemma LanesToFlights(lanes: KeyBag, keys: KeyBag, turns: KeyBag, others: KeyBag, retirees: KeyBag)
    ensures (lanes + keys) + turns + (others + multiset{}) + retirees == lanes + turns + (others + keys) + retirees
  {
  }

  lemma ExactAfterLand(c: Config, s: State, s': State, k: nat)
    requires Exact(c, s) && Shaped(c, s') && k < c.workers && s.busy[k] && s.popped[k] != []
    requires s' == s.(busy := s.busy[k := false],
                      retiring := s.retiring + [Retiree(s.popped[k][|s.popped[k]| - 1], false)])
    ensures Exact(c, s')
  {
    hide Sum, LanesHold, OtherFlights, FlightBag, Total, Busy, Submitting, Exact, TurnBags, FlightBags, RetireeBags,
      Held, Outstanding;
    BusyHavePopped(c, s);
    var lanes, turns, retirees := LanesHold(s.queue.lanes), Sum(TurnBags(s.turns)), Sum(RetireeBags(s.retiring));
    var others, keys := OtherFlights(s.popped, s.busy, k), multiset(s.popped[k][|s.popped[k]| - 1].keys);
    LandedParts(s, s', k, others, keys);
    LandedCount(s, s', k);
    FlightsToRetirees(lanes, keys, turns, others, retirees);
    ExactAgain(c, s, s', lanes, turns, others + keys, retirees, lanes, turns, others + multiset{}, retirees + keys);
  }

  lemma LandedParts(s: State, s': State, k: nat, others: KeyBag, keys: KeyBag)
    requires |s.popped| == |s.busy| && k < |s.busy| && s.busy[k] && s.popped[k] != []
    requires s' == s.(busy := s.busy[k := false],
                      retiring := s.retiring + [Retiree(s.popped[k][|s.popped[k]| - 1], false)])
    requires others == OtherFlights(s.popped, s.busy, k) && keys == multiset(s.popped[k][|s.popped[k]| - 1].keys)
    ensures Sum(FlightBags(s.popped, s.busy)) == others + keys
    ensures Sum(FlightBags(s'.popped, s'.busy)) == others + multiset{}
    ensures Sum(RetireeBags(s'.retiring)) == Sum(RetireeBags(s.retiring)) + keys
  {
    hide Sum, OtherFlights, FlightBag, FlightBags, RetireeBags;
    FlightsHold(s.popped, s.busy, k, s.popped[k], false);
    RetireMore(s.retiring, s.popped[k][|s.popped[k]| - 1]);
    assert s.popped[k := s.popped[k]] == s.popped;
    Flights(s.popped[k]);
  }

  lemma LandedCount(s: State, s': State, k: nat)
    requires |s.popped| == |s.busy| && k < |s.busy| && s.busy[k] && s.popped[k] != []
    requires s' == s.(busy := s.busy[k := false],
                      retiring := s.retiring + [Retiree(s.popped[k][|s.popped[k]| - 1], false)])
    ensures Outstanding(s') == Outstanding(s)
  {
    hide Total, Busy, Submitting;
    BusyAfter(s.busy, k, false);
  }

  lemma Flights(popped: Lane)
    requires popped != []
    ensures FlightBag(popped, true) == multiset(popped[|popped| - 1].keys) && FlightBag(popped, false) == multiset{}
  {
  }

  lemma FlightsToRetirees(lanes: KeyBag, keys: KeyBag, turns: KeyBag, others: KeyBag, retirees: KeyBag)
    ensures lanes + turns + (others + keys) + retirees == lanes + turns + (others + multiset{}) + (retirees + keys)
  {
  }

  lemma ExactAfterRelease(c: Config, s: State, s': State, i: nat)
    requires Exact(c, s) && Shaped(c, s') && i < |s.retiring| && !s.retiring[i].released
    requires s' == s.(retiring := s.retiring[i := s.retiring[i].(released := true)],
                      reservations := s.reservations - (set key | key in s.retiring[i].batch.keys))
    ensures Exact(c, s')
  {
    var keys := s.retiring[i].batch.keys;
    RetireesHold(s.retiring, i, s.retiring[i].(released := true));
    hide Sum, LanesHold, Total, Busy, Submitting;
    var rest := Sum(RetireeBags(s.retiring[..i] + s.retiring[i + 1..]));
    var others := LanesHold(s.queue.lanes) + Sum(TurnBags(s.turns)) + Sum(FlightBags(s.popped, s.busy));
    AddNothing(rest);
    Reassociated(others, rest, multiset(keys));
    assert multiset(s.reservations) == others + rest + multiset(keys);
    GivenBack(s.reservations, others + rest, keys);
    assert Held(s') == others + rest;
  }

  lemma ExactAfterDone(c: Config, s: State, s': State, i: nat)
    requires Exact(c, s) && Shaped(c, s') && i < |s.retiring| && s.retiring[i].released
    requires s' == s.(retiring := s.retiring[..i] + s.retiring[i + 1..], pending := s.pending - 1,
                      idle := if s.pending - 1 == 0 then true else s.idle)
    ensures Exact(c, s') && s'.pending >= 0
  {
    RetireesHold(s.retiring, i, s.retiring[i]);
    hide Sum, LanesHold, Total, Busy, Submitting;
    AddNothing(Sum(RetireeBags(s'.retiring)));
    assert Held(s') == Held(s);
  }

  lemma ExactAfterStop(c: Config, s: State, s': State)
    requires Exact(c, s) && Shaped(c, s')
    requires s' == s.(queue := Closed(s.queue), retiring := s.retiring + Retired(Concatenated(s.queue.lanes)))
    ensures Exact(c, s')
  {
    HeldAfterClose(s.queue.lanes);
    HoldNothing(NoBatches(|s.queue.lanes|));
    RetireAll(s.retiring, Concatenated(s.queue.lanes));
    BusyHavePopped(c, s);
    hide Sum, LanesHold, KeysHeld, Total, Busy, Submitting, Exact, Concatenated, NoBatches;
    var removed, turns := KeysHeld(Concatenated(s.queue.lanes)), Sum(TurnBags(s.turns));
    var flights, retirees := Sum(FlightBags(s.popped, s.busy)), Sum(RetireeBags(s.retiring));
    AddNothing(removed);
    LanesToRetirees(multiset{}, removed, turns, flights, retirees);
    ExactAgain(c, s, s', removed, turns, flights, retirees, multiset{}, turns, flights, retirees + removed);
  }

  lemma ExactAfterOther(c: Config, s: State, a: Action, s': State)
    requires Exact(c, s) && Shaped(c, s') && OtherStep(c, s, a, s')
    ensures Exact(c, s')
  {
    hide Held, Outstanding, Closed, Concatenated, Retired, Popped;
    if a.Pop? {
      ExactAfterPop(c, s, s', a.lane);
    } else if a.Land? {
      ExactAfterLand(c, s, s', a.lane);
    } else if a.Release? {
      ExactAfterRelease(c, s, s', a.i);
    } else if a.Done? {
      ExactAfterDone(c, s, s', a.i);
    } else if a.Stop? {
      ExactAfterStop(c, s, s');
    } else {
      ExactAfterNothing(c, s, a, s');
    }
  }

  lemma ExactAfterBack(c: Config, s: State, a: Action, s': State)
    requires Shaped(c, s) && Exact(c, s) && Shaped(c, s') && TurnStep(c, s, a, s')
    requires a.DropOversized? || a.GiveBackHand? || a.GiveBackBuilder? || a.Offer? || a.Submit?
    ensures Exact(c, s')
  {
    hide Exact, Admit, Enqueued;
    var turn := s.turns[a.slot];
    if a.Offer? {
      var batch := turn.submitting.value;
      if Admit(s.queue, batch) == Accepted {
        ExactAfterAccepted(c, s, s', a.slot, batch);
      } else {
        ExactAfterRefused(c, s, s', a.slot, batch);
      }
    } else if a.Submit? {
      ExactAfterSubmit(c, s, s', a.slot, a.index, a.batch);
    } else if a.GiveBackBuilder? {
      ExactAfterGivenBackBuilder(c, s, s', a.slot, a.index);
    } else {
      ExactAfterGivenBackHand(c, s, s', a.slot, turn.hand.value);
    }
  }

  lemma ExactNext(c: Config, s: State, a: Action, s': State)
    requires Exact(c, s) && Next(c, s, a, s')
    ensures Exact(c, s')
  {
    ShapedNext(c, s, a, s');
    ActionKinds(c, s, a, s');
    hide Exact, TurnStep, OtherStep, Shaped;
    assert Shaped(c, s);
    if OtherStep(c, s, a, s') {
      ExactAfterOther(c, s, a, s');
    } else if a.Begin? {
      ExactAfterBegin(c, s, a, s');
    } else if a.Reserve? {
      ExactAfterReserve(c, s, a, s');
    } else if a.Skip? || a.Fail? || a.NewPage? || a.ReadItem? || a.End? || a.Place? {
      ExactAfterQuiet(c, s, a, s');
    } else {
      ExactAfterBack(c, s, a, s');
    }
  }

  lemma ExactAfterNothing(c: Config, s: State, a: Action, s': State)
    requires Exact(c, s) && Shaped(c, s') && OtherStep(c, s, a, s') && (a.Bump? || a.Send?)
    ensures Exact(c, s')
  {
  }

  lemma ActionKinds(c: Config, s: State, a: Action, s': State)
    requires Shaped(c, s) && (TurnStep(c, s, a, s') || OtherStep(c, s, a, s'))
    ensures OtherStep(c, s, a, s') <==>
      a.Bump? || a.Pop? || a.Send? || a.Land? || a.Release? || a.Done? || a.Stop?
  {
  }

  lemma InitialExact(c: Config, s: State)
    requires Initial(c, s)
    ensures Exact(c, s)
  {
    hide Sum, LanesHold, Total, Busy, Submitting;
    HoldNothing(s.queue.lanes);
    NobodyHolds(TurnBags(s.turns));
    NobodyHolds(FlightBags(s.popped, s.busy));
    NobodyHolds(RetireeBags(s.retiring));
    NobodyBusy(s.turns, s.busy);
  }

  lemma {:induction false} NobodyHolds(bags: seq<KeyBag>)
    requires forall i :: 0 <= i < |bags| ==> bags[i] == multiset{}
    ensures Sum(bags) == multiset{}
  {
    if bags != [] {
      NobodyHolds(bags[..|bags| - 1]);
    }
  }

  lemma {:induction false} NobodyBusy(turns: seq<Turn>, busy: seq<bool>)
    requires forall i :: 0 <= i < |turns| ==> turns[i] == Idle
    requires forall i :: 0 <= i < |busy| ==> !busy[i]
    ensures Submitting(turns) == 0 && Busy(busy) == 0
    decreases |turns| + |busy|
  {
    if turns != [] {
      NobodyBusy(turns[..|turns| - 1], busy);
    } else if busy != [] {
      NobodyBusy(turns, busy[..|busy| - 1]);
    }
  }

  /** In every reachable state the reservation set is the disjoint union of the keys in
      open builders, of the sample in hand, and of the batches being submitted, waiting,
      being sent or being released; the activity counter is the number of outstanding
      batches, and the idle channel is closed exactly when there is none. */
  lemma {:induction false} ReservationsExact(c: Config, states: seq<State>, actions: seq<Action>, i: nat)
    requires Execution(c, states, actions) && i < |states|
    ensures Exact(c, states[i])
  {
    hide Exact, Next;
    if i == 0 {
      InitialExact(c, states[0]);
    } else {
      ReservationsExact(c, states, actions, i - 1);
      assert Next(c, states[i - 1], actions[i - 1], states[i - 1 + 1]);
      ExactNext(c, states[i - 1], actions[i - 1], states[i]);
    }
  }

  /** No sample is ever queued, in flight or otherwise outstanding twice at the same time. */
  lemma NeverTwice(c: Config, states: seq<State>, actions: seq<Action>, i: nat, key: PublishKey)
    requires Execution(c, states, actions) && i < |states|
    ensures Shaped(c, states[i])
    ensures Held(states[i])[key] == if key in states[i].reservations then 1 else 0
  {
    ReservationsExact(c, states, actions, i);
    hide Held, Next, Outstanding;
  }
}

/** The streaming publisher as a transition system: slots reading pages and queueing
    batches, one worker per lane sending them, and batches being released, in any
    interleaving. Each critical section (a reservation, a release, the activity counter,
    a queue operation) is one step (internal/promwrap/publisher.go,
    internal/promwrap/push_worker.go). */
module PublisherProtocols {
  import opened LaneQueues
  import opened Options
  import opened PageBatchers
  import opened PageLedgers
  import opened Publishers
  import opened Times
  import opened ValueStates

  /** Every series belongs to one slot and one lane. */
  datatype Config = Config(workers: nat, slots: nat, laneOf: string -> nat, slotOf: string -> nat)

  /** A value read from the cache, and the builder it goes to. */
  datatype Item = Item(index: nat, key: PublishKey)

  /** A slot's turn, under the slot's mutex: the page it works on, what is left of the page,
      the sample just reserved, the open builders, and the batch being handed to the
      queue. */
  datatype Turn =
    | Idle
    | Active(cycleMS: int, page: map<string, Item>, todo: seq<Item>, hand: Option<Item>,
             builders: seq<seq<PublishKey>>, submitting: Option<EncodedBatch>, failed: bool)

  datatype Clock = Clock(lastRequested: int, lastCycle: int)

  /** A batch on its way out: its keys are given back first, then it is counted as done. */
  datatype Retiree = Retiree(batch: EncodedBatch, released: bool)

  datatype State = State(
    queue: Queue,
    reservations: set<PublishKey>,
    pending: int,
    idle: bool,
    turns: seq<Turn>,
    clocks: seq<Clock>,
    /** What each lane's worker has taken so far; it is sending the last one while `busy`. */
    popped: seq<Lane>,
    busy: seq<bool>,
    retiring: seq<Retiree>,
    /** The generation of every series that the cache holds now. */
    versions: map<string, nat>,
    /** Every send attempt: the lane, and which of its batches. */
    sends: seq<(nat, nat)>)

  datatype Action =
    | Bump(series: string, version: nat)
    | Begin(slot: nat, requested: int)
    | NewPage(slot: nat)
    | ReadItem(slot: nat, item: Item)
    | Skip(slot: nat)
    | Reserve(slot: nat)
    | DropOversized(slot: nat)
    | Place(slot: nat)
    | Submit(slot: nat, index: nat, batch: EncodedBatch)
    | Offer(slot: nat)
    | Fail(slot: nat)
    | GiveBackHand(slot: nat)
    | GiveBackBuilder(slot: nat, index: nat)
    | End(slot: nat)
    | Pop(lane: nat)
    | Send(lane: nat)
    | Land(lane: nat)
    | Release(i: nat)
    | Done(i: nat)
    | Stop

  predicate Shaped(c: Config, s: State) {
    && |s.queue.lanes| == |s.popped| == |s.busy| == c.workers
    && |s.turns| == |s.clocks| == c.slots
    && (forall i :: 0 <= i < |s.turns| && s.turns[i].Active? ==> |s.turns[i].builders| == 2 * c.workers)
  }

  ghost predicate Initial(c: Config, s: State) {
    && Shaped(c, s)
    && (forall k :: 0 <= k < c.workers ==> s.queue.lanes[k] == [] && s.popped[k] == [] && !s.busy[k])
    && (forall i :: 0 <= i < c.slots ==> s.turns[i] == Idle && s.clocks[i] == Clock(ZERO_TIME, ZERO_TIME))
    && s.reservations == {} && s.pending == 0 && s.idle && s.retiring == [] && s.sends == []
    && !s.queue.closed && s.queue.latestCycles == map[]
  }

  function Retired(batches: Lane): (retirees: seq<Retiree>)
    ensures |retirees| == |batches|
  {
    seq(|batches|, i requires 0 <= i < |batches| => Retiree(batches[i], false))
  }

  function WithTurn(s: State, slot: nat, turn: Turn): State
    requires slot < |s.turns|
  {
    s.(turns := s.turns[slot := turn])
  }

  /** A value read from the cache: the generation is the one cached at that moment, the
      builder is that of the series' lane, and a sample published with the cycle's
      timestamp carries that timestamp. */
  predicate ItemOf(c: Config, s: State, slot: nat, cycleMS: int, item: Item) {
    && c.slotOf(item.key.seriesID) == slot && item.index / 2 == c.laneOf(item.key.seriesID)
    && item.index < 2 * c.workers
    && item.key.seriesID in s.versions && item.key.generation == s.versions[item.key.seriesID]
    && (PolicyOf(item.index) == CycleTimestamp ==> item.key.timestampMS == cycleMS)
  }

  ghost predicate TurnStep(c: Config, s: State, a: Action, s': State)
    requires Shaped(c, s)
  {
    match a
    case Begin(slot, requested) =>
      && slot < c.slots && s.turns[slot].Idle? && requested != ZERO_TIME
      && var clock := s.clocks[slot];
         var cycle := NormalizedCycle(clock.lastRequested, clock.lastCycle, requested);
         s' == s.(clocks := s.clocks[slot := Clock(ToMillisecond(requested), cycle)],
                  queue := Begun(s.queue, slot, UnixMillis(cycle)),
                  retiring := s.retiring + Retired(Coalesced(s.queue, slot, UnixMillis(cycle))),
                  turns := s.turns[slot := if MayBegin(s.queue, slot, UnixMillis(cycle))
                                           then Active(UnixMillis(cycle), map[], [], None,
                                                       seq(2 * c.workers, _ => []), None, false)
                                           else Idle])
    case NewPage(slot) =>
      && slot < c.slots && s.turns[slot].Active? && !s.turns[slot].failed
      && s.turns[slot].todo == [] && s.turns[slot].hand.None? && s.turns[slot].submitting.None?
      && (forall i :: 0 <= i < 2 * c.workers ==> s.turns[slot].builders[i] == [])
      && s' == WithTurn(s, slot, s.turns[slot].(page := map[]))
    // A page visits the shards one after another, and anything may happen between two
    // visits; it lists a series once (PagedScans.PageListsItemOnce).
    case ReadItem(slot, item) =>
      && slot < c.slots && s.turns[slot].Active? && !s.turns[slot].failed
      && item.key.seriesID !in s.turns[slot].page && ItemOf(c, s, slot, s.turns[slot].cycleMS, item)
      && s' == WithTurn(s, slot, s.turns[slot].(page := s.turns[slot].page[item.key.seriesID := item],
                                                todo := s.turns[slot].todo + [item]))
    case Skip(slot) =>
      && slot < c.slots && s.turns[slot].Active? && s.turns[slot].todo != []
      && s' == WithTurn(s, slot, s.turns[slot].(todo := s.turns[slot].todo[1..]))
    case Reserve(slot) =>
      && slot < c.slots && s.turns[slot].Active? && !s.turns[slot].failed
      && s.turns[slot].todo != [] && s.turns[slot].hand.None?
      && var turn, item := s.turns[slot], s.turns[slot].todo[0];
         s' == if item.key in s.reservations then
                 WithTurn(s, slot, turn.(todo := turn.todo[1..]))
               else
                 WithTurn(s, slot, turn.(todo := turn.todo[1..], hand := Some(item)))
                   .(reservations := s.reservations + {item.key})
    case DropOversized(slot) =>
      && slot < c.slots && s.turns[slot].Active? && s.turns[slot].hand.Some?
      && s' == WithTurn(s, slot, s.turns[slot].(hand := None))
                 .(reservations := s.reservations - {s.turns[slot].hand.value.key})
    case Place(slot) =>
      && slot < c.slots && s.turns[slot].Active? && !s.turns[slot].failed && s.turns[slot].hand.Some?
      && s.turns[slot].hand.value.index < 2 * c.workers
      && var turn, item := s.turns[slot], s.turns[slot].hand.value;
         s' == WithTurn(s, slot, turn.(hand := None,
                                       builders := turn.builders[item.index := turn.builders[item.index] + [item.key]]))
    case Submit(slot, index, batch) =>
      && slot < c.slots && s.turns[slot].Active? && !s.turns[slot].failed && s.turns[slot].submitting.None?
      && index < 2 * c.workers && s.turns[slot].builders[index] != []
      && batch.keys == s.turns[slot].builders[index] && batch.lane == index / 2 && batch.slot == slot
      && batch.policy == PolicyOf(index) && batch.cycleTimestampMS == s.turns[slot].cycleMS
      && s' == WithTurn(s, slot,
                        s.turns[slot].(builders := s.turns[slot].builders[index := []], submitting := Some(batch)))
                 .(pending := s.pending + 1, idle := if s.pending == 0 then false else s.idle)
    case Offer(slot) =>
      && slot < c.slots && s.turns[slot].Active? && s.turns[slot].submitting.Some?
      && s.turns[slot].submitting.value.lane < c.workers
      && var turn, batch := s.turns[slot], s.turns[slot].submitting.value;
         s' == if Admit(s.queue, batch) == Accepted then
                 WithTurn(s, slot, turn.(submitting := None)).(queue := Enqueued(s.queue, batch))
               else
                 WithTurn(s, slot, turn.(submitting := None, failed := true))
                   .(retiring := s.retiring + [Retiree(batch, false)])
    case Fail(slot) =>
      && slot < c.slots && s.turns[slot].Active?
      && s' == WithTurn(s, slot, s.turns[slot].(failed := true))
    case GiveBackHand(slot) =>
      && slot < c.slots && s.turns[slot].Active? && s.turns[slot].failed && s.turns[slot].hand.Some?
      && s' == WithTurn(s, slot, s.turns[slot].(hand := None))
                 .(reservations := s.reservations - {s.turns[slot].hand.value.key})
    case GiveBackBuilder(slot, index) =>
      && slot < c.slots && s.turns[slot].Active? && s.turns[slot].failed && index < 2 * c.workers
      && s' == WithTurn(s, slot, s.turns[slot].(builders := s.turns[slot].builders[index := []]))
                 .(reservations := s.reservations - (set key | key in s.turns[slot].builders[index]))
    case End(slot) =>
      && slot < c.slots && s.turns[slot].Active?
      && (s.turns[slot].todo == [] || s.turns[slot].failed)
      && s.turns[slot].hand.None? && s.turns[slot].submitting.None?
      && (forall i :: 0 <= i < 2 * c.workers ==> s.turns[slot].builders[i] == [])
      && s' == WithTurn(s, slot, Idle)
    case _ => false
  }

  ghost predicate OtherStep(c: Config, s: State, a: Action, s': State)
    requires Shaped(c, s)
  {
    match a
    case Bump(series, version) =>
      && (series in s.versions ==> s.versions[series] <= version)
      && s' == s.(versions := s.versions[series := version])
    case Pop(lane) =>
      && lane < c.workers && !s.busy[lane] && s.queue.lanes[lane] != []
      && s' == s.(queue := Popped(s.queue, lane), busy := s.busy[lane := true],
                  popped := s.popped[lane := s.popped[lane] + [s.queue.lanes[lane][0]]])
    case Send(lane) =>
      && lane < c.workers && s.busy[lane] && s.popped[lane] != []
      && s' == s.(sends := s.sends + [(lane, |s.popped[lane]| - 1)])
    case Land(lane) =>
      && lane < c.workers && s.busy[lane] && s.popped[lane] != []
      && s' == s.(busy := s.busy[lane := false],
                  retiring := s.retiring + [Retiree(s.popped[lane][|s.popped[lane]| - 1], false)])
    case Release(i) =>
      && i < |s.retiring| && !s.retiring[i].released
      && s' == s.(retiring := s.retiring[i := s.retiring[i].(released := true)],
                  reservations := s.reservations - (set key | key in s.retiring[i].batch.keys))
    case Done(i) =>
      && i < |s.retiring| && s.retiring[i].released
      && s' == s.(retiring := s.retiring[..i] + s.retiring[i + 1..],
                  pending := s.pending - 1, idle := if s.pending - 1 == 0 then true else s.idle)
    case Stop =>
      && !s.queue.closed
      && s' == s.(queue := Closed(s.queue), retiring := s.retiring + Retired(Concatenated(s.queue.lanes)))
    case _ => false
  }

  ghost predicate Next(c: Config, s: State, a: Action, s': State) {
    Shaped(c, s) && (TurnStep(c, s, a, s') || OtherStep(c, s, a, s'))
  }

  ghost predicate Execution(c: Config, states: seq<State>, actions: seq<Action>) {
    && |states| == |actions| + 1 && Initial(c, states[0])
    && forall i :: 0 <= i < |actions| ==> Next(c, states[i], actions[i], states[i + 1])
  }

  lemma ShapedNext(c: Config, s: State, a: Action, s': State)
    requires Next(c, s, a, s')
    ensures Shaped(c, s')
  {
    hide TurnStep, OtherStep, Shaped;
    if OtherStep(c, s, a, s') {
      OtherShaped(c, s, a, s');
    } else if a.Begin? || a.Offer? {
      QueueTurnShaped(c, s, a, s');
    } else {
      TurnShaped(c, s, a, s');
    }
  }

  lemma OtherShaped(c: Config, s: State, a: Action, s': State)
    requires Shaped(c, s) && OtherStep(c, s, a, s')
    ensures Shaped(c, s')
  {
    hide Concatenated, Retired;
  }

  lemma QueueTurnShaped(c: Config, s: State, a: Action, s': State)
    requires Shaped(c, s) && TurnStep(c, s, a, s') && (a.Begin? || a.Offer?)
    ensures Shaped(c, s')
  {
    hide NormalizedCycle, Admit, Coalesced, ToMillisecond, MayBegin, KeptAll, Retired;
  }

  lemma TurnShaped(c: Config, s: State, a: Action, s': State)
    requires Shaped(c, s) && TurnStep(c, s, a, s') && !a.Begin? && !a.Offer?
    ensures Shaped(c, s')
  {
    hide NormalizedCycle, Admit, Coalesced, ToMillisecond, MayBegin, Retired;
  }
}

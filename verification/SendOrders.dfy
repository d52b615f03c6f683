/** The order in which the samples of one series are sent, over all runs of the publisher
    protocol (internal/promwrap/publisher.go, internal/promwrap/push_worker.go; the
    "Ordering" section of the Prometheus Remote-Write 1.0 specification). */
module SendOrders {
  import opened LaneQueues
  import opened Options
  import opened PageBatchers
  import opened PublisherProtocols
  import opened Publishers
  import opened Times
  import opened ValueStates

  /** `a` may be sent before `b`: a sample of the same series is no newer, in generation
      and in cycle. */
  predicate KeyBefore(a: PublishKey, cycleA: int, b: PublishKey, cycleB: int) {
    a.seriesID == b.seriesID ==> a.generation <= b.generation && cycleA <= cycleB
  }

  ghost predicate BatchBefore(x: EncodedBatch, y: EncodedBatch) {
    forall a, b :: a in x.keys && b in y.keys ==> KeyBefore(a, x.cycleTimestampMS, b, y.cycleTimestampMS)
  }

  /** A batch holds samples of one slot and one lane, at most one for each series, and with
      the cycle's timestamp if it is published by cycle. */
  ghost predicate Tidy(c: Config, batch: EncodedBatch) {
    && (forall a :: a in batch.keys ==> c.laneOf(a.seriesID) == batch.lane && c.slotOf(a.seriesID) == batch.slot)
    && (forall a, b :: a in batch.keys && b in batch.keys && a.seriesID == b.seriesID ==> a == b)
    && (batch.policy == CycleTimestamp ==> forall a :: a in batch.keys ==> a.timestampMS == batch.cycleTimestampMS)
  }

  /** Everything a lane has let through or still holds, oldest first. */
  function Flow(s: State, k: nat): Lane
    requires k < |s.popped| && k < |s.queue.lanes|
  {
    s.popped[k] + s.queue.lanes[k]
  }

  ghost predicate Ordered(flow: Lane) {
    forall i, j :: 0 <= i < j < |flow| ==> BatchBefore(flow[i], flow[j])
  }

  ghost predicate FlowOK(c: Config, k: nat, flow: Lane) {
    Ordered(flow) && forall y :: y in flow ==> Tidy(c, y) && y.lane == k
  }

  /** No sample in a lane is newer than what the cache holds or than its slot's latest
      cycle. */
  ghost predicate Past(flow: Lane, versions: map<string, nat>, latest: map<nat, int>) {
    forall y :: y in flow ==>
      && y.slot in latest && y.cycleTimestampMS <= latest[y.slot]
      && forall a :: a in y.keys ==> a.seriesID in versions && a.generation <= versions[a.seriesID]
  }

  /** No sample in a lane is newer than the one on the page for the same series. */
  ghost predicate BeforePage(flow: Lane, page: map<string, Item>, cycleMS: int) {
    forall y, a :: y in flow && a in y.keys && a.seriesID in page ==>
      a.generation <= page[a.seriesID].key.generation && y.cycleTimestampMS <= cycleMS
  }

  /** A page is for one slot and says for every series which sample it has. */
  ghost predicate PageOK(c: Config, slot: nat, cycleMS: int, page: map<string, Item>, versions: map<string, nat>) {
    forall x :: x in page ==>
      && page[x].key.seriesID == x && c.slotOf(x) == slot && page[x].index / 2 == c.laneOf(x)
      && (PolicyOf(page[x].index) == CycleTimestamp ==> page[x].key.timestampMS == cycleMS)
      && x in versions && page[x].key.generation <= versions[x]
  }

  predicate OnPage(page: map<string, Item>, index: nat, key: PublishKey) {
    key.seriesID in page && page[key.seriesID] == Item(index, key)
  }

  ghost predicate BatchOnPage(slot: nat, cycleMS: int, page: map<string, Item>, batch: EncodedBatch) {
    && batch.slot == slot && batch.cycleTimestampMS == cycleMS
    && exists index: nat :: batch.lane == index / 2 && batch.policy == PolicyOf(index)
                            && forall a :: a in batch.keys ==> OnPage(page, index, a)
  }

  /** Every sample a slot is working on is the page's sample of its series. */
  ghost predicate TurnOK(c: Config, slot: nat, turn: Turn, versions: map<string, nat>)
    requires turn.Active?
  {
    && PageOK(c, slot, turn.cycleMS, turn.page, versions)
    && (forall item :: item in turn.todo ==> OnPage(turn.page, item.index, item.key))
    && (turn.hand.Some? ==> OnPage(turn.page, turn.hand.value.index, turn.hand.value.key))
    && (forall i, a :: 0 <= i < |turn.builders| && a in turn.builders[i] ==> OnPage(turn.page, i, a))
    && (turn.submitting.Some? ==> BatchOnPage(slot, turn.cycleMS, turn.page, turn.submitting.value))
  }

  ghost predicate SlotOK(c: Config, s: State, slot: nat)
    requires Shaped(c, s) && slot < c.slots
  {
    s.turns[slot].Active? ==>
      && TurnOK(c, slot, s.turns[slot], s.versions)
      && slot in s.queue.latestCycles && s.turns[slot].cycleMS == s.queue.latestCycles[slot]
      && (forall k :: 0 <= k < c.workers ==> BeforePage(Flow(s, k), s.turns[slot].page, s.turns[slot].cycleMS))
  }

  ghost predicate LaneOK(c: Config, s: State, k: nat)
    requires Shaped(c, s) && k < c.workers
  {
    FlowOK(c, k, Flow(s, k)) && Past(Flow(s, k), s.versions, s.queue.latestCycles)
  }

  /** Attempts of one lane never go back to an earlier batch. */
  predicate SendsOK(c: Config, s: State)
    requires Shaped(c, s)
  {
    && (forall i :: 0 <= i < |s.sends| ==> s.sends[i].0 < c.workers && s.sends[i].1 < |s.popped[s.sends[i].0]|)
    && (forall i, j :: 0 <= i < j < |s.sends| && s.sends[i].0 == s.sends[j].0 ==> s.sends[i].1 <= s.sends[j].1)
  }

  ghost predicate Inv(c: Config, s: State) {
    && Shaped(c, s)
    && (forall k :: 0 <= k < c.workers ==> LaneOK(c, s, k))
    && (forall slot :: 0 <= slot < c.slots ==> SlotOK(c, s, slot))
    && SendsOK(c, s)
  }

  // ---------- Flows ----------

  lemma ShorterFlow(c: Config, k: nat, popped: Lane, lane: Lane, kept: Lane)
    requires FlowOK(c, k, popped + lane) && Ordered(kept) && forall y :: y in kept ==> y in lane
    ensures FlowOK(c, k, popped + kept)
    ensures forall y :: y in popped + kept ==> y in popped + lane
  {
    hide Tidy, BatchBefore;
    var flow, shorter := popped + lane, popped + kept;
    forall i, j | 0 <= i < j < |shorter|
      ensures BatchBefore(shorter[i], shorter[j])
    {
      if j < |popped| {
        assert shorter[i] == flow[i] && shorter[j] == flow[j];
      } else if i < |popped| {
        assert kept[j - |popped|] in lane;
        var m :| 0 <= m < |lane| && lane[m] == kept[j - |popped|];
        assert flow[i] == shorter[i] && flow[|popped| + m] == shorter[j];
      } else {
        assert shorter[i] == kept[i - |popped|] && shorter[j] == kept[j - |popped|];
      }
    }
  }

  lemma KeptOrdered(popped: Lane, lane: Lane, slot: nat, cycleMS: int)
    requires Ordered(popped + lane)
    ensures Ordered(Kept(lane, slot, cycleMS))
    ensures forall y :: y in Kept(lane, slot, cycleMS) ==> y in lane
  {
    hide BatchBefore, Kept;
    forall i, j | 0 <= i < j < |lane|
      ensures BatchBefore(lane[i], lane[j])
    {
      assert (popped + lane)[|popped| + i] == lane[i] && (popped + lane)[|popped| + j] == lane[j];
    }
    var before := (x: EncodedBatch, y: EncodedBatch) => BatchBefore(x, y);
    assert InOrder(lane, before);
    KeptInOrder(lane, slot, cycleMS, before);
    KeptExact(lane, slot, cycleMS);
    var kept := Kept(lane, slot, cycleMS);
    assert forall i, j :: 0 <= i < j < |kept| ==> before(kept[i], kept[j]);
  }

  /** A batch whose samples are the page's may join the end of its lane: everything there
      is no newer than the page, and a page has one sample for each series. */
  lemma JoinFlow(c: Config, k: nat, flow: Lane, slot: nat, cycleMS: int, page: map<string, Item>,
                 versions: map<string, nat>, batch: EncodedBatch)
    requires FlowOK(c, k, flow) && BeforePage(flow, page, cycleMS) && PageOK(c, slot, cycleMS, page, versions)
    requires BatchOnPage(slot, cycleMS, page, batch) && batch.lane == k
    ensures FlowOK(c, k, flow + [batch])
    ensures BeforePage(flow + [batch], page, cycleMS)
  {
    BatchTidy(c, slot, cycleMS, page, versions, batch);
    hide PageOK, Tidy;
    forall i | 0 <= i < |flow|
      ensures BatchBefore(flow[i], batch)
    {
      assert flow[i] in flow;
    }
  }

  lemma BatchTidy(c: Config, slot: nat, cycleMS: int, page: map<string, Item>, versions: map<string, nat>,
                  batch: EncodedBatch)
    requires PageOK(c, slot, cycleMS, page, versions) && BatchOnPage(slot, cycleMS, page, batch)
    ensures Tidy(c, batch)
  {
  }

  // ---------- What stays when a step happens elsewhere ----------

  ghost predicate VersionsGrow(versions: map<string, nat>, later: map<string, nat>) {
    forall x :: x in versions ==> x in later && versions[x] <= later[x]
  }

  /** No lane lets anything new in. */
  ghost predicate NothingNew(c: Config, s: State, s': State)
    requires Shaped(c, s) && Shaped(c, s')
  {
    forall k, y :: 0 <= k < c.workers && y in Flow(s', k) ==> y in Flow(s, k)
  }

  predicate SameCycle(s: State, s': State, slot: nat) {
    slot in s.queue.latestCycles ==>
      slot in s'.queue.latestCycles && s'.queue.latestCycles[slot] == s.queue.latestCycles[slot]
  }

  lemma SlotFrame(c: Config, s: State, s': State, slot: nat)
    requires Shaped(c, s) && Shaped(c, s') && slot < c.slots && SlotOK(c, s, slot)
    requires s'.turns[slot] == s.turns[slot] && SameCycle(s, s', slot)
    requires NothingNew(c, s, s') && VersionsGrow(s.versions, s'.versions)
    ensures SlotOK(c, s', slot)
  {
    hide OnPage, BatchOnPage, Flow;
  }

  /** A turn that goes on with its page, while no lane lets anything new in. */
  lemma TurnFrame(c: Config, s: State, s': State, slot: nat)
    requires Shaped(c, s) && Shaped(c, s') && slot < c.slots && SlotOK(c, s, slot)
    requires s.turns[slot].Active? && s'.turns[slot].Active?
    requires s'.turns[slot].page == s.turns[slot].page && s'.turns[slot].cycleMS == s.turns[slot].cycleMS
    requires SameCycle(s, s', slot) && s'.versions == s.versions && NothingNew(c, s, s')
    requires TurnOK(c, slot, s'.turns[slot], s'.versions)
    ensures SlotOK(c, s', slot)
  {
    hide TurnOK, Flow;
  }

  lemma OtherSlots(c: Config, s: State, s': State, slot: nat)
    requires Shaped(c, s) && Shaped(c, s') && slot < c.slots
    requires forall i :: 0 <= i < c.slots ==> SlotOK(c, s, i)
    requires forall i :: 0 <= i < c.slots && i != slot ==> s'.turns[i] == s.turns[i] && SameCycle(s, s', i)
    requires NothingNew(c, s, s') && VersionsGrow(s.versions, s'.versions)
    ensures forall i :: 0 <= i < c.slots && i != slot ==> SlotOK(c, s', i)
  {
    hide SlotOK, NothingNew;
    forall i | 0 <= i < c.slots && i != slot
      ensures SlotOK(c, s', i)
    {
      SlotFrame(c, s, s', i);
    }
  }

  predicate IsMove(a: Action) {
    || a.Skip? || a.Reserve? || a.DropOversized? || a.Place?
    || a.Fail? || a.GiveBackHand? || a.GiveBackBuilder? || a.Submit?
  }

  /** A turn that works on the same page and on nothing that was not there before. */
  ghost predicate Continues(turn: Turn, next: Turn) {
    && turn.Active? && next.Active? && next.page == turn.page && next.cycleMS == turn.cycleMS
    && (forall item :: item in next.todo ==> item in turn.todo)
    && (next.hand == turn.hand || next.hand.None? || next.hand.value in turn.todo)
    && |next.builders| == |turn.builders|
    && (forall i, a :: 0 <= i < |next.builders| && a in next.builders[i] ==>
          a in turn.builders[i] || turn.hand == Some(Item(i, a)))
  }

  lemma ContinuesOK(c: Config, slot: nat, turn: Turn, next: Turn, versions: map<string, nat>)
    requires Continues(turn, next) && TurnOK(c, slot, turn, versions)
    requires next.submitting.Some? ==> BatchOnPage(slot, turn.cycleMS, turn.page, next.submitting.value)
    ensures TurnOK(c, slot, next, versions)
  {
    hide PageOK, OnPage, BatchOnPage;
  }

  /** The local steps of a turn: they move samples of the page around or let them go. */
  lemma TurnMoves(c: Config, s: State, a: Action, s': State, slot: nat)
    requires Shaped(c, s) && slot < c.slots && TurnStep(c, s, a, s')
    requires IsMove(a) && a.slot == slot
    requires s.turns[slot].Active? && TurnOK(c, slot, s.turns[slot], s.versions)
    ensures s'.turns[slot].Active? && TurnOK(c, slot, s'.turns[slot], s'.versions)
    ensures s'.turns[slot].page == s.turns[slot].page && s'.turns[slot].cycleMS == s.turns[slot].cycleMS
    ensures Elsewhere(s, s', slot)
  {
    MoveContinues(c, s, a, s', slot);
    if a.Submit? {
      SubmittedOnPage(slot, s.turns[slot], a.index, a.batch);
    }
    hide TurnStep, Continues, BatchOnPage;
    assert s'.turns[slot].submitting.Some? ==>
      BatchOnPage(slot, s.turns[slot].cycleMS, s.turns[slot].page, s'.turns[slot].submitting.value) by {
      hide TurnOK;
      if !a.Submit? {
        SubmittingStays(c, slot, s.turns[slot], s.versions);
      }
    }
    ContinuesOK(c, slot, s.turns[slot], s'.turns[slot], s.versions);
  }

  lemma SubmittingStays(c: Config, slot: nat, turn: Turn, versions: map<string, nat>)
    requires turn.Active? && TurnOK(c, slot, turn, versions)
    ensures turn.submitting.Some? ==> BatchOnPage(slot, turn.cycleMS, turn.page, turn.submitting.value)
  {
  }

  /** Only this slot's turn has changed, and nothing of the order. */
  predicate Elsewhere(s: State, s': State, slot: nat) {
    && slot < |s.turns| == |s'.turns| && s'.turns == s.turns[slot := s'.turns[slot]]
    && s'.clocks == s.clocks && s'.versions == s.versions && s'.queue == s.queue && s'.popped == s.popped
    && s'.sends == s.sends
  }

  lemma MoveContinues(c: Config, s: State, a: Action, s': State, slot: nat)
    requires Shaped(c, s) && slot < c.slots && TurnStep(c, s, a, s') && IsMove(a) && a.slot == slot
    ensures s.turns[slot].Active? && Continues(s.turns[slot], s'.turns[slot])
    ensures s'.turns[slot].submitting == if a.Submit? then Some(a.batch) else s.turns[slot].submitting
    ensures Elsewhere(s, s', slot)
  {
    var turn := s.turns[slot];
    if turn.todo != [] {
      assert turn.todo[0] in turn.todo;
      assert forall item :: item in turn.todo[1..] ==> item in turn.todo;
    }
  }

  lemma SubmittedOnPage(slot: nat, turn: Turn, index: nat, batch: EncodedBatch)
    requires turn.Active? && index < |turn.builders|
    requires forall i, a :: 0 <= i < |turn.builders| && a in turn.builders[i] ==> OnPage(turn.page, i, a)
    requires batch.keys == turn.builders[index] && batch.lane == index / 2 && batch.slot == slot
    requires batch.policy == PolicyOf(index) && batch.cycleTimestampMS == turn.cycleMS
    ensures BatchOnPage(slot, turn.cycleMS, turn.page, batch)
  {
    hide OnPage;
    assert batch.lane == index / 2 && batch.policy == PolicyOf(index)
      && forall a :: a in batch.keys ==> OnPage(turn.page, index, a);
  }

  lemma SameFlows(c: Config, s: State, s': State)
    requires Shaped(c, s) && Shaped(c, s') && s'.queue.lanes == s.queue.lanes && s'.popped == s.popped
    ensures NothingNew(c, s, s')
    ensures forall k :: 0 <= k < c.workers ==> Flow(s', k) == Flow(s, k)
  {
  }

  lemma InvAfterMove(c: Config, s: State, a: Action, s': State, slot: nat)
    requires Inv(c, s) && slot < c.slots && TurnStep(c, s, a, s') && Shaped(c, s')
    requires IsMove(a) && a.slot == slot
    ensures Inv(c, s')
  {
    assert SlotOK(c, s, slot);
    TurnMoves(c, s, a, s', slot);
    hide TurnStep, TurnOK, FlowOK, Past;
    SameFlows(c, s, s');
    TurnFrame(c, s, s', slot);
    OtherSlots(c, s, s', slot);
    assert forall k :: 0 <= k < c.workers ==> LaneOK(c, s, k) && LaneOK(c, s', k);
  }

  /** A value just read: what the cache holds now is no older than anything sent or
      waiting. */
  lemma NewItemIsLate(c: Config, s: State, k: nat, slot: nat, page: map<string, Item>, cycleMS: int, item: Item)
    requires Shaped(c, s) && k < c.workers && slot < c.slots && LaneOK(c, s, k)
    requires ItemOf(c, s, slot, cycleMS, item)
    requires slot in s.queue.latestCycles && cycleMS == s.queue.latestCycles[slot]
    requires BeforePage(Flow(s, k), page, cycleMS)
    ensures BeforePage(Flow(s, k), page[item.key.seriesID := item], cycleMS)
  {
    hide Flow, Ordered, PolicyOf;
    var x := item.key.seriesID;
    forall y, a | y in Flow(s, k) && a in y.keys && a.seriesID == x
      ensures a.generation <= item.key.generation && y.cycleTimestampMS <= cycleMS
    {
      assert Tidy(c, y);
      assert y.slot == c.slotOf(x) == slot;
    }
  }

  lemma TurnWithItem(c: Config, s: State, slot: nat, turn: Turn, item: Item)
    requires turn.Active? && TurnOK(c, slot, turn, s.versions)
    requires item.key.seriesID !in turn.page && ItemOf(c, s, slot, turn.cycleMS, item)
    ensures TurnOK(c, slot, turn.(page := turn.page[item.key.seriesID := item], todo := turn.todo + [item]), s.versions)
  {
    var page := turn.page[item.key.seriesID := item];
    forall index: nat, key | OnPage(turn.page, index, key)
      ensures OnPage(page, index, key)
    {
    }
    hide OnPage, PolicyOf;
    assert OnPage(page, item.index, item.key) by {
      Listed(page, item);
    }
  }

  lemma Listed(page: map<string, Item>, item: Item)
    requires item.key.seriesID in page && page[item.key.seriesID] == item
    ensures OnPage(page, item.index, item.key)
  {
  }

  lemma InvAfterReadItem(c: Config, s: State, a: Action, s': State)
    requires Inv(c, s) && a.ReadItem? && TurnStep(c, s, a, s') && Shaped(c, s')
    ensures Inv(c, s')
  {
    var slot, turn := a.slot, s.turns[a.slot];
    assert SlotOK(c, s, slot);
    SameFlows(c, s, s');
    TurnWithItem(c, s, slot, turn, a.item);
    hide FlowOK, Past, ItemOf, TurnOK, BeforePage;
    OtherSlots(c, s, s', slot);
    forall k | 0 <= k < c.workers
      ensures LaneOK(c, s', k) && BeforePage(Flow(s', k), s'.turns[slot].page, turn.cycleMS)
    {
      assert LaneOK(c, s, k);
      NewItemIsLate(c, s, k, slot, turn.page, turn.cycleMS, a.item);
    }
  }

  lemma InvAfterNewPage(c: Config, s: State, a: Action, s': State)
    requires Inv(c, s) && a.NewPage? && TurnStep(c, s, a, s') && Shaped(c, s')
    ensures Inv(c, s')
  {
    SameFlows(c, s, s');
    hide FlowOK, Past;
    assert SlotOK(c, s, a.slot);
    OtherSlots(c, s, s', a.slot);
    assert forall k :: 0 <= k < c.workers ==> LaneOK(c, s, k) && LaneOK(c, s', k);
  }

  lemma InvAfterEnd(c: Config, s: State, a: Action, s': State)
    requires Inv(c, s) && a.End? && TurnStep(c, s, a, s') && Shaped(c, s')
    ensures Inv(c, s')
  {
    SameFlows(c, s, s');
    hide FlowOK, Past, TurnOK;
    assert SlotOK(c, s, a.slot);
    OtherSlots(c, s, s', a.slot);
    assert forall k :: 0 <= k < c.workers ==> LaneOK(c, s, k) && LaneOK(c, s', k);
  }

  lemma PastLater(flow: Lane, shorter: Lane, versions: map<string, nat>, later: map<string, nat>,
                  latest: map<nat, int>, latest': map<nat, int>)
    requires Past(flow, versions, latest) && VersionsGrow(versions, later)
    requires forall y :: y in shorter ==> y in flow
    requires forall i :: i in latest ==> i in latest' && latest[i] <= latest'[i]
    ensures Past(shorter, later, latest')
  {
  }

  lemma LatestAfterBegin(q: Queue, slot: nat, cycleMS: int)
    ensures var later := Begun(q, slot, cycleMS).latestCycles;
            && (forall i :: i in q.latestCycles ==> i in later && q.latestCycles[i] <= later[i])
            && (forall i :: i in q.latestCycles && i != slot ==> later[i] == q.latestCycles[i])
            && (MayBegin(q, slot, cycleMS) ==> slot in later && later[slot] == cycleMS)
  {
    hide KeptAll;
  }

  lemma InvAfterBegin(c: Config, s: State, a: Action, s': State)
    requires Inv(c, s) && a.Begin? && TurnStep(c, s, a, s') && Shaped(c, s')
    ensures Inv(c, s')
  {
    var slot := a.slot;
    var cycleMS := UnixMillis(s'.clocks[slot].lastCycle);
    LatestAfterBegin(s.queue, slot, cycleMS);
    hide NormalizedCycle, ToMillisecond, UnixMillis, TurnOK, FlowOK, Past, Kept, Begun, MayBegin;
    forall k | 0 <= k < c.workers
      ensures LaneOK(c, s', k)
      ensures forall y :: y in Flow(s', k) ==> y in Flow(s, k)
    {
      assert LaneOK(c, s, k);
      BegunFlow(c, s.queue, k, s.popped[k], slot, cycleMS);
      PastLater(Flow(s, k), Flow(s', k), s.versions, s'.versions, s.queue.latestCycles, s'.queue.latestCycles);
    }
    OtherSlots(c, s, s', slot);
    FreshTurn(c, s', slot, cycleMS);
  }

  lemma FreshTurn(c: Config, s: State, slot: nat, cycleMS: int)
    requires Shaped(c, s) && slot < c.slots
    requires s.turns[slot] == Idle
      || (slot in s.queue.latestCycles && cycleMS == s.queue.latestCycles[slot]
          && s.turns[slot] == Active(cycleMS, map[], [], None, seq(2 * c.workers, _ => []), None, false))
    ensures SlotOK(c, s, slot)
  {
  }

  lemma BegunFlow(c: Config, q: Queue, k: nat, popped: Lane, slot: nat, cycleMS: int)
    requires k < |q.lanes| && FlowOK(c, k, popped + q.lanes[k])
    ensures FlowOK(c, k, popped + Begun(q, slot, cycleMS).lanes[k])
    ensures forall y :: y in popped + Begun(q, slot, cycleMS).lanes[k] ==> y in popped + q.lanes[k]
  {
    hide FlowOK, Kept;
    if Advances(q, slot, cycleMS) {
      KeptOfFlow(c, k, popped, q.lanes[k], slot, cycleMS);
    }
  }

  lemma KeptOfFlow(c: Config, k: nat, popped: Lane, lane: Lane, slot: nat, cycleMS: int)
    requires FlowOK(c, k, popped + lane)
    ensures FlowOK(c, k, popped + Kept(lane, slot, cycleMS))
    ensures forall y :: y in popped + Kept(lane, slot, cycleMS) ==> y in popped + lane
  {
    KeptOrdered(popped, lane, slot, cycleMS);
    ShorterFlow(c, k, popped, lane, Kept(lane, slot, cycleMS));
  }

  // ---------- Queueing a batch ----------

  lemma InvAfterOffer(c: Config, s: State, a: Action, s': State)
    requires Inv(c, s) && a.Offer? && TurnStep(c, s, a, s') && Shaped(c, s')
    ensures Inv(c, s')
  {
    var slot, turn := a.slot, s.turns[a.slot];
    assert SlotOK(c, s, slot);
    if Admit(s.queue, turn.submitting.value) == Accepted {
      InvAfterAccepted(c, s, s', slot);
    } else {
      SameFlows(c, s, s');
      hide FlowOK, Past, OnPage, BatchOnPage, PageOK, Admit;
      TurnFrame(c, s, s', slot);
      OtherSlots(c, s, s', slot);
      assert forall k :: 0 <= k < c.workers ==> LaneOK(c, s, k) && LaneOK(c, s', k);
    }
  }

  lemma InvAfterAccepted(c: Config, s: State, s': State, slot: nat)
    requires Inv(c, s) && Shaped(c, s') && slot < c.slots && s.turns[slot].Active? && s.turns[slot].submitting.Some?
    requires s.turns[slot].submitting.value.lane < c.workers
    requires s' == WithTurn(s, slot, s.turns[slot].(submitting := None))
                     .(queue := Enqueued(s.queue, s.turns[slot].submitting.value))
    ensures Inv(c, s')
  {
    var turn, batch := s.turns[slot], s.turns[slot].submitting.value;
    assert SlotOK(c, s, slot);
    forall k | 0 <= k < c.workers
      ensures Flow(s', k) == if k == batch.lane then Flow(s, k) + [batch] else Flow(s, k)
    {
    }
    BatchTidy(c, slot, turn.cycleMS, turn.page, s.versions, batch);
    hide Flow, FlowOK, Past, OnPage, BatchOnPage, PageOK, BeforePage, Tidy;
    forall k | 0 <= k < c.workers
      ensures LaneOK(c, s', k)
    {
      assert LaneOK(c, s, k);
      if k == batch.lane {
        JoinFlow(c, k, Flow(s, k), slot, turn.cycleMS, turn.page, s.versions, batch);
        JoinPast(c, Flow(s, k), slot, turn.cycleMS, turn.page, s.versions, s.queue.latestCycles, batch);
      }
    }
    forall i | 0 <= i < c.slots
      ensures SlotOK(c, s', i)
    {
      assert SlotOK(c, s, i);
      if s.turns[i].Active? {
        forall k | 0 <= k < c.workers
          ensures BeforePage(Flow(s', k), s.turns[i].page, s.turns[i].cycleMS)
        {
          if k == batch.lane {
            if i == slot {
              assert LaneOK(c, s, k);
              JoinFlow(c, k, Flow(s, k), slot, turn.cycleMS, turn.page, s.versions, batch);
            } else {
              JoinOther(c, Flow(s, k), i, s.turns[i].cycleMS, s.turns[i].page, s.versions, batch);
            }
          }
        }
      }
    }
  }

  lemma JoinPast(c: Config, flow: Lane, slot: nat, cycleMS: int, page: map<string, Item>, versions: map<string, nat>,
                 latest: map<nat, int>, batch: EncodedBatch)
    requires Past(flow, versions, latest) && PageOK(c, slot, cycleMS, page, versions)
    requires BatchOnPage(slot, cycleMS, page, batch)
    requires slot in latest && cycleMS == latest[slot]
    ensures Past(flow + [batch], versions, latest)
  {
  }

  /** A batch of one slot has no series in common with the page of another. */
  lemma JoinOther(c: Config, flow: Lane, slot: nat, cycleMS: int, page: map<string, Item>, versions: map<string, nat>,
                  batch: EncodedBatch)
    requires BeforePage(flow, page, cycleMS) && PageOK(c, slot, cycleMS, page, versions)
    requires Tidy(c, batch) && batch.slot != slot
    ensures BeforePage(flow + [batch], page, cycleMS)
  {
  }

  // ---------- The other steps ----------

  lemma InvAfterOther(c: Config, s: State, a: Action, s': State)
    requires Inv(c, s) && OtherStep(c, s, a, s') && Shaped(c, s')
    ensures Inv(c, s')
  {
    hide TurnOK, FlowOK, Past, Concatenated, BeforePage;
    forall k | 0 <= k < c.workers
      ensures LaneOK(c, s', k)
      ensures forall y :: y in Flow(s', k) ==> y in Flow(s, k)
    {
      assert LaneOK(c, s, k);
      OtherFlow(c, s, a, s', k);
      PastLater(Flow(s, k), Flow(s', k), s.versions, s'.versions, s.queue.latestCycles, s'.queue.latestCycles);
    }
    assert NothingNew(c, s, s');
    hide NothingNew;
    forall i | 0 <= i < c.slots
      ensures SlotOK(c, s', i)
    {
      SlotFrame(c, s, s', i);
    }
    SendsAfterOther(c, s, a, s');
  }

  lemma OtherFlow(c: Config, s: State, a: Action, s': State, k: nat)
    requires Shaped(c, s) && Shaped(c, s') && OtherStep(c, s, a, s') && k < c.workers && FlowOK(c, k, Flow(s, k))
    ensures FlowOK(c, k, Flow(s', k))
    ensures forall y :: y in Flow(s', k) ==> y in Flow(s, k)
    ensures s'.queue.latestCycles == s.queue.latestCycles && s'.turns == s.turns
    ensures VersionsGrow(s.versions, s'.versions)
  {
    hide Concatenated, Retired;
    if a.Pop? && k == a.lane {
      assert s.queue.lanes[k] == [s.queue.lanes[k][0]] + s.queue.lanes[k][1..];
      assert Flow(s', k) == Flow(s, k);
    } else if a.Stop? {
      ShorterFlow(c, k, s.popped[k], s.queue.lanes[k], []);
    } else {
      assert Flow(s', k) == Flow(s, k);
    }
  }

  lemma SendsAfterOther(c: Config, s: State, a: Action, s': State)
    requires Shaped(c, s) && Shaped(c, s') && OtherStep(c, s, a, s') && SendsOK(c, s)
    ensures SendsOK(c, s')
  {
    hide Concatenated, Retired;
  }

  lemma InvNext(c: Config, s: State, a: Action, s': State)
    requires Inv(c, s) && Next(c, s, a, s')
    ensures Inv(c, s')
  {
    ShapedNext(c, s, a, s');
    hide Inv, TurnStep, OtherStep, Shaped;
    if OtherStep(c, s, a, s') {
      InvAfterOther(c, s, a, s');
    } else {
      MoveOf(c, s, a, s');
      if a.Begin? {
        InvAfterBegin(c, s, a, s');
      } else if a.NewPage? {
        InvAfterNewPage(c, s, a, s');
      } else if a.ReadItem? {
        InvAfterReadItem(c, s, a, s');
      } else if a.Offer? {
        InvAfterOffer(c, s, a, s');
      } else if a.End? {
        InvAfterEnd(c, s, a, s');
      } else {
        InvAfterMove(c, s, a, s', a.slot);
      }
    }
  }

  lemma MoveOf(c: Config, s: State, a: Action, s': State)
    requires Shaped(c, s) && TurnStep(c, s, a, s')
    ensures a.Begin? || a.NewPage? || a.ReadItem? || a.Offer? || a.End? || (IsMove(a) && a.slot < c.slots)
  {
  }

  lemma InitialInv(c: Config, s: State)
    requires Initial(c, s)
    ensures Inv(c, s)
  {
  }

  lemma {:induction false} Reachable(c: Config, states: seq<State>, actions: seq<Action>, i: nat)
    requires Execution(c, states, actions) && i < |states|
    ensures Inv(c, states[i])
  {
    hide Inv, Next;
    if i == 0 {
      InitialInv(c, states[0]);
    } else {
      Reachable(c, states, actions, i - 1);
      assert Next(c, states[i - 1], actions[i - 1], states[i - 1 + 1]);
      InvNext(c, states[i - 1], actions[i - 1], states[i]);
    }
  }

  /** The batch of a send attempt. */
  function SentBatch(s: State, i: nat): EncodedBatch
    requires i < |s.sends| && s.sends[i].0 < |s.popped| && s.sends[i].1 < |s.popped[s.sends[i].0]|
  {
    s.popped[s.sends[i].0][s.sends[i].1]
  }

  /** Over every run, the attempts that carry a series carry its samples in nondecreasing
      value version and in nondecreasing cycle; samples published by cycle carry exactly
      that cycle as their timestamp. Retries, coalescing, full queues, failures and any
      interleaving of slots and workers make no difference. */
  lemma SendOrder(c: Config, states: seq<State>, actions: seq<Action>, m: nat, i: nat, j: nat,
                  a: PublishKey, b: PublishKey)
    requires Execution(c, states, actions) && m < |states| && i <= j < |states[m].sends|
    ensures Shaped(c, states[m]) && SendsOK(c, states[m])
    ensures var x, y := SentBatch(states[m], i), SentBatch(states[m], j);
            a in x.keys && b in y.keys && a.seriesID == b.seriesID ==>
              && a.generation <= b.generation && x.cycleTimestampMS <= y.cycleTimestampMS
              && (x.policy == CycleTimestamp && y.policy == CycleTimestamp ==> a.timestampMS <= b.timestampMS)
  {
    Reachable(c, states, actions, m);
    var s := states[m];
    var x, y := SentBatch(s, i), SentBatch(s, j);
    var k, l := s.sends[i].0, s.sends[j].0;
    assert LaneOK(c, s, k) && LaneOK(c, s, l);
    hide SlotOK, Past;
    assert Flow(s, k)[s.sends[i].1] == x && Flow(s, l)[s.sends[j].1] == y;
    assert x in Flow(s, k) && y in Flow(s, l);
    assert Tidy(c, x) && Tidy(c, y);
    if k == l && s.sends[i].1 < s.sends[j].1 {
      assert BatchBefore(x, y);
    }
  }

  // ---------- Refusals ----------

  /** The queue turns a batch away as obsolete only after it was closed, so the error
      "stopped" that the publisher reports then is true. */
  lemma RefusedOnlyWhenStopped(c: Config, states: seq<State>, actions: seq<Action>, i: nat, slot: nat)
    requires Execution(c, states, actions) && i < |states| && slot < c.slots
    ensures Shaped(c, states[i])
    ensures var s := states[i];
            s.turns[slot].Active? && s.turns[slot].submitting.Some? && !s.queue.closed ==>
              Admit(s.queue, s.turns[slot].submitting.value) != Obsolete
  {
    Reachable(c, states, actions, i);
    assert SlotOK(c, states[i], slot);
    hide LaneOK, PageOK, Total, OnPage;
  }

  /** The queue's latest cycle of a slot is never ahead of the slot's own clock. */
  ghost predicate CyclesOK(c: Config, s: State)
    requires Shaped(c, s)
  {
    forall slot :: 0 <= slot < c.slots ==>
      && s.clocks[slot].lastCycle >= ZERO_TIME
      && (slot in s.queue.latestCycles ==> s.queue.latestCycles[slot] <= UnixMillis(s.clocks[slot].lastCycle))
  }

  /** Every cycle was requested for an instant after Go's zero time. */
  ghost predicate Modern(actions: seq<Action>) {
    forall i :: 0 <= i < |actions| && actions[i].Begin? ==> ToMillisecond(actions[i].requested) > ZERO_TIME
  }

  lemma CycleNotEarlier(clock: Clock, requested: int)
    requires clock.lastCycle >= ZERO_TIME && ToMillisecond(requested) > ZERO_TIME
    ensures var cycle := NormalizedCycle(clock.lastRequested, clock.lastCycle, requested);
            cycle >= clock.lastCycle && UnixMillis(cycle) >= UnixMillis(clock.lastCycle)
  {
  }

  lemma CyclesNext(c: Config, s: State, a: Action, s': State)
    requires CyclesBehind(c, s) && Next(c, s, a, s') && (a.Begin? ==> ToMillisecond(a.requested) > ZERO_TIME)
    ensures CyclesBehind(c, s')
  {
    ShapedNext(c, s, a, s');
    if OtherStep(c, s, a, s') {
      CyclesAfterOther(c, s, a, s');
    } else {
      MoveOf(c, s, a, s');
      if a.Begin? {
        CyclesAfterBegin(c, s, a, s');
      } else if IsMove(a) {
        MoveContinues(c, s, a, s', a.slot);
        hide TurnStep, Continues;
      } else {
        CyclesAfterRest(c, s, a, s');
      }
    }
  }

  ghost predicate CyclesBehind(c: Config, s: State) {
    Shaped(c, s) && CyclesOK(c, s)
  }

  lemma CyclesAfterBegin(c: Config, s: State, a: Action, s': State)
    requires Shaped(c, s) && CyclesOK(c, s) && a.Begin? && TurnStep(c, s, a, s') && Shaped(c, s')
    requires ToMillisecond(a.requested) > ZERO_TIME
    ensures CyclesOK(c, s')
  {
    CycleNotEarlier(s.clocks[a.slot], a.requested);
    hide NormalizedCycle, ToMillisecond, UnixMillis, KeptAll, Coalesced, Retired;
  }

  lemma CyclesAfterOther(c: Config, s: State, a: Action, s': State)
    requires Shaped(c, s) && Shaped(c, s') && CyclesOK(c, s) && OtherStep(c, s, a, s')
    ensures CyclesOK(c, s')
  {
    hide UnixMillis, Retired, Concatenated;
  }

  lemma CyclesAfterRest(c: Config, s: State, a: Action, s': State)
    requires Shaped(c, s) && Shaped(c, s') && CyclesOK(c, s) && TurnStep(c, s, a, s')
    requires a.NewPage? || a.ReadItem? || a.Offer? || a.End?
    ensures CyclesOK(c, s')
  {
    hide UnixMillis, ItemOf, Admit;
  }

  lemma {:induction false} CyclesReachable(c: Config, states: seq<State>, actions: seq<Action>, i: nat)
    requires Execution(c, states, actions) && Modern(actions) && i < |states|
    ensures CyclesBehind(c, states[i])
    decreases i
  {
    hide Next, CyclesBehind, ToMillisecond;
    if i == 0 {
      InitialCycles(c, states[0]);
    } else {
      CyclesReachable(c, states, actions, i - 1);
      assert Next(c, states[i - 1], actions[i - 1], states[i - 1 + 1]);
      CyclesNext(c, states[i - 1], actions[i - 1], states[i]);
    }
  }

  lemma InitialCycles(c: Config, s: State)
    requires Initial(c, s)
    ensures CyclesBehind(c, s)
  {
  }

  /** When cycles are requested for instants after Go's zero time, a slot's cycle is turned
      away only after the queue was closed. (Publishers.CyclesGoBack has three requests before
      the zero time that would go back; the queue then refuses the third.) */
  lemma BeginsUnlessStopped(c: Config, states: seq<State>, actions: seq<Action>, i: nat, slot: nat, requested: int)
    requires Execution(c, states, actions) && Modern(actions) && i < |states| && slot < c.slots
    requires ToMillisecond(requested) > ZERO_TIME
    ensures Shaped(c, states[i])
    ensures var s := states[i];
            var cycle := NormalizedCycle(s.clocks[slot].lastRequested, s.clocks[slot].lastCycle, requested);
            MayBegin(s.queue, slot, UnixMillis(cycle)) <==> !s.queue.closed
  {
    CyclesReachable(c, states, actions, i);
    CycleNotEarlier(states[i].clocks[slot], requested);
    hide NormalizedCycle, ToMillisecond, UnixMillis;
  }
}

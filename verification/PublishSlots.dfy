/** Publishing one slot in one cycle: coalescing, host series, then every page of cached
    values (internal/promwrap/publisher.go, PublishSlot and processHosts). */
module PublishSlots {
  import opened BatchBuilders
  import opened LaneQueues
  import opened MetadataStores
  import opened Options
  import opened PageBatchers
  import opened PageLedgers
  import opened PagedScans
  import opened Publishers
  import opened Shards
  import opened Times
  import opened ValueCaches
  import opened ValueStates

  /** Remembers the last request and the last cycle of every slot. */
  class SlotClock {
    var lastRequested: seq<int>
    var lastCycle: seq<int>

    ghost predicate Valid()
      reads this
    {
      && |lastRequested| == |lastCycle|
      && forall slot :: 0 <= slot < |lastCycle| ==>
           WholeMillisecond(lastRequested[slot]) && WholeMillisecond(lastCycle[slot])
    }

    constructor (slots: nat)
      ensures Valid() && |lastCycle| == slots
      ensures forall slot :: 0 <= slot < slots ==> lastRequested[slot] == ZERO_TIME && lastCycle[slot] == ZERO_TIME
    {
      lastRequested, lastCycle := seq(slots, _ => ZERO_TIME), seq(slots, _ => ZERO_TIME);
    }

    method NormalizeCycle(slot: nat, requested: int) returns (cycle: int)
      requires Valid() && slot < |lastCycle|
      modifies this
      ensures Valid()
      ensures cycle == NormalizedCycle(old(lastRequested[slot]), old(lastCycle[slot]), requested)
      ensures lastRequested == old(lastRequested)[slot := ToMillisecond(requested)]
      ensures lastCycle == old(lastCycle)[slot := cycle]
      ensures if Repeated(old(lastRequested[slot]), requested) then cycle == old(lastCycle[slot])
              else NextCycle(old(lastCycle[slot]), requested, cycle)
    {
      CycleIsNext(lastRequested[slot], lastCycle[slot], requested);
      hide NextCycle;
      var truncated := ToMillisecond(requested);
      if lastRequested[slot] == truncated {
        assert lastRequested == lastRequested[slot := truncated];
        assert lastCycle == lastCycle[slot := lastCycle[slot]];
        return lastCycle[slot];
      }
      cycle := truncated;
      if lastCycle[slot] != ZERO_TIME && cycle <= lastCycle[slot] {
        cycle := lastCycle[slot] + MILLISECOND;
      }
      lastRequested := lastRequested[slot := truncated];
      lastCycle := lastCycle[slot := cycle];
    }
  }

  /** What metadata says about a host: it belongs to another slot, or has nothing to
      export, or exports one series on one lane. */
  datatype HostSeries = Elsewhere | NotExportable | Exportable(lane: nat, sample: Sample)

  datatype PublishError =
    | SlotUnknown | ZeroCycle | NotReady | NoSnapshot | Cancelled | BatchingFailed(failure: PageFailure)
    | PageUnreadable | CursorStuck | SampleTooLarge

  datatype HostResult = HostResult(seriesRead: nat, page: PageCounts)

  datatype SlotResult = SlotResult(
    cycle: int, current: bool, coalesced: nat, hostSeriesRead: nat, valuesRead: nat, page: PageCounts)

  function Merged(a: PageCounts, b: PageCounts): PageCounts {
    PageCounts(a.batchesQueued + b.batchesQueued, a.samplesQueued + b.samplesQueued, a.skipped + b.skipped,
               a.alreadyPending + b.alreadyPending, a.oversized + b.oversized)
  }

  /** What the hosts of a slot offer, one series each at most. */
  function HostOffers(hosts: seq<HostSeries>): seq<Offer> {
    if hosts == [] then
      []
    else
      HostOffers(hosts[..|hosts| - 1]) +
      match hosts[|hosts| - 1]
      case Elsewhere => []
      case NotExportable => [Missing]
      case Exportable(lane, sample) => [Given(IndexOf(CycleTimestamp, lane), sample)]
  }

  lemma NextHost(hosts: seq<HostSeries>, i: nat)
    requires i < |hosts|
    ensures hosts[i].Elsewhere? ==> HostOffers(hosts[..i + 1]) == HostOffers(hosts[..i])
    ensures hosts[i].NotExportable? ==> HostOffers(hosts[..i + 1]) == HostOffers(hosts[..i]) + [Missing]
    ensures hosts[i].Exportable? ==>
      HostOffers(hosts[..i + 1]) ==
        HostOffers(hosts[..i]) + [Given(IndexOf(CycleTimestamp, hosts[i].lane), hosts[i].sample)]
  {
    assert hosts[..i + 1][..i] == hosts[..i];
  }

  /** How many of the hosts are of the slot. */
  ghost function InSlot(hosts: seq<HostSeries>): nat {
    if hosts == [] then
      0
    else
      InSlot(hosts[..|hosts| - 1]) + (if hosts[|hosts| - 1].Elsewhere? then 0 else 1)
  }

  /** A host of the slot either has nothing to export or offers its own series, in its own
      lane and as a sample of the cycle. */
  ghost predicate OffersItsOwn(host: HostSeries, offer: Offer) {
    && (host.NotExportable? <==> offer.Missing?)
    && (host.Exportable? ==>
          && offer.Given? && offer.sample == host.sample
          && PolicyOf(offer.index) == CycleTimestamp && offer.index / 2 == host.lane)
  }

  /** Every host of the slot makes one offer, in order, and no other host makes any. */
  lemma {:induction false} HostsOfferExactly(hosts: seq<HostSeries>)
    ensures |HostOffers(hosts)| == InSlot(hosts)
    ensures forall i :: 0 <= i < |hosts| && !hosts[i].Elsewhere? ==>
      && InSlot(hosts[..i]) < |HostOffers(hosts)|
      && OffersItsOwn(hosts[i], HostOffers(hosts)[InSlot(hosts[..i])])
  {
    if hosts != [] {
      var others := hosts[..|hosts| - 1];
      HostsOfferExactly(others);
      assert forall i :: 0 <= i < |others| ==> others[..i] == hosts[..i];
    }
  }

  /** A list of offers went through: every one met the fate its metadata, the reservations
      and its size decide, the counters say so, and every lane and policy was sent exactly
      the samples taken for it, in order. */
  ghost predicate WentOut(page: PageCounts, sent: seq<Emission>, offers: seq<Offer>, reserved: set<PublishKey>,
                          maxBytes: nat, builders: nat)
  {
    var books := EnteredAll(NewBooks(reserved), offers, maxBytes);
    && Counted(page, books) && page.batchesQueued == |sent| && page.samplesQueued == |books.taken|
    && AllSent(sent, books.taken, builders)
  }

  ghost function ReservedAfter(reserved: set<PublishKey>, offers: seq<Offer>, maxBytes: nat): set<PublishKey> {
    EnteredAll(NewBooks(reserved), offers, maxBytes).reserved
  }

  lemma NothingWent(reserved: set<PublishKey>, maxBytes: nat, builders: nat)
    ensures WentOut(PageCounts(0, 0, 0, 0, 0), [], [], reserved, maxBytes, builders)
    ensures ReservedAfter(reserved, [], maxBytes) == reserved
  {
  }

  lemma WentOutTogether(page: PageCounts, sent: seq<Emission>, offers: seq<Offer>, reserved: set<PublishKey>,
                        next: PageCounts, more: seq<Emission>, others: seq<Offer>, maxBytes: nat, builders: nat)
    requires WentOut(page, sent, offers, reserved, maxBytes, builders)
    requires WentOut(next, more, others, ReservedAfter(reserved, offers, maxBytes), maxBytes, builders)
    ensures WentOut(Merged(page, next), sent + more, offers + others, reserved, maxBytes, builders)
    ensures ReservedAfter(reserved, offers + others, maxBytes) ==
      ReservedAfter(ReservedAfter(reserved, offers, maxBytes), others, maxBytes)
  {
    hide EnteredAll, AllSent;
    var first := EnteredAll(NewBooks(reserved), offers, maxBytes);
    var second := EnteredAll(NewBooks(first.reserved), others, maxBytes);
    EnteredInStretches(reserved, offers, others, maxBytes);
    AllSentAppend(sent, more, first.taken, second.taken, builders);
  }

  lemma {:induction false} AppendedTwice(lanes: seq<Lane>, a: seq<Emission>, b: seq<Emission>)
    ensures Appended(Appended(lanes, a), b) == Appended(lanes, a + b)
    decreases |b|
  {
    if b == [] {
      assert a + b == a;
    } else {
      var n := |b| - 1;
      AppendedTwice(lanes, a, b[..n]);
      assert (a + b)[..|a + b| - 1] == a + b[..n];
    }
  }

  lemma AppendedNothing(lanes: seq<Lane>)
    ensures Appended(lanes, []) == lanes
  {
  }

  lemma ProperTogether(a: seq<Emission>, b: seq<Emission>, maxSamples: nat, maxBytes: nat, slot: nat, cycleMS: int)
    requires AllProper(a, maxSamples, maxBytes, slot, cycleMS) && AllProper(b, maxSamples, maxBytes, slot, cycleMS)
    ensures AllProper(a + b, maxSamples, maxBytes, slot, cycleMS)
  {
    hide PageBatchers.Proper;
  }

  /** The batcher in use by a host pass and the keys it holds. */
  ghost predicate Using(batcher: PageBatcher, p: Publisher, slot: nat, cycleMS: int, others: multiset<PublishKey>,
                        n: nat)
    reads batcher, p, p.queue, batcher.Open()
  {
    && batcher.p == p && batcher.slot == slot && batcher.cycleMS == cycleMS
    && batcher.Valid() && p.Exact(Held(batcher.ledger) + others, n)
  }

  method StartBatcher(p: Publisher, slot: nat, cycleMS: int, ghost others: multiset<PublishKey>, ghost n: nat)
    returns (batcher: PageBatcher)
    requires p.Valid() && p.Exact(others, n)
    ensures fresh(batcher) && batcher.Open() == {} && Using(batcher, p, slot, cycleMS, others, n)
    ensures batcher.p == p
    ensures batcher.Standing() == NewBooks(p.reservations) && batcher.lanes0 == p.queue.lanes
  {
    hide Publisher.Exact, Publisher.Valid;
    batcher := new PageBatcher(p, slot, cycleMS);
    HeldNothing(batcher.ledger);
  }

  /** A batcher that has taken nothing holds nothing, and has sent nothing. */
  lemma NothingTaken(l: Ledger)
    requires Balanced(l) && l.taken == []
    ensures forall i :: 0 <= i < |l.open| ==> l.open[i] == []
    ensures SamplesSent(l.sent) == 0 && AllSent(l.sent, [], |l.open|)
  {
    forall i | 0 <= i < |l.open|
      ensures l.open[i] == [] && SentFor(l.sent, i) == []
    {
      assert SentFor(l.sent, i) + l.open[i] == TakenFor(l.taken, i) == [];
    }
  }

  /** Proper batches carry samples, so without samples there are no batches. */
  lemma {:induction false} NoSamplesNoBatches(sent: seq<Emission>, maxSamples: nat, maxBytes: nat, slot: nat,
                                              cycleMS: int)
    requires AllProper(sent, maxSamples, maxBytes, slot, cycleMS)
    ensures |sent| <= SamplesSent(sent)
  {
    if sent != [] {
      NoSamplesNoBatches(sent[..|sent| - 1], maxSamples, maxBytes, slot, cycleMS);
      assert PageBatchers.Proper(sent[|sent| - 1], maxSamples, maxBytes, slot, cycleMS);
    }
  }

  /** Ends a page of host series: everything it still holds is sent off, or given back. */
  method FinishHosts(batcher: PageBatcher, p: Publisher, slot: nat, cycleMS: int,
                     ghost others: multiset<PublishKey>, ghost n: nat)
    returns (failure: Option<PageFailure>, page: PageCounts, ghost sent: seq<Emission>)
    requires Using(batcher, p, slot, cycleMS, others, n)
    modifies batcher`builders, batcher`batchesQueued, batcher`samplesQueued, batcher`ledger
    modifies p`reservations, p`pending, p`idle, p.queue`lanes, p.queue`size, p.queue`notify
    ensures p.Valid() && p.Exact(others, n)
    ensures p.queue.lanes == Appended(batcher.lanes0, sent) && AllProper(sent, p.maxSamples, p.maxBytes, slot, cycleMS)
    ensures page == PageCounts(|sent|, SamplesSent(sent), batcher.skipped, batcher.alreadyPending, batcher.oversized)
    ensures failure.None? ==>
      && page.samplesQueued == |old(batcher.ledger.taken)| && p.reservations == old(p.reservations)
      && AllSent(sent, old(batcher.ledger.taken), 2 * p.workers)
  {
    hide LaneQueue.Valid, Publisher.Valid, Publisher.Exact, PageBatcher.Valid, Held, AllProper, Appended, AllSent,
      SamplesSent;
    failure := batcher.Finish(others, n);
    page := batcher.Result();
    sent := batcher.ledger.sent;
    if failure.None? {
      SentEverything(batcher.ledger);
    }
  }

  /** Gives up a page of host series. */
  method AbandonHosts(batcher: PageBatcher, p: Publisher, slot: nat, cycleMS: int,
                      ghost others: multiset<PublishKey>, ghost n: nat)
    requires Using(batcher, p, slot, cycleMS, others, n)
    modifies batcher`builders, batcher`ledger, p`reservations
    ensures p.Valid() && p.Exact(others, n)
    ensures p.queue.lanes == Appended(batcher.lanes0, batcher.ledger.sent)
    ensures AllProper(batcher.ledger.sent, p.maxSamples, p.maxBytes, slot, cycleMS)
  {
    hide LaneQueue.Valid, Publisher.Valid, Publisher.Exact, PageBatcher.Valid, PageBatcher.Consistent, Held, Balanced,
      AllProper, Appended;
    batcher.Parts();
    batcher.Cleanup(others, n);
  }

  method AddHost(batcher: PageBatcher, p: Publisher, slot: nat, cycleMS: int, lane: nat, sample: Sample,
                 ghost others: multiset<PublishKey>, ghost n: nat)
    returns (failure: Option<PageFailure>)
    requires Using(batcher, p, slot, cycleMS, others, n) && lane < p.workers
    modifies batcher`builders, batcher`batchesQueued, batcher`samplesQueued, batcher`alreadyPending, batcher`oversized
    modifies batcher`ledger, batcher.Open()
    modifies p`reservations, p`pending, p`idle, p.queue`lanes, p.queue`size, p.queue`notify
    ensures fresh(batcher.Open() - old(batcher.Open()))
    ensures failure.None? ==> Using(batcher, p, slot, cycleMS, others, n)
    ensures failure.None? ==>
      batcher.Standing() == Entered(old(batcher.Standing()), Given(IndexOf(CycleTimestamp, lane), sample), p.maxBytes)
    ensures failure.None? ==> Entries(batcher) == old(Entries(batcher)) + 1
    ensures failure.Some? ==>
      && p.Valid() && p.Exact(others, n) && p.queue.lanes == Appended(batcher.lanes0, batcher.ledger.sent)
      && AllProper(batcher.ledger.sent, p.maxSamples, p.maxBytes, slot, cycleMS)
  {
    hide LaneQueue.Valid, Publisher.Valid, Publisher.Exact, PageBatcher.Valid, Held, Entered, Appended,
      AllProper, WireSize;
    EnteredGiven(batcher.Standing(), IndexOf(CycleTimestamp, lane), sample, p.maxBytes);
    failure := batcher.Add(CycleTimestamp, lane, sample, others, n);
  }

  /** A host pass: the pages behind it went out, and the batcher has what the hosts since
      then offered; `skipped` of those had nothing to export. */
  ghost predicate Passing(batcher: PageBatcher, start: set<PublishKey>, lanes: seq<Lane>, pages: PageCounts,
                          sent: seq<Emission>, behind: seq<Offer>, current: seq<Offer>, skipped: nat, slot: nat,
                          cycleMS: int)
    reads batcher, batcher.p`reservations
  {
    var p := batcher.p;
    && WentOut(pages, sent, behind, start, p.maxBytes, 2 * p.workers)
    && AllProper(sent, p.maxSamples, p.maxBytes, slot, cycleMS)
    && batcher.skipped == 0 && batcher.lanes0 == Appended(lanes, sent)
    && batcher.Standing().(skipped := skipped)
       == EnteredAll(NewBooks(ReservedAfter(start, behind, p.maxBytes)), current, p.maxBytes)
  }

  lemma EnteredBeside(books: Books, index: nat, sample: Sample, skipped: nat, maxBytes: nat)
    ensures Entered(books.(skipped := skipped), Given(index, sample), maxBytes)
      == Entered(books, Given(index, sample), maxBytes).(skipped := skipped)
  {
    hide WireSize;
  }

  lemma PassMissing(batcher: PageBatcher, start: set<PublishKey>, lanes: seq<Lane>, pages: PageCounts,
                    sent: seq<Emission>, behind: seq<Offer>, current: seq<Offer>, skipped: nat, slot: nat, cycleMS: int)
    requires Passing(batcher, start, lanes, pages, sent, behind, current, skipped, slot, cycleMS)
    ensures Passing(batcher, start, lanes, pages, sent, behind, current + [Missing], skipped + 1, slot, cycleMS)
  {
    hide WentOut, AllProper, Appended, EnteredAll, WireSize;
    EnteredSnoc(NewBooks(ReservedAfter(start, behind, batcher.p.maxBytes)), current, Missing, batcher.p.maxBytes);
    EnteredMissing(batcher.Standing().(skipped := skipped), batcher.p.maxBytes);
  }

  /** The counters of a page of hosts, the hosts without a series included. */
  lemma PageWent(page: PageCounts, sent: seq<Emission>, standing: Books, skipped: nat, current: seq<Offer>,
                 reserved: set<PublishKey>, maxBytes: nat, builders: nat)
    requires standing.(skipped := skipped) == EnteredAll(NewBooks(reserved), current, maxBytes)
    requires page.alreadyPending == standing.pending && page.oversized == standing.oversized
    requires page.batchesQueued == |sent| && page.samplesQueued == |standing.taken|
    requires AllSent(sent, standing.taken, builders)
    ensures WentOut(page.(skipped := skipped), sent, current, reserved, maxBytes, builders)
    ensures ReservedAfter(reserved, current, maxBytes) == standing.reserved
  {
    hide AllSent, EnteredAll;
  }

  /** Sends off the page of hosts in hand. */
  method TurnPage(batcher: PageBatcher, p: Publisher, slot: nat, cycleMS: int, ghost others: multiset<PublishKey>,
                  ghost n: nat, ghost start: set<PublishKey>, ghost lanes: seq<Lane>, ghost pages: PageCounts,
                  ghost sent: seq<Emission>, ghost behind: seq<Offer>, ghost current: seq<Offer>, ghost skipped: nat)
    returns (failure: Option<PageFailure>, page: PageCounts, ghost sent': seq<Emission>)
    requires Using(batcher, p, slot, cycleMS, others, n)
    requires Passing(batcher, start, lanes, pages, sent, behind, current, skipped, slot, cycleMS)
    modifies batcher`builders, batcher`batchesQueued, batcher`samplesQueued, batcher`ledger
    modifies p`reservations, p`pending, p`idle, p.queue`lanes, p.queue`size, p.queue`notify
    ensures p.Valid() && p.Exact(others, n)
    ensures p.queue.lanes == Appended(lanes, sent') && AllProper(sent', p.maxSamples, p.maxBytes, slot, cycleMS)
    ensures page.skipped == 0
    ensures failure.None? ==>
      && WentOut(Merged(pages, page.(skipped := skipped)), sent', behind + current, start, p.maxBytes, 2 * p.workers)
      && p.reservations == ReservedAfter(start, behind + current, p.maxBytes)
  {
    hide LaneQueue.Valid, Publisher.Valid, Publisher.Exact, PageBatcher.Valid, Held, WentOut, AllProper, Appended,
      EnteredAll, AllSent, SamplesSent, ReservedAfter;
    ghost var standing := batcher.Standing();
    ghost var more;
    failure, page, more := FinishHosts(batcher, p, slot, cycleMS, others, n);
    sent' := sent + more;
    AppendedTwice(lanes, sent, more);
    ProperTogether(sent, more, p.maxSamples, p.maxBytes, slot, cycleMS);
    if failure.None? {
      PageWent(page, more, standing, skipped, current, ReservedAfter(start, behind, p.maxBytes), p.maxBytes,
               2 * p.workers);
      WentOutTogether(pages, sent, behind, start, page.(skipped := skipped), more, current, p.maxBytes, 2 * p.workers);
    }
  }

  /** Drops the batcher of a page without any sample. */
  lemma EmptyPage(batcher: PageBatcher, p: Publisher, slot: nat, cycleMS: int, others: multiset<PublishKey>, n: nat,
                  start: set<PublishKey>, lanes: seq<Lane>, pages: PageCounts, sent: seq<Emission>, behind: seq<Offer>,
                  current: seq<Offer>, skipped: nat)
    requires Using(batcher, p, slot, cycleMS, others, n) && Entries(batcher) == 0
    requires Passing(batcher, start, lanes, pages, sent, behind, current, skipped, slot, cycleMS)
    ensures p.Valid() && p.Exact(others, n) && p.queue.lanes == Appended(lanes, sent)
    ensures WentOut(Merged(pages, PageCounts(0, 0, skipped, 0, 0)), sent, behind + current, start, p.maxBytes,
                    2 * p.workers)
    ensures p.reservations == ReservedAfter(start, behind + current, p.maxBytes)
  {
    batcher.Parts();
    NothingTaken(batcher.ledger);
    HeldNothing(batcher.ledger);
    NoSamplesNoBatches(batcher.ledger.sent, p.maxSamples, p.maxBytes, slot, cycleMS);
    AppendedNothing(batcher.lanes0);
    hide Publisher.Valid, Publisher.Exact, Held, WentOut, AllProper, Appended, EnteredAll, AllSent, SamplesSent,
      ReservedAfter, PageBatcher.Consistent, Balanced;
    var none: seq<Emission> := batcher.ledger.sent;
    assert none == [];
    PageWent(PageCounts(0, 0, 0, 0, 0), none, batcher.Standing(), skipped, current,
             ReservedAfter(start, behind, p.maxBytes), p.maxBytes, 2 * p.workers);
    WentOutTogether(pages, sent, behind, start, PageCounts(0, 0, 0, 0, 0).(skipped := skipped), none, current,
                    p.maxBytes,
                    2 * p.workers);
    assert sent + none == sent;
  }

  /** How many samples a batcher has met so far. */
  ghost function Entries(batcher: PageBatcher): nat
    reads batcher
  {
    |batcher.ledger.taken| + batcher.alreadyPending + batcher.oversized
  }

  /** The host series of a slot, batched page by page. Every host of the slot meets the fate
      its metadata, the reservations and its size decide, what is taken is sent in order, and
      no path leaves a key reserved that is not in a queued batch. */
  method ProcessHosts(p: Publisher, slot: nat, cycleMS: int, hosts: seq<HostSeries>, pageSize: nat,
                      cancelled: nat -> bool, ghost others: multiset<PublishKey>, ghost n: nat)
    returns (result: HostResult, error: Option<PublishError>, ghost sent: seq<Emission>)
    requires p.Valid() && p.Exact(others, n)
    requires forall h :: h in hosts && h.Exportable? ==> h.lane < p.workers
    modifies p`reservations, p`pending, p`idle, p.queue`lanes, p.queue`size, p.queue`notify
    ensures p.Valid() && p.Exact(others, n)
    ensures p.queue.lanes == Appended(old(p.queue.lanes), sent)
    ensures AllProper(sent, p.maxSamples, p.maxBytes, slot, cycleMS)
    ensures error.None? ==>
      && WentOut(result.page, sent, HostOffers(hosts), old(p.reservations), p.maxBytes, 2 * p.workers)
      && p.reservations == ReservedAfter(old(p.reservations), HostOffers(hosts), p.maxBytes)
      && result.seriesRead + result.page.skipped == |HostOffers(hosts)|
    ensures error.Some? ==> error.value.Cancelled? || error.value.BatchingFailed?
  {
    hide LaneQueue.Valid, Publisher.Valid, Publisher.Exact, Using, HostOffers, Passing, WentOut, AllProper, Appended,
      Entered, EnteredAll, ReservedAfter;
    ghost var start, lanes := p.reservations, p.queue.lanes;
    var batcher := StartBatcher(p, slot, cycleMS, others, n);
    var pageEntries, skipped, seriesRead, pages := 0, 0, 0, PageCounts(0, 0, 0, 0, 0);
    ghost var behind, current, behindPages, inHand := [], [], pages, 0;
    sent := [];
    NoHosts(hosts);
    PassBegins(batcher, start, lanes, slot, cycleMS);
    var i := 0;
    while i < |hosts|
      invariant i <= |hosts|
      invariant fresh(batcher) && fresh(batcher.Open()) && batcher.p == p && Using(batcher, p, slot, cycleMS, others, n)
      invariant Passing(batcher, start, lanes, behindPages, sent, behind, current, inHand, slot, cycleMS)
      invariant HostOffers(hosts[..i]) == behind + current && seriesRead + skipped == |behind + current|
      invariant behindPages == pages.(skipped := behindPages.skipped) && pages.skipped == 0
      invariant skipped == behindPages.skipped + inHand && Entries(batcher) == pageEntries
    {
      NextHost(hosts, i);
      PassFacts(batcher, start, lanes, behindPages, sent, behind, current, inHand, slot, cycleMS);
      if cancelled(i) {
        var partial := batcher.Result();
        AbandonHosts(batcher, p, slot, cycleMS, others, n);
        PassSent(batcher, lanes, sent, slot, cycleMS, batcher.ledger.sent);
        result := HostResult(seriesRead, Merged(pages, partial).(skipped := skipped));
        return result, Some(Cancelled), sent + batcher.ledger.sent;
      }
      match hosts[i] {
        case Elsewhere =>
        case NotExportable =>
          PassMissing(batcher, start, lanes, behindPages, sent, behind, current, inHand, slot, cycleMS);
          OffersAssociate(behind, current, Missing);
          skipped := skipped + 1;
          current, inHand := current + [Missing], inHand + 1;
        case Exportable(lane, sample) =>
          seriesRead, pageEntries := seriesRead + 1, pageEntries + 1;
          assert hosts[i] in hosts;
          ghost var standing := batcher.Standing();
          ghost var offer := Given(IndexOf(CycleTimestamp, lane), sample);
          OffersAssociate(behind, current, offer);
          var failure := AddHost(batcher, p, slot, cycleMS, lane, sample, others, n);
          if failure.Some? {
            var partial := batcher.Result();
            PassSent(batcher, lanes, sent, slot, cycleMS, batcher.ledger.sent);
            result := HostResult(seriesRead, Merged(pages, partial).(skipped := skipped));
            return result, Some(BatchingFailed(failure.value)), sent + batcher.ledger.sent;
          }
          PassOn(batcher, start, lanes, behindPages, sent, behind, current, inHand, slot, cycleMS, standing, offer);
          current := current + [offer];
          if pageEntries == pageSize {
            var unfinished, page;
            unfinished, page, sent :=
              TurnPage(batcher, p, slot, cycleMS, others, n, start, lanes, behindPages, sent, behind, current, inHand);
            pages := Merged(pages, page);
            if unfinished.Some? {
              return HostResult(seriesRead, pages.(skipped := skipped)), Some(BatchingFailed(unfinished.value)), sent;
            }
            behindPages := Merged(behindPages, page.(skipped := inHand));
            behind, current, inHand := behind + current, [], 0;
            assert behind + current == behind;
            pageEntries := 0;
            batcher := StartBatcher(p, slot, cycleMS, others, n);
            PassAgain(batcher, start, lanes, behindPages, sent, behind, slot, cycleMS);
          }
      }
      i := i + 1;
    }
    assert hosts[..i] == hosts;
    if pageEntries != 0 {
      var unfinished, page;
      unfinished, page, sent :=
        TurnPage(batcher, p, slot, cycleMS, others, n, start, lanes, behindPages, sent, behind, current, inHand);
      pages := Merged(pages, page);
      if unfinished.Some? {
        return HostResult(seriesRead, pages.(skipped := skipped)), Some(BatchingFailed(unfinished.value)), sent;
      }
    } else {
      PassFacts(batcher, start, lanes, behindPages, sent, behind, current, inHand, slot, cycleMS);
      EmptyPage(batcher, p, slot, cycleMS, others, n, start, lanes, behindPages, sent, behind, current, inHand);
    }
    result := HostResult(seriesRead, pages.(skipped := skipped));
    return result, None, sent;
  }

  lemma OffersAssociate(a: seq<Offer>, b: seq<Offer>, offer: Offer)
    ensures (a + b) + [offer] == a + (b + [offer])
  {
  }

  lemma NoHosts(hosts: seq<HostSeries>)
    ensures HostOffers(hosts[..0]) == []
  {
  }

  lemma PassBegins(batcher: PageBatcher, start: set<PublishKey>, lanes: seq<Lane>, slot: nat, cycleMS: int)
    requires batcher.Standing() == NewBooks(start) && batcher.lanes0 == lanes
    ensures Passing(batcher, start, lanes, PageCounts(0, 0, 0, 0, 0), [], [], [], 0, slot, cycleMS)
  {
    NothingWent(start, batcher.p.maxBytes, 2 * batcher.p.workers);
    EnteredNone(NewBooks(start), batcher.p.maxBytes);
    AppendedNothing(lanes);
    hide WentOut, ReservedAfter, Appended, EnteredAll;
  }

  lemma PassAgain(batcher: PageBatcher, start: set<PublishKey>, lanes: seq<Lane>, pages: PageCounts,
                  sent: seq<Emission>,
                  behind: seq<Offer>, slot: nat, cycleMS: int)
    requires var p := batcher.p;
             && batcher.Standing() == NewBooks(ReservedAfter(start, behind, p.maxBytes))
             && batcher.lanes0 == Appended(lanes, sent)
             && AllProper(sent, p.maxSamples, p.maxBytes, slot, cycleMS)
             && WentOut(pages, sent, behind, start, p.maxBytes, 2 * p.workers)
    ensures Passing(batcher, start, lanes, pages, sent, behind, [], 0, slot, cycleMS)
  {
    EnteredNone(NewBooks(ReservedAfter(start, behind, batcher.p.maxBytes)), batcher.p.maxBytes);
    hide WentOut, ReservedAfter, Appended, EnteredAll, AllProper;
  }

  /** What a host pass has behind it does not change while the page in hand goes on. */
  lemma PassFacts(batcher: PageBatcher, start: set<PublishKey>, lanes: seq<Lane>, pages: PageCounts,
                  sent: seq<Emission>, behind: seq<Offer>, current: seq<Offer>, skipped: nat, slot: nat, cycleMS: int)
    requires Passing(batcher, start, lanes, pages, sent, behind, current, skipped, slot, cycleMS)
    ensures var p := batcher.p;
            && WentOut(pages, sent, behind, start, p.maxBytes, 2 * p.workers)
            && AllProper(sent, p.maxSamples, p.maxBytes, slot, cycleMS)
            && batcher.skipped == 0 && batcher.lanes0 == Appended(lanes, sent)
            && batcher.Standing().(skipped := skipped)
               == EnteredAll(NewBooks(ReservedAfter(start, behind, p.maxBytes)), current, p.maxBytes)
  {
  }

  lemma PassOn(batcher: PageBatcher, start: set<PublishKey>, lanes: seq<Lane>, pages: PageCounts,
               sent: seq<Emission>, behind: seq<Offer>, current: seq<Offer>, skipped: nat, slot: nat, cycleMS: int,
               standing: Books, offer: Offer)
    requires var p := batcher.p;
             && WentOut(pages, sent, behind, start, p.maxBytes, 2 * p.workers)
             && AllProper(sent, p.maxSamples, p.maxBytes, slot, cycleMS)
             && batcher.skipped == 0 && batcher.lanes0 == Appended(lanes, sent)
             && standing.(skipped := skipped)
                == EnteredAll(NewBooks(ReservedAfter(start, behind, p.maxBytes)), current, p.maxBytes)
             && offer.Given? && batcher.Standing() == Entered(standing, offer, p.maxBytes)
    ensures Passing(batcher, start, lanes, pages, sent, behind, current + [offer], skipped, slot, cycleMS)
  {
    hide WentOut, AllProper, Appended, EnteredAll, ReservedAfter, Entered;
    EnteredSnoc(NewBooks(ReservedAfter(start, behind, batcher.p.maxBytes)), current, offer, batcher.p.maxBytes);
    EnteredBeside(standing, offer.index, offer.sample, skipped, batcher.p.maxBytes);
  }

  /** Everything a host pass has sent stands in the lanes. */
  lemma PassSent(batcher: PageBatcher, lanes: seq<Lane>, sent: seq<Emission>, slot: nat, cycleMS: int,
                 more: seq<Emission>)
    requires AllProper(sent, batcher.p.maxSamples, batcher.p.maxBytes, slot, cycleMS)
    requires AllProper(more, batcher.p.maxSamples, batcher.p.maxBytes, slot, cycleMS)
    requires batcher.lanes0 == Appended(lanes, sent)
    ensures Appended(batcher.lanes0, more) == Appended(lanes, sent + more)
    ensures AllProper(sent + more, batcher.p.maxSamples, batcher.p.maxBytes, slot, cycleMS)
  {
    AppendedTwice(lanes, sent, more);
    ProperTogether(sent, more, batcher.p.maxSamples, batcher.p.maxBytes, slot, cycleMS);
  }

  /** What a whole scan of a slot returns for a cycle. */
  ghost function Due(views: seq<View>, slot: nat, cycle: int): seq<Hit> {
    AllFrom(views, ForPublishing(slot, cycle), 0, 0)
  }

  lemma NextPage(views: seq<View>, slot: nat, cycle: int, cursor: Cursor, pageSize: nat)
    requires Readable(views) && cursor.shard <= |views| && pageSize > 0
    ensures var eligible := ForPublishing(slot, cycle);
            var page := ReadFrom(views, eligible, cursor.shard, cursor.sequence, pageSize);
            && page.next.shard <= |views|
            && AllFrom(views, eligible, cursor.shard, cursor.sequence)
                 == page.hits + AllFrom(views, eligible, page.next.shard, page.next.sequence)
            && (page.done ==> AllFrom(views, eligible, page.next.shard, page.next.sequence) == [])
            && (!page.done ==> |page.hits| > 0 && page.next != cursor)
  {
    var eligible := ForPublishing(slot, cycle);
    PageTakesPrefix(views, eligible, cursor.shard, cursor.sequence, pageSize);
    PageSound(views, eligible, cursor.shard, cursor.sequence, pageSize);
    var page := ReadFrom(views, eligible, cursor.shard, cursor.sequence, pageSize);
    if page.done {
      AllDone(views, eligible, page.next);
    }
    hide ReadFrom, AllFrom;
  }

  /** What the values due in a slot offer. */
  ghost function ValueOffers(views: seq<View>, slot: nat, cycle: int, snapshot: Snapshot,
                             encoding: Encoding): seq<Offer>
  {
    OffersOf(snapshot, DetachedAll(Due(views, slot, cycle), cycle), encoding)
  }

  lemma OffersAppend(snapshot: Snapshot, a: seq<Hit>, b: seq<Hit>, cycle: int, encoding: Encoding)
    ensures OffersOf(snapshot, DetachedAll(a + b, cycle), encoding) ==
      OffersOf(snapshot, DetachedAll(a, cycle), encoding) + OffersOf(snapshot, DetachedAll(b, cycle), encoding)
  {
    hide OfferOf, Detached;
  }

  lemma NoOffers(snapshot: Snapshot, cycle: int, encoding: Encoding)
    ensures OffersOf(snapshot, DetachedAll([], cycle), encoding) == []
  {
  }

  /** The value pages of a slot. Without interference every value that is due is read and
      meets the fate its metadata, the reservations and its size decide, and what is taken
      is sent in order. */
  method ProcessValues(p: Publisher, store: ValueCache, snapshot: Snapshot, slot: nat, cycle: int, pageSize: nat,
                       encoding: Encoding, cancelled: nat -> bool, ghost views: seq<View>,
                       ghost others: multiset<PublishKey>, ghost n: nat)
    returns (valuesRead: nat, counts: PageCounts, error: Option<PublishError>, ghost sent: seq<Emission>)
    requires p.Valid() && p.Exact(others, n) && LanesExist(encoding, p.workers)
    requires store.Valid() && store.Sees(views) && Readable(views) && slot < store.publishSlots && pageSize > 0
    modifies p`reservations, p`pending, p`idle, p.queue`lanes, p.queue`size, p.queue`notify
    ensures p.Valid() && p.Exact(others, n)
    ensures p.queue.lanes == Appended(old(p.queue.lanes), sent)
    ensures AllProper(sent, p.maxSamples, p.maxBytes, slot, UnixMillis(cycle))
    ensures error.None? ==>
      var offers := ValueOffers(views, slot, cycle, snapshot, encoding);
      && valuesRead == |Due(views, slot, cycle)|
      && WentOut(counts, sent, offers, old(p.reservations), p.maxBytes, 2 * p.workers)
      && p.reservations == ReservedAfter(old(p.reservations), offers, p.maxBytes)
    ensures error.Some? ==> error.value.Cancelled? || error.value.BatchingFailed?
  {
    hide LaneQueue.Valid, Publisher.Valid, Publisher.Exact, ValueCache.Valid, ValueCache.Sees, Readable, DetachedAll,
      Due, LanesExist, ForPublishing, ReadFrom, AllFrom, OffersOf, WentOut, ReservedAfter, AllProper, Appended,
      EnteredAll;
    ghost var start, lanes := p.reservations, p.queue.lanes;
    valuesRead, counts, sent := 0, PageCounts(0, 0, 0, 0, 0), [];
    ghost var eligible := ForPublishing(slot, cycle);
    DueIsAll(views, slot, cycle);
    NothingWent(start, p.maxBytes, 2 * p.workers);
    NoOffers(snapshot, cycle, encoding);
    AppendedNothing(lanes);
    NothingProper(p.maxSamples, p.maxBytes, slot, UnixMillis(cycle));
    ghost var read: seq<Hit> := [];
    var cursor := START;
    var pages := 0;
    while true
      invariant p.Valid() && p.Exact(others, n)
      invariant cursor.shard <= |views| && valuesRead == |read|
      invariant store.Valid() && store.Sees(views)
      invariant read + AllFrom(views, eligible, cursor.shard, cursor.sequence) == Due(views, slot, cycle)
      invariant p.queue.lanes == Appended(lanes, sent)
      invariant AllProper(sent, p.maxSamples, p.maxBytes, slot, UnixMillis(cycle))
      invariant var offers := OffersOf(snapshot, DetachedAll(read, cycle), encoding);
                && WentOut(counts, sent, offers, start, p.maxBytes, 2 * p.workers)
                && p.reservations == ReservedAfter(start, offers, p.maxBytes)
      decreases |Due(views, slot, cycle)| - valuesRead
    {
      if cancelled(pages) {
        return valuesRead, counts, Some(Cancelled), sent;
      }
      NextPage(views, slot, cycle, cursor, pageSize);
      ViewsMatch(store, views);
      var page := store.ReadPublishPage(slot, cursor, cycle, pageSize, views);
      if page.PageFailed? {
        return valuesRead, counts, Some(PageUnreadable), sent;
      }
      ghost var hits := ReadFrom(views, eligible, cursor.shard, cursor.sequence, pageSize).hits;
      HitsAssociate(read, hits, AllFrom(views, eligible, page.page.next.shard, page.page.next.sequence));
      OffersAppend(snapshot, read, hits, cycle, encoding);
      pages := pages + 1;
      valuesRead := valuesRead + |page.page.values|;
      ghost var more;
      var next, failure;
      next, failure, more := SendPage(p, snapshot, slot, cycle, page.page.values, encoding, others, n);
      AppendedTwice(lanes, sent, more);
      ProperTogether(sent, more, p.maxSamples, p.maxBytes, slot, UnixMillis(cycle));
      if failure.Some? {
        return valuesRead, Merged(counts, next), Some(BatchingFailed(failure.value)), sent + more;
      }
      WentOutTogether(counts, sent, OffersOf(snapshot, DetachedAll(read, cycle), encoding), start, next, more,
                      OffersOf(snapshot, DetachedAll(hits, cycle), encoding), p.maxBytes, 2 * p.workers);
      counts, sent, read := Merged(counts, next), sent + more, read + hits;
      if page.page.done {
        assert read + [] == read;
        return valuesRead, counts, None, sent;
      }
      if page.page.next == cursor {
        return valuesRead, counts, Some(CursorStuck), sent;
      }
      cursor := page.page.next;
    }
  }

  lemma HitsAssociate(a: seq<Hit>, b: seq<Hit>, c: seq<Hit>)
    ensures a + (b + c) == (a + b) + c
  {
  }

  lemma NothingProper(maxSamples: nat, maxBytes: nat, slot: nat, cycleMS: int)
    ensures AllProper([], maxSamples, maxBytes, slot, cycleMS)
  {
  }

  lemma ViewsMatch(store: ValueCache, views: seq<View>)
    requires store.Sees(views)
    ensures |views| == |store.shards|
  {
  }

  lemma DueIsAll(views: seq<View>, slot: nat, cycle: int)
    ensures Due(views, slot, cycle) == AllFrom(views, ForPublishing(slot, cycle), START.shard, START.sequence)
  {
  }

  /** One page of values: batched and sent as the specification of a page says. */
  method SendPage(p: Publisher, snapshot: Snapshot, slot: nat, cycle: int, values: seq<PublishValue>,
                  encoding: Encoding, ghost others: multiset<PublishKey>, ghost n: nat)
    returns (page: PageCounts, failure: Option<PageFailure>, ghost sent: seq<Emission>)
    requires p.Valid() && p.Exact(others, n) && LanesExist(encoding, p.workers)
    modifies p`reservations, p`pending, p`idle, p.queue`lanes, p.queue`size, p.queue`notify
    ensures p.Valid() && p.Exact(others, n)
    ensures p.queue.lanes == Appended(old(p.queue.lanes), sent)
    ensures AllProper(sent, p.maxSamples, p.maxBytes, slot, UnixMillis(cycle))
    ensures failure.None? ==>
      var offers := OffersOf(snapshot, values, encoding);
      && WentOut(page, sent, offers, old(p.reservations), p.maxBytes, 2 * p.workers)
      && p.reservations == ReservedAfter(old(p.reservations), offers, p.maxBytes)
  {
    hide LaneQueue.Valid, Publisher.Valid, Publisher.Exact, PageBatchers.Appended, AllProper, OffersOf, EnteredAll,
      AllSent, SamplesSent;
    ghost var done;
    page, failure, sent, done := ProcessPage(p, snapshot, slot, UnixMillis(cycle), values, encoding, others, n);
    assert failure.None? ==> values[..done] == values;
  }

  /** Every page was read and batched. */
  predicate WentThrough(error: Option<PublishError>) {
    error.None? || error.value.SampleTooLarge?
  }

  /** The reservations a cycle starts from: those of the batches it supersedes are given
      back. */
  ghost function ReservedAtStart(reserved: set<PublishKey>, q: Queue, slot: nat, cycle: int): set<PublishKey> {
    reserved - KeysIn(Coalesced(q, slot, UnixMillis(cycle)))
  }

  /** One cycle of one slot. On every path the reservations are exactly the keys of queued
      batches and of whatever others hold, and nothing but proper batches of the slot was
      added to the lanes. Without interference a cycle that went through has offered every
      host and every value that was due; each met the fate its metadata, the reservations
      and its size decide, and every lane and policy was sent exactly what was taken for it,
      in order. The cursor error of the source cannot occur. A cycle that went through still
      reports an error if a sample was too large for any request. */
  method PublishSlot(p: Publisher, clock: SlotClock, store: ValueCache, snapshot: Option<Snapshot>, slot: nat,
                     requested: int, hosts: seq<HostSeries>, pageSize: nat, encoding: Encoding,
                     cancelled: nat -> bool, ready: bool, ghost views: seq<View>,
                     ghost others: multiset<PublishKey>, ghost n: nat)
    returns (result: SlotResult, error: Option<PublishError>, ghost sent: seq<Emission>)
    requires p.Valid() && p.Exact(others, n) && LanesExist(encoding, p.workers)
    requires forall h :: h in hosts && h.Exportable? ==> h.lane < p.workers
    requires clock.Valid() && |clock.lastCycle| == store.publishSlots && pageSize > 0
    requires store.Valid() && store.Sees(views) && Readable(views)
    modifies clock
    modifies p`reservations, p`pending, p`idle, p.queue`lanes, p.queue`size, p.queue`notify, p.queue`latestCycles
    ensures p.Valid() && p.Exact(others, n) && clock.Valid()
    ensures error.Some? ==> !error.value.CursorStuck? && !error.value.PageUnreadable?
    ensures error == Some(SlotUnknown) <==> slot >= store.publishSlots
    ensures error == Some(ZeroCycle) <==> slot < store.publishSlots && requested == ZERO_TIME
    ensures error == Some(NotReady) <==> slot < store.publishSlots && requested != ZERO_TIME && !ready
    ensures Refused(error) ==>
      clock.lastCycle == old(clock.lastCycle) && clock.lastRequested == old(clock.lastRequested) &&
      p.queue.lanes == old(p.queue.lanes) && p.reservations == old(p.reservations) && sent == []
    ensures !Refused(error) ==>
      && result.cycle == NormalizedCycle(old(clock.lastRequested[slot]), old(clock.lastCycle[slot]), requested)
      && (if Repeated(old(clock.lastRequested[slot]), requested) then result.cycle == old(clock.lastCycle[slot])
          else NextCycle(old(clock.lastCycle[slot]), requested, result.cycle))
      && clock.lastCycle == old(clock.lastCycle)[slot := result.cycle]
      && clock.lastRequested == old(clock.lastRequested)[slot := ToMillisecond(requested)]
      && result.current == MayBegin(old(p.queue.State()), slot, UnixMillis(result.cycle))
      && p.queue.lanes == Appended(Begun(old(p.queue.State()), slot, UnixMillis(result.cycle)).lanes, sent)
      && AllProper(sent, p.maxSamples, p.maxBytes, slot, UnixMillis(result.cycle))
    ensures error == Some(NoSnapshot) <==> !Refused(error) && result.current && snapshot.None?
    ensures WentThrough(error) && result.current ==>
      var offers := HostOffers(hosts) + ValueOffers(views, slot, result.cycle, snapshot.value, encoding);
      var start := ReservedAtStart(old(p.reservations), old(p.queue.State()), slot, result.cycle);
      && WentOut(result.page, sent, offers, start, p.maxBytes, 2 * p.workers)
      && p.reservations == ReservedAfter(start, offers, p.maxBytes)
      && result.valuesRead == |Due(views, slot, result.cycle)|
      && (error.Some? <==> result.page.oversized > 0)
    ensures WentThrough(error) && !result.current ==>
      error.None? && sent == [] && result.valuesRead == 0 && result.page == PageCounts(0, 0, 0, 0, 0)
  {
    hide LaneQueue.Valid, Publisher.Valid, Publisher.Exact, ValueCache.Valid, Due, HostOffers, ValueOffers, WentOut,
      ReservedAfter, AllProper, Appended, KeysIn, Begun, Coalesced, MayBegin, NormalizedCycle, NextCycle,
      ToMillisecond;
    result, sent := SlotResult(ZERO_TIME, false, 0, 0, 0, PageCounts(0, 0, 0, 0, 0)), [];
    if slot >= store.publishSlots {
      return result, Some(SlotUnknown), sent;
    }
    if requested == ZERO_TIME {
      return result, Some(ZeroCycle), sent;
    }
    if !ready {
      return result, Some(NotReady), sent;
    }
    var cycle := clock.NormalizeCycle(slot, requested);
    var current, coalesced := p.BeginCycle(slot, UnixMillis(cycle), others, n);
    result := SlotResult(cycle, current, coalesced, 0, 0, PageCounts(0, 0, 0, 0, 0));
    ghost var lanes := p.queue.lanes;
    AppendedNothing(lanes);
    NothingProper(p.maxSamples, p.maxBytes, slot, UnixMillis(cycle));
    if !current {
      return result, None, sent;
    }
    if snapshot.None? {
      return result, Some(NoSnapshot), sent;
    }
    ghost var start := p.reservations;
    var hostResult, hostError;
    hostResult, hostError, sent := ProcessHosts(p, slot, UnixMillis(cycle), hosts, pageSize, cancelled, others, n);
    result := result.(hostSeriesRead := hostResult.seriesRead, page := hostResult.page);
    if hostError.Some? {
      return result, hostError, sent;
    }
    var valuesRead, counts;
    ghost var more;
    valuesRead, counts, error, more :=
      ProcessValues(p, store, snapshot.value, slot, cycle, pageSize, encoding, cancelled, views, others, n);
    AppendedTwice(lanes, sent, more);
    ProperTogether(sent, more, p.maxSamples, p.maxBytes, slot, UnixMillis(cycle));
    if error.None? {
      WentOutTogether(result.page, sent, HostOffers(hosts), start, counts, more,
                      ValueOffers(views, slot, cycle, snapshot.value, encoding), p.maxBytes, 2 * p.workers);
    }
    sent := sent + more;
    result := result.(valuesRead := valuesRead, page := Merged(result.page, counts));
    if error.None? && result.page.oversized > 0 {
      error := Some(SampleTooLarge);
    }
  }

  /** Refused before anything was done. */
  predicate Refused(error: Option<PublishError>) {
    error.Some? && (error.value.SlotUnknown? || error.value.ZeroCycle? || error.value.NotReady?)
  }
}

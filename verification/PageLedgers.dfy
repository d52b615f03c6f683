/** The books of one page: which samples were taken, which of them still sit in open
    builders, and which have left in batches (internal/promwrap/publisher.go,
    pageBatcher). */
module PageLedgers {
  import opened BatchBuilders
  import opened LaneQueues
  import opened WireFormats

  /** A sample taken for one builder; builders are numbered lane by lane. */
  datatype Placement = Placement(index: nat, sample: Sample)

  /** A batch that was queued, and the samples it carries. */
  datatype Emission = Emission(index: nat, samples: seq<Sample>, batch: EncodedBatch)

  datatype Ledger = Ledger(open: seq<seq<Sample>>, sent: seq<Emission>, taken: seq<Placement>)

  function TakenFor(taken: seq<Placement>, index: nat): seq<Sample> {
    if taken == [] then
      []
    else
      var last := taken[|taken| - 1];
      TakenFor(taken[..|taken| - 1], index) + (if last.index == index then [last.sample] else [])
  }

  function SentFor(sent: seq<Emission>, index: nat): seq<Sample> {
    if sent == [] then
      []
    else
      var last := sent[|sent| - 1];
      SentFor(sent[..|sent| - 1], index) + (if last.index == index then last.samples else [])
  }

  function SamplesSent(sent: seq<Emission>): nat {
    if sent == [] then 0 else SamplesSent(sent[..|sent| - 1]) + |sent[|sent| - 1].samples|
  }

  function SamplesOpen(open: seq<seq<Sample>>): nat {
    if open == [] then 0 else SamplesOpen(open[..|open| - 1]) + |open[|open| - 1]|
  }

  /** The keys held by a list of batches or builders. */
  function Bag(lists: seq<seq<PublishKey>>): multiset<PublishKey> {
    if lists == [] then multiset{} else Bag(lists[..|lists| - 1]) + multiset(lists[|lists| - 1])
  }

  function OpenKeys(open: seq<seq<Sample>>): (lists: seq<seq<PublishKey>>)
    ensures |lists| == |open|
  {
    seq(|open|, i requires 0 <= i < |open| => KeysOf(open[i]))
  }

  /** For every builder, what left and what is still there is what was taken, in order. */
  ghost predicate Balanced(l: Ledger) {
    && (forall i :: 0 <= i < |l.taken| ==> l.taken[i].index < |l.open|)
    && (forall index :: 0 <= index < |l.open| ==>
          SentFor(l.sent, index) + l.open[index] == TakenFor(l.taken, index))
    && SamplesSent(l.sent) + SamplesOpen(l.open) == |l.taken|
  }

  function Take(l: Ledger, index: nat, sample: Sample): Ledger
    requires index < |l.open|
  {
    l.(open := l.open[index := l.open[index] + [sample]], taken := l.taken + [Placement(index, sample)])
  }

  function Emit(l: Ledger, index: nat, batch: EncodedBatch): Ledger
    requires index < |l.open|
  {
    l.(open := l.open[index := []], sent := l.sent + [Emission(index, l.open[index], batch)])
  }

  lemma {:induction false} SamplesOpenAfter(open: seq<seq<Sample>>, index: nat, samples: seq<Sample>)
    requires index < |open|
    ensures SamplesOpen(open[index := samples]) == SamplesOpen(open) - |open[index]| + |samples|
  {
    var n := |open| - 1;
    if index < n {
      SamplesOpenAfter(open[..n], index, samples);
      assert open[index := samples][..n] == open[..n][index := samples];
    } else {
      assert open[index := samples][..n] == open[..n];
    }
  }

  lemma {:induction false} BagAfter(lists: seq<seq<PublishKey>>, index: nat, keys: seq<PublishKey>)
    requires index < |lists|
    ensures multiset(lists[index]) <= Bag(lists)
    ensures Bag(lists[index := keys]) == Bag(lists) - multiset(lists[index]) + multiset(keys)
  {
    var n := |lists| - 1;
    if index < n {
      BagAfter(lists[..n], index, keys);
      assert lists[index := keys][..n] == lists[..n][index := keys];
    } else {
      assert lists[index := keys][..n] == lists[..n];
    }
  }

  lemma TakeBalances(l: Ledger, index: nat, sample: Sample)
    requires Balanced(l) && index < |l.open|
    ensures Balanced(Take(l, index, sample))
  {
    var next := Take(l, index, sample);
    SamplesOpenAfter(l.open, index, l.open[index] + [sample]);
    assert next.taken[..|l.taken|] == l.taken;
    forall i | 0 <= i < |next.open|
      ensures SentFor(next.sent, i) + next.open[i] == TakenFor(next.taken, i)
    {
      assert TakenFor(next.taken, i) == TakenFor(l.taken, i) + (if i == index then [sample] else []);
      if i == index {
        Regroup(SentFor(l.sent, i), l.open[i], [sample]);
      } else {
        assert TakenFor(l.taken, i) + [] == TakenFor(l.taken, i);
      }
    }
  }

  lemma Regroup(a: seq<Sample>, b: seq<Sample>, c: seq<Sample>)
    ensures a + (b + c) == a + b + c
  {
  }

  lemma EmitBalances(l: Ledger, index: nat, batch: EncodedBatch)
    requires Balanced(l) && index < |l.open|
    ensures Balanced(Emit(l, index, batch))
  {
    var next := Emit(l, index, batch);
    SamplesOpenAfter(l.open, index, []);
    assert next.sent[..|l.sent|] == l.sent;
    forall i | 0 <= i < |next.open|
      ensures SentFor(next.sent, i) + next.open[i] == TakenFor(next.taken, i)
    {
      assert SentFor(next.sent, i) == SentFor(l.sent, i) + (if i == index then l.open[i] else []);
      if i == index {
        assert SentFor(next.sent, i) + [] == SentFor(next.sent, i);
      } else {
        assert SentFor(l.sent, i) + [] == SentFor(l.sent, i);
      }
    }
  }

  lemma {:induction false} NothingOpen(open: seq<seq<Sample>>)
    requires forall i :: 0 <= i < |open| ==> open[i] == []
    ensures SamplesOpen(open) == 0 && Bag(OpenKeys(open)) == multiset{}
  {
    if open != [] {
      var n := |open| - 1;
      NothingOpen(open[..n]);
      assert OpenKeys(open)[..n] == OpenKeys(open[..n]);
    }
  }

  lemma OpenKeysAfter(open: seq<seq<Sample>>, index: nat, samples: seq<Sample>)
    requires index < |open|
    ensures multiset(KeysOf(open[index])) <= Bag(OpenKeys(open))
    ensures Bag(OpenKeys(open[index := samples]))
      == Bag(OpenKeys(open)) - multiset(KeysOf(open[index])) + multiset(KeysOf(samples))
  {
    BagAfter(OpenKeys(open), index, KeysOf(samples));
    assert OpenKeys(open[index := samples]) == OpenKeys(open)[index := KeysOf(samples)];
  }

  // ---------- What becomes of every value ----------

  /** One value as the batcher meets it: nothing to publish, or a sample for one builder. */
  datatype Offer = Missing | Given(index: nat, sample: Sample)

  datatype Fate = Skipped | Pending | Oversize | Taken

  /** What has been counted, what has been taken, and which keys are reserved. */
  datatype Books = Books(
    taken: seq<Placement>, skipped: nat, pending: nat, oversized: nat, reserved: set<PublishKey>)

  function NewBooks(reserved: set<PublishKey>): Books {
    Books([], 0, 0, 0, reserved)
  }

  function FateOf(offer: Offer, reserved: set<PublishKey>, maxBytes: nat): Fate {
    if offer.Missing? then Skipped
    else if offer.sample.key in reserved then Pending
    else if WireSize([offer.sample]) > maxBytes then Oversize
    else Taken
  }

  function Entered(books: Books, offer: Offer, maxBytes: nat): Books {
    match FateOf(offer, books.reserved, maxBytes)
    case Skipped => books.(skipped := books.skipped + 1)
    case Pending => books.(pending := books.pending + 1)
    case Oversize => books.(oversized := books.oversized + 1)
    case Taken => books.(taken := books.taken + [Placement(offer.index, offer.sample)],
                         reserved := books.reserved + {offer.sample.key})
  }

  function EnteredAll(books: Books, offers: seq<Offer>, maxBytes: nat): Books {
    if offers == [] then
      books
    else
      Entered(EnteredAll(books, offers[..|offers| - 1], maxBytes), offers[|offers| - 1], maxBytes)
  }

  lemma EnteredGiven(books: Books, index: nat, sample: Sample, maxBytes: nat)
    ensures var next := Entered(books, Given(index, sample), maxBytes);
            && (sample.key in books.reserved ==> next == books.(pending := books.pending + 1))
            && (sample.key !in books.reserved && WireSize([sample]) > maxBytes ==>
                  next == books.(oversized := books.oversized + 1))
            && (sample.key !in books.reserved && WireSize([sample]) <= maxBytes ==>
                  next == books.(taken := books.taken + [Placement(index, sample)],
                                 reserved := books.reserved + {sample.key}))
  {
    hide WireSize;
  }

  lemma EnteredNone(books: Books, maxBytes: nat)
    ensures EnteredAll(books, [], maxBytes) == books
  {
  }

  lemma EnteredSnoc(books: Books, offers: seq<Offer>, offer: Offer, maxBytes: nat)
    ensures EnteredAll(books, offers + [offer], maxBytes) ==
      Entered(EnteredAll(books, offers, maxBytes), offer, maxBytes)
  {
    assert (offers + [offer])[..|offers|] == offers;
  }

  /** Adding up the books of two stretches. */
  function Together(a: Books, b: Books): Books {
    Books(a.taken + b.taken, a.skipped + b.skipped, a.pending + b.pending, a.oversized + b.oversized, b.reserved)
  }

  lemma EnteredTogether(a: Books, b: Books, offer: Offer, maxBytes: nat)
    ensures Entered(Together(a, b), offer, maxBytes) == Together(a, Entered(b, offer, maxBytes))
  {
    hide WireSize;
    if FateOf(offer, b.reserved, maxBytes) == Taken {
      PlacedAfter(a.taken, b.taken, Placement(offer.index, offer.sample));
    }
  }

  lemma PlacedAfter(a: seq<Placement>, b: seq<Placement>, placement: Placement)
    ensures (a + b) + [placement] == a + (b + [placement])
  {
  }

  /** A list may be entered in stretches, each with books of its own that start from the
      keys the one before it left reserved. */
  lemma {:induction false} EnteredInStretches(reserved: set<PublishKey>, a: seq<Offer>, b: seq<Offer>, maxBytes: nat)
    ensures var first := EnteredAll(NewBooks(reserved), a, maxBytes);
            EnteredAll(NewBooks(reserved), a + b, maxBytes) ==
              Together(first, EnteredAll(NewBooks(first.reserved), b, maxBytes))
    decreases |b|
  {
    hide Entered;
    var first := EnteredAll(NewBooks(reserved), a, maxBytes);
    if b == [] {
      assert a + b == a;
      assert first.taken + [] == first.taken;
    } else {
      var n := |b| - 1;
      EnteredInStretches(reserved, a, b[..n], maxBytes);
      assert a + b == (a + b[..n]) + [b[n]] && b == b[..n] + [b[n]];
      EnteredSnoc(NewBooks(reserved), a + b[..n], b[n], maxBytes);
      EnteredSnoc(NewBooks(first.reserved), b[..n], b[n], maxBytes);
      EnteredTogether(first, EnteredAll(NewBooks(first.reserved), b[..n], maxBytes), b[n], maxBytes);
    }
  }

  // ---------- The same, value by value ----------

  predicate Fits(offer: Offer, maxBytes: nat) {
    offer.Given? && WireSize([offer.sample]) <= maxBytes
  }

  /** A key is reserved in the end if it was before, or if a sample with it fits a request. */
  ghost predicate Wanted(offers: seq<Offer>, maxBytes: nat, key: PublishKey) {
    exists j :: 0 <= j < |offers| && Fits(offers[j], maxBytes) && offers[j].sample.key == key
  }

  lemma {:induction false} ReservedExact(reserved: set<PublishKey>, offers: seq<Offer>, maxBytes: nat, key: PublishKey)
    ensures key in EnteredAll(NewBooks(reserved), offers, maxBytes).reserved <==>
      key in reserved || Wanted(offers, maxBytes, key)
  {
    hide WireSize;
    if offers != [] {
      var n := |offers| - 1;
      var shorter := offers[..n];
      ReservedExact(reserved, shorter, maxBytes, key);
      WantedSnoc(offers, maxBytes, key);
    }
  }

  lemma WantedSnoc(offers: seq<Offer>, maxBytes: nat, key: PublishKey)
    requires offers != []
    ensures var n := |offers| - 1;
            Wanted(offers, maxBytes, key) <==>
              Wanted(offers[..n], maxBytes, key) || (Fits(offers[n], maxBytes) && offers[n].sample.key == key)
  {
    hide WireSize;
    var n := |offers| - 1;
    if Wanted(offers[..n], maxBytes, key) {
      var j :| 0 <= j < n && Fits(offers[..n][j], maxBytes) && offers[..n][j].sample.key == key;
      assert Fits(offers[j], maxBytes) && offers[j].sample.key == key;
    }
    if j :| 0 <= j < n && Fits(offers[j], maxBytes) && offers[j].sample.key == key {
      assert Fits(offers[..n][j], maxBytes) && offers[..n][j].sample.key == key;
    }
  }

  /** What becomes of value `i`: it is skipped if there is nothing to publish; it is pending
      if its key was reserved before, or by an earlier value that fits; it is oversized if it
      does not fit a request of its own; otherwise it is taken. */
  ghost function FateAt(reserved: set<PublishKey>, offers: seq<Offer>, maxBytes: nat, i: nat): Fate
    requires i < |offers|
  {
    if offers[i].Missing? then Skipped
    else if offers[i].sample.key in reserved || Wanted(offers[..i], maxBytes, offers[i].sample.key) then Pending
    else if !Fits(offers[i], maxBytes) then Oversize
    else Taken
  }

  ghost function With(fate: Fate, reserved: set<PublishKey>, offers: seq<Offer>, maxBytes: nat): set<nat> {
    set i: nat | i < |offers| && FateAt(reserved, offers, maxBytes, i) == fate
  }

  lemma FateAtPrefix(reserved: set<PublishKey>, offers: seq<Offer>, maxBytes: nat, n: nat, i: nat)
    requires i < n <= |offers|
    ensures FateAt(reserved, offers[..n], maxBytes, i) == FateAt(reserved, offers, maxBytes, i)
  {
    assert offers[..n][..i] == offers[..i];
  }

  lemma WithSnoc(fate: Fate, reserved: set<PublishKey>, offers: seq<Offer>, maxBytes: nat)
    requires offers != []
    ensures var n := |offers| - 1;
            With(fate, reserved, offers, maxBytes) == With(fate, reserved, offers[..n], maxBytes) +
              (if FateAt(reserved, offers, maxBytes, n) == fate then {n} else {})
    ensures |offers| - 1 !in With(fate, reserved, offers[..|offers| - 1], maxBytes)
  {
    hide FateAt;
    var n := |offers| - 1;
    forall i: nat | i < n
      ensures FateAt(reserved, offers[..n], maxBytes, i) == FateAt(reserved, offers, maxBytes, i)
    {
      FateAtPrefix(reserved, offers, maxBytes, n, i);
    }
  }

  lemma LastFate(reserved: set<PublishKey>, offers: seq<Offer>, maxBytes: nat)
    requires offers != []
    ensures var n := |offers| - 1;
            FateOf(offers[n], EnteredAll(NewBooks(reserved), offers[..n], maxBytes).reserved, maxBytes)
              == FateAt(reserved, offers, maxBytes, n)
  {
    hide WireSize, EnteredAll, Wanted;
    var n := |offers| - 1;
    if offers[n].Given? {
      ReservedExact(reserved, offers[..n], maxBytes, offers[n].sample.key);
    }
  }

  /** The counters are the numbers of values with each fate, and together the number of
      values. */
  lemma {:induction false} CountsExact(reserved: set<PublishKey>, offers: seq<Offer>, maxBytes: nat)
    ensures var books := EnteredAll(NewBooks(reserved), offers, maxBytes);
            && books.skipped == |With(Skipped, reserved, offers, maxBytes)|
            && books.pending == |With(Pending, reserved, offers, maxBytes)|
            && books.oversized == |With(Oversize, reserved, offers, maxBytes)|
            && |books.taken| == |With(Taken, reserved, offers, maxBytes)|
            && books.skipped + books.pending + books.oversized + |books.taken| == |offers|
  {
    hide EnteredAll, Entered, FateOf, FateAt, With;
    if offers == [] {
      EnteredNone(NewBooks(reserved), maxBytes);
      WithNone(reserved, maxBytes);
    } else {
      var n := |offers| - 1;
      CountsExact(reserved, offers[..n], maxBytes);
      LastFate(reserved, offers, maxBytes);
      assert offers == offers[..n] + [offers[n]];
      EnteredSnoc(NewBooks(reserved), offers[..n], offers[n], maxBytes);
      EnteredCounts(EnteredAll(NewBooks(reserved), offers[..n], maxBytes), offers[n], maxBytes);
      OneMore(Skipped, reserved, offers, maxBytes);
      OneMore(Pending, reserved, offers, maxBytes);
      OneMore(Oversize, reserved, offers, maxBytes);
      OneMore(Taken, reserved, offers, maxBytes);
    }
  }

  lemma WithNone(reserved: set<PublishKey>, maxBytes: nat)
    ensures forall fate :: With(fate, reserved, [], maxBytes) == {}
  {
  }

  lemma EnteredCounts(books: Books, offer: Offer, maxBytes: nat)
    ensures var next, fate := Entered(books, offer, maxBytes), FateOf(offer, books.reserved, maxBytes);
            && next.skipped == books.skipped + (if fate == Skipped then 1 else 0)
            && next.pending == books.pending + (if fate == Pending then 1 else 0)
            && next.oversized == books.oversized + (if fate == Oversize then 1 else 0)
            && |next.taken| == |books.taken| + (if fate == Taken then 1 else 0)
            && (fate == Skipped || fate == Pending || fate == Oversize || fate == Taken)
  {
    hide WireSize;
  }

  lemma OneMore(fate: Fate, reserved: set<PublishKey>, offers: seq<Offer>, maxBytes: nat)
    requires offers != []
    ensures var n := |offers| - 1;
            |With(fate, reserved, offers, maxBytes)| == |With(fate, reserved, offers[..n], maxBytes)| +
              (if FateAt(reserved, offers, maxBytes, n) == fate then 1 else 0)
  {
    WithSnoc(fate, reserved, offers, maxBytes);
    hide With, FateAt;
  }

  /** What is taken are the samples with that fate, each in its builder, in the order of the
      values. */
  ghost predicate TakenFrom(taken: seq<Placement>, positions: seq<nat>, offers: seq<Offer>, chosen: set<nat>) {
    && |positions| == |taken|
    && (forall i, j :: 0 <= i < j < |positions| ==> positions[i] < positions[j])
    && (forall i :: i in positions <==> i in chosen)
    && (forall k :: 0 <= k < |taken| ==>
          positions[k] < |offers| && offers[positions[k]] == Given(taken[k].index, taken[k].sample))
  }

  lemma {:induction false} TakenExact(reserved: set<PublishKey>, offers: seq<Offer>, maxBytes: nat)
    returns (positions: seq<nat>)
    ensures TakenFrom(EnteredAll(NewBooks(reserved), offers, maxBytes).taken, positions, offers,
                      With(Taken, reserved, offers, maxBytes))
  {
    if offers == [] {
      positions := [];
    } else {
      var n := |offers| - 1;
      var before := TakenExact(reserved, offers[..n], maxBytes);
      LastFate(reserved, offers, maxBytes);
      WithSnoc(Taken, reserved, offers, maxBytes);
      var taken := EnteredAll(NewBooks(reserved), offers[..n], maxBytes).taken;
      var chosen := With(Taken, reserved, offers[..n], maxBytes);
      if FateAt(reserved, offers, maxBytes, n) == Taken {
        TakenMore(taken, before, offers, chosen);
        positions := before + [n];
      } else {
        TakenSame(taken, before, offers, chosen);
        positions := before;
      }
      hide FateOf, FateAt, With, WireSize, TakenFrom;
    }
  }

  lemma TakenSame(taken: seq<Placement>, positions: seq<nat>, offers: seq<Offer>, chosen: set<nat>)
    requires offers != [] && TakenFrom(taken, positions, offers[..|offers| - 1], chosen)
    ensures TakenFrom(taken, positions, offers, chosen) && TakenFrom(taken, positions, offers, chosen + {})
  {
    assert chosen + {} == chosen;
  }

  lemma TakenMore(taken: seq<Placement>, positions: seq<nat>, offers: seq<Offer>, chosen: set<nat>)
    requires offers != [] && offers[|offers| - 1].Given?
    requires TakenFrom(taken, positions, offers[..|offers| - 1], chosen) && forall i :: i in chosen ==> i < |offers| - 1
    ensures var last := offers[|offers| - 1];
            TakenFrom(taken + [Placement(last.index, last.sample)], positions + [|offers| - 1], offers,
                      chosen + {|offers| - 1})
  {
    assert forall k :: 0 <= k < |positions| ==> positions[k] in positions;
  }

  // ---------- Several pages ----------

  /** For every builder, what was sent is what was taken, in order. */
  ghost predicate AllSent(sent: seq<Emission>, taken: seq<Placement>, builders: nat) {
    forall index :: 0 <= index < builders ==> SentFor(sent, index) == TakenFor(taken, index)
  }

  lemma {:induction false} TakenForAppend(a: seq<Placement>, b: seq<Placement>, index: nat)
    ensures TakenFor(a + b, index) == TakenFor(a, index) + TakenFor(b, index)
    decreases |b|
  {
    if b == [] {
      assert a + b == a;
    } else {
      var n := |b| - 1;
      TakenForAppend(a, b[..n], index);
      assert (a + b)[..|a + b| - 1] == a + b[..n];
      Regroup(TakenFor(a, index), TakenFor(b[..n], index), if b[n].index == index then [b[n].sample] else []);
    }
  }

  lemma {:induction false} SentForAppend(a: seq<Emission>, b: seq<Emission>, index: nat)
    ensures SentFor(a + b, index) == SentFor(a, index) + SentFor(b, index)
    decreases |b|
  {
    if b == [] {
      assert a + b == a;
    } else {
      var n := |b| - 1;
      SentForAppend(a, b[..n], index);
      assert (a + b)[..|a + b| - 1] == a + b[..n];
      Regroup(SentFor(a, index), SentFor(b[..n], index), if b[n].index == index then b[n].samples else []);
    }
  }

  lemma AllSentAppend(a: seq<Emission>, b: seq<Emission>, taken: seq<Placement>, more: seq<Placement>, builders: nat)
    requires AllSent(a, taken, builders) && AllSent(b, more, builders)
    ensures AllSent(a + b, taken + more, builders)
  {
    hide SentFor, TakenFor;
    forall index | 0 <= index < builders
      ensures SentFor(a + b, index) == TakenFor(taken + more, index)
    {
      SentForAppend(a, b, index);
      TakenForAppend(taken, more, index);
    }
  }
}

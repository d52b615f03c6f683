/** Paging over the shards' scan logs with stable cursors. A page locks one shard at
    a time, so every shard visit of every page may see a different state; `views`
    holds what each visit of one page saw
    (internal/cache/value_cache.go, ReadPublishPage and ReadScrapePage). */
module PagedScans {
  import opened Shards
  import opened ValueStates

  datatype Cursor = Cursor(shard: nat, sequence: nat)

  const START: Cursor := Cursor(0, 0)

  /** A returned state, with the shard it was read from. Shard and scan sequence
      identify one incarnation of one item. */
  datatype Hit = Hit(shard: nat, state: ValueState)

  datatype Page = Page(hits: seq<Hit>, next: Cursor, done: bool)

  type Eligibility = ValueState -> bool

  /** Cursors and incarnations are ordered by shard, then by sequence. */
  predicate Before(a: Cursor, b: Cursor) {
    a.shard < b.shard || (a.shard == b.shard && a.sequence < b.sequence)
  }

  function Position(hit: Hit): Cursor {
    Cursor(hit.shard, hit.state.scanSequence)
  }

  predicate Readable(views: seq<View>) {
    forall k :: 0 <= k < |views| ==> WellFormed(views[k])
  }

  /** A visit sees what one flat map holds of its shard. */
  ghost predicate ShowsShard(view: View, flat: map<string, ValueState>, place: string -> nat, shard: nat) {
    && (forall id :: id in view.values <==> id in flat && place(id) == shard)
    && (forall id :: id in view.values ==> view.values[id] == flat[id])
  }

  /** The live, eligible states logged behind `after`, in log order. */
  function Matches(view: View, shard: nat, eligible: Eligibility, after: nat, upTo: nat): seq<Hit>
    requires upTo <= |view.order|
  {
    if upTo == 0 then
      []
    else
      var key := view.order[upTo - 1];
      Matches(view, shard, eligible, after, upTo - 1) +
      (if key.sequence > after && Live(view.values, key) && eligible(view.values[key.itemID])
       then [Hit(shard, view.values[key.itemID])] else [])
  }

  function ShardMatches(view: View, shard: nat, eligible: Eligibility, after: nat): seq<Hit> {
    Matches(view, shard, eligible, after, |view.order|)
  }

  /** One page, read from a shard and a sequence onwards: shard by shard until the
      limit is met or the shards run out. */
  function ReadFrom(views: seq<View>, eligible: Eligibility, shard: nat, after: nat, limit: nat): Page
    requires shard <= |views| && limit > 0
    decreases |views| - shard
  {
    if shard == |views| then
      Page([], Cursor(shard, after), true)
    else
      var found := ShardMatches(views[shard], shard, eligible, after);
      if |found| >= limit then
        Page(found[..limit], Position(found[limit - 1]), false)
      else
        var rest := ReadFrom(views, eligible, shard + 1, 0, limit - |found|);
        Page(found + rest.hits, rest.next, rest.done)
  }

  /** A page that starts with hits already collected. */
  function Continue(hits: seq<Hit>, rest: Page): Page {
    Page(hits + rest.hits, rest.next, rest.done)
  }

  lemma ContinueNothing(page: Page)
    ensures Continue([], page) == page
  {
  }

  lemma ContinueTwice(a: seq<Hit>, b: seq<Hit>, page: Page)
    ensures Continue(a + b, page) == Continue(a, Continue(b, page))
  {
  }

  /** One shard visit of a page. */
  lemma ReadStep(views: seq<View>, eligible: Eligibility, shard: nat, after: nat, limit: nat)
    requires shard < |views| && limit > 0
    ensures var found := ShardMatches(views[shard], shard, eligible, after);
            ReadFrom(views, eligible, shard, after, limit) ==
              if |found| >= limit then Page(found[..limit], Position(found[limit - 1]), false)
              else Continue(found, ReadFrom(views, eligible, shard + 1, 0, limit - |found|))
  {
  }

  lemma ReadEnd(views: seq<View>, eligible: Eligibility, after: nat, limit: nat)
    requires limit > 0
    ensures ReadFrom(views, eligible, |views|, after, limit) == Page([], Cursor(|views|, after), true)
  {
  }

  /** Everything behind a position, without any limit. */
  function AllFrom(views: seq<View>, eligible: Eligibility, shard: nat, after: nat): seq<Hit>
    requires shard <= |views|
    decreases |views| - shard
  {
    if shard == |views| then
      []
    else
      ShardMatches(views[shard], shard, eligible, after) + AllFrom(views, eligible, shard + 1, 0)
  }

  // ---------- One shard ----------

  ghost predicate Ordered(hits: seq<Hit>) {
    forall i, j :: 0 <= i < j < |hits| ==> Before(Position(hits[i]), Position(hits[j]))
  }

  lemma {:induction false} MatchesSound(view: View, shard: nat, eligible: Eligibility, after: nat, upTo: nat)
    requires WellFormed(view) && upTo <= |view.order|
    ensures Ordered(Matches(view, shard, eligible, after, upTo))
    ensures forall hit :: hit in Matches(view, shard, eligible, after, upTo) ==>
      && hit.shard == shard && after < hit.state.scanSequence && eligible(hit.state)
      && ScanKey(hit.state.scanSequence, hit.state.itemID) in view.order[..upTo]
  {
    if upTo > 0 {
      MatchesSound(view, shard, eligible, after, upTo - 1);
      var shorter := Matches(view, shard, eligible, after, upTo - 1);
      var key := view.order[upTo - 1];
      assert view.order[..upTo] == view.order[..upTo - 1] + [key];
      forall i | 0 <= i < |shorter|
        ensures shorter[i].state.scanSequence < key.sequence && shorter[i].shard == shard
      {
        assert shorter[i] in shorter;
      }
    }
  }

  lemma {:induction false} MatchesComplete(view: View, shard: nat, eligible: Eligibility, after: nat, upTo: nat,
                                           state: ValueState)
    requires WellFormed(view) && upTo <= |view.order|
    requires state.itemID in view.values && view.values[state.itemID] == state
    requires after < state.scanSequence && eligible(state)
    requires ScanKey(state.scanSequence, state.itemID) in view.order[..upTo]
    ensures Hit(shard, state) in Matches(view, shard, eligible, after, upTo)
  {
    var key := view.order[upTo - 1];
    assert view.order[..upTo] == view.order[..upTo - 1] + [key];
    if key != ScanKey(state.scanSequence, state.itemID) {
      MatchesComplete(view, shard, eligible, after, upTo - 1, state);
    }
  }

  lemma MatchesNone(view: View, shard: nat, eligible: Eligibility, after: nat)
    ensures Matches(view, shard, eligible, after, 0) == []
  {
  }

  lemma MatchesSnoc(view: View, shard: nat, eligible: Eligibility, after: nat, upTo: nat)
    requires 0 < upTo <= |view.order|
    ensures var key := view.order[upTo - 1];
            Matches(view, shard, eligible, after, upTo) ==
              Matches(view, shard, eligible, after, upTo - 1) +
              (if key.sequence > after && Live(view.values, key) && eligible(view.values[key.itemID])
               then [Hit(shard, view.values[key.itemID])] else [])
    ensures var key := view.order[upTo - 1];
            Live(view.values, key) ==> view.values[key.itemID].scanSequence == key.sequence
  {
  }

  lemma LogIncreases(view: View, upTo: nat, hit: Hit)
    requires WellFormed(view) && 0 < upTo <= |view.order|
    requires ScanKey(hit.state.scanSequence, hit.state.itemID) in view.order[..upTo - 1]
    ensures hit.state.scanSequence < view.order[upTo - 1].sequence
  {
  }

  lemma LogAscends(view: View, upTo: nat)
    requires WellFormed(view) && 0 < upTo <= |view.order|
    ensures forall k :: 0 <= k < upTo ==> view.order[k].sequence <= view.order[upTo - 1].sequence
  {
  }

  /** Reading on from a hit yields exactly the hits that came after it. */
  lemma {:induction false} MatchesResume(view: View, shard: nat, eligible: Eligibility, after: nat, upTo: nat, i: nat)
    requires WellFormed(view) && upTo <= |view.order|
    requires i < |Matches(view, shard, eligible, after, upTo)|
    ensures var found := Matches(view, shard, eligible, after, upTo);
            Matches(view, shard, eligible, found[i].state.scanSequence, upTo) == found[i + 1..]
  {
    hide Matches, WellFormed;
    var found := Matches(view, shard, eligible, after, upTo);
    MatchesSound(view, shard, eligible, after, upTo);
    if upTo == 0 {
      MatchesNone(view, shard, eligible, after);
      assert false;
    }
    var shorter := Matches(view, shard, eligible, after, upTo - 1);
    var key := view.order[upTo - 1];
    MatchesSnoc(view, shard, eligible, after, upTo);
    if i < |shorter| {
      MatchesResume(view, shard, eligible, after, upTo - 1, i);
      assert found[i] == shorter[i] && shorter[i] in shorter;
      MatchesSound(view, shard, eligible, after, upTo - 1);
      LogIncreases(view, upTo, shorter[i]);
      MatchesSnoc(view, shard, eligible, found[i].state.scanSequence, upTo);
      assert found[i + 1..] == shorter[i + 1..] + found[|shorter|..];
    } else {
      assert found[i].state.scanSequence == key.sequence;
      LogAscends(view, upTo);
      NothingBehind(view, shard, eligible, key.sequence, upTo);
      assert found[i + 1..] == [];
    }
  }

  lemma {:induction false} NothingBehind(view: View, shard: nat, eligible: Eligibility, after: nat, upTo: nat)
    requires upTo <= |view.order|
    requires forall k :: 0 <= k < upTo ==> view.order[k].sequence <= after
    ensures Matches(view, shard, eligible, after, upTo) == []
  {
    if upTo > 0 {
      NothingBehind(view, shard, eligible, after, upTo - 1);
    }
  }

  /** What one more record adds to the matches. */
  lemma MatchStep(view: View, shard: nat, eligible: Eligibility, after: nat, i: nat)
    requires i < |view.order| && view.order[i].sequence > after
    ensures var key := view.order[i];
            Matches(view, shard, eligible, after, i + 1) == Matches(view, shard, eligible, after, i) +
              (if Live(view.values, key) && eligible(view.values[key.itemID])
               then [Hit(shard, view.values[key.itemID])] else [])
  {
  }

  /** The matches among the first records are the first matches. */
  lemma {:induction false} MatchesPrefix(view: View, shard: nat, eligible: Eligibility, after: nat, i: nat, upTo: nat)
    requires i <= upTo <= |view.order|
    ensures Matches(view, shard, eligible, after, i) <= Matches(view, shard, eligible, after, upTo)
  {
    if i < upTo {
      MatchesPrefix(view, shard, eligible, after, i, upTo - 1);
    }
  }

  // ---------- One page ----------

  /** A page's hits lie strictly behind its cursor and at or before the next one, in
      strictly increasing order. A page that is not the last one moves the cursor. */
  lemma {:induction false} PageSound(views: seq<View>, eligible: Eligibility, shard: nat, after: nat, limit: nat)
    requires Readable(views) && shard <= |views| && limit > 0
    ensures var page := ReadFrom(views, eligible, shard, after, limit);
            && |page.hits| <= limit
            && Ordered(page.hits)
            && (forall i :: 0 <= i < |page.hits| ==>
                  && Before(Cursor(shard, after), Position(page.hits[i]))
                  && !Before(page.next, Position(page.hits[i])))
            && !Before(page.next, Cursor(shard, after))
            && (page.done ==> page.next.shard == |views|)
            && (!page.done ==> Before(Cursor(shard, after), page.next) && page.next.shard < |views|)
    decreases |views| - shard
  {
    hide ReadFrom, Matches, WellFormed;
    if shard == |views| {
      ReadEnd(views, eligible, after, limit);
    } else {
      var found := ShardMatches(views[shard], shard, eligible, after);
      MatchesSound(views[shard], shard, eligible, after, |views[shard].order|);
      assert forall i :: 0 <= i < |found| ==> found[i] in found;
      ReadStep(views, eligible, shard, after, limit);
      if |found| < limit {
        var room := limit - |found|;
        PageSound(views, eligible, shard + 1, 0, room);
        var rest := ReadFrom(views, eligible, shard + 1, 0, room);
        forall i | 0 <= i < |rest.hits|
          ensures rest.hits[i].shard > shard
        {
          assert Before(Cursor(shard + 1, 0), Position(rest.hits[i]));
        }
        assert Ordered(found + rest.hits);
      }
    }
  }

  lemma {:induction false} MatchesFromView(view: View, shard: nat, eligible: Eligibility, after: nat, upTo: nat)
    requires WellFormed(view) && upTo <= |view.order|
    ensures forall hit :: hit in Matches(view, shard, eligible, after, upTo) ==>
      && hit.shard == shard && hit.state.itemID in view.values && view.values[hit.state.itemID] == hit.state
  {
    if upTo > 0 {
      MatchesFromView(view, shard, eligible, after, upTo - 1);
    }
  }

  lemma {:induction false} PageFromViews(views: seq<View>, eligible: Eligibility, shard: nat, after: nat, limit: nat)
    requires Readable(views) && shard <= |views| && limit > 0
    ensures forall hit :: hit in ReadFrom(views, eligible, shard, after, limit).hits ==>
      && hit.shard < |views|
      && hit.state.itemID in views[hit.shard].values && views[hit.shard].values[hit.state.itemID] == hit.state
    decreases |views| - shard
  {
    hide ReadFrom, Matches, WellFormed;
    if shard == |views| {
      ReadEnd(views, eligible, after, limit);
    } else {
      var found := ShardMatches(views[shard], shard, eligible, after);
      MatchesFromView(views[shard], shard, eligible, after, |views[shard].order|);
      ReadStep(views, eligible, shard, after, limit);
      if |found| < limit {
        PageFromViews(views, eligible, shard + 1, 0, limit - |found|);
      }
    }
  }

  /** One page lists an item at most once, though the cache may change between its shard
      visits: an item lives in one shard, and a visit sees one state of it. */
  lemma PageListsItemOnce(views: seq<View>, eligible: Eligibility, shard: nat, after: nat, limit: nat,
                          shardOf: string -> nat, i: nat, j: nat)
    requires Readable(views) && shard <= |views| && limit > 0
    requires forall k, id :: 0 <= k < |views| && id in views[k].values ==> shardOf(id) == k
    requires i < j < |ReadFrom(views, eligible, shard, after, limit).hits|
    ensures var hits := ReadFrom(views, eligible, shard, after, limit).hits;
            hits[i].state.itemID != hits[j].state.itemID
  {
    hide ReadFrom, Readable;
    var hits := ReadFrom(views, eligible, shard, after, limit).hits;
    PageFromViews(views, eligible, shard, after, limit);
    PageSound(views, eligible, shard, after, limit);
    assert hits[i] in hits && hits[j] in hits;
    assert Before(Position(hits[i]), Position(hits[j]));
    assert shardOf(hits[i].state.itemID) == hits[i].shard && shardOf(hits[j].state.itemID) == hits[j].shard;
  }

  /** Whatever was live and eligible between a page's cursor and its next one is on
      the page. */
  lemma {:induction false} PageComplete(views: seq<View>, eligible: Eligibility, shard: nat, after: nat, limit: nat,
                                        hit: Hit)
    requires Readable(views) && shard <= |views| && limit > 0
    requires hit.shard < |views| && eligible(hit.state)
    requires hit.state.itemID in views[hit.shard].values && views[hit.shard].values[hit.state.itemID] == hit.state
    requires Before(Cursor(shard, after), Position(hit))
    requires !Before(ReadFrom(views, eligible, shard, after, limit).next, Position(hit))
    ensures hit in ReadFrom(views, eligible, shard, after, limit).hits
    decreases |views| - shard
  {
    var view := views[shard];
    var found := ShardMatches(view, shard, eligible, after);
    MatchesSound(view, shard, eligible, after, |view.order|);
    if hit.shard == shard {
      assert view.order[..|view.order|] == view.order;
      MatchesComplete(view, shard, eligible, after, |view.order|, hit.state);
      var i :| 0 <= i < |found| && found[i] == hit;
      if |found| >= limit && i >= limit {
        assert Before(Position(found[limit - 1]), Position(found[i]));
      }
    } else {
      assert ScanKey(hit.state.scanSequence, hit.state.itemID) in views[hit.shard].order;
      PageComplete(views, eligible, shard + 1, 0, limit - |found|, hit);
    }
  }

  /** A page holds exactly the eligible states of its stretch. */
  lemma PageExactly(views: seq<View>, eligible: Eligibility, shard: nat, after: nat, limit: nat, hit: Hit)
    requires Readable(views) && shard <= |views| && limit > 0 && hit.shard < |views|
    requires hit.state.itemID in views[hit.shard].values && views[hit.shard].values[hit.state.itemID] == hit.state
    ensures var page := ReadFrom(views, eligible, shard, after, limit);
            hit in page.hits <==>
              eligible(hit.state) && Before(Cursor(shard, after), Position(hit)) && !Before(page.next, Position(hit))
  {
    hide ReadFrom, Readable, Before;
    var page := ReadFrom(views, eligible, shard, after, limit);
    if hit in page.hits {
      PageSound(views, eligible, shard, after, limit);
      PageEligible(views, eligible, shard, after, limit, hit);
    }
    if eligible(hit.state) && Before(Cursor(shard, after), Position(hit)) && !Before(page.next, Position(hit)) {
      PageComplete(views, eligible, shard, after, limit, hit);
    }
  }

  lemma {:induction false} PageEligible(views: seq<View>, eligible: Eligibility, shard: nat, after: nat, limit: nat,
                                        hit: Hit)
    requires Readable(views) && shard <= |views| && limit > 0
    requires hit in ReadFrom(views, eligible, shard, after, limit).hits
    ensures eligible(hit.state)
    decreases |views| - shard
  {
    hide ReadFrom, Matches, WellFormed;
    if shard == |views| {
      ReadEnd(views, eligible, after, limit);
    } else {
      var found := ShardMatches(views[shard], shard, eligible, after);
      MatchesSound(views[shard], shard, eligible, after, |views[shard].order|);
      ReadStep(views, eligible, shard, after, limit);
      if hit !in found {
        PageEligible(views, eligible, shard + 1, 0, limit - |found|, hit);
      }
    }
  }

  /** With unchanging shards a page is a prefix of what is left, and the next cursor
      leads to the rest. */
  lemma {:induction false} PageTakesPrefix(views: seq<View>, eligible: Eligibility, shard: nat, after: nat, limit: nat)
    requires Readable(views) && shard <= |views| && limit > 0
    ensures var page := ReadFrom(views, eligible, shard, after, limit);
            && page.next.shard <= |views|
            && AllFrom(views, eligible, shard, after) ==
                 page.hits + AllFrom(views, eligible, page.next.shard, page.next.sequence)
            && (!page.done ==> |page.hits| == limit)
    decreases |views| - shard
  {
    hide Matches, WellFormed;
    if shard < |views| {
      var found := ShardMatches(views[shard], shard, eligible, after);
      if |found| >= limit {
        StopsHere(views, eligible, shard, after, limit);
      } else {
        var room := limit - |found|;
        PageTakesPrefix(views, eligible, shard + 1, 0, room);
        var rest := ReadFrom(views, eligible, shard + 1, 0, room);
        Associate(found, rest.hits, AllFrom(views, eligible, rest.next.shard, rest.next.sequence));
      }
    }
  }

  lemma StopsHere(views: seq<View>, eligible: Eligibility, shard: nat, after: nat, limit: nat)
    requires Readable(views) && shard < |views|
    requires 0 < limit <= |ShardMatches(views[shard], shard, eligible, after)|
    ensures var found := ShardMatches(views[shard], shard, eligible, after);
            AllFrom(views, eligible, shard, after)
              == found[..limit] + AllFrom(views, eligible, shard, found[limit - 1].state.scanSequence)
    ensures ShardMatches(views[shard], shard, eligible, after)[limit - 1].shard == shard
  {
    var found := ShardMatches(views[shard], shard, eligible, after);
    MatchesSound(views[shard], shard, eligible, after, |views[shard].order|);
    assert found[limit - 1] in found;
    MatchesResume(views[shard], shard, eligible, after, |views[shard].order|, limit - 1);
    Associate(found[..limit], found[limit..], AllFrom(views, eligible, shard + 1, 0));
    assert found == found[..limit] + found[limit..];
  }

  lemma Associate(a: seq<Hit>, b: seq<Hit>, c: seq<Hit>)
    ensures a + (b + c) == (a + b) + c
  {
  }

  // ---------- A whole scan ----------

  /** One page read: the state each shard visit saw, where the page started, how much
      it could return, and what it did return. */
  datatype PageRead = PageRead(views: seq<View>, cursor: Cursor, limit: nat, page: Page)

  ghost predicate Proper(read: PageRead, eligible: Eligibility, shardCount: nat) {
    && Readable(read.views) && |read.views| == shardCount
    && read.limit > 0 && read.cursor.shard <= shardCount
    && read.page == ReadFrom(read.views, eligible, read.cursor.shard, read.cursor.sequence, read.limit)
  }

  predicate Follows(prior: PageRead, next: PageRead) {
    !prior.page.done && next.cursor == prior.page.next
  }

  /** A client follows `next` from page to page. Nothing relates what different pages
      saw: inserts, deletes and compactions may have happened in between. */
  ghost predicate Chained(pages: seq<PageRead>, eligible: Eligibility, shardCount: nat) {
    && (forall i :: 0 <= i < |pages| ==> Proper(pages[i], eligible, shardCount))
    && (forall i, j :: 0 <= i && j == i + 1 && j < |pages| ==> Follows(pages[i], pages[j]))
  }

  function Collected(pages: seq<PageRead>): seq<Hit> {
    if pages == [] then [] else Collected(pages[..|pages| - 1]) + pages[|pages| - 1].page.hits
  }

  lemma ChainPrefix(pages: seq<PageRead>, eligible: Eligibility, shardCount: nat)
    requires Chained(pages, eligible, shardCount) && |pages| > 1
    ensures Chained(pages[..|pages| - 1], eligible, shardCount)
    ensures Follows(pages[|pages| - 2], pages[|pages| - 1])
  {
  }

  /** A scan under arbitrary mutation returns no incarnation twice: the collected
      positions strictly increase. */
  lemma {:induction false} ScanNeverRepeats(pages: seq<PageRead>, eligible: Eligibility, shardCount: nat)
    requires Chained(pages, eligible, shardCount) && pages != []
    ensures Ordered(Collected(pages))
    ensures forall i :: 0 <= i < |Collected(pages)| ==>
      !Before(pages[|pages| - 1].page.next, Position(Collected(pages)[i]))
  {
    var n := |pages| - 1;
    var last := pages[n];
    PageSound(last.views, eligible, last.cursor.shard, last.cursor.sequence, last.limit);
    if n > 0 {
      ChainPrefix(pages, eligible, shardCount);
      ScanNeverRepeats(pages[..n], eligible, shardCount);
      OrderedAppend(Collected(pages[..n]), last);
    } else {
      assert pages[..0] == [];
      OrderedAppend([], last);
    }
  }

  lemma OrderedAppend(earlier: seq<Hit>, last: PageRead)
    requires Ordered(earlier)
    requires forall i :: 0 <= i < |earlier| ==> !Before(last.cursor, Position(earlier[i]))
    requires Ordered(last.page.hits) && !Before(last.page.next, last.cursor)
    requires forall i :: 0 <= i < |last.page.hits| ==>
      Before(last.cursor, Position(last.page.hits[i])) && !Before(last.page.next, Position(last.page.hits[i]))
    ensures Ordered(earlier + last.page.hits)
    ensures forall i :: 0 <= i < |earlier + last.page.hits| ==>
      !Before(last.page.next, Position((earlier + last.page.hits)[i]))
  {
  }

  /** What a visit can see of an incarnation: the item is live under this scan
      sequence and eligible, whatever else about its state has changed. */
  ghost predicate Visible(view: View, itemID: string, sequence: nat, eligible: Eligibility) {
    itemID in view.values && view.values[itemID].scanSequence == sequence && eligible(view.values[itemID])
  }

  ghost predicate AlwaysVisible(pages: seq<PageRead>, shard: nat, itemID: string, sequence: nat,
                                eligible: Eligibility)
  {
    forall i :: 0 <= i < |pages| ==>
      shard < |pages[i].views| && Visible(pages[i].views[shard], itemID, sequence, eligible)
  }

  predicate Is(hit: Hit, shard: nat, itemID: string, sequence: nat) {
    hit.state.itemID == itemID && Position(hit) == Cursor(shard, sequence)
  }

  /** Up to the cursor it has reached, a scan has returned every incarnation that
      stayed visible. */
  lemma {:induction false} ScanReturns(pages: seq<PageRead>, eligible: Eligibility, shardCount: nat,
                                       shard: nat, itemID: string, sequence: nat)
    requires Chained(pages, eligible, shardCount) && pages != []
    requires AlwaysVisible(pages, shard, itemID, sequence, eligible)
    requires Before(pages[0].cursor, Cursor(shard, sequence))
    requires !Before(pages[|pages| - 1].page.next, Cursor(shard, sequence))
    ensures exists hit :: hit in Collected(pages) && Is(hit, shard, itemID, sequence)
  {
    var n := |pages| - 1;
    var last := pages[n];
    if Before(last.cursor, Cursor(shard, sequence)) {
      assert Proper(last, eligible, shardCount);
      assert Visible(last.views[shard], itemID, sequence, eligible);
      var hit := Hit(shard, last.views[shard].values[itemID]);
      PageComplete(last.views, eligible, last.cursor.shard, last.cursor.sequence, last.limit, hit);
      assert hit in Collected(pages) && Is(hit, shard, itemID, sequence);
    } else {
      ChainPrefix(pages, eligible, shardCount);
      ScanReturns(pages[..n], eligible, shardCount, shard, itemID, sequence);
      var hit :| hit in Collected(pages[..n]) && Is(hit, shard, itemID, sequence);
      assert hit in Collected(pages);
    }
  }

  /** A complete scan from the zero cursor returns every incarnation that was live
      and eligible throughout, exactly once. */
  lemma ScanReturnsExactlyOnce(pages: seq<PageRead>, eligible: Eligibility, shardCount: nat,
                               shard: nat, itemID: string, sequence: nat)
    requires Chained(pages, eligible, shardCount) && pages != []
    requires pages[0].cursor == START && pages[|pages| - 1].page.done
    requires AlwaysVisible(pages, shard, itemID, sequence, eligible)
    ensures exists i :: 0 <= i < |Collected(pages)| && Is(Collected(pages)[i], shard, itemID, sequence)
    ensures forall i, j :: 0 <= i < j < |Collected(pages)| ==>
      Position(Collected(pages)[i]) != Position(Collected(pages)[j])
  {
    var last := pages[|pages| - 1];
    assert Proper(pages[0], eligible, shardCount) && Proper(last, eligible, shardCount);
    assert Visible(pages[0].views[shard], itemID, sequence, eligible);
    assert WellFormed(pages[0].views[shard]);
    assert ScanKey(sequence, itemID) in pages[0].views[shard].order;
    PageSound(last.views, eligible, last.cursor.shard, last.cursor.sequence, last.limit);
    ScanReturns(pages, eligible, shardCount, shard, itemID, sequence);
    ScanNeverRepeats(pages, eligible, shardCount);
    var hit :| hit in Collected(pages) && Is(hit, shard, itemID, sequence);
    var i :| 0 <= i < |Collected(pages)| && Collected(pages)[i] == hit;
    assert Is(Collected(pages)[i], shard, itemID, sequence);
  }

  /** Without mutation, the pages read so far and what is left behind the cursor make
      up the whole. */
  lemma {:induction false} QuietPrefix(pages: seq<PageRead>, eligible: Eligibility, views: seq<View>)
    requires Chained(pages, eligible, |views|) && pages != []
    requires pages[0].cursor == START
    requires forall i :: 0 <= i < |pages| ==> pages[i].views == views
    ensures var next := pages[|pages| - 1].page.next;
            && next.shard <= |views|
            && Collected(pages) + AllFrom(views, eligible, next.shard, next.sequence)
                 == AllFrom(views, eligible, 0, 0)
  {
    var n := |pages| - 1;
    var last := pages[n];
    assert Proper(last, eligible, |views|);
    PageTakesPrefix(views, eligible, last.cursor.shard, last.cursor.sequence, last.limit);
    var rest := AllFrom(views, eligible, last.page.next.shard, last.page.next.sequence);
    if n > 0 {
      ChainPrefix(pages, eligible, |views|);
      QuietPrefix(pages[..n], eligible, views);
      Associate(Collected(pages[..n]), last.page.hits, rest);
    } else {
      assert pages[..0] == [];
      assert Collected(pages) == last.page.hits;
    }
  }

  /** A quiet scan that ran to its end has collected everything. */
  lemma QuietScan(pages: seq<PageRead>, eligible: Eligibility, views: seq<View>)
    requires Chained(pages, eligible, |views|) && pages != []
    requires pages[0].cursor == START && pages[|pages| - 1].page.done
    requires forall i :: 0 <= i < |pages| ==> pages[i].views == views
    ensures Collected(pages) == AllFrom(views, eligible, 0, 0)
  {
    var last := pages[|pages| - 1];
    assert Proper(last, eligible, |views|);
    QuietPrefix(pages, eligible, views);
    PageSound(last.views, eligible, last.cursor.shard, last.cursor.sequence, last.limit);
    AllDone(views, eligible, last.page.next);
  }

  /** Without mutation, paging with any limits collects what one page with a limit
      too large to matter returns. */
  lemma PagingEqualsOnePage(pages: seq<PageRead>, eligible: Eligibility, whole: PageRead)
    requires Chained(pages, eligible, |whole.views|) && pages != []
    requires pages[0].cursor == START && pages[|pages| - 1].page.done
    requires forall i :: 0 <= i < |pages| ==> pages[i].views == whole.views
    requires Proper(whole, eligible, |whole.views|) && whole.cursor == START
    requires whole.limit > |AllFrom(whole.views, eligible, 0, 0)|
    ensures Collected(pages) == whole.page.hits && whole.page.done
  {
    hide AllFrom, Readable, Collected;
    QuietScan(pages, eligible, whole.views);
    PageTakesPrefix(whole.views, eligible, 0, 0, whole.limit);
    assert whole.page.done;
    CollectedOne(whole);
    QuietScan([whole], eligible, whole.views);
  }

  lemma CollectedOne(read: PageRead)
    ensures Collected([read]) == read.page.hits
  {
    assert [read][..0] == [];
    assert Collected([]) == [];
  }

  lemma AllDone(views: seq<View>, eligible: Eligibility, end: Cursor)
    requires end.shard == |views|
    ensures AllFrom(views, eligible, end.shard, end.sequence) == []
  {
  }
}

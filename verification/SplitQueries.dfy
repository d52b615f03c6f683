/** One question to the history reader and what becomes of it: a list of items is split in
    two as long as the answer may be truncated, and every part that is not split further is
    applied to the cache on its own (internal/collector/group_collector.go). */
module SplitQueries {
  import opened BatchEffects
  import opened FlatCaches
  import opened Histories
  import opened Installs
  import opened MetadataStores
  import opened Options
  import Strings
  import opened Times
  import opened ValueCaches
  import opened ValueStates

  datatype HistoryQuery = HistoryQuery(itemIDs: seq<string>, timeFrom: int, timeTill: int, limit: int)

  /** The points a window can be expected to hold for one item, rounded up, plus two. */
  function ExpectedPerItem(window: int, delay: int): int
    requires delay > 0
  {
    var w := Max(window, 0);
    w / delay + (if w % delay != 0 then 1 else 0) + 2
  }

  /** The limit of a query: room for every expected point of every item, but never more than
      the configured limit. */
  function LimitFor(itemIDs: seq<string>, window: int, delay: int, limit: int): int {
    if delay <= 0 || itemIDs == [] then limit else Min(limit, ExpectedPerItem(window, delay) * |itemIDs|)
  }

  /** That is the number of whole delays in the window, one more if some of it is left over,
      and two to spare: the window holds less than that many delays, short of one it does not. */
  lemma ExpectedExactly(window: int, delay: int)
    requires delay > 0 && window >= 0
    ensures var n := ExpectedPerItem(window, delay) - 2;
            n * delay >= window && (n - 1) * delay < window
    ensures ExpectedPerItem(-window, delay) == 2
  {
    assert window == window / delay * delay + window % delay;
    assert (window / delay + 1) * delay == window / delay * delay + delay;
    assert (window / delay - 1) * delay == window / delay * delay - delay;
  }

  method QueryLimit(query: HistoryQuery, delay: int, limit: int) returns (result: int)
    requires limit >= 1
    ensures result == LimitFor(query.itemIDs, query.timeTill - query.timeFrom, delay, limit)
    ensures 1 <= result <= limit
  {
    if delay <= 0 || |query.itemIDs| == 0 {
      return limit;
    }
    var window := Max(query.timeTill - query.timeFrom, 0);
    var expected := window / delay;
    if window % delay != 0 {
      expected := expected + 1;
    }
    expected := expected + 2;
    var items := |query.itemIDs|;
    LimitArithmetic(expected, items, limit);
    if expected >= limit || expected > limit / items {
      return limit;
    }
    var calculated := expected * items;
    if calculated < 1 {
      calculated := 1;
    }
    if calculated > limit {
      return limit;
    }
    return calculated;
  }

  lemma LimitArithmetic(expected: int, items: nat, limit: int)
    requires expected >= 2 && items >= 1 && limit >= 1
    ensures expected >= limit || expected > limit / items ==> expected * items >= limit
    ensures expected * items >= expected
  {
    if expected > limit / items {
      AtLeast(limit / items + 1, expected, items);
      assert (limit / items + 1) * items > limit;
    }
    AtLeast(1, items, expected);
  }

  lemma AtLeast(a: int, b: int, c: int)
    requires a <= b && c >= 0
    ensures a * c <= b * c
  {
  }

  // ---------- What is asked ----------

  /** Everything outside the collector: what the reader answers, whether the context has
      ended, and what the metadata source says while a response is applied, by step. */
  datatype Surroundings = Surroundings(
    reader: (nat, HistoryQuery) -> BatchResult, cancelled: nat -> bool,
    queried: nat -> nat -> bool, locked: nat -> string -> bool)

  /** What stays the same while one list of items is asked for. */
  datatype Terms = Terms(
    timeFrom: int, timeTill: int, delay: int, limit: int, maxSplitDepth: nat, snapshot: Option<Snapshot>,
    around: Surroundings, slotOf: string -> nat)

  /** One request: its items, how often the list has been split, and its step. */
  datatype Part = Part(itemIDs: seq<string>, depth: nat, step: nat)

  function RequestFor(terms: Terms, part: Part): HistoryQuery {
    HistoryQuery(part.itemIDs, terms.timeFrom, terms.timeTill,
                 LimitFor(part.itemIDs, terms.timeTill - terms.timeFrom, terms.delay, terms.limit))
  }

  /** The reader's answer to a part: to exactly its items, over exactly the window. */
  function AnswerTo(terms: Terms, part: Part): BatchResult {
    (terms.around.reader)(part.step, RequestFor(terms, part)).(itemIDs := part.itemIDs)
  }

  predicate Truncated(batch: BatchResult, limit: int) {
    batch.status == PossiblyTruncated || batch.limitHit || (limit > 0 && batch.returned >= limit)
  }

  /** The answer cannot have been cut off: it says so, and it has fewer points than it was
      allowed. */
  predicate HasRoom(batch: BatchResult, limit: int) {
    batch.status != PossiblyTruncated && !batch.limitHit && batch.returned < limit
  }

  lemma TruncatedWithoutRoom(terms: Terms, part: Part)
    requires terms.limit >= 1
    ensures MayBeTruncated(terms, part) <==> !HasRoom(AnswerTo(terms, part), RequestFor(terms, part).limit)
    ensures 1 <= RequestFor(terms, part).limit <= terms.limit
  {
    if terms.delay > 0 && part.itemIDs != [] {
      AtLeast(1, ExpectedPerItem(terms.timeTill - terms.timeFrom, terms.delay), |part.itemIDs|);
    }
  }

  predicate MayBeTruncated(terms: Terms, part: Part) {
    Truncated(AnswerTo(terms, part), RequestFor(terms, part).limit)
  }

  predicate Answered(batch: BatchResult) {
    batch.status == BatchStatus.Success || batch.status == BatchStatus.Empty
  }

  /** A part is split when its answer may be truncated, unless it cannot be. */
  predicate Splits(terms: Terms, part: Part) {
    && !terms.around.cancelled(part.step) && MayBeTruncated(terms, part)
    && |part.itemIDs| >= 2 && part.depth < terms.maxSplitDepth
  }

  datatype Plan = Plan(parts: seq<Part>, next: nat)

  /** The parts a list of items ends up in, in order, and the step after the last of them. */
  ghost function PlanFor(terms: Terms, part: Part): Plan
    decreases |part.itemIDs|
  {
    if Splits(terms, part) then
      var middle := |part.itemIDs| / 2;
      var left := PlanFor(terms, Part(part.itemIDs[..middle], part.depth + 1, part.step + 1));
      var right := PlanFor(terms, Part(part.itemIDs[middle..], part.depth + 1, left.next));
      Plan(left.parts + right.parts, right.next)
    else
      Plan([part], part.step + 1)
  }

  lemma PlanWhole(terms: Terms, part: Part)
    requires !Splits(terms, part)
    ensures PlanFor(terms, part) == Plan([part], part.step + 1)
  {
  }

  lemma PlanHalves(terms: Terms, part: Part)
    requires Splits(terms, part)
    ensures var middle := |part.itemIDs| / 2;
            var left := PlanFor(terms, Part(part.itemIDs[..middle], part.depth + 1, part.step + 1));
            var right := PlanFor(terms, Part(part.itemIDs[middle..], part.depth + 1, left.next));
            PlanFor(terms, part) == Plan(left.parts + right.parts, right.next)
  {
  }

  /** No part of a plan is split any further, and no list is split too often. */
  lemma {:induction false} PlanEnds(terms: Terms, part: Part)
    requires part.depth <= terms.maxSplitDepth
    ensures forall p :: p in PlanFor(terms, part).parts ==> !Splits(terms, p) && p.depth <= terms.maxSplitDepth
    decreases |part.itemIDs|
  {
    hide Splits, PlanFor;
    if Splits(terms, part) {
      SplitsInTwo(terms, part);
      PlanHalves(terms, part);
      var middle := |part.itemIDs| / 2;
      var left := PlanFor(terms, Part(part.itemIDs[..middle], part.depth + 1, part.step + 1));
      PlanEnds(terms, Part(part.itemIDs[..middle], part.depth + 1, part.step + 1));
      PlanEnds(terms, Part(part.itemIDs[middle..], part.depth + 1, left.next));
    } else {
      PlanWhole(terms, part);
    }
  }

  /** A list stays whole if its answer had room, and a part without room that was asked for
      has a single item or has been split as often as allowed. */
  lemma WholeWithRoom(terms: Terms, part: Part)
    requires terms.limit >= 1 && part.depth <= terms.maxSplitDepth
    ensures HasRoom(AnswerTo(terms, part), RequestFor(terms, part).limit) ==>
      PlanFor(terms, part) == Plan([part], part.step + 1)
    ensures forall p :: p in PlanFor(terms, part).parts ==>
      || terms.around.cancelled(p.step) || HasRoom(AnswerTo(terms, p), RequestFor(terms, p).limit)
      || |p.itemIDs| < 2 || p.depth == terms.maxSplitDepth
  {
    hide PlanFor, AnswerTo, RequestFor, HasRoom, MayBeTruncated;
    TruncatedWithoutRoom(terms, part);
    if !Splits(terms, part) {
      PlanWhole(terms, part);
    }
    PlanEnds(terms, part);
    forall p | p in PlanFor(terms, part).parts
      ensures || terms.around.cancelled(p.step) || HasRoom(AnswerTo(terms, p), RequestFor(terms, p).limit)
              || |p.itemIDs| < 2 || p.depth == terms.maxSplitDepth
    {
      TruncatedWithoutRoom(terms, p);
    }
  }

  lemma SplitsInTwo(terms: Terms, part: Part)
    requires Splits(terms, part)
    ensures 0 < |part.itemIDs| / 2 < |part.itemIDs| && part.depth < terms.maxSplitDepth
  {
  }

  // ---------- What comes of it ----------

  datatype PartOutcome =
    | Cancelled
    | Unsplittable
    | Failed
    | Stale(apply: ApplyResult)
    | Applied(apply: ApplyResult)

  /** A part that was not split further, what came of it, the newest points of its answer,
      and what applying them did to the cache. */
  datatype Leaf = Leaf(
    part: Part, outcome: PartOutcome, finishedAt: int, points: map<string, HistoryItem>, log: seq<Installation>)

  /** What is applied of an answer. */
  ghost function Filtered(terms: Terms, leaf: Leaf): BatchResult {
    AnswerTo(terms, leaf.part).(latest := Some(StillRelevant(leaf.points, terms.delay, terms.timeTill)))
  }

  /** `apply` and the leaf's log are what applying the filtered answer to this cache gives. */
  ghost predicate AppliedAs(terms: Terms, leaf: Leaf, apply: ApplyResult, flat: Flat, nextVersion: nat) {
    var filtered := Filtered(terms, leaf);
    var step := leaf.part.step;
    && JustifiedLog(flat, nextVersion, leaf.log, (terms.around.locked)(step), terms.slotOf)
    && (terms.snapshot.None? ==> leaf.log == [] && apply == RefusedResult(filtered, None))
    && (terms.snapshot.Some? ==>
          && Accounts(leaf.log, terms.snapshot.value, filtered.latest.value, FetchTime(filtered))
          && Reports(apply, filtered, terms.snapshot.value, filtered.latest.value, leaf.log,
                     (terms.around.queried)(step)))
  }

  /** What came of a part is decided by whether the context had ended, by the answer, and by
      what applying it to the cache as it then was reports. */
  ghost predicate Meets(terms: Terms, leaf: Leaf, flat: Flat, nextVersion: nat) {
    var answer := AnswerTo(terms, leaf.part);
    if terms.around.cancelled(leaf.part.step) then
      leaf.outcome == Cancelled && leaf.finishedAt == ZERO_TIME && leaf.log == []
    else
      && leaf.finishedAt == answer.finishedAt
      && if MayBeTruncated(terms, leaf.part) then
           leaf.outcome == Unsplittable && leaf.log == []
         else if !Answered(answer) then
           leaf.outcome == Failed && leaf.log == []
         else
           && (leaf.outcome.Stale? || leaf.outcome.Applied?)
           && (leaf.outcome.Applied? <==> leaf.outcome.apply.stale == 0)
           && IsLatest(leaf.points, answer)
           && AppliedAs(terms, leaf, leaf.outcome.apply, flat, nextVersion)
  }

  function PartsOf(leaves: seq<Leaf>): (parts: seq<Part>)
    ensures |parts| == |leaves|
  {
    seq(|leaves|, i requires 0 <= i < |leaves| => leaves[i].part)
  }

  /** Everything the parts did to the cache, in order. */
  function LogOf(leaves: seq<Leaf>): seq<Installation> {
    if leaves == [] then [] else LogOf(leaves[..|leaves| - 1]) + leaves[|leaves| - 1].log
  }

  /** Every part met the cache as the parts before it had left it. */
  ghost predicate Collected(terms: Terms, leaves: seq<Leaf>, flat: Flat, nextVersion: nat) {
    forall i :: 0 <= i < |leaves| ==>
      Meets(terms, leaves[i], Replay(flat, LogOf(leaves[..i])), nextVersion + InstallCount(LogOf(leaves[..i])))
  }

  lemma CollectedAt(terms: Terms, leaves: seq<Leaf>, flat: Flat, nextVersion: nat, i: nat)
    requires Collected(terms, leaves, flat, nextVersion) && i < |leaves|
    ensures Meets(terms, leaves[i], Replay(flat, LogOf(leaves[..i])), nextVersion + InstallCount(LogOf(leaves[..i])))
  {
  }

  lemma LogOfSnoc(leaves: seq<Leaf>, last: Leaf)
    ensures LogOf(leaves + [last]) == LogOf(leaves) + last.log
  {
    assert (leaves + [last])[..|leaves|] == leaves;
  }

  lemma {:induction false} LogOfAppend(a: seq<Leaf>, b: seq<Leaf>)
    ensures LogOf(a + b) == LogOf(a) + LogOf(b)
    decreases |b|
  {
    hide LogOf;
    if b == [] {
      assert a + b == a;
      NoLog();
      assert LogOf(a) + [] == LogOf(a);
    } else {
      var n := |b| - 1;
      LogOfAppend(a, b[..n]);
      assert a + b == (a + b[..n]) + [b[n]] && b == b[..n] + [b[n]];
      LogOfSnoc(a + b[..n], b[n]);
      LogOfSnoc(b[..n], b[n]);
      LogsAssociate(LogOf(a), LogOf(b[..n]), b[n].log);
    }
  }

  lemma NoLog()
    ensures LogOf([]) == []
  {
  }

  lemma LogsAssociate(a: seq<Installation>, b: seq<Installation>, c: seq<Installation>)
    ensures a + (b + c) == (a + b) + c
  {
  }

  lemma CollectedAppend(terms: Terms, a: seq<Leaf>, b: seq<Leaf>, flat: Flat, nextVersion: nat)
    requires Collected(terms, a, flat, nextVersion)
    requires Collected(terms, b, Replay(flat, LogOf(a)), nextVersion + InstallCount(LogOf(a)))
    ensures Collected(terms, a + b, flat, nextVersion)
    ensures Replay(flat, LogOf(a + b)) == Replay(Replay(flat, LogOf(a)), LogOf(b))
    ensures InstallCount(LogOf(a + b)) == InstallCount(LogOf(a)) + InstallCount(LogOf(b))
  {
    hide Meets, Replay, InstallCount, LogOf, Collected;
    var c := a + b;
    LogOfAppend(a, b);
    ReplayAppend(flat, LogOf(a), LogOf(b));
    forall i | 0 <= i < |c|
      ensures Meets(terms, c[i], Replay(flat, LogOf(c[..i])), nextVersion + InstallCount(LogOf(c[..i])))
    {
      if i < |a| {
        assert c[..i] == a[..i] && c[i] == a[i];
        CollectedAt(terms, a, flat, nextVersion, i);
      } else {
        var k := i - |a|;
        assert c[..i] == a + b[..k] && c[i] == b[k];
        LogOfAppend(a, b[..k]);
        ReplayAppend(flat, LogOf(a), LogOf(b[..k]));
        CollectedAt(terms, b, Replay(flat, LogOf(a)), nextVersion + InstallCount(LogOf(a)), k);
      }
    }
    CollectedIf(terms, c, flat, nextVersion);
  }

  lemma CollectedIf(terms: Terms, leaves: seq<Leaf>, flat: Flat, nextVersion: nat)
    requires forall i :: 0 <= i < |leaves| ==>
      Meets(terms, leaves[i], Replay(flat, LogOf(leaves[..i])), nextVersion + InstallCount(LogOf(leaves[..i])))
    ensures Collected(terms, leaves, flat, nextVersion)
  {
  }

  lemma CollectedOne(terms: Terms, leaf: Leaf, flat: Flat, nextVersion: nat)
    requires Meets(terms, leaf, flat, nextVersion)
    ensures Collected(terms, [leaf], flat, nextVersion) && LogOf([leaf]) == leaf.log && PartsOf([leaf]) == [leaf.part]
  {
    hide Meets, Replay, InstallCount, LogOf;
    assert [leaf][..0] == [];
    EmptyLog(flat);
    NoLog();
    LogOfSnoc([], leaf);
    assert [] + [leaf] == [leaf] && [] + leaf.log == leaf.log;
  }

  lemma PartsAppend(a: seq<Leaf>, b: seq<Leaf>)
    ensures PartsOf(a + b) == PartsOf(a) + PartsOf(b)
  {
  }

  // ---------- Sums over the parts ----------

  function LeafMisses(leaf: Leaf): seq<string> {
    if leaf.outcome.Applied? then leaf.outcome.apply.missItemIDs else []
  }

  function LeafApplied(leaf: Leaf): nat {
    if leaf.outcome.Applied? then
      leaf.outcome.apply.created + leaf.outcome.apply.updated + leaf.outcome.apply.kept
    else
      0
  }

  function ItemsOf(leaves: seq<Leaf>): seq<string> {
    if leaves == [] then [] else ItemsOf(leaves[..|leaves| - 1]) + leaves[|leaves| - 1].part.itemIDs
  }

  function MissesOf(leaves: seq<Leaf>): seq<string> {
    if leaves == [] then
      []
    else
      MissesOf(leaves[..|leaves| - 1]) + LeafMisses(leaves[|leaves| - 1])
  }

  function AppliedOf(leaves: seq<Leaf>): nat {
    if leaves == [] then
      0
    else
      AppliedOf(leaves[..|leaves| - 1]) + LeafApplied(leaves[|leaves| - 1])
  }

  /** Leaves that were asked for at all. */
  function Asked(leaves: seq<Leaf>): nat {
    if leaves == [] then
      0
    else
      Asked(leaves[..|leaves| - 1]) + (if leaves[|leaves| - 1].outcome.Cancelled? then 0 else 1)
  }

  predicate AllApplied(leaves: seq<Leaf>) {
    forall i :: 0 <= i < |leaves| ==> leaves[i].outcome.Applied?
  }

  lemma LeavesSnoc(leaves: seq<Leaf>, last: Leaf)
    ensures ItemsOf(leaves + [last]) == ItemsOf(leaves) + last.part.itemIDs
    ensures MissesOf(leaves + [last]) == MissesOf(leaves) + LeafMisses(last)
    ensures AppliedOf(leaves + [last]) == AppliedOf(leaves) + LeafApplied(last)
    ensures Asked(leaves + [last]) == Asked(leaves) + (if last.outcome.Cancelled? then 0 else 1)
  {
    assert (leaves + [last])[..|leaves|] == leaves;
  }

  lemma {:induction false} LeavesAppend(a: seq<Leaf>, b: seq<Leaf>)
    ensures ItemsOf(a + b) == ItemsOf(a) + ItemsOf(b)
    ensures MissesOf(a + b) == MissesOf(a) + MissesOf(b)
    ensures AppliedOf(a + b) == AppliedOf(a) + AppliedOf(b)
    ensures Asked(a + b) == Asked(a) + Asked(b)
    decreases |b|
  {
    hide ItemsOf, MissesOf, AppliedOf, Asked, LeafMisses, LeafApplied;
    if b == [] {
      assert a + b == a;
      NoLeaves();
      assert ItemsOf(a) + [] == ItemsOf(a) && MissesOf(a) + [] == MissesOf(a);
    } else {
      var n := |b| - 1;
      LeavesAppend(a, b[..n]);
      assert a + b == (a + b[..n]) + [b[n]];
      assert b == b[..n] + [b[n]];
      LeavesSnoc(a + b[..n], b[n]);
      LeavesSnoc(b[..n], b[n]);
      Strings.Associate(ItemsOf(a), ItemsOf(b[..n]), b[n].part.itemIDs);
      Strings.Associate(MissesOf(a), MissesOf(b[..n]), LeafMisses(b[n]));
    }
  }

  lemma NoLeaves()
    ensures ItemsOf([]) == [] && MissesOf([]) == [] && AppliedOf([]) == 0 && Asked([]) == 0
  {
  }

  /** When the last of the answers had arrived. */
  function FinishOf(leaves: seq<Leaf>): int
    requires leaves != []
  {
    if |leaves| == 1 then
      leaves[0].finishedAt
    else
      Max(FinishOf(leaves[..|leaves| - 1]), leaves[|leaves| - 1].finishedAt)
  }

  lemma {:induction false} FinishIsLatest(leaves: seq<Leaf>)
    requires leaves != []
    ensures forall i :: 0 <= i < |leaves| ==> leaves[i].finishedAt <= FinishOf(leaves)
    ensures exists i :: 0 <= i < |leaves| && leaves[i].finishedAt == FinishOf(leaves)
  {
    var n := |leaves| - 1;
    if n == 0 {
      assert leaves[0].finishedAt == FinishOf(leaves);
    } else {
      FinishIsLatest(leaves[..n]);
      var i :| 0 <= i < n && leaves[..n][i].finishedAt == FinishOf(leaves[..n]);
      assert leaves[i].finishedAt == FinishOf(leaves[..n]) && leaves[n].finishedAt <= FinishOf(leaves);
      assert forall j :: 0 <= j < n ==> leaves[j] == leaves[..n][j];
    }
  }

  lemma {:induction false} FinishAppend(a: seq<Leaf>, b: seq<Leaf>)
    requires a != [] && b != []
    ensures FinishOf(a + b) == Max(FinishOf(a), FinishOf(b))
    decreases |b|
  {
    var n := |b| - 1;
    assert (a + b)[..|a + b| - 1] == a + b[..n];
    if n == 0 {
      assert a + b[..n] == a;
    } else {
      FinishAppend(a, b[..n]);
    }
  }

  datatype QueryResult = QueryResult(
    complete: bool, queries: nat, splits: nat, applied: nat, misses: seq<string>, finishedAt: int,
    truncated: bool, failed: bool)

  /** What a query reports about its leaves. */
  ghost predicate SumsUp(result: QueryResult, leaves: seq<Leaf>) {
    && (result.complete <==> AllApplied(leaves))
    && |leaves| == result.splits + 1
    && result.queries == Asked(leaves) + result.splits
    && result.misses == MissesOf(leaves) && result.applied == AppliedOf(leaves)
    && result.finishedAt == FinishOf(leaves)
    && (result.truncated <==> |leaves| > 1 || leaves[0].outcome.Unsplittable?)
    && (result.failed <==> !result.complete)
  }

  function MergeSplit(left: QueryResult, right: QueryResult): QueryResult {
    QueryResult(left.complete && right.complete, 1 + left.queries + right.queries, 1 + left.splits + right.splits,
                left.applied + right.applied, left.misses + right.misses, Max(left.finishedAt, right.finishedAt),
                true, left.failed || right.failed)
  }

  lemma MergeSumsUp(left: QueryResult, right: QueryResult, a: seq<Leaf>, b: seq<Leaf>)
    requires SumsUp(left, a) && SumsUp(right, b)
    ensures SumsUp(MergeSplit(left, right), a + b)
  {
    LeavesAppend(a, b);
    AllAppliedAppend(a, b);
    FinishAppend(a, b);
    hide ItemsOf, MissesOf, AppliedOf, Asked, AllApplied, FinishOf;
  }

  lemma AllAppliedAppend(a: seq<Leaf>, b: seq<Leaf>)
    ensures AllApplied(a + b) <==> AllApplied(a) && AllApplied(b)
  {
    if AllApplied(a + b) {
      assert forall i :: 0 <= i < |a| ==> a[i] == (a + b)[i];
      assert forall i :: 0 <= i < |b| ==> b[i] == (a + b)[|a| + i];
    }
  }

  lemma OneLeaf(leaf: Leaf)
    ensures ItemsOf([leaf]) == leaf.part.itemIDs
    ensures MissesOf([leaf]) == LeafMisses(leaf) && AppliedOf([leaf]) == LeafApplied(leaf)
    ensures Asked([leaf]) == if leaf.outcome.Cancelled? then 0 else 1
  {
    assert [leaf][..0] == [];
  }

  /** Without a cancellation a query that was split `n` times made `2n + 1` requests. */
  lemma QueriesOfSplits(result: QueryResult, leaves: seq<Leaf>)
    requires SumsUp(result, leaves)
    requires forall i :: 0 <= i < |leaves| ==> !leaves[i].outcome.Cancelled?
    ensures result.queries == 2 * result.splits + 1
  {
    AllAsked(leaves);
  }

  lemma {:induction false} AllAsked(leaves: seq<Leaf>)
    requires forall i :: 0 <= i < |leaves| ==> !leaves[i].outcome.Cancelled?
    ensures Asked(leaves) == |leaves|
  {
    if leaves != [] {
      AllAsked(leaves[..|leaves| - 1]);
    }
  }

  // ---------- Expired points ----------

  /** Whether a point is applied at all: points that would already be expired are not, but
      malformed ones are, so that they are reported. */
  predicate Relevant(record: HistoryItem, delay: int, queryTill: int) {
    || !(0 <= record.ns < SECOND)
    || ValueExpireAt(record.clock * SECOND + record.ns, delay) > queryTill
  }

  ghost function StillRelevant(latest: map<string, HistoryItem>, delay: int, queryTill: int): map<string, HistoryItem> {
    map id | id in latest && Relevant(latest[id], delay, queryTill) :: latest[id]
  }

  method FilterExpiredLatest(batch: BatchResult, delay: int, queryTill: int)
    returns (filtered: BatchResult, ghost latest: map<string, HistoryItem>)
    ensures IsLatest(latest, batch)
    ensures filtered == batch.(latest := Some(StillRelevant(latest, delay, queryTill)))
  {
    var points: map<string, HistoryItem>;
    if batch.latest.Some? {
      points := batch.latest.value;
    } else {
      points := ReduceLatest(batch.records);
    }
    latest := points;
    var kept := KeepRelevant(points, delay, queryTill);
    filtered := batch.(latest := Some(kept));
  }

  method KeepRelevant(latest: map<string, HistoryItem>, delay: int, queryTill: int)
    returns (kept: map<string, HistoryItem>)
    ensures kept == StillRelevant(latest, delay, queryTill)
  {
    hide Relevant;
    kept := map[];
    var todo := latest.Keys;
    while todo != {}
      invariant todo <= latest.Keys
      invariant kept == map id | id in latest && id !in todo && Relevant(latest[id], delay, queryTill) :: latest[id]
      decreases |todo|
    {
      var id :| id in todo;
      todo := todo - {id};
      if Relevant(latest[id], delay, queryTill) {
        kept := kept[id := latest[id]];
      }
    }
  }

  /** What the filter leaves out would not have survived its own query: exactly the points that
      have a proper time and would already have been expired at the end of the window. */
  lemma OnlyExpiredLeftOut(latest: map<string, HistoryItem>, delay: int, queryTill: int, id: string)
    requires id in latest
    ensures id !in StillRelevant(latest, delay, queryTill) <==>
      0 <= latest[id].ns < SECOND && ValueExpireAt(latest[id].clock * SECOND + latest[id].ns, delay) <= queryTill
    ensures id in StillRelevant(latest, delay, queryTill) ==> StillRelevant(latest, delay, queryTill)[id] == latest[id]
  {
  }

  lemma LeafDescribed(leaf: Leaf, result: QueryResult)
    requires result.complete == leaf.outcome.Applied? && result.splits == 0 && result.failed == !result.complete
    requires result.queries == if leaf.outcome.Cancelled? then 0 else 1
    requires result.misses == LeafMisses(leaf) && result.applied == LeafApplied(leaf)
    requires result.finishedAt == leaf.finishedAt && result.truncated == leaf.outcome.Unsplittable?
    ensures SumsUp(result, [leaf]) && ItemsOf([leaf]) == leaf.part.itemIDs
  {
    OneLeaf(leaf);
    hide ItemsOf, MissesOf, AppliedOf, Asked;
    assert AllApplied([leaf]) <==> leaf.outcome.Applied? by {
      assert [leaf][0] == leaf;
    }
  }

  lemma CompleteMeansApplied(result: QueryResult, leaves: seq<Leaf>)
    requires SumsUp(result, leaves)
    ensures result.complete <==> AllApplied(leaves)
    ensures result.misses == MissesOf(leaves) && leaves != [] && result.finishedAt == FinishOf(leaves)
  {
    hide AllApplied, MissesOf, FinishOf;
  }

  // ---------- What completeness means ----------

  /** The part holding the item was asked for over the whole window, its answer succeeded and
      had room to spare, no definition had moved, and every usable point of it that had not
      already expired was decided under the current definition and not refused. */
  ghost predicate CollectedIn(terms: Terms, leaf: Leaf, id: string) {
    && id in leaf.part.itemIDs && !terms.around.cancelled(leaf.part.step)
    && var answer := AnswerTo(terms, leaf.part);
    && answer.status in {BatchStatus.Success, BatchStatus.Empty} && HasRoom(answer, RequestFor(terms, leaf.part).limit)
    && IsLatest(leaf.points, answer)
    && leaf.outcome.Applied? && leaf.outcome.apply.stale == 0
    && (terms.snapshot.Some? ==>
          forall other :: Offers(leaf.points, terms.snapshot.value, terms.delay, terms.timeTill, other) ==>
            Decided(leaf.log, other, leaf.points[other], terms.snapshot.value.items[other].value))
  }

  /** A point that is to be cached: readable, of a wanted item, and not expired at the end of
      the window. */
  predicate Offers(points: map<string, HistoryItem>, snapshot: Snapshot, delay: int, queryTill: int, id: string) {
    id in points && Legible(points[id]) && Wanted(snapshot, id) && ValueExpireAt(Instant(points[id]), delay) > queryTill
  }

  /** The point was put before the cache under this definition and not refused. */
  ghost predicate Decided(log: seq<Installation>, id: string, record: HistoryItem, item: Versioned<ItemDefinition>)
    requires record.value.Some?
  {
    exists i :: 0 <= i < |log| && log[i].verdict != Refused && PutBefore(log[i].pending, id, record, item)
  }

  predicate PutBefore(p: Pending, id: string, record: HistoryItem, item: Versioned<ItemDefinition>)
    requires record.value.Some?
  {
    && p.itemID == id && p.value == record.value.value && p.clock == record.clock && p.ns == record.ns
    && p.metadataVersion == item.version && p.delay == item.definition.delay
  }

  lemma OfferedIsCandidate(terms: Terms, leaf: Leaf, id: string)
    requires terms.snapshot.Some? && Offers(leaf.points, terms.snapshot.value, terms.delay, terms.timeTill, id)
    ensures var all := Candidates(terms.snapshot.value, Filtered(terms, leaf).latest.value,
                                  FetchTime(AnswerTo(terms, leaf.part)));
            && id in all && terms.snapshot.value.items[id].Some?
            && PutBefore(all[id], id, leaf.points[id], terms.snapshot.value.items[id].value)
  {
    hide AnswerTo, FetchTime, ValueExpireAt;
  }

  lemma AppliedMeansCollected(terms: Terms, leaf: Leaf, flat: Flat, nextVersion: nat, id: string)
    requires Meets(terms, leaf, flat, nextVersion) && leaf.outcome.Applied? && id in leaf.part.itemIDs
    requires terms.limit >= 1
    ensures CollectedIn(terms, leaf, id)
  {
    TruncatedWithoutRoom(terms, leaf.part);
    hide JustifiedLog, MayBeTruncated, IsLatest, RefusedResult, Candidates, FetchTime, StillRelevant, HasRoom, Offers,
      AnswerTo, RequestFor, PutBefore;
    if terms.snapshot.Some? {
      var all := Candidates(terms.snapshot.value, Filtered(terms, leaf).latest.value,
                            FetchTime(AnswerTo(terms, leaf.part)));
      FilteredTime(terms, leaf);
      forall other | Offers(leaf.points, terms.snapshot.value, terms.delay, terms.timeTill, other)
        ensures other in leaf.points && leaf.points[other].value.Some?
        ensures other in terms.snapshot.value.items && terms.snapshot.value.items[other].Some?
        ensures Decided(leaf.log, other, leaf.points[other], terms.snapshot.value.items[other].value)
      {
        OfferedUsable(leaf.points, terms.snapshot.value, terms.delay, terms.timeTill, other);
        OfferedIsCandidate(terms, leaf, other);
        NoneRefused(terms.snapshot.value, Filtered(terms, leaf), leaf.log, (terms.around.queried)(leaf.part.step),
                    all, other,
                    leaf.outcome.apply);
      }
    }
  }

  lemma OfferedUsable(points: map<string, HistoryItem>, snapshot: Snapshot, delay: int, queryTill: int, id: string)
    requires Offers(points, snapshot, delay, queryTill, id)
    ensures id in points && points[id].value.Some? && id in snapshot.items && snapshot.items[id].Some?
  {
  }

  /** Once such a part has been applied, the cache holds each of those items under this
      definition, with that point or a later one. */
  lemma PartHolds(terms: Terms, leaf: Leaf, flat: Flat, nextVersion: nat, id: string)
    requires Meets(terms, leaf, flat, nextVersion) && leaf.outcome.Applied? && terms.snapshot.Some?
    requires forall other :: other in flat ==> Derived(flat[other])
    requires Offers(leaf.points, terms.snapshot.value, terms.delay, terms.timeTill, id)
    ensures var after, item := Replay(flat, leaf.log), terms.snapshot.value.items[id];
            && id in after && item.Some? && after[id].metadataVersion == item.value.version
            && after[id].sourceTimestamp >= Instant(leaf.points[id])
  {
    hide JustifiedLog, MayBeTruncated, IsLatest, RefusedResult, Candidates, FetchTime, AnswerTo, RequestFor, PutBefore,
      Derived, Replay, Enumerates, DistinctItems, VerdictFor, Legible, Wanted;
    var snapshot, filtered, step := terms.snapshot.value, Filtered(terms, leaf), leaf.part.step;
    var latest, current, fetchedAt := filtered.latest.value, (terms.around.locked)(step), FetchTime(filtered);
    var all := Candidates(snapshot, latest, fetchedAt);
    FilteredTime(terms, leaf);
    OfferedIsCandidate(terms, leaf, id);
    LoggedOnce(leaf.log, all);
    NoneRefused(snapshot, filtered, leaf.log, (terms.around.queried)(step), all, id, leaf.outcome.apply);
    var i :| 0 <= i < |leaf.log| && leaf.log[i].pending == all[id] && leaf.log[i].verdict != Refused;
    AcceptedIsCandidate(snapshot, latest, fetchedAt, current, id);
    ReplayItem(flat, nextVersion, leaf.log, current, terms.slotOf, i);
    NotRefused(Lookup(flat, id), all[id], current(id));
    BatchApplied(flat, nextVersion, leaf.log, current, terms.slotOf, snapshot, latest, fetchedAt, id);
    OnlyExpiredLeftOut(leaf.points, terms.delay, terms.timeTill, id);
  }

  lemma NotRefused(cell: Option<ValueState>, p: Pending, current: bool)
    requires VerdictFor(cell, p, current) != Refused
    ensures current
  {
  }

  lemma FilteredTime(terms: Terms, leaf: Leaf)
    ensures FetchTime(Filtered(terms, leaf)) == FetchTime(AnswerTo(terms, leaf.part))
  {
  }

  lemma NoneRefused(snapshot: Snapshot, filtered: BatchResult, log: seq<Installation>, queried: nat -> bool,
                    all: map<string, Pending>, id: string, apply: ApplyResult)
    requires filtered.latest.Some? && Reports(apply, filtered, snapshot, filtered.latest.value, log, queried)
    requires apply.stale == 0 && Enumerates(PendingsOf(log), all, all.Keys) && id in all
    ensures exists i :: 0 <= i < |log| && log[i].pending == all[id] && log[i].verdict != Refused
  {
    assert all[id] in PendingsOf(log);
    var i :| 0 <= i < |log| && PendingsOf(log)[i] == all[id];
    NobodyRefused(log, StaleQueried(snapshot, filtered.itemIDs, queried));
  }

  lemma NobodyRefused(log: seq<Installation>, others: set<string>)
    requires |others + RefusedOf(log)| == 0
    ensures forall i :: 0 <= i < |log| ==> log[i].verdict != Refused
  {
    assert others + RefusedOf(log) == {};
    forall i | 0 <= i < |log|
      ensures log[i].verdict == Refused ==> log[i].pending.itemID in others + RefusedOf(log)
    {
    }
  }

  lemma {:induction false} ItemInLeaf(leaves: seq<Leaf>, id: string) returns (i: nat)
    requires id in ItemsOf(leaves)
    ensures i < |leaves| && id in leaves[i].part.itemIDs
  {
    var n := |leaves| - 1;
    if id in leaves[n].part.itemIDs {
      i := n;
    } else {
      i := ItemInLeaf(leaves[..n], id);
    }
  }

  /** A complete query has collected every one of its items over the whole window. */
  lemma EveryItemCollected(terms: Terms, leaves: seq<Leaf>, flat: Flat, nextVersion: nat, id: string)
    requires terms.limit >= 1
    requires Collected(terms, leaves, flat, nextVersion) && AllApplied(leaves) && id in ItemsOf(leaves)
    ensures exists i :: 0 <= i < |leaves| && CollectedIn(terms, leaves[i], id)
  {
    hide Meets, CollectedIn, Collected;
    var i := ItemInLeaf(leaves, id);
    CollectedAt(terms, leaves, flat, nextVersion, i);
    AppliedMeansCollected(terms, leaves[i], Replay(flat, LogOf(leaves[..i])),
                          nextVersion + InstallCount(LogOf(leaves[..i])), id);
  }

  /** Without metadata a query may be complete and still leaves the cache alone. */
  lemma NothingWithoutMetadata(terms: Terms, leaves: seq<Leaf>, flat: Flat, nextVersion: nat)
    requires Collected(terms, leaves, flat, nextVersion) && terms.snapshot.None?
    ensures LogOf(leaves) == []
  {
    hide Collected, Meets, Replay, InstallCount, LogOf;
    forall i | 0 <= i < |leaves|
      ensures leaves[i].log == []
    {
      CollectedAt(terms, leaves, flat, nextVersion, i);
      LogWithoutMetadata(terms, leaves[i], Replay(flat, LogOf(leaves[..i])),
                         nextVersion + InstallCount(LogOf(leaves[..i])));
    }
    NoLogs(leaves);
  }

  lemma LogWithoutMetadata(terms: Terms, leaf: Leaf, flat: Flat, nextVersion: nat)
    requires Meets(terms, leaf, flat, nextVersion) && terms.snapshot.None?
    ensures leaf.log == []
  {
    hide JustifiedLog, RefusedResult, Truncated;
  }

  lemma {:induction false} NoLogs(leaves: seq<Leaf>)
    requires forall i :: 0 <= i < |leaves| ==> leaves[i].log == []
    ensures LogOf(leaves) == []
  {
    if leaves != [] {
      NoLogs(leaves[..|leaves| - 1]);
    }
  }
}

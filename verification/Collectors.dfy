/** Collecting history batch by batch: splitting truncated queries, applying complete
    responses, and advancing the watermark (internal/collector/group_collector.go). */
module Collectors {
  import opened BatchEffects
  import opened FlatCaches
  import opened Groups
  import opened Histories
  import opened Installs
  import opened MetadataStores
  import opened Options
  import opened SplitQueries
  import Strings
  import opened Times
  import opened ValueCaches
  import opened ValueStates

  // ---------- Windows ----------

  function OverlapForDelay(delay: int, minimum: int, maximum: int): int {
    var overlap := Max(Quotient(delay, 5), minimum);
    if maximum > 0 && overlap > maximum then maximum else overlap
  }

  /** The overlap lies between its bounds, and is a fifth of the delay unless it meets one. */
  lemma OverlapWithin(delay: int, minimum: int, maximum: int)
    requires 0 <= minimum <= maximum
    ensures var overlap := OverlapForDelay(delay, minimum, maximum);
            && minimum <= overlap && (maximum > 0 ==> overlap <= maximum)
            && (delay >= 0 ==>
                  || 5 * overlap <= delay < 5 * overlap + 5
                  || (overlap == minimum && delay < 5 * minimum)
                  || (overlap == maximum && delay >= 5 * maximum))
  {
  }

  function BootstrapWindow(delay: int): int {
    if delay <= MINUTE then Max(2 * delay, 5 * MINUTE) else 2 * delay + Max(Quotient(delay, 5), 30 * SECOND)
  }

  /** The first window is as long as the life of a point if the delay is over a minute, and
      otherwise two delays, but at least five minutes. */
  lemma BootstrapExactly(delay: int)
    requires delay > 0
    ensures delay > 60_000_000_000 ==> ValueExpireAt(-BootstrapWindow(delay), delay) == 0
    ensures delay <= 60_000_000_000 ==>
      && BootstrapWindow(delay) >= 2 * delay && BootstrapWindow(delay) >= 300_000_000_000
      && (BootstrapWindow(delay) == 2 * delay || BootstrapWindow(delay) == 300_000_000_000)
  {
  }

  /** The first window of a batch reaches back to every point that is still alive. */
  lemma BootstrapReachesEveryLivePoint(sourceTimestamp: int, delay: int, queryTill: int)
    requires delay > 0 && ValueExpireAt(sourceTimestamp, delay) > queryTill
    ensures sourceTimestamp > queryTill - BootstrapWindow(delay)
  {
  }

  /** Whether a window reaches back at least to where the one before it ended, and does not
      end before it. */
  datatype Window = Window(from: int, till: int)

  predicate Follows(prior: Window, next: Window) {
    next.from <= prior.till <= next.till
  }

  /** Successive complete windows leave no gap: every instant from the beginning of the
      first to the end of the last lies in one of them. */
  lemma {:induction false} NoGap(windows: seq<Window>, at: int)
    requires windows != []
    requires forall i :: 0 < i < |windows| ==> Follows(windows[i - 1], windows[i])
    requires windows[0].from <= at <= windows[|windows| - 1].till
    ensures exists i :: 0 <= i < |windows| && windows[i].from <= at <= windows[i].till
  {
    var n := |windows| - 1;
    if windows[n].from <= at {
      assert windows[n].from <= at <= windows[n].till;
    } else {
      assert n > 0;
      assert Follows(windows[n - 1], windows[n]);
      NoGap(windows[..n], at);
      var i :| 0 <= i < n && windows[..n][i].from <= at <= windows[..n][i].till;
      assert windows[i] == windows[..n][i];
    }
  }

  // ---------- The collector ----------

  class GroupCollector {
    const values: ValueCache
    const limit: int
    const maxSplitDepth: nat
    const overlapMin: int
    const overlapMax: int
    /** The watermark of every batch. */
    var states: map<string, int>
    /** The rounds of a batch that were completed, oldest first. */
    ghost var history: map<string, seq<Round>>

    ghost predicate Configured() {
      limit >= 1 && maxSplitDepth >= 1 && 0 <= overlapMin <= overlapMax
    }

    constructor (values: ValueCache, limit: int, maxSplitDepth: nat, overlapMin: int, overlapMax: int)
      requires limit >= 1 && maxSplitDepth >= 1 && 0 <= overlapMin <= overlapMax
      ensures Configured() && Remembers() && states == map[] && this.values == values
    {
      this.values, this.limit, this.maxSplitDepth := values, limit, maxSplitDepth;
      this.overlapMin, this.overlapMax := overlapMin, overlapMax;
      states, history := map[], map[];
    }

    /** Every watermark is where the window of the last completed round of its batch ended;
        the windows follow one another, and each of those rounds collected all its items. */
    ghost predicate Remembers()
      reads this`states, this`history
    {
      && history.Keys == states.Keys
      && forall id :: id in states ==> Reaches(history[id], states[id])
    }

    function Watermark(id: string): int
      reads this`states
    {
      if id in states then states[id] else ZERO_TIME
    }

    function TermsFor(timeFrom: int, timeTill: int, delay: int, snapshot: Option<Snapshot>,
                      around: Surroundings): Terms
    {
      Terms(timeFrom, timeTill, delay, limit, maxSplitDepth, snapshot, around, values.slotOf)
    }

    /** Asks for a list of items and splits it in two as long as the answer may be
        truncated. The parts are those of the plan, make up the list in order, and what came
        of each is what its own answer and the cache as it then was decide. */
    method Query(query: HistoryQuery, delay: int, snapshot: Option<Snapshot>, depth: nat, step: nat,
                 around: Surroundings)
      returns (result: QueryResult, next: nat, ghost leaves: seq<Leaf>)
      requires Configured() && values.Valid() && depth <= maxSplitDepth
      modifies values, values.shards
      ensures values.Valid()
      ensures var terms := TermsFor(query.timeFrom, query.timeTill, delay, snapshot, around);
              && PlanFor(terms, Part(query.itemIDs, depth, step)) == Plan(PartsOf(leaves), next)
              && Collected(terms, leaves, old(values.flat), old(values.nextValueVersion))
      ensures SumsUp(result, leaves) && ItemsOf(leaves) == query.itemIDs
      ensures values.flat == Replay(old(values.flat), LogOf(leaves))
      ensures values.nextValueVersion == old(values.nextValueVersion) + InstallCount(LogOf(leaves))
      decreases |query.itemIDs|
    {
      hide ValueCache.Valid, ItemsOf, MissesOf, AppliedOf, Asked, SumsUp, PlanFor, Meets, Collected, LogOf, Replay,
        InstallCount, PartsOf, LimitFor;
      ghost var terms := TermsFor(query.timeFrom, query.timeTill, delay, snapshot, around);
      ghost var part := Part(query.itemIDs, depth, step);
      ghost var flat, version := values.flat, values.nextValueVersion;
      if around.cancelled(step) {
        result := QueryResult(false, 0, 0, 0, [], ZERO_TIME, false, true);
        ghost var leaf := Leaf(part, Cancelled, ZERO_TIME, map[], []);
        Untouched(terms, leaf, result, flat, version);
        return result, step + 1, [leaf];
      }
      var limited := QueryLimit(query, delay, limit);
      var request := query.(limit := limited);
      var batch := (around.reader)(step, request).(itemIDs := query.itemIDs);
      assert batch == AnswerTo(terms, part) && request == RequestFor(terms, part);
      if Truncated(batch, limited) {
        if |query.itemIDs| < 2 || depth >= maxSplitDepth {
          result := QueryResult(false, 1, 0, 0, [], batch.finishedAt, true, true);
          ghost var leaf := Leaf(part, Unsplittable, batch.finishedAt, map[], []);
          Untouched(terms, leaf, result, flat, version);
          return result, step + 1, [leaf];
        }
        var middle := |query.itemIDs| / 2;
        var left, right;
        ghost var a, b;
        left, next, a := Query(request.(itemIDs := query.itemIDs[..middle]), delay, snapshot, depth + 1, step + 1,
                               around);
        right, next, b := Query(request.(itemIDs := query.itemIDs[middle..]), delay, snapshot, depth + 1, next, around);
        leaves := a + b;
        PlanHalves(terms, part);
        PartsAppend(a, b);
        CollectedAppend(terms, a, b, flat, version);
        MergeSumsUp(left, right, a, b);
        LeavesAppend(a, b);
        assert query.itemIDs == query.itemIDs[..middle] + query.itemIDs[middle..];
        return MergeSplit(left, right), next, leaves;
      }
      ghost var leaf;
      result, leaf := ApplyAnswer(batch, delay, query.timeTill, snapshot, (around.queried)(step), (around.locked)(step),
                                  terms, part);
      PlanWhole(terms, part);
      leaves := [leaf];
      next := step + 1;
    }

    /** Applies an answer that is not truncated. */
    method ApplyAnswer(batch: BatchResult, delay: int, queryTill: int, snapshot: Option<Snapshot>,
                       queried: nat -> bool, locked: string -> bool, ghost terms: Terms, ghost part: Part)
      returns (result: QueryResult, ghost leaf: Leaf)
      requires values.Valid() && batch == AnswerTo(terms, part)
      requires !terms.around.cancelled(part.step) && !MayBeTruncated(terms, part)
      requires delay == terms.delay && queryTill == terms.timeTill && snapshot == terms.snapshot
      requires queried == (terms.around.queried)(part.step) && locked == (terms.around.locked)(part.step)
      requires values.slotOf == terms.slotOf
      modifies values, values.shards
      ensures values.Valid() && leaf.part == part
      ensures SumsUp(result, [leaf]) && ItemsOf([leaf]) == part.itemIDs && PartsOf([leaf]) == [part]
      ensures Collected(terms, [leaf], old(values.flat), old(values.nextValueVersion))
      ensures values.flat == Replay(old(values.flat), LogOf([leaf]))
      ensures values.nextValueVersion == old(values.nextValueVersion) + InstallCount(LogOf([leaf]))
    {
      hide ValueCache.Valid, ItemsOf, MissesOf, AppliedOf, Asked, SumsUp, JustifiedLog, Reports, Replay, Accounts,
        RefusedResult, InstallCount, LogOf, Collected, PartsOf, FetchTime, StillRelevant, MayBeTruncated, IsLatest,
        AppliedTo, Tells, RegistersNew, EntriesOf;
      ghost var flat, version := values.flat, values.nextValueVersion;
      if batch.status != BatchStatus.Success && batch.status != BatchStatus.Empty {
        result := QueryResult(false, 1, 0, 0, [], batch.finishedAt, false, true);
        leaf := Leaf(part, Failed, batch.finishedAt, map[], []);
        EmptyLog(flat);
      } else {
        var filtered, points := FilterExpiredLatest(batch, delay, queryTill);
        var apply, registered, log, latest := values.ApplyBatch(filtered, snapshot, queried, locked);
        assert snapshot.Some? ==> latest == filtered.latest.value by {
          LatestGiven(latest, filtered);
        }
        if apply.stale != 0 {
          result := QueryResult(false, 1, 0, 0, [], batch.finishedAt, false, true);
          leaf := Leaf(part, PartOutcome.Stale(apply), batch.finishedAt, points, log);
        } else {
          result := QueryResult(true, 1, 0, apply.created + apply.updated + apply.kept, apply.missItemIDs,
                                batch.finishedAt, false, false);
          leaf := Leaf(part, PartOutcome.Applied(apply), batch.finishedAt, points, log);
        }
      }
      LeafDescribed(leaf, result);
      CollectedOne(terms, leaf, flat, version);
    }

    lemma LatestGiven(latest: map<string, HistoryItem>, batch: BatchResult)
      requires batch.latest.Some?
      ensures IsLatest(latest, batch) ==> latest == batch.latest.value
    {
    }

    /** A part that never reaches the cache. */
    lemma Untouched(terms: Terms, leaf: Leaf, result: QueryResult, flat: Flat, version: nat)
      requires leaf.log == []
      requires if terms.around.cancelled(leaf.part.step) then
                 leaf.outcome == Cancelled && leaf.finishedAt == ZERO_TIME
               else
                 && MayBeTruncated(terms, leaf.part) && leaf.outcome == Unsplittable
                 && leaf.finishedAt == AnswerTo(terms, leaf.part).finishedAt
                 && (|leaf.part.itemIDs| < 2 || leaf.part.depth >= terms.maxSplitDepth)
      requires result == QueryResult(false, if leaf.outcome.Cancelled? then 0 else 1, 0, 0, [], leaf.finishedAt,
                                     leaf.outcome.Unsplittable?, true)
      ensures PlanFor(terms, leaf.part) == Plan(PartsOf([leaf]), leaf.part.step + 1)
      ensures Collected(terms, [leaf], flat, version) && SumsUp(result, [leaf]) && ItemsOf([leaf]) == leaf.part.itemIDs
      ensures flat == Replay(flat, LogOf([leaf])) && InstallCount(LogOf([leaf])) == 0
    {
      LeafDescribed(leaf, result);
      CollectedOne(terms, leaf, flat, version);
      PlanWhole(terms, leaf.part);
      EmptyLog(flat);
      hide Meets, SumsUp, ItemsOf, Collected, Replay, InstallCount;
    }

    /** One round for one batch. The watermark only moves when every part of the query was
        asked over the whole window, answered untruncated, and applied under current
        metadata, and then to the end of a window that reaches back to it; misses are marked
        then and only then, once for each item. */
    method CollectBatch(group: Group, batch: Batch, queryTill: int, snapshot: Option<Snapshot>, step: nat,
                        around: Surroundings)
      returns (result: CollectionResult, next: nat, ghost leaves: seq<Leaf>, ghost afterQuery: Flat)
      requires Configured() && Remembers() && values.Valid() && group.delay > 0 && queryTill != ZERO_TIME
      modifies this`states, this`history, values, values.shards
      ensures Remembers() && values.Valid()
      ensures var before := old(Watermark(batch.id));
              && result.before == before && result.after == Watermark(batch.id)
              && (result.rejected <==> before != ZERO_TIME && queryTill < before)
              && (result.rejected ==> leaves == [] && values.flat == old(values.flat) && !result.complete)
              && result.after == (if result.complete then queryTill else before)
      ensures !result.rejected ==>
        var window := WindowFor(old(Watermark(batch.id)), group.delay, queryTill, overlapMin, overlapMax);
        var terms := TermsFor(window.from, window.till, group.delay, snapshot, around);
        && PlanFor(terms, Part(batch.itemIDs, 0, step)) == Plan(PartsOf(leaves), next)
        && Collected(terms, leaves, old(values.flat), old(values.nextValueVersion))
        && ItemsOf(leaves) == batch.itemIDs && (result.complete <==> AllApplied(leaves))
        && afterQuery == Replay(old(values.flat), LogOf(leaves))
        && (result.complete ==>
              batch.id in history && history[batch.id] ==
                (if batch.id in old(history) then old(history)[batch.id] else []) +
                [Round(batch.itemIDs, terms, leaves, old(values.flat), old(values.nextValueVersion))])
      ensures !result.complete ==> values.flat == if result.rejected then old(values.flat) else afterQuery
      ensures result.complete ==> MissesMarked(afterQuery, values.flat, leaves, queryTill, values.missThreshold)
      ensures forall id :: id != batch.id ==>
        (id in states <==> id in old(states)) && (id in states ==> states[id] == old(states)[id])
    {
      hide ValueCache.Valid, Processed, ItemsOf, MissesOf, AllApplied, SumsUp, MissOps, FirstOccurrences,
        MissesMarked, Reaches, BootstrapWindow, OverlapForDelay, PlanFor, PartsOf, Collected, Replay, LogOf, FinishOf,
        InstallCount;
      leaves, afterQuery, next := [], values.flat, step;
      ghost var flat, version := values.flat, values.nextValueVersion;
      var watermark := State(batch.id);
      ghost var rounds := history[batch.id];
      if watermark != ZERO_TIME && queryTill < watermark {
        return CollectionResult(false, true, watermark, watermark, 0, 0), next, leaves, afterQuery;
      }
      var timeFrom := queryTill - BootstrapWindow(group.delay);
      if watermark != ZERO_TIME {
        timeFrom := watermark - OverlapForDelay(group.delay, overlapMin, overlapMax);
      }
      var attempt;
      attempt, next, leaves :=
        Query(HistoryQuery(batch.itemIDs, timeFrom, queryTill, 0), group.delay, snapshot, 0, step, around);
      CompleteMeansApplied(attempt, leaves);
      afterQuery := values.flat;
      if !attempt.complete {
        return CollectionResult(false, false, watermark, watermark, attempt.queries, 0), next, leaves, afterQuery;
      }
      var misses := MarkMisses(attempt, queryTill, leaves);
      ghost var round := Round(batch.itemIDs, TermsFor(timeFrom, queryTill, group.delay, snapshot, around), leaves,
                               flat, version);
      RoundReaches(rounds, watermark, group.delay, queryTill, overlapMin, overlapMax, round);
      states := states[batch.id := queryTill];
      history := history[batch.id := rounds + [round]];
      return CollectionResult(true, false, watermark, queryTill, attempt.queries, misses), next, leaves, afterQuery;
    }

    /** Marks the misses of a complete query. */
    method MarkMisses(attempt: QueryResult, queryTill: int, ghost leaves: seq<Leaf>) returns (count: nat)
      requires values.Valid() && attempt.misses == MissesOf(leaves)
      requires leaves != [] && attempt.finishedAt == FinishOf(leaves)
      modifies values, values.shards
      ensures values.Valid()
      ensures MissesMarked(old(values.flat), values.flat, leaves, queryTill, values.missThreshold)
    {
      hide ValueCache.Valid, Processed, MissesOf, MissesMarked, MissOps, FirstOccurrences, FinishOf;
      var misses := Strings.SortDistinct(attempt.misses);
      var fetchedAt := attempt.finishedAt;
      if fetchedAt == ZERO_TIME {
        fetchedAt := queryTill;
      }
      MissesListed(attempt, leaves, misses, values.flat, queryTill, values.missThreshold);
      if |misses| > 0 {
        var marked := values.MarkMiss(misses, fetchedAt);
      }
      return |misses|;
    }

    /** The watermark of a batch, remembered from now on. */
    method State(id: string) returns (watermark: int)
      requires Remembers()
      modifies this`states, this`history
      ensures Remembers() && id in states && watermark == states[id] == old(Watermark(id))
      ensures states == old(states)[id := watermark]
      ensures history == old(history)[id := if id in old(history) then old(history)[id] else []]
    {
      if id !in states {
        states := states[id := ZERO_TIME];
        history := history[id := []];
      }
      watermark := states[id];
      assert old(id in states) ==> states == states[id := watermark] && history == history[id := history[id]];
    }

    /** Forgets the batches that no longer exist. */
    method RetainGroups(groups: seq<Group>)
      requires Remembers()
      modifies this`states, this`history
      ensures Remembers()
      ensures forall id :: id in states <==> id in old(states) && Retained(groups, id)
      ensures forall id :: id in states ==> states[id] == old(states)[id] && history[id] == old(history)[id]
    {
      var keep: set<string> := set i, j | 0 <= i < |groups| && 0 <= j < |groups[i].batches| :: groups[i].batches[j].id;
      history := map id | id in history && id in keep :: history[id];
      states := map id | id in states && id in keep :: states[id];
    }
  }

  predicate Retained(groups: seq<Group>, id: string) {
    exists i, j :: 0 <= i < |groups| && 0 <= j < |groups[i].batches| && groups[i].batches[j].id == id
  }

  datatype CollectionResult = CollectionResult(
    complete: bool, rejected: bool, before: int, after: int, queries: nat, misses: nat)

  /** The window of a round: all that may be alive the first time, afterwards everything
      since a little before the watermark. */
  function WindowFor(watermark: int, delay: int, queryTill: int, minimum: int, maximum: int): Window {
    if watermark == ZERO_TIME then
      Window(queryTill - BootstrapWindow(delay), queryTill)
    else
      Window(watermark - OverlapForDelay(delay, minimum, maximum), queryTill)
  }

  /** The first window is the bootstrap window; every later one begins before the watermark by
      an overlap within its bounds, a fifth of the delay unless it meets one. */
  lemma WindowExactly(watermark: int, delay: int, queryTill: int, minimum: int, maximum: int)
    requires 0 <= minimum <= maximum && delay > 0
    ensures var window := WindowFor(watermark, delay, queryTill, minimum, maximum);
            var back := watermark - window.from;
            && window.till == queryTill
            && if watermark == ZERO_TIME then window.from + BootstrapWindow(delay) == queryTill
               else
                 && minimum <= back && (maximum > 0 ==> back <= maximum)
                 && (5 * back <= delay < 5 * back + 5 || back == minimum || back == maximum)
  {
    OverlapWithin(delay, minimum, maximum);
    hide OverlapForDelay;
  }

  /** A round that was completed, with the cache as it found it. */
  datatype Round = Round(itemIDs: seq<string>, terms: Terms, leaves: seq<Leaf>, flat: Flat, nextVersion: nat)

  function WindowOf(round: Round): Window {
    Window(round.terms.timeFrom, round.terms.timeTill)
  }

  ghost predicate Completed(round: Round) {
    && round.terms.limit >= 1
    && ItemsOf(round.leaves) == round.itemIDs && AllApplied(round.leaves)
    && Collected(round.terms, round.leaves, round.flat, round.nextVersion)
  }

  function WindowsOf(rounds: seq<Round>): (windows: seq<Window>)
    ensures |windows| == |rounds|
  {
    seq(|rounds|, i requires 0 <= i < |rounds| => WindowOf(rounds[i]))
  }

  /** The windows follow one another and end at the watermark. */
  ghost predicate Continuous(windows: seq<Window>, watermark: int) {
    && (forall i :: 0 < i < |windows| ==> Follows(windows[i - 1], windows[i]))
    && (windows == [] <==> watermark == ZERO_TIME)
    && (windows != [] ==> windows[|windows| - 1].till == watermark)
  }

  ghost predicate Reaches(rounds: seq<Round>, watermark: int) {
    Continuous(WindowsOf(rounds), watermark) && forall i :: 0 <= i < |rounds| ==> Completed(rounds[i])
  }

  lemma WindowReaches(windows: seq<Window>, watermark: int, delay: int, queryTill: int, minimum: int, maximum: int)
    requires Continuous(windows, watermark) && 0 <= minimum <= maximum && queryTill != ZERO_TIME
    requires watermark == ZERO_TIME || watermark <= queryTill
    ensures Continuous(windows + [WindowFor(watermark, delay, queryTill, minimum, maximum)], queryTill)
  {
    OverlapWithin(delay, minimum, maximum);
    var longer := windows + [WindowFor(watermark, delay, queryTill, minimum, maximum)];
    hide BootstrapWindow, OverlapForDelay;
    forall i | 0 < i < |longer|
      ensures Follows(longer[i - 1], longer[i])
    {
      if i < |windows| {
        assert longer[i - 1] == windows[i - 1] && longer[i] == windows[i];
      }
    }
  }

  lemma RoundReaches(rounds: seq<Round>, watermark: int, delay: int, queryTill: int, minimum: int, maximum: int,
                     round: Round)
    requires Reaches(rounds, watermark) && 0 <= minimum <= maximum && queryTill != ZERO_TIME
    requires watermark == ZERO_TIME || watermark <= queryTill
    requires Completed(round) && WindowOf(round) == WindowFor(watermark, delay, queryTill, minimum, maximum)
    ensures Reaches(rounds + [round], queryTill)
  {
    WindowReaches(WindowsOf(rounds), watermark, delay, queryTill, minimum, maximum);
    assert WindowsOf(rounds + [round]) == WindowsOf(rounds) + [WindowOf(round)];
    hide Completed, Continuous, WindowFor;
  }

  /** A batch that was collected up to its watermark has left out no instant since its first
      completed window began: every instant lies in the window of a round in which each item
      was asked for over that window, answered without truncation, and applied. */
  lemma CollectedWithoutGap(rounds: seq<Round>, watermark: int, at: int)
    requires Reaches(rounds, watermark) && rounds != []
    requires WindowOf(rounds[0]).from <= at <= watermark
    ensures exists i :: 0 <= i < |rounds| && CoveredBy(rounds[i], at)
  {
    hide Completed;
    var windows := WindowsOf(rounds);
    NoGap(windows, at);
    var i :| 0 <= i < |windows| && windows[i].from <= at <= windows[i].till;
    assert Completed(rounds[i]);
    RoundCovers(rounds[i], at);
  }

  ghost predicate CoveredBy(round: Round, at: int) {
    && round.terms.timeFrom <= at <= round.terms.timeTill
    && forall id :: id in round.itemIDs ==>
         exists k :: 0 <= k < |round.leaves| && CollectedIn(round.terms, round.leaves[k], id)
  }

  lemma RoundCovers(round: Round, at: int)
    requires Completed(round) && round.terms.timeFrom <= at <= round.terms.timeTill
    ensures CoveredBy(round, at)
  {
    hide Collected, CollectedIn, AllApplied, ItemsOf;
    forall id | id in round.itemIDs
      ensures exists k :: 0 <= k < |round.leaves| && CollectedIn(round.terms, round.leaves[k], id)
    {
      EveryItemCollected(round.terms, round.leaves, round.flat, round.nextVersion, id);
    }
  }

  /** The instant of a miss: when the last answer had arrived, if that is known. */
  function MissedAt(leaves: seq<Leaf>, queryTill: int): int
    requires leaves != []
  {
    if FinishOf(leaves) == ZERO_TIME then queryTill else FinishOf(leaves)
  }

  /** The misses of a complete query are marked once for each item. */
  ghost predicate MissesMarked(before: Flat, after: Flat, leaves: seq<Leaf>, queryTill: int, threshold: nat) {
    exists misses ::
      && leaves != [] && Strings.Listing(misses, set id | id in MissesOf(leaves))
      && after == Processed(before, MissOps(misses, MissedAt(leaves, queryTill)), threshold).flat
  }

  lemma MissesListed(attempt: QueryResult, leaves: seq<Leaf>, misses: seq<string>, flat: Flat, queryTill: int,
                     threshold: nat)
    requires attempt.misses == MissesOf(leaves) && leaves != []
    requires Strings.Listing(misses, set id | id in attempt.misses)
    ensures FirstOccurrences(misses) == misses
    ensures misses == [] ==> Processed(flat, MissOps(misses, MissedAt(leaves, queryTill)), threshold).flat == flat
    ensures MissesMarked(flat, Processed(flat, MissOps(misses, MissedAt(leaves, queryTill)), threshold).flat, leaves,
                         queryTill, threshold)
  {
    hide MissesOf, FinishOf;
    ListedOnce(misses);
    assert misses == [] ==> MissOps(misses, MissedAt(leaves, queryTill)) == [];
    hide Processed;
  }

  lemma {:induction false} ListedOnce(list: seq<string>)
    requires Strings.StrictlyAscending(list)
    ensures FirstOccurrences(list) == list
  {
    if list != [] {
      var n := |list| - 1;
      ListedOnce(list[..n]);
      if list[n] in list[..n] {
        var i :| 0 <= i < n && list[i] == list[n];
        Strings.LessTrichotomy(list[i], list[n]);
        assert false;
      }
      assert list == list[..n] + [list[n]];
    }
  }
}

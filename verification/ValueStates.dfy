/** The scalar state kept for one item and the computations over it
    (internal/cache/value_state.go). */
module ValueStates {
  import opened Times

  /** Source-timestamp values are published once per version; cycle-timestamp
      values are republished in every cycle until they expire. */
  datatype PublishPolicy = SourceTimestamp | CycleTimestamp

  datatype ValueState = ValueState(
    itemID: string,
    value: real,
    sourceTimestamp: int,
    sourceNS: int,
    lastFetchAt: int,
    lastSuccessAt: int,
    delay: int,
    expireAt: int,
    consecutiveMisses: nat,
    metadataVersion: nat,
    valueVersion: nat,
    lastPublishedVersion: nat,
    lastPublishedTimestamp: int,
    publishSlot: nat,
    publishPolicy: PublishPolicy,
    valid: bool,
    scanSequence: nat)

  const MAX_UINT32: nat := 0xFFFF_FFFF

  function PolicyForDelay(delay: int): PublishPolicy {
    if delay > MINUTE then CycleTimestamp else SourceTimestamp
  }

  /** A fifth of the delay, but never less than thirty seconds. */
  function Grace(delay: int): int {
    Max(Quotient(delay, 5), 30 * SECOND)
  }

  /** How long after its source timestamp a value may be served. */
  function MaxAge(delay: int): int {
    if PolicyForDelay(delay) == SourceTimestamp then
      Max(2 * delay, 90 * SECOND)
    else
      2 * delay + Grace(delay)
  }

  function ValueExpireAt(sourceTimestamp: int, delay: int): int {
    sourceTimestamp + MaxAge(delay)
  }

  function MissInvalidAfter(sourceTimestamp: int, delay: int): int {
    sourceTimestamp + delay + Grace(delay)
  }

  /** Whether a publisher may send the state in a cycle. */
  predicate PublishEligible(state: ValueState, cycleTimestamp: int) {
    && state.valid && cycleTimestamp < state.expireAt
    && match state.publishPolicy
       case SourceTimestamp => state.valueVersion > state.lastPublishedVersion
       case CycleTimestamp =>
         && cycleTimestamp >= state.sourceTimestamp
         && (state.lastPublishedTimestamp == ZERO_TIME || cycleTimestamp > state.lastPublishedTimestamp)
  }

  /** Whether a scrape may show the state, whatever has been published. */
  predicate ScrapeEligible(state: ValueState, scrapeTimestamp: int) {
    && state.valid && scrapeTimestamp < state.expireAt
    && (state.publishPolicy != CycleTimestamp || scrapeTimestamp >= state.sourceTimestamp)
  }

  /** The timestamp a sample carries: the source's own, or that of the cycle. */
  function SampleTimestamp(state: ValueState, cycleTimestamp: int): int {
    if state.publishPolicy == CycleTimestamp then cycleTimestamp else state.sourceTimestamp
  }

  predicate SourceIsNewer(clock: int, ns: int, current: ValueState) {
    var currentClock := UnixSeconds(current.sourceTimestamp);
    clock > currentClock || (clock == currentClock && ns > current.sourceNS)
  }

  /** A state whose derived fields still are what its source point, its delay and
      nothing else determine. */
  predicate Derived(state: ValueState) {
    && state.delay > 0
    && 0 <= state.sourceNS < SECOND
    && state.sourceTimestamp == UnixSeconds(state.sourceTimestamp) * SECOND + state.sourceNS
    && state.expireAt == ValueExpireAt(state.sourceTimestamp, state.delay)
    && state.publishPolicy == PolicyForDelay(state.delay)
  }

  /** A value cannot be declared missing later than it expires: the miss deadline
      never lies beyond the hard expiry. */
  lemma MissDeadlineBeforeExpiry(sourceTimestamp: int, delay: int)
    requires delay > 0
    ensures MissInvalidAfter(sourceTimestamp, delay) <= ValueExpireAt(sourceTimestamp, delay)
  {
  }

  /** The two deadlines of a value. A value is not declared missing before its delay has
      passed and a grace of a fifth of it, in whole nanoseconds, but at least thirty seconds.
      It expires after two delays, but at least ninety seconds, if the delay is at most a
      minute, and otherwise one delay after the miss deadline. */
  lemma DeadlinesExact(sourceTimestamp: int, delay: int)
    requires delay > 0
    ensures var grace := MissInvalidAfter(sourceTimestamp, delay) - sourceTimestamp - delay;
            && grace >= 30_000_000_000 && delay < 5 * (grace + 1)
            && (grace == 30_000_000_000 || 5 * grace <= delay)
    ensures var life := ValueExpireAt(sourceTimestamp, delay) - sourceTimestamp;
            && (delay <= 60_000_000_000 ==>
                  && life >= 2 * delay && life >= 90_000_000_000
                  && (life == 2 * delay || life == 90_000_000_000))
            && (delay > 60_000_000_000 ==>
                  ValueExpireAt(sourceTimestamp, delay) == MissInvalidAfter(sourceTimestamp, delay) + delay)
  {
  }

  /** `SourceIsNewer` orders points exactly by their instant. */
  lemma NewerMeansLater(clock: int, ns: int, current: ValueState)
    requires 0 <= ns < SECOND && Derived(current)
    ensures SourceIsNewer(clock, ns, current) <==> clock * SECOND + ns > current.sourceTimestamp
  {
    var currentClock := UnixSeconds(current.sourceTimestamp);
    if clock > currentClock {
      assert clock * SECOND >= (currentClock + 1) * SECOND;
    } else if clock < currentClock {
      assert (clock + 1) * SECOND <= currentClock * SECOND;
    }
  }
}

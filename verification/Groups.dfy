/** Collection groups and their timing (internal/scheduler/group.go and the pure part of
    internal/scheduler/scheduler.go). */
module Groups {
  import opened Times

  datatype Batch = Batch(id: string, itemIDs: seq<string>)

  datatype Group = Group(id: string, hostID: string, valueType: int, delay: int, batches: seq<Batch>, version: nat)

  /** Items are collected at most once a minute. */
  function CollectionPeriod(delay: int): int {
    if delay <= MINUTE then MINUTE else delay
  }

  /** The period is the longer of a minute and the delay. */
  lemma PeriodIsPositive(delay: int)
    ensures CollectionPeriod(delay) >= MINUTE && CollectionPeriod(delay) >= delay
    ensures CollectionPeriod(delay) == 60_000_000_000 || CollectionPeriod(delay) == delay
  {
  }

  /** A fixed spread of groups over a window; `hash` is any function of the id. */
  function StableOffset(hash: string -> nat, id: string, window: int): int {
    if window <= 0 then 0 else hash(id) % window
  }

  /** Two instants of one cadence. */
  ghost predicate OnCadence(at: int, anchor: int, period: int) {
    exists k: int :: at == anchor + k * period
  }

  lemma CadenceStart(anchor: int, period: int)
    ensures OnCadence(anchor, anchor, period)
  {
    assert anchor == anchor + 0 * period;
  }

  lemma CadenceAdvances(at: int, anchor: int, period: int, n: int)
    requires OnCadence(at, anchor, period)
    ensures OnCadence(at + n * period, anchor, period)
  {
    var k: int :| at == anchor + k * period;
    assert at + n * period == anchor + (k + n) * period;
  }

  /** The first run of a new group: within the bootstrap window. */
  function BootstrapRunAt(hash: string -> nat, now: int, id: string, period: int, spread: int): int {
    now + StableOffset(hash, id, if spread <= 0 || spread > period then period else spread)
  }

  /** It lies within one period from now, and within the configured spread if there is one;
      inside that window it lies where the hash of the id says. */
  lemma BootstrapWithinPeriod(hash: string -> nat, now: int, id: string, period: int, spread: int)
    requires period > 0
    ensures var first := BootstrapRunAt(hash, now, id, period, spread);
            var window := if 0 < spread <= period then spread else period;
            && now <= first < now + window <= now + period
            && OnCadence(first - now, hash(id), window)
  {
    HashOffset(hash, id, if 0 < spread <= period then spread else period);
  }

  /** An offset agrees with the hash of the id up to whole windows. */
  lemma HashOffset(hash: string -> nat, id: string, window: int)
    requires window > 0
    ensures OnCadence(StableOffset(hash, id, window), hash(id), window)
  {
    var turns := hash(id) / window;
    assert hash(id) == turns * window + hash(id) % window;
    assert StableOffset(hash, id, window) == hash(id) + (-turns) * window;
  }

  /** The next run of a group whose period has changed. */
  function NextRunAfter(hash: string -> nat, now: int, id: string, period: int): int {
    if period <= 0 then
      now
    else
      var candidate := now - now % period + StableOffset(hash, id, period);
      if candidate > now then candidate else candidate + period
  }

  /** It lies within one period from now, on the cadence that the hash of the id fixes: a
      group keeps its place in the period whenever it is anchored again. */
  lemma NextRunOnCadence(hash: string -> nat, now: int, id: string, period: int)
    requires period > 0
    ensures var next := NextRunAfter(hash, now, id, period);
            && now < next <= now + period
            && OnCadence(next, hash(id), period)
  {
    HashOffset(hash, id, period);
    var offset := StableOffset(hash, id, period);
    var turns := now / period;
    assert now - now % period == turns * period;
    if turns * period + offset > now {
      assert NextRunAfter(hash, now, id, period) == offset + turns * period;
      CadenceAdvances(offset, hash(id), period, turns);
    } else {
      assert NextRunAfter(hash, now, id, period) == offset + (turns + 1) * period;
      CadenceAdvances(offset, hash(id), period, turns + 1);
    }
  }

  /** The next planned instant after a late run: missed instants are skipped. */
  function AdvancePlanned(planned: int, period: int, now: int): int
    requires period > 0
  {
    var next := planned + period;
    if next > now then next else next + ((now - next) / period + 1) * period
  }

  /** It is the first later instant of the cadence that is still to come. */
  lemma AdvancesToNext(planned: int, period: int, now: int)
    requires period > 0
    ensures var next := AdvancePlanned(planned, period, now);
            && next > now
            && (exists k: int :: k >= 1 && next == planned + k * period)
            && (forall k: int :: k >= 1 && planned + k * period > now ==> next <= planned + k * period)
  {
    var next := planned + period;
    if next > now {
      assert next == planned + 1 * period;
      forall k: int | k >= 1 && planned + k * period > now
        ensures next <= planned + k * period
      {
        Scaled(1, k, period);
      }
    } else {
      var missed := (now - next) / period + 1;
      QuotientBounds(now - next, period);
      assert AdvancePlanned(planned, period, now) == planned + (missed + 1) * period;
      forall k: int | k >= 1 && planned + k * period > now
        ensures AdvancePlanned(planned, period, now) <= planned + k * period
      {
        if k <= missed {
          Scaled(k, missed, period);
        } else {
          Scaled(missed + 1, k, period);
        }
      }
    }
  }

  lemma Scaled(a: int, b: int, period: int)
    requires a <= b && period > 0
    ensures a * period <= b * period
  {
  }

  lemma QuotientBounds(a: int, period: int)
    requires a >= 0 && period > 0
    ensures a / period * period <= a < (a / period + 1) * period
  {
  }

  /** The wait after `failures` failed runs doubles from the base up to the maximum. */
  function RetryAfter(base: int, maximum: int, failures: nat): int {
    if base <= 0 || failures == 0 then 0 else Min(maximum, base * Power2(failures - 1))
  }

  /** The first failure waits the base, and every further one twice as long as the one before,
      never longer than the maximum. */
  lemma RetryDoubles(base: int, maximum: int, failures: nat)
    requires 0 < base <= maximum && failures > 0
    ensures RetryAfter(base, maximum, 1) == base
    ensures RetryAfter(base, maximum, failures + 1) == Min(2 * RetryAfter(base, maximum, failures), maximum)
  {
    Doubling(base, failures - 1);
    assert Power2(0) == 1;
  }

  method RetryDelay(base: int, maximum: int, failures: nat) returns (delay: int)
    requires 0 <= base <= maximum
    ensures delay == RetryAfter(base, maximum, failures)
    ensures 0 <= delay <= maximum
  {
    if base <= 0 || failures == 0 {
      return 0;
    }
    delay := base;
    var i := 1;
    while i < failures && delay < maximum
      invariant 1 <= i <= failures && delay == base * Power2(i - 1) && 0 < delay <= maximum
    {
      Doubling(base, i - 1);
      if delay > maximum / 2 {
        StaysAbove(base, i, failures - 1, maximum);
        return maximum;
      }
      delay := delay * 2;
      i := i + 1;
    }
    StaysAbove(base, i - 1, failures - 1, maximum);
    if delay > maximum {
      return maximum;
    }
  }

  lemma {:induction false} StaysAbove(base: int, i: nat, n: nat, maximum: int)
    requires base > 0 && i <= n
    ensures base * Power2(i) <= base * Power2(n)
    ensures base * Power2(i) >= maximum ==> base * Power2(n) >= maximum
    decreases n - i
  {
    if i < n {
      Doubling(base, i);
      StaysAbove(base, i + 1, n, maximum);
    }
  }
}

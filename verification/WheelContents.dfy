/** What the sparse minute wheel holds, as values: entries by minute, the entries up
    to a minute in the order they are examined, and what one cleanup round does to
    that order (internal/cache/expiry_wheel.go). */
module WheelContents {
  import opened Installs
  import opened Times

  const BUCKET_SECONDS: int := 60

  type Buckets = map<int, seq<ExpiryEntry>>

  /** The minute an instant falls into. */
  function BucketKey(at: int): int {
    Quotient(UnixSeconds(at), BUCKET_SECONDS)
  }

  /** Minutes are counted from the epoch; before it, from above. */
  lemma BucketKeyIsMinute(at: int)
    ensures at >= 0 ==> BucketKey(at) * 60_000_000_000 <= at < (BucketKey(at) + 1) * 60_000_000_000
    ensures at < 0 ==> (BucketKey(at) - 1) * 60_000_000_000 < at <= BucketKey(at) * 60_000_000_000 + 999_999_999
  {
    assert at / SECOND * SECOND <= at < (at / SECOND + 1) * SECOND;
  }

  lemma BucketKeyMonotone(a: int, b: int)
    ensures BucketKey(a) < BucketKey(b) ==> a < b
    ensures a <= b ==> BucketKey(a) <= BucketKey(b)
  {
    SecondsMonotone(a, b);
    QuotientMonotone(UnixSeconds(a), UnixSeconds(b));
    SecondsMonotone(b, a);
    QuotientMonotone(UnixSeconds(b), UnixSeconds(a));
  }

  lemma SecondsMonotone(a: int, b: int)
    ensures a <= b ==> UnixSeconds(a) <= UnixSeconds(b)
  {
  }

  lemma QuotientMonotone(a: int, b: int)
    ensures a <= b ==> Quotient(a, BUCKET_SECONDS) <= Quotient(b, BUCKET_SECONDS)
  {
  }

  function Minute(b: Buckets, key: int): seq<ExpiryEntry> {
    if key in b then b[key] else []
  }

  /** The entries of the minutes from `lo` up to but not including `hi`, minute by minute. */
  ghost function Line(b: Buckets, lo: int, hi: int): seq<ExpiryEntry>
    decreases hi - lo
  {
    if hi <= lo then [] else Line(b, lo, hi - 1) + Minute(b, hi - 1)
  }

  /** Minutes lie within the bounds, none is kept empty, and every entry is in its own. */
  ghost predicate Filed(b: Buckets, lo: int, hi: int) {
    && (forall key :: key in b ==> lo <= key < hi && b[key] != [])
    && (forall key, i :: key in b && 0 <= i < |b[key]| ==> BucketKey(b[key][i].expireAt) == key)
  }

  lemma {:induction false} LineSplit(b: Buckets, lo: int, mid: int, hi: int)
    requires lo <= mid <= hi
    ensures Line(b, lo, hi) == Line(b, lo, mid) + Line(b, mid, hi)
    decreases hi - mid
  {
    if mid < hi {
      LineSplit(b, lo, mid, hi - 1);
      Associate(Line(b, lo, mid), Line(b, mid, hi - 1), Minute(b, hi - 1));
    }
  }

  lemma Associate(a: seq<ExpiryEntry>, b: seq<ExpiryEntry>, c: seq<ExpiryEntry>)
    ensures (a + b) + c == a + (b + c)
  {
  }

  lemma {:induction false} LineSame(b: Buckets, b': Buckets, lo: int, hi: int)
    requires forall key :: lo <= key < hi ==> Minute(b, key) == Minute(b', key)
    ensures Line(b, lo, hi) == Line(b', lo, hi)
    decreases hi - lo
  {
    if lo < hi {
      LineSame(b, b', lo, hi - 1);
    }
  }

  lemma LineEmpty(b: Buckets, lo: int, hi: int)
    requires forall key :: lo <= key < hi ==> key !in b
    ensures Line(b, lo, hi) == []
  {
    LineSame(b, map[], lo, hi);
    EmptyLine(lo, hi);
  }

  lemma {:induction false} EmptyLine(lo: int, hi: int)
    ensures Line(map[], lo, hi) == []
    decreases hi - lo
  {
    if lo < hi {
      EmptyLine(lo, hi - 1);
    }
  }

  lemma LineOne(b: Buckets, key: int)
    ensures Line(b, key, key + 1) == Minute(b, key)
  {
    assert Line(b, key, key) == [];
  }

  /** The bucket of one minute stands between the earlier and the later minutes. */
  lemma LineAround(b: Buckets, lo: int, key: int, hi: int)
    requires lo <= key < hi
    ensures Line(b, lo, hi) == Line(b, lo, key) + Minute(b, key) + Line(b, key + 1, hi)
  {
    LineSplit(b, lo, key, hi);
    LineSplit(b, key, key + 1, hi);
    LineOne(b, key);
    Associate(Line(b, lo, key), Minute(b, key), Line(b, key + 1, hi));
  }

  /** Changing one bucket changes the line there and nowhere else. */
  lemma LineReplaced(b: Buckets, b': Buckets, lo: int, key: int, hi: int)
    requires lo <= key < hi
    requires forall other :: other != key ==> Minute(b, other) == Minute(b', other)
    ensures Line(b', lo, hi) == Line(b, lo, key) + Minute(b', key) + Line(b, key + 1, hi)
  {
    LineAround(b', lo, key, hi);
    LineSame(b, b', lo, key);
    LineSame(b, b', key + 1, hi);
  }

  /** The entries of the least minute come first. */
  lemma LineFirst(b: Buckets, lo: int, key: int, hi: int)
    requires lo <= key < hi && (forall other :: other in b ==> key <= other)
    ensures Line(b, lo, hi) == Minute(b, key) + Line(b, key + 1, hi)
  {
    LineAround(b, lo, key, hi);
    LineEmpty(b, lo, key);
    assert [] + Minute(b, key) == Minute(b, key);
  }

  /** Widening the bounds adds nothing. */
  lemma LineWidened(b: Buckets, lo: int, hi: int, lo': int, hi': int)
    requires Filed(b, lo, hi) && lo' <= lo <= hi <= hi'
    ensures Line(b, lo', hi') == Line(b, lo, hi)
  {
    LineSplit(b, lo', lo, hi');
    LineSplit(b, lo, hi, hi');
    LineEmpty(b, lo', lo);
    LineEmpty(b, hi, hi');
  }

  /** Every entry of a stretch of the line is filed under a minute of that stretch. */
  lemma {:induction false} LineKeys(b: Buckets, floor: int, ceiling: int, lo: int, hi: int)
    requires Filed(b, floor, ceiling)
    ensures forall i :: 0 <= i < |Line(b, lo, hi)| ==> lo <= BucketKey(Line(b, lo, hi)[i].expireAt) < hi
    decreases hi - lo
  {
    if lo < hi {
      LineKeys(b, floor, ceiling, lo, hi - 1);
    }
  }

  // ---------- Splitting entries by whether they are due ----------

  /** The entries that may be deleted at `now`, in order. */
  function DueOf(entries: seq<ExpiryEntry>, now: int): seq<ExpiryEntry> {
    if entries == [] then
      []
    else
      var last := entries[|entries| - 1];
      DueOf(entries[..|entries| - 1], now) + (if last.expireAt > now then [] else [last])
  }

  /** The entries that must wait, in order. */
  function Deferred(entries: seq<ExpiryEntry>, now: int): seq<ExpiryEntry> {
    if entries == [] then
      []
    else
      var last := entries[|entries| - 1];
      Deferred(entries[..|entries| - 1], now) + (if last.expireAt > now then [last] else [])
  }

  lemma {:induction false} DuePartition(entries: seq<ExpiryEntry>, now: int)
    ensures multiset(DueOf(entries, now)) + multiset(Deferred(entries, now)) == multiset(entries)
    ensures |DueOf(entries, now)| + |Deferred(entries, now)| == |entries|
  {
    if entries != [] {
      var n := |entries| - 1;
      DuePartition(entries[..n], now);
      assert entries == entries[..n] + [entries[n]];
      hide DueOf, Deferred;
      DueSnoc(entries[..n], entries[n], now);
    }
  }

  lemma DueSnoc(entries: seq<ExpiryEntry>, last: ExpiryEntry, now: int)
    ensures DueOf(entries + [last], now) ==
      if last.expireAt > now then DueOf(entries, now) else DueOf(entries, now) + [last]
    ensures Deferred(entries + [last], now) ==
      if last.expireAt > now then Deferred(entries, now) + [last] else Deferred(entries, now)
  {
    assert (entries + [last])[..|entries|] == entries;
  }

  lemma {:induction false} DueExpired(entries: seq<ExpiryEntry>, now: int)
    ensures forall e :: e in DueOf(entries, now) ==> e.expireAt <= now && e in entries
    ensures forall e :: e in Deferred(entries, now) ==> e.expireAt > now && e in entries
  {
    if entries != [] {
      var n := |entries| - 1;
      DueExpired(entries[..n], now);
      assert entries == entries[..n] + [entries[n]];
    }
  }

  lemma {:induction false} DueAppend(a: seq<ExpiryEntry>, b: seq<ExpiryEntry>, now: int)
    ensures DueOf(a + b, now) == DueOf(a, now) + DueOf(b, now)
    ensures Deferred(a + b, now) == Deferred(a, now) + Deferred(b, now)
    decreases |b|
  {
    if b == [] {
      assert a + b == a;
    } else {
      var n := |b| - 1;
      DueAppend(a, b[..n], now);
      assert a + b == (a + b[..n]) + [b[n]];
      assert b == b[..n] + [b[n]];
      hide DueOf, Deferred;
      DueSnoc(a + b[..n], b[n], now);
      DueSnoc(b[..n], b[n], now);
      Associate(DueOf(a, now), DueOf(b[..n], now), [b[n]]);
      Associate(Deferred(a, now), Deferred(b[..n], now), [b[n]]);
    }
  }

  lemma {:induction false} AllDue(entries: seq<ExpiryEntry>, now: int)
    requires forall i :: 0 <= i < |entries| ==> entries[i].expireAt <= now
    ensures Deferred(entries, now) == []
  {
    if entries != [] {
      AllDue(entries[..|entries| - 1], now);
    }
  }

  // ---------- One cleanup round ----------

  function Examined(budget: nat, due: nat): nat {
    if budget <= due then budget else due
  }

  /** One round at `now` with a work budget: the examined entries that must wait go
      behind the unexamined ones, the others are gone, later minutes are untouched. */
  ghost predicate Round(b: Buckets, b': Buckets, lo: int, hi: int, now: int, budget: nat) {
    var line := Line(b, lo, BucketKey(now) + 1);
    var n := Examined(budget, |line|);
    && Filed(b, lo, hi) && Filed(b', lo, hi)
    && Line(b', lo, BucketKey(now) + 1) == line[n..] + Deferred(line[..n], now)
    && (forall key :: key > BucketKey(now) ==> Minute(b', key) == Minute(b, key))
  }

  /** The entries a round hands to the store. */
  ghost function Handed(b: Buckets, lo: int, now: int, budget: nat): seq<ExpiryEntry> {
    var line := Line(b, lo, BucketKey(now) + 1);
    DueOf(line[..Examined(budget, |line|)], now)
  }

  /** The whole line is what is due by minute, followed by the later minutes. */
  lemma WholeLine(b: Buckets, lo: int, hi: int, now: int)
    requires Filed(b, lo, hi) && lo <= hi
    ensures var cut := BucketKey(now) + 1;
            && Line(b, lo, hi) == Line(b, lo, cut) + Line(b, Max(lo, cut), hi)
            && (forall i :: 0 <= i < |Line(b, lo, cut)| ==> BucketKey(Line(b, lo, cut)[i].expireAt) < cut)
            && (forall i :: 0 <= i < |Line(b, Max(lo, cut), hi)| ==>
                  BucketKey(Line(b, Max(lo, cut), hi)[i].expireAt) >= cut)
  {
    var cut := BucketKey(now) + 1;
    if cut <= lo {
      assert Line(b, lo, cut) == [];
    } else if cut <= hi {
      LineSplit(b, lo, cut, hi);
    } else {
      LineSplit(b, lo, hi, cut);
      LineEmpty(b, hi, cut);
      assert Line(b, Max(lo, cut), hi) == [];
    }
    LineKeys(b, lo, hi, lo, cut);
    LineKeys(b, lo, hi, Max(lo, cut), hi);
  }

  /** A round replaces the part of the line up to its minute and keeps the rest. */
  lemma RoundLine(b: Buckets, b': Buckets, lo: int, hi: int, now: int, budget: nat)
    requires Round(b, b', lo, hi, now, budget) && lo <= hi
    ensures var line := Line(b, lo, BucketKey(now) + 1);
            var n := Examined(budget, |line|);
            var later := Line(b, Max(lo, BucketKey(now) + 1), hi);
            && Line(b, lo, hi) == line + later
            && Line(b', lo, hi) == line[n..] + Deferred(line[..n], now) + later
  {
    WholeLine(b, lo, hi, now);
    WholeLine(b', lo, hi, now);
    LineSame(b, b', Max(lo, BucketKey(now) + 1), hi);
  }

  lemma RotationConserves(line: seq<ExpiryEntry>, later: seq<ExpiryEntry>, n: nat, now: int)
    requires n <= |line|
    ensures multiset(line + later) ==
      multiset(line[n..] + Deferred(line[..n], now) + later) + multiset(DueOf(line[..n], now))
  {
    hide DueOf, Deferred;
    DuePartition(line[..n], now);
    assert line == line[..n] + line[n..];
    assert multiset(line) == multiset(line[..n]) + multiset(line[n..]);
  }

  /** Nothing is lost: what a round hands over and what it leaves behind are together
      what was there, and only entries that had expired are handed over. */
  lemma RoundConserves(b: Buckets, b': Buckets, lo: int, hi: int, now: int, budget: nat)
    requires Round(b, b', lo, hi, now, budget) && lo <= hi
    ensures multiset(Line(b, lo, hi)) == multiset(Line(b', lo, hi)) + multiset(Handed(b, lo, now, budget))
    ensures |Handed(b, lo, now, budget)| <= budget
    ensures forall e :: e in Handed(b, lo, now, budget) ==> e.expireAt <= now
  {
    RoundLine(b, b', lo, hi, now, budget);
    hide Round, DueOf, Deferred;
    var line := Line(b, lo, BucketKey(now) + 1);
    var n := Examined(budget, |line|);
    RotationConserves(line, Line(b, Max(lo, BucketKey(now) + 1), hi), n, now);
    DuePartition(line[..n], now);
    DueExpired(line[..n], now);
  }

  /** A round that examined everything up to its minute leaves only entries that expire
      later; so does one that ends with nothing left up to its minute. */
  lemma RoundComplete(b: Buckets, b': Buckets, lo: int, hi: int, now: int, budget: nat)
    requires Round(b, b', lo, hi, now, budget) && lo <= hi
    requires |Line(b, lo, BucketKey(now) + 1)| < budget || Line(b', lo, BucketKey(now) + 1) == []
    ensures forall e :: e in Line(b', lo, hi) ==> e.expireAt > now
  {
    var cut := BucketKey(now) + 1;
    var line := Line(b, lo, cut);
    var n := Examined(budget, |line|);
    WholeLine(b', lo, hi, now);
    DueExpired(line[..n], now);
    LaterExpireLater(Line(b', Max(lo, cut), hi), now);
    assert line[n..] + Deferred(line[..n], now) == Line(b', lo, cut);
    hide Line, BucketKey, Round, Deferred, DueOf;
    assert forall e :: e in Line(b', lo, cut) ==> e.expireAt > now;
  }

  lemma LaterExpireLater(entries: seq<ExpiryEntry>, first: int)
    requires forall i :: 0 <= i < |entries| ==> BucketKey(entries[i].expireAt) > BucketKey(first)
    ensures forall i :: 0 <= i < |entries| ==> entries[i].expireAt > first
  {
    forall i | 0 <= i < |entries|
      ensures entries[i].expireAt > first
    {
      BucketKeyMonotone(first, entries[i].expireAt);
    }
  }

  // ---------- Catching up over several rounds ----------

  /** The wheel between successive rounds with no registration in between. */
  ghost predicate Rounds(wheels: seq<Buckets>, nows: seq<int>, lo: int, hi: int, budget: nat) {
    && |wheels| == |nows| + 1
    && (forall j :: 0 <= j < |nows| ==> Round(wheels[j], wheels[j + 1], lo, hi, nows[j], budget))
    && (forall j :: 0 < j < |nows| ==> nows[j - 1] <= nows[j])
  }

  /** The line starts with the old entries not examined yet; behind them nothing
      expires by `first`. */
  ghost predicate Behind(line: seq<ExpiryEntry>, old_: seq<ExpiryEntry>, first: int) {
    && |old_| <= |line| && line[..|old_|] == old_
    && (forall i :: |old_| <= i < |line| ==> line[i].expireAt > first)
  }

  lemma RotateOnce(line: seq<ExpiryEntry>, later: seq<ExpiryEntry>, old_: seq<ExpiryEntry>, n: nat, first: int,
                   now: int)
    requires Behind(line + later, old_, first) && |old_| <= |line| && n <= |line| && first <= now
    ensures Behind(line[n..] + Deferred(line[..n], now) + later, if n <= |old_| then old_[n..] else [], first)
  {
    var rest := if n <= |old_| then old_[n..] else [];
    var after := line[n..] + Deferred(line[..n], now) + later;
    DueExpired(line[..n], now);
    assert after[..|rest|] == rest by {
      forall i | 0 <= i < |rest|
        ensures after[i] == rest[i]
      {
        assert after[i] == line[n + i] == (line + later)[n + i];
      }
    }
    forall i | |rest| <= i < |after|
      ensures after[i].expireAt > first
    {
      if i < |line| - n {
        assert after[i] == (line + later)[n + i];
      } else if i < |line| - n + |Deferred(line[..n], now)| {
        assert after[i] in Deferred(line[..n], now);
      } else {
        assert after[i] == later[i - (|line| - n) - |Deferred(line[..n], now)|];
        assert after[i] == (line + later)[|line| + (i - (|line| - n) - |Deferred(line[..n], now)|)];
      }
    }
  }

  /** The old entries a round has not reached belong to minutes up to the first one, so
      they stand in the part of the line that a later round examines. */
  lemma OldIsDue(b: Buckets, lo: int, hi: int, now: int, old_: seq<ExpiryEntry>, first: int)
    requires Filed(b, lo, hi) && lo <= hi && Behind(Line(b, lo, hi), old_, first) && first <= now
    requires forall i :: 0 <= i < |old_| ==> BucketKey(old_[i].expireAt) <= BucketKey(first)
    ensures |old_| <= |Line(b, lo, BucketKey(now) + 1)|
  {
    WholeLine(b, lo, hi, now);
    BucketKeyMonotone(first, now);
    var cut := BucketKey(now) + 1;
    PrefixWithin(Line(b, lo, cut), Line(b, Max(lo, cut), hi), old_, cut);
  }

  lemma PrefixWithin(line: seq<ExpiryEntry>, later: seq<ExpiryEntry>, prefix: seq<ExpiryEntry>, cut: int)
    requires |prefix| <= |line + later| && (line + later)[..|prefix|] == prefix
    requires forall i :: 0 <= i < |prefix| ==> BucketKey(prefix[i].expireAt) < cut
    requires forall i :: 0 <= i < |later| ==> BucketKey(later[i].expireAt) >= cut
    ensures |prefix| <= |line|
  {
    hide BucketKey;
    assert forall i :: 0 <= i < |prefix| ==> prefix[i] == (line + later)[i];
    assert later != [] ==> (line + later)[|line|] == later[0];
  }

  /** After `rounds` rounds at most `old - rounds * budget` of the entries that stood in
      line at the first round have not been examined. */
  lemma {:induction false} Progressed(wheels: seq<Buckets>, nows: seq<int>, lo: int, hi: int, budget: nat, rounds: nat)
    returns (old_: seq<ExpiryEntry>)
    requires Rounds(wheels, nows, lo, hi, budget) && lo <= hi && rounds <= |nows| && |nows| > 0
    ensures Behind(Line(wheels[rounds], lo, hi), old_, nows[0])
    ensures forall i :: 0 <= i < |old_| ==> BucketKey(old_[i].expireAt) <= BucketKey(nows[0])
    ensures |old_| <= Max(0, |Line(wheels[0], lo, BucketKey(nows[0]) + 1)| - rounds * budget)
    decreases rounds
  {
    hide Rounds, Behind, BucketKey, Line, Max;
    if rounds == 0 {
      old_ := ProgressStart(wheels, nows, lo, hi, budget);
    } else {
      var before := Progressed(wheels, nows, lo, hi, budget, rounds - 1);
      old_ := ProgressStep(wheels, nows, lo, hi, budget, rounds, before);
    }
  }

  lemma ProgressStart(wheels: seq<Buckets>, nows: seq<int>, lo: int, hi: int, budget: nat)
    returns (old_: seq<ExpiryEntry>)
    requires Rounds(wheels, nows, lo, hi, budget) && lo <= hi && |nows| > 0
    ensures Behind(Line(wheels[0], lo, hi), old_, nows[0])
    ensures forall i :: 0 <= i < |old_| ==> BucketKey(old_[i].expireAt) <= BucketKey(nows[0])
    ensures |old_| <= Max(0, |Line(wheels[0], lo, BucketKey(nows[0]) + 1)| - 0 * budget)
  {
    assert Round(wheels[0], wheels[0 + 1], lo, hi, nows[0], budget);
    hide Rounds;
    var cut := BucketKey(nows[0]) + 1;
    WholeLine(wheels[0], lo, hi, nows[0]);
    old_ := Line(wheels[0], lo, cut);
    LaterExpireLater(Line(wheels[0], Max(lo, cut), hi), nows[0]);
    hide Line, BucketKey;
  }

  lemma ProgressStep(wheels: seq<Buckets>, nows: seq<int>, lo: int, hi: int, budget: nat, rounds: nat,
                     before: seq<ExpiryEntry>)
    returns (old_: seq<ExpiryEntry>)
    requires Rounds(wheels, nows, lo, hi, budget) && lo <= hi && 0 < rounds <= |nows|
    requires Behind(Line(wheels[rounds - 1], lo, hi), before, nows[0])
    requires forall i :: 0 <= i < |before| ==> BucketKey(before[i].expireAt) <= BucketKey(nows[0])
    requires |before| <= Max(0, |Line(wheels[0], lo, BucketKey(nows[0]) + 1)| - (rounds - 1) * budget)
    ensures Behind(Line(wheels[rounds], lo, hi), old_, nows[0])
    ensures forall i :: 0 <= i < |old_| ==> BucketKey(old_[i].expireAt) <= BucketKey(nows[0])
    ensures |old_| <= Max(0, |Line(wheels[0], lo, BucketKey(nows[0]) + 1)| - rounds * budget)
  {
    assert Round(wheels[rounds - 1], wheels[rounds - 1 + 1], lo, hi, nows[rounds - 1], budget);
    FirstIsEarliest(nows, rounds - 1);
    hide Round, Rounds, BucketKey, Behind, Line;
    old_ := RoundProgress(wheels[rounds - 1], wheels[rounds], lo, hi, nows[rounds - 1], budget, before, nows[0]);
    Product(rounds, budget);
  }

  lemma Product(rounds: nat, budget: nat)
    requires rounds > 0
    ensures rounds * budget == (rounds - 1) * budget + budget
  {
  }

  lemma RoundProgress(b: Buckets, b': Buckets, lo: int, hi: int, now: int, budget: nat,
                      before: seq<ExpiryEntry>, first: int)
    returns (old_: seq<ExpiryEntry>)
    requires Round(b, b', lo, hi, now, budget) && lo <= hi && first <= now
    requires Behind(Line(b, lo, hi), before, first)
    requires forall i :: 0 <= i < |before| ==> BucketKey(before[i].expireAt) <= BucketKey(first)
    ensures Behind(Line(b', lo, hi), old_, first)
    ensures forall i :: 0 <= i < |old_| ==> BucketKey(old_[i].expireAt) <= BucketKey(first)
    ensures |old_| <= Max(0, |before| - budget)
  {
    RoundLine(b, b', lo, hi, now, budget);
    OldIsDue(b, lo, hi, now, before, first);
    hide Round, BucketKey, Behind;
    var line := Line(b, lo, BucketKey(now) + 1);
    var n := Examined(budget, |line|);
    RotateOnce(line, Line(b, Max(lo, BucketKey(now) + 1), hi), before, n, first, now);
    old_ := if n <= |before| then before[n..] else [];
  }

  lemma {:induction false} FirstIsEarliest(nows: seq<int>, j: nat)
    requires j < |nows| && (forall i :: 0 < i < |nows| ==> nows[i - 1] <= nows[i])
    ensures nows[0] <= nows[j]
  {
    if j > 0 {
      FirstIsEarliest(nows, j - 1);
    }
  }

  /** Catching up: with as many rounds as the budget needs to cover the entries that
      stand in line at the first round, every entry expired by then has been handed to
      the store, because entries that must wait are put behind the unexamined ones. */
  lemma CatchUp(wheels: seq<Buckets>, nows: seq<int>, lo: int, hi: int, budget: nat)
    requires Rounds(wheels, nows, lo, hi, budget) && lo <= hi && |nows| > 0
    requires |nows| * budget >= |Line(wheels[0], lo, BucketKey(nows[0]) + 1)|
    ensures forall e :: e in Line(wheels[|nows|], lo, hi) ==> e.expireAt > nows[0]
  {
    var rest := Progressed(wheels, nows, lo, hi, budget, |nows|);
    assert rest == [];
  }
}

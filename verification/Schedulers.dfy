/** The collection scheduler: a heap of groups on fixed cadences with retries laid over
    them, a bounded task channel, and a worker pool (internal/scheduler/scheduler.go,
    internal/scheduler/worker_pool.go). */
module Schedulers {
  import opened GroupHeaps
  import opened Groups
  import opened Options
  import opened Times

  datatype Task = Task(group: Group, scheduledAt: int)

  /** A finished run that the dispatcher has not handled yet. */
  datatype Done = Done(groupID: string, delay: int, failed: bool)

  function Get(inFlight: map<string, nat>, id: string): nat {
    if id in inFlight then inFlight[id] else 0
  }

  function CountTasks(tasks: seq<Task>, id: string): nat {
    if tasks == [] then
      0
    else
      CountTasks(tasks[..|tasks| - 1], id) + (if tasks[|tasks| - 1].group.id == id then 1 else 0)
  }

  function CountExecuting(executing: seq<Option<Task>>, id: string): nat {
    if executing == [] then
      0
    else
      var last := executing[|executing| - 1];
      CountExecuting(executing[..|executing| - 1], id) + (if last.Some? && last.value.group.id == id then 1 else 0)
  }

  function CountDone(done: seq<Done>, id: string): nat {
    if done == [] then
      0
    else
      CountDone(done[..|done| - 1], id) + (if done[|done| - 1].groupID == id then 1 else 0)
  }

  /** For every group the in-flight count is its queued, executing and unreported runs,
      and there is at most one. */
  ghost predicate SingleFlight(inFlight: map<string, nat>, tasks: seq<Task>, executing: seq<Option<Task>>,
                               done: seq<Done>)
  {
    forall id :: Get(inFlight, id) == CountTasks(tasks, id) + CountExecuting(executing, id) + CountDone(done, id) <= 1
  }

  // ---------- One run through the pipeline ----------

  lemma CountTasksSnoc(tasks: seq<Task>, task: Task, id: string)
    ensures CountTasks(tasks + [task], id) == CountTasks(tasks, id) + (if task.group.id == id then 1 else 0)
  {
    assert (tasks + [task])[..|tasks|] == tasks;
  }

  lemma {:induction false} CountTasksFirst(tasks: seq<Task>, id: string)
    requires tasks != []
    ensures CountTasks(tasks, id) == CountTasks(tasks[1..], id) + (if tasks[0].group.id == id then 1 else 0)
  {
    var n := |tasks| - 1;
    if n > 0 {
      CountTasksFirst(tasks[..n], id);
      assert tasks[..n][1..] == tasks[1..][..n - 1];
    }
  }

  lemma {:induction false} CountExecutingAfter(executing: seq<Option<Task>>, w: nat, task: Option<Task>, id: string)
    requires w < |executing|
    ensures CountExecuting(executing[w := task], id)
        + (if executing[w].Some? && executing[w].value.group.id == id then 1 else 0)
      == CountExecuting(executing, id) + (if task.Some? && task.value.group.id == id then 1 else 0)
  {
    var n := |executing| - 1;
    if w < n {
      CountExecutingAfter(executing[..n], w, task, id);
      assert executing[w := task][..n] == executing[..n][w := task];
    } else {
      assert executing[w := task][..n] == executing[..n];
    }
  }

  lemma CountDoneSnoc(done: seq<Done>, d: Done, id: string)
    ensures CountDone(done + [d], id) == CountDone(done, id) + (if d.groupID == id then 1 else 0)
  {
    assert (done + [d])[..|done|] == done;
  }

  lemma {:induction false} CountDoneWithout(done: seq<Done>, i: nat, id: string)
    requires i < |done|
    ensures CountDone(done[..i] + done[i + 1..], id) + (if done[i].groupID == id then 1 else 0) == CountDone(done, id)
  {
    var n := |done| - 1;
    if i < n {
      CountDoneWithout(done[..n], i, id);
      assert (done[..i] + done[i + 1..])[..n - 1] == done[..n][..i] + done[..n][i + 1..];
    } else {
      assert done[..i] + done[i + 1..] == done[..n];
    }
  }

  lemma FlightAfterQueue(inFlight: map<string, nat>, tasks: seq<Task>, executing: seq<Option<Task>>, done: seq<Done>,
                         task: Task)
    requires SingleFlight(inFlight, tasks, executing, done) && Get(inFlight, task.group.id) == 0
    ensures SingleFlight(inFlight[task.group.id := 1], tasks + [task], executing, done)
  {
    hide CountTasks, CountExecuting, CountDone;
    forall id: string
      ensures Get(inFlight[task.group.id := 1], id)
        == CountTasks(tasks + [task], id) + CountExecuting(executing, id) + CountDone(done, id) <= 1
    {
      CountTasksSnoc(tasks, task, id);
    }
  }

  lemma FlightAfterTake(inFlight: map<string, nat>, tasks: seq<Task>, executing: seq<Option<Task>>, done: seq<Done>,
                        w: nat)
    requires SingleFlight(inFlight, tasks, executing, done)
    requires tasks != [] && w < |executing| && executing[w].None?
    ensures SingleFlight(inFlight, tasks[1..], executing[w := Some(tasks[0])], done)
  {
    hide CountTasks, CountExecuting, CountDone;
    forall id: string
      ensures Get(inFlight, id) ==
        CountTasks(tasks[1..], id) + CountExecuting(executing[w := Some(tasks[0])], id) + CountDone(done, id) <= 1
    {
      CountTasksFirst(tasks, id);
      CountExecutingAfter(executing, w, Some(tasks[0]), id);
    }
  }

  lemma FlightAfterReport(inFlight: map<string, nat>, tasks: seq<Task>, executing: seq<Option<Task>>, done: seq<Done>,
                          w: nat, d: Done)
    requires SingleFlight(inFlight, tasks, executing, done)
    requires w < |executing| && executing[w].Some? && d.groupID == executing[w].value.group.id
    ensures SingleFlight(inFlight, tasks, executing[w := None], done + [d])
  {
    hide CountTasks, CountExecuting, CountDone;
    forall id: string
      ensures Get(inFlight, id) ==
        CountTasks(tasks, id) + CountExecuting(executing[w := None], id) + CountDone(done + [d], id) <= 1
    {
      CountExecutingAfter(executing, w, None, id);
      CountDoneSnoc(done, d, id);
    }
  }

  lemma FlightAfterDone(inFlight: map<string, nat>, tasks: seq<Task>, executing: seq<Option<Task>>, done: seq<Done>,
                        i: nat)
    requires SingleFlight(inFlight, tasks, executing, done) && i < |done|
    ensures Get(inFlight, done[i].groupID) == 1
    ensures SingleFlight(inFlight - {done[i].groupID}, tasks, executing, done[..i] + done[i + 1..])
  {
    hide CountTasks, CountExecuting, CountDone;
    var d := done[i];
    CountDoneWithout(done, i, d.groupID);
    forall id: string
      ensures Get(inFlight - {d.groupID}, id) ==
        CountTasks(tasks, id) + CountExecuting(executing, id) + CountDone(done[..i] + done[i + 1..], id) <= 1
    {
      CountDoneWithout(done, i, id);
    }
  }

  lemma {:induction false} NobodyExecutes(executing: seq<Option<Task>>, id: string)
    requires forall w :: 0 <= w < |executing| ==> executing[w].None?
    ensures CountExecuting(executing, id) == 0
  {
    if executing != [] {
      NobodyExecutes(executing[..|executing| - 1], id);
    }
  }

  // ---------- Entries ----------

  /** Everything about an entry but its place in the queue. */
  datatype EntryState = EntryState(
    group: Group, nextRunAt: int, nextCadence: int, retrying: bool, failures: nat, lastPlanned: int, anchor: int)

  ghost function StateOf(e: GroupEntry): EntryState
    reads e`group, e`nextRunAt, e`nextCadence, e`retrying, e`failures, e`lastPlanned, e`anchor
  {
    EntryState(e.group, e.nextRunAt, e.nextCadence, e.retrying, e.failures, e.lastPlanned, e.anchor)
  }

  /** An entry stays on the cadence fixed by its anchor: always with its next regular
      instant, and with its next run unless a retry is laid over it. */
  ghost predicate OnTrack(id: string, e: EntryState) {
    var period := CollectionPeriod(e.group.delay);
    && e.group.id == id && e.group.delay > 0
    && OnCadence(e.nextCadence, e.anchor, period)
    && (!e.retrying ==> OnCadence(e.nextRunAt, e.anchor, period))
  }

  /** The regular instant a due entry moves on to: a retry gives way to the cadence it was
      laid over, and instants already missed are skipped. */
  function NextRegular(e: EntryState, now: int): int {
    var period := CollectionPeriod(e.group.delay);
    if e.retrying then
      if e.nextCadence > now then e.nextCadence else AdvancePlanned(e.nextCadence, period, now)
    else
      AdvancePlanned(e.nextRunAt, period, now)
  }

  function Advanced(e: EntryState, now: int): EntryState {
    e.(nextRunAt := NextRegular(e, now), nextCadence := NextRegular(e, now), retrying := false,
       lastPlanned := e.nextRunAt)
  }

  /** Moving on, said without the arithmetic: the entry goes to the first instant after `now`
      that lies whole periods after the one it is due at or, while it retries, at or after the
      cadence the retry was laid over. */
  ghost predicate MovesOn(before: EntryState, after: EntryState, now: int) {
    var period := CollectionPeriod(before.group.delay);
    && after.group == before.group && after.anchor == before.anchor && after.failures == before.failures
    && !after.retrying && after.nextCadence == after.nextRunAt && after.lastPlanned == before.nextRunAt
    && after.nextRunAt > now
    && (exists k: int :: OnRun(before, k) && after.nextRunAt == NthRun(before, k))
    && (forall k: int :: OnRun(before, k) && NthRun(before, k) > now ==> after.nextRunAt <= NthRun(before, k))
  }

  /** The regular instants still open to an entry that is due. */
  predicate OnRun(e: EntryState, k: int) {
    if e.retrying then k >= 0 else k >= 1
  }

  function NthRun(e: EntryState, k: int): int {
    (if e.retrying then e.nextCadence else e.nextRunAt) + k * CollectionPeriod(e.group.delay)
  }

  lemma AdvancedMovesOn(e: EntryState, now: int)
    ensures MovesOn(e, Advanced(e, now), now)
  {
    var period := CollectionPeriod(e.group.delay);
    var from := if e.retrying then e.nextCadence else e.nextRunAt;
    AdvancesToNext(from, period, now);
    hide AdvancePlanned;
    if e.retrying && e.nextCadence > now {
      assert OnRun(e, 0) && NthRun(e, 0) == e.nextCadence;
      forall k: int | OnRun(e, k)
        ensures e.nextCadence <= NthRun(e, k)
      {
        Scaled(0, k, period);
      }
    } else {
      var k: int :| k >= 1 && AdvancePlanned(from, period, now) == from + k * period;
      assert OnRun(e, k) && NthRun(e, k) == Advanced(e, now).nextRunAt;
      forall k: int | OnRun(e, k) && NthRun(e, k) > now
        ensures Advanced(e, now).nextRunAt <= NthRun(e, k)
      {
        assert k != 0 || !e.retrying;
      }
    }
  }

  /** A retry never costs a regular run: once it has run, the group goes on where it would
      have gone on without it. */
  lemma RetryCostsNothing(e: EntryState, at: int, now: int)
    requires !e.retrying && at <= now
    ensures var resumed := Advanced(Retried(e, at), now);
            && (e.nextRunAt > now ==> resumed.nextRunAt == e.nextRunAt)
            && (e.nextRunAt <= now ==> resumed.nextRunAt == Advanced(e, now).nextRunAt)
            && !resumed.retrying && resumed.nextCadence == resumed.nextRunAt
  {
  }

  /** A retry laid over the cadence. */
  function Retried(e: EntryState, at: int): EntryState {
    e.(nextCadence := e.nextRunAt, nextRunAt := at, retrying := true)
  }

  lemma AdvancedOnTrack(id: string, e: EntryState, now: int)
    requires OnTrack(id, e)
    ensures OnTrack(id, Advanced(e, now)) && Advanced(e, now).nextRunAt > now
  {
    hide OnCadence, AdvancePlanned;
    var period := CollectionPeriod(e.group.delay);
    var from := if e.retrying then e.nextCadence else e.nextRunAt;
    AdvancesToNext(from, period, now);
    var k: int :| k >= 1 && AdvancePlanned(from, period, now) == from + k * period;
    CadenceAdvances(from, e.anchor, period, k);
  }

  lemma RetriedOnTrack(id: string, e: EntryState, at: int)
    requires OnTrack(id, e) && !e.retrying
    ensures OnTrack(id, Retried(e, at))
  {
  }

  ghost predicate Matches(entries: map<string, GroupEntry>, members: set<GroupEntry>) {
    && (forall id :: id in entries ==> entries[id] in members && entries[id].id == id)
    && (forall e :: e in members ==> e.id in entries && entries[e.id] == e)
  }

  /** What a dispatch makes of an entry that was due: it has moved on along its cadence, and
      if its task found the channel full a retry is laid over that. */
  ghost predicate Dispatched(before: EntryState, after: EntryState, now: int, retryBase: int) {
    || after == Advanced(before, now)
    || after == Retried(Advanced(before, now), now + retryBase)
  }

  lemma DispatchedLater(id: string, before: EntryState, now: int, retryBase: int)
    requires OnTrack(id, before) && retryBase > 0
    ensures Advanced(before, now).nextRunAt > now
    ensures Dispatched(before, Advanced(before, now), now, retryBase)
    ensures Dispatched(before, Retried(Advanced(before, now), now + retryBase), now, retryBase)
  {
    AdvancedOnTrack(id, before, now);
    hide Advanced, OnTrack;
  }

  // ---------- Replacing the groups ----------

  /** A group that can be scheduled. */
  predicate Usable(group: Group) {
    group.id != "" && group.delay > 0 && group.batches != []
  }

  /** The groups to schedule, by id; the last definition of an id wins. */
  function Desired(groups: seq<Group>): (desired: map<string, Group>)
    ensures forall id :: id in desired ==> desired[id].id == id && Usable(desired[id])
  {
    if groups == [] then
      map[]
    else
      var last := groups[|groups| - 1];
      var others := Desired(groups[..|groups| - 1]);
      if Usable(last) then others[last.id := last] else others
  }

  /** The state of a group that is scheduled for the first time. */
  function NewState(group: Group, now: int, spread: int, hash: string -> nat): EntryState {
    var period := CollectionPeriod(group.delay);
    var first := BootstrapRunAt(hash, now, group.id, period, spread);
    EntryState(group, first, first + period, false, 0, 0, first)
  }

  /** What a new definition makes of a scheduled group: it keeps its place on the cadence
      unless the period has changed, and then it is anchored again. */
  function Redefined(e: EntryState, group: Group, now: int, hash: string -> nat): EntryState {
    var period := CollectionPeriod(group.delay);
    if CollectionPeriod(e.group.delay) != period || (e.group != group && e.nextRunAt == ZERO_TIME) then
      var next := NextRunAfter(hash, now, group.id, period);
      e.(group := group, nextRunAt := next, nextCadence := next + period, retrying := false, anchor := next)
    else
      e.(group := group)
  }

  /** The list's last usable definition of the id: it has an id, a delay and batches. */
  predicate LastUsable(groups: seq<Group>, i: nat, id: string) {
    && i < |groups| && groups[i].id == id && id != "" && groups[i].delay > 0 && |groups[i].batches| > 0
    && forall j :: i < j < |groups| && groups[j].id == id ==> groups[j].delay <= 0 || |groups[j].batches| == 0
  }

  /** The group to schedule under an id is the last usable one, if there is one. */
  lemma {:induction false} DesiredIsLast(groups: seq<Group>, id: string)
    ensures id in Desired(groups) <==> exists i: nat :: LastUsable(groups, i, id)
    ensures forall i: nat :: LastUsable(groups, i, id) ==> Desired(groups)[id] == groups[i]
  {
    if groups != [] {
      var n := |groups| - 1;
      var shorter := groups[..n];
      DesiredIsLast(shorter, id);
      if groups[n].id == id && Usable(groups[n]) {
        assert LastUsable(groups, n, id);
      } else {
        assert forall i: nat :: LastUsable(groups, i, id) <==> LastUsable(shorter, i, id);
      }
    }
  }

  /** What a replacement makes of a group that was scheduled: it has the new definition and
      keeps its failures. With the period it had, it keeps its place on the cadence and any
      retry; with another it starts a new cadence within one period from now, where the hash
      of its id says, and does not retry. */
  ghost predicate TakesDefinition(before: EntryState, after: EntryState, group: Group, now: int, hash: string -> nat) {
    var period := CollectionPeriod(group.delay);
    && after.group == group && after.failures == before.failures && after.lastPlanned == before.lastPlanned
    && (CollectionPeriod(before.group.delay) == period && before.nextRunAt != ZERO_TIME ==>
          && after.nextRunAt == before.nextRunAt && after.nextCadence == before.nextCadence
          && after.retrying == before.retrying && after.anchor == before.anchor)
    && (CollectionPeriod(before.group.delay) != period ==> AnchoredAnew(after, now, hash))
  }

  ghost predicate AnchoredAnew(e: EntryState, now: int, hash: string -> nat) {
    var period := CollectionPeriod(e.group.delay);
    && now < e.nextRunAt <= now + period && OnCadence(e.nextRunAt, hash(e.group.id), period)
    && e.anchor == e.nextRunAt && e.nextCadence == e.nextRunAt + period && !e.retrying
  }

  /** What a group that is scheduled for the first time starts with: a first run inside the
      bootstrap window, the next one a period later, and no history. */
  ghost predicate StartsWithin(e: EntryState, group: Group, now: int, spread: int) {
    var period := CollectionPeriod(group.delay);
    && e.group == group && now <= e.nextRunAt < now + (if 0 < spread <= period then spread else period)
    && e.anchor == e.nextRunAt && e.nextCadence == e.nextRunAt + period
    && !e.retrying && e.failures == 0
  }

  /** What a list of groups makes of the scheduled groups: exactly the ids with a usable
      definition are scheduled then, each with its last one. */
  ghost predicate Replaced(groups: seq<Group>, before: map<string, EntryState>, after: map<string, EntryState>,
                           now: int, spread: int, hash: string -> nat)
  {
    && (forall id :: id in after ==> exists i: nat :: LastUsable(groups, i, id))
    && (forall id, i: nat :: LastUsable(groups, i, id) ==>
          && id in after
          && (id in before ==> TakesDefinition(before[id], after[id], groups[i], now, hash))
          && (id !in before ==> StartsWithin(after[id], groups[i], now, spread)))
  }

  lemma ReplacedRightly(groups: seq<Group>, before: map<string, EntryState>, after: map<string, EntryState>,
                        now: int, spread: int, hash: string -> nat)
    requires after.Keys == Desired(groups).Keys
    requires forall id :: id in after ==>
      after[id] == if id in before then Redefined(before[id], Desired(groups)[id], now, hash)
                   else NewState(Desired(groups)[id], now, spread, hash)
    ensures Replaced(groups, before, after, now, spread, hash)
  {
    hide Desired, Redefined, NewState, TakesDefinition, StartsWithin;
    forall id: string
      ensures id in after <==> exists i: nat :: LastUsable(groups, i, id)
      ensures forall i: nat :: LastUsable(groups, i, id) ==> Desired(groups)[id] == groups[i]
    {
      DesiredIsLast(groups, id);
    }
    forall id | id in after
      ensures id in before ==> TakesDefinition(before[id], after[id], Desired(groups)[id], now, hash)
      ensures id !in before ==> StartsWithin(after[id], Desired(groups)[id], now, spread)
    {
      if id in before {
        RedefinedTakes(before[id], Desired(groups)[id], now, hash);
      } else {
        NewStartsWithin(Desired(groups)[id], now, spread, hash);
      }
    }
  }

  lemma RedefinedTakes(before: EntryState, group: Group, now: int, hash: string -> nat)
    ensures TakesDefinition(before, Redefined(before, group, now, hash), group, now, hash)
  {
    hide NextRunAfter, OnCadence;
    NextRunOnCadence(hash, now, group.id, CollectionPeriod(group.delay));
  }

  lemma NewStartsWithin(group: Group, now: int, spread: int, hash: string -> nat)
    ensures StartsWithin(NewState(group, now, spread, hash), group, now, spread)
  {
    hide BootstrapRunAt;
    BootstrapWithinPeriod(hash, now, group.id, CollectionPeriod(group.delay), spread);
  }

  lemma NewOnTrack(group: Group, now: int, spread: int, hash: string -> nat)
    requires Usable(group)
    ensures OnTrack(group.id, NewState(group, now, spread, hash))
  {
    var state := NewState(group, now, spread, hash);
    hide BootstrapRunAt;
    AnchoredOnTrack(state.anchor, CollectionPeriod(group.delay));
  }

  lemma AnchoredOnTrack(anchor: int, period: int)
    ensures OnCadence(anchor, anchor, period) && OnCadence(anchor + period, anchor, period)
  {
    CadenceStart(anchor, period);
    CadenceAdvances(anchor, anchor, period, 1);
    assert anchor + 1 * period == anchor + period;
  }

  lemma RedefinedOnTrack(e: EntryState, group: Group, now: int, hash: string -> nat)
    requires OnTrack(group.id, e) && Usable(group)
    ensures OnTrack(group.id, Redefined(e, group, now, hash))
    ensures Redefined(e, group, now, hash).retrying ==> e.retrying
  {
    hide NextRunAfter;
    AnchoredOnTrack(NextRunAfter(hash, now, group.id, CollectionPeriod(group.delay)), CollectionPeriod(group.delay));
  }

  /** A queue under construction: every entry is in its place and on its cadence. */
  ghost predicate Built(items: seq<GroupEntry>, placed: map<string, GroupEntry>)
    reads items
  {
    && (forall i :: 0 <= i < |items| ==>
          && items[i].heapIndex == i && items[i].id in placed && placed[items[i].id] == items[i]
          && OnTrack(items[i].id, StateOf(items[i])))
    && (forall id :: id in placed ==> placed[id] in items && placed[id].id == id)
  }

  ghost predicate InPlace(items: seq<GroupEntry>)
    reads items
  {
    forall i :: 0 <= i < |items| ==> items[i].heapIndex == i
  }

  class Scheduler {
    const queue: GroupHeap
    const capacity: nat
    const retryBase: int
    const retryMax: int
    const bootstrapSpread: int
    const hash: string -> nat
    var entries: map<string, GroupEntry>
    var inFlight: map<string, nat>
    var tasks: seq<Task>
    var executing: seq<Option<Task>>
    var done: seq<Done>

    constructor (queue: GroupHeap, workers: nat, capacity: nat, retryBase: int, retryMax: int, bootstrapSpread: int,
                 hash: string -> nat)
      requires queue.Valid() && queue.items == [] && queue.members == {}
      requires capacity > 0 && 0 < retryBase <= retryMax
      ensures Valid() && this.queue == queue && entries == map[] && |executing| == workers
    {
      this.queue, this.capacity, this.retryBase, this.retryMax := queue, capacity, retryBase, retryMax;
      this.bootstrapSpread, this.hash := bootstrapSpread, hash;
      entries, inFlight, tasks, done := map[], map[], [], [];
      executing := seq(workers, _ => None);
      new;
      forall id: string
        ensures CountExecuting(executing, id) == 0
      {
        NobodyExecutes(executing, id);
      }
    }

    ghost predicate Configured() {
      capacity > 0 && 0 < retryBase <= retryMax
    }

    ghost predicate Tracked()
      reads this`entries, queue, queue.items, queue.members
    {
      && queue.Valid() && Matches(entries, queue.members)
      && (forall e :: e in queue.members ==> OnTrack(e.id, StateOf(e)))
    }

    /** A retry is laid over a cadence only while no run of the group is under way. This is
        what keeps the cadence: a failed run is never handled while a retry is pending. */
    ghost predicate RetriesIdle()
      reads this`inFlight, queue, queue.members
    {
      forall e :: e in queue.members && e.retrying ==> Get(inFlight, e.id) == 0
    }

    ghost predicate Valid()
      reads this, queue, queue.items, queue.members
    {
      Configured() && Tracked() && RetriesIdle() && SingleFlight(inFlight, tasks, executing, done)
    }

    /** Moves a due entry on along its cadence. */
    method Advance(entry: GroupEntry, now: int)
      requires OnTrack(entry.id, StateOf(entry))
      modifies entry`nextRunAt, entry`nextCadence, entry`retrying, entry`lastPlanned
      ensures StateOf(entry) == Advanced(old(StateOf(entry)), now)
      ensures MovesOn(old(StateOf(entry)), StateOf(entry), now)
    {
      AdvancedMovesOn(StateOf(entry), now);
      hide AdvancePlanned, OnCadence, MovesOn;
      var planned := entry.nextRunAt;
      entry.lastPlanned := planned;
      var period := CollectionPeriod(entry.group.delay);
      if entry.retrying {
        entry.nextRunAt := entry.nextCadence;
        if entry.nextRunAt <= now {
          entry.nextRunAt := AdvancePlanned(entry.nextRunAt, period, now);
        }
        entry.retrying := false;
      } else {
        entry.nextRunAt := AdvancePlanned(planned, period, now);
      }
      entry.nextCadence := entry.nextRunAt;
    }

    /** Takes the soonest entry out, moves it on, and puts it back. */
    method MoveOn(now: int) returns (entry: GroupEntry)
      requires Tracked() && queue.items != []
      modifies queue, queue.members
      ensures Tracked() && queue.members == old(queue.members) && |queue.items| == |old(queue.items)|
      ensures entry == old(queue.items[0]) && entry in queue.members
      ensures StateOf(entry) == Advanced(old(StateOf(entry)), now)
      ensures forall e :: e in queue.members && e != entry ==> StateOf(e) == old(StateOf(e))
    {
      hide OnTrack, Advanced, GroupHeap.Valid;
      entry := queue.Pop();
      AdvancedOnTrack(entry.id, StateOf(entry), now);
      queue.Absent(entry);
      Advance(entry, now);
      queue.Push(entry);
      assert queue.members == old(queue.members);
    }

    /** One critical section of the dispatcher: the soonest entry, which is due, moves on,
        and a task for its group is queued unless one is under way or the channel is full.
        `cancelled` says that the context ended first. */
    method DispatchOne(now: int, cancelled: bool) returns (stopped: bool, ghost entry: GroupEntry)
      requires Valid() && queue.items != [] && queue.items[0].nextRunAt <= now
      modifies this`inFlight, this`tasks, queue, queue.members
      ensures Valid() && queue.members == old(queue.members) && |queue.items| == |old(queue.items)|
      ensures entry == old(queue.items[0]) && entry in queue.members
      ensures forall e :: e in queue.members && e != entry ==> StateOf(e) == old(StateOf(e))
      ensures stopped ==> cancelled && StateOf(entry) == Advanced(old(StateOf(entry)), now)
      ensures !stopped ==>
        StateOf(entry) == if old(Get(inFlight, entry.id)) == 0 && |old(tasks)| >= capacity
                          then Retried(Advanced(old(StateOf(entry)), now), now + retryBase)
                          else Advanced(old(StateOf(entry)), now)
      ensures !stopped && old(Get(inFlight, entry.id)) == 0 && |old(tasks)| < capacity ==>
        tasks == old(tasks) + [Task(entry.group, old(entry.nextRunAt))] && inFlight == old(inFlight)[entry.id := 1]
      ensures stopped || old(Get(inFlight, entry.id)) != 0 || |old(tasks)| >= capacity ==>
        tasks == old(tasks) && inFlight == old(inFlight)
    {
      hide OnTrack, SingleFlight, NextRegular, GroupHeap.Valid, Scheduler.Tracked;
      var moved := MoveOn(now);
      entry := moved;
      stopped := Enlist(moved, now, cancelled);
    }

    /** Queues a task for an entry that has moved on, or lays a retry over its cadence when
        the channel is full. */
    method Enlist(entry: GroupEntry, now: int, cancelled: bool) returns (stopped: bool)
      requires Valid() && entry in queue.members && !entry.retrying
      modifies this`inFlight, this`tasks, queue, queue.members
      ensures Valid() && queue.members == old(queue.members) && |queue.items| == |old(queue.items)|
      ensures forall e :: e in queue.members && e != entry ==> StateOf(e) == old(StateOf(e))
      ensures stopped ==> cancelled && StateOf(entry) == old(StateOf(entry))
      ensures !stopped ==>
        StateOf(entry) == if old(Get(inFlight, entry.id)) == 0 && |old(tasks)| >= capacity
                          then Retried(old(StateOf(entry)), now + retryBase)
                          else old(StateOf(entry))
      ensures !stopped && old(Get(inFlight, entry.id)) == 0 && |old(tasks)| < capacity ==>
        tasks == old(tasks) + [Task(entry.group, old(entry.lastPlanned))] && inFlight == old(inFlight)[entry.id := 1]
      ensures stopped || old(Get(inFlight, entry.id)) != 0 || |old(tasks)| >= capacity ==>
        tasks == old(tasks) && inFlight == old(inFlight)
    {
      hide OnTrack, SingleFlight, GroupHeap.Valid;
      GroupKnown(entry);
      if Get(inFlight, entry.id) != 0 {
        return false;
      }
      if cancelled {
        return true;
      }
      if |tasks| < capacity {
        var task := Task(entry.group, entry.lastPlanned);
        FlightAfterQueue(inFlight, tasks, executing, done, task);
        tasks := tasks + [task];
        inFlight := inFlight[entry.id := 1];
        return false;
      }
      LayRetry(entry, now + retryBase);
      return false;
    }

    /** Lays a retry over the cadence of an entry and restores the queue's order. */
    method LayRetry(entry: GroupEntry, at: int)
      requires Tracked() && entry in queue.members && !entry.retrying
      modifies queue, queue.members
      ensures Tracked() && queue.members == old(queue.members) && |queue.items| == |old(queue.items)|
      ensures StateOf(entry) == Retried(old(StateOf(entry)), at)
      ensures forall e :: e in queue.members && e != entry ==> StateOf(e) == old(StateOf(e))
    {
      hide OnTrack, GroupHeap.Valid;
      RetriedOnTrack(entry.id, StateOf(entry), at);
      entry.nextCadence := entry.nextRunAt;
      entry.retrying := true;
      queue.Reschedule(entry, at);
    }

    lemma GroupKnown(e: GroupEntry)
      requires Tracked() && e in queue.members
      ensures e.group.id == e.id
    {
    }

    /** The due entries. */
    ghost function Due(now: int): set<GroupEntry>
      reads queue, queue.members
    {
      set e | e in queue.members && e.nextRunAt <= now
    }

    /** Since the dispatcher began, an entry is untouched, or it was due and has been
        dispatched past `now`. */
    ghost predicate Since(begin: map<GroupEntry, EntryState>, now: int)
      reads queue, queue.members
    {
      forall e :: e in queue.members ==>
        && e in begin
        && (StateOf(e) == begin[e] ||
            (begin[e].nextRunAt <= now < e.nextRunAt && Dispatched(begin[e], StateOf(e), now, retryBase)))
    }

    /** One turn of the dispatcher takes one entry out of those that are due. */
    method DispatchNext(now: int, cancelled: bool, ghost begin: map<GroupEntry, EntryState>) returns (stopped: bool)
      requires Valid() && queue.items != [] && queue.items[0].nextRunAt <= now && Since(begin, now)
      modifies this`inFlight, this`tasks, queue, queue.members
      ensures Valid() && queue.members == old(queue.members) && Since(begin, now)
      ensures stopped ==> cancelled
      ensures !stopped ==> |Due(now)| < |old(Due(now))|
    {
      hide Dispatched, Advanced, Retried, OnTrack, Scheduler.Valid, GroupHeap.Valid;
      ghost var first := queue.items[0];
      FirstOnTrack();
      DispatchedLater(first.id, StateOf(first), now, retryBase);
      RetriedLater(Advanced(StateOf(first), now), now, retryBase);
      ghost var entry;
      ghost var due := Due(now);
      stopped, entry := DispatchOne(now, cancelled);
      assert Due(now) == due - {first};
    }

    lemma FirstOnTrack()
      requires Valid() && queue.items != []
      ensures queue.items[0] in queue.members && OnTrack(queue.items[0].id, StateOf(queue.items[0])) && retryBase > 0
    {
      queue.First();
    }

    lemma RetriedLater(e: EntryState, now: int, retryBase: int)
      requires retryBase > 0
      ensures Retried(e, now + retryBase).nextRunAt > now
    {
    }

    /** Dispatches everything that is due. It ends because every entry it touches moves past
        `now`. Unless the context ends, no entry is due afterwards: entries that were not
        due are untouched, the others have moved on along their cadence, with a retry laid
        over it if their task found the channel full. */
    method DispatchDue(now: int, cancelled: nat -> bool) returns (stopped: bool)
      requires Valid()
      modifies this`inFlight, this`tasks, queue, queue.members
      ensures Valid() && queue.members == old(queue.members)
      ensures !stopped ==> forall e :: e in queue.members ==> e.nextRunAt > now
      ensures Since(old(Snapshot()), now)
      ensures stopped ==> exists i :: cancelled(i)
    {
      hide Scheduler.Valid, Scheduler.Since, Scheduler.Due;
      ghost var begin := Snapshot();
      Began(now);
      var round := 0;
      while true
        invariant Valid() && queue.members == old(queue.members) && Since(begin, now)
        decreases |Due(now)|
      {
        if |queue.items| == 0 || queue.items[0].nextRunAt > now {
          NothingDue(now);
          return false;
        }
        stopped := DispatchNext(now, cancelled(round), begin);
        if stopped {
          return true;
        }
        round := round + 1;
      }
    }

    ghost function Snapshot(): map<GroupEntry, EntryState>
      reads queue, queue.members
    {
      map e | e in queue.members :: StateOf(e)
    }

    lemma Began(now: int)
      ensures Since(Snapshot(), now)
    {
    }

    lemma NothingDue(now: int)
      requires Valid() && (queue.items == [] || queue.items[0].nextRunAt > now)
      ensures forall e :: e in queue.members ==> e.nextRunAt > now
    {
      forall e | e in queue.members
        ensures e.nextRunAt > now
      {
        queue.Soonest(e);
      }
    }

    // ---------- The worker pool ----------

    /** A worker takes the oldest task. */
    method TakeTask(w: nat)
      requires Valid() && w < |executing| && executing[w].None? && tasks != []
      modifies this`tasks, this`executing
      ensures Valid() && tasks == old(tasks)[1..] && executing == old(executing)[w := Some(old(tasks)[0])]
    {
      hide OnTrack, SingleFlight, GroupHeap.Valid;
      FlightAfterTake(inFlight, tasks, executing, done, w);
      executing := executing[w := Some(tasks[0])];
      tasks := tasks[1..];
    }

    /** A worker has executed its task and reports how it went. */
    method Report(w: nat, failed: bool)
      requires Valid() && w < |executing| && executing[w].Some?
      modifies this`executing, this`done
      ensures Valid() && executing == old(executing)[w := None]
      ensures var group := old(executing)[w].value.group; done == old(done) + [Done(group.id, group.delay, failed)]
    {
      hide OnTrack, SingleFlight, GroupHeap.Valid;
      var group := executing[w].value.group;
      FlightAfterReport(inFlight, tasks, executing, done, w, Done(group.id, group.delay, failed));
      executing := executing[w := None];
      done := done + [Done(group.id, group.delay, failed)];
    }

    /** The dispatcher handles a reported run. A failure lays a retry over the cadence if it
        would come before the next regular run; the cadence itself is kept, because the run
        that has just ended shows that no retry was pending. */
    method HandleDone(i: nat, now: int)
      requires Valid() && i < |done|
      modifies this`inFlight, this`done, queue, queue.members
      ensures Valid() && queue.members == old(queue.members)
      ensures inFlight == old(inFlight) - {old(done)[i].groupID}
      ensures done == old(done)[..i] + old(done)[i + 1..]
      ensures forall e :: e in queue.members && e.id != old(done)[i].groupID ==> StateOf(e) == old(StateOf(e))
      ensures forall e :: e in queue.members && e.id == old(done)[i].groupID ==>
        !old(e.retrying) && AfterRun(old(StateOf(e)), StateOf(e), old(done)[i].failed, now, retryBase, retryMax)
    {
      hide OnTrack, SingleFlight, GroupHeap.Valid;
      var result := done[i];
      FlightAfterDone(inFlight, tasks, executing, done, i);
      assert forall e :: e in queue.members && e.id == result.groupID ==> !e.retrying;
      inFlight := OneLess(inFlight, result.groupID);
      done := done[..i] + done[i + 1..];
      if result.groupID in entries {
        Settle(entries[result.groupID], result.failed, now);
      }
    }

    /** Counts failures and lays the retry. */
    method Settle(entry: GroupEntry, failed: bool, now: int)
      requires Configured() && Tracked() && entry in queue.members && !entry.retrying
      modifies queue, queue.members
      ensures Tracked() && queue.members == old(queue.members)
      ensures forall e :: e in queue.members && e != entry ==> StateOf(e) == old(StateOf(e))
      ensures AfterRun(old(StateOf(entry)), StateOf(entry), failed, now, retryBase, retryMax)
    {
      hide OnTrack, GroupHeap.Valid, RetryAfter;
      FailuresFree(entry.id, StateOf(entry));
      if !failed {
        entry.failures := 0;
        return;
      }
      entry.failures := entry.failures + 1;
      var delay := RetryDelay(retryBase, retryMax, entry.failures);
      if now + delay < entry.nextRunAt {
        LayRetry(entry, now + delay);
      }
    }

    // ---------- Replacing the groups ----------

    /** Collects the usable groups by id. */
    method Collect(groups: seq<Group>) returns (desired: map<string, Group>)
      ensures desired == Desired(groups)
    {
      desired := map[];
      for i := 0 to |groups|
        invariant desired == Desired(groups[..i])
      {
        assert groups[..i + 1][..i] == groups[..i];
        if groups[i].id == "" || groups[i].delay <= 0 || |groups[i].batches| == 0 {
          continue;
        }
        desired := desired[groups[i].id := groups[i]];
      }
      assert groups[..|groups|] == groups;
    }

    /** Gives a scheduled group its new definition. */
    method Redefine(entry: GroupEntry, group: Group, now: int)
      modifies entry`group, entry`nextRunAt, entry`nextCadence, entry`retrying, entry`anchor
      ensures StateOf(entry) == Redefined(old(StateOf(entry)), group, now, hash)
      ensures TakesDefinition(old(StateOf(entry)), StateOf(entry), group, now, hash)
    {
      RedefinedTakes(StateOf(entry), group, now, hash);
      hide NextRunAfter, TakesDefinition;
      var periodChanged := CollectionPeriod(entry.group.delay) != CollectionPeriod(group.delay);
      var definitionChanged := entry.group != group;
      entry.group := group;
      if periodChanged || (definitionChanged && entry.nextRunAt == ZERO_TIME) {
        var period := CollectionPeriod(group.delay);
        entry.nextRunAt := NextRunAfter(hash, now, group.id, period);
        entry.nextCadence := entry.nextRunAt + period;
        entry.retrying := false;
        entry.anchor := entry.nextRunAt;
      }
    }

    /** Puts one group at the end of the queue under construction. */
    method PlaceGroup(group: Group, now: int, items: seq<GroupEntry>, placed: map<string, GroupEntry>)
      returns (entry: GroupEntry)
      requires Built(items, placed) && Usable(group) && group.id !in placed
      requires group.id in entries ==>
        entries[group.id].id == group.id && OnTrack(group.id, StateOf(entries[group.id]))
      modifies if group.id in entries then {entries[group.id]} else {}
      ensures Built(items + [entry], placed[group.id := entry]) && entry !in items
      ensures group.id in entries ==>
        entry == entries[group.id] && StateOf(entry) == Redefined(old(StateOf(entries[group.id])), group, now, hash)
      ensures group.id !in entries ==>
        fresh(entry) && entry.id == group.id && StateOf(entry) == NewState(group, now, bootstrapSpread, hash)
    {
      hide OnTrack, Redefined, Usable, BootstrapRunAt;
      if group.id in entries {
        entry := entries[group.id];
        RedefinedOnTrack(StateOf(entry), group, now, hash);
        Redefine(entry, group, now);
      } else {
        var period := CollectionPeriod(group.delay);
        var firstRun := BootstrapRunAt(hash, now, group.id, period, bootstrapSpread);
        NewOnTrack(group, now, bootstrapSpread, hash);
        entry := new GroupEntry(group, firstRun, firstRun + period);
      }
      entry.heapIndex := |items|;
    }

    /** How far the queue under construction has come: the groups of `todo` are still as
        they were, the others are placed. */
    ghost predicate Placing(items: seq<GroupEntry>, placed: map<string, GroupEntry>, desired: map<string, Group>,
                            todo: set<string>, begin: map<string, EntryState>, now: int)
      reads this`entries, items, entries.Values
    {
      && Built(items, placed) && placed.Keys == desired.Keys - todo && todo <= desired.Keys
      && (forall id :: id in placed && id in entries ==>
            && placed[id] == entries[id] && id in begin
            && StateOf(placed[id]) == Redefined(begin[id], desired[id], now, hash))
      && (forall id :: id in placed && id !in entries ==>
            StateOf(placed[id]) == NewState(desired[id], now, bootstrapSpread, hash))
      && (forall id :: id in todo && id in entries ==> id in begin && StateOf(entries[id]) == begin[id])
    }

    ghost function States(): map<string, EntryState>
      reads this`entries, entries.Values
    {
      map id | id in entries :: StateOf(entries[id])
    }

    /** Takes over new definitions: groups that are gone are dropped, new ones are anchored
        in the bootstrap window, and a group that stays keeps its cadence, its retry and
        its failures unless its period has changed. Runs under way stay accounted for. */
    method ReplaceGroups(groups: seq<Group>, now: int)
      requires Valid()
      modifies this`entries, queue, queue.members
      ensures Valid() && entries.Keys == Desired(groups).Keys
      ensures forall e :: e in queue.members ==> e in old(queue.members) || fresh(e)
      ensures forall id :: id in entries && id in old(entries) ==>
        entries[id] == old(entries)[id]
        && StateOf(entries[id]) == Redefined(old(StateOf(entries[id])), Desired(groups)[id], now, hash)
      ensures forall id :: id in entries && id !in old(entries) ==>
        StateOf(entries[id]) == NewState(Desired(groups)[id], now, bootstrapSpread, hash)
      ensures Replaced(groups, old(States()), States(), now, bootstrapSpread, hash)
    {
      hide Redefined, NewState, Scheduler.Valid, Replaced;
      ghost var begin := States();
      var desired := Collect(groups);
      Schedule(desired, now);
      ReplacedRightly(groups, begin, States(), now, bootstrapSpread, hash);
    }

    /** The critical section of a replacement. */
    method Schedule(desired: map<string, Group>, now: int)
      requires Valid() && forall id :: id in desired ==> desired[id].id == id && Usable(desired[id])
      modifies this`entries, queue, queue.members
      ensures Valid() && entries.Keys == desired.Keys
      ensures forall e :: e in queue.members ==> e in old(queue.members) || fresh(e)
      ensures forall id :: id in entries && id in old(entries) ==>
        entries[id] == old(entries)[id]
        && StateOf(entries[id]) == Redefined(old(StateOf(entries[id])), desired[id], now, hash)
      ensures forall id :: id in entries && id !in old(entries) ==>
        StateOf(entries[id]) == NewState(desired[id], now, bootstrapSpread, hash)
    {
      hide OnTrack, Redefined, NewState, SingleFlight, GroupHeap.Valid, Usable;
      ghost var begin := States();
      var items, placed := PlaceAll(desired, now);
      UsableDelays(desired);
      PlacedOnTrack(items, placed, desired, begin, now);
      hide Scheduler.Placing, Built;
      Install(items, placed);
      hide Scheduler.Valid;
    }

    lemma UsableDelays(desired: map<string, Group>)
      requires forall id :: id in desired ==> Usable(desired[id])
      ensures forall id :: id in desired ==> desired[id].delay > 0
    {
    }

    lemma PlacedOnTrack(items: seq<GroupEntry>, placed: map<string, GroupEntry>, desired: map<string, Group>,
                        begin: map<string, EntryState>, now: int)
      requires Placing(items, placed, desired, {}, begin, now)
      requires forall id :: id in desired ==> desired[id].id == id && desired[id].delay > 0
      requires forall id :: id in entries && id in begin && begin[id].retrying ==> Get(inFlight, id) == 0
      ensures InPlace(items) && Matches(placed, set e | e in items) && placed.Keys == desired.Keys
      ensures forall e :: e in items ==> OnTrack(e.id, StateOf(e)) && (e.retrying ==> Get(inFlight, e.id) == 0)
      ensures forall id :: id in placed && id in entries ==>
        placed[id] == entries[id] && id in begin && StateOf(placed[id]) == Redefined(begin[id], desired[id], now, hash)
      ensures forall id :: id in placed && id !in entries ==>
        StateOf(placed[id]) == NewState(desired[id], now, bootstrapSpread, hash)
      ensures forall e :: e in items ==> e.id in placed && placed[e.id] == e
    {
      hide OnTrack;
      forall e | e in items
        ensures e.id in placed && placed[e.id] == e && OnTrack(e.id, StateOf(e))
        ensures e.retrying ==> Get(inFlight, e.id) == 0
      {
        var i :| 0 <= i < |items| && items[i] == e;
        hide Redefined, NewState;
        if e.id in entries {
          StillRetrying(begin[e.id], desired[e.id], now);
        } else {
          NotRetrying(desired[e.id], now);
        }
      }
    }

    lemma StillRetrying(before: EntryState, group: Group, now: int)
      ensures Redefined(before, group, now, hash).retrying ==> before.retrying
    {
      hide NextRunAfter;
    }

    lemma NotRetrying(group: Group, now: int)
      requires group.delay > 0
      ensures !NewState(group, now, bootstrapSpread, hash).retrying
    {
      hide BootstrapRunAt;
    }

    /** Puts the new entries and the new queue in place together. */
    method Install(items: seq<GroupEntry>, placed: map<string, GroupEntry>)
      requires Configured() && SingleFlight(inFlight, tasks, executing, done)
      requires InPlace(items) && Matches(placed, set e | e in items)
      requires forall e :: e in items ==> OnTrack(e.id, StateOf(e)) && (e.retrying ==> Get(inFlight, e.id) == 0)
      modifies this`entries, queue, items`heapIndex
      ensures Valid() && entries == placed && queue.members == set e | e in items
      ensures forall e :: e in items ==> StateOf(e) == old(StateOf(e))
    {
      hide OnTrack, SingleFlight, GroupHeap.Valid;
      queue.Replace(items);
      entries := placed;
    }

    method PlaceAll(desired: map<string, Group>, now: int)
      returns (items: seq<GroupEntry>, placed: map<string, GroupEntry>)
      requires Matches(entries, queue.members)
      requires forall id :: id in entries ==> OnTrack(id, StateOf(entries[id]))
      requires forall id :: id in desired ==> desired[id].id == id && Usable(desired[id])
      modifies queue.members
      ensures Placing(items, placed, desired, {}, old(States()), now)
      ensures forall id :: id in placed && id !in entries ==> fresh(placed[id])
    {
      hide OnTrack, Redefined, NewState, Usable, Scheduler.Placing;
      ghost var begin := States();
      items, placed := [], map[];
      var todo := desired.Keys;
      NothingPlaced(desired, now);
      while todo != {}
        invariant Placing(items, placed, desired, todo, begin, now)
        invariant forall id :: id in placed && id !in entries ==> fresh(placed[id])
        decreases |todo|
      {
        var id :| id in todo;
        items, placed := PlaceNext(id, desired, todo, items, placed, begin, now);
        todo := todo - {id};
      }
    }

    lemma NothingPlaced(desired: map<string, Group>, now: int)
      requires forall id :: id in entries ==> OnTrack(id, StateOf(entries[id]))
      ensures Placing([], map[], desired, desired.Keys, States(), now)
    {
    }

    /** The entry to place next is none of those placed or still to be placed otherwise. */
    lemma PlacedApart(items: seq<GroupEntry>, placed: map<string, GroupEntry>, id: string)
      requires Built(items, placed) && id !in placed && Matches(entries, queue.members)
      ensures forall other :: other in placed ==> placed[other] in items
      ensures id in entries ==> entries[id] in queue.members && entries[id].id == id && entries[id] !in items
      ensures forall other :: other in entries && other != id && id in entries ==> entries[other] != entries[id]
    {
      hide OnTrack;
    }

    method PlaceNext(id: string, desired: map<string, Group>, ghost todo: set<string>, items: seq<GroupEntry>,
                     placed: map<string, GroupEntry>, ghost begin: map<string, EntryState>, now: int)
      returns (items': seq<GroupEntry>, placed': map<string, GroupEntry>)
      requires Placing(items, placed, desired, todo, begin, now) && id in todo
      requires Matches(entries, queue.members)
      requires forall id :: id in desired ==> desired[id].id == id && Usable(desired[id])
      requires forall id :: id in entries && id in begin ==> OnTrack(id, begin[id])
      modifies queue.members
      ensures Placing(items', placed', desired, todo - {id}, begin, now)
      ensures placed'.Keys == placed.Keys + {id}
      ensures forall other :: other in placed ==> placed'[other] == placed[other]
      ensures id !in entries ==> fresh(placed'[id])
    {
      hide OnTrack, Redefined, NewState, Usable, Built;
      PlacedApart(items, placed, id);
      var entry := PlaceGroup(desired[id], now, items, placed);
      items', placed' := items + [entry], placed[id := entry];
    }

    // ---------- Whole runs ----------

    /** One step of the dispatcher or of a worker, if it is possible now. */
    method Perform(event: Event)
      requires Valid() && !event.Replace?
      modifies this`inFlight, this`tasks, this`executing, this`done, queue, queue.members
      ensures Valid() && queue.members == old(queue.members) && |executing| == |old(executing)|
      ensures forall e :: e in queue.members ==> e.anchor == old(e.anchor) && e.group == old(e.group)
    {
      hide Scheduler.Valid;
      match event {
        case Dispatch(now, cancelled) =>
          ghost var begin := Snapshot();
          var stopped := DispatchDue(now, cancelled);
          AnchorsSince(begin, now);
        case Handle(i, now) =>
          if i < |done| {
            HandleDone(i, now);
          }
        case Start(w) =>
          if w < |executing| && executing[w].None? && |tasks| != 0 {
            TakeTask(w);
          }
        case Finish(w, failed) =>
          if w < |executing| && executing[w].Some? {
            Report(w, failed);
          }
      }
    }

    lemma AnchorsSince(begin: map<GroupEntry, EntryState>, now: int)
      requires Since(begin, now)
      ensures forall e :: e in queue.members ==> e in begin && e.anchor == begin[e].anchor && e.group == begin[e].group
    {
    }

    /** Any mix of dispatches, executions, errors, full channels, missed periods and new
        definitions keeps single flight and every group on its cadence; and as long as the
        groups are not replaced, every group keeps the anchor it had. */
    method Drive(events: seq<Event>)
      requires Valid()
      modifies this, queue, queue.members
      ensures Valid() && |executing| == |old(executing)|
      ensures (forall i :: 0 <= i < |events| ==> !events[i].Replace?) ==>
        && queue.members == old(queue.members)
        && forall e :: e in queue.members ==> e.anchor == old(e.anchor) && e.group == old(e.group)
    {
      hide Scheduler.Valid;
      var i := 0;
      while i < |events|
        invariant i <= |events| && Valid() && |executing| == |old(executing)|
        invariant forall e :: e in queue.members ==> e in old(queue.members) || fresh(e)
        invariant (forall j :: 0 <= j < |events| ==> !events[j].Replace?) ==>
          && queue.members == old(queue.members)
          && forall e :: e in queue.members ==> e.anchor == old(e.anchor) && e.group == old(e.group)
      {
        match events[i] {
          case Replace(groups, now) => ReplaceGroups(groups, now);
          case _ => Perform(events[i]);
        }
        i := i + 1;
      }
    }
  }

  datatype Event =
    | Dispatch(now: int, cancelled: nat -> bool)
    | Handle(i: nat, now: int)
    | Start(w: nat)
    | Finish(w: nat, failed: bool)
    | Replace(groups: seq<Group>, now: int)

  /** Takes one run of a group off the count; a count that reaches zero is dropped. */
  function OneLess(inFlight: map<string, nat>, id: string): (less: map<string, nat>)
    ensures Get(inFlight, id) <= 1 ==> less == inFlight - {id}
    ensures Get(less, id) == if Get(inFlight, id) == 0 then 0 else Get(inFlight, id) - 1
  {
    if Get(inFlight, id) > 1 then inFlight[id := inFlight[id] - 1] else inFlight - {id}
  }

  lemma FailuresFree(id: string, e: EntryState)
    requires OnTrack(id, e)
    ensures forall failures :: OnTrack(id, e.(failures := failures))
  {
  }

  /** What handling a run makes of its group's entry: a success clears the failures; a failure
      is counted, and lays a retry over the cadence exactly if the wait for that many failures
      ends before the next run. */
  predicate AfterRun(before: EntryState, after: EntryState, failed: bool, now: int, retryBase: int, retryMax: int) {
    if !failed then
      after == before.(failures := 0)
    else
      var counted := before.(failures := before.failures + 1);
      var at := now + RetryAfter(retryBase, retryMax, counted.failures);
      after == if at < before.nextRunAt then Retried(counted, at) else counted
  }

  // ---------- Failures over whole runs ----------

  /** What happens to the entry of a group that stays scheduled. */
  datatype Turn =
    | Handled(failed: bool, now: int)
    | Due(now: int)
    | Renewed(group: Group, now: int)

  ghost predicate Turned(before: EntryState, after: EntryState, turn: Turn, retryBase: int, retryMax: int,
                         hash: string -> nat)
  {
    match turn
    case Handled(failed, now) => AfterRun(before, after, failed, now, retryBase, retryMax)
    case Due(now) => Dispatched(before, after, now, retryBase)
    case Renewed(group, now) => TakesDefinition(before, after, group, now, hash)
  }

  ghost predicate Career(states: seq<EntryState>, turns: seq<Turn>, retryBase: int, retryMax: int,
                         hash: string -> nat)
  {
    && |states| == |turns| + 1
    && forall k :: 0 <= k < |turns| ==> Turned(states[k], states[k + 1], turns[k], retryBase, retryMax, hash)
  }

  ghost function CountedOn(failures: nat, turn: Turn): nat {
    match turn
    case Handled(true, _) => failures + 1
    case Handled(false, _) => 0
    case _ => failures
  }

  /** How many runs have failed since the last one that succeeded. */
  ghost function FailedInARow(turns: seq<Turn>): nat {
    if turns == [] then
      0
    else
      CountedOn(FailedInARow(turns[..|turns| - 1]), turns[|turns| - 1])
  }

  /** The next run after a report. */
  ghost function WaitedFor(e: EntryState, turn: Turn, retryBase: int, retryMax: int, failures: nat): int
    requires turn.Handled?
  {
    if turn.failed then Min(e.nextRunAt, turn.now + RetryAfter(retryBase, retryMax, failures)) else e.nextRunAt
  }

  lemma TurnCounts(before: EntryState, after: EntryState, turn: Turn, retryBase: int, retryMax: int,
                   hash: string -> nat)
    requires Turned(before, after, turn, retryBase, retryMax, hash)
    ensures after.failures == CountedOn(before.failures, turn)
    ensures turn.Handled? ==> after.nextRunAt == WaitedFor(before, turn, retryBase, retryMax, after.failures)
  {
    hide RetryAfter, AnchoredAnew, NextRegular, AdvancePlanned;
  }

  /** However dispatches, skipped runs, full channels and new definitions fall between them,
      a group counts exactly the runs that failed since the last success; a failure brings
      its next run forward to the end of the wait for that many failures, unless it is due
      earlier anyway, and a success leaves it where it is. */
  lemma {:induction false} FailuresInARow(states: seq<EntryState>, turns: seq<Turn>, retryBase: int, retryMax: int,
                                          hash: string -> nat)
    requires Career(states, turns, retryBase, retryMax, hash) && states[0].failures == 0
    ensures states[|turns|].failures == FailedInARow(turns)
    ensures forall k :: 0 <= k < |turns| && turns[k].Handled? ==>
      states[k + 1].nextRunAt ==
        WaitedFor(states[k], turns[k], retryBase, retryMax, FailedInARow(turns[..k + 1]))
  {
    hide Turned, WaitedFor;
    if turns != [] {
      var n := |turns| - 1;
      FailuresInARow(states[..n + 1], turns[..n], retryBase, retryMax, hash);
      TurnCounts(states[n], states[n + 1], turns[n], retryBase, retryMax, hash);
      forall k | 0 <= k < |turns| && turns[k].Handled?
        ensures states[k + 1].nextRunAt ==
          WaitedFor(states[k], turns[k], retryBase, retryMax, FailedInARow(turns[..k + 1]))
      {
        if k < n {
          assert turns[..n][..k + 1] == turns[..k + 1] && turns[..n][k] == turns[k];
        } else {
          assert turns[..k + 1] == turns;
        }
      }
    }
  }
}

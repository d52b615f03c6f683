/** Immutable metadata snapshots, definition versions and snapshot differences
    (internal/metadata/cache.go, internal/metadata/types.go). */
module MetadataStores {
  import opened Options
  import opened Times
  import Strings

  datatype Label = Label(name: string, value: string)

  datatype HostDefinition = HostDefinition(
    hostID: string, hostName: string, displayName: string, hostIP: string,
    inventory: map<string, string>, inventoryFields: map<string, string>, labels: seq<Label>)

  datatype ItemDefinition = ItemDefinition(
    itemID: string, hostID: string, key: string, name: string, valueType: string,
    rawDelay: string, delay: int, delayParseState: string, status: string, state: string,
    enabled: bool, metricName: string, labels: seq<Label>)

  datatype GroupDefinition = GroupDefinition(
    id: string, hostID: string, valueType: string, delay: int, itemIDs: seq<string>)

  /** A definition together with the snapshot version at which it last changed. */
  datatype Versioned<+D> = Versioned(definition: D, version: nat)

  /** A table of pointers: `None` is a key that maps to nil. */
  type Table<+D> = map<string, Option<Versioned<D>>>

  datatype Snapshot = Snapshot(
    version: nat,
    createdAt: int,
    hosts: Table<HostDefinition>,
    hostIDs: seq<string>,
    items: Table<ItemDefinition>,
    groups: Table<GroupDefinition>)

  const EMPTY_SNAPSHOT: Snapshot := Snapshot(0, ZERO_TIME, map[], [], map[], map[])

  datatype Changes = Changes(added: seq<string>, removed: seq<string>, changed: seq<string>)

  datatype Diff = Diff(oldVersion: nat, newVersion: nat, hosts: Changes, items: Changes, groups: Changes)

  const NO_CHANGES: Changes := Changes([], [], [])

  /** Two pointers define the same thing: both nil, or the same definition whatever
      their versions. */
  predicate SameDefinition<D(==)>(a: Option<Versioned<D>>, b: Option<Versioned<D>>) {
    if a.None? || b.None? then a == b else a.value.definition == b.value.definition
  }

  /** What publishing a candidate entry at a version yields: an unchanged definition
      keeps the version it had. */
  function PublishedEntry<D(==)>(id: string, candidate: Option<Versioned<D>>, current: Table<D>,
                                 version: nat): Option<Versioned<D>>
  {
    if candidate.None? then
      None
    else if id in current && SameDefinition(current[id], candidate) then
      current[id]
    else
      Some(Versioned(candidate.value.definition, version))
  }

  function PublishedTable<D(==)>(source: Table<D>, current: Table<D>, version: nat): Table<D> {
    map id | id in source :: PublishedEntry(id, source[id], current, version)
  }

  /** The snapshot a complete candidate becomes when it is applied to `current`. */
  ghost predicate Publishes(candidate: Snapshot, current: Snapshot, published: Snapshot) {
    && published.version == current.version + 1
    && published.hosts == PublishedTable(candidate.hosts, current.hosts, published.version)
    && published.items == PublishedTable(candidate.items, current.items, published.version)
    && published.groups == PublishedTable(candidate.groups, current.groups, published.version)
    && Strings.Listing(published.hostIDs, published.hosts.Keys)
  }

  /** What is published is what the candidate defines: the same ids, nil where it is nil, and
      its definitions. An entry keeps its version exactly if the id had this definition
      before; otherwise it gets the new one. */
  ghost predicate TakesOver<D>(candidate: Table<D>, current: Table<D>, published: Table<D>, version: nat) {
    && published.Keys == candidate.Keys
    && forall id :: id in candidate ==>
         && (published[id].Some? <==> candidate[id].Some?)
         && (candidate[id].Some? ==>
               && published[id].value.definition == candidate[id].value.definition
               && published[id].value.version ==
                    if Had(current, id, candidate[id].value.definition) then current[id].value.version else version)
  }

  ghost predicate Had<D>(table: Table<D>, id: string, definition: D) {
    id in table && table[id].Some? && table[id].value.definition == definition
  }

  lemma PublishedTakesOver<D>(candidate: Table<D>, current: Table<D>, version: nat)
    ensures TakesOver(candidate, current, PublishedTable(candidate, current, version), version)
  {
  }

  /** The same for hosts, items and groups. */
  lemma PublicationTakesOver(candidate: Snapshot, current: Snapshot, published: Snapshot)
    requires Publishes(candidate, current, published)
    ensures published.version == current.version + 1
    ensures TakesOver(candidate.hosts, current.hosts, published.hosts, published.version)
    ensures TakesOver(candidate.items, current.items, published.items, published.version)
    ensures TakesOver(candidate.groups, current.groups, published.groups, published.version)
  {
    hide TakesOver, PublishedTable;
    PublishedTakesOver(candidate.hosts, current.hosts, published.version);
    PublishedTakesOver(candidate.items, current.items, published.version);
    PublishedTakesOver(candidate.groups, current.groups, published.version);
  }

  ghost predicate DescribesChanges<D>(changes: Changes, prior: Table<D>, next: Table<D>) {
    && Strings.Listing(changes.added, next.Keys - prior.Keys)
    && Strings.Listing(changes.removed, prior.Keys - next.Keys)
    && Strings.Listing(changes.changed, Moved(prior, next))
  }

  /** The ids in both tables whose definitions differ. */
  ghost function Moved<D>(prior: Table<D>, next: Table<D>): set<string> {
    set id | id in prior && id in next && !SameDefinition(prior[id], next[id])
  }

  ghost predicate Describes(diff: Diff, prior: Snapshot, next: Snapshot) {
    && diff.oldVersion == prior.version && diff.newVersion == next.version
    && DescribesChanges(diff.hosts, prior.hosts, next.hosts)
    && DescribesChanges(diff.items, prior.items, next.items)
    && DescribesChanges(diff.groups, prior.groups, next.groups)
  }

  // ---------- Every snapshot ever published ----------

  ghost predicate Succeeds(prior: Snapshot, next: Snapshot) {
    exists candidate :: Publishes(candidate, prior, next)
  }

  /** A run of the store: it starts empty and each snapshot was published from some
      candidate on top of its predecessor. */
  ghost predicate History(snapshots: seq<Snapshot>) {
    && |snapshots| > 0
    && snapshots[0] == EMPTY_SNAPSHOT
    && forall i :: 0 < i < |snapshots| ==> Succeeds(snapshots[i - 1], snapshots[i])
  }

  lemma {:induction false} HistoryVersion(snapshots: seq<Snapshot>, i: nat)
    requires History(snapshots) && i < |snapshots|
    ensures snapshots[i].version == i
  {
    if i > 0 {
      HistoryVersion(snapshots, i - 1);
      assert Succeeds(snapshots[i - 1], snapshots[i]);
    }
  }

  /** The tables of one kind over a run: they start empty, and each was published from some
      source on top of its predecessor, under its number in the run. */
  ghost predicate TableHistory<D(!new)>(tables: seq<Table<D>>) {
    && |tables| > 0
    && tables[0] == map[]
    && forall i :: 0 < i < |tables| ==> TableSucceeds(tables[i - 1], tables[i], i)
  }

  ghost predicate TableSucceeds<D(!new)>(prior: Table<D>, next: Table<D>, version: nat) {
    exists source: Table<D> :: next == PublishedTable(source, prior, version)
  }

  function HostTables(snapshots: seq<Snapshot>): (tables: seq<Table<HostDefinition>>)
    ensures |tables| == |snapshots|
  {
    seq(|snapshots|, i requires 0 <= i < |snapshots| => snapshots[i].hosts)
  }

  function ItemTables(snapshots: seq<Snapshot>): (tables: seq<Table<ItemDefinition>>)
    ensures |tables| == |snapshots|
  {
    seq(|snapshots|, i requires 0 <= i < |snapshots| => snapshots[i].items)
  }

  function GroupTables(snapshots: seq<Snapshot>): (tables: seq<Table<GroupDefinition>>)
    ensures |tables| == |snapshots|
  {
    seq(|snapshots|, i requires 0 <= i < |snapshots| => snapshots[i].groups)
  }

  /** Hosts, items and groups all have such a history. */
  lemma TablesOfHistory(snapshots: seq<Snapshot>)
    requires History(snapshots)
    ensures TableHistory(HostTables(snapshots))
    ensures TableHistory(ItemTables(snapshots))
    ensures TableHistory(GroupTables(snapshots))
  {
    hide PublishedTable;
    var hosts, items, groups := HostTables(snapshots), ItemTables(snapshots), GroupTables(snapshots);
    forall i | 0 < i < |snapshots|
      ensures TableSucceeds(hosts[i - 1], hosts[i], i)
      ensures TableSucceeds(items[i - 1], items[i], i)
      ensures TableSucceeds(groups[i - 1], groups[i], i)
    {
      HistoryVersion(snapshots, i);
      assert Succeeds(snapshots[i - 1], snapshots[i]);
      var candidate :| Publishes(candidate, snapshots[i - 1], snapshots[i]);
      assert hosts[i] == PublishedTable(candidate.hosts, hosts[i - 1], i);
      assert items[i] == PublishedTable(candidate.items, items[i - 1], i);
      assert groups[i] == PublishedTable(candidate.groups, groups[i - 1], i);
    }
  }

  /** An entry was either carried forward whole or got its version from this publication. */
  lemma EntryStep<D(!new)>(tables: seq<Table<D>>, i: nat, id: string)
    requires TableHistory(tables) && i < |tables| && id in tables[i] && tables[i][id].Some?
    ensures i > 0
    ensures tables[i][id].value.version == i || (id in tables[i - 1] && tables[i - 1][id] == tables[i][id])
  {
    if i > 0 {
      assert TableSucceeds(tables[i - 1], tables[i], i);
    }
  }

  /** An entry is exactly the entry of the publication its version names: entries are only
      ever carried forward whole. */
  lemma {:induction false} EntryOrigin<D(!new)>(tables: seq<Table<D>>, i: nat, id: string)
    requires TableHistory(tables) && i < |tables| && id in tables[i] && tables[i][id].Some?
    ensures 0 < tables[i][id].value.version <= i
    ensures var born := tables[tables[i][id].value.version]; id in born && born[id] == tables[i][id]
  {
    hide TableHistory;
    EntryStep(tables, i, id);
    if tables[i][id].value.version != i {
      EntryOrigin(tables, i - 1, id);
    }
  }

  /** The versions of an id never go back, also when it was removed and added again. */
  lemma {:induction false} VersionsNeverGoBack<D(!new)>(tables: seq<Table<D>>, i: nat, j: nat, id: string)
    requires TableHistory(tables) && i <= j < |tables|
    requires id in tables[i] && tables[i][id].Some? && id in tables[j] && tables[j][id].Some?
    ensures tables[i][id].value.version <= tables[j][id].value.version
    decreases j
  {
    hide TableHistory;
    EntryStep(tables, j, id);
    EntryOrigin(tables, i, id);
    if i < j && tables[j][id].value.version != j {
      VersionsNeverGoBack(tables, i, j - 1, id);
    }
  }

  /** Across everything ever published, an id and a definition version name one definition,
      also when the id was removed and added again in between. */
  lemma VersionDetermines<D(!new)>(tables: seq<Table<D>>, i: nat, j: nat, id: string)
    requires TableHistory(tables) && i < |tables| && j < |tables|
    requires id in tables[i] && tables[i][id].Some? && id in tables[j] && tables[j][id].Some?
    requires tables[i][id].value.version == tables[j][id].value.version
    ensures tables[i][id].value.definition == tables[j][id].value.definition
  {
    EntryOrigin(tables, i, id);
    EntryOrigin(tables, j, id);
  }

  /** Two published entries of one id and one version are the same. */
  ghost predicate Unambiguous<D>(a: Table<D>, b: Table<D>, id: string) {
    id in a && a[id].Some? && id in b && b[id].Some? && a[id].value.version == b[id].value.version ==> a[id] == b[id]
  }

  /** The same for the hosts, the items and the groups of any two published snapshots. */
  lemma VersionsDetermineDefinitions(snapshots: seq<Snapshot>, i: nat, j: nat, id: string)
    requires History(snapshots) && i < |snapshots| && j < |snapshots|
    ensures Unambiguous(snapshots[i].hosts, snapshots[j].hosts, id)
    ensures Unambiguous(snapshots[i].items, snapshots[j].items, id)
    ensures Unambiguous(snapshots[i].groups, snapshots[j].groups, id)
  {
    TablesOfHistory(snapshots);
    hide TableHistory, History;
    UnambiguousAt(HostTables(snapshots), i, j, id);
    UnambiguousAt(ItemTables(snapshots), i, j, id);
    UnambiguousAt(GroupTables(snapshots), i, j, id);
  }

  lemma UnambiguousAt<D(!new)>(tables: seq<Table<D>>, i: nat, j: nat, id: string)
    requires TableHistory(tables) && i < |tables| && j < |tables|
    ensures Unambiguous(tables[i], tables[j], id)
  {
    hide TableHistory;
    if id in tables[i] && tables[i][id].Some? && id in tables[j] && tables[j][id].Some?
      && tables[i][id].value.version == tables[j][id].value.version
    {
      VersionDetermines(tables, i, j, id);
    }
  }

  /** What a comparison says of two tables in terms of entries and versions: the changed ids
      are exactly the shared ids whose entry moved, and an entry that is present on both
      sides moved exactly when its version did. The four classes partition the ids. */
  ghost predicate Classified<D>(changes: Changes, prior: Table<D>, next: Table<D>) {
    && (forall id :: id in changes.changed <==> id in prior && id in next && prior[id] != next[id])
    && (forall id :: id in prior && id in next && prior[id].Some? && next[id].Some? ==>
          (id in changes.changed <==> prior[id].value.version != next[id].value.version))
    && (forall id :: id in changes.added <==> id in next && id !in prior)
    && (forall id :: id in changes.removed <==> id in prior && id !in next)
  }

  lemma ChangedMoved<D(!new)>(tables: seq<Table<D>>, i: nat, changes: Changes)
    requires TableHistory(tables) && i + 1 < |tables| && DescribesChanges(changes, tables[i], tables[i + 1])
    ensures Classified(changes, tables[i], tables[i + 1])
  {
    var prior, next := tables[i], tables[i + 1];
    assert TableSucceeds(tables[i + 1 - 1], tables[i + 1], i + 1);
    forall id | id in prior && id in next
      ensures SameDefinition(prior[id], next[id]) <==> prior[id] == next[id]
      ensures prior[id].Some? && next[id].Some? ==>
        (SameDefinition(prior[id], next[id]) <==> prior[id].value.version == next[id].value.version)
    {
      if prior[id].Some? {
        EntryOrigin(tables, i, id);
      }
    }
  }

  /** Between successive snapshots the differences of hosts, items and groups are exact. */
  lemma ChangesMoved(snapshots: seq<Snapshot>, i: nat, diff: Diff)
    requires History(snapshots) && i + 1 < |snapshots|
    requires Describes(diff, snapshots[i], snapshots[i + 1])
    ensures Classified(diff.hosts, snapshots[i].hosts, snapshots[i + 1].hosts)
    ensures Classified(diff.items, snapshots[i].items, snapshots[i + 1].items)
    ensures Classified(diff.groups, snapshots[i].groups, snapshots[i + 1].groups)
  {
    TablesOfHistory(snapshots);
    hide TableHistory, History, DescribesChanges, Classified;
    ChangedMoved(HostTables(snapshots), i, diff.hosts);
    ChangedMoved(ItemTables(snapshots), i, diff.items);
    ChangedMoved(GroupTables(snapshots), i, diff.groups);
  }

  class Store {
    var snapshot: Snapshot

    constructor ()
      ensures snapshot == EMPTY_SNAPSHOT
    {
      snapshot := EMPTY_SNAPSHOT;
    }

    /** Publishes a complete candidate with one pointer swap and says what changed.
        A nil candidate leaves the store alone and reports an empty difference. */
    method ApplySnapshot(next: Option<Snapshot>, now: int) returns (diff: Diff)
      modifies this
      ensures next.None? ==>
        && snapshot == old(snapshot)
        && diff == Diff(snapshot.version, snapshot.version, NO_CHANGES, NO_CHANGES, NO_CHANGES)
      ensures next.Some? ==>
        && Publishes(next.value, old(snapshot), snapshot)
        && snapshot.version == old(snapshot).version + 1
        && TakesOver(next.value.hosts, old(snapshot).hosts, snapshot.hosts, snapshot.version)
        && TakesOver(next.value.items, old(snapshot).items, snapshot.items, snapshot.version)
        && TakesOver(next.value.groups, old(snapshot).groups, snapshot.groups, snapshot.version)
        && Describes(diff, old(snapshot), snapshot)
        && snapshot.createdAt == if next.value.createdAt == ZERO_TIME then now else next.value.createdAt
    {
      if next.None? {
        return Diff(snapshot.version, snapshot.version, NO_CHANGES, NO_CHANGES, NO_CHANGES);
      }
      var createdAt := next.value.createdAt;
      if createdAt == ZERO_TIME {
        createdAt := now;
      }
      var published := CloneSnapshot(next.value, snapshot, snapshot.version + 1, createdAt);
      hide Publishes, TakesOver, DescribesChanges;
      var hosts := DiffTables(snapshot.hosts, published.hosts);
      var items := DiffTables(snapshot.items, published.items);
      var groups := DiffTables(snapshot.groups, published.groups);
      diff := Diff(snapshot.version, published.version, hosts, items, groups);
      snapshot := published;
    }
  }

  method CloneSnapshot(source: Snapshot, current: Snapshot, version: nat, createdAt: int)
    returns (clone: Snapshot)
    requires version == current.version + 1
    ensures Publishes(source, current, clone)
    ensures TakesOver(source.hosts, current.hosts, clone.hosts, version)
    ensures TakesOver(source.items, current.items, clone.items, version)
    ensures TakesOver(source.groups, current.groups, clone.groups, version)
    ensures clone.createdAt == createdAt
  {
    var hosts := CloneTable(source.hosts, current.hosts, version);
    var hostIDs := SortedKeys(hosts);
    var items := CloneTable(source.items, current.items, version);
    var groups := CloneTable(source.groups, current.groups, version);
    clone := Snapshot(version, createdAt, hosts, hostIDs, items, groups);
    PublicationTakesOver(source, current, clone);
  }

  /** Copies one table entry by entry, in whatever order the map yields them. */
  method CloneTable<D(==)>(source: Table<D>, current: Table<D>, version: nat) returns (clone: Table<D>)
    ensures clone == PublishedTable(source, current, version)
    ensures TakesOver(source, current, clone, version)
  {
    PublishedTakesOver(source, current, version);
    hide TakesOver;
    clone := map[];
    var remaining := source.Keys;
    while remaining != {}
      invariant remaining <= source.Keys
      invariant clone.Keys == source.Keys - remaining
      invariant forall id :: id in clone ==> clone[id] == PublishedEntry(id, source[id], current, version)
      decreases |remaining|
    {
      var id :| id in remaining;
      remaining := remaining - {id};
      var published := source[id];
      if published.Some? {
        published := Some(Versioned(published.value.definition, version));
      }
      if id in current && SameDefinition(current[id], published) && published.Some? {
        published := Some(published.value.(version := current[id].value.version));
      }
      clone := clone[id := published];
    }
  }

  method DiffTables<D(==)>(prior: Table<D>, next: Table<D>) returns (changes: Changes)
    ensures DescribesChanges(changes, prior, next)
  {
    var removed, changed := RemovedAndChanged(prior, next);
    var added := KeysMissing(next, prior);
    changes := Changes(added, removed, changed);
  }

  lemma InMoved<D>(prior: Table<D>, next: Table<D>, id: string)
    ensures id in Moved(prior, next) <==> id in prior && id in next && !SameDefinition(prior[id], next[id])
  {
  }

  lemma MovedWithin<D>(prior: Table<D>, next: Table<D>)
    ensures Moved(prior, next) <= prior.Keys
  {
  }

  lemma OneFewer(all: set<string>, remaining: set<string>, id: string)
    requires id in remaining
    ensures all - (remaining - {id}) == if id in all then all - remaining + {id} else all - remaining
  {
  }

  /** The first half of a comparison: walks the old table. */
  method RemovedAndChanged<D(==)>(prior: Table<D>, next: Table<D>)
    returns (removed: seq<string>, changed: seq<string>)
    ensures Strings.Listing(removed, prior.Keys - next.Keys)
    ensures Strings.Listing(changed, Moved(prior, next))
  {
    hide Strings.Collects, Strings.Listing, SameDefinition, Moved;
    removed, changed := [], [];
    Strings.CollectNothing();
    ghost var gone := prior.Keys - next.Keys;
    ghost var moved := Moved(prior, next);
    var remaining := prior.Keys;
    assert gone - remaining == {} && moved - remaining == {} by {
      MovedWithin(prior, next);
    }
    while remaining != {}
      invariant remaining <= prior.Keys
      invariant Strings.Collects(removed, gone - remaining)
      invariant Strings.Collects(changed, moved - remaining)
      decreases |remaining|
    {
      var id :| id in remaining;
      ghost var before := remaining;
      remaining := remaining - {id};
      if id !in next {
        Strings.CollectOne(removed, gone - before, id);
        removed := removed + [id];
      } else if !SameDefinition(prior[id], next[id]) {
        InMoved(prior, next, id);
        Strings.CollectOne(changed, moved - before, id);
        changed := changed + [id];
      }
      InMoved(prior, next, id);
      OneFewer(gone, before, id);
      OneFewer(moved, before, id);
    }
    assert gone - {} == gone && moved - {} == moved;
    removed := Strings.SortKeys(removed, gone);
    changed := Strings.SortKeys(changed, moved);
  }

  /** The second half: keys of one table that the other lacks. */
  method KeysMissing<D>(table: Table<D>, other: Table<D>) returns (missing: seq<string>)
    ensures Strings.Listing(missing, table.Keys - other.Keys)
  {
    hide Strings.Collects, Strings.Listing;
    missing := [];
    Strings.CollectNothing();
    ghost var absent := table.Keys - other.Keys;
    var remaining := table.Keys;
    assert absent - remaining == {};
    while remaining != {}
      invariant remaining <= table.Keys
      invariant Strings.Collects(missing, absent - remaining)
      decreases |remaining|
    {
      var id :| id in remaining;
      ghost var before := remaining;
      remaining := remaining - {id};
      if id !in other {
        Strings.CollectOne(missing, absent - before, id);
        missing := missing + [id];
      }
      OneFewer(absent, before, id);
    }
    assert absent - {} == absent;
    missing := Strings.SortKeys(missing, absent);
  }

  method SortedKeys<D>(table: Table<D>) returns (ids: seq<string>)
    ensures Strings.Listing(ids, table.Keys)
  {
    ids := [];
    var remaining := table.Keys;
    while remaining != {}
      invariant remaining <= table.Keys
      invariant Strings.Collects(ids, table.Keys - remaining)
      decreases |remaining|
    {
      var id :| id in remaining;
      Strings.CollectOne(ids, table.Keys - remaining, id);
      assert table.Keys - (remaining - {id}) == table.Keys - remaining + {id};
      remaining := remaining - {id};
      ids := ids + [id];
    }
    ids := Strings.SortKeys(ids, table.Keys);
  }
}

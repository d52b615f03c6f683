/** Grouping items for collection by host, value type and delay, and cutting each group
    into bounded batches (internal/scheduler/group.go). */
module GroupBuilders {
  import opened Groups
  import opened Installs
  import opened MetadataStores
  import opened Options
  import Strings
  import opened Times

  datatype GroupKey = GroupKey(hostID: string, valueType: int, delay: int)

  /** How numbers are read and how ids are made: a group's id depends on the delay only
      through its whole seconds, a batch's on its group and members. */
  datatype Naming = Naming(
    parse: string -> Option<int>, groupID: (string, int, int) -> string, batchID: (string, seq<string>) -> string)

  function IDOf(naming: Naming, key: GroupKey): string {
    (naming.groupID)(key.hostID, key.valueType, Quotient(key.delay, SECOND))
  }

  /** The group of an item, if it is collected at all. */
  function KeyOf(naming: Naming, item: Option<Versioned<ItemDefinition>>): Option<GroupKey> {
    if item.None? then
      None
    else
      var d := item.value.definition;
      var valueType := (naming.parse)(d.valueType);
      if !d.enabled || d.hostID == "" || d.delay <= 0 || (valueType != Some(0) && valueType != Some(3)) then
        None
      else
        Some(GroupKey(d.hostID, valueType.value, d.delay))
  }

  ghost function MembersOf(naming: Naming, snapshot: Snapshot, key: GroupKey): set<string> {
    set id | id in snapshot.items && KeyOf(naming, snapshot.items[id]) == Some(key)
  }

  ghost function KeysOf(naming: Naming, snapshot: Snapshot): set<GroupKey> {
    set id | id in snapshot.items && KeyOf(naming, snapshot.items[id]).Some? :: KeyOf(naming, snapshot.items[id]).value
  }

  // ---------- Batches ----------

  function Concatenated(batches: seq<Batch>): seq<string> {
    if batches == [] then [] else Concatenated(batches[..|batches| - 1]) + batches[|batches| - 1].itemIDs
  }

  lemma ConcatenatedSnoc(batches: seq<Batch>, batch: Batch)
    ensures Concatenated(batches + [batch]) == Concatenated(batches) + batch.itemIDs
  {
    assert (batches + [batch])[..|batches|] == batches;
  }

  /** Cuts a list into batches: in order, none empty, and only the last one short. */
  method Cut(ids: seq<string>, batchSize: nat, groupID: string, naming: Naming) returns (batches: seq<Batch>)
    requires batchSize >= 1
    ensures Concatenated(batches) == ids
    ensures forall i :: 0 <= i < |batches| ==>
      && 1 <= |batches[i].itemIDs| <= batchSize
      && (i < |batches| - 1 ==> |batches[i].itemIDs| == batchSize)
      && batches[i].id == (naming.batchID)(groupID, batches[i].itemIDs)
  {
    batches := [];
    var start := 0;
    while start < |ids|
      invariant Concatenated(batches) == ids[..if start <= |ids| then start else |ids|]
      invariant forall i :: 0 <= i < |batches| ==>
        && 1 <= |batches[i].itemIDs| <= batchSize
        && (i < |batches| - 1 || start < |ids| ==> |batches[i].itemIDs| == batchSize)
        && batches[i].id == (naming.batchID)(groupID, batches[i].itemIDs)
      decreases |ids| - start
    {
      var end := start + batchSize;
      if end > |ids| {
        end := |ids|;
      }
      var part := ids[start..end];
      ConcatenatedSnoc(batches, Batch((naming.batchID)(groupID, part), part));
      assert ids[..end] == ids[..start] + part;
      batches := batches + [Batch((naming.batchID)(groupID, part), part)];
      start := start + batchSize;
    }
    assert ids[..|ids|] == ids;
  }

  // ---------- Groups ----------

  /** A group holds exactly the items of its key, in order and without repetition, cut into
      batches. */
  ghost predicate GroupFor(group: Group, key: GroupKey, naming: Naming, snapshot: Snapshot, batchSize: nat) {
    && group.id == IDOf(naming, key) && group.hostID == key.hostID
    && group.valueType == key.valueType && group.delay == key.delay
    && group.version == (if group.id in snapshot.groups && snapshot.groups[group.id].Some?
                         then snapshot.groups[group.id].value.version else snapshot.version)
    && Strings.Listing(Concatenated(group.batches), MembersOf(naming, snapshot, key))
    && (forall i :: 0 <= i < |group.batches| ==> 1 <= |group.batches[i].itemIDs| <= batchSize)
  }

  method MakeGroup(key: GroupKey, itemIDs: seq<string>, naming: Naming, snapshot: Snapshot, batchSize: nat)
    returns (group: Group)
    requires batchSize >= 1 && (forall id :: id in itemIDs <==> id in MembersOf(naming, snapshot, key))
    ensures GroupFor(group, key, naming, snapshot, batchSize)
  {
    hide KeyOf;
    var ids := Strings.SortDistinct(itemIDs);
    assert (set id | id in itemIDs) == MembersOf(naming, snapshot, key);
    var groupID := IDOf(naming, key);
    var version := snapshot.version;
    if groupID in snapshot.groups && snapshot.groups[groupID].Some? {
      version := snapshot.groups[groupID].value.version;
    }
    var batches := Cut(ids, batchSize, groupID, naming);
    group := Group(groupID, key.hostID, key.valueType, key.delay, batches, version);
  }

  /** The items read so far are filed under their keys. */
  ghost predicate Filed(groupItems: map<GroupKey, seq<string>>, naming: Naming, snapshot: Snapshot, seen: set<string>) {
    forall key: GroupKey, id: string ::
      (key in groupItems && id in groupItems[key]) <==> (id in seen && id in MembersOf(naming, snapshot, key))
  }

  method FileItems(naming: Naming, snapshot: Snapshot) returns (groupItems: map<GroupKey, seq<string>>)
    ensures forall key :: key in groupItems ==>
      forall id :: id in groupItems[key] <==> id in MembersOf(naming, snapshot, key)
    ensures groupItems.Keys == KeysOf(naming, snapshot)
  {
    hide KeyOf;
    groupItems := map[];
    var todo := snapshot.items.Keys;
    while todo != {}
      invariant todo <= snapshot.items.Keys
      invariant Filed(groupItems, naming, snapshot, snapshot.items.Keys - todo)
      invariant forall key :: key in groupItems ==> groupItems[key] != []
      decreases |todo|
    {
      var id :| id in todo;
      ghost var seen := snapshot.items.Keys - todo;
      todo := todo - {id};
      var key := KeyOf(naming, snapshot.items[id]);
      FileOne(groupItems, naming, snapshot, seen, id);
      assert snapshot.items.Keys - todo == seen + {id};
      if key.Some? {
        var others := if key.value in groupItems then groupItems[key.value] else [];
        groupItems := groupItems[key.value := others + [id]];
      }
    }
    assert snapshot.items.Keys - todo == snapshot.items.Keys;
    AllFiled(groupItems, naming, snapshot);
  }

  lemma FileOne(groupItems: map<GroupKey, seq<string>>, naming: Naming, snapshot: Snapshot, seen: set<string>,
                id: string)
    requires Filed(groupItems, naming, snapshot, seen) && id in snapshot.items && id !in seen
    ensures var key := KeyOf(naming, snapshot.items[id]);
            key.None? ==> Filed(groupItems, naming, snapshot, seen + {id})
    ensures var key := KeyOf(naming, snapshot.items[id]);
            key.Some? ==>
              var others := if key.value in groupItems then groupItems[key.value] else [];
              Filed(groupItems[key.value := others + [id]], naming, snapshot, seen + {id})
  {
    hide KeyOf;
    var owner := KeyOf(naming, snapshot.items[id]);
    forall key: GroupKey
      ensures id in MembersOf(naming, snapshot, key) <==> owner == Some(key)
    {
    }
  }

  lemma AllFiled(groupItems: map<GroupKey, seq<string>>, naming: Naming, snapshot: Snapshot)
    requires Filed(groupItems, naming, snapshot, snapshot.items.Keys)
    requires forall key :: key in groupItems ==> groupItems[key] != []
    ensures groupItems.Keys == KeysOf(naming, snapshot)
    ensures forall key :: key in groupItems ==>
      forall id :: id in groupItems[key] <==> id in MembersOf(naming, snapshot, key)
  {
    hide KeyOf;
    forall key | key in groupItems
      ensures key in KeysOf(naming, snapshot)
    {
      var id := groupItems[key][0];
      assert id in groupItems[key];
      FiledMember(groupItems, naming, snapshot, snapshot.items.Keys, key, id);
      assert KeyOf(naming, snapshot.items[id]) == Some(key);
    }
    forall key | key in KeysOf(naming, snapshot)
      ensures key in groupItems
    {
      var id :| id in snapshot.items && KeyOf(naming, snapshot.items[id]) == Some(key);
      FiledMember(groupItems, naming, snapshot, snapshot.items.Keys, key, id);
    }
    forall key, id | key in groupItems
      ensures id in groupItems[key] <==> id in MembersOf(naming, snapshot, key)
    {
      FiledMember(groupItems, naming, snapshot, snapshot.items.Keys, key, id);
    }
  }

  lemma FiledMember(groupItems: map<GroupKey, seq<string>>, naming: Naming, snapshot: Snapshot, seen: set<string>,
                    key: GroupKey, id: string)
    requires Filed(groupItems, naming, snapshot, seen)
    ensures (key in groupItems && id in groupItems[key]) <==> (id in seen && id in MembersOf(naming, snapshot, key))
  {
  }

  /** Group `i` is the group of `keys[i]`. */
  ghost predicate GroupsFor(groups: seq<Group>, keys: seq<GroupKey>, naming: Naming, snapshot: Snapshot,
                            batchSize: nat)
  {
    && |keys| == |groups|
    && (forall i :: 0 <= i < |groups| ==> GroupFor(groups[i], keys[i], naming, snapshot, batchSize))
    && (forall i, j :: 0 <= i < j < |keys| ==> keys[i] != keys[j])
  }

  /** Builds the groups of a snapshot: one for every key that occurs, holding exactly the
      items of that key. The order is that of the ids. */
  method Build(snapshot: Option<Snapshot>, batchSize: nat, naming: Naming)
    returns (groups: seq<Group>, ghost keys: seq<GroupKey>)
    requires batchSize >= 1
    ensures snapshot.None? ==> groups == []
    ensures snapshot.Some? ==>
      && GroupsFor(groups, keys, naming, snapshot.value, batchSize)
      && (set key | key in keys) == KeysOf(naming, snapshot.value)
      && forall i, j :: 0 <= i < j < |groups| ==> Strings.LessEqual(groups[i].id, groups[j].id)
  {
    hide KeyOf, GroupFor;
    groups, keys := [], [];
    if snapshot.None? {
      return;
    }
    var groupItems := FileItems(naming, snapshot.value);
    var todo := groupItems.Keys;
    while todo != {}
      invariant todo <= groupItems.Keys
      invariant GroupsFor(groups, keys, naming, snapshot.value, batchSize)
      invariant forall key :: key in keys <==> key in groupItems && key !in todo
      invariant forall i, j :: 0 <= i < j < |groups| ==> Strings.LessEqual(groups[i].id, groups[j].id)
      decreases |todo|
    {
      var key :| key in todo;
      todo := todo - {key};
      var group := MakeGroup(key, groupItems[key], naming, snapshot.value, batchSize);
      groups, keys := InsertGroup(groups, group, keys, key, naming, snapshot.value, batchSize);
    }
  }

  /** Keeps the groups sorted by id. */
  method InsertGroup(groups: seq<Group>, group: Group, ghost keys: seq<GroupKey>, ghost key: GroupKey, naming: Naming,
                     ghost snapshot: Snapshot, ghost batchSize: nat)
    returns (longer: seq<Group>, ghost longerKeys: seq<GroupKey>)
    requires GroupsFor(groups, keys, naming, snapshot, batchSize)
    requires GroupFor(group, key, naming, snapshot, batchSize) && key !in keys
    requires forall i, j :: 0 <= i < j < |groups| ==> Strings.LessEqual(groups[i].id, groups[j].id)
    ensures GroupsFor(longer, longerKeys, naming, snapshot, batchSize)
    ensures forall k :: k in longerKeys <==> k in keys || k == key
    ensures forall i, j :: 0 <= i < j < |longer| ==> Strings.LessEqual(longer[i].id, longer[j].id)
  {
    hide GroupFor;
    var at := |groups|;
    while at > 0 && Strings.Less(group.id, groups[at - 1].id)
      invariant 0 <= at <= |groups|
      invariant forall j :: at <= j < |groups| ==> Strings.Less(group.id, groups[j].id)
    {
      at := at - 1;
      forall j | at <= j < |groups|
        ensures Strings.Less(group.id, groups[j].id)
      {
      }
    }
    longer := groups[..at] + [group] + groups[at..];
    longerKeys := keys[..at] + [key] + keys[at..];
    KeysSpliced(keys, at, key);
    forall i | 0 <= i < at
      ensures Strings.LessEqual(groups[i].id, group.id)
    {
      Strings.LessTrichotomy(group.id, groups[at - 1].id);
      Strings.LessEqualTransitive(groups[i].id, groups[at - 1].id, group.id);
    }
  }

  lemma KeysSpliced(keys: seq<GroupKey>, at: nat, key: GroupKey)
    requires at <= |keys| && key !in keys
    requires forall i, j :: 0 <= i < j < |keys| ==> keys[i] != keys[j]
    ensures var longer := keys[..at] + [key] + keys[at..];
            && (forall k :: k in longer <==> k in keys || k == key)
            && (forall i, j :: 0 <= i < j < |longer| ==> longer[i] != longer[j])
  {
    var longer := keys[..at] + [key] + keys[at..];
    assert longer[at] == key;
    forall k | k in keys
      ensures k in longer
    {
      var i :| 0 <= i < |keys| && keys[i] == k;
      assert longer[if i < at then i else i + 1] == k;
    }
    forall i, j | 0 <= i < j < |longer|
      ensures longer[i] != longer[j]
    {
      assert i != at ==> longer[i] == keys[if i < at then i else i - 1];
      assert j != at ==> longer[j] == keys[if j < at then j else j - 1];
    }
  }

  // ---------- What this means for items and ids ----------

  lemma {:induction false} InSomeBatch(batches: seq<Batch>, id: string)
    requires id in Concatenated(batches)
    ensures exists i :: 0 <= i < |batches| && id in batches[i].itemIDs
  {
    var n := |batches| - 1;
    if id in batches[n].itemIDs {
      assert id in batches[n].itemIDs;
    } else {
      InSomeBatch(batches[..n], id);
      var i :| 0 <= i < n && id in batches[..n][i].itemIDs;
      assert id in batches[i].itemIDs;
    }
  }

  /** The snapshot wants the item collected: it is enabled, has a host and an interval, and is
      of one of the two numeric types. */
  predicate Polled(naming: Naming, snapshot: Snapshot, id: string) {
    && id in snapshot.items && snapshot.items[id].Some?
    && var d := snapshot.items[id].value.definition;
       d.enabled && d.hostID != "" && d.delay > 0 && (naming.parse)(d.valueType) in {Some(0), Some(3)}
  }

  predicate InBatch(group: Group, b: nat, id: string) {
    b < |group.batches| && id in group.batches[b].itemIDs
  }

  /** An item is in a batch of a group exactly if it is to be collected and has the host, the
      type and the delay of the group. */
  lemma EveryItemCollectedOnce(groups: seq<Group>, keys: seq<GroupKey>, naming: Naming, snapshot: Snapshot,
                               batchSize: nat, id: string, i: nat)
    requires GroupsFor(groups, keys, naming, snapshot, batchSize) && i < |groups|
    ensures (exists b :: InBatch(groups[i], b, id)) <==>
      && Polled(naming, snapshot, id)
      && var d := snapshot.items[id].value.definition;
         && d.hostID == groups[i].hostID && (naming.parse)(d.valueType) == Some(groups[i].valueType)
         && d.delay == groups[i].delay
  {
    var batches := groups[i].batches;
    assert GroupFor(groups[i], keys[i], naming, snapshot, batchSize);
    hide IDOf, Concatenated;
    if id in MembersOf(naming, snapshot, keys[i]) {
      assert id in Concatenated(batches);
      InSomeBatch(batches, id);
      var b :| 0 <= b < |batches| && id in batches[b].itemIDs;
      assert InBatch(groups[i], b, id);
    }
    if b: nat :| InBatch(groups[i], b, id) {
      FromSomeBatch(batches, b, id);
      assert id in MembersOf(naming, snapshot, keys[i]);
    }
  }

  /** Every item that is to be collected is in one group, and in no other; and a group's
      batches together list no item twice. */
  lemma EveryItemHasItsGroup(groups: seq<Group>, keys: seq<GroupKey>, naming: Naming, snapshot: Snapshot,
                             batchSize: nat, id: string)
    requires GroupsFor(groups, keys, naming, snapshot, batchSize)
    requires (set key | key in keys) == KeysOf(naming, snapshot)
    ensures Polled(naming, snapshot, id) <==> exists i, b :: 0 <= i < |groups| && InBatch(groups[i], b, id)
    ensures forall i, j, b, b' ::
      0 <= i < |groups| && 0 <= j < |groups| && InBatch(groups[i], b, id) && InBatch(groups[j], b', id) ==> i == j
    ensures forall i :: 0 <= i < |groups| ==>
      forall k, m :: 0 <= k < m < |Concatenated(groups[i].batches)| ==>
        Concatenated(groups[i].batches)[k] != Concatenated(groups[i].batches)[m]
  {
    hide GroupFor, InBatch;
    forall i | 0 <= i < |groups|
      ensures (exists b :: InBatch(groups[i], b, id)) <==>
        Polled(naming, snapshot, id) && HasKey(naming, snapshot, id, keys[i])
      ensures forall k, m :: 0 <= k < m < |Concatenated(groups[i].batches)| ==>
        Concatenated(groups[i].batches)[k] != Concatenated(groups[i].batches)[m]
    {
      EveryItemCollectedOnce(groups, keys, naming, snapshot, batchSize, id, i);
      KeyFields(groups, keys, naming, snapshot, batchSize, i);
    }
    if Polled(naming, snapshot, id) {
      var d := snapshot.items[id].value.definition;
      var key := GroupKey(d.hostID, (naming.parse)(d.valueType).value, d.delay);
      assert KeyOf(naming, snapshot.items[id]) == Some(key);
      assert key in KeysOf(naming, snapshot);
      var i :| 0 <= i < |keys| && keys[i] == key;
      var b :| InBatch(groups[i], b, id);
    }
  }

  predicate HasKey(naming: Naming, snapshot: Snapshot, id: string, key: GroupKey)
    requires Polled(naming, snapshot, id)
  {
    var d := snapshot.items[id].value.definition;
    d.hostID == key.hostID && (naming.parse)(d.valueType) == Some(key.valueType) && d.delay == key.delay
  }

  lemma KeyFields(groups: seq<Group>, keys: seq<GroupKey>, naming: Naming, snapshot: Snapshot, batchSize: nat, i: nat)
    requires GroupsFor(groups, keys, naming, snapshot, batchSize) && i < |groups|
    ensures keys[i] == GroupKey(groups[i].hostID, groups[i].valueType, groups[i].delay)
    ensures forall k, m :: 0 <= k < m < |Concatenated(groups[i].batches)| ==>
      Concatenated(groups[i].batches)[k] != Concatenated(groups[i].batches)[m]
  {
    assert GroupFor(groups[i], keys[i], naming, snapshot, batchSize);
    Strings.ListingDistinct(Concatenated(groups[i].batches), MembersOf(naming, snapshot, keys[i]));
  }

  lemma {:induction false} FromSomeBatch(batches: seq<Batch>, b: nat, id: string)
    requires b < |batches| && id in batches[b].itemIDs
    ensures id in Concatenated(batches)
  {
    var n := |batches| - 1;
    if b < n {
      FromSomeBatch(batches[..n], b, id);
    }
  }

  /** Two groups of one host and value type share an id exactly when their delays agree in
      whole seconds; delays of whole seconds therefore never clash. The scheduler keeps
      only one group of an id. */
  lemma IDsClash(naming: Naming, a: GroupKey, b: GroupKey)
    requires a.hostID == b.hostID && a.valueType == b.valueType && a.delay > 0 && b.delay > 0
    requires forall h: string, v: int, s: int, h': string, v': int, s': int ::
      (naming.groupID)(h, v, s) == (naming.groupID)(h', v', s') ==> h == h' && v == v' && s == s'
    ensures IDOf(naming, a) == IDOf(naming, b) <==> a.delay / SECOND == b.delay / SECOND
    ensures a.delay % SECOND == 0 && b.delay % SECOND == 0 && a != b ==> IDOf(naming, a) != IDOf(naming, b)
  {
    assert a.delay == a.delay / SECOND * SECOND + a.delay % SECOND;
    assert b.delay == b.delay / SECOND * SECOND + b.delay % SECOND;
  }

  /** Two groups of one host, polled every 60.5 and every 60.25 seconds, under one id. */
  lemma OneIDForTwo(naming: Naming) returns (a: GroupKey, b: GroupKey)
    ensures a != b && a.hostID == b.hostID && a.valueType == b.valueType && a.delay > 0 && b.delay > 0
    ensures IDOf(naming, a) == IDOf(naming, b)
  {
    a, b := GroupKey("host", 0, 60_500_000_000), GroupKey("host", 0, 60_250_000_000);
    assert 60_500_000_000 / SECOND == 60 && 60_250_000_000 / SECOND == 60;
  }
}

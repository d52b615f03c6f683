/** The reconciliation half of a metadata refresh (internal/pipeline/scheduled.go,
    applyMetadata). */
module Pipelines {
  import opened CacheProtocols
  import opened FlatCaches
  import opened Installs
  import opened MetadataStores
  import opened Options
  import Strings
  import opened ValueCaches

  /** The part of a cache that does not belong to the given items. */
  ghost function Without(flat: Flat, ids: set<string>): Flat {
    map id | id in flat && id !in ids :: flat[id]
  }

  lemma DeletedItems(flat: Flat, ids: seq<string>, threshold: nat, gone: set<string>)
    requires forall id :: id in ids <==> id in gone
    ensures Processed(flat, RemoveOps(FirstOccurrences(ids)), threshold).flat == Without(flat, gone)
  {
    hide Processed, RemoveOps, FirstOccurrences;
    var next := Processed(flat, RemoveOps(FirstOccurrences(ids)), threshold).flat;
    forall id: string
      ensures id in next <==> id in flat && id !in gone
      ensures id in next ==> next[id] == flat[id]
    {
      RemovedAll(flat, FirstOccurrences(ids), threshold, id);
      FirstOccurrencesExactly(ids);
    }
  }

  /** The item is gone from the snapshot, or has another definition there and is not disabled. */
  predicate Obsolete(prior: Snapshot, next: Snapshot, id: string) {
    && id in prior.items
    && (id in next.items ==>
          && !(next.items[id].Some? && !next.items[id].value.definition.enabled)
          && match (prior.items[id], next.items[id])
             case (Some(old_), Some(new_)) => old_.definition != new_.definition
             case (None, None) => false
             case _ => true)
  }

  lemma ReconcilesObsolete(prior: Snapshot, next: Snapshot, id: string)
    ensures id in ToReconcile(prior, next) <==> Obsolete(prior, next, id)
  {
  }

  /** Deletes the listed items, if there are any. */
  method DeleteListed(values: ValueCache, ids: seq<string>, ghost gone: set<string>)
    requires values.Valid() && forall id :: id in ids <==> id in gone
    modifies values`flat, values`entries, values`contents, values.shards
    ensures values.Valid() && values.flat == Without(old(values.flat), gone)
  {
    hide Processed, ValueCache.Valid, RemoveOps, FirstOccurrences;
    DeletedItems(values.flat, ids, values.missThreshold, gone);
    if |ids| != 0 {
      var deleted := values.Delete(ids);
    }
  }

  /** Deletes what a publication has made obsolete: exactly the states of removed items
      and of changed items that are not disabled now. `diff` is what publishing
      `snapshot` on top of `prior` reported. */
  method ApplyMetadata(diff: Diff, snapshot: Snapshot, values: ValueCache, ghost prior: Snapshot)
    requires values.Valid() && Describes(diff, prior, snapshot)
    modifies values`flat, values`entries, values`contents, values.shards
    ensures values.Valid()
    ensures values.flat == Without(old(values.flat), ToReconcile(prior, snapshot))
    ensures forall id ::
      Lookup(values.flat, id) == if Obsolete(prior, snapshot, id) then None else Lookup(old(values.flat), id)
  {
    hide ValueCache.Valid, FirstOccurrences, RemoveOps;
    ghost var start := values.flat;
    ghost var removedItems := prior.items.Keys - snapshot.items.Keys;
    DeleteListed(values, diff.items.removed, removedItems);
    var enabled := ChangedEnabled(diff.items.changed, snapshot);
    ghost var changedItems := ToReconcile(prior, snapshot) - removedItems;
    DeleteListed(values, enabled, changedItems);
    WithoutObsolete(start, prior, snapshot);
    hide ToReconcile, Obsolete, Describes;
  }

  lemma WithoutObsolete(flat: Flat, prior: Snapshot, next: Snapshot)
    ensures forall id ::
      Lookup(Without(flat, ToReconcile(prior, next)), id) ==
        if Obsolete(prior, next, id) then None else Lookup(flat, id)
  {
    forall id: string
      ensures id in ToReconcile(prior, next) <==> Obsolete(prior, next, id)
    {
      ReconcilesObsolete(prior, next, id);
    }
    hide ToReconcile, Obsolete;
  }

  /** The changed items whose state must go; a disabled item cannot receive new values and
      keeps its old one until that expires. */
  method ChangedEnabled(changed: seq<string>, snapshot: Snapshot) returns (enabled: seq<string>)
    ensures forall id :: id in enabled <==> id in changed && !Disabled(snapshot, id)
  {
    enabled := [];
    for i := 0 to |changed|
      invariant forall id :: id in enabled <==> id in changed[..i] && !Disabled(snapshot, id)
    {
      assert changed[..i + 1] == changed[..i] + [changed[i]];
      var item := ItemOf(snapshot, changed[i]);
      if item.Some? && !item.value.definition.enabled {
        continue;
      }
      enabled := enabled + [changed[i]];
    }
    assert changed[..|changed|] == changed;
  }
}

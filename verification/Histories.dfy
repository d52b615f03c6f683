/** History responses and their reduction to one newest point per item
    (internal/zabbix/history.go). */
module Histories {
  import opened Options

  /** One point. `value` is absent when the text does not parse to a finite number. */
  datatype HistoryItem = HistoryItem(itemID: string, clock: int, ns: int, value: Option<real>)

  datatype BatchStatus = Success | Empty | PossiblyTruncated | APIError | DecodeError

  datatype BatchResult = BatchResult(
    itemIDs: seq<string>,
    status: BatchStatus,
    records: seq<HistoryItem>,
    latest: Option<map<string, HistoryItem>>,
    returned: nat,
    limitHit: bool,
    startedAt: int,
    finishedAt: int)

  predicate Newer(a: HistoryItem, b: HistoryItem) {
    a.clock > b.clock || (a.clock == b.clock && a.ns > b.ns)
  }

  /** `records[i]` is the newest point of its item, and the first one if several
      points share its clock and nanoseconds. */
  predicate Newest(records: seq<HistoryItem>, i: nat)
    requires i < |records|
  {
    forall j :: 0 <= j < |records| && records[j].itemID == records[i].itemID ==>
      !Newer(records[j], records[i]) && (j < i ==> Newer(records[i], records[j]))
  }

  ghost predicate Chosen(records: seq<HistoryItem>, item: HistoryItem) {
    exists i :: 0 <= i < |records| && records[i] == item && Newest(records, i)
  }

  ghost predicate Reduces(latest: map<string, HistoryItem>, records: seq<HistoryItem>) {
    && (forall i :: 0 <= i < |records| ==> records[i].itemID in latest)
    && (forall id :: id in latest ==> latest[id].itemID == id && Chosen(records, latest[id]))
  }

  lemma ChosenSurvives(records: seq<HistoryItem>, item: HistoryItem, record: HistoryItem)
    requires Chosen(records, item)
    requires record.itemID == item.itemID ==> !Newer(record, item)
    ensures Chosen(records + [record], item)
  {
    var i :| 0 <= i < |records| && records[i] == item && Newest(records, i);
    assert (records + [record])[i] == item && Newest(records + [record], i);
  }

  lemma ChosenReplaced(records: seq<HistoryItem>, latest: map<string, HistoryItem>, record: HistoryItem)
    requires Reduces(latest, records)
    requires record.itemID !in latest || Newer(record, latest[record.itemID])
    ensures Chosen(records + [record], record)
  {
    var n := |records|;
    forall j | 0 <= j < n && records[j].itemID == record.itemID
      ensures Newer(record, records[j])
    {
      assert Chosen(records, latest[record.itemID]);
      var i :| 0 <= i < n && records[i] == latest[record.itemID] && Newest(records, i);
    }
    assert (records + [record])[n] == record && Newest(records + [record], n);
  }

  /** Keeps the greatest (clock, ns) point of every item, whatever the order in which
      the response lists them. */
  method ReduceLatest(records: seq<HistoryItem>) returns (latest: map<string, HistoryItem>)
    ensures Reduces(latest, records)
  {
    latest := map[];
    for n := 0 to |records|
      invariant Reduces(latest, records[..n])
    {
      var record := records[n];
      ghost var before := records[..n];
      ghost var prior := latest;
      assert records[..n + 1] == before + [record];
      if record.itemID !in latest || Newer(record, latest[record.itemID]) {
        ChosenReplaced(before, latest, record);
        latest := latest[record.itemID := record];
      }
      forall id | id in latest && latest[id] != record
        ensures Chosen(before + [record], latest[id])
      {
        ChosenSurvives(before, prior[id], record);
      }
      if record in latest.Values && record.itemID in prior && prior[record.itemID] == record {
        ChosenSurvives(before, record, record);
      }
      assert Reduces(latest, before + [record]);
    }
    assert records[..|records|] == records;
  }

  /** The point kept for an item is one of the response, and no point of that item has a later
      second, or the same second and more nanoseconds. */
  lemma KeptIsLatest(latest: map<string, HistoryItem>, records: seq<HistoryItem>, i: nat)
    requires Reduces(latest, records) && i < |records|
    ensures var record := records[i];
            && record.itemID in latest && latest[record.itemID] in records
            && latest[record.itemID].itemID == record.itemID
            && record.clock <= latest[record.itemID].clock
            && (record.clock == latest[record.itemID].clock ==> record.ns <= latest[record.itemID].ns)
  {
    assert Chosen(records, latest[records[i].itemID]);
  }

  /** A reduction is determined by its records. */
  lemma ReductionUnique(a: map<string, HistoryItem>, b: map<string, HistoryItem>, records: seq<HistoryItem>)
    requires Reduces(a, records) && Reduces(b, records)
    ensures a == b
  {
    forall id
      ensures id in a <==> id in b
      ensures id in a && id in b ==> a[id] == b[id]
    {
      if id in a {
        assert Chosen(records, a[id]);
      }
      if id in b {
        assert Chosen(records, b[id]);
      }
    }
  }
}

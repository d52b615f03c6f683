/** The scheduler's priority queue: a heap of group entries in which every entry knows its
    own position (internal/scheduler/scheduler.go, groupHeap with Go's container/heap). */
module GroupHeaps {
  import opened Groups
  import opened Heaps
  import Strings

  /** Entries are ordered by their next run, and by id among equals. */
  datatype RunKey = RunKey(at: int, id: string)

  predicate Sooner(a: RunKey, b: RunKey) {
    a.at < b.at || (a.at == b.at && Strings.LessEqual(a.id, b.id))
  }

  /** Runs are ordered by their instant, and those of one instant by id. */
  lemma SoonerTotal()
    ensures TotalOrder(Sooner)
    ensures forall a, b :: Sooner(a, b) && a != b ==> a.at < b.at || (a.at == b.at && Strings.Less(a.id, b.id))
  {
    forall a: RunKey, b: RunKey
      ensures Sooner(a, b) || Sooner(b, a)
    {
      Strings.LessTrichotomy(a.id, b.id);
    }
    forall a: RunKey, b: RunKey, c: RunKey | Sooner(a, b) && Sooner(b, c)
      ensures Sooner(a, c)
    {
      if a.at == b.at == c.at && a.id != b.id && b.id != c.id {
        Strings.LessTransitive(a.id, b.id, c.id);
      }
    }
  }

  class GroupEntry {
    const id: string
    var group: Group
    var nextRunAt: int
    var nextCadence: int
    var retrying: bool
    var failures: nat
    var heapIndex: int
    var lastPlanned: int
    /** The instant that fixed the group's cadence. */
    ghost var anchor: int

    constructor (group: Group, nextRunAt: int, nextCadence: int)
      ensures id == group.id && this.group == group && this.nextRunAt == nextRunAt && this.nextCadence == nextCadence
      ensures !retrying && failures == 0 && lastPlanned == 0 && anchor == nextRunAt
    {
      id, this.group := group.id, group;
      this.nextRunAt, this.nextCadence := nextRunAt, nextCadence;
      retrying, failures, heapIndex, lastPlanned, anchor := false, 0, -1, 0, nextRunAt;
    }

    function Key(): RunKey
      reads this`nextRunAt
    {
      RunKey(nextRunAt, id)
    }
  }

  ghost function KeysOf(items: seq<GroupEntry>): (keys: seq<RunKey>)
    reads items`nextRunAt
    ensures |keys| == |items|
    ensures forall i :: 0 <= i < |items| ==> keys[i] == items[i].Key()
  {
    if items == [] then [] else KeysOf(items[..|items| - 1]) + [items[|items| - 1].Key()]
  }

  class GroupHeap {
    var items: seq<GroupEntry>
    ghost var members: set<GroupEntry>

    ghost function Keys(): (keys: seq<RunKey>)
      reads this, items`nextRunAt
      ensures |keys| == |items|
    {
      KeysOf(items)
    }

    /** Every entry knows where it is, so no entry is in the queue twice. */
    ghost predicate Indexed()
      reads this, items`heapIndex
    {
      && (forall i :: 0 <= i < |items| ==> items[i] in members && items[i].heapIndex == i)
      && (forall e :: e in members ==> e in items)
    }

    ghost predicate Valid()
      reads this, items`heapIndex, items`nextRunAt
    {
      Indexed() && Heap(Keys(), Sooner)
    }

    constructor ()
      ensures Valid() && items == [] && members == {}
    {
      items, members := [], {};
    }

    method Swap(i: nat, j: nat)
      requires Indexed() && i < |items| && j < |items|
      modifies this`items, members`heapIndex
      ensures Indexed() && |items| == |old(items)|
      ensures items == Swapped(old(items), i, j)
      ensures Keys() == Swapped(old(Keys()), i, j)
    {
      hide KeysOf;
      items := items[i := items[j]][j := items[i]];
      items[i].heapIndex := i;
      items[j].heapIndex := j;
      assert items == Swapped(old(items), i, j);
      SwappedMembers(old(items), i, j);
    }

    /** `up`: moves an entry towards the root until its parent is not later. */
    method Up(start: nat)
      requires Indexed() && start < |items| && HeapAbove(Keys(), Sooner, start)
      modifies this`items, members`heapIndex
      ensures Valid() && |items| == |old(items)|
    {
      hide TotalOrder, HeapAbove, Sooner, Swapped, Heap, GroupHeap.Indexed;
      SoonerTotal();
      var j := start;
      while j > 0
        invariant 0 <= j < |items| == |old(items)| && Indexed() && HeapAbove(Keys(), Sooner, j)
      {
        var parent := (j - 1) / 2;
        assert Edge(parent, j);
        if Sooner(items[parent].Key(), items[j].Key()) {
          break;
        }
        RiseStep(Keys(), Sooner, parent, j);
        Swap(parent, j);
        j := parent;
      }
      assert forall p :: Edge(p, j) ==> p == (j - 1) / 2;
      RisenIsHeap(Keys(), Sooner, j);
    }

    /** `down`: moves an entry away from the root while a child is sooner. */
    method Down(start: nat, ghost lo: nat) returns (moved: bool)
      requires Indexed() && lo <= start < |items|
      requires HeapBelow(Keys(), Sooner, lo, start) || Settled(Keys(), start)
      modifies this`items, members`heapIndex
      ensures Indexed() && |items| == |old(items)|
      ensures moved ==> HeapFrom(Keys(), Sooner, lo)
      ensures !moved ==> items == old(items) && Keys() == old(Keys()) && Settled(Keys(), start)
    {
      hide TotalOrder, HeapBelow, HeapFrom, Sooner, Settled, Swapped, GroupHeap.Indexed;
      SoonerTotal();
      var i := start;
      while 2 * i + 1 < |items|
        invariant start <= i < |items| == |old(items)| && Indexed()
        invariant HeapBelow(Keys(), Sooner, lo, i) || (i == start && Settled(Keys(), start))
        invariant i == start ==> items == old(items) && Keys() == old(Keys())
        decreases |items| - i
      {
        ghost var keys := Keys();
        var child := 2 * i + 1;
        if child + 1 < |items| && !Sooner(items[child].Key(), items[child + 1].Key()) {
          child := child + 1;
        }
        Smaller(keys, i, child);
        if Sooner(items[i].Key(), items[child].Key()) {
          break;
        }
        NotSettled(keys, i, child);
        SinkStep(keys, Sooner, lo, i, child);
        Swap(i, child);
        i := child;
      }
      moved := i > start;
      Sunk(Keys(), lo, start, i);
    }

    /** `heap.Push`: the entry joins the queue and learns its position. */
    method Push(entry: GroupEntry)
      requires Valid() && entry !in members
      modifies this, entry`heapIndex, members`heapIndex
      ensures Valid() && members == old(members) + {entry} && |items| == |old(items)| + 1
    {
      hide TotalOrder, Sooner;
      PushStep(Keys(), Sooner, entry.Key());
      NotQueued(entry);
      entry.heapIndex := |items|;
      items := items + [entry];
      members := members + {entry};
      assert Keys() == old(Keys()) + [entry.Key()];
      Up(|items| - 1);
    }

    lemma NotQueued(entry: GroupEntry)
      requires Indexed() && entry !in members
      ensures entry !in items
    {
      forall i | 0 <= i < |items|
        ensures items[i] != entry
      {
      }
    }

    lemma Absent(entry: GroupEntry)
      requires Valid() && entry !in members
      ensures entry !in items
    {
      NotQueued(entry);
    }

    /** The list part of a pop: the last entry leaves. */
    method RemoveLast() returns (entry: GroupEntry)
      requires Indexed() && items != []
      modifies this, members`heapIndex
      ensures Indexed() && |items| == |old(items)| - 1
      ensures entry == old(items)[|items|] && entry in old(members) && entry.heapIndex == -1
      ensures members == old(members) - {entry} && Keys() == old(Keys())[..|items|]
    {
      hide KeysOf;
      var last := |items| - 1;
      entry := items[last];
      LastAlone(items, last);
      KeysPrefix(items, last);
      entry.heapIndex := -1;
      items := items[..last];
      members := members - {entry};
    }

    /** `heap.Pop`: takes the soonest entry out of the queue. */
    method Pop() returns (entry: GroupEntry)
      requires Valid() && items != []
      modifies this, members`heapIndex
      ensures Valid() && members == old(members) - {entry} && |items| == |old(items)| - 1
      ensures entry == old(items[0]) && entry in old(members) && entry.heapIndex == -1
    {
      hide TotalOrder, Sooner, Swapped, Heap, HeapFrom, HeapBelow, Settled, KeysOf, GroupHeap.Indexed;
      SoonerTotal();
      var last := |items| - 1;
      PopStep(Keys(), Sooner);
      SwapEnds(items, last);
      Swap(0, last);
      entry := RemoveLast();
      if last > 0 {
        var moved := Down(0, 0);
        if !moved {
          SettledMeans(Keys(), 0);
          SunkIsHeap(Keys(), Sooner, 0, 0);
        }
      } else {
        NothingQueued(Keys());
      }
      WholeHeap(Keys());
    }

    /** `heap.Fix`: restores the order after one entry's next run has changed. */
    method Fix(i: nat)
      requires Indexed() && i < |items| && Fixable(Keys(), i)
      modifies this`items, members`heapIndex
      ensures Valid() && |items| == |old(items)|
    {
      hide TotalOrder, Sooner, Fixable, HeapBelow, HeapAbove, Settled;
      SoonerTotal();
      BelowOrSettled(Keys(), i);
      var moved := Down(i, 0);
      if !moved {
        AboveIfSettled(Keys(), i);
        Up(i);
      }
    }

    /** Moves a queued entry to another instant and restores the order around it. */
    method Reschedule(entry: GroupEntry, at: int)
      requires Valid() && entry in members
      modifies this`items, members`heapIndex, entry`nextRunAt
      ensures Valid() && |items| == |old(items)| && entry.nextRunAt == at
    {
      hide TotalOrder, Sooner, Heap, Fixable, KeysOf;
      ghost var i := entry.heapIndex;
      Position(entry);
      ChangedIsFixable(Keys(), i, RunKey(at, entry.id));
      entry.nextRunAt := at;
      assert Keys() == old(Keys())[i := RunKey(at, entry.id)];
      Fix(entry.heapIndex);
    }

    lemma Position(entry: GroupEntry)
      requires Indexed() && entry in members
      ensures 0 <= entry.heapIndex < |items| && items[entry.heapIndex] == entry
      ensures forall i :: 0 <= i < |items| && i != entry.heapIndex ==> items[i] != entry
    {
      var i :| 0 <= i < |items| && items[i] == entry;
    }

    lemma First()
      requires Valid() && items != []
      ensures items[0] in members
    {
    }

    /** The first entry is the soonest. */
    lemma Soonest(entry: GroupEntry)
      requires Valid() && entry in members
      ensures items != [] && items[0].nextRunAt <= entry.nextRunAt
    {
      Position(entry);
      SoonerTotal();
      RootIsLeast(Keys(), Sooner, entry.heapIndex);
    }

    /** Takes over a new list of entries and orders it. */
    method Replace(list: seq<GroupEntry>)
      requires forall i :: 0 <= i < |list| ==> list[i].heapIndex == i
      modifies this, list`heapIndex
      ensures Valid() && members == set e | e in list
    {
      items := list;
      members := set e | e in list;
      Init();
    }

    /** `heap.Init`: orders whatever is there, from the last parent to the root. */
    method Init()
      requires Indexed()
      modifies this`items, members`heapIndex
      ensures Valid() && |items| == |old(items)|
    {
      hide TotalOrder, Sooner, HeapBelow, Settled;
      var i := |items| / 2;
      NoParents(Keys());
      while i > 0
        invariant 0 <= i <= |items| / 2 && |items| == |old(items)|
        invariant Indexed() && HeapFrom(Keys(), Sooner, i)
      {
        i := i - 1;
        OneMoreParent(Keys(), i);
        var moved := Down(i, i);
        if !moved {
          SettledMeans(Keys(), i);
          SunkIsHeap(Keys(), Sooner, i, i);
        }
      }
    }
  }

  /** Only the edges at `i` may be out of order, and the children of `i` respect its
      parent: what a heap becomes when the key at `i` changes. */
  ghost predicate Fixable(keys: seq<RunKey>, i: nat) {
    && (forall p, c :: Edge(p, c) && c < |keys| && p != i && c != i ==> Sooner(keys[p], keys[c]))
    && (forall p, c :: Edge(p, i) && Edge(i, c) && c < |keys| ==> Sooner(keys[p], keys[c]))
  }

  lemma ChangedIsFixable(keys: seq<RunKey>, i: nat, key: RunKey)
    requires Heap(keys, Sooner) && i < |keys|
    ensures Fixable(keys[i := key], i)
  {
    SoonerTotal();
    hide Sooner;
    forall p, c | Edge(p, i) && Edge(i, c) && c < |keys|
      ensures Sooner(keys[p], keys[c])
    {
      assert Sooner(keys[p], keys[i]) && Sooner(keys[i], keys[c]);
    }
  }

  lemma BelowOrSettled(keys: seq<RunKey>, i: nat)
    requires TotalOrder(Sooner) && Fixable(keys, i) && i < |keys|
    ensures HeapBelow(keys, Sooner, 0, i) || Settled(keys, i)
  {
    hide Sooner;
    if i > 0 {
      var parent := (i - 1) / 2;
      assert Edge(parent, i);
      if Sooner(keys[parent], keys[i]) {
        assert forall p :: Edge(p, i) ==> p == parent;
        assert HeapBelow(keys, Sooner, 0, i);
      } else {
        assert Settled(keys, i);
      }
    }
  }

  lemma AboveIfSettled(keys: seq<RunKey>, i: nat)
    requires Fixable(keys, i) && Settled(keys, i) && i < |keys|
    ensures HeapAbove(keys, Sooner, i)
  {
    hide Sooner;
  }

  lemma SettledMeans(keys: seq<RunKey>, i: nat)
    requires Settled(keys, i)
    ensures forall c :: Edge(i, c) && c < |keys| ==> Sooner(keys[i], keys[c])
  {
  }

  lemma NothingQueued(keys: seq<RunKey>)
    requires |keys| == 0
    ensures HeapFrom(keys, Sooner, 0)
  {
  }

  lemma WholeHeap(keys: seq<RunKey>)
    requires HeapFrom(keys, Sooner, 0)
    ensures Heap(keys, Sooner)
  {
  }

  lemma NoParents(keys: seq<RunKey>)
    ensures HeapFrom(keys, Sooner, |keys| / 2)
  {
  }

  lemma OneMoreParent(keys: seq<RunKey>, i: nat)
    requires HeapFrom(keys, Sooner, i + 1)
    ensures HeapBelow(keys, Sooner, i, i)
  {
  }

  /** Once the root has been swapped to the end it occurs nowhere else. */
  lemma LastAlone(items: seq<GroupEntry>, last: nat)
    requires |items| == last + 1 && forall i :: 0 <= i < |items| ==> items[i].heapIndex == i
    ensures forall e :: e in items[..last] <==> e in items && e != items[last]
  {
    forall e | e in items && e != items[last]
      ensures e in items[..last]
    {
      var i :| 0 <= i < |items| && items[i] == e;
      assert items[..last][i] == e;
    }
    forall e | e in items[..last]
      ensures e in items && e != items[last]
    {
      var i :| 0 <= i < last && items[..last][i] == e;
      assert items[i] == e;
    }
  }

  lemma KeysPrefix(items: seq<GroupEntry>, last: nat)
    requires last <= |items|
    ensures KeysOf(items[..last]) == KeysOf(items)[..last]
  {
    hide KeysOf;
  }

  lemma SwapEnds(items: seq<GroupEntry>, last: nat)
    requires last + 1 == |items|
    ensures Swapped(items, 0, last)[last] == items[0]
  {
  }

  lemma SwappedMembers(items: seq<GroupEntry>, i: nat, j: nat)
    requires i < |items| && j < |items|
    ensures forall e :: e in items ==> e in Swapped(items, i, j)
    ensures forall e :: e in Swapped(items, i, j) ==> e in items
  {
    forall e | e in items
      ensures e in Swapped(items, i, j)
    {
      var k :| 0 <= k < |items| && items[k] == e;
      assert Swapped(items, i, j)[if k == i then j else if k == j then i else k] == e;
    }
  }

  /** No child of the position is sooner. */
  ghost predicate Settled(keys: seq<RunKey>, j: int) {
    forall c :: Edge(j, c) && c < |keys| ==> Sooner(keys[j], keys[c])
  }

  lemma Smaller(keys: seq<RunKey>, i: nat, child: nat)
    requires TotalOrder(Sooner) && 2 * i + 1 < |keys|
    requires child == if 2 * i + 2 < |keys| && !Sooner(keys[2 * i + 1], keys[2 * i + 2]) then 2 * i + 2 else 2 * i + 1
    ensures Edge(i, child) && child < |keys|
    ensures forall c :: Edge(i, c) && c < |keys| ==> Sooner(keys[child], keys[c])
    ensures Sooner(keys[i], keys[child]) ==> Settled(keys, i)
  {
  }

  lemma NotSettled(keys: seq<RunKey>, i: nat, child: nat)
    requires Edge(i, child) && child < |keys| && !Sooner(keys[i], keys[child])
    ensures !Settled(keys, i)
  {
  }

  lemma Sunk(keys: seq<RunKey>, lo: nat, start: nat, i: nat)
    requires start <= i < |keys| && (HeapBelow(keys, Sooner, lo, i) || (i == start && Settled(keys, start)))
    requires 2 * i + 1 >= |keys| || Settled(keys, i)
    ensures Settled(keys, i)
    ensures i > start ==> HeapFrom(keys, Sooner, lo)
  {
    assert Settled(keys, i);
    if HeapBelow(keys, Sooner, lo, i) {
      SunkIsHeap(keys, Sooner, lo, i);
    }
  }
}

/** Byte-wise string order, sorting, and removal of duplicates from sorted lists. */
module Strings {
  predicate Less(a: string, b: string) {
    if b == [] then
      false
    else if a == [] then
      true
    else
      a[0] < b[0] || (a[0] == b[0] && Less(a[1..], b[1..]))
  }

  /** The first position in which two strings differ, if both have one. */
  predicate Splits(a: string, b: string, i: nat) {
    i < |a| && i < |b| && a[..i] == b[..i] && a[i] != b[i]
  }

  /** A proper prefix comes first; otherwise the first difference decides. */
  lemma {:induction false} LessExactly(a: string, b: string)
    ensures a < b ==> Less(a, b)
    ensures b <= a ==> !Less(a, b)
    ensures forall i: nat :: Splits(a, b, i) ==> (Less(a, b) <==> a[i] < b[i])
  {
    if a != [] && b != [] {
      LessExactly(a[1..], b[1..]);
      forall i: nat | Splits(a, b, i)
        ensures Less(a, b) <==> a[i] < b[i]
      {
        if i > 0 {
          assert a[..i][0] == b[..i][0];
          assert a[1..][..i - 1] == a[..i][1..] && b[1..][..i - 1] == b[..i][1..];
          assert Splits(a[1..], b[1..], i - 1);
        }
      }
      if a < b {
        assert a[0] == b[0] && a[1..] < b[1..];
      }
      if b <= a {
        assert a[0] == b[0] && b[1..] <= a[1..];
      }
    }
  }

  predicate LessEqual(a: string, b: string) {
    a == b || Less(a, b)
  }

  lemma {:induction false} LessTransitive(a: string, b: string, c: string)
    requires Less(a, b) && Less(b, c)
    ensures Less(a, c)
  {
    if a != [] && a[0] == b[0] && b[0] == c[0] {
      LessTransitive(a[1..], b[1..], c[1..]);
    }
  }

  lemma {:induction false} LessTrichotomy(a: string, b: string)
    ensures a == b || Less(a, b) || Less(b, a)
    ensures !(Less(a, b) && Less(b, a)) && !Less(a, a)
  {
    if a != [] && b != [] {
      LessTrichotomy(a[1..], b[1..]);
      if a[0] == b[0] && a[1..] == b[1..] {
        assert a == [a[0]] + a[1..];
        assert b == [b[0]] + b[1..];
      }
    }
    if a != [] {
      LessTrichotomy(a[1..], a[1..]);
    }
  }

  predicate Ascending(list: seq<string>) {
    forall i, j :: 0 <= i < j < |list| ==> LessEqual(list[i], list[j])
  }

  predicate StrictlyAscending(list: seq<string>) {
    forall i, j :: 0 <= i < j < |list| ==> Less(list[i], list[j])
  }

  ghost predicate Listing(list: seq<string>, members: set<string>) {
    StrictlyAscending(list) && (forall id :: id in list <==> id in members)
  }

  /** A set has exactly one strictly ascending listing. */
  lemma {:induction false} ListingUnique(a: seq<string>, b: seq<string>, members: set<string>)
    requires Listing(a, members) && Listing(b, members)
    ensures a == b
  {
    assert (a == [] <==> members == {}) && (b == [] <==> members == {}) by {
      ListingEmpty(a, members);
      ListingEmpty(b, members);
    }
    if a != [] {
      assert a[0] in members;
      HeadIsLeast(a, members, b[0]);
      HeadIsLeast(b, members, a[0]);
      LessTrichotomy(a[0], b[0]);
      TailListing(a, members);
      TailListing(b, members);
      ListingUnique(a[1..], b[1..], members - {a[0]});
      assert a == [a[0]] + a[1..] && b == [b[0]] + b[1..];
    }
  }

  lemma ListingDistinct(a: seq<string>, members: set<string>)
    requires Listing(a, members)
    ensures forall i, j :: 0 <= i < j < |a| ==> a[i] != a[j]
  {
    forall i, j | 0 <= i < j < |a|
      ensures a[i] != a[j]
    {
      LessTrichotomy(a[i], a[j]);
    }
  }

  lemma ListingEmpty(a: seq<string>, members: set<string>)
    requires Listing(a, members)
    ensures a == [] <==> members == {}
  {
    if a != [] {
      assert a[0] in members;
    }
  }

  lemma HeadIsLeast(a: seq<string>, members: set<string>, other: string)
    requires Listing(a, members) && a != [] && other in members
    ensures LessEqual(a[0], other)
  {
    assert other in a;
  }

  lemma TailListing(a: seq<string>, members: set<string>)
    requires Listing(a, members) && a != []
    ensures Listing(a[1..], members - {a[0]})
  {
    forall id
      ensures id in a[1..] <==> id in members - {a[0]}
    {
      if id in a[1..] {
        var i :| 0 <= i < |a| - 1 && a[1..][i] == id;
        assert a[i + 1] == id;
        LessTrichotomy(a[0], id);
      }
    }
  }

  lemma LessEqualTransitive(a: string, b: string, c: string)
    requires LessEqual(a, b) && LessEqual(b, c)
    ensures LessEqual(a, c)
  {
    if a != b && b != c {
      LessTransitive(a, b, c);
    }
  }

  /** Inserts a string behind every smaller or equal one. */
  method InsertSorted(list: seq<string>, s: string) returns (longer: seq<string>)
    requires Ascending(list)
    ensures Ascending(longer)
    ensures multiset(longer) == multiset(list) + multiset{s}
  {
    var at := |list|;
    while at > 0 && Less(s, list[at - 1])
      invariant 0 <= at <= |list|
      invariant forall j :: at <= j < |list| ==> Less(s, list[j])
    {
      at := at - 1;
    }
    longer := list[..at] + [s] + list[at..];
    assert list == list[..at] + list[at..];
    if at > 0 {
      LessTrichotomy(s, list[at - 1]);
      SmallerBelow(list, s, at);
    }
    Sandwich(list[..at], s, list[at..]);
  }

  lemma SmallerBelow(list: seq<string>, s: string, at: nat)
    requires Ascending(list) && 0 < at <= |list| && LessEqual(list[at - 1], s)
    ensures forall i :: 0 <= i < at ==> LessEqual(list[i], s)
  {
    forall i | 0 <= i < at
      ensures LessEqual(list[i], s)
    {
      LessEqualTransitive(list[i], list[at - 1], s);
    }
  }

  lemma Sandwich(below: seq<string>, s: string, above: seq<string>)
    requires Ascending(below) && Ascending(above)
    requires forall i :: 0 <= i < |below| ==> LessEqual(below[i], s)
    requires forall i :: 0 <= i < |above| ==> LessEqual(s, above[i])
    ensures Ascending(below + [s] + above)
  {
    forall i, j | 0 <= i < |below| && 0 <= j < |above|
      ensures LessEqual(below[i], above[j])
    {
      LessEqualTransitive(below[i], s, above[j]);
    }
  }

  /** `sort.Strings`. */
  method Sort(list: seq<string>) returns (sorted: seq<string>)
    ensures Ascending(sorted)
    ensures multiset(sorted) == multiset(list)
  {
    sorted := [];
    for i := 0 to |list|
      invariant Ascending(sorted)
      invariant multiset(sorted) == multiset(list[..i])
    {
      assert list[..i + 1] == list[..i] + [list[i]];
      sorted := InsertSorted(sorted, list[i]);
    }
    assert list[..|list|] == list;
  }

  /** Drops adjacent repetitions inside the list's own buffer; on a sorted list
      that leaves every distinct string once. */
  method CompactAdjacent(list: seq<string>) returns (compact: seq<string>)
    requires Ascending(list)
    ensures Listing(compact, set s | s in list)
  {
    if |list| == 0 {
      return [];
    }
    var buffer := list;
    var write, read := 1, 1;
    while read < |list|
      invariant 1 <= write <= read <= |list| == |buffer|
      invariant StrictlyAscending(buffer[..write])
      invariant buffer[write - 1] == list[read - 1]
      invariant forall s :: s in buffer[..write] <==> s in list[..read]
      invariant forall i :: read <= i < |list| ==> buffer[i] == list[i]
    {
      assert list[..read + 1] == list[..read] + [list[read]];
      if buffer[read] != buffer[write - 1] {
        ghost var before := buffer[..write];
        assert LessEqual(list[read - 1], list[read]);
        forall i | 0 <= i < write
          ensures Less(before[i], buffer[read])
        {
          if i < write - 1 {
            LessTransitive(before[i], before[write - 1], buffer[read]);
          }
        }
        var next := buffer[write := buffer[read]];
        assert next[..write + 1] == before + [buffer[read]];
        buffer := next;
        write := write + 1;
      }
      read := read + 1;
    }
    assert list[..read] == list;
    compact := buffer[..write];
  }

  /** Sorting and compacting a list yields the one listing of its elements. */
  method SortDistinct(list: seq<string>) returns (sorted: seq<string>)
    ensures Listing(sorted, set s | s in list)
  {
    var ascending := Sort(list);
    SameElements(ascending, list);
    sorted := CompactAdjacent(ascending);
  }

  predicate Distinct(list: seq<string>) {
    forall i, j :: 0 <= i < j < |list| ==> list[i] != list[j]
  }

  /** The list holds the members once each, in some order. */
  ghost predicate Collects(list: seq<string>, members: set<string>) {
    Distinct(list) && (forall id :: id in list <==> id in members)
  }

  lemma CollectNothing()
    ensures Collects([], {})
  {
  }

  lemma CollectOne(list: seq<string>, members: set<string>, id: string)
    requires Collects(list, members) && id !in members
    ensures Collects(list + [id], members + {id})
  {
    var longer := list + [id];
    forall i, j | 0 <= i < j < |longer|
      ensures longer[i] != longer[j]
    {
      assert list[i] in list;
    }
  }

  /** Sorting keys taken from a map, where no key repeats. */
  method SortKeys(keys: seq<string>, ghost members: set<string>) returns (sorted: seq<string>)
    requires Collects(keys, members)
    ensures Listing(sorted, members)
  {
    sorted := Sort(keys);
    SameElements(sorted, keys);
    forall i, j | 0 <= i < j < |sorted|
      ensures Less(sorted[i], sorted[j])
    {
      if sorted[i] == sorted[j] {
        Repeated(sorted, i, j);
        OccursOnce(keys, sorted[i]);
      }
    }
  }

  lemma Repeated(list: seq<string>, i: nat, j: nat)
    requires i < j < |list| && list[i] == list[j]
    ensures multiset(list)[list[i]] >= 2
  {
    assert list == list[..j] + list[j..];
    assert list[i] in list[..j] && list[i] in list[j..];
    assert list[..j][i] == list[i] && list[j..][0] == list[i];
  }

  lemma {:induction false} OccursOnce(list: seq<string>, s: string)
    requires Distinct(list)
    ensures multiset(list)[s] <= 1
  {
    if list != [] {
      assert list == [list[0]] + list[1..];
      OccursOnce(list[1..], s);
    }
  }

  lemma SameElements(a: seq<string>, b: seq<string>)
    requires multiset(a) == multiset(b)
    ensures forall s :: s in a <==> s in b
  {
    forall s
      ensures s in a <==> s in b
    {
      assert s in a <==> s in multiset(a);
      assert s in b <==> s in multiset(b);
    }
  }

  lemma Associate(a: seq<string>, b: seq<string>, c: seq<string>)
    ensures a + (b + c) == (a + b) + c
  {
  }
}

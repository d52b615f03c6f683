/** Binary min-heaps kept in a list, with the sift loops of Go's container/heap. The order
    is any total one. */
module Heaps {
  /** `c` is a child position of `p`. */
  predicate Edge(p: int, c: int) {
    0 <= p && (c == 2 * p + 1 || c == 2 * p + 2)
  }

  ghost predicate TotalOrder<K(!new)>(leq: (K, K) -> bool) {
    && (forall a, b :: leq(a, b) || leq(b, a))
    && (forall a, b, c :: leq(a, b) && leq(b, c) ==> leq(a, c))
  }

  /** The heap order holds below every position from `lo` on. */
  ghost predicate HeapFrom<K(!new)>(h: seq<K>, leq: (K, K) -> bool, lo: int) {
    forall p, c :: Edge(p, c) && lo <= p && c < |h| ==> leq(h[p], h[c])
  }

  ghost predicate Heap<K(!new)>(h: seq<K>, leq: (K, K) -> bool) {
    HeapFrom(h, leq, 0)
  }

  function Swapped<K>(h: seq<K>, i: nat, j: nat): seq<K>
    requires i < |h| && j < |h|
  {
    h[i := h[j]][j := h[i]]
  }

  lemma SwapKeepsElements<K>(h: seq<K>, i: nat, j: nat)
    requires i < |h| && j < |h|
    ensures multiset(Swapped(h, i, j)) == multiset(h)
  {
  }

  lemma {:induction false} RootIsLeast<K(!new)>(h: seq<K>, leq: (K, K) -> bool, i: nat)
    requires TotalOrder(leq) && Heap(h, leq) && i < |h|
    ensures leq(h[0], h[i])
  {
    if i > 0 {
      var parent := (i - 1) / 2;
      assert Edge(parent, i);
      RootIsLeast(h, leq, parent);
    }
  }

  /** Only the edge above `j` may be out of order, and the children of `j` already
      respect its parent. */
  ghost predicate HeapAbove<K(!new)>(h: seq<K>, leq: (K, K) -> bool, j: nat) {
    && (forall p, c :: Edge(p, c) && c < |h| && c != j ==> leq(h[p], h[c]))
    && (forall p, c :: Edge(p, j) && Edge(j, c) && c < |h| ==> leq(h[p], h[c]))
  }

  lemma RiseStep<K(!new)>(h: seq<K>, leq: (K, K) -> bool, parent: nat, j: nat)
    requires TotalOrder(leq)
    requires Edge(parent, j) && j < |h| && !leq(h[parent], h[j]) && HeapAbove(h, leq, j)
    ensures HeapAbove(Swapped(h, parent, j), leq, parent)
  {
    var after := Swapped(h, parent, j);
    assert leq(h[j], h[parent]);
    forall p, c | Edge(p, c) && c < |h| && c != parent
      ensures leq(after[p], after[c])
    {
      if p == parent && c != j {
        assert leq(h[parent], h[c]);
      } else if p == j {
        assert Edge(parent, j) && Edge(j, c);
      }
    }
    forall p, c | Edge(p, parent) && Edge(parent, c) && c < |h|
      ensures leq(after[p], after[c])
    {
      assert leq(h[p], h[parent]);
      if c != j {
        assert leq(h[parent], h[c]);
      }
    }
  }

  lemma RisenIsHeap<K(!new)>(h: seq<K>, leq: (K, K) -> bool, j: nat)
    requires HeapAbove(h, leq, j) && j < |h|
    requires forall p :: Edge(p, j) ==> leq(h[p], h[j])
    ensures Heap(h, leq)
  {
  }

  /** From `lo` on, only the edges below `j` may be out of order, and the children of `j`
      already respect its parent. */
  ghost predicate HeapBelow<K(!new)>(h: seq<K>, leq: (K, K) -> bool, lo: int, j: nat) {
    && (forall p, c :: Edge(p, c) && lo <= p && c < |h| && p != j ==> leq(h[p], h[c]))
    && (forall p, c :: Edge(p, j) && Edge(j, c) && lo <= p && c < |h| ==> leq(h[p], h[c]))
  }

  lemma SinkStep<K(!new)>(h: seq<K>, leq: (K, K) -> bool, lo: int, i: nat, child: nat)
    requires TotalOrder(leq)
    requires Edge(i, child) && child < |h| && !leq(h[i], h[child]) && HeapBelow(h, leq, lo, i)
    requires forall c :: Edge(i, c) && c < |h| ==> leq(h[child], h[c])
    ensures HeapBelow(Swapped(h, i, child), leq, lo, child)
  {
    var after := Swapped(h, i, child);
    assert leq(h[child], h[i]);
    forall p, c | Edge(p, c) && lo <= p && c < |h| && p != child
      ensures leq(after[p], after[c])
    {
      if c == i {
        assert Edge(p, i) && leq(h[p], h[child]);
      }
    }
    forall p, c | Edge(p, child) && Edge(child, c) && lo <= p && c < |h|
      ensures leq(after[p], after[c])
    {
      assert p == i && leq(h[child], h[c]);
    }
  }

  lemma SunkIsHeap<K(!new)>(h: seq<K>, leq: (K, K) -> bool, lo: int, j: nat)
    requires HeapBelow(h, leq, lo, j)
    requires forall c :: Edge(j, c) && c < |h| ==> leq(h[j], h[c])
    ensures HeapFrom(h, leq, lo)
  {
  }

  /** The smaller child of a position with children. */
  method SmallerChild<K(!new)>(h: seq<K>, leq: (K, K) -> bool, i: nat) returns (child: nat)
    requires TotalOrder(leq) && 2 * i + 1 < |h|
    ensures Edge(i, child) && child < |h|
    ensures forall c :: Edge(i, c) && c < |h| ==> leq(h[child], h[c])
  {
    child := 2 * i + 1;
    if child + 1 < |h| && !leq(h[child], h[child + 1]) {
      child := child + 1;
    }
  }

  method SiftUp<K(!new)>(keys: seq<K>, leq: (K, K) -> bool, start: nat) returns (h: seq<K>)
    requires TotalOrder(leq) && start < |keys| && HeapAbove(keys, leq, start)
    ensures Heap(h, leq) && multiset(h) == multiset(keys) && |h| == |keys|
  {
    hide TotalOrder, HeapAbove;
    h := keys;
    var j := start;
    while j > 0
      invariant 0 <= j < |h| == |keys|
      invariant multiset(h) == multiset(keys)
      invariant HeapAbove(h, leq, j)
    {
      var parent := (j - 1) / 2;
      assert Edge(parent, j);
      if leq(h[parent], h[j]) {
        break;
      }
      SwapKeepsElements(h, parent, j);
      RiseStep(h, leq, parent, j);
      h := Swapped(h, parent, j);
      j := parent;
    }
    assert forall p :: Edge(p, j) ==> p == (j - 1) / 2;
    RisenIsHeap(h, leq, j);
  }

  method SiftDown<K(!new)>(keys: seq<K>, leq: (K, K) -> bool, start: nat) returns (h: seq<K>)
    requires TotalOrder(leq) && start < |keys| && HeapBelow(keys, leq, 0, start)
    ensures Heap(h, leq) && multiset(h) == multiset(keys) && |h| == |keys|
  {
    hide TotalOrder, HeapBelow;
    h := keys;
    var i := start;
    while 2 * i + 1 < |h|
      invariant 0 <= i < |h| == |keys|
      invariant multiset(h) == multiset(keys)
      invariant HeapBelow(h, leq, 0, i)
      decreases |h| - i
    {
      var child := SmallerChild(h, leq, i);
      if leq(h[i], h[child]) {
        Bounded(h, leq, i, child);
        break;
      }
      SwapKeepsElements(h, i, child);
      SinkStep(h, leq, 0, i, child);
      h := Swapped(h, i, child);
      i := child;
    }
    SunkIsHeap(h, leq, 0, i);
  }

  lemma Bounded<K(!new)>(h: seq<K>, leq: (K, K) -> bool, i: nat, child: nat)
    requires TotalOrder(leq) && i < |h| && child < |h| && leq(h[i], h[child])
    requires forall c :: Edge(i, c) && c < |h| ==> leq(h[child], h[c])
    ensures forall c :: Edge(i, c) && c < |h| ==> leq(h[i], h[c])
  {
  }

  method Push<K(!new)>(keys: seq<K>, leq: (K, K) -> bool, key: K) returns (h: seq<K>)
    requires TotalOrder(leq) && Heap(keys, leq)
    ensures Heap(h, leq) && multiset(h) == multiset(keys) + multiset{key} && |h| == |keys| + 1
  {
    PushStep(keys, leq, key);
    h := SiftUp(keys + [key], leq, |keys|);
  }

  lemma PushStep<K(!new)>(keys: seq<K>, leq: (K, K) -> bool, key: K)
    requires Heap(keys, leq)
    ensures HeapAbove(keys + [key], leq, |keys|)
  {
  }

  /** Removes the least key. */
  method Pop<K(!new)>(keys: seq<K>, leq: (K, K) -> bool) returns (h: seq<K>)
    requires TotalOrder(leq) && Heap(keys, leq) && keys != []
    ensures Heap(h, leq) && multiset(keys) == multiset(h) + multiset{keys[0]} && |h| == |keys| - 1
  {
    var last := |keys| - 1;
    PopStep(keys, leq);
    h := Swapped(keys, 0, last)[..last];
    if last > 0 {
      h := SiftDown(h, leq, 0);
    }
  }

  lemma PopStep<K(!new)>(keys: seq<K>, leq: (K, K) -> bool)
    requires Heap(keys, leq) && keys != []
    ensures var last := |keys| - 1;
            var rest := Swapped(keys, 0, last)[..last];
            && multiset(keys) == multiset(rest) + multiset{keys[0]}
            && (last > 0 ==> HeapBelow(rest, leq, 0, 0))
            && (last == 0 ==> Heap(rest, leq))
  {
    var last := |keys| - 1;
    var swapped := Swapped(keys, 0, last);
    SwapKeepsElements(keys, 0, last);
    assert swapped == swapped[..last] + [keys[0]];
  }
}

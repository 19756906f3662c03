/** The binary-heap priority queue of packages/collection/src/index.ts. Lower priorities leave first, ties are
    broken by the comparator. */
module PriorityQueue {
  import opened Common

  datatype Entry<+T> = Entry(item: T, priority: int)

  type Comparator<!T> = (T, T) -> int

  /** What the heap needs of a comparator: opposite signs both ways round, and transitivity. Distinct items may
      compare as equal. */
  ghost predicate TotalPreorder<T(!new)>(cmp: Comparator<T>) {
    && (forall a, b :: cmp(a, b) <= 0 <==> cmp(b, a) >= 0)
    && (forall a, b, c :: cmp(a, b) <= 0 && cmp(b, c) <= 0 ==> cmp(a, c) <= 0)
  }

  /** a may leave before b: by priority, then by comparator. */
  predicate Le<T>(cmp: Comparator<T>, a: Entry<T>, b: Entry<T>) {
    a.priority < b.priority || (a.priority == b.priority && cmp(a.item, b.item) <= 0)
  }

  function Compare<T>(cmp: Comparator<T>, a: Entry<T>, b: Entry<T>): (d: int)
    ensures d <= 0 <==> Le(cmp, a, b)
  {
    var d := a.priority - b.priority;
    if d != 0 then d else cmp(a.item, b.item)
  }

  // ---------------------------------------------------------------- heap order

  function Parent(i: nat): nat
    requires i > 0
  {
    (i - 1) / 2
  }

  ghost predicate InOrder<T>(cmp: Comparator<T>, h: seq<Entry<T>>, i: nat)
    requires i < |h|
  {
    i > 0 ==> Le(cmp, h[Parent(i)], h[i])
  }

  ghost predicate IsHeap<T>(cmp: Comparator<T>, h: seq<Entry<T>>) {
    forall i: nat :: i < |h| ==> InOrder(cmp, h, i)
  }

  /** The entry at the root is no greater than any other. */
  lemma {:induction false} RootIsLeast<T(!new)>(cmp: Comparator<T>, h: seq<Entry<T>>, i: nat)
    requires TotalPreorder(cmp) && IsHeap(cmp, h) && i < |h|
    ensures Le(cmp, h[0], h[i])
  {
    if i == 0 {
    } else {
      assert InOrder(cmp, h, i);
      RootIsLeast(cmp, h, Parent(i));
    }
  }

  /** A heap but for the entry at k, which may be less than its parent. */
  ghost predicate HeapAbove<T>(cmp: Comparator<T>, h: seq<Entry<T>>, k: nat) {
    && (forall i: nat :: i < |h| && i != k ==> InOrder(cmp, h, i))
    && (forall i: nat :: 0 < i < |h| && Parent(i) == k && k > 0 ==> Le(cmp, h[Parent(k)], h[i]))
  }

  /** A heap but for the entry at k, which may be greater than its children. */
  ghost predicate HeapBelow<T>(cmp: Comparator<T>, h: seq<Entry<T>>, k: nat) {
    && (forall i: nat :: 0 < i < |h| && Parent(i) != k ==> InOrder(cmp, h, i))
    && (forall i: nat :: 0 < i < |h| && Parent(i) == k && 0 < k < |h| ==> Le(cmp, h[Parent(k)], h[i]))
  }

  function Swap<T>(h: seq<Entry<T>>, i: nat, j: nat): (r: seq<Entry<T>>)
    requires i < |h| && j < |h|
    ensures |r| == |h| && r[i] == h[j] && r[j] == h[i]
    ensures forall k :: 0 <= k < |h| && k != i && k != j ==> r[k] == h[k]
    ensures multiset(r) == multiset(h)
  {
    h[i := h[j]][j := h[i]]
  }

  lemma SwapUp<T(!new)>(cmp: Comparator<T>, h: seq<Entry<T>>, k: nat)
    requires TotalPreorder(cmp) && 0 < k < |h| && HeapAbove(cmp, h, k) && !Le(cmp, h[Parent(k)], h[k])
    ensures HeapAbove(cmp, Swap(h, Parent(k), k), Parent(k))
  {
    var p, r := Parent(k), Swap(h, Parent(k), k);
    if p > 0 {
      assert InOrder(cmp, h, p);
    }
    forall i: nat | i < |h| && i != p ensures InOrder(cmp, r, i) {
      if i > 0 && i != k {
        assert InOrder(cmp, h, i);
      }
    }
    forall i: nat | 0 < i < |h| && Parent(i) == p && p > 0 ensures Le(cmp, r[Parent(p)], r[i]) {
      if i != k {
        assert InOrder(cmp, h, i);
      }
    }
  }

  lemma SwapDown<T(!new)>(cmp: Comparator<T>, h: seq<Entry<T>>, k: nat, c: nat)
    requires TotalPreorder(cmp) && k < |h| && 0 < c < |h| && Parent(c) == k && HeapBelow(cmp, h, k)
    requires Le(cmp, h[c], h[k])
    requires forall i: nat :: 0 < i < |h| && Parent(i) == k ==> Le(cmp, h[c], h[i])
    ensures HeapBelow(cmp, Swap(h, c, k), c)
  {
    var r := Swap(h, c, k);
    forall i: nat | 0 < i < |h| && Parent(i) != c ensures InOrder(cmp, r, i) {
      if i == k {
        assert Le(cmp, h[Parent(k)], h[c]);
      } else if Parent(i) != k {
        assert InOrder(cmp, h, i);
      }
    }
    forall i: nat | 0 < i < |h| && Parent(i) == c ensures Le(cmp, r[Parent(c)], r[i]) {
      assert InOrder(cmp, h, i);
    }
  }

  // ---------------------------------------------------------------- any comparator

  /** What the queue keeps, whatever the comparator: it is a heap if the comparator is a total preorder. */
  ghost predicate Ordered<T(!new)>(cmp: Comparator<T>, h: seq<Entry<T>>) {
    TotalPreorder(cmp) ==> IsHeap(cmp, h)
  }

  ghost predicate Above<T(!new)>(cmp: Comparator<T>, h: seq<Entry<T>>, k: nat) {
    TotalPreorder(cmp) ==> HeapAbove(cmp, h, k)
  }

  ghost predicate Below<T(!new)>(cmp: Comparator<T>, h: seq<Entry<T>>, k: nat) {
    TotalPreorder(cmp) ==> HeapBelow(cmp, h, k)
  }

  lemma Appended<T(!new)>(cmp: Comparator<T>, h: seq<Entry<T>>, e: Entry<T>)
    requires Ordered(cmp, h)
    ensures Above(cmp, h + [e], |h|)
  {
    if TotalPreorder(cmp) {
      forall i: nat | i < |h| ensures InOrder(cmp, h + [e], i) {
        assert InOrder(cmp, h, i);
      }
    }
  }

  lemma FirstIsLeast<T(!new)>(cmp: Comparator<T>, h: seq<Entry<T>>)
    requires Ordered(cmp, h) && h != []
    ensures TotalPreorder(cmp) ==> forall e :: e in h ==> Le(cmp, h[0], e)
  {
    forall e | e in h && TotalPreorder(cmp) ensures Le(cmp, h[0], e) {
      var i :| 0 <= i < |h| && h[i] == e;
      RootIsLeast(cmp, h, i);
    }
  }

  /** The last entry in the place of the first. */
  lemma RootReplaced<T(!new)>(cmp: Comparator<T>, h: seq<Entry<T>>, r: seq<Entry<T>>)
    requires Ordered(cmp, h) && |r| == |h| - 1 > 0 && r[1..] == h[1..|h| - 1]
    ensures Below(cmp, r, 0)
  {
    if TotalPreorder(cmp) {
      forall i: nat | 0 < i < |r| && Parent(i) != 0 ensures InOrder(cmp, r, i) {
        assert InOrder(cmp, h, i);
        assert r[i] == r[1..][i - 1] && r[Parent(i)] == r[1..][Parent(i) - 1];
      }
    }
  }

  lemma StepUp<T(!new)>(cmp: Comparator<T>, h: seq<Entry<T>>, k: nat)
    requires 0 < k < |h| && Above(cmp, h, k) && !Le(cmp, h[Parent(k)], h[k])
    ensures Above(cmp, Swap(h, Parent(k), k), Parent(k))
  {
    if TotalPreorder(cmp) {
      SwapUp(cmp, h, k);
    }
  }

  lemma StepDown<T(!new)>(cmp: Comparator<T>, h: seq<Entry<T>>, k: nat, smallest: nat)
    requires k < |h| && Below(cmp, h, k) && smallest == Smallest(cmp, h, k)
    ensures if smallest == k then Ordered(cmp, h) else Below(cmp, Swap(h, smallest, k), smallest)
  {
    if TotalPreorder(cmp) {
      LeastOfThree(cmp, h, k, smallest);
      if smallest != k {
        SwapDown(cmp, h, k, smallest);
      }
    }
  }

  /** The choice made by sinkDown among the entry at k and its children. */
  function Smallest<T>(cmp: Comparator<T>, h: seq<Entry<T>>, k: nat): (i: nat)
    requires k < |h|
    ensures i < |h|
  {
    var left, right := 2 * k + 1, 2 * k + 2;
    var first := if left < |h| && Compare(cmp, h[left], h[k]) < 0 then left else k;
    if right < |h| && Compare(cmp, h[right], h[first]) < 0 then right else first
  }

  class PriorityQueue<T(!new)> {
    var heap: seq<Entry<T>>
    const comparator: Comparator<T>

    /** For a comparator that orders nothing, the heap is a bag of entries. */
    ghost predicate Valid()
      reads this
    {
      Ordered(comparator, heap)
    }

    constructor (comparator: Comparator<T>)
      ensures Valid() && heap == [] && this.comparator == comparator
    {
      this.comparator := comparator;
      heap := [];
    }

    method Enqueue(item: T, priority: int)
      requires Valid()
      modifies this
      ensures Valid() && multiset(heap) == multiset(old(heap)) + multiset{Entry(item, priority)}
    {
      heap := heap + [Entry(item, priority)];
      Appended(comparator, old(heap), Entry(item, priority));
      BubbleUp(|heap| - 1);
    }

    /** Removes one entry and returns its item. If the comparator is a total preorder, the entry is least by priority,
        then by comparator. */
    method Dequeue() returns (r: Option<T>, ghost top: Option<Entry<T>>)
      requires Valid()
      modifies this
      ensures Valid()
      ensures old(heap) == [] ==> r == None && top == None && heap == []
      ensures old(heap) != [] ==>
        && top.Some? && r == Some(top.value.item) && top.value in old(heap)
        && multiset(old(heap)) == multiset(heap) + multiset{top.value}
        && (TotalPreorder(comparator) ==>
              forall e :: e in old(heap) ==>
                top.value.priority < e.priority ||
                (top.value.priority == e.priority && comparator(top.value.item, e.item) <= 0))
    {
      if |heap| == 0 {
        return None, None;
      }
      var first := heap[0];
      var last := heap[|heap| - 1];
      ghost var h0 := heap;
      assert h0 == h0[..|h0| - 1] + [last];
      FirstIsLeast(comparator, h0);
      heap := heap[..|heap| - 1];
      if |heap| > 0 {
        assert h0 == [first] + heap[1..] + [last];
        heap := heap[0 := last];
        assert heap == [last] + h0[1..|h0| - 1];
        RootReplaced(comparator, h0, heap);
        SinkDown(0);
      }
      return Some(first.item), Some(first);
    }

    method BubbleUp(start: nat)
      requires start < |heap| && Above(comparator, heap, start)
      modifies this`heap
      ensures Valid() && multiset(heap) == multiset(old(heap))
    {
      var index := start;
      while index > 0
        invariant 0 <= index < |heap| && Above(comparator, heap, index)
        invariant multiset(heap) == multiset(old(heap))
        decreases index
      {
        var parent := (index - 1) / 2;
        if Compare(comparator, heap[parent], heap[index]) <= 0 {
          break;
        }
        StepUp(comparator, heap, index);
        heap := Swap(heap, parent, index);
        index := parent;
      }
    }

    method SinkDown(start: nat)
      requires start < |heap| && Below(comparator, heap, start)
      requires start == 0
      modifies this`heap
      ensures Valid() && multiset(heap) == multiset(old(heap))
    {
      var index := start;
      var length := |heap|;
      while true
        invariant index < |heap| == length && Below(comparator, heap, index)
        invariant multiset(heap) == multiset(old(heap))
        decreases length - index
      {
        var smallest := index;
        var left := 2 * index + 1;
        var right := 2 * index + 2;
        if left < length && Compare(comparator, heap[left], heap[smallest]) < 0 {
          smallest := left;
        }
        if right < length && Compare(comparator, heap[right], heap[smallest]) < 0 {
          smallest := right;
        }
        assert smallest == Smallest(comparator, heap, index);
        StepDown(comparator, heap, index, smallest);
        if smallest == index {
          break;
        }
        heap := Swap(heap, smallest, index);
        index := smallest;
      }
    }
  }

  /** That choice is no greater than the entry at k and both its children. */
  lemma LeastOfThree<T(!new)>(cmp: Comparator<T>, h: seq<Entry<T>>, k: nat, smallest: nat)
    requires TotalPreorder(cmp) && k < |h| && smallest == Smallest(cmp, h, k)
    ensures smallest < |h| && (smallest == k || Parent(smallest) == k)
    ensures Le(cmp, h[smallest], h[k])
    ensures forall i: nat :: 0 < i < |h| && Parent(i) == k ==> Le(cmp, h[smallest], h[i])
  {
    var left, right := 2 * k + 1, 2 * k + 2;
    assert forall i: nat :: 0 < i && Parent(i) == k ==> i == left || i == right;
  }

  ghost predicate Sorted<T>(cmp: Comparator<T>, s: seq<Entry<T>>) {
    forall i, j :: 0 <= i < j < |s| ==> Le(cmp, s[i], s[j])
  }

  /** Dequeuing until the queue is empty returns every entry once, in ascending order if the comparator is a total
      preorder. */
  method Drain<T(!new)>(q: PriorityQueue<T>) returns (items: seq<T>, ghost entries: seq<Entry<T>>)
    requires q.Valid()
    modifies q
    ensures q.heap == [] && q.Valid()
    ensures multiset(entries) == multiset(old(q.heap))
    ensures TotalPreorder(q.comparator) ==>
              forall i, j :: 0 <= i < j < |entries| ==>
                entries[i].priority < entries[j].priority ||
                (entries[i].priority == entries[j].priority && q.comparator(entries[i].item, entries[j].item) <= 0)
    ensures |items| == |entries| && forall i :: 0 <= i < |items| ==> items[i] == entries[i].item
  {
    items, entries := [], [];
    while |q.heap| > 0
      invariant q.Valid() && multiset(entries) + multiset(q.heap) == multiset(old(q.heap))
      invariant TotalPreorder(q.comparator) ==> Sorted(q.comparator, entries)
      invariant TotalPreorder(q.comparator) ==> forall e, f :: e in entries && f in q.heap ==> Le(q.comparator, e, f)
      invariant |items| == |entries| && forall i :: 0 <= i < |items| ==> items[i] == entries[i].item
      decreases |q.heap|
    {
      ghost var before := q.heap;
      var r, top := q.Dequeue();
      assert TotalPreorder(q.comparator) ==> forall f :: f in before ==> Le(q.comparator, top.value, f);
      assert forall f :: f in q.heap ==> f in before by {
        forall f | f in q.heap ensures f in before {
          assert f in multiset(q.heap);
          assert f in multiset(before);
        }
      }
      assert |multiset(before)| == |multiset(q.heap)| + 1;
      items := items + [r.value];
      entries := entries + [top.value];
    }
  }
}

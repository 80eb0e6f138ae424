/** Model of `usu::priority_queue`: a binary max-heap of (value, priority)
    entries held in a growable vector, of which only the prefix [0, size) is
    live. Parent of slot i is (i - 1) / 2, its children are 2i + 1 and 2i + 2.
 */
module DynamicPriorityQueue {

  /** The one failure of the queue: `dequeue` on an empty queue (the source throws). */
  datatype Error = EmptyQueue

  datatype Result<T> = Success(value: T) | Failure(error: Error)

  /** A (value, priority) pair; entries are compared by priority alone. */
  datatype Entry<V> = Entry(value: V, priority: nat)

  /** `static_cast<size_type>(-1)`: the helpers' answer for "no such position". */
  const NoPos: nat := 0xFFFF_FFFF_FFFF_FFFF

  /** Left child of `pos`, or NoPos when `pos` has no children in a heap of `n` entries. */
  function LeftChildPos(pos: nat, n: nat): (r: nat)
    ensures pos >= n / 2 ==> r == NoPos
    ensures pos < n / 2 ==> r == 2 * pos + 1 && r < n
  {
    if pos >= n / 2 then NoPos else 2 * pos + 1
  }

  /** Right child of `pos`, or NoPos when `pos` has no children. The right child
      may lie at `n` itself: callers test it against the size first. */
  function RightChildPos(pos: nat, n: nat): (r: nat)
    ensures pos >= n / 2 ==> r == NoPos
    ensures pos < n / 2 ==> r == 2 * pos + 2 && r <= n
  {
    if pos >= n / 2 then NoPos else 2 * pos + 2
  }

  /** Parent of `pos`, or NoPos for the root and for positions beyond `n`. */
  function ParentPos(pos: nat, n: nat): (r: nat)
    ensures 0 < pos <= n ==> r == Parent(pos)
    ensures pos == 0 || pos > n ==> r == NoPos
  {
    if pos <= 0 || pos > n then NoPos else (pos - 1) / 2
  }

  /** `isLeaf`: a live position in the upper half of the live prefix. Those are
      exactly the live positions whose left child falls outside the prefix. */
  predicate IsLeaf(pos: nat, n: nat): (b: bool)
    ensures b <==> pos < n && 2 * pos + 1 >= n
  {
    pos >= n / 2 && pos < n
  }

  /** Every child position names its parent back. */
  lemma ChildParent(pos: nat, n: nat)
    ensures ParentPos(2 * pos + 1, 2 * pos + 1) == pos && ParentPos(2 * pos + 2, 2 * pos + 2) == pos
    ensures pos < n / 2 ==> ParentPos(LeftChildPos(pos, n), n) == pos && ParentPos(RightChildPos(pos, n), n + 1) == pos
  {
  }

  /** The sequence with the entries at `a` and `b` exchanged. */
  function Swapped<V>(h: seq<Entry<V>>, a: nat, b: nat): (r: seq<Entry<V>>)
    requires a < |h| && b < |h|
    ensures |r| == |h| && r[a] == h[b] && r[b] == h[a]
  {
    h[a := h[b]][b := h[a]]
  }

  // ---------------------------------------------------------------------------
  // Heap order and its partial forms, used while an entry is being sifted.

  /** The heap parent of a non-root slot. Quantifiers over slots hang on this term. */
  function Parent(c: nat): (p: nat)
    requires 0 < c
    ensures p < c && (c == 2 * p + 1 || c == 2 * p + 2)
  {
    (c - 1) / 2
  }

  /** Every live edge whose parent lies at or after `lo` is ordered. */
  ghost predicate HeapFrom<V>(h: seq<Entry<V>>, n: nat, lo: nat)
  {
    n <= |h| &&
    forall c: nat {:trigger Parent(c)} :: 0 < c < n && Parent(c) >= lo ==> h[Parent(c)].priority >= h[c].priority
  }

  /** The max-heap property over the live prefix [0, n): no child outranks its parent. */
  ghost predicate HeapOrdered<V>(h: seq<Entry<V>>, n: nat)
  {
    HeapFrom(h, n, 0)
  }

  /** The children of `k` hold no higher priority than `k`. */
  ghost predicate ChildrenOk<V>(h: seq<Entry<V>>, n: nat, k: nat)
    requires k < n <= |h|
  {
    forall c: nat {:trigger Parent(c)} :: 0 < c < n && Parent(c) == k ==> h[k].priority >= h[c].priority
  }

  /** Heap order holds except on the edges touching `k`, and the parent of `k`
      dominates the children of `k`: the state after one entry's priority changed. */
  ghost predicate HeapExcept<V>(h: seq<Entry<V>>, n: nat, k: nat)
  {
    k < n <= |h| &&
    (forall c: nat {:trigger Parent(c)} :: 0 < c < n && c != k && Parent(c) != k ==> h[Parent(c)].priority >= h[c].priority) &&
    (0 < k ==> forall c: nat {:trigger Parent(c)} :: 0 < c < n && Parent(c) == k ==> h[Parent(k)].priority >= h[c].priority)
  }

  /** Sift-down state: edges from parents at or after `lo` are ordered except those
      leaving `k`, and the parent of `k` (when in range) dominates the children of `k`. */
  ghost predicate DownInv<V>(h: seq<Entry<V>>, n: nat, lo: nat, k: nat)
  {
    lo <= k < n <= |h| &&
    (forall c: nat {:trigger Parent(c)} :: 0 < c < n && Parent(c) >= lo && Parent(c) != k ==> h[Parent(c)].priority >= h[c].priority) &&
    (0 < k && Parent(k) >= lo ==> forall c: nat {:trigger Parent(c)} :: 0 < c < n && Parent(c) == k ==> h[Parent(k)].priority >= h[c].priority)
  }

  /** In a heap, the root has a priority at least that of every live entry. */
  lemma {:induction false} RootIsMax<V>(h: seq<Entry<V>>, n: nat, i: nat)
    requires HeapOrdered(h, n) && i < n
    ensures h[0].priority >= h[i].priority
    decreases i
  {
    if i > 0 {
      RootIsMax(h, n, Parent(i));
    }
  }

  /** The root of a non-empty heap dominates every live entry. */
  lemma HeapRootIsMax<V>(h: seq<Entry<V>>, n: nat)
    requires HeapOrdered(h, n) && 0 < n
    ensures forall i :: 0 <= i < n ==> h[0].priority >= h[i].priority
  {
    forall i | 0 <= i < n
      ensures h[0].priority >= h[i].priority
    {
      RootIsMax(h, n, i);
    }
  }

  /** When one live entry outranks every other, a heap has it at the root. */
  lemma RootIsUniqueMax<V>(h: seq<Entry<V>>, n: nat, e: Entry<V>)
    requires HeapOrdered(h, n) && e in multiset(h[..n])
    requires forall x :: x in multiset(h[..n]) && x != e ==> x.priority < e.priority
    ensures 0 < n && h[0] == e
  {
    var i :| 0 <= i < n && h[..n][i] == e;
    RootIsMax(h, n, i);
    assert h[..n][0] == h[0];
  }

  /** Moving the last live entry to the root of a heap and shrinking the live prefix
      by one gives a state sift-down can finish from the root; the old root now sits
      just past the live prefix. */
  lemma DequeueStart<V>(h: seq<Entry<V>>, n: nat)
    requires HeapOrdered(h, n) && 0 < n
    ensures 0 < n - 1 ==> DownInv(Swapped(h, 0, n - 1), n - 1, 0, 0)
    ensures Swapped(h, 0, n - 1)[n - 1] == h[0]
    ensures multiset(Swapped(h, 0, n - 1)[..n - 1]) + multiset{h[0]} == multiset(h[..n])
  {
    var h' := Swapped(h, 0, n - 1);
    SwapKeepsItems(h, n, 0, n - 1);
    assert h'[..n] == h'[..n - 1] + [h[0]];
  }

  /** Dropping the last storage slot beyond the live prefix keeps the live prefix. */
  lemma DropLastSlot<V>(h: seq<Entry<V>>, n: nat)
    requires n < |h|
    ensures h[..|h| - 1][..n] == h[..n]
    ensures HeapOrdered(h, n) ==> HeapOrdered(h[..|h| - 1], n)
  {
  }

  /** Nothing is required of the edges of a heap whose parents lie beyond the middle. */
  lemma UpperHalfIsHeap<V>(h: seq<Entry<V>>, n: nat)
    requires n <= |h|
    ensures HeapFrom(h, n, n / 2)
  {
  }

  /** Replacing one live entry of a heap leaves the defects on the edges touching it. */
  lemma ChangeKeepsExcept<V>(h: seq<Entry<V>>, n: nat, k: nat, e: Entry<V>)
    requires HeapOrdered(h, n) && k < n
    ensures HeapExcept(h[k := e], n, k)
  {
    if 0 < k {
      forall c: nat | 0 < c < n && Parent(c) == k
        ensures h[Parent(k)].priority >= h[c].priority
      {
        assert h[k].priority >= h[c].priority;
      }
    }
  }

  /** One sift-up step: swapping a too-large entry with its parent moves the defect up
      one level and leaves the entry's new children ordered. */
  lemma UpStep<V>(h: seq<Entry<V>>, n: nat, k: nat)
    requires HeapExcept(h, n, k) && 0 < k
    requires h[k].priority > h[Parent(k)].priority
    ensures HeapExcept(Swapped(h, k, Parent(k)), n, Parent(k))
    ensures ChildrenOk(Swapped(h, k, Parent(k)), n, Parent(k))
  {
    var p := Parent(k);
    var h' := Swapped(h, k, p);
    forall c: nat | 0 < c < n && c != p && Parent(c) != p
      ensures h'[Parent(c)].priority >= h'[c].priority
    {
      if Parent(c) == k {
        assert h[p].priority >= h[c].priority;
      }
    }
    forall c: nat | 0 < c < n && Parent(c) == p
      ensures h'[p].priority >= h'[c].priority
    {
    }
    if 0 < p {
      forall c: nat | 0 < c < n && Parent(c) == p
        ensures h'[Parent(p)].priority >= h'[c].priority
      {
        assert h[Parent(p)].priority >= h[p].priority;
      }
    }
  }

  /** When sift-up stops, the state is one that sift-down can finish from `pos`. */
  lemma UpDone<V>(h: seq<Entry<V>>, n: nat, pos: nat, k: nat)
    requires HeapExcept(h, n, k) && (k != pos ==> ChildrenOk(h, n, k)) && pos < n
    requires k == 0 || h[k].priority <= h[Parent(k)].priority
    ensures DownInv(h, n, 0, pos)
  {
    if k != pos {
      assert HeapOrdered(h, n);
      if 0 < pos {
        forall c: nat | 0 < c < n && Parent(c) == pos
          ensures h[Parent(pos)].priority >= h[c].priority
        {
          assert h[pos].priority >= h[c].priority;
        }
      }
    }
  }

  /** One sift-down step: swapping with the larger child moves the defect down. */
  lemma DownStep<V>(h: seq<Entry<V>>, n: nat, lo: nat, k: nat, j: nat)
    requires DownInv(h, n, lo, k)
    requires 0 < j < n && Parent(j) == k
    requires forall c: nat {:trigger Parent(c)} :: 0 < c < n && Parent(c) == k ==> h[j].priority >= h[c].priority
    requires h[k].priority < h[j].priority
    ensures DownInv(Swapped(h, k, j), n, lo, j)
  {
    var h' := Swapped(h, k, j);
    forall c: nat | 0 < c < n && Parent(c) >= lo && Parent(c) != j
      ensures h'[Parent(c)].priority >= h'[c].priority
    {
      if c == k {
        assert h[Parent(k)].priority >= h[j].priority;
      }
    }
    forall c: nat | 0 < c < n && Parent(c) == j
      ensures h'[k].priority >= h'[c].priority
    {
    }
  }

  /** When sift-down stops, the region from `lo` is heap-ordered. */
  lemma DownDone<V>(h: seq<Entry<V>>, n: nat, lo: nat, k: nat)
    requires DownInv(h, n, lo, k) && ChildrenOk(h, n, k)
    ensures HeapFrom(h, n, lo)
  {
  }

  /** The child sift-down picks (the right one only when strictly larger) is the
      largest child. */
  lemma LargerChild<V>(h: seq<Entry<V>>, n: nat, k: nat, j: nat)
    requires n <= |h| && 2 * k + 1 < n
    requires (j == 2 * k + 1 && !(j < n - 1 && h[j].priority < h[j + 1].priority)) ||
             (j == 2 * k + 2 && j < n && h[j - 1].priority < h[j].priority)
    ensures 0 < j < n && Parent(j) == k
    ensures forall c: nat {:trigger Parent(c)} :: 0 < c < n && Parent(c) == k ==> h[j].priority >= h[c].priority
  {
  }

  /** A leaf has no children, so sift-down ending there leaves the region ordered. */
  lemma LeafDone<V>(h: seq<Entry<V>>, n: nat, lo: nat, k: nat)
    requires DownInv(h, n, lo, k) && IsLeaf(k, n)
    ensures HeapFrom(h, n, lo)
  {
  }

  /** Exchanging two live entries leaves the live multiset and the dead tail alone. */
  lemma SwapKeepsItems<V>(h: seq<Entry<V>>, n: nat, a: nat, b: nat)
    requires a < n && b < n && n <= |h|
    ensures multiset(Swapped(h, a, b)[..n]) == multiset(h[..n])
    ensures Swapped(h, a, b)[n..] == h[n..]
  {
    var s := h[..n];
    assert Swapped(h, a, b)[..n] == s[a := s[b]][b := s[a]];
  }

  /** New backing length when the vector is full: floor(1.25 * length + 1). */
  function Grown(length: nat): (r: nat)
    ensures r > length
  {
    length * 5 / 4 + 1
  }

  /** A position handle into a queue's storage; `data` is null for a
      default-constructed iterator. */
  datatype Iterator<V(==,0)> = Iterator(pos: nat, data: PriorityQueue?<V>)

  /** `operator==`: same storage and same position, which makes it the identity of
      the handle; `operator!=` is its negation. */
  predicate Equal<V(==,0)>(a: Iterator<V>, b: Iterator<V>): (r: bool)
    ensures r <==> a == b
  {
    a.data == b.data && a.pos == b.pos
  }

  /** `operator++`: the next position in the same storage. */
  function Next<V(==,0)>(it: Iterator<V>): (r: Iterator<V>)
    ensures r.data == it.data && r.pos == it.pos + 1
  {
    it.(pos := it.pos + 1)
  }

  /** `k` applications of `operator++`. */
  function Advance<V(==,0)>(it: Iterator<V>, k: nat): Iterator<V>
    decreases k
  {
    if k == 0 then it else Advance(Next(it), k - 1)
  }

  /** `operator-`: the distance between two positions (size_t wrap-around left out).
      From a handle to a later one in the same storage it is the number of increments
      that lead there. */
  function Distance<V(==,0)>(a: Iterator<V>, b: Iterator<V>): (d: int)
    ensures a.data == b.data && b.pos <= a.pos ==> d >= 0 && Advance(b, d) == a
  {
    if a.pos < b.pos then a.pos - b.pos
    else
      AdvancePos(b, a.pos - b.pos);
      a.pos - b.pos
  }

  /** `k` increments move the handle `k` positions and keep its storage. */
  lemma {:induction false} AdvancePos<V(0)>(it: Iterator<V>, k: nat)
    ensures Advance(it, k).data == it.data && Advance(it, k).pos == it.pos + k
    decreases k
  {
    if k > 0 {
      AdvancePos(Next(it), k - 1);
    }
  }

  /** The distance back from a handle advanced `k` times is `k`. */
  lemma AdvanceDistance<V(0)>(it: Iterator<V>, k: nat)
    ensures Distance(Advance(it, k), it) == k
  {
    AdvancePos(it, k);
  }

  class PriorityQueue<V(==,0)> {
    var size: nat
    var heap: seq<Entry<V>>

    /** The object invariant: the live prefix fits the storage and is a max-heap. */
    ghost predicate Valid()
      reads this
    {
      size <= |heap| && HeapOrdered(heap, size)
    }

    /** An empty queue with empty storage. */
    constructor ()
      ensures Valid() && size == 0 && heap == []
    {
      size := 0;
      heap := [];
    }

    /** A queue built from a list: the entries are stored in the given order and then
        heapified bottom-up. */
    constructor FromEntries(inputs: seq<Entry<V>>)
      ensures Valid() && size == |inputs| && |heap| == |inputs|
      ensures multiset(heap) == multiset(inputs)
    {
      size := |inputs|;
      heap := inputs;
      new;
      BuildHeap();
      assert heap[..size] == heap;
      assert inputs[..|inputs|] == inputs;
    }

    function Begin(): (it: Iterator<V>)
      ensures it.data == this && it.pos == 0
    {
      Iterator(0, this)
    }

    function End(): (it: Iterator<V>)
      reads this
      ensures it.data == this && it.pos == size
    {
      Iterator(size, this)
    }

    /** `empty()`: no live entries, which is when `begin() == end()`. */
    predicate Empty(): (r: bool)
      reads this
      ensures r <==> Equal(Begin(), End())
    {
      size == 0
    }

    /** `begin()` reaches `end()` after exactly `size` increments. */
    lemma BeginEnd(k: nat)
      ensures Advance(Begin(), k) == End() <==> k == size
    {
      AdvancePos(Begin(), k);
    }

    /** Dereferences a live handle. */
    function Get(it: Iterator<V>): (e: Entry<V>)
      reads this
      requires it.data == this && it.pos < size <= |heap|
      ensures e in heap[..size]
    {
      heap[it.pos]
    }

    /** Exchanges two storage slots; a no-op when they coincide. */
    method Swap(first: nat, second: nat)
      requires first < |heap| && second < |heap|
      modifies this`heap
      ensures heap == Swapped(old(heap), first, second)
    {
      if first == second {
        return;
      }
      var temp := heap[first];
      heap := heap[first := heap[second]];
      heap := heap[second := temp];
    }

    /** Grows the storage to floor(1.25 * length + 1) slots, padding with
        value-initialised entries; the existing slots are kept. */
    method IncreaseSize()
      modifies this`heap
      ensures |heap| == Grown(old(|heap|)) && heap[..old(|heap|)] == old(heap)
    {
      var newCapacity := Grown(|heap|);
      var blank: V := *;
      heap := heap + seq(newCapacity - |heap|, _ => Entry(blank, 0));
    }

    /** Moves the entry at `pos` up while it is strictly above its parent. Started
        from a heap whose only defect is at `pos`, it leaves a state sift-down can
        finish from `pos` (a full heap if it moved anything). */
    method SiftUp(pos: nat)
      requires HeapExcept(heap, size, pos)
      modifies this`heap
      ensures |heap| == old(|heap|) && heap[size..] == old(heap[size..])
      ensures multiset(heap[..size]) == old(multiset(heap[..size]))
      ensures DownInv(heap, size, 0, pos)
      ensures (pos == 0 || old(heap[pos].priority <= heap[Parent(pos)].priority)) ==> heap == old(heap)
    {
      var k: nat := pos;
      var parentPos := ParentPos(k, size);
      while k != 0 && heap[k].priority > heap[parentPos].priority
        invariant k <= pos && parentPos == ParentPos(k, size)
        invariant HeapExcept(heap, size, k) && (k != pos ==> ChildrenOk(heap, size, k))
        invariant |heap| == old(|heap|) && heap[size..] == old(heap[size..])
        invariant multiset(heap[..size]) == old(multiset(heap[..size]))
        invariant k == pos ==> heap == old(heap)
        invariant (pos == 0 || old(heap[pos].priority <= heap[Parent(pos)].priority)) ==> k == pos
        decreases k
      {
        UpStep(heap, size, k);
        SwapKeepsItems(heap, size, k, parentPos);
        Swap(k, parentPos);
        k := parentPos;
        parentPos := ParentPos(k, size);
      }
      UpDone(heap, size, pos, k);
    }

    /** Moves the entry at `pos` down, each time to the larger child (the right one
        only when strictly larger), until it is at least its larger child. Positions
        outside the live prefix are ignored. The ghost `lo` is the root of the
        region being heapified (0 except during BuildHeap). */
    method SiftDown(pos: nat, ghost lo: nat)
      requires size <= |heap|
      requires pos < size ==> DownInv(heap, size, lo, pos)
      requires pos >= size ==> HeapFrom(heap, size, lo)
      modifies this`heap
      ensures |heap| == old(|heap|) && heap[size..] == old(heap[size..])
      ensures multiset(heap[..size]) == old(multiset(heap[..size]))
      ensures HeapFrom(heap, size, lo)
      ensures pos >= size ==> heap == old(heap)
    {
      if pos >= size {
        return;
      }
      var k: nat := pos;
      while !IsLeaf(k, size)
        invariant DownInv(heap, size, lo, k)
        invariant |heap| == old(|heap|) && heap[size..] == old(heap[size..])
        invariant multiset(heap[..size]) == old(multiset(heap[..size]))
        decreases size - k
      {
        var j := LeftChildPos(k, size);
        assert j == 2 * k + 1 && j < size;
        if j < size - 1 && heap[j].priority < heap[j + 1].priority {
          j := j + 1;
        }
        LargerChild(heap, size, k, j);
        if heap[k].priority >= heap[j].priority {
          DownDone(heap, size, lo, k);
          return;
        }
        DownStep(heap, size, lo, k, j);
        SwapKeepsItems(heap, size, k, j);
        Swap(k, j);
        k := j;
      }
      LeafDone(heap, size, lo, k);
    }

    /** Bottom-up heapify: sift down from size/2 - 1 to 0. */
    method BuildHeap()
      requires size <= |heap|
      modifies this`heap
      ensures Valid() && |heap| == old(|heap|) && heap[size..] == old(heap[size..])
      ensures multiset(heap[..size]) == old(multiset(heap[..size]))
    {
      var pos: nat := size / 2;
      UpperHalfIsHeap(heap, size);
      while pos > 0
        invariant pos <= size / 2 && HeapFrom(heap, size, pos)
        invariant |heap| == old(|heap|) && heap[size..] == old(heap[size..])
        invariant multiset(heap[..size]) == old(multiset(heap[..size]))
      {
        pos := pos - 1;
        SiftDown(pos, pos);
      }
    }

    /** Adds an entry: grows the storage when it is full, writes the entry at the end
        of the live prefix and sifts it up. */
    method Enqueue(value: V, priority: nat)
      requires Valid()
      modifies this
      ensures Valid() && size == old(size) + 1
      ensures multiset(heap[..size]) == old(multiset(heap[..size])) + multiset{Entry(value, priority)}
      ensures |heap| == if old(size) == old(|heap|) then Grown(old(|heap|)) else old(|heap|)
    {
      if size == |heap| {
        IncreaseSize();
      }
      var newEntry := Entry(value, priority);
      var pos := size;
      size := size + 1;
      assert heap[..pos] == old(heap[..size]);
      heap := heap[pos := newEntry];
      assert heap[..size] == old(heap[..size]) + [newEntry];
      SiftUp(pos);
    }

    /** Removes and returns the root entry: the last live entry takes its place and is
        sifted down, and the storage loses its last slot. Fails on an empty queue. */
    method Dequeue() returns (r: Result<Entry<V>>)
      requires Valid()
      modifies this
      ensures Valid()
      ensures old(size) == 0 ==> r == Failure(EmptyQueue) && size == old(size) && heap == old(heap)
      ensures old(size) > 0 ==> r == Success(old(heap[0]))
      ensures old(size) > 0 ==> size == old(size) - 1 && |heap| == old(|heap|) - 1
      ensures old(size) > 0 ==> multiset(heap[..size]) + multiset{r.value} == old(multiset(heap[..size]))
      ensures old(size) > 0 ==> forall i :: 0 <= i < old(size) ==> r.value.priority >= old(heap)[i].priority
    {
      if size == 0 {
        return Failure(EmptyQueue);
      }
      ghost var h0 := heap;
      HeapRootIsMax(heap, size);
      DequeueStart(heap, size);
      Swap(0, size - 1);
      size := size - 1;
      ghost var h1 := heap;
      SiftDown(0, 0);
      assert heap[size] == h1[size] == h0[0];
      var item := heap[size];
      ghost var h2 := heap;
      DropLastSlot(heap, size);
      heap := heap[..|heap| - 1];
      assert multiset(heap[..size]) == multiset(h2[..size]) == multiset(h1[..size]);
      r := Success(item);
    }

    /** The first live position (in storage order) holding `value`, or `End()`. */
    method Find(value: V) returns (it: Iterator<V>)
      requires Valid()
      ensures it.data == this && it.pos <= size
      ensures it.pos < size ==> heap[it.pos].value == value
      ensures forall i :: 0 <= i < it.pos ==> heap[i].value != value
    {
      it := End();
      var i := 0;
      while i < size
        invariant 0 <= i <= size && it == End()
        invariant forall j :: 0 <= j < i ==> heap[j].value != value
      {
        if heap[i].value == value {
          it := Iterator(i, this);
          return;
        }
        i := i + 1;
      }
    }

    /** Sets the priority of the entry a live handle points at, then sifts it up and
        down from that position. */
    method Update(it: Iterator<V>, priority: nat)
      requires Valid() && it.data == this && it.pos < size
      modifies this`heap
      ensures Valid() && |heap| == old(|heap|)
      ensures multiset(heap[..size]) ==
              old(multiset(heap[..size])) - multiset{old(heap[it.pos])} + multiset{Entry(old(heap[it.pos].value), priority)}
    {
      ghost var h0 := heap;
      heap := heap[it.pos := heap[it.pos].(priority := priority)];
      assert heap[..size] == h0[..size][it.pos := heap[it.pos]];
      ChangeKeepsExcept(h0, size, it.pos, heap[it.pos]);
      var pos := Distance(it, Begin());
      SiftUp(pos);
      SiftDown(pos, 0);
    }
  }
}

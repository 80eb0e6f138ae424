/** The `update` test of the priority queue as a verified scenario: the roots the
    test expects after each stage follow from the queue's contracts alone.
 */
module PriorityQueueScenario {
  import Q = DynamicPriorityQueue

  /** The values of the test scenario, the strings "a" to "e"; only their equality
      matters to the queue. */
  datatype Name = A | B | C | D | E

  /** No entry of `rest` holds the value `v`. */
  predicate NoValue<V(==)>(rest: seq<Q.Entry<V>>, v: V)
  {
    forall i :: 0 <= i < |rest| ==> rest[i].value != v
  }

  /** Every entry of `rest` other than `top` has a lower priority than `top`. */
  predicate Outranks<V(==)>(rest: seq<Q.Entry<V>>, top: Q.Entry<V>)
  {
    forall i :: 0 <= i < |rest| && rest[i] != top ==> rest[i].priority < top.priority
  }

  /** The root of a queue in which `top` outranks every other live entry; the live
      entries are those of `rest` and `top`. */
  method PeekUnique(pq: Q.PriorityQueue<Name>, ghost rest: seq<Q.Entry<Name>>, ghost top: Q.Entry<Name>)
    returns (root: Q.Entry<Name>)
    requires pq.Valid() && multiset(pq.heap[..pq.size]) == multiset(rest + [top])
    requires Outranks(rest, top)
    ensures root == top
  {
    assert forall x :: x in multiset(pq.heap[..pq.size]) && x != top ==> x in rest;
    Q.RootIsUniqueMax(pq.heap, pq.size, top);
    root := pq.Get(pq.Begin());
  }

  /** One stage of the test scenario: finds the entry holding `v` (the only one with
      that value), gives it priority `p`, and reads the root. The live entries are those
      of `rest` and `before`; `top` is the new entry or one of `rest`, and outranks the
      others afterwards. */
  method UpdateAndPeek(pq: Q.PriorityQueue<Name>, v: Name, p: nat, ghost before: Q.Entry<Name>,
                       ghost rest: seq<Q.Entry<Name>>, ghost top: Q.Entry<Name>)
    returns (root: Q.Entry<Name>)
    requires pq.Valid() && multiset(pq.heap[..pq.size]) == multiset(rest + [before])
    requires before.value == v && NoValue(rest, v)
    requires top in rest || top == Q.Entry(v, p)
    requires Outranks(rest, top) && (Q.Entry(v, p) != top ==> p < top.priority)
    modifies pq
    ensures pq.Valid() && multiset(pq.heap[..pq.size]) == multiset(rest + [Q.Entry(v, p)])
    ensures root == top
  {
    assert before in multiset(pq.heap[..pq.size]);
    var it := pq.Find(v);
    assert pq.heap[..pq.size][it.pos] in multiset(pq.heap[..pq.size]);
    assert pq.heap[it.pos] !in rest;
    pq.Update(it, p);
    assert multiset(pq.heap[..pq.size]) == multiset(rest + [Q.Entry(v, p)]);
    assert forall x :: x in multiset(pq.heap[..pq.size]) && x != top ==> x.priority < top.priority;
    Q.RootIsUniqueMax(pq.heap, pq.size, top);
    root := pq.Get(pq.Begin());
  }

  /** Enqueues the entries in order into an empty queue. */
  method EnqueueAll<V(==,0)>(pq: Q.PriorityQueue<V>, entries: seq<Q.Entry<V>>)
    requires pq.Valid() && pq.size == 0
    modifies pq
    ensures pq.Valid() && multiset(pq.heap[..pq.size]) == multiset(entries)
  {
    assert pq.heap[..pq.size] == [];
    var k := 0;
    while k < |entries|
      invariant k <= |entries| && pq.Valid()
      invariant multiset(pq.heap[..pq.size]) == multiset(entries[..k])
    {
      assert entries[..k + 1] == entries[..k] + [entries[k]];
      pq.Enqueue(entries[k].value, entries[k].priority);
      k := k + 1;
    }
    assert entries[..k] == entries;
  }

  /** After a..e are enqueued, e(5) outranks the rest. */
  lemma EnqueuedItems()
    ensures multiset([Q.Entry(A, 1), Q.Entry(B, 2), Q.Entry(C, 3), Q.Entry(D, 4), Q.Entry(E, 5)]) ==
      multiset([Q.Entry(A, 1), Q.Entry(B, 2), Q.Entry(C, 3), Q.Entry(D, 4)] + [Q.Entry(E, 5)])
  {
    assert [Q.Entry(A, 1), Q.Entry(B, 2), Q.Entry(C, 3), Q.Entry(D, 4), Q.Entry(E, 5)] ==
      [Q.Entry(A, 1), Q.Entry(B, 2), Q.Entry(C, 3), Q.Entry(D, 4)] + [Q.Entry(E, 5)];
  }

  /** The same contents, split around a(1), the entry the second stage updates. */
  lemma UpdateAItems()
    ensures multiset([Q.Entry(A, 1), Q.Entry(B, 2), Q.Entry(C, 3), Q.Entry(D, 4), Q.Entry(E, 5)]) ==
      multiset([Q.Entry(B, 2), Q.Entry(C, 3), Q.Entry(D, 4), Q.Entry(E, 5)] + [Q.Entry(A, 1)])
  {
  }

  /** The contents after a is lowered to 2, split around e(5), the entry the last stage
      updates. */
  lemma UpdateEItems()
    ensures multiset([Q.Entry(B, 2), Q.Entry(C, 3), Q.Entry(D, 4), Q.Entry(E, 5)] + [Q.Entry(A, 2)]) ==
      multiset([Q.Entry(B, 2), Q.Entry(C, 3), Q.Entry(D, 4), Q.Entry(A, 2)] + [Q.Entry(E, 5)])
  {
  }

  /** Which entry outranks the others at each stage, and that the updated value is held
      by no other entry. */
  lemma StageRanks()
    ensures Outranks([Q.Entry(A, 1), Q.Entry(B, 2), Q.Entry(C, 3), Q.Entry(D, 4)], Q.Entry(E, 5))
    ensures NoValue([Q.Entry(B, 2), Q.Entry(C, 3), Q.Entry(D, 4), Q.Entry(E, 5)], A)
    ensures Outranks([Q.Entry(B, 2), Q.Entry(C, 3), Q.Entry(D, 4), Q.Entry(E, 5)], Q.Entry(A, 6))
    ensures Outranks([Q.Entry(B, 2), Q.Entry(C, 3), Q.Entry(D, 4), Q.Entry(E, 5)], Q.Entry(E, 5))
    ensures NoValue([Q.Entry(B, 2), Q.Entry(C, 3), Q.Entry(D, 4), Q.Entry(A, 2)], E)
    ensures Outranks([Q.Entry(B, 2), Q.Entry(C, 3), Q.Entry(D, 4), Q.Entry(A, 2)], Q.Entry(D, 4))
  {
  }

  /** The test scenario for `update`: entries a..e enqueued with priorities 1..5, then
      a raised to 6, a lowered to 2 and e lowered to 1; the root after each stage. */
  method UpdateScenario() returns (roots: seq<Q.Entry<Name>>)
    ensures roots == [Q.Entry(E, 5), Q.Entry(A, 6), Q.Entry(E, 5), Q.Entry(D, 4)]
  {
    var pq := new Q.PriorityQueue<Name>();
    EnqueueAll(pq, [Q.Entry(A, 1), Q.Entry(B, 2), Q.Entry(C, 3), Q.Entry(D, 4), Q.Entry(E, 5)]);
    EnqueuedItems();
    StageRanks();
    var first := PeekUnique(pq, [Q.Entry(A, 1), Q.Entry(B, 2), Q.Entry(C, 3), Q.Entry(D, 4)], Q.Entry(E, 5));
    UpdateAItems();
    var second := UpdateAndPeek(pq, A, 6, Q.Entry(A, 1), [Q.Entry(B, 2), Q.Entry(C, 3), Q.Entry(D, 4), Q.Entry(E, 5)], Q.Entry(A, 6));
    var third := UpdateAndPeek(pq, A, 2, Q.Entry(A, 6), [Q.Entry(B, 2), Q.Entry(C, 3), Q.Entry(D, 4), Q.Entry(E, 5)], Q.Entry(E, 5));
    UpdateEItems();
    var fourth := UpdateAndPeek(pq, E, 1, Q.Entry(E, 5), [Q.Entry(B, 2), Q.Entry(C, 3), Q.Entry(D, 4), Q.Entry(A, 2)], Q.Entry(D, 4));
    roots := [first, second, third, fourth];
  }
}
